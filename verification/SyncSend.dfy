/** What the return of a synchronous `send` tells its caller. */
module SyncSend {
  import opened Queues
  import opened QueueProtocol
  import opened Stranding

  /** Message `k` has been received and its handler has run. */
  ghost predicate Handled(s: State, k: nat) {
    k < |s.sent| && s.sent[k] in s.received && !InHand(s, s.sent[k])
  }

  /** Message `k` has been handled and `status` is what its handler made of it. */
  ghost predicate Settled(s: State, k: nat, status: Status) {
    Handled(s, k) && k in s.verdicts && s.verdicts[k] == status
  }

  predicate InHand(s: State, m: Message) {
    (s.worker.Handling? || s.worker.Replying?) && s.worker.m == m
  }

  /** What the callers agree on: the ids sent synchronously, those sent without waiting, and
      those removed. */
  datatype Policy = Policy(sync: set<nat>, async: set<nat>, removed: set<nat>)

  predicate Allowed(step: Step, p: Policy) {
    match step
    case Send(id, _) => id in p.async
    case SendAndWait(_, id, _, _) => id in p.sync
    case RemoveBegin(_, id) => id in p.removed
    case _ => true
  }

  predicate AllAllowed(steps: seq<Step>, p: Policy) {
    forall i | 0 <= i < |steps| :: Allowed(steps[i], p)
  }

  /** The step is allowed, or begins to remove from an empty queue, which anybody may. */
  predicate AllowedIn(s: State, step: Step, p: Policy) {
    Allowed(step, p) || (step.RemoveBegin? && s.pending == [])
  }

  ghost predicate AllowedRun(s: State, steps: seq<Step>, p: Policy)
    decreases |steps|
  {
    steps == [] ||
    (Enabled(s, steps[0]) && AllowedIn(s, steps[0], p) && AllowedRun(Apply(s, steps[0]), steps[1..], p))
  }

  lemma {:induction false} AllAllowedIsAllowed(s: State, steps: seq<Step>, p: Policy)
    requires Run(s, steps) && AllAllowed(steps, p)
    ensures AllowedRun(s, steps, p)
    decreases |steps|
  {
    if steps == [] {
    } else {
      assert Allowed(steps[0], p);
      AllAllowedIsAllowed(Apply(s, steps[0]), steps[1..], p);
    }
  }

  /** An id that is sent synchronously is not used in any other way. */
  predicate Separated(p: Policy) {
    p.sync !! p.async + p.removed
  }

  ghost predicate Awaited(s: State, m: Message) {
    exists t | t in s.callers :: s.callers[t].ticket == m.ticket
  }

  /** Every synchronous message that is not handled yet has its caller waiting. */
  ghost predicate AwaitInv(s: State, sync: set<nat>) {
    && (forall t | t in s.removers :: s.removers[t].id !in sync)
    && (forall t | t in s.callers :: s.callers[t].id in sync && s.callers[t].id < |s.replies|)
    && (forall m | (m in s.pending || InHand(s, m)) && m.id in sync :: Awaited(s, m))
  }

  /** An answered caller's message has been handled, and the answer is its verdict. */
  ghost predicate SettledInv(s: State) {
    && (forall t | t in s.callers && s.callers[t].id < |s.replies| && s.replies[s.callers[t].id] != WouldBlock ::
          Settled(s, s.callers[t].ticket, s.replies[s.callers[t].id]))
    && (forall k | k in s.returned :: k in s.results && Settled(s, k, s.results[k]))
    && (s.worker.Replying? ==> s.worker.m.ticket in s.verdicts && s.verdicts[s.worker.m.ticket] == s.worker.status)
  }

  ghost predicate AnswerInv(s: State, sync: set<nat>) {
    AwaitInv(s, sync) && SettledInv(s)
  }

  /** A message is received or pending, not both, and known by its ticket. */
  lemma Where(s: State)
    requires FifoInv(s)
    ensures forall m | m in s.pending :: m !in s.received && m.ticket < |s.sent| && s.sent[m.ticket] == m
    ensures forall m | m in s.received :: m.ticket < |s.sent| && s.sent[m.ticket] == m
  {
    InOrder(s);
    Apart(s.received, s.pending);
    assert forall m | m in s.pending :: m in s.received + s.pending;
    assert forall m | m in s.received :: m in s.received + s.pending;
  }

  lemma SendAwait(s: State, step: Step, sync: set<nat>)
    requires AwaitInv(s, sync) && Enabled(s, step)
    requires step.Send? || step.SendAndWait?
    requires step.id in sync <==> step.SendAndWait?
    requires step.SendAndWait? ==> step.replyId == step.id
    ensures AwaitInv(Apply(s, step), sync)
  {
    var e := Apply(s, step);
    forall m | (m in s.pending || InHand(s, m)) && m.id in sync
      ensures Awaited(e, m)
    {
      var t :| t in s.callers && s.callers[t].ticket == m.ticket;
      assert e.callers[t] == s.callers[t];
    }
    if step.SendAndWait? {
      assert e.callers[step.thread].ticket == |s.sent|;
    }
  }

  lemma SendSettled(s: State, step: Step)
    requires SettledInv(s) && Enabled(s, step) && Disciplined(s, step)
    requires step.Send? || step.SendAndWait?
    ensures SettledInv(Apply(s, step))
  {
    var e := Apply(s, step);
    assert forall k, v | Settled(s, k, v) :: Settled(e, k, v);
    if step.SendAndWait? {
      forall t | t in s.callers
        ensures e.callers[t] == s.callers[t] && e.callers[t].id != step.replyId
      {
      }
    }
  }

  lemma ReceiveAwait(s: State, sync: set<nat>)
    requires AwaitInv(s, sync) && Enabled(s, Receive)
    ensures AwaitInv(Apply(s, Receive), sync)
  {
    var e := Apply(s, Receive);
    forall m | (m in e.pending || InHand(e, m)) && m.id in sync
      ensures Awaited(e, m)
    {
      assert m in s.pending;
      var t :| t in s.callers && s.callers[t].ticket == m.ticket;
      assert t in e.callers;
    }
  }

  lemma ReceiveSettled(s: State)
    requires FifoInv(s) && SettledInv(s) && Enabled(s, Receive)
    ensures SettledInv(Apply(s, Receive))
  {
    Where(s);
    assert s.pending[0] in s.pending;
    assert forall k, v | Settled(s, k, v) :: Settled(Apply(s, Receive), k, v);
  }

  lemma ReplyAwait(s: State, woken: nat, sync: set<nat>)
    requires AwaitInv(s, sync) && Enabled(s, Reply(woken))
    ensures AwaitInv(Apply(s, Reply(woken)), sync)
  {
    var e := Apply(s, Reply(woken));
    forall m | m in s.pending && m.id in sync
      ensures Awaited(e, m)
    {
      var t :| t in s.callers && s.callers[t].ticket == m.ticket;
      assert e.callers[t].ticket == m.ticket;
    }
  }

  /** The caller of the message in hand is the only one on its id, so a reply reaches the
      caller it is meant for. */
  lemma ReplySettled(s: State, woken: nat, sync: set<nat>)
    requires WakeInv(s) && AnswerInv(s, sync) && Enabled(s, Reply(woken))
    ensures SettledInv(Apply(s, Reply(woken)))
  {
    Where(s);
    var e, m := Apply(s, Reply(woken)), s.worker.m;
    assert m in s.received;
    assert forall k, v | Settled(s, k, v) :: Settled(e, k, v);
    assert Settled(e, m.ticket, s.worker.status);
    forall t | t in e.callers && e.callers[t].id < |e.replies| && e.replies[e.callers[t].id] != WouldBlock
      ensures Settled(e, e.callers[t].ticket, e.replies[e.callers[t].id])
    {
      assert CallerOk(s, s.callers[t]);
      if s.callers[t].id == m.id {
        var u :| u in s.callers && s.callers[u].ticket == m.ticket;
        assert CallerOk(s, s.callers[u]);
        assert u == t;
      }
    }
  }

  lemma NotSettledYet(s: State, m: Message)
    requires FifoInv(s) && (m in s.pending || InHand(s, m))
    ensures !Handled(s, m.ticket)
  {
    Where(s);
    if InHand(s, m) {
      assert m in s.received;
    }
  }

  /** A caller leaves only when its own message is done, so nobody waits in vain. */
  lemma LeaveAwait(s: State, thread: nat, sync: set<nat>)
    requires FifoInv(s) && AnswerInv(s, sync) && Enabled(s, CheckReply(thread))
    ensures AwaitInv(Apply(s, CheckReply(thread)), sync)
  {
    var e := Apply(s, CheckReply(thread));
    forall m | (m in s.pending || InHand(s, m)) && m.id in sync
      ensures Awaited(e, m)
    {
      var t :| t in s.callers && s.callers[t].ticket == m.ticket;
      if t == thread {
        NotSettledYet(s, m);
      }
      assert t in e.callers && e.callers[t].ticket == m.ticket;
    }
  }

  lemma LeaveSettled(s: State, thread: nat)
    requires SettledInv(s) && Enabled(s, CheckReply(thread))
    ensures SettledInv(Apply(s, CheckReply(thread)))
  {
    var e := Apply(s, CheckReply(thread));
    assert forall k, v | Settled(s, k, v) :: Settled(e, k, v);
  }

  lemma QuietAwait(s: State, step: Step, sync: set<nat>)
    requires AwaitInv(s, sync) && Enabled(s, step)
    requires step.SpuriousWake? || step.ReceiveWait? || step.SpuriousNotify? || step.Handle?
    ensures AwaitInv(Apply(s, step), sync)
  {
    var e := Apply(s, step);
    forall m | (m in s.pending || InHand(s, m)) && m.id in sync
      ensures Awaited(e, m)
    {
      var t :| t in s.callers && s.callers[t].ticket == m.ticket;
      assert e.callers[t].ticket == m.ticket;
    }
  }

  lemma QuietSettled(s: State, step: Step)
    requires FifoInv(s) && SettledInv(s) && Enabled(s, step)
    requires step.SpuriousWake? || step.ReceiveWait? || step.SpuriousNotify? || step.Handle?
    ensures SettledInv(Apply(s, step))
  {
    var e := Apply(s, step);
    if step.Handle? {
      Where(s);
      assert s.worker.m in s.received;
    }
    assert forall k, v | Settled(s, k, v) :: Settled(e, k, v);
  }

  /** Removing an id that nobody waits on leaves the waiting callers and their messages. */
  lemma RemoveLeaves(s: State, step: Step, sync: set<nat>)
    requires AwaitInv(s, sync) && Enabled(s, step)
    requires step.RemoveBegin? || step.RemoveFilter? || step.RemoveReply?
    ensures var e := Apply(s, step);
      && e.callers == s.callers && e.worker == s.worker && e.sent == s.sent && e.received == s.received
      && e.verdicts == s.verdicts && e.returned == s.returned && e.results == s.results
      && (forall m | m in e.pending :: m in s.pending)
      && |e.replies| == |s.replies| && forall id | id in sync && id < |s.replies| :: e.replies[id] == s.replies[id]
  {
    match step
    case RemoveBegin(_, _) =>
    case RemoveFilter(t) => WithoutMembers(s.pending, s.removers[t].id);
    case RemoveReply(t, woken) => assert !Asleep(s, woken, s.removers[t].id);
  }

  lemma RemoveAwait(s: State, step: Step, sync: set<nat>)
    requires AwaitInv(s, sync) && Enabled(s, step)
    requires step.RemoveBegin? || step.RemoveFilter? || step.RemoveReply?
    requires step.RemoveBegin? ==> step.id !in sync || s.pending == []
    ensures AwaitInv(Apply(s, step), sync)
  {
    RemoveLeaves(s, step, sync);
    var e := Apply(s, step);
    forall m | (m in s.pending || InHand(s, m)) && m.id in sync
      ensures Awaited(e, m)
    {
      var t :| t in s.callers && s.callers[t].ticket == m.ticket;
      assert e.callers[t].ticket == m.ticket;
    }
    assert forall t | t in e.removers :: t in s.removers || step.RemoveBegin?;
  }

  lemma RemoveSettled(s: State, step: Step, sync: set<nat>)
    requires AnswerInv(s, sync) && Enabled(s, step)
    requires step.RemoveBegin? || step.RemoveFilter? || step.RemoveReply?
    ensures SettledInv(Apply(s, step))
  {
    RemoveLeaves(s, step, sync);
    assert forall k, v | Settled(s, k, v) :: Settled(Apply(s, step), k, v);
  }

  lemma AnswerStep(s: State, step: Step, p: Policy)
    requires WakeInv(s) && AnswerInv(s, p.sync) && Enabled(s, step) && Disciplined(s, step)
    requires AllowedIn(s, step, p) && Separated(p)
    ensures AnswerInv(Apply(s, step), p.sync)
  {
    match step
    case Send(_, _) => SendAwait(s, step, p.sync); SendSettled(s, step);
    case SendAndWait(_, _, _, _) => SendAwait(s, step, p.sync); SendSettled(s, step);
    case Receive => ReceiveAwait(s, p.sync); ReceiveSettled(s);
    case Reply(woken) => ReplyAwait(s, woken, p.sync); ReplySettled(s, woken, p.sync);
    case CheckReply(t) => LeaveAwait(s, t, p.sync); LeaveSettled(s, t);
    case RemoveBegin(_, _) => RemoveAwait(s, step, p.sync); RemoveSettled(s, step, p.sync);
    case RemoveFilter(_) => RemoveAwait(s, step, p.sync); RemoveSettled(s, step, p.sync);
    case RemoveReply(_, _) => RemoveAwait(s, step, p.sync); RemoveSettled(s, step, p.sync);
    case _ => QuietAwait(s, step, p.sync); QuietSettled(s, step);
  }

  lemma {:induction false} AnswerAlways(s: State, steps: seq<Step>, p: Policy)
    requires WakeInv(s) && AnswerInv(s, p.sync) && DisciplinedRun(s, steps) && Run(s, steps)
    requires AllowedRun(s, steps, p) && Separated(p)
    ensures AnswerInv(After(s, steps), p.sync)
    decreases |steps|
  {
    if steps == [] {
    } else {
      WakeStep(s, steps[0]);
      AnswerStep(s, steps[0], p);
      AnswerAlways(Apply(s, steps[0]), steps[1..], p);
    }
  }

  /** In every disciplined run under a policy that keeps synchronous ids apart, a synchronous
      send returns only after its own message has been handled, and returns what the handler
      made of it. Removals that begin on an empty queue are free. */
  lemma ReturnedMeansHandled(s: State, steps: seq<Step>, p: Policy)
    requires Init(s) && DisciplinedRun(s, steps) && AllowedRun(s, steps, p) && Separated(p)
    ensures Run(s, steps)
    ensures var e := After(s, steps);
      forall k | k in e.returned ::
        && Handled(e, k) && k in e.results && k in e.verdicts && e.results[k] == e.verdicts[k]
  {
    DisciplinedRunIsRun(s, steps);
    AnswerAlways(s, steps, p);
  }

  /** The statuses of the handlers that run in `steps`, in their order. */
  function Statuses(steps: seq<Step>): (r: seq<Status>) {
    if steps == [] then []
    else (if steps[0].Handle? then [steps[0].status] else []) + Statuses(steps[1..])
  }

  /** The messages received and handled got the verdicts `given`, in their order. */
  ghost predicate GivenInOrder(s: State, given: seq<Status>) {
    && |given| == |s.received| - (if s.worker.Handling? then 1 else 0)
    && forall i | 0 <= i < |given| :: s.received[i].ticket in s.verdicts && s.verdicts[s.received[i].ticket] == given[i]
  }

  lemma GivenHandle(s: State, step: Step, given: seq<Status>)
    requires FifoInv(s) && step.Handle? && Enabled(s, step) && GivenInOrder(s, given)
    ensures GivenInOrder(Apply(s, step), given + [step.status])
  {
    InOrder(s);
    var all, n := s.received + s.pending, |given|;
    assert all[n] == s.received[n] == s.worker.m;
    forall i | 0 <= i < n
      ensures s.received[i].ticket != s.worker.m.ticket
    {
      assert all[i] == s.received[i];
    }
  }

  lemma GivenStep(s: State, step: Step, given: seq<Status>)
    requires FifoInv(s) && Enabled(s, step) && GivenInOrder(s, given)
    ensures GivenInOrder(Apply(s, step), given + if step.Handle? then [step.status] else [])
  {
    if step.Handle? {
      GivenHandle(s, step, given);
    } else {
      var e := Apply(s, step);
      assert given + [] == given;
      assert e.verdicts == s.verdicts && s.received <= e.received;
    }
  }

  lemma {:induction false} GivenAlways(s: State, steps: seq<Step>, given: seq<Status>)
    requires FifoInv(s) && Run(s, steps) && GivenInOrder(s, given)
    ensures GivenInOrder(After(s, steps), given + Statuses(steps))
    decreases |steps|
  {
    if steps == [] {
      assert given + Statuses(steps) == given;
    } else {
      var now := if steps[0].Handle? then [steps[0].status] else [];
      FifoStep(s, steps[0]);
      GivenStep(s, steps[0], given);
      GivenAlways(Apply(s, steps[0]), steps[1..], given + now);
      assert given + Statuses(steps) == given + now + Statuses(steps[1..]);
    }
  }

  /** In every run the handler that runs as the i-th gives the i-th message received its
      verdict, and all messages received but the one in the handler's hands have theirs. */
  lemma HandlersDecide(s: State, steps: seq<Step>)
    requires Init(s) && Run(s, steps)
    ensures var e, given := After(s, steps), Statuses(steps);
      && |given| == |e.received| - (if e.worker.Handling? then 1 else 0)
      && forall i | 0 <= i < |given| :: e.received[i].ticket in e.verdicts && e.verdicts[e.received[i].ticket] == given[i]
  {
    GivenAlways(s, steps, []);
    assert [] + Statuses(steps) == Statuses(steps);
  }

  /** No run under the policy and the rules, with any number of reply slots, lets a synchronous
      send return before its message has been handled. */
  ghost predicate ReturnsAreSafe(p: Policy, r: Rules) {
    forall s: State, steps: seq<Step> |
      Init(s) && Run(s, steps) && PoliteRun(s, steps, r) && AllowedRun(s, steps, p) ::
      ReturnedHandled(After(s, steps))
  }

  ghost predicate ReturnedHandled(e: State) {
    forall k | k in e.returned :: Handled(e, k)
  }

  /** A message sent without waiting is about to be answered. */
  ghost function AnswerDue(id: nat): (s: State) {
    var m := Message(id, 0, 0);
    Slots(id + 1).(sent := [m], received := [m], worker := Replying(m, NoError), verdicts := map[0 := NoError])
  }

  lemma AnswerDueRun(id: nat)
    ensures var s := Slots(id + 1); var steps := [Send(id, 0), Receive, Handle(NoError, false)];
      DisciplinedRun(s, steps) && Run(s, steps) && After(s, steps) == AnswerDue(id)
  {
    var s := Slots(id + 1);
    var s2 := Apply(Apply(s, Send(id, 0)), Receive);
    assert Apply(s2, Handle(NoError, false)) == AnswerDue(id);
    Three(s, Send(id, 0), Receive, Handle(NoError, false));
  }

  lemma WrongAnswer(id: nat)
    ensures var s := AnswerDue(id); var steps := [SendAndWait(0, id, 0, id), Reply(0), CheckReply(0)];
      DisciplinedRun(s, steps) && Run(s, steps) && !ReturnedHandled(After(s, steps))
  {
    var s := AnswerDue(id);
    var n := Message(id, 0, 1);
    var s1 := Apply(s, SendAndWait(0, id, 0, id));
    assert s1.callers == map[0 := Checking(id, 1)] && s1.pending == [n];
    var s2 := Apply(s1, Reply(0));
    assert s2.callers == s1.callers && s2.replies[id] == NoError;
    Three(s, SendAndWait(0, id, 0, id), Reply(0), CheckReply(0));
    var e := Apply(s2, CheckReply(0));
    assert 1 in e.returned && e.sent[1] == n && e.received == [Message(id, 0, 0)];
    assert !Handled(e, 1);
  }

  /** An id sent both ways: the answer to the message that nobody waits for goes to the
      caller of the other. */
  lemma BothWaysAnswersEarly(id: nat) returns (steps: seq<Step>)
    ensures var s := Slots(id + 1);
      && DisciplinedRun(s, steps) && Run(s, steps) && !ReturnedHandled(After(s, steps))
      && AllAllowed(steps, Policy({id}, {id}, {})) && NeverStops(steps)
  {
    var first := [Send(id, 0), Receive, Handle(NoError, false)];
    var rest := [SendAndWait(0, id, 0, id), Reply(0), CheckReply(0)];
    AnswerDueRun(id);
    WrongAnswer(id);
    Join(Slots(id + 1), first, rest);
    steps := first + rest;
  }

  /** Thread 0 waits for its message, which is queued, and thread 1 is about to remove it. */
  ghost function RemovalBegun(id: nat): (s: State) {
    Slots(id + 1).(sent := [Message(id, 0, 0)], pending := [Message(id, 0, 0)], replies := Slots(id + 1).replies[id := WouldBlock],
      callers := map[0 := Checking(id, 0)], removers := map[1 := Filtering(id)])
  }

  lemma RemovalBegunRun(id: nat)
    ensures var s := Slots(id + 1); var steps := [SendAndWait(0, id, 0, id), RemoveBegin(1, id)];
      DisciplinedRun(s, steps) && Run(s, steps) && After(s, steps) == RemovalBegun(id)
  {
    var s := Slots(id + 1);
    var s1 := Apply(s, SendAndWait(0, id, 0, id));
    assert Apply(s1, RemoveBegin(1, id)) == RemovalBegun(id);
    Then(s1, RemoveBegin(1, id), []);
    Then(s, SendAndWait(0, id, 0, id), [RemoveBegin(1, id)]);
    assert [SendAndWait(0, id, 0, id), RemoveBegin(1, id)] == [SendAndWait(0, id, 0, id)] + [RemoveBegin(1, id)];
  }

  lemma RemovalAnswers(id: nat)
    ensures var s := RemovalBegun(id); var steps := [RemoveFilter(1), RemoveReply(1, 0), CheckReply(0)];
      DisciplinedRun(s, steps) && Run(s, steps) && !ReturnedHandled(After(s, steps))
      && After(s, steps).results == map[0 := InvalidOperation]
  {
    var s := RemovalBegun(id);
    var s1 := Apply(s, RemoveFilter(1));
    assert s1.callers == s.callers && s1.removers[1].ReplyDue? && s1.removers[1].id == id;
    var s2 := Apply(s1, RemoveReply(1, 0));
    assert s2.callers == s.callers && s2.replies[id] == InvalidOperation;
    Three(s, RemoveFilter(1), RemoveReply(1, 0), CheckReply(0));
    var e := Apply(s2, CheckReply(0));
    assert 0 in e.returned && e.received == [];
    assert !Handled(e, 0);
  }

  /** An id sent synchronously and removed: the caller returns although its message has not
      even been received. */
  lemma RemovedIsNotHandled(id: nat) returns (steps: seq<Step>)
    ensures var s := Slots(id + 1);
      && DisciplinedRun(s, steps) && Run(s, steps) && !ReturnedHandled(After(s, steps))
      && After(s, steps).results == map[0 := InvalidOperation]
      && AllAllowed(steps, Policy({id}, {}, {id})) && NeverStops(steps)
  {
    var first := [SendAndWait(0, id, 0, id), RemoveBegin(1, id)];
    var rest := [RemoveFilter(1), RemoveReply(1, 0), CheckReply(0)];
    RemovalBegunRun(id);
    RemovalAnswers(id);
    Join(Slots(id + 1), first, rest);
    steps := first + rest;
    assert steps == [SendAndWait(0, id, 0, id), RemoveBegin(1, id), RemoveFilter(1), RemoveReply(1, 0), CheckReply(0)];
  }

  /** Two messages with one id are sent synchronously, the first with a wait on `reply`, and the
      first has been handled. */
  ghost function SharedSlot(id: nat, reply: nat): (s: State)
    requires reply <= id + 1
  {
    var m, k, s := Message(id, 0, 0), Message(id, 0, 1), Slots(id + 2);
    s.(replies := s.replies[reply := WouldBlock][id := WouldBlock],
       callers := map[0 := Checking(reply, 0), 1 := Checking(id, 1)],
       sent := [m, k], received := [m], pending := [k], worker := Replying(m, NoError),
       verdicts := map[0 := NoError])
  }

  /** The same with both messages queued. */
  ghost function SharedSent(id: nat, reply: nat): (s: State)
    requires reply <= id + 1
  {
    var m, k, s := Message(id, 0, 0), Message(id, 0, 1), Slots(id + 2);
    s.(replies := s.replies[reply := WouldBlock][id := WouldBlock],
       callers := map[0 := Checking(reply, 0), 1 := Checking(id, 1)],
       sent := [m, k], pending := [m, k])
  }

  predicate Shares(id: nat, reply: nat, r: Rules) {
    (reply == id && r.n == 2) || (reply == id + 1 && r.n == 1 && !r.own)
  }

  lemma SharedSentRun(id: nat, reply: nat, rest: seq<Step>, r: Rules)
    requires Shares(id, reply, r)
    requires PoliteRun(SharedSent(id, reply), rest, r) && Run(SharedSent(id, reply), rest)
    ensures var s, steps := Slots(id + 2), [SendAndWait(0, id, 0, reply)] + ([SendAndWait(1, id, 0, id)] + rest);
      PoliteRun(s, steps, r) && Run(s, steps) && After(s, steps) == After(SharedSent(id, reply), rest)
  {
    var s := Slots(id + 2);
    var a, b := SendAndWait(0, id, 0, reply), SendAndWait(1, id, 0, id);
    assert CallersOn(s, reply) == {};
    var s1 := Apply(s, a);
    assert CallersOn(s1, id) == if reply == id then {0} else {};
    assert Apply(s1, b) == SharedSent(id, reply);
    PoliteThen(s1, b, rest, r);
    PoliteThen(s, a, [b] + rest, r);
  }

  lemma SharedSlotRun(id: nat, reply: nat, rest: seq<Step>, r: Rules)
    requires Shares(id, reply, r)
    requires PoliteRun(SharedSlot(id, reply), rest, r) && Run(SharedSlot(id, reply), rest)
    ensures var s, steps := SharedSent(id, reply), [Receive] + ([Handle(NoError, false)] + rest);
      PoliteRun(s, steps, r) && Run(s, steps) && After(s, steps) == After(SharedSlot(id, reply), rest)
  {
    var s := SharedSent(id, reply);
    var s1 := Apply(s, Receive);
    assert Apply(s1, Handle(NoError, false)) == SharedSlot(id, reply);
    PoliteThen(s1, Handle(NoError, false), rest, r);
    PoliteThen(s, Receive, [Handle(NoError, false)] + rest, r);
  }

  /** The answer goes to the second caller, whose message is still queued. */
  lemma SharedSlotReturn(id: nat, reply: nat, r: Rules)
    requires Shares(id, reply, r)
    ensures var s, steps := SharedSlot(id, reply), [Reply(0)] + [CheckReply(1)];
      PoliteRun(s, steps, r) && Run(s, steps) && !ReturnedHandled(After(s, steps))
  {
    var s := SharedSlot(id, reply);
    var s1 := Apply(s, Reply(0));
    assert s1.callers == s.callers && s1.replies[id] == NoError;
    var e := Apply(s1, CheckReply(1));
    PoliteThen(s1, CheckReply(1), [], r);
    PoliteThen(s, Reply(0), [CheckReply(1)], r);
    assert 1 in e.returned && e.sent[1] == Message(id, 0, 1) && e.received == [Message(id, 0, 0)];
    assert !Handled(e, 1);
  }

  /** The answer to the first message then goes to the caller of the second: with two callers
      on one id, for every id, and with one that waits on another id than its message's. */
  lemma SharedSlotAnswersEarly(id: nat, reply: nat, r: Rules) returns (steps: seq<Step>)
    requires (reply == id && r.n == 2) || (reply == id + 1 && r.n == 1 && !r.own)
    ensures var s := Slots(id + 2);
      && PoliteRun(s, steps, r) && Run(s, steps) && !ReturnedHandled(After(s, steps))
      && AllAllowed(steps, Policy({id}, {}, {}))
  {
    steps := [Reply(0)] + [CheckReply(1)];
    SharedSlotReturn(id, reply, r);
    SharedSlotRun(id, reply, steps, r);
    steps := [Receive] + ([Handle(NoError, false)] + steps);
    SharedSentRun(id, reply, steps, r);
    steps := [SendAndWait(0, id, 0, reply)] + ([SendAndWait(1, id, 0, id)] + steps);
  }

  predicate NeverStops(steps: seq<Step>) {
    forall i | 0 <= i < |steps| && steps[i].Handle? :: !steps[i].stop
  }

  lemma {:induction false} DisciplinedIsPolite(s: State, steps: seq<Step>)
    requires DisciplinedRun(s, steps) && s.running && NeverStops(steps)
    ensures PoliteRun(s, steps, Rules(1, true, false, false))
    decreases |steps|
  {
    if steps == [] {
    } else {
      var step := steps[0];
      if step.SendAndWait? {
        assert CallersOn(s, step.replyId) == {};
      }
      DisciplinedIsPolite(Apply(s, step), steps[1..]);
    }
  }

  lemma {:induction false} NothingReturns(s: State, steps: seq<Step>, p: Policy)
    requires Run(s, steps) && AllowedRun(s, steps, p) && p.sync == {} && s.callers == map[] && s.returned == {}
    ensures After(s, steps).callers == map[] && After(s, steps).returned == {}
    decreases |steps|
  {
    if steps == [] {
    } else {
      NothingReturns(Apply(s, steps[0]), steps[1..], p);
    }
  }

  lemma EarlyReturn(p: Policy, r: Rules)
    requires p.sync != {} && r.n > 0 && (r.n > 1 || !r.own || !Separated(p))
    ensures !ReturnsAreSafe(p, r)
  {
    if r.n > 1 || !r.own {
      var id :| id in p.sync;
      var a := if r.n > 1 then Rules(2, true, false, false) else Rules(1, false, false, false);
      var steps := SharedSlotAnswersEarly(id, if r.n > 1 then id else id + 1, a);
      StillPolite(Slots(id + 2), steps, a, r);
      AllAllowedIsAllowed(Slots(id + 2), steps, p);
      assert !ReturnedHandled(After(Slots(id + 2), steps));
    } else {
      var id :| id in p.sync && id in p.async + p.removed;
      var steps;
      if id in p.async {
        steps := BothWaysAnswersEarly(id);
      } else {
        steps := RemovedIsNotHandled(id);
      }
      DisciplinedIsPolite(Slots(id + 1), steps);
      StillPolite(Slots(id + 1), steps, Rules(1, true, false, false), r);
      AllAllowedIsAllowed(Slots(id + 1), steps, p);
      assert !ReturnedHandled(After(Slots(id + 1), steps));
    }
  }

  /** A synchronous return means that the message was handled exactly when nothing is sent
      synchronously, or nobody may wait, or one caller per id waits on its own message's id and
      the synchronous ids are kept apart from the others and from the removed ones. */
  lemma ReturnsAreSafeIff(p: Policy, r: Rules)
    ensures ReturnsAreSafe(p, r) <==> p.sync == {} || r.n == 0 || (r.n == 1 && r.own && Separated(p))
  {
    if p.sync == {} || r.n == 0 || (r.n == 1 && r.own && Separated(p)) {
      forall s: State, steps: seq<Step> |
        Init(s) && Run(s, steps) && PoliteRun(s, steps, r) && AllowedRun(s, steps, p)
        ensures ReturnedHandled(After(s, steps))
      {
        if p.sync == {} {
          NothingReturns(s, steps, p);
        } else if r.n == 0 {
          NoneMeansNoCallers(s, steps, r);
        } else {
          OneOwnIsDisciplined(s, steps, r);
          ReturnedMeansHandled(s, steps, p);
        }
      }
    } else {
      EarlyReturn(p, r);
    }
  }

  lemma Three(s: State, a: Step, b: Step, c: Step)
    requires Enabled(s, a) && Disciplined(s, a)
    requires Enabled(Apply(s, a), b) && Disciplined(Apply(s, a), b)
    requires Enabled(Apply(Apply(s, a), b), c) && Disciplined(Apply(Apply(s, a), b), c)
    ensures DisciplinedRun(s, [a, b, c]) && Run(s, [a, b, c])
    ensures After(s, [a, b, c]) == Apply(Apply(Apply(s, a), b), c)
  {
    var s1 := Apply(s, a);
    var s2 := Apply(s1, b);
    Then(s2, c, []);
    Then(s1, b, [c]);
    Then(s, a, [b] + [c]);
    assert [a, b, c] == [a] + ([b] + [c]);
  }

  lemma {:induction false} Join(s: State, first: seq<Step>, rest: seq<Step>)
    requires DisciplinedRun(s, first) && Run(s, first)
    requires DisciplinedRun(After(s, first), rest) && Run(After(s, first), rest)
    ensures DisciplinedRun(s, first + rest) && Run(s, first + rest)
    ensures After(s, first + rest) == After(After(s, first), rest)
    decreases |first|
  {
    if first == [] {
      assert first + rest == rest;
    } else {
      Join(Apply(s, first[0]), first[1..], rest);
      assert (first + rest)[1..] == first[1..] + rest;
    }
  }

  /** Thread 0 waits for message 0, whose handler is at work; message 1 is queued. */
  ghost function Busy(s: State, id: nat, other: nat): (r: State)
    requires id < |s.replies|
  {
    var m, n := Message(id, 0, 0), Message(other, 0, 1);
    s.(replies := s.replies[id := WouldBlock], callers := map[0 := Checking(id, 0)],
       sent := [m, n], received := [m], pending := [n], worker := Handling(m))
  }

  /** The same after thread 1 has removed `id`, and thread 0 has seen the answer. */
  ghost function Deserted(s: State, id: nat, other: nat): (r: State)
    requires id < |s.replies|
  {
    Busy(s, id, other).(replies := s.replies[id := InvalidOperation], callers := map[], returned := {0},
                         results := map[0 := InvalidOperation])
  }

  lemma BusyRun(s: State, id: nat, other: nat, rest: seq<Step>) returns (steps: seq<Step>)
    requires Init(s) && id < |s.replies| && other < |s.replies|
    requires DisciplinedRun(Busy(s, id, other), rest) && Run(Busy(s, id, other), rest)
    ensures DisciplinedRun(s, steps) && Run(s, steps) && After(s, steps) == After(Busy(s, id, other), rest)
  {
    var s1 := Apply(s, SendAndWait(0, id, 0, id));
    var s2 := Apply(s1, Send(other, 0));
    assert s2.pending == [Message(id, 0, 0), Message(other, 0, 1)];
    assert Apply(s2, Receive) == Busy(s, id, other);
    Then(s2, Receive, rest);
    steps := [Receive] + rest;
    Then(s1, Send(other, 0), steps);
    steps := [Send(other, 0)] + steps;
    Then(s, SendAndWait(0, id, 0, id), steps);
    steps := [SendAndWait(0, id, 0, id)] + steps;
  }

  lemma DesertedRun(s: State, id: nat, other: nat) returns (steps: seq<Step>)
    requires Init(s) && id < |s.replies| && id != other
    ensures var b := Busy(s, id, other);
      DisciplinedRun(b, steps) && Run(b, steps) && After(b, steps) == Deserted(s, id, other)
  {
    var b, n := Busy(s, id, other), Message(other, 0, 1);
    var s1 := b.(removers := map[1 := Filtering(id)]);
    var s2 := b.(removers := map[1 := ReplyDue(id, {})]);
    var s3 := b.(replies := s.replies[id := InvalidOperation]);
    assert Apply(b, RemoveBegin(1, id)) == s1;
    assert [n][..0] == [] && Without([n], id) == Without([], id) + [n];
    assert Tickets([n], id) == {} by {
      assert forall m | m in [n] :: m.id == other;
    }
    assert Apply(s1, RemoveFilter(1)) == s2;
    assert Apply(s2, RemoveReply(1, 0)) == s3;
    assert Apply(s3, CheckReply(0)) == Deserted(s, id, other);
    Then(s3, CheckReply(0), []);
    steps := [CheckReply(0)];
    Then(s2, RemoveReply(1, 0), steps);
    steps := [RemoveReply(1, 0)] + steps;
    Then(s1, RemoveFilter(1), steps);
    steps := [RemoveFilter(1)] + steps;
    Then(b, RemoveBegin(1, id), steps);
    steps := [RemoveBegin(1, id)] + steps;
  }

  /** `remove` need not even find the message: while its handler is at work and another
      message is queued, removing its id answers its caller although nothing with that id was
      left to remove. */
  lemma RemoveAnswersEarly(s: State, id: nat, other: nat) returns (steps: seq<Step>)
    requires Init(s) && id < |s.replies| && other < |s.replies| && id != other
    ensures DisciplinedRun(s, steps) && Run(s, steps)
    ensures var e := After(s, steps);
      0 in e.returned && !Handled(e, 0) && e.results == map[0 := InvalidOperation] && e.sent == [Message(id, 0, 0), Message(other, 0, 1)]
  {
    steps := DesertedRun(s, id, other);
    steps := BusyRun(s, id, other, steps);
  }

  lemma Then(s: State, step: Step, rest: seq<Step>)
    requires Enabled(s, step) && Disciplined(s, step)
    requires DisciplinedRun(Apply(s, step), rest) && Run(Apply(s, step), rest)
    ensures DisciplinedRun(s, [step] + rest) && Run(s, [step] + rest)
    ensures After(s, [step] + rest) == After(Apply(s, step), rest)
  {
    assert ([step] + rest)[1..] == rest;
  }
}
