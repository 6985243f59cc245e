/** The message queue as its threads interleave. Each step is one critical section
    (one hold of a mutex) or one return from a condition variable. */
module QueueProtocol {
  import opened Queues

  /** A thread inside a synchronous `send`, after it has pushed its message. */
  datatype Caller =
    | Checking(id: nat, ticket: nat)
    | Sleeping(id: nat, ticket: nat)

  /** A thread inside `remove`, which filters under one mutex and replies under another. */
  datatype Remover =
    | Filtering(id: nat)
    | ReplyDue(id: nat, taken: set<nat>)

  /** The receiving thread. */
  datatype Worker =
    | Receiving
    | Waiting
    | Handling(m: Message)
    | Replying(m: Message, status: Status)
    | Stopped

  /** `sent`, `received`, `taken` (tickets removed), `returned` (tickets whose synchronous
      send has returned), `verdicts` (what the handler made of a ticket) and `results` (what a
      synchronous send returned) are history. */
  datatype State = State(
    pending: seq<Message>, replies: seq<Status>,
    callers: map<nat, Caller>, removers: map<nat, Remover>, worker: Worker, running: bool,
    sent: seq<Message>, received: seq<Message>, taken: set<nat>, returned: set<nat>,
    verdicts: map<nat, Status>, results: map<nat, Status>)

  datatype Step =
    | Send(id: nat, buffer: nat)
    | SendAndWait(thread: nat, id: nat, buffer: nat, replyId: nat)
    | CheckReply(thread: nat)
    | SpuriousWake(thread: nat)
    | RemoveBegin(thread: nat, id: nat)
    | RemoveFilter(thread: nat)
    | RemoveReply(thread: nat, woken: nat)
    | Receive
    | ReceiveWait
    | SpuriousNotify
    | Handle(status: Status, stop: bool)
    | Reply(woken: nat)

  predicate Asleep(s: State, t: nat, id: int) {
    t in s.callers && s.callers[t].Sleeping? && s.callers[t].id == id
  }

  /** `notify_one` wakes some thread that sleeps on `id`, if there is one. */
  predicate CanWake(s: State, id: int, woken: nat) {
    (exists t | t in s.callers :: Asleep(s, t, id)) ==> Asleep(s, woken, id)
  }

  function Wake(s: State, id: int, woken: nat): (r: map<nat, Caller>) {
    if Asleep(s, woken, id)
    then s.callers[woken := Checking(s.callers[woken].id, s.callers[woken].ticket)]
    else s.callers
  }

  predicate Enabled(s: State, step: Step) {
    match step
    case Send(id, _) => id < |s.replies|
    case SendAndWait(t, id, _, replyId) => t !in s.callers && id < |s.replies| && replyId < |s.replies|
    case CheckReply(t) => t in s.callers && s.callers[t].Checking? && s.callers[t].id < |s.replies|
    case SpuriousWake(t) => t in s.callers && s.callers[t].Sleeping?
    case RemoveBegin(t, id) => t !in s.removers && id < |s.replies|
    case RemoveFilter(t) => t in s.removers && s.removers[t].Filtering?
    case RemoveReply(t, woken) =>
      t in s.removers && s.removers[t].ReplyDue? && s.removers[t].id < |s.replies| && CanWake(s, s.removers[t].id, woken)
    case Receive => s.worker.Receiving? && s.pending != []
    case ReceiveWait => s.worker.Receiving? && s.pending == []
    case SpuriousNotify => s.worker.Waiting?
    case Handle(status, _) => s.worker.Handling? && status != WouldBlock
    case Reply(woken) =>
      s.worker.Replying? && 0 <= s.worker.m.id < |s.replies| && CanWake(s, s.worker.m.id, woken)
  }

  function Tickets(msgs: seq<Message>, id: int): (r: set<nat>) {
    set m | m in msgs && m.id == id :: m.ticket
  }

  function Push(s: State, m: Message): (r: State) {
    s.(pending := s.pending + [m], sent := s.sent + [m],
       worker := if s.worker.Waiting? then Receiving else s.worker)
  }

  function Apply(s: State, step: Step): (r: State)
    requires Enabled(s, step)
  {
    match step
    case Send(id, buffer) => Push(s, Message(id, buffer, |s.sent|))
    case SendAndWait(t, id, buffer, replyId) =>
      Push(s, Message(id, buffer, |s.sent|)).(
        replies := s.replies[replyId := WouldBlock],
        callers := s.callers[t := Checking(replyId, |s.sent|)])
    case CheckReply(t) =>
      var c := s.callers[t];
      if s.replies[c.id] == WouldBlock then s.(callers := s.callers[t := Sleeping(c.id, c.ticket)])
      else s.(callers := s.callers - {t}, returned := s.returned + {c.ticket},
              results := s.results[c.ticket := s.replies[c.id]])
    case SpuriousWake(t) =>
      s.(callers := s.callers[t := Checking(s.callers[t].id, s.callers[t].ticket)])
    case RemoveBegin(t, id) =>
      if s.pending == [] then s else s.(removers := s.removers[t := Filtering(id)])
    case RemoveFilter(t) =>
      var id := s.removers[t].id;
      var out := Tickets(s.pending, id);
      s.(pending := Without(s.pending, id), taken := s.taken + out,
         removers := s.removers[t := ReplyDue(id, out)])
    case RemoveReply(t, woken) =>
      var id := s.removers[t].id;
      s.(replies := s.replies[id := InvalidOperation], callers := Wake(s, id, woken),
         removers := s.removers - {t})
    case Receive =>
      s.(pending := s.pending[1..], received := s.received + [s.pending[0]], worker := Handling(s.pending[0]))
    case ReceiveWait => s.(worker := Waiting)
    case SpuriousNotify => s.(worker := Receiving)
    case Handle(status, stop) =>
      s.(worker := Replying(s.worker.m, status), running := s.running && !stop,
         verdicts := s.verdicts[s.worker.m.ticket := status])
    case Reply(woken) =>
      var id := s.worker.m.id;
      s.(replies := s.replies[id := s.worker.status], callers := Wake(s, id, woken),
         worker := if s.running then Receiving else Stopped)
  }

  ghost predicate Init(s: State) {
    && s.pending == [] && s.callers == map[] && s.removers == map[]
    && s.worker == Receiving && s.running
    && s.sent == [] && s.received == [] && s.taken == {} && s.returned == {}
    && s.verdicts == map[] && s.results == map[]
  }

  /** The queue with `n` reply slots, before anything is sent. */
  ghost function Slots(n: nat): (s: State)
    ensures Init(s) && |s.replies| == n
  {
    State([], seq(n, _ => NoError), map[], map[], Receiving, true, [], [], {}, {}, map[], map[])
  }

  /** What the callers must respect: a synchronous send waits on the id of its own
      message, and no two threads wait on one id at the same time. */
  predicate Disciplined(s: State, step: Step) {
    step.SendAndWait? ==>
      && step.replyId == step.id
      && (forall t | t in s.callers :: s.callers[t].id != step.replyId)
  }

  ghost predicate Run(s: State, steps: seq<Step>)
    decreases |steps|
  {
    steps == [] || (Enabled(s, steps[0]) && Run(Apply(s, steps[0]), steps[1..]))
  }

  ghost predicate DisciplinedRun(s: State, steps: seq<Step>)
    decreases |steps|
  {
    steps == [] ||
    (Enabled(s, steps[0]) && Disciplined(s, steps[0]) && DisciplinedRun(Apply(s, steps[0]), steps[1..]))
  }

  ghost function After(s: State, steps: seq<Step>): (r: State)
    requires Run(s, steps)
    decreases |steps|
  {
    if steps == [] then s else After(Apply(s, steps[0]), steps[1..])
  }

  lemma {:induction false} DisciplinedRunIsRun(s: State, steps: seq<Step>)
    requires DisciplinedRun(s, steps)
    ensures Run(s, steps)
    decreases |steps|
  {
    if steps == [] {
    } else {
      DisciplinedRunIsRun(Apply(s, steps[0]), steps[1..]);
    }
  }

  /** `remove` on an empty queue returns at once: whatever follows, the run is as without it. */
  lemma RemoveOnEmptyDoesNothing(s: State, thread: nat, id: nat, more: seq<Step>)
    requires s.pending == [] && thread !in s.removers && id < |s.replies|
    ensures Run(s, [RemoveBegin(thread, id)] + more) <==> Run(s, more)
    ensures Run(s, more) ==> After(s, [RemoveBegin(thread, id)] + more) == After(s, more)
  {
    var all := [RemoveBegin(thread, id)] + more;
    assert Enabled(s, all[0]) && all[1..] == more;
  }

  // ---- First in first out, each message once ---------------------------------------

  /** The messages whose ticket is not in `drop`, in their order. */
  function Keep(s: seq<Message>, drop: set<nat>): (r: seq<Message>) {
    if s == [] then []
    else Keep(s[..|s| - 1], drop) + if s[|s| - 1].ticket in drop then [] else [s[|s| - 1]]
  }

  ghost predicate Increasing(s: seq<Message>) {
    forall i, j | 0 <= i < j < |s| :: s[i].ticket < s[j].ticket
  }

  lemma {:induction false} KeepAppend(a: seq<Message>, b: seq<Message>, drop: set<nat>)
    ensures Keep(a + b, drop) == Keep(a, drop) + Keep(b, drop)
  {
    if b == [] {
      assert a + b == a;
    } else {
      assert (a + b)[..|a + b| - 1] == a + b[..|b| - 1];
      KeepAppend(a, b[..|b| - 1], drop);
    }
  }

  lemma {:induction false} KeepMore(s: seq<Message>, d: set<nat>, e: set<nat>)
    ensures Keep(Keep(s, d), e) == Keep(s, d + e)
  {
    if s == [] {
    } else {
      var n := |s| - 1;
      KeepMore(s[..n], d, e);
      KeepAppend(Keep(s[..n], d), if s[n].ticket in d then [] else [s[n]], e);
    }
  }

  lemma {:induction false} KeepAll(s: seq<Message>, drop: set<nat>)
    requires forall m | m in s :: m.ticket !in drop
    ensures Keep(s, drop) == s
  {
    if s == [] {
    } else {
      var front, last := s[..|s| - 1], s[|s| - 1];
      assert last in s && last.ticket !in drop;
      forall m | m in front
        ensures m.ticket !in drop
      {
        assert m in s;
      }
      KeepAll(front, drop);
      assert Keep(s, drop) == front + [last];
    }
  }

  lemma {:induction false} KeepIsWithout(s: seq<Message>, id: int, drop: set<nat>)
    requires forall m | m in s :: m.ticket in drop <==> m.id == id
    ensures Keep(s, drop) == Without(s, id)
  {
    if s == [] {
    } else {
      KeepIsWithout(s[..|s| - 1], id, drop);
    }
  }

  lemma {:induction false} KeepMembers(s: seq<Message>, drop: set<nat>)
    ensures forall m :: m in Keep(s, drop) <==> m in s && m.ticket !in drop
    ensures Increasing(s) ==> Increasing(Keep(s, drop))
  {
    if s == [] {
    } else {
      var n := |s| - 1;
      KeepMembers(s[..n], drop);
      assert s == s[..n] + [s[n]];
      var k := Keep(s[..n], drop);
      if Increasing(s) {
        assert forall i | 0 <= i < |k| :: k[i] in k;
      }
    }
  }

  ghost predicate FifoInv(s: State) {
    && (forall i | 0 <= i < |s.sent| :: s.sent[i].ticket == i && 0 <= s.sent[i].id < |s.replies|)
    && (forall k | k in s.taken :: k < |s.sent|)
    && s.received + s.pending == Keep(s.sent, s.taken)
    && (s.worker.Waiting? ==> s.pending == [])
    && (s.worker.Handling? || s.worker.Replying? ==> s.received != [] && s.received[|s.received| - 1] == s.worker.m)
    && (s.worker.Replying? ==> s.worker.status != WouldBlock)
  }

  lemma InOrder(s: State)
    requires FifoInv(s)
    ensures Increasing(s.received + s.pending)
    ensures forall m | m in s.received + s.pending :: m.ticket < |s.sent| && m == s.sent[m.ticket] && m.ticket !in s.taken
    ensures forall k | 0 <= k < |s.sent| && k !in s.taken :: s.sent[k] in s.received + s.pending
  {
    KeepMembers(s.sent, s.taken);
  }

  lemma Apart(a: seq<Message>, b: seq<Message>)
    requires Increasing(a + b)
    ensures forall m, p | m in a && p in b :: m.ticket < p.ticket
  {
    forall i, j | 0 <= i < |a| && 0 <= j < |b|
      ensures a[i].ticket < b[j].ticket
    {
      assert (a + b)[i] == a[i] && (a + b)[|a| + j] == b[j];
    }
  }

  lemma PushFifo(s: State, m: Message)
    requires FifoInv(s) && m.ticket == |s.sent| && 0 <= m.id < |s.replies|
    ensures FifoInv(Push(s, m))
  {
    assert (s.sent + [m])[..|s.sent|] == s.sent;
    assert s.received + (s.pending + [m]) == (s.received + s.pending) + [m];
  }

  lemma SendFifo(s: State, step: Step)
    requires FifoInv(s) && Enabled(s, step)
    requires step.Send? || step.SendAndWait?
    ensures FifoInv(Apply(s, step))
  {
    var m := Message(step.id, step.buffer, |s.sent|);
    PushFifo(s, m);
    var p, e := Push(s, m), Apply(s, step);
    assert e.sent == p.sent && e.received == p.received && e.pending == p.pending;
    assert e.taken == p.taken && e.worker == p.worker && |e.replies| == |p.replies|;
  }

  lemma FilterFifo(s: State, id: nat)
    requires FifoInv(s)
    ensures s.received + Without(s.pending, id) == Keep(s.sent, s.taken + Tickets(s.pending, id))
    ensures forall k | k in Tickets(s.pending, id) :: k < |s.sent| && s.sent[k] in s.pending
  {
    var out := Tickets(s.pending, id);
    InOrder(s);
    var all := s.received + s.pending;
    forall m | m in s.pending
      ensures m.ticket < |s.sent| && s.sent[m.ticket] == m
      ensures m.ticket in out <==> m.id == id
    {
      assert m in all;
    }
    Apart(s.received, s.pending);
    KeepMore(s.sent, s.taken, out);
    KeepAppend(s.received, s.pending, out);
    KeepAll(s.received, out);
    KeepIsWithout(s.pending, id, out);
  }

  lemma ReceiveFifo(s: State)
    requires FifoInv(s) && Enabled(s, Receive)
    ensures FifoInv(Apply(s, Receive))
  {
    assert s.received + s.pending == (s.received + [s.pending[0]]) + s.pending[1..];
  }

  lemma FifoStep(s: State, step: Step)
    requires FifoInv(s) && Enabled(s, step)
    ensures FifoInv(Apply(s, step))
  {
    match step
    case Send(_, _) => SendFifo(s, step);
    case SendAndWait(_, _, _, _) => SendFifo(s, step);
    case RemoveFilter(t) => FilterFifo(s, s.removers[t].id);
    case Receive => ReceiveFifo(s);
    case _ => FifoUntouched(s, step);
  }

  lemma FifoUntouched(s: State, step: Step)
    requires FifoInv(s) && Enabled(s, step)
    requires !step.Send? && !step.SendAndWait? && !step.RemoveFilter? && !step.Receive?
    ensures FifoInv(Apply(s, step))
  {
    var e := Apply(s, step);
    MessagesUntouched(s, step);
    assert e.received + e.pending == Keep(e.sent, e.taken);
  }

  lemma MessagesUntouched(s: State, step: Step)
    requires Enabled(s, step)
    requires !step.Send? && !step.SendAndWait? && !step.RemoveFilter? && !step.Receive?
    ensures var e := Apply(s, step);
      && e.sent == s.sent && e.received == s.received && e.pending == s.pending && e.taken == s.taken
      && |e.replies| == |s.replies|
      && (e.worker == s.worker || (e.worker.Waiting? && s.pending == [])
          || e.worker.Receiving? || e.worker.Stopped?
          || (s.worker.Handling? && e.worker.Replying? && e.worker.m == s.worker.m && e.worker.status != WouldBlock))
  {
  }

  lemma {:induction false} FifoAlways(s: State, steps: seq<Step>)
    requires FifoInv(s) && Run(s, steps)
    ensures FifoInv(After(s, steps))
    decreases |steps|
  {
    if steps == [] {
    } else {
      FifoStep(s, steps[0]);
      FifoAlways(Apply(s, steps[0]), steps[1..]);
    }
  }

  /** In every run, whatever the callers do: the messages received so far followed by
      those still queued are the messages sent, in order, minus the removed ones. So
      each sent message is received, queued or removed, and only one of the three. */
  lemma FifoExactlyOnce(s: State, steps: seq<Step>)
    requires Init(s) && Run(s, steps)
    ensures var e := After(s, steps);
      && e.received + e.pending == Keep(e.sent, e.taken)
      && (forall k | 0 <= k < |e.sent| :: e.sent[k].ticket == k && (k in e.taken <==> e.sent[k] !in e.received + e.pending))
      && Increasing(e.received + e.pending)
  {
    FifoAlways(s, steps);
    var e := After(s, steps);
    InOrder(e);
    forall k | 0 <= k < |e.sent| && k in e.taken
      ensures e.sent[k] !in e.received + e.pending
    {
      assert e.sent[k].ticket == k;
    }
  }

  lemma {:induction false} TakenOnlyByRemove(s: State, steps: seq<Step>)
    requires Run(s, steps) && forall i | 0 <= i < |steps| :: !steps[i].RemoveFilter?
    ensures After(s, steps).taken == s.taken
    decreases |steps|
  {
    if steps == [] {
    } else {
      TakenOnlyByRemove(Apply(s, steps[0]), steps[1..]);
    }
  }

  /** Without `remove`: received and queued together are exactly what was sent. */
  lemma FifoWithoutRemove(s: State, steps: seq<Step>)
    requires Init(s) && Run(s, steps)
    requires forall i | 0 <= i < |steps| :: !steps[i].RemoveFilter?
    ensures var e := After(s, steps); e.received + e.pending == e.sent
  {
    FifoAlways(s, steps);
    TakenOnlyByRemove(s, steps);
    KeepAll(After(s, steps).sent, {});
  }

  // ---- No lost wake-up -------------------------------------------------------------

  /** Message `k` is on its way to an answer: it is queued, with the worker, or removed by a
      thread that has yet to reply. A queued one is answered if the worker gets to it. */
  ghost predicate InFlight(s: State, k: nat)
    requires k < |s.sent|
  {
    || s.sent[k] in s.pending
    || ((s.worker.Handling? || s.worker.Replying?) && s.worker.m == s.sent[k])
    || exists r | r in s.removers :: s.removers[r].ReplyDue? && k in s.removers[r].taken && s.removers[r].id == s.sent[k].id
  }

  ghost predicate CallerOk(s: State, c: Caller) {
    && c.ticket < |s.sent| && c.id < |s.replies| && s.sent[c.ticket].id == c.id
    && (c.Sleeping? ==> s.replies[c.id] == WouldBlock)
    && (s.replies[c.id] == WouldBlock ==> InFlight(s, c.ticket))
  }

  ghost predicate WakeInv(s: State) {
    && FifoInv(s)
    && (forall t | t in s.callers :: CallerOk(s, s.callers[t]))
    && (forall t, u | t in s.callers && u in s.callers && t != u :: s.callers[t].id != s.callers[u].id)
  }

  lemma PushWake(s: State, step: Step)
    requires WakeInv(s) && Enabled(s, step) && Disciplined(s, step)
    requires step.Send? || step.SendAndWait?
    ensures WakeInv(Apply(s, step))
  {
    FifoStep(s, step);
    var e := Apply(s, step);
    forall t | t in s.callers
      ensures e.callers[t] == s.callers[t] && CallerOk(e, e.callers[t])
    {
      var k := s.callers[t].ticket;
      assert CallerOk(s, s.callers[t]) && e.sent[k] == s.sent[k];
      if s.replies[s.callers[t].id] == WouldBlock {
        assert InFlight(s, k);
        if s.sent[k] in s.pending {
          assert e.sent[k] in e.pending;
        }
      }
    }
    if step.SendAndWait? {
      var m := Message(step.id, step.buffer, |s.sent|);
      assert e.sent[|s.sent|] == m && e.pending[|s.pending|] == m;
    }
  }

  lemma FilterWake(s: State, t: nat)
    requires WakeInv(s) && Enabled(s, RemoveFilter(t))
    ensures WakeInv(Apply(s, RemoveFilter(t)))
  {
    FifoStep(s, RemoveFilter(t));
    var e := Apply(s, RemoveFilter(t));
    forall u | u in s.callers
      ensures CallerOk(e, e.callers[u])
    {
      var c := s.callers[u];
      assert CallerOk(s, c);
      if s.replies[c.id] == WouldBlock && s.sent[c.ticket] in s.pending {
        if c.id == s.removers[t].id {
          assert c.ticket == s.sent[c.ticket].ticket;
          assert c.ticket in e.removers[t].taken;
        } else {
          WithoutMembers(s.pending, s.removers[t].id);
        }
      } else if s.replies[c.id] == WouldBlock {
        assert InFlight(s, c.ticket);
        if r :| r in s.removers && s.removers[r].ReplyDue? && c.ticket in s.removers[r].taken && s.removers[r].id == s.sent[c.ticket].id {
          assert e.removers[r] == s.removers[r];
        }
      }
    }
  }

  lemma {:induction false} WithoutMembers(s: seq<Message>, id: int)
    ensures forall m :: m in Without(s, id) <==> m in s && m.id != id
  {
    if s == [] {
    } else {
      WithoutMembers(s[..|s| - 1], id);
      assert s == s[..|s| - 1] + [s[|s| - 1]];
    }
  }

  lemma ReplyWake(s: State, step: Step)
    requires WakeInv(s) && Enabled(s, step)
    requires step.Reply? || step.RemoveReply?
    ensures WakeInv(Apply(s, step))
  {
    FifoStep(s, step);
    var e := Apply(s, step);
    var id: int := if step.Reply? then s.worker.m.id else s.removers[step.thread].id;
    forall u | u in s.callers
      ensures CallerOk(e, e.callers[u])
    {
      var c := s.callers[u];
      assert CallerOk(s, c);
      if c.id == id {
        SleeperWoken(s, u, id, step.woken);
      } else if s.replies[c.id] == WouldBlock {
        OthersStayInFlight(s, step, id, c.ticket);
      }
    }
  }

  /** The one caller on an id is the one that is woken, if it sleeps. */
  lemma SleeperWoken(s: State, u: nat, id: int, woken: nat)
    requires u in s.callers && s.callers[u].id == id && CanWake(s, id, woken)
    requires forall t | t in s.callers && t != u :: s.callers[t].id != id
    ensures u in Wake(s, id, woken) && !Wake(s, id, woken)[u].Sleeping?
    ensures Wake(s, id, woken)[u].id == id && Wake(s, id, woken)[u].ticket == s.callers[u].ticket
  {
    if s.callers[u].Sleeping? {
      assert Asleep(s, u, id);
      assert Asleep(s, woken, id);
    }
  }

  lemma OthersStayInFlight(s: State, step: Step, id: int, k: nat)
    requires Enabled(s, step) && k < |s.sent| && s.sent[k].id != id && InFlight(s, k)
    requires step.Reply? || step.RemoveReply?
    requires id == if step.Reply? then s.worker.m.id else s.removers[step.thread].id
    ensures Apply(s, step).sent == s.sent && InFlight(Apply(s, step), k)
  {
    var e := Apply(s, step);
    if r :| r in s.removers && s.removers[r].ReplyDue? && k in s.removers[r].taken && s.removers[r].id == s.sent[k].id {
      assert r in e.removers && e.removers[r] == s.removers[r];
    }
  }

  lemma ReceiveWake(s: State)
    requires WakeInv(s) && Enabled(s, Receive)
    ensures WakeInv(Apply(s, Receive))
  {
    FifoStep(s, Receive);
    var e := Apply(s, Receive);
    forall u | u in s.callers
      ensures CallerOk(e, e.callers[u])
    {
      var c := s.callers[u];
      assert CallerOk(s, c);
      if s.replies[c.id] == WouldBlock {
        assert InFlight(s, c.ticket);
        assert s.pending == [s.pending[0]] + s.pending[1..];
      }
    }
  }

  /** The steps that leave the messages where they are. */
  lemma QuietWake(s: State, step: Step)
    requires WakeInv(s) && Enabled(s, step)
    requires step.CheckReply? || step.SpuriousWake? || step.RemoveBegin?
          || step.ReceiveWait? || step.SpuriousNotify? || step.Handle?
    ensures WakeInv(Apply(s, step))
  {
    FifoStep(s, step);
    var e := Apply(s, step);
    forall u | u in e.callers
      ensures CallerOk(e, e.callers[u]) && u in s.callers && e.callers[u].id == s.callers[u].id
    {
      QuietCaller(s, step, u);
      assert CallerOk(s, s.callers[u]);
      QuietFlight(s, step, s.callers[u].ticket);
    }
  }

  lemma QuietCaller(s: State, step: Step, u: nat)
    requires Enabled(s, step) && u in Apply(s, step).callers
    requires step.CheckReply? || step.SpuriousWake? || step.RemoveBegin?
          || step.ReceiveWait? || step.SpuriousNotify? || step.Handle?
    ensures var e := Apply(s, step);
      && e.replies == s.replies && e.sent == s.sent
      && u in s.callers && e.callers[u].id == s.callers[u].id && e.callers[u].ticket == s.callers[u].ticket
      && (e.callers[u].Sleeping? ==>
            s.callers[u].Sleeping? || (s.callers[u].id < |s.replies| && s.replies[s.callers[u].id] == WouldBlock))
  {
  }

  lemma QuietFlight(s: State, step: Step, k: nat)
    requires Enabled(s, step) && k < |s.sent|
    requires step.CheckReply? || step.SpuriousWake? || step.RemoveBegin?
          || step.ReceiveWait? || step.SpuriousNotify? || step.Handle?
    ensures Apply(s, step).sent == s.sent
    ensures InFlight(s, k) ==> InFlight(Apply(s, step), k)
  {
    var e := Apply(s, step);
    if r :| r in s.removers && s.removers[r].ReplyDue? && k in s.removers[r].taken && s.removers[r].id == s.sent[k].id {
      assert r in e.removers && e.removers[r] == s.removers[r];
    }
  }

  lemma WakeStep(s: State, step: Step)
    requires WakeInv(s) && Enabled(s, step) && Disciplined(s, step)
    ensures WakeInv(Apply(s, step))
  {
    match step
    case Send(_, _) => PushWake(s, step);
    case SendAndWait(_, _, _, _) => PushWake(s, step);
    case RemoveFilter(t) => FilterWake(s, t);
    case RemoveReply(_, _) => ReplyWake(s, step);
    case Reply(_) => ReplyWake(s, step);
    case Receive => ReceiveWake(s);
    case _ => QuietWake(s, step);
  }

  lemma {:induction false} WakeAlways(s: State, steps: seq<Step>)
    requires WakeInv(s) && DisciplinedRun(s, steps) && Run(s, steps)
    ensures WakeInv(After(s, steps))
    decreases |steps|
  {
    if steps == [] {
    } else {
      WakeStep(s, steps[0]);
      WakeAlways(Apply(s, steps[0]), steps[1..]);
    }
  }

  /** In every disciplined run: a caller asleep on its condition variable has not been
      answered, an unanswered caller's own message is still on its way to an answer,
      and a worker asleep has an empty queue. */
  lemma NoLostWakeUp(s: State, steps: seq<Step>)
    requires Init(s) && DisciplinedRun(s, steps)
    ensures Run(s, steps)
    ensures var e := After(s, steps);
      && (forall t | t in e.callers ::
            var c := e.callers[t];
            && c.id < |e.replies| && c.ticket < |e.sent| && e.sent[c.ticket].id == c.id
            && (c.Sleeping? ==> e.replies[c.id] == WouldBlock)
            && (e.replies[c.id] == WouldBlock ==> InFlight(e, c.ticket)))
      && (e.worker.Waiting? ==> e.pending == [])
  {
    DisciplinedRunIsRun(s, steps);
    WakeAlways(s, steps);
    var e := After(s, steps);
    forall t | t in e.callers
      ensures CallerOk(e, e.callers[t])
    {
    }
  }
}
