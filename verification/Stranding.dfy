/** Which callers of the queue can be left waiting. */
module Stranding {
  import opened Queues
  import opened QueueProtocol

  /** Some caller waits and nothing that could answer or wake it is coming. */
  ghost predicate Stranded(s: State) {
    exists t | t in s.callers :: Stuck(s, s.callers[t])
  }

  ghost predicate Stuck(s: State, c: Caller) {
    (c.Sleeping? || !Answered(s, c)) && NothingComes(s, c.id)
  }

  /** No reply on `id` is to come: no message with the id is queued for a worker that will get
      to it, none is in hand, and no thread is about to remove the id. */
  ghost predicate NothingComes(s: State, id: int) {
    && (s.worker.Stopped? || forall m | m in s.pending :: m.id != id)
    && (s.worker.Handling? || s.worker.Replying? ==> s.worker.m.id != id)
    && NoRemover(s, id)
  }

  /** The caller cannot count on its own message: it sleeps although it is answered, or it is
      unanswered and its message is not on its way, or waits for a worker that has stopped. */
  ghost predicate Lost(s: State, c: Caller) {
    (c.Sleeping? && Answered(s, c)) || Unanswerable(s, c)
  }

  ghost predicate Unanswerable(s: State, c: Caller) {
    && c.ticket < |s.sent| && c.id < |s.replies| && s.replies[c.id] == WouldBlock
    && (!InFlight(s, c.ticket)
        || (s.worker.Stopped? && s.sent[c.ticket] in s.pending && NoRemover(s, s.sent[c.ticket].id)))
  }

  ghost predicate NoRemover(s: State, id: int) {
    forall r | r in s.removers :: s.removers[r].id != id
  }

  function CallersOn(s: State, id: nat): (r: set<nat>) {
    set t | t in s.callers && s.callers[t].id == id
  }

  /** At most `n` callers wait on one id. With `own` each waits on its own message's id. With
      `late` a synchronous send is allowed although the worker is done, and with `early` the
      worker may be told to stop while the message of an unanswered caller is queued. */
  datatype Rules = Rules(n: nat, own: bool, late: bool, early: bool)

  ghost predicate Polite(s: State, step: Step, r: Rules) {
    && (step.SendAndWait? ==>
          && (r.own ==> step.replyId == step.id)
          && |CallersOn(s, step.replyId)| < r.n
          && (s.running || r.late))
    && (step.Handle? && step.stop ==> NobodyQueued(s) || r.early)
  }

  /** No unanswered caller's message is in the queue. */
  ghost predicate NobodyQueued(s: State) {
    forall t | t in s.callers :: Answered(s, s.callers[t]) || !Queued(s, s.callers[t])
  }

  predicate Answered(s: State, c: Caller) {
    c.id < |s.replies| && s.replies[c.id] != WouldBlock
  }

  predicate Queued(s: State, c: Caller) {
    c.ticket < |s.sent| && s.sent[c.ticket] in s.pending
  }

  ghost predicate PoliteRun(s: State, steps: seq<Step>, r: Rules)
    decreases |steps|
  {
    steps == [] ||
    (Enabled(s, steps[0]) && Polite(s, steps[0], r) && PoliteRun(Apply(s, steps[0]), steps[1..], r))
  }

  /** What `a` allows, `b` allows too. */
  predicate NoStricter(b: Rules, a: Rules) {
    a.n <= b.n && (b.own ==> a.own) && (a.late ==> b.late) && (a.early ==> b.early)
  }

  lemma {:induction false} StillPolite(s: State, steps: seq<Step>, a: Rules, b: Rules)
    requires PoliteRun(s, steps, a) && NoStricter(b, a)
    ensures PoliteRun(s, steps, b)
    decreases |steps|
  {
    if steps == [] {
    } else {
      StillPolite(Apply(s, steps[0]), steps[1..], a, b);
    }
  }

  lemma {:induction false} PoliteRunIsRun(s: State, steps: seq<Step>, r: Rules)
    requires PoliteRun(s, steps, r)
    ensures Run(s, steps)
    decreases |steps|
  {
    if steps == [] {
    } else {
      PoliteRunIsRun(Apply(s, steps[0]), steps[1..], r);
    }
  }

  lemma OneOwnStep(s: State, step: Step, r: Rules)
    requires Polite(s, step, r) && r.n == 1 && r.own
    ensures Disciplined(s, step)
  {
    if step.SendAndWait? {
      assert CallersOn(s, step.replyId) == {};
      forall t | t in s.callers
        ensures s.callers[t].id != step.replyId
      {
        assert t !in CallersOn(s, step.replyId);
      }
    }
  }

  /** One caller per id, on its own message's id, is the discipline. */
  lemma {:induction false} OneOwnIsDisciplined(s: State, steps: seq<Step>, r: Rules)
    requires PoliteRun(s, steps, r) && r.n == 1 && r.own
    ensures DisciplinedRun(s, steps)
    decreases |steps|
  {
    if steps == [] {
    } else {
      OneOwnStep(s, steps[0], r);
      OneOwnIsDisciplined(Apply(s, steps[0]), steps[1..], r);
    }
  }

  lemma {:induction false} NoneMeansNoCallers(s: State, steps: seq<Step>, r: Rules)
    requires PoliteRun(s, steps, r) && r.n == 0 && Run(s, steps) && s.callers == map[] && s.returned == {}
    ensures After(s, steps).callers == map[] && After(s, steps).returned == {}
    decreases |steps|
  {
    if steps == [] {
    } else {
      NoneMeansNoCallers(Apply(s, steps[0]), steps[1..], r);
    }
  }

  // ---- Nobody waits for a worker that is done --------------------------------------

  /** Once the worker is done nobody unanswered has a message in the queue. */
  ghost predicate DoneInv(s: State) {
    && (s.worker.Stopped? ==> !s.running)
    && (!s.running ==> NobodyQueued(s))
  }

  /** An answer is only taken back by a new synchronous send. */
  lemma AnswersStay(s: State, step: Step, c: Caller)
    requires FifoInv(s) && Enabled(s, step) && !step.SendAndWait?
    ensures Answered(s, c) ==> Answered(Apply(s, step), c)
  {
  }

  /** The steps that queue nothing. */
  lemma DoneQuiet(s: State, step: Step, r: Rules)
    requires FifoInv(s) && DoneInv(s) && Enabled(s, step) && Polite(s, step, r) && !r.early
    requires !step.Send? && !step.SendAndWait?
    ensures DoneInv(Apply(s, step))
  {
    var e := Apply(s, step);
    assert e.sent == s.sent;
    if step.RemoveFilter? {
      WithoutMembers(s.pending, s.removers[step.thread].id);
    }
    assert forall m | m in e.pending :: m in s.pending;
    if !e.running {
      forall t | t in e.callers
        ensures Answered(e, e.callers[t]) || !Queued(e, e.callers[t])
      {
        var c := s.callers[t];
        assert c.id == e.callers[t].id && c.ticket == e.callers[t].ticket;
        assert Answered(s, c) || !Queued(s, c);
        AnswersStay(s, step, c);
      }
    }
  }

  lemma DoneSend(s: State, step: Step, r: Rules)
    requires WakeInv(s) && DoneInv(s) && Enabled(s, step) && Polite(s, step, r) && !r.late
    requires step.Send? || step.SendAndWait?
    ensures DoneInv(Apply(s, step))
  {
    var e := Apply(s, step);
    if !e.running {
      forall t | t in e.callers
        ensures Answered(e, e.callers[t]) || !Queued(e, e.callers[t])
      {
        var c := s.callers[t];
        assert CallerOk(s, c);
        assert Answered(s, c) || !Queued(s, c);
        assert e.sent[c.ticket] == s.sent[c.ticket] && s.sent[c.ticket].ticket == c.ticket;
      }
    }
  }

  lemma DoneStep(s: State, step: Step, r: Rules)
    requires WakeInv(s) && DoneInv(s) && Enabled(s, step) && Polite(s, step, r) && !r.late && !r.early
    ensures DoneInv(Apply(s, step))
  {
    if step.Send? || step.SendAndWait? {
      DoneSend(s, step, r);
    } else {
      DoneQuiet(s, step, r);
    }
  }

  lemma {:induction false} DoneAlways(s: State, steps: seq<Step>, r: Rules)
    requires WakeInv(s) && DoneInv(s) && PoliteRun(s, steps, r) && Run(s, steps)
    requires r.n == 1 && r.own && !r.late && !r.early
    ensures WakeInv(After(s, steps)) && DoneInv(After(s, steps))
    decreases |steps|
  {
    if steps == [] {
    } else {
      OneOwnStep(s, steps[0], r);
      WakeStep(s, steps[0]);
      DoneStep(s, steps[0], r);
      DoneAlways(Apply(s, steps[0]), steps[1..], r);
    }
  }

  /** Every caller can count on its own message. */
  lemma PoliteIsSafe(s: State, steps: seq<Step>, r: Rules)
    requires Init(s) && PoliteRun(s, steps, r) && Run(s, steps)
    requires r.n == 1 && r.own && !r.late && !r.early
    ensures WakeInv(After(s, steps))
    ensures forall t | t in After(s, steps).callers :: !Lost(After(s, steps), After(s, steps).callers[t])
  {
    DoneAlways(s, steps, r);
    var e := After(s, steps);
    forall t | t in e.callers
      ensures !Lost(e, e.callers[t])
    {
      assert CallerOk(e, e.callers[t]);
      if e.worker.Stopped? {
        assert Answered(e, e.callers[t]) || !Queued(e, e.callers[t]);
      }
    }
  }

  /** A caller to whom nothing comes cannot count on its own message either. */
  lemma StuckIsLost(s: State, c: Caller)
    requires CallerOk(s, c) && Stuck(s, c)
    ensures Lost(s, c)
  {
    assert s.sent[c.ticket].id == c.id;
  }

  lemma NobodyLostNobodyStranded(s: State)
    requires WakeInv(s) && forall t | t in s.callers :: !Lost(s, s.callers[t])
    ensures !Stranded(s)
  {
    forall t | t in s.callers
      ensures !Stuck(s, s.callers[t])
    {
      assert CallerOk(s, s.callers[t]);
      if Stuck(s, s.callers[t]) {
        StuckIsLost(s, s.callers[t]);
      }
    }
  }

  // ---- Who is stuck stays so -------------------------------------------------------

  /** The step does not send a message with the id to a worker that runs, does not remove the
      id, and does not wake `t` by chance if all `t` misses is to be woken. */
  predicate Undisturbed(step: Step, t: nat, id: nat, stopped: bool, answered: bool) {
    && ((step.Send? || step.SendAndWait?) && step.id == id ==> stopped)
    && (step.RemoveBegin? ==> step.id != id)
    && (step == SpuriousWake(t) ==> !answered)
  }

  lemma StuckStep(s: State, step: Step, t: nat, stopped: bool, answered: bool)
    requires t in s.callers && Stuck(s, s.callers[t]) && s.callers[t].id < |s.replies| && Enabled(s, step)
    requires stopped ==> s.worker.Stopped?
    requires if answered then s.callers[t].Sleeping? else !Answered(s, s.callers[t])
    requires Undisturbed(step, t, s.callers[t].id, stopped, answered)
    ensures var e := Apply(s, step);
      && t in e.callers && e.callers[t].id == s.callers[t].id && e.callers[t].ticket == s.callers[t].ticket
      && Stuck(e, e.callers[t]) && |e.replies| == |s.replies|
      && (stopped ==> e.worker.Stopped?)
      && if answered then e.callers[t].Sleeping? else !Answered(e, e.callers[t])
  {
    var e, id := Apply(s, step), s.callers[t].id;
    if step.RemoveFilter? {
      WithoutMembers(s.pending, s.removers[step.thread].id);
    }
    forall r | r in e.removers
      ensures e.removers[r].id != id
    {
      assert r in s.removers ==> s.removers[r].id != id;
    }
  }

  lemma {:induction false} StuckSteps(s: State, steps: seq<Step>, t: nat, stopped: bool, answered: bool)
    requires t in s.callers && Stuck(s, s.callers[t]) && s.callers[t].id < |s.replies| && Run(s, steps)
    requires stopped ==> s.worker.Stopped?
    requires if answered then s.callers[t].Sleeping? else !Answered(s, s.callers[t])
    requires forall i | 0 <= i < |steps| :: Undisturbed(steps[i], t, s.callers[t].id, stopped, answered)
    ensures var e := After(s, steps);
      && t in e.callers && e.callers[t].id == s.callers[t].id && e.callers[t].ticket == s.callers[t].ticket
      && Stuck(e, e.callers[t])
    decreases |steps|
  {
    if steps == [] {
    } else {
      StuckStep(s, steps[0], t, stopped, answered);
      StuckSteps(Apply(s, steps[0]), steps[1..], t, stopped, answered);
    }
  }

  /** A stuck caller waits on, whatever follows, until its id is removed, a message with its id
      is sent to a worker that runs, or, if it only missed its wake-up, it wakes by chance. */
  lemma StuckForGood(s: State, steps: seq<Step>, t: nat)
    requires t in s.callers && Stuck(s, s.callers[t]) && s.callers[t].id < |s.replies| && Run(s, steps)
    requires forall i | 0 <= i < |steps| ::
      Undisturbed(steps[i], t, s.callers[t].id, s.worker.Stopped?, Answered(s, s.callers[t]))
    ensures var e := After(s, steps);
      t in e.callers && e.callers[t].ticket == s.callers[t].ticket && Stuck(e, e.callers[t])
  {
    StuckSteps(s, steps, t, s.worker.Stopped?, Answered(s, s.callers[t]));
  }

  // ---- Runs that strand a caller ---------------------------------------------------

  ghost predicate NobodyStranded(r: Rules) {
    forall s: State, steps: seq<Step> | Init(s) && Run(s, steps) && PoliteRun(s, steps, r) ::
      !Stranded(After(s, steps))
  }

  lemma PoliteThen(s: State, step: Step, rest: seq<Step>, r: Rules)
    requires Enabled(s, step) && Polite(s, step, r)
    requires PoliteRun(Apply(s, step), rest, r) && Run(Apply(s, step), rest)
    ensures PoliteRun(s, [step] + rest, r) && Run(s, [step] + rest)
    ensures After(s, [step] + rest) == After(Apply(s, step), rest)
  {
    assert ([step] + rest)[1..] == rest;
  }

  /** Thread 0 has sent message 0 with a wait on `reply`, the worker has answered it, and was
      told to stop or not. */
  ghost function FirstAnswered(s: State, id: nat, reply: nat, stop: bool): (r: State)
    requires id < |s.replies| && reply < |s.replies|
  {
    var m := Message(id, 0, 0);
    s.(replies := s.replies[reply := WouldBlock][id := NoError], callers := map[0 := Checking(reply, 0)],
       sent := [m], received := [m], running := !stop, worker := if stop then Stopped else Receiving,
       verdicts := map[0 := NoError])
  }

  /** The same while its handler is at work. */
  ghost function FirstInHand(s: State, id: nat, reply: nat): (r: State)
    requires id < |s.replies| && reply < |s.replies|
  {
    var m := Message(id, 0, 0);
    s.(replies := s.replies[reply := WouldBlock], callers := map[0 := Checking(reply, 0)],
       sent := [m], received := [m], worker := Handling(m))
  }

  lemma FirstInHandRun(s: State, id: nat, reply: nat, rest: seq<Step>, r: Rules) returns (steps: seq<Step>)
    requires Init(s) && id < |s.replies| && reply < |s.replies| && r.n > 0 && (r.own ==> reply == id)
    requires var a := FirstInHand(s, id, reply); PoliteRun(a, rest, r) && Run(a, rest)
    ensures PoliteRun(s, steps, r) && Run(s, steps)
    ensures After(s, steps) == After(FirstInHand(s, id, reply), rest)
  {
    var send := SendAndWait(0, id, 0, reply);
    assert CallersOn(s, reply) == {};
    var s1 := Apply(s, send);
    assert s1.pending == [Message(id, 0, 0)] && s1.pending[1..] == [];
    assert Apply(s1, Receive) == FirstInHand(s, id, reply);
    PoliteThen(s1, Receive, rest, r);
    steps := [Receive] + rest;
    PoliteThen(s, send, steps, r);
    steps := [send] + steps;
  }

  lemma FirstAnsweredRun(s: State, id: nat, reply: nat, stop: bool, rest: seq<Step>, r: Rules) returns (steps: seq<Step>)
    requires Init(s) && id < |s.replies| && reply < |s.replies| && r.n > 0 && (r.own ==> reply == id)
    requires var a := FirstAnswered(s, id, reply, stop); PoliteRun(a, rest, r) && Run(a, rest)
    ensures PoliteRun(s, steps, r) && Run(s, steps)
    ensures After(s, steps) == After(FirstAnswered(s, id, reply, stop), rest)
  {
    var h := FirstInHand(s, id, reply);
    var d := Apply(h, Handle(NoError, stop));
    assert d.callers == map[0 := Checking(reply, 0)] && !Asleep(d, 0, id);
    assert Apply(d, Reply(0)) == FirstAnswered(s, id, reply, stop);
    PoliteThen(d, Reply(0), rest, r);
    steps := [Reply(0)] + rest;
    PoliteThen(h, Handle(NoError, stop), steps, r);
    steps := FirstInHandRun(s, id, reply, [Handle(NoError, stop)] + steps, r);
  }

  const TWO_CALLERS := Rules(2, true, false, false)
  const OTHER_ID := Rules(1, false, false, false)
  const LATE := Rules(1, true, true, false)
  const EARLY := Rules(1, true, false, true)

  /** Thread 1 has sent a second message on the id that thread 0 is about to look at, and both
      have gone to sleep. */
  ghost function BothAsleep(s: State, id: nat): (r: State)
    requires id < |s.replies|
  {
    var a, k := FirstAnswered(s, id, id, false), Message(id, 0, 1);
    a.(replies := a.replies[id := WouldBlock], sent := a.sent + [k], pending := [k],
       callers := map[0 := Sleeping(id, 0), 1 := Sleeping(id, 1)])
  }

  lemma BothAsleepRun(s: State, id: nat, rest: seq<Step>) returns (steps: seq<Step>)
    requires Init(s) && id < |s.replies|
    requires PoliteRun(BothAsleep(s, id), rest, TWO_CALLERS) && Run(BothAsleep(s, id), rest)
    ensures var a := FirstAnswered(s, id, id, false);
      PoliteRun(a, steps, TWO_CALLERS) && Run(a, steps) && After(a, steps) == After(BothAsleep(s, id), rest)
  {
    var a := FirstAnswered(s, id, id, false);
    var send := SendAndWait(1, id, 0, id);
    assert CallersOn(a, id) == {0};
    var s1 := Apply(a, send);
    assert s1.callers == map[0 := Checking(id, 0), 1 := Checking(id, 1)];
    var s2 := Apply(s1, CheckReply(0));
    assert s2.callers == map[0 := Sleeping(id, 0), 1 := Checking(id, 1)];
    assert Apply(s2, CheckReply(1)) == BothAsleep(s, id);
    PoliteThen(s2, CheckReply(1), rest, TWO_CALLERS);
    steps := [CheckReply(1)] + rest;
    PoliteThen(s1, CheckReply(0), steps, TWO_CALLERS);
    steps := [CheckReply(0)] + steps;
    PoliteThen(a, send, steps, TWO_CALLERS);
    steps := [send] + steps;
  }

  /** The second message is answered and thread 1 is woken: thread 0 sleeps on. */
  lemma OneWoken(s: State, id: nat) returns (steps: seq<Step>)
    requires Init(s) && id < |s.replies|
    ensures var b := BothAsleep(s, id);
      && PoliteRun(b, steps, TWO_CALLERS) && Run(b, steps) && Stranded(After(b, steps))
      && 0 in After(b, steps).callers && After(b, steps).callers[0] == Sleeping(id, 0)
  {
    var b := BothAsleep(s, id);
    var s1 := Apply(b, Receive);
    assert s1.pending == [];
    var s2 := Apply(s1, Handle(NoError, false));
    assert Asleep(s2, 1, id);
    var e := Apply(s2, Reply(1));
    PoliteThen(s2, Reply(1), [], TWO_CALLERS);
    PoliteThen(s1, Handle(NoError, false), [Reply(1)], TWO_CALLERS);
    steps := [Handle(NoError, false)] + [Reply(1)];
    PoliteThen(b, Receive, steps, TWO_CALLERS);
    steps := [Receive] + steps;
    assert e.callers[0] == Sleeping(id, 0) && e.pending == [];
    assert Stuck(e, e.callers[0]);
  }

  /** Two callers on one id, for every id. Thread 0's message is answered, but before the
      thread looks at the slot thread 1 starts a second send on the same id and resets it. Both
      sleep, the second answer wakes thread 1, and thread 0 is left with nothing to wake it. */
  lemma TwoCallersStrandOne(s: State, id: nat) returns (steps: seq<Step>)
    requires Init(s) && id < |s.replies|
    ensures PoliteRun(s, steps, TWO_CALLERS) && Run(s, steps) && Stranded(After(s, steps))
    ensures 0 in After(s, steps).callers && After(s, steps).callers[0] == Sleeping(id, 0)
  {
    steps := OneWoken(s, id);
    steps := BothAsleepRun(s, id, steps);
    steps := FirstAnsweredRun(s, id, id, false, steps, TWO_CALLERS);
  }

  /** A caller that waits on another id than its message's is not answered by the reply. */
  lemma OtherReplyIdStrands(s: State, id: nat, reply: nat) returns (steps: seq<Step>)
    requires Init(s) && id < |s.replies| && reply < |s.replies| && id != reply
    ensures PoliteRun(s, steps, OTHER_ID) && Run(s, steps) && Stranded(After(s, steps))
  {
    var e := FirstAnswered(s, id, reply, false);
    assert Stuck(e, e.callers[0]);
    steps := FirstAnsweredRun(s, id, reply, false, [], OTHER_ID);
  }

  /** A send after the worker has stopped sleeps. */
  lemma LateSendStrands(s: State, id: nat) returns (steps: seq<Step>)
    requires Init(s) && id < |s.replies|
    ensures PoliteRun(s, steps, LATE) && Run(s, steps) && Stranded(After(s, steps))
    ensures After(s, steps).worker.Stopped? && 0 in After(s, steps).callers && After(s, steps).callers[0] == Sleeping(id, 1)
  {
    var s4 := FirstAnswered(s, id, id, true);
    var send, check := SendAndWait(0, id, 0, id), CheckReply(0);
    var s5 := Apply(s4, check);
    assert s5.callers == map[];
    assert CallersOn(s5, id) == {};
    var s6 := Apply(s5, send);
    assert s6.callers[0] == Checking(id, 1) && s6.replies[id] == WouldBlock;
    var e := Apply(s6, check);
    PoliteThen(s6, check, [], LATE);
    PoliteThen(s5, send, [check], LATE);
    PoliteThen(s4, check, [send] + [check], LATE);
    assert Stuck(e, e.callers[0]);
    steps := FirstAnsweredRun(s, id, id, true, [check] + ([send] + [check]), LATE);
  }

  /** Two callers on two ids, the first one's message stops the worker. */
  ghost function TwoSent(s: State, id: nat, other: nat): (r: State)
    requires id < |s.replies| && other < |s.replies|
  {
    var m, k := Message(id, 0, 0), Message(other, 0, 1);
    s.(replies := s.replies[id := WouldBlock][other := WouldBlock],
       callers := map[0 := Checking(id, 0), 1 := Checking(other, 1)],
       sent := [m, k], received := [m], pending := [k], worker := Handling(m))
  }

  lemma TwoSentRun(s: State, id: nat, other: nat, rest: seq<Step>) returns (steps: seq<Step>)
    requires Init(s) && id < |s.replies| && other < |s.replies| && id != other
    requires PoliteRun(TwoSent(s, id, other), rest, EARLY) && Run(TwoSent(s, id, other), rest)
    ensures PoliteRun(s, steps, EARLY) && Run(s, steps)
    ensures After(s, steps) == After(TwoSent(s, id, other), rest)
  {
    var a, b := SendAndWait(0, id, 0, id), SendAndWait(1, other, 0, other);
    assert CallersOn(s, id) == {};
    var s1 := Apply(s, a);
    assert CallersOn(s1, other) == {};
    var s2 := Apply(s1, b);
    assert s2.pending == [Message(id, 0, 0), Message(other, 0, 1)];
    assert Apply(s2, Receive) == TwoSent(s, id, other);
    PoliteThen(s2, Receive, rest, EARLY);
    steps := [Receive] + rest;
    PoliteThen(s1, b, steps, EARLY);
    steps := [b] + steps;
    PoliteThen(s, a, steps, EARLY);
    steps := [a] + steps;
  }

  /** A worker that stops before the queue is empty leaves a caller waiting. */
  lemma EarlyStopStrands(s: State, id: nat, other: nat) returns (steps: seq<Step>)
    requires Init(s) && id < |s.replies| && other < |s.replies| && id != other
    ensures PoliteRun(s, steps, EARLY) && Run(s, steps) && Stranded(After(s, steps))
    ensures var e := After(s, steps);
      e.worker.Stopped? && 1 in e.callers && e.callers[1].id == other && !Answered(e, e.callers[1])
  {
    var s3 := TwoSent(s, id, other);
    var s4 := Apply(s3, Handle(NoError, true));
    var e := Apply(s4, Reply(0));
    PoliteThen(s4, Reply(0), [], EARLY);
    PoliteThen(s3, Handle(NoError, true), [Reply(0)], EARLY);
    assert e.callers[1] == Checking(other, 1);
    assert Stuck(e, e.callers[1]);
    steps := TwoSentRun(s, id, other, [Handle(NoError, true)] + [Reply(0)]);
  }

  /** No run leaves anybody waiting for nothing exactly when there are no callers at all, or there is one
      per id, which waits on its own message's id, nobody sends once the worker is done, and
      the worker is not told to stop while a caller's message is queued. */
  lemma NobodyStrandedIff(r: Rules)
    ensures NobodyStranded(r) <==> r.n == 0 || (r.n == 1 && r.own && !r.late && !r.early)
  {
    if r.n == 0 || (r.n == 1 && r.own && !r.late && !r.early) {
      forall s: State, steps: seq<Step> | Init(s) && Run(s, steps) && PoliteRun(s, steps, r)
        ensures !Stranded(After(s, steps))
      {
        if r.n == 0 {
          NoneMeansNoCallers(s, steps, r);
        } else {
          PoliteIsSafe(s, steps, r);
          NobodyLostNobodyStranded(After(s, steps));
        }
      }
    } else {
      StrandingRun(r);
    }
  }

  lemma StrandingRun(r: Rules)
    requires r.n > 0 && (r.n > 1 || !r.own || r.late || r.early)
    ensures !NobodyStranded(r)
  {
    var s, a := Slots(2), TWO_CALLERS;
    var steps: seq<Step>;
    if r.n > 1 {
      steps := TwoCallersStrandOne(s, 0);
    } else if !r.own {
      a := OTHER_ID;
      steps := OtherReplyIdStrands(s, 0, 1);
    } else if r.late {
      a := LATE;
      steps := LateSendStrands(s, 0);
    } else {
      a := EARLY;
      steps := EarlyStopStrands(s, 0, 1);
    }
    StillPolite(s, steps, a, r);
    assert Stranded(After(s, steps));
  }
}
