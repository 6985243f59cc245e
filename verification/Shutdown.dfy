/** How `release` ends: what it returns, and that it can always end. */
module Shutdown {
  import opened Queues
  import opened SidebandWindow
  import opened DequeueGuard
  import Q = QueueProtocol

  // ---- What the synchronous EXIT send returns --------------------------------------

  ghost predicate AnswerInv(s: State) {
    && (forall k | k in s.q.returned :: k in s.q.results && s.q.results[k] == NoError)
    && (s.q.worker.Stopped? ==> EXIT < |s.q.replies| && s.q.replies[EXIT] == NoError)
    && (s.q.worker.Replying? && s.q.worker.m.id == EXIT ==> s.q.worker.status == NoError)
  }

  lemma AnswerQueue(s: State, qs: Q.Step)
    requires ExitInv(s) && InHand(s.q) && AnswerInv(s) && Enabled(s, QueueStep(qs))
    ensures AnswerInv(Apply(s, QueueStep(qs)))
  {
    if qs.CheckReply? {
      assert s.exit.Asked? && s.q.callers[qs.thread].id == EXIT;
    }
  }

  lemma AnswerOther(s: State, step: Step)
    requires ExitInv(s) && AnswerInv(s) && Enabled(s, step) && Disciplined(s, step) && !step.QueueStep?
    ensures AnswerInv(Apply(s, step))
  {
  }

  // ---- Who waits for EXIT ----------------------------------------------------------

  /** A thread waits for EXIT from the call of `release` until its send has returned. */
  ghost predicate ReleaseWaits(s: State) {
    s.exit.Asked? ==>
      s.exit.ticket in s.q.returned || exists t | t in s.q.callers :: s.q.callers[t].ticket == s.exit.ticket
  }

  lemma ReleaseWaitsStep(s: State, step: Step)
    requires ReleaseWaits(s) && Enabled(s, step) && Disciplined(s, step)
    ensures ReleaseWaits(Apply(s, step))
  {
    var e := Apply(s, step);
    if step.SendExit? {
      assert e.q.callers[step.thread].ticket == e.exit.ticket;
    } else if s.exit.Asked? && s.exit.ticket !in s.q.returned {
      var t :| t in s.q.callers && s.q.callers[t].ticket == s.exit.ticket;
      assert e.exit.ticket in e.q.returned || (t in e.q.callers && e.q.callers[t].ticket == s.exit.ticket);
    }
  }

  ghost predicate EndInv(s: State) {
    Inv(s) && ExitAhead(s) && AnswerInv(s) && ReleaseWaits(s)
  }

  lemma EndStep(s: State, step: Step)
    requires EndInv(s) && Enabled(s, step) && Disciplined(s, step)
    ensures EndInv(Apply(s, step))
  {
    ReceivedIsPrefix(s.q);
    InvStep(s, step);
    ExitAheadStep(s, step);
    ReleaseWaitsStep(s, step);
    if step.QueueStep? {
      AnswerQueue(s, step.step);
    } else {
      AnswerOther(s, step);
    }
  }

  lemma {:induction false} EndAlways(s: State, steps: seq<Step>)
    requires EndInv(s) && Run(s, steps)
    ensures EndInv(After(s, steps))
    decreases |steps|
  {
    if steps == [] {
    } else {
      EndStep(s, steps[0]);
      EndAlways(Apply(s, steps[0]), steps[1..]);
    }
  }

  /** In every disciplined run the send of EXIT, once it returns, has returned success. */
  lemma ReleaseSucceeds(s: State, steps: seq<Step>)
    requires Init(s) && Run(s, steps)
    ensures var q := After(s, steps).q; forall k | k in q.returned :: k in q.results && q.results[k] == NoError
  {
    Reached(s, []);
    EndAlways(s, steps);
  }

  // ---- `release` can end -----------------------------------------------------------

  /** Only the render thread and the thread in `release` move. */
  predicate OwnMove(step: Step) {
    step.QueueStep? || step.RunHandler?
  }

  /** How far the render thread is from being done with EXIT. */
  function Distance(s: State): (d: int) {
    var phase := if s.q.worker.Handling? then 2 else if s.q.worker.Replying? then 1 else 0;
    if s.exit.NotAsked? then 0 else 3 * (s.exit.ticket + 1 - |s.q.received|) + phase
  }

  lemma DistanceIsNat(s: State)
    requires EndInv(s)
    ensures Distance(s) >= 0
  {
    ReceivedIsPrefix(s.q);
  }

  /** A stopped thread has answered whoever waits for EXIT. */
  lemma Answered(s: State) returns (t: nat)
    requires EndInv(s) && s.exit.Asked? && s.q.worker.Stopped? && s.exit.ticket !in s.q.returned
    ensures t in s.q.callers && s.q.callers[t].ticket == s.exit.ticket
    ensures Enabled(s, QueueStep(Q.CheckReply(t)))
    ensures s.exit.ticket in Apply(s, QueueStep(Q.CheckReply(t))).q.returned
  {
    t :| t in s.q.callers && s.q.callers[t].ticket == s.exit.ticket;
    assert Q.CallerOk(s.q, s.q.callers[t]);
  }

  lemma StepsNearer(s: State, step: Step)
    requires s.exit.Asked? && Enabled(s, step)
    requires step.RunHandler? || (step.QueueStep? && (step.step.Reply? || step.step.Receive?))
    ensures var e := Apply(s, step); e.exit == s.exit && Distance(e) < Distance(s)
  {
    match step
    case RunHandler =>
    case QueueStep(qs) => assert Q.Apply(s.q, qs).received == s.q.received + if qs.Receive? then [s.q.pending[0]] else [];
  }

  lemma CanReply(q: Q.State) returns (woken: nat)
    requires Q.FifoInv(q) && q.taken == {} && q.worker.Replying?
    ensures Q.Enabled(q, Q.Reply(woken))
  {
    ReceivedIsPrefix(q);
    woken := 0;
    if t :| t in q.callers && Q.Asleep(q, t, q.worker.m.id) {
      woken := t;
    }
  }

  /** A thread that runs and is not at work has not received EXIT yet. */
  lemma CanReceive(s: State)
    requires EndInv(s) && s.exit.Asked? && (s.q.worker.Receiving? || s.q.worker.Waiting?)
    ensures Q.Enabled(s.q, Q.Receive)
  {
    assert s.q.running && |s.q.received| <= s.exit.ticket;
    SomethingQueued(s.q, s.exit.ticket);
  }

  lemma SomethingQueued(q: Q.State, k: nat)
    requires Q.FifoInv(q) && q.taken == {} && |q.received| <= k < |q.sent|
    ensures q.pending != [] && !q.worker.Waiting?
  {
    ReceivedIsPrefix(q);
  }

  /** Until then the render thread has a step that takes it nearer. */
  lemma Nearer(s: State) returns (step: Step)
    requires EndInv(s) && s.exit.Asked? && !s.q.worker.Stopped?
    ensures OwnMove(step) && Enabled(s, step) && Disciplined(s, step)
    ensures Apply(s, step).exit == s.exit && Distance(Apply(s, step)) < Distance(s)
  {
    if s.q.worker.Handling? {
      step := RunHandler;
    } else if s.q.worker.Replying? {
      var woken := CanReply(s.q);
      step := QueueStep(Q.Reply(woken));
    } else {
      CanReceive(s);
      step := QueueStep(Q.Receive);
    }
    StepsNearer(s, step);
  }

  lemma {:induction false} Finish(s: State) returns (more: seq<Step>)
    requires EndInv(s) && s.exit.Asked?
    ensures Run(s, more) && forall i | 0 <= i < |more| :: OwnMove(more[i])
    ensures After(s, more).exit == s.exit && s.exit.ticket in After(s, more).q.returned
    decreases Distance(s)
  {
    if s.exit.ticket in s.q.returned {
      more := [];
    } else if s.q.worker.Stopped? {
      var t := Answered(s);
      RunThen(s, QueueStep(Q.CheckReply(t)), []);
      more := [QueueStep(Q.CheckReply(t))] + [];
    } else {
      var step := Nearer(s);
      EndStep(s, step);
      DistanceIsNat(s);
      var rest := Finish(Apply(s, step));
      RunThen(s, step, rest);
      more := [step] + rest;
    }
  }

  /** From every state that a disciplined client can reach after it has called `release`, with
      whatever is queued, the render thread and the thread in `release` can by themselves go
      on to where the send of EXIT has returned, and the leftovers can be freed. */
  lemma ReleaseCanEnd(s: State, steps: seq<Step>) returns (more: seq<Step>)
    requires Init(s) && Run(s, steps) && After(s, steps).exit.Asked?
    ensures var e := After(s, steps);
      && Run(e, more) && (forall i | 0 <= i < |more| :: OwnMove(more[i]))
      && e.exit.ticket in After(e, more).q.returned
      && (!After(e, more).done ==> Enabled(After(e, more), FreeLeftovers))
  {
    Reached(s, []);
    EndAlways(s, steps);
    more := Finish(After(s, steps));
  }
}
