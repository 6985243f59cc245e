/** When `dequeueBuffer` may be called: what its handle is good for once the requests that are
    outstanding, and `release`, have been served. */
module DequeueGuard {
  import opened Queues
  import opened SidebandWindow
  import Q = QueueProtocol

  /** The rendering queue and the allocator after the handlers of `o`. */
  function Serve(w: Store, o: seq<Message>): (r: Store)
    decreases |o|
  {
    if o == [] then w else Serve(Effect(w, o[0]), o[1..])
  }

  /** The messages that are handled before the thread stops. */
  function BeforeExit(o: seq<Message>): (r: seq<Message>) {
    if o == [] || o[0].id == EXIT then [] else [o[0]] + BeforeExit(o[1..])
  }

  /** What becomes of the rendering queue and the allocator if the client does nothing more:
      what is outstanding is served and, once `release` has been called, what is outstanding
      before EXIT is served and the leftovers are freed. */
  function Future(e: State): (r: Store) {
    var o := Outstanding(e.q);
    if e.exit.NotAsked? then Serve(e.w, o)
    else
      var w := Serve(e.w, if Has(o, EXIT) then BeforeExit(o) else []);
      FreeEach(w.(rendering := []), w.rendering, false)
  }

  /** Nothing that is to come frees `h`, and nobody else has it: neither the client nor a
      render request, and the rendering queue has it once. */
  predicate Exclusive(e: State, h: nat) {
    && h in Future(e).live
    && h !in e.client
    && h !in Renders(Outstanding(e.q))
    && multiset(e.w.rendering)[h] == 1
  }

  lemma {:induction false} FreeEachLive(w: Store, hs: seq<nat>, skipNull: bool)
    ensures FreeEach(w, hs, skipNull).live <= w.live
    ensures forall h | h in hs && h != 0 :: h !in FreeEach(w, hs, skipNull).live
    decreases |hs|
  {
    if hs == [] {
    } else {
      var next := if skipNull then FreeBuffer(w, hs[0]) else Free(w, hs[0]);
      FreeEachLive(next, hs[1..], skipNull);
      assert forall h | h in hs :: h == hs[0] || h in hs[1..];
    }
  }

  lemma {:induction false} ServeShrinks(w: Store, o: seq<Message>)
    ensures Serve(w, o).live <= w.live
    ensures !Has(o, FLUSH) ==> Serve(w, o).live == w.live
    decreases |o|
  {
    if o == [] {
    } else {
      FreeEachLive(w.(rendering := []), w.rendering, true);
      ServeShrinks(Effect(w, o[0]), o[1..]);
      assert forall m | m in o[1..] :: m in o;
    }
  }

  /** A flush frees what is queued when no dequeue request takes it out first. */
  lemma {:induction false} FlushFrees(w: Store, o: seq<Message>, h: nat)
    requires Has(o, FLUSH) && !Has(o, DEQUEUE_REQUEST) && h in w.rendering && h != 0
    ensures h !in Serve(w, o).live
    decreases |o|
  {
    if o[0].id == FLUSH {
      FreeEachLive(w.(rendering := []), w.rendering, true);
      ServeShrinks(Effect(w, o[0]), o[1..]);
    } else {
      assert o == [o[0]] + o[1..];
      assert o[0].id != DEQUEUE_REQUEST;
      FlushFrees(Effect(w, o[0]), o[1..], h);
    }
  }

  /** Without a dequeue request to take it out, a queued handle stays queued or is freed. */
  lemma {:induction false} StaysOrFreed(w: Store, o: seq<Message>, h: nat)
    requires !Has(o, DEQUEUE_REQUEST) && h in w.rendering && h != 0
    ensures h in Serve(w, o).rendering || h !in Serve(w, o).live
    decreases |o|
  {
    if o == [] {
    } else if o[0].id == FLUSH {
      FreeEachLive(w.(rendering := []), w.rendering, true);
      ServeShrinks(Effect(w, o[0]), o[1..]);
    } else {
      assert o == [o[0]] + o[1..] && o[0].id != DEQUEUE_REQUEST;
      StaysOrFreed(Effect(w, o[0]), o[1..], h);
    }
  }

  lemma {:induction false} BeforeExitMembers(o: seq<Message>)
    ensures forall m | m in BeforeExit(o) :: m in o
  {
    if o == [] || o[0].id == EXIT {
    } else {
      BeforeExitMembers(o[1..]);
      assert o == [o[0]] + o[1..];
    }
  }

  lemma FutureShrinks(e: State)
    ensures Future(e).live <= e.w.live
  {
    var o := Outstanding(e.q);
    ServeShrinks(e.w, o);
    ServeShrinks(e.w, BeforeExit(o));
    var w := Serve(e.w, if Has(o, EXIT) then BeforeExit(o) else []);
    FreeEachLive(w.(rendering := []), w.rendering, false);
  }

  /** `release` frees what no dequeue request takes out first. */
  lemma ReleaseFrees(e: State, h: nat)
    requires e.exit.Asked? && !Has(Outstanding(e.q), DEQUEUE_REQUEST) && h in e.w.rendering && h != 0
    ensures h !in Future(e).live
  {
    var o := Outstanding(e.q);
    var served := if Has(o, EXIT) then BeforeExit(o) else [];
    BeforeExitMembers(o);
    StaysOrFreed(e.w, served, h);
    var w := Serve(e.w, served);
    FreeEachLive(w.(rendering := []), w.rendering, false);
  }

  /** The front of the queue when no dequeue request is outstanding. */
  lemma FrontIsQueued(e: State)
    requires HoldInv(e) && !Has(Outstanding(e.q), DEQUEUE_REQUEST) && e.w.rendering != []
    ensures var h := e.w.rendering[0];
      && h != 0 && h in e.w.live && h !in e.client && h !in Renders(Outstanding(e.q))
      && multiset(e.w.rendering)[h] == 1
  {
    var h, renders := e.w.rendering[0], Renders(Outstanding(e.q));
    assert Logical(e) == e.w.rendering && h in multiset(e.w.rendering);
    HeldOnce(e.w.live, e.client, renders, e.w.rendering, h);
    assert h in renders <==> multiset(renders)[h] > 0;
  }

  /** The front while one is: whoever holds it, it is not the queue's alone. */
  lemma FrontIsLent(e: State)
    requires HoldInv(e) && Has(Outstanding(e.q), DEQUEUE_REQUEST) && e.w.rendering != []
    ensures !Exclusive(e, e.w.rendering[0])
  {
    var h, o, rest := e.w.rendering[0], Outstanding(e.q), e.w.rendering[1..];
    FutureShrinks(e);
    assert Logical(e) == rest;
    HeldOnce(e.w.live, e.client, Renders(o), rest, h);
    assert e.w.rendering == [h] + rest;
    assert multiset(e.w.rendering)[h] == 1 + multiset(rest)[h];
    assert h in Renders(o) <==> multiset(Renders(o))[h] > 0;
  }

  /** In every state that a disciplined client can reach: a `dequeueBuffer` that returns a
      buffer returns one that is its caller's alone, and stays so, exactly when `release` has
      not been called and no dequeue and no flush request is outstanding. */
  lemma ExclusiveIff(s: State, steps: seq<Step>)
    requires Init(s) && Run(s, steps)
    requires After(s, steps).call.NoCall? && |After(s, steps).w.rendering| > 2
    ensures var e := After(s, steps); var o := Outstanding(e.q);
      Exclusive(e, Apply(e, ReadFront).call.h) <==>
      e.exit.NotAsked? && !Has(o, DEQUEUE_REQUEST) && !Has(o, FLUSH)
  {
    Reached(s, steps);
    var e := After(s, steps);
    var o, h := Outstanding(e.q), e.w.rendering[0];
    if Has(o, DEQUEUE_REQUEST) {
      FrontIsLent(e);
    } else {
      FrontIsQueued(e);
      if e.exit.Asked? {
        ReleaseFrees(e, h);
      } else if Has(o, FLUSH) {
        FlushFrees(e.w, o, h);
      } else {
        ServeShrinks(e.w, o);
      }
    }
  }

  /** With a dequeue request outstanding it is the very handle returned before. */
  lemma EarlyDequeueReturnsSameBuffer(s: State, steps: seq<Step>)
    requires Init(s) && Run(s, steps) && After(s, steps).call.NoCall?
    requires Has(Outstanding(After(s, steps).q), DEQUEUE_REQUEST)
    ensures var e := After(s, steps); Apply(e, ReadFront).call == FrontRead(e.lent)
  {
    Reached(s, steps);
  }

  /** Between the read and the send of `dequeueBuffer` the handle is safe. */
  lemma CallIsSafe(e: State)
    requires Inv(e) && e.call.FrontRead?
    ensures e.w.rendering != [] && e.w.rendering[0] == e.call.h && e.call.h != 0 && e.call.h in e.w.rendering
    ensures e.exit.NotAsked? && !Has(Outstanding(e.q), DEQUEUE_REQUEST) && e.call.h in Future(e).live
  {
    FrontIsQueued(e);
    ServeShrinks(e.w, Outstanding(e.q));
  }

  /** A flush in between has the handle freed that is about to be returned; without it the
      handle stays live. */
  lemma FlushDuringCallFrees(s: State, steps: seq<Step>)
    requires Init(s) && Run(s, steps) && After(s, steps).call.FrontRead?
    ensures var e := After(s, steps);
      && e.call.h in Future(e).live
      && Enabled(e, Flush) && e.call.h !in Future(Apply(e, Flush)).live
  {
    Reached(s, steps);
    var e := After(s, steps);
    var o, f := Outstanding(e.q), Apply(e, Flush);
    CallIsSafe(e);
    PushedLast(e, Flush);
    HasAppend(o, Pushed(e, Flush), FLUSH);
    HasAppend(o, Pushed(e, Flush), DEQUEUE_REQUEST);
    FlushFrees(f.w, Outstanding(f.q), e.call.h);
  }

  /** So does a `release` in between, whatever thread calls it. */
  lemma ReleaseDuringCallFrees(s: State, steps: seq<Step>, thread: nat)
    requires Init(s) && Run(s, steps) && After(s, steps).call.FrontRead?
    ensures var e := After(s, steps);
      && e.call.h in Future(e).live
      && Enabled(e, SendExit(thread)) && e.call.h !in Future(Apply(e, SendExit(thread))).live
  {
    Reached(s, steps);
    var e := After(s, steps);
    var step := SendExit(thread);
    CallIsSafe(e);
    PushedLast(e, step);
    HasAppend(Outstanding(e.q), Pushed(e, step), DEQUEUE_REQUEST);
    ReleaseFrees(Apply(e, step), e.call.h);
  }

  // ---- The future comes ------------------------------------------------------------

  /** The thread runs on no further than EXIT, and after `release` nothing is queued. */
  ghost predicate ExitAhead(s: State) {
    && (s.exit.Asked? && s.q.running ==>
          |s.q.received| <= s.exit.ticket || (s.q.worker.Handling? && s.q.worker.m.id == EXIT))
    && (s.done ==> s.exit.Asked? && s.q.worker.Stopped? && s.w.rendering == [])
  }

  lemma ReceivesExit(s: State)
    requires Inv(s) && ExitAhead(s) && Q.Enabled(s.q, Q.Receive)
    ensures ExitAhead(Apply(s, QueueStep(Q.Receive)))
  {
    ReceivedIsPrefix(s.q);
    NextIsExit(s.q, s.exit);
    assert s.done ==> s.q.worker.Stopped?;
  }

  /** The message that is received after those before EXIT is EXIT. */
  lemma NextIsExit(q: Q.State, exit: Exit)
    requires q.received + q.pending == q.sent && q.pending != []
    requires exit.Asked? ==> IsExitOnly(q.sent, exit.ticket)
    ensures exit.Asked? && |q.received| == exit.ticket ==> q.pending[0].id == EXIT
  {
    assert q.sent[|q.received|] == q.pending[0];
  }

  lemma ExitAheadClient(s: State, step: Step)
    requires ExitAhead(s) && |s.q.received| <= |s.q.sent| && Enabled(s, step) && Disciplined(s, step)
    requires !step.QueueStep? && !step.RunHandler? && !step.FreeLeftovers?
    ensures ExitAhead(Apply(s, step))
  {
  }

  lemma ExitAheadQueue(s: State, qs: Q.Step)
    requires ExitAhead(s) && Enabled(s, QueueStep(qs)) && !qs.Receive?
    ensures ExitAhead(Apply(s, QueueStep(qs)))
  {
  }

  lemma ExitAheadOwn(s: State, step: Step)
    requires ExitInv(s) && ExitAhead(s) && Enabled(s, step) && (step.RunHandler? || step.FreeLeftovers?)
    ensures ExitAhead(Apply(s, step))
  {
    FreeEachKeeps(s.w.(rendering := []), s.w.rendering, false);
  }

  lemma ExitAheadStep(s: State, step: Step)
    requires Inv(s) && ExitAhead(s) && Enabled(s, step) && Disciplined(s, step)
    ensures ExitAhead(Apply(s, step))
  {
    match step
    case QueueStep(qs) =>
      if qs.Receive? {
        ReceivesExit(s);
      } else {
        ExitAheadQueue(s, qs);
      }
    case RunHandler => ExitAheadOwn(s, step);
    case FreeLeftovers => ExitAheadOwn(s, step);
    case _ =>
      ReceivedIsPrefix(s.q);
      ExitAheadClient(s, step);
  }

  lemma {:induction false} ExitAheadAlways(s: State, steps: seq<Step>)
    requires Inv(s) && ExitAhead(s) && Run(s, steps)
    ensures Inv(After(s, steps)) && ExitAhead(After(s, steps))
    decreases |steps|
  {
    if steps == [] {
    } else {
      InvStep(s, steps[0]);
      ExitAheadStep(s, steps[0]);
      ExitAheadAlways(Apply(s, steps[0]), steps[1..]);
    }
  }

  /** EXIT is outstanding while the thread still handles messages after `release` was called,
      and it is the last one that is handled. */
  lemma HandlesUpToExit(s: State)
    requires Inv(s) && ExitAhead(s) && s.exit.Asked? && s.q.worker.Handling?
    ensures Has(Outstanding(s.q), EXIT)
    ensures s.q.worker.m.id == EXIT ==> !Has(s.q.pending, EXIT)
  {
    ReceivedIsPrefix(s.q);
    var e := s.exit.ticket;
    if e >= |s.q.received| {
      assert s.q.pending[e - |s.q.received|] == s.q.sent[e];
      assert s.q.sent[e] in Outstanding(s.q);
    } else {
      assert s.q.worker.m in Outstanding(s.q);
    }
    forall j | 0 <= j < |s.q.pending| && s.q.worker.m.id == EXIT
      ensures s.q.pending[j].id != EXIT
    {
      assert s.q.pending[j] == s.q.sent[|s.q.received| + j];
    }
  }

  lemma StoppedHasNoExit(s: State)
    requires Inv(s) && s.q.worker.Stopped?
    ensures !Has(Outstanding(s.q), EXIT)
  {
    ReceivedIsPrefix(s.q);
    forall j | 0 <= j < |s.q.pending|
      ensures s.q.pending[j].id != EXIT
    {
      assert s.q.pending[j] == s.q.sent[|s.q.received| + j];
    }
  }

  lemma HandlerKeepsFuture(s: State)
    requires Inv(s) && ExitAhead(s) && Enabled(s, RunHandler)
    ensures Future(Apply(s, RunHandler)) == Future(s)
  {
    HandlerPops(s);
    var o := Outstanding(s.q);
    if s.exit.Asked? {
      HandlesUpToExit(s);
      assert o[1..] == s.q.pending;
      assert o == [o[0]] + o[1..];
      if o[0].id != EXIT {
        assert Has(o[1..], EXIT);
        assert BeforeExit(o)[0] == o[0] && BeforeExit(o)[1..] == BeforeExit(o[1..]);
      }
    }
  }

  /** Every step of the render thread, and the freeing loop of `release`, leave the future as it
      is; and it is there when nothing is outstanding, or when `release` is through. */
  lemma FutureComes(s: State, steps: seq<Step>, step: Step)
    requires Init(s) && Run(s, steps)
    requires step.QueueStep? || step.RunHandler? || step.FreeLeftovers?
    ensures var e := After(s, steps); Enabled(e, step) ==> Future(Apply(e, step)) == Future(e)
    ensures var e := After(s, steps); e.done || (e.exit.NotAsked? && Outstanding(e.q) == []) ==> Future(e) == e.w
  {
    Reached(s, []);
    ExitAheadAlways(s, steps);
    var e := After(s, steps);
    if e.q.worker.Stopped? {
      StoppedHasNoExit(e);
    }
    if Enabled(e, step) {
      match step
      case QueueStep(qs) => QueueStepKeepsOutstanding(e, qs);
      case RunHandler => HandlerKeepsFuture(e);
      case FreeLeftovers => LeftoversKeepFuture(e);
    }
  }

  lemma LeftoversKeepFuture(e: State)
    requires Inv(e) && Enabled(e, FreeLeftovers)
    ensures Future(Apply(e, FreeLeftovers)) == Future(e)
  {
    StoppedHasNoExit(e);
    FreeEachKeeps(e.w.(rendering := []), e.w.rendering, false);
  }

  // ---- Such states are reached -----------------------------------------------------

  lemma RunThen(s: State, step: Step, rest: seq<Step>)
    requires Enabled(s, step) && Disciplined(s, step) && Run(Apply(s, step), rest)
    ensures Run(s, [step] + rest) && After(s, [step] + rest) == After(Apply(s, step), rest)
  {
    assert ([step] + rest)[1..] == rest;
  }

  /** Handles 1 to `n`. */
  function Handles(n: nat): (hs: seq<nat>)
    ensures forall h: nat :: h in hs <==> 0 < h <= n
  {
    if n == 0 then [] else Handles(n - 1) + [n]
  }

  /** The client has put them into the rendering queue. */
  ghost function Filled(s: State, n: nat): (r: State) {
    var hs := Handles(n);
    s.(w := Store(hs, set h | h in hs, false), entered := hs)
  }

  lemma FillOne(s: State, n: nat, rest: seq<Step>) returns (steps: seq<Step>)
    requires Init(s) && Run(Filled(s, n + 1), rest)
    ensures Run(Filled(s, n), steps) && After(Filled(s, n), steps) == After(Filled(s, n + 1), rest)
  {
    var h := n + 1;
    var s0 := Filled(s, n);
    var s1 := Apply(s0, Allocate(h));
    var s2 := Apply(s1, Remain(h));
    assert s2.w.rendering == Handles(h) == s2.entered;
    assert s2.w.live == set k | k in Handles(h);
    assert s2.client == {};
    assert s2 == Filled(s, h);
    RunThen(s1, Remain(h), rest);
    steps := [Remain(h)] + rest;
    RunThen(s0, Allocate(h), steps);
    steps := [Allocate(h)] + steps;
  }

  lemma NothingFilled(s: State)
    requires Init(s)
    ensures Filled(s, 0) == s
  {
    assert Filled(s, 0).w == Store([], {}, false);
  }

  lemma {:induction false} Fill(s: State, n: nat, rest: seq<Step>) returns (steps: seq<Step>)
    requires Init(s) && Run(Filled(s, n), rest)
    ensures Run(s, steps) && After(s, steps) == After(Filled(s, n), rest)
  {
    if n == 0 {
      NothingFilled(s);
      steps := rest;
    } else {
      var k := n - 1;
      assert Filled(s, k + 1) == Filled(s, n);
      var last := FillOne(s, k, rest);
      steps := Fill(s, k, last);
    }
  }

  /** A disciplined run to a state with a dequeue request outstanding and more than two buffers
      queued, where a `dequeueBuffer` is not exclusive. */
  lemma DequeueGuardIsNeeded(s: State) returns (steps: seq<Step>)
    requires Init(s)
    ensures Run(s, steps) && Unsafe(After(s, steps)) && Has(Outstanding(After(s, steps).q), DEQUEUE_REQUEST)
  {
    steps := DequeuedRun(s);
    ExclusiveIff(s, steps);
  }

  /** One to such a state with a flush request outstanding instead. */
  lemma FlushGuardIsNeeded(s: State) returns (steps: seq<Step>)
    requires Init(s)
    ensures Run(s, steps) && Unsafe(After(s, steps))
    ensures var o := Outstanding(After(s, steps).q); Has(o, FLUSH) && !Has(o, DEQUEUE_REQUEST)
  {
    steps := SendRun(s, Flush);
    ExclusiveIff(s, steps);
  }

  /** And one to such a state with neither, after `release` was called. */
  lemma ReleaseGuardIsNeeded(s: State) returns (steps: seq<Step>)
    requires Init(s)
    ensures Run(s, steps) && Unsafe(After(s, steps)) && After(s, steps).exit.Asked?
    ensures var o := Outstanding(After(s, steps).q); !Has(o, FLUSH) && !Has(o, DEQUEUE_REQUEST)
  {
    steps := SendRun(s, SendExit(0));
    ExclusiveIff(s, steps);
  }

  lemma DequeuedRun(s: State) returns (steps: seq<Step>)
    requires Init(s)
    ensures Run(s, steps)
    ensures var e := After(s, steps);
      e.call.NoCall? && |e.w.rendering| == 3 && Has(Outstanding(e.q), DEQUEUE_REQUEST)
  {
    var t := Filled(s, 3);
    assert t.w.rendering == Handles(1) + [2] + [3] && Handles(1) == [1];
    assert Outstanding(t.q) == [];
    var t1 := Apply(t, ReadFront);
    var t2 := Apply(t1, SendDequeue);
    assert Outstanding(t2.q) == [Message(DEQUEUE_REQUEST, 0, 0)];
    assert Message(DEQUEUE_REQUEST, 0, 0) in Outstanding(t2.q);
    RunThen(t1, SendDequeue, []);
    RunThen(t, ReadFront, [SendDequeue]);
    steps := Fill(s, 3, [ReadFront] + [SendDequeue]);
  }

  lemma SendRun(s: State, step: Step) returns (steps: seq<Step>)
    requires Init(s) && (step.Flush? || step.SendExit?)
    ensures Run(s, steps)
    ensures var e := After(s, steps); var o := Outstanding(e.q);
      && e.call.NoCall? && |e.w.rendering| == 3 && !Has(o, DEQUEUE_REQUEST)
      && (Has(o, FLUSH) <==> step.Flush?) && (e.exit.Asked? <==> step.SendExit?)
  {
    var t := Filled(s, 3);
    assert t.w.rendering == Handles(1) + [2] + [3] && Handles(1) == [1];
    assert Outstanding(t.q) == [];
    var m := Pushed(t, step);
    assert Outstanding(Apply(t, step).q) == [m];
    assert m in [m];
    RunThen(t, step, []);
    steps := Fill(s, 3, [step] + []);
  }

  ghost predicate Unsafe(e: State) {
    e.call.NoCall? && Apply(e, ReadFront).call.FrontRead? && !Exclusive(e, Apply(e, ReadFront).call.h)
  }
}
