/** The sideband render window: client threads talk to one render thread through the
    message queue, and buffer handles travel between client, messages and queue. */
module SidebandWindow {
  import opened Queues
  import Q = QueueProtocol
  import Stranding

  const EXIT := 1
  const RENDER_REQUEST := 2
  const DEQUEUE_REQUEST := 3
  const FLUSH := 4
  const MESSAGE_ID_MAX := 5

  const MIN_BUFFER_COUNT_UNDEQUEUE := 2

  /** The rendering queue, the handles the allocator has given out and not got back, and
      whether anything went wrong: a handle freed that is not live, or an erase on an
      empty queue. Handle 0 is NULL. */
  datatype Store = Store(rendering: seq<nat>, live: set<nat>, fault: bool)

  function Free(w: Store, h: nat): (r: Store) {
    w.(live := w.live - {h}, fault := w.fault || h !in w.live)
  }

  function FreeBuffer(w: Store, h: nat): (r: Store) {
    if h == 0 then w else Free(w, h)
  }

  function FreeEach(w: Store, hs: seq<nat>, skipNull: bool): (r: Store)
    decreases |hs|
  {
    if hs == [] then w
    else FreeEach(if skipNull then FreeBuffer(w, hs[0]) else Free(w, hs[0]), hs[1..], skipNull)
  }

  /** What the render thread's handler does with message `m`. */
  function Effect(w: Store, m: Message): (r: Store) {
    if m.id == RENDER_REQUEST then w.(rendering := w.rendering + [m.buffer])
    else if m.id == DEQUEUE_REQUEST then
      if w.rendering == [] then w.(fault := true) else w.(rendering := w.rendering[1..])
    else if m.id == FLUSH then FreeEach(w.(rendering := []), w.rendering, true)
    else w
  }

  class RTSidebandWindow {
    var mRenderingQueue: seq<nat>
    // the gralloc device, as far as this class can tell it apart
    var mLive: set<nat>
    var mFault: bool

    ghost function View(): (w: Store)
      reads this
    {
      Store(mRenderingQueue, mLive, mFault)
    }

    method FreeHandle(buffer: nat)
      modifies this`mLive, this`mFault
      ensures View() == Free(old(View()), buffer)
    {
      mFault := mFault || buffer !in mLive;
      mLive := mLive - {buffer};
    }

    method RemainBuffer(buffer: nat)
      modifies this`mRenderingQueue
      ensures mRenderingQueue == old(mRenderingQueue) + [buffer]
    {
      mRenderingQueue := mRenderingQueue + [buffer];
    }

    /** The part of `dequeueBuffer` before it sends the request: 0 when too few wait. */
    method DequeueFront() returns (buffer: nat)
      ensures |mRenderingQueue| > 2 ==> buffer == mRenderingQueue[0]
      ensures |mRenderingQueue| <= 2 ==> buffer == 0
    {
      buffer := 0;
      if |mRenderingQueue| > MIN_BUFFER_COUNT_UNDEQUEUE {
        buffer := mRenderingQueue[0];
      }
    }

    method HandleRenderRequest(msg: Message)
      requires msg.id == RENDER_REQUEST
      modifies this`mRenderingQueue
      ensures View() == Effect(old(View()), msg)
    {
      mRenderingQueue := mRenderingQueue + [msg.buffer];
    }

    method HandleDequeueRequest(msg: Message)
      requires msg.id == DEQUEUE_REQUEST
      requires mRenderingQueue != []
      modifies this`mRenderingQueue
      ensures View() == Effect(old(View()), msg)
    {
      mRenderingQueue := mRenderingQueue[1..];
    }

    method HandleFlush(msg: Message)
      requires msg.id == FLUSH
      modifies this
      ensures View() == Effect(old(View()), msg)
    {
      while |mRenderingQueue| > 0
        invariant Effect(View(), msg) == Effect(old(View()), msg)
        decreases |mRenderingQueue|
      {
        var buffer := mRenderingQueue[0];
        mRenderingQueue := mRenderingQueue[1..];
        if buffer != 0 {
          FreeHandle(buffer);
        }
      }
    }

    /** The loop of `release` that hands every leftover buffer back to the allocator. */
    method FreeLeftovers()
      modifies this
      ensures View() == FreeEach(old(View()).(rendering := []), old(mRenderingQueue), false)
    {
      while |mRenderingQueue| > 0
        invariant FreeEach(View().(rendering := []), mRenderingQueue, false)
               == FreeEach(old(View()).(rendering := []), old(mRenderingQueue), false)
        decreases |mRenderingQueue|
      {
        var tmpBuffer := mRenderingQueue[0];
        mRenderingQueue := mRenderingQueue[1..];
        FreeHandle(tmpBuffer);
      }
    }
  }

  // ---- The protocol ----------------------------------------------------------------

  /** `dequeueBuffer` reads the front of the queue and only then sends its request. */
  datatype Call = NoCall | FrontRead(h: nat)
  datatype Exit = NotAsked | Asked(ticket: nat)

  /** History: `lent` is the handle of the latest `dequeueBuffer`, `entered` the handles
      that entered the rendering queue, `gone` those that left it for the client or by
      being freed. */
  datatype State = State(
    q: Q.State, w: Store, client: set<nat>, call: Call, exit: Exit, done: bool,
    lent: nat, entered: seq<nat>, gone: seq<nat>)

  datatype Step =
    | Allocate(h: nat)
    | ClientFree(h: nat)
    | Remain(h: nat)
    | ReadFront
    | SendDequeue
    | QueueBuffer(h: nat)
    | Flush
    | SendExit(thread: nat)
    | QueueStep(step: Q.Step)
    | RunHandler
    | FreeLeftovers

  /** The messages whose handler has not run yet, oldest first. */
  function Outstanding(q: Q.State): (r: seq<Message>) {
    (if q.worker.Handling? then [q.worker.m] else []) + q.pending
  }

  predicate Has(o: seq<Message>, id: int) {
    exists m | m in o :: m.id == id
  }

  function HandlerStep(q: Q.State): (r: Q.Step)
    requires q.worker.Handling?
  {
    var id := q.worker.m.id;
    Q.Handle(if EXIT <= id <= FLUSH then NoError else BadValue, id == EXIT)
  }

  predicate Enabled(s: State, step: Step) {
    match step
    case Allocate(h) => h != 0 && h !in s.w.live
    case ClientFree(_) => true
    case Remain(_) => true
    case ReadFront => s.call.NoCall?
    case SendDequeue => s.call.FrontRead? && DEQUEUE_REQUEST < |s.q.replies|
    case QueueBuffer(_) => RENDER_REQUEST < |s.q.replies|
    case Flush => FLUSH < |s.q.replies|
    case SendExit(t) => Q.Enabled(s.q, Q.SendAndWait(t, EXIT, 0, EXIT))
    case QueueStep(step) =>
      && (step.CheckReply? || step.SpuriousWake? || step.Receive? || step.ReceiveWait? || step.SpuriousNotify? || step.Reply?)
      && Q.Enabled(s.q, step)
    case RunHandler => s.q.worker.Handling?
    case FreeLeftovers => s.exit.Asked? && s.exit.ticket in s.q.returned && !s.done
  }

  /** What the client must respect. It frees, queues and returns only buffers it holds.
      It calls `dequeueBuffer` only when no earlier dequeue or flush request is still
      waiting for its handler, and `flush` and `release` not while a `dequeueBuffer` is between
      its read and its send. It calls `release` once, last of all its dequeues. */
  predicate Disciplined(s: State, step: Step) {
    match step
    case Allocate(_) => !s.done
    case ClientFree(h) => !s.done && h in s.client
    case Remain(h) => !s.done && h in s.client
    case ReadFront =>
      s.exit.NotAsked? && !Has(Outstanding(s.q), DEQUEUE_REQUEST) && !Has(Outstanding(s.q), FLUSH)
    case QueueBuffer(h) => !s.done && h in s.client
    case Flush => !s.done && s.call.NoCall?
    case SendExit(_) => s.exit.NotAsked? && s.call.NoCall?
    case _ => true
  }

  function Apply(s: State, step: Step): (r: State)
    requires Enabled(s, step)
  {
    match step
    case Allocate(h) => s.(w := s.w.(live := s.w.live + {h}), client := s.client + {h})
    case ClientFree(h) => s.(w := FreeBuffer(s.w, h), client := s.client - {h})
    case Remain(h) =>
      s.(w := s.w.(rendering := s.w.rendering + [h]), client := s.client - {h}, entered := s.entered + [h])
    case ReadFront =>
      if |s.w.rendering| > MIN_BUFFER_COUNT_UNDEQUEUE then s.(call := FrontRead(s.w.rendering[0])) else s
    case SendDequeue =>
      s.(q := Q.Apply(s.q, Q.Send(DEQUEUE_REQUEST, 0)), call := NoCall, client := s.client + {s.call.h},
         lent := s.call.h, gone := s.gone + [s.call.h])
    case QueueBuffer(h) => s.(q := Q.Apply(s.q, Q.Send(RENDER_REQUEST, h)), client := s.client - {h})
    case Flush => s.(q := Q.Apply(s.q, Q.Send(FLUSH, 0)))
    case SendExit(t) =>
      s.(q := Q.Apply(s.q, Q.SendAndWait(t, EXIT, 0, EXIT)), exit := Asked(|s.q.sent|))
    case QueueStep(step) => s.(q := Q.Apply(s.q, step))
    case RunHandler =>
      var m := s.q.worker.m;
      s.(q := Q.Apply(s.q, HandlerStep(s.q)), w := Effect(s.w, m),
         entered := s.entered + (if m.id == RENDER_REQUEST then [m.buffer] else []),
         gone := s.gone + (if m.id == FLUSH then s.w.rendering else []))
    case FreeLeftovers =>
      s.(w := FreeEach(s.w.(rendering := []), s.w.rendering, false), gone := s.gone + s.w.rendering, done := true)
  }

  ghost predicate Init(s: State) {
    && Q.Init(s.q) && |s.q.replies| == MESSAGE_ID_MAX
    && s.w == Store([], {}, false) && s.client == {}
    && s.call == NoCall && s.exit == NotAsked && !s.done && s.entered == [] && s.gone == []
  }

  ghost predicate Run(s: State, steps: seq<Step>)
    decreases |steps|
  {
    steps == [] ||
    (Enabled(s, steps[0]) && Disciplined(s, steps[0]) && Run(Apply(s, steps[0]), steps[1..]))
  }

  ghost function After(s: State, steps: seq<Step>): (r: State)
    requires Run(s, steps)
    decreases |steps|
  {
    if steps == [] then s else After(Apply(s, steps[0]), steps[1..])
  }

  // ---- The exit handshake ----------------------------------------------------------

  ghost predicate IsExitOnly(sent: seq<Message>, e: nat) {
    e < |sent| && forall k | 0 <= k < |sent| :: sent[k].id == EXIT <==> k == e
  }

  ghost predicate ExitInv(s: State) {
    && |s.q.replies| == MESSAGE_ID_MAX
    && s.q.removers == map[] && s.q.taken == {}
    && (match s.exit
        case NotAsked =>
          && s.q.running && s.q.callers == map[] && s.q.returned == {}
          && (forall k | 0 <= k < |s.q.sent| :: s.q.sent[k].id != EXIT)
        case Asked(e) =>
          && IsExitOnly(s.q.sent, e)
          && (forall t | t in s.q.callers :: s.q.callers[t].id == EXIT && s.q.callers[t].ticket == e)
          && (s.q.replies[EXIT] == WouldBlock || s.q.worker.Stopped?)
          && (s.q.returned != {} ==> s.q.worker.Stopped?)
          && (s.q.running <==> !(s.q.worker.Stopped? || (s.q.worker.Replying? && s.q.worker.m.id == EXIT)))
          && (!s.q.running ==> |s.q.received| == e + 1))
    && (s.q.worker.Stopped? ==> s.exit.Asked?)
  }

  /** The queue step a window step makes, if it makes one. */
  function QueueMove(s: State, step: Step): (r: seq<Q.Step>)
    requires Enabled(s, step)
  {
    match step
    case SendDequeue => [Q.Send(DEQUEUE_REQUEST, 0)]
    case QueueBuffer(h) => [Q.Send(RENDER_REQUEST, h)]
    case Flush => [Q.Send(FLUSH, 0)]
    case SendExit(t) => [Q.SendAndWait(t, EXIT, 0, EXIT)]
    case QueueStep(step) => [step]
    case RunHandler => [HandlerStep(s.q)]
    case _ => []
  }

  /** The window drives the queue only through steps that respect its discipline. */
  lemma QueueFollows(s: State, step: Step)
    requires Q.WakeInv(s.q) && ExitInv(s) && Enabled(s, step) && Disciplined(s, step)
    ensures Q.WakeInv(Apply(s, step).q)
  {
    var mv := QueueMove(s, step);
    if mv != [] {
      Q.WakeStep(s.q, mv[0]);
    }
  }

  /** The message the render thread has in hand is the latest one received. */
  ghost predicate InHand(q: Q.State) {
    q.worker.Handling? || q.worker.Replying? ==>
      0 < |q.received| <= |q.sent| && q.sent[|q.received| - 1] == q.worker.m
  }

  lemma ReceivedIsPrefix(q: Q.State)
    requires Q.FifoInv(q) && q.taken == {}
    ensures q.received + q.pending == q.sent && q.received == q.sent[..|q.received|]
    ensures InHand(q)
  {
    Q.KeepAll(q.sent, {});
    var n := |q.received| - 1;
    assert n >= 0 ==> q.received[n] == (q.received + q.pending)[n];
  }

  lemma ExitSends(s: State, step: Step)
    requires ExitInv(s) && InHand(s.q) && Enabled(s, step) && Disciplined(s, step)
    requires step.SendDequeue? || step.QueueBuffer? || step.Flush? || step.SendExit?
    ensures ExitInv(Apply(s, step))
  {
  }

  lemma ExitCheckReply(s: State, t: nat)
    requires ExitInv(s) && Enabled(s, QueueStep(Q.CheckReply(t)))
    ensures ExitInv(Apply(s, QueueStep(Q.CheckReply(t))))
  {
    assert s.exit.Asked? && s.q.callers[t].id == EXIT;
  }

  lemma ExitReply(s: State, woken: nat)
    requires ExitInv(s) && InHand(s.q) && Enabled(s, QueueStep(Q.Reply(woken)))
    ensures ExitInv(Apply(s, QueueStep(Q.Reply(woken))))
  {
  }

  lemma ExitOther(s: State, step: Step)
    requires ExitInv(s) && InHand(s.q) && Enabled(s, step) && Disciplined(s, step)
    requires !step.SendDequeue? && !step.QueueBuffer? && !step.Flush? && !step.SendExit?
    requires step.QueueStep? ==> !step.step.CheckReply? && !step.step.Reply?
    ensures ExitInv(Apply(s, step))
  {
  }

  lemma ExitStep(s: State, step: Step)
    requires Q.WakeInv(s.q) && ExitInv(s) && Enabled(s, step) && Disciplined(s, step)
    ensures ExitInv(Apply(s, step))
  {
    ReceivedIsPrefix(s.q);
    match step
    case QueueStep(CheckReply(t)) => ExitCheckReply(s, t);
    case QueueStep(Reply(w)) => ExitReply(s, w);
    case SendDequeue => ExitSends(s, step);
    case QueueBuffer(_) => ExitSends(s, step);
    case Flush => ExitSends(s, step);
    case SendExit(_) => ExitSends(s, step);
    case _ => ExitOther(s, step);
  }

  // ---- Who holds which buffer ------------------------------------------------------

  /** The buffers of the render requests in `o`. */
  function Renders(o: seq<Message>): (r: seq<nat>) {
    if o == [] then []
    else (if o[0].id == RENDER_REQUEST then [o[0].buffer] else []) + Renders(o[1..])
  }

  lemma {:induction false} RendersAppend(o: seq<Message>, m: Message)
    ensures Renders(o + [m]) == Renders(o) + if m.id == RENDER_REQUEST then [m.buffer] else []
  {
    if o == [] {
    } else {
      RendersAppend(o[1..], m);
      assert (o + [m])[1..] == o[1..] + [m];
    }
  }

  /** The rendering queue as its users mean it: a buffer that `dequeueBuffer` has
      returned is gone, although the render thread may not have erased it yet. */
  function Logical(s: State): (r: seq<nat>) {
    LogicalQueue(Outstanding(s.q), s.w.rendering)
  }

  function LogicalQueue(o: seq<Message>, rendering: seq<nat>): (r: seq<nat>) {
    if Has(o, DEQUEUE_REQUEST) && rendering != [] then rendering[1..] else rendering
  }

  /** A waiting dequeue request has no dequeue, flush or exit request ahead of it. */
  ghost predicate DequeueLeads(o: seq<Message>) {
    forall i, j | 0 <= i < j < |o| && o[j].id == DEQUEUE_REQUEST :: o[i].id == RENDER_REQUEST
  }

  /** Which requests may be outstanding, and what the rendering queue then looks like. */
  ghost predicate OrderOk(o: seq<Message>, rendering: seq<nat>, call: Call, exit: Exit, running: bool, lent: nat) {
    && DequeueLeads(o)
    && (forall m | m in o :: EXIT <= m.id <= FLUSH)
    && (exit.NotAsked? ==> !Has(o, EXIT))
    && (!running ==> !Has(o, DEQUEUE_REQUEST))
    && (Has(o, DEQUEUE_REQUEST) ==> |rendering| > MIN_BUFFER_COUNT_UNDEQUEUE && rendering[0] == lent)
    && (call.FrontRead? ==>
          && |rendering| > MIN_BUFFER_COUNT_UNDEQUEUE && rendering[0] == call.h
          && !Has(o, DEQUEUE_REQUEST) && !Has(o, FLUSH) && exit.NotAsked?)
  }

  ghost predicate OrderInv(s: State) {
    OrderOk(Outstanding(s.q), s.w.rendering, s.call, s.exit, s.q.running, s.lent)
  }

  /** Every live handle is in one place: with the client, in a waiting render request or
      in the (logical) rendering queue. */
  ghost predicate Partition(live: set<nat>, client: set<nat>, renders: seq<nat>, queue: seq<nat>) {
    multiset(live) == multiset(client) + multiset(renders) + multiset(queue)
  }

  ghost predicate HoldOk(live: set<nat>, fault: bool, client: set<nat>, renders: seq<nat>, queue: seq<nat>, entered: seq<nat>, gone: seq<nat>) {
    && 0 !in live && !fault
    && Partition(live, client, renders, queue)
    && entered == gone + queue
  }

  ghost predicate HoldInv(s: State) {
    HoldOk(s.w.live, s.w.fault, s.client, Renders(Outstanding(s.q)), Logical(s), s.entered, s.gone)
  }

  ghost predicate Inv(s: State) {
    Q.WakeInv(s.q) && ExitInv(s) && OrderInv(s) && HoldInv(s)
  }

  lemma {:induction false} FreeEachOk(w: Store, hs: seq<nat>, skipNull: bool)
    requires multiset(hs) <= multiset(w.live) && 0 !in w.live
    ensures var r := FreeEach(w, hs, skipNull);
      && r.fault == w.fault && r.rendering == w.rendering && r.live <= w.live
      && multiset(r.live) == multiset(w.live) - multiset(hs)
    decreases |hs|
  {
    if hs == [] {
    } else {
      var h := hs[0];
      assert hs == [h] + hs[1..];
      assert multiset(hs)[h] >= 1;
      assert h in w.live;
      assert multiset(w.live - {h}) == multiset(w.live) - multiset{h};
      FreeEachOk(Free(w, h), hs[1..], skipNull);
    }
  }

  /** A live handle is held once. */
  lemma HeldOnce(live: set<nat>, client: set<nat>, renders: seq<nat>, queue: seq<nat>, h: nat)
    requires Partition(live, client, renders, queue)
    ensures (if h in live then 1 else 0) == (if h in client then 1 else 0) + multiset(renders)[h] + multiset(queue)[h]
  {
    assert multiset(live)[h] == multiset(client)[h] + multiset(renders)[h] + multiset(queue)[h];
  }

  lemma ClientGets(live: set<nat>, client: set<nat>, renders: seq<nat>, queue: seq<nat>)
    requires queue != [] && Partition(live, client, renders, queue)
    ensures Partition(live, client + {queue[0]}, renders, queue[1..])
  {
    var h := queue[0];
    HeldOnce(live, client, renders, queue, h);
    assert queue == [h] + queue[1..];
    assert multiset(queue)[h] >= 1;
    assert multiset(client + {h}) == multiset(client) + multiset{h};
  }

  lemma ClientGives(live: set<nat>, client: set<nat>, renders: seq<nat>, queue: seq<nat>, h: nat)
    requires h in client && Partition(live, client, renders, queue)
    ensures Partition(live, client - {h}, renders + [h], queue)
    ensures Partition(live, client - {h}, renders, queue + [h])
    ensures Partition(live - {h}, client - {h}, renders, queue) && h in live
  {
    HeldOnce(live, client, renders, queue, h);
    assert h in live;
    assert multiset(client) == multiset(client - {h}) + multiset{h};
    assert multiset(live) == multiset(live - {h}) + multiset{h};
    Cancel(multiset(live - {h}), multiset(client - {h}) + multiset(renders) + multiset(queue), multiset{h});
  }

  lemma Cancel(a: multiset<nat>, b: multiset<nat>, m: multiset<nat>)
    requires a + m == b + m
    ensures a == b
  {
    assert a == (a + m) - m;
    assert b == (b + m) - m;
  }

  lemma ClientNew(live: set<nat>, client: set<nat>, renders: seq<nat>, queue: seq<nat>, h: nat)
    requires h !in live && Partition(live, client, renders, queue)
    ensures Partition(live + {h}, client + {h}, renders, queue)
  {
    HeldOnce(live, client, renders, queue, h);
    assert multiset(client + {h}) == multiset(client) + multiset{h};
    assert multiset(live + {h}) == multiset(live) + multiset{h};
  }

  lemma RequestServed(live: set<nat>, client: set<nat>, renders: seq<nat>, queue: seq<nat>)
    requires renders != [] && Partition(live, client, renders, queue)
    ensures Partition(live, client, renders[1..], queue + [renders[0]])
  {
    assert renders == [renders[0]] + renders[1..];
  }

  lemma QueueFreed(w: Store, client: set<nat>, renders: seq<nat>, skipNull: bool)
    requires Partition(w.live, client, renders, w.rendering) && 0 !in w.live
    ensures var r := FreeEach(w.(rendering := []), w.rendering, skipNull);
      && r.fault == w.fault && r.rendering == [] && 0 !in r.live
      && Partition(r.live, client, renders, [])
  {
    FreeEachOk(w.(rendering := []), w.rendering, skipNull);
  }

  // ---- The window's own calls ------------------------------------------------------

  /** The message a window call pushes onto the queue. */
  function Pushed(s: State, step: Step): (m: Message)
    requires step.SendDequeue? || step.QueueBuffer? || step.Flush? || step.SendExit?
  {
    var k := |s.q.sent|;
    match step
    case SendDequeue => Message(DEQUEUE_REQUEST, 0, k)
    case QueueBuffer(h) => Message(RENDER_REQUEST, h, k)
    case Flush => Message(FLUSH, 0, k)
    case SendExit(_) => Message(EXIT, 0, k)
  }

  lemma HasAppend(o: seq<Message>, m: Message, id: int)
    ensures Has(o + [m], id) <==> Has(o, id) || m.id == id
  {
    assert m in o + [m];
    assert forall x | x in o :: x in o + [m];
  }

  lemma PushedLast(s: State, step: Step)
    requires Enabled(s, step)
    requires step.SendDequeue? || step.QueueBuffer? || step.Flush? || step.SendExit?
    ensures var o := Outstanding(s.q); var m := Pushed(s, step); var e := Apply(s, step);
      && Outstanding(e.q) == o + [m]
      && Renders(o + [m]) == Renders(o) + (if m.id == RENDER_REQUEST then [m.buffer] else [])
      && e.w == s.w && e.q.running == s.q.running
  {
    var o, m := Outstanding(s.q), Pushed(s, step);
    assert Outstanding(Apply(s, step).q) == o + [m];
    RendersAppend(o, m);
  }

  lemma OrderSend(s: State, step: Step)
    requires ExitInv(s) && OrderInv(s) && Enabled(s, step) && Disciplined(s, step)
    requires step.SendDequeue? || step.QueueBuffer? || step.Flush? || step.SendExit?
    ensures OrderInv(Apply(s, step))
  {
    var o, m := Outstanding(s.q), Pushed(s, step);
    PushedLast(s, step);
    HasAppend(o, m, DEQUEUE_REQUEST);
    HasAppend(o, m, FLUSH);
    HasAppend(o, m, EXIT);
    if step.SendDequeue? {
      assert forall x | x in o :: x.id == RENDER_REQUEST;
    }
  }

  lemma LogicalLent(s: State)
    requires OrderInv(s) && Enabled(s, SendDequeue)
    ensures Outstanding(Apply(s, SendDequeue).q) == Outstanding(s.q) + [Pushed(s, SendDequeue)]
    ensures s.w.rendering != [] && s.w.rendering[0] == s.call.h
    ensures Logical(s) == s.w.rendering && Logical(Apply(s, SendDequeue)) == s.w.rendering[1..]
  {
    PushedLast(s, SendDequeue);
    HasAppend(Outstanding(s.q), Pushed(s, SendDequeue), DEQUEUE_REQUEST);
  }

  lemma HoldSendDequeue(s: State)
    requires OrderInv(s) && HoldInv(s) && Enabled(s, SendDequeue)
    ensures HoldInv(Apply(s, SendDequeue))
  {
    var o, r, e := Outstanding(s.q), s.w.rendering, Apply(s, SendDequeue);
    PushedLast(s, SendDequeue);
    LogicalLent(s);
    ClientGets(s.w.live, s.client, Renders(o), r);
    Departs(s.gone, r);
  }

  lemma Departs(gone: seq<nat>, queue: seq<nat>)
    requires queue != []
    ensures gone + queue == gone + [queue[0]] + queue[1..]
  {
  }

  lemma HoldSend(s: State, step: Step)
    requires OrderInv(s) && HoldInv(s) && Enabled(s, step) && Disciplined(s, step)
    requires step.QueueBuffer? || step.Flush? || step.SendExit?
    ensures HoldInv(Apply(s, step))
  {
    var o, e := Outstanding(s.q), Apply(s, step);
    PushedLast(s, step);
    HasAppend(o, Pushed(s, step), DEQUEUE_REQUEST);
    assert Logical(e) == Logical(s);
    if step.QueueBuffer? {
      ClientGives(s.w.live, s.client, Renders(o), Logical(s), step.h);
    } else {
      assert Renders(Outstanding(e.q)) == Renders(o);
    }
  }

  lemma OrderClient(s: State, step: Step)
    requires OrderInv(s) && Enabled(s, step) && Disciplined(s, step)
    requires step.Allocate? || step.ClientFree? || step.Remain? || step.ReadFront?
    ensures OrderInv(Apply(s, step))
  {
    assert Outstanding(Apply(s, step).q) == Outstanding(s.q);
  }

  lemma HoldRemain(s: State, h: nat)
    requires OrderInv(s) && HoldInv(s) && h in s.client
    ensures HoldInv(Apply(s, Remain(h)))
  {
    var l, e := Logical(s), Apply(s, Remain(h));
    ClientGives(s.w.live, s.client, Renders(Outstanding(s.q)), l, h);
    assert Logical(e) == l + [h];
    assert s.entered + [h] == s.gone + (l + [h]);
  }

  lemma HoldClient(s: State, step: Step)
    requires HoldInv(s) && Enabled(s, step) && Disciplined(s, step)
    requires step.Allocate? || step.ClientFree? || step.ReadFront?
    ensures HoldInv(Apply(s, step))
  {
    var r, l := Renders(Outstanding(s.q)), Logical(s);
    match step
    case Allocate(h) => ClientNew(s.w.live, s.client, r, l, h);
    case ClientFree(h) => ClientGives(s.w.live, s.client, r, l, h);
    case ReadFront =>
  }

  // ---- The render thread -----------------------------------------------------------

  /** The handler of `m` runs while `m` leads the outstanding messages. */
  lemma HandlerPops(s: State)
    requires Enabled(s, RunHandler)
    ensures var o := Outstanding(s.q);
      && o != [] && o[0] == s.q.worker.m && o[0] in o && Outstanding(Apply(s, RunHandler).q) == o[1..]
  {
    var o := Outstanding(s.q);
    assert o == [o[0]] + o[1..];
  }

  lemma TailLeads(o: seq<Message>)
    requires o != [] && DequeueLeads(o)
    ensures DequeueLeads(o[1..])
    ensures forall m | m in o[1..] :: m in o
    ensures o[0].id != RENDER_REQUEST ==> !Has(o[1..], DEQUEUE_REQUEST)
    ensures forall id :: Has(o, id) <==> o[0].id == id || Has(o[1..], id)
  {
    assert o == [o[0]] + o[1..];
    forall i, j | 0 <= i < j < |o[1..]| && o[1..][j].id == DEQUEUE_REQUEST
      ensures o[1..][i].id == RENDER_REQUEST
    {
      assert o[i + 1].id == RENDER_REQUEST && o[j + 1].id == DEQUEUE_REQUEST;
    }
    forall j | 0 <= j < |o[1..]| && o[0].id != RENDER_REQUEST
      ensures o[1..][j].id != DEQUEUE_REQUEST
    {
      assert o[1..][j] == o[j + 1];
    }
  }

  lemma PopRender(o: seq<Message>, rendering: seq<nat>, call: Call, exit: Exit, running: bool, lent: nat)
    requires o != [] && o[0].id == RENDER_REQUEST && OrderOk(o, rendering, call, exit, running, lent)
    ensures OrderOk(o[1..], rendering + [o[0].buffer], call, exit, running, lent)
  {
    TailLeads(o);
  }

  lemma PopErase(o: seq<Message>, rendering: seq<nat>, call: Call, exit: Exit, running: bool, lent: nat)
    requires o != [] && o[0].id == DEQUEUE_REQUEST && OrderOk(o, rendering, call, exit, running, lent)
    ensures rendering != [] && OrderOk(o[1..], rendering[1..], call, exit, running, lent)
  {
    TailLeads(o);
  }

  lemma PopFlushOrExit(o: seq<Message>, rendering: seq<nat>, call: Call, exit: Exit, running: bool, lent: nat)
    requires o != [] && (o[0].id == FLUSH || o[0].id == EXIT) && OrderOk(o, rendering, call, exit, running, lent)
    ensures o[0].id == FLUSH ==> OrderOk(o[1..], [], call, exit, running, lent)
    ensures o[0].id == EXIT ==> OrderOk(o[1..], rendering, call, exit, false, lent)
  {
    TailLeads(o);
  }

  lemma OrderHandler(s: State)
    requires OrderInv(s) && Enabled(s, RunHandler)
    ensures OrderInv(Apply(s, RunHandler))
  {
    HandlerPops(s);
    var o, r := Outstanding(s.q), s.w.rendering;
    if o[0].id == RENDER_REQUEST {
      PopRender(o, r, s.call, s.exit, s.q.running, s.lent);
    } else if o[0].id == DEQUEUE_REQUEST {
      PopErase(o, r, s.call, s.exit, s.q.running, s.lent);
    } else {
      PopFlushOrExit(o, r, s.call, s.exit, s.q.running, s.lent);
      FreeEachKeeps(s.w.(rendering := []), r, true);
    }
  }

  lemma {:induction false} FreeEachKeeps(w: Store, hs: seq<nat>, skipNull: bool)
    ensures FreeEach(w, hs, skipNull).rendering == w.rendering
    decreases |hs|
  {
    if hs == [] {
    } else {
      FreeEachKeeps(if skipNull then FreeBuffer(w, hs[0]) else Free(w, hs[0]), hs[1..], skipNull);
    }
  }

  /** The i-th handle is freed although it is not live, or for the second time. */
  ghost predicate BadFree(live: set<nat>, hs: seq<nat>, i: int, skipNull: bool) {
    0 <= i < |hs| && (hs[i] != 0 || !skipNull) && (hs[i] !in live || hs[i] in hs[..i])
  }

  lemma BadFreeTail(live: set<nat>, hs: seq<nat>, skipNull: bool)
    requires hs != []
    ensures var gone := if hs[0] != 0 || !skipNull then {hs[0]} else {};
      forall i :: BadFree(live - gone, hs[1..], i, skipNull) <==> i >= 0 && BadFree(live, hs, i + 1, skipNull)
  {
    var rest := hs[1..];
    assert hs == [hs[0]] + rest;
    forall i | 0 <= i < |rest|
      ensures hs[..i + 1] == [hs[0]] + rest[..i]
    {
    }
  }

  /** Exactly the handles in `hs` go, NULL only if it is not skipped. */
  lemma {:induction false} FreeEachTakes(w: Store, hs: seq<nat>, skipNull: bool)
    ensures var r := FreeEach(w, hs, skipNull);
      r.rendering == w.rendering
      && forall h :: h in r.live <==> h in w.live && !(h in hs && (h != 0 || !skipNull))
    decreases |hs|
  {
    if hs == [] {
    } else {
      FreeEachTakes(if skipNull then FreeBuffer(w, hs[0]) else Free(w, hs[0]), hs[1..], skipNull);
      assert hs == [hs[0]] + hs[1..];
    }
  }

  /** Freeing goes wrong exactly when a handle that is freed is not live or comes a second time. */
  lemma {:induction false} FreeEachFaultIff(w: Store, hs: seq<nat>, skipNull: bool)
    ensures FreeEach(w, hs, skipNull).fault <==> w.fault || exists i :: BadFree(w.live, hs, i, skipNull)
    decreases |hs|
  {
    if hs == [] {
    } else {
      var next := if skipNull then FreeBuffer(w, hs[0]) else Free(w, hs[0]);
      FreeEachFaultIff(next, hs[1..], skipNull);
      BadFreeTail(w.live, hs, skipNull);
      assert next.live == w.live - if hs[0] != 0 || !skipNull then {hs[0]} else {};
      assert next.fault <==> w.fault || BadFree(w.live, hs, 0, skipNull);
      if i :| BadFree(w.live, hs, i, skipNull) {
        assert i > 0 ==> BadFree(next.live, hs[1..], i - 1, skipNull);
      }
      if i :| BadFree(next.live, hs[1..], i, skipNull) {
        assert BadFree(w.live, hs, i + 1, skipNull);
      }
    }
  }

  lemma HoldRender(s: State)
    requires OrderInv(s) && HoldInv(s) && Enabled(s, RunHandler) && s.q.worker.m.id == RENDER_REQUEST
    ensures HoldInv(Apply(s, RunHandler))
  {
    HandlerPops(s);
    var o, l, h, e := Outstanding(s.q), Logical(s), s.q.worker.m.buffer, Apply(s, RunHandler);
    RequestServed(s.w.live, s.client, Renders(o), l);
    assert Renders(o)[1..] == Renders(o[1..]) && Renders(o)[0] == h;
    assert e.gone == s.gone;
    LogicalGrows(s);
    Arrives(s.gone, l, h);
  }

  lemma LogicalGrows(s: State)
    requires OrderInv(s) && Enabled(s, RunHandler) && s.q.worker.m.id == RENDER_REQUEST
    ensures Logical(Apply(s, RunHandler)) == Logical(s) + [s.q.worker.m.buffer]
  {
    HandlerPops(s);
  }

  lemma Arrives(gone: seq<nat>, queue: seq<nat>, h: nat)
    ensures gone + queue + [h] == gone + (queue + [h])
  {
  }

  lemma HoldFlush(s: State)
    requires OrderInv(s) && HoldInv(s) && Enabled(s, RunHandler) && s.q.worker.m.id == FLUSH
    ensures HoldInv(Apply(s, RunHandler))
  {
    HandlerPops(s);
    assert Logical(s) == s.w.rendering;
    QueueFreed(s.w, s.client, Renders(Outstanding(s.q)), true);
    assert Logical(Apply(s, RunHandler)) == [];
  }

  lemma HoldHandler(s: State)
    requires OrderInv(s) && HoldInv(s) && Enabled(s, RunHandler)
    ensures HoldInv(Apply(s, RunHandler))
  {
    HandlerPops(s);
    var id := s.q.worker.m.id;
    if id == RENDER_REQUEST {
      HoldRender(s);
    } else if id == FLUSH {
      HoldFlush(s);
    } else {
      HoldEraseOrExit(s);
    }
  }

  /** Erasing the front is what the users of the queue had counted on. */
  lemma ErasedAsExpected(o: seq<Message>, rendering: seq<nat>, call: Call, exit: Exit, running: bool, lent: nat)
    requires o != [] && OrderOk(o, rendering, call, exit, running, lent)
    ensures o[0].id == DEQUEUE_REQUEST ==>
      rendering != [] && LogicalQueue(o[1..], rendering[1..]) == LogicalQueue(o, rendering)
    ensures o[0].id == EXIT ==> LogicalQueue(o[1..], rendering) == LogicalQueue(o, rendering)
    ensures o[0].id != RENDER_REQUEST ==> Renders(o[1..]) == Renders(o)
  {
    TailLeads(o);
  }

  lemma HoldEraseOrExit(s: State)
    requires OrderInv(s) && HoldInv(s) && Enabled(s, RunHandler)
    requires s.q.worker.m.id == DEQUEUE_REQUEST || s.q.worker.m.id == EXIT
    ensures HoldInv(Apply(s, RunHandler))
  {
    HandlerPops(s);
    ErasedAsExpected(Outstanding(s.q), s.w.rendering, s.call, s.exit, s.q.running, s.lent);
    var e := Apply(s, RunHandler);
    assert Renders(Outstanding(e.q)) == Renders(Outstanding(s.q)) && Logical(e) == Logical(s);
    assert e.w.live == s.w.live && e.w.fault == s.w.fault;
    assert e.client == s.client && e.entered == s.entered && e.gone == s.gone;
  }

  lemma QueueStepKeepsOutstanding(s: State, step: Q.Step)
    requires Enabled(s, QueueStep(step))
    ensures Outstanding(Q.Apply(s.q, step)) == Outstanding(s.q)
    ensures Q.Apply(s.q, step).running == s.q.running
  {
    if step.Receive? {
      assert s.q.pending == [s.q.pending[0]] + s.q.pending[1..];
    }
  }

  lemma OwnQueueStep(s: State, step: Q.Step)
    requires OrderInv(s) && HoldInv(s) && Enabled(s, QueueStep(step))
    ensures OrderInv(Apply(s, QueueStep(step))) && HoldInv(Apply(s, QueueStep(step)))
  {
    QueueStepKeepsOutstanding(s, step);
    assert Apply(s, QueueStep(step)) == s.(q := Q.Apply(s.q, step));
  }

  lemma OwnLeftovers(s: State)
    requires ExitInv(s) && OrderInv(s) && HoldInv(s) && Enabled(s, FreeLeftovers)
    ensures OrderInv(Apply(s, FreeLeftovers)) && HoldInv(Apply(s, FreeLeftovers))
  {
    var r, e := s.w.rendering, Apply(s, FreeLeftovers);
    assert !s.q.running && Logical(s) == r;
    QueueFreed(s.w, s.client, Renders(Outstanding(s.q)), false);
    assert Logical(e) == [];
    assert s.entered == (s.gone + r) + [];
  }

  lemma InvStep(s: State, step: Step)
    requires Inv(s) && Enabled(s, step) && Disciplined(s, step)
    ensures Inv(Apply(s, step))
  {
    QueueFollows(s, step);
    ExitStep(s, step);
    match step
    case QueueStep(qs) => OwnQueueStep(s, qs);
    case RunHandler => OrderHandler(s); HoldHandler(s);
    case FreeLeftovers => OwnLeftovers(s);
    case SendDequeue => OrderSend(s, step); HoldSendDequeue(s);
    case QueueBuffer(_) => OrderSend(s, step); HoldSend(s, step);
    case Flush => OrderSend(s, step); HoldSend(s, step);
    case SendExit(_) => OrderSend(s, step); HoldSend(s, step);
    case Remain(h) => OrderClient(s, step); HoldRemain(s, h);
    case _ => OrderClient(s, step); HoldClient(s, step);
  }

  lemma {:induction false} InvAlways(s: State, steps: seq<Step>)
    requires Inv(s) && Run(s, steps)
    ensures Inv(After(s, steps))
    decreases |steps|
  {
    if steps == [] {
    } else {
      InvStep(s, steps[0]);
      InvAlways(Apply(s, steps[0]), steps[1..]);
    }
  }

  // ---- Results ---------------------------------------------------------------------

  lemma Reached(s: State, steps: seq<Step>)
    requires Init(s) && Run(s, steps)
    ensures Inv(After(s, steps))
  {
    assert Logical(s) == [];
    assert OrderInv(s) && HoldInv(s);
    InvAlways(s, steps);
  }

  /** A live buffer is held by the client, waits in a render request or waits in the
      rendering queue: in one of the three, and once. Nothing is ever freed twice and the
      render thread never erases from an empty queue. */
  lemma EachBufferInOnePlace(s: State, steps: seq<Step>)
    requires Init(s) && Run(s, steps)
    ensures var e := After(s, steps);
      && !e.w.fault
      && forall h: nat :: (if h in e.w.live then 1 else 0)
          == (if h in e.client then 1 else 0) + multiset(Renders(Outstanding(e.q)))[h] + multiset(Logical(e))[h]
  {
    Reached(s, steps);
    var e := After(s, steps);
    forall h: nat
      ensures (if h in e.w.live then 1 else 0)
          == (if h in e.client then 1 else 0) + multiset(Renders(Outstanding(e.q)))[h] + multiset(Logical(e))[h]
    {
      HeldOnce(e.w.live, e.client, Renders(Outstanding(e.q)), Logical(e), h);
    }
  }

  /** When the render thread is about to serve a dequeue request, the buffer it erases
      is the one `dequeueBuffer` returned, and two buffers stay behind. */
  lemma EraseHitsReturnedBuffer(s: State, steps: seq<Step>)
    requires Init(s) && Run(s, steps)
    ensures var e := After(s, steps);
      e.q.worker.Handling? && e.q.worker.m.id == DEQUEUE_REQUEST ==>
        && |e.w.rendering| > 0 && e.w.rendering[0] == e.lent
        && Apply(e, RunHandler).w.rendering == e.w.rendering[1..]
        && |e.w.rendering[1..]| >= 2
  {
    Reached(s, steps);
    var e := After(s, steps);
    if e.q.worker.Handling? {
      assert e.q.worker.m in Outstanding(e.q);
    }
  }

  /** Buffers leave the rendering queue in the order they entered it, and the handle
      `dequeueBuffer` reads is the oldest that has not left. It reads one exactly when more
      than two are queued. */
  lemma BackInOrder(s: State, steps: seq<Step>)
    requires Init(s) && Run(s, steps)
    ensures var e := After(s, steps);
      && e.entered == e.gone + Logical(e)
      && (e.call.FrontRead? ==> |e.gone| < |e.entered| && e.call.h == e.entered[|e.gone|])
      && (e.call.NoCall? ==> (Apply(e, ReadFront).call.FrontRead? <==> |e.w.rendering| > 2))
  {
    Reached(s, steps);
  }

  lemma StoppedQueue(q: Q.State, step: Q.Step)
    requires Q.Enabled(q, step) && q.worker.Stopped?
    ensures Q.Apply(q, step).worker.Stopped? && Q.Apply(q, step).received == q.received
  {
  }

  lemma StoppedStep(s: State, step: Step)
    requires Enabled(s, step) && s.q.worker.Stopped?
    ensures var e := Apply(s, step); e.q.worker.Stopped? && e.q.received == s.q.received
  {
    var mv := QueueMove(s, step);
    if mv == [] {
      assert Apply(s, step).q == s.q;
    } else {
      assert Apply(s, step).q == Q.Apply(s.q, mv[0]);
      StoppedQueue(s.q, mv[0]);
    }
  }

  lemma {:induction false} StoppedForGood(s: State, steps: seq<Step>)
    requires Run(s, steps) && s.q.worker.Stopped?
    ensures After(s, steps).q.worker.Stopped? && After(s, steps).q.received == s.q.received
    decreases |steps|
  {
    if steps == [] {
    } else {
      StoppedStep(s, steps[0]);
      StoppedForGood(Apply(s, steps[0]), steps[1..]);
    }
  }

  /** Once the synchronous EXIT send has returned, the render thread has received every
      message up to EXIT, in order, has stopped, and never receives another. */
  lemma OrderlyShutdown(s: State, steps: seq<Step>, more: seq<Step>)
    requires Init(s) && Run(s, steps) && Run(After(s, steps), more)
    requires var e := After(s, steps); e.exit.Asked? && e.exit.ticket in e.q.returned
    ensures var e, later := After(s, steps), After(After(s, steps), more); var k := e.exit.ticket;
      && k < |e.q.sent| && e.q.sent[k].id == EXIT && e.q.received == e.q.sent[..k + 1]
      && e.q.worker.Stopped? && later.q.worker.Stopped? && later.q.received == e.q.received
  {
    Reached(s, steps);
    ReceivedIsPrefix(After(s, steps).q);
    StoppedForGood(After(s, steps), more);
  }

  /** `release` then gives back exactly the leftover buffers, each once and none of them
      with the client or in a request that was never served. */
  lemma LeftoversFreedOnce(s: State, steps: seq<Step>)
    requires Init(s) && Run(s, steps) && Enabled(After(s, steps), FreeLeftovers)
    ensures var e := After(s, steps); var f := Apply(e, FreeLeftovers);
      && !f.w.fault && f.w.rendering == []
      && multiset(f.w.live) == multiset(e.w.live) - multiset(e.w.rendering)
      && multiset(f.w.live) == multiset(f.client) + multiset(Renders(Outstanding(f.q)))
      && f.client == e.client && Outstanding(f.q) == Outstanding(e.q)
  {
    Reached(s, steps);
    var e := After(s, steps);
    assert Logical(e) == e.w.rendering;
    FreeEachOk(e.w.(rendering := []), e.w.rendering, false);
  }

  /** The thread in `release` that waits for EXIT can count on its message, and so can anybody
      else: nobody is left waiting for nothing. */
  lemma ReleaseNotStranded(s: State, steps: seq<Step>)
    requires Init(s) && Run(s, steps)
    ensures var q := After(s, steps).q;
      !Stranding.Stranded(q) && forall t | t in q.callers :: !Stranding.Lost(q, q.callers[t])
  {
    Reached(s, steps);
    var q := After(s, steps).q;
    forall t | t in q.callers
      ensures !Stranding.Lost(q, q.callers[t])
    {
      WaiterNotLost(After(s, steps), t);
    }
    Stranding.NobodyLostNobodyStranded(q);
  }

  lemma WaiterNotLost(s: State, t: nat)
    requires Q.WakeInv(s.q) && ExitInv(s) && t in s.q.callers
    ensures !Stranding.Lost(s.q, s.q.callers[t])
  {
    var q, c := s.q, s.q.callers[t];
    assert Q.CallerOk(q, c);
    if q.worker.Stopped? {
      ReceivedIsPrefix(q);
      assert q.received[c.ticket] == q.sent[c.ticket];
      NotPending(q, c.ticket);
    }
  }

  /** What has been received is not queued. */
  lemma NotPending(q: Q.State, k: nat)
    requires Q.FifoInv(q) && k < |q.received| && k < |q.sent| && q.received[k] == q.sent[k]
    ensures q.sent[k] !in q.pending
  {
    Q.InOrder(q);
    Q.Apart(q.received, q.pending);
  }

  lemma {:induction false} NoRendersIff(o: seq<Message>)
    ensures Renders(o) == [] <==> !Has(o, RENDER_REQUEST)
  {
    if o == [] {
    } else {
      NoRendersIff(o[1..]);
      assert o == [o[0]] + o[1..];
      assert Has(o, RENDER_REQUEST) <==> o[0].id == RENDER_REQUEST || Has(o[1..], RENDER_REQUEST);
    }
  }

  /** After `release` nothing but the client's own buffers stays live exactly when no render
      request was sent too late to be served. */
  lemma OnlyClientsStayIff(s: State, steps: seq<Step>)
    requires Init(s) && Run(s, steps) && Enabled(After(s, steps), FreeLeftovers)
    ensures var f := Apply(After(s, steps), FreeLeftovers);
      f.w.live == f.client <==> !Has(Outstanding(f.q), RENDER_REQUEST)
  {
    LeftoversFreedOnce(s, steps);
    var f := Apply(After(s, steps), FreeLeftovers);
    var renders := Renders(Outstanding(f.q));
    NoRendersIff(Outstanding(f.q));
    forall h: nat
      ensures (if h in f.w.live then 1 else 0) == (if h in f.client then 1 else 0) + multiset(renders)[h]
    {
      assert multiset(f.w.live)[h] == multiset(f.client)[h] + multiset(renders)[h];
    }
    if renders != [] {
      assert multiset(renders)[renders[0]] >= 1;
    }
  }
}
