/** Tensors cross the process boundary in one shared memory pool: the client places them
    one after the other, the server turns the offsets back into pointers. */
module RknnPool {
  import opened Bytes

  /** Where a tensor lies in the pool. */
  datatype Location = Location(poolIndex: nat, offset: nat, length: nat)

  const INT_MAX := 0x7fff_ffff
  const SIZEOF_FLOAT := 4

  function Offset(sizes: seq<nat>, i: nat): (r: nat)
    requires i <= |sizes|
  {
    if i == 0 then 0 else Offset(sizes, i - 1) + sizes[i - 1]
  }

  function Total(sizes: seq<nat>): (r: nat) {
    Offset(sizes, |sizes|)
  }

  function Sizes(datas: seq<seq<Byte>>): (r: seq<nat>) {
    seq(|datas|, i requires 0 <= i < |datas| => |datas[i]|)
  }

  function Locations(sizes: seq<nat>): (r: seq<Location>) {
    seq(|sizes|, i requires 0 <= i < |sizes| => Location(i, Offset(sizes, i), sizes[i]))
  }

  /** What the server sees through a location. */
  function Through(pool: seq<Byte>, loc: Location): (r: seq<Byte>)
    requires loc.offset + loc.length <= |pool|
  {
    pool[loc.offset..loc.offset + loc.length]
  }

  /** The pool after the first `n` tensors have been copied to their offsets. */
  function Placed(pool: seq<Byte>, datas: seq<seq<Byte>>, n: nat): (r: seq<Byte>)
    requires n <= |datas| && Offset(Sizes(datas), n) <= |pool|
    ensures |r| == |pool|
  {
    if n == 0 then pool else Blit(Placed(pool, datas, n - 1), Offset(Sizes(datas), n - 1), datas[n - 1])
  }

  /** The pool after the first `n` tensors have been copied, each to the pool's base. */
  function Stacked(pool: seq<Byte>, datas: seq<seq<Byte>>, n: nat): (r: seq<Byte>)
    requires n <= |datas| && Offset(Sizes(datas), n) <= |pool|
    ensures |r| == |pool|
  {
    if n == 0 then pool else Blit(Stacked(pool, datas, n - 1), 0, datas[n - 1])
  }

  lemma {:induction false} Grows(sizes: seq<nat>, i: nat, j: nat)
    requires i <= j <= |sizes|
    ensures Offset(sizes, i) <= Offset(sizes, j)
    ensures i > 0 ==> Offset(sizes, i) == Offset(sizes, i - 1) + sizes[i - 1]
    decreases j
  {
    if i == j {
    } else {
      Grows(sizes, i, j - 1);
    }
  }

  predicate Holds(loc: Location, k: nat) {
    loc.offset <= k < loc.offset + loc.length
  }

  /** The regions of the tensors follow one another from the pool's first byte to its
      last: every byte of the pool lies in one region, and in only one. */
  lemma RegionsTile(sizes: seq<nat>, k: nat) returns (i: nat)
    requires k < Total(sizes)
    ensures i < |sizes| && Holds(Locations(sizes)[i], k)
    ensures forall j | 0 <= j < |sizes| && j != i :: !Holds(Locations(sizes)[j], k)
  {
    i := RegionOf(sizes, |sizes|, k);
    forall j | 0 <= j < |sizes| && j != i
      ensures !Holds(Locations(sizes)[j], k)
    {
      if j < i {
        Grows(sizes, j + 1, i);
        Grows(sizes, j + 1, j + 1);
      } else {
        Grows(sizes, i + 1, j);
        Grows(sizes, i + 1, i + 1);
      }
    }
  }

  lemma {:induction false} RegionOf(sizes: seq<nat>, n: nat, k: nat) returns (i: nat)
    requires n <= |sizes| && k < Offset(sizes, n)
    ensures i < n && Offset(sizes, i) <= k < Offset(sizes, i) + sizes[i]
  {
    if Offset(sizes, n - 1) <= k {
      i := n - 1;
    } else {
      i := RegionOf(sizes, n - 1, k);
    }
  }

  /** One more tensor is copied behind the earlier ones. */
  lemma PlacedStep(pool: seq<Byte>, datas: seq<seq<Byte>>, n: nat, lo: nat, hi: nat)
    requires n < |datas| && Offset(Sizes(datas), n + 1) <= |pool| && lo <= hi <= Offset(Sizes(datas), n)
    ensures Placed(pool, datas, n + 1)[lo..hi] == Placed(pool, datas, n)[lo..hi]
  {
    BlitElsewhere(Placed(pool, datas, n), Offset(Sizes(datas), n), datas[n], lo, hi);
  }

  lemma EndsBefore(datas: seq<seq<Byte>>, i: nat, n: nat)
    requires i < n < |datas|
    ensures Offset(Sizes(datas), i) + |datas[i]| <= Offset(Sizes(datas), n) <= Offset(Sizes(datas), n + 1)
  {
    var sizes := Sizes(datas);
    Grows(sizes, i + 1, i + 1);
    Grows(sizes, i + 1, n);
    Grows(sizes, n, n + 1);
  }

  lemma PlacedLast(pool: seq<Byte>, datas: seq<seq<Byte>>, n: nat)
    requires n < |datas| && Offset(Sizes(datas), n + 1) <= |pool|
    ensures var at := Offset(Sizes(datas), n);
      at + |datas[n]| <= |pool| && Placed(pool, datas, n + 1)[at..at + |datas[n]|] == datas[n]
  {
    BlitAt(Placed(pool, datas, n), Offset(Sizes(datas), n), datas[n]);
  }

  /** Each placed tensor is what the server sees, for any number of tensors: later copies
      do not touch earlier regions. */
  lemma {:induction false} PlacedThrough(pool: seq<Byte>, datas: seq<seq<Byte>>, n: nat, i: nat)
    requires i < n <= |datas| && Offset(Sizes(datas), n) <= |pool|
    ensures var at := Offset(Sizes(datas), i);
      at + |datas[i]| <= |pool| && Placed(pool, datas, n)[at..at + |datas[i]|] == datas[i]
    decreases n
  {
    if i == n - 1 {
      PlacedLast(pool, datas, i);
    } else {
      EndsBefore(datas, i, n - 1);
      PlacedThrough(pool, datas, n - 1, i);
      var at := Offset(Sizes(datas), i);
      PlacedStep(pool, datas, n - 1, at, at + |datas[i]|);
    }
  }

  // ---- Inputs ----------------------------------------------------------------------

  /** A tensor as the client, and later the server, has it, and as it is sent. */
  datatype Input = Input(index: int, buf: seq<Byte>)
  datatype SentInput = SentInput(index: int, buf: Location)

  function Bufs(inputs: seq<Input>): (r: seq<seq<Byte>>) {
    seq(|inputs|, i requires 0 <= i < |inputs| => inputs[i].buf)
  }

  function Sent(inputs: seq<Input>): (r: seq<SentInput>) {
    var locations := Locations(Sizes(Bufs(inputs)));
    seq(|inputs|, i requires 0 <= i < |inputs| => SentInput(inputs[i].index, locations[i]))
  }

  /** What is sent gives each tensor its own place, as long as the tensor, where the one before
      it ends. */
  lemma SentInTurn(inputs: seq<Input>, i: nat)
    requires i < |inputs|
    ensures var r := Sent(inputs);
      && |r| == |inputs| && r[i].index == inputs[i].index
      && r[i].buf.poolIndex == i && r[i].buf.length == |inputs[i].buf|
      && r[i].buf.offset == (if i == 0 then 0 else r[i - 1].buf.offset + r[i - 1].buf.length)
      && r[i].buf.offset + r[i].buf.length <= Total(Sizes(Bufs(inputs)))
      && (i == |inputs| - 1 ==> r[i].buf.offset + r[i].buf.length == Total(Sizes(Bufs(inputs))))
  {
    var sizes := Sizes(Bufs(inputs));
    Grows(sizes, i + 1, |sizes|);
    assert Offset(sizes, i + 1) == Offset(sizes, i) + sizes[i];
  }

  /** The inner loop that computes `cur_offset`. Pool sizes fit in `int`, so the 32-bit
      sums do not wrap. */
  method CurOffset(sizes: seq<nat>, i: nat) returns (curOffset: nat)
    requires i <= |sizes|
    ensures curOffset == Offset(sizes, i)
  {
    curOffset := 0;
    for j := 0 to i
      invariant curOffset == Offset(sizes, j)
    {
      curOffset := curOffset + sizes[j];
    }
  }

  /** `memory` is the pool the allocator gave, null when it failed, which this call does
      not report. Each tensor is copied to the base of the pool. */
  method InputsSet(inputs: seq<Input>, memory: array?<Byte>) returns (ret: int, request: seq<SentInput>)
    requires Total(Sizes(Bufs(inputs))) <= INT_MAX
    requires memory != null ==> memory.Length == Total(Sizes(Bufs(inputs)))
    modifies memory
    ensures ret == if Total(Sizes(Bufs(inputs))) == 0 then -1 else 0
    ensures ret != 0 || memory == null ==> request == [] && (memory != null ==> memory[..] == old(memory[..]))
    ensures ret == 0 && memory != null ==>
      && request == Sent(inputs)
      && memory[..] == Stacked(old(memory[..]), Bufs(inputs), |inputs|)
  {
    var datas := Bufs(inputs);
    var sizes := Sizes(datas);
    request := [];
    var poolSize := 0;
    for i := 0 to |inputs|
      invariant poolSize == Offset(sizes, i)
    {
      poolSize := poolSize + |inputs[i].buf|;
    }
    if poolSize == 0 {
      return -1, [];
    }
    ret := 0;
    if memory != null {
      for i := 0 to |inputs|
        invariant request == Sent(inputs)[..i]
        invariant Offset(sizes, i) <= memory.Length
        invariant memory[..] == Stacked(old(memory[..]), datas, i)
      {
        var curOffset := CurOffset(sizes, i);
        Grows(sizes, i + 1, |sizes|);
        Memcpy(memory, 0, inputs[i].buf);
        request := request + [SentInput(inputs[i].index, Location(i, curOffset, |inputs[i].buf|))];
      }
    }
  }

  /** The server turns each location of a request back into a run of bytes. */
  method ServerInputs(request: seq<SentInput>, pool: seq<Byte>) returns (inputs: seq<Input>)
    requires forall r | r in request :: r.buf.offset + r.buf.length <= |pool|
    ensures |inputs| == |request|
    ensures forall i | 0 <= i < |request| ::
      inputs[i].index == request[i].index && inputs[i].buf == Through(pool, request[i].buf)
  {
    inputs := [];
    for i := 0 to |request|
      invariant |inputs| == i
      invariant forall j | 0 <= j < i ::
        inputs[j].index == request[j].index && inputs[j].buf == Through(pool, request[j].buf)
    {
      var buf := request[i].buf;
      inputs := inputs + [Input(request[i].index, pool[buf.offset..buf.offset + buf.length])];
    }
  }

  /** The server sees input `i` as the client set it. */
  ghost predicate Arrives(pool: seq<Byte>, datas: seq<seq<Byte>>, i: nat)
    requires i < |datas|
  {
    var loc := Locations(Sizes(datas))[i];
    loc.offset + loc.length <= |pool| && Through(pool, loc) == datas[i]
  }

  /** With the copies at the offsets that are sent, every input arrives. */
  lemma PlacedInputsArrive(pool: seq<Byte>, datas: seq<seq<Byte>>, i: nat)
    requires Total(Sizes(datas)) <= |pool| && i < |datas|
    ensures Arrives(Placed(pool, datas, |datas|), datas, i)
  {
    PlacedThrough(pool, datas, |datas|, i);
    ArrivesBySlice(Placed(pool, datas, |datas|), datas, i);
  }

  /** As coded, for tensors of the given sizes: does every input arrive, whatever the
      pool and the tensors contain? */
  ghost predicate StackedInputsArrive(sizes: seq<nat>) {
    forall pool: seq<Byte>, datas: seq<seq<Byte>>, i |
      Sizes(datas) == sizes && Total(sizes) <= |pool| && 0 <= i < |datas| ::
      Arrives(Stacked(pool, datas, |datas|), datas, i)
  }

  predicate AtMostOneNonEmpty(sizes: seq<nat>) {
    forall i, j | 0 <= i < j < |sizes| :: sizes[i] == 0 || sizes[j] == 0
  }

  lemma {:induction false} EmptyPrefix(sizes: seq<nat>, n: nat)
    requires n <= |sizes| && forall j | 0 <= j < n :: sizes[j] == 0
    ensures Offset(sizes, n) == 0
  {
    if n == 0 {
    } else {
      EmptyPrefix(sizes, n - 1);
    }
  }

  /** The first `n` copies when nothing but tensor `i` has any bytes. */
  lemma {:induction false} StackedOne(pool: seq<Byte>, datas: seq<seq<Byte>>, n: nat, i: nat)
    requires i < n <= |datas| && Offset(Sizes(datas), n) <= |pool|
    requires forall j | 0 <= j < |datas| && j != i :: |datas[j]| == 0
    ensures |datas[i]| <= |pool| && Stacked(pool, datas, n)[..|datas[i]|] == datas[i]
  {
    Grows(Sizes(datas), i + 1, n);
    if i == n - 1 {
      BlitAt(Stacked(pool, datas, i), 0, datas[i]);
    } else {
      StackedOne(pool, datas, n - 1, i);
      BlitElsewhere(Stacked(pool, datas, n - 1), 0, datas[n - 1], 0, |datas[i]|);
    }
  }

  lemma OthersEmpty(datas: seq<seq<Byte>>, i: nat)
    requires i < |datas| && AtMostOneNonEmpty(Sizes(datas)) && datas[i] != []
    ensures forall j | 0 <= j < |datas| && j != i :: |datas[j]| == 0
    ensures Offset(Sizes(datas), i) == 0
  {
    var sizes := Sizes(datas);
    forall j | 0 <= j < |datas| && j != i
      ensures |datas[j]| == 0 && sizes[j] == 0
    {
      assert sizes[i] > 0 && |datas[j]| == sizes[j];
    }
    EmptyPrefix(sizes, i);
  }

  lemma ArrivesBySlice(pool: seq<Byte>, datas: seq<seq<Byte>>, i: nat)
    requires i < |datas|
    requires var at := Offset(Sizes(datas), i); at + |datas[i]| <= |pool| && pool[at..at + |datas[i]|] == datas[i]
    ensures Arrives(pool, datas, i)
  {
  }

  lemma OnlyOneArrives(pool: seq<Byte>, datas: seq<seq<Byte>>, i: nat)
    requires i < |datas| && Offset(Sizes(datas), |datas|) <= |pool| && Offset(Sizes(datas), i) == 0
    requires forall j | 0 <= j < |datas| && j != i :: |datas[j]| == 0
    ensures Arrives(Stacked(pool, datas, |datas|), datas, i)
  {
    StackedOne(pool, datas, |datas|, i);
    ArrivesBySlice(Stacked(pool, datas, |datas|), datas, i);
  }

  lemma EmptyArrives(pool: seq<Byte>, datas: seq<seq<Byte>>, i: nat)
    requires i < |datas| && Offset(Sizes(datas), |datas|) <= |pool| && datas[i] == []
    ensures Arrives(pool, datas, i)
  {
    Grows(Sizes(datas), i, |datas|);
    ArrivesBySlice(pool, datas, i);
  }

  lemma OneNonEmptyArrives(pool: seq<Byte>, datas: seq<seq<Byte>>, i: nat)
    requires AtMostOneNonEmpty(Sizes(datas)) && Total(Sizes(datas)) <= |pool| && i < |datas|
    ensures Arrives(Stacked(pool, datas, |datas|), datas, i)
  {
    if datas[i] != [] {
      OthersEmpty(datas, i);
      OnlyOneArrives(pool, datas, i);
    } else {
      EmptyArrives(Stacked(pool, datas, |datas|), datas, i);
    }
  }

  lemma SentInside(inputs: seq<Input>)
    ensures forall r | r in Sent(inputs) :: r.buf.offset + r.buf.length <= Total(Sizes(Bufs(inputs)))
  {
    forall i | 0 <= i < |inputs|
      ensures Sent(inputs)[i].buf.offset + Sent(inputs)[i].buf.length <= Total(Sizes(Bufs(inputs)))
    {
      SentInTurn(inputs, i);
    }
  }

  /** From the client to the server: the server has the client's inputs, unless the allocator
      failed, when at most one of them has any bytes. */
  method InputsRoundTrip(inputs: seq<Input>, memory: array<Byte>) returns (ret: int, served: seq<Input>)
    requires forall i, j | 0 <= i < j < |inputs| :: inputs[i].buf == [] || inputs[j].buf == []
    requires Total(Sizes(Bufs(inputs))) <= INT_MAX && memory.Length == Total(Sizes(Bufs(inputs)))
    modifies memory
    ensures ret == 0 <==> exists i | 0 <= i < |inputs| :: inputs[i].buf != []
    ensures ret == 0 ==> served == inputs
    ensures ret != 0 ==> served == []
  {
    ghost var pool, datas := memory[..], Bufs(inputs);
    TotalIsZeroIff(inputs);
    var request;
    ret, request := InputsSet(inputs, memory);
    served := [];
    if ret == 0 {
      SentInside(inputs);
      served := ServerInputs(request, memory[..]);
      forall i | 0 <= i < |inputs|
        ensures served[i] == inputs[i]
      {
        OneNonEmptyArrives(pool, datas, i);
      }
    }
  }

  lemma TotalIsZeroIff(inputs: seq<Input>)
    ensures Total(Sizes(Bufs(inputs))) == 0 <==> forall i | 0 <= i < |inputs| :: inputs[i].buf == []
  {
    var sizes := Sizes(Bufs(inputs));
    forall i | 0 <= i < |inputs|
      ensures |inputs[i].buf| <= Total(sizes)
    {
      SentInTurn(inputs, i);
    }
    if forall i | 0 <= i < |inputs| :: inputs[i].buf == [] {
      EmptyPrefix(sizes, |sizes|);
    }
  }

  /** Tensors of the given sizes: tensor `i` filled with zeros, all others with ones. */
  function Filled(sizes: seq<nat>, i: nat): (r: seq<seq<Byte>>) {
    seq(|sizes|, j requires 0 <= j < |sizes| => seq(sizes[j], k => if j == i then 0 else 1))
  }

  /** Once a non-empty tensor of ones has been copied, and no zero follows, a one is in
      front. */
  lemma {:induction false} FrontOverwritten(pool: seq<Byte>, datas: seq<seq<Byte>>, n: nat, j: nat)
    requires j < n <= |datas| && Offset(Sizes(datas), n) <= |pool|
    requires |datas[j]| > 0 && forall k | j <= k < |datas| && datas[k] != [] :: datas[k][0] == 1
    ensures |pool| > 0 && Stacked(pool, datas, n)[0] == 1
  {
    Grows(Sizes(datas), j + 1, n);
    if datas[n - 1] != [] {
      BlitAt(Stacked(pool, datas, n - 1), 0, datas[n - 1]);
      assert Stacked(pool, datas, n)[0] == Stacked(pool, datas, n)[0..|datas[n - 1]|][0];
    } else {
      FrontOverwritten(pool, datas, n - 1, j);
    }
  }

  /** As coded the inputs arrive whatever they contain exactly when at most one of them
      has any bytes. */
  lemma StackedArriveIff(sizes: seq<nat>)
    ensures StackedInputsArrive(sizes) <==> AtMostOneNonEmpty(sizes)
  {
    if AtMostOneNonEmpty(sizes) {
      forall pool: seq<Byte>, datas: seq<seq<Byte>>, i |
        Sizes(datas) == sizes && Total(sizes) <= |pool| && 0 <= i < |datas|
        ensures Arrives(Stacked(pool, datas, |datas|), datas, i)
      {
        OneNonEmptyArrives(pool, datas, i);
      }
    } else {
      var i, j := FirstNonEmpty(sizes);
      var pool: seq<Byte> := seq(Total(sizes), _ => 0);
      TwoNonEmptyFail(sizes, i, j, pool);
    }
  }

  lemma TwoNonEmptyFail(sizes: seq<nat>, i: nat, j: nat, pool: seq<Byte>)
    requires i < j < |sizes| && sizes[i] > 0 && sizes[j] > 0 && forall k | 0 <= k < i :: sizes[k] == 0
    requires Total(sizes) <= |pool|
    ensures var datas := Filled(sizes, i);
      Sizes(datas) == sizes && !Arrives(Stacked(pool, datas, |datas|), datas, i)
  {
    var datas := Filled(sizes, i);
    assert Sizes(datas) == sizes;
    FrontOverwritten(pool, datas, |datas|, j);
    EmptyPrefix(sizes, i);
    if Arrives(Stacked(pool, datas, |datas|), datas, i) {
      FirstByteArrives(Stacked(pool, datas, |datas|), datas, i);
      assert false;
    }
  }

  lemma FirstByteArrives(pool: seq<Byte>, datas: seq<seq<Byte>>, i: nat)
    requires i < |datas| && datas[i] != [] && Arrives(pool, datas, i)
    ensures var at := Offset(Sizes(datas), i); at < |pool| && pool[at] == datas[i][0]
  {
    var loc := Locations(Sizes(datas))[i];
    assert Through(pool, loc)[0] == pool[loc.offset];
  }

  /** The first tensor with bytes, and a later one, when there are two. */
  lemma FirstNonEmpty(sizes: seq<nat>) returns (i: nat, j: nat)
    requires !AtMostOneNonEmpty(sizes)
    ensures i < j < |sizes| && sizes[i] > 0 && sizes[j] > 0
    ensures forall k | 0 <= k < i :: sizes[k] == 0
  {
    var a, b :| 0 <= a < b < |sizes| && sizes[a] != 0 && sizes[b] != 0;
    i, j := 0, b;
    while sizes[i] == 0
      invariant i <= a && forall k | 0 <= k < i :: sizes[k] == 0
      decreases a - i
    {
      i := i + 1;
    }
  }
}
