/** Results travel back through the same pool layout, into buffers of the caller or into
    buffers allocated on the way, which `rknn_outputs_release` frees. */
module RknnOutputs {
  import opened Bytes
  import opened RknnPool

  /** `buf` is a pointer, 0 for NULL. */
  datatype Output = Output(wantFloat: int, isPrealloc: int, size: nat, buf: nat)
  datatype TensorAttr = TensorAttr(nElems: nat, size: nat)

  /** The blocks of the process heap, and whether a block was freed that was not there. */
  datatype Mem = Mem(blocks: map<nat, seq<Byte>>, fault: bool)

  function OutSize(o: Output, attr: TensorAttr): (n: nat) {
    if o.isPrealloc == 1 then o.size
    else if o.wantFloat == 1 then attr.nElems * SIZEOF_FLOAT
    else attr.size
  }

  /** The outputs with their sizes filled in. */
  function Sized(outs: seq<Output>, attrs: seq<TensorAttr>): (r: seq<Output>)
    requires |outs| <= |attrs|
  {
    seq(|outs|, i requires 0 <= i < |outs| => outs[i].(size := OutSize(outs[i], attrs[i])))
  }

  function OutSizes(outs: seq<Output>): (r: seq<nat>) {
    seq(|outs|, i requires 0 <= i < |outs| => outs[i].size)
  }

  /** The outputs with freshly allocated buffers where the caller gave none, among the
      first `n`. */
  function Bound(outs: seq<Output>, ptrs: seq<nat>, n: nat): (r: seq<Output>)
    requires |outs| <= |ptrs|
  {
    seq(|outs|, i requires 0 <= i < |outs| =>
      if i >= n || outs[i].isPrealloc == 1 then outs[i] else outs[i].(buf := ptrs[i]))
  }

  /** The heap after the first `n` results have been copied out. */
  function CopiedOut(blocks: map<nat, seq<Byte>>, outs: seq<Output>, ptrs: seq<nat>, results: seq<seq<Byte>>, n: nat): (r: map<nat, seq<Byte>>)
    requires n <= |outs| && |outs| <= |ptrs| && |outs| <= |results|
  {
    if n == 0 then blocks
    else
      var before := CopiedOut(blocks, outs, ptrs, results, n - 1);
      var o, data := outs[n - 1], results[n - 1];
      if o.isPrealloc != 1 then before[ptrs[n - 1] := data]
      else if o.buf in before && |data| <= |before[o.buf]| then before[o.buf := Blit(before[o.buf], 0, data)]
      else before
  }

  function Free(m: Mem, p: nat): (r: Mem) {
    if p == 0 then m else Mem(m.blocks - {p}, m.fault || p !in m.blocks)
  }

  /** The heap after the first `n` outputs have been released. */
  function Released(m: Mem, outs: seq<Output>, n: nat): (r: Mem)
    requires n <= |outs|
  {
    if n == 0 then m
    else if outs[n - 1].isPrealloc != 1 then Free(Released(m, outs, n - 1), outs[n - 1].buf)
    else Released(m, outs, n - 1)
  }

  /** What the caller and `malloc` promise: the caller's buffers are its own, one for each
      output and large enough, and the new blocks are new. */
  ghost predicate BuffersOk(blocks: map<nat, seq<Byte>>, outs: seq<Output>, ptrs: seq<nat>) {
    && |ptrs| == |outs|
    && (forall i | 0 <= i < |outs| && outs[i].isPrealloc == 1 :: outs[i].buf in blocks && outs[i].size <= |blocks[outs[i].buf]|)
    && (forall i, j | 0 <= i < j < |outs| && outs[i].isPrealloc == 1 && outs[j].isPrealloc == 1 :: outs[i].buf != outs[j].buf)
    && (forall i | 0 <= i < |ptrs| :: ptrs[i] != 0 && ptrs[i] !in blocks)
    && (forall i, j | 0 <= i < j < |ptrs| :: ptrs[i] != ptrs[j])
  }

  ghost predicate FitsResults(outs: seq<Output>, results: seq<seq<Byte>>) {
    |results| == |outs| && forall i | 0 <= i < |outs| :: |results[i]| == outs[i].size
  }

  /** Where output `i` is after the call. */
  function Target(outs: seq<Output>, ptrs: seq<nat>, i: nat): (p: nat)
    requires i < |outs| && |outs| <= |ptrs|
  {
    if outs[i].isPrealloc == 1 then outs[i].buf else ptrs[i]
  }

  /** The blocks that are allocated for the first `n` outputs. */
  function NewBlocks(outs: seq<Output>, ptrs: seq<nat>, n: nat): (r: set<nat>)
    requires n <= |outs| <= |ptrs|
  {
    set i | 0 <= i < n && outs[i].isPrealloc != 1 :: ptrs[i]
  }

  lemma {:induction false} CopiedOutKeys(blocks: map<nat, seq<Byte>>, outs: seq<Output>, ptrs: seq<nat>, results: seq<seq<Byte>>, n: nat)
    requires n <= |outs| && |outs| <= |ptrs| && |outs| <= |results|
    ensures CopiedOut(blocks, outs, ptrs, results, n).Keys == blocks.Keys + NewBlocks(outs, ptrs, n)
  {
    if n == 0 {
    } else {
      CopiedOutKeys(blocks, outs, ptrs, results, n - 1);
      if outs[n - 1].isPrealloc != 1 {
        assert NewBlocks(outs, ptrs, n) == NewBlocks(outs, ptrs, n - 1) + {ptrs[n - 1]};
      } else {
        assert NewBlocks(outs, ptrs, n) == NewBlocks(outs, ptrs, n - 1);
      }
    }
  }

  /** After `n` results each of their targets holds its result, a block of the heap's own
      has exactly the result, and the caller's blocks keep their lengths. */
  lemma {:induction false} CopiedOutHolds(blocks: map<nat, seq<Byte>>, outs: seq<Output>, ptrs: seq<nat>, results: seq<seq<Byte>>, n: nat)
    requires n <= |outs| && BuffersOk(blocks, outs, ptrs) && FitsResults(outs, results)
    ensures var r := CopiedOut(blocks, outs, ptrs, results, n);
      && (forall i | 0 <= i < n ::
            var p := Target(outs, ptrs, i);
            p in r && |results[i]| <= |r[p]| && r[p][..|results[i]|] == results[i])
      && (forall i | 0 <= i < n && outs[i].isPrealloc != 1 :: r[ptrs[i]] == results[i])
      && (forall p | p in blocks :: p in r && |r[p]| == |blocks[p]|)
  {
    if n == 0 {
    } else {
      CopiedOutHolds(blocks, outs, ptrs, results, n - 1);
      var o, data := outs[n - 1], results[n - 1];
      var before := CopiedOut(blocks, outs, ptrs, results, n - 1);
      if o.isPrealloc == 1 {
        BlitAt(before[o.buf], 0, data);
      }
    }
  }

  lemma {:induction false} ReleasedBlocks(m: Mem, outs: seq<Output>, ptrs: seq<nat>, n: nat)
    requires n <= |outs| && BuffersOkAfter(m, outs, ptrs)
    ensures var r := Released(m, Bound(outs, ptrs, |outs|), n);
      r.fault == m.fault && r.blocks == m.blocks - NewBlocks(outs, ptrs, n)
  {
    if n == 0 {
    } else {
      ReleasedBlocks(m, outs, ptrs, n - 1);
      if outs[n - 1].isPrealloc != 1 {
        assert NewBlocks(outs, ptrs, n) == NewBlocks(outs, ptrs, n - 1) + {ptrs[n - 1]};
        assert ptrs[n - 1] !in NewBlocks(outs, ptrs, n - 1);
      } else {
        assert NewBlocks(outs, ptrs, n) == NewBlocks(outs, ptrs, n - 1);
      }
    }
  }

  ghost predicate BuffersOkAfter(m: Mem, outs: seq<Output>, ptrs: seq<nat>) {
    && |ptrs| == |outs|
    && (forall i | 0 <= i < |ptrs| :: ptrs[i] != 0)
    && (forall i, j | 0 <= i < j < |ptrs| :: ptrs[i] != ptrs[j])
    && NewBlocks(outs, ptrs, |outs|) <= m.blocks.Keys
  }

  class Builder {
    var blocks: map<nat, seq<Byte>>
    var fault: bool

    ghost function View(): (m: Mem)
      reads this
    {
      Mem(blocks, fault)
    }

    /** The server writes each result through the pointer made from its location. */
    method ServerOutputs(response: seq<Location>, memory: array<Byte>, results: seq<seq<Byte>>)
      requires response == Locations(Sizes(results)) && memory.Length == Total(Sizes(results))
      modifies memory
      ensures memory[..] == Placed(old(memory[..]), results, |results|)
    {
      for i := 0 to |response|
        invariant Offset(Sizes(results), i) <= memory.Length
        invariant memory[..] == Placed(old(memory[..]), results, i)
      {
        Grows(Sizes(results), i + 1, |results|);
        Memcpy(memory, response[i].offset, results[i]);
      }
    }

    /** `memory` is the pool, null when the allocator failed; `results` is what the server
        computes and `ptrs` what `malloc` would return for each output. */
    method OutputsGet(outputs: array<Output>, attrs: seq<TensorAttr>, memory: array?<Byte>, results: seq<seq<Byte>>, ptrs: seq<nat>)
      returns (ret: int)
      requires outputs.Length <= |attrs|
      requires BuffersOk(blocks, Sized(outputs[..], attrs), ptrs) && FitsResults(Sized(outputs[..], attrs), results)
      requires Total(OutSizes(Sized(outputs[..], attrs))) <= INT_MAX
      requires memory != null ==> memory.Length == Total(OutSizes(Sized(outputs[..], attrs)))
      modifies this`blocks, outputs, memory
      ensures var outs := Sized(old(outputs[..]), attrs);
        && ret == (if Total(OutSizes(outs)) == 0 then -1 else 0)
        && (if ret != 0 || memory == null then outputs[..] == outs && blocks == old(blocks)
            else
              && outputs[..] == Bound(outs, ptrs, |outs|)
              && blocks == CopiedOut(old(blocks), outs, ptrs, results, |outs|))
      ensures forall i | 0 <= i < outputs.Length ::
        var was, o, attr := old(outputs[i]), outputs[i], attrs[i];
        && o.isPrealloc == was.isPrealloc && o.wantFloat == was.wantFloat
        && o.size == (if was.isPrealloc == 1 then was.size else if was.wantFloat == 1 then 4 * attr.nElems else attr.size)
        && (ret != 0 || memory == null || was.isPrealloc == 1 ==> o.buf == was.buf)
        && (ret == 0 && memory != null ==>
              && o.buf in blocks && o.size <= |blocks[o.buf]| && blocks[o.buf][..o.size] == results[i]
              && (was.isPrealloc != 1 ==> o.buf !in old(blocks) && |blocks[o.buf]| == o.size))
    {
      ghost var was, before := outputs[..], blocks;
      var poolSize := FillSizes(outputs, attrs);
      if poolSize == 0 {
        return -1;
      }
      ret := 0;
      if memory != null {
        var response := Layout(outputs);
        assert OutSizes(outputs[..]) == Sizes(results);
        ghost var pool := memory[..];
        ServerOutputs(response, memory, results);
        CopyResults(outputs, memory, results, ptrs, pool);
        forall i | 0 <= i < outputs.Length
          ensures OutputOk(was[i], outputs[i], attrs[i], before, blocks, results[i])
        {
          assert outputs[i] == outputs[..][i];
          OutputIsRight(before, was, attrs, ptrs, results, i);
        }
      }
    }

    /** The first loop of `rknn_outputs_get`. */
    method FillSizes(outputs: array<Output>, attrs: seq<TensorAttr>) returns (poolSize: nat)
      requires outputs.Length <= |attrs|
      modifies outputs
      ensures outputs[..] == Sized(old(outputs[..]), attrs)
      ensures poolSize == Total(OutSizes(outputs[..]))
      ensures forall i | 0 <= i < outputs.Length ::
        var was, attr := old(outputs[i]), attrs[i];
        outputs[i] == was.(size :=
          if was.isPrealloc == 1 then was.size else if was.wantFloat == 1 then 4 * attr.nElems else attr.size)
    {
      ghost var outs := Sized(outputs[..], attrs);
      poolSize := 0;
      for i := 0 to outputs.Length
        invariant outputs[..i] == outs[..i] && outputs[i..] == old(outputs[..])[i..]
        invariant poolSize == Offset(OutSizes(outs), i)
      {
        assert outputs[i] == outputs[i..][0];
        var outSize := 0;
        if outputs[i].isPrealloc == 1 {
          outSize := outputs[i].size;
        } else {
          outSize := attrs[i].size;
          if outputs[i].wantFloat == 1 {
            outSize := attrs[i].nElems * SIZEOF_FLOAT;
          }
          outputs[i] := outputs[i].(size := outSize);
        }
        poolSize := poolSize + outSize;
      }
      assert outputs[..] == outs;
      assert forall i | 0 <= i < outputs.Length :: outputs[i] == outs[i];
    }

    method Layout(outputs: array<Output>) returns (response: seq<Location>)
      ensures response == Locations(OutSizes(outputs[..]))
    {
      var sizes := OutSizes(outputs[..]);
      response := [];
      for i := 0 to outputs.Length
        invariant response == Locations(sizes)[..i]
      {
        var curOffset := CurOffset(sizes, i);
        response := response + [Location(i, curOffset, outputs[i].size)];
      }
    }

    /** The last loop of `rknn_outputs_get`. */
    method CopyResults(outputs: array<Output>, memory: array<Byte>, ghost results: seq<seq<Byte>>, ptrs: seq<nat>,
                       ghost pool: seq<Byte>)
      requires BuffersOk(blocks, outputs[..], ptrs) && FitsResults(outputs[..], results)
      requires |pool| == Total(Sizes(results)) && memory[..] == Placed(pool, results, |results|)
      modifies this`blocks, outputs
      ensures outputs[..] == Bound(old(outputs[..]), ptrs, outputs.Length)
      ensures blocks == CopiedOut(old(blocks), old(outputs[..]), ptrs, results, outputs.Length)
    {
      ghost var outs, before := outputs[..], blocks;
      BoundNone(outs, ptrs);
      for i := 0 to outputs.Length
        invariant outputs[..] == Bound(outs, ptrs, i)
        invariant blocks == CopiedOut(before, outs, ptrs, results, i)
        invariant memory[..] == Placed(pool, results, |results|)
      {
        CopyOne(outputs, memory, results, ptrs, i, outs, pool, before);
      }
    }

    /** One turn of that loop. */
    method CopyOne(outputs: array<Output>, memory: array<Byte>, ghost results: seq<seq<Byte>>, ptrs: seq<nat>, i: nat,
                   ghost outs: seq<Output>, ghost pool: seq<Byte>, ghost before: map<nat, seq<Byte>>)
      requires i < outputs.Length == |outs| && BuffersOk(before, outs, ptrs) && FitsResults(outs, results)
      requires outputs[..] == Bound(outs, ptrs, i) && blocks == CopiedOut(before, outs, ptrs, results, i)
      requires |pool| == Total(Sizes(results)) && memory[..] == Placed(pool, results, |results|)
      modifies this`blocks, outputs
      ensures outputs[..] == Bound(outs, ptrs, i + 1)
      ensures blocks == CopiedOut(before, outs, ptrs, results, i + 1)
    {
      CopyReady(before, outs, ptrs, results, i);
      assert outputs[i] == outputs[..][i];
      var data := ResultBytes(memory, OutSizes(outputs[..]), i, pool, results);
      StoreResult(outputs, i, data, ptrs[i]);
    }

    method StoreResult(outputs: array<Output>, i: nat, data: seq<Byte>, p: nat)
      requires i < outputs.Length
      requires outputs[i].isPrealloc == 1 ==> outputs[i].buf in blocks && |data| <= |blocks[outputs[i].buf]|
      modifies this`blocks, outputs
      ensures var o := old(outputs[i]);
        if o.isPrealloc == 1
        then outputs[..] == old(outputs[..]) && blocks == old(blocks)[o.buf := Blit(old(blocks[o.buf]), 0, data)]
        else outputs[..] == old(outputs[..])[i := o.(buf := p)] && blocks == old(blocks)[p := data]
    {
      if outputs[i].isPrealloc != 1 {
        outputs[i] := outputs[i].(buf := p);
        blocks := blocks[outputs[i].buf := data];
      } else {
        blocks := blocks[outputs[i].buf := Blit(blocks[outputs[i].buf], 0, data)];
      }
    }

    /** The bytes of result `i` as they lie in the pool. */
    method ResultBytes(memory: array<Byte>, sizes: seq<nat>, i: nat, ghost pool: seq<Byte>, ghost results: seq<seq<Byte>>) returns (data: seq<Byte>)
      requires i < |results| && sizes == Sizes(results) && |pool| == Total(Sizes(results))
      requires memory[..] == Placed(pool, results, |results|)
      ensures data == results[i]
    {
      var curOffset := CurOffset(sizes, i);
      PlacedThrough(pool, results, |results|, i);
      data := memory[curOffset..curOffset + sizes[i]];
    }

    method OutputsRelease(outputs: array<Output>)
      modifies this
      ensures View() == Released(old(View()), outputs[..], outputs.Length)
    {
      for i := 0 to outputs.Length
        invariant View() == Released(old(View()), outputs[..], i)
      {
        if outputs[i].isPrealloc != 1 {
          var p := outputs[i].buf;
          if p != 0 {
            fault := fault || p !in blocks;
            blocks := blocks - {p};
          }
        }
      }
    }
  }

  lemma BoundNone(outs: seq<Output>, ptrs: seq<nat>)
    requires |outs| <= |ptrs|
    ensures Bound(outs, ptrs, 0) == outs
  {
  }

  /** Binding buffers one by one, which leaves the sizes as they are. */
  lemma BoundStep(outs: seq<Output>, ptrs: seq<nat>, i: nat)
    requires i < |outs| <= |ptrs|
    ensures Bound(outs, ptrs, i)[i] == outs[i]
    ensures Bound(outs, ptrs, i + 1) == Bound(outs, ptrs, i)[i := if outs[i].isPrealloc == 1 then outs[i] else outs[i].(buf := ptrs[i])]
    ensures OutSizes(Bound(outs, ptrs, i)) == OutSizes(outs)
  {
  }

  /** What one turn of the copying loop needs, and what it makes. */
  lemma CopyReady(blocks: map<nat, seq<Byte>>, outs: seq<Output>, ptrs: seq<nat>, results: seq<seq<Byte>>, i: nat)
    requires i < |outs| && BuffersOk(blocks, outs, ptrs) && FitsResults(outs, results)
    ensures var now, before := Bound(outs, ptrs, i), CopiedOut(blocks, outs, ptrs, results, i);
      var o, p := outs[i], ptrs[i];
      && now[i] == o && OutSizes(now) == Sizes(results)
      && if o.isPrealloc == 1 then
           && o.buf in before && |results[i]| <= |before[o.buf]|
           && Bound(outs, ptrs, i + 1) == now
           && CopiedOut(blocks, outs, ptrs, results, i + 1) == before[o.buf := Blit(before[o.buf], 0, results[i])]
         else
           && Bound(outs, ptrs, i + 1) == now[i := o.(buf := p)]
           && CopiedOut(blocks, outs, ptrs, results, i + 1) == before[p := results[i]]
  {
    BoundStep(outs, ptrs, i);
    TargetReady(blocks, outs, ptrs, results, i);
    assert Bound(outs, ptrs, i)[i := outs[i]] == Bound(outs, ptrs, i);
  }

  lemma TargetReady(blocks: map<nat, seq<Byte>>, outs: seq<Output>, ptrs: seq<nat>, results: seq<seq<Byte>>, i: nat)
    requires i < |outs| && BuffersOk(blocks, outs, ptrs) && FitsResults(outs, results)
    ensures var r := CopiedOut(blocks, outs, ptrs, results, i);
      && OutSizes(outs) == Sizes(results)
      && (outs[i].isPrealloc == 1 ==> outs[i].buf in r && |results[i]| <= |r[outs[i].buf]|)
  {
    CopiedOutHolds(blocks, outs, ptrs, results, i);
  }

  /** Whatever the server computed for output `i` is what the caller finds in
      `outputs[i].buf`, in a block of exactly that size when the caller gave none. */
  lemma ResultsArrive(blocks: map<nat, seq<Byte>>, outs: seq<Output>, ptrs: seq<nat>, results: seq<seq<Byte>>, i: nat)
    requires i < |outs| && BuffersOk(blocks, outs, ptrs) && FitsResults(outs, results)
    ensures var o := Bound(outs, ptrs, |outs|)[i]; var r := CopiedOut(blocks, outs, ptrs, results, |outs|);
      && o.buf in r && o.size == |results[i]| <= |r[o.buf]| && r[o.buf][..o.size] == results[i]
      && (outs[i].isPrealloc == 1 ==> o.buf == outs[i].buf && |r[o.buf]| == |blocks[o.buf]|)
      && (outs[i].isPrealloc != 1 ==> o.buf !in blocks && r[o.buf] == results[i])
  {
    CopiedOutHolds(blocks, outs, ptrs, results, |outs|);
    assert Target(outs, ptrs, i) == Bound(outs, ptrs, |outs|)[i].buf;
  }

  /** The output `o` after a get that succeeded, by what it was before and by the blocks before
      and after. */
  ghost predicate OutputOk(was: Output, o: Output, attr: TensorAttr,
                           before: map<nat, seq<Byte>>, after: map<nat, seq<Byte>>, result: seq<Byte>) {
    && o.isPrealloc == was.isPrealloc && o.wantFloat == was.wantFloat
    && o.size == (if was.isPrealloc == 1 then was.size else if was.wantFloat == 1 then 4 * attr.nElems else attr.size)
    && (was.isPrealloc == 1 ==> o.buf == was.buf)
    && o.buf in after && o.size <= |after[o.buf]| && after[o.buf][..o.size] == result
    && (was.isPrealloc != 1 ==> o.buf !in before && |after[o.buf]| == o.size)
  }

  /** Sizes and buffers of an output after a get, from the array and the attributes themselves: a
      preallocated output keeps the caller's size and buffer; another has four bytes for each
      element if it is wanted as float and its native size otherwise, in a new block of that
      length; and either holds the server's result. */
  lemma OutputIsRight(blocks: map<nat, seq<Byte>>, outs: seq<Output>, attrs: seq<TensorAttr>, ptrs: seq<nat>, results: seq<seq<Byte>>, i: nat)
    requires i < |outs| <= |attrs|
    requires BuffersOk(blocks, Sized(outs, attrs), ptrs) && FitsResults(Sized(outs, attrs), results)
    ensures var sized := Sized(outs, attrs);
      OutputOk(outs[i], Bound(sized, ptrs, |outs|)[i], attrs[i], blocks, CopiedOut(blocks, sized, ptrs, results, |outs|), results[i])
  {
    ResultsArrive(blocks, Sized(outs, attrs), ptrs, results, i);
  }

  /** The heap after a successful get, and after the release that follows it. */
  function Got(m: Mem, outs: seq<Output>, ptrs: seq<nat>, results: seq<seq<Byte>>): (r: Mem)
    requires |outs| <= |ptrs| && |outs| <= |results|
  {
    Mem(CopiedOut(m.blocks, outs, ptrs, results, |outs|), m.fault)
  }

  function GotAndReleased(m: Mem, outs: seq<Output>, ptrs: seq<nat>, results: seq<seq<Byte>>): (r: Mem)
    requires |outs| <= |ptrs| && |outs| <= |results|
  {
    Released(Got(m, outs, ptrs, results), Bound(outs, ptrs, |outs|), |outs|)
  }

  /** Release frees exactly the blocks its get allocated, each once and none of the
      caller's. */
  lemma ReleaseFreesWhatGetAllocated(m: Mem, outs: seq<Output>, ptrs: seq<nat>, results: seq<seq<Byte>>)
    requires BuffersOk(m.blocks, outs, ptrs) && FitsResults(outs, results)
    ensures var g, r := Got(m, outs, ptrs, results), GotAndReleased(m, outs, ptrs, results);
      && g.blocks.Keys == m.blocks.Keys + NewBlocks(outs, ptrs, |outs|)
      && NewBlocks(outs, ptrs, |outs|) !! m.blocks.Keys
      && r.fault == m.fault && r.blocks == g.blocks - NewBlocks(outs, ptrs, |outs|)
      && r.blocks.Keys == m.blocks.Keys
  {
    CopiedOutKeys(m.blocks, outs, ptrs, results, |outs|);
    ReleasedBlocks(Got(m, outs, ptrs, results), outs, ptrs, |outs|);
  }

  /** Output `i` has the same buffer as an earlier one that is released. */
  ghost predicate FreedBefore(outs: seq<Output>, i: nat)
    requires i < |outs|
  {
    exists j | 0 <= j < i :: outs[j].isPrealloc != 1 && outs[j].buf == outs[i].buf
  }

  /** Releasing output `i` frees something that is not there. */
  ghost predicate BadFree(blocks: map<nat, seq<Byte>>, outs: seq<Output>, i: nat)
    requires i < |outs|
  {
    outs[i].isPrealloc != 1 && outs[i].buf != 0 && (outs[i].buf !in blocks || FreedBefore(outs, i))
  }

  lemma {:induction false} ReleasedKeys(m: Mem, outs: seq<Output>, n: nat, p: nat)
    requires n <= |outs| && p != 0
    ensures p in Released(m, outs, n).blocks <==>
      p in m.blocks && !(exists j | 0 <= j < n :: outs[j].isPrealloc != 1 && outs[j].buf == p)
  {
    if n == 0 {
    } else {
      ReleasedKeys(m, outs, n - 1, p);
    }
  }

  /** For any heap and any array of outputs: a release goes wrong exactly when some output that
      is not preallocated has a pointer to no block, or to one an earlier output has freed. */
  lemma {:induction false} ReleaseFaultsIff(m: Mem, outs: seq<Output>, n: nat)
    requires n <= |outs|
    ensures Released(m, outs, n).fault <==> m.fault || exists i | 0 <= i < n :: BadFree(m.blocks, outs, i)
  {
    if n == 0 {
    } else {
      ReleaseFaultsIff(m, outs, n - 1);
      var o := outs[n - 1];
      if o.isPrealloc != 1 && o.buf != 0 {
        ReleasedKeys(m, outs, n - 1, o.buf);
        assert o.buf !in Released(m, outs, n - 1).blocks <==> BadFree(m.blocks, outs, n - 1);
      }
    }
  }

  /** A get whose pool could not be allocated reports success and leaves every pointer as it
      was, so the release that follows goes wrong exactly for the pointers the array held. */
  lemma ReleaseAfterFailedGet(m: Mem, outs: seq<Output>, attrs: seq<TensorAttr>)
    requires |outs| <= |attrs|
    ensures Released(m, Sized(outs, attrs), |outs|).fault <==>
      m.fault || exists i | 0 <= i < |outs| :: BadFree(m.blocks, outs, i)
  {
    var left := Sized(outs, attrs);
    ReleaseFaultsIff(m, left, |left|);
    forall i | 0 <= i < |outs|
      ensures BadFree(m.blocks, left, i) <==> BadFree(m.blocks, outs, i)
    {
      assert forall j | 0 <= j <= i :: left[j].isPrealloc == outs[j].isPrealloc && left[j].buf == outs[j].buf;
      if FreedBefore(outs, i) {
        var j :| 0 <= j < i && outs[j].isPrealloc != 1 && outs[j].buf == outs[i].buf;
        assert left[j].isPrealloc != 1 && left[j].buf == left[i].buf;
      }
    }
  }

  /** After a successful round those pointers are stale: a failed get and a release then free
      again what is free, exactly when some output is not preallocated. */
  lemma FailedGetAfterRound(m: Mem, outs: seq<Output>, ptrs: seq<nat>, results: seq<seq<Byte>>, attrs: seq<TensorAttr>)
    requires BuffersOk(m.blocks, outs, ptrs) && FitsResults(outs, results) && |outs| <= |attrs| && !m.fault
    ensures var r, left := GotAndReleased(m, outs, ptrs, results), Sized(Bound(outs, ptrs, |outs|), attrs);
      Released(r, left, |left|).fault <==> exists i | 0 <= i < |outs| :: outs[i].isPrealloc != 1
  {
    var r, stale := GotAndReleased(m, outs, ptrs, results), Bound(outs, ptrs, |outs|);
    ReleaseFreesWhatGetAllocated(m, outs, ptrs, results);
    ReleaseAfterFailedGet(r, stale, attrs);
    forall i | 0 <= i < |outs|
      ensures BadFree(r.blocks, stale, i) <==> outs[i].isPrealloc != 1
    {
      assert outs[i].isPrealloc != 1 ==> stale[i].buf == ptrs[i];
    }
  }

  /** Over an array whose pointers to free are all NULL a failed get does no harm. */
  lemma FailedGetOverNulls(m: Mem, outs: seq<Output>, attrs: seq<TensorAttr>)
    requires |outs| <= |attrs| && forall i | 0 <= i < |outs| && outs[i].isPrealloc != 1 :: outs[i].buf == 0
    ensures Released(m, Sized(outs, attrs), |outs|).fault == m.fault
  {
    ReleaseAfterFailedGet(m, outs, attrs);
  }

  /** One get and the release that follows it. A get that is not `ok` is one whose pool could
      not be allocated, which the caller cannot tell. */
  datatype Round = Round(ok: bool, ptrs: seq<nat>, results: seq<seq<Byte>>)

  /** The heap after the round, and the array it leaves. */
  function RoundMem(m: Mem, sized: seq<Output>, round: Round): (r: Mem)
    requires round.ok ==> |sized| <= |round.ptrs| && |sized| <= |round.results|
  {
    if round.ok then GotAndReleased(m, sized, round.ptrs, round.results) else Released(m, sized, |sized|)
  }

  function RoundOuts(sized: seq<Output>, round: Round): (r: seq<Output>)
    requires round.ok ==> |sized| <= |round.ptrs|
    ensures |r| == |sized|
  {
    if round.ok then Bound(sized, round.ptrs, |sized|) else sized
  }

  ghost predicate RoundOk(m: Mem, sized: seq<Output>, round: Round) {
    round.ok ==> BuffersOk(m.blocks, sized, round.ptrs) && FitsResults(sized, round.results)
  }

  ghost predicate RoundsOk(m: Mem, outs: seq<Output>, attrs: seq<TensorAttr>, rounds: seq<Round>)
    requires |outs| <= |attrs|
    decreases |rounds|
  {
    rounds == [] ||
    (var sized := Sized(outs, attrs);
     RoundOk(m, sized, rounds[0]) &&
     RoundsOk(RoundMem(m, sized, rounds[0]), RoundOuts(sized, rounds[0]), attrs, rounds[1..]))
  }

  ghost function AfterRounds(m: Mem, outs: seq<Output>, attrs: seq<TensorAttr>, rounds: seq<Round>): (r: Mem)
    requires |outs| <= |attrs| && RoundsOk(m, outs, attrs, rounds)
    decreases |rounds|
  {
    if rounds == [] then m
    else
      var sized := Sized(outs, attrs);
      AfterRounds(RoundMem(m, sized, rounds[0]), RoundOuts(sized, rounds[0]), attrs, rounds[1..])
  }

  predicate AllPrealloc(outs: seq<Output>) {
    forall i | 0 <= i < |outs| :: outs[i].isPrealloc == 1
  }

  /** Every pointer that a release would free is NULL. */
  predicate AllNull(outs: seq<Output>) {
    forall i | 0 <= i < |outs| && outs[i].isPrealloc != 1 :: outs[i].buf == 0
  }

  /** Every such pointer is to a block that is gone. */
  predicate AllStale(m: Mem, outs: seq<Output>) {
    forall i | 0 <= i < |outs| && outs[i].isPrealloc != 1 :: outs[i].buf != 0 && outs[i].buf !in m.blocks
  }

  lemma SizedKeeps(m: Mem, outs: seq<Output>, attrs: seq<TensorAttr>)
    requires |outs| <= |attrs|
    ensures var sized := Sized(outs, attrs);
      && (AllPrealloc(sized) <==> AllPrealloc(outs)) && (AllNull(outs) ==> AllNull(sized))
      && (AllStale(m, outs) ==> AllStale(m, sized))
  {
    var sized := Sized(outs, attrs);
    assert forall i | 0 <= i < |outs| :: sized[i].isPrealloc == outs[i].isPrealloc && sized[i].buf == outs[i].buf;
  }

  /** After a successful round nothing has changed but the pointers, which are stale. */
  lemma GoodRound(m: Mem, sized: seq<Output>, round: Round)
    requires round.ok && RoundOk(m, sized, round)
    ensures var r, left := RoundMem(m, sized, round), RoundOuts(sized, round);
      && r.blocks.Keys == m.blocks.Keys && r.fault == m.fault
      && AllStale(r, left) && (AllPrealloc(left) <==> AllPrealloc(sized))
  {
    ReleaseFreesWhatGetAllocated(m, sized, round.ptrs, round.results);
    var r := RoundMem(m, sized, round);
    assert forall i | 0 <= i < |round.ptrs| :: round.ptrs[i] != 0 && round.ptrs[i] !in r.blocks.Keys;
    BoundIsStale(r, sized, round.ptrs);
  }

  lemma BoundIsStale(m: Mem, outs: seq<Output>, ptrs: seq<nat>)
    requires |outs| <= |ptrs| && forall i | 0 <= i < |ptrs| :: ptrs[i] != 0 && ptrs[i] !in m.blocks
    ensures AllStale(m, Bound(outs, ptrs, |outs|))
    ensures AllPrealloc(Bound(outs, ptrs, |outs|)) <==> AllPrealloc(outs)
  {
    var left := Bound(outs, ptrs, |outs|);
    assert forall i | 0 <= i < |outs| :: left[i].isPrealloc == outs[i].isPrealloc;
    assert forall i | 0 <= i < |outs| && outs[i].isPrealloc != 1 :: left[i].buf == ptrs[i];
  }

  lemma {:induction false} NullReleased(m: Mem, outs: seq<Output>, n: nat)
    requires n <= |outs| && AllNull(outs)
    ensures Released(m, outs, n) == m
  {
    if n == 0 {
    } else {
      NullReleased(m, outs, n - 1);
    }
  }

  lemma {:induction false} StaleReleased(m: Mem, outs: seq<Output>, n: nat)
    requires n <= |outs| && AllStale(m, outs)
    ensures Released(m, outs, n).blocks == m.blocks
    ensures Released(m, outs, n).fault <==> m.fault || exists i | 0 <= i < n :: outs[i].isPrealloc != 1
  {
    if n == 0 {
    } else {
      StaleReleased(m, outs, n - 1);
    }
  }

  /** Some failed get comes after a successful one. */
  predicate FailsLater(rounds: seq<Round>)
    decreases |rounds|
  {
    rounds != [] && if rounds[0].ok then Fails(rounds[1..]) else FailsLater(rounds[1..])
  }

  predicate Fails(rounds: seq<Round>) {
    exists r | r in rounds :: !r.ok
  }

  /** From stale pointers on, the first failed get does the harm. */
  lemma {:induction false} StaleRounds(m: Mem, outs: seq<Output>, attrs: seq<TensorAttr>, rounds: seq<Round>)
    requires |outs| <= |attrs| && RoundsOk(m, outs, attrs, rounds) && AllStale(m, outs)
    ensures var r := AfterRounds(m, outs, attrs, rounds);
      && r.blocks.Keys == m.blocks.Keys
      && (r.fault <==> m.fault || (Fails(rounds) && !AllPrealloc(outs)))
    decreases |rounds|
  {
    if rounds == [] {
    } else {
      var sized := Sized(outs, attrs);
      SizedKeeps(m, outs, attrs);
      FailsFirst(rounds);
      if rounds[0].ok {
        GoodRound(m, sized, rounds[0]);
      } else {
        StaleReleased(m, sized, |sized|);
        SomeNotPrealloc(sized);
      }
      StaleRounds(RoundMem(m, sized, rounds[0]), RoundOuts(sized, rounds[0]), attrs, rounds[1..]);
    }
  }

  lemma FailsFirst(rounds: seq<Round>)
    requires rounds != []
    ensures Fails(rounds) <==> !rounds[0].ok || Fails(rounds[1..])
  {
    assert rounds == [rounds[0]] + rounds[1..];
  }

  lemma SomeNotPrealloc(outs: seq<Output>)
    ensures !AllPrealloc(outs) <==> exists i | 0 <= i < |outs| :: outs[i].isPrealloc != 1
  {
  }

  /** Over any alternation of gets and releases on one array that starts with NULL for every
      buffer to free: nothing stays allocated, and something is freed that was not there exactly
      when some output is not preallocated and a get fails after one that succeeded. */
  lemma {:induction false} RoundsFaultIff(m: Mem, outs: seq<Output>, attrs: seq<TensorAttr>, rounds: seq<Round>)
    requires |outs| <= |attrs| && RoundsOk(m, outs, attrs, rounds) && AllNull(outs)
    ensures var r := AfterRounds(m, outs, attrs, rounds);
      && r.blocks.Keys == m.blocks.Keys
      && (r.fault <==> m.fault || (FailsLater(rounds) && !AllPrealloc(outs)))
    decreases |rounds|
  {
    if rounds == [] {
    } else {
      var sized := Sized(outs, attrs);
      SizedKeeps(m, outs, attrs);
      if rounds[0].ok {
        GoodRound(m, sized, rounds[0]);
        StaleRounds(RoundMem(m, sized, rounds[0]), RoundOuts(sized, rounds[0]), attrs, rounds[1..]);
      } else {
        NullReleased(m, sized, |sized|);
        RoundsFaultIff(m, sized, attrs, rounds[1..]);
      }
    }
  }

  /** Over any alternation of successful gets and releases on one array, whatever its pointers,
      nothing stays allocated and nothing is freed that was not there. */
  lemma {:induction false} RoundsBalance(m: Mem, outs: seq<Output>, attrs: seq<TensorAttr>, rounds: seq<Round>)
    requires |outs| <= |attrs| && RoundsOk(m, outs, attrs, rounds) && !Fails(rounds)
    ensures var r := AfterRounds(m, outs, attrs, rounds); r.blocks.Keys == m.blocks.Keys && r.fault == m.fault
    decreases |rounds|
  {
    if rounds == [] {
    } else {
      FailsFirst(rounds);
      var sized := Sized(outs, attrs);
      GoodRound(m, sized, rounds[0]);
      RoundsBalance(RoundMem(m, sized, rounds[0]), RoundOuts(sized, rounds[0]), attrs, rounds[1..]);
    }
  }
}
