/** A printer for CEA extensions, and the proof that the parser inverts it. */
module EdidPrinter {
  import opened Bytes
  import opened Wrappers
  import opened Edid

  datatype DataBlock = DataBlock(tag: nat, payload: seq<Byte>)

  /** The tag has three bits and the length five. A speaker allocation block has at least
      its two bytes of layout (section 7.5.3 asks for three), an extended block its tag. */
  predicate WellFormed(b: DataBlock) {
    && b.tag < 8 && |b.payload| < 32
    && (b.tag == SPEAKER_ALLOCATION_BLOCK ==> |b.payload| >= 2)
    && (b.tag == EXTENDED_TAG ==> |b.payload| >= 1)
  }

  predicate AllWellFormed(bs: seq<DataBlock>) {
    forall b | b in bs :: WellFormed(b)
  }

  function Print(b: DataBlock): (r: seq<Byte>)
    requires WellFormed(b)
    ensures |r| == |b.payload| + 1
  {
    [b.tag * 32 + |b.payload|] + b.payload
  }

  function PrintAll(bs: seq<DataBlock>): (r: seq<Byte>)
    requires AllWellFormed(bs)
  {
    if bs == [] then [] else Print(bs[0]) + PrintAll(bs[1..])
  }

  /** The offsets at which the blocks start when the first one starts at `off`. */
  function Starts(bs: seq<DataBlock>, off: nat): (r: seq<nat>) {
    if bs == [] then [] else [off] + Starts(bs[1..], off + |bs[0].payload| + 1)
  }

  predicate CarriesDescriptors(b: DataBlock) {
    b.tag == AUDIO_DATA_BLOCK && |b.payload| >= 3
  }

  /** The descriptors of the last audio block with room for one, else `otherwise`. */
  function LastAudio(bs: seq<DataBlock>, otherwise: seq<Audio>): (r: seq<Audio>) {
    if bs == [] then otherwise
    else
      var b := bs[|bs| - 1];
      if CarriesDescriptors(b) then Descriptors(b.payload)
      else LastAudio(bs[..|bs| - 1], otherwise)
  }

  /** The layout of the last speaker allocation block, else `otherwise`. */
  function LastLayout(bs: seq<DataBlock>, otherwise: int): (r: int)
    requires AllWellFormed(bs)
  {
    if bs == [] then otherwise
    else
      var b := bs[|bs| - 1];
      assert b in bs;
      if b.tag == SPEAKER_ALLOCATION_BLOCK then LayoutOf(b.payload[0], b.payload[1])
      else LastLayout(bs[..|bs| - 1], otherwise)
  }

  function Meaning(bs: seq<DataBlock>, infor: Infor): (r: Infor)
    requires AllWellFormed(bs)
  {
    Infor(LastAudio(bs, infor.audio), LastLayout(bs, infor.layout))
  }

  /** Reading one more block in front is the same as starting from what it says. */
  lemma {:induction false} MeaningFirst(b: DataBlock, bs: seq<DataBlock>, infor: Infor)
    requires WellFormed(b) && AllWellFormed(bs)
    ensures AllWellFormed([b] + bs)
    ensures Meaning([b] + bs, infor) == Meaning(bs, Meaning([b], infor))
  {
    if bs == [] {
      assert [b] + bs == [b];
    } else {
      var n := |bs| - 1;
      assert ([b] + bs)[..n + 1] == [b] + bs[..n];
      assert ([b] + bs)[n + 1] == bs[n];
      MeaningFirst(b, bs[..n], infor);
    }
  }

  lemma {:induction false} MeaningConcat(a: seq<DataBlock>, b: seq<DataBlock>, infor: Infor)
    requires AllWellFormed(a) && AllWellFormed(b)
    ensures AllWellFormed(a + b)
    ensures Meaning(a + b, infor) == Meaning(b, Meaning(a, infor))
  {
    if b == [] {
      assert a + b == a;
    } else {
      var n := |b| - 1;
      assert (a + b)[..|a + b| - 1] == a + b[..n];
      assert (a + b)[|a + b| - 1] == b[n];
      MeaningConcat(a, b[..n], infor);
    }
  }

  lemma MeaningOne(b: DataBlock, infor: Infor)
    requires WellFormed(b)
    ensures Meaning([b], infor) ==
      if CarriesDescriptors(b) then infor.(audio := Descriptors(b.payload))
      else if b.tag == SPEAKER_ALLOCATION_BLOCK then infor.(layout := LayoutOf(b.payload[0], b.payload[1]))
      else infor
  {
    var s := [b];
    assert s[..|s| - 1] == [] && s[|s| - 1] == b;
    assert LastAudio(s, infor.audio) ==
      if CarriesDescriptors(b) then Descriptors(b.payload) else infor.audio;
    assert LastLayout(s, infor.layout) ==
      if b.tag == SPEAKER_ALLOCATION_BLOCK then LayoutOf(b.payload[0], b.payload[1]) else infor.layout;
  }

  lemma DescriptorsCut(payload: seq<Byte>)
    ensures Descriptors(payload[..|payload| / 3 * 3]) == Descriptors(payload)
  {
  }

  /** The parser on one printed block. */
  lemma BlockRoundTrip(pre: seq<Byte>, b: DataBlock, post: seq<Byte>, infor: Infor)
    requires WellFormed(b)
    ensures var buf := pre + Print(b) + post;
      && buf[|pre|] % 32 == |b.payload|
      && BlockAt(buf, |pre|, infor) == Some(Meaning([b], infor))
  {
    var buf, off, n := pre + Print(b) + post, |pre|, |b.payload|;
    assert buf[off] == b.tag * 32 + n;
    assert buf[off] / 32 == b.tag && buf[off] % 32 == n;
    assert buf[off + 1..off + 1 + n] == b.payload;
    MeaningOne(b, infor);
    if b.tag == AUDIO_DATA_BLOCK {
      DescriptorsCut(b.payload);
      assert buf[off + 1..off + 1 + n / 3 * 3] == b.payload[..n / 3 * 3];
    } else if b.tag == SPEAKER_ALLOCATION_BLOCK {
      assert buf[off + 1] == b.payload[0] && buf[off + 2] == b.payload[1];
    }
  }

  /** The walk from `off` to `ddc` visits the starts of `bs` and yields their meaning. */
  ghost predicate Reads(buf: seq<Byte>, off: nat, ddc: nat, bs: seq<DataBlock>, infor: Infor)
    requires AllWellFormed(bs)
  {
    && Walk(buf, off, ddc, infor) == Some(Meaning(bs, infor))
    && Visits(buf, off, ddc) == Starts(bs, off) + [ddc]
  }

  lemma ReadsFirst(buf: seq<Byte>, off: nat, ddc: nat, b: DataBlock, rest: seq<DataBlock>, infor: Infor)
    requires WellFormed(b) && AllWellFormed(rest) && off < |buf| && off < ddc
    requires buf[off] % 32 == |b.payload| && BlockAt(buf, off, infor) == Some(Meaning([b], infor))
    requires Reads(buf, off + |b.payload| + 1, ddc, rest, Meaning([b], infor))
    ensures AllWellFormed([b] + rest) && Reads(buf, off, ddc, [b] + rest, infor)
  {
    MeaningFirst(b, rest, infor);
    assert ([b] + rest)[1..] == rest;
  }

  lemma ReadsNone(buf: seq<Byte>, off: nat, infor: Infor)
    ensures Reads(buf, off, off, [], infor)
  {
  }

  lemma PrintFirst(pre: seq<Byte>, b: DataBlock, rest: seq<DataBlock>, post: seq<Byte>)
    requires WellFormed(b) && AllWellFormed(rest)
    ensures AllWellFormed([b] + rest) && |PrintAll([b] + rest)| == |b.payload| + 1 + |PrintAll(rest)|
    ensures pre + PrintAll([b] + rest) + post == pre + Print(b) + (PrintAll(rest) + post)
    ensures pre + PrintAll([b] + rest) + post == (pre + Print(b)) + PrintAll(rest) + post
  {
    assert ([b] + rest)[0] == b && ([b] + rest)[1..] == rest;
    assert PrintAll([b] + rest) == Print(b) + PrintAll(rest);
  }

  /** The walk over printed blocks stops exactly where they end, visits exactly their
      starts, and yields the last audio block's descriptors and the last speaker block's
      layout. */
  lemma {:induction false} WalkRoundTrip(pre: seq<Byte>, bs: seq<DataBlock>, post: seq<Byte>, infor: Infor)
    requires AllWellFormed(bs)
    ensures Reads(pre + PrintAll(bs) + post, |pre|, |pre| + |PrintAll(bs)|, bs, infor)
    decreases |bs|
  {
    if bs == [] {
      ReadsNone(pre + PrintAll(bs) + post, |pre|, infor);
    } else {
      var b, rest := bs[0], bs[1..];
      assert bs == [b] + rest;
      WalkRoundTrip(pre + Print(b), rest, post, Meaning([b], infor));
      WalkFirst(pre, b, rest, post, infor);
    }
  }

  lemma WalkFirst(pre: seq<Byte>, b: DataBlock, rest: seq<DataBlock>, post: seq<Byte>, infor: Infor)
    requires WellFormed(b) && AllWellFormed(rest)
    requires var mid := pre + Print(b);
      Reads(mid + PrintAll(rest) + post, |mid|, |mid| + |PrintAll(rest)|, rest, Meaning([b], infor))
    ensures AllWellFormed([b] + rest)
    ensures Reads(pre + PrintAll([b] + rest) + post, |pre|, |pre| + |PrintAll([b] + rest)|, [b] + rest, infor)
  {
    PrintFirst(pre, b, rest, post);
    FirstPrinted(pre, b, PrintAll(rest) + post, infor);
    var buf := pre + PrintAll([b] + rest) + post;
    ReadsFirst(buf, |pre|, |pre| + |PrintAll([b] + rest)|, b, rest, infor);
  }

  lemma FirstPrinted(pre: seq<Byte>, b: DataBlock, post: seq<Byte>, infor: Infor)
    requires WellFormed(b)
    ensures var buf := pre + Print(b) + post;
      && |pre| < |buf| && |pre + Print(b)| == |pre| + |b.payload| + 1
      && buf[|pre|] % 32 == |b.payload| && BlockAt(buf, |pre|, infor) == Some(Meaning([b], infor))
  {
    BlockRoundTrip(pre, b, post, infor);
  }

  // ---- Whole extensions ------------------------------------------------------------

  /** An extension's data blocks, its fourth byte and what fills it up to the checksum. */
  datatype Cea861 = Cea861(blocks: seq<DataBlock>, flags: Byte, filler: seq<Byte>)

  predicate FillsBlock(e: Cea861) {
    AllWellFormed(e.blocks) && 4 + |PrintAll(e.blocks)| + |e.filler| == EDID_BLOCK_SIZE - 1
  }

  function PrintBody(e: Cea861): (r: seq<Byte>)
    requires FillsBlock(e)
    ensures |r| == EDID_BLOCK_SIZE - 1
  {
    [2, 3, 4 + |PrintAll(e.blocks)|, e.flags] + PrintAll(e.blocks) + e.filler
  }

  function PrintExtension(e: Cea861): (r: seq<Byte>)
    requires FillsBlock(e)
    ensures |r| == EDID_BLOCK_SIZE
  {
    PrintBody(e) + [(256 - Sum(PrintBody(e)) % 256) % 256]
  }

  lemma SumAppend(s: seq<Byte>, c: Byte)
    ensures Sum(s + [c]) == Sum(s) + c
  {
    assert (s + [c])[..|s|] == s;
  }

  lemma Complement(n: nat)
    ensures (n + (256 - n % 256) % 256) % 256 == 0
  {
  }

  lemma ExtensionRoundTrip(e: Cea861, infor: Infor)
    requires FillsBlock(e)
    ensures Sum(PrintExtension(e)) % 256 == 0
    ensures Extension(PrintExtension(e), infor) == Some(Meaning(e.blocks, infor))
  {
    var buf, sum := PrintExtension(e), Sum(PrintBody(e));
    SumAppend(PrintBody(e), (256 - sum % 256) % 256);
    Complement(sum);
    var head: seq<Byte> := [2, 3, 4 + |PrintAll(e.blocks)|, e.flags];
    var post := e.filler + [buf[EDID_BLOCK_SIZE - 1]];
    assert buf == head + PrintAll(e.blocks) + post;
    WalkRoundTrip(head, e.blocks, post, infor);
  }

  predicate AllFill(es: seq<Cea861>) {
    forall e | e in es :: FillsBlock(e)
  }

  function PrintExtensions(es: seq<Cea861>): (r: seq<seq<Byte>>)
    requires AllFill(es)
    ensures ChunksFit(r)
  {
    if es == [] then [] else [PrintExtension(es[0])] + PrintExtensions(es[1..])
  }

  function AllBlocks(es: seq<Cea861>): (r: seq<DataBlock>)
    requires AllFill(es)
    ensures AllWellFormed(r)
  {
    if es == [] then []
    else
      assert es[0] in es;
      es[0].blocks + AllBlocks(es[1..])
  }

  lemma ExtensionsFirst(e: Cea861, chunks: seq<seq<Byte>>, n: nat, infor: Infor)
    requires FillsBlock(e) && ChunksFit(chunks) && n > 0
    ensures ChunksFit([PrintExtension(e)] + chunks)
    ensures Extensions([PrintExtension(e)] + chunks, n, infor) == Extensions(chunks, n - 1, Meaning(e.blocks, infor))
  {
    var all := [PrintExtension(e)] + chunks;
    assert all[0] == PrintExtension(e) && all[1..] == chunks;
    assert Padded(PrintExtension(e)) == PrintExtension(e);
    ExtensionRoundTrip(e, infor);
  }

  lemma OneInFront(e: Cea861, read: seq<Cea861>, all: seq<Cea861>, n: nat, infor: Infor)
    requires FillsBlock(e) && AllFill(read) && AllFill(all) && n > 0
    requires Extensions(PrintExtensions(all), n - 1, Meaning(e.blocks, infor))
          == Some(Meaning(AllBlocks(read), Meaning(e.blocks, infor)))
    ensures AllFill([e] + read) && AllFill([e] + all)
    ensures Extensions(PrintExtensions([e] + all), n, infor) == Some(Meaning(AllBlocks([e] + read), infor))
  {
    assert ([e] + all)[1..] == all && ([e] + read)[1..] == read;
    ExtensionsFirst(e, PrintExtensions(all), n, infor);
    MeaningConcat(e.blocks, AllBlocks(read), infor);
  }

  /** Over `n` extensions that are read, or all if there are fewer, the last audio and the last
      speaker block count. */
  lemma {:induction false} ExtensionsRoundTrip(es: seq<Cea861>, more: seq<Cea861>, n: nat, infor: Infor)
    requires AllFill(es + more) && |es| <= n && (more == [] || |es| == n)
    ensures AllFill(es)
    ensures Extensions(PrintExtensions(es + more), n, infor) == Some(Meaning(AllBlocks(es), infor))
    decreases n
  {
    assert forall e | e in es :: e in es + more;
    if es == [] {
      assert es + more == more;
    } else {
      var e, rest := es[0], es[1..];
      assert e in es && es == [e] + rest && es + more == [e] + (rest + more);
      assert AllFill(rest + more) && AllFill(rest) by {
        assert forall f | f in rest + more :: f in es + more;
        assert forall f | f in rest :: f in es;
      }
      ExtensionsRoundTrip(rest, more, n - 1, Meaning(e.blocks, infor));
      OneInFront(e, rest, rest + more, n, infor);
    }
  }

  /** The extensions that are read of a node that has `es`: as many as the byte at 126 of the
      base block says, but no more than seven and no more than there are. */
  predicate AreRead(base: seq<Byte>, es: seq<Cea861>, read: seq<Cea861>) {
    var count := if |base| > 126 then base[126] else 0;
    && read <= es && |read| <= count && |read| <= 7
    && (read == es || |read| == count || |read| == 7)
  }

  /** The whole node: whatever the base block, what is parsed is the meaning of the data blocks
      of exactly those extensions. */
  lemma NodeRoundTrip(base: seq<Byte>, es: seq<Cea861>, read: seq<Cea861>, infor: Infor)
    requires |base| <= EDID_BLOCK_SIZE && AllFill(es) && AreRead(base, es, read)
    ensures AllFill(read)
    ensures ParsedNode(base, PrintExtensions(es), infor) == Some(Meaning(AllBlocks(read), infor))
  {
    var n := ExtensionCount(base);
    if |read| < n {
      assert es == read + [];
      ExtensionsRoundTrip(read, [], n, infor);
    } else {
      assert es == read + es[|read|..];
      ExtensionsRoundTrip(read, es[|read|..], n, infor);
    }
  }

  /** So a display whose base block counts its extensions, at most seven, has them all read; of
      more than seven the first seven are. */
  lemma CountedNodeRoundTrip(base: seq<Byte>, es: seq<Cea861>, infor: Infor)
    requires 126 < |base| <= EDID_BLOCK_SIZE && AllFill(es) && base[126] == |es|
    ensures |es| <= 7 ==> ParsedNode(base, PrintExtensions(es), infor) == Some(Meaning(AllBlocks(es), infor))
    ensures |es| > 7 ==>
      AllFill(es[..7]) && ParsedNode(base, PrintExtensions(es), infor) == Some(Meaning(AllBlocks(es[..7]), infor))
  {
    NodeRoundTrip(base, es, if |es| <= 7 then es else es[..7], infor);
  }

  // ---- Short audio descriptors -----------------------------------------------------

  /** A short audio descriptor (section 7.5.2), with one to eight channels. */
  datatype Descriptor = Descriptor(kind: nat, channels: nat, sample: Byte, value: Byte)

  predicate DescriptorOk(d: Descriptor) {
    d.kind < 16 && 1 <= d.channels <= 8
  }

  function PrintDescriptors(ds: seq<Descriptor>): (r: seq<Byte>)
    requires forall d | d in ds :: DescriptorOk(d)
    ensures |r| == 3 * |ds|
  {
    if ds == [] then []
    else
      var d := ds[|ds| - 1];
      assert DescriptorOk(d);
      var first: Byte := d.kind * 8 + d.channels - 1;
      PrintDescriptors(ds[..|ds| - 1]) + [first, d.sample, d.value]
  }

  /** Parsing printed descriptors gives back each one's format, channels and last byte,
      which also is the word length of PCM and the bit rate of the compressed formats. */
  lemma {:induction false} DescriptorsRoundTrip(ds: seq<Descriptor>, i: nat)
    requires i < |ds| && forall d | d in ds :: DescriptorOk(d)
    ensures var parsed := Descriptors(PrintDescriptors(ds)); var d := ds[i];
      && |parsed| == |ds|
      && parsed[i].kind == d.kind && parsed[i].channel == d.channels && parsed[i].sample == d.sample && parsed[i].value == d.value
      && parsed[i].wordLength == (if d.kind == 1 then d.value else 0)
      && parsed[i].maxBitrate == (if 2 <= d.kind <= 8 then 8000 * d.value else 0)
  {
    var n := |ds| - 1;
    var bytes := PrintDescriptors(ds);
    assert ds[n] in ds && DescriptorOk(ds[n]);
    if i == n {
      assert bytes[i * 3] == ds[n].kind * 8 + ds[n].channels - 1;
      assert bytes[i * 3] / 8 == ds[n].kind && bytes[i * 3] % 8 == ds[n].channels - 1;
    } else {
      DescriptorsRoundTrip(ds[..n], i);
      assert forall k | 0 <= k < 3 * n :: bytes[k] == PrintDescriptors(ds[..n])[k];
    }
  }
}
