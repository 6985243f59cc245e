/** The audio part of an EDID: data blocks of CEA-861-E (section 7.5) inside checksummed
    128-byte extensions. A printer for such extensions is the parser's partner. */
module Edid {
  import opened Bytes
  import opened Wrappers

  const EDID_BLOCK_SIZE := 128
  const MAX_EDID_BLOCK := 8
  const CEA_EXTENSION := 2
  const AUDIO_DATA_BLOCK := 1
  const SPEAKER_ALLOCATION_BLOCK := 4
  const EXTENDED_TAG := 7

  const LPCM := 1
  const AC3 := 2
  const DTS := 7
  const ATARC := 8
  const E_AC3 := 10
  const DTS_HD := 11
  const MLP := 12

  /** One short audio descriptor as the parser stores it. */
  datatype Audio = Audio(kind: int, channel: int, sample: Byte, value: Byte, wordLength: int, maxBitrate: int)

  /** What the parser fills in. `layout` is -1 until a speaker block is seen. */
  datatype Infor = Infor(audio: seq<Audio>, layout: int)

  const NO_INFOR := Infor([], -1)

  function AudioOf(b1: Byte, b2: Byte, b3: Byte): (a: Audio) {
    var kind := (b1 / 8) % 16;
    Audio(kind, b1 % 8 + 1, b2, b3,
          if kind == LPCM then b3 else 0,
          if AC3 <= kind <= ATARC then 8000 * b3 else 0)
  }

  /** The descriptors in an audio block's payload, a trailing part of one left out. */
  function Descriptors(payload: seq<Byte>): (r: seq<Audio>) {
    seq(|payload| / 3, i requires 0 <= i < |payload| / 3 =>
      AudioOf(payload[i * 3], payload[i * 3 + 1], payload[i * 3 + 2]))
  }

  function LayoutOf(b1: Byte, b2: Byte): (layout: int) {
    (b2 % 8) * 256 + b1
  }

  /** The effect of the data block that starts at `off`; none when the parser would read
      past the end of the buffer. */
  function BlockAt(buf: seq<Byte>, off: nat, infor: Infor): (r: Option<Infor>)
    requires off < |buf|
  {
    var tag, count := buf[off] / 32, buf[off] % 32;
    if tag == AUDIO_DATA_BLOCK then
      if count < 3 then Some(infor)
      else if off + 1 + count / 3 * 3 > |buf| then None
      else Some(infor.(audio := Descriptors(buf[off + 1..off + 1 + count / 3 * 3])))
    else if tag == SPEAKER_ALLOCATION_BLOCK then
      if off + 2 >= |buf| then None else Some(infor.(layout := LayoutOf(buf[off + 1], buf[off + 2])))
    else if tag == EXTENDED_TAG && off + 1 >= |buf| then None
    else Some(infor)
  }

  /** Every byte of the data block at `off` that is read lies in the buffer. */
  predicate BlockInside(buf: seq<Byte>, off: nat) {
    off < |buf| &&
    var tag, count := buf[off] / 32, buf[off] % 32;
    && (tag == AUDIO_DATA_BLOCK ==> off + count / 3 * 3 < |buf|)
    && (tag == SPEAKER_ALLOCATION_BLOCK ==> off + 2 < |buf|)
    && (tag == EXTENDED_TAG ==> off + 1 < |buf|)
  }

  lemma DescriptorsNext(buf: seq<Byte>, from: nat, i: nat)
    requires from + i * 3 + 3 <= |buf|
    ensures Descriptors(buf[from..from + (i + 1) * 3]) == Descriptors(buf[from..from + i * 3])
      + [AudioOf(buf[from + i * 3], buf[from + i * 3 + 1], buf[from + i * 3 + 2])]
  {
    var a, b := buf[from..from + i * 3], buf[from..from + (i + 1) * 3];
    assert |a| / 3 == i && |b| / 3 == i + 1;
  }

  /** The walk over the data blocks from `off` up to `ddc`. */
  function Walk(buf: seq<Byte>, off: nat, ddc: nat, infor: Infor): (r: Option<Infor>)
    decreases ddc - off
  {
    if off >= ddc then Some(infor)
    else if off >= |buf| then None
    else match BlockAt(buf, off, infor)
      case None => None
      case Some(next) => Walk(buf, off + buf[off] % 32 + 1, ddc, next)
  }

  /** The offsets the walk looks at, and last the one where it stops. */
  function Visits(buf: seq<Byte>, off: nat, ddc: nat): (r: seq<nat>)
    decreases ddc - off
  {
    if off >= ddc || off >= |buf| then [off]
    else [off] + Visits(buf, off + buf[off] % 32 + 1, ddc)
  }

  /** The walk stays in the buffer exactly when every block it visits does. */
  lemma {:induction false} WalkInsideIff(buf: seq<Byte>, off: nat, ddc: nat, infor: Infor)
    ensures Walk(buf, off, ddc, infor).Some? <==>
      forall v | v in Visits(buf, off, ddc) && v < ddc :: BlockInside(buf, v)
    decreases ddc - off
  {
    if off >= ddc {
    } else if off >= |buf| {
      assert off in Visits(buf, off, ddc) && !BlockInside(buf, off);
    } else {
      var next := off + buf[off] % 32 + 1;
      var later := Visits(buf, next, ddc);
      assert Visits(buf, off, ddc) == [off] + later;
      assert forall v :: v in Visits(buf, off, ddc) <==> v == off || v in later;
      BlockInsideIff(buf, off, infor);
      match BlockAt(buf, off, infor)
      case None =>
      case Some(i) => WalkInsideIff(buf, next, ddc, i);
    }
  }

  lemma BlockInsideIff(buf: seq<Byte>, off: nat, infor: Infor)
    requires off < |buf|
    ensures BlockAt(buf, off, infor).Some? <==> BlockInside(buf, off)
  {
  }

  /** What a descriptor holds, from its three bytes. */
  ghost predicate IsDescriptor(a: Audio, b1: Byte, b2: Byte, b3: Byte) {
    && 0 <= a.kind < 16 && 1 <= a.channel <= 8 && 8 * a.kind + (a.channel - 1) == b1 % 128
    && a.sample == b2 && a.value == b3
    && a.wordLength == (if a.kind == 1 then b3 else 0)
    && a.maxBitrate == (if 2 <= a.kind <= 8 then 8000 * b3 else 0)
  }

  lemma DescriptorBytes(b1: Byte, b2: Byte, b3: Byte)
    ensures IsDescriptor(AudioOf(b1, b2, b3), b1, b2, b3)
  {
  }

  /** An audio block of `n` bytes, byte for byte: three bytes make a descriptor, fewer than three
      leave everything as it is, and the block is read exactly if its descriptors lie in the
      buffer. */
  lemma AudioBlockBytes(buf: seq<Byte>, off: nat, infor: Infor)
    requires off < |buf| && 0x20 <= buf[off] < 0x40
    ensures var n, r := buf[off] - 0x20, BlockAt(buf, off, infor);
      && (n < 3 ==> r == Some(infor))
      && (n >= 3 ==> (r.Some? <==> off + n - n % 3 < |buf|))
      && (n >= 3 && r.Some? ==>
            && r.value.layout == infor.layout && |r.value.audio| == n / 3
            && forall i | 0 <= i < n / 3 ::
                 IsDescriptor(r.value.audio[i], buf[off + 3 * i + 1], buf[off + 3 * i + 2], buf[off + 3 * i + 3]))
  {
    var n, r := buf[off] - 0x20, BlockAt(buf, off, infor);
    assert buf[off] / 32 == 1 && buf[off] % 32 == n;
    if n >= 3 && r.Some? {
      var payload := buf[off + 1..off + 1 + n / 3 * 3];
      assert |payload| / 3 == n / 3 && r.value.audio == Descriptors(payload);
      forall i | 0 <= i < n / 3
        ensures IsDescriptor(r.value.audio[i], buf[off + 3 * i + 1], buf[off + 3 * i + 2], buf[off + 3 * i + 3])
      {
        DescriptorBytes(payload[i * 3], payload[i * 3 + 1], payload[i * 3 + 2]);
      }
    }
  }

  /** A speaker allocation block: the first byte is the low part of the layout and three bits of
      the second its high part. */
  lemma SpeakerBlockBytes(buf: seq<Byte>, off: nat, infor: Infor)
    requires off < |buf| && 0x80 <= buf[off] < 0xA0
    ensures var r := BlockAt(buf, off, infor);
      && (r.Some? <==> off + 2 < |buf|)
      && (r.Some? ==>
            && r.value.audio == infor.audio && 0 <= r.value.layout
            && r.value.layout % 256 == buf[off + 1] && r.value.layout / 256 == buf[off + 2] % 8)
  {
    assert buf[off] / 32 == 4;
  }

  /** No other block has any effect. */
  lemma OtherBlockBytes(buf: seq<Byte>, off: nat, infor: Infor)
    requires off < |buf| && !(0x20 <= buf[off] < 0x40) && !(0x80 <= buf[off] < 0xA0)
    ensures var r := BlockAt(buf, off, infor);
      && (r.None? <==> buf[off] >= 0xE0 && off + 1 == |buf|)
      && (r.Some? ==> r.value == infor)
  {
  }

  function Sum(s: seq<Byte>): (r: nat) {
    if s == [] then 0 else Sum(s[..|s| - 1]) + s[|s| - 1]
  }

  lemma {:induction false} SumIsAdditive(a: seq<Byte>, b: seq<Byte>)
    ensures Sum(a + b) == Sum(a) + Sum(b)
    ensures |b| == 1 ==> Sum(b) == b[0]
  {
    if b == [] {
      assert a + b == a;
    } else {
      var n := |b| - 1;
      assert (a + b)[..|a| + n] == a + b[..n] && (a + b)[|a| + n] == b[n];
      SumIsAdditive(a, b[..n]);
    }
  }

  lemma SumOfChanged(s: seq<Byte>, i: nat, c: Byte)
    requires i < |s|
    ensures Sum(s[i := c]) == Sum(s) - s[i] + c
  {
    var pre, post := s[..i], s[i + 1..];
    assert s == pre + [s[i]] + post && s[i := c] == pre + [c] + post;
    SumIsAdditive(pre + [s[i]], post);
    SumIsAdditive(pre + [c], post);
    SumIsAdditive(pre, [s[i]]);
    SumIsAdditive(pre, [c]);
  }

  /** A CEA extension; versions other than 3 leave everything as it is. */
  function Cea(buf: seq<Byte>, infor: Infor): (r: Option<Infor>)
    requires |buf| == EDID_BLOCK_SIZE
  {
    if buf[1] != 3 then Some(infor) else Walk(buf, 4, buf[2], infor)
  }

  function Extension(buf: seq<Byte>, infor: Infor): (r: Option<Infor>)
    requires |buf| == EDID_BLOCK_SIZE
  {
    if Sum(buf) % 256 == 0 && buf[0] == CEA_EXTENSION then Cea(buf, infor) else Some(infor)
  }

  /** Only an extension that passes its checksum, has the tag of CEA and version 3 has any
      effect, and the walk over its blocks starts behind its four bytes. */
  lemma ExtensionBytes(buf: seq<Byte>, infor: Infor)
    requires |buf| == 128
    ensures Extension(buf, infor) ==
      if Sum(buf) % 256 == 0 && buf[0] == 2 && buf[1] == 3 then Walk(buf, 4, buf[2], infor) else Some(infor)
  {
  }

  /** One wrong byte, wherever it is, takes an extension that passed its checksum out. */
  lemma WrongByteIsNoticed(buf: seq<Byte>, i: nat, c: Byte, infor: Infor)
    requires |buf| == 128 && i < 128 && Sum(buf) % 256 == 0 && c != buf[i]
    ensures Extension(buf[i := c], infor) == Some(infor)
  {
    SumOfChanged(buf, i, c);
  }

  /** A read of the EDID node into a zeroed buffer. */
  function Padded(read: seq<Byte>): (buf: seq<Byte>)
    requires |read| <= EDID_BLOCK_SIZE
    ensures |buf| == 128 && read <= buf && forall k | |read| <= k < 128 :: buf[k] == 0
  {
    read + seq(EDID_BLOCK_SIZE - |read|, _ => 0)
  }

  predicate ChunksFit(chunks: seq<seq<Byte>>) {
    forall r | r in chunks :: |r| <= EDID_BLOCK_SIZE
  }

  /** The first `n` extension reads, up to the first empty one. */
  function Extensions(chunks: seq<seq<Byte>>, n: nat, infor: Infor): (r: Option<Infor>)
    requires ChunksFit(chunks)
    decreases n
  {
    if n == 0 || chunks == [] || chunks[0] == [] then Some(infor)
    else match Extension(Padded(chunks[0]), infor)
      case None => None
      case Some(next) => Extensions(chunks[1..], n - 1, next)
  }

  /** One more non-empty read, the `k`-th. */
  lemma ExtensionsNext(chunks: seq<seq<Byte>>, k: nat, n: nat, infor: Infor)
    requires ChunksFit(chunks) && k < |chunks| && chunks[k] != [] && n > 0
    ensures Extensions(chunks[k..], n, infor) ==
      match Extension(Padded(chunks[k]), infor)
      case None => None
      case Some(next) => Extensions(chunks[k + 1..], n - 1, next)
  {
    assert chunks[k..][0] == chunks[k] && chunks[k..][1..] == chunks[k + 1..];
  }

  /** How many extension blocks are read: the count in the base block, at most seven. */
  function ExtensionCount(base: seq<Byte>): (n: nat)
    requires |base| <= EDID_BLOCK_SIZE
  {
    var count := Padded(base)[0x7e];
    if count < MAX_EDID_BLOCK - 1 then count else MAX_EDID_BLOCK - 1
  }

  /** What parsing the whole node makes of `infor`. */
  function ParsedNode(base: seq<Byte>, chunks: seq<seq<Byte>>, infor: Infor): (r: Option<Infor>)
    requires |base| <= EDID_BLOCK_SIZE && ChunksFit(chunks)
  {
    Extensions(chunks, ExtensionCount(base), infor)
  }

  /** What follows an empty read is not looked at. */
  lemma {:induction false} StopsAtEmptyRead(chunks: seq<seq<Byte>>, more: seq<seq<Byte>>, n: nat, infor: Infor)
    requires ChunksFit(chunks) && ChunksFit(more)
    ensures ChunksFit(chunks + [[]] + more)
    ensures Extensions(chunks + [[]] + more, n, infor) == Extensions(chunks, n, infor)
    decreases n
  {
    var all := chunks + [[]] + more;
    assert forall r | r in all :: r in chunks || r == [] || r in more;
    if n > 0 && chunks != [] && chunks[0] != [] {
      var next := Extension(Padded(chunks[0]), infor);
      assert all[0] == chunks[0] && all[1..] == chunks[1..] + [[]] + more;
      if next.Some? {
        StopsAtEmptyRead(chunks[1..], more, n - 1, next.value);
      }
    }
  }

  class HdmiAudioInfors {
    var audio: seq<Audio>
    var channelLayout: int

    ghost function View(): (infor: Infor)
      reads this
    {
      Infor(audio, channelLayout)
    }

    constructor ()
      ensures View() == NO_INFOR
      ensures audio == [] && channelLayout == -1
    {
      audio := [];
      channelLayout := -1;
    }

    method Checksum(buf: seq<Byte>) returns (result: int)
      requires |buf| == EDID_BLOCK_SIZE
      ensures result == if Sum(buf) % 256 == 0 then 0 else -1
    {
      var checksum: nat := 0;
      for i := 0 to EDID_BLOCK_SIZE
        invariant checksum == Sum(buf[..i])
      {
        assert buf[..i + 1][..i] == buf[..i];
        checksum := checksum + buf[i];
      }
      assert buf[..EDID_BLOCK_SIZE] == buf;
      result := if checksum % 256 == 0 then 0 else -1;
    }

    static method ParseDescriptor(buf: seq<Byte>, at: nat) returns (descriptor: Audio)
      requires at + 3 <= |buf|
      ensures descriptor == AudioOf(buf[at], buf[at + 1], buf[at + 2])
    {
      var b1: int, b2: int, b3: int := buf[at], buf[at + 1], buf[at + 2];
      var kind := (b1 / 8) % 16;
      var wordLength: int, maxBitrate: int := 0, 0;
      if kind == LPCM {
        wordLength := b3;
      } else if AC3 <= kind <= ATARC {
        maxBitrate := 8000 * b3;
      }
      descriptor := Audio(kind, b1 % 8 + 1, b2, b3, wordLength, maxBitrate);
    }

    /** `inside` is whether every byte that is read lies in the buffer. Here and below a call
        ends at the first that does not: what the source makes of bytes behind its buffer is
        not part of the model. */
    method ParseCeaAudio(buf: seq<Byte>, off: nat) returns (inside: bool)
      requires off < |buf| && buf[off] / 32 == AUDIO_DATA_BLOCK
      modifies this
      ensures inside <==> BlockInside(buf, off)
      ensures inside ==> BlockAt(buf, off, old(View())) == Some(View())
      ensures !inside ==> View() == old(View())
    {
      inside := true;
      var count := buf[off] % 32 / 3;
      if count > 0 {
        var found: seq<Audio> := [];
        for i := 0 to count
          invariant View() == old(View()) && off + i * 3 < |buf|
          invariant found == Descriptors(buf[off + 1..off + 1 + i * 3])
        {
          if off + i * 3 + 3 >= |buf| {
            assert i * 3 + 3 <= count * 3;
            return false;
          }
          var descriptor := ParseDescriptor(buf, off + 1 + i * 3);
          DescriptorsNext(buf, off + 1, i);
          found := found + [descriptor];
        }
        audio := found;
      }
    }

    method ParseExtensionsCea(buf: seq<Byte>) returns (ret: int, inside: bool)
      requires |buf| == EDID_BLOCK_SIZE
      modifies this
      ensures inside <==> Cea(buf, old(View())).Some?
      ensures inside ==> Cea(buf, old(View())) == Some(View())
      ensures ret == if buf[1] == 3 then 0 else -1
    {
      inside := true;
      if buf[1] != 3 {
        return -1, true;
      }
      ret := 0;
      var ddcOffset := buf[2];
      var curOffset := 4;
      while curOffset < ddcOffset
        invariant 4 <= curOffset && inside
        invariant Walk(buf, curOffset, ddcOffset, View()) == Walk(buf, 4, ddcOffset, old(View()))
        decreases ddcOffset - curOffset
      {
        if curOffset >= |buf| {
          return 0, false;
        }
        var tag := buf[curOffset] / 32;
        if tag == AUDIO_DATA_BLOCK {
          inside := ParseCeaAudio(buf, curOffset);
          if !inside {
            return;
          }
        } else if tag == SPEAKER_ALLOCATION_BLOCK {
          if curOffset + 2 >= |buf| {
            return 0, false;
          }
          var highLayout: int := buf[curOffset + 2] % 8;
          channelLayout := highLayout * 256 + buf[curOffset + 1];
        } else if tag == EXTENDED_TAG {
          if curOffset + 1 >= |buf| {
            return 0, false;
          }
        }
        curOffset := curOffset + buf[curOffset] % 32 + 1;
      }
    }

    /** `ret` is not looked at by the caller. */
    method ParseExtensions(buf: seq<Byte>) returns (ret: int, inside: bool)
      requires |buf| == EDID_BLOCK_SIZE
      modifies this
      ensures inside <==> Extension(buf, old(View())).Some?
      ensures inside ==> Extension(buf, old(View())) == Some(View())
      ensures ret == 0 <==> Sum(buf) % 256 == 0 && buf[0] in [0xF0, 0x02, 0x10, 0x40, 0x50, 0x60]
    {
      inside := true;
      var rc := Checksum(buf);
      if rc != 0 {
        return -1, true;
      }
      if buf[0] == CEA_EXTENSION {
        ret, inside := ParseExtensionsCea(buf);
        ret := 0;
      } else {
        ret := if buf[0] in [0xF0, 0x10, 0x40, 0x50, 0x60] then 0 else -1;
      }
    }

    /** `base` is what the first successful read of the node gave and `chunks` what the
        following reads give; a read never gives more than a block. */
    method ParseHdmiAudio(base: seq<Byte>, chunks: seq<seq<Byte>>) returns (inside: bool)
      requires |base| <= EDID_BLOCK_SIZE && ChunksFit(chunks)
      modifies this
      ensures inside <==> ParsedNode(base, chunks, old(View())).Some?
      ensures inside ==> ParsedNode(base, chunks, old(View())) == Some(View())
    {
      var extendBlock := Padded(base)[0x7e];
      var i := 1;
      inside := true;
      while i < extendBlock + 1 && i < MAX_EDID_BLOCK
        invariant inside && 1 <= i <= |chunks| + 1 && i <= ExtensionCount(base) + 1
        invariant Extensions(chunks[i - 1..], ExtensionCount(base) + 1 - i, View())
               == Extensions(chunks, ExtensionCount(base), old(View()))
        decreases MAX_EDID_BLOCK - i
      {
        var read: seq<Byte> := if i - 1 < |chunks| then chunks[i - 1] else [];
        if |read| == 0 {
          break;
        }
        ExtensionsNext(chunks, i - 1, ExtensionCount(base) + 1 - i, View());
        var _, inBlock := ParseExtensions(Padded(read));
        if !inBlock {
          return false;
        }
        i := i + 1;
      }
    }

    method IsSupportFormat(hdmiLevel: int) returns (support: bool)
      ensures support <==> exists a | a in audio :: a.kind == hdmiLevel
    {
      support := false;
      if |audio| <= 0 {
        return;
      }
      for i := 0 to |audio|
        invariant forall j | 0 <= j < i :: audio[j].kind != hdmiLevel
      {
        if hdmiLevel == audio[i].kind {
          return true;
        }
      }
    }
  }
}
