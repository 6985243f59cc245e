/** Unpacking 10-bit samples: a line is a little-endian bit stream, and each sample is cut
    down to its top eight bits. Bit operations are written out on naturals. */
module TenBit {
  import opened Bytes

  // ---- Bits ------------------------------------------------------------------------

  /** x >> k */
  function Shr(x: nat, k: nat): (r: nat)
    decreases k, x
  {
    if k == 0 then x else Shr(x / 2, k - 1)
  }

  /** x << k */
  function Shl(x: nat, k: nat): (r: nat) {
    if k == 0 then x else 2 * Shl(x, k - 1)
  }

  /** x & ((1 << c) - 1) */
  function Low(x: nat, c: nat): (r: nat)
    decreases c, x
  {
    if c == 0 then 0 else x % 2 + 2 * Low(x / 2, c - 1)
  }

  /** x | y */
  function BitOr(x: nat, y: nat): (r: nat)
    decreases x + y
  {
    if x == 0 then y
    else if y == 0 then x
    else (if x % 2 == 1 || y % 2 == 1 then 1 else 0) + 2 * BitOr(x / 2, y / 2)
  }

  /** Bit `k` of a stream of `width`-bit digits, lowest bits first; 0 past the end. */
  function BitAt(digits: seq<nat>, width: nat, k: nat): (b: nat)
    requires width > 0
    ensures b < 2
  {
    if k / width < |digits| then Shr(digits[k / width], k % width) % 2 else 0
  }

  /** The number that `count` bits of the stream make up, starting at bit `from`. */
  function Field(digits: seq<nat>, width: nat, from: nat, count: nat): (r: nat)
    requires width > 0
    decreases count, from
  {
    if count == 0 then 0
    else BitAt(digits, width, from) + 2 * Field(digits, width, from + 1, count - 1)
  }

  lemma {:induction false} ShrNext(x: nat, k: nat)
    ensures Shr(x, k + 1) == Shr(x, k) / 2
    decreases k
  {
    if k == 0 {
      assert Shr(x, 1) == Shr(x / 2, 0);
    } else {
      ShrNext(x / 2, k - 1);
    }
  }

  lemma {:induction false} OrOfDisjoint(x: nat, z: nat, k: nat)
    requires Shr(x, k) == 0
    ensures BitOr(x, Shl(z, k)) == x + Shl(z, k)
    decreases k
  {
    if k == 0 || x == 0 || Shl(z, k) == 0 {
    } else {
      OrOfDisjoint(x / 2, z, k - 1);
    }
  }

  lemma {:induction false} LowOfSum(x: nat, z: nat, k: nat, c: nat)
    requires Shr(x, k) == 0
    ensures Low(x + Shl(z, k), k + c) == x + Shl(Low(z, c), k)
    decreases k
  {
    if k == 0 {
    } else {
      LowOfSum(x / 2, z, k - 1, c);
      assert (x + 2 * Shl(z, k - 1)) / 2 == x / 2 + Shl(z, k - 1);
    }
  }

  lemma {:induction false} LowOfSmall(x: nat, c: nat)
    requires Shr(x, c) == 0
    ensures Low(x, c) == x
    decreases c
  {
    if c == 0 {
    } else {
      LowOfSmall(x / 2, c - 1);
    }
  }

  lemma {:induction false} ShrShr(x: nat, a: nat, b: nat)
    ensures Shr(Shr(x, a), b) == Shr(x, a + b)
    decreases a
  {
    if a == 0 {
    } else {
      ShrShr(x / 2, a - 1, b);
    }
  }

  /** A field inside one digit. */
  lemma {:induction false} FieldInDigit(digits: seq<nat>, width: nat, a: nat, off: nat, count: nat)
    requires a < |digits| && off + count <= width && (width == 8 || width == 10)
    ensures Field(digits, width, width * a + off, count) == Low(Shr(digits[a], off), count)
    decreases count
  {
    if count == 0 {
    } else {
      DigitOf(width, a, off);
      ShrNext(digits[a], off);
      FieldInDigit(digits, width, a, off + 1, count - 1);
    }
  }

  lemma DigitOf(width: nat, a: nat, off: nat)
    requires off < width && (width == 8 || width == 10)
    ensures (width * a + off) / width == a && (width * a + off) % width == off
  {
    if width == 8 {
      assert (8 * a + off) / 8 == a;
    } else {
      assert (10 * a + off) / 10 == a;
    }
  }

  lemma {:induction false} FieldSplit(digits: seq<nat>, width: nat, from: nat, c: nat, d: nat)
    requires width > 0
    ensures Field(digits, width, from, c + d) == Field(digits, width, from, c) + Shl(Field(digits, width, from + c, d), c)
    decreases c
  {
    if c == 0 {
    } else {
      FieldSplit(digits, width, from + 1, c - 1, d);
    }
  }

  /** The first eight bits make up the first byte, and by `FieldFrom` so on. */
  lemma ByteIsItsBits(line: seq<Byte>)
    requires line != []
    ensures Field(line, 8, 0, 8) == line[0]
  {
    FieldFromStart(line, 8, 0, 8, 0);
    ByteShiftedOut(line[0]);
    LowOfSmall(line[0], 8);
  }

  /** A stream that starts at byte `a` is the stream from bit `8 * a` on. */
  lemma {:induction false} FieldFrom(line: seq<Byte>, a: nat, from: nat, count: nat)
    requires a <= |line|
    ensures Field(line[a..], 8, from, count) == Field(line, 8, 8 * a + from, count)
    decreases count
  {
    if count == 0 {
    } else {
      FieldFrom(line, a, from + 1, count - 1);
      assert (8 * a + from) / 8 == a + from / 8 && (8 * a + from) % 8 == from % 8;
    }
  }

  // ---- One sample ------------------------------------------------------------------

  /** `fetch_data` on the two bytes it looks at. */
  function Unpack(b0: Byte, b1: Byte, offset: nat): (r: nat)
    requires offset <= 8
  {
    Shr(Low(BitOr(Shr(b0, offset), Shl(b1, 8 - offset)), 10), 2)
  }

  /** `fetch_data`: the index arithmetic is 32-bit, so `num` must not make it wrap. */
  function FetchData(line: seq<Byte>, num: nat): (r: nat)
    requires num * 10 < 0x1_0000_0000 && num * 10 / 8 + 1 < |line|
  {
    Unpack(line[num * 10 / 8], line[num * 10 / 8 + 1], (num * 2) % 8)
  }

  lemma ByteBits(b: Byte, offset: nat)
    requires offset <= 8
    ensures Shr(Shr(b, offset), 8 - offset) == 0
  {
    ShrShr(b, offset, 8 - offset);
    ByteShiftedOut(b);
  }

  lemma ByteShiftedOut(b: Byte)
    ensures Shr(b, 8) == 0
  {
    assert Shl(1, 8) == 256;
    ShiftedOut(b, 8);
  }

  /** Nothing is left of a number below 1 << k. */
  lemma {:induction false} ShiftedOut(x: nat, k: nat)
    requires x < Shl(1, k)
    ensures Shr(x, k) == 0
    decreases k
  {
    if k == 0 {
    } else {
      ShiftedOut(x / 2, k - 1);
    }
  }

  /** What the shifts and the or make of the two bytes. */
  lemma JoinBytes(b0: Byte, b1: Byte, offset: nat)
    requires offset <= 8
    ensures Low(BitOr(Shr(b0, offset), Shl(b1, 8 - offset)), 10)
         == Low(Shr(b0, offset), 8 - offset) + Shl(Low(b1, 2 + offset), 8 - offset)
  {
    ByteBits(b0, offset);
    LowOfSmall(Shr(b0, offset), 8 - offset);
    OrOfDisjoint(Shr(b0, offset), b1, 8 - offset);
    LowOfSum(Shr(b0, offset), b1, 8 - offset, 2 + offset);
  }

  /** A field that takes the rest of one digit and goes on in the next. */
  lemma FieldInTwoDigits(digits: seq<nat>, width: nat, a: nat, off: nat, first: nat, second: nat)
    requires a + 1 < |digits| && off + first == width && second <= width && (width == 8 || width == 10)
    ensures Field(digits, width, width * a + off, first + second)
         == Low(Shr(digits[a], off), first) + Shl(Low(digits[a + 1], second), first)
  {
    var from, next := width * a + off, width * (a + 1);
    assert from + first == next;
    FieldSplit(digits, width, from, first, second);
    FieldInDigit(digits, width, a, off, first);
    FieldFromStart(digits, width, a + 1, second, next);
  }

  lemma FieldFromStart(digits: seq<nat>, width: nat, a: nat, count: nat, from: nat)
    requires a < |digits| && count <= width && (width == 8 || width == 10) && from == width * a
    ensures Field(digits, width, from, count) == Low(digits[a], count)
  {
    FieldInDigit(digits, width, a, 0, count);
  }

  lemma FieldInBytes(line: seq<Byte>, a: nat, offset: nat, from: nat)
    requires a + 1 < |line| && offset <= 6 && from == 8 * a + offset
    ensures Field(line, 8, from, 10)
         == Low(Shr(line[a], offset), 8 - offset) + Shl(Low(line[a + 1], 2 + offset), 8 - offset)
  {
    var first, second := 8 - offset, 2 + offset;
    assert first + second == 10;
    FieldInTwoDigits(line, 8, a, offset, first, second);
  }

  /** The two bytes always hold the ten bits of the sample. */
  lemma TwoBytesSuffice(line: seq<Byte>, num: nat)
    requires num * 10 / 8 + 1 < |line|
    ensures var a, offset := num * 10 / 8, (num * 2) % 8;
      Field(line, 8, num * 10, 10) == Low(BitOr(Shr(line[a], offset), Shl(line[a + 1], 8 - offset)), 10)
  {
    var a, offset := num * 10 / 8, (num * 2) % 8;
    SampleAt(num);
    FieldInBytes(line, a, offset, num * 10);
    JoinBytes(line[a], line[a + 1], offset);
  }

  /** The byte and the bit where a sample starts. */
  lemma SampleAt(num: nat)
    ensures num * 10 == 8 * (num * 10 / 8) + (num * 2) % 8 && (num * 2) % 8 <= 6
  {
    var q, r := num / 4, num % 4;
    assert num * 10 == 8 * (5 * q + r) + 2 * r && num * 2 == 8 * q + 2 * r;
    assert (num * 2) % 8 == 2 * r;
    assert (8 * (5 * q + r) + 2 * r) / 8 == 5 * q + r;
  }

  /** `fetch_data` returns the top eight of the bits [10 num, 10 num + 10) of the line's
      little-endian bit stream. */
  lemma FetchIsTopBits(line: seq<Byte>, num: nat)
    requires num * 10 < 0x1_0000_0000 && num * 10 / 8 + 1 < |line|
    ensures FetchData(line, num) == Field(line, 8, num * 10 + 2, 8)
  {
    TwoBytesSuffice(line, num);
    var f := Field(line, 8, num * 10, 10);
    var g := Field(line, 8, num * 10 + 1, 9);
    var h := Field(line, 8, num * 10 + 2, 8);
    assert f / 2 == g && g / 2 == h;
    assert Shr(f, 2) == Shr(g, 1) == Shr(h, 0);
  }

  // ---- Packing, the partner --------------------------------------------------------

  lemma {:induction false} FieldBounded(digits: seq<nat>, width: nat, from: nat, count: nat)
    requires width > 0
    ensures Field(digits, width, from, count) < Shl(1, count)
    decreases count
  {
    if count == 0 {
    } else {
      FieldBounded(digits, width, from + 1, count - 1);
    }
  }

  /** Eight bits of the stream. */
  function ByteOf(digits: seq<nat>, width: nat, from: nat): (b: Byte)
    requires width > 0
  {
    FieldBounded(digits, width, from, 8);
    assert Shl(1, 8) == 256;
    Field(digits, width, from, 8)
  }

  /** The samples as a byte stream, the last byte filled up with zeros. */
  function Pack(samples: seq<nat>): (line: seq<Byte>)
    ensures |line| == (10 * |samples| + 7) / 8
  {
    seq((10 * |samples| + 7) / 8, i requires 0 <= i < (10 * |samples| + 7) / 8 =>
      ByteOf(samples, 10, 8 * i))
  }

  lemma {:induction false} BitOfField(digits: seq<nat>, width: nat, from: nat, count: nat, m: nat)
    requires width > 0 && m < count
    ensures Shr(Field(digits, width, from, count), m) % 2 == BitAt(digits, width, from + m)
    decreases m
  {
    if m == 0 {
    } else {
      BitOfField(digits, width, from + 1, count - 1, m - 1);
      var f, rest := Field(digits, width, from, count), Field(digits, width, from + 1, count - 1);
      assert f == BitAt(digits, width, from) + 2 * rest;
      assert f / 2 == rest;
      assert Shr(f, m) == Shr(rest, m - 1);
    }
  }

  lemma {:induction false} SameField(line: seq<Byte>, samples: seq<nat>, from: nat, count: nat)
    requires line == Pack(samples) && from + count <= 8 * |line|
    ensures Field(line, 8, from, count) == Field(samples, 10, from, count)
    decreases count
  {
    if count == 0 {
    } else {
      BitOfField(samples, 10, 8 * (from / 8), 8, from % 8);
      SameField(line, samples, from + 1, count - 1);
    }
  }

  /** Packing any 10-bit samples and fetching gives each sample's top eight bits. */
  lemma PackThenFetch(samples: seq<nat>, n: nat)
    requires n < |samples| && (forall s | s in samples :: s < 1024) && n * 10 < 0x1_0000_0000
    ensures n * 10 / 8 + 1 < |Pack(samples)|
    ensures FetchData(Pack(samples), n) == samples[n] / 4
  {
    var line := Pack(samples);
    PackCovers(samples, n);
    FetchIsTopBits(line, n);
    SameField(line, samples, n * 10 + 2, 8);
    TopField(samples, n);
  }

  lemma PackCovers(samples: seq<nat>, n: nat)
    requires n < |samples|
    ensures n * 10 / 8 + 1 < |Pack(samples)| && n * 10 + 10 <= 8 * |Pack(samples)|
  {
  }

  lemma TopField(samples: seq<nat>, n: nat)
    requires n < |samples| && forall s | s in samples :: s < 1024
    ensures Field(samples, 10, n * 10 + 2, 8) == samples[n] / 4
  {
    FieldInSample(samples, n, 2, 8, n * 10 + 2);
    assert samples[n] in samples;
    TopBitsOf(samples[n]);
  }

  lemma FieldInSample(samples: seq<nat>, n: nat, off: nat, count: nat, from: nat)
    requires n < |samples| && off + count <= 10 && from == 10 * n + off
    ensures Field(samples, 10, from, count) == Low(Shr(samples[n], off), count)
  {
    FieldInDigit(samples, 10, n, off, count);
  }

  lemma TopBitsOf(s: nat)
    requires s < 1024
    ensures Low(Shr(s, 2), 8) == s / 4
  {
    assert Shr(s, 2) == Shr(s / 2, 1) == Shr(s / 4, 0);
    var t: Byte := s / 4;
    ByteBits(t, 0);
    LowOfSmall(t, 8);
  }

  // ---- The frame -------------------------------------------------------------------

  /** The rows of both planes. */
  function Rows(height: nat): (n: nat) {
    height + height / 2
  }

  /** The largest source index that converting looks at. */
  function LastRead(width: nat, height: nat): (k: nat)
    requires width > 0 && Rows(height) > 0
  {
    (Rows(height) - 1) * width + 10 * (width - 1) / 8 + 1
  }

  predicate SourceCovers(src: seq<Byte>, width: nat, height: nat) {
    width > 0 && Rows(height) > 0 ==> LastRead(width, height) < |src|
  }

  lemma RowInside(src: seq<Byte>, width: nat, height: nat, r: nat, j: nat)
    requires r < Rows(height) && j < width && SourceCovers(src, width, height)
    ensures r * width + j * 10 / 8 + 1 <= LastRead(width, height) < |src|
  {
    ReadsNoFarther(width, height, r, j);
  }

  lemma RowBefore(width: nat, r: nat, s: nat)
    requires r <= s
    ensures r * width <= s * width
  {
    var k: nat := s - r;
    assert s * width == r * width + k * width;
    assert k * width >= 0;
  }

  lemma ReadsNoFarther(width: nat, height: nat, r: nat, j: nat)
    requires r < Rows(height) && j < width
    ensures r * width + j * 10 / 8 + 1 <= LastRead(width, height)
  {
    RowBefore(width, r, Rows(height) - 1);
    ReadsInside(j, width);
  }

  /** The last sample of the last row is the one that reaches `LastRead`. */
  lemma LastReadIsReached(width: nat, height: nat)
    requires width > 0 && Rows(height) > 0
    ensures LastRead(width, height) == ReadAt(width, height + height / 2 - 1, width - 1)
    ensures forall r, j | 0 <= r < height + height / 2 && 0 <= j < width :: ReadAt(width, r, j) <= LastRead(width, height)
  {
    forall r, j | 0 <= r < Rows(height) && 0 <= j < width
      ensures ReadAt(width, r, j) <= LastRead(width, height)
    {
      ReadsNoFarther(width, height, r, j);
    }
  }

  /** The farther of the two source bytes that sample `j` of row `r` is made of. */
  function ReadAt(width: nat, r: nat, j: nat): (k: nat) {
    r * width + j * 10 / 8 + 1
  }

  /** Rows start `width` bytes apart although `width` samples take 5/4 of that: a sample is
      made of its own row's bytes exactly while it lies in the row's first four fifths,
      and the last sample of a row never is. */
  lemma InsideOwnRowIff(width: nat, r: nat, j: nat)
    requires j < width
    ensures ReadAt(width, r, j) < (r + 1) * width <==> 5 * j < 4 * (width - 1)
    ensures ReadAt(width, r, width - 1) >= (r + 1) * width
  {
    assert (r + 1) * width == r * width + width;
  }

  /** Sample `j` of source row `r`, unpacked. Rows start `width` bytes apart. */
  function SampleOf(src: seq<Byte>, width: nat, height: nat, r: nat, j: nat): (v: nat)
    requires width * 10 <= 0x1_0000_0000 && SourceCovers(src, width, height)
    requires r < Rows(height) && j < width
  {
    RowInside(src, width, height, r, j);
    FetchData(src[r * width..], j)
  }

  /** Byte `j` of row `r` of the result is the top eight bits of the ten that start `10 * j` bits
      behind byte `r * width` of the source. */
  ghost predicate IsTopBits(src: seq<Byte>, dst: seq<Byte>, width: nat, r: nat, j: nat) {
    r * width + j < |dst| && dst[r * width + j] == Field(src, 8, 8 * (r * width) + 10 * j + 2, 8)
  }

  lemma FetchFrom(src: seq<Byte>, at: nat, j: nat)
    requires j * 10 < 0x1_0000_0000 && at + j * 10 / 8 + 1 < |src|
    ensures FetchData(src[at..], j) == Field(src, 8, 8 * at + 10 * j + 2, 8)
  {
    var line := src[at..];
    FetchIsTopBits(line, j);
    FieldFrom(src, at, j * 10 + 2, 8);
    assert Field(line, 8, j * 10 + 2, 8) == Field(src, 8, 8 * at + (j * 10 + 2), 8);
  }

  lemma SampleIsTopBits(src: seq<Byte>, width: nat, height: nat, r: nat, j: nat)
    requires width * 10 <= 0x1_0000_0000 && SourceCovers(src, width, height)
    requires r < Rows(height) && j < width
    ensures SampleOf(src, width, height, r, j) == Field(src, 8, 8 * (r * width) + 10 * j + 2, 8)
  {
    RowInside(src, width, height, r, j);
    FetchFrom(src, r * width, j);
  }

  /** Whether row `r` of `dst` holds the unpacked row `r` of `src`. */
  ghost predicate RowDone(src: seq<Byte>, dst: seq<Byte>, width: nat, height: nat, r: nat)
    requires width * 10 <= 0x1_0000_0000 && SourceCovers(src, width, height) && r < Rows(height)
  {
    forall j | 0 <= j < width :: r * width + j < |dst| && dst[r * width + j] == SampleOf(src, width, height, r, j)
  }

  lemma RowIsTopBits(src: seq<Byte>, dst: seq<Byte>, width: nat, height: nat, r: nat)
    requires width * 10 <= 0x1_0000_0000 && SourceCovers(src, width, height)
    requires r < Rows(height) && RowDone(src, dst, width, height, r)
    ensures forall j | 0 <= j < width :: IsTopBits(src, dst, width, r, j)
  {
    forall j | 0 <= j < width
      ensures IsTopBits(src, dst, width, r, j)
    {
      SampleIsTopBits(src, width, height, r, j);
    }
  }

  lemma FrameIsTopBits(src: seq<Byte>, dst: seq<Byte>, width: nat, height: nat)
    requires width * 10 <= 0x1_0000_0000 && SourceCovers(src, width, height)
    requires forall r | 0 <= r < Rows(height) :: RowDone(src, dst, width, height, r)
    ensures forall r, j | 0 <= r < height + height / 2 && 0 <= j < width :: IsTopBits(src, dst, width, r, j)
  {
    forall r, j | 0 <= r < height + height / 2 && 0 <= j < width
      ensures IsTopBits(src, dst, width, r, j)
    {
      RowIsTopBits(src, dst, width, height, r);
    }
  }

  /** What was written stays within the buffer that was allocated for it. */
  lemma WritesFit(width: nat, height: nat)
    ensures (height + height / 2) * width <= height * width * 3 / 2
  {
    var h := height / 2;
    assert height == 2 * h || height == 2 * h + 1;
    assert 2 * Rows(height) <= 3 * height;
    assert (2 * Rows(height)) * width <= (3 * height) * width;
    assert height * width * 3 == (3 * height) * width;
    assert (2 * Rows(height)) * width == 2 * (Rows(height) * width);
  }

  lemma UnpackFits(b0: Byte, b1: Byte, offset: nat)
    requires offset <= 6
    ensures Unpack(b0, b1, offset) < 256
  {
    var v := Low(BitOr(Shr(b0, offset), Shl(b1, 8 - offset)), 10);
    LowBounded(BitOr(Shr(b0, offset), Shl(b1, 8 - offset)), 10);
    assert Shl(1, 10) == 1024;
    assert Shr(v, 2) == Shr(v / 2, 1) == Shr(v / 4, 0);
  }

  lemma FetchFits(line: seq<Byte>, num: nat)
    requires num * 10 < 0x1_0000_0000 && num * 10 / 8 + 1 < |line|
    ensures FetchData(line, num) < 256
  {
    SampleAt(num);
    UnpackFits(line[num * 10 / 8], line[num * 10 / 8 + 1], (num * 2) % 8);
  }

  lemma ReadsInside(j: nat, width: nat)
    requires j < width
    ensures j * 10 / 8 <= 10 * (width - 1) / 8 && j * 10 < width * 10
  {
  }

  lemma {:induction false} LowBounded(x: nat, c: nat)
    ensures Low(x, c) < Shl(1, c)
    decreases c
  {
    if c == 0 {
    } else {
      LowBounded(x / 2, c - 1);
    }
  }

  /** The inner loop: one row from `src[at..]` to `dst[to..]`. */
  method ConvertRow(src: seq<Byte>, at: nat, dst: array<Byte>, to: nat, width: nat)
    requires width * 10 <= 0x1_0000_0000 && to + width <= dst.Length
    requires width > 0 ==> at + 10 * (width - 1) / 8 + 1 < |src|
    modifies dst
    ensures width > 0 ==> at < |src|
    ensures forall j | 0 <= j < width :: j * 10 / 8 + 1 < |src[at..]|
    ensures forall j | 0 <= j < width :: dst[to + j] == FetchData(src[at..], j)
    ensures forall k | 0 <= k < dst.Length && !(to <= k < to + width) :: dst[k] == old(dst[k])
  {
    for j := 0 to width
      invariant forall i | 0 <= i < j :: dst[to + i] == FetchData(src[at..], i)
      invariant forall k | 0 <= k < dst.Length && !(to <= k < to + j) :: dst[k] == old(dst[k])
    {
      ReadsInside(j, width);
      FetchFits(src[at..], j);
      dst[to + j] := FetchData(src[at..], j);
    }
  }

  lemma RowsApart(width: nat, r: nat, s: nat)
    requires r < s
    ensures (r + 1) * width == r * width + width <= s * width
  {
    assert (r + 1) * width <= s * width;
  }

  lemma RowStays(src: seq<Byte>, before: seq<Byte>, after: seq<Byte>, width: nat, height: nat, r: nat, s: nat)
    requires width * 10 <= 0x1_0000_0000 && SourceCovers(src, width, height) && r < s <= Rows(height)
    requires |before| == |after| && RowDone(src, before, width, height, r)
    requires forall k | 0 <= k < s * width && k < |before| :: before[k] == after[k]
    ensures RowDone(src, after, width, height, r)
  {
    RowsApart(width, r, s);
  }

  /** Both loops of the source, with their two moving pointers: `srcAt` and `dstAt` start
      each plane at its base and advance by one row. `WritesFit` says that the buffer the
      caller allocates is large enough. */
  method Convert10bitTo8bit(src: seq<Byte>, dst: array<Byte>, width: nat, height: nat)
    requires width * 10 <= 0x1_0000_0000 && SourceCovers(src, width, height)
    requires (height + height / 2) * width <= dst.Length
    modifies dst
    ensures forall r, j | 0 <= r < height + height / 2 && 0 <= j < width :: IsTopBits(src, dst[..], width, r, j)
    ensures forall k | 0 <= k < dst.Length && (height + height / 2) * width <= k :: dst[k] == old(dst[k])
  {
    var srcAt, dstAt := 0, 0;
    for i := 0 to height
      invariant srcAt == dstAt == i * width
      invariant forall r | 0 <= r < i :: RowDone(src, dst[..], width, height, r)
      invariant forall k | 0 <= k < dst.Length && i * width <= k :: dst[k] == old(dst[k])
    {
      ConvertOneRow(src, srcAt, dst, dstAt, width, height, i);
      dstAt := dstAt + width;
      srcAt := srcAt + width;
    }
    srcAt := height * width;
    dstAt := width * height;
    for i := 0 to height / 2
      invariant srcAt == dstAt == (height + i) * width
      invariant forall r | 0 <= r < height + i :: RowDone(src, dst[..], width, height, r)
      invariant forall k | 0 <= k < dst.Length && (height + i) * width <= k :: dst[k] == old(dst[k])
    {
      ConvertOneRow(src, srcAt, dst, dstAt, width, height, height + i);
      dstAt := dstAt + width;
      srcAt := srcAt + width;
    }
    FrameIsTopBits(src, dst[..], width, height);
  }

  method ConvertOneRow(src: seq<Byte>, srcAt: nat, dst: array<Byte>, dstAt: nat, width: nat, height: nat, ghost r: nat)
    requires width * 10 <= 0x1_0000_0000 && SourceCovers(src, width, height)
    requires r < Rows(height) && srcAt == dstAt == r * width && Rows(height) * width <= dst.Length
    requires forall s | 0 <= s < r :: RowDone(src, dst[..], width, height, s)
    modifies dst
    ensures (r + 1) * width == r * width + width
    ensures forall s | 0 <= s < r + 1 :: RowDone(src, dst[..], width, height, s)
    ensures forall k | 0 <= k < dst.Length && (r + 1) * width <= k :: dst[k] == old(dst[k])
  {
    RowsApart(width, r, Rows(height));
    if width > 0 {
      RowInside(src, width, height, r, width - 1);
    }
    ConvertRow(src, srcAt, dst, dstAt, width);
    forall s | 0 <= s < r
      ensures RowDone(src, dst[..], width, height, s)
    {
      RowStays(src, old(dst[..]), dst[..], width, height, s, r);
    }
    assert RowDone(src, dst[..], width, height, r);
  }
}
