/** Recognising the chip from the device tree. */
module Chips {
  import opened Wrappers

  datatype ChipType =
    | Unknown | Chip2928 | Chip3036 | Chip3066 | Chip3188 | Chip3368H | Chip3128H | Chip3128M | Chip312X | Chip3326
    | Chip3288 | Chip3228A | Chip3228B | Chip3228H | Chip3328 | Chip3229 | Chip3399 | Chip3368

  datatype ChipInfo = ChipInfo(name: string, chip: ChipType)

  const CHIP_LIST: seq<ChipInfo> := [
    ChipInfo("unkown", Unknown),
    ChipInfo("rk2928", Chip2928),
    ChipInfo("rk3036", Chip3036),
    ChipInfo("rk3066", Chip3066),
    ChipInfo("rk3188", Chip3188),
    ChipInfo("rk312x", Chip312X),
    ChipInfo("rk3128h", Chip3128H),
    ChipInfo("rk3128m", Chip3128M),
    ChipInfo("rk3128", Chip312X),
    ChipInfo("rk3126", Chip312X),
    ChipInfo("rk3288", Chip3288),
    ChipInfo("rk3228a", Chip3228A),
    ChipInfo("rk3228b", Chip3228B),
    ChipInfo("rk322x", Chip3229),
    ChipInfo("rk3229", Chip3229),
    ChipInfo("rk3228h", Chip3228H),
    ChipInfo("rk3328", Chip3328),
    ChipInfo("rk3399", Chip3399),
    ChipInfo("rk3368h", Chip3368H),
    ChipInfo("rk3368", Chip3368),
    ChipInfo("rk3326", Chip3326),
    ChipInfo("px30", Chip3326)
  ]

  const NUL: char := '\0'
  const MAX_SOC_NAME_LENGTH: nat := 1024

  // ---- Strings ---------------------------------------------------------------------

  predicate OccursAt(needle: string, hay: string, k: nat) {
    k + |needle| <= |hay| && hay[k..k + |needle|] == needle
  }

  /** What `strstr` finds. */
  predicate Occurs(needle: string, hay: string) {
    exists k | 0 <= k <= |hay| :: OccursAt(needle, hay, k)
  }

  /** The string that starts at the head of a buffer: everything before its first NUL. */
  function CString(buffer: string): (r: string)
    ensures |r| <= |buffer| && r == buffer[..|r|] && NUL !in r
    ensures |r| < |buffer| ==> buffer[|r|] == NUL
  {
    if buffer == [] || buffer[0] == NUL then [] else [buffer[0]] + CString(buffer[1..])
  }

  /** A buffer that holds a terminated string. */
  predicate Terminated(buffer: string) {
    NUL in buffer
  }

  function Spaced(blob: string): (r: string) {
    seq(|blob|, i requires 0 <= i < |blob| => if blob[i] == NUL then ' ' else blob[i])
  }

  /** The strings that a list of NUL-terminated strings consists of. */
  function Strings(blob: string): (r: seq<string>)
    decreases |blob|
  {
    var head := CString(blob);
    if |head| == |blob| then [head] else [head] + Strings(blob[|head| + 1..])
  }

  /** The strings one behind the other, a NUL between any two. */
  function Joined(strings: seq<string>): (r: string)
    requires strings != []
  {
    if |strings| == 1 then strings[0] else strings[0] + [NUL] + Joined(strings[1..])
  }

  /** Taking the blob apart loses nothing, and no NUL is left inside a string. */
  lemma {:induction false} StringsJoined(blob: string)
    ensures Strings(blob) != [] && Joined(Strings(blob)) == blob
    ensures forall i | 0 <= i < |Strings(blob)| :: NUL !in Strings(blob)[i]
    decreases |blob|
  {
    var head := CString(blob);
    if |head| == |blob| {
      assert Strings(blob) == [head];
    } else {
      var rest := blob[|head| + 1..];
      var later := Strings(rest);
      StringsJoined(rest);
      assert Strings(blob) == [head] + later && ([head] + later)[1..] == later;
      assert Joined([head] + later) == head + [NUL] + Joined(later);
      assert blob == head + [NUL] + rest;
    }
  }

  // ---- The rewriting loop ----------------------------------------------------------

  method Strnlen(name: array<char>, max: nat) returns (n: nat)
    requires max <= name.Length
    ensures n <= max && (n < max ==> name[n] == NUL)
    ensures forall k | 0 <= k < n :: name[k] != NUL
  {
    n := 0;
    while n < max && name[n] != NUL
      invariant n <= max
      invariant forall k | 0 <= k < n :: name[k] != NUL
    {
      n := n + 1;
    }
  }

  function Nuls(n: nat): (r: string) {
    seq(n, _ => NUL)
  }

  /** The buffer after the loop: every NUL of the blob is a space, and a blob that does
      not end in NUL gets one space more. */
  function Rewritten(blob: string, size: nat): (r: string)
    requires 0 < |blob| < size
  {
    if blob[|blob| - 1] == NUL then Spaced(blob) + Nuls(size - |blob|)
    else Spaced(blob) + [' '] + Nuls(size - |blob| - 1)
  }

  /** The first NUL moves right at every turn, and is never beyond the byte behind the
      blob. */
  method ReplaceTerminators(name: array<char>, length: nat)
    requires name.Length == MAX_SOC_NAME_LENGTH && 0 < length < MAX_SOC_NAME_LENGTH
    requires forall k | length <= k < name.Length :: name[k] == NUL
    modifies name
    ensures name[..] == Rewritten(old(name[..length]), name.Length)
    ensures forall k | 0 <= k < length :: name[k] == if old(name[k]) == '\0' then ' ' else old(name[k])
    ensures name[length] == if old(name[length - 1]) == '\0' then '\0' else ' '
    ensures forall k | length < k < name.Length :: name[k] == '\0'
  {
    ghost var blob := name[..length];
    ghost var seen := 0;
    while true
      invariant seen <= length
      invariant seen < length || blob[length - 1] != NUL
      invariant forall k | 0 <= k < seen :: name[k] == Spaced(blob)[k] != NUL
      invariant forall k | seen <= k < length :: name[k] == blob[k]
      invariant forall k | length <= k < name.Length :: name[k] == NUL
      decreases length - seen
    {
      var ptr := Strnlen(name, MAX_SOC_NAME_LENGTH);
      assert name[length] == NUL;
      assert seen <= ptr <= length;
      name[ptr] := ' ';
      if ptr >= length - 1 {
        assert ptr == length - 1 ==> blob[length - 1] == NUL;
        assert name[..] == Rewritten(blob, name.Length);
        return;
      }
      seen := ptr + 1;
    }
  }

  /** The table entry that `match` settles on: the first whose name occurs. */
  ghost predicate FirstMatch(table: seq<ChipInfo>, text: string, infor: Option<ChipInfo>) {
    match infor
    case None => forall i | 0 <= i < |table| :: !Occurs(table[i].name, text)
    case Some(info) => exists i | 0 <= i < |table| ::
      && table[i] == info && Occurs(info.name, text)
      && forall j | 0 <= j < i :: !Occurs(table[j].name, text)
  }

  method Match(table: seq<ChipInfo>, buf: array<char>) returns (infor: Option<ChipInfo>)
    requires Terminated(buf[..])
    ensures FirstMatch(table, CString(buf[..]), infor)
  {
    for i := 0 to |table|
      invariant forall j | 0 <= j < i :: !Occurs(table[j].name, CString(buf[..]))
    {
      if Occurs(table[i].name, CString(buf[..])) {
        return Some(table[i]);
      }
    }
    return None;
  }

  /** What one read of the node delivers; the buffer keeps a byte for a terminator. */
  function ReadBytes(contents: string): (blob: string)
    ensures blob <= contents && |blob| <= 1023 && (|blob| < 1023 ==> blob == contents)
  {
    if |contents| < MAX_SOC_NAME_LENGTH then contents else contents[..MAX_SOC_NAME_LENGTH - 1]
  }

  /** The rewritten buffer is a string: the blob ends in NUL or leaves a byte free. */
  predicate Fits(blob: string) {
    |blob| < 1023 || (|blob| == 1023 && blob[1022] == '\0')
  }

  /** `node` is the contents of the device-tree node, or None when it cannot be opened or read.
      The answer is the first table entry with a name inside one of the node's strings.
      `inside` is whether the search meets a terminator in the buffer; the call ends when it
      does not. */
  method ReadDeviceTree(node: Option<string>) returns (infor: Option<ChipInfo>, inside: bool)
    ensures inside <==> node.None? || Fits(ReadBytes(node.value))
    ensures node.None? || !inside ==> infor == None
    ensures node.Some? && inside ==> FirstInStrings(CHIP_LIST, Strings(ReadBytes(node.value)), infor)
    ensures infor.Some? ==> NoneAround(CHIP_LIST, infor.value, Strings(ReadBytes(node.value)))
    ensures infor.Some? ==> infor.value.name in NamesOf(infor.value.chip)
  {
    infor, inside := None, true;
    if node.None? {
      return;
    }
    var name := new char[MAX_SOC_NAME_LENGTH](_ => NUL);
    var blob := ReadBytes(node.value);
    var length := |blob|;
    for k := 0 to length
      invariant name[..k] == blob[..k]
      invariant forall j | k <= j < name.Length :: name[j] == NUL
    {
      name[k] := blob[k];
    }
    if length > 0 {
      assert name[..length] == blob;
      ReplaceTerminators(name, length);
      RewrittenTerminated(blob);
      inside := Terminated(name[..]);
      if !inside {
        return;
      }
      infor := Match(CHIP_LIST, name);
      TableNamesPlain();
      MatchInStrings(CHIP_LIST, blob, infor);
      if infor.Some? {
        AnswerIsMostSpecific(blob, infor.value);
        ChipOfName(infor.value);
      }
    } else {
      TableNamesPlain();
      assert Strings(blob) == [[]];
    }
  }

  // ---- What the rewritten buffer says ----------------------------------------------

  /** A name that no rewriting can touch. */
  predicate Plain(name: string) {
    name != [] && NUL !in name && ' ' !in name
  }

  predicate PlainNames(table: seq<ChipInfo>) {
    forall i | 0 <= i < |table| :: Plain(table[i].name)
  }

  ghost predicate InStrings(needle: string, strings: seq<string>) {
    exists i | 0 <= i < |strings| :: Occurs(needle, strings[i])
  }

  ghost predicate FirstInStrings(table: seq<ChipInfo>, strings: seq<string>, infor: Option<ChipInfo>) {
    match infor
    case None => forall i | 0 <= i < |table| :: !InStrings(table[i].name, strings)
    case Some(info) => exists i | 0 <= i < |table| ::
      && table[i] == info && InStrings(info.name, strings)
      && forall j | 0 <= j < i :: !InStrings(table[j].name, strings)
  }

  lemma TableNamesPlain()
    ensures PlainNames(CHIP_LIST)
  {
    forall i | 0 <= i < |CHIP_LIST|
      ensures Plain(CHIP_LIST[i].name)
    {
      PlainName(i);
    }
  }

  /** No name is empty, and none contains a NUL or a space. */
  lemma PlainName(i: nat)
    requires i < |CHIP_LIST|
    ensures Plain(CHIP_LIST[i].name)
  {
    if i < 11 {
      PlainNameLow(i);
    } else {
      PlainNameHigh(i);
    }
  }

  lemma PlainNameLow(i: nat)
    requires i < 11
    ensures Plain(CHIP_LIST[i].name)
  {
    assert CHIP_LIST[i].name == CHIP_LIST[..11][i].name;
  }

  lemma PlainNameHigh(i: nat)
    requires 11 <= i < |CHIP_LIST|
    ensures Plain(CHIP_LIST[i].name)
  {
    assert CHIP_LIST[i].name == CHIP_LIST[11..][i - 11].name;
  }

  lemma {:induction false} CStringIs(text: string, rest: string)
    requires NUL !in text
    ensures CString(text + [NUL] + rest) == text
  {
    var buffer := text + [NUL] + rest;
    if text != [] {
      assert buffer[0] == text[0] && text[0] in text;
      assert buffer[1..] == text[1..] + [NUL] + rest;
      CStringIs(text[1..], rest);
    }
  }

  lemma SpacedHasNoNul(blob: string)
    ensures NUL !in Spaced(blob)
  {
  }

  /** The loop leaves a terminated string exactly when the blob ends in NUL or is shorter
      than 1023 bytes; the string is then the blob with its NULs as spaces. */
  lemma RewrittenTerminated(blob: string)
    requires 0 < |blob| < MAX_SOC_NAME_LENGTH
    ensures Terminated(Rewritten(blob, MAX_SOC_NAME_LENGTH)) <==> Fits(blob)
    ensures Fits(blob) ==>
              CString(Rewritten(blob, MAX_SOC_NAME_LENGTH)) ==
              if blob[|blob| - 1] == NUL then Spaced(blob) else Spaced(blob) + [' ']
  {
    var buffer := Rewritten(blob, MAX_SOC_NAME_LENGTH);
    SpacedHasNoNul(blob);
    var text := if blob[|blob| - 1] == NUL then Spaced(blob) else Spaced(blob) + [' '];
    assert NUL !in text;
    var free := MAX_SOC_NAME_LENGTH - |text|;
    assert buffer == text + Nuls(free);
    if free > 0 {
      assert Nuls(free) == [NUL] + Nuls(free - 1);
      assert buffer == text + [NUL] + Nuls(free - 1);
      CStringIs(text, Nuls(free - 1));
    } else {
      assert buffer == text;
    }
  }

  lemma OccursSpaced(needle: string, blob: string)
    requires Plain(needle)
    ensures Occurs(needle, Spaced(blob)) <==> Occurs(needle, blob)
  {
    forall k: nat | k + |needle| <= |blob|
      ensures OccursAt(needle, Spaced(blob), k) <==> OccursAt(needle, blob, k)
    {
      var a, b := Spaced(blob)[k..k + |needle|], blob[k..k + |needle|];
      if a == needle {
        forall i | 0 <= i < |needle| ensures b[i] == needle[i] {
          assert needle[i] == a[i] && needle[i] in needle;
        }
      }
      if b == needle {
        forall i | 0 <= i < |needle| ensures a[i] == needle[i] {
          assert needle[i] == b[i] && needle[i] in needle;
        }
      }
    }
  }

  lemma InWindow(needle: string, hay: string, k: nat, p: nat)
    requires OccursAt(needle, hay, k) && k <= p < k + |needle|
    ensures hay[p] in needle
  {
    assert hay[p] == hay[k..k + |needle|][p - k];
  }

  /** A place inside a stretch of a longer string. */
  lemma Within(needle: string, pre: string, hay: string, post: string, k: nat)
    requires k + |needle| <= |hay|
    ensures OccursAt(needle, pre + hay + post, |pre| + k) <==> OccursAt(needle, hay, k)
  {
    assert (pre + hay + post)[|pre| + k..|pre| + k + |needle|] == hay[k..k + |needle|];
  }

  /** An occurrence does not reach across a character that is not in the name. */
  lemma AcrossOnlyIf(needle: string, a: string, c: char, b: string, k: nat)
    requires needle != [] && c !in needle && OccursAt(needle, a + [c] + b, k)
    ensures Occurs(needle, a) || Occurs(needle, b)
  {
    var whole := a + [c] + b;
    if k <= |a| < k + |needle| {
      InWindow(needle, whole, k, |a|);
      assert false;
    } else if k < |a| {
      assert whole == [] + a + ([c] + b);
      Within(needle, [], a, [c] + b, k);
      assert OccursAt(needle, a, k);
    } else {
      var j := k - |a| - 1;
      assert whole == (a + [c]) + b + [];
      Within(needle, a + [c], b, [], j);
      assert OccursAt(needle, b, j);
    }
  }

  lemma AcrossIf(needle: string, a: string, c: char, b: string)
    requires Occurs(needle, a) || Occurs(needle, b)
    ensures Occurs(needle, a + [c] + b)
  {
    var whole := a + [c] + b;
    if Occurs(needle, a) {
      var k :| 0 <= k <= |a| && OccursAt(needle, a, k);
      assert whole == [] + a + ([c] + b);
      Within(needle, [], a, [c] + b, k);
      assert OccursAt(needle, whole, k);
    } else {
      var k :| 0 <= k <= |b| && OccursAt(needle, b, k);
      assert whole == (a + [c]) + b + [];
      Within(needle, a + [c], b, [], k);
      assert OccursAt(needle, whole, |a| + 1 + k);
    }
  }

  lemma OccursAcross(needle: string, a: string, c: char, b: string)
    requires needle != [] && c !in needle
    ensures Occurs(needle, a + [c] + b) <==> Occurs(needle, a) || Occurs(needle, b)
  {
    if Occurs(needle, a + [c] + b) {
      var k :| 0 <= k <= |a + [c] + b| && OccursAt(needle, a + [c] + b, k);
      AcrossOnlyIf(needle, a, c, b, k);
    } else if Occurs(needle, a) || Occurs(needle, b) {
      AcrossIf(needle, a, c, b);
      assert false;
    }
  }

  lemma NothingInEmpty(needle: string)
    requires needle != []
    ensures !Occurs(needle, [])
  {
  }

  lemma OccursPadded(needle: string, text: string)
    requires Plain(needle)
    ensures Occurs(needle, text + [' ']) <==> Occurs(needle, text)
  {
    assert text + [' '] == text + [' '] + [];
    OccursAcross(needle, text, ' ', []);
    NothingInEmpty(needle);
  }

  lemma InStringsFirst(needle: string, first: string, rest: seq<string>)
    ensures InStrings(needle, [first] + rest) <==> Occurs(needle, first) || InStrings(needle, rest)
  {
    var all := [first] + rest;
    assert all[0] == first && all[1..] == rest;
    assert forall i | 0 <= i < |rest| :: rest[i] == all[i + 1];
    if i :| 0 <= i < |rest| && Occurs(needle, rest[i]) {
      assert Occurs(needle, all[i + 1]);
    }
    if i :| 0 <= i < |all| && Occurs(needle, all[i]) {
      assert i > 0 ==> Occurs(needle, rest[i - 1]);
    }
  }

  lemma {:induction false} OccursInStrings(needle: string, blob: string)
    requires Plain(needle)
    ensures Occurs(needle, blob) <==> InStrings(needle, Strings(blob))
    decreases |blob|
  {
    var head := CString(blob);
    if |head| == |blob| {
      assert head == blob;
      assert Strings(blob) == [blob] + [];
      InStringsFirst(needle, blob, []);
    } else {
      var rest := blob[|head| + 1..];
      assert blob == head + [NUL] + rest;
      OccursAcross(needle, head, NUL, rest);
      OccursInStrings(needle, rest);
      InStringsFirst(needle, head, Strings(rest));
    }
  }

  /** A plain name occurs in the rewritten buffer exactly when it occurs inside one of the
      blob's NUL-separated strings. */
  lemma RewrittenOccurs(needle: string, blob: string)
    requires Plain(needle) && 0 < |blob| && Fits(blob)
    ensures Occurs(needle, CString(Rewritten(blob, MAX_SOC_NAME_LENGTH))) <==> InStrings(needle, Strings(blob))
  {
    RewrittenTerminated(blob);
    OccursSpaced(needle, blob);
    OccursInStrings(needle, blob);
    OccursPadded(needle, Spaced(blob));
  }

  lemma MatchInStrings(table: seq<ChipInfo>, blob: string, infor: Option<ChipInfo>)
    requires PlainNames(table) && 0 < |blob| && Fits(blob)
    requires FirstMatch(table, CString(Rewritten(blob, MAX_SOC_NAME_LENGTH)), infor)
    ensures FirstInStrings(table, Strings(blob), infor)
  {
    forall i | 0 <= i < |table|
      ensures Occurs(table[i].name, CString(Rewritten(blob, MAX_SOC_NAME_LENGTH))) <==>
              InStrings(table[i].name, Strings(blob))
    {
      RewrittenOccurs(table[i].name, blob);
    }
  }

  // ---- The order of the table ------------------------------------------------------

  /** No name is inside a later one. */
  ghost predicate LongerFirst(table: seq<ChipInfo>) {
    forall i, j | 0 <= i < j < |table| :: !Occurs(table[i].name, table[j].name)
  }

  /** Whatever is matched, no other entry with a name around the matched one occurs. */
  ghost predicate MostSpecific(table: seq<ChipInfo>, text: string) {
    forall i, j | 0 <= i < |table| && 0 <= j < |table| && i != j ::
      && Occurs(table[i].name, text) && (forall k | 0 <= k < i :: !Occurs(table[k].name, text))
      && Occurs(table[i].name, table[j].name)
      ==> !Occurs(table[j].name, text)
  }

  lemma OccursItself(name: string)
    ensures Occurs(name, name)
  {
    assert OccursAt(name, name, 0);
  }

  lemma FirstOccurring(table: seq<ChipInfo>, text: string, i: nat) returns (f: nat)
    requires i < |table| && Occurs(table[i].name, text)
    ensures f <= i && Occurs(table[f].name, text)
    ensures forall k | 0 <= k < f :: !Occurs(table[k].name, text)
  {
    f := 0;
    while !Occurs(table[f].name, text)
      invariant f <= i
      invariant forall k | 0 <= k < f :: !Occurs(table[k].name, text)
      decreases i - f
    {
      f := f + 1;
    }
  }

  lemma LongerFirstSuffices(table: seq<ChipInfo>, text: string)
    requires LongerFirst(table)
    ensures MostSpecific(table, text)
  {
  }

  lemma LongerFirstNeeded(table: seq<ChipInfo>, i: nat, j: nat)
    requires i < j < |table| && Occurs(table[i].name, table[j].name)
    ensures !MostSpecific(table, table[j].name)
  {
    var text := table[j].name;
    OccursItself(text);
    var f := FirstOccurring(table, text, i);
    assert Occurs(table[f].name, table[j].name) && Occurs(table[j].name, text) && f != j;
  }

  /** First match is most specific for every text exactly when longer names come first. */
  lemma MostSpecificIff(table: seq<ChipInfo>)
    ensures (forall text :: MostSpecific(table, text)) <==> LongerFirst(table)
  {
    if LongerFirst(table) {
      forall text ensures MostSpecific(table, text) {
        LongerFirstSuffices(table, text);
      }
    } else {
      var i, j :| 0 <= i < j < |table| && Occurs(table[i].name, table[j].name);
      LongerFirstNeeded(table, i, j);
      assert !MostSpecific(table, table[j].name);
    }
  }

  lemma NameCases(a: string, b: string)
    requires |b| <= |a| + 1 && a != [] && Occurs(a, b)
    ensures a == b || (|b| == |a| + 1 && (b[..|a|] == a || (b[1] == a[0] && b[1..] == a)))
  {
    var k :| 0 <= k <= |b| && OccursAt(a, b, k);
    if |b| == |a| {
      assert b[0..|b|] == b;
    } else if k == 0 {
    } else {
      assert b[1..|b|] == b[1..];
    }
  }

  /** The names of the table differ, and none of six letters starts a later one of seven. */
  lemma ChipNamesApart(i: nat, j: nat)
    requires i < j < |CHIP_LIST|
    ensures var a, b := CHIP_LIST[i].name, CHIP_LIST[j].name;
      && a != b && |b| <= |a| + 1
      && (|b| == |a| + 1 ==>
            && |a| == 6 && b[1] != a[0]
            && (a[0] != b[0] || a[2] != b[2] || a[3] != b[3] || a[4] != b[4] || a[5] != b[5]))
  {
  }

  /** The table's own order, "3128h first": the entry that comes back is never one whose
      name a longer name in the node extends. */
  lemma ChipListMostSpecific(text: string)
    ensures MostSpecific(CHIP_LIST, text)
  {
    forall i, j | 0 <= i < j < |CHIP_LIST| ensures !Occurs(CHIP_LIST[i].name, CHIP_LIST[j].name) {
      ChipNamesApart(i, j);
      TableNamesPlain();
      if Occurs(CHIP_LIST[i].name, CHIP_LIST[j].name) {
        NameCases(CHIP_LIST[i].name, CHIP_LIST[j].name);
      }
    }
    MostSpecificIff(CHIP_LIST);
  }

  /** The names a chip goes by. */
  function NamesOf(chip: ChipType): (names: seq<string>) {
    match chip
    case Unknown => ["unkown"]
    case Chip2928 => ["rk2928"]
    case Chip3036 => ["rk3036"]
    case Chip3066 => ["rk3066"]
    case Chip3188 => ["rk3188"]
    case Chip3368H => ["rk3368h"]
    case Chip3128H => ["rk3128h"]
    case Chip3128M => ["rk3128m"]
    case Chip312X => ["rk312x", "rk3128", "rk3126"]
    case Chip3326 => ["rk3326", "px30"]
    case Chip3288 => ["rk3288"]
    case Chip3228A => ["rk3228a"]
    case Chip3228B => ["rk3228b"]
    case Chip3228H => ["rk3228h"]
    case Chip3328 => ["rk3328"]
    case Chip3229 => ["rk322x", "rk3229"]
    case Chip3399 => ["rk3399"]
    case Chip3368 => ["rk3368"]
  }

  lemma NameOfLow(i: nat)
    requires i < 11
    ensures CHIP_LIST[i].name in NamesOf(CHIP_LIST[i].chip)
  {
    var n := NamesOf(CHIP_LIST[i].chip);
    assert n[0] in n && (|n| == 3 ==> n[1] in n && n[2] in n);
    assert CHIP_LIST[i] == CHIP_LIST[..11][i];
  }

  lemma NameOfHigh(i: nat)
    requires 11 <= i < |CHIP_LIST|
    ensures CHIP_LIST[i].name in NamesOf(CHIP_LIST[i].chip)
  {
    var n := NamesOf(CHIP_LIST[i].chip);
    assert n[0] in n && (|n| == 2 ==> n[1] in n);
    assert CHIP_LIST[i] == CHIP_LIST[11..][i - 11];
  }

  /** Every row of the table gives a chip one of its own names. */
  lemma ChipOfName(info: ChipInfo)
    requires info in CHIP_LIST
    ensures info.name in NamesOf(info.chip)
  {
    var i :| 0 <= i < |CHIP_LIST| && CHIP_LIST[i] == info;
    if i < 11 {
      NameOfLow(i);
    } else {
      NameOfHigh(i);
    }
  }

  /** No other entry with a name around the given one has its name in any of the strings. */
  ghost predicate NoneAround(table: seq<ChipInfo>, info: ChipInfo, strings: seq<string>) {
    forall j | 0 <= j < |table| && table[j].name != info.name && Occurs(info.name, table[j].name) ::
      !InStrings(table[j].name, strings)
  }

  /** End to end: of the names that contain the returned one none is in the node, so that the
      most specific name of the table is the one that is recognised. */
  lemma AnswerIsMostSpecific(blob: string, info: ChipInfo)
    requires FirstInStrings(CHIP_LIST, Strings(blob), Some(info))
    ensures info in CHIP_LIST && InStrings(info.name, Strings(blob)) && NoneAround(CHIP_LIST, info, Strings(blob))
  {
    TableNamesPlain();
    ChipListMostSpecific(blob);
    var i :| 0 <= i < |CHIP_LIST| && CHIP_LIST[i] == info && InStrings(info.name, Strings(blob))
          && forall j | 0 <= j < i :: !InStrings(CHIP_LIST[j].name, Strings(blob));
    forall k | 0 <= k < |CHIP_LIST|
      ensures Occurs(CHIP_LIST[k].name, blob) <==> InStrings(CHIP_LIST[k].name, Strings(blob))
    {
      OccursInStrings(CHIP_LIST[k].name, blob);
    }
    forall j | 0 <= j < |CHIP_LIST| && CHIP_LIST[j].name != info.name && Occurs(info.name, CHIP_LIST[j].name)
      ensures !InStrings(CHIP_LIST[j].name, Strings(blob))
    {
      assert i != j && Occurs(CHIP_LIST[i].name, blob);
    }
  }
}
