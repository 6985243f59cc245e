/** The audio settings document: which output is selected, the bitstream device nodes and
    the two format lists, and their reconciliation with what the display supports. */
module AudioSettings {
  import opened Bytes
  import opened Wrappers
  import opened Edid

  /** A row of the table that maps the formats of the document to EDID audio formats. */
  datatype Row = Row(level: int, name: string)

  const SELECT_DECODE := 0
  const SELECT_BITSTREAM := 1

  const TABLE: seq<Row> := [
    Row(AC3, "AC3"), Row(E_AC3, "EAC3"), Row(DTS, "DTS"),
    Row(DTS_HD, "DTSHD"), Row(MLP, "TRUEHD"), Row(MLP, "MLP")]

  /** `decode` and `bitstream` are the first attributes of these two elements. A device
      node without text is the empty string. */
  datatype Doc = Doc(
    decode: Option<string>, bitstream: Option<string>, devices: seq<string>,
    formats: seq<string>, decodeFormats: seq<string>)

  function RemoveFirst(s: seq<string>, x: string): (r: seq<string>) {
    if s == [] then []
    else if s[0] == x then s[1..]
    else [s[0]] + RemoveFirst(s[1..], x)
  }

  lemma {:induction false} RemoveFirstAt(s: seq<string>, x: string, i: nat)
    requires i < |s| && s[i] == x && x !in s[..i]
    ensures RemoveFirst(s, x) == s[..i] + s[i + 1..]
  {
    if i == 0 {
    } else {
      assert s[0] == s[..i][0] && s[1..][..i - 1] == s[..i][1..];
      RemoveFirstAt(s[1..], x, i - 1);
    }
  }

  lemma {:induction false} RemoveFirstNone(s: seq<string>, x: string)
    requires x !in s
    ensures RemoveFirst(s, x) == s
  {
    if s == [] {
    } else {
      RemoveFirstNone(s[1..], x);
    }
  }

  lemma MlpNotThere(formats: seq<string>)
    ensures "MLP" !in formats ==> RemoveFirst(formats, "MLP") == formats
  {
    if "MLP" !in formats {
      RemoveFirstNone(formats, "MLP");
    }
  }

  function Flag(attr: Option<string>): (v: int) {
    if attr == Some("yes") then 1 else 0
  }

  function SetFlag(attr: Option<string>, v: string): (r: Option<string>) {
    if attr.Some? then Some(v) else None
  }

  function SelectPort(d: Doc, port: int): (r: Doc) {
    if port == 0 then d.(decode := SetFlag(d.decode, "yes"), bitstream := SetFlag(d.bitstream, "no"))
    else if port == 1 then d.(decode := SetFlag(d.decode, "no"), bitstream := SetFlag(d.bitstream, "yes"))
    else d
  }

  function NameDevice(d: Doc, device: string): (r: Doc) {
    if device !in d.devices && d.devices != [] && d.devices[0] != "" then d.(devices := d.devices[0 := device])
    else d
  }

  function Select(d: Doc, device: int): (r: Doc) {
    if device == 0 then SelectPort(d, 0)
    else if device == 1 then
      var e := NameDevice(SelectPort(d, 1), "hdmi");
      if "MLP" in e.formats then e else e.(formats := e.formats + ["MLP"])
    else if device == 2 then
      var e := NameDevice(SelectPort(d, 1), "spdif");
      if "MLP" in e.formats then e.(formats := RemoveFirst(e.formats, "MLP")) else e
    else d
  }

  function Selected(d: Doc, device: int): (v: int) {
    if device == 0 then Flag(d.decode)
    else if device == 1 then (if Flag(d.bitstream) == 1 && "hdmi" in d.devices then 1 else 0)
    else if device == 2 then (if Flag(d.bitstream) == 1 && "spdif" in d.devices then 1 else 0)
    else 0
  }

  /** `close` is 0 to add and 1 to delete, as in the source. */
  function Edit(s: seq<string>, close: int, format: string): (r: seq<string>) {
    if close == 1 then RemoveFirst(s, format) else if close == 0 then s + [format] else s
  }

  function EditFormat(d: Doc, device: int, close: int, format: string): (r: Doc) {
    if device == 0 then d.(decodeFormats := Edit(d.decodeFormats, close, format))
    else if device == 1 || device == 2 then d.(formats := Edit(d.formats, close, format))
    else d
  }

  predicate Supported(audio: seq<Audio>, level: int) {
    exists a | a in audio :: a.kind == level
  }

  /** Bringing the document's list in line with one row of the table. */
  function SyncRow(formats: seq<string>, audio: seq<Audio>, row: Row): (r: seq<string>) {
    if Supported(audio, row.level) then
      if row.name in formats then formats else formats + [row.name]
    else
      if row.name in formats then RemoveFirst(formats, row.name) else formats
  }

  function Sync(formats: seq<string>, audio: seq<Audio>, rows: seq<Row>): (r: seq<string>) {
    if rows == [] then formats
    else SyncRow(Sync(formats, audio, rows[..|rows| - 1]), audio, rows[|rows| - 1])
  }

  /** The reads of the EDID node: the base block, and then the extension blocks. */
  datatype EdidNode = EdidNode(base: seq<Byte>, chunks: seq<seq<Byte>>)

  /** A read gives a block at most. */
  predicate BlockReads(node: EdidNode) {
    |node.base| <= EDID_BLOCK_SIZE && ChunksFit(node.chunks)
  }

  /** No data block of the node reaches past its extension block. */
  predicate Readable(node: EdidNode) {
    BlockReads(node) && ParsedNode(node.base, node.chunks, NO_INFOR).Some?
  }

  function ParsedAudio(node: EdidNode): (r: seq<Audio>)
    requires Readable(node)
  {
    ParsedNode(node.base, node.chunks, NO_INFOR).value.audio
  }

  class RkAudioSettingManager {
    var decode: Option<string>
    var bitstream: Option<string>
    var devices: seq<string>
    var formats: seq<string>
    var decodeFormats: seq<string>

    ghost function View(): (d: Doc)
      reads this
    {
      Doc(decode, bitstream, devices, formats, decodeFormats)
    }

    method GetBitstreamFormat(ch: string) returns (ret: int)
      ensures ret == if ch in formats then 1 else 0
    {
      var i := 0;
      while i < |formats|
        invariant i <= |formats| && ch !in formats[..i]
      {
        if formats[i] == ch {
          return 1;
        }
        i := i + 1;
      }
      ret := 0;
    }

    method GetDecodeFormat(ch: string) returns (ret: int)
      ensures ret == if ch in decodeFormats then 1 else 0
    {
      var i := 0;
      while i < |decodeFormats|
        invariant i <= |decodeFormats| && ch !in decodeFormats[..i]
      {
        if decodeFormats[i] == ch {
          return 1;
        }
        i := i + 1;
      }
      ret := 0;
    }

    /** `getFormat`: devices 1 and 2 share the bitstream list. */
    method GetFormat(device: int, format: string) returns (ret: int)
      ensures device == 0 ==> ret == if format in decodeFormats then 1 else 0
      ensures device == 1 || device == 2 ==> ret == if format in formats then 1 else 0
      ensures !(0 <= device <= 2) ==> ret == 0
    {
      ret := 0;
      if device == 0 {
        ret := GetDecodeFormat(format);
      } else if device == 1 || device == 2 {
        ret := GetBitstreamFormat(format);
      }
    }

    method GetBitstreamDevice(device: string) returns (ret: int)
      requires device != ""
      ensures ret == if device in devices then 1 else 0
    {
      var i := 0;
      while i < |devices|
        invariant i <= |devices| && device !in devices[..i]
      {
        if devices[i] != "" {
          if devices[i] == device {
            return 1;
          }
        }
        i := i + 1;
      }
      ret := 0;
    }

    method AddFormatNode(port: int, format: string)
      requires port == SELECT_DECODE || port == SELECT_BITSTREAM
      modifies this`formats, this`decodeFormats
      ensures if port == SELECT_DECODE then decodeFormats == old(decodeFormats) + [format] && formats == old(formats)
              else formats == old(formats) + [format] && decodeFormats == old(decodeFormats)
    {
      if port == SELECT_DECODE {
        decodeFormats := decodeFormats + [format];
      } else {
        formats := formats + [format];
      }
    }

    /** Walks the nodes of one list and removes the first match. */
    method DelectFormatNode(port: int, format: string)
      requires port == SELECT_DECODE || port == SELECT_BITSTREAM
      modifies this`formats, this`decodeFormats
      ensures if port == SELECT_DECODE then decodeFormats == RemoveFirst(old(decodeFormats), format) && formats == old(formats)
              else formats == RemoveFirst(old(formats), format) && decodeFormats == old(decodeFormats)
    {
      var nodes := if port == SELECT_DECODE then decodeFormats else formats;
      var i := 0;
      while i < |nodes|
        invariant i <= |nodes| && formats == old(formats) && decodeFormats == old(decodeFormats)
        invariant format !in nodes[..i]
      {
        if nodes[i] == format {
          RemoveFirstAt(nodes, format, i);
          if port == SELECT_DECODE {
            decodeFormats := nodes[..i] + nodes[i + 1..];
          } else {
            formats := nodes[..i] + nodes[i + 1..];
          }
          return;
        }
        i := i + 1;
      }
      assert nodes[..i] == nodes;
      RemoveFirstNone(nodes, format);
    }

    method SetFormat(device: int, close: int, format: string)
      modifies this`formats, this`decodeFormats
      ensures View() == EditFormat(old(View()), device, close, format)
      ensures device == 0 ==>
        && formats == old(formats)
        && (close == 0 ==> decodeFormats == old(decodeFormats) + [format])
        && (close == 1 ==> decodeFormats == RemoveFirst(old(decodeFormats), format))
      ensures device == 1 || device == 2 ==>
        && decodeFormats == old(decodeFormats)
        && (close == 0 ==> formats == old(formats) + [format])
        && (close == 1 ==> formats == RemoveFirst(old(formats), format))
      ensures !(0 <= device <= 2) || !(0 <= close <= 1) ==> formats == old(formats) && decodeFormats == old(decodeFormats)
    {
      if 0 <= device <= 2 {
        var port := if device == 0 then SELECT_DECODE else SELECT_BITSTREAM;
        if close == 1 {
          DelectFormatNode(port, format);
        } else if close == 0 {
          AddFormatNode(port, format);
        }
      }
    }

    /** The first device node must exist: the source does not check it. */
    method SetBitstreamDevice(device: string)
      requires devices != []
      modifies this`devices
      ensures devices == if old(devices)[0] != "" then old(devices)[0 := device] else old(devices)
    {
      if devices[0] != "" {
        devices := devices[0 := device];
      }
    }

    method SetAudioSettingSelect(port: int)
      modifies this`decode, this`bitstream
      ensures View() == SelectPort(old(View()), port)
      ensures port == 0 ==> (decode.None? || decode == Some("yes")) && (bitstream.None? || bitstream == Some("no"))
      ensures port == 1 ==> (decode.None? || decode == Some("no")) && (bitstream.None? || bitstream == Some("yes"))
      ensures (decode.None? <==> old(decode).None?) && (bitstream.None? <==> old(bitstream).None?)
    {
      if port == 0 {
        decode, bitstream := SetFlag(decode, "yes"), SetFlag(bitstream, "no");
      } else if port == 1 {
        decode, bitstream := SetFlag(decode, "no"), SetFlag(bitstream, "yes");
      }
    }

    /** The source renames the first device node without checking that there is one. */
    method SetSelect(device: int)
      requires (device == 1 && "hdmi" !in devices) || (device == 2 && "spdif" !in devices) ==> devices != []
      modifies this
      ensures View() == Select(old(View()), device)
      ensures decodeFormats == old(decodeFormats)
      ensures device == 1 ==> formats == if "MLP" in old(formats) then old(formats) else old(formats) + ["MLP"]
      ensures device == 2 ==> formats == RemoveFirst(old(formats), "MLP")
      ensures device != 1 && device != 2 ==> formats == old(formats) && devices == old(devices)
    {
      MlpNotThere(formats);
      if device == 0 {
        SetAudioSettingSelect(0);
      } else if device == 1 {
        SetAudioSettingSelect(1);
        var listed := GetBitstreamDevice("hdmi");
        if listed != 1 {
          SetBitstreamDevice("hdmi");
        }
        var mlp := GetBitstreamFormat("MLP");
        if mlp == 0 {
          AddFormatNode(SELECT_BITSTREAM, "MLP");
        }
      } else if device == 2 {
        SetAudioSettingSelect(1);
        var listed := GetBitstreamDevice("spdif");
        if listed != 1 {
          SetBitstreamDevice("spdif");
        }
        var mlp := GetBitstreamFormat("MLP");
        if mlp == 1 {
          DelectFormatNode(SELECT_BITSTREAM, "MLP");
        }
      }
    }

    method GetSelect(device: int) returns (ret: int)
      ensures ret == Selected(View(), device)
      ensures ret == 1 <==>
        || (device == 0 && decode == Some("yes"))
        || (device == 1 && bitstream == Some("yes") && "hdmi" in devices)
        || (device == 2 && bitstream == Some("yes") && "spdif" in devices)
    {
      ret := 0;
      if device == 0 {
        ret := Flag(decode);
      } else if device == 1 {
        if Flag(bitstream) == 1 {
          ret := GetBitstreamDevice("hdmi");
        }
      } else if device == 2 {
        if Flag(bitstream) == 1 {
          ret := GetBitstreamDevice("spdif");
        }
      }
    }

    /** `node` is what reading the EDID node gives, None when it cannot be opened. */
    method UpdataFormatForAutoMode(node: Option<EdidNode>) returns (inside: bool)
      requires node.Some? ==> BlockReads(node.value)
      modifies this`formats, this`decodeFormats
      ensures inside <==> node.None? || Readable(node.value)
      ensures View() == old(View()).(formats :=
        if node.None? || !inside then old(formats) else Sync(old(formats), ParsedAudio(node.value), TABLE))
    {
      inside := true;
      if node.Some? {
        var hdmi := new HdmiAudioInfors();
        inside := hdmi.ParseHdmiAudio(node.value.base, node.value.chunks);
        if !inside {
          return;
        }
        SyncFormats(hdmi);
      }
    }

    /** The loop over the table. */
    method SyncFormats(hdmi: HdmiAudioInfors)
      modifies this`formats, this`decodeFormats
      ensures View() == old(View()).(formats := Sync(old(formats), hdmi.audio, TABLE))
    {
      for i := 0 to |TABLE|
        invariant View() == old(View()).(formats := Sync(old(formats), hdmi.audio, TABLE[..i]))
      {
        assert TABLE[..i + 1][..i] == TABLE[..i];
        var row := TABLE[i];
        var supported := hdmi.IsSupportFormat(row.level);
        var listed := GetBitstreamFormat(row.name);
        if supported {
          if listed == 0 {
            AddFormatNode(SELECT_BITSTREAM, row.name);
          }
        } else {
          if listed == 1 {
            DelectFormatNode(SELECT_BITSTREAM, row.name);
          }
        }
      }
      assert TABLE[..|TABLE|] == TABLE;
    }
  }

  // ---- Reconciliation --------------------------------------------------------------

  function Count(s: seq<string>, x: string): (n: nat) {
    multiset(s)[x]
  }

  lemma {:induction false} RemoveFirstCount(s: seq<string>, x: string)
    ensures multiset(RemoveFirst(s, x)) == multiset(s) - multiset{x}
  {
    if s == [] {
    } else {
      assert s == [s[0]] + s[1..];
      RemoveFirstCount(s[1..], x);
    }
  }

  lemma InCount(s: seq<string>, x: string)
    ensures x in s <==> Count(s, x) > 0
  {
  }

  /** The rows name pairwise different formats. */
  ghost predicate DistinctNames(rows: seq<Row>) {
    forall i, j | 0 <= i < j < |rows| :: rows[i].name != rows[j].name
  }

  lemma TableNamesDistinct()
    ensures DistinctNames(TABLE)
  {
    assert "AC3"[0] == 'A' && "EAC3"[0] == 'E' && "DTS"[0] == 'D' && "MLP"[0] == 'M' && "TRUEHD"[0] == 'T';
    assert |"DTS"| == 3 && |"DTSHD"| == 5 && |"TRUEHD"| == 6 && "DTSHD"[0] == 'D';
  }

  ghost predicate Named(rows: seq<Row>, x: string) {
    exists row | row in rows :: row.name == x
  }

  /** How often a format occurs after the row for it, if any, has been gone through. */
  function SyncedCount(n: nat, supported: bool): (r: nat) {
    if supported then (if n == 0 then 1 else n) else (if n == 0 then 0 else n - 1)
  }

  lemma RowCount(formats: seq<string>, audio: seq<Audio>, row: Row, x: string)
    ensures Count(SyncRow(formats, audio, row), x) ==
      if x == row.name then SyncedCount(Count(formats, x), Supported(audio, row.level)) else Count(formats, x)
  {
    InCount(formats, row.name);
    RemoveFirstCount(formats, row.name);
  }

  /** What reconciliation does, for any list whatever: a supported format is there at
      least once, an unsupported one occurs once less, and others are not touched. */
  lemma {:induction false} SyncCount(formats: seq<string>, audio: seq<Audio>, rows: seq<Row>)
    requires DistinctNames(rows)
    ensures forall row | row in rows ::
      Count(Sync(formats, audio, rows), row.name) == SyncedCount(Count(formats, row.name), Supported(audio, row.level))
    ensures forall x | !Named(rows, x) :: Count(Sync(formats, audio, rows), x) == Count(formats, x)
  {
    if rows == [] {
    } else {
      var n := |rows| - 1;
      var before, last := rows[..n], rows[n];
      assert rows == before + [last] && last in rows;
      SyncCount(formats, audio, before);
      assert !Named(before, last.name);
      forall row | row in rows
        ensures Count(Sync(formats, audio, rows), row.name) == SyncedCount(Count(formats, row.name), Supported(audio, row.level))
      {
        RowCount(Sync(formats, audio, before), audio, last, row.name);
      }
      forall x | !Named(rows, x)
        ensures Count(Sync(formats, audio, rows), x) == Count(formats, x)
      {
        assert forall row | row in before :: row in rows;
        RowCount(Sync(formats, audio, before), audio, last, x);
      }
    }
  }

  /** Every format of the table is listed exactly when its level is supported. */
  ghost predicate InLine(formats: seq<string>, audio: seq<Audio>, rows: seq<Row>) {
    forall row | row in rows :: row.name in formats <==> Supported(audio, row.level)
  }

  /** No format that has to go is listed twice. */
  ghost predicate NoDuplicateToDrop(formats: seq<string>, audio: seq<Audio>, rows: seq<Row>) {
    forall row | row in rows && !Supported(audio, row.level) :: Count(formats, row.name) <= 1
  }

  /** Reconciliation brings the list in line exactly when nothing that has to go was
      listed twice. */
  lemma SyncBringsInLine(formats: seq<string>, audio: seq<Audio>)
    ensures InLine(Sync(formats, audio, TABLE), audio, TABLE) <==> NoDuplicateToDrop(formats, audio, TABLE)
  {
    TableNamesDistinct();
    SyncCount(formats, audio, TABLE);
    var r := Sync(formats, audio, TABLE);
    forall row | row in TABLE
      ensures row.name in r <==> Supported(audio, row.level) || Count(formats, row.name) > 1
    {
      InCount(r, row.name);
    }
  }

  lemma SyncKeepsAtMostOnce(formats: seq<string>, audio: seq<Audio>)
    requires forall row | row in TABLE :: Count(formats, row.name) <= 1
    ensures forall row | row in TABLE :: Count(Sync(formats, audio, TABLE), row.name) <= 1
    ensures InLine(Sync(formats, audio, TABLE), audio, TABLE)
  {
    TableNamesDistinct();
    SyncCount(formats, audio, TABLE);
    SyncBringsInLine(formats, audio);
  }

  predicate IsTableName(x: string) {
    x in ["AC3", "EAC3", "DTS", "DTSHD", "TRUEHD", "MLP"]
  }

  /** The rows of the table by name: if none of the six names is listed twice, then afterwards
      each is listed exactly when the display has a descriptor of the audio format with the
      number given below, and every other format as often as before. */
  lemma SyncByName(formats: seq<string>, audio: seq<Audio>)
    requires forall x | IsTableName(x) :: Count(formats, x) <= 1
    ensures var r := Sync(formats, audio, TABLE);
      && ("AC3" in r <==> exists a | a in audio :: a.kind == 2)
      && ("EAC3" in r <==> exists a | a in audio :: a.kind == 10)
      && ("DTS" in r <==> exists a | a in audio :: a.kind == 7)
      && ("DTSHD" in r <==> exists a | a in audio :: a.kind == 11)
      && ("TRUEHD" in r <==> exists a | a in audio :: a.kind == 12)
      && ("MLP" in r <==> exists a | a in audio :: a.kind == 12)
      && forall x | !IsTableName(x) :: Count(r, x) == Count(formats, x)
  {
    TableByName();
    SyncKeepsAtMostOnce(formats, audio);
    TableNamesDistinct();
    SyncCount(formats, audio, TABLE);
  }

  lemma TableByName()
    ensures TABLE == [Row(2, "AC3"), Row(10, "EAC3"), Row(7, "DTS"), Row(11, "DTSHD"), Row(12, "TRUEHD"), Row(12, "MLP")]
    ensures forall x :: Named(TABLE, x) <==> IsTableName(x)
  {
    var rows := [Row(2, "AC3"), Row(10, "EAC3"), Row(7, "DTS"), Row(11, "DTSHD"), Row(12, "TRUEHD"), Row(12, "MLP")];
    assert TABLE == rows;
    assert rows[0] in rows && rows[1] in rows && rows[2] in rows && rows[3] in rows && rows[4] in rows && rows[5] in rows;
  }

  lemma {:induction false} InLineIsFixed(formats: seq<string>, audio: seq<Audio>, rows: seq<Row>)
    requires InLine(formats, audio, rows)
    ensures Sync(formats, audio, rows) == formats
  {
    if rows == [] {
    } else {
      assert forall row | row in rows[..|rows| - 1] :: row in rows;
      InLineIsFixed(formats, audio, rows[..|rows| - 1]);
      assert rows[|rows| - 1] in rows;
    }
  }

  /** A second run with the same EDID changes nothing, exactly when nothing that has to
      go was listed twice to begin with. */
  lemma SecondSyncChangesNothing(formats: seq<string>, audio: seq<Audio>)
    ensures var r := Sync(formats, audio, TABLE);
      Sync(r, audio, TABLE) == r <==> NoDuplicateToDrop(formats, audio, TABLE)
  {
    var r := Sync(formats, audio, TABLE);
    SyncBringsInLine(formats, audio);
    if NoDuplicateToDrop(formats, audio, TABLE) {
      InLineIsFixed(r, audio, TABLE);
    } else {
      TableNamesDistinct();
      SyncCount(formats, audio, TABLE);
      SyncCount(r, audio, TABLE);
      var row :| row in TABLE && !Supported(audio, row.level) && Count(formats, row.name) > 1;
      assert Count(r, row.name) == Count(formats, row.name) - 1;
      assert Count(Sync(r, audio, TABLE), row.name) == Count(formats, row.name) - 2;
    }
  }

  predicate NamedIn(rows: seq<Row>, x: string) {
    rows != [] && (rows[|rows| - 1].name == x || NamedIn(rows[..|rows| - 1], x))
  }

  /** The formats of the list that no row names, in their order. */
  function Others(s: seq<string>, rows: seq<Row>): (r: seq<string>) {
    if s == [] then []
    else (if NamedIn(rows, s[0]) then [] else [s[0]]) + Others(s[1..], rows)
  }

  lemma {:induction false} OthersAppend(s: seq<string>, x: string, rows: seq<Row>)
    ensures Others(s + [x], rows) == Others(s, rows) + if NamedIn(rows, x) then [] else [x]
  {
    if s == [] {
    } else {
      OthersAppend(s[1..], x, rows);
      assert (s + [x])[1..] == s[1..] + [x];
    }
  }

  lemma {:induction false} OthersRemove(s: seq<string>, x: string, rows: seq<Row>)
    requires NamedIn(rows, x)
    ensures Others(RemoveFirst(s, x), rows) == Others(s, rows)
  {
    if s == [] || s[0] == x {
    } else {
      OthersRemove(s[1..], x, rows);
      assert RemoveFirst(s, x)[1..] == RemoveFirst(s[1..], x);
    }
  }

  /** The formats outside the table stay, in their order, through the first `n` rows. */
  lemma {:induction false} OthersKept(formats: seq<string>, audio: seq<Audio>, rows: seq<Row>, all: seq<Row>)
    requires forall row | row in rows :: NamedIn(all, row.name)
    ensures Others(Sync(formats, audio, rows), all) == Others(formats, all)
  {
    if rows == [] {
    } else {
      var before, last := rows[..|rows| - 1], rows[|rows| - 1];
      assert last in rows && forall row | row in before :: row in rows;
      OthersKept(formats, audio, before, all);
      OthersAppend(Sync(formats, audio, before), last.name, all);
      OthersRemove(Sync(formats, audio, before), last.name, all);
    }
  }

  lemma {:induction false} RowsAreNamed(rows: seq<Row>)
    ensures forall row | row in rows :: NamedIn(rows, row.name)
  {
    if rows == [] {
    } else {
      RowsAreNamed(rows[..|rows| - 1]);
    }
  }

  lemma SyncKeepsOthersInOrder(formats: seq<string>, audio: seq<Audio>)
    ensures Others(Sync(formats, audio, TABLE), TABLE) == Others(formats, TABLE)
  {
    RowsAreNamed(TABLE);
    OthersKept(formats, audio, TABLE, TABLE);
  }

  /** The list without one of each format that a row names and the display does not support. */
  function Dropped(formats: seq<string>, audio: seq<Audio>, rows: seq<Row>): (r: seq<string>) {
    if rows == [] then formats
    else
      var before, last := Dropped(formats, audio, rows[..|rows| - 1]), rows[|rows| - 1];
      if Supported(audio, last.level) then before else RemoveFirst(before, last.name)
  }

  /** The supported formats that the list lacks, in the order of the rows. */
  function Missing(formats: seq<string>, audio: seq<Audio>, rows: seq<Row>): (r: seq<string>) {
    if rows == [] then []
    else
      var before, last := Missing(formats, audio, rows[..|rows| - 1]), rows[|rows| - 1];
      before + if Supported(audio, last.level) && last.name !in formats then [last.name] else []
  }

  lemma {:induction false} RemoveFromFront(a: seq<string>, b: seq<string>, x: string)
    requires x !in b
    ensures RemoveFirst(a + b, x) == RemoveFirst(a, x) + b
  {
    if a == [] {
      assert a + b == b;
      RemoveFirstNone(b, x);
    } else {
      assert (a + b)[1..] == a[1..] + b;
      RemoveFromFront(a[1..], b, x);
    }
  }

  /** Dropping and adding go by the rows that are named, and touch no other format. */
  lemma {:induction false} RowsTouchTheirOwn(formats: seq<string>, audio: seq<Audio>, rows: seq<Row>, x: string)
    requires !Named(rows, x)
    ensures x in Dropped(formats, audio, rows) <==> x in formats
    ensures x !in Missing(formats, audio, rows)
  {
    if rows == [] {
    } else {
      var before, last := rows[..|rows| - 1], rows[|rows| - 1];
      assert last in rows && last.name != x && forall row | row in before :: row in rows;
      RowsTouchTheirOwn(formats, audio, before, x);
      var d := Dropped(formats, audio, before);
      RemoveFirstCount(d, last.name);
      InCount(d, x);
      InCount(RemoveFirst(d, last.name), x);
    }
  }

  /** Row by row comes to the same as dropping first and adding at the end: what stays keeps its
      order, in front of what is new, which comes in the order of the rows. */
  lemma {:induction false} SyncDropsThenAppends(formats: seq<string>, audio: seq<Audio>, rows: seq<Row>)
    requires DistinctNames(rows)
    ensures Sync(formats, audio, rows) == Dropped(formats, audio, rows) + Missing(formats, audio, rows)
  {
    if rows == [] {
    } else {
      var before, last := rows[..|rows| - 1], rows[|rows| - 1];
      SyncDropsThenAppends(formats, audio, before);
      assert !Named(before, last.name);
      RowsTouchTheirOwn(formats, audio, before, last.name);
      RemoveFromFront(Dropped(formats, audio, before), Missing(formats, audio, before), last.name);
      if last.name !in formats {
        RemoveFirstNone(Dropped(formats, audio, before), last.name);
      }
    }
  }

  // ---- Selecting an output ---------------------------------------------------------

  predicate OnlySelected(d: Doc, device: int) {
    forall k | 0 <= k <= 2 :: Selected(d, k) == if k == device then 1 else 0
  }

  /** The device name an output goes by in the document, and the other one. */
  function DeviceName(device: int): (r: string) {
    if device == 1 then "hdmi" else "spdif"
  }

  /** The device nodes that keep their text when `device` is selected. */
  function KeptNodes(devices: seq<string>, device: int): (r: seq<string>) {
    if DeviceName(device) in devices || devices == [] || devices[0] == "" then devices else devices[1..]
  }

  /** Selecting an output selects it alone exactly when the flag it needs can be set and, for
      a bitstream output, the device list can name it and no node that keeps its text names
      the other bitstream output. */
  lemma SelectIsExclusiveIff(d: Doc, device: int)
    requires 0 <= device <= 2
    ensures OnlySelected(Select(d, device), device) <==>
      if device == 0 then d.decode.Some?
      else
        && d.bitstream.Some?
        && (DeviceName(device) in d.devices || (d.devices != [] && d.devices[0] != ""))
        && DeviceName(3 - device) !in KeptNodes(d.devices, device)
  {
    assert "yes" != "no" && |"hdmi"| == 4 && |"spdif"| == 5;
    var e := Select(d, device);
    if device != 0 {
      assert Flag(e.decode) == 0;
      assert Flag(e.bitstream) == 1 <==> d.bitstream.Some?;
      var name, other := DeviceName(device), DeviceName(3 - device);
      assert name != other;
      if name !in d.devices && d.devices != [] && d.devices[0] != "" {
        assert e.devices == [name] + d.devices[1..];
        assert name in e.devices;
        assert other in e.devices <==> other in d.devices[1..];
      } else {
        assert e.devices == d.devices;
      }
      assert Selected(e, 0) == 0;
      assert OnlySelected(e, device) <==> Selected(e, device) == 1 && Selected(e, 3 - device) == 0;
    } else {
      assert Selected(e, 0) == 1 <==> d.decode.Some?;
      assert Selected(e, 1) == 0 && Selected(e, 2) == 0;
      assert OnlySelected(e, 0) <==> Selected(e, 0) == 1;
    }
  }

  /** With one device node that has a text it always does. */
  lemma SelectIsExclusive(d: Doc, device: int)
    requires 0 <= device <= 2 && d.decode.Some? && d.bitstream.Some?
    requires |d.devices| == 1 && d.devices[0] != ""
    ensures OnlySelected(Select(d, device), device)
  {
    SelectIsExclusiveIff(d, device);
    assert |"hdmi"| == 4 && |"spdif"| == 5;
  }

  // ---- Runs of the public interface ------------------------------------------------

  /** A public call; an update carries the audio descriptors that were parsed, or nothing if
      the EDID node could not be opened. */
  datatype Call =
    | SetSelect(device: int)
    | SetFormat(device: int, close: int, format: string)
    | Update(hdmi: Option<seq<Audio>>)

  function Apply(d: Doc, call: Call): (r: Doc) {
    match call
    case SetSelect(device) => Select(d, device)
    case SetFormat(device, close, format) => EditFormat(d, device, close, format)
    case Update(hdmi) =>
      if hdmi.Some? then d.(formats := Sync(d.formats, hdmi.value, TABLE)) else d
  }

  function After(d: Doc, calls: seq<Call>): (r: Doc) {
    if calls == [] then d else Apply(After(d, calls[..|calls| - 1]), calls[|calls| - 1])
  }

  function BagRow(bag: multiset<string>, audio: seq<Audio>, row: Row): (r: multiset<string>) {
    if !Supported(audio, row.level) then bag - multiset{row.name}
    else if row.name in bag then bag
    else bag + multiset{row.name}
  }

  function BagSync(bag: multiset<string>, audio: seq<Audio>, rows: seq<Row>): (r: multiset<string>) {
    if rows == [] then bag
    else BagRow(BagSync(bag, audio, rows[..|rows| - 1]), audio, rows[|rows| - 1])
  }

  /** The bitstream format list as a bag: adding increments, deleting removes one. */
  function BagStep(bag: multiset<string>, call: Call): (r: multiset<string>) {
    match call
    case SetSelect(device) =>
      if device == 1 && "MLP" !in bag then bag + multiset{"MLP"}
      else if device == 2 then bag - multiset{"MLP"}
      else bag
    case SetFormat(device, close, format) =>
      if device != 1 && device != 2 then bag
      else if close == 1 then bag - multiset{format}
      else if close == 0 then bag + multiset{format}
      else bag
    case Update(hdmi) => if hdmi.Some? then BagSync(bag, hdmi.value, TABLE) else bag
  }

  /** The decode list as a bag: only editing the formats of output 0 changes it. */
  function DecodeBagStep(bag: multiset<string>, call: Call): (r: multiset<string>) {
    if !call.SetFormat? || call.device != 0 then bag
    else if call.close == 0 then bag + multiset{call.format}
    else if call.close == 1 then bag - multiset{call.format}
    else bag
  }

  function DecodeBagAfter(bag: multiset<string>, calls: seq<Call>): (r: multiset<string>) {
    if calls == [] then bag else DecodeBagStep(DecodeBagAfter(bag, calls[..|calls| - 1]), calls[|calls| - 1])
  }

  function BagAfter(bag: multiset<string>, calls: seq<Call>): (r: multiset<string>) {
    if calls == [] then bag else BagStep(BagAfter(bag, calls[..|calls| - 1]), calls[|calls| - 1])
  }

  lemma RowIsBagRow(formats: seq<string>, audio: seq<Audio>, row: Row)
    ensures multiset(SyncRow(formats, audio, row)) == BagRow(multiset(formats), audio, row)
  {
    RemoveIsBagRemove(formats, row.name);
  }

  lemma RemoveIsBagRemove(s: seq<string>, x: string)
    ensures multiset(RemoveFirst(s, x)) == multiset(s) - multiset{x}
    ensures x !in s ==> multiset(s) - multiset{x} == multiset(s)
    ensures x in s <==> x in multiset(s)
  {
    RemoveFirstCount(s, x);
  }

  lemma {:induction false} SyncIsBagSync(formats: seq<string>, audio: seq<Audio>, rows: seq<Row>)
    ensures multiset(Sync(formats, audio, rows)) == BagSync(multiset(formats), audio, rows)
  {
    if rows == [] {
    } else {
      SyncIsBagSync(formats, audio, rows[..|rows| - 1]);
      RowIsBagRow(Sync(formats, audio, rows[..|rows| - 1]), audio, rows[|rows| - 1]);
    }
  }

  lemma NamingKeepsFormats(d: Doc, port: int, device: string)
    ensures var e := NameDevice(SelectPort(d, port), device); e.formats == d.formats && |e.devices| == |d.devices|
  {
  }

  lemma SelectIsBagStep(d: Doc, device: int)
    ensures multiset(Select(d, device).formats) == BagStep(multiset(d.formats), SetSelect(device))
    ensures |Select(d, device).devices| == |d.devices| && Select(d, device).decodeFormats == d.decodeFormats
  {
    if device == 1 {
      NamingKeepsFormats(d, 1, "hdmi");
      MlpAdded(d.formats);
    } else if device == 2 {
      NamingKeepsFormats(d, 1, "spdif");
      MlpRemoved(d.formats);
    }
  }

  lemma MlpAdded(formats: seq<string>)
    ensures multiset(if "MLP" in formats then formats else formats + ["MLP"])
         == if "MLP" in multiset(formats) then multiset(formats) else multiset(formats) + multiset{"MLP"}
  {
    RemoveIsBagRemove(formats, "MLP");
  }

  lemma MlpRemoved(formats: seq<string>)
    ensures multiset(if "MLP" in formats then RemoveFirst(formats, "MLP") else formats) == multiset(formats) - multiset{"MLP"}
  {
    RemoveIsBagRemove(formats, "MLP");
  }

  lemma EditIsBagStep(d: Doc, device: int, close: int, format: string)
    ensures multiset(EditFormat(d, device, close, format).formats) == BagStep(multiset(d.formats), SetFormat(device, close, format))
    ensures multiset(EditFormat(d, device, close, format).decodeFormats)
         == DecodeBagStep(multiset(d.decodeFormats), SetFormat(device, close, format))
  {
    RemoveIsBagRemove(d.formats, format);
    RemoveIsBagRemove(d.decodeFormats, format);
  }

  lemma StepIsBagStep(d: Doc, call: Call)
    ensures multiset(Apply(d, call).formats) == BagStep(multiset(d.formats), call)
    ensures multiset(Apply(d, call).decodeFormats) == DecodeBagStep(multiset(d.decodeFormats), call)
    ensures |Apply(d, call).devices| == |d.devices|
  {
    match call
    case SetSelect(device) => SelectIsBagStep(d, device);
    case SetFormat(device, close, format) => EditIsBagStep(d, device, close, format);
    case Update(hdmi) => if hdmi.Some? { SyncIsBagSync(d.formats, hdmi.value, TABLE); }
  }

  /** Over every sequence of public calls the bitstream and the decode list behave as their bags,
      a format is reported exactly when its count is positive, and the number of device nodes
      never changes. */
  lemma {:induction false} RunsRefineBag(d: Doc, calls: seq<Call>)
    ensures multiset(After(d, calls).formats) == BagAfter(multiset(d.formats), calls)
    ensures multiset(After(d, calls).decodeFormats) == DecodeBagAfter(multiset(d.decodeFormats), calls)
    ensures forall x :: x in After(d, calls).formats <==> BagAfter(multiset(d.formats), calls)[x] > 0
    ensures |After(d, calls).devices| == |d.devices|
  {
    if calls == [] {
    } else {
      var before := calls[..|calls| - 1];
      RunsRefineBag(d, before);
      StepIsBagStep(After(d, before), calls[|calls| - 1]);
    }
    forall x
      ensures x in After(d, calls).formats <==> BagAfter(multiset(d.formats), calls)[x] > 0
    {
      InCount(After(d, calls).formats, x);
    }
  }
}
