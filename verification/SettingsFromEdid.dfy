/** From the display's EDID to the format list of the settings document. */
module SettingsFromEdid {
  import opened Bytes
  import opened Wrappers
  import opened Edid
  import opened EdidPrinter
  import opened AudioSettings

  /** A base block with the given extension count, followed by printed extensions. */
  function PrintNode(base: seq<Byte>, es: seq<Cea861>): (node: EdidNode)
    requires AllFill(es)
  {
    EdidNode(base, PrintExtensions(es))
  }

  lemma {:induction false} LastAudioSkips(bs: seq<DataBlock>, otherwise: seq<Audio>)
    requires forall b | b in bs :: !CarriesDescriptors(b)
    ensures LastAudio(bs, otherwise) == otherwise
  {
    if bs == [] {
    } else {
      assert bs[|bs| - 1] in bs && !CarriesDescriptors(bs[|bs| - 1]);
      LastAudioSkips(bs[..|bs| - 1], otherwise);
    }
  }

  /** What follows the last audio block with a descriptor does not matter. */
  lemma {:induction false} LastAudioIs(pre: seq<DataBlock>, b: DataBlock, post: seq<DataBlock>, otherwise: seq<Audio>)
    requires CarriesDescriptors(b) && forall p | p in post :: !CarriesDescriptors(p)
    ensures LastAudio(pre + [b] + post, otherwise) == Descriptors(b.payload)
    decreases |post|
  {
    var bs := pre + [b] + post;
    if post == [] {
      assert bs[|bs| - 1] == b;
    } else {
      var n := |post| - 1;
      assert bs[..|bs| - 1] == pre + [b] + post[..n] && bs[|bs| - 1] == post[n];
      assert post[n] in post && !CarriesDescriptors(post[n]);
      LastAudioIs(pre, b, post[..n], otherwise);
    }
  }

  /** One of the descriptors is of the audio format `level`. */
  predicate HasKind(ds: seq<Descriptor>, level: int) {
    exists d | d in ds :: d.kind == level
  }

  /** The formats of printed descriptors are the descriptors' formats. */
  lemma PrintedKinds(ds: seq<Descriptor>, level: int)
    requires forall d | d in ds :: DescriptorOk(d)
    ensures Supported(Descriptors(PrintDescriptors(ds)), level) <==> HasKind(ds, level)
  {
    var parsed := Descriptors(PrintDescriptors(ds));
    assert |parsed| == |ds|;
    forall i | 0 <= i < |ds|
      ensures parsed[i].kind == ds[i].kind
    {
      DescriptorsRoundTrip(ds, i);
    }
    if a :| a in parsed && a.kind == level {
      var i :| 0 <= i < |parsed| && parsed[i] == a;
      assert ds[i] in ds;
    }
    if d :| d in ds && d.kind == level {
      var i :| 0 <= i < |ds| && ds[i] == d;
      assert parsed[i] in parsed;
    }
  }

  /** End to end. A display prints short audio descriptors into the last audio block of the
      extensions that are read; the list names none of the six formats twice. Then the update
      lists each of them exactly when one of the descriptors is of its audio format, keeps the
      other formats in their order, and doing it again changes nothing. */
  lemma DescriptorsDecideFormats(
      base: seq<Byte>, es: seq<Cea861>, read: seq<Cea861>, pre: seq<DataBlock>, ds: seq<Descriptor>, post: seq<DataBlock>, formats: seq<string>)
    requires |base| <= EDID_BLOCK_SIZE && AllFill(es) && AreRead(base, es, read)
    requires ds != [] && forall d | d in ds :: DescriptorOk(d)
    requires AllFill(read) && AllBlocks(read) == pre + [DataBlock(1, PrintDescriptors(ds))] + post
    requires forall p | p in post :: !CarriesDescriptors(p)
    requires forall x | IsTableName(x) :: Count(formats, x) <= 1
    ensures Readable(PrintNode(base, es))
    ensures var r := Sync(formats, ParsedAudio(PrintNode(base, es)), TABLE);
      && ("AC3" in r <==> HasKind(ds, 2)) && ("EAC3" in r <==> HasKind(ds, 10))
      && ("DTS" in r <==> HasKind(ds, 7)) && ("DTSHD" in r <==> HasKind(ds, 11))
      && ("TRUEHD" in r <==> HasKind(ds, 12)) && ("MLP" in r <==> HasKind(ds, 12))
      && Others(r, TABLE) == Others(formats, TABLE)
      && Sync(r, ParsedAudio(PrintNode(base, es)), TABLE) == r
  {
    var node := PrintNode(base, es);
    NodeRoundTrip(base, es, read, NO_INFOR);
    LastAudioIs(pre, DataBlock(1, PrintDescriptors(ds)), post, []);
    assert ParsedAudio(node) == Descriptors(PrintDescriptors(ds));
    TableByName();
    SyncByName(formats, ParsedAudio(node));
    SyncKeepsAtMostOnce(formats, ParsedAudio(node));
    SyncKeepsOthersInOrder(formats, ParsedAudio(node));
    InLineIsFixed(Sync(formats, ParsedAudio(node), TABLE), ParsedAudio(node), TABLE);
    forall level
      ensures Supported(ParsedAudio(node), level) <==> HasKind(ds, level)
    {
      PrintedKinds(ds, level);
    }
  }

  /** Without such a block nothing of the table stays listed. */
  lemma NoAudioBlockClearsTable(base: seq<Byte>, es: seq<Cea861>, read: seq<Cea861>, formats: seq<string>)
    requires |base| <= EDID_BLOCK_SIZE && AllFill(es) && AreRead(base, es, read) && AllFill(read)
    requires forall b | b in AllBlocks(read) :: !CarriesDescriptors(b)
    requires forall x | IsTableName(x) :: Count(formats, x) <= 1
    ensures Readable(PrintNode(base, es))
    ensures forall x | IsTableName(x) :: x !in Sync(formats, ParsedAudio(PrintNode(base, es)), TABLE)
  {
    NodeRoundTrip(base, es, read, NO_INFOR);
    LastAudioSkips(AllBlocks(read), []);
    TableByName();
    SyncKeepsAtMostOnce(formats, []);
  }
}
