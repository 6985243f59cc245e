/** The decoder's two buffer lists: frame buffers committed by the client, each with the
    side that owns it, and a cache of mapped input buffers. */
module HwMpi {

  datatype Site = MPI | ROCKIT

  /** An `MppBuffer` of the media library: the id it was imported under and the
      references held for the client. */
  datatype MppBuffer = MppBuffer(index: int, refs: int)

  datatype CommitEntry = CommitEntry(id: int, mpp: nat, site: Site)
  datatype DataEntry = DataEntry(id: int, mapping: nat)

  /** `bufs` are the imported buffers and `mapIds` the ids of the mappings that `drm_map`
      made, both in creation order. `unmapped` are the mappings undone, in order. */
  datatype State = State(
    commits: seq<CommitEntry>, datas: seq<DataEntry>,
    bufs: seq<MppBuffer>, mapIds: seq<int>, unmapped: seq<nat>)

  /** A call together with what the kernel and the media library answer. A dequeue that
      yields no buffer (no frame, an info change or the end of the stream) is `Frameless`. */
  datatype Event =
    | Commit(id: int, drmOk: bool)
    | Dequeue(buf: nat)
    | Frameless
    | GiveBack(id: int)
    | Enqueue(id: int, eos: bool, infoOk: bool, mapOk: bool)
    | GroupClear
    | DataClear(id: int)
    | Close

  /** `findDataBuffer` looks at element 0 in every round of its loop. `EveryElement` is
      the search its loop header intends. */
  datatype Search = AsCoded | EveryElement

  const START := State([], [], [], [], [])

  function IndexOf(es: seq<CommitEntry>, id: int): (i: int)
    ensures -1 <= i < |es|
    ensures i >= 0 ==> es[i].id == id && forall j | 0 <= j < i :: es[j].id != id
    ensures i < 0 <==> forall e | e in es :: e.id != id
  {
    if es == [] then -1
    else if es[0].id == id then 0
    else var i := IndexOf(es[1..], id); if i < 0 then -1 else i + 1
  }

  function DataIndexOf(ds: seq<DataEntry>, id: int): (i: int)
    ensures -1 <= i < |ds|
    ensures i >= 0 ==> ds[i].id == id && forall j | 0 <= j < i :: ds[j].id != id
    ensures i < 0 <==> forall d | d in ds :: d.id != id
  {
    if ds == [] then -1
    else if ds[0].id == id then 0
    else var i := DataIndexOf(ds[1..], id); if i < 0 then -1 else i + 1
  }

  function Find(ds: seq<DataEntry>, id: int, search: Search): (i: int)
    ensures -1 <= i < |ds|
    ensures i >= 0 ==> ds[i].id == id
  {
    match search
    case AsCoded => if ds != [] && ds[0].id == id then 0 else -1
    case EveryElement => DataIndexOf(ds, id)
  }

  function DropSite(es: seq<CommitEntry>, site: Site): (r: seq<CommitEntry>) {
    if es == [] then []
    else (if es[0].site == site then [] else [es[0]]) + DropSite(es[1..], site)
  }

  function Mappings(ds: seq<DataEntry>): (r: seq<nat>) {
    seq(|ds|, i requires 0 <= i < |ds| => ds[i].mapping)
  }

  function ApplyCommit(s: State, id: int): (r: State) {
    var mpp := |s.bufs|;
    var imported := s.(bufs := s.bufs + [MppBuffer(id, 1)]);
    if IndexOf(s.commits, id) < 0 then imported.(commits := s.commits + [CommitEntry(id, mpp, MPI)])
    else imported
  }

  function ApplyDequeue(s: State, b: nat): (r: State)
    requires b < |s.bufs|
  {
    var i := IndexOf(s.commits, s.bufs[b].index);
    s.(bufs := s.bufs[b := s.bufs[b].(refs := s.bufs[b].refs + 1)],
       commits := if i < 0 then s.commits else s.commits[i := s.commits[i].(site := ROCKIT)])
  }

  function ApplyGiveBack(s: State, id: int): (r: State) {
    var i := IndexOf(s.commits, id);
    if i < 0 then s
    else
      var b := s.commits[i].mpp;
      s.(commits := s.commits[i := s.commits[i].(site := MPI)],
         bufs := if b < |s.bufs| then s.bufs[b := s.bufs[b].(refs := s.bufs[b].refs - 1)] else s.bufs)
  }

  function ApplyEnqueue(s: State, id: int, eos: bool, infoOk: bool, mapOk: bool, search: Search): (r: State) {
    if eos || Find(s.datas, id, search) >= 0 || !infoOk || !mapOk then s
    else s.(mapIds := s.mapIds + [id], datas := s.datas + [DataEntry(id, |s.mapIds|)])
  }

  function ApplyDataClear(s: State, id: int): (r: State) {
    var i := DataIndexOf(s.datas, id);
    if i < 0 then s
    else s.(datas := s.datas[..i] + s.datas[i + 1..], unmapped := s.unmapped + [s.datas[i].mapping])
  }

  function FreeDatas(s: State): (r: State) {
    s.(datas := [], unmapped := s.unmapped + Mappings(s.datas))
  }

  function Apply(s: State, ev: Event, search: Search): (r: State) {
    match ev
    case Commit(id, drmOk) => if drmOk then ApplyCommit(s, id) else s
    case Dequeue(b) => if b < |s.bufs| then ApplyDequeue(s, b) else s
    case Frameless => s
    case GiveBack(id) => ApplyGiveBack(s, id)
    case Enqueue(id, eos, infoOk, mapOk) => ApplyEnqueue(s, id, eos, infoOk, mapOk, search)
    case GroupClear => var f := FreeDatas(s); f.(commits := DropSite(s.commits, MPI))
    case DataClear(id) => ApplyDataClear(s, id)
    case Close => FreeDatas(s).(commits := [])
  }

  class RockitHwMpi {
    var mCommitList: seq<CommitEntry>
    var mDataList: seq<DataEntry>
    // the media library and the kernel, as far as these calls can tell them apart
    var mBufs: seq<MppBuffer>
    var mMapIds: seq<int>
    var mUnmapped: seq<nat>

    ghost function View(): (s: State)
      reads this
    {
      State(mCommitList, mDataList, mBufs, mMapIds, mUnmapped)
    }

    constructor ()
      ensures View() == START
    {
      mCommitList, mDataList, mBufs, mMapIds, mUnmapped := [], [], [], [], [];
    }

    method FindMppBuffer(fd: int) returns (index: int)
      ensures index == IndexOf(mCommitList, fd)
    {
      var i := 0;
      while i < |mCommitList|
        invariant 0 <= i <= |mCommitList|
        invariant IndexOf(mCommitList, fd) ==
          (var j := IndexOf(mCommitList[i..], fd); if j < 0 then -1 else i + j)
      {
        if mCommitList[i].id == fd {
          return i;
        }
        assert mCommitList[i..][1..] == mCommitList[i + 1..];
        i := i + 1;
      }
      index := -1;
    }

    method FindDataBuffer(fd: int) returns (index: int)
      ensures index == Find(mDataList, fd, AsCoded)
    {
      var i := 0;
      while i < |mDataList|
        invariant 0 <= i <= |mDataList|
        invariant i > 0 ==> mDataList[0].id != fd
      {
        var buffer := mDataList[0];
        if buffer.id == fd {
          return 0;
        }
        i := i + 1;
      }
      index := -1;
    }

    /** Returns 0 even when the id was listed before. */
    method CommitBuffer(id: int, drmOk: bool) returns (ret: int)
      modifies this
      ensures View() == Apply(old(View()), Commit(id, drmOk), AsCoded)
      ensures ret == if drmOk then 0 else -1
    {
      if !drmOk {
        return -1;
      }
      var mppBuffer := |mBufs|;
      mBufs := mBufs + [MppBuffer(id, 1)];
      var found := FindMppBuffer(id);
      if found < 0 {
        mCommitList := mCommitList + [CommitEntry(id, mppBuffer, MPI)];
      }
      ret := 0;
    }

    method DequeueFrame(buf: nat) returns (bufferId: int)
      requires buf < |mBufs|
      modifies this
      ensures View() == Apply(old(View()), Dequeue(buf), AsCoded)
      ensures bufferId == old(mBufs[buf].index)
    {
      bufferId := mBufs[buf].index;
      var found := FindMppBuffer(bufferId);
      if found >= 0 {
        mCommitList := mCommitList[found := mCommitList[found].(site := ROCKIT)];
      }
      mBufs := mBufs[buf := mBufs[buf].(refs := mBufs[buf].refs + 1)];
    }

    method GiveBackBuffer(id: int)
      modifies this
      ensures View() == Apply(old(View()), GiveBack(id), AsCoded)
    {
      var found := FindMppBuffer(id);
      if found >= 0 {
        var b := mCommitList[found].mpp;
        mCommitList := mCommitList[found := mCommitList[found].(site := MPI)];
        if b < |mBufs| {
          mBufs := mBufs[b := mBufs[b].(refs := mBufs[b].refs - 1)];
        }
      }
    }

    /** `mapping` is the one the packet is built on, -1 for none. */
    method EnqueuePacket(id: int, eos: bool, infoOk: bool, mapOk: bool, putOk: bool) returns (ret: int, mapping: int)
      modifies this
      ensures View() == Apply(old(View()), Enqueue(id, eos, infoOk, mapOk), AsCoded)
      ensures mapping >= 0 <==> !eos && (Find(old(mDataList), id, AsCoded) >= 0 || (infoOk && mapOk))
      ensures mapping >= 0 ==> exists d | d in mDataList :: d.id == id && d.mapping == mapping
      ensures ret == if (eos || mapping >= 0) && putOk then 0 else -1
    {
      mapping := -1;
      if !eos {
        var found := FindDataBuffer(id);
        if found < 0 {
          if !infoOk {
            return -1, -1;
          }
          if !mapOk {
            return -1, -1;
          }
          mapping := |mMapIds|;
          mMapIds := mMapIds + [id];
          mDataList := mDataList + [DataEntry(id, mapping)];
          assert mDataList[|mDataList| - 1] == DataEntry(id, mapping);
        } else {
          mapping := mDataList[found].mapping;
        }
      }
      ret := if putOk then 0 else -1;
    }

    method FreeDataBuffer(bufferId: int)
      modifies this
      ensures View() == Apply(old(View()), DataClear(bufferId), AsCoded)
    {
      var i := 0;
      while i < |mDataList|
        invariant 0 <= i <= |mDataList| && View() == old(View())
        invariant DataIndexOf(mDataList, bufferId) ==
          (var j := DataIndexOf(mDataList[i..], bufferId); if j < 0 then -1 else i + j)
      {
        if mDataList[i].id == bufferId {
          mUnmapped := mUnmapped + [mDataList[i].mapping];
          mDataList := mDataList[..i] + mDataList[i + 1..];
          return;
        }
        assert mDataList[i..][1..] == mDataList[i + 1..];
        i := i + 1;
      }
    }

    method FreeDataBufferList()
      modifies this
      ensures View() == FreeDatas(old(View()))
    {
      while mDataList != []
        invariant FreeDatas(View()) == FreeDatas(old(View()))
        decreases |mDataList|
      {
        var buffer := mDataList[0];
        ghost var ds, us := mDataList, mUnmapped;
        mUnmapped := mUnmapped + [buffer.mapping];
        mDataList := mDataList[1..];
        assert us + Mappings(ds) == mUnmapped + Mappings(mDataList);
      }
    }

    /** Removes from the back, so that the indices still to visit stay valid. */
    method CleanMppBuffer(site: Site)
      modifies this`mCommitList
      ensures mCommitList == DropSite(old(mCommitList), site)
    {
      var i := |mCommitList| - 1;
      while i >= 0
        invariant -1 <= i < |old(mCommitList)| && i < |mCommitList|
        invariant mCommitList == old(mCommitList)[..i + 1] + DropSite(old(mCommitList)[i + 1..], site)
      {
        ghost var was := old(mCommitList);
        assert was[i..][1..] == was[i + 1..];
        assert mCommitList[i] == was[i];
        if mCommitList[i].site == site {
          mCommitList := mCommitList[..i] + mCommitList[i + 1..];
        } else {
          assert was[..i + 1] == was[..i] + [was[i]];
        }
        i := i - 1;
      }
      assert old(mCommitList)[0..] == old(mCommitList);
    }

    method ControlGroupClear()
      modifies this
      ensures View() == Apply(old(View()), GroupClear, AsCoded)
    {
      FreeDataBufferList();
      CleanMppBuffer(MPI);
    }

    /** The destructor, which drops every entry whoever owns it. */
    method Destroy()
      modifies this
      ensures View() == Apply(old(View()), Close, AsCoded)
    {
      FreeDataBufferList();
      while mCommitList != []
        invariant View() == FreeDatas(old(View())).(commits := mCommitList)
        decreases |mCommitList|
      {
        mCommitList := mCommitList[1..];
      }
    }
  }

  // ---- Runs ------------------------------------------------------------------------

  function After(h: seq<Event>, search: Search): (s: State) {
    if h == [] then START else Apply(After(h[..|h| - 1], search), h[|h| - 1], search)
  }

  ghost predicate DistinctIds(es: seq<CommitEntry>) {
    forall i, j | 0 <= i < j < |es| :: es[i].id != es[j].id
  }

  /** Every listed entry names an imported buffer with the entry's own id. */
  ghost predicate Backed(s: State) {
    forall e | e in s.commits :: e.mpp < |s.bufs| && s.bufs[e.mpp].index == e.id
  }

  ghost predicate CommitInv(s: State) {
    DistinctIds(s.commits) && Backed(s)
  }

  lemma {:induction false} DropSiteMembers(es: seq<CommitEntry>, site: Site)
    ensures forall e :: e in DropSite(es, site) <==> e in es && e.site != site
    ensures DistinctIds(es) ==> DistinctIds(DropSite(es, site))
  {
    if es == [] {
    } else {
      DropSiteMembers(es[1..], site);
      assert es == [es[0]] + es[1..];
      var t := DropSite(es[1..], site);
      if DistinctIds(es) {
        forall i | 0 <= i < |t|
          ensures t[i].id != es[0].id
        {
          assert t[i] in es[1..];
        }
      }
    }
  }

  /** Where the entry for an id is, when there is one. */
  lemma EntryAt(es: seq<CommitEntry>, e: CommitEntry)
    requires e in es && DistinctIds(es)
    ensures IndexOf(es, e.id) >= 0 && es[IndexOf(es, e.id)] == e
  {
    var k :| 0 <= k < |es| && es[k] == e;
    var i := IndexOf(es, e.id);
    assert i >= 0;
    assert i == k;
  }

  /** A change of one entry's site, and of buffers' reference counts only. */
  lemma SiteChange(s: State, r: State, i: int, site: Site)
    requires CommitInv(s) && 0 <= i < |s.commits|
    requires r.commits == s.commits[i := s.commits[i].(site := site)]
    requires |r.bufs| == |s.bufs| && forall b | 0 <= b < |s.bufs| :: r.bufs[b].index == s.bufs[b].index
    ensures CommitInv(r)
  {
    forall e | e in r.commits
      ensures e.mpp < |r.bufs| && r.bufs[e.mpp].index == e.id
    {
      var k :| 0 <= k < |r.commits| && r.commits[k] == e;
      assert s.commits[k] in s.commits;
    }
  }

  lemma CommitInvStep(s: State, ev: Event, search: Search)
    requires CommitInv(s)
    ensures CommitInv(Apply(s, ev, search))
  {
    var r := Apply(s, ev, search);
    match ev
    case Commit(id, drmOk) =>
    case Dequeue(b) =>
      if b < |s.bufs| {
        var i := IndexOf(s.commits, s.bufs[b].index);
        if i >= 0 {
          SiteChange(s, r, i, ROCKIT);
        }
      }
    case GiveBack(id) =>
      var i := IndexOf(s.commits, id);
      if i >= 0 {
        SiteChange(s, r, i, MPI);
      }
    case GroupClear => DropSiteMembers(s.commits, MPI);
    case _ =>
  }

  lemma {:induction false} CommitInvAlways(h: seq<Event>, search: Search)
    ensures CommitInv(After(h, search))
  {
    if h == [] {
    } else {
      CommitInvAlways(h[..|h| - 1], search);
      CommitInvStep(After(h[..|h| - 1], search), h[|h| - 1], search);
    }
  }

  /** The id an event concerns as seen by the state before it: committing an id that is
      listed already, or naming an id that is not, is no event on an entry. */
  datatype Concern = Nothing | Created(id: int) | Lent(id: int) | Returned(id: int)

  function ConcernOf(s: State, ev: Event): (c: Concern) {
    match ev
    case Commit(id, drmOk) => if drmOk && IndexOf(s.commits, id) < 0 then Created(id) else Nothing
    case Dequeue(b) =>
      if b < |s.bufs| && IndexOf(s.commits, s.bufs[b].index) >= 0 then Lent(s.bufs[b].index) else Nothing
    case GiveBack(id) => if IndexOf(s.commits, id) >= 0 then Returned(id) else Nothing
    case _ => Nothing
  }

  /** The latest event on `id`: its creation, a dequeue or a give-back. */
  function Latest(h: seq<Event>, search: Search, id: int): (c: Concern) {
    if h == [] then Nothing
    else
      var c := ConcernOf(After(h[..|h| - 1], search), h[|h| - 1]);
      if c != Nothing && c.id == id then c else Latest(h[..|h| - 1], search, id)
  }

  /** What the client may reckon: 1 for the commit that created the entry, plus its
      dequeues, minus its give-backs since then. */
  function Ledger(h: seq<Event>, search: Search, id: int): (n: int) {
    if h == [] then 0
    else
      var before := Ledger(h[..|h| - 1], search, id);
      match ConcernOf(After(h[..|h| - 1], search), h[|h| - 1])
      case Created(k) => if k == id then 1 else before
      case Lent(k) => if k == id then before + 1 else before
      case Returned(k) => if k == id then before - 1 else before
      case Nothing => before
  }

  /** The decoder hands out the instance that is listed under its id, not one that was
      imported a second time. */
  ghost predicate HandsOutListed(s: State, ev: Event) {
    ev.Dequeue? && ev.buf < |s.bufs| ==>
      var i := IndexOf(s.commits, s.bufs[ev.buf].index); i >= 0 ==> s.commits[i].mpp == ev.buf
  }

  /** It does so at every event of the run. */
  ghost predicate Contract(h: seq<Event>, search: Search) {
    h == [] || (Contract(h[..|h| - 1], search) && HandsOutListed(After(h[..|h| - 1], search), h[|h| - 1]))
  }

  /** How the entry `e` of the state after `ev` came about from the state `s` before. */
  ghost predicate Follows(s: State, ev: Event, search: Search, e: CommitEntry) {
    var r, c := Apply(s, ev, search), ConcernOf(s, ev);
    e.mpp < |r.bufs| &&
    if c == Nothing || c.id != e.id then
      Kept(s, e, e.site) && (HandsOutListed(s, ev) ==> r.bufs[e.mpp].refs == s.bufs[e.mpp].refs)
    else match c
      case Created(_) => e.site == MPI && r.bufs[e.mpp].refs == 1
      case Lent(_) =>
        e.site == ROCKIT && WasListed(s, e) && (HandsOutListed(s, ev) ==> e.mpp == ev.buf && r.bufs[e.mpp].refs == s.bufs[e.mpp].refs + 1)
      case Returned(_) =>
        e.site == MPI && WasListed(s, e) && r.bufs[e.mpp].refs == s.bufs[e.mpp].refs - 1
  }

  ghost predicate Kept(s: State, e: CommitEntry, site: Site) {
    CommitEntry(e.id, e.mpp, site) in s.commits && e.mpp < |s.bufs|
  }

  ghost predicate WasListed(s: State, e: CommitEntry) {
    Kept(s, e, MPI) || Kept(s, e, ROCKIT)
  }

  /** One entry's site changed: every other entry is as it was. */
  lemma EntryAfterSite(es: seq<CommitEntry>, i: int, site: Site, e: CommitEntry)
    requires 0 <= i < |es| && DistinctIds(es)
    requires e in es[i := es[i].(site := site)]
    ensures if e.id == es[i].id then e == es[i].(site := site) else e in es
    ensures es[i] in es && (es[i].site == MPI || es[i].site == ROCKIT)
  {
    var k :| 0 <= k < |es| && es[i := es[i].(site := site)][k] == e;
  }

  lemma LentFollows(s: State, b: nat, search: Search, e: CommitEntry)
    requires CommitInv(s) && b < |s.bufs|
    requires e in Apply(s, Dequeue(b), search).commits
    ensures Follows(s, Dequeue(b), search, e)
  {
    var i := IndexOf(s.commits, s.bufs[b].index);
    if i >= 0 {
      EntryAfterSite(s.commits, i, ROCKIT, e);
    }
  }

  lemma ReturnedFollows(s: State, id: int, search: Search, e: CommitEntry)
    requires CommitInv(s)
    requires e in Apply(s, GiveBack(id), search).commits
    ensures Follows(s, GiveBack(id), search, e)
  {
    var i := IndexOf(s.commits, id);
    if i >= 0 {
      EntryAfterSite(s.commits, i, MPI, e);
      assert s.commits[i].mpp < |s.bufs|;
      if e.id != id {
        assert s.bufs[e.mpp].index != s.bufs[s.commits[i].mpp].index;
      }
    }
  }

  lemma EntryFollows(s: State, ev: Event, search: Search, e: CommitEntry)
    requires CommitInv(s)
    requires e in Apply(s, ev, search).commits
    ensures Follows(s, ev, search, e)
  {
    match ev
    case Dequeue(b) =>
      if b < |s.bufs| {
        LentFollows(s, b, search, e);
      }
    case GiveBack(id) => ReturnedFollows(s, id, search, e);
    case GroupClear => DropSiteMembers(s.commits, MPI);
    case _ =>
  }

  ghost predicate SitesTold(h: seq<Event>, search: Search) {
    forall e | e in After(h, search).commits :: e.site == ROCKIT <==> Latest(h, search, e.id).Lent?
  }

  ghost predicate RefsTold(h: seq<Event>, search: Search) {
    var s := After(h, search);
    forall e | e in s.commits :: e.mpp < |s.bufs| && s.bufs[e.mpp].refs == Ledger(h, search, e.id)
  }

  /** In every run: listed ids are pairwise distinct, every entry is backed by the buffer
      imported for it, and its site is ROCKIT exactly when the latest event on it is a
      dequeue. */
  lemma {:induction false} SiteIsLatestEvent(h: seq<Event>, search: Search)
    ensures CommitInv(After(h, search)) && SitesTold(h, search)
  {
    CommitInvAlways(h, search);
    if h == [] {
    } else {
      var h', ev := h[..|h| - 1], h[|h| - 1];
      SiteIsLatestEvent(h', search);
      forall e | e in After(h, search).commits
        ensures e.site == ROCKIT <==> Latest(h, search, e.id).Lent?
      {
        EntryFollows(After(h', search), ev, search, e);
      }
    }
  }

  /** When the decoder hands out the listed instances, the references held for the client
      on an entry's buffer are what the client reckons by the entry's id. */
  lemma {:induction false} ReferenceBalance(h: seq<Event>, search: Search)
    requires Contract(h, search)
    ensures RefsTold(h, search)
  {
    if h == [] {
    } else {
      var h', ev := h[..|h| - 1], h[|h| - 1];
      ReferenceBalance(h', search);
      CommitInvAlways(h', search);
      forall e | e in After(h, search).commits
        ensures e.mpp < |After(h, search).bufs|
        ensures After(h, search).bufs[e.mpp].refs == Ledger(h, search, e.id)
      {
        EntryFollows(After(h', search), ev, search, e);
      }
    }
  }

  /** The references are told at every point of the run. */
  ghost predicate AlwaysTold(h: seq<Event>, search: Search) {
    RefsTold(h, search) && (h == [] || AlwaysTold(h[..|h| - 1], search))
  }

  /** An instance that is not the listed one spoils the reckoning of its id at once. */
  lemma UnlistedSpoils(h: seq<Event>, search: Search)
    requires h != [] && RefsTold(h[..|h| - 1], search)
    requires !HandsOutListed(After(h[..|h| - 1], search), h[|h| - 1])
    ensures !RefsTold(h, search)
  {
    var h', b := h[..|h| - 1], h[|h| - 1].buf;
    var s, r := After(h', search), After(h, search);
    var i := IndexOf(s.commits, s.bufs[b].index);
    var e := s.commits[i];
    assert e in s.commits && r.commits[i] in r.commits && r.commits[i].id == e.id;
    assert r.bufs[e.mpp].refs == s.bufs[e.mpp].refs;
    assert Ledger(h, search, e.id) == Ledger(h', search, e.id) + 1;
  }

  /** The references are what the client reckons throughout a run exactly when the decoder
      hands out the listed instances throughout the run. */
  lemma {:induction false} ReferenceBalanceIff(h: seq<Event>, search: Search)
    ensures AlwaysTold(h, search) <==> Contract(h, search)
  {
    if h == [] {
    } else {
      var h' := h[..|h| - 1];
      ReferenceBalanceIff(h', search);
      if Contract(h, search) {
        ReferenceBalance(h, search);
      } else if AlwaysTold(h', search) {
        UnlistedSpoils(h, search);
      }
    }
  }

  /** How often the client was lent, and has returned, the buffer that was last committed
      under `id`. */
  function Lends(h: seq<Event>, search: Search, id: int): (n: nat) {
    if h == [] then 0
    else match ConcernOf(After(h[..|h| - 1], search), h[|h| - 1])
      case Created(k) => if k == id then 0 else Lends(h[..|h| - 1], search, id)
      case Lent(k) => Lends(h[..|h| - 1], search, id) + if k == id then 1 else 0
      case _ => Lends(h[..|h| - 1], search, id)
  }

  function Returns(h: seq<Event>, search: Search, id: int): (n: nat) {
    if h == [] then 0
    else match ConcernOf(After(h[..|h| - 1], search), h[|h| - 1])
      case Created(k) => if k == id then 0 else Returns(h[..|h| - 1], search, id)
      case Returned(k) => Returns(h[..|h| - 1], search, id) + if k == id then 1 else 0
      case _ => Returns(h[..|h| - 1], search, id)
  }

  /** Whether an entry for `id` was ever created. */
  predicate EverCreated(h: seq<Event>, search: Search, id: int) {
    h != [] &&
    (ConcernOf(After(h[..|h| - 1], search), h[|h| - 1]) == Created(id) || EverCreated(h[..|h| - 1], search, id))
  }

  lemma {:induction false} ListedWasCreated(h: seq<Event>, search: Search)
    ensures forall e | e in After(h, search).commits :: EverCreated(h, search, e.id)
  {
    if h == [] {
    } else {
      var h' := h[..|h| - 1];
      ListedWasCreated(h', search);
      CommitInvAlways(h', search);
      forall e | e in After(h, search).commits
        ensures EverCreated(h, search, e.id)
      {
        EntryFollows(After(h', search), h[|h| - 1], search, e);
      }
    }
  }

  /** The ledger is one for the commit, plus what was lent, minus what was returned. */
  lemma {:induction false} LedgerCounts(h: seq<Event>, search: Search, id: int)
    ensures Ledger(h, search, id) ==
      (if EverCreated(h, search, id) then 1 else 0) + Lends(h, search, id) - Returns(h, search, id)
    ensures !EverCreated(h, search, id) ==> Lends(h, search, id) == Returns(h, search, id) == 0
  {
    if h == [] {
    } else {
      var h' := h[..|h| - 1];
      LedgerCounts(h', search, id);
      ListedWasCreated(h', search);
      var s, c := After(h', search), ConcernOf(After(h', search), h[|h| - 1]);
      if (c.Lent? || c.Returned?) && c.id == id {
        assert s.commits[IndexOf(s.commits, id)] in s.commits;
      }
    }
  }

  /** The client returns a buffer once for its commit and once for each time it was lent, and
      no more often. */
  ghost predicate GivesBackHeld(h: seq<Event>, search: Search) {
    h == [] ||
    (var h' := h[..|h| - 1];
     var c := ConcernOf(After(h', search), h[|h| - 1]);
     GivesBackHeld(h', search) && (c.Returned? ==> Returns(h', search, c.id) <= Lends(h', search, c.id)))
  }

  ghost predicate NeverNegative(h: seq<Event>, search: Search) {
    (forall id :: Ledger(h, search, id) >= 0) && (h == [] || NeverNegative(h[..|h| - 1], search))
  }

  /** What is returned at the last event of `h` is of an id that is in the ledger. */
  lemma HeldIsPositive(h: seq<Event>, search: Search)
    requires h != [] && ConcernOf(After(h[..|h| - 1], search), h[|h| - 1]).Returned?
    ensures var h' := h[..|h| - 1]; var id := ConcernOf(After(h', search), h[|h| - 1]).id;
      Returns(h', search, id) <= Lends(h', search, id) <==> Ledger(h', search, id) > 0
  {
    var h' := h[..|h| - 1];
    var s, id := After(h', search), h[|h| - 1].id;
    ListedWasCreated(h', search);
    LedgerCounts(h', search, id);
    assert s.commits[IndexOf(s.commits, id)] in s.commits;
  }

  /** The reckoning never goes below zero exactly when only what is held is given back. */
  lemma {:induction false} NeverNegativeIff(h: seq<Event>, search: Search)
    ensures NeverNegative(h, search) <==> GivesBackHeld(h, search)
  {
    if h == [] {
    } else {
      var h' := h[..|h| - 1];
      NeverNegativeIff(h', search);
      var c := ConcernOf(After(h', search), h[|h| - 1]);
      if c.Returned? {
        HeldIsPositive(h, search);
      }
      if NeverNegative(h', search) {
        assert c.Returned? ==> Ledger(h, search, c.id) == Ledger(h', search, c.id) - 1;
        if c.Returned? ==> Ledger(h', search, c.id) > 0 {
          forall id
            ensures Ledger(h, search, id) >= 0
          {
            assert Ledger(h', search, id) >= 0;
          }
        } else {
          assert Ledger(h, search, c.id) < 0;
        }
      }
    }
  }

  /** Then the references held for the client are never negative either. */
  lemma ReferencesNeverNegative(h: seq<Event>, search: Search)
    requires Contract(h, search) && GivesBackHeld(h, search)
    ensures var s := After(h, search); forall e | e in s.commits :: e.mpp < |s.bufs| && s.bufs[e.mpp].refs >= 0
  {
    ReferenceBalance(h, search);
    NeverNegativeIff(h, search);
  }

  /** Whether the entry for `id` has been given back since it was created. */
  predicate GivenBack(h: seq<Event>, search: Search, id: int) {
    h != [] &&
    match ConcernOf(After(h[..|h| - 1], search), h[|h| - 1])
    case Created(k) => k != id && GivenBack(h[..|h| - 1], search, id)
    case Returned(k) => k == id || GivenBack(h[..|h| - 1], search, id)
    case _ => GivenBack(h[..|h| - 1], search, id)
  }

  /** No listed buffer is handed out while a reference to it is out. */
  ghost predicate OneAtATime(h: seq<Event>, search: Search) {
    h == [] ||
    (var s, ev := After(h[..|h| - 1], search), h[|h| - 1];
     OneAtATime(h[..|h| - 1], search) && (ConcernOf(s, ev).Lent? ==> s.bufs[ev.buf].refs == 0))
  }

  /** An entry's buffer has one reference while it is with the client, none once it has been
      given back, and before the first give-back the one of the import. */
  ghost predicate OneWhileOut(h: seq<Event>, search: Search) {
    var s := After(h, search);
    forall e | e in s.commits ::
      && e.mpp < |s.bufs|
      && s.bufs[e.mpp].refs == if e.site == ROCKIT || !GivenBack(h, search, e.id) then 1 else 0
  }

  ghost predicate AlwaysOneWhileOut(h: seq<Event>, search: Search) {
    OneWhileOut(h, search) && (h == [] || AlwaysOneWhileOut(h[..|h| - 1], search))
  }

  lemma OneWhileOutStep(h: seq<Event>, search: Search)
    requires h != [] && Contract(h, search) && OneWhileOut(h[..|h| - 1], search)
    requires var s, ev := After(h[..|h| - 1], search), h[|h| - 1]; var c := ConcernOf(s, ev);
      && (c.Lent? ==> s.bufs[ev.buf].refs == 0)
      && (c.Returned? ==> Ledger(h[..|h| - 1], search, c.id) > 0)
    ensures OneWhileOut(h, search)
  {
    var h', ev := h[..|h| - 1], h[|h| - 1];
    ReferenceBalance(h', search);
    CommitInvAlways(h', search);
    forall e | e in After(h, search).commits
      ensures e.mpp < |After(h, search).bufs|
      ensures After(h, search).bufs[e.mpp].refs == if e.site == ROCKIT || !GivenBack(h, search, e.id) then 1 else 0
    {
      EntryFollows(After(h', search), ev, search, e);
    }
  }

  /** A second hand-out, or giving back what is not held, shows at once. */
  lemma OtherwiseNotOne(h: seq<Event>, search: Search)
    requires h != [] && Contract(h, search)
    requires var s, ev := After(h[..|h| - 1], search), h[|h| - 1]; var c := ConcernOf(s, ev);
      (c.Lent? && s.bufs[ev.buf].refs != 0) || (c.Returned? && Ledger(h[..|h| - 1], search, c.id) <= 0)
    ensures !OneWhileOut(h, search)
  {
    var h', ev := h[..|h| - 1], h[|h| - 1];
    var s, r := After(h', search), After(h, search);
    ReferenceBalance(h', search);
    ReferenceBalance(h, search);
    CommitInvAlways(h', search);
    var i := IndexOf(s.commits, ConcernOf(s, ev).id);
    assert s.commits[i] in s.commits && r.commits[i] in r.commits;
    assert r.commits[i].id == s.commits[i].id && r.commits[i].mpp == s.commits[i].mpp;
  }

  /** Over every run in which the decoder hands out the listed instances, this holds throughout
      exactly when no buffer is handed out twice and only held ones are given back. */
  lemma {:induction false} OneReferenceIff(h: seq<Event>, search: Search)
    requires Contract(h, search)
    ensures AlwaysOneWhileOut(h, search) <==> OneAtATime(h, search) && GivesBackHeld(h, search)
  {
    if h == [] {
    } else {
      OneReferenceIff(h[..|h| - 1], search);
      if ConcernOf(After(h[..|h| - 1], search), h[|h| - 1]).Returned? {
        HeldIsPositive(h, search);
      }
      if OneAtATime(h, search) && GivesBackHeld(h, search) {
        OneWhileOutStep(h, search);
      } else if OneAtATime(h[..|h| - 1], search) && GivesBackHeld(h[..|h| - 1], search) {
        OtherwiseNotOne(h, search);
      }
    }
  }

  /** Clearing the group removes exactly the entries whose buffer is with the decoder;
      what is left keeps its order, and each buffer out at the client can still be given
      back. */
  lemma ClearKeepsLent(h: seq<Event>, search: Search)
    ensures var s, r := After(h, search), After(h + [GroupClear], search);
      && r.commits == DropSite(s.commits, MPI)
      && (forall e :: e in r.commits <==> e in s.commits && e.site == ROCKIT)
      && (forall e | e in r.commits :: Returnable(r, e, search))
  {
    assert (h + [GroupClear])[..|h|] == h;
    CommitInvAlways(h, search);
    DropSiteMembers(After(h, search).commits, MPI);
    CommitInvAlways(h + [GroupClear], search);
    ListedIsReturnable(After(h + [GroupClear], search), search);
  }

  lemma ListedIsReturnable(s: State, search: Search)
    requires CommitInv(s)
    ensures forall e | e in s.commits :: Returnable(s, e, search)
  {
    forall e | e in s.commits
      ensures Returnable(s, e, search)
    {
      EntryAt(s.commits, e);
    }
  }

  /** Giving `e` back puts one reference of the buffer listed for it. */
  ghost predicate Returnable(s: State, e: CommitEntry, search: Search) {
    e.mpp < |s.bufs| &&
    Apply(s, GiveBack(e.id), search).bufs == s.bufs[e.mpp := s.bufs[e.mpp].(refs := s.bufs[e.mpp].refs - 1)]
  }

  lemma {:induction false} DropSiteConcat(a: seq<CommitEntry>, b: seq<CommitEntry>, site: Site)
    ensures DropSite(a + b, site) == DropSite(a, site) + DropSite(b, site)
    decreases |a|
  {
    if a == [] {
      assert a + b == b;
    } else {
      var rest := a[1..];
      DropSiteConcat(rest, b, site);
      DropSiteFirst(a[0], rest + b, site);
      DropSiteFirst(a[0], rest, site);
      assert a + b == [a[0]] + (rest + b) && a == [a[0]] + rest;
    }
  }

  lemma DropSiteFirst(e: CommitEntry, es: seq<CommitEntry>, site: Site)
    ensures DropSite([e] + es, site) == (if e.site == site then [] else [e]) + DropSite(es, site)
  {
    assert ([e] + es)[1..] == es;
  }

  // ---- References that are never put -----------------------------------------------

  /** Buffer `b` is referenced and no entry is listed for it. */
  ghost predicate Stranded(s: State, b: nat) {
    b < |s.bufs| && s.bufs[b].refs >= 1 && Unlisted(s, b)
  }

  ghost predicate Unlisted(s: State, b: nat) {
    forall e | e in s.commits :: e.mpp != b
  }

  /** The entry that is listed for `b` is dropped by `ev`. */
  ghost predicate Drops(s: State, ev: Event, b: nat) {
    exists e | e in s.commits :: e.mpp == b && (ev.Close? || (ev.GroupClear? && e.site == MPI))
  }

  /** The ways in which a call leaves `b` referenced and unlisted: it imports `b` for an id that
      is listed already, it hands `b` out although it is unlisted, or it drops the entry for `b`
      without putting the references that are left. */
  ghost predicate Strands(s: State, ev: Event, b: nat) {
    match ev
    case Commit(id, drmOk) => drmOk && b == |s.bufs| && IndexOf(s.commits, id) >= 0
    case Dequeue(k) => k == b < |s.bufs| && Unlisted(s, b) && s.bufs[b].refs >= 0
    case GroupClear => b < |s.bufs| && s.bufs[b].refs >= 1 && Drops(s, ev, b)
    case Close => b < |s.bufs| && s.bufs[b].refs >= 1 && Drops(s, ev, b)
    case _ => false
  }

  /** An entry names a buffer that no other entry names. */
  lemma OneEntryEach(s: State, e: CommitEntry, f: CommitEntry)
    requires CommitInv(s) && e in s.commits && f in s.commits && e.mpp == f.mpp
    ensures e == f
  {
    EntryAt(s.commits, e);
    EntryAt(s.commits, f);
  }

  lemma DropStrandsIff(s: State, ev: Event, search: Search, b: nat)
    requires CommitInv(s) && (ev.GroupClear? || ev.Close?)
    ensures Stranded(Apply(s, ev, search), b) <==> Stranded(s, b) || Strands(s, ev, b)
  {
    var r := Apply(s, ev, search);
    DropSiteMembers(s.commits, MPI);
    if Drops(s, ev, b) {
      var e :| e in s.commits && e.mpp == b && (ev.Close? || e.site == MPI);
      forall f | f in r.commits
        ensures f.mpp != b
      {
        if f.mpp == b {
          OneEntryEach(s, e, f);
        }
      }
    }
  }

  lemma LentStrandsIff(s: State, k: nat, search: Search, b: nat)
    requires CommitInv(s)
    ensures Stranded(Apply(s, Dequeue(k), search), b) <==> Stranded(s, b) || Strands(s, Dequeue(k), b)
  {
    if k < |s.bufs| {
      var i := IndexOf(s.commits, s.bufs[k].index);
      if i >= 0 {
        SameMpps(s.commits, i, ROCKIT, b);
      }
    }
  }

  lemma ReturnedStrandsIff(s: State, id: int, search: Search, b: nat)
    requires CommitInv(s)
    ensures Stranded(Apply(s, GiveBack(id), search), b) <==> Stranded(s, b)
  {
    var i := IndexOf(s.commits, id);
    if i >= 0 {
      SameMpps(s.commits, i, MPI, b);
      assert s.commits[i] in s.commits;
    }
  }

  /** Changing a site does not change which buffers are listed. */
  lemma SameMpps(es: seq<CommitEntry>, i: int, site: Site, b: nat)
    requires 0 <= i < |es|
    ensures (forall e | e in es[i := es[i].(site := site)] :: e.mpp != b) <==> (forall e | e in es :: e.mpp != b)
  {
    var fs := es[i := es[i].(site := site)];
    forall k | 0 <= k < |es|
      ensures fs[k].mpp == es[k].mpp && fs[k] in fs && es[k] in es
    {
    }
  }

  lemma CommitStrandsIff(s: State, id: int, drmOk: bool, search: Search, b: nat)
    requires CommitInv(s)
    ensures Stranded(Apply(s, Commit(id, drmOk), search), b) <==> Stranded(s, b) || Strands(s, Commit(id, drmOk), b)
  {
    var r := Apply(s, Commit(id, drmOk), search);
    if drmOk && IndexOf(s.commits, id) < 0 {
      var e := CommitEntry(id, |s.bufs|, MPI);
      assert r.commits[|s.commits|] == e;
      assert forall f :: f in r.commits <==> f in s.commits || f == e;
    }
  }

  /** A call strands a buffer exactly in the ways above, and what is stranded stays so. */
  lemma StrandedStepIff(s: State, ev: Event, search: Search, b: nat)
    requires CommitInv(s)
    ensures Stranded(Apply(s, ev, search), b) <==> Stranded(s, b) || Strands(s, ev, b)
  {
    match ev
    case Commit(id, drmOk) => CommitStrandsIff(s, id, drmOk, search, b);
    case Dequeue(k) => LentStrandsIff(s, k, search, b);
    case GiveBack(id) => ReturnedStrandsIff(s, id, search, b);
    case GroupClear => DropStrandsIff(s, ev, search, b);
    case Close => DropStrandsIff(s, ev, search, b);
    case _ =>
  }

  /** Some call of the run strands `b`. */
  ghost predicate StrandedBySome(h: seq<Event>, search: Search, b: nat) {
    h != [] &&
    (StrandedBySome(h[..|h| - 1], search, b) || Strands(After(h[..|h| - 1], search), h[|h| - 1], b))
  }

  /** Over every run: a buffer is left referenced and unlisted exactly when some call of the
      run stranded it, by a second commit, by handing it out unlisted, or by dropping it. */
  lemma {:induction false} StrandedIff(h: seq<Event>, search: Search, b: nat)
    ensures Stranded(After(h, search), b) <==> StrandedBySome(h, search, b)
  {
    if h == [] {
    } else {
      StrandedIff(h[..|h| - 1], search, b);
      CommitInvAlways(h[..|h| - 1], search);
      StrandedStepIff(After(h[..|h| - 1], search), h[|h| - 1], search, b);
    }
  }

  lemma {:induction false} StrandedForGood(h: seq<Event>, more: seq<Event>, search: Search, b: nat)
    requires Stranded(After(h, search), b)
    ensures Stranded(After(h + more, search), b)
  {
    if more == [] {
      assert h + more == h;
    } else {
      var n := |more| - 1;
      assert (h + more)[..|h + more| - 1] == h + more[..n];
      StrandedForGood(h, more[..n], search, b);
      CommitInvAlways(h + more[..n], search);
      StrandedStepIff(After(h + more[..n], search), more[n], search, b);
    }
  }

  /** The reference of buffer `b` is never put, whatever follows. */
  ghost predicate NeverPut(h: seq<Event>, search: Search, b: nat) {
    forall more: seq<Event> :: Stranded(After(h + more, search), b)
  }

  lemma NeverPutIff(h: seq<Event>, search: Search, b: nat)
    ensures NeverPut(h, search, b) <==> Stranded(After(h, search), b)
  {
    if Stranded(After(h, search), b) {
      forall more: seq<Event>
        ensures Stranded(After(h + more, search), b)
      {
        StrandedForGood(h, more, search, b);
      }
    } else {
      assert h + [] == h;
      assert !Stranded(After(h + [], search), b);
    }
  }

  /** A commit reports success either way, but the buffer it imports is never put, whatever
      follows, exactly when its id was listed already. */
  lemma SecondCommitLeaksIff(h: seq<Event>, id: int, search: Search)
    ensures var b := |After(h, search).bufs|;
      NeverPut(h + [Commit(id, true)], search, b) <==> IndexOf(After(h, search).commits, id) >= 0
  {
    var g, b := h + [Commit(id, true)], |After(h, search).bufs|;
    assert g[..|g| - 1] == h;
    CommitInvAlways(h, search);
    NeverPutIff(g, search, b);
    StrandedStepIff(After(h, search), Commit(id, true), search, b);
  }

  /** What a clear or the destructor leaves behind for good: of the buffers not lost before,
      exactly those whose entry it drops with a reference left. */
  lemma DropLeaksIff(h: seq<Event>, ev: Event, search: Search, b: nat)
    requires ev.GroupClear? || ev.Close?
    ensures var s := After(h, search);
      NeverPut(h + [ev], search, b) <==>
      NeverPut(h, search, b) || (b < |s.bufs| && s.bufs[b].refs >= 1 && Drops(s, ev, b))
  {
    var g := h + [ev];
    assert g[..|g| - 1] == h;
    CommitInvAlways(h, search);
    NeverPutIff(g, search, b);
    NeverPutIff(h, search, b);
    StrandedStepIff(After(h, search), ev, search, b);
  }

  /** When no buffer is handed out twice and only held ones are given back, a clear loses
      exactly the committed buffers that were never given back and are with the decoder; the
      destructor also loses those that are out. */
  lemma DropLosesNeverGivenBack(h: seq<Event>, ev: Event, search: Search, e: CommitEntry)
    requires Contract(h, search) && OneAtATime(h, search) && GivesBackHeld(h, search)
    requires (ev.GroupClear? || ev.Close?) && e in After(h, search).commits
    ensures NeverPut(h + [ev], search, e.mpp) <==>
      if ev.GroupClear? then e.site == MPI && !GivenBack(h, search, e.id)
      else e.site == ROCKIT || !GivenBack(h, search, e.id)
  {
    var s := After(h, search);
    OneReferenceIff(h, search);
    CommitInvAlways(h, search);
    NeverPutIff(h, search, e.mpp);
    DropLeaksIff(h, ev, search, e.mpp);
    if Drops(s, ev, e.mpp) {
      var f :| f in s.commits && f.mpp == e.mpp && (ev.Close? || f.site == MPI);
      OneEntryEach(s, e, f);
    }
  }

  // ---- Input mappings --------------------------------------------------------------

  /** The mappings 0 .. n-1, each once. */
  ghost function FirstN(n: nat): (r: multiset<nat>)
    ensures forall k: nat :: r[k] == if k < n then 1 else 0
  {
    if n == 0 then multiset{} else FirstN(n - 1) + multiset{n - 1}
  }

  ghost predicate MapInv(s: State) {
    && multiset(Mappings(s.datas)) + multiset(s.unmapped) == FirstN(|s.mapIds|)
    && (forall d | d in s.datas :: d.mapping < |s.mapIds| && s.mapIds[d.mapping] == d.id)
  }

  lemma MappingsConcat(a: seq<DataEntry>, b: seq<DataEntry>)
    ensures Mappings(a + b) == Mappings(a) + Mappings(b)
  {
  }

  /** Taking entry `i` out of the list moves its mapping from one bag to the other. */
  lemma TakeOut(ds: seq<DataEntry>, i: nat)
    requires i < |ds|
    ensures multiset(Mappings(ds)) == multiset(Mappings(ds[..i] + ds[i + 1..])) + multiset{ds[i].mapping}
  {
    var a, d, b := ds[..i], ds[i], ds[i + 1..];
    assert ds == a + ([d] + b);
    MappingsConcat(a, [d] + b);
    MappingsConcat([d], b);
    MappingsConcat(a, b);
    assert Mappings([d]) == [d.mapping];
  }

  lemma MapAdd(s: State, id: int)
    requires MapInv(s)
    ensures MapInv(s.(mapIds := s.mapIds + [id], datas := s.datas + [DataEntry(id, |s.mapIds|)]))
  {
    var n := |s.mapIds|;
    MappingsConcat(s.datas, [DataEntry(id, n)]);
    assert Mappings([DataEntry(id, n)]) == [n];
    var all := s.datas + [DataEntry(id, n)];
    assert multiset(Mappings(all)) == multiset(Mappings(s.datas)) + multiset{n};
    assert FirstN(n + 1) == FirstN(n) + multiset{n};
  }

  lemma MapRemove(s: State, id: int)
    requires MapInv(s)
    ensures MapInv(ApplyDataClear(s, id))
  {
    var i := DataIndexOf(s.datas, id);
    if i >= 0 {
      var x, r := s.datas[i].mapping, ApplyDataClear(s, id);
      TakeOut(s.datas, i);
      assert multiset(r.unmapped) == multiset(s.unmapped) + multiset{x};
      MoveOne(multiset(Mappings(s.datas)), multiset(Mappings(r.datas)), multiset(s.unmapped), x);
      assert forall d | d in r.datas :: d in s.datas;
    }
  }

  lemma MoveOne(before: multiset<nat>, rest: multiset<nat>, undone: multiset<nat>, x: nat)
    requires before == rest + multiset{x}
    ensures rest + (undone + multiset{x}) == before + undone
  {
  }

  lemma MapFree(s: State)
    requires MapInv(s)
    ensures MapInv(FreeDatas(s))
  {
    var r, ms := FreeDatas(s), Mappings(s.datas);
    assert Mappings(r.datas) == [];
    assert multiset(r.unmapped) == multiset(s.unmapped) + multiset(ms);
  }

  lemma MapInvStep(s: State, ev: Event, search: Search)
    requires MapInv(s)
    ensures MapInv(Apply(s, ev, search))
  {
    match ev
    case Enqueue(id, eos, infoOk, mapOk) =>
      var r := ApplyEnqueue(s, id, eos, infoOk, mapOk, search);
      if r != s {
        MapAdd(s, id);
        assert r == s.(mapIds := s.mapIds + [id], datas := s.datas + [DataEntry(id, |s.mapIds|)]);
      }
    case DataClear(id) => MapRemove(s, id);
    case GroupClear => MapFree(s);
    case Close => MapFree(s);
    case _ =>
  }

  /** In every run, with either search: each mapping ever made is in the list or has been
      undone, and only one of the two, once; and each entry's mapping is one that was made
      for the entry's id. */
  lemma {:induction false} EveryMappingOnce(h: seq<Event>, search: Search)
    ensures MapInv(After(h, search))
  {
    if h == [] {
    } else {
      EveryMappingOnce(h[..|h| - 1], search);
      MapInvStep(After(h[..|h| - 1], search), h[|h| - 1], search);
    }
  }

  // ---- The order of the lists ------------------------------------------------------

  ghost predicate CommitsInOrder(es: seq<CommitEntry>, n: nat) {
    && (forall i, j | 0 <= i < j < |es| :: es[i].mpp < es[j].mpp)
    && (forall i | 0 <= i < |es| :: es[i].mpp < n)
  }

  ghost predicate DatasInOrder(ds: seq<DataEntry>, n: nat) {
    && (forall i, j | 0 <= i < j < |ds| :: ds[i].mapping < ds[j].mapping)
    && (forall i | 0 <= i < |ds| :: ds[i].mapping < n)
  }

  lemma PrependInOrder(e: CommitEntry, es: seq<CommitEntry>, n: nat)
    requires CommitsInOrder(es, n) && e.mpp < n && forall i | 0 <= i < |es| :: e.mpp < es[i].mpp
    ensures CommitsInOrder([e] + es, n)
  {
  }

  lemma {:induction false} DropSiteInOrder(es: seq<CommitEntry>, site: Site, n: nat)
    requires CommitsInOrder(es, n)
    ensures CommitsInOrder(DropSite(es, site), n)
  {
    if es == [] {
    } else {
      var rest := es[1..];
      var t := DropSite(rest, site);
      DropSiteInOrder(rest, site, n);
      DropSiteMembers(rest, site);
      forall i | 0 <= i < |t|
        ensures es[0].mpp < t[i].mpp
      {
        assert t[i] in rest;
        var k :| 0 <= k < |rest| && rest[k] == t[i];
        assert es[k + 1] == t[i];
      }
      PrependInOrder(es[0], t, n);
      assert DropSite(es, site) == if es[0].site == site then t else [es[0]] + t;
    }
  }

  lemma SiteInOrder(es: seq<CommitEntry>, i: nat, site: Site, n: nat)
    requires i < |es| && CommitsInOrder(es, n)
    ensures CommitsInOrder(es[i := es[i].(site := site)], n)
  {
    var r := es[i := es[i].(site := site)];
    assert forall k | 0 <= k < |es| :: r[k].mpp == es[k].mpp;
  }

  lemma CommitsOrderStep(s: State, ev: Event, search: Search)
    requires CommitsInOrder(s.commits, |s.bufs|)
    ensures var r := Apply(s, ev, search); CommitsInOrder(r.commits, |r.bufs|)
  {
    match ev
    case GroupClear => DropSiteInOrder(s.commits, MPI, |s.bufs|);
    case Dequeue(b) =>
      if b < |s.bufs| && IndexOf(s.commits, s.bufs[b].index) >= 0 {
        SiteInOrder(s.commits, IndexOf(s.commits, s.bufs[b].index), ROCKIT, |s.bufs|);
      }
    case GiveBack(id) =>
      if IndexOf(s.commits, id) >= 0 {
        SiteInOrder(s.commits, IndexOf(s.commits, id), MPI, |s.bufs|);
      }
    case _ =>
  }

  lemma TakeOutInOrder(ds: seq<DataEntry>, i: nat, n: nat)
    requires i < |ds| && DatasInOrder(ds, n)
    ensures DatasInOrder(ds[..i] + ds[i + 1..], n)
    ensures ds[i] !in ds[..i] + ds[i + 1..]
    ensures forall d :: d in ds[..i] + ds[i + 1..] <==> d in ds && d != ds[i]
  {
    var rest := ds[..i] + ds[i + 1..];
    forall j | 0 <= j < |rest|
      ensures rest[j] == (if j < i then ds[j] else ds[j + 1]) && rest[j].mapping != ds[i].mapping
    {
    }
    assert ds == ds[..i] + [ds[i]] + ds[i + 1..];
  }

  lemma DatasOrderStep(s: State, ev: Event, search: Search)
    requires DatasInOrder(s.datas, |s.mapIds|)
    ensures var r := Apply(s, ev, search); DatasInOrder(r.datas, |r.mapIds|)
  {
    if ev.DataClear? && DataIndexOf(s.datas, ev.id) >= 0 {
      TakeOutInOrder(s.datas, DataIndexOf(s.datas, ev.id), |s.mapIds|);
    }
  }

  /** In every run both lists are in the order in which their entries were made. */
  lemma {:induction false} ListsInOrder(h: seq<Event>, search: Search)
    ensures var s := After(h, search); CommitsInOrder(s.commits, |s.bufs|) && DatasInOrder(s.datas, |s.mapIds|)
  {
    if h == [] {
    } else {
      ListsInOrder(h[..|h| - 1], search);
      CommitsOrderStep(After(h[..|h| - 1], search), h[|h| - 1], search);
      DatasOrderStep(After(h[..|h| - 1], search), h[|h| - 1], search);
    }
  }

  // ---- What a clear undoes ---------------------------------------------------------

  lemma OneMore(h: seq<Event>, ev: Event, search: Search)
    ensures After(h + [ev], search) == Apply(After(h, search), ev, search)
  {
    assert (h + [ev])[..|h|] == h;
  }

  /** After a clear of the group, and after the destructor, every mapping ever made has been
      undone, once, those that were standing oldest first; and the destructor leaves nothing
      listed. */
  lemma ClearUnmapsAll(h: seq<Event>, ev: Event, search: Search)
    requires ev.GroupClear? || ev.Close?
    ensures var s, r := After(h, search), After(h + [ev], search); var n := |s.unmapped|;
      && r.datas == [] && (ev.Close? ==> r.commits == [])
      && r.mapIds == s.mapIds && r.bufs == s.bufs
      && multiset(r.unmapped) == FirstN(|r.mapIds|)
      && s.unmapped <= r.unmapped && forall i, j | n <= i < j < |r.unmapped| :: r.unmapped[i] < r.unmapped[j]
  {
    OneMore(h, ev, search);
    ListsInOrder(h, search);
    EveryMappingOnce(h + [ev], search);
    assert Mappings([]) == [];
  }

  /** So whatever was mapped before, the next enqueue of a buffer that succeeds maps it, and
      maps it once: enqueuing it again finds the mapping. */
  lemma MappedAnewAfterClear(h: seq<Event>, ev: Event, id: int, search: Search)
    requires ev.GroupClear? || ev.Close?
    ensures var c, r := After(h + [ev], search), After(h + [ev] + [Enqueue(id, false, true, true)], search);
      && r.mapIds == c.mapIds + [id] && r.unmapped == c.unmapped && r.datas == [DataEntry(id, |c.mapIds|)]
      && After(h + [ev] + [Enqueue(id, false, true, true)] + [Enqueue(id, false, true, true)], search) == r
  {
    var enqueue := Enqueue(id, false, true, true);
    ClearUnmapsAll(h, ev, search);
    OneMore(h + [ev], enqueue, search);
    OneMore(h + [ev] + [enqueue], enqueue, search);
  }

  /** Clearing one buffer undoes the oldest of its mappings that stand, and no other, and takes
      that entry out of the list. */
  lemma DataClearUndoesOldest(h: seq<Event>, id: int, search: Search) returns (oldest: nat)
    requires exists d | d in After(h, search).datas :: d.id == id
    ensures var s, r := After(h, search), After(h + [DataClear(id)], search); var gone := DataEntry(id, oldest);
      && gone in s.datas && (forall d | d in s.datas && d.id == id :: oldest <= d.mapping)
      && r.unmapped == s.unmapped + [oldest]
      && gone !in r.datas && (forall d :: d in r.datas <==> d in s.datas && d != gone)
      && r.mapIds == s.mapIds && r.commits == s.commits && r.bufs == s.bufs
  {
    OneMore(h, DataClear(id), search);
    ListsInOrder(h, search);
    var ds := After(h, search).datas;
    var i := DataIndexOf(ds, id);
    oldest := ds[i].mapping;
    TakeOutInOrder(ds, i, |After(h, search).mapIds|);
    forall d | d in ds && d.id == id
      ensures oldest <= d.mapping
    {
      var k :| 0 <= k < |ds| && ds[k] == d;
      assert k >= i;
    }
  }

  lemma DataClearOfUnlisted(h: seq<Event>, id: int, search: Search)
    requires forall d | d in After(h, search).datas :: d.id != id
    ensures After(h + [DataClear(id)], search) == After(h, search)
  {
    OneMore(h, DataClear(id), search);
  }

  ghost predicate DistinctDatas(ds: seq<DataEntry>) {
    forall i, j | 0 <= i < j < |ds| :: ds[i].id != ds[j].id
  }

  lemma FullSearchStep(s: State, ev: Event)
    requires DistinctDatas(s.datas)
    ensures DistinctDatas(Apply(s, ev, EveryElement).datas)
  {
  }

  /** The list then never holds an id twice. */
  lemma {:induction false} DistinctWithFullSearch(h: seq<Event>)
    ensures DistinctDatas(After(h, EveryElement).datas)
  {
    if h == [] {
    } else {
      DistinctWithFullSearch(h[..|h| - 1]);
      FullSearchStep(After(h[..|h| - 1], EveryElement), h[|h| - 1]);
    }
  }

  predicate Listed(s: State, id: int) {
    DataIndexOf(s.datas, id) >= 0
  }

  /** How many mappings were made for `id`. */
  function TimesMapped(s: State, id: int): (n: nat) {
    multiset(s.mapIds)[id]
  }

  /** No event of the run takes the mapping of `id` out of the list. */
  predicate NoClearOf(more: seq<Event>, id: int) {
    forall ev | ev in more :: !ev.GroupClear? && !ev.Close? && (ev.DataClear? ==> ev.id != id)
  }

  lemma ListedIff(s: State, id: int)
    ensures Listed(s, id) <==> exists d | d in s.datas :: d.id == id
  {
  }

  lemma MappedStep(s: State, ev: Event, id: int)
    requires !ev.GroupClear? && !ev.Close? && (ev.DataClear? ==> ev.id != id)
    ensures var r := Apply(s, ev, EveryElement);
      && TimesMapped(r, id) == TimesMapped(s, id) + (if Listed(r, id) && !Listed(s, id) then 1 else 0)
      && (Listed(s, id) ==> Listed(r, id))
  {
    var r := Apply(s, ev, EveryElement);
    ListedIff(s, id);
    ListedIff(r, id);
    match ev
    case Enqueue(k, eos, infoOk, mapOk) =>
      if r.datas != s.datas {
        var d := DataEntry(k, |s.mapIds|);
        assert r.datas[|s.datas|] == d;
        assert forall x :: x in r.datas <==> x in s.datas || x == d;
      }
    case DataClear(k) =>
      var i := DataIndexOf(s.datas, k);
      if i >= 0 {
        assert s.datas == s.datas[..i] + [s.datas[i]] + s.datas[i + 1..];
        assert forall x :: x in s.datas <==> x in r.datas || x == s.datas[i];
      }
    case _ =>
  }

  /** With the search over every element a buffer is mapped at most once between clears: from
      any point on until it is cleared, once if it comes to be listed and was not, else never. */
  lemma {:induction false} MappedOnceWithFullSearch(h: seq<Event>, more: seq<Event>, id: int)
    requires NoClearOf(more, id)
    ensures var s, r := After(h, EveryElement), After(h + more, EveryElement);
      && TimesMapped(r, id) == TimesMapped(s, id) + (if Listed(r, id) && !Listed(s, id) then 1 else 0)
      && (Listed(s, id) ==> Listed(r, id))
  {
    if more == [] {
      assert h + more == h;
    } else {
      var n := |more| - 1;
      assert (h + more)[..|h + more| - 1] == h + more[..n] && (h + more)[|h + more| - 1] == more[n];
      assert more[n] in more;
      MappedOnceWithFullSearch(h, more[..n], id);
      MappedStep(After(h + more[..n], EveryElement), more[n], id);
    }
  }

  /** As coded, in any state, a buffer that is mapped is mapped again exactly when its entry is
      not the first of the list. */
  lemma MapsAgainUnlessFirst(s: State, id: int)
    requires DataIndexOf(s.datas, id) >= 0
    ensures |Apply(s, Enqueue(id, false, true, true), AsCoded).mapIds| == |s.mapIds| + 1 <==> s.datas[0].id != id
    ensures s.datas[0].id != id <==> DataIndexOf(s.datas, id) > 0
  {
  }

  /** An enqueue that maps a buffer which is listed already, but not first. */
  predicate MapsBehindFirst(s: State, ev: Event) {
    ev.Enqueue? && !ev.eos && ev.infoOk && ev.mapOk && DataIndexOf(s.datas, ev.id) > 0
  }

  lemma DistinctStep(s: State, ev: Event)
    requires DistinctDatas(s.datas)
    ensures DistinctDatas(Apply(s, ev, AsCoded).datas) <==> !MapsBehindFirst(s, ev)
  {
    var r := Apply(s, ev, AsCoded);
    if ev.Enqueue? && !ev.eos && ev.infoOk && ev.mapOk {
      var i := DataIndexOf(s.datas, ev.id);
      if i >= 0 {
        MapsAgainUnlessFirst(s, ev.id);
      }
      if i > 0 {
        assert r.datas[i].id == r.datas[|s.datas|].id;
      }
    }
  }

  /** At no point of the run does the list hold an id twice. */
  ghost predicate AlwaysDistinct(h: seq<Event>) {
    h == [] || (AlwaysDistinct(h[..|h| - 1]) && DistinctDatas(After(h, AsCoded).datas))
  }

  ghost predicate NeverBehindFirst(h: seq<Event>) {
    h == [] || (NeverBehindFirst(h[..|h| - 1]) && !MapsBehindFirst(After(h[..|h| - 1], AsCoded), h[|h| - 1]))
  }

  lemma {:induction false} DistinctAtTheEnd(h: seq<Event>)
    requires AlwaysDistinct(h)
    ensures DistinctDatas(After(h, AsCoded).datas)
  {
  }

  /** As coded, ids stay distinct throughout a run exactly when no enqueue of the run names
      a buffer that is listed behind the first. */
  lemma {:induction false} DistinctAsCodedIff(h: seq<Event>)
    ensures AlwaysDistinct(h) <==> NeverBehindFirst(h)
  {
    if h == [] {
    } else {
      var f := h[..|h| - 1];
      DistinctAsCodedIff(f);
      if AlwaysDistinct(f) {
        DistinctAtTheEnd(f);
        DistinctStep(After(f, AsCoded), h[|h| - 1]);
      }
    }
  }

  lemma ThreeEnqueuesMapTwice(a: int, b: int)
    requires a != b
    ensures var h := [Enqueue(a, false, true, true), Enqueue(b, false, true, true), Enqueue(b, false, true, true)];
      After(h, AsCoded).datas == [DataEntry(a, 0), DataEntry(b, 1), DataEntry(b, 2)]
  {
    var x, y := Enqueue(a, false, true, true), Enqueue(b, false, true, true);
    var h := [x, y, y];
    assert h[..2] == [x, y] && [x, y][..1] == [x];
    assert After([x], AsCoded) == Apply(START, x, AsCoded);
    assert After([x, y], AsCoded) == Apply(After([x], AsCoded), y, AsCoded);
    assert After(h, AsCoded) == Apply(After([x, y], AsCoded), y, AsCoded);
  }
}
