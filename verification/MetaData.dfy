/** Data addresses: what an accepted proposal reports as freed is exactly what the store no longer
    refers to, so no shard data is lost track of and none is given up while in use. */
module MetaData {
  import opened Bytes
  import opened MetaVid
  import opened MetaKeys
  import opened MetaRecords
  import opened MetaApply
  import opened MetaInv
  import opened MetaRuns
  import MetaEffects
  import MetaLock

  /** A row that refers to data. */
  datatype Place = AtVersion(v: VersionKey) | AtPart(q: PartKey)

  /** An entry's bytes are at x: a part's data, or its own. */
  predicate EntryHolds(e: VersionEntry, x: vid) {
    if e.parts != [] then exists i :: 0 <= i < |e.parts| && e.parts[i].dataId == x else x == e.dataId != 0
  }

  predicate Holds(st: State, a: Place, x: vid) {
    match a
    case AtVersion(v) => v in st.versions && EntryHolds(st.versions[v], x)
    case AtPart(q) => q in st.parts && st.parts[q].dataId == x
  }

  ghost predicate Referenced(st: State, x: vid) { exists a :: Holds(st, a, x) }

  /** No address is used twice. */
  ghost predicate DataUnique(st: State) {
    forall a, b, x: vid :: Holds(st, a, x) && Holds(st, b, x) ==> a == b
  }

  lemma DataIdsHeld(e: VersionEntry, x: vid)
    ensures x in DataIds(e) <==> EntryHolds(e, x)
  {
    if e.parts != [] {
      var ids := DataIds(e);
      assert forall i :: 0 <= i < |ids| ==> ids[i] == e.parts[i].dataId;
      if EntryHolds(e, x) {
        var i :| 0 <= i < |e.parts| && e.parts[i].dataId == x;
        assert ids[i] == x;
      }
    }
  }

  // ---- what a change of rows frees ----

  /** How a step moves data: rows that are given up, rows whose data passes to the gained one, and the
      row gained or replaced. */
  datatype Turn = Turn(dropped: iset<Place>, moved: iset<Place>, gained: Option<Place>)

  /** Rows outside the turn hold what they held, and rows that went hold nothing. */
  ghost predicate Moves(st: State, t: State, turn: Turn) {
    && (forall a, x: vid :: turn.gained != Some(a) && a !in turn.dropped + turn.moved ==>
        (Holds(t, a, x) <==> Holds(st, a, x)))
    && (forall a, x: vid :: turn.gained != Some(a) && a in turn.dropped + turn.moved ==> !Holds(t, a, x))
    && (forall a, x: vid :: turn.gained == Some(a) && a !in turn.dropped ==> !Holds(st, a, x))
  }

  /** The freed addresses are those of the given-up rows, and the gained row has the moved ones and
      perhaps a new one. */
  ghost predicate Accounts(st: State, t: State, turn: Turn, freed: seq<vid>, minted: Option<vid>) {
    && (forall x: vid :: x in freed <==> exists a :: a in turn.dropped && Holds(st, a, x))
    && (forall a, x: vid :: a in turn.moved && Holds(st, a, x) ==> turn.gained.Some? && Holds(t, turn.gained.value, x))
    && (turn.gained.Some? ==> forall x: vid :: Holds(t, turn.gained.value, x) ==>
          minted == Some(x) || exists a :: a in turn.moved && a !in turn.dropped && Holds(st, a, x))
  }

  /** Nothing is lost track of, nothing is freed that was not in use, and where addresses are not
      shared nothing is freed that still is. */
  ghost predicate Exact(st: State, t: State, freed: seq<vid>, minted: Option<vid>) {
    && (forall x: vid :: Referenced(st, x) && !Referenced(t, x) ==> x in freed)
    && (forall x: vid :: x in freed ==> Referenced(st, x))
    && (DataUnique(st) && (minted.Some? ==> !Referenced(st, minted.value)) ==>
          (forall x: vid :: x in freed ==> !Referenced(t, x)) && DataUnique(t))
  }

  lemma TurnTracks(st: State, t: State, turn: Turn, freed: seq<vid>, minted: Option<vid>, x: vid)
    requires Moves(st, t, turn) && Accounts(st, t, turn, freed, minted)
    ensures Referenced(st, x) && !Referenced(t, x) ==> x in freed
    ensures x in freed ==> Referenced(st, x)
  {
    hide Holds;
    if Referenced(st, x) && !Referenced(t, x) {
      var a :| Holds(st, a, x);
      assert !Holds(t, a, x);
    }
  }

  /** Who holds an address after the turn held it before, or holds a new one. */
  lemma HolderBefore(st: State, t: State, turn: Turn, freed: seq<vid>, minted: Option<vid>, a: Place, x: vid)
    returns (b: Place)
    requires Moves(st, t, turn) && Accounts(st, t, turn, freed, minted) && Holds(t, a, x) && minted != Some(x)
    ensures Holds(st, b, x) && b !in turn.dropped
    ensures if turn.gained == Some(a) then b in turn.moved else b == a && b !in turn.moved
  {
    hide Holds;
    if turn.gained == Some(a) {
      b :| b in turn.moved && b !in turn.dropped && Holds(st, b, x);
    } else {
      b := a;
    }
  }

  lemma TurnUnique(st: State, t: State, turn: Turn, freed: seq<vid>, minted: Option<vid>, a: Place, b: Place, x: vid)
    requires Moves(st, t, turn) && Accounts(st, t, turn, freed, minted) && DataUnique(st)
    requires minted.Some? ==> !Referenced(st, minted.value)
    requires Holds(t, a, x) && Holds(t, b, x)
    ensures a == b && x !in freed
  {
    hide Holds;
    if minted == Some(x) {
      assert turn.gained == Some(a) && turn.gained == Some(b) by {
        assert !Holds(st, a, x) && !Holds(st, b, x);
      }
    } else {
      var c := HolderBefore(st, t, turn, freed, minted, a, x);
      var d := HolderBefore(st, t, turn, freed, minted, b, x);
      assert c == d;
    }
  }

  lemma TurnExact(st: State, t: State, turn: Turn, freed: seq<vid>, minted: Option<vid>)
    requires Moves(st, t, turn) && Accounts(st, t, turn, freed, minted)
    ensures Exact(st, t, freed, minted)
  {
    hide Moves, Accounts, Holds;
    forall x: vid
      ensures Referenced(st, x) && !Referenced(t, x) ==> x in freed
      ensures x in freed ==> Referenced(st, x)
    {
      TurnTracks(st, t, turn, freed, minted, x);
    }
    if DataUnique(st) && (minted.Some? ==> !Referenced(st, minted.value)) {
      forall a, b, x: vid | Holds(t, a, x) && Holds(t, b, x)
        ensures a == b && x !in freed
      {
        TurnUnique(st, t, turn, freed, minted, a, b, x);
      }
    }
  }

  // ---- commits ----

  /** What a version the key has stands for. */
  function Slot(b: bytes, k: bytes, id: vid): Place { AtVersion(VersionKey(b, k, id)) }

  /** The null version a commit replaces, if any. */
  ghost function Replaced(st: State, b: bytes, k: bytes, e: VersionEntry): iset<Place> {
    if e.nullVersion && NullIds(st, b, k) != {} then iset{Slot(b, k, MaxId(NullIds(st, b, k)))} else iset{}
  }

  lemma CommitMoves(st: State, b: bytes, k: bytes, at: int64, e: VersionEntry)
    requires Fresh(st, b, k, e.id) && Commit(st, b, k, at, e).res.Ok?
    ensures Moves(st, Commit(st, b, k, at, e).st, Turn(Replaced(st, b, k, e), iset{}, Some(Slot(b, k, e.id))))
    ensures Slot(b, k, e.id) !in Replaced(st, b, k, e)
    ensures forall x: vid :: Holds(Commit(st, b, k, at, e).st, Slot(b, k, e.id), x) <==> EntryHolds(e, x)
  {
    hide EntryHolds, LockedAt, CurrentFor;
    assert e.id !in Ids(st, b, k);
    assert VersionKey(b, k, e.id) !in st.versions;
  }

  lemma CommitFreed(st: State, b: bytes, k: bytes, at: int64, e: VersionEntry, x: vid)
    requires Commit(st, b, k, at, e).res.Ok?
    ensures x in Commit(st, b, k, at, e).res.value.freed <==> exists a :: a in Replaced(st, b, k, e) && Holds(st, a, x)
  {
    hide EntryHolds, LockedAt, DataIds;
    var nulls := NullIds(st, b, k);
    if e.nullVersion && nulls != {} {
      var prior := Slot(b, k, MaxId(nulls));
      DataIdsHeld(st.versions[VersionKey(b, k, MaxId(nulls))], x);
      assert prior in Replaced(st, b, k, e);
    }
  }

  lemma CommitExact(st: State, b: bytes, k: bytes, at: int64, e: VersionEntry, minted: Option<vid>)
    requires Fresh(st, b, k, e.id) && Commit(st, b, k, at, e).res.Ok?
    requires forall x: vid :: EntryHolds(e, x) ==> minted == Some(x)
    ensures Exact(st, Commit(st, b, k, at, e).st, Commit(st, b, k, at, e).res.value.freed, minted)
  {
    var turn := Turn(Replaced(st, b, k, e), iset{}, Some(Slot(b, k, e.id)));
    CommitMoves(st, b, k, at, e);
    forall x: vid
      ensures x in Commit(st, b, k, at, e).res.value.freed <==> exists a :: a in turn.dropped && Holds(st, a, x)
    {
      CommitFreed(st, b, k, at, e, x);
    }
    hide Commit, Holds, EntryHolds, Moves, Replaced;
    TurnExact(st, Commit(st, b, k, at, e).st, turn, Commit(st, b, k, at, e).res.value.freed, minted);
  }

  lemma PutExact(st: State, p: Proposal, calendar: Calendar)
    requires p.PutObject? && Room(st, p) && Step(st, p, calendar).res.Ok?
    ensures Exact(st, Step(st, p, calendar).st, Step(st, p, calendar).res.value.freed, Some(p.id))
  {
    hide Exact, Bumped, Commit, ValidObjectKey;
    BumpedIsFresh(st, p.bucket, p.key, p.id);
    var e := PutEntry(st.buckets[p.bucket], p, Bumped(st, p.bucket, p.key, p.id), calendar);
    CommitExact(st, p.bucket, p.key, p.at, e, Some(p.id));
  }

  lemma DeleteObjectExact(st: State, p: Proposal, calendar: Calendar)
    requires p.DeleteObject? && Room(st, p) && Step(st, p, calendar).res.Ok?
    ensures Exact(st, Step(st, p, calendar).st, Step(st, p, calendar).res.value.freed, None)
  {
    hide Exact, Bumped, Commit, ValidObjectKey, Newest, LockedAt, DataIds;
    var newest := Newest(st, p.bucket, p.key);
    if st.buckets[p.bucket].versioning != Unversioned {
      BumpedIsFresh(st, p.bucket, p.key, p.id);
      var e := Marker(st.buckets[p.bucket], p, Bumped(st, p.bucket, p.key, p.id));
      CommitExact(st, p.bucket, p.key, p.at, e, None);
    } else if newest.None? {
      NothingMoves(st, st);
    } else {
      NewestPresent(st, p.bucket, p.key);
      RemovalExact(st, VersionKey(p.bucket, p.key, newest.value), Step(st, p, calendar).st);
    }
  }

  lemma NewestPresent(st: State, b: bytes, k: bytes)
    requires Newest(st, b, k).Some?
    ensures VersionKey(b, k, Newest(st, b, k).value) in st.versions
  {
    assert Newest(st, b, k).value in Ids(st, b, k);
  }

  /** No version's data and no part changed. */
  lemma NothingMoves(st: State, t: State)
    requires forall a, x: vid :: Holds(t, a, x) <==> Holds(st, a, x)
    ensures Exact(st, t, [], None)
  {
    hide Holds;
    TurnExact(st, t, Turn(iset{}, iset{}, None), [], None);
  }

  lemma RemovalExact(st: State, v: VersionKey, t: State)
    requires v in st.versions && t.versions == st.versions - {v} && t.parts == st.parts
    ensures Exact(st, t, DataIds(st.versions[v]), None)
  {
    hide EntryHolds, DataIds;
    var turn := Turn(iset{AtVersion(v)}, iset{}, None);
    forall x: vid
      ensures x in DataIds(st.versions[v]) <==> exists a :: a in turn.dropped && Holds(st, a, x)
    {
      DataIdsHeld(st.versions[v], x);
      assert AtVersion(v) in turn.dropped;
    }
    TurnExact(st, t, turn, DataIds(st.versions[v]), None);
  }

  // ---- uploads ----

  lemma UploadPartExact(st: State, p: Proposal, calendar: Calendar)
    requires p.UploadPart? && Step(st, p, calendar).res.Ok?
    ensures Exact(st, Step(st, p, calendar).st, Step(st, p, calendar).res.value.freed, Some(p.dataId))
  {
    hide ValidObjectKey, EntryHolds;
    var a, t := AtPart(PartKey(p.bucket, p.key, p.id, p.number)), Step(st, p, calendar).st;
    var turn := Turn(iset{a}, iset{}, Some(a));
    assert a in turn.dropped;
    TurnExact(st, t, turn, Step(st, p, calendar).res.value.freed, Some(p.dataId));
  }

  /** A part of the upload that a completion lists, or does not. */
  ghost predicate PartOf(st: State, a: Place, b: bytes, k: bytes, id: vid, parts: seq<CompletedPart>, listed: bool) {
    && a.AtPart? && a.q in st.parts && a.q.bucket == b && a.q.key == k && a.q.id == id
    && Listed(parts, a.q.part) == listed
  }

  ghost function PartsOf(st: State, b: bytes, k: bytes, id: vid, parts: seq<CompletedPart>, listed: bool): iset<Place> {
    iset a | PartOf(st, a, b, k, id, parts, listed)
  }

  predicate Numbered(st: State) { forall q :: q in st.parts ==> st.parts[q].number == q.part }

  /** The unused addresses among the parts numbered below n. */
  lemma {:induction false} UnusedBelow(st: State, b: bytes, k: bytes, id: vid, parts: seq<CompletedPart>, n: nat,
                                       x: vid)
    requires Numbered(st) && n <= 0x1_0000_0000
    ensures x in UnusedIds(PartsBelow(st, b, k, id, n), parts) <==>
      exists i: uint32 ::
        i < n && Holds(st, AtPart(PartKey(b, k, id, i)), x) && !Listed(parts, i)
  {
    hide Listed;
    if n > 0 {
      UnusedBelow(st, b, k, id, parts, n - 1, x);
      var q := PartKey(b, k, id, n - 1);
      var before := PartsBelow(st, b, k, id, n - 1);
      if q in st.parts {
        assert (before + [st.parts[q]])[..|before|] == before;
      } else {
        assert before + [] == before;
      }
    }
  }

  lemma UnusedHeld(st: State, b: bytes, k: bytes, id: vid, parts: seq<CompletedPart>, x: vid)
    requires Numbered(st)
    ensures x in UnusedIds(AllParts(st, b, k, id), parts) <==>
      exists a :: a in PartsOf(st, b, k, id, parts, false) && Holds(st, a, x)
  {
    hide Listed, UnusedIds, PartsBelow;
    UnusedBelow(st, b, k, id, parts, 0x1_0000_0000, x);
    if a :| a in PartsOf(st, b, k, id, parts, false) && Holds(st, a, x) {
      assert a.q == PartKey(b, k, id, a.q.part);
    }
    if i: uint32 :| i < 0x1_0000_0000 && Holds(st, AtPart(PartKey(b, k, id, i)), x) && !Listed(parts, i) {
      assert AtPart(PartKey(b, k, id, i)) in PartsOf(st, b, k, id, parts, false);
    }
  }

  lemma AbortExact(st: State, p: Proposal, calendar: Calendar)
    requires p.AbortUpload? && Numbered(st) && Step(st, p, calendar).res.Ok?
    ensures Exact(st, Step(st, p, calendar).st, Step(st, p, calendar).res.value.freed, None)
  {
    hide ValidObjectKey, EntryHolds, UnusedIds, PartsBelow;
    var t, freed := Step(st, p, calendar).st, Step(st, p, calendar).res.value.freed;
    var turn := Turn(PartsOf(st, p.bucket, p.key, p.id, [], false), iset{}, None);
    forall x: vid
      ensures x in freed <==> exists a :: a in turn.dropped && Holds(st, a, x)
    {
      UnusedHeld(st, p.bucket, p.key, p.id, [], x);
    }
    assert Moves(st, t, turn);
    TurnExact(st, t, turn, freed, None);
  }

  /** A completed entry holds the data of its listed parts. */
  lemma CompletedHolds(st: State, p: Proposal, e: VersionEntry, x: vid)
    requires p.CompleteUpload? && p.parts != [] && VersionKey(p.bucket, p.key, p.upload) in st.uploads
    requires p.bucket in st.buckets && FirstPartError(st, p, 0).None? &&
      e == CompletedEntry(st, st.buckets[p.bucket], p, e.id)
    ensures EntryHolds(e, x) <==>
      exists a :: a in PartsOf(st, p.bucket, p.key, p.upload, p.parts, true) && Holds(st, a, x)
  {
    PartsPresent(st, p, 0);
    assert forall j :: 0 <= j < |p.parts| ==>
      MetaEffects.ListedPart(p, j) == PartKey(p.bucket, p.key, p.upload, p.parts[j].number);
    forall i | 0 <= i < |p.parts|
      ensures |e.parts| == |p.parts| && e.parts[i].dataId == st.parts[MetaEffects.ListedPart(p, i)].dataId
    {
      MetaEffects.AssembledAt(st, p, |p.parts|, i);
    }
    hide Assembled, FirstPartError;
    assert |e.parts| == |p.parts| by { assert |p.parts| > 0; MetaEffects.AssembledAt(st, p, |p.parts|, 0); }
    if EntryHolds(e, x) {
      var i :| 0 <= i < |e.parts| && e.parts[i].dataId == x;
      assert p.parts[i].number == p.parts[i].number && Listed(p.parts, p.parts[i].number);
      assert AtPart(MetaEffects.ListedPart(p, i)) in PartsOf(st, p.bucket, p.key, p.upload, p.parts, true);
    }
    if a :| a in PartsOf(st, p.bucket, p.key, p.upload, p.parts, true) && Holds(st, a, x) {
      var i :| 0 <= i < |p.parts| && p.parts[i].number == a.q.part;
      assert a.q == MetaEffects.ListedPart(p, i);
    }
  }

  /** The commit of a completion, and the upload that goes with it. */
  lemma CompletedMoves(st: State, p: Proposal, e: VersionEntry)
    requires p.CompleteUpload? && Fresh(st, p.bucket, p.key, e.id)
    requires Commit(st, p.bucket, p.key, p.at, e).res.Ok?
    ensures Moves(st, UploadDropped(Commit(st, p.bucket, p.key, p.at, e).st, p.bucket, p.key, p.upload),
                  CompletedTurn(st, p, e))
    ensures forall x: vid :: EntryHolds(e, x) <==>
      Holds(UploadDropped(Commit(st, p.bucket, p.key, p.at, e).st, p.bucket, p.key, p.upload),
            Slot(p.bucket, p.key, e.id), x)
  {
    CommitMoves(st, p.bucket, p.key, p.at, e);
    MetaEffects.CommitUploads(st, p.bucket, p.key, p.at, e);
    hide Commit, EntryHolds, Listed, Replaced;
    ReplacedIsVersion(st, p.bucket, p.key, e);
  }

  lemma ReplacedIsVersion(st: State, b: bytes, k: bytes, e: VersionEntry)
    ensures forall a :: a in Replaced(st, b, k, e) ==> a.AtVersion?
  {
  }

  ghost function CompletedTurn(st: State, p: Proposal, e: VersionEntry): Turn
    requires p.CompleteUpload?
  {
    Turn(Replaced(st, p.bucket, p.key, e) + PartsOf(st, p.bucket, p.key, p.upload, p.parts, false),
         PartsOf(st, p.bucket, p.key, p.upload, p.parts, true), Some(Slot(p.bucket, p.key, e.id)))
  }

  lemma CompletedFreed(st: State, p: Proposal, e: VersionEntry, x: vid)
    requires p.CompleteUpload? && Numbered(st) && Commit(st, p.bucket, p.key, p.at, e).res.Ok?
    ensures x in Commit(st, p.bucket, p.key, p.at, e).res.value.freed +
                 UnusedIds(AllParts(st, p.bucket, p.key, p.upload), p.parts) <==>
      exists a :: a in CompletedTurn(st, p, e).dropped && Holds(st, a, x)
  {
    CommitFreed(st, p.bucket, p.key, p.at, e, x);
    UnusedHeld(st, p.bucket, p.key, p.upload, p.parts, x);
    hide Commit, Holds, UnusedIds, AllParts, PartsOf, Replaced;
  }

  lemma CompletedAccounts(st: State, p: Proposal, e: VersionEntry, freed: seq<vid>)
    requires p.CompleteUpload? && p.parts != [] && VersionKey(p.bucket, p.key, p.upload) in st.uploads && Numbered(st)
    requires p.bucket in st.buckets && FirstPartError(st, p, 0).None? &&
      e == CompletedEntry(st, st.buckets[p.bucket], p, e.id)
    requires Fresh(st, p.bucket, p.key, e.id) && Commit(st, p.bucket, p.key, p.at, e).res.Ok?
    requires freed == Commit(st, p.bucket, p.key, p.at, e).res.value.freed +
      UnusedIds(AllParts(st, p.bucket, p.key, p.upload), p.parts)
    ensures Exact(st, UploadDropped(Commit(st, p.bucket, p.key, p.at, e).st, p.bucket, p.key, p.upload), freed, None)
  {
    var t := UploadDropped(Commit(st, p.bucket, p.key, p.at, e).st, p.bucket, p.key, p.upload);
    var turn := CompletedTurn(st, p, e);
    CompletedMoves(st, p, e);
    forall x: vid
      ensures x in freed <==> exists a :: a in turn.dropped && Holds(st, a, x)
      ensures EntryHolds(e, x) <==> exists a :: a in turn.moved && Holds(st, a, x)
    {
      CompletedHolds(st, p, e, x);
      CompletedFreed(st, p, e, x);
    }
    MovedNotDropped(st, p, e);
    hide Commit, Holds, EntryHolds, UploadDropped, Moves, UnusedIds, AllParts, Exact, CompletedEntry, PartsOf, Replaced;
    assert Accounts(st, t, turn, freed, None);
    TurnExact(st, t, turn, freed, None);
  }

  lemma MovedNotDropped(st: State, p: Proposal, e: VersionEntry)
    requires p.CompleteUpload?
    ensures forall a :: a in CompletedTurn(st, p, e).moved ==> a !in CompletedTurn(st, p, e).dropped
  {
    ReplacedIsVersion(st, p.bucket, p.key, e);
    hide Replaced, Listed;
  }

  lemma CompleteExact(st: State, p: Proposal, calendar: Calendar)
    requires p.CompleteUpload? && Numbered(st) && Room(st, p) && Step(st, p, calendar).res.Ok?
    ensures Exact(st, Step(st, p, calendar).st, Step(st, p, calendar).res.value.freed, None)
  {
    hide Exact, Bumped, Commit, ValidObjectKey, UnusedIds, AllParts, UploadDropped;
    BumpedIsFresh(st, p.bucket, p.key, p.id);
    var e := CompletedEntry(st, st.buckets[p.bucket], p, Bumped(st, p.bucket, p.key, p.id));
    CompletedAccounts(st, p, e, Step(st, p, calendar).res.value.freed);
  }

  // ---- every proposal ----

  /** The address a proposal brings. */
  function Brings(p: Proposal): Option<vid> {
    match p
    case PutObject(_, _, _, id, _, _, _, _, _, _, _, _, _) => Some(id)
    case UploadPart(_, _, _, _, _, dataId, _, _, _, _) => Some(dataId)
    case ReEncodeObject(_, _, _, _, dataId, _, _, _) => Some(dataId)
    case _ => None
  }

  /** What an accepted proposal gives up: what it reports as freed and, for one that removes or
      re-encodes a version, whose proposer holds the entry, what that entry named. */
  ghost function Released(st: State, p: Proposal, calendar: Calendar): seq<vid>
    requires Step(st, p, calendar).res.Ok?
  {
    Step(st, p, calendar).res.value.freed +
    if (p.DeleteVersion? || p.ReEncodeObject?) && VersionKey(p.bucket, p.key, p.id) in st.versions
      then DataIds(st.versions[VersionKey(p.bucket, p.key, p.id)])
    else []
  }

  lemma NamedExact(st: State, p: Proposal, calendar: Calendar)
    requires (p.DeleteVersion? || p.ReEncodeObject?) && Step(st, p, calendar).res.Ok?
    ensures Exact(st, Step(st, p, calendar).st, Released(st, p, calendar), Brings(p))
  {
    hide Exact, Step, DataIds, ValidObjectKey;
    var v, t := VersionKey(p.bucket, p.key, p.id), Step(st, p, calendar).st;
    FreesNothing(st, p, calendar);
    if v !in st.versions {
      DeleteIdle(st, p, calendar);
      NothingMoves(st, t);
      assert Released(st, p, calendar) == [];
    } else {
      assert [] + DataIds(st.versions[v]) == DataIds(st.versions[v]);
      if p.DeleteVersion? {
        DeleteVersionParts(st, p, calendar);
        RemovalExact(st, v, t);
      } else {
        MetaLock.ReEncodeExactly(st, p, calendar);
        ReplacementExact(st, v, t, p.dataId);
      }
    }
  }

  lemma FreesNothing(st: State, p: Proposal, calendar: Calendar)
    requires (p.DeleteVersion? || p.ReEncodeObject?) && Step(st, p, calendar).res.Ok?
    ensures Step(st, p, calendar).res.value.freed == []
  {
    hide ValidObjectKey, Newest, RederivedRows, LockedAt;
  }

  lemma DeleteIdle(st: State, p: Proposal, calendar: Calendar)
    requires (p.DeleteVersion? || p.ReEncodeObject?) && Step(st, p, calendar).res.Ok?
    requires VersionKey(p.bucket, p.key, p.id) !in st.versions
    ensures Step(st, p, calendar).st == st && p.DeleteVersion?
  {
  }

  lemma DeleteVersionParts(st: State, p: Proposal, calendar: Calendar)
    requires p.DeleteVersion? && Step(st, p, calendar).res.Ok? && VersionKey(p.bucket, p.key, p.id) in st.versions
    ensures Step(st, p, calendar).st.parts == st.parts
    ensures Step(st, p, calendar).st.versions == st.versions - {VersionKey(p.bucket, p.key, p.id)}
  {
    hide ValidObjectKey, Newest, RederivedRows, LockedAt;
  }

  /** A version stored whole, its data replaced. */
  lemma ReplacementExact(st: State, v: VersionKey, t: State, dataId: vid)
    requires v in st.versions && v in t.versions && t == st.(versions := st.versions[v := t.versions[v]])
    requires st.versions[v].parts == t.versions[v].parts == [] && t.versions[v].dataId == dataId
    ensures Exact(st, t, DataIds(st.versions[v]), Some(dataId))
  {
    hide DataIds;
    var turn := Turn(iset{AtVersion(v)}, iset{}, Some(AtVersion(v)));
    forall x: vid
      ensures x in DataIds(st.versions[v]) <==> exists a :: a in turn.dropped && Holds(st, a, x)
    {
      DataIdsHeld(st.versions[v], x);
      assert AtVersion(v) in turn.dropped;
    }
    TurnExact(st, t, turn, DataIds(st.versions[v]), Some(dataId));
  }

  /** A rewrite of a version's lock or key, and what touches no version or part at all. */
  lemma QuietExact(st: State, p: Proposal, calendar: Calendar)
    requires !Committing(p) && !p.DeleteVersion? && !p.ReEncodeObject? && !p.UploadPart? && !p.AbortUpload?
    requires Step(st, p, calendar).res.Ok?
    ensures Step(st, p, calendar).res.value.freed == [] && Exact(st, Step(st, p, calendar).st, [], None)
  {
    hide Exact, Step, MetaLock.ChangedBy;
    var t := Step(st, p, calendar).st;
    QuietRows(st, p, calendar);
    forall a, x: vid
      ensures Holds(t, a, x) <==> Holds(st, a, x)
    {
      if a.AtVersion? && a.v in st.versions {
        if Rewriting(p) {
          MetaLock.RewriteChanges(st, p, calendar, a.v);
          SameHolds(st.versions[a.v], t.versions[a.v], p, a.v, x);
        } else {
          QuietSpares(st, p, calendar);
        }
      }
    }
    NothingMoves(st, t);
  }

  lemma SameHolds(e: VersionEntry, f: VersionEntry, p: Proposal, v: VersionKey, x: vid)
    requires MetaLock.ChangedBy(e, f, p, v) && !p.ReEncodeObject?
    ensures EntryHolds(e, x) <==> EntryHolds(f, x)
  {
  }

  lemma QuietRows(st: State, p: Proposal, calendar: Calendar)
    requires !Committing(p) && !p.DeleteVersion? && !p.ReEncodeObject? && !p.UploadPart? && !p.AbortUpload?
    requires Step(st, p, calendar).res.Ok?
    ensures Step(st, p, calendar).res.value.freed == [] && Step(st, p, calendar).st.parts == st.parts
    ensures Step(st, p, calendar).st.versions.Keys == st.versions.Keys
  {
    hide ValidObjectKey, ValidBucketName, BucketEmpty;
  }

  lemma NumberedParts(st: State)
    requires Inv(st)
    ensures Numbered(st)
  {
  }

  /** Conservation: what an accepted proposal gives up is exactly what the store no longer refers to.
      No address drops out of the store without being given up, none is given up that was not in the
      store, and while every address is brought once, none that is still in it. */
  lemma FreedExactly(st: State, p: Proposal, calendar: Calendar)
    requires Inv(st) && Room(st, p) && Step(st, p, calendar).res.Ok?
    ensures Exact(st, Step(st, p, calendar).st, Released(st, p, calendar), Brings(p))
  {
    hide Exact, Step, Inv, Room;
    NumberedParts(st);
    var freed := Step(st, p, calendar).res.value.freed;
    assert freed + [] == freed;
    if p.PutObject? {
      PutExact(st, p, calendar);
    } else if p.DeleteObject? {
      DeleteObjectExact(st, p, calendar);
    } else if p.CompleteUpload? {
      CompleteExact(st, p, calendar);
    } else if p.DeleteVersion? || p.ReEncodeObject? {
      NamedExact(st, p, calendar);
    } else if p.UploadPart? {
      UploadPartExact(st, p, calendar);
    } else if p.AbortUpload? {
      AbortExact(st, p, calendar);
    } else {
      QuietExact(st, p, calendar);
    }
  }

  /** The i-th proposal of a log gave up x. */
  ghost predicate GaveUp(st: State, log: seq<Proposal>, calendar: Calendar, i: nat, x: vid)
    requires i < |log|
  {
    var before := Run(st, log[..i], calendar);
    Step(before, log[i], calendar).res.Ok? && x in Released(before, log[i], calendar)
  }

  /** Over any log: an address in the store at some point and not at the end was given up in between. */
  lemma {:induction false} NoDataLost(st: State, log: seq<Proposal>, calendar: Calendar, top: nat, n: nat, x: vid)
    requires Inv(st) && IdsWithin(st, top) && MintedWithin(log, top) && top + Commits(log) < TwoTo128
    requires n <= |log| && Referenced(Run(st, log[..n], calendar), x) && !Referenced(Run(st, log, calendar), x)
    ensures exists i :: n <= i < |log| && GaveUp(st, log, calendar, i, x)
    decreases |log| - n
  {
    hide Inv, Step, IdsWithin, Referenced, Released, MintedWithin, Commits, Room, Run;
    assert log[..|log|] == log;
    RoomAt(st, log, calendar, top, n);
    InvAt(st, log, calendar, top, n);
    var before := Run(st, log[..n], calendar);
    RunNext(st, log, calendar, n);
    if Step(before, log[n], calendar).res.Ok? {
      FreedExactly(before, log[n], calendar);
    } else {
      RefusalChangesNothing(before, log[n], calendar);
    }
    if Referenced(Run(st, log[..n + 1], calendar), x) {
      NoDataLost(st, log, calendar, top, n + 1, x);
    } else {
      assert GaveUp(st, log, calendar, n, x);
    }
  }

  lemma RunNext(st: State, log: seq<Proposal>, calendar: Calendar, n: nat)
    requires n < |log|
    ensures Run(st, log[..n + 1], calendar) == Step(Run(st, log[..n], calendar), log[n], calendar).st
  {
    assert log[..n + 1][..n] == log[..n];
  }

  lemma InvAt(st: State, log: seq<Proposal>, calendar: Calendar, top: nat, n: nat)
    requires Inv(st) && IdsWithin(st, top) && MintedWithin(log, top) && top + Commits(log) < TwoTo128 && n < |log|
    ensures Inv(Run(st, log[..n], calendar))
  {
    hide Inv, Run, IdsWithin;
    CommitsGrow(log, n);
    RunKeepsInv(st, log[..n], calendar, top);
  }
}