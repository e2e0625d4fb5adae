/** What every reachable store keeps: the derived current row of every key, the null-version
    rules, and version IDs that grow with commit order. */
module MetaInv {
  import opened Bytes
  import opened MetaVid
  import opened MetaKeys
  import opened MetaRecords
  import MetaSystem
  import opened MetaApply

  // ---- the invariant, key by key ----

  /** The newest version of a key is a live object. */
  ghost predicate Live(st: State, b: bytes, k: bytes) {
    var newest := Newest(st, b, k);
    newest.Some? && st.versions[VersionKey(b, k, newest.value)].kind == KindObject
  }

  /** A key has a current row exactly when its newest version is a live object, and the row is
      derived from that version. */
  ghost predicate CurrentMatches(st: State, b: bytes, k: bytes) {
    && (ObjectKey(b, k) in st.current <==> Live(st, b, k))
    && (Live(st, b, k) ==>
          st.current[ObjectKey(b, k)] == CurrentFor(st.versions[VersionKey(b, k, Newest(st, b, k).value)]))
  }

  /** What a listing row says of a version: its ID, size, ETag, date and number of parts. */
  predicate Shows(r: CurrentRecord, e: VersionEntry) {
    && r.id == e.id && r.size == e.size && r.etag == e.etag && r.createdMS == e.createdMS
    && r.partCount == |e.parts| % 0x1_0000_0000 && r.formatVersion == FormatVersion && r.unknown == []
  }

  lemma ShowsExactly(r: CurrentRecord, e: VersionEntry)
    ensures Shows(r, e) <==> r == CurrentFor(e)
  {
  }

  /** At most one null version; nothing but it in an unversioned bucket; none under lock. */
  ghost predicate NullRules(st: State, b: bytes, k: bytes) {
    && (forall i, j :: i in NullIds(st, b, k) && j in NullIds(st, b, k) ==> i == j)
    && (b in st.buckets && st.buckets[b].versioning == Unversioned ==> Ids(st, b, k) == NullIds(st, b, k))
    && (b in st.buckets && st.buckets[b].lockEnabled ==> NullIds(st, b, k) == {})
  }

  ghost predicate Named(st: State, b: bytes, k: bytes) {
    && (forall id: vid :: VersionKey(b, k, id) in st.versions ==> st.versions[VersionKey(b, k, id)].id == id)
    && (Ids(st, b, k) != {} ==> b in st.buckets && ValidObjectKey(k))
  }

  ghost predicate KeyInv(st: State, b: bytes, k: bytes) {
    CurrentMatches(st, b, k) && NullRules(st, b, k) && Named(st, b, k)
  }

  predicate BucketsOk(st: State) {
    forall b :: b in st.buckets ==>
      ValidBucketName(b) && (st.buckets[b].lockEnabled ==> st.buckets[b].versioning == VersioningEnabled)
  }

  predicate UploadsOk(st: State) {
    && (forall u :: u in st.uploads ==> u.bucket in st.buckets && ValidObjectKey(u.key))
    && (forall q :: q in st.parts ==> VersionKey(q.bucket, q.key, q.id) in st.uploads && st.parts[q].number == q.part)
  }

  ghost predicate Inv(st: State) {
    BucketsOk(st) && UploadsOk(st) && forall b, k :: KeyInv(st, b, k)
  }

  lemma EmptyInv()
    ensures Inv(Empty)
  {
    forall b, k
      ensures KeyInv(Empty, b, k)
    {
      assert Ids(Empty, b, k) == {} && NullIds(Empty, b, k) == {};
    }
  }

  // ---- frames ----

  /** Nothing about a key changed. */
  ghost predicate SameKey(s: State, t: State, b: bytes, k: bytes) {
    && (forall id: vid :: Find(s.versions, VersionKey(b, k, id)) == Find(t.versions, VersionKey(b, k, id)))
    && Find(s.current, ObjectKey(b, k)) == Find(t.current, ObjectKey(b, k))
  }

  lemma SameKeyReads(s: State, t: State, b: bytes, k: bytes)
    requires SameKey(s, t, b, k)
    ensures Ids(s, b, k) == Ids(t, b, k) && NullIds(s, b, k) == NullIds(t, b, k)
    ensures Newest(s, b, k) == Newest(t, b, k)
    ensures forall id: vid :: VersionKey(b, k, id) in s.versions ==>
      VersionKey(b, k, id) in t.versions && s.versions[VersionKey(b, k, id)] == t.versions[VersionKey(b, k, id)]
    ensures forall id: vid :: VersionKey(b, k, id) in t.versions ==> VersionKey(b, k, id) in s.versions
  {
    forall id: vid
      ensures VersionKey(b, k, id) in s.versions <==> VersionKey(b, k, id) in t.versions
      ensures VersionKey(b, k, id) in s.versions ==>
        s.versions[VersionKey(b, k, id)] == t.versions[VersionKey(b, k, id)]
    {
      assert Find(s.versions, VersionKey(b, k, id)) == Find(t.versions, VersionKey(b, k, id));
    }
    assert Ids(s, b, k) == Ids(t, b, k);
    assert NullIds(s, b, k) == NullIds(t, b, k);
  }

  /** What a bucket's configuration says that a key's invariant reads. */
  predicate BucketAllows(s: State, t: State, b: bytes) {
    && (b in s.buckets ==> b in t.buckets)
    && (b in t.buckets ==>
         b in s.buckets
         && (t.buckets[b].versioning == Unversioned ==> s.buckets[b].versioning == Unversioned)
         && (t.buckets[b].lockEnabled ==> s.buckets[b].lockEnabled))
  }

  lemma SameKeyKeeps(s: State, t: State, b: bytes, k: bytes)
    requires SameKey(s, t, b, k) && BucketAllows(s, t, b) && KeyInv(s, b, k)
    ensures KeyInv(t, b, k)
  {
    SameKeyReads(s, t, b, k);
    hide Newest, Ids, NullIds;
    assert Live(s, b, k) == Live(t, b, k);
  }

  // ---- commits ----

  /** The ID a commit uses is fresh: above every version of the key. */
  ghost predicate Fresh(st: State, b: bytes, k: bytes, id: vid) {
    forall x :: x in Ids(st, b, k) ==> x < id
  }

  /** Bumping makes the ID fresh unless the newest is the last ID there is. */
  lemma BumpedIsFresh(st: State, b: bytes, k: bytes, minted: vid)
    ensures Fresh(st, b, k, Bumped(st, b, k, minted)) <==>
      !(Newest(st, b, k) == Some(TwoTo128 - 1))
  {
    var newest := Newest(st, b, k);
    if newest.Some? {
      assert newest.value in Ids(st, b, k);
    }
  }

  /** A put or marker may be a null version only where the bucket says so. */
  ghost predicate NullFits(st: State, b: bytes, e: VersionEntry) {
    && b in st.buckets
    && (e.nullVersion ==> st.buckets[b].versioning != VersioningEnabled)
    && (st.buckets[b].versioning == Unversioned ==> e.nullVersion)
  }

  lemma InsertIds(st: State, b: bytes, k: bytes, e: VersionEntry)
    requires e.id !in Ids(st, b, k)
    ensures var t := WithVersion(st, b, k, e);
      && Ids(t, b, k) == Ids(st, b, k) + {e.id}
      && NullIds(t, b, k) == (if e.nullVersion then NullIds(st, b, k) + {e.id} else NullIds(st, b, k))
      && (forall id: vid :: id in Ids(st, b, k) ==>
          t.versions[VersionKey(b, k, id)] == st.versions[VersionKey(b, k, id)])
  {
    var t := WithVersion(st, b, k, e);
    assert t.versions == st.versions[VersionKey(b, k, e.id) := e];
    assert Ids(t, b, k) == Ids(st, b, k) + {e.id};
    assert NullIds(t, b, k) == (if e.nullVersion then NullIds(st, b, k) + {e.id} else NullIds(st, b, k));
  }

  lemma MaxOfFresh(s: set<vid>, x: vid)
    requires forall y :: y in s ==> y < x
    ensures MaxId(s + {x}) == x
  {
    assert x in s + {x};
  }

  /** The IDs after a commit: the prior null version gives way to a null commit, and the new
      version is the newest. */
  lemma CommitIds(st: State, b: bytes, k: bytes, at: int64, e: VersionEntry)
    requires Fresh(st, b, k, e.id) && NullRules(st, b, k) && Commit(st, b, k, at, e).res.Ok?
    ensures var t := Commit(st, b, k, at, e).st;
      var kept := if e.nullVersion then Ids(st, b, k) - NullIds(st, b, k) else Ids(st, b, k);
      && Ids(t, b, k) == kept + {e.id}
      && Newest(t, b, k) == Some(e.id)
      && NullIds(t, b, k) == (if e.nullVersion then {e.id} else NullIds(st, b, k))
      && (forall id: vid :: id in kept ==> t.versions[VersionKey(b, k, id)] == st.versions[VersionKey(b, k, id)])
      && t.versions[VersionKey(b, k, e.id)] == e
  {
    var nulls := NullIds(st, b, k);
    var cleared := st;
    if e.nullVersion && nulls != {} {
      var m := MaxId(nulls);
      assert nulls == {m};
      WithoutIds(st, b, k, m);
      cleared := WithoutVersion(st, b, k, m);
    }
    assert forall i :: i in nulls ==> i in Ids(st, b, k);
    hide Ids, NullIds, WithoutVersion;
    InsertIds(cleared, b, k, e);
    MaxOfFresh(Ids(cleared, b, k), e.id);
    assert nulls == {} ==> Ids(st, b, k) - nulls == Ids(st, b, k);
  }

  /** A fresh commit keeps the key's invariant. */
  lemma CommitKeepsKey(st: State, b: bytes, k: bytes, at: int64, e: VersionEntry)
    requires KeyInv(st, b, k) && BucketsOk(st) && ValidObjectKey(k) && Fresh(st, b, k, e.id) && NullFits(st, b, e)
    requires Commit(st, b, k, at, e).res.Ok?
    ensures KeyInv(Commit(st, b, k, at, e).st, b, k)
  {
    hide Commit, Newest, Ids, NullIds, CurrentFor, ValidObjectKey;
    CommitIds(st, b, k, at, e);
    var t := Commit(st, b, k, at, e).st;
    CommitCurrent(st, b, k, at, e);
    assert t.buckets == st.buckets;
    assert NullRules(t, b, k);
    assert Named(t, b, k) by {
      forall id: vid | VersionKey(b, k, id) in t.versions
        ensures t.versions[VersionKey(b, k, id)].id == id
      {
        assert id in Ids(t, b, k);
      }
    }
  }

  lemma CommitCurrent(st: State, b: bytes, k: bytes, at: int64, e: VersionEntry)
    requires Commit(st, b, k, at, e).res.Ok?
    ensures var t := Commit(st, b, k, at, e).st;
      && t.buckets == st.buckets && t.uploads == st.uploads && t.parts == st.parts
      && Find(t.current, ObjectKey(b, k)) == (if e.kind == KindObject then Some(CurrentFor(e)) else None)
  {
  }

  /** A commit leaves every other key alone. */
  lemma CommitElsewhere(st: State, b: bytes, k: bytes, at: int64, e: VersionEntry, b': bytes, k': bytes)
    requires b' != b || k' != k
    ensures SameKey(st, Commit(st, b, k, at, e).st, b', k')
  {
  }

  /** A step that changes one key and keeps that key's invariant keeps the whole. */
  lemma OneKey(st: State, t: State, b: bytes, k: bytes)
    requires Inv(st) && t.buckets == st.buckets && t.uploads == st.uploads && t.parts == st.parts
    requires KeyInv(t, b, k) && forall b', k' :: b' != b || k' != k ==> SameKey(st, t, b', k')
    ensures Inv(t)
  {
    forall b', k'
      ensures KeyInv(t, b', k')
    {
      if b' != b || k' != k {
        assert KeyInv(st, b', k');
        assert SameKey(st, t, b', k');
        hide KeyInv, SameKey;
        SameKeyKeeps(st, t, b', k');
      }
    }
  }

  lemma CommitKeepsInv(st: State, b: bytes, k: bytes, at: int64, e: VersionEntry)
    requires Inv(st) && ValidObjectKey(k) && Fresh(st, b, k, e.id) && NullFits(st, b, e)
    ensures Inv(Commit(st, b, k, at, e).st)
  {
    var out := Commit(st, b, k, at, e);
    if out.res.Ok? {
      assert KeyInv(st, b, k);
      CommitKeepsKey(st, b, k, at, e);
      CommitCurrent(st, b, k, at, e);
      forall b', k' | b' != b || k' != k
        ensures SameKey(st, out.st, b', k')
      {
        CommitElsewhere(st, b, k, at, e, b', k');
      }
      hide Inv, KeyInv, SameKey;
      OneKey(st, out.st, b, k);
    }
  }

  // ---- removals ----

  lemma WithoutIds(st: State, b: bytes, k: bytes, id: vid)
    ensures var t := WithoutVersion(st, b, k, id);
      && Ids(t, b, k) == Ids(st, b, k) - {id} && NullIds(t, b, k) == NullIds(st, b, k) - {id}
      && (forall x: vid :: x in Ids(st, b, k) && x != id ==>
          t.versions[VersionKey(b, k, x)] == st.versions[VersionKey(b, k, x)])
  {
  }

  lemma RemoveElsewhere(st: State, b: bytes, k: bytes, id: vid, b': bytes, k': bytes)
    requires b' != b || k' != k
    ensures SameKey(st, WithoutVersion(st, b, k, id), b', k')
    ensures SameKey(st, Rederived(WithoutVersion(st, b, k, id), b, k), b', k')
  {
    hide Newest;
  }

  lemma TablesKept(st: State, b: bytes, k: bytes, id: vid)
    ensures var gone := WithoutVersion(st, b, k, id);
      && gone.buckets == st.buckets && gone.uploads == st.uploads && gone.parts == st.parts
      && Rederived(gone, b, k).buckets == st.buckets && Rederived(gone, b, k).uploads == st.uploads
      && Rederived(gone, b, k).parts == st.parts
  {
  }

  /** Deleting a version keeps the invariant: the derived row is recomputed when it was the newest. */
  lemma DeleteVersionKeepsInv(st: State, p: Proposal)
    requires Inv(st) && p.DeleteVersion?
    ensures Inv(StepDeleteVersion(st, p).st)
  {
    var t := StepDeleteVersion(st, p).st;
    var b, k := p.bucket, p.key;
    if VersionKey(b, k, p.id) in st.versions && t != st {
      assert KeyInv(st, b, k);
      hide Inv, KeyInv, SameKey, Newest, ValidObjectKey, LockedAt;
      DeleteVersionKeepsKey(st, b, k, p.id);
      TablesKept(st, b, k, p.id);
      hide Rederived, WithoutVersion;
      forall b', k' | b' != b || k' != k
        ensures SameKey(st, t, b', k')
      {
        RemoveElsewhere(st, b, k, p.id, b', k');
      }
      OneKey(st, t, b, k);
    }
  }

  lemma DeleteVersionKeepsKey(st: State, b: bytes, k: bytes, id: vid)
    requires KeyInv(st, b, k) && VersionKey(b, k, id) in st.versions
    ensures var gone := WithoutVersion(st, b, k, id);
      KeyInv(if Newest(st, b, k) == Some(id) then Rederived(gone, b, k) else gone, b, k)
  {
    var gone := WithoutVersion(st, b, k, id);
    RemovalRules(st, b, k, id);
    if Newest(st, b, k) == Some(id) {
      RederivedMatches(gone, b, k);
    } else {
      RemoveOlder(st, b, k, id);
      var m := Newest(st, b, k);
      hide Newest, Ids, NullIds;
      assert CurrentMatches(gone, b, k);
    }
  }

  lemma RemovalRules(st: State, b: bytes, k: bytes, id: vid)
    requires NullRules(st, b, k) && Named(st, b, k)
    ensures NullRules(WithoutVersion(st, b, k, id), b, k) && Named(WithoutVersion(st, b, k, id), b, k)
  {
    WithoutIds(st, b, k, id);
    hide Ids, NullIds;
  }

  lemma SameVersions(st: State, t: State, b: bytes, k: bytes)
    requires t.versions == st.versions
    ensures Ids(t, b, k) == Ids(st, b, k) && NullIds(t, b, k) == NullIds(st, b, k) &&
      Newest(t, b, k) == Newest(st, b, k)
  {
    assert Ids(t, b, k) == Ids(st, b, k) && NullIds(t, b, k) == NullIds(st, b, k);
  }

  lemma RederivedMatches(st: State, b: bytes, k: bytes)
    requires NullRules(st, b, k) && Named(st, b, k)
    ensures KeyInv(Rederived(st, b, k), b, k)
  {
    var t := Rederived(st, b, k);
    assert t.versions == st.versions && t.buckets == st.buckets;
    SameVersions(st, t, b, k);
    RederivedCurrent(st, b, k);
    hide Newest, Ids, NullIds, ValidObjectKey, CurrentMatches, Rederived;
  }

  lemma RederivedCurrent(st: State, b: bytes, k: bytes)
    ensures CurrentMatches(Rederived(st, b, k), b, k)
  {
    var t := Rederived(st, b, k);
    SameVersions(st, t, b, k);
    hide Newest, Ids, CurrentFor;
  }

  lemma RemoveOlder(st: State, b: bytes, k: bytes, id: vid)
    requires VersionKey(b, k, id) in st.versions && Newest(st, b, k) != Some(id)
    ensures Newest(WithoutVersion(st, b, k, id), b, k) == Newest(st, b, k)
  {
    WithoutIds(st, b, k, id);
    var m := Newest(st, b, k).value;
    assert id in Ids(st, b, k);
    assert m in Ids(st, b, k) - {id};
  }

  /** Deleting from an unversioned bucket removes the key's only version and its row. */
  lemma DeleteObjectKeepsInv(st: State, p: Proposal)
    requires Inv(st) && p.DeleteObject? && p.bucket in st.buckets && st.buckets[p.bucket].versioning == Unversioned
    ensures Inv(StepDeleteObject(st, p).st)
  {
    var t := StepDeleteObject(st, p).st;
    var b, k := p.bucket, p.key;
    if t != st {
      assert KeyInv(st, b, k);
      OnlyVersionGone(st, b, k);
      forall b', k' | b' != b || k' != k
        ensures SameKey(st, t, b', k')
      {
        RemoveElsewhere(st, b, k, Newest(st, b, k).value, b', k');
      }
      hide Inv, KeyInv;
      OneKey(st, t, b, k);
    }
  }

  lemma OnlyVersionGone(st: State, b: bytes, k: bytes)
    requires KeyInv(st, b, k) && b in st.buckets && st.buckets[b].versioning == Unversioned && Newest(st, b, k).Some?
    ensures var gone := WithoutVersion(st, b, k, Newest(st, b, k).value);
      KeyInv(gone.(current := gone.current - {ObjectKey(b, k)}), b, k)
  {
    var id := Newest(st, b, k).value;
    WithoutIds(st, b, k, id);
    assert Ids(st, b, k) == {id};
    var gone := WithoutVersion(st, b, k, id);
    var t := gone.(current := gone.current - {ObjectKey(b, k)});
    assert Ids(t, b, k) == {} && NullIds(t, b, k) == {};
  }

  // ---- rewrites ----

  /** What a committed entry never changes. */
  predicate SameObject(e: VersionEntry, f: VersionEntry) {
    && e.id == f.id && e.kind == f.kind && e.size == f.size && e.etag == f.etag && e.createdMS == f.createdMS
    && e.objectChecksum == f.objectChecksum && e.parts == f.parts && e.nullVersion == f.nullVersion
    && e.contentType == f.contentType && e.userMetadata == f.userMetadata && e.unknown == f.unknown
    && e.layout.partition == f.layout.partition && e.layout.encAlgorithm == f.layout.encAlgorithm
  }

  /** Rewriting an entry's lock, layout or key fields keeps the invariant. */
  lemma RewriteKeepsInv(st: State, b: bytes, k: bytes, id: vid, e: VersionEntry)
    requires Inv(st) && VersionKey(b, k, id) in st.versions && SameObject(st.versions[VersionKey(b, k, id)], e)
    ensures Inv(WithEntry(st, b, k, id, e))
  {
    var t := WithEntry(st, b, k, id, e);
    assert KeyInv(st, b, k);
    RewriteKeepsKey(st, b, k, id, e);
    hide Inv, KeyInv;
    OneKey(st, t, b, k);
  }

  lemma RewriteKeepsKey(st: State, b: bytes, k: bytes, id: vid, e: VersionEntry)
    requires KeyInv(st, b, k) && VersionKey(b, k, id) in st.versions && SameObject(st.versions[VersionKey(b, k, id)], e)
    ensures KeyInv(WithEntry(st, b, k, id, e), b, k)
  {
    var t := WithEntry(st, b, k, id, e);
    assert Ids(t, b, k) == Ids(st, b, k) && NullIds(t, b, k) == NullIds(st, b, k);
    assert Newest(t, b, k) == Newest(st, b, k);
    assert forall x: vid :: VersionKey(b, k, x) in t.versions <==> VersionKey(b, k, x) in st.versions;
    var m := Newest(st, b, k);
    hide Newest, Ids, NullIds;
    assert CurrentMatches(t, b, k) && NullRules(t, b, k) && Named(t, b, k);
  }

  // ---- the rest ----

  predicate NoVersions(st: State, b: bytes) {
    forall v :: v in st.versions ==> v.bucket != b
  }

  /** A step outside the version and current tables. */
  ghost predicate Quiet(st: State, t: State) {
    && t.versions == st.versions && t.current == st.current && BucketsOk(t) && UploadsOk(t)
    && forall b :: BucketAllows(st, t, b) || NoVersions(st, b)
  }

  /** Changes outside the version and current tables keep every key. */
  lemma OthersKeepInv(st: State, t: State)
    requires Inv(st) && Quiet(st, t)
    ensures Inv(t)
  {
    forall b, k
      ensures KeyInv(t, b, k)
    {
      assert KeyInv(st, b, k);
      if BucketAllows(st, t, b) {
        assert SameKey(st, t, b, k);
        hide KeyInv;
        SameKeyKeeps(st, t, b, k);
      } else {
        NoVersionsInv(st, t, b, k);
      }
    }
  }

  lemma NoVersionsInv(st: State, t: State, b: bytes, k: bytes)
    requires KeyInv(st, b, k) && NoVersions(st, b) && t.versions == st.versions && t.current == st.current
    ensures KeyInv(t, b, k)
  {
    assert forall id: vid :: VersionKey(b, k, id) in st.versions ==> VersionKey(b, k, id).bucket == b;
    assert Ids(st, b, k) == {} && Ids(t, b, k) == {} && NullIds(t, b, k) == {};
  }

  /** No version outlives its bucket. */
  lemma OrphanFree(st: State, b: bytes)
    requires Inv(st) && b !in st.buckets
    ensures NoVersions(st, b)
  {
    forall v | v in st.versions
      ensures v.bucket != b
    {
      assert KeyInv(st, v.bucket, v.key);
      assert v == VersionKey(v.bucket, v.key, v.id);
      assert v.id in Ids(st, v.bucket, v.key);
    }
  }

  lemma NewBucketQuiet(st: State, b: bytes, cfg: BucketConfig)
    requires BucketsOk(st) && UploadsOk(st) && b !in st.buckets && NoVersions(st, b) && ValidBucketName(b) &&
      (cfg.lockEnabled ==> cfg.versioning == VersioningEnabled)
    ensures Quiet(st, st.(buckets := st.buckets[b := cfg]))
  {
    hide ValidObjectKey, ValidBucketName;
  }

  lemma GoneBucketQuiet(st: State, b: bytes)
    requires BucketsOk(st) && UploadsOk(st) && BucketEmpty(st, b)
    ensures Quiet(st, st.(buckets := st.buckets - {b}))
  {
    hide ValidObjectKey, ValidBucketName;
  }

  lemma ConfiguredQuiet(st: State, b: bytes, cfg: BucketConfig)
    requires BucketsOk(st) && UploadsOk(st) && b in st.buckets && cfg.lockEnabled == st.buckets[b].lockEnabled
    requires cfg.lockEnabled ==> cfg.versioning == VersioningEnabled
    requires cfg.versioning == Unversioned ==> st.buckets[b].versioning == Unversioned
    ensures Quiet(st, st.(buckets := st.buckets[b := cfg]))
  {
    hide ValidObjectKey, ValidBucketName;
  }

  lemma NewUploadQuiet(st: State, u: VersionKey, rec: UploadRecord)
    requires BucketsOk(st) && UploadsOk(st) && u.bucket in st.buckets && ValidObjectKey(u.key)
    ensures Quiet(st, st.(uploads := st.uploads[u := rec]))
  {
    hide ValidObjectKey, ValidBucketName;
  }

  lemma NewPartQuiet(st: State, q: PartKey, rec: PartRecord)
    requires BucketsOk(st) && UploadsOk(st) && VersionKey(q.bucket, q.key, q.id) in st.uploads && rec.number == q.part
    ensures Quiet(st, st.(parts := st.parts[q := rec]))
  {
    hide ValidObjectKey, ValidBucketName;
  }

  lemma SystemQuiet(st: State, system: System)
    requires BucketsOk(st) && UploadsOk(st)
    ensures Quiet(st, st.(system := system))
  {
    hide ValidObjectKey, ValidBucketName;
  }

  lemma DropUploadQuiet(st: State, b: bytes, k: bytes, id: vid)
    requires BucketsOk(st) && UploadsOk(st)
    ensures Quiet(st, UploadDropped(st, b, k, id))
  {
    hide ValidObjectKey, ValidBucketName;
  }

  // ---- every step ----

  /** A committing proposal has room: its key's newest ID is not the last there is. */
  ghost predicate Room(st: State, p: Proposal) {
    (p.PutObject? || p.DeleteObject? || p.CompleteUpload?) ==> Newest(st, p.bucket, p.key) != Some(TwoTo128 - 1)
  }

  lemma InvTables(st: State)
    requires Inv(st)
    ensures BucketsOk(st) && UploadsOk(st)
  {
  }

  lemma PutKeepsInv(st: State, p: Proposal, calendar: Calendar)
    requires Inv(st) && p.PutObject? && Room(st, p)
    ensures Inv(StepPut(st, p, calendar).st)
  {
    if p.bucket in st.buckets && ValidObjectKey(p.key) {
      BumpedIsFresh(st, p.bucket, p.key, p.id);
      hide Inv, Commit, Bumped, Fresh, Newest;
      CommitKeepsInv(st, p.bucket, p.key, p.at,
                     PutEntry(st.buckets[p.bucket], p, Bumped(st, p.bucket, p.key, p.id), calendar));
    }
  }

  lemma MarkerKeepsInv(st: State, p: Proposal)
    requires Inv(st) && p.DeleteObject? && Room(st, p)
    ensures Inv(StepDeleteObject(st, p).st)
  {
    if p.bucket in st.buckets && ValidObjectKey(p.key) {
      BumpedIsFresh(st, p.bucket, p.key, p.id);
      hide Inv, Commit, Bumped, Fresh, Newest;
      var cfg := st.buckets[p.bucket];
      if cfg.versioning == Unversioned {
        DeleteObjectKeepsInv(st, p);
      } else {
        CommitKeepsInv(st, p.bucket, p.key, p.at, Marker(cfg, p, Bumped(st, p.bucket, p.key, p.id)));
      }
    }
  }

  lemma CompleteKeepsInv(st: State, p: Proposal)
    requires Inv(st) && p.CompleteUpload? && Room(st, p)
    ensures Inv(StepCompleteUpload(st, p).st)
  {
    if StepCompleteUpload(st, p).res.Ok? {
      BumpedIsFresh(st, p.bucket, p.key, p.id);
      hide Inv, Commit, Bumped, Fresh, Newest;
      var e := CompletedEntry(st, st.buckets[p.bucket], p, Bumped(st, p.bucket, p.key, p.id));
      CommitKeepsInv(st, p.bucket, p.key, p.at, e);
      var t := Commit(st, p.bucket, p.key, p.at, e).st;
      InvTables(t);
      DropUploadQuiet(t, p.bucket, p.key, p.upload);
      hide Quiet;
      OthersKeepInv(t, UploadDropped(t, p.bucket, p.key, p.upload));
    } else {
      assert StepCompleteUpload(st, p).st == st;
    }
  }

  lemma RewriteStepsKeepInv(st: State, p: Proposal, t: State)
    requires Inv(st) && (p.UpdateRetention? || p.UpdateLegalHold? || p.ReEncodeObject? || p.RewrapDEK?)
    requires t == match p
      case UpdateRetention(_, _, _, _, _, _, _) => StepUpdateRetention(st, p).st
      case UpdateLegalHold(_, _, _, _, _) => StepLegalHold(st, p).st
      case ReEncodeObject(_, _, _, _, _, _, _, _) => StepReEncode(st, p).st
      case RewrapDEK(_, _, _, _, _, _) => StepRewrap(st, p).st
    ensures Inv(t)
  {
    var v := VersionKey(p.bucket, p.key, p.id);
    if t != st {
      hide Inv;
      assert v in st.versions && v in t.versions;
      assert t == WithEntry(st, p.bucket, p.key, p.id, t.versions[v]);
      RewriteKeepsInv(st, p.bucket, p.key, p.id, t.versions[v]);
    }
  }

  /** A step that leaves versions and current rows alone. */
  lemma QuietSteps(st: State, p: Proposal, calendar: Calendar)
    requires Inv(st)
    requires p.CreateBucket? || p.DeleteBucket? || p.SetBucketVersioning? || p.SetLockConfiguration?
      || p.CreateUpload? || p.UploadPart? || p.AbortUpload? || p.SetSystem?
    ensures Inv(Step(st, p, calendar).st)
  {
    InvTables(st);
    var t := Step(st, p, calendar).st;
    if t != st {
      QuietStep(st, p, calendar);
      hide Inv, Quiet, Step;
      OthersKeepInv(st, t);
    }
  }

  lemma QuietStep(st: State, p: Proposal, calendar: Calendar)
    requires Inv(st) && BucketsOk(st) && UploadsOk(st) && Step(st, p, calendar).st != st
    requires p.CreateBucket? || p.DeleteBucket? || p.SetBucketVersioning? || p.SetLockConfiguration?
      || p.CreateUpload? || p.UploadPart? || p.AbortUpload? || p.SetSystem?
    ensures Quiet(st, Step(st, p, calendar).st)
  {
    var t := Step(st, p, calendar).st;
    hide Inv, Quiet, UploadsOk, NoVersions, UploadDropped, ValidObjectKey, ValidBucketName;
    match p {
      case CreateBucket(_, b, _) =>
        OrphanFree(st, b);
        NewBucketQuiet(st, b, t.buckets[b]);
      case DeleteBucket(_, b) => GoneBucketQuiet(st, b);
      case SetBucketVersioning(_, b, _) => ConfiguredQuiet(st, b, t.buckets[b]);
      case SetLockConfiguration(_, b, _, _, _) => ConfiguredQuiet(st, b, t.buckets[b]);
      case CreateUpload(_, b, k, id, _, _) => NewUploadQuiet(st, VersionKey(b, k, id), t.uploads[VersionKey(b, k, id)]);
      case UploadPart(_, b, k, id, n, _, _, _, _, _) => NewPartQuiet(st, PartKey(b, k, id, n),
        t.parts[PartKey(b, k, id, n)]);
      case AbortUpload(_, b, k, id) => DropUploadQuiet(st, b, k, id);
      case SetSystem(_, c) => SystemQuiet(st, MetaSystem.SystemNext(st.system, c));
    }
  }

  /** Every step keeps the invariant. */
  lemma StepKeepsInv(st: State, p: Proposal, calendar: Calendar)
    requires Inv(st) && Room(st, p)
    ensures Inv(Step(st, p, calendar).st)
  {
    hide Inv, Room, StepCreateBucket, StepDeleteBucket, StepSetVersioning, StepSetLock, StepPut, StepDeleteObject;
    hide StepDeleteVersion, StepUpdateRetention, StepLegalHold, StepReEncode, StepRewrap;
    hide StepCreateUpload, StepUploadPart, StepCompleteUpload, StepAbortUpload;
    if p.PutObject? {
      PutKeepsInv(st, p, calendar);
    } else if p.DeleteObject? {
      MarkerKeepsInv(st, p);
    } else if p.CompleteUpload? {
      CompleteKeepsInv(st, p);
    } else if p.DeleteVersion? {
      DeleteVersionKeepsInv(st, p);
    } else if p.UpdateRetention? || p.UpdateLegalHold? || p.ReEncodeObject? || p.RewrapDEK? {
      RewriteStepsKeepInv(st, p, Step(st, p, calendar).st);
    } else {
      QuietSteps(st, p, calendar);
    }
  }
}
