/** What proposals do, as a client sees it: reads after writes, what a step leaves alone, and
    which new objects a bucket's default retention reaches. */
module MetaEffects {
  import opened Bytes
  import opened MetaVid
  import opened MetaKeys
  import opened MetaRecords
  import MetaSystem
  import opened MetaApply
  import opened MetaInv
  import opened MetaRuns

  // ---- what a step leaves alone ----

  /** A proposal about one key of a bucket. */
  predicate AboutKey(p: Proposal) {
    !(p.CreateBucket? || p.DeleteBucket? || p.SetBucketVersioning? || p.SetLockConfiguration? || p.SetSystem?)
  }

  predicate Aims(p: Proposal, b: bytes, k: bytes) { AboutKey(p) && p.bucket == b && p.key == k }

  /** The uploads of a key and their parts are the same. */
  ghost predicate SameUploads(s: State, t: State, b: bytes, k: bytes) {
    && (forall id: vid :: Find(s.uploads, VersionKey(b, k, id)) == Find(t.uploads, VersionKey(b, k, id)))
    && forall id: vid, n: uint32 :: Find(s.parts, PartKey(b, k, id, n)) == Find(t.parts, PartKey(b, k, id, n))
  }

  /** A key, its versions and its uploads, is as it was. */
  ghost predicate Alone(s: State, t: State, b: bytes, k: bytes) { SameKey(s, t, b, k) && SameUploads(s, t, b, k) }

  lemma CommitUploads(st: State, b: bytes, k: bytes, at: int64, e: VersionEntry)
    ensures var t := Commit(st, b, k, at, e).st;
      t.uploads == st.uploads && t.parts == st.parts && t.buckets == st.buckets
  {
  }

  lemma DroppedElsewhere(st: State, b: bytes, k: bytes, id: vid, b2: bytes, k2: bytes)
    requires b2 != b || k2 != k
    ensures SameUploads(st, UploadDropped(st, b, k, id), b2, k2)
  {
  }

  lemma CompleteElsewhere(st: State, p: Proposal, b: bytes, k: bytes)
    requires p.CompleteUpload? && (p.bucket != b || p.key != k)
    ensures Alone(st, StepCompleteUpload(st, p).st, b, k)
  {
    hide ValidObjectKey, Alone;
    SameIsSame(st, b, k);
    if StepCompleteUpload(st, p).res.Ok? {
      var e := CompletedEntry(st, st.buckets[p.bucket], p, Bumped(st, p.bucket, p.key, p.id));
      hide CompletedEntry;
      CommitDropElsewhere(st, p.bucket, p.key, p.at, e, p.upload, b, k);
      hide Commit;
    }
  }

  lemma CommitDropElsewhere(st: State, b: bytes, k: bytes, at: int64, e: VersionEntry, upload: vid, b2: bytes,
                            k2: bytes)
    requires b2 != b || k2 != k
    ensures Alone(st, Commit(st, b, k, at, e).st, b2, k2)
    ensures Alone(st, UploadDropped(Commit(st, b, k, at, e).st, b, k, upload), b2, k2)
  {
    CommitElsewhere(st, b, k, at, e, b2, k2);
    CommitUploads(st, b, k, at, e);
    hide Commit;
    DroppedElsewhere(Commit(st, b, k, at, e).st, b, k, upload, b2, k2);
  }

  lemma PutElsewhere(st: State, p: Proposal, calendar: Calendar, b: bytes, k: bytes)
    requires p.PutObject? && (p.bucket != b || p.key != k)
    ensures Alone(st, StepPut(st, p, calendar).st, b, k)
  {
    hide ValidObjectKey, Alone, Commit;
    SameIsSame(st, b, k);
    if p.bucket in st.buckets {
      var e := PutEntry(st.buckets[p.bucket], p, Bumped(st, p.bucket, p.key, p.id), calendar);
      CommitDropElsewhere(st, p.bucket, p.key, p.at, e, 0, b, k);
    }
  }

  lemma DeleteObjectElsewhere(st: State, p: Proposal, b: bytes, k: bytes)
    requires p.DeleteObject? && (p.bucket != b || p.key != k)
    ensures Alone(st, StepDeleteObject(st, p).st, b, k)
  {
    hide ValidObjectKey, Commit, LockedAt, Newest, Alone;
    SameIsSame(st, b, k);
    if p.bucket in st.buckets {
      var e := Marker(st.buckets[p.bucket], p, Bumped(st, p.bucket, p.key, p.id));
      CommitDropElsewhere(st, p.bucket, p.key, p.at, e, 0, b, k);
      var newest := Newest(st, p.bucket, p.key);
      if newest.Some? {
        VersionDropped(st, p.bucket, p.key, newest.value, st.current - {ObjectKey(p.bucket, p.key)}, b, k);
      }
    }
  }

  lemma RewriteElsewhere(st: State, b: bytes, k: bytes, id: vid, e: VersionEntry, b2: bytes, k2: bytes)
    requires b2 != b || k2 != k
    ensures Alone(st, WithEntry(st, b, k, id, e), b2, k2)
  {
  }

  lemma LockElsewhere(st: State, p: Proposal, b: bytes, k: bytes)
    requires (p.UpdateRetention? || p.UpdateLegalHold?) && (p.bucket != b || p.key != k)
    ensures p.UpdateRetention? ==> Alone(st, StepUpdateRetention(st, p).st, b, k)
    ensures p.UpdateLegalHold? ==> Alone(st, StepLegalHold(st, p).st, b, k)
  {
    hide Alone, WithEntry, RetentionRefused, LockTarget;
    SameIsSame(st, b, k);
    forall e
      ensures Alone(st, WithEntry(st, p.bucket, p.key, p.id, e), b, k)
    {
      RewriteElsewhere(st, p.bucket, p.key, p.id, e, b, k);
    }
  }

  lemma LayoutElsewhere(st: State, p: Proposal, b: bytes, k: bytes)
    requires (p.ReEncodeObject? || p.RewrapDEK?) && (p.bucket != b || p.key != k)
    ensures p.ReEncodeObject? ==> Alone(st, StepReEncode(st, p).st, b, k)
    ensures p.RewrapDEK? ==> Alone(st, StepRewrap(st, p).st, b, k)
  {
    hide Alone, WithEntry;
    SameIsSame(st, b, k);
    forall e
      ensures Alone(st, WithEntry(st, p.bucket, p.key, p.id, e), b, k)
    {
      RewriteElsewhere(st, p.bucket, p.key, p.id, e, b, k);
    }
  }

  lemma DeleteVersionElsewhere(st: State, p: Proposal, b: bytes, k: bytes)
    requires p.DeleteVersion? && (p.bucket != b || p.key != k)
    ensures Alone(st, StepDeleteVersion(st, p).st, b, k)
  {
    hide ValidObjectKey, LockedAt, Newest, Alone;
    var gone := WithoutVersion(st, p.bucket, p.key, p.id);
    SameIsSame(st, b, k);
    RederivedElsewhere(gone, p.bucket, p.key, b, k);
    VersionDropped(st, p.bucket, p.key, p.id, RederivedRows(gone, p.bucket, p.key), b, k);
    VersionDropped(st, p.bucket, p.key, p.id, st.current, b, k);
    hide RederivedRows;
  }

  lemma RederivedElsewhere(st: State, b: bytes, k: bytes, b2: bytes, k2: bytes)
    requires b2 != b || k2 != k
    ensures Find(RederivedRows(st, b, k), ObjectKey(b2, k2)) == Find(st.current, ObjectKey(b2, k2))
  {
    hide Newest;
  }

  lemma VersionDropped(st: State, b: bytes, k: bytes, id: vid, rows: map<ObjectKey, CurrentRecord>, b2: bytes,
                       k2: bytes)
    requires (b2 != b || k2 != k) && Find(rows, ObjectKey(b2, k2)) == Find(st.current, ObjectKey(b2, k2))
    ensures Alone(st, WithoutVersion(st, b, k, id).(current := rows), b2, k2)
  {
  }

  lemma CreateUploadElsewhere(st: State, p: Proposal, b: bytes, k: bytes)
    requires p.CreateUpload? && (p.bucket != b || p.key != k)
    ensures Alone(st, StepCreateUpload(st, p).st, b, k)
  {
    hide ValidObjectKey;
  }

  lemma UploadPartElsewhere(st: State, p: Proposal, b: bytes, k: bytes)
    requires p.UploadPart? && (p.bucket != b || p.key != k)
    ensures Alone(st, StepUploadPart(st, p).st, b, k)
  {
    hide ValidObjectKey;
  }

  lemma AbortElsewhere(st: State, p: Proposal, b: bytes, k: bytes)
    requires p.AbortUpload? && (p.bucket != b || p.key != k)
    ensures Alone(st, StepAbortUpload(st, p).st, b, k)
  {
    DroppedElsewhere(st, p.bucket, p.key, p.id, b, k);
    hide ValidObjectKey, SameUploads;
    assert SameUploads(st, st, b, k) by { SameIsSame(st, b, k); }
  }

  lemma SameIsSame(st: State, b: bytes, k: bytes)
    ensures Alone(st, st, b, k)
  {
  }

  lemma BucketElsewhere(st: State, p: Proposal, b: bytes, k: bytes)
    ensures p.CreateBucket? ==> Alone(st, StepCreateBucket(st, p).st, b, k)
    ensures p.DeleteBucket? ==> Alone(st, StepDeleteBucket(st, p).st, b, k)
    ensures p.SetBucketVersioning? ==> Alone(st, StepSetVersioning(st, p).st, b, k)
    ensures p.SetLockConfiguration? ==> Alone(st, StepSetLock(st, p).st, b, k)
  {
    hide ValidBucketName, BucketEmpty, ValidDefault;
  }

  /** A proposal about one key leaves every other key's versions, listing row, uploads and parts
      alone; one about a bucket or the system leaves every key's. */
  lemma StepElsewhere(st: State, p: Proposal, calendar: Calendar, b: bytes, k: bytes)
    requires !Aims(p, b, k)
    ensures Alone(st, Step(st, p, calendar).st, b, k)
  {
    hide Alone, StepCreateBucket, StepDeleteBucket, StepSetVersioning, StepSetLock, StepPut, StepDeleteObject,
         StepDeleteVersion, StepUpdateRetention, StepLegalHold, StepReEncode, StepRewrap, StepCreateUpload,
         StepUploadPart, StepCompleteUpload, StepAbortUpload;
    if p.CompleteUpload? {
      CompleteElsewhere(st, p, b, k);
    } else if p.PutObject? {
      PutElsewhere(st, p, calendar, b, k);
    } else if p.DeleteObject? {
      DeleteObjectElsewhere(st, p, b, k);
    } else if p.DeleteVersion? {
      DeleteVersionElsewhere(st, p, b, k);
    } else if p.UpdateRetention? || p.UpdateLegalHold? {
      LockElsewhere(st, p, b, k);
    } else if p.ReEncodeObject? || p.RewrapDEK? {
      LayoutElsewhere(st, p, b, k);
    } else if p.CreateUpload? {
      CreateUploadElsewhere(st, p, b, k);
    } else if p.UploadPart? {
      UploadPartElsewhere(st, p, b, k);
    } else if p.AbortUpload? {
      AbortElsewhere(st, p, b, k);
    } else if p.SetSystem? {
      SystemElsewhere(st, p.command, b, k);
    } else {
      BucketElsewhere(st, p, b, k);
    }
  }

  lemma SystemElsewhere(st: State, c: SystemCommand, b: bytes, k: bytes)
    ensures Alone(st, StepSystem(st, c).st, b, k)
  {
    hide MetaSystem.SystemChange, MetaSystem.SystemNext;
  }

  // ---- reads after writes ----

  lemma CommitHolds(st: State, b: bytes, k: bytes, at: int64, e: VersionEntry)
    requires Commit(st, b, k, at, e).res.Ok?
    ensures Commit(st, b, k, at, e).res.value.id == Some(e.id)
    ensures Find(Commit(st, b, k, at, e).st.versions, VersionKey(b, k, e.id)) == Some(e)
    ensures Find(Commit(st, b, k, at, e).st.current, ObjectKey(b, k)) ==
      if e.kind == KindObject then Some(CurrentFor(e)) else None
  {
  }

  /** What was put is what is read: an accepted PUT's version carries the write's own size, ETag,
      checksum, placement and lock, under the data address it was written to, and lists as such. */
  lemma PutIsRead(st: State, p: Proposal, calendar: Calendar)
    requires p.PutObject? && Step(st, p, calendar).res.Ok?
    ensures var t := Step(st, p, calendar).st;
      && Step(st, p, calendar).res.value.id.Some?
      && var v := VersionKey(p.bucket, p.key, Step(st, p, calendar).res.value.id.value);
      && v in t.versions && p.bucket in st.buckets
      && var e := t.versions[v];
      && e.kind == KindObject && e.size == p.size && e.etag == p.etag && e.objectChecksum == p.objectChecksum
      && e.dataId == p.id && e.layout == p.layout && e.createdMS == p.at && e.contentType == p.contentType
      && e.userMetadata == p.userMetadata && e.hold == p.hold && e.parts == []
      && (p.mode != RetentionNone ==> e.mode == p.mode && e.retainUntilMS == p.retainUntilMS)
      && (e.nullVersion <==> st.buckets[p.bucket].versioning != VersioningEnabled)
      && ObjectKey(p.bucket, p.key) in t.current && Shows(t.current[ObjectKey(p.bucket, p.key)], e)
  {
    hide ValidObjectKey;
    var e := PutEntry(st.buckets[p.bucket], p, Bumped(st, p.bucket, p.key, p.id), calendar);
    CommitHolds(st, p.bucket, p.key, p.at, e);
    ShowsExactly(CurrentFor(e), e);
    hide Commit, CurrentFor, Bumped;
  }

  /** Deleting in a versioned bucket hides the key and keeps every version that has an ID of its
      own. */
  lemma MarkerHides(st: State, p: Proposal, calendar: Calendar, id: vid)
    requires p.DeleteObject? && p.bucket in st.buckets && st.buckets[p.bucket].versioning != Unversioned
    requires Inv(st) && Room(st, p) && Step(st, p, calendar).res.Ok?
    ensures var t := Step(st, p, calendar).st;
      && ObjectKey(p.bucket, p.key) !in t.current && !Live(t, p.bucket, p.key)
      && (id in Ids(st, p.bucket, p.key) && id !in NullIds(st, p.bucket, p.key) ==>
            Find(t.versions, VersionKey(p.bucket, p.key, id)) == Find(st.versions, VersionKey(p.bucket, p.key, id)))
  {
    hide ValidObjectKey;
    StepKeepsInv(st, p, calendar);
    var e := Marker(st.buckets[p.bucket], p, Bumped(st, p.bucket, p.key, p.id));
    BumpedIsFresh(st, p.bucket, p.key, p.id);
    CommitHolds(st, p.bucket, p.key, p.at, e);
    if id in Ids(st, p.bucket, p.key) && id !in NullIds(st, p.bucket, p.key) {
      CommitKeepsOthers(st, p.bucket, p.key, p.at, e, id);
    }
    hide Commit, Inv, Bumped;
    MatchesAt(Step(st, p, calendar).st, p.bucket, p.key);
  }

  lemma MatchesAt(st: State, b: bytes, k: bytes)
    requires Inv(st)
    ensures CurrentMatches(st, b, k)
  {
    hide CurrentMatches, NullRules, Named;
    assert KeyInv(st, b, k);
  }

  /** A fresh commit removes at most null versions. */
  lemma CommitKeepsOthers(st: State, b: bytes, k: bytes, at: int64, e: VersionEntry, id: vid)
    requires Fresh(st, b, k, e.id) && id in Ids(st, b, k) && id !in NullIds(st, b, k)
    ensures Find(Commit(st, b, k, at, e).st.versions, VersionKey(b, k, id)) == Find(st.versions, VersionKey(b, k, id))
  {
  }

  /** The key gained the reported version and lost nothing. */
  ghost predicate OneMore(st: State, out: Outcome, b: bytes, k: bytes) {
    out.res.Ok? ==> out.res.value.id.Some? && Ids(out.st, b, k) == Ids(st, b, k) + {out.res.value.id.value}
  }

  /** A commit that is not a null version. */
  lemma CommitGrows(st: State, b: bytes, k: bytes, at: int64, e: VersionEntry)
    requires Fresh(st, b, k, e.id) && NullRules(st, b, k) && !e.nullVersion
    ensures OneMore(st, Commit(st, b, k, at, e), b, k)
    ensures Commit(st, b, k, at, e).res.Ok? ==> Commit(st, b, k, at, e).res.value.freed == []
  {
    CommitIds(st, b, k, at, e);
    hide Ids, NullIds, WithVersion;
  }

  lemma PutGrows(st: State, p: Proposal, calendar: Calendar, e: VersionEntry)
    requires p.PutObject? && p.bucket in st.buckets &&
      e == PutEntry(st.buckets[p.bucket], p, Bumped(st, p.bucket, p.key, p.id), calendar)
    requires OneMore(st, Commit(st, p.bucket, p.key, p.at, e), p.bucket, p.key)
    ensures OneMore(st, StepPut(st, p, calendar), p.bucket, p.key)
  {
    hide ValidObjectKey, Commit, Ids, PutEntry;
  }

  lemma CompleteGrows(st: State, p: Proposal, e: VersionEntry)
    requires p.CompleteUpload? && StepCompleteUpload(st, p).res.Ok?
    requires e == CompletedEntry(st, st.buckets[p.bucket], p, Bumped(st, p.bucket, p.key, p.id))
    requires OneMore(st, Commit(st, p.bucket, p.key, p.at, e), p.bucket, p.key)
    ensures OneMore(st, StepCompleteUpload(st, p), p.bucket, p.key)
  {
    DropKeepsIds(Commit(st, p.bucket, p.key, p.at, e).st, p.bucket, p.key, p.upload);
    hide ValidObjectKey, Commit, Ids, UploadDropped;
  }

  /** In a versioning-enabled bucket no commit removes a version: the key's history only grows, and
      no data is given up but that of uploaded parts a completion does not list. */
  lemma HistoryOnlyGrows(st: State, p: Proposal, calendar: Calendar)
    requires Committing(p) && p.bucket in st.buckets && st.buckets[p.bucket].versioning == VersioningEnabled
    requires Inv(st) && Room(st, p) && Step(st, p, calendar).res.Ok?
    ensures OneMore(st, Step(st, p, calendar), p.bucket, p.key)
    ensures Step(st, p, calendar).res.value.freed ==
      if p.CompleteUpload? then UnusedIds(AllParts(st, p.bucket, p.key, p.upload), p.parts) else []
  {
    hide Inv, Bumped, Commit, NullRules, Fresh, OneMore, ValidObjectKey;
    BumpedIsFresh(st, p.bucket, p.key, p.id);
    NullRulesAt(st, p.bucket, p.key);
    var cfg, id := st.buckets[p.bucket], Bumped(st, p.bucket, p.key, p.id);
    if p.PutObject? {
      CommitGrows(st, p.bucket, p.key, p.at, PutEntry(cfg, p, id, calendar));
      PutGrows(st, p, calendar, PutEntry(cfg, p, id, calendar));
    } else if p.DeleteObject? {
      CommitGrows(st, p.bucket, p.key, p.at, Marker(cfg, p, id));
    } else {
      CommitGrows(st, p.bucket, p.key, p.at, CompletedEntry(st, cfg, p, id));
      CompleteGrows(st, p, CompletedEntry(st, cfg, p, id));
    }
  }

  lemma DropKeepsIds(st: State, b: bytes, k: bytes, id: vid)
    ensures Ids(UploadDropped(st, b, k, id), b, k) == Ids(st, b, k)
  {
  }

  lemma NullRulesAt(st: State, b: bytes, k: bytes)
    requires Inv(st)
    ensures NullRules(st, b, k)
  {
    hide CurrentMatches, NullRules, Named;
    assert KeyInv(st, b, k);
  }

  // ---- completed uploads ----

  /** The i-th listed part as stored. */
  function ListedPart(p: Proposal, i: nat): PartKey
    requires p.CompleteUpload? && i < |p.parts|
  {
    PartKey(p.bucket, p.key, p.upload, p.parts[i].number)
  }

  lemma {:induction false} AssembledAt(st: State, p: Proposal, n: nat, i: nat)
    requires p.CompleteUpload? && i < n <= |p.parts| && forall j :: 0 <= j < n ==> ListedPart(p, j) in st.parts
    ensures forall j :: 0 <= j < n ==> PartKey(p.bucket, p.key, p.upload, p.parts[j].number) in st.parts
    ensures |Assembled(st, p, n).0| == n && Assembled(st, p, n).0[i] == RefOf(st.parts[ListedPart(p, i)])
    decreases n
  {
    assert forall j :: 0 <= j < n ==> ListedPart(p, j) == PartKey(p.bucket, p.key, p.upload, p.parts[j].number);
    if n > 1 {
      AssembledAt(st, p, n - 1, if i < n - 1 then i else 0);
    }
  }

  /** The listed parts' sizes, added up. */
  function TotalSize(st: State, p: Proposal, n: nat): int
    requires p.CompleteUpload? && n <= |p.parts| && forall j :: 0 <= j < n ==> ListedPart(p, j) in st.parts
  {
    if n == 0 then 0 else TotalSize(st, p, n - 1) + st.parts[ListedPart(p, n - 1)].size
  }

  /** The sum wraps around: it is off by a number of turns. */
  lemma {:induction false} AssembledSize(st: State, p: Proposal, n: nat) returns (turns: int)
    requires p.CompleteUpload? && n <= |p.parts| && forall j :: 0 <= j < n ==> ListedPart(p, j) in st.parts
    ensures forall j :: 0 <= j < n ==> PartKey(p.bucket, p.key, p.upload, p.parts[j].number) in st.parts
    ensures Assembled(st, p, n).1 == TotalSize(st, p, n) + turns * (2 * TwoTo63)
  {
    assert forall j :: 0 <= j < n ==> ListedPart(p, j) == PartKey(p.bucket, p.key, p.upload, p.parts[j].number);
    turns := 0;
    if n > 0 {
      var before := AssembledSize(st, p, n - 1);
      var s := Assembled(st, p, n - 1).1 + st.parts[ListedPart(p, n - 1)].size;
      turns := if s >= TwoTo63 then before - 1 else if s < -TwoTo63 then before + 1 else before;
    }
  }

  lemma {:induction false} NoPartError(st: State, p: Proposal, i: nat, j: nat)
    requires p.CompleteUpload? && i <= j < |p.parts| && FirstPartError(st, p, i).None?
    ensures PartError(st, p, j).None?
    decreases j - i
  {
    if i < j {
      NoPartError(st, p, i + 1, j);
    }
  }

  /** A completed upload is its listed parts, in order: each was stored with the ETag the client
      claims and, except the last, at least the minimum size; the object's size is their sum. */
  lemma CompleteIsParts(st: State, p: Proposal, calendar: Calendar, i: nat)
    requires p.CompleteUpload? && i < |p.parts| && Step(st, p, calendar).res.Ok?
    ensures Step(st, p, calendar).res.value.id.Some?
    ensures ListedPart(p, i) in st.parts && st.parts[ListedPart(p, i)].etag == p.parts[i].etag
    ensures i < |p.parts| - 1 ==> st.parts[ListedPart(p, i)].size >= MinPartSize
    ensures var v := VersionKey(p.bucket, p.key, Step(st, p, calendar).res.value.id.value);
      && v in Step(st, p, calendar).st.versions
      && var e := Step(st, p, calendar).st.versions[v];
      && VersionKey(p.bucket, p.key, p.upload) in st.uploads
      && var up := st.uploads[VersionKey(p.bucket, p.key, p.upload)];
      && e.contentType == up.contentType && e.userMetadata == up.userMetadata
      && e.kind == KindObject && e.etag == p.etag && e.createdMS == p.at && |e.parts| == |p.parts|
      && var ref, part := e.parts[i], st.parts[ListedPart(p, i)];
      && ref.dataId == part.dataId && ref.size == part.size && ref.checksum == part.checksum &&
        ref.layout == part.layout
      && var row := Find(Step(st, p, calendar).st.current, ObjectKey(p.bucket, p.key));
      && row.Some? && Shows(row.value, e)
  {
    hide ValidObjectKey, Bumped;
    NoPartError(st, p, 0, i);
    PartsPresent(st, p, 0);
    var e := CompletedEntry(st, st.buckets[p.bucket], p, Bumped(st, p.bucket, p.key, p.id));
    AssembledAt(st, p, |p.parts|, i);
    CommitHolds(st, p.bucket, p.key, p.at, e);
    ShowsExactly(CurrentFor(e), e);
    hide Commit, CurrentFor;
  }

  /** And its size is the sum of theirs exactly when the sum fits a signed 64-bit integer. */
  lemma CompleteSize(st: State, p: Proposal, calendar: Calendar)
    requires p.CompleteUpload? && Step(st, p, calendar).res.Ok?
    ensures Step(st, p, calendar).res.value.id.Some? && forall j :: 0 <= j < |p.parts| ==> ListedPart(p, j) in st.parts
    ensures var v := VersionKey(p.bucket, p.key, Step(st, p, calendar).res.value.id.value);
      var sum := TotalSize(st, p, |p.parts|);
      && v in Step(st, p, calendar).st.versions
      && (Step(st, p, calendar).st.versions[v].size == sum <==> -TwoTo63 <= sum < TwoTo63)
  {
    hide ValidObjectKey, Bumped;
    PartsPresent(st, p, 0);
    var turns := AssembledSize(st, p, |p.parts|);
    var e := CompletedEntry(st, st.buckets[p.bucket], p, Bumped(st, p.bucket, p.key, p.id));
    CommitHolds(st, p.bucket, p.key, p.at, e);
    hide Commit, CurrentFor;
  }

  /** Completing or aborting an upload ends it, parts included, and leaves the key's other uploads. */
  lemma UploadEnds(st: State, p: Proposal, calendar: Calendar, id: vid, n: uint32)
    requires (p.CompleteUpload? || p.AbortUpload?) && Step(st, p, calendar).res.Ok?
    ensures var t := Step(st, p, calendar).st; var ended := if p.CompleteUpload? then p.upload else p.id;
      && Find(t.uploads, VersionKey(p.bucket, p.key, id)) == (if id == ended then None
        else Find(st.uploads, VersionKey(p.bucket, p.key, id)))
      && Find(t.parts, PartKey(p.bucket, p.key, id, n)) == (if id == ended then None
        else Find(st.parts, PartKey(p.bucket, p.key, id, n)))
  {
    hide ValidObjectKey, Bumped;
    if p.CompleteUpload? {
      CommitUploads(st, p.bucket, p.key, p.at,
                    CompletedEntry(st, st.buckets[p.bucket], p, Bumped(st, p.bucket, p.key, p.id)));
      hide Commit, CompletedEntry;
    }
  }

  // ---- lock changes ----

  /** An accepted retention change takes effect and touches nothing else of the version. */
  lemma RetentionTakes(st: State, p: Proposal, calendar: Calendar)
    requires p.UpdateRetention? && Step(st, p, calendar).res.Ok?
    ensures var v := VersionKey(p.bucket, p.key, p.id); var t := Step(st, p, calendar).st;
      && v in st.versions && v in t.versions && SameObject(st.versions[v], t.versions[v])
      && t.versions[v].hold == st.versions[v].hold && t.versions[v].layout == st.versions[v].layout
      && t.versions[v].mode == p.mode &&
        (p.mode != RetentionNone ==> t.versions[v].retainUntilMS == p.retainUntilMS > p.at)
  {
    hide ValidObjectKey;
  }

  /** Whether a bucket's default retention reaches the objects it is for: those that arrive with
      none of their own. */
  ghost predicate DefaultReached(st: State, p: Proposal, calendar: Calendar)
    requires Committing(p)
  {
    && p.bucket in st.buckets
    && var out := Step(st, p, calendar);
    && out.res.Ok? && out.res.value.id.Some?
    && var v := VersionKey(p.bucket, p.key, out.res.value.id.value);
    && v in out.st.versions && out.st.versions[v].mode == st.buckets[p.bucket].defaultMode
    && out.st.versions[v].retainUntilMS == calendar(p.at, st.buckets[p.bucket].defaultDays,
                                                    st.buckets[p.bucket].defaultYears)
  }

  /** A default retention rule reaches exactly the single-request writes: an object completed from
      parts gets no retention, whatever the bucket says. */
  lemma DefaultReachesPutsOnly(st: State, p: Proposal, calendar: Calendar)
    requires (p.PutObject? && p.mode == RetentionNone) || p.CompleteUpload?
    requires Step(st, p, calendar).res.Ok? && p.bucket in st.buckets
    requires st.buckets[p.bucket].lockEnabled && st.buckets[p.bucket].defaultMode != RetentionNone
    ensures DefaultReached(st, p, calendar) <==> p.PutObject?
  {
    hide ValidObjectKey, Bumped;
    var cfg, id := st.buckets[p.bucket], Bumped(st, p.bucket, p.key, p.id);
    var e := if p.PutObject? then PutEntry(cfg, p, id, calendar) else CompletedEntry(st, cfg, p, id);
    CommitHolds(st, p.bucket, p.key, p.at, e);
    hide Commit, CurrentFor;
  }

  /** So it can be deleted at once, even where the default is COMPLIANCE. */
  lemma MultipartDeletable(st: State, p: Proposal, calendar: Calendar, at: int64)
    requires p.CompleteUpload? && Step(st, p, calendar).res.Ok?
    ensures Step(st, p, calendar).res.value.id.Some?
    ensures var id := Step(st, p, calendar).res.value.id.value;
      var after := Step(Step(st, p, calendar).st, DeleteVersion(at, p.bucket, p.key, id, false), calendar);
      after.res.Ok? && VersionKey(p.bucket, p.key, id) !in after.st.versions
  {
    hide ValidObjectKey, Bumped;
    var e := CompletedEntry(st, st.buckets[p.bucket], p, Bumped(st, p.bucket, p.key, p.id));
    CommitHolds(st, p.bucket, p.key, p.at, e);
    CommitUploads(st, p.bucket, p.key, p.at, e);
    hide Commit, CurrentFor, Newest;
  }
}
