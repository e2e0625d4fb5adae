/** When each remaining proposal is accepted, and that what it carries is what is then stored. */
module MetaTakes {
  import opened Bytes
  import opened MetaVid
  import opened MetaKeys
  import opened MetaRecords
  import opened MetaSystem
  import opened MetaApply
  import opened MetaInv
  import opened MetaRuns
  import MetaEffects

  // ---- buckets ----

  /** Only this bucket's settings differ. */
  ghost predicate OnlyBucket(s: State, t: State, b: bytes) {
    b in t.buckets && t == s.(buckets := s.buckets[b := t.buckets[b]])
  }

  /** What creation and settings never change of a bucket. */
  predicate SameBucket(c: BucketConfig, d: BucketConfig) {
    && c.name == d.name && c.createdMS == d.createdMS && c.lockEnabled == d.lockEnabled && c.unknown == d.unknown
    && c.formatVersion == d.formatVersion
  }

  predicate SameDefault(c: BucketConfig, d: BucketConfig) {
    c.defaultMode == d.defaultMode && c.defaultDays == d.defaultDays && c.defaultYears == d.defaultYears
  }

  /** The names the store takes: a key of 1 to 1024 bytes with no NUL; a bucket name of 3 to 63 lower-case
      letters, digits, dots and hyphens, with a letter or digit at both ends. */
  lemma NamesExactly(name: bytes)
    ensures ValidObjectKey(name) <==> 1 <= |name| <= 1024 && 0 !in name
    ensures ValidBucketName(name) <==>
      && 3 <= |name| <= 63 && name[0] !in {46, 45} && name[|name| - 1] !in {46, 45}
      && forall c :: c in name ==> 97 <= c <= 122 || 48 <= c <= 57 || c == 46 || c == 45
  {
    assert forall i :: 0 <= i < |name| ==> name[i] in name;
  }

  /** A bucket is created exactly under a valid name that is free. With object lock it starts with
      versioning on; it has no default retention. */
  lemma CreateBucketExactly(st: State, p: Proposal, calendar: Calendar)
    requires p.CreateBucket?
    ensures var out := Step(st, p, calendar);
      && (out.res.Ok? <==> ValidBucketName(p.bucket) && p.bucket !in st.buckets)
      && (out.res.Err? ==> out.st == st)
      && (out.res.Ok? ==>
            && OnlyBucket(st, out.st, p.bucket)
            && var c := out.st.buckets[p.bucket];
            && c.name == p.bucket && c.createdMS == p.at && c.lockEnabled == p.lock
            && c.versioning == (if p.lock then VersioningEnabled else Unversioned) && c.defaultMode == RetentionNone)
  {
    hide ValidBucketName;
  }

  /** A bucket is deleted exactly when it holds no version, no upload and no part. */
  lemma DeleteBucketExactly(st: State, p: Proposal, calendar: Calendar)
    requires p.DeleteBucket?
    ensures var out := Step(st, p, calendar);
      && (out.res.Ok? <==>
            && p.bucket in st.buckets && (forall v :: v in st.versions ==> v.bucket != p.bucket)
            && (forall u :: u in st.uploads ==> u.bucket != p.bucket)
            && forall q :: q in st.parts ==> q.bucket != p.bucket)
      && out.st == if out.res.Ok? then st.(buckets := st.buckets - {p.bucket}) else st
  {
  }

  /** Versioning is switched on always, and suspended exactly without object lock; never off. */
  lemma VersioningExactly(st: State, p: Proposal, calendar: Calendar)
    requires p.SetBucketVersioning?
    ensures var out := Step(st, p, calendar);
      && (out.res.Ok? <==>
            && p.bucket in st.buckets
            && (p.state == VersioningEnabled || (p.state == VersioningSuspended && !st.buckets[p.bucket].lockEnabled)))
      && (out.res.Err? ==> out.st == st)
      && (out.res.Ok? ==>
            && OnlyBucket(st, out.st, p.bucket)
            && var c, d := st.buckets[p.bucket], out.st.buckets[p.bucket];
            && d.versioning == p.state && SameBucket(c, d) && SameDefault(c, d))
  {
  }

  /** A default retention is set exactly in a bucket with object lock: no mode and no time, or a mode and
      either days or years. */
  lemma DefaultExactly(st: State, p: Proposal, calendar: Calendar)
    requires p.SetLockConfiguration?
    ensures var out := Step(st, p, calendar);
      && (out.res.Ok? <==>
            && p.bucket in st.buckets && st.buckets[p.bucket].lockEnabled
            && ( || (p.mode == RetentionNone && p.days == 0 == p.years)
                 || (p.mode in {RetentionGovernance, RetentionCompliance} &&
                     ((p.days > 0 && p.years == 0) || (p.days == 0 && p.years > 0)))))
      && (out.res.Err? ==> out.st == st)
      && (out.res.Ok? ==>
            && OnlyBucket(st, out.st, p.bucket)
            && var c, d := st.buckets[p.bucket], out.st.buckets[p.bucket];
            && d.defaultMode == p.mode && d.defaultDays == p.days && d.defaultYears == p.years
            && SameBucket(c, d) && c.versioning == d.versioning)
  {
  }

  /** What one step may do to a bucket that stays. */
  lemma StepBucket(st: State, p: Proposal, calendar: Calendar, b: bytes)
    requires b in st.buckets && !(p.DeleteBucket? && p.bucket == b)
    ensures b in Step(st, p, calendar).st.buckets
    ensures var c, d := st.buckets[b], Step(st, p, calendar).st.buckets[b];
      SameBucket(c, d) && (c.versioning != Unversioned ==> d.versioning != Unversioned) &&
      (c.lockEnabled && c.versioning == VersioningEnabled ==> d.versioning == VersioningEnabled)
  {
    hide Step, ValidBucketName;
    match p
    case CreateBucket(_, _, _) => CreateBucketExactly(st, p, calendar);
    case DeleteBucket(_, _) => DeleteBucketExactly(st, p, calendar);
    case SetBucketVersioning(_, _, _) => VersioningExactly(st, p, calendar);
    case SetLockConfiguration(_, _, _, _, _) => DefaultExactly(st, p, calendar);
    case _ => BucketsStay(st, p, calendar);
  }

  lemma BucketsStay(st: State, p: Proposal, calendar: Calendar)
    requires !p.CreateBucket? && !p.DeleteBucket? && !p.SetBucketVersioning? && !p.SetLockConfiguration?
    ensures Step(st, p, calendar).st.buckets == st.buckets
  {
    hide ValidObjectKey, LockedAt, Newest, RederivedRows, MetaSystem.SystemChange, MetaSystem.SystemNext;
  }

  /** Over any log that does not delete it, a bucket keeps its name and its object lock, and versioning
      once on is never off again, nor suspended under object lock. */
  lemma {:induction false} BucketsKeep(st: State, log: seq<Proposal>, calendar: Calendar, b: bytes)
    requires b in st.buckets && forall i :: 0 <= i < |log| ==> !(log[i].DeleteBucket? && log[i].bucket == b)
    ensures b in Run(st, log, calendar).buckets
    ensures var c, d := st.buckets[b], Run(st, log, calendar).buckets[b];
      SameBucket(c, d) && (c.versioning != Unversioned ==> d.versioning != Unversioned) &&
      (c.lockEnabled && c.versioning == VersioningEnabled ==> d.versioning == VersioningEnabled)
    decreases |log|
  {
    hide Step;
    if log != [] {
      var front := log[..|log| - 1];
      BucketsKeep(st, front, calendar, b);
      StepBucket(Run(st, front, calendar), log[|log| - 1], calendar, b);
    }
  }

  // ---- writes ----

  /** The version the write would replace can be replaced: it has no hold and no live retention. */
  ghost predicate NullFree(st: State, b: bytes, k: bytes, at: int64) {
    forall id: vid :: VersionKey(b, k, id) in st.versions && st.versions[VersionKey(b, k, id)].nullVersion ==>
      var e := st.versions[VersionKey(b, k, id)];
      !e.hold && (e.retainUntilMS <= at || e.mode !in {RetentionGovernance, RetentionCompliance})
  }

  lemma CommitAccepted(st: State, b: bytes, k: bytes, at: int64, e: VersionEntry)
    requires NullRules(st, b, k)
    ensures Commit(st, b, k, at, e).res.Ok? <==> !e.nullVersion || NullFree(st, b, k, at)
  {
    var nulls := NullIds(st, b, k);
    if nulls != {} {
      assert MaxId(nulls) in nulls;
    }
  }

  /** A write is accepted exactly in a bucket that exists, under a valid key, with lock settings only where
      there is object lock and a date to come, and, where it replaces the null version, if that is free. */
  lemma PutExactly(st: State, p: Proposal, calendar: Calendar)
    requires p.PutObject? && Inv(st)
    ensures Step(st, p, calendar).res.Ok? <==>
      && p.bucket in st.buckets && ValidObjectKey(p.key)
      && (p.mode != RetentionNone || p.hold ==> st.buckets[p.bucket].lockEnabled)
      && (p.mode != RetentionNone ==> p.retainUntilMS > p.at)
      && (st.buckets[p.bucket].versioning != VersioningEnabled ==> NullFree(st, p.bucket, p.key, p.at))
  {
    hide Commit, ValidObjectKey, Bumped, NullFree;
    assert KeyInv(st, p.bucket, p.key);
    if p.bucket in st.buckets {
      var e := PutEntry(st.buckets[p.bucket], p, Bumped(st, p.bucket, p.key, p.id), calendar);
      CommitAccepted(st, p.bucket, p.key, p.at, e);
    }
  }

  /** A delete without a version is accepted exactly in a bucket that exists, under a valid key, if the
      version it replaces or removes is free. */
  lemma DeleteObjectExactly(st: State, p: Proposal, calendar: Calendar)
    requires p.DeleteObject? && Inv(st)
    ensures Step(st, p, calendar).res.Ok? <==>
      && p.bucket in st.buckets && ValidObjectKey(p.key)
      && (st.buckets[p.bucket].versioning in {Unversioned, VersioningSuspended} ==>
            NullFree(st, p.bucket, p.key, p.at))
  {
    hide Commit, ValidObjectKey, Bumped;
    assert KeyInv(st, p.bucket, p.key);
    if p.bucket in st.buckets {
      var e := Marker(st.buckets[p.bucket], p, Bumped(st, p.bucket, p.key, p.id));
      CommitAccepted(st, p.bucket, p.key, p.at, e);
      if Newest(st, p.bucket, p.key).Some? {
        assert Newest(st, p.bucket, p.key).value in Ids(st, p.bucket, p.key);
      }
    }
  }

  /** With no versioning the key is then gone; otherwise it has a marker of that date, with no data. */
  lemma DeleteObjectTakes(st: State, p: Proposal, calendar: Calendar)
    requires p.DeleteObject? && Inv(st) && Step(st, p, calendar).res.Ok?
    ensures p.bucket in st.buckets
    ensures var out := Step(st, p, calendar);
      if st.buckets[p.bucket].versioning == Unversioned then
        Ids(out.st, p.bucket, p.key) == {} && out.res.value.removed == (Ids(st, p.bucket, p.key) != {})
      else
        && out.res.value.id.Some?
        && var v := VersionKey(p.bucket, p.key, out.res.value.id.value);
        && v in out.st.versions
        && var e := out.st.versions[v];
        && e.kind == KindDeleteMarker && e.createdMS == p.at && e.size == 0 && e.dataId == 0 && e.parts == []
        && !e.hold && e.mode == RetentionNone
        && (e.nullVersion <==> st.buckets[p.bucket].versioning == VersioningSuspended)
  {
    hide Commit, ValidObjectKey, Bumped, LockedAt;
    assert KeyInv(st, p.bucket, p.key);
    if st.buckets[p.bucket].versioning != Unversioned {
      var e := Marker(st.buckets[p.bucket], p, Bumped(st, p.bucket, p.key, p.id));
      MetaEffects.CommitHolds(st, p.bucket, p.key, p.at, e);
    } else if Newest(st, p.bucket, p.key).Some? {
      OnlyOne(st, p.bucket, p.key);
    }
  }

  /** An unversioned key has at most one version. */
  lemma OnlyOne(st: State, b: bytes, k: bytes)
    requires NullRules(st, b, k) && Ids(st, b, k) == NullIds(st, b, k) && Newest(st, b, k).Some?
    ensures Ids(WithoutVersion(st, b, k, Newest(st, b, k).value), b, k) == {}
  {
    assert Newest(st, b, k).value in Ids(st, b, k);
  }

  /** A listed part as it must be stored: under the ETag the client claims, and, unless it is the last, of
      at least 5 MiB. */
  ghost predicate PartFits(st: State, p: Proposal, i: nat)
    requires p.CompleteUpload? && i < |p.parts|
  {
    && MetaEffects.ListedPart(p, i) in st.parts
    && st.parts[MetaEffects.ListedPart(p, i)].etag == p.parts[i].etag
    && (i < |p.parts| - 1 ==> st.parts[MetaEffects.ListedPart(p, i)].size >= 5 * 1024 * 1024)
  }

  lemma {:induction false} FirstErrorNone(st: State, p: Proposal, i: nat)
    requires p.CompleteUpload? && i <= |p.parts|
    ensures FirstPartError(st, p, i).None? <==> forall j :: i <= j < |p.parts| ==> PartFits(st, p, j)
    decreases |p.parts| - i
  {
    if i < |p.parts| {
      FirstErrorNone(st, p, i + 1);
      assert PartError(st, p, i).None? <==> PartFits(st, p, i);
    }
  }

  /** An upload is completed exactly if it is open, lists at least one part, in ascending order, each as
      it must be stored, and, where the object replaces the null version, that is free. */
  lemma CompleteExactly(st: State, p: Proposal, calendar: Calendar)
    requires p.CompleteUpload? && Inv(st)
    ensures Step(st, p, calendar).res.Ok? <==>
      && p.bucket in st.buckets && ValidObjectKey(p.key) && VersionKey(p.bucket, p.key, p.upload) in st.uploads
      && p.parts != [] && (forall i, j :: 0 <= i < j < |p.parts| ==> p.parts[i].number < p.parts[j].number)
      && (forall i :: 0 <= i < |p.parts| ==> PartFits(st, p, i))
      && (st.buckets[p.bucket].versioning != VersioningEnabled ==> NullFree(st, p.bucket, p.key, p.at))
  {
    hide Commit, ValidObjectKey, Bumped, NullFree, PartFits;
    assert KeyInv(st, p.bucket, p.key);
    FirstErrorNone(st, p, 0);
    AscendingAll(p.parts);
    if p.bucket in st.buckets && VersionKey(p.bucket, p.key, p.upload) in st.uploads && FirstPartError(st, p, 0).None? {
      var e := CompletedEntry(st, st.buckets[p.bucket], p, Bumped(st, p.bucket, p.key, p.id));
      CommitAccepted(st, p.bucket, p.key, p.at, e);
    }
  }

  lemma AscendingAll(parts: seq<CompletedPart>)
    ensures AscendingParts(parts) <==> forall i, j :: 0 <= i < j < |parts| ==> parts[i].number < parts[j].number
  {
    if AscendingParts(parts) {
      forall i, j | 0 <= i < j < |parts|
        ensures parts[i].number < parts[j].number
      {
        AscendingFar(parts, i, j);
      }
    }
  }

  lemma {:induction false} AscendingFar(parts: seq<CompletedPart>, i: nat, j: nat)
    requires AscendingParts(parts) && i < j < |parts|
    ensures parts[i].number < parts[j].number
    decreases j
  {
    if i < j - 1 {
      AscendingFar(parts, i, j - 1);
    }
  }

  /** An upload is opened exactly under a free ID, and carries what its version will. */
  lemma CreateUploadExactly(st: State, p: Proposal, calendar: Calendar)
    requires p.CreateUpload?
    ensures var u := VersionKey(p.bucket, p.key, p.id);
      var out := Step(st, p, calendar);
      && (out.res.Ok? <==> p.bucket in st.buckets && ValidObjectKey(p.key) && u !in st.uploads)
      && (out.res.Err? ==> out.st == st)
      && (out.res.Ok? ==>
            && u in out.st.uploads && out.st == st.(uploads := st.uploads[u := out.st.uploads[u]])
            && var r := out.st.uploads[u];
            && r.id == p.id && r.createdMS == p.at && r.contentType == p.contentType &&
              r.userMetadata == p.userMetadata)
  {
    hide ValidObjectKey;
  }

  /** A part is stored exactly for an open upload and a number from 1 to 10000. It then stands with what
      the proposal says, in place of any earlier part of that number. */
  lemma PartExactly(st: State, p: Proposal, calendar: Calendar)
    requires p.UploadPart?
    ensures var q := PartKey(p.bucket, p.key, p.id, p.number);
      var out := Step(st, p, calendar);
      && (out.res.Ok? <==>
            && p.bucket in st.buckets && ValidObjectKey(p.key) && 1 <= p.number <= 10000
            && VersionKey(p.bucket, p.key, p.id) in st.uploads)
      && (out.res.Err? ==> out.st == st)
      && (out.res.Ok? ==>
            && q in out.st.parts && out.st == st.(parts := st.parts[q := out.st.parts[q]])
            && var r := out.st.parts[q];
            && r.number == p.number && r.dataId == p.dataId && r.size == p.size && r.etag == p.etag
            && r.checksum == p.checksum && r.uploadedMS == p.at && r.layout == p.layout)
  {
    hide ValidObjectKey;
  }

  // ---- the cluster's own rows ----

  /** A layout is installed exactly as the next generation, the first being 1, with the partition count
      fixed by the first and at least one member. It is then the layout, as proposed. */
  lemma LayoutExactly(sys: System, c: SystemCommand)
    requires c.SetClusterLayout?
    ensures SystemChange(sys, c).Ok? <==>
      && c.partitionCount > 0 && (c.members != [] || c.nodes != [])
      && (if sys.layout.None? then c.version == 1
          else c.version == (sys.layout.value.version + 1) % TwoTo64 &&
               c.partitionCount == sys.layout.value.partitionCount)
    ensures SystemChange(sys, c).Err? ==> SystemNext(sys, c) == sys
    ensures SystemChange(sys, c).Ok? ==>
      && SystemNext(sys, c).layout.Some? && SystemNext(sys, c) == sys.(layout := SystemNext(sys, c).layout)
      && var l := SystemNext(sys, c).layout.value;
      && l.version == c.version && l.partitionCount == c.partitionCount && l.members == c.members
      && l.nodes == c.nodes && l.previous == c.previous
  {
  }

  /** Encryption is affirmed exactly with a known algorithm, never back to none, and never under a key other
      than the one in use. An open rotation stays open. */
  lemma PostureExactly(sys: System, c: SystemCommand)
    requires c.SetEncryptionPosture?
    ensures var was := if sys.posture.Some? then sys.posture.value else EncryptionPosture(1, EncNone, 0, 0, []);
      && (SystemChange(sys, c).Ok? <==>
            && c.algorithm in {EncNone, EncAES256GCM} && (was.algorithm != EncNone ==> c.algorithm != EncNone)
            && (c.kek == 0 || was.currentKEK in {0, c.kek}))
      && (SystemChange(sys, c).Err? ==> SystemNext(sys, c) == sys)
      && (SystemChange(sys, c).Ok? ==>
            && SystemNext(sys, c).posture.Some? && SystemNext(sys, c) == sys.(posture := SystemNext(sys, c).posture)
            && var now := SystemNext(sys, c).posture.value;
            && now.algorithm == c.algorithm && now.rotatingToKEK == was.rotatingToKEK
            && now.currentKEK == if was.currentKEK == 0 then c.kek else was.currentKEK)
  {
  }

  /** A trust bundle is installed exactly as the next generation, the first being 1, if every authority in
      it has a fingerprint and a certificate and the issuer is among them. */
  lemma TrustExactly(sys: System, c: SystemCommand)
    requires c.SetTrustBundle?
    ensures SystemChange(sys, c).Ok? <==>
      && c.version == (if sys.trust.None? then 1 else (sys.trust.value.version + 1) % TwoTo64)
      && (forall i :: 0 <= i < |c.cas| ==> c.cas[i].fingerprint != 0 && c.cas[i].cert != [])
      && exists i :: 0 <= i < |c.cas| && c.cas[i].fingerprint == c.issuer
    ensures SystemChange(sys, c).Err? ==> SystemNext(sys, c) == sys
    ensures SystemChange(sys, c).Ok? ==>
      && SystemNext(sys, c).trust.Some? && SystemNext(sys, c) == sys.(trust := SystemNext(sys, c).trust)
      && var t := SystemNext(sys, c).trust.value;
      && t.version == c.version && t.cas == c.cas && t.issuer == c.issuer
  {
    if i :| 0 <= i < |c.cas| && c.cas[i].fingerprint == c.issuer {
      assert HasCA(c.cas, c.issuer);
    }
  }

  /** A key rotation opens exactly from the key in use to another, one at a time, and changes only where it
      goes; it closes exactly onto its target, which is then the key in use. */
  lemma RotationExactly(sys: System, c: SystemCommand)
    requires c.BeginKEKRotation? || c.CompleteKEKRotation?
    ensures var ok := SystemChange(sys, c).Ok?;
      && (ok ==> sys.posture.Some?) && (!ok ==> SystemNext(sys, c) == sys)
      && (sys.posture.Some? ==>
            var was := sys.posture.value;
            var now := SystemNext(sys, c).posture;
            && (c.BeginKEKRotation? ==>
                  && (ok <==> was.algorithm != EncNone && c.from == was.currentKEK != 0 && c.to != 0 &&
                              c.to != was.currentKEK && was.rotatingToKEK in {0, c.to})
                  && (ok ==> now == Some(was.(rotatingToKEK := c.to))))
            && (c.CompleteKEKRotation? ==>
                  && (ok <==> c.to == if was.rotatingToKEK == 0 then was.currentKEK else was.rotatingToKEK)
                  && (ok ==> now == Some(was.(currentKEK := c.to, rotatingToKEK := 0)))))
  {
  }

  /** A member's other labels are as they were. */
  predicate SameMember(r: NodeRecord, s: NodeRecord) {
    r.id == s.id && r.host == s.host && r.zone == s.zone && r.capacity == s.capacity && r.unknown == s.unknown
  }

  /** A change to a member is accepted exactly if it is registered, and sets what it names and no more. */
  lemma MemberExactly(sys: System, c: SystemCommand)
    requires c.SetNodeVersion? || c.SetNodeLeafCA? || c.SetNodeDraining? || c.SetNodeReplacedBy?
    ensures var ok := SystemChange(sys, c).Ok?;
      && (ok <==> c.id != [] && c.id in sys.nodes) && (!ok ==> SystemNext(sys, c) == sys)
      && (ok ==>
            && c.id in SystemNext(sys, c).nodes
            && SystemNext(sys, c) == sys.(nodes := sys.nodes[c.id := SystemNext(sys, c).nodes[c.id]])
            && var r, s := sys.nodes[c.id], SystemNext(sys, c).nodes[c.id];
            && SameMember(r, s)
            && (if c.SetNodeVersion? then s.binaryVersion == c.binaryVersion && s.generation == c.generation
                else s.binaryVersion == r.binaryVersion && s.generation == r.generation)
            && s.leafCA == (if c.SetNodeLeafCA? then c.leafCA else r.leafCA)
            && s.draining == (if c.SetNodeDraining? then c.draining else r.draining)
            && s.replacedBy == (if c.SetNodeReplacedBy? then c.replacedBy else r.replacedBy))
  {
  }

  /** A registration is accepted exactly under a name; it sets the labels, keeps the version another
      command owns, and starts undrained and unreplaced. */
  lemma RegisterExactly(sys: System, c: SystemCommand)
    requires c.RegisterNode?
    ensures (SystemChange(sys, c).Ok? <==> c.id != []) && (c.id == [] ==> SystemNext(sys, c) == sys)
    ensures c.id != [] ==>
      && c.id in SystemNext(sys, c).nodes
      && SystemNext(sys, c) == sys.(nodes := sys.nodes[c.id := SystemNext(sys, c).nodes[c.id]])
      && var s := SystemNext(sys, c).nodes[c.id];
      && s.id == c.id && s.host == c.host && s.zone == c.zone && s.capacity == c.capacity && s.leafCA == c.leafCA
      && !s.draining && s.replacedBy == []
      && (c.id in sys.nodes ==>
            s.binaryVersion == sys.nodes[c.id].binaryVersion && s.generation == sys.nodes[c.id].generation)
  {
  }
}
