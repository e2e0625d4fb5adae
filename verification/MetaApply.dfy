/** The deterministic state machine: what each proposal does to the state. */
module MetaApply {
  import opened Bytes
  import opened MetaVid
  import opened MetaKeys
  import opened MetaRecords
  import opened MetaSystem

  /** A write date plus days and years of calendar time. */
  type Calendar = (int64, uint32, uint32) -> int64

  /** What an accepted proposal reports: the version it committed, the data it left unreferenced,
      and whether it removed a version. */
  datatype Applied = Applied(id: Option<vid>, freed: seq<vid>, removed: bool)

  const Done := Applied(None, [], false)

  datatype Outcome = Outcome(st: State, res: Result<Applied, ApplyError>)

  function Refuse(st: State, e: ApplyError): Outcome { Outcome(st, Err(e)) }

  function Accept(st: State): Outcome { Outcome(st, Ok(Done)) }

  // ---- reading a key's versions ----

  function Ids(st: State, b: bytes, k: bytes): (s: set<vid>)
    ensures forall id: vid :: id in s <==> VersionKey(b, k, id) in st.versions
  {
    set v | v in st.versions && v.bucket == b && v.key == k :: v.id
  }

  function NullIds(st: State, b: bytes, k: bytes): (s: set<vid>)
    ensures forall id: vid :: id in s <==>
      VersionKey(b, k, id) in st.versions && st.versions[VersionKey(b, k, id)].nullVersion
  {
    set v | v in st.versions && v.bucket == b && v.key == k && st.versions[v].nullVersion :: v.id
  }

  ghost predicate IsMax(s: set<vid>, m: vid) { m in s && forall x :: x in s ==> x <= m }

  lemma {:induction false} MaxExists(s: set<vid>)
    requires s != {}
    ensures exists m :: IsMax(s, m)
    decreases s
  {
    var x :| x in s;
    var rest := s - {x};
    assert forall y :: y in s <==> y in rest || y == x;
    if rest == {} {
      assert IsMax(s, x);
    } else {
      MaxExists(rest);
      var m :| IsMax(rest, m);
      assert IsMax(s, if x > m then x else m);
    }
  }

  ghost function MaxId(s: set<vid>): (m: vid)
    requires s != {}
    ensures m in s && forall x :: x in s ==> x <= m
  {
    MaxExists(s);
    var m :| IsMax(s, m);
    m
  }

  /** The newest version of a key. */
  ghost function Newest(st: State, b: bytes, k: bytes): Option<vid> {
    if Ids(st, b, k) == {} then None else Some(MaxId(Ids(st, b, k)))
  }

  /** Commit order beats clock order: an ID that does not sort after the newest is bumped just
      past it, wrapping at 2^128. */
  ghost function Bumped(st: State, b: bytes, k: bytes, minted: vid): vid {
    var newest := Newest(st, b, k);
    if newest.Some? && minted <= newest.value then (newest.value + 1) % TwoTo128 else minted
  }

  // ---- object lock ----

  /** Whether object lock forbids destroying an entry at a time. */
  predicate LockedAt(e: VersionEntry, at: int64, bypass: bool) {
    || e.hold
    || (e.retainUntilMS > at && (e.mode == RetentionCompliance || (e.mode == RetentionGovernance && !bypass)))
  }

  function DataIds(e: VersionEntry): seq<vid> {
    if |e.parts| > 0 then seq(|e.parts|, i requires 0 <= i < |e.parts| => e.parts[i].dataId)
    else if e.dataId == 0 then []
    else [e.dataId]
  }

  function CurrentFor(e: VersionEntry): CurrentRecord {
    CurrentRecord(FormatVersion, e.id, e.size, e.etag, e.createdMS, |e.parts| % 0x1_0000_0000, [])
  }

  // ---- the commit path shared by puts, markers and completed uploads ----

  function WithVersion(st: State, b: bytes, k: bytes, e: VersionEntry): State {
    st.(versions := st.versions[VersionKey(b, k, e.id) := e],
        current := if e.kind == KindObject then st.current[ObjectKey(b, k) := CurrentFor(e)]
        else st.current - {ObjectKey(b, k)})
  }

  function WithoutVersion(st: State, b: bytes, k: bytes, id: vid): State {
    st.(versions := st.versions - {VersionKey(b, k, id)})
  }

  /** A null version first replaces the prior null version, unless that is locked. */
  ghost function Commit(st: State, b: bytes, k: bytes, at: int64, e: VersionEntry): Outcome {
    var nulls := NullIds(st, b, k);
    if !e.nullVersion || nulls == {} then Outcome(WithVersion(st, b, k, e), Ok(Applied(Some(e.id), [], false)))
    else
      var prior := st.versions[VersionKey(b, k, MaxId(nulls))];
      if LockedAt(prior, at, false) then Refuse(st, ObjectLocked)
      else Outcome(WithVersion(WithoutVersion(st, b, k, MaxId(nulls)), b, k, e),
                   Ok(Applied(Some(e.id), DataIds(prior), false)))
  }

  // ---- buckets ----

  ghost function StepCreateBucket(st: State, p: Proposal): Outcome
    requires p.CreateBucket?
  {
    if !ValidBucketName(p.bucket) then Refuse(st, InvalidBucketName)
    else if p.bucket in st.buckets then Refuse(st, BucketExists)
    else
      var versioning := if p.lock then VersioningEnabled else Unversioned;
      Accept(st.(buckets := st.buckets[p.bucket :=
        BucketConfig(FormatVersion, p.bucket, p.at, versioning, p.lock, RetentionNone, 0, 0, [])]))
  }

  predicate BucketEmpty(st: State, b: bytes) {
    && (forall v :: v in st.versions ==> v.bucket != b)
    && (forall u :: u in st.uploads ==> u.bucket != b)
    && (forall q :: q in st.parts ==> q.bucket != b)
  }

  ghost function StepDeleteBucket(st: State, p: Proposal): Outcome
    requires p.DeleteBucket?
  {
    if p.bucket !in st.buckets then Refuse(st, NoSuchBucket)
    else if !BucketEmpty(st, p.bucket) then Refuse(st, BucketNotEmpty)
    else Accept(st.(buckets := st.buckets - {p.bucket}))
  }

  ghost function StepSetVersioning(st: State, p: Proposal): Outcome
    requires p.SetBucketVersioning?
  {
    if p.bucket !in st.buckets then Refuse(st, NoSuchBucket)
    else
      var cfg := st.buckets[p.bucket];
      if p.state != VersioningEnabled && p.state != VersioningSuspended then Refuse(st, InvalidVersioningState)
      else if p.state == VersioningSuspended && cfg.lockEnabled then Refuse(st, InvalidVersioningState)
      else Accept(st.(buckets := st.buckets[p.bucket := cfg.(versioning := p.state)]))
  }

  predicate ValidDefault(mode: uint8, days: uint32, years: uint32) {
    if mode == RetentionNone then days == 0 && years == 0
    else (mode == RetentionGovernance || mode == RetentionCompliance) && ((days == 0) != (years == 0))
  }

  ghost function StepSetLock(st: State, p: Proposal): Outcome
    requires p.SetLockConfiguration?
  {
    if p.bucket !in st.buckets then Refuse(st, NoSuchBucket)
    else
      var cfg := st.buckets[p.bucket];
      if !cfg.lockEnabled || !ValidDefault(p.mode, p.days, p.years) then Refuse(st, InvalidRetention)
      else Accept(st.(buckets := st.buckets[p.bucket := cfg.(defaultMode := p.mode, defaultDays := p.days,
        defaultYears := p.years)]))
  }

  // ---- objects ----

  /** A write's own retention, or the bucket's default. */
  function Retention(cfg: BucketConfig, p: Proposal, calendar: Calendar): (uint8, int64)
    requires p.PutObject?
  {
    if p.mode == RetentionNone && cfg.lockEnabled && cfg.defaultMode != RetentionNone then
      (cfg.defaultMode, calendar(p.at, cfg.defaultDays, cfg.defaultYears))
    else (p.mode, p.retainUntilMS)
  }

  function PutEntry(cfg: BucketConfig, p: Proposal, id: vid, calendar: Calendar): VersionEntry
    requires p.PutObject?
  {
    var (mode, until) := Retention(cfg, p, calendar);
    VersionEntry(FormatVersion, id, p.id, KindObject, p.size, p.at, p.etag, p.contentType, p.userMetadata,
                 p.layout, p.objectChecksum, mode, until, p.hold, cfg.versioning != VersioningEnabled, [], [])
  }

  ghost function StepPut(st: State, p: Proposal, calendar: Calendar): Outcome
    requires p.PutObject?
  {
    if p.bucket !in st.buckets then Refuse(st, NoSuchBucket)
    else if !ValidObjectKey(p.key) then Refuse(st, InvalidObjectKey)
    else
      var cfg := st.buckets[p.bucket];
      if (p.mode != RetentionNone || p.hold) && !cfg.lockEnabled then Refuse(st, InvalidRetention)
      else if p.mode != RetentionNone && p.retainUntilMS <= p.at then Refuse(st, InvalidRetention)
      else Commit(st, p.bucket, p.key, p.at, PutEntry(cfg, p, Bumped(st, p.bucket, p.key, p.id), calendar))
  }

  const NoLayout := Layout(0, 0, 0, [], EncNone, [], 0)

  function Marker(cfg: BucketConfig, p: Proposal, id: vid): VersionEntry
    requires p.DeleteObject?
  {
    VersionEntry(FormatVersion, id, 0, KindDeleteMarker, 0, p.at, [], [], map[], NoLayout, [],
                 RetentionNone, 0, false, cfg.versioning == VersioningSuspended, [], [])
  }

  ghost function StepDeleteObject(st: State, p: Proposal): Outcome
    requires p.DeleteObject?
  {
    if p.bucket !in st.buckets then Refuse(st, NoSuchBucket)
    else if !ValidObjectKey(p.key) then Refuse(st, InvalidObjectKey)
    else
      var cfg := st.buckets[p.bucket];
      var newest := Newest(st, p.bucket, p.key);
      if cfg.versioning == Unversioned then
        if newest.None? then Accept(st)
        else
          var e := st.versions[VersionKey(p.bucket, p.key, newest.value)];
          if LockedAt(e, p.at, false) then Refuse(st, ObjectLocked)
          else
            var gone := WithoutVersion(st, p.bucket, p.key, newest.value);
            Outcome(gone.(current := gone.current - {ObjectKey(p.bucket, p.key)}), Ok(Applied(None, DataIds(e), true)))
      else Commit(st, p.bucket, p.key, p.at, Marker(cfg, p, Bumped(st, p.bucket, p.key, p.id)))
  }

  /** The derived row of a key, recomputed from its newest version. */
  ghost function Rederived(st: State, b: bytes, k: bytes): State {
    st.(current := RederivedRows(st, b, k))
  }

  ghost function RederivedRows(st: State, b: bytes, k: bytes): map<ObjectKey, CurrentRecord> {
    var newest := Newest(st, b, k);
    if newest.Some? && st.versions[VersionKey(b, k, newest.value)].kind == KindObject then
      st.current[ObjectKey(b, k) := CurrentFor(st.versions[VersionKey(b, k, newest.value)])]
    else st.current - {ObjectKey(b, k)}
  }

  ghost function StepDeleteVersion(st: State, p: Proposal): Outcome
    requires p.DeleteVersion?
  {
    var v := VersionKey(p.bucket, p.key, p.id);
    if p.bucket !in st.buckets then Refuse(st, NoSuchBucket)
    else if !ValidObjectKey(p.key) then Refuse(st, InvalidObjectKey)
    else if v !in st.versions then Accept(st)
    else if LockedAt(st.versions[v], p.at, p.bypass) then Refuse(st, ObjectLocked)
    else
      var gone := WithoutVersion(st, p.bucket, p.key, p.id);
      Outcome(if Newest(st, p.bucket, p.key) == Some(p.id) then Rederived(gone, p.bucket, p.key)
              else gone, Ok(Applied(None, [], true)))
  }

  /** The version a lock change aims at. */
  ghost function LockTarget(st: State, b: bytes, k: bytes, id: vid): Result<VersionEntry, ApplyError> {
    if b !in st.buckets then Err(NoSuchBucket)
    else if !ValidObjectKey(k) then Err(InvalidObjectKey)
    else if !st.buckets[b].lockEnabled then Err(InvalidRetention)
    else if VersionKey(b, k, id) !in st.versions then Err(NoSuchVersion)
    else if st.versions[VersionKey(b, k, id)].kind != KindObject then Err(InvalidRetention)
    else Ok(st.versions[VersionKey(b, k, id)])
  }

  function WithEntry(st: State, b: bytes, k: bytes, id: vid, e: VersionEntry): State {
    st.(versions := st.versions[VersionKey(b, k, id) := e])
  }

  /** Whether a retention change is refused: COMPLIANCE only strengthens; GOVERNANCE only
      strengthens without the bypass; expired retention is no retention. */
  predicate RetentionRefused(e: VersionEntry, p: Proposal)
    requires p.UpdateRetention?
  {
    && e.retainUntilMS > p.at
    && ( || (e.mode == RetentionCompliance && (p.mode != RetentionCompliance || p.retainUntilMS < e.retainUntilMS))
         || (e.mode == RetentionGovernance && !p.bypass &&
             (p.mode == RetentionNone || p.retainUntilMS < e.retainUntilMS)))
  }

  ghost function StepUpdateRetention(st: State, p: Proposal): Outcome
    requires p.UpdateRetention?
  {
    var target := LockTarget(st, p.bucket, p.key, p.id);
    if target.Err? then Refuse(st, target.error)
    else if p.mode != RetentionNone && p.retainUntilMS <= p.at then Refuse(st, InvalidRetention)
    else if RetentionRefused(target.value, p) then Refuse(st, ObjectLocked)
    else
      var until := if p.mode == RetentionNone then 0 else p.retainUntilMS;
      Accept(WithEntry(st, p.bucket, p.key, p.id, target.value.(mode := p.mode, retainUntilMS := until)))
  }

  ghost function StepLegalHold(st: State, p: Proposal): Outcome
    requires p.UpdateLegalHold?
  {
    var target := LockTarget(st, p.bucket, p.key, p.id);
    if target.Err? then Refuse(st, target.error)
    else Accept(WithEntry(st, p.bucket, p.key, p.id, target.value.(hold := p.hold)))
  }

  /** The shard counts add in 32 bits. */
  function Width(k: uint32, m: uint32): nat { (k + m) % 0x1_0000_0000 }

  ghost function StepReEncode(st: State, p: Proposal): Outcome
    requires p.ReEncodeObject?
  {
    var v := VersionKey(p.bucket, p.key, p.id);
    if v !in st.versions then Refuse(st, NoSuchVersion)
    else
      var e := st.versions[v];
      if e.kind != KindObject || |e.parts| > 0 then Refuse(st, InvalidReEncode)
      else if p.dataShards == 0 || Width(p.dataShards, p.parityShards) != |p.shardChecksums|
        then Refuse(st, InvalidReEncode)
      else
        Accept(WithEntry(st, p.bucket, p.key, p.id, e.(dataId := p.dataId, layout := e.layout.(
          dataShards := p.dataShards, parityShards := p.parityShards, shardChecksums := p.shardChecksums))))
  }

  ghost function StepRewrap(st: State, p: Proposal): Outcome
    requires p.RewrapDEK?
  {
    var v := VersionKey(p.bucket, p.key, p.id);
    if v !in st.versions then Refuse(st, NoSuchVersion)
    else
      var e := st.versions[v];
      if e.kind != KindObject || e.layout.encAlgorithm == EncNone then Refuse(st, InvalidRewrap)
      else if |p.wrappedDEK| == 0 || p.kekFingerprint == 0 then Refuse(st, InvalidRewrap)
      else if e.layout.kekFingerprint == p.kekFingerprint then Accept(st)
      else
        Accept(WithEntry(st, p.bucket, p.key, p.id, e.(layout := e.layout.(
          wrappedDEK := p.wrappedDEK, kekFingerprint := p.kekFingerprint))))
  }

  // ---- multipart uploads ----

  ghost function StepCreateUpload(st: State, p: Proposal): Outcome
    requires p.CreateUpload?
  {
    var u := VersionKey(p.bucket, p.key, p.id);
    if p.bucket !in st.buckets then Refuse(st, NoSuchBucket)
    else if !ValidObjectKey(p.key) then Refuse(st, InvalidObjectKey)
    else if u in st.uploads then Refuse(st, UploadExists)
    else Accept(st.(uploads := st.uploads[u := UploadRecord(FormatVersion, p.id, p.at, p.contentType, p.userMetadata,
      [])]))
  }

  ghost function StepUploadPart(st: State, p: Proposal): Outcome
    requires p.UploadPart?
  {
    if p.bucket !in st.buckets then Refuse(st, NoSuchBucket)
    else if !ValidObjectKey(p.key) then Refuse(st, InvalidObjectKey)
    else if p.number < 1 || p.number > MaxPartNumber then Refuse(st, InvalidPartNumber)
    else if VersionKey(p.bucket, p.key, p.id) !in st.uploads then Refuse(st, NoSuchUpload)
    else
      var q := PartKey(p.bucket, p.key, p.id, p.number);
      var freed := if q in st.parts then [st.parts[q].dataId] else [];
      Outcome(st.(parts := st.parts[q :=
        PartRecord(FormatVersion, p.number, p.dataId, p.size, p.etag, p.checksum, p.at, p.layout, [])]),
        Ok(Applied(None, freed, false)))
  }

  predicate AscendingParts(parts: seq<CompletedPart>) {
    forall i :: 1 <= i < |parts| ==> parts[i - 1].number < parts[i].number
  }

  /** What is wrong with the i-th listed part, if anything. */
  function PartError(st: State, p: Proposal, i: nat): Option<ApplyError>
    requires p.CompleteUpload? && i < |p.parts|
  {
    var q := PartKey(p.bucket, p.key, p.upload, p.parts[i].number);
    if q !in st.parts || st.parts[q].etag != p.parts[i].etag then Some(InvalidPart)
    else if i < |p.parts| - 1 && st.parts[q].size < MinPartSize then Some(PartTooSmall)
    else None
  }

  /** The first wrong part from i on. */
  function FirstPartError(st: State, p: Proposal, i: nat): Option<ApplyError>
    requires p.CompleteUpload? && i <= |p.parts|
    decreases |p.parts| - i
  {
    if i == |p.parts| then None
    else if PartError(st, p, i).Some? then PartError(st, p, i)
    else FirstPartError(st, p, i + 1)
  }

  function RefOf(r: PartRecord): PartRef {
    PartRef(r.dataId, r.size, r.checksum, r.layout, [])
  }

  /** Go's signed 64-bit sum. */
  function AddSize(a: int64, b: int64): int64 {
    var s := a + b;
    if s >= TwoTo63 then s - 2 * TwoTo63 else if s < -TwoTo63 then s + 2 * TwoTo63 else s
  }

  /** The part references and total size of the first n listed parts. */
  function Assembled(st: State, p: Proposal, n: nat): (seq<PartRef>, int64)
    requires p.CompleteUpload? && n <= |p.parts|
    requires forall i :: 0 <= i < n ==> PartKey(p.bucket, p.key, p.upload, p.parts[i].number) in st.parts
  {
    if n == 0 then ([], 0)
    else
      var (refs, size) := Assembled(st, p, n - 1);
      var r := st.parts[PartKey(p.bucket, p.key, p.upload, p.parts[n - 1].number)];
      (refs + [RefOf(r)], AddSize(size, r.size))
  }

  lemma {:induction false} PartsPresent(st: State, p: Proposal, i: nat)
    requires p.CompleteUpload? && i <= |p.parts| && FirstPartError(st, p, i).None?
    ensures forall j :: i <= j < |p.parts| ==> PartKey(p.bucket, p.key, p.upload, p.parts[j].number) in st.parts
    decreases |p.parts| - i
  {
    if i < |p.parts| {
      PartsPresent(st, p, i + 1);
    }
  }

  /** The parts of an upload numbered below n, in order. */
  ghost function PartsBelow(st: State, b: bytes, k: bytes, id: vid, n: nat): seq<PartRecord>
    requires n <= 0x1_0000_0000
  {
    if n == 0 then []
    else
      var q := PartKey(b, k, id, n - 1);
      PartsBelow(st, b, k, id, n - 1) + if q in st.parts then [st.parts[q]] else []
  }

  ghost function AllParts(st: State, b: bytes, k: bytes,
                          id: vid): seq<PartRecord> { PartsBelow(st, b, k, id, 0x1_0000_0000) }

  predicate Listed(parts: seq<CompletedPart>, n: uint32) { exists i :: 0 <= i < |parts| && parts[i].number == n }

  /** The data of the parts a completion does not list. */
  function UnusedIds(list: seq<PartRecord>, parts: seq<CompletedPart>): seq<vid> {
    if list == [] then []
    else
      var last := list[|list| - 1];
      UnusedIds(list[..|list| - 1], parts) + if Listed(parts, last.number) then [] else [last.dataId]
  }

  function UploadDropped(st: State, b: bytes, k: bytes, id: vid): State {
    st.(uploads := st.uploads - {VersionKey(b, k, id)},
        parts := map q | q in st.parts && !(q.bucket == b && q.key == k && q.id == id) :: st.parts[q])
  }

  function CompletedEntry(st: State, cfg: BucketConfig, p: Proposal, id: vid): VersionEntry
    requires p.CompleteUpload? && VersionKey(p.bucket, p.key, p.upload) in st.uploads && FirstPartError(st, p, 0).None?
  {
    PartsPresent(st, p, 0);
    var up := st.uploads[VersionKey(p.bucket, p.key, p.upload)];
    var (refs, size) := Assembled(st, p, |p.parts|);
    VersionEntry(FormatVersion, id, 0, KindObject, size, p.at, p.etag, up.contentType, up.userMetadata, NoLayout, [],
                 RetentionNone, 0, false, cfg.versioning != VersioningEnabled, refs, [])
  }

  ghost function StepCompleteUpload(st: State, p: Proposal): Outcome
    requires p.CompleteUpload?
  {
    if p.bucket !in st.buckets then Refuse(st, NoSuchBucket)
    else if !ValidObjectKey(p.key) then Refuse(st, InvalidObjectKey)
    else if VersionKey(p.bucket, p.key, p.upload) !in st.uploads then Refuse(st, NoSuchUpload)
    else if |p.parts| == 0 then Refuse(st, InvalidPart)
    else if !AscendingParts(p.parts) then Refuse(st, InvalidPartOrder)
    else if FirstPartError(st, p, 0).Some? then Refuse(st, FirstPartError(st, p, 0).value)
    else
      var e := CompletedEntry(st, st.buckets[p.bucket], p, Bumped(st, p.bucket, p.key, p.id));
      var out := Commit(st, p.bucket, p.key, p.at, e);
      if out.res.Err? then out
      else
        var freed := out.res.value.freed + UnusedIds(AllParts(st, p.bucket, p.key, p.upload), p.parts);
        Outcome(UploadDropped(out.st, p.bucket, p.key, p.upload), Ok(out.res.value.(freed := freed)))
  }

  ghost function StepAbortUpload(st: State, p: Proposal): Outcome
    requires p.AbortUpload?
  {
    if p.bucket !in st.buckets then Refuse(st, NoSuchBucket)
    else if !ValidObjectKey(p.key) then Refuse(st, InvalidObjectKey)
    else if VersionKey(p.bucket, p.key, p.id) !in st.uploads then Refuse(st, NoSuchUpload)
    else
      var freed := UnusedIds(AllParts(st, p.bucket, p.key, p.id), []);
      Outcome(UploadDropped(st, p.bucket, p.key, p.id), Ok(Applied(None, freed, false)))
  }

  // ---- the cluster's own rows ----

  function StepSystem(st: State, c: SystemCommand): Outcome {
    var r := SystemChange(st.system, c);
    if r.Err? then Refuse(st, r.error) else Accept(st.(system := SystemNext(st.system, c)))
  }

  // ---- dispatch and runs ----

  ghost function Step(st: State, p: Proposal, calendar: Calendar): Outcome {
    match p
    case CreateBucket(_, _, _) => StepCreateBucket(st, p)
    case DeleteBucket(_, _) => StepDeleteBucket(st, p)
    case SetBucketVersioning(_, _, _) => StepSetVersioning(st, p)
    case SetLockConfiguration(_, _, _, _, _) => StepSetLock(st, p)
    case PutObject(_, _, _, _, _, _, _, _, _, _, _, _, _) => StepPut(st, p, calendar)
    case DeleteObject(_, _, _, _) => StepDeleteObject(st, p)
    case DeleteVersion(_, _, _, _, _) => StepDeleteVersion(st, p)
    case UpdateRetention(_, _, _, _, _, _, _) => StepUpdateRetention(st, p)
    case UpdateLegalHold(_, _, _, _, _) => StepLegalHold(st, p)
    case ReEncodeObject(_, _, _, _, _, _, _, _) => StepReEncode(st, p)
    case RewrapDEK(_, _, _, _, _, _) => StepRewrap(st, p)
    case CreateUpload(_, _, _, _, _, _) => StepCreateUpload(st, p)
    case UploadPart(_, _, _, _, _, _, _, _, _, _) => StepUploadPart(st, p)
    case CompleteUpload(_, _, _, _, _, _, _) => StepCompleteUpload(st, p)
    case AbortUpload(_, _, _, _) => StepAbortUpload(st, p)
    case SetSystem(_, command) => StepSystem(st, command)
  }

  /** The state after a log of proposals. */
  ghost function Run(st: State, log: seq<Proposal>, calendar: Calendar): State {
    if log == [] then st else Step(Run(st, log[..|log| - 1], calendar), log[|log| - 1], calendar).st
  }

  /** A refused proposal changes nothing. */
  lemma RefusalChangesNothing(st: State, p: Proposal, calendar: Calendar)
    ensures Step(st, p, calendar).res.Err? ==> Step(st, p, calendar).st == st
  {
  }

  /** An accepted proposal that finds its work done touches no row. */
  ghost predicate Idle(st: State, p: Proposal) {
    match p
    case DeleteObject(_, b, k, _) => b in st.buckets && st.buckets[b].versioning == Unversioned &&
      Newest(st, b, k).None?
    case DeleteVersion(_, b, k, id, _) => VersionKey(b, k, id) !in st.versions
    case RewrapDEK(_, b, k, id, _, kek) => VersionKey(b, k, id) in st.versions &&
      st.versions[VersionKey(b, k, id)].layout.kekFingerprint == kek
    case SetSystem(_, c) => SystemChange(st.system, c) == Ok(Nothing)
    case _ => false
  }

  /** Whether applying a proposal leaves rows to commit. */
  ghost predicate Touches(st: State, p: Proposal, calendar: Calendar) {
    Step(st, p, calendar).res.Ok? && !Idle(st, p)
  }

  /** What leaves nothing to commit changed nothing. */
  lemma UntouchedIsUnchanged(st: State, p: Proposal, calendar: Calendar)
    requires !Touches(st, p, calendar)
    ensures Step(st, p, calendar).st == st
  {
    RefusalChangesNothing(st, p, calendar);
  }
}
