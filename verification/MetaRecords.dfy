/** The metadata records, the proposals that change them, and the state they live in. */
module MetaRecords {
  import opened Bytes
  import opened MetaVid
  import opened MetaKeys

  type uint8 = x: int | 0 <= x < 256

  const TwoTo63 := 0x8000_0000_0000_0000

  type int64 = x: int | -TwoTo63 <= x < TwoTo63

  const FormatVersion: uint32 := 1

  // Enumerations are bytes on the wire and are not restricted to the values below.
  const KindObject: uint8 := 0
  const KindDeleteMarker: uint8 := 1

  const RetentionNone: uint8 := 0
  const RetentionGovernance: uint8 := 1
  const RetentionCompliance: uint8 := 2

  const EncNone: uint8 := 0
  const EncAES256GCM: uint8 := 1

  const Unversioned: uint8 := 0
  const VersioningEnabled: uint8 := 1
  const VersioningSuspended: uint8 := 2

  const MinPartSize := 5242880
  const MaxPartNumber := 10000

  /** How a run of bytes is spread over shards and encrypted. */
  datatype Layout = Layout(
    partition: uint64, dataShards: uint32, parityShards: uint32, shardChecksums: seq<bytes>,
    encAlgorithm: uint8, wrappedDEK: bytes, kekFingerprint: uint64)

  datatype PartRef = PartRef(dataId: vid, size: int64, checksum: bytes, layout: Layout, unknown: bytes)

  datatype VersionEntry = VersionEntry(
    formatVersion: uint32, id: vid, dataId: vid, kind: uint8, size: int64, createdMS: int64,
    etag: bytes, contentType: bytes, userMetadata: map<bytes, bytes>,
    layout: Layout, objectChecksum: bytes,
    mode: uint8, retainUntilMS: int64, hold: bool,
    nullVersion: bool, parts: seq<PartRef>, unknown: bytes)

  datatype CurrentRecord = CurrentRecord(
    formatVersion: uint32, id: vid, size: int64, etag: bytes, createdMS: int64, partCount: uint32, unknown: bytes)

  datatype BucketConfig = BucketConfig(
    formatVersion: uint32, name: bytes, createdMS: int64, versioning: uint8, lockEnabled: bool,
    defaultMode: uint8, defaultDays: uint32, defaultYears: uint32, unknown: bytes)

  datatype UploadRecord = UploadRecord(
    formatVersion: uint32, id: vid, createdMS: int64, contentType: bytes, userMetadata: map<bytes, bytes>,
    unknown: bytes)

  datatype PartRecord = PartRecord(
    formatVersion: uint32, number: uint32, dataId: vid, size: int64, etag: bytes, checksum: bytes,
    uploadedMS: int64, layout: Layout, unknown: bytes)

  datatype Record =
    | BucketRec(bucket: BucketConfig)
    | VersionRec(version: VersionEntry)
    | CurrentRec(current: CurrentRecord)
    | UploadRec(upload: UploadRecord)
    | PartRec(part: PartRecord)
    | SystemRec(system: SystemRecord)

  // ---- the cluster's own records ----

  /** A member with its failure-domain labels. */
  datatype LayoutNode = LayoutNode(id: bytes, host: bytes, zone: bytes, weight: uint32, draining: bool)

  /** Where shards go: a generation, the partition count, and the members, old ones included while
      a transition is open. */
  datatype ClusterLayout = ClusterLayout(
    formatVersion: uint32, version: uint64, partitionCount: uint32, members: seq<bytes>,
    nodes: seq<LayoutNode>, previous: seq<LayoutNode>, unknown: bytes)

  datatype EncryptionPosture = EncryptionPosture(
    formatVersion: uint32, algorithm: uint8, currentKEK: uint64, rotatingToKEK: uint64, unknown: bytes)

  datatype TrustedCA = TrustedCA(fingerprint: uint64, cert: bytes)

  datatype TrustBundle = TrustBundle(formatVersion: uint32, version: uint64, cas: seq<TrustedCA>, issuer: uint64,
                                     unknown: bytes)

  datatype NodeRecord = NodeRecord(
    formatVersion: uint32, id: bytes, host: bytes, zone: bytes, capacity: uint32, draining: bool, replacedBy: bytes,
    leafCA: uint64, binaryVersion: bytes, generation: uint32, unknown: bytes)

  datatype SystemRecord =
    | LayoutRec(layout: ClusterLayout)
    | PostureRec(posture: EncryptionPosture)
    | TrustRec(trust: TrustBundle)
    | NodeRec(node: NodeRecord)

  /** The cluster's rows. */
  datatype System = System(
    layout: Option<ClusterLayout>, posture: Option<EncryptionPosture>, trust: Option<TrustBundle>, nodes: map<bytes,
    NodeRecord>)

  /** A change to the cluster's rows. */
  datatype SystemCommand =
    | SetClusterLayout(version: uint64, partitionCount: uint32, members: seq<bytes>, nodes: seq<LayoutNode>,
                       previous: seq<LayoutNode>)
    | SetEncryptionPosture(algorithm: uint8, kek: uint64)
    | BeginKEKRotation(from: uint64, to: uint64)
    | CompleteKEKRotation(to: uint64)
    | RegisterNode(id: bytes, host: bytes, zone: bytes, capacity: uint32, leafCA: uint64)
    | SetNodeVersion(id: bytes, binaryVersion: bytes, generation: uint32)
    | SetNodeLeafCA(id: bytes, leafCA: uint64)
    | SetNodeDraining(id: bytes, draining: bool)
    | SetNodeReplacedBy(id: bytes, replacedBy: bytes)
    | SetTrustBundle(version: uint64, cas: seq<TrustedCA>, issuer: uint64)

  predicate SystemFits(name: SystemName, v: SystemRecord) {
    match name
    case LayoutName => v.LayoutRec?
    case PostureName => v.PostureRec?
    case TrustName => v.TrustRec?
    case NodeName(_) => v.NodeRec?
  }

  function SystemLookup(sys: System, name: SystemName): Option<SystemRecord> {
    match name
    case LayoutName => if sys.layout.Some? then Some(LayoutRec(sys.layout.value)) else None
    case PostureName => if sys.posture.Some? then Some(PostureRec(sys.posture.value)) else None
    case TrustName => if sys.trust.Some? then Some(TrustRec(sys.trust.value)) else None
    case NodeName(id) => if id in sys.nodes then Some(NodeRec(sys.nodes[id])) else None
  }

  function SystemSet(sys: System, name: SystemName, v: SystemRecord): System
    requires SystemFits(name, v)
  {
    match name
    case LayoutName => sys.(layout := Some(v.layout))
    case PostureName => sys.(posture := Some(v.posture))
    case TrustName => sys.(trust := Some(v.trust))
    case NodeName(id) => sys.(nodes := sys.nodes[id := v.node])
  }

  function SystemDrop(sys: System, name: SystemName): System {
    match name
    case LayoutName => sys.(layout := None)
    case PostureName => sys.(posture := None)
    case TrustName => sys.(trust := None)
    case NodeName(id) => sys.(nodes := sys.nodes - {id})
  }

  datatype CompletedPart = CompletedPart(number: uint32, etag: bytes)

  /** One mutation with every input it needs, the proposer's clock reading included. */
  datatype Proposal =
    | CreateBucket(at: int64, bucket: bytes, lock: bool)
    | DeleteBucket(at: int64, bucket: bytes)
    | SetBucketVersioning(at: int64, bucket: bytes, state: uint8)
    | SetLockConfiguration(at: int64, bucket: bytes, mode: uint8, days: uint32, years: uint32)
    | PutObject(
        at: int64, bucket: bytes, key: bytes, id: vid, size: int64, etag: bytes, contentType: bytes,
        userMetadata: map<bytes, bytes>, layout: Layout, objectChecksum: bytes,
        mode: uint8, retainUntilMS: int64, hold: bool)
    | DeleteObject(at: int64, bucket: bytes, key: bytes, id: vid)
    | DeleteVersion(at: int64, bucket: bytes, key: bytes, id: vid, bypass: bool)
    | UpdateRetention(at: int64, bucket: bytes, key: bytes, id: vid, mode: uint8, retainUntilMS: int64, bypass: bool)
    | UpdateLegalHold(at: int64, bucket: bytes, key: bytes, id: vid, hold: bool)
    | ReEncodeObject(at: int64, bucket: bytes, key: bytes, id: vid, dataId: vid, dataShards: uint32,
                     parityShards: uint32, shardChecksums: seq<bytes>)
    | RewrapDEK(at: int64, bucket: bytes, key: bytes, id: vid, wrappedDEK: bytes, kekFingerprint: uint64)
    | CreateUpload(at: int64, bucket: bytes, key: bytes, id: vid, contentType: bytes, userMetadata: map<bytes, bytes>)
    | UploadPart(
        at: int64, bucket: bytes, key: bytes, id: vid, number: uint32, dataId: vid, size: int64, etag: bytes,
        checksum: bytes, layout: Layout)
    | CompleteUpload(at: int64, bucket: bytes, key: bytes, upload: vid, id: vid, etag: bytes, parts: seq<CompletedPart>)
    | AbortUpload(at: int64, bucket: bytes, key: bytes, id: vid)
    | SetSystem(at: int64, command: SystemCommand)

  datatype ApplyError =
    | InvalidBucketName | BucketExists | NoSuchBucket | BucketNotEmpty | InvalidObjectKey | NoSuchVersion
    | ObjectLocked | InvalidVersioningState | InvalidRetention | NoSuchUpload | UploadExists
    | InvalidPartNumber | InvalidPart | InvalidPartOrder | PartTooSmall | InvalidReEncode | InvalidRewrap
    | StaleLayout | InvalidLayout | InvalidEncryption | EncryptionDowngrade | KEKMismatch | NotEncrypting | InvalidNode
    | StaleTrustBundle | InvalidTrustBundle

  // ---- the state ----

  datatype ObjectKey = ObjectKey(bucket: bytes, key: bytes)
  datatype VersionKey = VersionKey(bucket: bytes, key: bytes, id: vid)
  datatype PartKey = PartKey(bucket: bytes, key: bytes, id: vid, part: uint32)

  /** The rows by table. */
  datatype State = State(
    buckets: map<bytes, BucketConfig>,
    versions: map<VersionKey, VersionEntry>,
    current: map<ObjectKey, CurrentRecord>,
    uploads: map<VersionKey, UploadRecord>,
    parts: map<PartKey, PartRecord>,
    system: System)

  const Empty := State(map[], map[], map[], map[], map[], System(None, None, None, map[]))

  /** Where a record may stand. */
  predicate Fits(r: RowKey, v: Record) {
    match r
    case BucketRow(_) => v.BucketRec?
    case VersionRow(_, _, _) => v.VersionRec?
    case CurrentRow(_, _) => v.CurrentRec?
    case UploadRow(_, _, _) => v.UploadRec?
    case PartRow(_, _, _, _) => v.PartRec?
    case SystemRow(name) => v.SystemRec? && SystemFits(name, v.system)
  }

  function Find<K, V>(m: map<K, V>, k: K): Option<V> {
    if k in m then Some(m[k]) else None
  }

  /** The record at a row. */
  function Lookup(st: State, r: RowKey): Option<Record> {
    match r
    case BucketRow(b) => if b in st.buckets then Some(BucketRec(st.buckets[b])) else None
    case VersionRow(b, k, id) =>
      if VersionKey(b, k, id) in st.versions then Some(VersionRec(st.versions[VersionKey(b, k, id)])) else None
    case CurrentRow(b, k) => if ObjectKey(b, k) in st.current then Some(CurrentRec(st.current[ObjectKey(b, k)]))
      else None
    case UploadRow(b, k, id) =>
      if VersionKey(b, k, id) in st.uploads then Some(UploadRec(st.uploads[VersionKey(b, k, id)])) else None
    case PartRow(b, k, id, n) =>
      if PartKey(b, k, id, n) in st.parts then Some(PartRec(st.parts[PartKey(b, k, id, n)])) else None
    case SystemRow(name) => var v := SystemLookup(st.system, name); if v.Some? then Some(SystemRec(v.value)) else None
  }

  function SetRow(st: State, r: RowKey, v: Record): State
    requires Fits(r, v)
  {
    match r
    case BucketRow(b) => st.(buckets := st.buckets[b := v.bucket])
    case VersionRow(b, k, id) => st.(versions := st.versions[VersionKey(b, k, id) := v.version])
    case CurrentRow(b, k) => st.(current := st.current[ObjectKey(b, k) := v.current])
    case UploadRow(b, k, id) => st.(uploads := st.uploads[VersionKey(b, k, id) := v.upload])
    case PartRow(b, k, id, n) => st.(parts := st.parts[PartKey(b, k, id, n) := v.part])
    case SystemRow(name) => st.(system := SystemSet(st.system, name, v.system))
  }

  function DropRow(st: State, r: RowKey): State {
    match r
    case BucketRow(b) => st.(buckets := st.buckets - {b})
    case VersionRow(b, k, id) => st.(versions := st.versions - {VersionKey(b, k, id)})
    case CurrentRow(b, k) => st.(current := st.current - {ObjectKey(b, k)})
    case UploadRow(b, k, id) => st.(uploads := st.uploads - {VersionKey(b, k, id)})
    case PartRow(b, k, id, n) => st.(parts := st.parts - {PartKey(b, k, id, n)})
    case SystemRow(name) => st.(system := SystemDrop(st.system, name))
  }

  /** A row changes alone. */
  lemma SetRowLookup(st: State, r: RowKey, v: Record, q: RowKey)
    requires Fits(r, v)
    ensures Lookup(SetRow(st, r, v), q) == if q == r then Some(v) else Lookup(st, q)
  {
  }

  lemma DropRowLookup(st: State, r: RowKey, q: RowKey)
    ensures Lookup(DropRow(st, r), q) == if q == r then None else Lookup(st, q)
  {
  }
}
