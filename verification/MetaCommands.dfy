/** Proposals as the store knows them, and the command each is sent as: all twenty-five kinds. */
module MetaCommands {
  import opened Bytes
  import opened MetaVid
  import opened MetaKeys
  import opened MetaRecords
  import opened MetaWire
  import MetaDeep
  import opened MetaFields
  import opened MetaSystemCodec
  import MetaCodec
  import opened MetaProposals

  // ---- parts ----

  function PartMsg(p: CompletedPart): Msg { Msg([Num(p.number), Str(p.etag)], []) }

  function PartOf(m: Msg): CompletedPart {
    if |m.vals| != 2 then CompletedPart(0, []) else CompletedPart(U32Of(m.vals[0]), BytesOf(m.vals[1]))
  }

  function PartMsgs(parts: seq<CompletedPart>): (ms: seq<Msg>)
    ensures |ms| == |parts| && forall i :: 0 <= i < |ms| ==> ms[i] == PartMsg(parts[i])
  {
    seq(|parts|, i requires 0 <= i < |parts| => PartMsg(parts[i]))
  }

  function PartsOf(ms: seq<Msg>): (parts: seq<CompletedPart>)
    ensures |parts| == |ms| && forall i :: 0 <= i < |ms| ==> parts[i] == PartOf(ms[i])
  {
    seq(|ms|, i requires 0 <= i < |ms| => PartOf(ms[i]))
  }

  lemma PartsBack(parts: seq<CompletedPart>)
    ensures PartsOf(PartMsgs(parts)) == parts
  {
    forall i | 0 <= i < |parts|
      ensures PartOf(PartMsg(parts[i])) == parts[i]
    {
    }
  }

  // ---- the field number of each command ----

  function SystemNumber(c: SystemCommand): nat {
    match c
    case SetClusterLayout(_, _, _, _, _) => 15
    case RegisterNode(_, _, _, _, _) => 16
    case SetNodeDraining(_, _) => 17
    case SetNodeReplacedBy(_, _) => 18
    case SetEncryptionPosture(_, _) => 21
    case BeginKEKRotation(_, _) => 22
    case CompleteKEKRotation(_) => 24
    case SetNodeLeafCA(_, _) => 25
    case SetTrustBundle(_, _, _) => 26
    case SetNodeVersion(_, _, _) => 27
  }

  function NumberOf(p: Proposal): nat {
    match p
    case CreateBucket(_, _, _) => 3
    case DeleteBucket(_, _) => 4
    case SetBucketVersioning(_, _, _) => 5
    case PutObject(_, _, _, _, _, _, _, _, _, _, _, _, _) => 6
    case DeleteObject(_, _, _, _) => 7
    case DeleteVersion(_, _, _, _, _) => 8
    case UpdateRetention(_, _, _, _, _, _, _) => 9
    case UpdateLegalHold(_, _, _, _, _) => 10
    case CreateUpload(_, _, _, _, _, _) => 11
    case UploadPart(_, _, _, _, _, _, _, _, _, _) => 12
    case CompleteUpload(_, _, _, _, _, _, _) => 13
    case AbortUpload(_, _, _, _) => 14
    case ReEncodeObject(_, _, _, _, _, _, _, _) => 19
    case SetLockConfiguration(_, _, _, _, _) => 20
    case RewrapDEK(_, _, _, _, _, _) => 23
    case SetSystem(_, c) => SystemNumber(c)
  }

  // ---- a proposal's fields, in the order of its table ----

  function SetClusterLayoutItems(c: SystemCommand): seq<Item>
    requires c.SetClusterLayout?
  {
    [MetaDeep.V(Num(c.version)), MetaDeep.V(Num(c.partitionCount)), MetaDeep.V(Many(c.members)),
     MetaDeep.Nested(NodeMsgs(c.nodes)), MetaDeep.Nested(NodeMsgs(c.previous))]
  }

  function RegisterNodeItems(c: SystemCommand): seq<Item>
    requires c.RegisterNode?
  {
    [MetaDeep.V(Str(c.id)), MetaDeep.V(Str(c.host)), MetaDeep.V(Str(c.zone)), MetaDeep.V(Num(c.capacity)),
     MetaDeep.V(Num(c.leafCA))]
  }

  function SetNodeDrainingItems(c: SystemCommand): seq<Item>
    requires c.SetNodeDraining?
  {
    [MetaDeep.V(Str(c.id)), MetaDeep.V(Num(Bit(c.draining)))]
  }

  function SetNodeReplacedByItems(c: SystemCommand): seq<Item>
    requires c.SetNodeReplacedBy?
  {
    [MetaDeep.V(Str(c.id)), MetaDeep.V(Str(c.replacedBy))]
  }

  function SetEncryptionPostureItems(c: SystemCommand): seq<Item>
    requires c.SetEncryptionPosture?
  {
    [MetaDeep.V(Num(c.algorithm)), MetaDeep.V(Num(c.kek))]
  }

  function BeginKEKRotationItems(c: SystemCommand): seq<Item>
    requires c.BeginKEKRotation?
  {
    [MetaDeep.V(Num(c.from)), MetaDeep.V(Num(c.to))]
  }

  function CompleteKEKRotationItems(c: SystemCommand): seq<Item>
    requires c.CompleteKEKRotation?
  {
    [MetaDeep.V(Num(c.to))]
  }

  function SetNodeLeafCAItems(c: SystemCommand): seq<Item>
    requires c.SetNodeLeafCA?
  {
    [MetaDeep.V(Str(c.id)), MetaDeep.V(Num(c.leafCA))]
  }

  function SetTrustBundleItems(c: SystemCommand): seq<Item>
    requires c.SetTrustBundle?
  {
    [MetaDeep.V(Num(c.version)), MetaDeep.Nested(CAMsgs(c.cas)), MetaDeep.V(Num(c.issuer))]
  }

  function SetNodeVersionItems(c: SystemCommand): seq<Item>
    requires c.SetNodeVersion?
  {
    [MetaDeep.V(Str(c.id)), MetaDeep.V(Str(c.binaryVersion)), MetaDeep.V(Num(c.generation))]
  }

  function CreateBucketItems(p: Proposal): seq<Item>
    requires p.CreateBucket?
  {
    [MetaDeep.V(Str(p.bucket)), MetaDeep.V(Num(Bit(p.lock)))]
  }

  function DeleteBucketItems(p: Proposal): seq<Item>
    requires p.DeleteBucket?
  {
    [MetaDeep.V(Str(p.bucket))]
  }

  function SetBucketVersioningItems(p: Proposal): seq<Item>
    requires p.SetBucketVersioning?
  {
    [MetaDeep.V(Str(p.bucket)), MetaDeep.V(Num(p.state))]
  }

  function PutObjectItems(p: Proposal): seq<Item>
    requires p.PutObject?
  {
    [MetaDeep.V(Str(p.bucket)), MetaDeep.V(Str(p.key)), MetaDeep.V(IdVal(p.id)), MetaDeep.V(Num(Unsigned(p.size))),
     MetaDeep.V(Str(p.etag)), MetaDeep.V(Str(p.contentType)), MetaDeep.Dict(p.userMetadata),
     MetaDeep.V(Num(p.layout.partition)), MetaDeep.V(Num(p.layout.dataShards)),
     MetaDeep.V(Num(p.layout.parityShards)), MetaDeep.V(Str(p.objectChecksum)),
     MetaDeep.V(Many(p.layout.shardChecksums)), MetaDeep.V(Num(p.mode)), MetaDeep.V(Num(Unsigned(p.retainUntilMS))),
     MetaDeep.V(Num(Bit(p.hold))), MetaDeep.V(Num(p.layout.encAlgorithm)), MetaDeep.V(Str(p.layout.wrappedDEK)),
     MetaDeep.V(Num(p.layout.kekFingerprint))]
  }

  function DeleteObjectItems(p: Proposal): seq<Item>
    requires p.DeleteObject?
  {
    [MetaDeep.V(Str(p.bucket)), MetaDeep.V(Str(p.key)), MetaDeep.V(IdVal(p.id))]
  }

  function DeleteVersionItems(p: Proposal): seq<Item>
    requires p.DeleteVersion?
  {
    [MetaDeep.V(Str(p.bucket)), MetaDeep.V(Str(p.key)), MetaDeep.V(IdVal(p.id)), MetaDeep.V(Num(Bit(p.bypass)))]
  }

  function UpdateRetentionItems(p: Proposal): seq<Item>
    requires p.UpdateRetention?
  {
    [MetaDeep.V(Str(p.bucket)), MetaDeep.V(Str(p.key)), MetaDeep.V(IdVal(p.id)), MetaDeep.V(Num(p.mode)),
     MetaDeep.V(Num(Unsigned(p.retainUntilMS))), MetaDeep.V(Num(Bit(p.bypass)))]
  }

  function UpdateLegalHoldItems(p: Proposal): seq<Item>
    requires p.UpdateLegalHold?
  {
    [MetaDeep.V(Str(p.bucket)), MetaDeep.V(Str(p.key)), MetaDeep.V(IdVal(p.id)), MetaDeep.V(Num(Bit(p.hold)))]
  }

  function CreateUploadItems(p: Proposal): seq<Item>
    requires p.CreateUpload?
  {
    [MetaDeep.V(Str(p.bucket)), MetaDeep.V(Str(p.key)), MetaDeep.V(IdVal(p.id)), MetaDeep.V(Str(p.contentType)),
     MetaDeep.Dict(p.userMetadata)]
  }

  function UploadPartItems(p: Proposal): seq<Item>
    requires p.UploadPart?
  {
    [MetaDeep.V(Str(p.bucket)), MetaDeep.V(Str(p.key)), MetaDeep.V(IdVal(p.id)), MetaDeep.V(Num(p.number)),
     MetaDeep.V(IdVal(p.dataId)), MetaDeep.V(Num(Unsigned(p.size))), MetaDeep.V(Str(p.etag)),
     MetaDeep.V(Str(p.checksum)), MetaDeep.V(Num(p.layout.partition)), MetaDeep.V(Num(p.layout.dataShards)),
     MetaDeep.V(Num(p.layout.parityShards)), MetaDeep.V(Many(p.layout.shardChecksums)),
     MetaDeep.V(Num(p.layout.encAlgorithm)), MetaDeep.V(Str(p.layout.wrappedDEK)),
     MetaDeep.V(Num(p.layout.kekFingerprint))]
  }

  function CompleteUploadItems(p: Proposal): seq<Item>
    requires p.CompleteUpload?
  {
    [MetaDeep.V(Str(p.bucket)), MetaDeep.V(Str(p.key)), MetaDeep.V(IdVal(p.upload)), MetaDeep.V(IdVal(p.id)),
     MetaDeep.V(Str(p.etag)), MetaDeep.Nested(PartMsgs(p.parts))]
  }

  function AbortUploadItems(p: Proposal): seq<Item>
    requires p.AbortUpload?
  {
    [MetaDeep.V(Str(p.bucket)), MetaDeep.V(Str(p.key)), MetaDeep.V(IdVal(p.id))]
  }

  function ReEncodeObjectItems(p: Proposal): seq<Item>
    requires p.ReEncodeObject?
  {
    [MetaDeep.V(Str(p.bucket)), MetaDeep.V(Str(p.key)), MetaDeep.V(IdVal(p.id)), MetaDeep.V(IdVal(p.dataId)),
     MetaDeep.V(Num(p.dataShards)), MetaDeep.V(Num(p.parityShards)), MetaDeep.V(Many(p.shardChecksums))]
  }

  function SetLockConfigurationItems(p: Proposal): seq<Item>
    requires p.SetLockConfiguration?
  {
    [MetaDeep.V(Str(p.bucket)), MetaDeep.V(Num(p.mode)), MetaDeep.V(Num(p.days)), MetaDeep.V(Num(p.years))]
  }

  function RewrapDEKItems(p: Proposal): seq<Item>
    requires p.RewrapDEK?
  {
    [MetaDeep.V(Str(p.bucket)), MetaDeep.V(Str(p.key)), MetaDeep.V(IdVal(p.id)), MetaDeep.V(Str(p.wrappedDEK)),
     MetaDeep.V(Num(p.kekFingerprint))]
  }

  function SystemItems(c: SystemCommand): seq<Item> {
    match c
    case SetClusterLayout(_, _, _, _, _) => SetClusterLayoutItems(c)
    case RegisterNode(_, _, _, _, _) => RegisterNodeItems(c)
    case SetNodeDraining(_, _) => SetNodeDrainingItems(c)
    case SetNodeReplacedBy(_, _) => SetNodeReplacedByItems(c)
    case SetEncryptionPosture(_, _) => SetEncryptionPostureItems(c)
    case BeginKEKRotation(_, _) => BeginKEKRotationItems(c)
    case CompleteKEKRotation(_) => CompleteKEKRotationItems(c)
    case SetNodeLeafCA(_, _) => SetNodeLeafCAItems(c)
    case SetTrustBundle(_, _, _) => SetTrustBundleItems(c)
    case SetNodeVersion(_, _, _) => SetNodeVersionItems(c)
  }

  function ItemsOf(p: Proposal): seq<Item> {
    match p
    case CreateBucket(_, _, _) => CreateBucketItems(p)
    case DeleteBucket(_, _) => DeleteBucketItems(p)
    case SetBucketVersioning(_, _, _) => SetBucketVersioningItems(p)
    case PutObject(_, _, _, _, _, _, _, _, _, _, _, _, _) => PutObjectItems(p)
    case DeleteObject(_, _, _, _) => DeleteObjectItems(p)
    case DeleteVersion(_, _, _, _, _) => DeleteVersionItems(p)
    case UpdateRetention(_, _, _, _, _, _, _) => UpdateRetentionItems(p)
    case UpdateLegalHold(_, _, _, _, _) => UpdateLegalHoldItems(p)
    case CreateUpload(_, _, _, _, _, _) => CreateUploadItems(p)
    case UploadPart(_, _, _, _, _, _, _, _, _, _) => UploadPartItems(p)
    case CompleteUpload(_, _, _, _, _, _, _) => CompleteUploadItems(p)
    case AbortUpload(_, _, _, _) => AbortUploadItems(p)
    case ReEncodeObject(_, _, _, _, _, _, _, _) => ReEncodeObjectItems(p)
    case SetLockConfiguration(_, _, _, _, _) => SetLockConfigurationItems(p)
    case RewrapDEK(_, _, _, _, _, _) => RewrapDEKItems(p)
    case SetSystem(_, c) => SystemItems(c)
  }

  /** The command a proposal is sent as. */
  function CommandOf(p: Proposal): Command { Command(p.at, NumberOf(p), ItemsOf(p)) }

  // ---- and back ----

  function SetClusterLayoutOf(x: seq<Item>): SystemCommand
    requires |x| == 5
  {
    SetClusterLayout(
      NumOf(ValOf(x[0])), U32Of(ValOf(x[1])), ListOfVal(ValOf(x[2])), NodesOf(MsgsOf(x[3])), NodesOf(MsgsOf(x[4])))
  }

  function RegisterNodeOf(x: seq<Item>): SystemCommand
    requires |x| == 5
  {
    RegisterNode(
      BytesOf(ValOf(x[0])), BytesOf(ValOf(x[1])), BytesOf(ValOf(x[2])), U32Of(ValOf(x[3])), NumOf(ValOf(x[4])))
  }

  function SetNodeDrainingOf(x: seq<Item>): SystemCommand
    requires |x| == 2
  {
    SetNodeDraining(BytesOf(ValOf(x[0])), NumOf(ValOf(x[1])) != 0)
  }

  function SetNodeReplacedByOf(x: seq<Item>): SystemCommand
    requires |x| == 2
  {
    SetNodeReplacedBy(BytesOf(ValOf(x[0])), BytesOf(ValOf(x[1])))
  }

  function SetEncryptionPostureOf(x: seq<Item>): SystemCommand
    requires |x| == 2
  {
    SetEncryptionPosture(U8Of(ValOf(x[0])), NumOf(ValOf(x[1])))
  }

  function BeginKEKRotationOf(x: seq<Item>): SystemCommand
    requires |x| == 2
  {
    BeginKEKRotation(NumOf(ValOf(x[0])), NumOf(ValOf(x[1])))
  }

  function CompleteKEKRotationOf(x: seq<Item>): SystemCommand
    requires |x| == 1
  {
    CompleteKEKRotation(NumOf(ValOf(x[0])))
  }

  function SetNodeLeafCAOf(x: seq<Item>): SystemCommand
    requires |x| == 2
  {
    SetNodeLeafCA(BytesOf(ValOf(x[0])), NumOf(ValOf(x[1])))
  }

  function SetTrustBundleOf(x: seq<Item>): SystemCommand
    requires |x| == 3
  {
    SetTrustBundle(NumOf(ValOf(x[0])), CAsOf(MsgsOf(x[1])), NumOf(ValOf(x[2])))
  }

  function SetNodeVersionOf(x: seq<Item>): SystemCommand
    requires |x| == 3
  {
    SetNodeVersion(BytesOf(ValOf(x[0])), BytesOf(ValOf(x[1])), U32Of(ValOf(x[2])))
  }

  function CreateBucketOf(at: int64, x: seq<Item>): Proposal
    requires |x| == 2
  {
    CreateBucket(at, BytesOf(ValOf(x[0])), NumOf(ValOf(x[1])) != 0)
  }

  function DeleteBucketOf(at: int64, x: seq<Item>): Proposal
    requires |x| == 1
  {
    DeleteBucket(at, BytesOf(ValOf(x[0])))
  }

  function SetBucketVersioningOf(at: int64, x: seq<Item>): Proposal
    requires |x| == 2
  {
    SetBucketVersioning(at, BytesOf(ValOf(x[0])), U8Of(ValOf(x[1])))
  }

  function PutObjectOf(at: int64, x: seq<Item>): Proposal
    requires |x| == 18
  {
    PutObject(
      at, BytesOf(ValOf(x[0])), BytesOf(ValOf(x[1])), IdOf(ValOf(x[2])), Signed(NumOf(ValOf(x[3]))),
      BytesOf(ValOf(x[4])), BytesOf(ValOf(x[5])), DictOf(x[6]),
      Layout(NumOf(ValOf(x[7])), U32Of(ValOf(x[8])), U32Of(ValOf(x[9])), ListOfVal(ValOf(x[11])), U8Of(ValOf(x[15])),
             BytesOf(ValOf(x[16])), NumOf(ValOf(x[17]))),
      BytesOf(ValOf(x[10])), U8Of(ValOf(x[12])), Signed(NumOf(ValOf(x[13]))), NumOf(ValOf(x[14])) != 0)
  }

  function DeleteObjectOf(at: int64, x: seq<Item>): Proposal
    requires |x| == 3
  {
    DeleteObject(at, BytesOf(ValOf(x[0])), BytesOf(ValOf(x[1])), IdOf(ValOf(x[2])))
  }

  function DeleteVersionOf(at: int64, x: seq<Item>): Proposal
    requires |x| == 4
  {
    DeleteVersion(at, BytesOf(ValOf(x[0])), BytesOf(ValOf(x[1])), IdOf(ValOf(x[2])), NumOf(ValOf(x[3])) != 0)
  }

  function UpdateRetentionOf(at: int64, x: seq<Item>): Proposal
    requires |x| == 6
  {
    UpdateRetention(
      at, BytesOf(ValOf(x[0])), BytesOf(ValOf(x[1])), IdOf(ValOf(x[2])), U8Of(ValOf(x[3])),
      Signed(NumOf(ValOf(x[4]))), NumOf(ValOf(x[5])) != 0)
  }

  function UpdateLegalHoldOf(at: int64, x: seq<Item>): Proposal
    requires |x| == 4
  {
    UpdateLegalHold(at, BytesOf(ValOf(x[0])), BytesOf(ValOf(x[1])), IdOf(ValOf(x[2])), NumOf(ValOf(x[3])) != 0)
  }

  function CreateUploadOf(at: int64, x: seq<Item>): Proposal
    requires |x| == 5
  {
    CreateUpload(
      at, BytesOf(ValOf(x[0])), BytesOf(ValOf(x[1])), IdOf(ValOf(x[2])), BytesOf(ValOf(x[3])), DictOf(x[4]))
  }

  function UploadPartOf(at: int64, x: seq<Item>): Proposal
    requires |x| == 15
  {
    UploadPart(
      at, BytesOf(ValOf(x[0])), BytesOf(ValOf(x[1])), IdOf(ValOf(x[2])), U32Of(ValOf(x[3])), IdOf(ValOf(x[4])),
      Signed(NumOf(ValOf(x[5]))), BytesOf(ValOf(x[6])), BytesOf(ValOf(x[7])),
      Layout(NumOf(ValOf(x[8])), U32Of(ValOf(x[9])), U32Of(ValOf(x[10])), ListOfVal(ValOf(x[11])), U8Of(ValOf(x[12])),
             BytesOf(ValOf(x[13])), NumOf(ValOf(x[14]))))
  }

  function CompleteUploadOf(at: int64, x: seq<Item>): Proposal
    requires |x| == 6
  {
    CompleteUpload(
      at, BytesOf(ValOf(x[0])), BytesOf(ValOf(x[1])), IdOf(ValOf(x[2])), IdOf(ValOf(x[3])), BytesOf(ValOf(x[4])),
      PartsOf(MsgsOf(x[5])))
  }

  function AbortUploadOf(at: int64, x: seq<Item>): Proposal
    requires |x| == 3
  {
    AbortUpload(at, BytesOf(ValOf(x[0])), BytesOf(ValOf(x[1])), IdOf(ValOf(x[2])))
  }

  function ReEncodeObjectOf(at: int64, x: seq<Item>): Proposal
    requires |x| == 7
  {
    ReEncodeObject(
      at, BytesOf(ValOf(x[0])), BytesOf(ValOf(x[1])), IdOf(ValOf(x[2])), IdOf(ValOf(x[3])), U32Of(ValOf(x[4])),
      U32Of(ValOf(x[5])), ListOfVal(ValOf(x[6])))
  }

  function SetLockConfigurationOf(at: int64, x: seq<Item>): Proposal
    requires |x| == 4
  {
    SetLockConfiguration(at, BytesOf(ValOf(x[0])), U8Of(ValOf(x[1])), U32Of(ValOf(x[2])), U32Of(ValOf(x[3])))
  }

  function RewrapDEKOf(at: int64, x: seq<Item>): Proposal
    requires |x| == 5
  {
    RewrapDEK(
      at, BytesOf(ValOf(x[0])), BytesOf(ValOf(x[1])), IdOf(ValOf(x[2])), BytesOf(ValOf(x[3])), NumOf(ValOf(x[4])))
  }

  function SystemCommandOf(num: nat, x: seq<Item>): Option<SystemCommand> {
    match num
    case 15 => if |x| == 5 then Some(SetClusterLayoutOf(x)) else None
    case 16 => if |x| == 5 then Some(RegisterNodeOf(x)) else None
    case 17 => if |x| == 2 then Some(SetNodeDrainingOf(x)) else None
    case 18 => if |x| == 2 then Some(SetNodeReplacedByOf(x)) else None
    case 21 => if |x| == 2 then Some(SetEncryptionPostureOf(x)) else None
    case 22 => if |x| == 2 then Some(BeginKEKRotationOf(x)) else None
    case 24 => if |x| == 1 then Some(CompleteKEKRotationOf(x)) else None
    case 25 => if |x| == 2 then Some(SetNodeLeafCAOf(x)) else None
    case 26 => if |x| == 3 then Some(SetTrustBundleOf(x)) else None
    case 27 => if |x| == 3 then Some(SetNodeVersionOf(x)) else None
    case _ => None
  }

  /** The proposal a command's fields make. */
  function ProposalOf(c: Command): Option<Proposal> {
    var x := c.items;
    match c.num
    case 3 => if |x| == 2 then Some(CreateBucketOf(c.at, x)) else None
    case 4 => if |x| == 1 then Some(DeleteBucketOf(c.at, x)) else None
    case 5 => if |x| == 2 then Some(SetBucketVersioningOf(c.at, x)) else None
    case 6 => if |x| == 18 then Some(PutObjectOf(c.at, x)) else None
    case 7 => if |x| == 3 then Some(DeleteObjectOf(c.at, x)) else None
    case 8 => if |x| == 4 then Some(DeleteVersionOf(c.at, x)) else None
    case 9 => if |x| == 6 then Some(UpdateRetentionOf(c.at, x)) else None
    case 10 => if |x| == 4 then Some(UpdateLegalHoldOf(c.at, x)) else None
    case 11 => if |x| == 5 then Some(CreateUploadOf(c.at, x)) else None
    case 12 => if |x| == 15 then Some(UploadPartOf(c.at, x)) else None
    case 13 => if |x| == 6 then Some(CompleteUploadOf(c.at, x)) else None
    case 14 => if |x| == 3 then Some(AbortUploadOf(c.at, x)) else None
    case 19 => if |x| == 7 then Some(ReEncodeObjectOf(c.at, x)) else None
    case 20 => if |x| == 4 then Some(SetLockConfigurationOf(c.at, x)) else None
    case 23 => if |x| == 5 then Some(RewrapDEKOf(c.at, x)) else None
    case _ =>
      var s := SystemCommandOf(c.num, x);
      if s.Some? then Some(SetSystem(c.at, s.value)) else None
  }

  lemma SetClusterLayoutBack(c: SystemCommand)
    requires c.SetClusterLayout?
    ensures |SetClusterLayoutItems(c)| == 5 && SetClusterLayoutOf(SetClusterLayoutItems(c)) == c
  {
    hide NodesOf, NodeMsgs;
    NodesBack(c.nodes);
    NodesBack(c.previous);
  }

  lemma RegisterNodeBack(c: SystemCommand)
    requires c.RegisterNode?
    ensures |RegisterNodeItems(c)| == 5 && RegisterNodeOf(RegisterNodeItems(c)) == c
  {
  }

  lemma SetNodeDrainingBack(c: SystemCommand)
    requires c.SetNodeDraining?
    ensures |SetNodeDrainingItems(c)| == 2 && SetNodeDrainingOf(SetNodeDrainingItems(c)) == c
  {
  }

  lemma SetNodeReplacedByBack(c: SystemCommand)
    requires c.SetNodeReplacedBy?
    ensures |SetNodeReplacedByItems(c)| == 2 && SetNodeReplacedByOf(SetNodeReplacedByItems(c)) == c
  {
  }

  lemma SetEncryptionPostureBack(c: SystemCommand)
    requires c.SetEncryptionPosture?
    ensures |SetEncryptionPostureItems(c)| == 2 && SetEncryptionPostureOf(SetEncryptionPostureItems(c)) == c
  {
  }

  lemma BeginKEKRotationBack(c: SystemCommand)
    requires c.BeginKEKRotation?
    ensures |BeginKEKRotationItems(c)| == 2 && BeginKEKRotationOf(BeginKEKRotationItems(c)) == c
  {
  }

  lemma CompleteKEKRotationBack(c: SystemCommand)
    requires c.CompleteKEKRotation?
    ensures |CompleteKEKRotationItems(c)| == 1 && CompleteKEKRotationOf(CompleteKEKRotationItems(c)) == c
  {
  }

  lemma SetNodeLeafCABack(c: SystemCommand)
    requires c.SetNodeLeafCA?
    ensures |SetNodeLeafCAItems(c)| == 2 && SetNodeLeafCAOf(SetNodeLeafCAItems(c)) == c
  {
  }

  lemma SetTrustBundleBack(c: SystemCommand)
    requires c.SetTrustBundle?
    ensures |SetTrustBundleItems(c)| == 3 && SetTrustBundleOf(SetTrustBundleItems(c)) == c
  {
    hide CAsOf, CAMsgs;
    CAsBack(c.cas);
  }

  lemma SetNodeVersionBack(c: SystemCommand)
    requires c.SetNodeVersion?
    ensures |SetNodeVersionItems(c)| == 3 && SetNodeVersionOf(SetNodeVersionItems(c)) == c
  {
  }

  lemma CreateBucketBack(p: Proposal)
    requires p.CreateBucket?
    ensures |CreateBucketItems(p)| == 2 && CreateBucketOf(p.at, CreateBucketItems(p)) == p
  {
  }

  lemma DeleteBucketBack(p: Proposal)
    requires p.DeleteBucket?
    ensures |DeleteBucketItems(p)| == 1 && DeleteBucketOf(p.at, DeleteBucketItems(p)) == p
  {
  }

  lemma SetBucketVersioningBack(p: Proposal)
    requires p.SetBucketVersioning?
    ensures |SetBucketVersioningItems(p)| == 2 && SetBucketVersioningOf(p.at, SetBucketVersioningItems(p)) == p
  {
  }

  lemma PutObjectBack(p: Proposal)
    requires p.PutObject?
    ensures |PutObjectItems(p)| == 18 && PutObjectOf(p.at, PutObjectItems(p)) == p
  {
    hide IdOf, IdVal;
    IdBack(p.id);
  }

  lemma DeleteObjectBack(p: Proposal)
    requires p.DeleteObject?
    ensures |DeleteObjectItems(p)| == 3 && DeleteObjectOf(p.at, DeleteObjectItems(p)) == p
  {
    hide IdOf, IdVal;
    IdBack(p.id);
  }

  lemma DeleteVersionBack(p: Proposal)
    requires p.DeleteVersion?
    ensures |DeleteVersionItems(p)| == 4 && DeleteVersionOf(p.at, DeleteVersionItems(p)) == p
  {
    hide IdOf, IdVal;
    IdBack(p.id);
  }

  lemma UpdateRetentionBack(p: Proposal)
    requires p.UpdateRetention?
    ensures |UpdateRetentionItems(p)| == 6 && UpdateRetentionOf(p.at, UpdateRetentionItems(p)) == p
  {
    hide IdOf, IdVal;
    IdBack(p.id);
  }

  lemma UpdateLegalHoldBack(p: Proposal)
    requires p.UpdateLegalHold?
    ensures |UpdateLegalHoldItems(p)| == 4 && UpdateLegalHoldOf(p.at, UpdateLegalHoldItems(p)) == p
  {
    hide IdOf, IdVal;
    IdBack(p.id);
  }

  lemma CreateUploadBack(p: Proposal)
    requires p.CreateUpload?
    ensures |CreateUploadItems(p)| == 5 && CreateUploadOf(p.at, CreateUploadItems(p)) == p
  {
    hide IdOf, IdVal;
    IdBack(p.id);
  }

  lemma UploadPartBack(p: Proposal)
    requires p.UploadPart?
    ensures |UploadPartItems(p)| == 15 && UploadPartOf(p.at, UploadPartItems(p)) == p
  {
    hide IdOf, IdVal;
    IdBack(p.id);
    IdBack(p.dataId);
  }

  lemma CompleteUploadBack(p: Proposal)
    requires p.CompleteUpload?
    ensures |CompleteUploadItems(p)| == 6 && CompleteUploadOf(p.at, CompleteUploadItems(p)) == p
  {
    hide IdOf, IdVal, PartsOf, PartMsgs;
    IdBack(p.upload);
    IdBack(p.id);
    PartsBack(p.parts);
  }

  lemma AbortUploadBack(p: Proposal)
    requires p.AbortUpload?
    ensures |AbortUploadItems(p)| == 3 && AbortUploadOf(p.at, AbortUploadItems(p)) == p
  {
    hide IdOf, IdVal;
    IdBack(p.id);
  }

  lemma ReEncodeObjectBack(p: Proposal)
    requires p.ReEncodeObject?
    ensures |ReEncodeObjectItems(p)| == 7 && ReEncodeObjectOf(p.at, ReEncodeObjectItems(p)) == p
  {
    hide IdOf, IdVal;
    IdBack(p.id);
    IdBack(p.dataId);
  }

  lemma SetLockConfigurationBack(p: Proposal)
    requires p.SetLockConfiguration?
    ensures |SetLockConfigurationItems(p)| == 4 && SetLockConfigurationOf(p.at, SetLockConfigurationItems(p)) == p
  {
  }

  lemma RewrapDEKBack(p: Proposal)
    requires p.RewrapDEK?
    ensures |RewrapDEKItems(p)| == 5 && RewrapDEKOf(p.at, RewrapDEKItems(p)) == p
  {
    hide IdOf, IdVal;
    IdBack(p.id);
  }

  // ---- every field is of the kind its table gives it, so only lengths can keep one from being sent ----

  predicate OfKind(k: Kind, v: Val) {
    match k
    case U64 => v.Num?
    case U32 => v.Num? && v.n < MetaWire.TwoTo32
    case Low32 => v.Num? && v.n < MetaWire.TwoTo32
    case Enum => v.Num? && v.n < 256
    case Flag => v.Num? && v.n <= 1
    case Blob => v.Str?
    case Id => v.Str? && |v.s| == 16
    case _ => v.Many?
  }

  predicate OfShape(s: Shape, x: Item) {
    match s
    case Plain(k) => x.V? && OfKind(k, x.val)
    case MapOf => x.Dict?
    case ListOf(t, _) => x.Nested? && forall i :: 0 <= i < |x.msgs| ==> MsgOfKinds(t, x.msgs[i])
  }

  predicate MsgOfKinds(t: Schema, m: Msg) {
    m.unknown == [] && |m.vals| == |t| && forall i :: 0 <= i < |t| ==> OfKind(t[i].kind, m.vals[i])
  }

  lemma IdOfKind(id: vid)
    ensures OfKind(Id, IdVal(id))
  {
  }

  lemma PartsShaped(parts: seq<CompletedPart>)
    ensures forall i :: 0 <= i < |parts| ==> MsgOfKinds(Fields(MetaCodec.CompletedPartKinds), PartMsgs(parts)[i])
  {
  }

  lemma NodesShaped(nodes: seq<LayoutNode>)
    ensures forall i :: 0 <= i < |nodes| ==> MsgOfKinds(Fields(LayoutNodeKinds), NodeMsgs(nodes)[i])
  {
  }

  lemma CAsShaped(cas: seq<TrustedCA>)
    ensures forall i :: 0 <= i < |cas| ==> MsgOfKinds(Fields(TrustedCAKinds), CAMsgs(cas)[i])
  {
  }

  predicate AllOfShape(shapes: seq<Shape>, x: seq<Item>) {
    |x| == |shapes| && forall i :: 0 <= i < |x| ==> OfShape(shapes[i], x[i])
  }

  lemma SetClusterLayoutShaped(c: SystemCommand)
    requires c.SetClusterLayout?
    ensures AllOfShape(CommandShapes(15), SetClusterLayoutItems(c))
  {
    hide NodeMsgs, MsgOfKinds;
    NodesShaped(c.nodes);
    NodesShaped(c.previous);
  }

  lemma RegisterNodeShaped(c: SystemCommand)
    requires c.RegisterNode?
    ensures AllOfShape(CommandShapes(16), RegisterNodeItems(c))
  {
  }

  lemma SetNodeDrainingShaped(c: SystemCommand)
    requires c.SetNodeDraining?
    ensures AllOfShape(CommandShapes(17), SetNodeDrainingItems(c))
  {
  }

  lemma SetNodeReplacedByShaped(c: SystemCommand)
    requires c.SetNodeReplacedBy?
    ensures AllOfShape(CommandShapes(18), SetNodeReplacedByItems(c))
  {
  }

  lemma SetEncryptionPostureShaped(c: SystemCommand)
    requires c.SetEncryptionPosture?
    ensures AllOfShape(CommandShapes(21), SetEncryptionPostureItems(c))
  {
  }

  lemma BeginKEKRotationShaped(c: SystemCommand)
    requires c.BeginKEKRotation?
    ensures AllOfShape(CommandShapes(22), BeginKEKRotationItems(c))
  {
  }

  lemma CompleteKEKRotationShaped(c: SystemCommand)
    requires c.CompleteKEKRotation?
    ensures AllOfShape(CommandShapes(24), CompleteKEKRotationItems(c))
  {
  }

  lemma SetNodeLeafCAShaped(c: SystemCommand)
    requires c.SetNodeLeafCA?
    ensures AllOfShape(CommandShapes(25), SetNodeLeafCAItems(c))
  {
  }

  lemma SetTrustBundleShaped(c: SystemCommand)
    requires c.SetTrustBundle?
    ensures AllOfShape(CommandShapes(26), SetTrustBundleItems(c))
  {
    hide CAMsgs, MsgOfKinds;
    CAsShaped(c.cas);
  }

  lemma SetNodeVersionShaped(c: SystemCommand)
    requires c.SetNodeVersion?
    ensures AllOfShape(CommandShapes(27), SetNodeVersionItems(c))
  {
  }

  lemma CreateBucketShaped(p: Proposal)
    requires p.CreateBucket?
    ensures AllOfShape(CommandShapes(3), CreateBucketItems(p))
  {
  }

  lemma DeleteBucketShaped(p: Proposal)
    requires p.DeleteBucket?
    ensures AllOfShape(CommandShapes(4), DeleteBucketItems(p))
  {
  }

  lemma SetBucketVersioningShaped(p: Proposal)
    requires p.SetBucketVersioning?
    ensures AllOfShape(CommandShapes(5), SetBucketVersioningItems(p))
  {
  }

  lemma PutObjectShaped(p: Proposal)
    requires p.PutObject?
    ensures AllOfShape(CommandShapes(6), PutObjectItems(p))
  {
    hide IdVal;
    IdOfKind(p.id);
  }

  lemma DeleteObjectShaped(p: Proposal)
    requires p.DeleteObject?
    ensures AllOfShape(CommandShapes(7), DeleteObjectItems(p))
  {
    hide IdVal;
    IdOfKind(p.id);
  }

  lemma DeleteVersionShaped(p: Proposal)
    requires p.DeleteVersion?
    ensures AllOfShape(CommandShapes(8), DeleteVersionItems(p))
  {
    hide IdVal;
    IdOfKind(p.id);
  }

  lemma UpdateRetentionShaped(p: Proposal)
    requires p.UpdateRetention?
    ensures AllOfShape(CommandShapes(9), UpdateRetentionItems(p))
  {
    hide IdVal;
    IdOfKind(p.id);
  }

  lemma UpdateLegalHoldShaped(p: Proposal)
    requires p.UpdateLegalHold?
    ensures AllOfShape(CommandShapes(10), UpdateLegalHoldItems(p))
  {
    hide IdVal;
    IdOfKind(p.id);
  }

  lemma CreateUploadShaped(p: Proposal)
    requires p.CreateUpload?
    ensures AllOfShape(CommandShapes(11), CreateUploadItems(p))
  {
    hide IdVal;
    IdOfKind(p.id);
  }

  lemma UploadPartShaped(p: Proposal)
    requires p.UploadPart?
    ensures AllOfShape(CommandShapes(12), UploadPartItems(p))
  {
    hide IdVal;
    IdOfKind(p.id);
    IdOfKind(p.dataId);
  }

  lemma CompleteUploadShaped(p: Proposal)
    requires p.CompleteUpload?
    ensures AllOfShape(CommandShapes(13), CompleteUploadItems(p))
  {
    hide IdVal, PartMsgs, MsgOfKinds;
    IdOfKind(p.upload);
    IdOfKind(p.id);
    PartsShaped(p.parts);
  }

  lemma AbortUploadShaped(p: Proposal)
    requires p.AbortUpload?
    ensures AllOfShape(CommandShapes(14), AbortUploadItems(p))
  {
    hide IdVal;
    IdOfKind(p.id);
  }

  lemma ReEncodeObjectShaped(p: Proposal)
    requires p.ReEncodeObject?
    ensures AllOfShape(CommandShapes(19), ReEncodeObjectItems(p))
  {
    hide IdVal;
    IdOfKind(p.id);
    IdOfKind(p.dataId);
  }

  lemma SetLockConfigurationShaped(p: Proposal)
    requires p.SetLockConfiguration?
    ensures AllOfShape(CommandShapes(20), SetLockConfigurationItems(p))
  {
  }

  lemma RewrapDEKShaped(p: Proposal)
    requires p.RewrapDEK?
    ensures AllOfShape(CommandShapes(23), RewrapDEKItems(p))
  {
    hide IdVal;
    IdOfKind(p.id);
  }

  lemma SystemShaped(c: SystemCommand)
    ensures AllOfShape(CommandShapes(SystemNumber(c)), SystemItems(c))
  {
    hide AllOfShape, CommandShapes, SetClusterLayoutItems, RegisterNodeItems, SetNodeDrainingItems,
      SetNodeReplacedByItems;
    hide SetEncryptionPostureItems, BeginKEKRotationItems, CompleteKEKRotationItems, SetNodeLeafCAItems,
      SetTrustBundleItems, SetNodeVersionItems;
    match c
    case SetClusterLayout(_, _, _, _, _) => SetClusterLayoutShaped(c);
    case RegisterNode(_, _, _, _, _) => RegisterNodeShaped(c);
    case SetNodeDraining(_, _) => SetNodeDrainingShaped(c);
    case SetNodeReplacedBy(_, _) => SetNodeReplacedByShaped(c);
    case SetEncryptionPosture(_, _) => SetEncryptionPostureShaped(c);
    case BeginKEKRotation(_, _) => BeginKEKRotationShaped(c);
    case CompleteKEKRotation(_) => CompleteKEKRotationShaped(c);
    case SetNodeLeafCA(_, _) => SetNodeLeafCAShaped(c);
    case SetTrustBundle(_, _, _) => SetTrustBundleShaped(c);
    case SetNodeVersion(_, _, _) => SetNodeVersionShaped(c);
  }

  /** For every proposal. */
  lemma FieldsMatchTable(p: Proposal)
    ensures FirstCommand <= NumberOf(p) <= LastCommand && AllOfShape(CommandShapes(NumberOf(p)), ItemsOf(p))
  {
    hide AllOfShape, CommandShapes, SystemItems, CreateBucketItems, DeleteBucketItems, SetBucketVersioningItems,
      PutObjectItems, DeleteObjectItems;
    hide DeleteVersionItems, UpdateRetentionItems, UpdateLegalHoldItems, CreateUploadItems, UploadPartItems;
    hide CompleteUploadItems, AbortUploadItems, ReEncodeObjectItems, SetLockConfigurationItems, RewrapDEKItems;
    match p
    case CreateBucket(_, _, _) => CreateBucketShaped(p);
    case DeleteBucket(_, _) => DeleteBucketShaped(p);
    case SetBucketVersioning(_, _, _) => SetBucketVersioningShaped(p);
    case PutObject(_, _, _, _, _, _, _, _, _, _, _, _, _) => PutObjectShaped(p);
    case DeleteObject(_, _, _, _) => DeleteObjectShaped(p);
    case DeleteVersion(_, _, _, _, _) => DeleteVersionShaped(p);
    case UpdateRetention(_, _, _, _, _, _, _) => UpdateRetentionShaped(p);
    case UpdateLegalHold(_, _, _, _, _) => UpdateLegalHoldShaped(p);
    case CreateUpload(_, _, _, _, _, _) => CreateUploadShaped(p);
    case UploadPart(_, _, _, _, _, _, _, _, _, _) => UploadPartShaped(p);
    case CompleteUpload(_, _, _, _, _, _, _) => CompleteUploadShaped(p);
    case AbortUpload(_, _, _, _) => AbortUploadShaped(p);
    case ReEncodeObject(_, _, _, _, _, _, _, _) => ReEncodeObjectShaped(p);
    case SetLockConfiguration(_, _, _, _, _) => SetLockConfigurationShaped(p);
    case RewrapDEK(_, _, _, _, _, _) => RewrapDEKShaped(p);
    case SetSystem(_, c) => SystemShaped(c);
  }

  lemma SystemBack(c: SystemCommand)
    ensures SystemCommandOf(SystemNumber(c), SystemItems(c)) == Some(c)
  {
    hide SetClusterLayoutItems, RegisterNodeItems, SetNodeDrainingItems, SetNodeReplacedByItems,
         SetEncryptionPostureItems, BeginKEKRotationItems, CompleteKEKRotationItems, SetNodeLeafCAItems,
         SetTrustBundleItems, SetNodeVersionItems, SetClusterLayoutOf, RegisterNodeOf, SetNodeDrainingOf,
         SetNodeReplacedByOf, SetEncryptionPostureOf, BeginKEKRotationOf, CompleteKEKRotationOf, SetNodeLeafCAOf,
         SetTrustBundleOf, SetNodeVersionOf;
    match c
    case SetClusterLayout(_, _, _, _, _) => SetClusterLayoutBack(c);
    case RegisterNode(_, _, _, _, _) => RegisterNodeBack(c);
    case SetNodeDraining(_, _) => SetNodeDrainingBack(c);
    case SetNodeReplacedBy(_, _) => SetNodeReplacedByBack(c);
    case SetEncryptionPosture(_, _) => SetEncryptionPostureBack(c);
    case BeginKEKRotation(_, _) => BeginKEKRotationBack(c);
    case CompleteKEKRotation(_) => CompleteKEKRotationBack(c);
    case SetNodeLeafCA(_, _) => SetNodeLeafCABack(c);
    case SetTrustBundle(_, _, _) => SetTrustBundleBack(c);
    case SetNodeVersion(_, _, _) => SetNodeVersionBack(c);
  }

  /** A proposal is what its command makes. */
  lemma CommandMakesProposal(p: Proposal)
    ensures ProposalOf(CommandOf(p)) == Some(p)
  {
    hide CreateBucketItems, DeleteBucketItems, SetBucketVersioningItems, PutObjectItems, DeleteObjectItems,
         DeleteVersionItems, UpdateRetentionItems, UpdateLegalHoldItems, CreateUploadItems, UploadPartItems,
         CompleteUploadItems, AbortUploadItems, ReEncodeObjectItems, SetLockConfigurationItems, RewrapDEKItems,
         CreateBucketOf, DeleteBucketOf, SetBucketVersioningOf, PutObjectOf, DeleteObjectOf, DeleteVersionOf,
         UpdateRetentionOf, UpdateLegalHoldOf, CreateUploadOf, UploadPartOf, CompleteUploadOf, AbortUploadOf,
         ReEncodeObjectOf, SetLockConfigurationOf, RewrapDEKOf;
    hide SystemItems, SystemCommandOf;
    match p
    case CreateBucket(_, _, _) => CreateBucketBack(p);
    case DeleteBucket(_, _) => DeleteBucketBack(p);
    case SetBucketVersioning(_, _, _) => SetBucketVersioningBack(p);
    case PutObject(_, _, _, _, _, _, _, _, _, _, _, _, _) => PutObjectBack(p);
    case DeleteObject(_, _, _, _) => DeleteObjectBack(p);
    case DeleteVersion(_, _, _, _, _) => DeleteVersionBack(p);
    case UpdateRetention(_, _, _, _, _, _, _) => UpdateRetentionBack(p);
    case UpdateLegalHold(_, _, _, _, _) => UpdateLegalHoldBack(p);
    case CreateUpload(_, _, _, _, _, _) => CreateUploadBack(p);
    case UploadPart(_, _, _, _, _, _, _, _, _, _) => UploadPartBack(p);
    case CompleteUpload(_, _, _, _, _, _, _) => CompleteUploadBack(p);
    case AbortUpload(_, _, _, _) => AbortUploadBack(p);
    case ReEncodeObject(_, _, _, _, _, _, _, _) => ReEncodeObjectBack(p);
    case SetLockConfiguration(_, _, _, _, _) => SetLockConfigurationBack(p);
    case RewrapDEK(_, _, _, _, _, _) => RewrapDEKBack(p);
    case SetSystem(_, c) => SystemBack(c);
  }

  /** Every proposal whose strings fit is, sent and read again, the same proposal; and no other
      proposal is sent as those bytes. */
  lemma SentIsReceived(p: Proposal)
    requires Sendable(CommandOf(p))
    ensures DecodeProposal(EncodeProposal(CommandOf(p))).Some?
    ensures ProposalOf(DecodeProposal(EncodeProposal(CommandOf(p))).value) == Some(p)
    ensures forall q: Proposal ::
      Sendable(CommandOf(q)) && EncodeProposal(CommandOf(q)) == EncodeProposal(CommandOf(p)) ==> q == p
  {
    hide Sendable, EncodeProposal, DecodeProposal, ProposalOf, CommandOf;
    ProposalRoundTrip(CommandOf(p));
    CommandMakesProposal(p);
    forall q: Proposal | Sendable(CommandOf(q)) && EncodeProposal(CommandOf(q)) == EncodeProposal(CommandOf(p))
      ensures q == p
    {
      ProposalRoundTrip(CommandOf(q));
      CommandMakesProposal(q);
    }
  }
}
