/** The cluster's own settings: layout, encryption posture, trust bundle and members. Each command
    is a guarded change of one record. */
module MetaSystem {
  import opened Bytes
  import opened MetaKeys
  import opened MetaRecords

  /** Which record a command sets, and to what; or nothing, where it finds its work done. */
  datatype Change = Put(name: SystemName, record: SystemRecord) | Nothing

  function NextGeneration(v: uint64): uint64 { (v + 1) % TwoTo64 }

  function LayoutChange(sys: System, c: SystemCommand): Result<Change, ApplyError>
    requires c.SetClusterLayout?
  {
    if sys.layout.Some? && c.partitionCount != sys.layout.value.partitionCount then Err(InvalidLayout)
    else if c.version != (if sys.layout.Some? then NextGeneration(sys.layout.value.version) else 1)
      then Err(StaleLayout)
    else if c.partitionCount == 0 || (|c.members| == 0 && |c.nodes| == 0) then Err(InvalidLayout)
    else Ok(Put(LayoutName, LayoutRec(ClusterLayout(FormatVersion, c.version, c.partitionCount, c.members, c.nodes,
                                                    c.previous, []))))
  }

  /** The posture an affirmation starts from: a fresh record that carries an open rotation on. */
  function Affirmed(sys: System, algorithm: uint8): EncryptionPosture {
    if sys.posture.Some? then
      EncryptionPosture(FormatVersion, algorithm, sys.posture.value.currentKEK, sys.posture.value.rotatingToKEK, [])
    else EncryptionPosture(FormatVersion, algorithm, 0, 0, [])
  }

  function PostureChange(sys: System, c: SystemCommand): Result<Change, ApplyError>
    requires c.SetEncryptionPosture?
  {
    var post := Affirmed(sys, c.algorithm);
    if c.algorithm != EncNone && c.algorithm != EncAES256GCM then Err(InvalidEncryption)
    else if sys.posture.Some? && sys.posture.value.algorithm != EncNone && c.algorithm == EncNone
      then Err(EncryptionDowngrade)
    else if c.kek != 0 && post.currentKEK != 0 && post.currentKEK != c.kek then Err(KEKMismatch)
    else Ok(Put(PostureName, PostureRec(if c.kek != 0 then post.(currentKEK := c.kek) else post)))
  }

  function BeginChange(sys: System, c: SystemCommand): Result<Change, ApplyError>
    requires c.BeginKEKRotation?
  {
    if sys.posture.None? || sys.posture.value.algorithm == EncNone then Err(NotEncrypting)
    else
      var post := sys.posture.value;
      if c.to == 0 || c.to == post.currentKEK then Err(InvalidRewrap)
      else if post.currentKEK == 0 || c.from != post.currentKEK then Err(KEKMismatch)
      else if post.rotatingToKEK != 0 && post.rotatingToKEK != c.to then Err(KEKMismatch)
      else Ok(Put(PostureName, PostureRec(post.(rotatingToKEK := c.to))))
  }

  function CompleteChange(sys: System, c: SystemCommand): Result<Change, ApplyError>
    requires c.CompleteKEKRotation?
  {
    if sys.posture.None? then Err(NotEncrypting)
    else
      var post := sys.posture.value;
      if post.rotatingToKEK == 0 then if post.currentKEK == c.to then Ok(Nothing) else Err(KEKMismatch)
      else if post.rotatingToKEK != c.to then Err(KEKMismatch)
      else Ok(Put(PostureName, PostureRec(post.(currentKEK := post.rotatingToKEK, rotatingToKEK := 0))))
  }

  /** A registration replaces the row, but for the version another command owns. */
  function RegisterChange(sys: System, c: SystemCommand): Result<Change, ApplyError>
    requires c.RegisterNode?
  {
    if c.id == [] then Err(InvalidNode)
    else
      var (version, generation) := if c.id in sys.nodes
        then (sys.nodes[c.id].binaryVersion, sys.nodes[c.id].generation) else ([], 0);
      Ok(Put(NodeName(c.id), NodeRec(
        NodeRecord(FormatVersion, c.id, c.host, c.zone, c.capacity, false, [], c.leafCA, version, generation, []))))
  }

  /** A change to one registered member. */
  function MemberChange(sys: System, c: SystemCommand): Result<Change, ApplyError>
    requires c.SetNodeVersion? || c.SetNodeLeafCA? || c.SetNodeDraining? || c.SetNodeReplacedBy?
  {
    if c.id == [] || c.id !in sys.nodes then Err(InvalidNode)
    else
      var rec := sys.nodes[c.id];
      Ok(Put(NodeName(c.id), NodeRec(
        match c
        case SetNodeVersion(_, version, generation) => rec.(binaryVersion := version, generation := generation)
        case SetNodeLeafCA(_, ca) => rec.(leafCA := ca)
        case SetNodeDraining(_, draining) => rec.(draining := draining)
        case SetNodeReplacedBy(_, other) => rec.(replacedBy := other))))
  }

  predicate HasCA(cas: seq<TrustedCA>, fingerprint: uint64) {
    exists i :: 0 <= i < |cas| && cas[i].fingerprint == fingerprint
  }

  predicate CAsOk(cas: seq<TrustedCA>) {
    forall i :: 0 <= i < |cas| ==> cas[i].fingerprint != 0 && cas[i].cert != []
  }

  function TrustChange(sys: System, c: SystemCommand): Result<Change, ApplyError>
    requires c.SetTrustBundle?
  {
    if c.version != (if sys.trust.Some? then NextGeneration(sys.trust.value.version) else 1) then Err(StaleTrustBundle)
    else if c.cas == [] || !CAsOk(c.cas) || c.issuer == 0 || !HasCA(c.cas, c.issuer) then Err(InvalidTrustBundle)
    else Ok(Put(TrustName, TrustRec(TrustBundle(FormatVersion, c.version, c.cas, c.issuer, []))))
  }

  function SystemChange(sys: System, c: SystemCommand): (r: Result<Change, ApplyError>)
    ensures r.Ok? && r.value.Put? ==> SystemFits(r.value.name, r.value.record)
  {
    match c
    case SetClusterLayout(_, _, _, _, _) => LayoutChange(sys, c)
    case SetEncryptionPosture(_, _) => PostureChange(sys, c)
    case BeginKEKRotation(_, _) => BeginChange(sys, c)
    case CompleteKEKRotation(_) => CompleteChange(sys, c)
    case RegisterNode(_, _, _, _, _) => RegisterChange(sys, c)
    case SetTrustBundle(_, _, _) => TrustChange(sys, c)
    case _ => MemberChange(sys, c)
  }

  /** The rows after a command; a refused one changes nothing. */
  function SystemNext(sys: System, c: SystemCommand): System {
    var r := SystemChange(sys, c);
    if r.Err? || r.value.Nothing? then sys else SystemSet(sys, r.value.name, r.value.record)
  }

  function SystemRun(sys: System, log: seq<SystemCommand>): System {
    if log == [] then sys else SystemNext(SystemRun(sys, log[..|log| - 1]), log[|log| - 1])
  }

  // ---- what every log keeps ----

  /** The layouts a log installs. */
  function Installs(sys: System, log: seq<SystemCommand>): (n: nat) {
    if log == [] then 0
    else
      var before, c := SystemRun(sys, log[..|log| - 1]), log[|log| - 1];
      Installs(sys, log[..|log| - 1]) + if c.SetClusterLayout? && SystemChange(before, c).Ok? then 1 else 0
  }

  /** A command leaves the records it does not set. */
  lemma OneRecord(sys: System, c: SystemCommand)
    ensures !c.SetClusterLayout? ==> SystemNext(sys, c).layout == sys.layout
    ensures !(c.SetEncryptionPosture? || c.BeginKEKRotation? || c.CompleteKEKRotation?) ==>
      SystemNext(sys, c).posture == sys.posture
    ensures !c.SetTrustBundle? ==> SystemNext(sys, c).trust == sys.trust
    ensures (c.SetClusterLayout? || c.SetEncryptionPosture? || c.BeginKEKRotation? || c.CompleteKEKRotation? ||
             c.SetTrustBundle?) ==> SystemNext(sys, c).nodes == sys.nodes
  {
    hide CAsOk, HasCA;
  }

  lemma LayoutStep(sys: System, c: SystemCommand)
    requires c.SetClusterLayout? && sys.layout.Some?
    ensures var after := SystemNext(sys, c).layout;
      && after.Some? && after.value.partitionCount == sys.layout.value.partitionCount
      && after.value.version == (if SystemChange(sys, c).Ok? then NextGeneration(sys.layout.value.version)
                                 else sys.layout.value.version)
      && (SystemChange(sys, c).Err? ==> after == sys.layout)
  {
  }

  /** Layout generations count up by one per install, and the partition count is fixed by the
      first. */
  lemma {:induction false} LayoutsCountUp(sys: System, log: seq<SystemCommand>)
    requires sys.layout.Some?
    ensures var after := SystemRun(sys, log).layout;
      && after.Some? && after.value.partitionCount == sys.layout.value.partitionCount
      && after.value.version == (sys.layout.value.version + Installs(sys, log)) % TwoTo64
      && (Installs(sys, log) == 0 ==> after == sys.layout)
  {
    hide SystemNext, SystemChange;
    if log != [] {
      var before, c := SystemRun(sys, log[..|log| - 1]), log[|log| - 1];
      LayoutsCountUp(sys, log[..|log| - 1]);
      OneRecord(before, c);
      if c.SetClusterLayout? {
        LayoutStep(before, c);
      }
    }
  }

  predicate Encrypting(sys: System) {
    sys.posture.Some? && sys.posture.value.algorithm != EncNone && sys.posture.value.currentKEK != 0
  }

  lemma PostureStep(sys: System, c: SystemCommand)
    requires Encrypting(sys)
    ensures Encrypting(SystemNext(sys, c))
    ensures var was, now := sys.posture.value, SystemNext(sys, c).posture.value;
      now.currentKEK != was.currentKEK ==> c.CompleteKEKRotation? && c.to == now.currentKEK
  {
    OneRecord(sys, c);
    hide LayoutChange, RegisterChange, MemberChange, TrustChange;
  }

  /** Encryption, once on under a key, stays on, and the key changes only by completing a rotation
      to it. */
  lemma {:induction false} EncryptionStaysOn(sys: System, log: seq<SystemCommand>)
    requires Encrypting(sys)
    ensures Encrypting(SystemRun(sys, log))
    ensures var key := SystemRun(sys, log).posture.value.currentKEK;
      key != sys.posture.value.currentKEK ==>
      exists i :: 0 <= i < |log| && log[i].CompleteKEKRotation? && log[i].to == key
  {
    hide SystemNext;
    if log != [] {
      var n := |log| - 1;
      var mid := SystemRun(sys, log[..n]);
      EncryptionStaysOn(sys, log[..n]);
      PostureStep(mid, log[n]);
      var key := SystemRun(sys, log).posture.value.currentKEK;
      if key == mid.posture.value.currentKEK != sys.posture.value.currentKEK {
        var i :| 0 <= i < n && log[..n][i].CompleteKEKRotation? && log[..n][i].to == key;
        assert log[i].CompleteKEKRotation?;
      }
    }
  }

  /** What every reachable cluster record is: a trust bundle trusts its issuer, a layout has
      partitions and members, and every member row is under its own name. */
  predicate SystemOk(sys: System) {
    && (sys.trust.Some? ==> TrustOk(sys.trust.value))
    && (sys.layout.Some? ==> LayoutOk(sys.layout.value))
    && NodesOk(sys.nodes)
  }

  predicate TrustOk(t: TrustBundle) { CAsOk(t.cas) && HasCA(t.cas, t.issuer) }

  predicate LayoutOk(l: ClusterLayout) { l.partitionCount > 0 && (l.members != [] || l.nodes != []) }

  predicate NodesOk(nodes: map<bytes, NodeRecord>) { forall id :: id in nodes ==> nodes[id].id == id && id != [] }

  lemma SystemStepOk(sys: System, c: SystemCommand)
    requires SystemOk(sys)
    ensures SystemOk(SystemNext(sys, c))
  {
    OneRecord(sys, c);
    if c.SetTrustBundle? {
      hide LayoutOk, NodesOk, LayoutChange, RegisterChange, MemberChange;
    } else if c.SetClusterLayout? {
      hide TrustOk, NodesOk;
    } else {
      hide TrustOk, LayoutOk;
    }
  }

  lemma {:induction false} SystemRunOk(sys: System, log: seq<SystemCommand>)
    requires SystemOk(sys)
    ensures SystemOk(SystemRun(sys, log))
  {
    hide SystemNext, SystemOk;
    if log != [] {
      SystemRunOk(sys, log[..|log| - 1]);
      SystemStepOk(SystemRun(sys, log[..|log| - 1]), log[|log| - 1]);
    }
  }
}
