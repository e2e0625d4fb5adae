/** The metadata switch of a re-encode, as the proposal it is: what the store then names is what the
    operation wrote. */
module CoordSwitch {
  import opened Bytes
  import opened MetaVid
  import opened MetaKeys
  import opened MetaRecords
  import MetaApply
  import MetaInv
  import MetaLock
  import opened EcGeometry
  import opened EcStripe
  import opened EcReader
  import opened EcReconstruct
  import opened EcReencode
  import CoordReencode
  import CoordSweep

  function Digests(files: seq<bytes>, sha: bytes -> bytes): (sums: seq<bytes>)
    ensures |sums| == |files| && forall i :: 0 <= i < |sums| ==> sums[i] == sha(files[i])
  {
    seq(|files|, i requires 0 <= i < |files| => sha(files[i]))
  }

  /** What the operation proposes once every new shard is durable. */
  function Switch(v: VersionKey, at: int64, newId: bytes, k: uint32, m: uint32, files: seq<bytes>, sha: bytes -> bytes):
    Proposal
    requires |newId| == 16
  {
    ReEncodeObject(at, v.bucket, v.key, v.id, IdFrom(newId), k, m, Digests(files, sha))
  }

  /** An entry leads to these shards: under the address they were written to, of that profile, each with
      its own digest. */
  predicate LeadsTo(e: VersionEntry, newId: bytes, k: int, m: int, shards: seq<Option<bytes>>, sha: bytes -> bytes) {
    && IdBytes(e.dataId) == newId && e.layout.dataShards == k && e.layout.parityShards == m
    && |e.layout.shardChecksums| == |shards| == k + m
    && forall i :: 0 <= i < |shards| && shards[i].Some? ==> e.layout.shardChecksums[i] == sha(shards[i].value)
  }

  lemma ProfileFits(op: CoordReencode.ReencodeOp)
    requires op.Valid() && op.phase == CoordReencode.Proposing
    ensures |op.newId| == 16 && 1 <= op.newK && 0 <= op.newM && op.newK + op.newM <= 256
    ensures |op.files| == op.newK + op.newM && op.newHomes == CoordReencode.Somes(op.files)
  {
    hide MDS, ReadsAs, CorrectLibrary, CoordReencode.KOf, ShardFile;
  }

  /** What the store does with a switch to files of a profile. */
  ghost predicate Taken(st: State, v: VersionKey, newId: bytes, k: int, m: int, files: seq<bytes>, sha: bytes -> bytes,
                        out: MetaApply.Outcome) {
    && (out.res.Ok? <==> v in st.versions && st.versions[v].kind == KindObject && st.versions[v].parts == [])
    && (out.res.Err? ==> out.st == st)
    && (out.res.Ok? ==>
          && MetaLock.OnlyVersion(st, out.st, v)
          && LeadsTo(out.st.versions[v], newId, k, m, CoordReencode.Somes(files), sha)
          && MetaInv.SameObject(st.versions[v], out.st.versions[v])
          && MetaLock.SameLock(st.versions[v], out.st.versions[v]))
  }

  lemma SwitchTaken(st: State, v: VersionKey, at: int64, newId: bytes, k: int, m: int, files: seq<bytes>,
                    sha: bytes -> bytes, calendar: MetaApply.Calendar)
    requires |newId| == 16 && 1 <= k && 0 <= m && |files| == k + m <= 256
    ensures Taken(st, v, newId, k, m, files, sha, MetaApply.Step(st, Switch(v, at, newId, k, m, files, sha), calendar))
  {
    hide MetaApply.Step, MetaInv.SameObject, IdBytes, IdFrom;
    var p := Switch(v, at, newId, k, m, files, sha);
    assert v == VersionKey(p.bucket, p.key, p.id);
    MetaLock.ReEncodeExactly(st, p, calendar);
  }

  /** The switch that a re-encode proposes is accepted exactly if the version is still there, an object
      stored whole. The version then leads to the new shards, all of them in place, and nothing else about
      it or any other row changes. */
  lemma SwitchLeads(op: CoordReencode.ReencodeOp, st: State, v: VersionKey, at: int64, sha: bytes -> bytes,
                    calendar: MetaApply.Calendar)
    requires op.Valid() && op.phase == CoordReencode.Proposing
    ensures |op.newId| == 16 && 0 <= op.newK < 0x1_0000_0000 && 0 <= op.newM < 0x1_0000_0000
    ensures op.newHomes == CoordReencode.Somes(op.files)
    ensures Taken(st, v, op.newId, op.newK, op.newM, op.files, sha,
                  MetaApply.Step(st, Switch(v, at, op.newId, op.newK, op.newM, op.files, sha), calendar))
  {
    hide CoordReencode.ReencodeOp.Valid, Taken, MetaApply.Step;
    ProfileFits(op);
    SwitchTaken(st, v, at, op.newId, op.newK, op.newM, op.files, sha, calendar);
  }

  lemma NewShards(op: CoordReencode.ReencodeOp)
    requires op.Valid() && op.phase == CoordReencode.Proposing
    ensures Encodes(op.files, op.job.Target(op.held), op.code, op.newId, op.held) && CorrectLibrary(op.code)
    ensures op.job.Target(op.held) == Geometry(op.newK, op.newM, op.sliceSize, |op.held|)
  {
    hide MDS, ReadsAs, CorrectLibrary, CoordReencode.KOf, Encodes;
  }

  /** So the version is one the next sweep can judge: its digests are those of the shards written. */
  lemma SwitchIsRecorded(op: CoordReencode.ReencodeOp, e: VersionEntry, sha: bytes -> bytes)
    requires op.Valid() && op.phase == CoordReencode.Proposing
    requires LeadsTo(e, op.newId, op.newK, op.newM, op.newHomes, sha)
    ensures 0 < e.layout.dataShards
    ensures var v := CoordSweep.Version(e.layout.dataShards, e.layout.dataShards + e.layout.parityShards, sha,
                                        e.layout.shardChecksums, op.files);
      && v.From(CoordSweep.Origin(op.job.Target(op.held), op.code, op.newId, op.held))
      && (Injective(sha) ==> v.Recorded())
  {
    hide CoordReencode.ReencodeOp.Valid, MDS, CorrectLibrary, ShardFile, IdBytes;
    ProfileFits(op);
    NewShards(op);
  }
}
