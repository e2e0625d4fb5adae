/** The receiving half: chunks staged on disk under a running hash, sealed by a commit
    marker written and synced strictly after the shard. */
module DatapathReceiver {
  import opened Bytes
  import opened DatapathDisk
  import opened DatapathSender

  /** One incoming shard: how much is staged and the bytes its running hash has seen. */
  datatype Staging = Staging(stream: nat, staged: nat, hashed: bytes)

  datatype Node = Node(staging: map<ShardKey, Staging>, disk: Disk)

  /** A disk operation that fails leaves its file in any state: the outcome it left. */
  type Fault = Option<Disk>

  /** Which step of a commit the disk failed at. */
  datatype CommitFault = NoFault | ShardSync(after: Disk) | MarkerStep(after: Disk)

  /** Which file's removal or sync failed in a delete, and the disk it left. */
  datatype DeleteFault = Clean | MarkerFails(after: Disk) | ShardFails(after: Disk)

  predicate Committed(d: Disk, key: ShardKey) {
    d.Read(Marker(key)).Some?
  }

  function StagedAck(key: ShardKey, st: Staging): Msg {
    Ack(key, st.staged, false, false, st.stream)
  }

  function CommittedAck(key: ShardKey, stream: nat): Msg {
    Ack(key, 0, true, false, stream)
  }

  function FailedAck(key: ShardKey, stream: nat): Msg {
    Ack(key, 0, false, true, stream)
  }

  function HandleChunk(n: Node, m: Msg, fault: Fault): (Node, seq<Msg>)
    requires m.Chunk?
  {
    var live := m.key in n.staging;
    if !live && Committed(n.disk, m.key) then
      (n, [CommittedAck(m.key, m.stream)])
    else if live && n.staging[m.key].stream == m.stream then
      var st := n.staging[m.key];
      if m.offset != st.staged then (n, [StagedAck(m.key, st)])
      else if fault.Some? then
        // Appending failed: drop the staging and the file.
        (Node(n.staging - {m.key}, fault.value), [FailedAck(m.key, st.stream)])
      else
        var next := Staging(st.stream, st.staged + |m.data|, st.hashed + m.data);
        (Node(n.staging[m.key := next], n.disk.Append(Shard(m.key), m.data)), [StagedAck(m.key, next)])
    else if m.offset == 0 && (!live || m.stream > n.staging[m.key].stream) then
      // A new incarnation, fresh or over a dead predecessor's staging.
      if fault.Some? then (n.(disk := fault.value), [FailedAck(m.key, m.stream)])
      else
        var next := Staging(m.stream, |m.data|, m.data);
        (Node(n.staging[m.key := next], n.disk.WriteFile(Shard(m.key), m.data)), [StagedAck(m.key, next)])
    else (n, [])
  }

  /** Removes a file and syncs the removal; one that is not there is left as it is, synced or not. */
  function Erased(d: Disk, name: Name): Disk {
    if d.Read(name).None? then d else d.Remove(name).Sync(name)
  }

  /** Drops the staging and removes the partial file. */
  function FailTransfer(n: Node, key: ShardKey, stream: nat): (Node, seq<Msg>) {
    (Node(n.staging - {key}, Erased(n.disk, Shard(key))), [FailedAck(key, stream)])
  }

  function HandleCommit(n: Node, m: Msg, sha: bytes -> bytes, fault: CommitFault): (Node, seq<Msg>)
    requires m.Commit?
  {
    if m.length == 0 then FailTransfer(n, m.key, m.stream)
    else if m.key !in n.staging then
      (n, if Committed(n.disk, m.key) then [CommittedAck(m.key, m.stream)] else [])
    else
      var st := n.staging[m.key];
      if m.stream != st.stream then (n, [])
      else if st.staged != m.length then (n, [StagedAck(m.key, st)])
      else if sha(st.hashed) != m.checksum then FailTransfer(n, m.key, st.stream)
      else
        match fault
        case ShardSync(after) => (Node(n.staging - {m.key}, after), [FailedAck(m.key, st.stream)])
        case MarkerStep(after) =>
          // The failure path removes the shard; whatever became of the marker stays.
          FailTransfer(Node(n.staging, after), m.key, st.stream)
        case NoFault =>
          (Node(n.staging - {m.key}, Sealed(n.disk, m.key)), [CommittedAck(m.key, st.stream)])
  }

  /** Sync the shard, then write and sync the marker. */
  function Sealed(d: Disk, key: ShardKey): Disk {
    d.Sync(Shard(key)).WriteFile(Marker(key), []).Sync(Marker(key))
  }

  /** Marker first, then bytes, each synced; a failure ends it there. The staging entry, if any, is
      left alone. */
  function HandleDelete(n: Node, key: ShardKey, fault: DeleteFault): (Node, bool) {
    match fault
    case MarkerFails(after) => (n.(disk := after), false)
    case ShardFails(after) => (n.(disk := after), false)
    case Clean => (n.(disk := Erased(Erased(n.disk, Marker(key)), Shard(key))), true)
  }

  /** A failed removal leaves its own file in any state, and touches no other. */
  ghost predicate DeleteFails(d: Disk, key: ShardKey, fault: DeleteFault) {
    match fault
    case Clean => true
    case MarkerFails(after) => d.SameBut(after, Marker(key))
    case ShardFails(after) => Erased(d, Marker(key)).SameBut(after, Shard(key))
  }

  /** What scrub is told: the committed file's digest, or that there is none. */
  function HandleVerify(n: Node, key: ShardKey, sha: bytes -> bytes): Option<bytes> {
    if Committed(n.disk, key) && n.disk.Read(Shard(key)).Some? then Some(sha(n.disk.Read(Shard(key)).value)) else None
  }

  /** The service object's server half. `outbox` is everything it has sent. */
  class Service {
    var staging: map<ShardKey, Staging>
    var disk: Disk
    var outbox: seq<Msg>
    const sha: bytes -> bytes

    ghost function View(): Node
      reads this
    {
      Node(staging, disk)
    }

    constructor (disk: Disk, sha: bytes -> bytes)
      ensures View() == Node(map[], disk) && outbox == [] && this.sha == sha
    {
      staging, this.disk, outbox, this.sha := map[], disk, [], sha;
    }

    method Send(m: Msg)
      modifies this`outbox
      ensures outbox == old(outbox) + [m]
    {
      outbox := outbox + [m];
    }

    method ReceiveChunk(m: Msg, fault: Fault)
      requires m.Chunk?
      modifies this
      ensures View() == HandleChunk(old(View()), m, fault).0
      ensures outbox == old(outbox) + HandleChunk(old(View()), m, fault).1
    {
      var live := m.key in staging;
      if !live && Committed(disk, m.key) {
        Send(CommittedAck(m.key, m.stream));
      } else if live && staging[m.key].stream == m.stream {
        var st := staging[m.key];
        if m.offset == st.staged {
          if fault.Some? {
            staging := staging - {m.key};
            disk := fault.value;
            Send(FailedAck(m.key, st.stream));
            return;
          }
          disk := disk.Append(Shard(m.key), m.data);
          st := st.(hashed := st.hashed + m.data);
          st := st.(staged := st.staged + |m.data|);
          staging := staging[m.key := st];
        }
        Send(StagedAck(m.key, st));
      } else if m.offset == 0 && (!live || m.stream > staging[m.key].stream) {
        if fault.Some? {
          disk := fault.value;
          Send(FailedAck(m.key, m.stream));
          return;
        }
        disk := disk.WriteFile(Shard(m.key), m.data);
        var st := Staging(m.stream, |m.data|, m.data);
        staging := staging[m.key := st];
        Send(StagedAck(m.key, st));
      }
    }

    method ReceiveCommit(m: Msg, fault: CommitFault)
      requires m.Commit?
      modifies this
      ensures View() == HandleCommit(old(View()), m, sha, fault).0
      ensures outbox == old(outbox) + HandleCommit(old(View()), m, sha, fault).1
    {
      if m.length == 0 {
        Fail(m.key, m.stream);
        return;
      }
      if m.key !in staging {
        if Committed(disk, m.key) {
          Send(CommittedAck(m.key, m.stream));
        }
        return;
      }
      var st := staging[m.key];
      if m.stream != st.stream {
        return;
      }
      if st.staged != m.length {
        Send(StagedAck(m.key, st));
        return;
      }
      if sha(st.hashed) != m.checksum {
        Fail(m.key, st.stream);
        return;
      }
      if fault.ShardSync? {
        staging := staging - {m.key};
        disk := fault.after;
        Send(FailedAck(m.key, st.stream));
        return;
      }
      if fault.MarkerStep? {
        disk := fault.after;
        Fail(m.key, st.stream);
        return;
      }
      disk := disk.Sync(Shard(m.key));
      disk := disk.WriteFile(Marker(m.key), []);
      disk := disk.Sync(Marker(m.key));
      staging := staging - {m.key};
      Send(CommittedAck(m.key, st.stream));
    }

    method Fail(key: ShardKey, stream: nat)
      modifies this
      ensures View() == FailTransfer(old(View()), key, stream).0
      ensures outbox == old(outbox) + FailTransfer(old(View()), key, stream).1
    {
      staging := staging - {key};
      Erase(Shard(key));
      Send(FailedAck(key, stream));
    }

    method Erase(name: Name)
      modifies this`disk
      ensures disk == Erased(old(disk), name)
    {
      if disk.Read(name).Some? {
        disk := disk.Remove(name);
        disk := disk.Sync(name);
      }
    }

    /** Removes a shard, or stops at the file the disk fails on; the answer says which. */
    method ReceiveDelete(key: ShardKey, fault: DeleteFault) returns (ok: bool)
      requires DeleteFails(disk, key, fault)
      modifies this`disk
      ensures View() == HandleDelete(old(View()), key, fault).0 && ok == HandleDelete(old(View()), key, fault).1
      ensures ok ==> disk.Read(Marker(key)).None? && disk.Read(Shard(key)).None?
      ensures fault.ShardFails? ==> disk.Read(Marker(key)).None?
    {
      if fault.MarkerFails? {
        disk := fault.after;
        return false;
      }
      Erase(Marker(key));
      if fault.ShardFails? {
        disk := fault.after;
        return false;
      }
      Erase(Shard(key));
      ok := true;
    }
  }
}
