/** Whole runs of a transfer: one sender, one receiver, a network that may lose, duplicate,
    delay and reorder, disks that may fail, nodes that may crash at any point. The network
    is the set of messages ever sent; any of them may arrive at any time, any number of
    times, or never. */
module DatapathRun {
  import opened Bytes
  import opened DatapathDisk
  import opened DatapathSender
  import opened DatapathReceiver

  /** What each shard's bytes are (every stream for a key carries the same) and the digest. */
  datatype World = World(content: ShardKey -> bytes, sha: bytes -> bytes)

  /** Shards are never empty: a shard file always carries at least its header. */
  ghost predicate Sane(w: World) {
    forall key {:trigger w.content(key)} :: w.content(key) != []
  }

  datatype Sys = Sys(
    streams: map<nat, Stream>,    // the sender's streams, by stream ID
    next: nat,                    // the last stream ID handed out
    node: Node,                   // the receiver
    net: set<Msg>,                // every message ever sent
    owner: map<nat, ShardKey>,    // history: which key each stream ID was created for
    reach: map<nat, nat>,         // history: how many bytes each stream has been given
    cleared: map<ShardKey, nat>)  // history: the last stream ID at each key's last delete

  datatype Event =
    | NewWrite(key: ShardKey)
    | PushBytes(id: nat, p: bytes)
    | Declare(id: nat)
    | TimerFires(id: nat)
    | AbortStream(id: nat)
    | AckArrives(id: nat, m: Msg)
    | ChunkArrives(m: Msg, fault: Fault)
    | CommitArrives(m: Msg, failure: CommitFault)
    | CrashReceiver(after: Disk)
    | CrashInCommit(m: Msg, steps: nat, after: Disk)
    | Delete(key: ShardKey, failing: DeleteFault)
    | CrashInDelete(key: ShardKey, steps: nat, after: Disk)
    | RestartSender

  function Msgs(ms: seq<Msg>): set<Msg> {
    set m | m in ms
  }

  function ClearedAt(s: Sys, key: ShardKey): nat {
    if key in s.cleared then s.cleared[key] else 0
  }

  /** The marker is durable and so is the whole shard beside it. */
  predicate Durable(w: World, d: Disk, key: ShardKey) {
    Marker(key) in d.durable && Shard(key) in d.durable && d.durable[Shard(key)] == w.content(key)
  }

  function CommitDisk(d: Disk, key: ShardKey, steps: nat): Disk {
    if steps == 0 then d.Sync(Shard(key))
    else if steps == 1 then d.Sync(Shard(key)).WriteFile(Marker(key), [])
    else Sealed(d, key)
  }

  function DeleteDisk(d: Disk, key: ShardKey, steps: nat): Disk {
    if steps == 0 then d.Remove(Marker(key))
    else if steps == 1 then Erased(d, Marker(key))
    else if steps == 2 then Erased(d, Marker(key)).Remove(Shard(key))
    else Erased(Erased(d, Marker(key)), Shard(key))
  }

  /** A commit that passes every check and reaches the disk. */
  predicate Seals(w: World, n: Node, m: Msg) {
    m.Commit? && m.length != 0 && m.key in n.staging && n.staging[m.key].stream == m.stream
    && n.staging[m.key].staged == m.length && w.sha(n.staging[m.key].hashed) == m.checksum
  }

  /** A failed removal of the marker either did nothing to it or is durable. */
  predicate MarkerSettled(d: Disk, after: Disk, key: ShardKey) {
    Marker(key) !in after.staged && (Marker(key) in after.durable ==> Marker(key) in d.durable)
  }

  /** When an event may happen. The sender's own rules are the panics of the code; the
      hypotheses beyond them are that a stream is fed its key's content, that a disk failure
      strikes neither the writing of a commit marker nor the takeover of live staging, that one
      in a delete leaves no removal of the marker unsynced, and that a key is not deleted while
      it is being staged. */
  ghost predicate Enabled(w: World, s: Sys, e: Event) {
    match e
    case NewWrite(key) => forall id :: id in s.streams && s.streams[id].key == key ==> s.streams[id].Finished()
    case PushBytes(id, p) =>
      && id in s.streams && !s.streams[id].Finished() && !s.streams[id].committing
      && |p| <= WindowBytes - |s.streams[id].buf|
      && var at := s.streams[id].End();
         at + |p| <= |w.content(s.streams[id].key)| && p == w.content(s.streams[id].key)[at..at + |p|]
    case Declare(id) =>
      && id in s.streams && !s.streams[id].Finished() && !s.streams[id].committing
      && s.streams[id].End() == |w.content(s.streams[id].key)|
    case TimerFires(id) => id in s.streams
    case AbortStream(id) => id in s.streams
    case AckArrives(id, m) => id in s.streams && m in s.net && m.Ack? && m.key == s.streams[id].key
    case ChunkArrives(m, fault) =>
      && m in s.net && m.Chunk?
      && (fault.Some? ==> s.node.disk.SameBut(fault.value, Shard(m.key)))
      && (fault.Some? && m.key in s.node.staging ==> s.node.staging[m.key].stream == m.stream)
    case CommitArrives(m, failure) =>
      && m in s.net && m.Commit? && !failure.MarkerStep?
      && (failure.ShardSync? ==> s.node.disk.SameBut(failure.after, Shard(m.key)))
    case CrashReceiver(after) => Crash(s.node.disk, after)
    case CrashInCommit(m, steps, after) =>
      m in s.net && Seals(w, s.node, m) && Crash(CommitDisk(s.node.disk, m.key, steps), after)
    case Delete(key, failing) =>
      && key !in s.node.staging && DeleteFails(s.node.disk, key, failing)
      && (failing.MarkerFails? ==> MarkerSettled(s.node.disk, failing.after, key))
    case CrashInDelete(key, steps, after) => key !in s.node.staging && Crash(DeleteDisk(s.node.disk, key, steps), after)
    case RestartSender => true
  }

  /** Updates stream `id` and puts what it sends on the network. */
  function Sent(s: Sys, id: nat, r: (Stream, seq<Msg>)): Sys {
    s.(streams := s.streams[id := r.0], net := s.net + Msgs(r.1))
  }

  function Replied(s: Sys, r: (Node, seq<Msg>)): Sys {
    s.(node := r.0, net := s.net + Msgs(r.1))
  }

  ghost function Next(w: World, s: Sys, e: Event): Sys
    requires Enabled(w, s, e)
  {
    match e
    case NewWrite(key) =>
      var id := s.next + 1;
      s.(streams := s.streams[id := NewStream(key, id)], next := id, owner := s.owner[id := key],
         reach := s.reach[id := 0])
    case PushBytes(id, p) =>
      Sent(s.(reach := s.reach[id := s.streams[id].End() + |p|]), id, Write(s.streams[id], p))
    case Declare(id) =>
      Sent(s, id, CommitStream(s.streams[id], s.streams[id].End(), w.sha(w.content(s.streams[id].key))))
    case TimerFires(id) => Sent(s, id, OnTimer(s.streams[id]))
    case AbortStream(id) => Sent(s, id, (Abort(s.streams[id]), []))
    case AckArrives(id, m) => Sent(s, id, HandleAck(s.streams[id], m))
    case ChunkArrives(m, fault) => Replied(s, HandleChunk(s.node, m, fault))
    case CommitArrives(m, failure) => Replied(s, HandleCommit(s.node, m, w.sha, failure))
    case CrashReceiver(after) => s.(node := Node(map[], after))
    case CrashInCommit(m, steps, after) => s.(node := Node(map[], after))
    case Delete(key, failing) =>
      var n := HandleDelete(s.node, key, failing).0;
      s.(node := n, cleared := if Marker(key) in n.disk.durable then s.cleared else s.cleared[key := s.next])
    case CrashInDelete(key, steps, after) => s.(node := Node(map[], after), cleared := s.cleared[key := s.next])
    case RestartSender => s.(streams := map[])
  }

  // ---- the invariant ----

  predicate Owned(s: Sys, key: ShardKey, stream: nat) {
    stream in s.owner && stream in s.reach && s.owner[stream] == key
  }

  ghost predicate MsgOk(w: World, s: Sys, m: Msg) {
    && Owned(s, m.key, m.stream)
    && match m
       case Chunk(key, offset, data, stream) =>
         && offset + |data| <= s.reach[stream] <= |w.content(key)|
         && data == w.content(key)[offset..offset + |data|]
       case Commit(key, length, checksum, stream) =>
         length == |w.content(key)| && checksum == w.sha(w.content(key))
       case Ack(key, staged, committed, failed, stream) =>
         && staged <= s.reach[stream]
         && (committed && stream > ClearedAt(s, key) ==> Marker(key) in s.node.disk.durable)
  }

  ghost predicate StreamOk(w: World, s: Sys, id: nat, x: Stream) {
    && x.stream == id && Owned(s, x.key, id) && Paced(x)
    && (!x.Finished() ==>
          && x.End() == s.reach[id] <= |w.content(x.key)| && x.buf == w.content(x.key)[x.base..x.End()]
          && (x.committing ==> x.length == |w.content(x.key)| && x.checksum == w.sha(w.content(x.key))))
    && (x.outcome.Succeeded? && id > ClearedAt(s, x.key) ==> Marker(x.key) in s.node.disk.durable)
  }

  ghost predicate StagingOk(w: World, s: Sys, key: ShardKey, st: Staging) {
    && Owned(s, key, st.stream) && st.staged == |st.hashed| <= s.reach[st.stream] <= |w.content(key)|
    && st.hashed == w.content(key)[..st.staged]
    && s.node.disk.Read(Shard(key)) == Some(st.hashed)
    && Marker(key) !in s.node.disk.durable
  }

  /** A marker, once there, stands beside a whole durable shard with nothing staged over it. */
  ghost predicate DiskOk(w: World, d: Disk) {
    && (forall key {:trigger Marker(key)} :: Marker(key) !in d.staged)
    && (forall key {:trigger Marker(key)} :: Marker(key) in d.durable ==> Durable(w, d, key) && Shard(key) !in d.staged)
  }

  ghost predicate HistoryOk(w: World, s: Sys) {
    && s.owner.Keys == s.reach.Keys
    && (forall id :: id in s.owner ==> id <= s.next && s.reach[id] <= |w.content(s.owner[id])|)
    && (forall key :: key in s.cleared ==> s.cleared[key] <= s.next)
  }

  ghost predicate Inv(w: World, s: Sys) {
    && HistoryOk(w, s) && DiskOk(w, s.node.disk)
    && (forall m :: m in s.net ==> MsgOk(w, s, m))
    && (forall id :: id in s.streams ==> StreamOk(w, s, id, s.streams[id]))
    && (forall key :: key in s.node.staging ==> StagingOk(w, s, key, s.node.staging[key]))
  }

  const Start := Sys(map[], 0, Node(map[], Disk(map[], map[])), {}, map[], map[], map[])

  // ---- what carries over from one state to the next ----

  /** History only grows, and no durable marker is lost except to a delete. */
  ghost predicate Grows(s: Sys, s': Sys) {
    && (forall id :: id in s.owner && id in s.reach ==>
          id in s'.owner && id in s'.reach && s'.owner[id] == s.owner[id] && s.reach[id] <= s'.reach[id])
    && (forall key {:trigger Marker(key)} :: Marker(key) in s.node.disk.durable ==>
          Marker(key) in s'.node.disk.durable || s.next <= ClearedAt(s', key))
    && (forall key :: ClearedAt(s, key) <= ClearedAt(s', key))
  }

  lemma MsgFrame(w: World, s: Sys, s': Sys, m: Msg)
    requires HistoryOk(w, s) && HistoryOk(w, s') && Grows(s, s') && MsgOk(w, s, m)
    ensures MsgOk(w, s', m)
  {
  }

  lemma StreamFrame(w: World, s: Sys, s': Sys, id: nat, x: Stream)
    requires HistoryOk(w, s) && HistoryOk(w, s') && Grows(s, s') && StreamOk(w, s, id, x) && s'.reach[id] == s.reach[id]
    ensures StreamOk(w, s', id, x)
  {
  }

  lemma StagingFrame(w: World, s: Sys, s': Sys, key: ShardKey, st: Staging)
    requires HistoryOk(w, s) && HistoryOk(w, s') && Grows(s, s') && StagingOk(w, s, key, st)
    requires s'.node.disk.Read(Shard(key)) == s.node.disk.Read(Shard(key))
    requires Marker(key) !in s'.node.disk.durable
    ensures StagingOk(w, s', key, st)
  {
  }

  // The invariant, one part at a time.

  lemma Base(w: World, s: Sys)
    requires Inv(w, s)
    ensures HistoryOk(w, s) && DiskOk(w, s.node.disk)
  {
  }

  lemma MsgOf(w: World, s: Sys, m: Msg)
    requires Inv(w, s) && m in s.net
    ensures MsgOk(w, s, m)
  {
  }

  lemma StreamOf(w: World, s: Sys, id: nat)
    requires Inv(w, s) && id in s.streams
    ensures StreamOk(w, s, id, s.streams[id])
  {
  }

  lemma StagingOf(w: World, s: Sys, key: ShardKey)
    requires Inv(w, s) && key in s.node.staging
    ensures StagingOk(w, s, key, s.node.staging[key])
  {
  }

  /** Every live stream's bookkeeping is in place. */
  lemma StreamsOwned(w: World, s: Sys)
    requires Inv(w, s)
    ensures forall id :: id in s.streams ==> id in s.reach
  {
    forall id | id in s.streams
      ensures id in s.reach
    {
      assert StreamOk(w, s, id, s.streams[id]);
    }
  }

  /** One step keeps the invariant once everything it added or changed has been looked at. */
  lemma InvStep(w: World, s: Sys, s': Sys)
    requires Inv(w, s) && HistoryOk(w, s') && Grows(s, s') && DiskOk(w, s'.node.disk)
    requires forall m :: m in s'.net && m !in s.net ==> MsgOk(w, s', m)
    requires forall id :: id in s'.streams ==>
               || (id in s.streams && s.streams[id] == s'.streams[id] && id in s'.reach && id in s.reach &&
                   s'.reach[id] == s.reach[id])
               || StreamOk(w, s', id, s'.streams[id])
    requires forall key :: key in s'.node.staging ==> StagingOk(w, s', key, s'.node.staging[key])
    ensures Inv(w, s')
  {
    hide MsgOk, StreamOk, StagingOk, DiskOk, HistoryOk, Grows;
    forall m | m in s'.net
      ensures MsgOk(w, s', m)
    {
      if m in s.net {
        MsgFrame(w, s, s', m);
      }
    }
    forall id | id in s'.streams
      ensures StreamOk(w, s', id, s'.streams[id])
    {
      if !StreamOk(w, s', id, s'.streams[id]) {
        StreamFrame(w, s, s', id, s.streams[id]);
      }
    }
  }

  // ---- sender events ----

  /** The messages a pump puts out carry the key's content and nothing the stream was not given. */
  lemma PumpOk(w: World, s: Sys, id: nat, x: Stream, m: Msg)
    requires HistoryOk(w, s) && Owned(s, x.key, id) && x.stream == id && x.base <= x.sent <= x.End()
    requires x.End() == s.reach[id] && x.buf == w.content(x.key)[x.base..x.End()]
    requires x.committing ==> x.length == |w.content(x.key)| && x.checksum == w.sha(w.content(x.key))
    requires m in Pump(x).1
    ensures MsgOk(w, s, m)
  {
    if m in Chunks(x, x.sent) {
      ChunksCarryBuffer(x, x.sent, m);
    }
  }

  /** A stream holding its key's content from its base on, about to transmit. */
  ghost predicate Loaded(w: World, s: Sys, id: nat, y: Stream) {
    && Owned(s, y.key, id) && y.stream == id && y.outcome.Running? && y.base <= y.sent <= y.End()
    && y.End() == s.reach[id] <= |w.content(y.key)| && y.buf == w.content(y.key)[y.base..y.End()] &&
      |y.buf| <= WindowBytes
    && (y.committing ==> y.length == |w.content(y.key)| == y.End() && y.checksum == w.sha(w.content(y.key)))
  }

  /** Any event that ends in a pump. `s` already carries the event's bookkeeping. */
  lemma SenderStepOk(w: World, was: Sys, s: Sys, id: nat, y: Stream)
    requires Inv(w, was) && id in was.streams && s == was.(reach := s.reach) && HistoryOk(w, s) && Grows(was, s)
    requires forall i :: i in was.reach && i != id ==> i in s.reach && s.reach[i] == was.reach[i]
    requires Loaded(w, s, id, y)
    ensures Inv(w, Sent(s, id, Pump(y)))
  {
    hide Inv, Pump;
    var s' := Sent(s, id, Pump(y));
    Base(w, was);
    StreamsOwned(w, was);
    assert Grows(was, s');
    assert StreamOk(w, s', id, s'.streams[id]) by {
      PumpShape(y);
    }
    hide Grows, DiskOk, HistoryOk, Loaded, StreamOk;
    SentMsgsOk(w, was, s, id, y);
    forall key | key in s'.node.staging
      ensures StagingOk(w, s', key, s'.node.staging[key])
    {
      StagingOf(w, was, key);
      StagingFrame(w, was, s', key, was.node.staging[key]);
    }
    hide MsgOk, StagingOk;
    InvStep(w, was, s');
  }

  lemma PumpShape(y: Stream)
    ensures Pump(y).0 == y.(sent := y.End())
  {
  }

  lemma SentMsgsOk(w: World, was: Sys, s: Sys, id: nat, y: Stream)
    requires s.net == was.net && HistoryOk(w, s) && Loaded(w, s, id, y)
    ensures forall m :: m in Sent(s, id, Pump(y)).net && m !in was.net ==> MsgOk(w, Sent(s, id, Pump(y)), m)
  {
    var s' := Sent(s, id, Pump(y));
    forall m | m in s'.net && m !in was.net
      ensures MsgOk(w, s', m)
    {
      PumpOk(w, s', id, y, m);
    }
  }

  lemma PushOk(w: World, s: Sys, id: nat, p: bytes)
    requires Inv(w, s) && Enabled(w, s, PushBytes(id, p))
    ensures Inv(w, Next(w, s, PushBytes(id, p)))
  {
    hide Inv, DiskOk, Pump;
    var x := s.streams[id];
    StreamOf(w, s, id);
    Base(w, s);
    var y := x.(buf := x.buf + p);
    var t := s.(reach := s.reach[id := y.End()]);
    assert y.buf == w.content(x.key)[x.base..y.End()];
    assert HistoryOk(w, t) && Grows(s, t);
    SenderStepOk(w, s, t, id, y);
  }

  /** An event that only ends the stream or does nothing. */
  lemma QuietStepOk(w: World, s: Sys, id: nat, y: Stream)
    requires Inv(w, s) && id in s.streams && StreamOk(w, s, id, y)
    ensures Inv(w, Sent(s, id, (y, [])))
  {
    hide Inv;
    var s' := Sent(s, id, (y, []));
    assert s'.net == s.net;
    Base(w, s);
    StreamsOwned(w, s);
    assert Grows(s, s') && StreamOk(w, s', id, y);
    hide MsgOk, DiskOk, HistoryOk, Grows, StreamOk;
    SameStagingOk(w, s, s');
    hide StagingOk;
    InvStep(w, s, s');
  }

  lemma SameStagingOk(w: World, s: Sys, s': Sys)
    requires Inv(w, s) && HistoryOk(w, s') && Grows(s, s') && s'.node == s.node
    ensures forall key :: key in s'.node.staging ==> StagingOk(w, s', key, s'.node.staging[key])
  {
    hide Inv, Grows, HistoryOk;
    Base(w, s);
    forall key | key in s'.node.staging
      ensures StagingOk(w, s', key, s'.node.staging[key])
    {
      StagingOf(w, s, key);
      StagingFrame(w, s, s', key, s.node.staging[key]);
    }
  }

  lemma AckOk(w: World, s: Sys, id: nat, m: Msg)
    requires Inv(w, s) && Enabled(w, s, AckArrives(id, m))
    ensures Inv(w, Next(w, s, AckArrives(id, m)))
  {
    hide Inv, Pump, Grows, HistoryOk, DiskOk;
    var x := s.streams[id];
    StreamOf(w, s, id);
    MsgOf(w, s, m);
    if !x.Finished() && m.stream == id && !m.failed && !m.committed && x.base < m.staged {
      assert m.staged <= x.End();
      var y := x.(buf := x.buf[m.staged - x.base..], base := m.staged, attempts := 0);
      SameSystem(w, s);
      SenderStepOk(w, s, s, id, y);
    } else {
      QuietStepOk(w, s, id, HandleAck(x, m).0);
    }
  }

  lemma SameSystem(w: World, s: Sys)
    requires Inv(w, s)
    ensures HistoryOk(w, s) && Grows(s, s)
  {
  }

  lemma TimerOk(w: World, s: Sys, id: nat)
    requires Inv(w, s) && Enabled(w, s, TimerFires(id))
    ensures Inv(w, Next(w, s, TimerFires(id)))
  {
    hide Inv, Pump, Grows, HistoryOk, DiskOk;
    var x := s.streams[id];
    StreamOf(w, s, id);
    if x.Finished() || (x.buf == [] && !x.committing) || x.attempts + 1 >= MaxAttempts {
      QuietStepOk(w, s, id, OnTimer(x).0);
    } else {
      SameSystem(w, s);
      SenderStepOk(w, s, s, id, x.(attempts := x.attempts + 1, sent := x.base));
    }
  }

  lemma DeclareOk(w: World, s: Sys, id: nat)
    requires Inv(w, s) && Enabled(w, s, Declare(id))
    ensures Inv(w, Next(w, s, Declare(id)))
  {
    hide Inv, Pump, Grows, HistoryOk, DiskOk;
    var x := s.streams[id];
    StreamOf(w, s, id);
    SameSystem(w, s);
    SenderStepOk(w, s, s, id, x.(committing := true, length := x.End(), checksum := w.sha(w.content(x.key))));
  }

  lemma NewWriteOk(w: World, s: Sys, key: ShardKey)
    requires Inv(w, s) && Enabled(w, s, NewWrite(key))
    ensures Inv(w, Next(w, s, NewWrite(key)))
  {
    hide Inv;
    var s' := Next(w, s, NewWrite(key));
    var id := s.next + 1;
    Base(w, s);
    StreamsOwned(w, s);
    assert id !in s.owner;
    assert w.content(key)[0..0] == [];
    assert HistoryOk(w, s') && Grows(s, s') && StreamOk(w, s', id, s'.streams[id]);
    hide MsgOk, DiskOk, HistoryOk, Grows, StreamOk;
    SameStagingOk(w, s, s');
    hide StagingOk;
    InvStep(w, s, s');
  }

  lemma RestartOk(w: World, s: Sys)
    requires Inv(w, s)
    ensures Inv(w, Next(w, s, RestartSender))
  {
    hide Inv;
    var s' := Next(w, s, RestartSender);
    Base(w, s);
    assert HistoryOk(w, s') && Grows(s, s');
    hide MsgOk, StreamOk, DiskOk, HistoryOk, Grows;
    SameStagingOk(w, s, s');
    hide StagingOk;
    InvStep(w, s, s');
  }

  lemma AbortOk(w: World, s: Sys, id: nat)
    requires Inv(w, s) && Enabled(w, s, AbortStream(id))
    ensures Inv(w, Next(w, s, AbortStream(id)))
  {
    hide Inv;
    StreamOf(w, s, id);
    QuietStepOk(w, s, id, Abort(s.streams[id]));
  }

  // ---- receiver events ----

  /** The two disks agree about every key but one. */
  ghost predicate Elsewhere(d: Disk, d': Disk, key: ShardKey) {
    && (forall other {:trigger Shard(other)} :: other != key ==> d'.Read(Shard(other)) == d.Read(Shard(other)))
    && (forall other {:trigger Marker(other)} :: other != key ==>
        (Marker(other) in d'.durable <==> Marker(other) in d.durable))
  }

  /** Touching only a shard file whose marker is absent. */
  lemma ShardTouched(w: World, d: Disk, d': Disk, key: ShardKey)
    requires DiskOk(w, d) && Marker(key) !in d.durable && d.SameBut(d', Shard(key))
    ensures DiskOk(w, d') && Elsewhere(d, d', key) && Marker(key) !in d'.durable
  {
  }

  lemma SealedOk(w: World, d: Disk, key: ShardKey)
    requires DiskOk(w, d) && d.Read(Shard(key)) == Some(w.content(key))
    ensures DiskOk(w, Sealed(d, key)) && Elsewhere(d, Sealed(d, key), key) && Marker(key) in Sealed(d, key).durable
  {
  }

  /** A receiver step on one key. */
  lemma ReceiverStepOk(w: World, s: Sys, s': Sys, key: ShardKey)
    requires Inv(w, s) && s' == s.(node := s'.node, net := s'.net) && DiskOk(w, s'.node.disk)
    requires Elsewhere(s.node.disk, s'.node.disk, key)
    requires Marker(key) in s.node.disk.durable ==> Marker(key) in s'.node.disk.durable
    requires forall other :: other in s'.node.staging && other != key ==>
               other in s.node.staging && s'.node.staging[other] == s.node.staging[other]
    requires key in s'.node.staging ==> StagingOk(w, s', key, s'.node.staging[key])
    requires forall m :: m in s'.net && m !in s.net ==> MsgOk(w, s', m)
    ensures Inv(w, s')
  {
    hide Inv;
    Base(w, s);
    StreamsOwned(w, s);
    assert HistoryOk(w, s') && Grows(s, s');
    hide MsgOk, DiskOk, HistoryOk, Grows, StreamOk;
    forall other | other in s'.node.staging
      ensures StagingOk(w, s', other, s'.node.staging[other])
    {
      if other != key {
        StagingOf(w, s, other);
        StagingFrame(w, s, s', other, s.node.staging[other]);
      }
    }
    hide StagingOk, Elsewhere;
    InvStep(w, s, s');
  }

  /** Content joined to the staged prefix at its own offset extends the prefix. */
  lemma PrefixExtends(content: bytes, prefix: bytes, data: bytes)
    requires |prefix| + |data| <= |content| && prefix == content[..|prefix|]
    requires data == content[|prefix|..|prefix| + |data|]
    ensures prefix + data == content[..|prefix| + |data|]
  {
  }

  /** The receiver answered without changing anything. */
  lemma AnswerOk(w: World, s: Sys, ms: seq<Msg>, key: ShardKey)
    requires Inv(w, s) && forall m :: m in ms ==> MsgOk(w, s, m)
    ensures Inv(w, Replied(s, (s.node, ms)))
  {
    hide Inv;
    var s' := Replied(s, (s.node, ms));
    Base(w, s);
    forall m | m in s'.net && m !in s.net
      ensures MsgOk(w, s', m)
    {
      assert MsgOk(w, s, m);
    }
    assert HistoryOk(w, s') && Grows(s, s');
    SameStagingOk(w, s, s');
    hide MsgOk, StreamOk, DiskOk, StagingOk, HistoryOk, Grows;
    ReceiverStepOk(w, s, s', key);
  }

  /** A chunk at the staged offset of the live stream. */
  lemma AppendOk(w: World, s: Sys, m: Msg)
    requires Inv(w, s) && m in s.net && m.Chunk? && m.key in s.node.staging
    requires s.node.staging[m.key].stream == m.stream && m.offset == s.node.staging[m.key].staged
    ensures Inv(w, Replied(s, HandleChunk(s.node, m, None)))
  {
    hide Inv;
    var s' := Replied(s, HandleChunk(s.node, m, None));
    var st := s.node.staging[m.key];
    Base(w, s);
    MsgOf(w, s, m);
    StagingOf(w, s, m.key);
    PrefixExtends(w.content(m.key), st.hashed, m.data);
    ShardTouched(w, s.node.disk, s'.node.disk, m.key);
    assert StagingOk(w, s', m.key, s'.node.staging[m.key]);
    hide MsgOk, StagingOk, DiskOk, StreamOk, Elsewhere;
    ReplyOk(w, s, s', StagedAck(m.key, s'.node.staging[m.key]));
    ReceiverStepOk(w, s, s', m.key);
  }

  lemma ReplyOk(w: World, s: Sys, s': Sys, a: Msg)
    requires s'.net <= s.net + {a} && a.Ack? && Owned(s', a.key, a.stream) && a.staged <= s'.reach[a.stream]
    requires a.committed ==> Marker(a.key) in s'.node.disk.durable
    ensures forall m :: m in s'.net && m !in s.net ==> MsgOk(w, s', m)
  {
  }

  /** The first chunk of a new incarnation. */
  lemma TakeoverOk(w: World, s: Sys, m: Msg)
    requires Inv(w, s) && m in s.net && m.Chunk? && m.offset == 0
    requires if m.key in s.node.staging then m.stream > s.node.staging[m.key].stream else !Committed(s.node.disk, m.key)
    ensures Inv(w, Replied(s, HandleChunk(s.node, m, None)))
  {
    hide Inv;
    var s' := Replied(s, HandleChunk(s.node, m, None));
    Base(w, s);
    MsgOf(w, s, m);
    if m.key in s.node.staging {
      StagingOf(w, s, m.key);
    }
    assert Marker(m.key) !in s.node.disk.staged;
    ShardTouched(w, s.node.disk, s'.node.disk, m.key);
    assert StagingOk(w, s', m.key, s'.node.staging[m.key]);
    hide MsgOk, StagingOk, DiskOk, StreamOk, Elsewhere;
    ReplyOk(w, s, s', StagedAck(m.key, s'.node.staging[m.key]));
    ReceiverStepOk(w, s, s', m.key);
  }

  /** A transfer abandoned after a failed write of the shard file. */
  lemma AbandonOk(w: World, s: Sys, key: ShardKey, stream: nat, after: Disk)
    requires Inv(w, s) && s.node.disk.SameBut(after, Shard(key)) && Marker(key) !in s.node.disk.durable &&
      Owned(s, key, stream)
    ensures Inv(w, Replied(s, (Node(s.node.staging - {key}, after), [FailedAck(key, stream)])))
  {
    hide Inv;
    var s' := Replied(s, (Node(s.node.staging - {key}, after), [FailedAck(key, stream)]));
    Base(w, s);
    ShardTouched(w, s.node.disk, after, key);
    hide MsgOk, StagingOk, DiskOk, StreamOk, Elsewhere;
    ReplyOk(w, s, s', FailedAck(key, stream));
    ReceiverStepOk(w, s, s', key);
  }

  lemma ChunkOk(w: World, s: Sys, m: Msg, fault: Fault)
    requires Inv(w, s) && Enabled(w, s, ChunkArrives(m, fault))
    ensures Inv(w, Next(w, s, ChunkArrives(m, fault)))
  {
    hide Inv;
    var n, key := s.node, m.key;
    Base(w, s);
    MsgOf(w, s, m);
    if key in n.staging {
      StagingOf(w, s, key);
    }
    assert Marker(key) !in n.disk.staged && (Marker(key) in n.disk.durable <==> Committed(n.disk, key));
    hide DiskOk, HistoryOk;
    if key in n.staging && n.staging[key].stream == m.stream {
      if m.offset != n.staging[key].staged {
        AnswerOk(w, s, [StagedAck(key, n.staging[key])], key);
      } else if fault.Some? {
        AbandonOk(w, s, key, m.stream, fault.value);
      } else {
        AppendOk(w, s, m);
      }
    } else if key !in n.staging && Committed(n.disk, key) {
      AnswerOk(w, s, [CommittedAck(key, m.stream)], key);
    } else if m.offset == 0 && (key !in n.staging || m.stream > n.staging[key].stream) {
      if fault.Some? {
        assert n.staging - {key} == n.staging;
        AbandonOk(w, s, key, m.stream, fault.value);
      } else {
        TakeoverOk(w, s, m);
      }
    } else {
      AnswerOk(w, s, [], key);
    }
  }

  lemma SealOk(w: World, s: Sys, m: Msg)
    requires Inv(w, s) && m in s.net && Seals(w, s.node, m)
    ensures Inv(w, Replied(s, HandleCommit(s.node, m, w.sha, NoFault)))
  {
    hide Inv;
    var s' := Replied(s, HandleCommit(s.node, m, w.sha, NoFault));
    var st := s.node.staging[m.key];
    Base(w, s);
    MsgOf(w, s, m);
    StagingOf(w, s, m.key);
    assert st.hashed == w.content(m.key);
    SealedOk(w, s.node.disk, m.key);
    hide MsgOk, StagingOk, DiskOk, StreamOk, Elsewhere, Sealed;
    ReplyOk(w, s, s', CommittedAck(m.key, m.stream));
    ReceiverStepOk(w, s, s', m.key);
  }

  lemma CommitOk(w: World, s: Sys, m: Msg, failure: CommitFault)
    requires Sane(w) && Inv(w, s) && Enabled(w, s, CommitArrives(m, failure))
    ensures Inv(w, Next(w, s, CommitArrives(m, failure)))
  {
    hide Inv;
    var n, key := s.node, m.key;
    Base(w, s);
    MsgOf(w, s, m);
    assert w.content(key) != [];
    if key in n.staging {
      StagingOf(w, s, key);
    }
    assert Marker(key) !in n.disk.staged && (Marker(key) in n.disk.durable <==> Committed(n.disk, key));
    hide DiskOk, HistoryOk;
    if key !in n.staging {
      AnswerOk(w, s, if Committed(n.disk, key) then [CommittedAck(key, m.stream)] else [], key);
    } else if m.stream != n.staging[key].stream {
      AnswerOk(w, s, [], key);
    } else if n.staging[key].staged != m.length {
      AnswerOk(w, s, [StagedAck(key, n.staging[key])], key);
    } else {
      assert n.staging[key].hashed == w.content(key);
      if failure.ShardSync? {
        AbandonOk(w, s, key, m.stream, failure.after);
      } else {
        SealOk(w, s, m);
      }
    }
  }

  /** What must hold of a disk for any crash of it to be harmless. */
  ghost predicate CrashSafe(w: World, d: Disk) {
    forall key {:trigger Marker(key)} :: Marker(key) in d.durable || Marker(key) in d.staged ==>
      Shard(key) in d.durable && d.durable[Shard(key)] == w.content(key) && Shard(key) !in d.staged
  }

  /** A crash keeps every synced marker and shard. */
  lemma CrashKeeps(w: World, d: Disk, after: Disk)
    requires Crash(d, after) && CrashSafe(w, d)
    ensures DiskOk(w, after)
    ensures forall key {:trigger Marker(key)} :: Marker(key) in d.durable && Marker(key) !in d.staged ==>
      Marker(key) in after.durable
  {
    forall key {:trigger Marker(key)}
      ensures Marker(key) in after.durable ==> Durable(w, after, key)
      ensures Marker(key) in d.durable && Marker(key) !in d.staged ==> Marker(key) in after.durable
    {
      assert Survives(d, Marker(key), after.Read(Marker(key)));
      assert Survives(d, Shard(key), after.Read(Shard(key)));
    }
  }

  /** The receiver comes back with an empty staging map and the disk the crash left. */
  lemma RebootOk(w: World, s: Sys, s': Sys)
    requires Inv(w, s) && s' == s.(node := s'.node, cleared := s'.cleared) && HistoryOk(w, s') &&
      s'.node.staging == map[] && DiskOk(w, s'.node.disk)
    requires Grows(s, s')
    ensures Inv(w, s')
  {
    hide Inv;
    Base(w, s);
    StreamsOwned(w, s);
    hide MsgOk, StagingOk, DiskOk, Grows, StreamOk, HistoryOk;
    InvStep(w, s, s');
  }

  lemma CrashOk(w: World, s: Sys, after: Disk)
    requires Inv(w, s) && Enabled(w, s, CrashReceiver(after))
    ensures Inv(w, Next(w, s, CrashReceiver(after)))
  {
    hide Inv;
    Base(w, s);
    CrashKeeps(w, s.node.disk, after);
    RebootOk(w, s, Next(w, s, CrashReceiver(after)));
  }

  lemma CommitDiskSafe(w: World, d: Disk, key: ShardKey, steps: nat)
    requires DiskOk(w, d) && d.Read(Shard(key)) == Some(w.content(key)) && Marker(key) !in d.durable
    ensures CrashSafe(w, CommitDisk(d, key, steps))
    ensures forall other {:trigger Marker(other)} :: Marker(other) in d.durable ==>
              Marker(other) in CommitDisk(d, key, steps).durable && Marker(other) !in CommitDisk(d, key, steps).staged
  {
  }

  lemma CrashInCommitOk(w: World, s: Sys, m: Msg, steps: nat, after: Disk)
    requires Inv(w, s) && Enabled(w, s, CrashInCommit(m, steps, after))
    ensures Inv(w, Next(w, s, CrashInCommit(m, steps, after)))
  {
    hide Inv;
    Base(w, s);
    MsgOf(w, s, m);
    StagingOf(w, s, m.key);
    assert s.node.staging[m.key].hashed == w.content(m.key);
    hide CommitDisk, DiskOk;
    CommitDiskSafe(w, s.node.disk, m.key, steps);
    CrashKeeps(w, CommitDisk(s.node.disk, m.key, steps), after);
    RebootOk(w, s, Next(w, s, CrashInCommit(m, steps, after)));
  }

  lemma MarkerErased(w: World, d: Disk, key: ShardKey)
    requires DiskOk(w, d)
    ensures DiskOk(w, Erased(d, Marker(key))) && Elsewhere(d, Erased(d, Marker(key)), key)
    ensures Marker(key) !in Erased(d, Marker(key)).durable
    ensures forall other {:trigger Marker(other)} :: other != key && Marker(other) in d.durable ==>
      Marker(other) in Erased(d, Marker(key)).durable
  {
  }

  lemma DeleteDiskSafe(w: World, d: Disk, key: ShardKey, steps: nat)
    requires DiskOk(w, d)
    ensures CrashSafe(w, DeleteDisk(d, key, steps))
    ensures forall other {:trigger Marker(other)} :: other != key && Marker(other) in d.durable ==>
              Marker(other) in DeleteDisk(d, key, steps).durable && Marker(other) !in DeleteDisk(d, key, steps).staged
  {
    var d1 := Erased(d, Marker(key));
    MarkerErased(w, d, key);
    if steps == 0 {
      assert DeleteDisk(d, key, steps) == d.Remove(Marker(key));
    } else if steps == 1 {
      assert DeleteDisk(d, key, steps) == d1;
    } else {
      hide Erased;
      assert DeleteDisk(d, key, steps) == if steps == 2 then d1.Remove(Shard(key)) else Erased(d1, Shard(key));
      ErasedShardSafe(w, d1, key);
    }
  }

  lemma ErasedShardSafe(w: World, d: Disk, key: ShardKey)
    requires DiskOk(w, d) && Marker(key) !in d.durable
    ensures CrashSafe(w, d.Remove(Shard(key))) && CrashSafe(w, Erased(d, Shard(key)))
    ensures forall other {:trigger Marker(other)} :: Marker(other) in d.durable ==>
              && Marker(other) in d.Remove(Shard(key)).durable && Marker(other) !in d.Remove(Shard(key)).staged
              && Marker(other) in Erased(d, Shard(key)).durable && Marker(other) !in Erased(d, Shard(key)).staged
  {
  }

  /** What a delete leaves, whether or not the disk fails in it. */
  lemma DeletedDiskOk(w: World, n: Node, key: ShardKey, failing: DeleteFault)
    requires DiskOk(w, n.disk) && DeleteFails(n.disk, key, failing)
    requires failing.MarkerFails? ==> MarkerSettled(n.disk, failing.after, key)
    ensures var d := HandleDelete(n, key, failing).0.disk; DiskOk(w, d) && Elsewhere(n.disk, d, key)
  {
    MarkerErased(w, n.disk, key);
    match failing
    case Clean => ErasedShardOk(w, Erased(n.disk, Marker(key)), key);
    case MarkerFails(after) =>
    case ShardFails(after) => ShardTouched(w, Erased(n.disk, Marker(key)), after, key);
  }

  lemma ErasedShardOk(w: World, d: Disk, key: ShardKey)
    requires DiskOk(w, d) && Marker(key) !in d.durable
    ensures DiskOk(w, Erased(d, Shard(key))) && Elsewhere(d, Erased(d, Shard(key)), key)
  {
  }

  lemma DeleteOk(w: World, s: Sys, key: ShardKey, failing: DeleteFault)
    requires Inv(w, s) && Enabled(w, s, Delete(key, failing))
    ensures Inv(w, Next(w, s, Delete(key, failing)))
  {
    hide Inv;
    var s' := Next(w, s, Delete(key, failing));
    Base(w, s);
    StreamsOwned(w, s);
    DeletedDiskOk(w, s.node, key, failing);
    assert s'.node.staging == s.node.staging;
    hide HandleDelete, DiskOk;
    assert HistoryOk(w, s') && Grows(s, s');
    hide HistoryOk, Grows;
    forall other | other in s'.node.staging
      ensures StagingOk(w, s', other, s'.node.staging[other])
    {
      StagingOf(w, s, other);
      StagingFrame(w, s, s', other, s.node.staging[other]);
    }
    hide StreamOk, StagingOk, Elsewhere;
    InvStep(w, s, s');
  }

  lemma CrashInDeleteOk(w: World, s: Sys, key: ShardKey, steps: nat, after: Disk)
    requires Inv(w, s) && Enabled(w, s, CrashInDelete(key, steps, after))
    ensures Inv(w, Next(w, s, CrashInDelete(key, steps, after)))
  {
    hide Inv;
    Base(w, s);
    hide DeleteDisk, DiskOk;
    DeleteDiskSafe(w, s.node.disk, key, steps);
    CrashKeeps(w, DeleteDisk(s.node.disk, key, steps), after);
    RebootOk(w, s, Next(w, s, CrashInDelete(key, steps, after)));
  }

  // ---- whole runs ----

  lemma StepOk(w: World, s: Sys, e: Event)
    requires Sane(w) && Inv(w, s) && Enabled(w, s, e)
    ensures Inv(w, Next(w, s, e))
  {
    hide Inv, Next, Sane;
    match e
    case ChunkArrives(m, fault) => ChunkOk(w, s, m, fault);
    case CommitArrives(m, failure) => CommitOk(w, s, m, failure);
    case CrashReceiver(after) => CrashOk(w, s, after);
    case CrashInCommit(m, steps, after) => CrashInCommitOk(w, s, m, steps, after);
    case Delete(key, failing) => DeleteOk(w, s, key, failing);
    case CrashInDelete(key, steps, after) => CrashInDeleteOk(w, s, key, steps, after);
    case NewWrite(key) => NewWriteOk(w, s, key);
    case PushBytes(id, p) => PushOk(w, s, id, p);
    case Declare(id) => DeclareOk(w, s, id);
    case TimerFires(id) => TimerOk(w, s, id);
    case AbortStream(id) => AbortOk(w, s, id);
    case AckArrives(id, m) => AckOk(w, s, id, m);
    case RestartSender => RestartOk(w, s);
  }

  /** `trace` is a run: it starts empty and each state follows from the one before by one event. */
  ghost predicate IsRun(w: World, trace: seq<Sys>, events: seq<Event>) {
    && |trace| == |events| + 1 && trace[0] == Start
    && forall i :: 0 <= i < |events| ==> Follows(w, trace[i], events[i], trace[i + 1])
  }

  ghost predicate Follows(w: World, s: Sys, e: Event, s': Sys) {
    Enabled(w, s, e) && s' == Next(w, s, e)
  }

  lemma {:induction false} RunInv(w: World, trace: seq<Sys>, events: seq<Event>, n: nat)
    requires Sane(w) && IsRun(w, trace, events) && n < |trace|
    ensures Inv(w, trace[n])
  {
    if n > 0 {
      RunInv(w, trace, events, n - 1);
      assert Follows(w, trace[n - 1], events[n - 1], trace[n]);
      StepOk(w, trace[n - 1], events[n - 1]);
    }
  }

  /** Durability: in every state of every run, a stream that reported success and was opened
      after its key was last deleted has its marker and its whole content durable. */
  lemma SuccessIsDurable(w: World, trace: seq<Sys>, events: seq<Event>, n: nat, id: nat)
    requires Sane(w) && IsRun(w, trace, events) && n < |trace|
    requires id in trace[n].streams && trace[n].streams[id].outcome.Succeeded?
    requires id > ClearedAt(trace[n], trace[n].streams[id].key)
    ensures Durable(w, trace[n].node.disk, trace[n].streams[id].key)
  {
    RunInv(w, trace, events, n);
    assert StreamOk(w, trace[n], id, trace[n].streams[id]);
  }

  /** No acknowledgement ever exceeds what its stream was given, so the protocol-violation
      branch of the sender is never taken. */
  lemma NeverAcknowledgesMoreThanSent(w: World, trace: seq<Sys>, events: seq<Event>, n: nat, id: nat, m: Msg)
    requires Sane(w) && IsRun(w, trace, events) && n < |trace|
    requires id in trace[n].streams && m in trace[n].net && m.Ack? && m.stream == id && !trace[n].streams[id].Finished()
    ensures m.staged <= trace[n].streams[id].End()
  {
    RunInv(w, trace, events, n);
    assert StreamOk(w, trace[n], id, trace[n].streams[id]) && MsgOk(w, trace[n], m);
  }

  /** The sender's memory bound: what a live stream holds is exactly the unacknowledged part
      of what it was given, all transmitted, and never more than the window. */
  lemma BufferIsUnacknowledgedSuffix(w: World, trace: seq<Sys>, events: seq<Event>, n: nat, id: nat)
    requires Sane(w) && IsRun(w, trace, events) && n < |trace|
    requires id in trace[n].streams && !trace[n].streams[id].Finished()
    ensures var x := trace[n].streams[id];
      && id in trace[n].reach && x.base <= trace[n].reach[id] <= |w.content(x.key)|
      && x.buf == w.content(x.key)[x.base..trace[n].reach[id]] && x.sent == trace[n].reach[id] && |x.buf| <= 1024 * 1024
  {
    RunInv(w, trace, events, n);
    assert StreamOk(w, trace[n], id, trace[n].streams[id]);
  }

  /** Scrub believes only the truth: a shard reported committed is the whole content. */
  lemma VerifyReportsContent(w: World, trace: seq<Sys>, events: seq<Event>, n: nat, key: ShardKey)
    requires Sane(w) && IsRun(w, trace, events) && n < |trace|
    ensures var v := HandleVerify(trace[n].node, key, w.sha);
      v.Some? <==> Durable(w, trace[n].node.disk, key)
    ensures HandleVerify(trace[n].node, key, w.sha).Some? ==>
      HandleVerify(trace[n].node, key, w.sha).value == w.sha(w.content(key))
  {
    RunInv(w, trace, events, n);
    assert Marker(key) !in trace[n].node.disk.staged;
  }
}
