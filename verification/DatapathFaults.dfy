/** The hypotheses of a durable run are needed: what each one, dropped, lets happen. Every
    statement is about any state in which a commit is about to be sealed. */
module DatapathFaults {
  import opened Bytes
  import opened DatapathDisk
  import opened DatapathSender
  import opened DatapathReceiver
  import opened DatapathRun

  /** What holds in every state of a run, and a commit in flight would be sealed. */
  ghost predicate AboutToSeal(w: World, s: Sys, m: Msg) {
    Inv(w, s) && m in s.net && Seals(w, s.node, m)
  }

  /** The stream hears a committed acknowledgement and reports success. */
  predicate ReportsSuccess(s: Sys, id: nat, m: Msg) {
    id in s.streams && m.Ack? && HandleAck(s.streams[id], m).0.outcome.Succeeded?
  }

  /** The marker cannot be written or synced: the failure path removes the shard and leaves the
      marker as the failure did. The very same commit, arriving again, is acknowledged as committed
      exactly when some marker was left to read, and its sender then reports success with no shard
      on the disk at all. */
  lemma MarkerFaultExactly(w: World, s: Sys, m: Msg, after: Disk)
    requires AboutToSeal(w, s, m) && s.node.disk.Sync(Shard(m.key)).SameBut(after, Marker(m.key))
    ensures var n' := HandleCommit(s.node, m, w.sha, MarkerStep(after)).0;
      && n'.disk.Read(Shard(m.key)).None? && !Durable(w, n'.disk, m.key)
      && HandleCommit(n', m, w.sha, NoFault) ==
         (n', if after.Read(Marker(m.key)).Some? then [CommittedAck(m.key, m.stream)] else [])
      && (m.stream in s.streams && !s.streams[m.stream].Finished() ==>
          ReportsSuccess(s, m.stream, CommittedAck(m.key, m.stream)))
  {
    hide Inv;
    Base(w, s);
    StagingOf(w, s, m.key);
    if m.stream in s.streams {
      StreamOf(w, s, m.stream);
    }
  }

  /** A newer incarnation's first write fails while an older stream's staging is complete: the older
      commit is then sealed and acknowledged whatever the failed write left, and what was sealed is
      the content exactly when the write left the file as it was. */
  lemma TakeoverFaultExactly(w: World, s: Sys, m: Msg, newer: Msg, torn: Disk)
    requires AboutToSeal(w, s, m)
    requires newer.Chunk? && newer.key == m.key && newer.offset == 0 && newer.stream > m.stream
    requires s.node.disk.SameBut(torn, Shard(m.key))
    ensures var n' := HandleChunk(s.node, newer, Some(torn)).0;
      && Seals(w, n', m)
      && HandleCommit(n', m, w.sha, NoFault).1 == [CommittedAck(m.key, m.stream)]
      && (Durable(w, HandleCommit(n', m, w.sha, NoFault).0.disk, m.key) <==>
          torn.Read(Shard(m.key)) == Some(w.content(m.key)))
  {
  }

  predicate FirstChunk(m: Msg, key: ShardKey) {
    m.Chunk? && m.key == key && m.offset == 0
  }

  /** Whatever stream comes next, and whatever a crash then leaves: if its first chunk, sent again, is
      answered "committed", the shard is there. */
  ghost predicate AnswersTruly(w: World, n: Node, key: ShardKey) {
    forall m: Msg, crashed: Disk :: FirstChunk(m, key) && Crash(HandleChunk(n, m, None).0.disk, crashed) ==>
      AnswerTrue(w, m, crashed)
  }

  predicate AnswerTrue(w: World, m: Msg, d: Disk)
    requires m.Chunk?
  {
    HandleChunk(Node(map[], d), m, None).1 == [CommittedAck(m.key, m.stream)] ==> Durable(w, d, m.key)
  }

  /** A delete fails on the marker. The node's later answers are true exactly when it did not leave
      a durable marker whose removal is unsynced. */
  lemma DeleteFaultExactly(w: World, s: Sys, key: ShardKey, after: Disk)
    requires Sane(w) && Inv(w, s) && key !in s.node.staging && s.node.disk.SameBut(after, Marker(key))
    requires Marker(key) in after.durable ==> Marker(key) in s.node.disk.durable
    requires Marker(key) in after.staged ==> after.staged[Marker(key)].Removed?
    ensures AnswersTruly(w, HandleDelete(s.node, key, MarkerFails(after)).0, key) <==>
      !(Marker(key) in after.staged && Marker(key) in after.durable)
  {
    hide Inv;
    Base(w, s);
    var n := Node(s.node.staging, after);
    if Marker(key) in after.staged && Marker(key) in after.durable {
      var m := Chunk(key, 0, [], 0);
      var d := after.WriteFile(Shard(key), []);
      var crashed := Disk(after.durable[Shard(key) := []], map[]);
      assert w.content(key) != [];
      forall name
        ensures Survives(d, name, crashed.Read(name))
      {
      }
      assert FirstChunk(m, key) && HandleChunk(n, m, None).0.disk == d && Crash(d, crashed);
      assert !AnswerTrue(w, m, crashed);
    } else {
      forall m: Msg, crashed: Disk
        | FirstChunk(m, key) && Crash(HandleChunk(n, m, None).0.disk, crashed)
        ensures AnswerTrue(w, m, crashed)
      {
        if Committed(crashed, key) {
          MarkerSurvives(w, s.node.disk, n, m, crashed);
        }
      }
    }
  }

  lemma MarkerSurvives(w: World, d: Disk, n: Node, m: Msg, crashed: Disk)
    requires DiskOk(w, d) && d.SameBut(n.disk, Marker(m.key)) && m.key !in n.staging && FirstChunk(m, m.key)
    requires Marker(m.key) in n.disk.durable ==> Marker(m.key) in d.durable && Marker(m.key) !in n.disk.staged
    requires Marker(m.key) in n.disk.staged ==> n.disk.staged[Marker(m.key)].Removed?
    requires Crash(HandleChunk(n, m, None).0.disk, crashed) && Committed(crashed, m.key)
    ensures Durable(w, crashed, m.key)
  {
    var after := HandleChunk(n, m, None).0.disk;
    assert Survives(after, Marker(m.key), crashed.Read(Marker(m.key)));
    assert Survives(after, Shard(m.key), crashed.Read(Shard(m.key)));
  }

  /** What an unsynced removal of the marker leads to: the marker is not seen, so a new stream's
      first chunk overwrites the shard; a crash brings the marker back beside a torn shard; and the
      same chunk, sent again, is answered "committed". */
  lemma DeleteFaultLies(w: World, s: Sys, m: Msg) returns (after: Disk, crashed: Disk)
    requires Sane(w) && Inv(w, s) && m in s.net && m.Chunk? && m.offset == 0 && m.key !in s.node.staging
    requires Marker(m.key) in s.node.disk.durable
    ensures DeleteFails(s.node.disk, m.key, MarkerFails(after))
    ensures var n1 := HandleDelete(s.node, m.key, MarkerFails(after)).0;
      var n2 := HandleChunk(n1, m, None).0;
      && m.key in n2.staging && Crash(n2.disk, crashed) && !Durable(w, crashed, m.key)
      && HandleChunk(Node(map[], crashed), m, None).1 == [CommittedAck(m.key, m.stream)]
    ensures m.stream in s.streams && !s.streams[m.stream].Finished() ==>
      ReportsSuccess(s, m.stream, CommittedAck(m.key, m.stream))
  {
    hide Inv;
    Base(w, s);
    MsgOf(w, s, m);
    if m.stream in s.streams {
      StreamOf(w, s, m.stream);
    }
    after := s.node.disk.Remove(Marker(m.key));
    crashed := Disk(s.node.disk.durable[Shard(m.key) := []], map[]);
    var d := after.WriteFile(Shard(m.key), m.data);
    assert w.content(m.key) != [];
    forall name
      ensures Survives(d, name, crashed.Read(name))
    {
    }
  }

  /** A delete that arrives while the shard is staged removes the file but not the staging:
      the commit then seals a marker beside nothing, and is acknowledged. */
  lemma DeleteWhileStagedLies(w: World, s: Sys, m: Msg)
    requires AboutToSeal(w, s, m)
    ensures var n' := HandleDelete(s.node, m.key, Clean).0;
      && Seals(w, n', m)
      && HandleCommit(n', m, w.sha, NoFault).1 == [CommittedAck(m.key, m.stream)]
      && Marker(m.key) in HandleCommit(n', m, w.sha, NoFault).0.disk.durable
      && !Durable(w, HandleCommit(n', m, w.sha, NoFault).0.disk, m.key)
  {
  }

  /** Such states exist: for every shard of at most one chunk there is a run that ends with
      its commit about to be sealed. */
  lemma SealIsReachable(w: World, key: ShardKey) returns (trace: seq<Sys>, events: seq<Event>, m: Msg)
    requires Sane(w) && |w.content(key)| <= ChunkSize
    ensures IsRun(w, trace, events) && |trace| == 5 && AboutToSeal(w, trace[4], m) && m.key == key
  {
    var body := w.content(key);
    var chunk := Chunk(key, 0, body, 1);
    m := Commit(key, |body|, w.sha(body), 1);
    var s1 := Next(w, Start, NewWrite(key));
    var s2 := Pushed(w, key);
    var s3 := Declared(w, key, s2);
    var s4 := Next(w, s3, ChunkArrives(chunk, None));
    trace := [Start, s1, s2, s3, s4];
    events := [NewWrite(key), PushBytes(1, body), Declare(1), ChunkArrives(chunk, None)];
    assert Follows(w, Start, events[0], s1) && Follows(w, s3, events[3], s4);
    hide Follows;
    FourSteps(w, trace, events);
    RunInv(w, trace, events, 4);
  }

  /** The body pushed into a fresh stream: one chunk on the network. */
  lemma Pushed(w: World, key: ShardKey) returns (s2: Sys)
    requires Sane(w) && |w.content(key)| <= ChunkSize
    ensures var s1 := Next(w, Start, NewWrite(key)); Follows(w, s1, PushBytes(1, w.content(key)), s2)
    ensures s2.net == {Chunk(key, 0, w.content(key), 1)} && s2.node == Start.node
    ensures 1 in s2.streams && Sending(s2.streams[1], w, key)
  {
    var body := w.content(key);
    assert body != [];
    var x1 := NewStream(key, 1);
    var s1 := Next(w, Start, NewWrite(key));
    assert body[0..|body|] == body;
    s2 := Next(w, s1, PushBytes(1, body));
    OneChunk(x1.(buf := body));
    assert x1.buf + body == body;
    assert Write(x1, body).1 == [Chunk(key, 0, body, 1)] + [];
  }

  /** A stream that holds the whole body, all of it sent. */
  predicate Sending(x: Stream, w: World, key: ShardKey) {
    x.key == key && x.stream == 1 && x.base == 0 && x.buf == w.content(key) && x.sent == |x.buf| && !x.Finished() &&
    !x.committing
  }

  /** The commit declared: its message joins the chunk. */
  lemma Declared(w: World, key: ShardKey, s2: Sys) returns (s3: Sys)
    requires 1 in s2.streams && Sending(s2.streams[1], w, key) && s2.net == {Chunk(key, 0, w.content(key), 1)}
    ensures Follows(w, s2, Declare(1), s3)
    ensures s3.net == {Chunk(key, 0, w.content(key), 1), Commit(key, |w.content(key)|, w.sha(w.content(key)), 1)} &&
      s3.node == s2.node
  {
    var body := w.content(key);
    s3 := Next(w, s2, Declare(1));
    var x3 := s2.streams[1].(committing := true, length := |body|, checksum := w.sha(body));
    assert Chunks(x3, x3.sent) == [];
  }

  lemma FourSteps(w: World, t: seq<Sys>, e: seq<Event>)
    requires |t| == 5 && |e| == 4 && t[0] == Start
    requires Follows(w, t[0], e[0], t[1]) && Follows(w, t[1], e[1], t[2]) && Follows(w, t[2], e[2], t[3]) &&
      Follows(w, t[3], e[3], t[4])
    ensures IsRun(w, t, e)
  {
    hide Follows;
    forall i | 0 <= i < 4
      ensures Follows(w, t[i], e[i], t[i + 1])
    {
      if i == 0 {
      } else if i == 1 {
      } else if i == 2 {
      } else {
      }
    }
  }

  lemma OneChunk(y: Stream)
    requires y.base == 0 && y.sent == 0 && 0 < |y.buf| <= ChunkSize
    ensures Chunks(y, 0) == [Chunk(y.key, 0, y.buf, y.stream)]
  {
    assert y.buf[0..|y.buf|] == y.buf;
    assert Chunks(y, |y.buf|) == [];
  }
}
