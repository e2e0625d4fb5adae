/** What an acknowledgement means: the shards a PUT committed outlive any losses down to k of
    them. */
module CoordDurability {
  import opened Bytes
  import opened EcGeometry
  import opened EcStripe
  import opened EcWriter
  import opened EcReader
  import opened EcReconstruct
  import opened EcReencode
  import opened DatapathDisk
  import opened DatapathRun
  import opened PlaceRank
  import opened PlaceSpread
  import CoordPut

  // ---- counting survivors ----

  /** The positions that committed and whose node is not lost. */
  function Left(committed: set<nat>, nodes: seq<bytes>, lost: set<bytes>): (s: set<nat>)
    requires forall i :: i in committed ==> i < |nodes|
  {
    set i | i in committed && nodes[i] !in lost
  }

  /** Nodes are distinct, so each lost node costs at most one position. */
  lemma {:induction false} EachLossCostsOne(committed: set<nat>, nodes: seq<bytes>, lost: set<bytes>)
    requires forall i :: i in committed ==> i < |nodes|
    requires forall i, j :: 0 <= i < j < |nodes| ==> nodes[i] != nodes[j]
    ensures |committed| <= |Left(committed, nodes, lost)| + |lost|
    decreases lost
  {
    if lost == {} {
      assert Left(committed, nodes, lost) == committed;
    } else {
      var x :| x in lost;
      var rest := lost - {x};
      EachLossCostsOne(committed, nodes, rest);
      OneLoss(committed, nodes, rest, x);
      assert rest + {x} == lost;
    }
  }

  lemma OneLoss(committed: set<nat>, nodes: seq<bytes>, lost: set<bytes>, x: bytes)
    requires forall i :: i in committed ==> i < |nodes|
    requires forall i, j :: 0 <= i < j < |nodes| ==> nodes[i] != nodes[j]
    ensures |Left(committed, nodes, lost)| <= |Left(committed, nodes, lost + {x})| + 1
  {
    var before, after := Left(committed, nodes, lost), Left(committed, nodes, lost + {x});
    var gone := before - after;
    assert before == after + gone;
    if gone != {} {
      var i :| i in gone;
      assert gone == {i};
    }
  }

  /** A list with the shards at some positions. */
  predicate Present(shards: seq<Option<bytes>>, at: set<nat>) {
    (forall i :: i in at ==> i < |shards|) && forall i :: 0 <= i < |shards| ==> (shards[i].Some? <==> i in at)
  }

  lemma {:induction false} CountPresent(shards: seq<Option<bytes>>, at: set<nat>)
    requires Present(shards, at)
    ensures Count(shards) == |at|
  {
    if shards == [] {
      assert at == {};
    } else {
      var n := |shards| - 1;
      var rest := at - {n};
      CountPresent(shards[..n], rest);
      CountLast(shards);
      if n in at {
        assert at == rest + {n};
      } else {
        assert at == rest;
      }
    }
  }

  lemma CountLast(shards: seq<Option<bytes>>)
    requires shards != []
    ensures Count(shards) == Count(shards[..|shards| - 1]) + if shards[|shards| - 1].Some? then 1 else 0
  {
    var n := |shards| - 1;
    assert shards == shards[..n] + [shards[n]];
    CountAppend(shards[..n], shards[n]);
  }

  // ---- reading back ----

  /** Reads a whole frame: what the shards read as, or nothing. */
  method ReadShards(shards: seq<Option<bytes>>, code: Code) returns (out: Option<bytes>)
    requires CorrectLibrary(code)
    ensures out.Some? <==> exists f :: ReadsAs(shards, code, f)
    ensures out.Some? ==> ReadsAs(shards, code, out.value)
  {
    hide MDS, Count, Opened, Agree, Reads, Covered;
    if exists f :: ReadsAs(shards, code, f) {
      ghost var f :| ReadsAs(shards, code, f);
      OpensToRead(shards, code, f);
    }
    var source := Reader.Open(shards, code);
    if source.Err? {
      return None;
    }
    var reader := source.value;
    ghost var held := HeldBy(reader.view);
    var size := ViewFrameSize(reader.view);
    var buf := new byte[size];
    var n, err := reader.ReadAt(buf, 0, held);
    if err.Some? {
      ReadsSize(reader.view, held);
      NothingReads(reader.view);
      return None;
    }
    CoveredIsReadable(reader.view);
    ReadsSize(reader.view, held);
    ReadsIs(reader.view, held);
    assert held[0..n] == held;
    out := Some(buf[..n]);
  }

  lemma ReadsSize(v: View, frame: bytes)
    ensures Reads(v, frame) ==> |frame| == v.geo.frameSize
  {
  }

  /** Reads the whole frame through any k of its shards. */
  method ReadFrame(shards: seq<Option<bytes>>, code: Code, ghost g: Geometry, ghost id: bytes, ghost frame: bytes)
    returns (out: bytes)
    requires CorrectLibrary(code) && WrittenBy(shards, g, code, id, frame) && Count(shards) >= g.k
    ensures out == frame
  {
    hide MDS, ShardFile, ReadsAs;
    WrittenReads(shards, g, code, id, frame);
    var r := ReadShards(shards, code);
    ReadsAsOnce(shards, code, frame, r.value);
    out := r.value;
  }

  // ---- the acknowledgement ----

  /** The content each stream of a PUT carries: the shard files of its frame. */
  ghost predicate CarriesFrame(w: World, g: Geometry, code: Code, id: bytes, frame: bytes)
    requires Writable(g, id) && |frame| == g.frameSize && MDS(code, g.k, g.m)
  {
    forall i :: 0 <= i < g.Width() ==> w.content(ShardKey(id, i)) == ShardFile(g, code, id, frame, i)
  }

  function Joined(pieces: seq<bytes>): (whole: bytes) {
    if pieces == [] then [] else Joined(pieces[..|pieces| - 1]) + pieces[|pieces| - 1]
  }

  /** Each stream is fed what the encoder emitted for its shard. */
  ghost predicate FedBy(w: World, id: bytes, sinks: seq<bytes>) {
    forall i :: 0 <= i < |sinks| ==> w.content(ShardKey(id, i)) == sinks[i]
  }

  /** A frame, in whatever pieces it comes, run through the encoder and closed: it is refused exactly
      when the pieces do not add up, and otherwise streams fed what it emitted carry the frame. */
  method EncodePieces(g: Geometry, code: Code, id: bytes, pieces: seq<bytes>) returns (sinks: Option<seq<bytes>>)
    requires Ready(g, code, id)
    ensures sinks.Some? <==> |Joined(pieces)| == g.frameSize
    ensures sinks.Some? ==> |sinks.value| == g.Width()
    ensures sinks.Some? ==>
      forall w: World :: FedBy(w, id, sinks.value) ==> CarriesFrame(w, g, code, id, Joined(pieces))
  {
    hide MDS, ShardFile, Filling;
    var encoder := new Writer.Start(g, id, code);
    for n := 0 to |pieces|
      invariant fresh(encoder) && encoder.Valid() && !encoder.closed && encoder.frame == Joined(pieces[..n])
      invariant encoder.geo == g && encoder.id == id && encoder.code == code
    {
      assert pieces[..n + 1][..n] == pieces[..n];
      var _, err := encoder.Write(pieces[n]);
      if err.Some? {
        JoinedGrows(pieces, n + 1);
        return None;
      }
    }
    assert pieces[..|pieces|] == pieces;
    var err := encoder.Close();
    sinks := if err.Some? then None else Some(encoder.sinks);
  }

  lemma {:induction false} JoinedGrows(pieces: seq<bytes>, n: nat)
    requires n <= |pieces|
    ensures |Joined(pieces[..n])| <= |Joined(pieces)|
    decreases |pieces|
  {
    if n < |pieces| {
      assert pieces[..|pieces| - 1][..n] == pieces[..n];
      JoinedGrows(pieces[..|pieces| - 1], n);
    } else {
      assert pieces[..n] == pieces;
    }
  }

  /** What can be fetched after losses: the committed shards on the nodes that are left. */
  function Fetched(g: Geometry, id: bytes, committed: set<nat>, nodes: seq<bytes>, disks: seq<Disk>,
                   lost: set<bytes>): (s: seq<Option<bytes>>)
    requires |nodes| == |disks|
  {
    seq(|nodes|, i requires 0 <= i < |nodes| =>
      if i in committed && nodes[i] !in lost && Shard(ShardKey(id, i)) in disks[i].durable
        then Some(disks[i].durable[Shard(ShardKey(id, i))])
      else None)
  }

  /** The streams that reported success. */
  function Committed(p: CoordPut.Put): (s: set<nat>) {
    set i: nat | i < |p.reports| && p.reports[i] == Some(true)
  }

  lemma {:induction false} CommittedCount(reports: seq<Option<bool>>)
    ensures |(set i: nat | i < |reports| && reports[i] == Some(true))| == CoordPut.CountOk(reports, true)
  {
    var all := set i: nat | i < |reports| && reports[i] == Some(true);
    if reports == [] {
      assert all == {};
    } else {
      var n := |reports| - 1;
      CommittedCount(reports[..n]);
      var rest := set i: nat | i < |reports[..n]| && reports[..n][i] == Some(true);
      if reports[n] == Some(true) {
        assert all == rest + {n};
      } else {
        assert all == rest;
      }
    }
  }

  /** One shard's transfer, as far as it has run, and the stream that carried it. */
  datatype Transfer = Transfer(trace: seq<Sys>, events: seq<Event>, stream: nat)

  /** The stream reported success in a run of the protocol. */
  ghost predicate Delivered(w: World, t: Transfer, key: ShardKey) {
    && IsRun(w, t.trace, t.events) && t.trace != []
    && var now := t.trace[|t.trace| - 1];
       t.stream in now.streams && now.streams[t.stream].key == key && now.streams[t.stream].outcome.Succeeded?
       && t.stream > ClearedAt(now, key)
  }

  /** Every committed position's stream delivered its shard to that position's disk. */
  ghost predicate AllDelivered(w: World, id: bytes, committed: set<nat>, transfers: seq<Transfer>, disks: seq<Disk>) {
    && |transfers| == |disks|
    && forall i :: i in committed && i < |disks| ==>
         Delivered(w, transfers[i], ShardKey(id, i)) &&
         disks[i] == transfers[i].trace[|transfers[i].trace| - 1].node.disk
  }

  lemma DeliveredDurable(w: World, id: bytes, committed: set<nat>, transfers: seq<Transfer>, disks: seq<Disk>, i: nat)
    requires Sane(w) && AllDelivered(w, id, committed, transfers, disks) && i in committed && i < |disks|
    ensures Durable(w, disks[i], ShardKey(id, i))
  {
    hide IsRun, Durable, Sane;
    var t := transfers[i];
    SuccessIsDurable(w, t.trace, t.events, |t.trace| - 1, t.stream);
  }

  /** The nodes are a placement over members with distinct IDs. */
  predicate Placed(rank: seq<Ranked>, nodes: seq<bytes>) {
    DistinctIds(rank) && |nodes| <= |rank| && nodes == PickedIds(rank, |nodes|)
  }

  lemma PlacedDistinct(rank: seq<Ranked>, nodes: seq<bytes>)
    requires Placed(rank, nodes)
    ensures forall i, j :: 0 <= i < j < |nodes| ==> nodes[i] != nodes[j]
  {
    NodeDistinct(rank, |nodes|);
    hide PickedIds;
  }

  /** A PUT acknowledged over these streams. */
  ghost predicate AckedOver(p: CoordPut.Put, width: nat) {
    CoordPut.Inv(p) && p.width == width && p.outcome.Acked?
  }

  lemma AckedCount(p: CoordPut.Put, width: nat)
    requires AckedOver(p, width)
    ensures p.width == |p.reports| == width && |Committed(p)| == p.outcome.durable
  {
    CommittedCount(p.reports);
  }

  /** Durability: a PUT that acknowledged s durable shards can lose any s - k of its nodes and the
      frame is still read back whole. Success of a stream means a durable shard by the transfer
      protocol; the nodes are distinct by placement. */
  method AckedFrameSurvives(g: Geometry, code: Code, id: bytes, ghost frame: bytes, p: CoordPut.Put, ghost w: World,
                            ghost rank: seq<Ranked>, nodes: seq<bytes>, ghost transfers: seq<Transfer>,
                              disks: seq<Disk>, lost: set<bytes>)
    returns (out: bytes)
    requires CorrectLibrary(code) && Writable(g, id) && |frame| == g.frameSize && MDS(code, g.k, g.m)
    requires Sane(w) && CarriesFrame(w, g, code, id, frame) && Placed(rank, nodes)
    requires AckedOver(p, g.Width()) && |nodes| == |disks| == g.Width() &&
      AllDelivered(w, id, Committed(p), transfers, disks)
    requires |lost| + g.k <= p.outcome.durable
    ensures out == frame
  {
    hide WrittenBy, MDS, Writable, Count, Left, AllDelivered, Placed, AckedOver, Sane, Durable;
    var shards := Fetched(g, id, Committed(p), nodes, disks, lost);
    AckedCount(p, g.Width());
    PlacedDistinct(rank, nodes);
    EachLossCostsOne(Committed(p), nodes, lost);
    forall i | i in Committed(p)
      ensures Durable(w, disks[i], ShardKey(id, i))
    {
      DeliveredDurable(w, id, Committed(p), transfers, disks, i);
    }
    FetchedWritten(g, code, id, frame, p, w, nodes, disks, lost);
    hide Fetched;
    out := ReadFrame(shards, code, g, id, frame);
  }

  lemma FetchedWritten(g: Geometry, code: Code, id: bytes, frame: bytes, p: CoordPut.Put, w: World,
                       nodes: seq<bytes>, disks: seq<Disk>, lost: set<bytes>)
    requires Writable(g, id) && |frame| == g.frameSize && MDS(code, g.k, g.m) && CarriesFrame(w, g, code, id, frame)
    requires p.width == g.Width() == |nodes| == |disks| && |p.reports| == p.width
    requires forall i :: i in Committed(p) ==> Durable(w, disks[i], ShardKey(id, i))
    ensures WrittenBy(Fetched(g, id, Committed(p), nodes, disks, lost), g, code, id, frame)
    ensures Count(Fetched(g, id, Committed(p), nodes, disks, lost)) == |Left(Committed(p), nodes, lost)|
  {
    hide ShardFile, MDS, Writable;
    var shards := Fetched(g, id, Committed(p), nodes, disks, lost);
    forall i | 0 <= i < |shards|
      ensures shards[i].Some? <==> i in Left(Committed(p), nodes, lost)
      ensures shards[i].Some? ==> shards[i].value == ShardFile(g, code, id, frame, i)
    {
      if i in Committed(p) {
        assert Durable(w, disks[i], ShardKey(id, i));
      }
    }
    CountPresent(shards, Left(Committed(p), nodes, lost));
  }

  /** The placed nodes are distinct, and the floor is above k whenever there is parity: an
      acknowledged PUT with parity can lose a node. */
  lemma AckedSurvivesOne(k: nat, m: nat, p: CoordPut.Put)
    requires k > 0 && m > 0 && CoordPut.Inv(p) && p.floor == CoordPut.Min(k + 1, k + m) && p.outcome.Acked?
    ensures p.outcome.durable >= k + 1
  {
  }
}
