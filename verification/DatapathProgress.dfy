/** What a stream's life says about it. Everything here is read off the events of a run alone: what
    the stream was given, what was acknowledged to it, how long it has waited, and how it ended. */
module DatapathProgress {
  import opened Bytes
  import opened DatapathDisk
  import opened DatapathSender
  import opened DatapathReceiver
  import opened DatapathRun

  // ---- the history of a stream ----

  /** An ordinary acknowledgement delivered to the stream it is for. */
  predicate Told(e: Event, id: nat) {
    e.AckArrives? && e.id == id && e.m.Ack? && e.m.stream == id && !e.m.failed && !e.m.committed
  }

  predicate ToldFailed(e: Event, id: nat) {
    e.AckArrives? && e.id == id && e.m.Ack? && e.m.stream == id && e.m.failed
  }

  predicate ToldCommitted(e: Event, id: nat) {
    e.AckArrives? && e.id == id && e.m.Ack? && e.m.stream == id && e.m.committed && !e.m.failed
  }

  /** The largest count acknowledged to the stream by the first n events, or 0. */
  function Acked(events: seq<Event>, n: nat, id: nat): nat
    requires n <= |events|
  {
    if n == 0 then 0
    else
      var before := Acked(events, n - 1, id);
      if Told(events[n - 1], id) && events[n - 1].m.staged > before then events[n - 1].m.staged else before
  }

  /** How many bytes it was given. */
  function Given(events: seq<Event>, n: nat, id: nat): nat
    requires n <= |events|
  {
    if n == 0 then 0
    else
      Given(events, n - 1, id) + if events[n - 1].PushBytes? && events[n - 1].id == id then |events[n - 1].p| else 0
  }

  predicate Declared(events: seq<Event>, n: nat, id: nat)
    requires n <= |events|
  {
    exists j :: 0 <= j < n && events[j] == Declare(id)
  }

  /** It is owed an answer: bytes are unacknowledged, or its commit is. */
  predicate Owed(events: seq<Event>, n: nat, id: nat)
    requires n <= |events|
  {
    Given(events, n, id) > Acked(events, n, id) || Declared(events, n, id)
  }

  /** The timer firings, while it was owed an answer, since the acknowledged count last rose. */
  function Silent(events: seq<Event>, n: nat, id: nat): nat
    requires n <= |events|
  {
    if n == 0 || Acked(events, n, id) > Acked(events, n - 1, id) then 0
    else Silent(events, n - 1, id) + if events[n - 1] == TimerFires(id) && Owed(events, n - 1, id) then 1 else 0
  }

  /** How it stands: the first decisive event decides. */
  function Verdict(events: seq<Event>, n: nat, id: nat): Outcome
    requires n <= |events|
  {
    if n == 0 then Running
    else if !Verdict(events, n - 1, id).Running? then Verdict(events, n - 1, id)
    else if ToldFailed(events[n - 1], id) || events[n - 1] == AbortStream(id) then Failed
    else if ToldCommitted(events[n - 1], id) then Succeeded
    else if Silent(events, n, id) >= MaxAttempts then Failed
    else Running
  }

  /** The stream is what its history says. */
  ghost predicate Matches(x: Stream, events: seq<Event>, n: nat, id: nat)
    requires n <= |events|
  {
    && x.outcome == Verdict(events, n, id)
    && (x.outcome.Running? ==>
          && x.base == Acked(events, n, id) && x.End() == Given(events, n, id)
          && x.committing == Declared(events, n, id) && x.attempts == Silent(events, n, id) < MaxAttempts)
  }

  // ---- every stream matches its history ----

  predicate Mentions(e: Event, id: nat) {
    (e.PushBytes? || e.Declare? || e.TimerFires? || e.AbortStream? || e.AckArrives?) && e.id == id
  }

  lemma DeclaredNext(events: seq<Event>, n: nat, id: nat)
    requires 0 < n <= |events|
    ensures Declared(events, n, id) <==> Declared(events, n - 1, id) || events[n - 1] == Declare(id)
  {
    if Declared(events, n - 1, id) {
      var j :| 0 <= j < n - 1 && events[j] == Declare(id);
      assert 0 <= j < n;
    }
  }

  /** An event about something else leaves the history as it was. */
  lemma UnmentionedSame(x: Stream, events: seq<Event>, n: nat, id: nat)
    requires 0 < n <= |events| && !Mentions(events[n - 1], id) && Matches(x, events, n - 1, id)
    ensures Matches(x, events, n, id)
  {
    hide Declared;
    DeclaredNext(events, n, id);
  }

  lemma PushMatches(w: World, s: Sys, events: seq<Event>, n: nat, id: nat, p: bytes)
    requires 0 < n <= |events| && events[n - 1] == PushBytes(id, p) && Enabled(w, s, events[n - 1])
    requires Matches(s.streams[id], events, n - 1, id)
    ensures Matches(Next(w, s, events[n - 1]).streams[id], events, n, id)
  {
    hide Declared;
    DeclaredNext(events, n, id);
  }

  lemma DeclareMatches(w: World, s: Sys, events: seq<Event>, n: nat, id: nat)
    requires 0 < n <= |events| && events[n - 1] == Declare(id) && Enabled(w, s, events[n - 1])
    requires Matches(s.streams[id], events, n - 1, id)
    ensures Matches(Next(w, s, events[n - 1]).streams[id], events, n, id)
  {
    hide Declared;
    DeclaredNext(events, n, id);
  }

  lemma TimerMatches(w: World, s: Sys, events: seq<Event>, n: nat, id: nat)
    requires 0 < n <= |events| && events[n - 1] == TimerFires(id) && Enabled(w, s, events[n - 1])
    requires Matches(s.streams[id], events, n - 1, id)
    ensures Matches(Next(w, s, events[n - 1]).streams[id], events, n, id)
  {
    hide Declared;
    DeclaredNext(events, n, id);
  }

  /** An acknowledgement: progress moves the base to it and starts the wait anew, and nothing else. */
  lemma AckMatches(w: World, s: Sys, events: seq<Event>, n: nat, id: nat, m: Msg)
    requires 0 < n <= |events| && events[n - 1] == AckArrives(id, m) && Enabled(w, s, events[n - 1])
    requires Matches(s.streams[id], events, n - 1, id) && s.streams[id].stream == id
    requires m.stream == id && !s.streams[id].Finished() ==> m.staged <= s.streams[id].End()
    ensures Matches(Next(w, s, events[n - 1]).streams[id], events, n, id)
  {
    hide Declared;
    DeclaredNext(events, n, id);
  }

  lemma AbortMatches(w: World, s: Sys, events: seq<Event>, n: nat, id: nat)
    requires 0 < n <= |events| && events[n - 1] == AbortStream(id) && Enabled(w, s, events[n - 1])
    requires Matches(s.streams[id], events, n - 1, id)
    ensures Matches(Next(w, s, events[n - 1]).streams[id], events, n, id)
  {
  }

  lemma StepMatches(w: World, s: Sys, events: seq<Event>, n: nat, id: nat)
    requires 0 < n <= |events| && Inv(w, s) && Enabled(w, s, events[n - 1])
    requires id in s.streams && Matches(s.streams[id], events, n - 1, id)
    requires id in Next(w, s, events[n - 1]).streams
    ensures Matches(Next(w, s, events[n - 1]).streams[id], events, n, id)
  {
    hide Inv, Matches;
    var e := events[n - 1];
    StreamOf(w, s, id);
    if !Mentions(e, id) {
      Base(w, s);
      UnmentionedSame(s.streams[id], events, n, id);
    } else {
      match e
      case PushBytes(_, p) => PushMatches(w, s, events, n, id, p);
      case Declare(_) => DeclareMatches(w, s, events, n, id);
      case TimerFires(_) => TimerMatches(w, s, events, n, id);
      case AbortStream(_) => AbortMatches(w, s, events, n, id);
      case AckArrives(_, m) =>
        MsgOf(w, s, m);
        AckMatches(w, s, events, n, id, m);
    }
  }

  /** No event names a stream that has not been opened. */
  lemma {:induction false} NothingBefore(w: World, trace: seq<Sys>, events: seq<Event>, n: nat, x: Stream)
    requires Sane(w) && IsRun(w, trace, events) && n < |trace| && x.stream > trace[n].next
    requires x == NewStream(x.key, x.stream)
    ensures Matches(x, events, n, x.stream)
  {
    if n > 0 {
      hide Matches, Inv, Sane;
      assert Follows(w, trace[n - 1], events[n - 1], trace[n]);
      RunInv(w, trace, events, n - 1);
      Base(w, trace[n - 1]);
      if x.stream in trace[n - 1].streams {
        StreamOf(w, trace[n - 1], x.stream);
      }
      NothingBefore(w, trace, events, n - 1, x);
      UnmentionedSame(x, events, n, x.stream);
    }
  }

  /** In every state of every run, each stream is exactly what the events say: its base is the largest
      count acknowledged to it, its buffer ends where what it was given ends, it has tried as often as
      it was kept waiting, and it has ended as the first decisive event ended it. */
  lemma {:induction false} StreamIsHistory(w: World, trace: seq<Sys>, events: seq<Event>, n: nat, id: nat)
    requires Sane(w) && IsRun(w, trace, events) && n < |trace| && id in trace[n].streams
    ensures Matches(trace[n].streams[id], events, n, id)
  {
    hide Matches, Sane, Inv;
    var s, e := trace[n - 1], events[n - 1];
    assert Follows(w, s, e, trace[n]);
    RunInv(w, trace, events, n - 1);
    if id in s.streams {
      StreamIsHistory(w, trace, events, n - 1, id);
      StepMatches(w, s, events, n, id);
    } else {
      NothingBefore(w, trace, events, n - 1, trace[n].streams[id]);
      UnmentionedSame(trace[n].streams[id], events, n, id);
    }
  }

  // ---- what that means ----

  lemma {:induction false} AckedIsLargest(events: seq<Event>, n: nat, id: nat)
    requires n <= |events|
    ensures forall j :: 0 <= j < n && Told(events[j], id) ==> events[j].m.staged <= Acked(events, n, id)
    ensures Acked(events, n, id) > 0 ==>
      exists j :: 0 <= j < n && Told(events[j], id) && events[j].m.staged == Acked(events, n, id)
  {
    if n > 0 {
      AckedIsLargest(events, n - 1, id);
      if Acked(events, n, id) > Acked(events, n - 1, id) {
        assert Told(events[n - 1], id) && events[n - 1].m.staged == Acked(events, n, id);
      }
    }
  }

  /** A live stream's base is the largest count delivered to it, or 0. */
  lemma BaseIsLargestAck(w: World, trace: seq<Sys>, events: seq<Event>, n: nat, id: nat)
    requires Sane(w) && IsRun(w, trace, events) && n < |trace|
    requires id in trace[n].streams && trace[n].streams[id].outcome.Running?
    ensures var base := trace[n].streams[id].base;
      && (forall j :: 0 <= j < n && Told(events[j], id) ==> events[j].m.staged <= base)
      && (base > 0 ==> exists j :: 0 <= j < n && Told(events[j], id) && events[j].m.staged == base)
  {
    StreamIsHistory(w, trace, events, n, id);
    AckedIsLargest(events, n, id);
  }

  /** Timer firings from event i up to event n. */
  function Firings(events: seq<Event>, i: nat, n: nat, id: nat): nat
    requires i <= n <= |events|
  {
    if i == n then 0 else Firings(events, i, n - 1, id) + if events[n - 1] == TimerFires(id) then 1 else 0
  }

  lemma {:induction false} SilentSince(events: seq<Event>, n: nat, id: nat) returns (i: nat)
    requires n <= |events|
    ensures i <= n && Acked(events, i, id) == Acked(events, n, id) && Silent(events, n, id) <= Firings(events, i, n, id)
  {
    i := n;
    if Silent(events, n, id) > 0 {
      i := SilentSince(events, n - 1, id);
    }
  }

  /** Since event i the timer fired twenty times and nothing new was acknowledged. */
  predicate GaveUp(events: seq<Event>, i: nat, n: nat, id: nat)
    requires i <= n <= |events|
  {
    Firings(events, i, n, id) >= 20 && Acked(events, i, id) == Acked(events, n, id)
  }

  /** Why a stream may have failed by the first n events. */
  ghost predicate Cause(events: seq<Event>, n: nat, id: nat)
    requires n <= |events|
  {
    || (exists j :: 0 <= j < n && (ToldFailed(events[j], id) || events[j] == AbortStream(id)))
    || (exists i, j :: 0 <= i <= j <= n && GaveUp(events, i, j, id))
  }

  lemma {:induction false} FailureHasCause(events: seq<Event>, n: nat, id: nat)
    requires n <= |events| && Verdict(events, n, id).Failed?
    ensures Cause(events, n, id)
  {
    hide Firings;
    if Verdict(events, n - 1, id).Failed? {
      FailureHasCause(events, n - 1, id);
      if i, j :| 0 <= i <= j <= n - 1 && GaveUp(events, i, j, id) {
        assert 0 <= i <= j <= n;
      } else {
        var j :| 0 <= j < n - 1 && (ToldFailed(events[j], id) || events[j] == AbortStream(id));
        assert 0 <= j < n;
      }
    } else if Silent(events, n, id) >= MaxAttempts {
      var i := SilentSince(events, n, id);
      assert GaveUp(events, i, n, id);
    } else {
      assert ToldFailed(events[n - 1], id) || events[n - 1] == AbortStream(id);
    }
  }

  /** A stream fails only after the receiver said so, an abort, or twenty timer firings without
      progress: no ordinary acknowledgement ends it. */
  lemma FailedHasCause(w: World, trace: seq<Sys>, events: seq<Event>, n: nat, id: nat)
    requires Sane(w) && IsRun(w, trace, events) && n < |trace|
    requires id in trace[n].streams && trace[n].streams[id].outcome.Failed?
    ensures Cause(events, n, id)
  {
    StreamIsHistory(w, trace, events, n, id);
    FailureHasCause(events, n, id);
  }

  // ---- acknowledgements are true ----

  /** Such a count was staged for that stream, its bytes with it. */
  ghost predicate WasStaged(w: World, s: Sys, m: Msg)
    requires m.Ack?
  {
    && m.key in s.node.staging && s.node.staging[m.key].stream == m.stream
    && s.node.staging[m.key].staged == m.staged && m.staged <= |w.content(m.key)|
    && s.node.disk.Read(Shard(m.key)) == Some(w.content(m.key)[..m.staged])
  }

  lemma {:induction false} ChunksAreChunks(x: Stream, from: nat, m: Msg)
    requires m in Chunks(x, from)
    ensures m.Chunk?
    decreases x.End() - from
  {
    var start := from - x.base;
    var end := if start + ChunkSize < |x.buf| then start + ChunkSize else |x.buf|;
    if m != Chunk(x.key, from, x.buf[start..end], x.stream) {
      ChunksAreChunks(x, x.base + end, m);
    }
  }

  lemma PumpSendsNoAck(x: Stream, m: Msg)
    requires m in Pump(x).1
    ensures !m.Ack?
  {
    if m in Chunks(x, x.sent) {
      ChunksAreChunks(x, x.sent, m);
    }
  }

  lemma SenderSendsNoAck(w: World, s: Sys, e: Event, m: Msg)
    requires e.PushBytes? || e.Declare? || e.TimerFires? || e.AckArrives?
    requires Enabled(w, s, e) && m in Next(w, s, e).net && m !in s.net
    ensures !m.Ack?
  {
    hide Pump;
    var x := s.streams[e.id];
    match e
    case PushBytes(_, p) => PumpSendsNoAck(x.(buf := x.buf + p), m);
    case Declare(_) => PumpSendsNoAck(x.(committing := true, length := x.End(), checksum := w.sha(w.content(x.key))),
                                      m);
    case TimerFires(_) => PumpSendsNoAck(x.(attempts := x.attempts + 1, sent := x.base), m);
    case AckArrives(_, a) => PumpSendsNoAck(x.(buf := x.buf[a.staged - x.base..], base := a.staged, attempts := 0), m);
  }

  /** A step puts an ordinary acknowledgement on the network only of what is staged then or after. */
  lemma NewAckTrue(w: World, s: Sys, e: Event, m: Msg)
    requires Sane(w) && Inv(w, s) && Enabled(w, s, e) && m in Next(w, s, e).net && m !in s.net
    requires m.Ack? && !m.failed && !m.committed
    ensures WasStaged(w, s, m) || WasStaged(w, Next(w, s, e), m)
  {
    hide Inv, Sane;
    var s' := Next(w, s, e);
    StepOk(w, s, e);
    if e.PushBytes? || e.Declare? || e.TimerFires? || e.AckArrives? {
      SenderSendsNoAck(w, s, e, m);
    }
    assert m.key == e.m.key;
    if WasStagedAs(s, m) {
      StagingOf(w, s, m.key);
    } else {
      StagingOf(w, s', m.key);
    }
  }

  predicate WasStagedAs(s: Sys, m: Msg)
    requires m.Ack?
  {
    m.key in s.node.staging && m == StagedAck(m.key, s.node.staging[m.key])
  }

  /** Every count a receiver acknowledged it had, at some moment of the run, staged on its disk. */
  lemma {:induction false} AcknowledgedWasStaged(w: World, trace: seq<Sys>, events: seq<Event>, n: nat, m: Msg)
    returns (j: nat)
    requires Sane(w) && IsRun(w, trace, events) && n < |trace| && m in trace[n].net
    requires m.Ack? && !m.failed && !m.committed
    ensures j <= n && WasStaged(w, trace[j], m)
  {
    hide Sane, WasStaged, Inv;
    assert Follows(w, trace[n - 1], events[n - 1], trace[n]);
    if m in trace[n - 1].net {
      j := AcknowledgedWasStaged(w, trace, events, n - 1, m);
    } else {
      RunInv(w, trace, events, n - 1);
      NewAckTrue(w, trace[n - 1], events[n - 1], m);
      j := if WasStaged(w, trace[n], m) then n else n - 1;
    }
  }

  /** The disk failed while this key was being written. */
  predicate DiskFails(e: Event, key: ShardKey) {
    (e.ChunkArrives? && e.fault.Some? && e.m.key == key) || (e.CommitArrives? && !e.failure.NoFault? && e.m.key == key)
  }

  lemma NewFailureNeedsFault(w: World, s: Sys, e: Event, m: Msg)
    requires Sane(w) && Inv(w, s) && Enabled(w, s, e) && m in Next(w, s, e).net && m !in s.net
    requires m.Ack? && m.failed
    ensures DiskFails(e, m.key)
  {
    hide Inv, Sane;
    if e.PushBytes? || e.Declare? || e.TimerFires? || e.AckArrives? {
      SenderSendsNoAck(w, s, e, m);
    } else if e.CommitArrives? {
      MsgOf(w, s, e.m);
      ContentNotEmpty(w, e.m.key);
      if e.m.key in s.node.staging {
        StagingOf(w, s, e.m.key);
        var st := s.node.staging[e.m.key];
        assert st.staged == e.m.length ==> st.hashed == w.content(e.m.key);
      }
    }
  }

  lemma ContentNotEmpty(w: World, key: ShardKey)
    requires Sane(w)
    ensures |w.content(key)| > 0
  {
  }

  /** The receiver reports failure only where its disk failed. */
  lemma {:induction false} FailedAckNeedsFault(w: World, trace: seq<Sys>, events: seq<Event>, n: nat, m: Msg)
    returns (j: nat)
    requires Sane(w) && IsRun(w, trace, events) && n < |trace| && m in trace[n].net && m.Ack? && m.failed
    ensures j < n && DiskFails(events[j], m.key)
  {
    hide Sane, Inv;
    assert Follows(w, trace[n - 1], events[n - 1], trace[n]);
    if m in trace[n - 1].net {
      j := FailedAckNeedsFault(w, trace, events, n - 1, m);
    } else {
      RunInv(w, trace, events, n - 1);
      NewFailureNeedsFault(w, trace[n - 1], events[n - 1], m);
      j := n - 1;
    }
  }

  // ---- a transfer that succeeds ----

  /** The first n bytes are staged and acknowledged, and nothing is under way. */
  ghost predicate Through(w: World, s: Sys, key: ShardKey, n: nat) {
    && n <= |w.content(key)| && 1 in s.streams
    && s.streams[1] == NewStream(key, 1).(base := n, sent := n)
    && (if n == 0 then key !in s.node.staging
        else key in s.node.staging && s.node.staging[key] == Staging(1, n, w.content(key)[..n]))
    && s.node.disk.Read(Marker(key)).None?
  }

  lemma RunExtends(w: World, trace: seq<Sys>, events: seq<Event>, e: Event)
    requires IsRun(w, trace, events) && Enabled(w, trace[|events|], e)
    ensures IsRun(w, trace + [Next(w, trace[|events|], e)], events + [e])
  {
    hide Enabled, Next;
    var more, es := trace + [Next(w, trace[|events|], e)], events + [e];
    forall i | 0 <= i < |es|
      ensures Follows(w, more[i], es[i], more[i + 1])
    {
      if i < |events| {
        assert Follows(w, trace[i], events[i], trace[i + 1]);
      }
    }
  }

  function Least(a: nat, b: nat): nat { if a < b then a else b }

  /** One more chunk: pushed, staged, acknowledged. */
  lemma PieceThrough(w: World, s: Sys, key: ShardKey, n: nat) returns (s1: Sys, s2: Sys, s3: Sys, es: seq<Event>)
    requires Through(w, s, key, n) && n < |w.content(key)|
    ensures |es| == 3 && Follows(w, s, es[0], s1) && Follows(w, s1, es[1], s2) && Follows(w, s2, es[2], s3)
    ensures Through(w, s3, key, Least(n + ChunkSize, |w.content(key)|))
  {
    hide Follows, Through, Ready, Staged;
    var to := Least(n + ChunkSize, |w.content(key)|);
    var p := w.content(key)[n..to];
    s1 := PiecePushed(w, s, key, n, to);
    s2 := PieceStaged(w, s1, key, n, to);
    s3 := PieceAcked(w, s2, key, n, to);
    es := [PushBytes(1, p), ChunkArrives(Chunk(key, n, p, 1), None), AckArrives(1, Ack(key, to, false, false, 1))];
  }

  /** A stream that has sent the piece from n, not yet acknowledged. */
  predicate Sending(w: World, s: Sys, key: ShardKey, n: nat, to: nat) {
    && n < to <= |w.content(key)| && to <= n + ChunkSize && 1 in s.streams
    && s.streams[1] == NewStream(key, 1).(base := n, sent := to, buf := w.content(key)[n..to])
    && s.node.disk.Read(Marker(key)).None?
  }

  predicate Ready(w: World, s: Sys, key: ShardKey, n: nat, to: nat) {
    && Sending(w, s, key, n, to) && Chunk(key, n, w.content(key)[n..to], 1) in s.net
    && if n == 0 then key !in s.node.staging
       else key in s.node.staging && s.node.staging[key] == Staging(1, n, w.content(key)[..n])
  }

  predicate Staged(w: World, s: Sys, key: ShardKey, n: nat, to: nat) {
    && Sending(w, s, key, n, to) && Ack(key, to, false, false, 1) in s.net
    && key in s.node.staging && s.node.staging[key] == Staging(1, to, w.content(key)[..to])
  }

  lemma PiecePushed(w: World, s: Sys, key: ShardKey, n: nat, to: nat) returns (s1: Sys)
    requires Through(w, s, key, n) && n < to <= |w.content(key)| && to <= n + ChunkSize
    ensures Follows(w, s, PushBytes(1, w.content(key)[n..to]), s1) && Ready(w, s1, key, n, to)
  {
    hide Write;
    var p := w.content(key)[n..to];
    PushSends(s.streams[1], p);
    s1 := Next(w, s, PushBytes(1, p));
  }

  lemma PieceStaged(w: World, s: Sys, key: ShardKey, n: nat, to: nat) returns (s1: Sys)
    requires Ready(w, s, key, n, to)
    ensures Follows(w, s, ChunkArrives(Chunk(key, n, w.content(key)[n..to], 1), None), s1) && Staged(w, s1, key, n, to)
  {
    var p := w.content(key)[n..to];
    assert w.content(key)[..n] + p == w.content(key)[..to];
    s1 := Next(w, s, ChunkArrives(Chunk(key, n, p, 1), None));
    assert n == 0 ==> p == w.content(key)[..to];
  }

  lemma PieceAcked(w: World, s: Sys, key: ShardKey, n: nat, to: nat) returns (s1: Sys)
    requires Staged(w, s, key, n, to)
    ensures Follows(w, s, AckArrives(1, Ack(key, to, false, false, 1)), s1) && Through(w, s1, key, to)
  {
    hide Pump;
    var x := s.streams[1];
    assert x.buf[|x.buf|..] == [];
    PumpIdle(x.(buf := [], base := to));
    s1 := Next(w, s, AckArrives(1, Ack(key, to, false, false, 1)));
  }

  lemma PumpIdle(x: Stream)
    requires x.buf == [] && x.sent == x.base && !x.committing
    ensures Pump(x) == (x, [])
  {
    assert Chunks(x, x.sent) + CommitMsgs(x) == [];
  }

  lemma PushSends(x: Stream, p: bytes)
    requires x == NewStream(x.key, x.stream).(base := x.base, sent := x.base) && 0 < |p| <= ChunkSize
    ensures Write(x, p) == (x.(buf := p, sent := x.base + |p|), [Chunk(x.key, x.base, p, x.stream)])
  {
    var y := x.(buf := p);
    assert x.buf + p == p && p[0..|p|] == p;
    assert Chunks(y, y.base + |p|) == [];
    assert Chunks(y, y.base) == [Chunk(x.key, x.base, p, x.stream)] + [];
    assert Chunks(y, y.base) + CommitMsgs(y) == [Chunk(x.key, x.base, p, x.stream)];
  }

  lemma ThreeMore(w: World, trace: seq<Sys>, events: seq<Event>, s1: Sys, s2: Sys, s3: Sys, es: seq<Event>)
    returns (t: seq<Sys>, e: seq<Event>)
    requires IsRun(w, trace, events) && |trace| > |events| && |es| == 3
    requires Follows(w, trace[|events|], es[0], s1) && Follows(w, s1, es[1], s2) && Follows(w, s2, es[2], s3)
    ensures IsRun(w, t, e) && |t| > |e| && t[|e|] == s3
  {
    hide IsRun, Enabled, Next;
    RunExtends(w, trace, events, es[0]);
    assert IsRun(w, trace + [s1], events + [es[0]]);
    RunLast(w, trace, events, s1, es[0]);
    RunExtends(w, trace + [s1], events + [es[0]], es[1]);
    RunLast(w, trace + [s1], events + [es[0]], s2, es[1]);
    RunExtends(w, trace + [s1] + [s2], events + [es[0]] + [es[1]], es[2]);
    RunLast(w, trace + [s1] + [s2], events + [es[0]] + [es[1]], s3, es[2]);
    t, e := trace + [s1] + [s2] + [s3], events + [es[0]] + [es[1]] + [es[2]];
  }

  lemma RunLast(w: World, trace: seq<Sys>, events: seq<Event>, s: Sys, e: Event)
    requires IsRun(w, trace, events)
    ensures |trace + [s]| == |events + [e]| + 1 && (trace + [s])[|events + [e]|] == s
  {
  }

  /** A run that brings the first bytes across, in whole chunks or to the end. */
  lemma {:induction false} BytesThrough(w: World, key: ShardKey, pieces: nat)
    returns (trace: seq<Sys>, events: seq<Event>)
    ensures IsRun(w, trace, events) && |trace| > |events|
    ensures Through(w, trace[|events|], key, Least(pieces * ChunkSize, |w.content(key)|))
  {
    if pieces == 0 {
      trace, events := [Start, Next(w, Start, NewWrite(key))], [NewWrite(key)];
      assert Follows(w, trace[0], events[0], trace[1]);
      assert w.content(key)[..0] == [];
    } else {
      hide Through, IsRun, Follows;
      trace, events := BytesThrough(w, key, pieces - 1);
      var n := Least((pieces - 1) * ChunkSize, |w.content(key)|);
      if n < |w.content(key)| {
        var s1, s2, s3, es := PieceThrough(w, trace[|events|], key, n);
        trace, events := ThreeMore(w, trace, events, s1, s2, s3, es);
      }
    }
  }

  /** All the bytes across: the commit, the seal, the answer. */
  lemma EndThrough(w: World, s: Sys, key: ShardKey) returns (s1: Sys, s2: Sys, s3: Sys, es: seq<Event>)
    requires Through(w, s, key, |w.content(key)|) && |w.content(key)| > 0
    ensures |es| == 3 && Follows(w, s, es[0], s1) && Follows(w, s1, es[1], s2) && Follows(w, s2, es[2], s3)
    ensures 1 in s3.streams && s3.streams[1].key == key && s3.streams[1].outcome.Succeeded?
  {
    var body := w.content(key);
    assert body[..|body|] == body;
    var c := Commit(key, |body|, w.sha(body), 1);
    s1 := Next(w, s, Declare(1));
    s2 := Next(w, s1, CommitArrives(c, NoFault));
    var a := CommittedAck(key, 1);
    s3 := Next(w, s2, AckArrives(1, a));
    es := [Declare(1), CommitArrives(c, NoFault), AckArrives(1, a)];
  }

  /** Every shard, of any length, has a run in which its stream succeeds. */
  lemma TransferSucceeds(w: World, key: ShardKey) returns (trace: seq<Sys>, events: seq<Event>)
    requires Sane(w)
    ensures IsRun(w, trace, events) && trace != []
    ensures var s := trace[|trace| - 1]; 1 in s.streams && s.streams[1].key == key && s.streams[1].outcome.Succeeded?
  {
    hide Through, IsRun, Follows;
    ContentNotEmpty(w, key);
    trace, events := BytesThrough(w, key, |w.content(key)|);
    var s1, s2, s3, es := EndThrough(w, trace[|events|], key);
    trace, events := ThreeMore(w, trace, events, s1, s2, s3, es);
    RunNonEmpty(w, trace, events);
  }

  lemma RunNonEmpty(w: World, trace: seq<Sys>, events: seq<Event>)
    requires IsRun(w, trace, events)
    ensures |trace| == |events| + 1
  {
  }

  // ---- what is lost is made good ----

  /** The timer puts the first unacknowledged bytes on the network again. */
  lemma FirstResent(x: Stream)
    requires Paced(x) && !x.Finished() && x.buf != [] && x.attempts + 1 < MaxAttempts
    ensures Chunk(x.key, x.base, x.buf[..Least(ChunkSize, |x.buf|)], x.stream) in OnTimer(x).1
  {
    var y := x.(attempts := x.attempts + 1, sent := x.base);
    assert y.buf[0..Least(ChunkSize, |y.buf|)] == x.buf[..Least(ChunkSize, |x.buf|)];
    assert Chunk(x.key, x.base, x.buf[..Least(ChunkSize, |x.buf|)], x.stream) in Chunks(y, y.base);
  }

  lemma Fires(w: World, s: Sys, id: nat) returns (s1: Sys)
    requires id in s.streams && Paced(s.streams[id]) && s.streams[id].outcome.Running?
    requires (s.streams[id].buf != [] || s.streams[id].committing) && s.streams[id].attempts + 1 < MaxAttempts
    ensures Follows(w, s, TimerFires(id), s1) && s1.node == s.node
    ensures id in s1.streams && s1.streams[id] == s.streams[id].(attempts := s.streams[id].attempts + 1)
    ensures forall m :: m in OnTimer(s.streams[id]).1 ==> m in s1.net
  {
    TimerResends(s.streams[id]);
    hide OnTimer, Paced;
    s1 := Next(w, s, TimerFires(id));
  }

  /** A chunk of what is staged already is answered with how much is. */
  lemma StaleAnswered(w: World, s: Sys, c: Msg) returns (s1: Sys)
    requires c in s.net && c.Chunk? && c.key in s.node.staging
    requires s.node.staging[c.key].stream == c.stream && c.offset != s.node.staging[c.key].staged
    ensures Follows(w, s, ChunkArrives(c, None), s1) && s1.node == s.node && s1.streams == s.streams
    ensures StagedAck(c.key, s.node.staging[c.key]) in s1.net
  {
    s1 := Next(w, s, ChunkArrives(c, None));
  }

  lemma Hears(w: World, s: Sys, id: nat, a: Msg) returns (s1: Sys)
    requires id in s.streams && a in s.net && a.Ack? && a.key == s.streams[id].key && a.stream == s.streams[id].stream
    requires s.streams[id].outcome.Running? && !a.failed
    requires !a.committed ==> s.streams[id].base < a.staged <= s.streams[id].End()
    ensures Follows(w, s, AckArrives(id, a), s1) && s1.node == s.node && id in s1.streams
    ensures if a.committed then s1.streams[id].outcome.Succeeded?
      else s1.streams[id].outcome.Running? && s1.streams[id].base == a.staged
  {
    s1 := Next(w, s, AckArrives(id, a));
  }

  /** If the receiver has staged more than the sender has heard of, one timer firing, one of its chunks and
      the answer to it bring the sender's base up to what is staged. */
  lemma LostAckMadeGood(w: World, s: Sys, id: nat) returns (s1: Sys, s2: Sys, s3: Sys, es: seq<Event>)
    requires Inv(w, s) && id in s.streams && s.streams[id].outcome.Running?
    requires s.streams[id].attempts + 1 < MaxAttempts
    requires var x := s.streams[id];
      x.key in s.node.staging && s.node.staging[x.key].stream == id && x.base < s.node.staging[x.key].staged
    ensures |es| == 3 && Follows(w, s, es[0], s1) && Follows(w, s1, es[1], s2) && Follows(w, s2, es[2], s3)
    ensures s3.node == s.node && id in s3.streams && s3.streams[id].outcome.Running?
    ensures s3.streams[id].base == s.node.staging[s.streams[id].key].staged
  {
    hide Inv, Follows;
    var x := s.streams[id];
    StreamOf(w, s, id);
    StagingOf(w, s, x.key);
    FirstResent(x);
    var c := Chunk(x.key, x.base, x.buf[..Least(ChunkSize, |x.buf|)], id);
    var a := StagedAck(x.key, s.node.staging[x.key]);
    hide OnTimer;
    s1 := Fires(w, s, id);
    s2 := StaleAnswered(w, s1, c);
    s3 := Hears(w, s2, id, a);
    es := [TimerFires(id), ChunkArrives(c, None), AckArrives(id, a)];
  }

  lemma SealedAnswers(w: World, s: Sys, c: Msg) returns (s1: Sys)
    requires c in s.net && c.Commit? && c.length > 0 && c.key !in s.node.staging && Committed(s.node.disk, c.key)
    ensures Follows(w, s, CommitArrives(c, NoFault), s1) && s1.node == s.node && s1.streams == s.streams
    ensures CommittedAck(c.key, c.stream) in s1.net
  {
    s1 := Next(w, s, CommitArrives(c, NoFault));
  }

  /** If the shard is sealed and the sender has not heard, one timer firing, its commit and the answer to
      that end the stream well. */
  lemma LostCommitMadeGood(w: World, s: Sys, id: nat) returns (s1: Sys, s2: Sys, s3: Sys, es: seq<Event>)
    requires Sane(w) && Inv(w, s) && id in s.streams && s.streams[id].outcome.Running? && s.streams[id].committing
    requires s.streams[id].attempts + 1 < MaxAttempts
    requires var key := s.streams[id].key; key !in s.node.staging && Marker(key) in s.node.disk.durable
    ensures |es| == 3 && Follows(w, s, es[0], s1) && Follows(w, s1, es[1], s2) && Follows(w, s2, es[2], s3)
    ensures s3.node == s.node && id in s3.streams && s3.streams[id].outcome.Succeeded?
  {
    hide Inv, Follows;
    var x := s.streams[id];
    StreamOf(w, s, id);
    Base(w, s);
    ContentNotEmpty(w, x.key);
    assert Marker(x.key) !in s.node.disk.staged;
    TimerResends(x);
    var c, a := Commit(x.key, x.length, x.checksum, id), CommittedAck(x.key, id);
    hide OnTimer, DiskOk, HistoryOk, Sane;
    assert c in OnTimer(x).1;
    s1 := Fires(w, s, id);
    s2 := SealedAnswers(w, s1, c);
    s3 := Hears(w, s2, id, a);
    es := [TimerFires(id), CommitArrives(c, NoFault), AckArrives(id, a)];
  }

  // ---- what the receiver accepts ----

  /** A commit makes the shard committed exactly when it is for the stream being staged, of positive length,
      all of it staged and with its digest; it then syncs what is staged. Otherwise it adds no marker. */
  lemma SealsExactly(n: Node, m: Msg, sha: bytes -> bytes)
    requires m.Commit? && !Committed(n.disk, m.key)
    ensures var (after, ms) := HandleCommit(n, m, sha, NoFault);
      && (Committed(after.disk, m.key) <==>
            && m.length > 0 && m.key in n.staging && n.staging[m.key].stream == m.stream
            && n.staging[m.key].staged == m.length && sha(n.staging[m.key].hashed) == m.checksum)
      && (CommittedAck(m.key, m.stream) in ms <==> Committed(after.disk, m.key))
      && (Committed(after.disk, m.key) ==>
            && Marker(m.key) in after.disk.durable && m.key !in after.staging
            && after.disk.Read(Shard(m.key)) == n.disk.Read(Shard(m.key)) && Shard(m.key) !in after.disk.staged)
  {
  }

  /** What is staged for a key, if anything, later: a newer stream's, or the same stream's and no less. */
  predicate StagedOn(before: Staging, after: Staging) {
    || after.stream > before.stream
    || (after.stream == before.stream && after.staged >= before.staged && IsPrefix(before.hashed, after.hashed))
  }

  /** No message, however late, sets staging back: an older stream never takes over from a newer one, and a
      stream's own staging only grows. */
  lemma StagingOnlyGrows(w: World, s: Sys, e: Event, key: ShardKey)
    requires Enabled(w, s, e) && key in s.node.staging && key in Next(w, s, e).node.staging
    ensures StagedOn(s.node.staging[key], Next(w, s, e).node.staging[key])
  {
    hide Pump, Chunks;
  }
}
