/** When a PUT is acknowledged: exactly how every run ends, and runs that end each way. */
module CoordAck {
  import opened Bytes
  import opened CoordPut

  // ---- who is tried ----

  lemma {:induction false} CountSplits(down: seq<bool>)
    ensures CountTrue(down) + |set i: nat | i < |down| && !down[i]| == |down|
  {
    var up := set i: nat | i < |down| && !down[i];
    if down != [] {
      var n := |down| - 1;
      CountSplits(down[..n]);
      var rest := set i: nat | i < |down[..n]| && !down[..n][i];
      assert up == if down[n] then rest else rest + {n};
    } else {
      assert up == {};
    }
  }

  /** A node known to be down is counted as failed from the start exactly when at least min(k+1, k+m) nodes
      are not; otherwise every node is tried. */
  lemma SkippedExactly(k: nat, m: nat, stepBytes: nat, down: seq<bool>, i: nat)
    requires |down| == k + m && i < k + m
    ensures var up := set j: nat | j < |down| && !down[j];
      Began(k, m, stepBytes, down).reports[i] ==
      if down[i] && |up| >= Min(k + 1, k + m) then Some(false) else None
  {
    CountSplits(down);
    hide CountTrue;
  }

  // ---- pacing ----

  /** With no framing failure a step moves what the windows take, piece by piece. */
  lemma {:induction false} PacedMoves(s: Put, writes: nat)
    requires s.stepBytes > 0
    ensures var n := Min(writes * s.stepBytes, |s.pending|);
      Paced(s, writes, None) == (s.(written := s.written + s.pending[..n], pending := s.pending[n..]), false)
    decreases writes
  {
    if s.pending == [] || writes == 0 {
      var n := Min(writes * s.stepBytes, |s.pending|);
      assert s.written + s.pending[..n] == s.written && s.pending[n..] == s.pending;
    } else {
      var n := Min(s.stepBytes, |s.pending|);
      var next := s.(written := s.written + s.pending[..n], pending := s.pending[n..]);
      PacedMoves(next, writes - 1);
      assert writes * s.stepBytes == (writes - 1) * s.stepBytes + s.stepBytes;
      var a, b := Min((writes - 1) * s.stepBytes, |next.pending|), Min(writes * s.stepBytes, |s.pending|);
      assert a + n == b;
      assert s.pending[..n] + s.pending[n..][..a] == s.pending[..b];
      assert s.written + s.pending[..n] + s.pending[n..][..a] == s.written + s.pending[..b];
      assert s.pending[n..][a..] == s.pending[b..];
    }
  }

  /** A step that meets no failure closes the encoder exactly when the body has ended, the windows
      take all that is buffered, and the closing burst fits. */
  lemma ClosesExactly(s: Put, room: Room)
    requires s.stepBytes > 0 && !s.finished && !s.closed && room.failAt.None? && !room.closeFails
    ensures !Stepped(s, room).finished
    ensures Stepped(s, room).closed <==> s.eofSeen && room.closeFits && room.writes * s.stepBytes >= |s.pending|
  {
    PacedMoves(s, room.writes);
  }

  // ---- how a run ends ----

  predicate Clear(room: Room) { room.failAt.None? && !room.closeFails }

  /** No abort from outside, and framing and closing do not fail. */
  predicate Smooth(e: Event) {
    match e
    case Abort => false
    case CommitAnswers(_) => true
    case Feed(_, room) => Clear(room)
    case FeedEOF(room) => Clear(room)
    case WindowOpens(room) => Clear(room)
    case StreamEnds(_, _, room) => Clear(room)
  }

  predicate AllIn(reports: seq<Option<bool>>) { forall i :: 0 <= i < |reports| ==> reports[i].Some? }

  /** The answer of the proposal, if it has come. */
  function Answer(events: seq<Event>, n: nat): Option<bool>
    requires n <= |events|
  {
    if n == 0 then None
    else if events[n - 1].CommitAnswers? then Some(events[n - 1].ok)
    else Answer(events, n - 1)
  }

  /** Enough shards are durable, and they are shards of the whole body. */
  predicate Enough(s: Put) { s.closed && CountOk(s.reports, true) >= s.floor }

  /** How a PUT stands, by its reports and the answer. */
  predicate Decided(s: Put, answer: Option<bool>) {
    if !AllIn(s.reports) then
      && !s.proposing && answer.None?
      && s.outcome == if CountOk(s.reports, false) > s.width - s.floor then Refused else Unsettled
    else if !Enough(s) then !s.proposing && answer.None? && s.outcome == Refused
    else if answer.None? then s.proposing && s.outcome == Unsettled
    else !s.proposing && s.outcome == if answer.value then Acked(CountOk(s.reports, true)) else Refused
  }

  lemma AllInLast(reports: seq<Option<bool>>)
    requires reports != []
    ensures AllIn(reports) <==> AllIn(reports[..|reports| - 1]) && reports[|reports| - 1].Some?
  {
    var rest := reports[..|reports| - 1];
    if AllIn(rest) && reports[|reports| - 1].Some? {
      forall i | 0 <= i < |reports|
        ensures reports[i].Some?
      {
        assert i < |rest| ==> rest[i].Some?;
      }
    }
  }

  lemma {:induction false} CountAll(reports: seq<Option<bool>>)
    ensures CountOk(reports, true) + CountOk(reports, false) == |reports| <==> AllIn(reports)
  {
    if reports != [] {
      var n := |reports| - 1;
      CountAll(reports[..n]);
      CountReports(reports[..n]);
      AllInLast(reports);
      if reports[n].Some? {
        var ok := reports[n].value;
        assert reports[n] == Some(ok) && (ok || !ok);
      }
    }
  }

  /** A step that meets no failure only paces and closes. */
  lemma {:induction false} PacedClear(s: Put, writes: nat)
    ensures var r := Paced(s, writes, None); !r.1 && r.0 == s.(written := r.0.written, pending := r.0.pending)
    decreases writes
  {
    if !(s.pending == [] || writes == 0 || s.stepBytes == 0) {
      var n := Min(s.stepBytes, |s.pending|);
      PacedClear(s.(written := s.written + s.pending[..n], pending := s.pending[n..]), writes - 1);
    }
  }

  lemma SteppedClear(s: Put, room: Room)
    requires Clear(room)
    ensures var t := Stepped(s, room); t == s.(written := t.written, pending := t.pending, closed := t.closed)
  {
    PacedClear(s, room.writes);
  }

  /** What is decided depends on these fields alone, and on the close only at the end. */
  lemma DecidedSame(s: Put, t: Put, a: Option<bool>)
    requires Decided(s, a) && !s.finished && Inv(s)
    requires t == s.(fed := t.fed, written := t.written, pending := t.pending, eofSeen := t.eofSeen, closed := t.closed)
    ensures Decided(t, a)
  {
    CountAll(s.reports);
  }

  lemma ReportDecides(s: Put, i: nat, ok: bool, room: Room, a: Option<bool>)
    requires Inv(s) && Decided(s, a) && Enabled(s, StreamEnds(i, ok, room)) && Clear(room)
    ensures Decided(StreamEnded(s, i, ok, room), a)
  {
    if !s.finished {
      CountAll(s.reports);
      CountedShape(s, i, ok);
      var t := Counted(s, i, ok);
      CountAll(t.reports);
      SteppedClear(t, room);
      hide Stepped, CountOk;
    }
  }

  lemma DecidedNext(s: Put, e: Event, a: Option<bool>)
    requires Inv(s) && Decided(s, a) && Enabled(s, e) && Smooth(e)
    ensures Decided(Next(s, e), if e.CommitAnswers? then Some(e.ok) else a)
  {
    hide Stepped, Decided, StreamEnded;
    match e
    case Feed(chunk, room) =>
      if !s.finished {
        var t := s.(fed := s.fed + chunk, pending := s.pending + chunk);
        SteppedClear(t, room);
        DecidedSame(s, Stepped(t, room), a);
      }
    case FeedEOF(room) =>
      if !s.finished {
        SteppedClear(s.(eofSeen := true), room);
        DecidedSame(s, Stepped(s.(eofSeen := true), room), a);
      }
    case WindowOpens(room) =>
      if s.finished {
        SteppedFinished(s, room);
      } else {
        SteppedClear(s, room);
        DecidedSame(s, Stepped(s, room), a);
      }
    case StreamEnds(i, ok, room) => ReportDecides(s, i, ok, room, a);
    case CommitAnswers(ok) => AnswerDecides(s, ok, a);
  }

  lemma SteppedFinished(s: Put, room: Room)
    requires s.finished
    ensures Stepped(s, room) == s
  {
  }

  lemma AnswerDecides(s: Put, ok: bool, a: Option<bool>)
    requires Inv(s) && Decided(s, a) && s.proposing
    ensures Decided(Settled(s, if ok then Acked(s.successes) else Refused), Some(ok))
  {
  }

  lemma BeganDecided(k: nat, m: nat, stepBytes: nat, down: seq<bool>)
    requires k > 0 && |down| == k + m
    ensures Decided(Began(k, m, stepBytes, down), None)
  {
    var s := Began(k, m, stepBytes, down);
    BeganInv(k, m, stepBytes, down);
    CountAll(s.reports);
    CountInitial(Skipped(k, m, down), s.reports);
    CountNone(k + m);
  }

  lemma {:induction false} RunDecides(trace: seq<Put>, events: seq<Event>, n: nat)
    requires IsRun(trace, events) && Inv(trace[0]) && Decided(trace[0], None) && n < |trace|
    requires forall i :: 0 <= i < n ==> Smooth(events[i])
    ensures Decided(trace[n], Answer(events, n))
  {
    hide Inv, Decided, Next, Smooth;
    if n > 0 {
      RunDecides(trace, events, n - 1);
      RunInv(trace, events, n - 1);
      DecidedNext(trace[n - 1], events[n - 1], Answer(events, n - 1));
    }
  }

  /** The ack rule, exactly, in every run without an abort or a framing failure. Before all streams
      have reported the PUT is refused if and only if more have failed than the floor allows. When all
      have, it proposes if and only if the encoder was closed and at least min(k+1, k+m) succeeded; it
      is acknowledged, with their number, if and only if the proposal is answered well. */
  lemma AckedExactly(k: nat, m: nat, stepBytes: nat, down: seq<bool>, trace: seq<Put>, events: seq<Event>, n: nat)
    requires k > 0 && |down| == k + m && IsRun(trace, events) && trace[0] == Began(k, m, stepBytes, down) && n < |trace|
    requires forall i :: 0 <= i < n ==> Smooth(events[i])
    ensures var s, a := trace[n], Answer(events, n);
      var enough := s.closed && CountOk(s.reports, true) >= Min(k + 1, k + m);
      if !AllIn(s.reports) then
        && a.None? && !s.proposing
        && s.outcome == if CountOk(s.reports, false) > k + m - Min(k + 1, k + m) then Refused else Unsettled
      else if a.None? then s.proposing == enough && s.outcome == if enough then Unsettled else Refused
      else enough && s.outcome == if a.value then Acked(CountOk(s.reports, true)) else Refused
  {
    BeganInv(k, m, stepBytes, down);
    BeganDecided(k, m, stepBytes, down);
    RunDecides(trace, events, n);
    FloorFixed(trace, events, n);
    hide Next, Inv, CountOk;
  }

  // ---- a run that is acknowledged ----

  function Reports(oks: seq<bool>): (events: seq<Event>)
    ensures |events| == |oks| && forall i :: 0 <= i < |oks| ==> events[i] == StreamEnds(i, oks[i], NoRoom)
  {
    seq(|oks|, i requires 0 <= i < |oks| => StreamEnds(i, oks[i], NoRoom))
  }

  /** Closed over the whole body, the first n streams heard. */
  predicate Hearing(s: Put, body: bytes, oks: seq<bool>, n: nat) {
    && n <= |oks| == s.width && s.closed && s.fed == s.written == body && |s.reports| == |s.failed| == s.width
    && (forall i :: 0 <= i < s.width ==> s.reports[i] == if i < n then Some(oks[i]) else None)
    && (n < s.width ==> !s.finished)
  }

  lemma {:induction false} CountHeard(reports: seq<Option<bool>>, oks: seq<bool>)
    requires |reports| == |oks| && forall i :: 0 <= i < |oks| ==> reports[i] == Some(oks[i])
    ensures CountOk(reports, true) == CountTrue(oks)
  {
    if oks != [] {
      var n := |oks| - 1;
      CountHeard(reports[..n], oks[..n]);
    }
  }

  /** Fewer failures among the first n than in all. */
  lemma {:induction false} FailuresHeard(reports: seq<Option<bool>>, oks: seq<bool>, n: nat)
    requires |reports| == |oks| && n <= |oks|
    requires forall i :: 0 <= i < |oks| ==> reports[i] == if i < n then Some(oks[i]) else None
    ensures CountOk(reports, false) + CountTrue(oks) <= |oks|
  {
    if oks != [] {
      var k := |oks| - 1;
      FailuresHeard(reports[..k], oks[..k], if n > k then k else n);
    }
  }

  lemma HearsNext(s: Put, body: bytes, oks: seq<bool>, n: nat)
    requires Inv(s) && Hearing(s, body, oks, n) && n < |oks| && CountTrue(oks) >= s.floor
    ensures Enabled(s, StreamEnds(n, oks[n], NoRoom))
    ensures var t := Next(s, StreamEnds(n, oks[n], NoRoom)); Hearing(t, body, oks, n + 1) && t.floor == s.floor
  {
    hide CountOk, CountTrue, Body, Verdict;
    var t := Counted(s, n, oks[n]);
    HearsCounted(s, body, oks, n);
    SteppedClosed(t);
    hide Stepped, Inv;
  }

  /** Counted, it has not failed too often, and is done only with the last. */
  lemma HearsCounted(s: Put, body: bytes, oks: seq<bool>, n: nat)
    requires Inv(s) && Hearing(s, body, oks, n) && n < |oks| && CountTrue(oks) >= s.floor
    ensures var t := Counted(s, n, oks[n]);
      && (forall i :: 0 <= i < s.width ==> t.reports[i] == if i < n + 1 then Some(oks[i]) else None)
      && t.failures + t.floor <= t.width && (n + 1 < t.width ==> t.successes + t.failures < t.width)
  {
    hide CountOk, CountTrue;
    var t := Counted(s, n, oks[n]);
    CountedShape(s, n, oks[n]);
    FailuresHeard(t.reports, oks, n + 1);
    CountAll(t.reports);
    if n + 1 < t.width {
      assert t.reports[n + 1].None?;
    }
  }

  lemma SteppedClosed(s: Put)
    requires s.closed
    ensures Stepped(s, NoRoom) == s
  {
  }

  lemma {:induction false} HeardRun(start: Put, body: bytes, oks: seq<bool>, n: nat) returns (trace: seq<Put>)
    requires Inv(start) && Hearing(start, body, oks, 0) && n <= |oks| && CountTrue(oks) >= start.floor
    ensures IsRun(trace, Reports(oks)[..n]) && trace[0] == start
    ensures Hearing(trace[n], body, oks, n) && trace[n].floor == start.floor
  {
    hide Hearing, Enabled, Next, Inv, CountTrue;
    if n == 0 {
      trace := [start];
    } else {
      var before := HeardRun(start, body, oks, n - 1);
      RunInv(before, Reports(oks)[..n - 1], n - 1);
      HearsNext(before[n - 1], body, oks, n - 1);
      trace := before + [Next(before[n - 1], Reports(oks)[n - 1])];
      assert Reports(oks)[..n] == Reports(oks)[..n - 1] + [Reports(oks)[n - 1]];
    }
  }

  /** The body fed and ended, with room for all of it. */
  function Fed(body: bytes): seq<Event> { [Feed(body, NoRoom), FeedEOF(Room(|body|, None, true, false))] }

  /** Nothing goes into the encoder without room. */
  lemma FedWaits(s: Put, body: bytes)
    requires !s.finished && !s.closed && s.fed == s.pending == s.written == [] && !s.eofSeen
    ensures Next(s, Feed(body, NoRoom)) == s.(fed := body, pending := body)
  {
    assert [] + body == body;
  }

  lemma EndCloses(s: Put, body: bytes)
    requires s.stepBytes > 0 && !s.finished && !s.closed && s.fed == s.pending == body && s.written == []
    ensures Next(s, FeedEOF(Room(|body|, None, true, false))) ==
      s.(eofSeen := true, written := body, pending := [], closed := true)
  {
    PacedMoves(s.(eofSeen := true), |body|);
    assert |body| * s.stepBytes >= |body|;
    assert [] + body[..|body|] == body && body[|body|..] == [];
    hide Paced;
  }

  lemma FedCloses(k: nat, m: nat, stepBytes: nat, body: bytes, oks: seq<bool>) returns (trace: seq<Put>)
    requires k > 0 && stepBytes > 0 && |oks| == k + m
    ensures IsRun(trace, Fed(body)) && trace[0] == Began(k, m, stepBytes, AllUp(k + m))
    ensures Hearing(trace[2], body, oks, 0) && trace[2].floor == Min(k + 1, k + m)
  {
    hide Next;
    NoneDown(k + m);
    var s := Began(k, m, stepBytes, AllUp(k + m));
    assert Skipped(k, m, AllUp(k + m)) == AllUp(k + m);
    hide CountTrue, Skipped;
    FedWaits(s, body);
    var t := Next(s, Feed(body, NoRoom));
    EndCloses(t, body);
    trace := [s, t, Next(t, Fed(body)[1])];
  }

  lemma Joins(a: seq<Put>, x: seq<Event>, b: seq<Put>, y: seq<Event>)
    requires IsRun(a, x) && IsRun(b, y) && a[|x|] == b[0]
    ensures IsRun(a + b[1..], x + y) && (a + b[1..])[|x| + |y|] == b[|y|]
  {
    hide Enabled, Next;
    var t, e := a + b[1..], x + y;
    forall i | 0 <= i < |e|
      ensures Enabled(t[i], e[i]) && t[i + 1] == Next(t[i], e[i])
    {
      if i >= |x| {
        assert t[i] == b[i - |x|] && t[i + 1] == b[i - |x| + 1];
      }
    }
  }

  lemma SuccessesCounted(s: Put)
    requires Inv(s)
    ensures s.successes == CountOk(s.reports, true)
  {
  }

  lemma AllSmooth(body: bytes, oks: seq<bool>)
    ensures forall i :: 0 <= i < 2 + |oks| ==> Smooth((Fed(body) + Reports(oks))[i])
  {
  }

  lemma {:induction false} NoAnswer(body: bytes, oks: seq<bool>, n: nat)
    requires n <= 2 + |oks|
    ensures Answer(Fed(body) + Reports(oks), n) == None
  {
    if n > 0 {
      NoAnswer(body, oks, n - 1);
    }
  }

  lemma HeardAll(s: Put, body: bytes, oks: seq<bool>)
    requires Hearing(s, body, oks, |oks|)
    ensures AllIn(s.reports) && CountOk(s.reports, true) == CountTrue(oks) && s.closed && s.written == body
  {
    CountHeard(s.reports, oks);
  }

  lemma Answered(trace: seq<Put>, events: seq<Event>)
    requires IsRun(trace, events) && trace[|events|].proposing
    ensures Enabled(trace[|events|], CommitAnswers(true))
    ensures var t := Next(trace[|events|], CommitAnswers(true));
      && IsRun(trace + [t], events + [CommitAnswers(true)])
      && t.outcome == Acked(trace[|events|].successes) && t.written == trace[|events|].written
  {
  }

  /** For every profile, body and set of outcomes with at least min(k+1, k+m) successes there is a run
      that is acknowledged with their number, over that body. */
  lemma PutSucceeds(k: nat, m: nat, stepBytes: nat, body: bytes, oks: seq<bool>)
    returns (trace: seq<Put>, events: seq<Event>)
    requires k > 0 && stepBytes > 0 && |oks| == k + m && CountTrue(oks) >= Min(k + 1, k + m)
    ensures IsRun(trace, events) && trace[0] == Began(k, m, stepBytes, AllUp(k + m))
    ensures trace[|events|].outcome == Acked(CountTrue(oks)) && trace[|events|].written == body
  {
    hide Hearing, Enabled, Next, Inv, CountTrue, Began, Smooth;
    var first := FedCloses(k, m, stepBytes, body, oks);
    BeganInv(k, m, stepBytes, AllUp(k + m));
    RunInv(first, Fed(body), 2);
    var rest := HeardRun(first[2], body, oks, |oks|);
    assert Reports(oks)[..|oks|] == Reports(oks);
    Joins(first, Fed(body), rest, Reports(oks));
    trace, events := first + rest[1..], Fed(body) + Reports(oks);
    var n := |events|;
    AllSmooth(body, oks);
    AckedExactly(k, m, stepBytes, AllUp(k + m), trace, events, n);
    HeardAll(trace[n], body, oks);
    NoAnswer(body, oks, n);
    RunInv(trace, events, n);
    SuccessesCounted(trace[n]);
    Answered(trace, events);
    trace, events := trace + [Next(trace[n], CommitAnswers(true))], events + [CommitAnswers(true)];
  }
}
