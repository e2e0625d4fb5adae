/** One PUT: the body fed and paced into the encoder, the streams' outcomes gathered, the ack
    rule, the metadata commit. */
module CoordPut {
  import opened Bytes

  datatype Outcome = Unsettled | Refused | Acked(durable: nat)

  /** The operation. `reports` is history: how each stream ended, a skipped one counting as
      failed from the start. */
  datatype Put = Put(
    width: nat, floor: nat, stepBytes: nat,
    fed: bytes, pending: bytes, written: bytes, eofSeen: bool, closed: bool,
    failed: seq<bool>, failures: nat, successes: nat,
    finished: bool, proposing: bool, fired: nat, outcome: Outcome,
    reports: seq<Option<bool>>)

  /** What the streams and the framing allow one pacing step: how many writes the windows take,
      whether and when framing fails, whether the closing burst fits, whether closing fails. */
  datatype Room = Room(writes: nat, failAt: Option<nat>, closeFits: bool, closeFails: bool)

  datatype Event =
    | Feed(chunk: bytes, room: Room)
    | FeedEOF(room: Room)
    | WindowOpens(room: Room)
    | StreamEnds(i: nat, ok: bool, room: Room)
    | Abort
    | CommitAnswers(ok: bool)

  function Min(a: nat, b: nat): nat { if a < b then a else b }

  function CountTrue(s: seq<bool>): (n: nat)
    ensures n <= |s|
  {
    if s == [] then 0 else CountTrue(s[..|s| - 1]) + if s[|s| - 1] then 1 else 0
  }

  // ---- beginning ----

  /** Known-down nodes are skipped only while enough others remain for the floor. */
  function Skipped(k: nat, m: nat, down: seq<bool>): (skip: seq<bool>)
    requires |down| == k + m
    ensures |skip| == k + m
  {
    if |down| - CountTrue(down) < Min(k + 1, k + m) then seq(k + m, _ => false) else down
  }

  function Began(k: nat, m: nat, stepBytes: nat, down: seq<bool>): Put
    requires |down| == k + m
  {
    var skip := Skipped(k, m, down);
    Put(k + m, Min(k + 1, k + m), stepBytes, [], [], [], false, false, skip, CountTrue(skip), 0, false, false, 0,
        Unsettled,
        seq(k + m, i requires 0 <= i < k + m => if skip[i] then Some(false) else None))
  }

  // ---- the steps ----

  /** The one callback: settles the operation. */
  function Settled(s: Put, out: Outcome): Put {
    s.(finished := true, proposing := false, fired := s.fired + 1, outcome := out)
  }

  function Aborted(s: Put): Put {
    if s.finished then s else Settled(s, Refused)
  }

  /** Moves up to `writes` pieces of the buffer into the encoder; the flag says whether framing
      failed. */
  function Paced(s: Put, writes: nat, failAt: Option<nat>): (Put, bool)
    decreases writes
  {
    if s.pending == [] || writes == 0 || s.stepBytes == 0 then (s, false)
    else if failAt == Some(0) then (s, true)
    else
      var n := Min(s.stepBytes, |s.pending|);
      var next := s.(written := s.written + s.pending[..n], pending := s.pending[n..]);
      Paced(next, writes - 1, if failAt.Some? then Some(failAt.value - 1) else None)
  }

  function Stepped(s: Put, room: Room): Put {
    if s.finished || s.closed then s
    else
      var (p, bad) := Paced(s, room.writes, room.failAt);
      if bad then Aborted(p)
      else if p.pending != [] || !p.eofSeen || !room.closeFits then p
      else if room.closeFails then Aborted(p)
      else p.(closed := true)
  }

  /** The ack rule: enough shards durable, and the encoder closed. */
  function Evaluated(s: Put): Put {
    if s.successes < s.floor || !s.closed then Settled(s, Refused) else s.(finished := true, proposing := true)
  }

  function StreamEnded(s: Put, i: nat, ok: bool, room: Room): Put
    requires i < |s.failed| && i < |s.reports|
  {
    if s.finished then s
    else
      var r := s.(reports := s.reports[i := Some(ok)]);
      if ok then
        var t := r.(successes := s.successes + 1);
        if t.successes + t.failures < t.width then Stepped(t, room) else Evaluated(t)
      else
        var t := r.(failed := s.failed[i := true], failures := s.failures + 1);
        if t.successes + t.failures < t.width && t.failures + t.floor > t.width then Aborted(t)
        else if t.successes + t.failures < t.width then Stepped(t, room)
        else Evaluated(t)
  }

  /** When an event may happen: the body is fed before its end is marked; a stream ends once, well or
      badly, closed or not; the proposal answers once. */
  predicate Enabled(s: Put, e: Event) {
    match e
    case StreamEnds(i, ok, _) => i < |s.failed| && i < |s.reports| && s.reports[i].None?
    case CommitAnswers(_) => s.proposing
    case Feed(_, _) => !s.eofSeen
    case _ => true
  }

  function Next(s: Put, e: Event): Put
    requires Enabled(s, e)
  {
    match e
    case Feed(chunk, room) => if s.finished then s
      else Stepped(s.(fed := s.fed + chunk, pending := s.pending + chunk), room)
    case FeedEOF(room) => if s.finished then s else Stepped(s.(eofSeen := true), room)
    case WindowOpens(room) => Stepped(s, room)
    case StreamEnds(i, ok, room) => StreamEnded(s, i, ok, room)
    case Abort => Aborted(s)
    case CommitAnswers(ok) => Settled(s, if ok then Acked(s.successes) else Refused)
  }

  // ---- what every step keeps ----

  function CountOk(reports: seq<Option<bool>>, ok: bool): (n: nat)
    ensures n <= |reports|
  {
    if reports == [] then 0 else CountOk(reports[..|reports| - 1], ok) + if reports[|reports| - 1] == Some(ok) then 1
      else 0
  }

  predicate Shape(s: Put) {
    && s.width > 0 && s.floor <= s.width && |s.failed| == |s.reports| == s.width
    && (forall i :: 0 <= i < s.width ==> (s.failed[i] <==> s.reports[i] == Some(false)))
    && s.successes == CountOk(s.reports, true) && s.failures == CountOk(s.reports, false)
  }

  /** No body byte is lost, repeated or reordered on the way to the encoder; what is closed is
      the whole body. */
  predicate Body(s: Put) {
    s.fed == s.written + s.pending && (s.closed ==> s.pending == [] && s.eofSeen)
  }

  /** The callback fires at most once; success needs a closed encoder and the floor. */
  predicate Verdict(s: Put) {
    && (!s.finished ==> s.fired == 0 && !s.proposing && s.outcome.Unsettled? && s.successes + s.failures < s.width)
    && (s.finished && s.proposing ==> s.fired == 0 && s.outcome.Unsettled? && s.closed && s.successes >= s.floor)
    && (s.finished && !s.proposing ==> s.fired == 1 && !s.outcome.Unsettled?)
    && (s.outcome.Acked? ==> s.closed && s.outcome.durable == s.successes >= s.floor)
  }

  predicate Inv(s: Put) {
    Shape(s) && Body(s) && Verdict(s)
  }

  lemma {:induction false} CountReports(reports: seq<Option<bool>>)
    ensures CountOk(reports, true) + CountOk(reports, false) <= |reports|
  {
    if reports != [] {
      CountReports(reports[..|reports| - 1]);
    }
  }

  lemma {:induction false} CountReport(reports: seq<Option<bool>>, i: nat, ok: bool, want: bool)
    requires i < |reports| && reports[i].None?
    ensures CountOk(reports[i := Some(ok)], want) == CountOk(reports, want) + if ok == want then 1 else 0
  {
    var n := |reports| - 1;
    var more := reports[i := Some(ok)];
    if i < n {
      CountReport(reports[..n], i, ok, want);
      assert more[..n] == reports[..n][i := Some(ok)];
    } else {
      assert more[..n] == reports[..n];
    }
  }

  lemma {:induction false} CountInitial(skip: seq<bool>, reports: seq<Option<bool>>)
    requires |skip| == |reports| && forall i :: 0 <= i < |skip| ==>
      reports[i] == (if skip[i] then Some(false) else None)
    ensures CountOk(reports, true) == 0 && CountOk(reports, false) == CountTrue(skip)
  {
    if skip != [] {
      CountInitial(skip[..|skip| - 1], reports[..|skip| - 1]);
    }
  }

  lemma {:induction false} CountNone(n: nat)
    ensures CountTrue(seq(n, _ => false)) == 0
  {
    if n > 0 {
      CountNone(n - 1);
      assert seq(n, _ => false)[..n - 1] == seq(n - 1, _ => false);
    }
  }

  /** A PUT begins with fewer failures than streams: the floor's worth of nodes is tried. */
  lemma BeganInv(k: nat, m: nat, stepBytes: nat, down: seq<bool>)
    requires k > 0 && |down| == k + m
    ensures Inv(Began(k, m, stepBytes, down)) && (m > 0 ==> Began(k, m, stepBytes, down).floor == k + 1)
  {
    var s := Began(k, m, stepBytes, down);
    CountInitial(Skipped(k, m, down), s.reports);
    CountNone(k + m);
  }

  lemma MovePiece(written: bytes, pending: bytes, n: nat)
    requires n <= |pending|
    ensures written + pending == written + pending[..n] + pending[n..]
  {
    assert pending == pending[..n] + pending[n..];
  }

  lemma {:induction false} PacedKeeps(s: Put, writes: nat, failAt: Option<nat>)
    requires s.fed == s.written + s.pending
    ensures var p := Paced(s, writes, failAt).0;
      p.fed == p.written + p.pending && p == s.(written := p.written, pending := p.pending)
    decreases writes
  {
    if !(s.pending == [] || writes == 0 || s.stepBytes == 0) && failAt != Some(0) {
      var n := Min(s.stepBytes, |s.pending|);
      var next := s.(written := s.written + s.pending[..n], pending := s.pending[n..]);
      MovePiece(s.written, s.pending, n);
      PacedKeeps(next, writes - 1, if failAt.Some? then Some(failAt.value - 1) else None);
    }
  }

  lemma SteppedInv(s: Put, room: Room)
    requires Inv(s)
    ensures Inv(Stepped(s, room))
  {
    PacedKeeps(s, room.writes, room.failAt);
  }

  /** The counters after one more stream has reported. */
  function Counted(s: Put, i: nat, ok: bool): Put
    requires i < |s.failed| && i < |s.reports|
  {
    var r := s.(reports := s.reports[i := Some(ok)]);
    if ok then r.(successes := s.successes + 1) else r.(failed := s.failed[i := true], failures := s.failures + 1)
  }

  lemma CountedShape(s: Put, i: nat, ok: bool)
    requires Shape(s) && i < s.width && s.reports[i].None?
    ensures Shape(Counted(s, i, ok)) && Counted(s, i, ok).successes + Counted(s, i, ok).failures <= s.width
  {
    hide CountOk;
    CountReport(s.reports, i, ok, true);
    CountReport(s.reports, i, ok, false);
    CountReports(s.reports[i := Some(ok)]);
  }

  lemma EndedInv(s: Put, i: nat, ok: bool, room: Room)
    requires Inv(s) && Enabled(s, StreamEnds(i, ok, room))
    ensures Inv(StreamEnded(s, i, ok, room))
  {
    if !s.finished {
      CountedShape(s, i, ok);
      var t := Counted(s, i, ok);
      hide Shape, Stepped;
      assert Body(t);
      if t.successes + t.failures < t.width {
        assert Verdict(t);
        SteppedInv(t, room);
      }
    }
  }

  /** Every event keeps the invariant. */
  lemma NextInv(s: Put, e: Event)
    requires Inv(s) && Enabled(s, e)
    ensures Inv(Next(s, e))
  {
    match e {
      case Feed(chunk, room) =>
        if !s.finished {
          FeedInv(s, chunk, room);
        }
      case FeedEOF(room) =>
        if !s.finished {
          SteppedInv(s.(eofSeen := true), room);
        }
      case WindowOpens(room) => SteppedInv(s, room);
      case StreamEnds(i, ok, room) => EndedInv(s, i, ok, room);
      case Abort =>
      case CommitAnswers(ok) =>
    }
  }

  /** Feeding a body that is still open. */
  lemma FeedInv(s: Put, chunk: bytes, room: Room)
    requires Inv(s) && !s.finished && !s.eofSeen
    ensures Inv(Stepped(s.(fed := s.fed + chunk, pending := s.pending + chunk), room))
  {
    var t := s.(fed := s.fed + chunk, pending := s.pending + chunk);
    assert t.fed == t.written + t.pending;
    SteppedInv(t, room);
  }

  // ---- runs ----

  /** A run: each event enabled in turn. */
  predicate IsRun(trace: seq<Put>, events: seq<Event>) {
    && |trace| == |events| + 1
    && forall i :: 0 <= i < |events| ==> Enabled(trace[i], events[i]) && trace[i + 1] == Next(trace[i], events[i])
  }

  lemma {:induction false} RunInv(trace: seq<Put>, events: seq<Event>, n: nat)
    requires IsRun(trace, events) && Inv(trace[0]) && n < |trace|
    ensures Inv(trace[n])
  {
    hide Inv, Next;
    if n > 0 {
      RunInv(trace, events, n - 1);
      NextInv(trace[n - 1], events[n - 1]);
    }
  }

  /** Once settled, settled: nothing changes the outcome and the callback does not fire again. */
  lemma SettledStays(s: Put, e: Event)
    requires Inv(s) && Enabled(s, e) && s.fired == 1
    ensures Next(s, e).fired == 1 && Next(s, e).outcome == s.outcome
  {
  }

  /** In every run from a begun PUT: the callback has fired at most once; if it reported success
      then the encoder was closed over the whole body fed and at least the floor of the streams
      committed, and the count reported is how many. */
  lemma PutRun(k: nat, m: nat, stepBytes: nat, down: seq<bool>, trace: seq<Put>, events: seq<Event>, n: nat)
    requires k > 0 && |down| == k + m && IsRun(trace, events) && trace[0] == Began(k, m, stepBytes, down) && n < |trace|
    ensures trace[n].fired <= 1
    ensures trace[n].outcome.Acked? ==>
      && trace[n].fired == 1 && trace[n].closed && trace[n].written == trace[n].fed
      && trace[n].outcome.durable == CountOk(trace[n].reports, true)
      && trace[n].outcome.durable >= Min(k + 1, k + m)
  {
    BeganInv(k, m, stepBytes, down);
    RunInv(trace, events, n);
    FloorFixed(trace, events, n);
    hide Next, Began;
    assert trace[n].pending == [] ==> trace[n].written + [] == trace[n].written;
  }

  // ---- the close decides ----

  const NoRoom := Room(0, None, false, false)

  /** Every stream succeeds, in order, before the body has ended. */
  function EarlyEnds(n: nat): (events: seq<Event>)
    ensures |events| == n && forall i :: 0 <= i < n ==> events[i] == StreamEnds(i, true, NoRoom)
  {
    seq(n, i requires 0 <= i < n => StreamEnds(i, true, NoRoom))
  }

  /** The first n streams of a PUT with no body yet have succeeded. */
  predicate Early(s: Put, width: nat, n: nat) {
    && n <= width == s.width == |s.reports| == |s.failed| && s.successes == n && s.failures == 0
    && !s.closed && !s.eofSeen && s.pending == []
    && (forall i :: 0 <= i < width ==> s.reports[i] == if i < n then Some(true) else None)
    && if n < width then !s.finished && s.outcome.Unsettled? else s.finished && s.outcome.Refused?
  }

  lemma EarlyStep(s: Put, width: nat, n: nat)
    requires Early(s, width, n) && n < width
    ensures Enabled(s, StreamEnds(n, true, NoRoom)) && Early(Next(s, StreamEnds(n, true, NoRoom)), width, n + 1)
  {
  }

  lemma {:induction false} EarlyRun(start: Put, width: nat, n: nat) returns (trace: seq<Put>)
    requires Early(start, width, 0) && n <= width && width > 0
    ensures IsRun(trace, EarlyEnds(n)) && trace[0] == start && Early(trace[n], width, n)
  {
    hide Early, Enabled, Next;
    if n == 0 {
      trace := [start];
    } else {
      var before := EarlyRun(start, width, n - 1);
      EarlyStep(before[n - 1], width, n - 1);
      trace := before + [Next(before[n - 1], StreamEnds(n - 1, true, NoRoom))];
      assert forall i :: 0 <= i < n - 1 ==> EarlyEnds(n)[i] == EarlyEnds(n - 1)[i];
    }
  }

  /** The close is decisive: a PUT all of whose streams report success before the encoder is closed
      is refused. */
  lemma SuccessNeedsClose(k: nat, m: nat, stepBytes: nat) returns (trace: seq<Put>)
    requires k > 0
    ensures IsRun(trace, EarlyEnds(k + m)) && trace[0] == Began(k, m, stepBytes, AllUp(k + m))
    ensures var last := trace[k + m];
      last.outcome.Refused? && forall i :: 0 <= i < k + m ==> |last.reports| == k + m && last.reports[i] == Some(true)
  {
    NoneDown(k + m);
    var start := Began(k, m, stepBytes, AllUp(k + m));
    assert Skipped(k, m, AllUp(k + m)) == AllUp(k + m);
    trace := EarlyRun(start, k + m, k + m);
  }

  function AllUp(n: nat): (down: seq<bool>)
    ensures |down| == n && forall i :: 0 <= i < n ==> !down[i]
  {
    seq(n, _ => false)
  }

  lemma {:induction false} NoneDown(n: nat)
    ensures CountTrue(AllUp(n)) == 0
  {
    if n > 0 {
      NoneDown(n - 1);
      assert AllUp(n)[..n - 1] == AllUp(n - 1);
    }
  }

  // ---- the floor is fixed ----

  lemma {:induction false} FloorFixed(trace: seq<Put>, events: seq<Event>, n: nat)
    requires IsRun(trace, events) && Inv(trace[0]) && n < |trace|
    ensures trace[n].floor == trace[0].floor && trace[n].width == trace[0].width
  {
    if n > 0 {
      FloorFixed(trace, events, n - 1);
      RunInv(trace, events, n - 1);
      NextKeepsFloor(trace[n - 1], events[n - 1]);
    }
  }

  lemma NextKeepsFloor(s: Put, e: Event)
    requires Inv(s) && Enabled(s, e)
    ensures Next(s, e).floor == s.floor && Next(s, e).width == s.width
  {
    match e {
      case Feed(chunk, room) => StepKeepsFloor(s.(fed := s.fed + chunk, pending := s.pending + chunk), room);
      case FeedEOF(room) => StepKeepsFloor(s.(eofSeen := true), room);
      case WindowOpens(room) => StepKeepsFloor(s, room);
      case StreamEnds(i, ok, room) =>
        var r := s.(reports := s.reports[i := Some(ok)]);
        StepKeepsFloor(r.(successes := s.successes + 1), room);
        StepKeepsFloor(r.(failed := s.failed[i := true], failures := s.failures + 1), room);
      case _ =>
    }
  }

  lemma StepKeepsFloor(s: Put, room: Room)
    ensures Stepped(s, room).floor == s.floor && Stepped(s, room).width == s.width
  {
    PaceKeepsFloor(s, room.writes, room.failAt);
  }

  lemma {:induction false} PaceKeepsFloor(s: Put, writes: nat, failAt: Option<nat>)
    ensures Paced(s, writes, failAt).0.floor == s.floor && Paced(s, writes, failAt).0.width == s.width
    decreases writes
  {
    if !(s.pending == [] || writes == 0 || s.stepBytes == 0) && failAt != Some(0) {
      var n := Min(s.stepBytes, |s.pending|);
      PaceKeepsFloor(s.(written := s.written + s.pending[..n], pending := s.pending[n..]), writes - 1,
                     if failAt.Some? then Some(failAt.value - 1) else None);
    }
  }

  // ---- the operation as it runs ----

  class PutOp {
    const width: nat
    const floor: nat
    const stepBytes: nat
    ghost var fed: bytes
    var pending: bytes
    ghost var written: bytes
    var eofSeen: bool
    var closed: bool
    var failed: seq<bool>
    var failures: nat
    var successes: nat
    var finished: bool
    var proposing: bool
    var fired: nat
    var outcome: Outcome
    ghost var reports: seq<Option<bool>>

    ghost function View(): Put
      reads this
    {
      Put(width, floor, stepBytes, fed, pending, written, eofSeen, closed, failed, failures, successes, finished,
          proposing,
          fired, outcome, reports)
    }

    constructor (k: nat, m: nat, stepBytes: nat, down: seq<bool>)
      requires k > 0 && |down| == k + m
      ensures View() == Began(k, m, stepBytes, down)
    {
      width, floor, this.stepBytes := k + m, Min(k + 1, k + m), stepBytes;
      fed, pending, written, eofSeen, closed := [], [], [], false, false;
      successes, finished, proposing, fired, outcome := 0, false, false, 0, Unsettled;
      var up := k + m - CountTrue(down);
      var skip := if up < Min(k + 1, k + m) then seq(k + m, _ => false) else down;
      failed, failures := skip, CountTrue(skip);
      reports := seq(k + m, i requires 0 <= i < k + m => if skip[i] then Some(false) else None);
    }

    method Feed(chunk: bytes, room: Room)
      modifies this
      ensures View() == if old(finished) then old(View())
        else Stepped(old(View()).(fed := old(fed) + chunk, pending := old(pending) + chunk), room)
    {
      if finished {
        return;
      }
      fed := fed + chunk;
      pending := pending + chunk;
      Step(room);
    }

    method FeedEOF(room: Room)
      modifies this
      ensures View() == if old(finished) then old(View()) else Stepped(old(View()).(eofSeen := true), room)
    {
      if finished {
        return;
      }
      eofSeen := true;
      Step(room);
    }

    /** Paces the buffer into the encoder while windows allow; closes once the whole body is in. */
    method Step(room: Room)
      modifies this
      ensures View() == Stepped(old(View()), room)
    {
      if finished || closed {
        return;
      }
      var writes, failAt := room.writes, room.failAt;
      while |pending| > 0 && stepBytes > 0
        invariant Paced(old(View()), room.writes, room.failAt) == Paced(View(), writes, failAt)
        invariant !finished && !closed && eofSeen == old(eofSeen) && fired == old(fired) && outcome == old(outcome)
        decreases writes
      {
        if writes == 0 {
          return;
        }
        if failAt == Some(0) {
          AbortOp();
          return;
        }
        var n := Min(stepBytes, |pending|);
        written := written + pending[..n];
        pending := pending[n..];
        writes := writes - 1;
        failAt := if failAt.Some? then Some(failAt.value - 1) else None;
      }
      if |pending| > 0 || !eofSeen || !room.closeFits {
        return;
      }
      if room.closeFails {
        AbortOp();
        return;
      }
      closed := true;
    }

    method StreamDone(i: nat, ok: bool, room: Room)
      requires i < |failed| && i < |reports|
      modifies this
      ensures View() == StreamEnded(old(View()), i, ok, room)
    {
      hide Stepped, Evaluated, Aborted;
      if finished {
        return;
      }
      reports := reports[i := Some(ok)];
      if !ok {
        failed := failed[i := true];
        failures := failures + 1;
        if successes + failures < width && failures + floor > width {
          AbortOp();
          return;
        }
      } else {
        successes := successes + 1;
      }
      if successes + failures < width {
        Step(room);
        return;
      }
      Evaluate();
    }

    method Evaluate()
      modifies this
      ensures View() == Evaluated(old(View()))
    {
      if successes < floor || !closed {
        Done(Refused);
        return;
      }
      finished := true;
      proposing := true;
    }

    method AbortOp()
      modifies this
      ensures View() == Aborted(old(View()))
    {
      if finished {
        return;
      }
      Done(Refused);
    }

    /** The proposal's answer. */
    method Answered(ok: bool)
      modifies this
      ensures View() == Settled(old(View()), if ok then Acked(old(successes)) else Refused)
    {
      Done(if ok then Acked(successes) else Refused);
    }

    /** Fires the callback. */
    method Done(out: Outcome)
      modifies this
      ensures View() == Settled(old(View()), out)
    {
      finished := true;
      proposing := false;
      fired := fired + 1;
      outcome := out;
    }
  }
}
