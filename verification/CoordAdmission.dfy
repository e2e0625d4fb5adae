/** Admission: the adaptive limiter around every PUT, and the coordinator that runs them. */
module CoordAdmission {
  import opened Bytes
  import opened CoordPut

  const Floor := 4
  const Ceiling := 256
  const Start := 16
  const ShedThreshold: real := 0.5
  const Decrease: real := 0.9

  datatype Gate = Gate(limit: int, inflight: int)

  function Acquired(g: Gate): Option<Gate> {
    if g.inflight >= g.limit then None else Some(g.(inflight := g.inflight + 1))
  }

  function NextLimit(limit: int, gradient: real): int {
    if gradient >= ShedThreshold then if limit < Ceiling then limit + 1 else limit
    else
      var cut := (limit as real * Decrease).Floor;
      if cut < Floor then Floor else cut
  }

  function Released(g: Gate, gradient: real): Gate {
    Gate(NextLimit(g.limit, gradient), if g.inflight > 0 then g.inflight - 1 else g.inflight)
  }

  /** Whatever the gradient, the limit stays between the floor and the ceiling. */
  lemma LimitBounded(limit: int, gradient: real)
    requires Floor <= limit <= Ceiling
    ensures Floor <= NextLimit(limit, gradient) <= Ceiling
    ensures gradient < ShedThreshold ==> NextLimit(limit, gradient) <= limit
  {
    assert limit as real * Decrease <= limit as real;
  }

  /** A healthy callback raises the limit by one up to the ceiling; a slow one cuts it by a tenth, rounding
      down, to no less than the floor. */
  lemma LimitMoves(limit: int, gradient: real)
    requires 4 <= limit <= 256
    ensures NextLimit(limit, gradient) ==
      if gradient >= 0.5 then (if limit == 256 then 256 else limit + 1)
      else if limit <= 4 then 4 else if 9 * limit / 10 < 4 then 4 else 9 * limit / 10
  {
    var cut := (limit as real * Decrease).Floor;
    assert cut as real <= 0.9 * limit as real < cut as real + 1.0;
    assert 10 * cut <= 9 * limit < 10 * cut + 10;
  }

  class Limiter {
    var limit: int
    var inflight: int

    ghost function View(): Gate
      reads this
    {
      Gate(limit, inflight)
    }

    constructor ()
      ensures View() == Gate(Start, 0)
    {
      limit, inflight := Start, 0;
    }

    method TryAcquire() returns (ok: bool)
      modifies this
      ensures ok == Acquired(old(View())).Some?
      ensures View() == if ok then Acquired(old(View())).value else old(View())
    {
      if inflight >= limit {
        return false;
      }
      inflight := inflight + 1;
      ok := true;
    }

    method Release(gradient: real)
      modifies this
      ensures View() == Released(old(View()), gradient)
    {
      if inflight > 0 {
        inflight := inflight - 1;
      }
      if gradient >= ShedThreshold {
        if limit < Ceiling {
          limit := limit + 1;
        }
        return;
      }
      var cut := (limit as real * Decrease).Floor;
      limit := if cut < Floor then Floor else cut;
    }
  }

  // ---- the coordinator ----

  /** Every PUT ever admitted, and the gate. */
  datatype Coord = Coord(ops: seq<Put>, gate: Gate)

  /** A PUT arrives and begins, arrives and is refused in setup, or one of those begun takes an
      event. `gradient` is the latency gradient when a callback releases the gate. */
  datatype CoordEvent =
    | Arrives(k: nat, m: nat, stepBytes: nat, down: seq<bool>)
    | ArrivesRefused(gradient: real)
    | Progress(i: nat, event: Event, gradient: real)

  predicate CoordEnabled(c: Coord, e: CoordEvent) {
    match e
    case Arrives(k, m, _, down) => k > 0 && |down| == k + m
    case ArrivesRefused(_) => true
    case Progress(i, event, _) => i < |c.ops| && Enabled(c.ops[i], event)
  }

  /** The callback releases the gate each time it fires. */
  function CoordNext(c: Coord, e: CoordEvent): Coord
    requires CoordEnabled(c, e)
  {
    match e
    case Arrives(k, m, stepBytes, down) =>
      var g := Acquired(c.gate);
      if g.None? then c else Coord(c.ops + [Began(k, m, stepBytes, down)], g.value)
    case ArrivesRefused(gradient) =>
      var g := Acquired(c.gate);
      if g.None? then c else c.(gate := Released(g.value, gradient))
    case Progress(i, event, gradient) =>
      var next := Next(c.ops[i], event);
      Coord(c.ops[i := next], if next.fired > c.ops[i].fired then Released(c.gate, gradient) else c.gate)
  }

  /** The PUTs still unsettled. */
  function Unfinished(ops: seq<Put>): (n: nat)
    ensures n <= |ops|
  {
    if ops == [] then 0 else Unfinished(ops[..|ops| - 1]) + if ops[|ops| - 1].fired == 0 then 1 else 0
  }

  /** In flight is admitted minus finished, and the limit is in bounds. */
  predicate CoordInv(c: Coord) {
    && (forall i :: 0 <= i < |c.ops| ==> Inv(c.ops[i]))
    && c.gate.inflight == Unfinished(c.ops) <= Ceiling && Floor <= c.gate.limit <= Ceiling
  }

  lemma {:induction false} UnfinishedUpdate(ops: seq<Put>, i: nat, p: Put)
    requires i < |ops|
    ensures Unfinished(ops[i := p]) == Unfinished(ops) - (if ops[i].fired == 0 then 1 else 0) + (if p.fired == 0
      then 1 else 0)
  {
    var n := |ops| - 1;
    if i < n {
      UnfinishedUpdate(ops[..n], i, p);
      assert ops[i := p][..n] == ops[..n][i := p];
    } else {
      assert ops[i := p][..n] == ops[..n];
    }
  }

  /** A callback fires at most once, and never un-fires. */
  lemma FiredOnce(s: Put, e: Event)
    requires Inv(s) && Enabled(s, e)
    ensures s.fired <= Next(s, e).fired <= 1
  {
    NextInv(s, e);
    if s.fired == 1 {
      SettledStays(s, e);
    }
    hide Next;
  }

  lemma CoordStep(c: Coord, e: CoordEvent)
    requires CoordInv(c) && CoordEnabled(c, e)
    ensures CoordInv(CoordNext(c, e))
  {
    hide Inv, Next, Began;
    match e {
      case Arrives(k, m, stepBytes, down) =>
        var p := Began(k, m, stepBytes, down);
        BeganInv(k, m, stepBytes, down);
        BeganUnfired(k, m, stepBytes, down);
        assert (c.ops + [p])[..|c.ops|] == c.ops;
      case ArrivesRefused(gradient) =>
        LimitBounded(c.gate.limit, gradient);
      case Progress(i, event, gradient) =>
        NextInv(c.ops[i], event);
        FiredOnce(c.ops[i], event);
        UnfinishedUpdate(c.ops, i, Next(c.ops[i], event));
        LimitBounded(c.gate.limit, gradient);
    }
  }

  lemma BeganUnfired(k: nat, m: nat, stepBytes: nat, down: seq<bool>)
    requires |down| == k + m
    ensures Began(k, m, stepBytes, down).fired == 0
  {
  }

  /** An arrival that can begin is admitted exactly while fewer PUTs are unsettled than the limit. */
  lemma AdmittedExactly(c: Coord, k: nat, m: nat, stepBytes: nat, down: seq<bool>)
    requires CoordInv(c) && k > 0 && |down| == k + m
    ensures var t := CoordNext(c, Arrives(k, m, stepBytes, down));
      t.ops == if Unfinished(c.ops) < c.gate.limit then c.ops + [Began(k, m, stepBytes, down)] else c.ops
  {
    hide Inv, Began;
  }

  predicate CoordRun(trace: seq<Coord>, events: seq<CoordEvent>) {
    && |trace| == |events| + 1
    && forall i :: 0 <= i < |events| ==>
      CoordEnabled(trace[i], events[i]) && trace[i + 1] == CoordNext(trace[i], events[i])
  }

  /** In every interleaving of arrivals and of every PUT's feeds, windows, stream outcomes, aborts
      and commits: in flight is exactly the admitted PUTs not yet settled, never more than 256, no
      callback has fired twice, and the limit is in [4, 256]. */
  lemma {:induction false} InflightIsAdmittedMinusFinished(trace: seq<Coord>, events: seq<CoordEvent>, n: nat)
    requires CoordRun(trace, events) && trace[0] == Coord([], Gate(Start, 0)) && n < |trace|
    ensures CoordInv(trace[n])
  {
    hide CoordNext;
    if n > 0 {
      InflightIsAdmittedMinusFinished(trace, events, n - 1);
      CoordStep(trace[n - 1], events[n - 1]);
    }
  }
}
