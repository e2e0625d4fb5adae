/** The repair sweep: scrub every version at its homes, copy or rebuild what is not there, and
    report. A clean report is what closes a layout transition. */
module CoordSweep {
  import opened Bytes
  import opened EcGeometry
  import EcHeader
  import opened EcStripe
  import opened EcReader
  import opened EcReconstruct
  import CoordReencode

  /** What a version's shards were encoded from. */
  datatype Origin = Origin(g: Geometry, code: Code, id: bytes, frame: bytes)

  /** A stored version: its profile, the shard digests its entry records, and the shards that were
      written. */
  datatype Version = Version(k: nat, width: nat, sha: bytes -> bytes, sums: seq<bytes>, files: seq<bytes>) {
    ghost predicate From(o: Origin) {
      && CorrectLibrary(o.code) && Writable(o.g, o.id) && |o.frame| == o.g.frameSize && MDS(o.code, o.g.k, o.g.m)
      && k == o.g.k && width == o.g.Width() == |files|
      && forall i :: 0 <= i < width ==> files[i] == ShardFile(o.g, o.code, o.id, o.frame, i)
    }

    /** The entry records what was written, and digests do not collide. */
    ghost predicate Recorded() {
      Injective(sha) && |sums| == |files| == width && forall i :: 0 <= i < width ==> sums[i] == sha(files[i])
    }

    ghost predicate Intact() {
      Recorded() && 0 < k <= width && forall i :: 0 <= i < width ==> files[i] != []
    }

    predicate Matches(home: Option<bytes>, i: nat)
      requires i < |sums|
    {
      home.Some? && sha(home.value) == sums[i]
    }
  }

  lemma StoredIntact(v: Version, o: Origin)
    requires v.From(o) && v.Recorded()
    ensures v.Intact()
  {
    hide MDS, Payload, EcHeader.EncodeFields;
  }

  /** How a request that changes a node ends: acknowledged, or reported failed and perhaps done. */
  datatype Landing = Acked | Lost(landed: bool)

  /** A re-encode of the version: refused before it began, or run to an end. */
  datatype Recoding = NotStarted | Ran(job: CoordReencode.Job, end: CoordReencode.Ending)

  /** What the rest of the system does while the sweep works on one version. */
  datatype Answers = Answers(
    layout: bool, active: nat, target: nat, placed: bool, newUp: seq<bool>, oldUp: seq<bool>,
    copyOk: seq<bool>, fetchOk: bool, deletes: seq<Landing>, writes: seq<Landing>,
    recoding: Recoding)

  /** A version's shards at its new homes and, during a transition, at its old ones. */
  datatype Homes = Homes(atNew: seq<Option<bytes>>, atOld: Option<seq<Option<bytes>>>)

  predicate Fits(v: Version, a: Answers, h: Homes) {
    && |v.sums| == |h.atNew| == v.width && (h.atOld.Some? ==> |h.atOld.value| == v.width)
    && |a.newUp| == |a.oldUp| == |a.copyOk| == |a.deletes| == |a.writes| == v.width
  }

  datatype Report = Report(
    objects: nat, healthy: nat, rebuilt: nat, migrated: nat, reencoded: nat, unrepairable: nat, failed: nat)

  const NoReport := Report(0, 0, 0, 0, 0, 0, 0)

  /** How a version ended. */
  datatype Outcome = Healthy | Unrepairable | Reencoded | Failed | Repaired

  // ---- verdicts ----

  /** Verified clean at its new home. */
  predicate Good(v: Version, a: Answers, h: Homes, i: nat)
    requires Fits(v, a, h) && i < v.width
  {
    a.newUp[i] && v.Matches(h.atNew[i], i)
  }

  predicate GoodOld(v: Version, a: Answers, h: Homes, i: nat)
    requires Fits(v, a, h) && i < v.width
  {
    h.atOld.Some? && a.oldUp[i] && v.Matches(h.atOld.value[i], i)
  }

  /** Committed there, answered, and does not match the metadata. */
  predicate Rotted(v: Version, a: Answers, h: Homes, i: nat)
    requires Fits(v, a, h) && i < v.width
  {
    a.newUp[i] && h.atNew[i].Some? && !v.Matches(h.atNew[i], i)
  }

  /** Every shard of the version verified at its new home. */
  predicate AllGood(v: Version, a: Answers, h: Homes) {
    Fits(v, a, h) && forall i :: 0 <= i < v.width ==> Good(v, a, h, i)
  }

  /** A matching digest is a genuine shard. */
  lemma MatchIsFile(v: Version, home: Option<bytes>, i: nat)
    requires v.Intact() && i < v.width
    ensures v.Matches(home, i) <==> home == Some(v.files[i])
  {
  }

  /** What the scrub leaves to do, slot by slot. */
  datatype Plan = Plan(good: seq<bool>, copies: seq<bool>, rebuilds: seq<bool>)

  ghost predicate Planned(v: Version, a: Answers, h: Homes, p: Plan) {
    && Fits(v, a, h) && |p.good| == |p.copies| == |p.rebuilds| == v.width
    && forall i :: 0 <= i < v.width ==>
         && p.good[i] == Good(v, a, h, i)
         && p.copies[i] == (!Good(v, a, h, i) && GoodOld(v, a, h, i))
         && p.rebuilds[i] == (!Good(v, a, h, i) && !GoodOld(v, a, h, i))
  }

  function CountTrue(s: seq<bool>): (n: nat)
    ensures n <= |s|
  {
    if s == [] then 0 else CountTrue(s[..|s| - 1]) + if s[|s| - 1] then 1 else 0
  }

  lemma {:induction false} CountEnds(s: seq<bool>)
    ensures CountTrue(s) == 0 <==> forall i :: 0 <= i < |s| ==> !s[i]
    ensures CountTrue(s) == |s| <==> forall i :: 0 <= i < |s| ==> s[i]
  {
    if s != [] {
      var front := s[..|s| - 1];
      CountEnds(front);
      assert forall i :: 0 <= i < |front| ==> front[i] == s[i];
    }
  }

  lemma CountAdded(s: seq<bool>, x: bool)
    ensures CountTrue(s + [x]) == CountTrue(s) + if x then 1 else 0
  {
    assert (s + [x])[..|s|] == s;
  }

  // ---- what work on a version may do to its shards ----

  /** A slot after the work: untouched, the genuine shard, or cleared of rot. */
  ghost predicate SlotSound(v: Version, a: Answers, h: Homes, after: seq<Option<bytes>>, i: nat)
    requires v.Intact() && Fits(v, a, h) && |after| == v.width && i < v.width
  {
    || after[i] == h.atNew[i]
    || (after[i] == Some(v.files[i]) && !Good(v, a, h, i) && (h.atNew[i].None? || Rotted(v, a, h, i)))
    || (after[i].None? && Rotted(v, a, h, i))
  }

  ghost predicate Sound(v: Version, a: Answers, h: Homes, after: seq<Option<bytes>>) {
    && v.Intact() && Fits(v, a, h) && |after| == v.width
    && forall i :: 0 <= i < v.width ==> SlotSound(v, a, h, after, i)
  }

  /** In place, unless the home said nothing at scrub and already held something. */
  ghost predicate Settled(v: Version, a: Answers, h: Homes, after: seq<Option<bytes>>, i: nat)
    requires v.Intact() && Fits(v, a, h) && |after| == v.width && i < v.width
  {
    after[i] == Some(v.files[i]) || (!a.newUp[i] && h.atNew[i].Some? && after[i] == h.atNew[i])
  }

  ghost predicate AllSettled(v: Version, a: Answers, h: Homes, after: seq<Option<bytes>>) {
    && v.Intact() && Fits(v, a, h) && |after| == v.width
    && forall i :: 0 <= i < v.width ==> Settled(v, a, h, after, i)
  }

  /** Every home holds its genuine shard. */
  ghost predicate AllPlaced(v: Version, after: seq<Option<bytes>>) {
    v.Intact() && |after| == v.width && forall i :: 0 <= i < v.width ==> after[i] == Some(v.files[i])
  }

  predicate NoFaults(a: Answers) {
    && a.fetchOk && (forall i :: 0 <= i < |a.copyOk| ==> a.copyOk[i])
    && (forall i :: 0 <= i < |a.deletes| ==> a.deletes[i].Acked?) && forall i :: 0 <= i < |a.writes| ==>
      a.writes[i].Acked?
  }

  /** Work never costs a version a genuine shard. */
  lemma SoundKeepsGenuine(v: Version, a: Answers, h: Homes, after: seq<Option<bytes>>, i: nat)
    requires Sound(v, a, h, after) && i < v.width && h.atNew[i] == Some(v.files[i])
    ensures after[i] == h.atNew[i]
  {
    MatchIsFile(v, h.atNew[i], i);
    hide Version.From, Version.Recorded;
    assert SlotSound(v, a, h, after, i);
  }

  /** Exactly when a repaired version is whole: no home that stayed silent at scrub held a
      rotted shard. The stream to such a home is answered "committed" and counted as repaired. */
  lemma RepairedIsWholeExactly(v: Version, a: Answers, h: Homes, after: seq<Option<bytes>>)
    requires AllSettled(v, a, h, after) && Sound(v, a, h, after)
    ensures AllPlaced(v, after) <==>
      forall i :: 0 <= i < v.width && !a.newUp[i] && h.atNew[i].Some? ==> v.Matches(h.atNew[i], i)
  {
    hide Injective;
    forall i | 0 <= i < v.width
      ensures after[i] == Some(v.files[i]) <==> (!a.newUp[i] && h.atNew[i].Some? ==> v.Matches(h.atNew[i], i))
    {
      MatchIsFile(v, h.atNew[i], i);
      assert Settled(v, a, h, after, i) && SlotSound(v, a, h, after, i);
    }
  }

  // ---- the report ----

  function PlanOf(v: Version, a: Answers, h: Homes): (p: Plan)
    requires Fits(v, a, h)
    ensures Planned(v, a, h, p)
  {
    var n := v.width;
    Plan(seq(n, i requires 0 <= i < n => Good(v, a, h, i)),
         seq(n, i requires 0 <= i < n => !Good(v, a, h, i) && GoodOld(v, a, h, i)),
         seq(n, i requires 0 <= i < n => !Good(v, a, h, i) && !GoodOld(v, a, h, i)))
  }

  /** How many shards are good somewhere. */
  function Sources(p: Plan): nat { CountTrue(p.good) + CountTrue(p.copies) }

  /** Whether the version is scrubbed at all, rather than re-encoded or impossible to place. */
  predicate Scrubbed(v: Version, a: Answers, optimize: bool) {
    a.layout && v.width <= a.active && !(optimize && a.target > v.width) && a.placed
  }

  /** Whether it is re-encoded: it no longer fits the active nodes, or there is a wider profile and
      the sweep was asked for it. */
  predicate Reencodes(v: Version, a: Answers, optimize: bool) {
    a.layout && (v.width > a.active || (optimize && a.target > v.width))
  }

  /** Where a re-encode reads: the old homes while a transition is open. */
  function Source(h: Homes): seq<Option<bytes>> { if h.atOld.Some? then h.atOld.value else h.atNew }

  /** The re-encode was an operation on this version's shards, and ended as such operations do. */
  ghost predicate Faithful(v: Version, a: Answers, h: Homes, code: Code) {
    a.recoding.Ran? ==>
      && a.recoding.job.k == v.k && a.recoding.job.code == code && a.recoding.job.homes == Source(h)
      && CoordReencode.Ended(a.recoding.job, a.recoding.end)
  }

  /** The present shards are the ones written. */
  predicate AllGenuine(v: Version, s: seq<Option<bytes>>) {
    |s| == v.width == |v.files| && forall i :: 0 <= i < v.width && s[i].Some? ==> s[i] == Some(v.files[i])
  }

  /** A re-encoded version: counted as such exactly when the operation was acknowledged. Once the
      metadata has switched, the shards it names read as what was fetched, if enough of them are left:
      always when acknowledged. What was fetched is the frame, if the shards read were those written. */
  ghost predicate Recoded(v: Version, a: Answers, h: Homes, o: Origin, out: Outcome, after: seq<Option<bytes>>) {
    && (out.Reencoded? || out.Failed?) && (out.Reencoded? <==> a.recoding.Ran? && a.recoding.end.ok)
    && (out.Reencoded? ==> a.recoding.end.switched && Count(after) >= a.recoding.job.newK)
    && if a.recoding.Ran? && a.recoding.end.switched then
         && after == a.recoding.end.newHomes && ReadsAsFetched(a.recoding.job, a.recoding.end, o.code, after)
         && (AllGenuine(v, Source(h)) ==> ReadsAs(a.recoding.end.fetched, o.code, o.frame))
       else
         after == h.atNew && (a.recoding.Ran? ==> a.recoding.end.oldHomes == Source(h))
  }

  ghost predicate ReadsAsFetched(
    j: CoordReencode.Job, e: CoordReencode.Ending, code: Code, after: seq<Option<bytes>>)
  {
    forall f :: ReadsAs(after, code, f) <==> Count(after) >= j.newK && ReadsAs(e.fetched, code, f)
  }

  lemma SwitchedReads(v: Version, a: Answers, h: Homes, o: Origin)
    requires v.From(o) && Faithful(v, a, h, o.code) && a.recoding.Ran? && a.recoding.end.switched
    ensures ReadsAsFetched(a.recoding.job, a.recoding.end, o.code, a.recoding.end.newHomes)
    ensures a.recoding.end.ok ==> Count(a.recoding.end.newHomes) >= a.recoding.job.newK
    ensures AllGenuine(v, Source(h)) ==> ReadsAs(a.recoding.end.fetched, o.code, o.frame)
  {
    hide MDS, ShardFile, ReadsAs, CoordReencode.KOf, Count;
    var j, e := a.recoding.job, a.recoding.end;
    CoordReencode.EndedReads(j, e, e.held);
    forall f
      ensures ReadsAs(e.newHomes, o.code, f) <==> Count(e.newHomes) >= j.newK && ReadsAs(e.fetched, o.code, f)
    {
      CoordReencode.EndedReads(j, e, f);
    }
    if AllGenuine(v, Source(h)) {
      assert WrittenBy(Source(h), o.g, o.code, o.id, o.frame);
      assert CoordReencode.HeldAt(Source(h), v.k, o.code, e.held);
      CoordReencode.WrittenHold(Source(h), o.g, o.code, o.id, o.frame, e.held);
    }
  }

  /** One more version in the report, with the outcome's own counter moved. */
  predicate Tallied(r: Report, s: Report, out: Outcome, p: Plan) {
    && s == r.(objects := r.objects + 1,
               healthy := r.healthy + (if out.Healthy? then 1 else 0),
               unrepairable := r.unrepairable + (if out.Unrepairable? then 1 else 0),
               reencoded := r.reencoded + (if out.Reencoded? then 1 else 0),
               failed := r.failed + (if out.Failed? then 1 else 0),
               rebuilt := s.rebuilt, migrated := s.migrated)
    && s.rebuilt >= r.rebuilt && s.migrated >= r.migrated
    && (out.Repaired? ==>
        s.rebuilt == r.rebuilt + CountTrue(p.rebuilds) && s.migrated == r.migrated + CountTrue(p.copies))
    && (!out.Repaired? && !out.Failed? ==> s.rebuilt == r.rebuilt && s.migrated == r.migrated)
  }

  /** The test that closes a transition. */
  predicate Clean(r: Report) {
    r.migrated == 0 && r.rebuilt == 0 && r.reencoded == 0 && r.unrepairable == 0 && r.failed == 0
  }

  /** A scrubbed version's outcome: healthy exactly when every shard verified, beyond help exactly
      when something must be rebuilt from fewer than k, and failed only by a fault. */
  ghost predicate Judged(v: Version, a: Answers, h: Homes, out: Outcome) {
    && Fits(v, a, h) && !out.Reencoded?
    && (out.Healthy? <==> AllGood(v, a, h))
    && (out.Unrepairable? <==> CountTrue(PlanOf(v, a, h).rebuilds) > 0 && Sources(PlanOf(v, a, h)) < v.k)
    && (NoFaults(a) ==> !out.Failed?)
  }

  /** The slots whose written shard is at its new home and says so; and at its old one. */
  ghost function AtHome(v: Version, a: Answers, h: Homes): set<nat>
    requires Fits(v, a, h) && |v.files| == v.width
  {
    set i: nat | i < v.width && a.newUp[i] && h.atNew[i] == Some(v.files[i])
  }

  ghost function AtOldHome(v: Version, a: Answers, h: Homes): set<nat>
    requires Fits(v, a, h) && |v.files| == v.width
  {
    set i: nat | i < v.width && h.atOld.Some? && a.oldUp[i] && h.atOld.value[i] == Some(v.files[i])
  }

  ghost function TrueAt(s: seq<bool>): (t: set<nat>) { set i: nat | i < |s| && s[i] }

  lemma {:induction false} CountIsSize(s: seq<bool>)
    ensures |TrueAt(s)| == CountTrue(s)
  {
    if s != [] {
      var n := |s| - 1;
      CountIsSize(s[..n]);
      assert TrueAt(s) == if s[n] then TrueAt(s[..n]) + {n} else TrueAt(s[..n]);
    }
  }

  function Slots(n: nat): (s: set<nat>)
    ensures |s| == n && forall i: nat :: i in s <==> i < n
  {
    if n == 0 then {} else Slots(n - 1) + {n - 1}
  }

  lemma PlanSets(v: Version, a: Answers, h: Homes)
    requires v.Intact() && Fits(v, a, h)
    ensures var p := PlanOf(v, a, h);
      && TrueAt(p.good) == AtHome(v, a, h) && TrueAt(p.copies) == AtOldHome(v, a, h) - AtHome(v, a, h)
      && TrueAt(p.rebuilds) == Slots(v.width) - (AtHome(v, a, h) + AtOldHome(v, a, h))
      && AtHome(v, a, h) + AtOldHome(v, a, h) <= Slots(v.width)
  {
    hide Slots;
    var p := PlanOf(v, a, h);
    forall i: nat | i < v.width
      ensures p.good[i] <==> i in AtHome(v, a, h)
      ensures p.copies[i] <==> i in AtOldHome(v, a, h) && i !in AtHome(v, a, h)
      ensures p.rebuilds[i] <==> i !in AtHome(v, a, h) && i !in AtOldHome(v, a, h)
    {
      MatchIsFile(v, h.atNew[i], i);
      if h.atOld.Some? {
        MatchIsFile(v, h.atOld.value[i], i);
      }
    }
    hide PlanOf, Version.Intact;
  }

  lemma PlanCounts(v: Version, a: Answers, h: Homes)
    requires v.Intact() && Fits(v, a, h)
    ensures var p, home, former := PlanOf(v, a, h), AtHome(v, a, h), AtOldHome(v, a, h);
      && CountTrue(p.good) == |home| && CountTrue(p.copies) == |former - home|
      && CountTrue(p.rebuilds) == v.width - |home + former| && Sources(p) == |home + former|
  {
    hide CountTrue, TrueAt, AtHome, AtOldHome;
    var p, home, former := PlanOf(v, a, h), AtHome(v, a, h), AtOldHome(v, a, h);
    PlanSets(v, a, h);
    CountIsSize(p.good);
    CountIsSize(p.copies);
    CountIsSize(p.rebuilds);
    hide PlanOf, Version.Intact, Fits, Slots;
    SetSizes(home, former, Slots(v.width));
  }

  lemma SetSizes(home: set<nat>, former: set<nat>, all: set<nat>)
    requires home + former <= all
    ensures |home + former| == |home| + |former - home| && |all - (home + former)| == |all| - |home + former|
  {
    assert home + former == home + (former - home);
    assert all == (all - (home + former)) + (home + former);
  }

  /** The verdict and the report, on the shards themselves: healthy if and only if every written shard is at
      home, beyond help if and only if some is at neither home and fewer than k are at either; a repaired
      version counts as rebuilt those that were at neither and as migrated those only at the old one. */
  lemma VerdictOnShards(v: Version, a: Answers, h: Homes, out: Outcome, r: Report, s: Report)
    requires v.Intact() && Judged(v, a, h, out) && Tallied(r, s, out, PlanOf(v, a, h))
    ensures var found := AtHome(v, a, h) + AtOldHome(v, a, h);
      && (out.Healthy? <==> |AtHome(v, a, h)| == v.width)
      && (out.Unrepairable? <==> |found| < v.width && |found| < v.k)
      && (out.Repaired? ==> s.rebuilt == r.rebuilt + v.width - |found| &&
                            s.migrated == r.migrated + |AtOldHome(v, a, h) - AtHome(v, a, h)|)
  {
    hide CountTrue, AtHome, AtOldHome;
    PlanCounts(v, a, h);
    CountEnds(PlanOf(v, a, h).good);
  }

  /** What is left of the version's shards. */
  ghost predicate Left(v: Version, a: Answers, h: Homes, out: Outcome, after: seq<Option<bytes>>) {
    Sound(v, a, h, after) && (out.Healthy? || out.Repaired? ==> AllSettled(v, a, h, after))
  }

  class Sweep {
    const optimize: bool
    var report: Report
    var homes: seq<Option<bytes>>

    constructor (optimize: bool)
      ensures this.optimize == optimize && report == NoReport
    {
      this.optimize := optimize;
      report, homes := NoReport, [];
    }

    /** One version, start to end. */
    method NextItem(v: Version, a: Answers, h: Homes, ghost o: Origin, code: Code) returns (out: Outcome)
      requires v.From(o) && v.Recorded() && code == o.code && Fits(v, a, h) && Faithful(v, a, h, code)
      modifies this
      ensures Tallied(old(report), report, out, PlanOf(v, a, h))
      ensures Scrubbed(v, a, optimize) ==> Judged(v, a, h, out) && Left(v, a, h, out, homes)
      ensures Reencodes(v, a, optimize) ==> Recoded(v, a, h, o, out, homes)
      ensures !Scrubbed(v, a, optimize) ==> out.Reencoded? || out.Failed?
      ensures !Scrubbed(v, a, optimize) && !Reencodes(v, a, optimize) ==> out.Failed? && homes == h.atNew
    {
      hide Version.From, Injective, CountTrue, AllSettled, Faithful, ReadsAs, AllGenuine;
      StoredIntact(v, o);
      homes := h.atNew;
      report := report.(objects := report.objects + 1);
      Untouched(v, a, h);
      if !a.layout {
        report := report.(failed := report.failed + 1);
        return Failed;
      }
      if v.width > a.active || (optimize && a.target > v.width) {
        out := Recode(v, a, h, o, code);
        return;
      }
      if !a.placed {
        report := report.(failed := report.failed + 1);
        return Failed;
      }
      if h.atOld.Some? {
        out := Migrate(v, a, h, o, code);
      } else {
        out := Classify(v, a, h, o, code);
      }
    }

    /** A re-encode's answer. */
    method Recode(v: Version, a: Answers, h: Homes, ghost o: Origin, code: Code) returns (out: Outcome)
      requires v.From(o) && code == o.code && Faithful(v, a, h, code) && homes == h.atNew
      modifies this
      ensures Recoded(v, a, h, o, out, homes)
      ensures report == if out.Reencoded? then old(report).(reencoded := old(report).reencoded + 1)
        else old(report).(failed := old(report).failed + 1)
    {
      hide Version.From, Faithful, ReadsAs, AllGenuine, ReadsAsFetched, Count, CoordReencode.Ended;
      UnswitchedKeeps(v, a, h, code);
      if a.recoding.Ran? && a.recoding.end.switched {
        SwitchedReads(v, a, h, o);
      }
      if a.recoding.Ran? && a.recoding.end.switched {
        homes := a.recoding.end.newHomes;
      }
      if a.recoding.Ran? && a.recoding.end.ok {
        report := report.(reencoded := report.reencoded + 1);
        return Reencoded;
      }
      report := report.(failed := report.failed + 1);
      out := Failed;
    }

    /** Steady state: healthy, beyond help, or rebuilt in place. */
    method Classify(v: Version, a: Answers, h: Homes, ghost o: Origin, code: Code) returns (out: Outcome)
      requires v.Intact() && v.From(o) && code == o.code && Fits(v, a, h) && h.atOld.None? && homes == h.atNew
      modifies this
      ensures Tallied(old(report), report.(objects := report.objects + 1), out, PlanOf(v, a, h)) &&
        Left(v, a, h, out, homes)
      ensures Judged(v, a, h, out)
    {
      hide Version.From, Version.Intact, Version.Recorded, Planned, Sound, Touched, AllSettled, Settled, Judged,
        CountTrue, NoFaults, Fits;
      var p := PlanOf(v, a, h);
      Untouched(v, a, h);
      NoCopies(v, a, h, p);
      NothingDone(v, a, h, p);
      var good := CountFlags(p.good);
      if good == v.width {
        report := report.(healthy := report.healthy + 1);
        AllGoodSettles(v, a, h, p);
        return Healthy;
      }
      if good < v.k {
        report := report.(unrepairable := report.unrepairable + 1);
        HopelessJudged(v, a, h, p);
        return Unrepairable;
      }
      ghost var r := report;
      var ok := Rebuild(v, a, h, p, o, code);
      out := Conclude(v, a, h, p, ok, r);
    }

    /** A transition: copy what is good at its old home, rebuild what is good at neither. */
    method Migrate(v: Version, a: Answers, h: Homes, ghost o: Origin, code: Code) returns (out: Outcome)
      requires v.Intact() && v.From(o) && code == o.code && Fits(v, a, h) && h.atOld.Some? && homes == h.atNew
      modifies this
      ensures Tallied(old(report), report.(objects := report.objects + 1), out, PlanOf(v, a, h)) &&
        Left(v, a, h, out, homes)
      ensures Judged(v, a, h, out)
    {
      hide Version.From, Version.Intact, Version.Recorded, Planned, Sound, Touched, AllSettled, Settled, Judged,
        CountTrue, NoFaults, Fits;
      var p := PlanOf(v, a, h);
      Untouched(v, a, h);
      var settled := CountFlags(p.good);
      var copyable := CountFlags(p.copies);
      var missing := CountFlags(p.rebuilds);
      if settled == v.width {
        report := report.(healthy := report.healthy + 1);
        AllGoodSettles(v, a, h, p);
        return Healthy;
      }
      if missing > 0 && settled + copyable < v.k {
        report := report.(unrepairable := report.unrepairable + 1);
        HopelessJudged(v, a, h, p);
        return Unrepairable;
      }
      ghost var r := report;
      var ok := CopyAll(v, a, h, p);
      if ok && missing > 0 {
        ok := Rebuild(v, a, h, p, o, code);
      }
      out := Conclude(v, a, h, p, ok, r);
    }

    /** The end of the installs. */
    method Conclude(v: Version, a: Answers, h: Homes, p: Plan, ok: bool, ghost r: Report) returns (out: Outcome)
      requires v.Intact() && Planned(v, a, h, p) && p == PlanOf(v, a, h) && Sound(v, a, h, homes)
      requires CountTrue(p.good) != v.width && !(CountTrue(p.rebuilds) > 0 && Sources(p) < v.k) && (NoFaults(a) ==> ok)
      requires report == r.(rebuilt := report.rebuilt, migrated := report.migrated) && report.rebuilt >= r.rebuilt &&
        report.migrated >= r.migrated
      requires ok ==>
        report.rebuilt == r.rebuilt + CountTrue(p.rebuilds) && report.migrated == r.migrated + CountTrue(p.copies)
      requires ok ==> Touched(v, a, h, homes, if CountTrue(p.rebuilds) == 0 then p.copies
                              else Or(p.copies, p.rebuilds, v.width))
      modifies this`report
      ensures Tallied(r, report.(objects := report.objects + 1), out, p) && Left(v, a, h, out, homes) &&
        Judged(v, a, h, out)
    {
      hide Version.From, Version.Intact, Version.Recorded, Planned, Sound, Touched, AllSettled, Settled, Judged,
        CountTrue, NoFaults, Fits;
      if !ok {
        report := report.(failed := report.failed + 1);
        WorkJudged(v, a, h, p, Failed);
        return Failed;
      }
      WorkJudged(v, a, h, p, Repaired);
      AllDone(v, a, h, p, homes);
      out := Repaired;
    }

    /** Moves the shards that are good at their old home. */
    method CopyAll(v: Version, a: Answers, h: Homes, p: Plan) returns (ok: bool)
      requires v.Intact() && Planned(v, a, h, p) && h.atOld.Some? && homes == h.atNew
      modifies this
      ensures Sound(v, a, h, homes) && (NoFaults(a) ==> ok)
      ensures report == old(report).(migrated := report.migrated) && report.migrated >= old(report.migrated)
      ensures ok ==> report.migrated == old(report.migrated) + CountTrue(p.copies) && Touched(v, a, h, homes, p.copies)
    {
      CopySources(v, a, h, p);
      hide Version.From, Injective, CountTrue, Sound, Settled;
      var files := seq(v.width, i requires 0 <= i < v.width => if h.atOld.value[i].Some? then h.atOld.value[i].value
                       else []);
      ghost var none := seq(v.width, _ => false);
      FreshStart(v, a, h, none);
      ok := InstallAll(v, a, h, p.copies, files, true, none);
      assert Or(none, p.copies, v.width) == p.copies;
    }

    /** Fetches k good shards whole, rebuilds the missing ones and installs them. */
    method Rebuild(v: Version, a: Answers, h: Homes, p: Plan, ghost o: Origin, code: Code) returns (ok: bool)
      requires v.Intact() && v.From(o) && code == o.code && Planned(v, a, h, p) && Touched(v, a, h, homes, p.copies)
      requires Sources(p) >= v.k && CountTrue(p.rebuilds) > 0
      modifies this
      ensures Sound(v, a, h, homes) && (NoFaults(a) ==> ok)
      ensures report == old(report).(rebuilt := report.rebuilt) && report.rebuilt >= old(report.rebuilt)
      ensures ok ==>
        report.rebuilt == old(report.rebuilt) + CountTrue(p.rebuilds) &&
        Touched(v, a, h, homes, Or(p.copies, p.rebuilds, v.width))
    {
      hide Version.From, Injective, CountTrue, Sound, Settled;
      if !a.fetchOk {
        return false;
      }
      GoodUntouched(v, a, h, p, homes);
      var bodies := Survivors(v, a, h, p);
      var files := Reconstructed(v, a, h, p, o, code, bodies);
      ok := InstallAll(v, a, h, p.rebuilds, files, false, p.copies);
    }

    /** Installs each wanted shard in turn. Any failure ends the version. */
    method InstallAll(v: Version, a: Answers, h: Homes, want: seq<bool>, files: seq<bytes>, copying: bool,
                      ghost done: seq<bool>) returns (ok: bool)
      requires v.Intact() && Fits(v, a, h) && Touched(v, a, h, homes, done) && |want| == |files| == v.width
      requires forall i :: 0 <= i < v.width && want[i] ==> !done[i] && !Good(v, a, h, i) && files[i] == v.files[i]
      modifies this
      ensures Sound(v, a, h, homes) && (NoFaults(a) ==> ok)
      ensures report == old(report).(rebuilt := report.rebuilt, migrated := report.migrated)
      ensures if copying then report.rebuilt == old(report.rebuilt) && report.migrated >= old(report.migrated)
              else report.migrated == old(report.migrated) && report.rebuilt >= old(report.rebuilt)
      ensures ok ==> report.rebuilt + report.migrated == old(report.rebuilt) + old(report.migrated) + CountTrue(want)
      ensures ok ==> Touched(v, a, h, homes, Or(done, want, v.width))
    {
      hide Version.From, Injective, CountTrue, Sound, Settled, Good;
      ok := true;
      for i := 0 to v.width
        invariant ok && Touched(v, a, h, homes, Or(done, want, i))
        invariant report == old(report).(rebuilt := report.rebuilt, migrated := report.migrated)
        invariant if copying then report.rebuilt == old(report.rebuilt) && report.migrated >= old(report.migrated)
                  else report.migrated == old(report.migrated) && report.rebuilt >= old(report.rebuilt)
        invariant report.rebuilt + report.migrated == old(report.rebuilt) + old(report.migrated) + CountTrue(want[..i])
      {
        assert want[..i + 1] == want[..i] + [want[i]];
        CountAdded(want[..i], want[i]);
        OrNext(done, want, i);
        if want[i] {
          ok := !copying || a.copyOk[i];
          if ok {
            ok := InstallOne(v, a, h, i, files[i], Or(done, want, i));
          }
          if !ok {
            return;
          }
          report := if copying then report.(migrated := report.migrated + 1)
          else report.(rebuilt := report.rebuilt + 1);
        }
      }
      assert want[..v.width] == want;
    }

    /** Installs one shard at its new home: a rotted leftover is deleted first. A home that
        already holds a shard answers the stream "committed" and keeps what it has. */
    method InstallOne(v: Version, a: Answers, h: Homes, i: nat, file: bytes, ghost done: seq<bool>) returns (ok: bool)
      requires v.Intact() && Fits(v, a, h) && Touched(v, a, h, homes, done) && i < v.width && !done[i] &&
        !Good(v, a, h, i)
      requires file == v.files[i]
      modifies this`homes
      ensures Sound(v, a, h, homes) && (NoFaults(a) ==> ok)
      ensures ok ==> Touched(v, a, h, homes, done[i := true])
    {
      hide Version.From, Injective, CountTrue;
      ghost var before := homes;
      if Rotted(v, a, h, i) {
        if a.deletes[i].Acked? || a.deletes[i].landed {
          homes := homes[i := None];
        }
        if !a.deletes[i].Acked? {
          SlotChanged(v, a, h, before, homes, done, i);
          return false;
        }
      }
      if homes[i].None? && (a.writes[i].Acked? || a.writes[i].landed) {
        homes := homes[i := Some(file)];
      }
      ok := a.writes[i].Acked?;
      SlotChanged(v, a, h, before, homes, done, i);
    }

    /** The first k shards good at either home, fetched whole. */
    method Survivors(v: Version, a: Answers, h: Homes, p: Plan) returns (bodies: seq<Option<bytes>>)
      requires v.Intact() && Planned(v, a, h, p) && Sources(p) >= v.k && |homes| == v.width
      requires forall i :: 0 <= i < v.width && p.good[i] ==> homes[i] == h.atNew[i]
      ensures |bodies| == v.width && EcStripe.Count(bodies) == v.k
      ensures forall i :: 0 <= i < v.width && bodies[i].Some? ==> bodies[i] == Some(v.files[i]) && !p.rebuilds[i]
    {
      hide Version.From, Injective, CountTrue;
      bodies := [];
      var chosen, pieces := 0, 0;
      for i := 0 to v.width
        invariant |bodies| == i && EcStripe.Count(bodies) == chosen
        invariant chosen == Least(v.k, CountTrue(p.good[..i]) + CountTrue(p.copies[..i]))
        invariant forall j :: 0 <= j < i && bodies[j].Some? ==> bodies[j] == Some(v.files[j]) && !p.rebuilds[j]
        invariant if chosen > 0 then pieces > 0 else pieces == 0
      {
        PlanStep(p, i);
        CountAppend(bodies, None);
        if chosen < v.k && (p.good[i] || p.copies[i]) {
          var body := if p.good[i] then homes[i] else h.atOld.value[i];
          MatchIsFile(v, body, i);
          assert |body.value| > 0 && (|body.value| + FetchPiece - 1) / FetchPiece >= 1;
          CountAppend(bodies, body);
          bodies := bodies + [body];
          chosen, pieces := chosen + 1, pieces + (|body.value| + FetchPiece - 1) / FetchPiece;
        } else {
          bodies := bodies + [None];
        }
      }
      assert p.good[..v.width] == p.good && p.copies[..v.width] == p.copies;
      assert pieces > 0;
    }

    /** The rebuild itself: on genuine survivors and recorded digests it cannot fail. */
    method Reconstructed(v: Version, a: Answers, h: Homes, p: Plan, ghost o: Origin, code: Code,
                         bodies: seq<Option<bytes>>) returns (files: seq<bytes>)
      requires v.Intact() && v.From(o) && code == o.code && Planned(v, a, h, p) && CountTrue(p.rebuilds) > 0
      requires |bodies| == v.width && EcStripe.Count(bodies) == v.k
      requires forall i :: 0 <= i < v.width && bodies[i].Some? ==> bodies[i] == Some(v.files[i]) && !p.rebuilds[i]
      ensures |files| == v.width && forall i :: 0 <= i < v.width && p.rebuilds[i] ==> files[i] == v.files[i]
    {
      HasParity(v, o, p, bodies);
      hide MDS, ShardFile, CorrectLibrary, EcStripe.Count;
      var err, outs := Reconstruct(bodies, Some(v.sums), p.rebuilds, code, v.sha, o.g, o.id, o.frame);
      assert err.None?;
      files := outs;
    }

    method CountFlags(flags: seq<bool>) returns (n: nat)
      ensures n == CountTrue(flags)
    {
      n := 0;
      for i := 0 to |flags|
        invariant n == CountTrue(flags[..i])
      {
        assert flags[..i + 1] == flags[..i] + [flags[i]];
        CountAdded(flags[..i], flags[i]);
        if flags[i] {
          n := n + 1;
        }
      }
      assert flags[..|flags|] == flags;
    }
  }

  lemma Untouched(v: Version, a: Answers, h: Homes)
    requires v.Intact() && Fits(v, a, h)
    ensures Sound(v, a, h, h.atNew)
  {
    hide Injective;
  }

  /** Every flag set: the version is healthy. */
  lemma AllGoodSettles(v: Version, a: Answers, h: Homes, p: Plan)
    requires v.Intact() && Planned(v, a, h, p) && p == PlanOf(v, a, h) && CountTrue(p.good) == v.width
    ensures AllSettled(v, a, h, h.atNew) && Judged(v, a, h, Healthy)
  {
    CountEnds(p.good);
    CountEnds(p.rebuilds);
    hide Injective;
    forall i | 0 <= i < v.width
      ensures Good(v, a, h, i) && Settled(v, a, h, h.atNew, i) && !p.rebuilds[i]
    {
      MatchIsFile(v, h.atNew[i], i);
      assert p.good[i];
    }
  }

  lemma HopelessJudged(v: Version, a: Answers, h: Homes, p: Plan)
    requires Planned(v, a, h, p) && p == PlanOf(v, a, h) && CountTrue(p.rebuilds) > 0 && Sources(p) < v.k
    ensures Judged(v, a, h, Unrepairable)
  {
    CountEnds(p.rebuilds);
    var i :| 0 <= i < v.width && p.rebuilds[i];
    assert !Good(v, a, h, i);
  }

  lemma WorkJudged(v: Version, a: Answers, h: Homes, p: Plan, out: Outcome)
    requires Planned(v, a, h, p) && p == PlanOf(v, a, h) && CountTrue(p.good) != v.width
    requires !(CountTrue(p.rebuilds) > 0 && Sources(p) < v.k)
    requires out.Repaired? || (out.Failed? && !NoFaults(a))
    ensures Judged(v, a, h, out)
  {
    CountEnds(p.good);
    var i :| 0 <= i < v.width && !p.good[i];
    assert !Good(v, a, h, i);
  }

  /** Without a transition nothing is copied. */
  lemma NoCopies(v: Version, a: Answers, h: Homes, p: Plan)
    requires Planned(v, a, h, p) && h.atOld.None?
    ensures CountTrue(p.copies) == 0 && (CountTrue(p.rebuilds) == 0 <==> CountTrue(p.good) == v.width)
  {
    CountEnds(p.copies);
    CountEnds(p.rebuilds);
    CountEnds(p.good);
  }

  const FetchPiece := 262144

  function Least(a: nat, b: nat): nat { if a < b then a else b }

  // ---- partway through the installs ----

  /** Slots done are settled, the rest are as the scrub found them. */
  ghost predicate Touched(v: Version, a: Answers, h: Homes, homes: seq<Option<bytes>>, done: seq<bool>) {
    && Sound(v, a, h, homes) && |done| == v.width
    && forall i :: 0 <= i < v.width ==> if done[i] then Settled(v, a, h, homes, i) else homes[i] == h.atNew[i]
  }

  ghost function Or(done: seq<bool>, want: seq<bool>, n: nat): (s: seq<bool>)
    requires |done| == |want|
    ensures |s| == |done| && forall i :: 0 <= i < |s| ==> s[i] == (done[i] || (i < n && want[i]))
  {
    seq(|done|, i requires 0 <= i < |done| => done[i] || (i < n && want[i]))
  }

  lemma OrNext(done: seq<bool>, want: seq<bool>, i: nat)
    requires |done| == |want| && i < |done|
    ensures Or(done, want, 0) == done
    ensures Or(done, want, i + 1) == if want[i] then Or(done, want, i)[i := true] else Or(done, want, i)
  {
  }

  lemma FreshStart(v: Version, a: Answers, h: Homes, none: seq<bool>)
    requires v.Intact() && Fits(v, a, h) && |none| == v.width && forall i :: 0 <= i < v.width ==> !none[i]
    ensures Touched(v, a, h, h.atNew, none)
  {
    hide Injective;
  }

  lemma NothingDone(v: Version, a: Answers, h: Homes, p: Plan)
    requires v.Intact() && Planned(v, a, h, p) && h.atOld.None?
    ensures Touched(v, a, h, h.atNew, p.copies)
  {
    FreshStart(v, a, h, p.copies);
  }

  /** What verified at the scrub is not touched by the installs. */
  lemma GoodUntouched(v: Version, a: Answers, h: Homes, p: Plan, homes: seq<Option<bytes>>)
    requires Planned(v, a, h, p) && Touched(v, a, h, homes, p.copies)
    ensures |homes| == v.width && forall i :: 0 <= i < v.width && p.good[i] ==> homes[i] == h.atNew[i]
  {
  }

  /** One slot moved as an install moves it. */
  lemma SlotChanged(v: Version, a: Answers, h: Homes, before: seq<Option<bytes>>, after: seq<Option<bytes>>,
                    done: seq<bool>, i: nat)
    requires Touched(v, a, h, before, done) && i < v.width && !done[i] && |after| == v.width &&
      after == before[i := after[i]]
    requires SlotSound(v, a, h, after, i)
    ensures Sound(v, a, h, after)
    ensures Settled(v, a, h, after, i) ==> Touched(v, a, h, after, done[i := true])
  {
    hide Version.From, Version.Recorded;
    forall j | 0 <= j < v.width
      ensures SlotSound(v, a, h, after, j)
    {
      assert SlotSound(v, a, h, before, j);
    }
  }

  /** With copies and rebuilds done, every slot is settled. */
  lemma AllDone(v: Version, a: Answers, h: Homes, p: Plan, homes: seq<Option<bytes>>)
    requires Planned(v, a, h, p) && v.Intact()
    requires Touched(v, a, h, homes, if CountTrue(p.rebuilds) == 0 then p.copies else Or(p.copies, p.rebuilds, v.width))
    ensures AllSettled(v, a, h, homes)
  {
    CountEnds(p.rebuilds);
    hide Injective;
    forall i | 0 <= i < v.width
      ensures Settled(v, a, h, homes, i)
    {
      MatchIsFile(v, h.atNew[i], i);
      assert p.good[i] == Good(v, a, h, i);
    }
  }

  /** What is good at its old home is the genuine shard. */
  lemma CopySources(v: Version, a: Answers, h: Homes, p: Plan)
    requires v.Intact() && Planned(v, a, h, p) && h.atOld.Some?
    ensures forall i :: 0 <= i < v.width && p.copies[i] ==> h.atOld.value[i] == Some(v.files[i])
  {
    hide Injective;
    forall i | 0 <= i < v.width && p.copies[i]
      ensures h.atOld.value[i] == Some(v.files[i])
    {
      MatchIsFile(v, h.atOld.value[i], i);
    }
  }

  lemma PlanStep(p: Plan, i: nat)
    requires i < |p.good| && |p.good| == |p.copies|
    ensures CountTrue(p.good[..i + 1]) == CountTrue(p.good[..i]) + if p.good[i] then 1 else 0
    ensures CountTrue(p.copies[..i + 1]) == CountTrue(p.copies[..i]) + if p.copies[i] then 1 else 0
  {
    assert p.good[..i + 1] == p.good[..i] + [p.good[i]] && p.copies[..i + 1] == p.copies[..i] + [p.copies[i]];
    CountAdded(p.good[..i], p.good[i]);
    CountAdded(p.copies[..i], p.copies[i]);
  }

  /** A slot to rebuild beside k survivors means there is parity. */
  lemma HasParity(v: Version, o: Origin, p: Plan, bodies: seq<Option<bytes>>)
    requires v.From(o) && |bodies| == |p.rebuilds| == v.width && EcStripe.Count(bodies) == v.k &&
      CountTrue(p.rebuilds) > 0
    requires forall i :: 0 <= i < v.width && bodies[i].Some? ==> !p.rebuilds[i]
    ensures o.g.m > 0
  {
    hide MDS, ShardFile;
    CountEnds(p.rebuilds);
    if o.g.m == 0 {
      CountSingle(bodies);
    }
  }

  lemma UnswitchedKeeps(v: Version, a: Answers, h: Homes, code: Code)
    requires Faithful(v, a, h, code)
    ensures a.recoding.Ran? && a.recoding.end.ok ==> a.recoding.end.switched
    ensures a.recoding.Ran? && !a.recoding.end.switched ==> a.recoding.end.oldHomes == Source(h)
  {
    hide ReadsAs;
  }

  // ---- a silent home over rot ----

  lemma {:induction false} CountAllBut(s: seq<bool>, i: nat, n: nat)
    requires n <= |s| && i < |s| && (forall j :: 0 <= j < |s| ==> s[j] == (j != i))
    ensures CountTrue(s[..n]) == if i < n then n - 1 else n
  {
    if n > 0 {
      CountAllBut(s, i, n - 1);
      assert s[..n] == s[..n - 1] + [s[n - 1]];
      CountAdded(s[..n - 1], s[n - 1]);
    }
  }

  lemma {:induction false} CountOnly(s: seq<bool>, i: nat, n: nat)
    requires n <= |s| && i < |s| && (forall j :: 0 <= j < |s| ==> s[j] == (j == i))
    ensures CountTrue(s[..n]) == if i < n then 1 else 0
  {
    if n > 0 {
      CountOnly(s, i, n - 1);
      assert s[..n] == s[..n - 1] + [s[n - 1]];
      CountAdded(s[..n - 1], s[n - 1]);
    }
  }

  /** Every home good but one, which is silent over a rotted shard. */
  function SilentAnswers(n: nat, i: nat): (a: Answers) {
    var up, acked := seq(n, j => j != i), seq(n, _ => Acked);
    Answers(true, n, n, true, up, up, seq(n, _ => true), true, acked, acked, NotStarted)
  }

  function SilentHomes(v: Version, i: nat, rot: bytes): Homes
    requires |v.files| == v.width
  {
    Homes(seq(v.width, j requires 0 <= j < v.width => Some(if j == i then rot else v.files[j])), None)
  }

  lemma SilentPlan(v: Version, i: nat, rot: bytes)
    requires v.Recorded() && i < v.width && rot != v.files[i]
    ensures var a, h := SilentAnswers(v.width, i), SilentHomes(v, i, rot);
      && Fits(v, a, h) && NoFaults(a)
      && var p := PlanOf(v, a, h); CountTrue(p.rebuilds) == 1 && CountTrue(p.copies) == 0 && Sources(p) == v.width - 1
  {
    var a, h := SilentAnswers(v.width, i), SilentHomes(v, i, rot);
    var p := PlanOf(v, a, h);
    assert forall j :: 0 <= j < v.width ==> p.good[j] == (j != i) && !p.copies[j] && p.rebuilds[j] == (j == i);
    CountAllBut(p.good, i, v.width);
    CountOnly(p.rebuilds, i, v.width);
    assert p.good[..v.width] == p.good && p.rebuilds[..v.width] == p.rebuilds;
    CountEnds(p.copies);
  }

  /** A sweep of such a version, any home of any version: with a shard to spare it is counted as
      repaired, one shard rebuilt, and the rotted one stays; with none to spare it is reported beyond
      help. */
  method SilentRotRun(v: Version, i: nat, rot: bytes, ghost o: Origin, code: Code) returns (s: Sweep, out: Outcome)
    requires v.From(o) && v.Recorded() && code == o.code && i < v.width && rot != v.files[i]
    ensures fresh(s) && |s.homes| == v.width && s.homes[i] == Some(rot) && !AllPlaced(v, s.homes)
    ensures v.k < v.width ==> out.Repaired? && s.report == NoReport.(objects := 1, rebuilt := 1)
    ensures v.k == v.width ==> out.Unrepairable? && s.report == NoReport.(objects := 1, unrepairable := 1)
  {
    hide Version.From, Injective, CountTrue, PlanOf;
    StoredIntact(v, o);
    SilentPlan(v, i, rot);
    var a, h := SilentAnswers(v.width, i), SilentHomes(v, i, rot);
    s := new Sweep(false);
    out := s.NextItem(v, a, h, o, code);
    assert SlotSound(v, a, h, s.homes, i);
    assert !Good(v, a, h, i);
  }

  // ---- the whole sweep ----

  /** Runs over every listed version. If it ends with a clean report, every version verified at
      all of its new homes. Whatever the report, no scrubbed version lost a genuine shard, each one
      repaired is settled, and each one re-encoded reads as what its re-encode fetched. */
  method Run(work: seq<Version>, answers: seq<Answers>, homes: seq<Homes>, optimize: bool, code: Code,
             ghost origins: seq<Origin>)
    returns (report: Report, outs: seq<Outcome>, after: seq<seq<Option<bytes>>>)
    requires |work| == |answers| == |homes| == |origins|
    requires forall j :: 0 <= j < |work| ==>
      work[j].From(origins[j]) && origins[j].code == code && work[j].Recorded() && Fits(work[j], answers[j], homes[j])
    requires forall j :: 0 <= j < |work| ==> Faithful(work[j], answers[j], homes[j], code)
    ensures |outs| == |after| == report.objects == |work|
    ensures Clean(report) ==> report.healthy == |work| && forall j :: 0 <= j < |work| ==>
      AllGood(work[j], answers[j], homes[j])
    ensures forall j :: 0 <= j < |work| && Scrubbed(work[j], answers[j], optimize) ==>
      Judged(work[j], answers[j], homes[j], outs[j]) && Left(work[j], answers[j], homes[j], outs[j], after[j])
    ensures forall j :: 0 <= j < |work| && Reencodes(work[j], answers[j], optimize) ==>
      Recoded(work[j], answers[j], homes[j], origins[j], outs[j], after[j])
  {
    hide Version.From, Version.Recorded, Left, Judged, AllGood, Recoded, Faithful;
    var op := new Sweep(optimize);
    outs, after := [], [];
    for j := 0 to |work|
      invariant |outs| == |after| == op.report.objects == j && fresh(op) && op.optimize == optimize
      invariant Clean(op.report) ==> op.report.healthy == j && forall i :: 0 <= i < j ==>
        AllGood(work[i], answers[i], homes[i])
      invariant forall i :: 0 <= i < j && Scrubbed(work[i], answers[i], optimize) ==>
        Judged(work[i], answers[i], homes[i], outs[i]) && Left(work[i], answers[i], homes[i], outs[i], after[i])
      invariant forall i :: 0 <= i < j && Reencodes(work[i], answers[i], optimize) ==>
        Recoded(work[i], answers[i], homes[i], origins[i], outs[i], after[i])
    {
      ghost var before := op.report;
      var out := op.NextItem(work[j], answers[j], homes[j], origins[j], code);
      CleanIsHealthy(work[j], answers[j], homes[j], optimize, before, op.report, out);
      outs, after := outs + [out], after + [op.homes];
    }
    report := op.report;
  }

  /** Only a version verified everywhere leaves the report clean. */
  lemma CleanIsHealthy(v: Version, a: Answers, h: Homes, optimize: bool, r: Report, s: Report, out: Outcome)
    requires Fits(v, a, h) && Tallied(r, s, out, PlanOf(v, a, h))
    requires if Scrubbed(v, a, optimize) then Judged(v, a, h, out) else out.Reencoded? || out.Failed?
    ensures Clean(s) ==> Clean(r) && out.Healthy? && AllGood(v, a, h)
  {
    var p := PlanOf(v, a, h);
    CountEnds(p.rebuilds);
    CountEnds(p.copies);
    if CountTrue(p.rebuilds) == 0 && CountTrue(p.copies) == 0 {
      forall i | 0 <= i < v.width
        ensures Good(v, a, h, i)
      {
        assert !p.rebuilds[i] && !p.copies[i];
      }
    }
  }
}
