/** What the spread guarantees: zone coverage, exactly when it is the bare rendezvous
    ranking, and exactly when its duplicate check is sound. */
module PlaceTheorems {
  import opened Bytes
  import opened Arith
  import opened Lex
  import opened PlaceRank
  import opened PlaceSpread

  // ---- zone coverage ----

  function ActiveIndices(rank: seq<Ranked>): (s: set<nat>) {
    set i: nat | i < |rank| && !rank[i].node.draining
  }

  function ActiveZones(rank: seq<Ranked>): (s: set<bytes>) {
    set i: nat | i < |rank| && !rank[i].node.draining :: rank[i].node.zone
  }

  function ZonesOf(rank: seq<Ranked>, picked: seq<nat>): (s: set<bytes>)
    requires Within(rank, picked)
  {
    set t: nat | t < |picked| :: rank[picked[t]].node.zone
  }

  lemma {:induction false} LoadZeroIffAbsent(rank: seq<Ranked>, picked: seq<nat>, z: bytes)
    requires Within(rank, picked)
    ensures ZoneLoad(rank, picked, z) == 0 <==> z !in ZonesOf(rank, picked)
  {
    if picked != [] {
      var p := picked[..|picked| - 1];
      LoadZeroIffAbsent(rank, p, z);
      ZonesStep(rank, p, picked[|picked| - 1]);
      assert picked == p + [picked[|picked| - 1]];
    }
  }

  lemma ZonesStep(rank: seq<Ranked>, picked: seq<nat>, b: nat)
    requires Within(rank, picked) && b < |rank|
    ensures ZonesOf(rank, picked + [b]) == ZonesOf(rank, picked) + {rank[b].node.zone}
  {
    var more := picked + [b];
    forall z | z in ZonesOf(rank, picked) + {rank[b].node.zone}
      ensures z in ZonesOf(rank, more)
    {
      if z in ZonesOf(rank, picked) {
        var t: nat :| t < |picked| && rank[picked[t]].node.zone == z;
        assert more[t] == picked[t];
      } else {
        assert more[|picked|] == b;
      }
    }
  }

  /** While active nodes remain, the next pick is active. */
  lemma ActivePick(rank: seq<Ranked>, n: nat)
    requires n < |rank| && n < |ActiveIndices(rank)|
    ensures !rank[Picks(rank, n + 1)[n]].node.draining
  {
    hide ZoneLoad, HostLoad, Scan;
    var p := Picks(rank, n);
    var left := ActiveIndices(rank) - ElementsOf(p);
    if left == {} {
      Subset(ActiveIndices(rank), ElementsOf(p));
      assert false;
    }
    var i :| i in left;
    PickExists(rank, p);
  }

  lemma {:induction false} PicksActive(rank: seq<Ranked>, n: nat)
    requires n <= |rank| && n <= |ActiveIndices(rank)|
    ensures ZonesOf(rank, Picks(rank, n)) <= ActiveZones(rank)
  {
    if n > 0 {
      PicksActive(rank, n - 1);
      ActivePick(rank, n - 1);
      var p := Picks(rank, n - 1);
      ZonesStep(rank, p, Picks(rank, n)[n - 1]);
      assert Picks(rank, n) == p + [Picks(rank, n)[n - 1]];
    }
  }

  /** While some active zone is untouched, the next pick opens a new zone. */
  lemma FreshZone(rank: seq<Ranked>, n: nat)
    requires n < |rank| && n < |ActiveIndices(rank)| && ZonesOf(rank, Picks(rank, n)) < ActiveZones(rank)
    ensures rank[Picks(rank, n + 1)[n]].node.zone !in ZonesOf(rank, Picks(rank, n))
  {
    var p := Picks(rank, n);
    var b := Picks(rank, n + 1)[n];
    var z :| z in ActiveZones(rank) && z !in ZonesOf(rank, p);
    var i: nat :| i < |rank| && !rank[i].node.draining && rank[i].node.zone == z;
    ActivePick(rank, n);
    PickExists(rank, p);
    hide Scan, HostLoad, ZoneLoad;
    LoadZeroIffAbsent(rank, p, z);
    LoadZeroIffAbsent(rank, p, rank[b].node.zone);
    assert !Cheaper(Cost(rank, p, i), Cost(rank, p, b));
  }

  /** Zone coverage: for any width up to the active count, the picks span as many distinct
      zones as there are to span. */
  lemma {:induction false} ZoneCoverage(rank: seq<Ranked>, n: nat)
    requires n <= |rank| && n <= |ActiveIndices(rank)|
    ensures |ZonesOf(rank, Picks(rank, n))| == if n < |ActiveZones(rank)| then n else |ActiveZones(rank)|
  {
    hide ZonesOf, ActiveZones, ActiveIndices;
    if n == 0 {
      NoZones(rank);
    } else {
      ZoneCoverage(rank, n - 1);
      PicksActive(rank, n - 1);
      PicksActive(rank, n);
      var p, q := Picks(rank, n - 1), Picks(rank, n);
      var zp := ZonesOf(rank, p);
      ZonesStep(rank, p, q[n - 1]);
      assert q == p + [q[n - 1]];
      hide Picks;
      if zp != ActiveZones(rank) {
        ProperSubset(zp, ActiveZones(rank));
        FreshZone(rank, n - 1);
      } else {
        assert ZonesOf(rank, q) == zp;
      }
    }
  }

  /** A node that could still be picked. */
  predicate Spare(rank: seq<Ranked>, n: nat, i: nat)
    requires n <= |rank|
  {
    i < |rank| && i !in Picks(rank, n) && !rank[i].node.draining
  }

  /** The pick is no dearer than any spare. */
  lemma PickNoDearer(rank: seq<Ranked>, n: nat, i: nat)
    requires n < |rank| && Spare(rank, n, i)
    ensures var p, q := Picks(rank, n), Picks(rank, n + 1);
      q == p + [q[n]] && !Cheaper(Cost(rank, p, i), Cost(rank, p, q[n]))
  {
    PickExists(rank, Picks(rank, n));
    hide Scan, Cost, Cheaper;
  }

  /** Zones fill evenly: no zone gets two ahead of one that still has a node to give. */
  lemma {:induction false} ZonesBalanced(rank: seq<Ranked>, n: nat, i: nat, y: bytes)
    requires n <= |rank| && Spare(rank, n, i)
    ensures ZoneLoad(rank, Picks(rank, n), y) <= ZoneLoad(rank, Picks(rank, n), rank[i].node.zone) + 1
  {
    if n > 0 {
      assert Picks(rank, n)[..n - 1] == Picks(rank, n - 1);
      ZonesBalanced(rank, n - 1, i, y);
      PickNoDearer(rank, n - 1, i);
      LoadStep(rank, Picks(rank, n - 1), Picks(rank, n)[n - 1]);
      hide Picks, ZoneLoad, HostLoad;
    }
  }

  /** And within a zone so do hosts: none that is all in that zone gets two ahead of one that still
      has a node to give. */
  lemma {:induction false} HostsBalanced(rank: seq<Ranked>, n: nat, i: nat, g: bytes)
    requires n <= |rank| && Spare(rank, n, i)
    requires forall j :: 0 <= j < |rank| && rank[j].node.host == g ==> rank[j].node.zone == rank[i].node.zone
    ensures HostLoad(rank, Picks(rank, n), g) <= HostLoad(rank, Picks(rank, n), rank[i].node.host) + 1
  {
    if n > 0 {
      assert Picks(rank, n)[..n - 1] == Picks(rank, n - 1);
      HostsBalanced(rank, n - 1, i, g);
      PickNoDearer(rank, n - 1, i);
      LoadStep(rank, Picks(rank, n - 1), Picks(rank, n)[n - 1]);
      hide Picks, ZoneLoad, HostLoad;
    }
  }

  lemma NoZones(rank: seq<Ranked>)
    ensures ZonesOf(rank, []) == {}
  {
  }

  lemma ProperSubset<T>(a: set<T>, b: set<T>)
    requires a < b
    ensures |a| < |b|
  {
    var x :| x in b && x !in a;
    Subset(a, b - {x});
  }

  // ---- the bare ranking ----

  /** The unweighted order: score descending, ties by ID. */
  predicate BareBefore(score: Score, a: bytes, b: bytes) {
    score(a) > score(b) || (score(a) == score(b) && Less(a, b))
  }

  predicate BareSorted(score: Score, s: seq<bytes>) {
    forall i, j :: 0 <= i < j < |s| ==> s[i] == s[j] || BareBefore(score, s[i], s[j])
  }

  lemma BareAsymmetric(score: Score, a: bytes, b: bytes)
    requires BareBefore(score, a, b)
    ensures !BareBefore(score, b, a) && a != b
  {
    Irreflexive(a);
    if Less(a, b) {
      Asymmetric(a, b);
    }
  }

  function BareInsert(score: Score, x: bytes, s: seq<bytes>): (t: seq<bytes>)
    ensures multiset(t) == multiset(s) + multiset{x} && |t| == |s| + 1
  {
    if s == [] then [x]
    else if BareBefore(score, s[0], x) then
      assert s == [s[0]] + s[1..];
      [s[0]] + BareInsert(score, x, s[1..])
    else [x] + s
  }

  function BareSort(score: Score, ids: seq<bytes>): (t: seq<bytes>)
    ensures multiset(t) == multiset(ids) && |t| == |ids|
  {
    if ids == [] then []
    else
      assert ids == [ids[0]] + ids[1..];
      BareInsert(score, ids[0], BareSort(score, ids[1..]))
  }

  predicate Distinct(s: seq<bytes>) {
    forall i, j :: 0 <= i < j < |s| ==> s[i] != s[j]
  }

  lemma {:induction false} BareInsertSorted(score: Score, x: bytes, s: seq<bytes>)
    requires BareSorted(score, s)
    ensures BareSorted(score, BareInsert(score, x, s))
  {
    if s != [] && BareBefore(score, s[0], x) {
      BareInsertSorted(score, x, s[1..]);
      var t := BareInsert(score, x, s[1..]);
      forall j | 0 <= j < |t|
        ensures s[0] == t[j] || BareBefore(score, s[0], t[j])
      {
        assert t[j] in multiset(t);
        if t[j] != x {
          assert t[j] in s[1..];
        }
      }
    } else if s != [] {
      forall j | 0 <= j < |s|
        ensures x == s[j] || BareBefore(score, x, s[j])
      {
        Total(x, s[0]);
        if Less(x, s[0]) && Less(s[0], s[j]) {
          Transitive(x, s[0], s[j]);
        }
      }
    }
  }

  lemma {:induction false} BareSortSorted(score: Score, ids: seq<bytes>)
    ensures BareSorted(score, BareSort(score, ids))
  {
    if ids != [] {
      BareSortSorted(score, ids[1..]);
      BareInsertSorted(score, ids[0], BareSort(score, ids[1..]));
    }
  }

  lemma BareHeadsAgree(score: Score, s: seq<bytes>, t: seq<bytes>)
    requires s != [] && t != [] && BareSorted(score, s) && BareSorted(score, t) && multiset(s) == multiset(t)
    ensures s[0] == t[0]
  {
    hide BareBefore;
    assert t[0] in multiset(s) && s[0] in multiset(t);
    var i :| 0 <= i < |s| && s[i] == t[0];
    var j :| 0 <= j < |t| && t[j] == s[0];
    if i > 0 && j > 0 && s[0] != t[0] {
      BareAsymmetric(score, s[0], t[0]);
    }
  }

  lemma BareTail(score: Score, s: seq<bytes>)
    requires s != [] && BareSorted(score, s)
    ensures BareSorted(score, s[1..])
  {
    hide BareBefore;
  }

  lemma {:induction false} BareUnique(score: Score, s: seq<bytes>, t: seq<bytes>)
    requires BareSorted(score, s) && BareSorted(score, t) && multiset(s) == multiset(t)
    ensures s == t
  {
    hide BareSorted;
    assert |multiset(s)| == |s| && |multiset(t)| == |t|;
    if s != [] {
      BareHeadsAgree(score, s, t);
      WithoutCommon(s, 0, t, 0);
      assert Without(s, 0) == s[1..] && Without(t, 0) == t[1..];
      BareTail(score, s);
      BareTail(score, t);
      BareUnique(score, s[1..], t[1..]);
      assert s == [s[0]] + s[1..] && t == [t[0]] + t[1..];
    }
  }

  /** A sort of distinct IDs stays distinct, and duplicates sort together. */
  lemma {:induction false} BareDuplicates(score: Score, ids: seq<bytes>, rank: seq<bytes>)
    requires BareSorted(score, rank) && multiset(rank) == multiset(ids)
    ensures Distinct(ids) <==> forall i :: 1 <= i < |rank| ==> rank[i] != rank[i - 1]
  {
    hide BareBefore, BareSorted;
    DistinctIsCount(ids);
    DistinctIsCount(rank);
    if !Distinct(rank) {
      var i, j :| 0 <= i < j < |rank| && rank[i] == rank[j];
      BareNeighbours(score, rank, i, j);
      assert rank[i + 1] == rank[i + 1 - 1];
    }
  }

  lemma BareNeighbours(score: Score, rank: seq<bytes>, i: nat, j: nat)
    requires BareSorted(score, rank) && i < j < |rank| && rank[i] == rank[j]
    ensures rank[i + 1] == rank[i]
  {
    hide BareBefore;
    if rank[i + 1] != rank[i] {
      BareAsymmetric(score, rank[i], rank[i + 1]);
    }
  }

  /** Distinctness seen through the multiset. */
  lemma {:induction false} DistinctIsCount(s: seq<bytes>)
    ensures Distinct(s) <==> forall x :: multiset(s)[x] <= 1
  {
    if s != [] {
      var t := s[1..];
      assert s == [s[0]] + t;
      DistinctIsCount(t);
      assert s[0] in t <==> multiset(t)[s[0]] > 0;
      if Distinct(t) && s[0] !in t {
        assert forall j :: 1 <= j < |s| ==> s[j] == t[j - 1] && s[j] in t;
      } else if s[0] in t {
        var k :| 0 <= k < |t| && t[k] == s[0];
        assert s[0] == s[k + 1];
        assert multiset(s)[s[0]] > 1;
      } else {
        var i, j :| 0 <= i < j < |t| && t[i] == t[j];
        assert s[i + 1] == s[j + 1];
        var x :| multiset(t)[x] > 1;
        assert multiset(s)[x] > 1;
      }
    }
  }

  /** The unlabelled placement: the first `width` of the bare ranking, duplicates refused. */
  method Nodes(score: Score, ids: seq<bytes>, width: int) returns (r: Result<seq<bytes>, PlaceError>)
    ensures r.Ok? <==> 0 < width <= |ids| && Distinct(ids)
    ensures r.Ok? ==> r.value == BareSort(score, ids)[..width]
  {
    if width <= 0 {
      return Err(BadWidth);
    }
    if |ids| < width {
      return Err(TooFewNodes);
    }
    var rank := BareSort(score, ids);
    BareSortSorted(score, ids);
    BareDuplicates(score, ids, rank);
    hide BareSort, BareSorted, Distinct;
    var i := 1;
    while i < |rank|
      invariant 1 <= i
      invariant forall j :: 1 <= j < i && j < |rank| ==> rank[j] != rank[j - 1]
    {
      if rank[i] == rank[i - 1] {
        return Err(DuplicateMember(rank[i]));
      }
      i := i + 1;
    }
    r := Ok(rank[..width]);
  }

  function Ids(members: seq<Node>): (ids: seq<bytes>)
    ensures |ids| == |members| && forall i :: 0 <= i < |ids| ==> ids[i] == members[i].id
  {
    seq(|members|, i requires 0 <= i < |members| => members[i].id)
  }

  function RankIds(rank: seq<Ranked>): (ids: seq<bytes>)
    ensures |ids| == |rank| && forall i :: 0 <= i < |ids| ==> ids[i] == rank[i].node.id
  {
    seq(|rank|, i requires 0 <= i < |rank| => rank[i].node.id)
  }

  predicate EqualWeight(members: seq<Node>) {
    forall i, j :: 0 <= i < |members| && 0 <= j < |members| ==> Effective(members[i]) == Effective(members[j])
  }

  function Effective(n: Node): nat { if n.weight == 0 then 1 else n.weight }

  predicate NoneDraining(members: seq<Node>) {
    forall i :: 0 <= i < |members| ==> !members[i].draining
  }

  predicate DistinctMembers(members: seq<Node>) {
    forall i, j :: 0 <= i < j < |members| ==> members[i].id != members[j].id
  }

  /** With equal weights the weighted ranking is the bare ranking. */
  lemma EqualWeightsRankBare(score: Score, members: seq<Node>)
    requires ValidMembers(members) && DistinctMembers(members) && EqualWeight(members)
    ensures RankIds(Sort(RankAll(score, members))) == BareSort(score, Ids(members))
  {
    var ranked := RankAll(score, members);
    var rank := Sort(ranked);
    SortSorted(score, ranked);
    SameElements(rank, ranked);
    assert DistinctIds(ranked);
    DistinctPermutes(rank, ranked);
    var ids := RankIds(rank);
    forall i, j | 0 <= i < j < |ids|
      ensures BareBefore(score, ids[i], ids[j])
    {
      assert rank[i] in rank && rank[j] in rank;
      BeforeTotal(rank[i], rank[j]);
      EqualWeightsRankByScore(score, rank[i], rank[j]);
    }
    IdsPermute(rank, ranked);
    assert RankIds(ranked) == Ids(members);
    BareSortSorted(score, Ids(members));
    BareUnique(score, ids, BareSort(score, Ids(members)));
  }

  lemma {:induction false} IdsPermute(s: seq<Ranked>, t: seq<Ranked>)
    requires multiset(s) == multiset(t)
    ensures multiset(RankIds(s)) == multiset(RankIds(t))
    decreases |s|
  {
    assert |multiset(s)| == |s| && |multiset(t)| == |t|;
    if s != [] {
      assert s[0] in multiset(t);
      var k :| 0 <= k < |t| && t[k] == s[0];
      WithoutCommon(s, 0, t, k);
      IdsPermute(Without(s, 0), Without(t, k));
      assert RankIds(Without(s, 0)) == Without(RankIds(s), 0);
      assert RankIds(Without(t, k)) == Without(RankIds(t), k);
      WithoutCommon(RankIds(s), 0, RankIds(t), k);
    }
  }

  predicate AgreesWithBare(score: Score, members: seq<Node>, w: nat)
    requires ValidMembers(members) && w <= |members|
  {
    PickedIds(Sort(RankAll(score, members)), w) == BareSort(score, Ids(members))[..w]
  }

  predicate AllSame(names: seq<bytes>) {
    forall i, j :: 0 <= i < |names| && 0 <= j < |names| ==> names[i] == names[j]
  }

  function Zones(members: seq<Node>): (z: seq<bytes>)
    ensures |z| == |members| && forall i :: 0 <= i < |z| ==> z[i] == members[i].zone
  {
    seq(|members|, i requires 0 <= i < |members| => members[i].zone)
  }

  function Hosts(members: seq<Node>): (h: seq<bytes>)
    ensures |h| == |members| && forall i :: 0 <= i < |h| ==> h[i] == members[i].host
  {
    seq(|members|, i requires 0 <= i < |members| => members[i].host)
  }

  /** Every zone load ties at every step, and so does every host load. */
  predicate Uniform(members: seq<Node>) {
    (AllSame(Zones(members)) || Distinct(Zones(members))) && (AllSame(Hosts(members)) || Distinct(Hosts(members)))
  }

  // ---- when the spread is the bare ranking ----

  function RankZones(rank: seq<Ranked>): (z: seq<bytes>)
    ensures |z| == |rank| && forall i :: 0 <= i < |z| ==> z[i] == rank[i].node.zone
  {
    seq(|rank|, i requires 0 <= i < |rank| => rank[i].node.zone)
  }

  function RankHosts(rank: seq<Ranked>): (h: seq<bytes>)
    ensures |h| == |rank| && forall i :: 0 <= i < |h| ==> h[i] == rank[i].node.host
  {
    seq(|rank|, i requires 0 <= i < |rank| => rank[i].node.host)
  }

  predicate UniformRank(rank: seq<Ranked>) {
    && (AllSame(RankZones(rank)) || Distinct(RankZones(rank)))
    && (AllSame(RankHosts(rank)) || Distinct(RankHosts(rank)))
    && forall i :: 0 <= i < |rank| ==> !rank[i].node.draining
  }

  function FirstN(n: nat): (s: seq<nat>)
    ensures |s| == n && forall i :: 0 <= i < n ==> s[i] == i
  {
    seq(n, i => i)
  }

  /** The load of a zone once the top n ranks are taken: all of them or none. */
  lemma {:induction false} TopZoneLoad(rank: seq<Ranked>, n: nat, i: nat)
    requires n <= i < |rank| && (AllSame(RankZones(rank)) || Distinct(RankZones(rank)))
    ensures ZoneLoad(rank, FirstN(n), rank[i].node.zone) == if AllSame(RankZones(rank)) then n else 0
    decreases n
  {
    if n > 0 {
      TopZoneLoad(rank, n - 1, i);
      assert FirstN(n)[..n - 1] == FirstN(n - 1);
      assert RankZones(rank)[n - 1] == rank[n - 1].node.zone && RankZones(rank)[i] == rank[i].node.zone;
    }
  }

  lemma {:induction false} TopHostLoad(rank: seq<Ranked>, n: nat, i: nat)
    requires n <= i < |rank| && (AllSame(RankHosts(rank)) || Distinct(RankHosts(rank)))
    ensures HostLoad(rank, FirstN(n), rank[i].node.host) == if AllSame(RankHosts(rank)) then n else 0
    decreases n
  {
    if n > 0 {
      TopHostLoad(rank, n - 1, i);
      assert FirstN(n)[..n - 1] == FirstN(n - 1);
      assert RankHosts(rank)[n - 1] == rank[n - 1].node.host && RankHosts(rank)[i] == rank[i].node.host;
    }
  }

  /** Every load ties at every step, so picks follow rank order. */
  lemma {:induction false} UniformPicksInOrder(rank: seq<Ranked>, n: nat)
    requires n <= |rank| && UniformRank(rank)
    ensures Picks(rank, n) == FirstN(n)
  {
    hide UniformRank, IsBest, Scan;
    if n > 0 {
      UniformPicksInOrder(rank, n - 1);
      PickExists(rank, FirstN(n - 1));
      LowestWins(rank, n - 1, Picks(rank, n)[n - 1]);
      assert Picks(rank, n) == FirstN(n - 1) + [n - 1] == FirstN(n);
    }
  }

  lemma InFirstN(n: nat, i: nat)
    ensures i in FirstN(n) <==> i < n
  {
    if i < n {
      assert FirstN(n)[i] == i;
    }
  }

  lemma LowestWins(rank: seq<Ranked>, n: nat, b: nat)
    requires UniformRank(rank) && n < |rank| && IsBest(rank, FirstN(n), b)
    ensures b == n
  {
    hide UniformRank, Cost, FirstN;
    InFirstN(n, n);
    InFirstN(n, b);
    if b > n {
      CostsTie(rank, n, b, n);
    }
  }

  lemma CostsTie(rank: seq<Ranked>, n: nat, i: nat, j: nat)
    requires UniformRank(rank) && n <= i < |rank| && n <= j < |rank|
    ensures Cost(rank, FirstN(n), i) == Cost(rank, FirstN(n), j)
  {
    TopZoneLoad(rank, n, i);
    TopZoneLoad(rank, n, j);
    TopHostLoad(rank, n, i);
    TopHostLoad(rank, n, j);
  }

  /** A property of the labels that does not depend on order survives sorting. */
  lemma UniformSurvivesSort(score: Score, members: seq<Node>)
    requires ValidMembers(members) && DistinctMembers(members) && NoneDraining(members) && Uniform(members)
    ensures UniformRank(Sort(RankAll(score, members)))
  {
    var rank := Sort(RankAll(score, members));
    SortKeeps(score, members);
    hide Sort, RankAll, Uniform, UniformRank;
    assert forall i :: 0 <= i < |rank| ==> rank[i] in rank;
    LabelsSurvive(rank, members);
  }

  lemma RankNode(score: Score, n: Node)
    requires ValidNode(n)
    ensures Rank(score, n).node == n
  {
  }

  lemma LabelsSurvive(rank: seq<Ranked>, members: seq<Node>)
    requires forall i :: 0 <= i < |rank| ==> exists k :: 0 <= k < |members| && rank[i].node == members[k]
    requires DistinctIds(rank) && NoneDraining(members) && Uniform(members)
    ensures UniformRank(rank)
  {
    forall i, j | 0 <= i < j < |rank|
      ensures AllSame(Zones(members)) ==> rank[i].node.zone == rank[j].node.zone
      ensures Distinct(Zones(members)) ==> rank[i].node.zone != rank[j].node.zone
      ensures AllSame(Hosts(members)) ==> rank[i].node.host == rank[j].node.host
      ensures Distinct(Hosts(members)) ==> rank[i].node.host != rank[j].node.host
    {
      var k :| 0 <= k < |members| && rank[i].node == members[k];
      var l :| 0 <= l < |members| && rank[j].node == members[l];
      assert k != l;
      assert Zones(members)[k] == members[k].zone && Zones(members)[l] == members[l].zone;
      assert Hosts(members)[k] == members[k].host && Hosts(members)[l] == members[l].host;
    }
  }

  /** Equal weights, nobody draining, labels uniform: the spread is the bare ranking. */
  lemma UniformIsBare(score: Score, members: seq<Node>, w: nat)
    requires ValidMembers(members) && DistinctMembers(members) && EqualWeight(members) && NoneDraining(members)
    requires Uniform(members) && w <= |members|
    ensures AgreesWithBare(score, members, w)
  {
    hide Sort, RankAll, Rank, BareSort, Uniform, UniformRank, EqualWeight, Picks;
    var rank := Sort(RankAll(score, members));
    UniformSurvivesSort(score, members);
    UniformPicksInOrder(rank, w);
    EqualWeightsRankBare(score, members);
    assert forall i :: 0 <= i < w ==> PickedIds(rank, w)[i] == RankIds(rank)[i];
  }

  /** Scores that rank three chosen members first, in order. */
  function Favour(a: bytes, b: bytes, c: bytes): Score {
    id => if id == a then 3 else if id == b then 2 else if id == c then 1 else 0
  }

  /** The three favoured members lead the ranking. */
  lemma FavouredLead(members: seq<Node>, a: nat, b: nat, c: nat)
    requires ValidMembers(members) && DistinctMembers(members) && EqualWeight(members)
    requires a < |members| && b < |members| && c < |members| && a != b && a != c && b != c
    ensures var rank := Sort(RankAll(Favour(members[a].id, members[b].id, members[c].id), members));
      |rank| >= 3 && rank[0].node == members[a] && rank[1].node == members[b] && rank[2].node == members[c]
  {
    hide Sort, BareSort, RankAll, BareSorted, Rank, Favour, EqualWeight;
    var score := Favour(members[a].id, members[b].id, members[c].id);
    var rank := Sort(RankAll(score, members));
    EqualWeightsRankBare(score, members);
    BareSortSorted(score, Ids(members));
    var i := Position(score, members, a);
    var j := Position(score, members, b);
    var k := Position(score, members, c);
    SortKeeps(score, members);
    TopThree(members[a].id, members[b].id, members[c].id, RankIds(rank), i, j, k);
  }

  /** Where a member lands in the ranking. */
  lemma Position(score: Score, members: seq<Node>, m: nat) returns (i: nat)
    requires ValidMembers(members) && m < |members|
    ensures i < |Sort(RankAll(score, members))| && Sort(RankAll(score, members))[i].node == members[m]
  {
    var ranked := RankAll(score, members);
    SameElements(Sort(ranked), ranked);
    assert ranked[m] in Sort(ranked);
    hide Sort;
    RankNode(score, members[m]);
    i :| 0 <= i < |Sort(ranked)| && Sort(ranked)[i] == ranked[m];
  }

  lemma TopThree(a: bytes, b: bytes, c: bytes, ids: seq<bytes>, i: nat, j: nat, k: nat)
    requires a != b && a != c && b != c && BareSorted(Favour(a, b, c), ids)
    requires i < |ids| && j < |ids| && k < |ids| && ids[i] == a && ids[j] == b && ids[k] == c
    requires Distinct(ids)
    ensures i == 0 && j == 1 && k == 2
  {
    var score := Favour(a, b, c);
    HigherFirst(score, ids, i, j);
    HigherFirst(score, ids, j, k);
    OthersLast(a, b, c, ids, k, 0);
    OthersLast(a, b, c, ids, k, 1);
    OthersLast(a, b, c, ids, k, 2);
  }

  lemma HigherFirst(score: Score, ids: seq<bytes>, i: nat, j: nat)
    requires BareSorted(score, ids) && i < |ids| && j < |ids| && score(ids[i]) > score(ids[j])
    ensures i < j
  {
  }

  lemma OthersLast(a: bytes, b: bytes, c: bytes, ids: seq<bytes>, k: nat, t: nat)
    requires a != b && a != c && b != c && BareSorted(Favour(a, b, c), ids) && k < |ids| && t < |ids| && ids[k] == c
    ensures ids[t] == a || ids[t] == b || ids[t] == c || k < t
  {
    if ids[t] != a && ids[t] != b && ids[t] != c {
      HigherFirst(Favour(a, b, c), ids, k, t);
    }
  }

  /** After the top pick, a lower-ranked node on emptier ground overtakes the runner-up. */
  lemma Overtakes(rank: seq<Ranked>)
    requires |rank| >= 3 && (forall i :: 0 <= i < |rank| ==> !rank[i].node.draining)
    requires var a, b, c := rank[0].node, rank[1].node, rank[2].node;
      || (b.zone == a.zone && c.zone != a.zone)
      || ((b.zone == a.zone <==> c.zone == a.zone) && b.host == a.host && c.host != a.host)
    ensures Picks(rank, 2)[1] != 1
  {
    FirstPick(rank);
    PickExists(rank, [0]);
    SecondPick(rank);
    LoadOfFirst(rank);
    hide Scan, ZoneLoad, HostLoad;
    assert 2 !in [0] && 1 !in [0];
    assert Cheaper(Cost(rank, [0], 2), Cost(rank, [0], 1));
  }

  lemma FirstPick(rank: seq<Ranked>)
    requires |rank| >= 1 && forall i :: 0 <= i < |rank| ==> !rank[i].node.draining
    ensures Picks(rank, 1) == [0]
  {
    var empty: seq<nat> := [];
    PickExists(rank, empty);
    assert Picks(rank, 0) == empty;
    assert Picks(rank, 1) == empty + [Scan(rank, empty, 0, |rank|)];
    hide Scan;
  }

  lemma SecondPick(rank: seq<Ranked>)
    requires |rank| >= 2 && Picks(rank, 1) == [0]
    ensures Picks(rank, 2)[1] == Scan(rank, [0], 0, |rank|)
  {
    hide Scan;
  }

  lemma LoadOfFirst(rank: seq<Ranked>)
    requires |rank| >= 1
    ensures Within(rank, [0])
    ensures forall z :: ZoneLoad(rank, [0], z) == if rank[0].node.zone == z then 1 else 0
    ensures forall h :: HostLoad(rank, [0], h) == if rank[0].node.host == h then 1 else 0
  {
    var empty: seq<nat> := [];
    LoadStep(rank, empty, 0);
    assert empty + [0] == [0];
  }

  /** Labels that are not uniform let some scores tell the spread from the bare ranking. */
  lemma NotUniformDiffers(members: seq<Node>)
    requires ValidMembers(members) && DistinctMembers(members) && EqualWeight(members) && NoneDraining(members)
    requires |members| >= 3 && !Uniform(members)
    ensures exists score: Score :: !AgreesWithBare(score, members, 2)
  {
    hide Sort, RankAll, Rank, Favour, BareSort, Picks, PickedIds, Uniform, EqualWeight;
    var a, b, c := Telling(members);
    var score := Favour(members[a].id, members[b].id, members[c].id);
    var rank := Sort(RankAll(score, members));
    FavouredLead(members, a, b, c);
    EqualWeightsRankBare(score, members);
    SortKeeps(score, members);
    Overtakes(rank);
    DiffersAtOne(rank);
    assert RankIds(rank)[..2][1] == RankIds(rank)[1];
    assert !AgreesWithBare(score, members, 2);
  }

  /** Sorting keeps the members: distinct, and none draining if none was. */
  lemma SortKeeps(score: Score, members: seq<Node>)
    requires ValidMembers(members) && DistinctMembers(members)
    ensures DistinctIds(Sort(RankAll(score, members)))
    ensures forall x :: x in Sort(RankAll(score, members)) ==> exists k :: 0 <= k < |members| && x.node == members[k]
    ensures NoneDraining(members) ==> forall x :: x in Sort(RankAll(score, members)) ==> !x.node.draining
  {
    var ranked := RankAll(score, members);
    var rank := Sort(ranked);
    SameElements(rank, ranked);
    assert DistinctIds(ranked) by {
      forall i | 0 <= i < |ranked|
        ensures ranked[i].node == members[i]
      {
        RankNode(score, members[i]);
      }
    }
    DistinctPermutes(rank, ranked);
    hide Sort, Rank;
    forall x | x in rank
      ensures exists k :: 0 <= k < |members| && x.node == members[k]
    {
      var k :| 0 <= k < |ranked| && ranked[k] == x;
      RankNode(score, members[k]);
    }
  }

  lemma DiffersAtOne(rank: seq<Ranked>)
    requires |rank| >= 2 && DistinctIds(rank) && Picks(rank, 2)[1] != 1
    ensures PickedIds(rank, 2)[1] != RankIds(rank)[1]
  {
    var q := Picks(rank, 2)[1];
    assert PickedIds(rank, 2)[1] == rank[q].node.id;
  }

  /** Three members whose labels tell the difference: two that share what the third does not. */
  lemma Telling(members: seq<Node>) returns (a: nat, b: nat, c: nat)
    requires |members| >= 3 && !Uniform(members)
    ensures a < |members| && b < |members| && c < |members| && a != b && a != c && b != c
    ensures var x, y, z := members[a], members[b], members[c];
      || (y.zone == x.zone && z.zone != x.zone)
      || ((y.zone == x.zone <==> z.zone == x.zone) && y.host == x.host && z.host != x.host)
  {
    var zones, hosts := Zones(members), Hosts(members);
    if !(AllSame(zones) || Distinct(zones)) {
      a, b, c := OddOneOut(zones);
    } else {
      a, b, c := OddOneOut(hosts);
      assert zones[a] == members[a].zone && zones[b] == members[b].zone && zones[c] == members[c].zone;
      assert Distinct(zones) ==> zones[a] != zones[b] && zones[a] != zones[c];
    }
  }

  lemma OddOneOut(names: seq<bytes>) returns (a: nat, b: nat, c: nat)
    requires !AllSame(names) && !Distinct(names)
    ensures a < |names| && b < |names| && c < |names| && a != b && a != c && b != c
    ensures names[a] == names[b] != names[c]
  {
    a, b :| 0 <= a < b < |names| && names[a] == names[b];
    var i, j :| 0 <= i < |names| && 0 <= j < |names| && names[i] != names[j];
    c := if names[i] != names[a] then i else j;
  }

  /** Exactly when placement ignores the labels: with equal weights and nobody draining, the spread
      is the bare ranking for every score and width if and only if the zones are all alike or all
      different, and the hosts too. */
  lemma SpreadIsBareExactlyWhenUniform(members: seq<Node>)
    requires ValidMembers(members) && DistinctMembers(members) && EqualWeight(members) && NoneDraining(members)
    ensures (forall score: Score, w: nat :: w <= |members| ==> AgreesWithBare(score, members, w)) <==> Uniform(members)
  {
    if Uniform(members) {
      forall score: Score, w: nat | w <= |members|
        ensures AgreesWithBare(score, members, w)
      {
        UniformIsBare(score, members, w);
      }
    } else {
      NotUniformDiffers(members);
    }
  }

  // ---- the duplicate check ----

  /** Equal IDs carry equal weights. */
  predicate ConsistentWeights(members: seq<Node>) {
    forall i, j :: 0 <= i < |members| && 0 <= j < |members| && members[i].id == members[j].id ==>
      Effective(members[i]) == Effective(members[j])
  }

  /** Two entries with one ID, and nobody else ranked between them. */
  ghost predicate Neighbours(ranked: seq<Ranked>, a: Ranked, b: Ranked) {
    && multiset{a, b} <= multiset(ranked) && a.node.id == b.node.id
    && forall c :: c in ranked && c.node.id != a.node.id ==> !Between(a, c, b) && !Between(b, c, a)
  }

  predicate Between(a: Ranked, c: Ranked, b: Ranked) { Before(a, c) && Before(c, b) }

  /** Exactly which repeats the adjacency check finds, for every score and every member list: those
      with nobody of another ID ranked between two entries of the repeated one. */
  lemma DuplicateFoundExactly(score: Score, members: seq<Node>)
    requires ValidMembers(members)
    ensures AdjacentDuplicate(Sort(RankAll(score, members))) <==>
      exists a, b :: Neighbours(RankAll(score, members), a, b)
  {
    hide Sort, RankAll, Rank, Before;
    var ranked := RankAll(score, members);
    var rank := Sort(ranked);
    SortSorted(score, ranked);
    SameElements(rank, ranked);
    if AdjacentDuplicate(rank) {
      var i :| 1 <= i < |rank| && rank[i].node.id == rank[i - 1].node.id;
      AdjacentIsNeighbours(rank, ranked, i);
    }
    if exists a, b :: Neighbours(ranked, a, b) {
      var a, b :| Neighbours(ranked, a, b);
      NeighboursMeet(rank, ranked, a, b);
    }
  }

  lemma AdjacentIsNeighbours(rank: seq<Ranked>, ranked: seq<Ranked>, i: nat)
    requires Sorted(rank) && multiset(rank) == multiset(ranked) && (forall r :: r in rank <==> r in ranked)
    requires 1 <= i < |rank| && rank[i].node.id == rank[i - 1].node.id
    ensures Neighbours(ranked, rank[i - 1], rank[i])
  {
    hide Before;
    assert rank == rank[..i - 1] + [rank[i - 1], rank[i]] + rank[i + 1..];
    forall c | c in ranked && c.node.id != rank[i].node.id
      ensures !Between(rank[i - 1], c, rank[i]) && !Between(rank[i], c, rank[i - 1])
    {
      var j :| 0 <= j < |rank| && rank[j] == c;
      assert j < i - 1 || i < j;
    }
  }

  /** Two occurrences are at two places. */
  lemma TwoPlaces(rank: seq<Ranked>, a: Ranked, b: Ranked) returns (i: nat, j: nat)
    requires multiset{a, b} <= multiset(rank)
    ensures i < j < |rank| && ((rank[i] == a && rank[j] == b) || (rank[i] == b && rank[j] == a))
  {
    assert multiset{a, b}[a] >= 1 && a in multiset(rank);
    var x :| 0 <= x < |rank| && rank[x] == a;
    var rest := rank[..x] + rank[x + 1..];
    assert rank == rank[..x] + [rank[x]] + rank[x + 1..];
    assert multiset(rank) == multiset(rest) + multiset{a};
    assert multiset{a, b}[b] <= multiset(rank)[b];
    assert b in multiset(rest);
    var y :| 0 <= y < |rest| && rest[y] == b;
    var z := if y < x then y else y + 1;
    assert rank[z] == b;
    i, j := if x < z then x else z, if x < z then z else x;
  }

  lemma NeighboursMeet(rank: seq<Ranked>, ranked: seq<Ranked>, a: Ranked, b: Ranked)
    requires Sorted(rank) && multiset(rank) == multiset(ranked) && (forall r :: r in rank <==> r in ranked)
    requires Neighbours(ranked, a, b)
    ensures AdjacentDuplicate(rank)
  {
    hide Before;
    var i, j := TwoPlaces(rank, a, b);
    var c := rank[i + 1];
    if c.node.id == a.node.id {
      assert rank[i + 1].node.id == rank[i + 1 - 1].node.id;
    } else {
      BeforeTotal(rank[i], c);
      BeforeTotal(c, rank[j]);
    }
  }

  /** Where equal IDs carry equal weights, the adjacency check refuses every duplicate. */
  lemma DuplicatesAdjacent(score: Score, members: seq<Node>)
    requires ValidMembers(members) && ConsistentWeights(members)
    ensures AdjacentDuplicate(Sort(RankAll(score, members))) <==> !DistinctMembers(members)
  {
    hide Sort, RankAll, Rank, IsBest;
    var ranked := RankAll(score, members);
    var rank := Sort(ranked);
    if DistinctMembers(members) {
      SortKeeps(score, members);
    } else {
      SortSorted(score, ranked);
      RankedLikeMembers(score, members);
      RepeatSurvives(members, ranked, rank);
      SameElements(rank, ranked);
      hide RankIds, Distinct;
      SomeNeighbour(score, ranked, rank);
    }
  }

  lemma RepeatSurvives(members: seq<Node>, ranked: seq<Ranked>, rank: seq<Ranked>)
    requires !DistinctMembers(members) && |ranked| == |members| && multiset(rank) == multiset(ranked)
    requires forall i :: 0 <= i < |members| ==> ranked[i].node == members[i]
    ensures !Distinct(RankIds(rank))
  {
    IdsPermute(rank, ranked);
    DistinctIsCount(RankIds(rank));
    DistinctIsCount(RankIds(ranked));
    var a, b :| 0 <= a < b < |members| && members[a].id == members[b].id;
    assert RankIds(ranked)[a] == RankIds(ranked)[b];
  }

  lemma SomeNeighbour(score: Score, ranked: seq<Ranked>, rank: seq<Ranked>)
    requires Sorted(rank) && AllProper(score, rank) && (forall r :: r in rank <==> r in ranked)
    requires forall k, l :: 0 <= k < |ranked| && 0 <= l < |ranked| && ranked[k].node.id == ranked[l].node.id ==>
      ranked[k].weight == ranked[l].weight
    requires !Distinct(RankIds(rank))
    ensures AdjacentDuplicate(rank)
  {
    hide Sorted, Proper;
    var i, j :| 0 <= i < j < |rank| && RankIds(rank)[i] == RankIds(rank)[j];
    assert rank[i] in ranked && rank[j] in ranked;
    NeighbourTies(score, rank, i, j);
    assert rank[i + 1].node.id == rank[i + 1 - 1].node.id;
  }

  lemma RankedLikeMembers(score: Score, members: seq<Node>)
    requires ValidMembers(members)
    ensures forall i :: 0 <= i < |members| ==>
      RankAll(score, members)[i].node == members[i] && RankAll(score, members)[i].weight as int == Effective(members[i])
  {
  }

  lemma NeighbourTies(score: Score, rank: seq<Ranked>, i: nat, j: nat)
    requires Sorted(rank) && AllProper(score, rank) && i < j < |rank|
    requires rank[i].node.id == rank[j].node.id && rank[i].weight == rank[j].weight
    ensures rank[i + 1].node.id == rank[i].node.id
  {
    var a, b, c := rank[i], rank[i + 1], rank[j];
    assert a in rank && b in rank && c in rank;
    if b.node.id != a.node.id {
      TiedNotBetween(score, a, b, c);
    }
  }

  lemma TiedNotBetween(score: Score, a: Ranked, b: Ranked, c: Ranked)
    requires Proper(score, a) && Proper(score, b) && Proper(score, c)
    requires a.node.id == c.node.id && a.weight == c.weight && b.node.id != a.node.id
    ensures Before(b, a) || Before(c, b)
  {
    BeforeTotal(a, b);
  }

  /** A repeat the check misses: a node registered twice, with weights that put another node between
      its two entries, is accepted and given two of the three shards. */
  lemma DuplicateMissed(score: Score, light: Node, heavy: Node, between: Node)
    requires ValidNode(light) && ValidNode(heavy) && ValidNode(between)
    requires Unlabelled(light) && Unlabelled(heavy) && Unlabelled(between) && light.id == heavy.id != between.id
    requires Between(Rank(score, heavy), Rank(score, between), Rank(score, light))
    ensures !AdjacentDuplicate(Sort(RankAll(score, [light, heavy, between])))
    ensures var ids := PickedIds(Sort(RankAll(score, [light, heavy, between])), 3); ids[0] == ids[2] == light.id
  {
    hide Rank, RankAll, Before, Sort, PickedIds, AdjacentDuplicate, Effective;
    var x, y, z := Rank(score, light), Rank(score, heavy), Rank(score, between);
    RankProper(score, light);
    RankProper(score, heavy);
    RankProper(score, between);
    BeforeTransitive(y, z, x);
    BeforeAsymmetric(y, z);
    BeforeAsymmetric(z, x);
    BeforeAsymmetric(y, x);
    RankNode(score, light);
    RankNode(score, heavy);
    RankNode(score, between);
    RankThree(score, light, heavy, between);
    SortThree(x, y, z);
    TripleInOrder([y, z, x]);
  }

  lemma RankProper(score: Score, n: Node)
    requires ValidNode(n)
    ensures Proper(score, Rank(score, n))
  {
  }

  /** Such weights exist for any two IDs whose scores tie: one entry lighter, one heavier. */
  lemma TiedScoresMissed(score: Score, light: Node, heavy: Node, between: Node)
    requires ValidNode(light) && ValidNode(heavy) && ValidNode(between) && score(light.id) == score(between.id)
    requires light.id == heavy.id && Effective(light) < Effective(between) < Effective(heavy)
    ensures Between(Rank(score, heavy), Rank(score, between), Rank(score, light))
  {
    hide Rank, Before, Effective;
    ByWeight(score, heavy, between);
    ByWeight(score, between, light);
  }

  lemma RankThree(score: Score, a: Node, b: Node, c: Node)
    requires ValidNode(a) && ValidNode(b) && ValidNode(c)
    ensures RankAll(score, [a, b, c]) == [Rank(score, a), Rank(score, b), Rank(score, c)]
  {
    hide Rank;
  }

  predicate Unlabelled(n: Node) { n.zone == [] && n.host == [] && !n.draining }

  /** Equal scores: the heavier node ranks first. */
  lemma ByWeight(score: Score, a: Node, b: Node)
    requires ValidNode(a) && ValidNode(b) && Effective(b) < Effective(a) && score(a.id) == score(b.id)
    ensures Before(Rank(score, a), Rank(score, b)) && !Before(Rank(score, b), Rank(score, a))
  {
    var ra, rb := Rank(score, a), Rank(score, b);
    LtMul(rb.weight as int, ra.weight as int, ra.negln as int);
  }

  lemma TripleInOrder(rank: seq<Ranked>)
    requires |rank| == 3 && rank[0].node.id == rank[2].node.id != rank[1].node.id
    requires forall i :: 0 <= i < 3 ==> Unlabelled(rank[i].node)
    ensures !AdjacentDuplicate(rank) && PickedIds(rank, 3)[0] == PickedIds(rank, 3)[2] == rank[0].node.id
  {
    UniformPicksInOrder(rank, 3);
    hide Picks;
    assert PickedIds(rank, 3)[0] == rank[0].node.id;
    assert PickedIds(rank, 3)[2] == rank[2].node.id;
  }

  lemma SortThree(x: Ranked, y: Ranked, z: Ranked)
    requires Before(y, z) && Before(z, x) && Before(y, x) && !Before(x, y) && !Before(x, z) && !Before(z, y)
    ensures Sort([x, y, z]) == [y, z, x]
  {
    hide Before;
    SortCons(x, [y, z]);
    assert [x] + [y, z] == [x, y, z] && [y] + [z] == [y, z] && [z] + [] == [z];
    SortCons(y, [z]);
    SortCons(z, []);
    hide Sort;
    assert Insert(z, []) == [z];
    assert Insert(y, [z]) == [y, z];
    assert [y, z][1..] == [z] && [z][1..] == [];
    assert Insert(x, [z]) == [z] + Insert(x, [z][1..]);
    assert Insert(x, [y, z]) == [y] + Insert(x, [y, z][1..]);
  }

  lemma SortCons(x: Ranked, s: seq<Ranked>)
    ensures Sort([x] + s) == Insert(x, Sort(s))
  {
    assert ([x] + s)[1..] == s;
  }
}
