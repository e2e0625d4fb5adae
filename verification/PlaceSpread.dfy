/** The greedy spread over a ranking: each pick lands on an active node before a draining
    one, then the least-loaded zone, then the least-loaded host, then the highest rank. */
module PlaceSpread {
  import opened Bytes
  import opened PlaceRank

  datatype PlaceError = BadWidth | TooFewNodes | DuplicateMember(id: bytes)

  /** Rank indices, in pick order. */
  predicate Within(rank: seq<Ranked>, picked: seq<nat>) {
    forall t :: 0 <= t < |picked| ==> picked[t] < |rank|
  }

  /** How many picked nodes are in a zone. */
  function ZoneLoad(rank: seq<Ranked>, picked: seq<nat>, zone: bytes): (n: nat)
    requires Within(rank, picked)
  {
    if picked == [] then 0
    else ZoneLoad(rank, picked[..|picked| - 1], zone) + if rank[picked[|picked| - 1]].node.zone == zone then 1 else 0
  }

  function HostLoad(rank: seq<Ranked>, picked: seq<nat>, host: bytes): (n: nat)
    requires Within(rank, picked)
  {
    if picked == [] then 0
    else HostLoad(rank, picked[..|picked| - 1], host) + if rank[picked[|picked| - 1]].node.host == host then 1 else 0
  }

  lemma LoadStep(rank: seq<Ranked>, picked: seq<nat>, b: nat)
    requires Within(rank, picked) && b < |rank|
    ensures Within(rank, picked + [b])
    ensures forall z ::
      ZoneLoad(rank, picked + [b], z) == ZoneLoad(rank, picked, z) + if rank[b].node.zone == z then 1 else 0
    ensures forall h ::
      HostLoad(rank, picked + [b], h) == HostLoad(rank, picked, h) + if rank[b].node.host == h then 1 else 0
  {
    assert (picked + [b])[..|picked|] == picked;
  }

  /** What a candidate is judged by, smaller first: draining, zone load, host load. */
  function Cost(rank: seq<Ranked>, picked: seq<nat>, i: nat): (nat, nat, nat)
    requires Within(rank, picked) && i < |rank|
  {
    (if rank[i].node.draining then 1 else 0,
     ZoneLoad(rank, picked, rank[i].node.zone),
     HostLoad(rank, picked, rank[i].node.host))
  }

  predicate Cheaper(a: (nat, nat, nat), b: (nat, nat, nat)) {
    a.0 < b.0 || (a.0 == b.0 && (a.1 < b.1 || (a.1 == b.1 && a.2 < b.2)))
  }

  /** The ascending scan: a candidate replaces the best so far only when strictly cheaper.
      `best` is |rank| while there is none. */
  function Scan(rank: seq<Ranked>, picked: seq<nat>, i: nat, best: nat): (r: nat)
    requires Within(rank, picked) && i <= |rank| && best <= |rank|
    ensures r <= |rank|
    decreases |rank| - i
  {
    if i == |rank| then best
    else if i in picked then Scan(rank, picked, i + 1, best)
    else if best == |rank| || Cheaper(Cost(rank, picked, i), Cost(rank, picked, best)) then Scan(rank, picked, i + 1, i)
    else Scan(rank, picked, i + 1, best)
  }

  /** i is the pick: unpicked, no unpicked node is cheaper, and none ranked above it is as cheap. */
  predicate IsBest(rank: seq<Ranked>, picked: seq<nat>, b: nat)
    requires Within(rank, picked)
  {
    && b < |rank| && b !in picked
    && forall j :: 0 <= j < |rank| && j !in picked ==>
         !Cheaper(Cost(rank, picked, j), Cost(rank, picked, b)) &&
         (j < b ==> Cheaper(Cost(rank, picked, b), Cost(rank, picked, j)))
  }

  /** IsBest among the candidates below i. */
  predicate BestBelow(rank: seq<Ranked>, picked: seq<nat>, b: nat, i: nat)
    requires Within(rank, picked) && i <= |rank|
  {
    if b == |rank| then forall j :: 0 <= j < i ==> j in picked
    else
      && b < i && b !in picked
      && forall j :: 0 <= j < i && j !in picked ==>
           !Cheaper(Cost(rank, picked, j), Cost(rank, picked, b)) &&
           (j < b ==> Cheaper(Cost(rank, picked, b), Cost(rank, picked, j)))
  }

  lemma {:induction false} ScanFinds(rank: seq<Ranked>, picked: seq<nat>, i: nat, best: nat)
    requires Within(rank, picked) && i <= |rank| && best <= |rank| && BestBelow(rank, picked, best, i)
    ensures BestBelow(rank, picked, Scan(rank, picked, i, best), |rank|)
    decreases |rank| - i
  {
    hide Cost;
    if i < |rank| {
      if i in picked {
        ScanFinds(rank, picked, i + 1, best);
      } else if best == |rank| || Cheaper(Cost(rank, picked, i), Cost(rank, picked, best)) {
        ScanFinds(rank, picked, i + 1, i);
      } else {
        ScanFinds(rank, picked, i + 1, best);
      }
    }
  }

  /** The picks, as rank indices. Each depends only on the ones before it. */
  function Picks(rank: seq<Ranked>, n: nat): (p: seq<nat>)
    requires n <= |rank|
    ensures |p| == n && Within(rank, p) && forall i, j :: 0 <= i < j < n ==> p[i] != p[j]
  {
    if n == 0 then []
    else
      var before := Picks(rank, n - 1);
      PickExists(rank, before);
      before + [Scan(rank, before, 0, |rank|)]
  }

  lemma PickExists(rank: seq<Ranked>, picked: seq<nat>)
    requires Within(rank, picked) && |picked| < |rank| && forall i, j :: 0 <= i < j < |picked| ==>
      picked[i] != picked[j]
    ensures IsBest(rank, picked, Scan(rank, picked, 0, |rank|))
  {
    hide Cost, Cheaper, Scan;
    ScanFinds(rank, picked, 0, |rank|);
    var _ := SomeUnpicked(|rank|, picked);
  }

  lemma SomeUnpicked(n: nat, picked: seq<nat>) returns (i: nat)
    requires |picked| < n
    ensures i < n && i !in picked
  {
    var left := Upto(n) - ElementsOf(picked);
    if left == {} {
      Subset(Upto(n), ElementsOf(picked));
      assert false;
    }
    i :| i in left;
  }

  function Upto(n: nat): (s: set<nat>)
    ensures |s| == n && forall j: nat :: j in s <==> j < n
  {
    if n == 0 then {} else Upto(n - 1) + {n - 1}
  }

  function ElementsOf<T(==,!new)>(s: seq<T>): (e: set<T>)
    ensures |e| <= |s| && forall j :: j in s <==> j in e
  {
    if s == [] then {} else
      assert s == s[..|s| - 1] + [s[|s| - 1]];
      ElementsOf(s[..|s| - 1]) + {s[|s| - 1]}
  }

  lemma {:induction false} Subset<T>(a: set<T>, b: set<T>)
    requires a <= b
    ensures |a| <= |b|
    decreases a
  {
    if a != {} {
      var x :| x in a;
      Subset(a - {x}, b - {x});
    }
  }

  function PickedIds(rank: seq<Ranked>, n: nat): (ids: seq<bytes>)
    requires n <= |rank|
    ensures |ids| == n
  {
    var p := Picks(rank, n);
    seq(n, i requires 0 <= i < n => rank[p[i]].node.id)
  }

  function RankAll(score: Score, members: seq<Node>): (r: seq<Ranked>)
    requires ValidMembers(members)
    ensures |r| == |members| && AllProper(score, r) && forall i :: 0 <= i < |r| ==> r[i] == Rank(score, members[i])
  {
    seq(|members|, i requires 0 <= i < |members| => Rank(score, members[i]))
  }

  predicate AdjacentDuplicate(rank: seq<Ranked>) {
    exists i :: 1 <= i < |rank| && rank[i].node.id == rank[i - 1].node.id
  }

  predicate ValidMembers(members: seq<Node>) {
    forall i :: 0 <= i < |members| ==> ValidNode(members[i])
  }

  // ---- the algorithm ----

  /** Selects `width` nodes for a partition. */
  method Spread(score: Score, members: seq<Node>, width: int) returns (r: Result<seq<bytes>, PlaceError>)
    requires ValidMembers(members)
    ensures r.Ok? <==> 0 < width <= |members| && !AdjacentDuplicate(Sort(RankAll(score, members)))
    ensures r.Ok? ==> r.value == PickedIds(Sort(RankAll(score, members)), width)
  {
    hide Sort, RankAll, PickedIds;
    if width <= 0 {
      return Err(BadWidth);
    }
    if |members| < width {
      return Err(TooFewNodes);
    }
    var rank := Sort(RankAll(score, members));
    var i := 1;
    while i < |rank|
      invariant 1 <= i && (i <= |rank| || |rank| == 0)
      invariant forall j :: 1 <= j < i ==> rank[j].node.id != rank[j - 1].node.id
    {
      if rank[i].node.id == rank[i - 1].node.id {
        return Err(DuplicateMember(rank[i].node.id));
      }
      i := i + 1;
    }
    var out := Fill(rank, width);
    r := Ok(out);
  }

  /** The load a counting map records. */
  function LoadOf(loads: map<bytes, nat>, name: bytes): nat {
    if name in loads then loads[name] else 0
  }

  /** The load maps count the picks. */
  ghost predicate Counts(zoneLoad: map<bytes, nat>, hostLoad: map<bytes, nat>, rank: seq<Ranked>, picks: seq<nat>) {
    && Within(rank, picks)
    && (forall z :: LoadOf(zoneLoad, z) == ZoneLoad(rank, picks, z))
    && (forall h :: LoadOf(hostLoad, h) == HostLoad(rank, picks, h))
  }

  predicate Flags(picked: seq<bool>, picks: seq<nat>) {
    forall i :: 0 <= i < |picked| ==> (picked[i] <==> i in picks)
  }

  lemma CountsStep(zoneLoad: map<bytes, nat>, hostLoad: map<bytes, nat>, rank: seq<Ranked>, picks: seq<nat>, b: nat)
    requires Counts(zoneLoad, hostLoad, rank, picks) && b < |rank|
    ensures var n := rank[b].node;
      Counts(zoneLoad[n.zone := LoadOf(zoneLoad, n.zone) + 1], hostLoad[n.host := LoadOf(hostLoad, n.host) + 1], rank,
             picks + [b])
  {
    LoadStep(rank, picks, b);
    hide ZoneLoad, HostLoad;
  }

  /** The greedy loop, with its load maps and picked flags. */
  method Fill(rank: seq<Ranked>, width: nat) returns (out: seq<bytes>)
    requires width <= |rank|
    ensures out == PickedIds(rank, width)
  {
    hide ZoneLoad, HostLoad, Scan, PickedIds, IsBest, Counts;
    var zoneLoad: map<bytes, nat> := map[];
    var hostLoad: map<bytes, nat> := map[];
    var picked := new bool[|rank|](_ => false);
    ghost var picks: seq<nat> := [];
    out := [];
    NothingPicked(rank);
    while |out| < width
      invariant |out| <= width && picks == Picks(rank, |out|)
      invariant out == PickedIds(rank, |out|)
      invariant Flags(picked[..], picks)
      invariant Counts(zoneLoad, hostLoad, rank, picks)
    {
      var best := ScanLoop(rank, picked, zoneLoad, hostLoad, picks);
      PickedIdsStep(rank, |out|);
      CountsStep(zoneLoad, hostLoad, rank, picks, best);
      var n := rank[best].node;
      picked[best] := true;
      zoneLoad := zoneLoad[n.zone := LoadOf(zoneLoad, n.zone) + 1];
      hostLoad := hostLoad[n.host := LoadOf(hostLoad, n.host) + 1];
      picks := picks + [best];
      out := out + [n.id];
    }
  }

  lemma NothingPicked(rank: seq<Ranked>)
    ensures PickedIds(rank, 0) == [] && Counts(map[], map[], rank, [])
  {
  }

  method ScanLoop(rank: seq<Ranked>, picked: array<bool>, zoneLoad: map<bytes, nat>, hostLoad: map<bytes, nat>,
                  ghost picks: seq<nat>)
    returns (best: nat)
    requires picked.Length == |rank| && |picks| < |rank| && Counts(zoneLoad, hostLoad, rank, picks) &&
      Flags(picked[..], picks)
    requires forall i, j :: 0 <= i < j < |picks| ==> picks[i] != picks[j]
    ensures Within(rank, picks) && best == Scan(rank, picks, 0, |rank|) && best < |rank|
  {
    hide ZoneLoad, HostLoad;
    PickExists(rank, picks);
    assert forall i :: 0 <= i < |rank| ==> (picked[i] <==> i in picks) by {
      assert forall i :: 0 <= i < |rank| ==> picked[..][i] == picked[i];
    }
    best := |rank|;
    var i := 0;
    while i < |rank|
      invariant 0 <= i <= |rank| && best <= |rank|
      invariant Scan(rank, picks, i, best) == Scan(rank, picks, 0, |rank|)
    {
      if !picked[i] {
        if best == |rank| {
          best := i;
        } else {
          var bd, cd := rank[best].node.draining, rank[i].node.draining;
          if cd != bd {
            if !cd {
              best := i;
            }
          } else {
            var bz, bh := LoadOf(zoneLoad, rank[best].node.zone), LoadOf(hostLoad, rank[best].node.host);
            var cz, ch := LoadOf(zoneLoad, rank[i].node.zone), LoadOf(hostLoad, rank[i].node.host);
            if cz < bz || (cz == bz && ch < bh) {
              best := i;
            }
          }
        }
      }
      i := i + 1;
    }
  }

  lemma PickedIdsStep(rank: seq<Ranked>, n: nat)
    requires n < |rank|
    ensures PickedIds(rank, n + 1) == PickedIds(rank, n) + [rank[Picks(rank, n + 1)[n]].node.id]
  {
    var p, q := Picks(rank, n), Picks(rank, n + 1);
    assert forall i :: 0 <= i < n ==> q[i] == p[i];
  }

  // ---- what placement depends on ----

  /** Asking for fewer nodes gives the first ones of the longer answer. */
  lemma {:induction false} PrefixStable(rank: seq<Ranked>, n: nat, w: nat)
    requires n <= w <= |rank|
    ensures Picks(rank, w)[..n] == Picks(rank, n)
    ensures PickedIds(rank, w)[..n] == PickedIds(rank, n)
    decreases w
  {
    if n < w {
      PrefixStable(rank, n, w - 1);
      assert Picks(rank, w)[..n] == Picks(rank, w - 1)[..n];
      PickedIdsStep(rank, w - 1);
    } else {
      assert Picks(rank, w)[..n] == Picks(rank, n) && PickedIds(rank, w)[..n] == PickedIds(rank, n);
    }
  }

  /** Node-distinct: no node holds two shards of an object. */
  lemma NodeDistinct(rank: seq<Ranked>, w: nat)
    requires w <= |rank| && DistinctIds(rank)
    ensures forall i, j :: 0 <= i < j < w ==> PickedIds(rank, w)[i] != PickedIds(rank, w)[j]
  {
    var p := Picks(rank, w);
    forall i, j | 0 <= i < j < w
      ensures rank[p[i]].node.id != rank[p[j]].node.id
    {
      assert p[i] != p[j] && p[i] in p && p[j] in p;
    }
  }

  /** Deterministic in the member set: any two orderings of distinct members place alike. */
  lemma MemberOrderIrrelevant(score: Score, a: seq<Node>, b: seq<Node>)
    requires ValidMembers(a) && ValidMembers(b) && multiset(a) == multiset(b)
    requires forall i, j :: 0 <= i < j < |a| ==> a[i].id != a[j].id
    ensures Sort(RankAll(score, a)) == Sort(RankAll(score, b))
  {
    var ra, rb := RankAll(score, a), RankAll(score, b);
    RankPermutes(score, a, b);
    SortSorted(score, ra);
    SortSorted(score, rb);
    assert DistinctIds(ra);
    DistinctPermutes(rb, ra);
    DistinctPermutes(Sort(ra), ra);
    DistinctPermutes(Sort(rb), rb);
    SortedUnique(Sort(ra), Sort(rb));
  }

  function Without<T>(s: seq<T>, k: nat): seq<T>
    requires k < |s|
  {
    s[..k] + s[k + 1..]
  }

  /** Two sequences with a common element are permutations exactly when what is left is. */
  lemma WithoutCommon<T>(a: seq<T>, i: nat, b: seq<T>, k: nat)
    requires i < |a| && k < |b| && a[i] == b[k]
    ensures multiset(a) == multiset(b) <==> multiset(Without(a, i)) == multiset(Without(b, k))
  {
    WithoutCounts(a, i);
    WithoutCounts(b, k);
    var x := a[i];
    if multiset(a) == multiset(b) {
      assert multiset(Without(a, i)) == multiset(a) - multiset{x};
      assert multiset(Without(b, k)) == multiset(b) - multiset{x};
    }
  }

  lemma WithoutCounts<T>(s: seq<T>, k: nat)
    requires k < |s|
    ensures multiset(s) == multiset(Without(s, k)) + multiset{s[k]}
  {
    assert s == s[..k] + ([s[k]] + s[k + 1..]);
  }

  lemma RankWithout(score: Score, a: seq<Node>, k: nat)
    requires ValidMembers(a) && k < |a|
    ensures ValidMembers(Without(a, k)) && RankAll(score, Without(a, k)) == Without(RankAll(score, a), k)
  {
    hide Rank;
  }

  /** Ranking element by element keeps the multiset. */
  lemma {:induction false} RankPermutes(score: Score, a: seq<Node>, b: seq<Node>)
    requires ValidMembers(a) && ValidMembers(b) && multiset(a) == multiset(b)
    ensures multiset(RankAll(score, a)) == multiset(RankAll(score, b))
    decreases |a|
  {
    hide RankAll, Without, Rank;
    assert |multiset(a)| == |a| && |multiset(b)| == |b|;
    if a != [] {
      assert a[0] in multiset(b);
      var k :| 0 <= k < |b| && b[k] == a[0];
      WithoutCommon(a, 0, b, k);
      RankWithout(score, a, 0);
      RankWithout(score, b, k);
      WithoutLength(a, 0);
      RankPermutes(score, Without(a, 0), Without(b, k));
      WithoutCommon(RankAll(score, a), 0, RankAll(score, b), k);
    }
  }

  lemma WithoutLength<T>(s: seq<T>, k: nat)
    requires k < |s|
    ensures |Without(s, k)| == |s| - 1
  {
  }

  /** A draining node is picked only once every active one has been. */
  lemma DrainingLast(rank: seq<Ranked>, n: nat, t: nat, i: nat)
    requires n <= |rank| && t < n && rank[Picks(rank, n)[t]].node.draining && i < |rank| && !rank[i].node.draining
    ensures i in Picks(rank, n)[..t]
  {
    hide ZoneLoad, HostLoad, Scan;
    PrefixStable(rank, t + 1, n);
    var before := Picks(rank, t);
    assert Picks(rank, n)[..t] == Picks(rank, t + 1)[..t] == before;
    PickExists(rank, before);
    assert Picks(rank, n)[t] == Picks(rank, t + 1)[t];
  }
}
