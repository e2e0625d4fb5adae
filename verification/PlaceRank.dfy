/** The weighted rendezvous ranking: an exact comparator, a strict total order on members
    with distinct IDs, and the sorted ranking it determines. */
module PlaceRank {
  import opened Bytes
  import opened Arith
  import opened Lex
  import opened PlaceScore

  datatype Node = Node(id: bytes, host: bytes, zone: bytes, weight: nat, draining: bool)

  datatype Ranked = Ranked(node: Node, weight: uint64, negln: uint64, score: uint64)

  /** Weights are 32-bit. */
  predicate ValidNode(n: Node) {
    n.weight < TwoTo32
  }

  /** The rendezvous score of one partition, uninterpreted. */
  type Score = bytes -> uint64

  function Rank(score: Score, n: Node): (r: Ranked)
    requires ValidNode(n)
    ensures Proper(score, r)
  {
    NegLnBounds(score(n.id));
    Ranked(n, if n.weight == 0 then 1 else n.weight, NegLn(score(n.id)), score(n.id))
  }

  predicate Proper(score: Score, r: Ranked) {
    r.weight > 0 && r.negln > 0 && r.score == score(r.node.id) && r.negln == NegLn(r.score)
  }

  /** The sign of b's key minus a's (weight / -ln), by 128-bit cross-multiplication. */
  function CmpKey(wa: uint64, na: uint64, wb: uint64, nb: uint64): (c: int)
    ensures c < 0 <==> wa * nb > wb * na
    ensures c > 0 <==> wa * nb < wb * na
    ensures c in {-1, 0, 1}
  {
    var (hiA, loA) := Mul64(wa, nb);
    var (hiB, loB) := Mul64(wb, na);
    if hiA != hiB then if hiA > hiB then -1 else 1
    else if loA != loB then if loA > loB then -1 else 1
    else 0
  }

  /** a ranks strictly before b: a larger key, then a larger score, then a smaller ID. */
  predicate Before(a: Ranked, b: Ranked) {
    var pa, pb := a.weight * b.negln, b.weight * a.negln;
    pa > pb || (pa == pb && (a.score > b.score || (a.score == b.score && Less(a.node.id, b.node.id))))
  }

  /** The comparator handed to the sort. */
  function Compare(a: Ranked, b: Ranked): (c: int)
    ensures c < 0 <==> Before(a, b)
    ensures c > 0 <==> Before(b, a)
  {
    Total(a.node.id, b.node.id);
    Irreflexive(a.node.id);
    var c := CmpKey(a.weight, a.negln, b.weight, b.negln);
    if c != 0 then c
    else if a.score != b.score then if a.score > b.score then -1 else 1
    else if Less(a.node.id, b.node.id) then Asymmetric(a.node.id, b.node.id); -1
    else if Less(b.node.id, a.node.id) then 1
    else 0
  }

  /** Chaining cross-multiplied ratios. */
  lemma RatioChain(wa: int, na: int, wb: int, nb: int, wc: int, nc: int)
    requires na > 0 && nb > 0 && nc > 0 && wa * nb >= wb * na && wb * nc >= wc * nb
    ensures wa * nc >= wc * na
    ensures wa * nb > wb * na || wb * nc > wc * nb ==> wa * nc > wc * na
  {
    LeMul(wb * na, wa * nb, nc);
    LeMul(wc * nb, wb * nc, na);
    assert (wb * na) * nc == (wb * nc) * na && (wa * nb) * nc == (wa * nc) * nb && (wc * nb) * na == (wc * na) * nb;
    if wa * nb > wb * na {
      LtMul(wb * na, wa * nb, nc);
    }
    if wb * nc > wc * nb {
      LtMul(wc * nb, wb * nc, na);
    }
    if wa * nc < wc * na {
      LtMul(wa * nc, wc * na, nb);
    }
    if wa * nc == wc * na {
      assert (wa * nc) * nb == (wc * na) * nb;
    }
  }

  lemma BeforeTransitive(a: Ranked, b: Ranked, c: Ranked)
    requires a.negln > 0 && b.negln > 0 && c.negln > 0 && Before(a, b) && Before(b, c)
    ensures Before(a, c)
  {
    RatioChain(a.weight, a.negln, b.weight, b.negln, c.weight, c.negln);
    if a.score == b.score == c.score && Less(a.node.id, b.node.id) && Less(b.node.id, c.node.id) {
      Transitive(a.node.id, b.node.id, c.node.id);
    }
  }

  lemma BeforeTotal(a: Ranked, b: Ranked)
    requires a.node.id != b.node.id
    ensures Before(a, b) || Before(b, a)
  {
    Total(a.node.id, b.node.id);
  }

  lemma BeforeAsymmetric(a: Ranked, b: Ranked)
    requires Before(a, b)
    ensures !Before(b, a) && a != b
  {
    Irreflexive(a.node.id);
    if Less(a.node.id, b.node.id) {
      Asymmetric(a.node.id, b.node.id);
    }
  }

  /** Equal weights: the ranking is by bare score, then ID, whatever -ln rounds together. */
  lemma EqualWeightsRankByScore(score: Score, a: Ranked, b: Ranked)
    requires Proper(score, a) && Proper(score, b) && a.weight == b.weight
    ensures Before(a, b) <==> a.score > b.score || (a.score == b.score && Less(a.node.id, b.node.id))
  {
    var w := a.weight;
    if a.score >= b.score {
      NegLnAntitone(b.score, a.score);
      LeMul(a.negln, b.negln, w);
    } else {
      NegLnAntitone(a.score, b.score);
      LeMul(b.negln, a.negln, w);
    }
    assert w * b.negln == b.negln * w && w * a.negln == a.negln * w;
  }

  // ---- the sorted ranking ----

  predicate DistinctIds(s: seq<Ranked>) {
    forall i, j :: 0 <= i < j < |s| ==> s[i].node.id != s[j].node.id
  }

  predicate Sorted(s: seq<Ranked>) {
    forall i, j :: 0 <= i < j < |s| ==> !Before(s[j], s[i])
  }

  ghost predicate AllProper(score: Score, s: seq<Ranked>) {
    forall r :: r in s ==> Proper(score, r)
  }

  function Insert(x: Ranked, s: seq<Ranked>): (t: seq<Ranked>)
    ensures multiset(t) == multiset(s) + multiset{x}
  {
    if s == [] then [x]
    else if Before(s[0], x) then
      assert s == [s[0]] + s[1..];
      [s[0]] + Insert(x, s[1..])
    else [x] + s
  }

  /** The ranking: what sorting with the comparator yields. */
  function Sort(s: seq<Ranked>): (t: seq<Ranked>)
    ensures multiset(t) == multiset(s) && |t| == |s|
  {
    if s == [] then []
    else
      assert s == [s[0]] + s[1..];
      var t := Insert(s[0], Sort(s[1..]));
      assert |multiset(t)| == |t|;
      t
  }

  lemma {:induction false} InsertSorted(score: Score, x: Ranked, s: seq<Ranked>)
    requires Sorted(s) && AllProper(score, s) && Proper(score, x)
    ensures Sorted(Insert(x, s))
  {
    if s != [] && Before(s[0], x) {
      InsertSorted(score, x, s[1..]);
      var t := Insert(x, s[1..]);
      assert s == [s[0]] + s[1..];
      BeforeAsymmetric(s[0], x);
      forall j | 0 <= j < |t|
        ensures !Before(t[j], s[0])
      {
        assert t[j] in multiset(t);
        if t[j] != x {
          assert t[j] in s[1..];
        }
      }
    } else if s != [] {
      forall j | 0 <= j < |s|
        ensures !Before(s[j], x)
      {
        if Before(s[j], x) {
          assert j > 0;
          NotBeforeChain(score, s[0], s[j], x);
        }
      }
    }
  }

  /** If b does not rank before a, and b ranks before c, then a ranks before c or ties. */
  lemma NotBeforeChain(score: Score, a: Ranked, b: Ranked, c: Ranked)
    requires Proper(score, a) && Proper(score, b) && Proper(score, c) && !Before(b, a) && Before(b, c)
    ensures Before(a, c)
  {
    if Before(a, b) {
      BeforeTransitive(a, b, c);
    } else {
      TiedAlike(a, b, c);
    }
  }

  /** Members that tie rank alike against everyone else. */
  lemma TiedAlike(a: Ranked, b: Ranked, c: Ranked)
    requires a.negln > 0 && b.negln > 0 && c.negln > 0 && !Before(a, b) && !Before(b, a) && Before(b, c)
    ensures Before(a, c) && a.node.id == b.node.id
  {
    Total(a.node.id, b.node.id);
    RatioChain(a.weight, a.negln, b.weight, b.negln, c.weight, c.negln);
    if b.weight * c.negln == c.weight * b.negln {
      RatioChain(c.weight, c.negln, b.weight, b.negln, a.weight, a.negln);
    }
  }

  lemma {:induction false} SortSorted(score: Score, s: seq<Ranked>)
    requires AllProper(score, s)
    ensures Sorted(Sort(s)) && AllProper(score, Sort(s))
  {
    if s != [] {
      SortSorted(score, s[1..]);
      InsertSorted(score, s[0], Sort(s[1..]));
    }
    SameElements(Sort(s), s);
  }

  lemma SameElements(t: seq<Ranked>, s: seq<Ranked>)
    requires multiset(t) == multiset(s)
    ensures forall r :: r in t <==> r in s
  {
    assert forall r :: r in t <==> r in multiset(t);
    assert forall r :: r in s <==> r in multiset(s);
  }

  lemma {:induction false} DistinctPermutes(t: seq<Ranked>, s: seq<Ranked>)
    requires multiset(t) == multiset(s) && DistinctIds(s)
    ensures DistinctIds(t)
  {
    forall i, j | 0 <= i < j < |t|
      ensures t[i].node.id != t[j].node.id
    {
      if t[i].node.id == t[j].node.id {
        assert t[i] in multiset(t) && t[j] in multiset(t);
        var a :| 0 <= a < |s| && s[a] == t[i];
        var b :| 0 <= b < |s| && s[b] == t[j];
        assert a == b;
        TwiceIn(t, i, j);
        OnceIn(s, a);
      }
    }
  }

  lemma TwiceIn(t: seq<Ranked>, i: nat, j: nat)
    requires i < j < |t| && t[i] == t[j]
    ensures multiset(t)[t[i]] >= 2
  {
    assert t == t[..j] + [t[j]] + t[j + 1..];
    assert t[i] in t[..j];
  }

  lemma OnceIn(s: seq<Ranked>, a: nat)
    requires a < |s| && DistinctIds(s)
    ensures multiset(s)[s[a]] == 1
  {
    assert s == s[..a] + [s[a]] + s[a + 1..];
    assert s[a] !in s[..a] && s[a] !in s[a + 1..];
  }

  lemma HeadsAgree(s: seq<Ranked>, t: seq<Ranked>)
    requires s != [] && t != [] && Sorted(s) && Sorted(t) && multiset(s) == multiset(t)
    ensures s[0].node.id == t[0].node.id
  {
    hide Before;
    SameElements(s, t);
    assert t[0] in s && s[0] in t;
    var i :| 0 <= i < |s| && s[i] == t[0];
    var j :| 0 <= j < |t| && t[j] == s[0];
    if s[0].node.id != t[0].node.id {
      BeforeTotal(s[0], t[0]);
    }
  }

  lemma TailsAgree(s: seq<Ranked>, t: seq<Ranked>)
    requires s != [] && t != [] && s[0] == t[0] && multiset(s) == multiset(t)
    ensures multiset(s[1..]) == multiset(t[1..])
  {
    assert s == [s[0]] + s[1..] && t == [t[0]] + t[1..];
    assert multiset(s[1..]) == multiset(s) - multiset{s[0]} && multiset(t[1..]) == multiset(t) - multiset{t[0]};
  }

  /** Two sorted arrangements of the same distinct members are the same: the ranking is a
      function of the member set. */
  lemma {:induction false} SortedUnique(s: seq<Ranked>, t: seq<Ranked>)
    requires Sorted(s) && Sorted(t) && DistinctIds(s) && DistinctIds(t) && multiset(s) == multiset(t)
    ensures s == t
  {
    hide Before;
    assert |multiset(s)| == |s| && |multiset(t)| == |t|;
    if s != [] {
      HeadsAgree(s, t);
      SameElements(s, t);
      assert t[0] in s;
      assert s[0] == t[0];
      TailsAgree(s, t);
      SortedUnique(s[1..], t[1..]);
      assert s == [s[0]] + s[1..] && t == [t[0]] + t[1..];
    }
  }
}
