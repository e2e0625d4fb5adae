/** The in-memory store: a sorted key list beside a map, and what a scan over it visits. */
module MetaKV {
  import opened Bytes
  import opened Lex

  /** Strictly ascending in byte order. */
  predicate Ascending(keys: seq<bytes>) {
    forall i, j :: 0 <= i < j < |keys| ==> Less(keys[i], keys[j])
  }

  ghost predicate Indexes<V>(keys: seq<bytes>, vals: map<bytes, V>) {
    Ascending(keys) && forall k :: k in keys <==> k in vals
  }

  /** i is where k is, or would be inserted. */
  predicate Splits(keys: seq<bytes>, k: bytes, i: nat) {
    && i <= |keys|
    && (forall j :: 0 <= j < i ==> Less(keys[j], k))
    && (forall j :: i <= j < |keys| ==> AtMost(k, keys[j]))
  }

  lemma InsertKeeps<V>(keys: seq<bytes>, vals: map<bytes, V>, k: bytes, v: V, i: nat)
    requires Indexes(keys, vals) && k !in vals && Splits(keys, k, i)
    ensures Indexes(keys[..i] + [k] + keys[i..], vals[k := v])
  {
    hide Less;
    assert forall j :: 0 <= j < |keys| ==> keys[j] in keys && keys[j] != k;
    InsertAscending(keys, k, i);
    InsertMembers(keys, k, i);
  }

  lemma InsertAscending(keys: seq<bytes>, k: bytes, i: nat)
    requires Ascending(keys) && Splits(keys, k, i) && forall j :: 0 <= j < |keys| ==> keys[j] != k
    ensures Ascending(keys[..i] + [k] + keys[i..])
  {
    hide Less;
    var more := keys[..i] + [k] + keys[i..];
    forall x, y | 0 <= x < y < |more|
      ensures Less(more[x], more[y])
    {
      assert more[x] == if x < i then keys[x] else if x == i then k else keys[x - 1];
      assert more[y] == if y < i then keys[y] else if y == i then k else keys[y - 1];
    }
  }

  lemma InsertMembers(keys: seq<bytes>, k: bytes, i: nat)
    requires i <= |keys|
    ensures forall x :: x in keys[..i] + [k] + keys[i..] <==> x in keys || x == k
  {
    assert keys == keys[..i] + keys[i..];
  }

  lemma RemoveKeeps<V>(keys: seq<bytes>, vals: map<bytes, V>, k: bytes, i: nat)
    requires Indexes(keys, vals) && k in vals && Splits(keys, k, i)
    ensures i < |keys| && keys[i] == k
    ensures Indexes(keys[..i] + keys[i + 1..], vals - {k})
  {
    var j :| 0 <= j < |keys| && keys[j] == k;
    Irreflexive(k);
    if i < j {
      assert Less(keys[i], keys[j]);
      if keys[i] != k {
        Asymmetric(k, keys[i]);
      }
    }
    assert j == i;
    hide Less;
    var fewer := keys[..i] + keys[i + 1..];
    assert forall t :: 0 <= t < i ==> fewer[t] == keys[t];
    assert forall t :: i <= t < |fewer| ==> fewer[t] == keys[t + 1];
    assert forall t :: 0 <= t < |keys| && t != i ==> keys[t] != k by {
      forall t | 0 <= t < |keys| && t != i
        ensures keys[t] != k
      {
        Irreflexive(k);
      }
    }
    forall x | x in keys && x != k
      ensures x in fewer
    {
      var t :| 0 <= t < |keys| && keys[t] == x;
      assert t < i ==> fewer[t] == x;
      assert t > i ==> fewer[t - 1] == x;
    }
  }

  class MemKV<V> {
    var keys: seq<bytes>
    var vals: map<bytes, V>

    ghost predicate Valid()
      reads this
    {
      Indexes(keys, vals)
    }

    constructor ()
      ensures Valid() && vals == map[]
    {
      keys := [];
      vals := map[];
    }

    /** Binary search for a key's place. */
    method Search(k: bytes) returns (i: nat)
      requires Valid()
      ensures Splits(keys, k, i)
    {
      var lo, hi := 0, |keys|;
      while lo < hi
        invariant 0 <= lo <= hi <= |keys|
        invariant forall j :: 0 <= j < lo ==> Less(keys[j], k)
        invariant forall j :: hi <= j < |keys| ==> AtMost(k, keys[j])
      {
        var mid := (lo + hi) / 2;
        if Less(keys[mid], k) {
          forall j | 0 <= j < mid
            ensures Less(keys[j], k)
          {
            Transitive(keys[j], keys[mid], k);
          }
          lo := mid + 1;
        } else {
          Total(keys[mid], k);
          forall j | mid < j < |keys|
            ensures Less(k, keys[j])
          {
            if k != keys[mid] {
              Transitive(k, keys[mid], keys[j]);
            }
          }
          hi := mid;
        }
      }
      i := lo;
    }

    function Get(k: bytes): (v: Option<V>)
      reads this
      ensures v.Some? <==> k in vals
      ensures v.Some? ==> v.value == vals[k]
    {
      if k in vals then Some(vals[k]) else None
    }

    method Set(k: bytes, v: V)
      requires Valid()
      modifies this
      ensures Valid() && vals == old(vals)[k := v]
    {
      if k !in vals {
        var i := Search(k);
        InsertKeeps(keys, vals, k, v, i);
        keys := keys[..i] + [k] + keys[i..];
      }
      vals := vals[k := v];
    }

    method Delete(k: bytes)
      requires Valid()
      modifies this
      ensures Valid() && vals == old(vals) - {k}
    {
      if k !in vals {
        assert vals - {k} == vals;
        return;
      }
      var i := Search(k);
      RemoveKeeps(keys, vals, k, i);
      vals := vals - {k};
      keys := keys[..i] + keys[i + 1..];
    }
  }

  // ---- prefix scans ----

  /** Past the rows of a prefix there are no more of them. */
  lemma {:induction false} PastPrefix(p: bytes, x: bytes, y: bytes)
    requires AtMost(p, x) && !IsPrefix(p, x) && Less(x, y)
    ensures !IsPrefix(p, y)
  {
    if p != [] && IsPrefix(p, y) {
      if x[0] == p[0] {
        PrefixTail(p, x);
        PrefixTail(p, y);
        PastPrefix(p[1..], x[1..], y[1..]);
      }
    }
  }

  /** A scan from a prefix visits its rows first and contiguously: the rows of the prefix are
      those from the start up to the first row without it. */
  lemma ScanRange(keys: seq<bytes>, p: bytes, i: nat, j: nat)
    requires Ascending(keys) && Splits(keys, p, i) && j < |keys|
    ensures IsPrefix(p, keys[j]) ==> i <= j && forall t :: i <= t <= j ==> IsPrefix(p, keys[t])
  {
    if IsPrefix(p, keys[j]) {
      PrefixAtMost(p, keys[j]);
      if j < i {
        Irreflexive(p);
        Asymmetric(keys[j], p);
      }
      forall t | i <= t <= j
        ensures IsPrefix(p, keys[t])
      {
        if t < j && !IsPrefix(p, keys[t]) {
          PastPrefix(p, keys[t], keys[j]);
        }
      }
    }
  }

  /** The keys with a prefix, in order. */
  function WithPrefix(keys: seq<bytes>, p: bytes): (s: seq<bytes>)
    ensures forall k :: k in s <==> k in keys && IsPrefix(p, k)
  {
    if keys == [] then []
    else
      var rest := WithPrefix(keys[..|keys| - 1], p);
      assert keys == keys[..|keys| - 1] + [keys[|keys| - 1]];
      if IsPrefix(p, keys[|keys| - 1]) then rest + [keys[|keys| - 1]] else rest
  }

  /** The scan loop every list and lookup runs: start at the prefix, stop at the first row
      without it. It visits exactly the rows with the prefix, in order. */
  method ScanPrefix<V>(kv: MemKV<V>, p: bytes) returns (lo: nat, hi: nat)
    requires kv.Valid()
    ensures lo <= hi <= |kv.keys| && kv.keys[lo..hi] == WithPrefix(kv.keys, p)
    ensures forall j :: 0 <= j < |kv.keys| ==> (IsPrefix(p, kv.keys[j]) <==> lo <= j < hi)
  {
    hide WithPrefix, Less;
    lo := kv.Search(p);
    hi := lo;
    while hi < |kv.keys| && IsPrefix(p, kv.keys[hi])
      invariant lo <= hi <= |kv.keys|
      invariant forall j :: lo <= j < hi ==> IsPrefix(p, kv.keys[j])
    {
      hi := hi + 1;
    }
    forall j | 0 <= j < |kv.keys|
      ensures IsPrefix(p, kv.keys[j]) <==> lo <= j < hi
    {
      ScanRange(kv.keys, p, lo, j);
    }
    RangeIsFilter(kv.keys, p, lo, hi, |kv.keys|);
    assert kv.keys[..|kv.keys|] == kv.keys;
  }

  function Min(a: nat, b: nat): nat { if a < b then a else b }

  lemma SliceStep(keys: seq<bytes>, lo: nat, hi: nat, n: nat)
    requires lo <= hi <= |keys| && 0 < n <= |keys|
    ensures keys[Min(lo, n)..Min(hi, n)] == keys[Min(lo, n - 1)..Min(hi, n - 1)] + if lo <= n - 1 < hi
      then [keys[n - 1]] else []
  {
    if lo <= n - 1 < hi {
      assert keys[lo..n] == keys[lo..n - 1] + [keys[n - 1]];
    }
  }

  lemma FilterStep(keys: seq<bytes>, p: bytes, n: nat)
    requires 0 < n <= |keys|
    ensures WithPrefix(keys[..n], p) == WithPrefix(keys[..n - 1], p) + if IsPrefix(p, keys[n - 1]) then [keys[n - 1]]
      else []
  {
    hide IsPrefix;
    assert keys[..n][..n - 1] == keys[..n - 1] && keys[..n][n - 1] == keys[n - 1];
  }

  lemma {:induction false} RangeIsFilter(keys: seq<bytes>, p: bytes, lo: nat, hi: nat, n: nat)
    requires lo <= hi <= |keys| && n <= |keys|
    requires forall j :: 0 <= j < |keys| ==> (IsPrefix(p, keys[j]) <==> lo <= j < hi)
    ensures WithPrefix(keys[..n], p) == keys[Min(lo, n)..Min(hi, n)]
    decreases n
  {
    hide IsPrefix;
    if n > 0 {
      RangeIsFilter(keys, p, lo, hi, n - 1);
      FilterStep(keys, p, n);
      SliceStep(keys, lo, hi, n);
      hide WithPrefix;
    }
  }
}
