/** Listings: what ListObjects and ListObjectVersions return, against the versions they are
    listings of. */
module MetaListing {
  import opened Bytes
  import opened Lex
  import opened MetaVid
  import opened MetaKeys
  import opened MetaKV
  import opened MetaPersist
  import opened MetaRecords
  import opened MetaApply
  import opened MetaInv
  import opened MetaStore

  /** The smallest string after s is s with a NUL appended. */
  lemma {:induction false} Successor(s: bytes, k: bytes)
    ensures AtMost(s + Nul, k) <==> Less(s, k)
  {
    if s == [] {
      if k != [] {
        assert Less(Nul, k) || k == Nul by {
          assert Nul[1..] == [];
          assert k == [k[0]] + k[1..];
        }
      }
    } else if k != [] && s[0] == k[0] {
      Successor(s[1..], k[1..]);
      assert (s + Nul)[1..] == s[1..] + Nul;
      assert s + Nul == [s[0]] + (s[1..] + Nul) && k == [k[0]] + k[1..];
    } else if k != [] {
      assert (s + Nul)[0] == s[0];
    }
  }

  // ---- ListObjects ----

  datatype ObjectListing = ObjectListing(key: bytes, current: CurrentRecord)

  /** The keys of an ascending list a listing asks for: those with the prefix, after the start. */
  function Wanted(keys: seq<bytes>, prefix: bytes, after: bytes): (s: seq<bytes>)
    ensures forall k :: k in s <==> k in keys && IsPrefix(prefix, k) && (after == [] || Less(after, k))
  {
    if keys == [] then []
    else
      var n := |keys| - 1;
      assert keys == keys[..n] + [keys[n]];
      var rest := Wanted(keys[..n], prefix, after);
      if IsPrefix(prefix, keys[n]) && (after == [] || Less(after, keys[n])) then rest + [keys[n]] else rest
  }

  /** At most `max` of them; none or negative means all. */
  function Page(keys: seq<bytes>, prefix: bytes, after: bytes, max: int): (s: seq<bytes>) {
    var w := Wanted(keys, prefix, after);
    if 0 < max < |w| then w[..max] else w
  }

  function KeysOf(out: seq<ObjectListing>): (s: seq<bytes>)
    ensures |s| == |out| && forall i :: 0 <= i < |s| ==> s[i] == out[i].key
  {
    seq(|out|, i requires 0 <= i < |out| => out[i].key)
  }

  /** A bucket's keys with a current row, in order. */
  ghost predicate CurrentKeys(st: State, b: bytes, keys: seq<bytes>) {
    Ascending(keys) && forall k :: k in keys <==> ObjectKey(b, k) in st.current
  }

  lemma {:induction false} WantedAscends(keys: seq<bytes>, prefix: bytes, after: bytes)
    requires Ascending(keys)
    ensures Ascending(Wanted(keys, prefix, after))
  {
    hide Less;
    if keys != [] {
      var n := |keys| - 1;
      WantedAscends(keys[..n], prefix, after);
      var rest := Wanted(keys[..n], prefix, after);
      forall i | 0 <= i < |rest|
        ensures Less(rest[i], keys[n])
      {
        assert rest[i] in keys[..n];
      }
    }
  }

  /** The current row a name under the scan is. */
  lemma CurrentUnder(vals: map<bytes, Record>, st: State, b: bytes, prefix: bytes, name: bytes) returns (k: bytes)
    requires Represents(vals, st) && name in vals && IsPrefix(CurrentPrefix(b) + prefix, name)
    ensures name == Encode(CurrentRow(b, k)) && IsPrefix(prefix, k) && ObjectKey(b, k) in st.current
    ensures vals[name] == CurrentRec(st.current[ObjectKey(b, k)])
    ensures |name| >= |CurrentPrefix(b)| && KeyOfCurrent(name, b) == k
  {
    var r := NamedRow(vals, st, name);
    UnderCurrent(b, prefix, r);
    KeyOfCurrentOf(b, r.key);
    k := r.key;
  }

  /** Where a wanted key's row is in the scan. */
  lemma CurrentAt(keys: seq<bytes>, vals: map<bytes, Record>, st: State, b: bytes, prefix: bytes, after: bytes,
                  k: bytes, from: bytes, lo: nat) returns (j: nat)
    requires Indexes(keys, vals) && Represents(vals, st) && ObjectKey(b, k) in st.current && IsPrefix(prefix, k)
    requires (after == [] || Less(after, k)) && from == ScanFrom(b, prefix, after) && Splits(keys, from, lo)
    ensures lo <= j < |keys| && keys[j] == Encode(CurrentRow(b, k))
    ensures forall t :: lo <= t <= j ==> IsPrefix(CurrentPrefix(b) + prefix, keys[t])
  {
    var r := CurrentRow(b, k);
    RowUnder(vals, st, r);
    UnderCurrent(b, prefix, r);
    hide Encode, Represents, ScanFrom, ValidRow, NoNul;
    j :| 0 <= j < |keys| && keys[j] == Encode(r);
    FromReaches(b, prefix, after, k);
    if j < lo {
      Asymmetric(keys[j], from);
    }
    FromAtLeast(b, prefix, after);
    PrefixedBetween(keys, CurrentPrefix(b) + prefix, from, lo, j);
  }

  /** From a start at or past a prefix, every row up to one with the prefix has it. */
  lemma PrefixedBetween(keys: seq<bytes>, p: bytes, from: bytes, lo: nat, j: nat)
    requires Ascending(keys) && Splits(keys, from, lo) && AtMost(p, from) && lo <= j < |keys| && IsPrefix(p, keys[j])
    ensures forall t :: lo <= t <= j ==> IsPrefix(p, keys[t])
  {
    hide Less;
    forall t | lo <= t <= j
      ensures IsPrefix(p, keys[t])
    {
      AtMostTrans(p, from, keys[t]);
      if t < j && !IsPrefix(p, keys[t]) {
        PastPrefix(p, keys[t], keys[j]);
      }
    }
  }

  lemma AtMostTrans(a: bytes, b: bytes, c: bytes)
    requires AtMost(a, b) && AtMost(b, c)
    ensures AtMost(a, c)
  {
    if a != b && b != c {
      Transitive(a, b, c);
    }
  }

  /** Where the scan starts. */
  function ScanFrom(b: bytes, prefix: bytes, after: bytes): bytes {
    var p := CurrentPrefix(b) + prefix;
    var next := Encode(CurrentRow(b, after)) + Nul;
    if after != [] && Less(p, next) then next else p
  }

  lemma FromAtLeast(b: bytes, prefix: bytes, after: bytes)
    ensures AtMost(CurrentPrefix(b) + prefix, ScanFrom(b, prefix, after))
  {
  }

  /** The start is at or before exactly the rows of keys after the marker. */
  lemma FromReaches(b: bytes, prefix: bytes, after: bytes, k: bytes)
    requires IsPrefix(prefix, k)
    ensures AtMost(ScanFrom(b, prefix, after), Encode(CurrentRow(b, k))) <==> after == [] || Less(after, k)
  {
    var p, name := CurrentPrefix(b) + prefix, Encode(CurrentRow(b, k));
    assert name == CurrentPrefix(b) + k;
    assert IsPrefix(p, name) by {
      assert name[..|p|] == CurrentPrefix(b) + k[..|prefix|];
    }
    PrefixAtMost(p, name);
    if after != [] {
      Successor(Encode(CurrentRow(b, after)), name);
      CurrentRowOrder(b, after, k);
      var next := Encode(CurrentRow(b, after)) + Nul;
      if !Less(p, next) {
        Total(p, next);
        AtMostTrans(next, p, name);
      }
    }
  }

  /** ListObjects: the page of the bucket's current keys it asks for, each with its row. */
  method ListObjects(s: Store, b: bytes, prefix: bytes, after: bytes, max: int) returns (out: seq<ObjectListing>)
    requires s.Mid()
    ensures forall live: seq<bytes> :: CurrentKeys(s.st, b, live) ==> KeysOf(out) == Page(live, prefix, after, max)
    ensures forall i :: 0 <= i < |out| ==> Find(s.st.current, ObjectKey(b, out[i].key)) == Some(out[i].current)
  {
    hide Represents, Encode, IsPrefix, Less;
    var p := CurrentPrefix(b) + prefix;
    var from := ScanFrom(b, prefix, after);
    ghost var keys, vals := s.kv.mem.keys, s.kv.mem.vals;
    var lo := s.kv.mem.Search(from);
    out := [];
    var i := lo;
    while i < |s.kv.mem.keys| && IsPrefix(p, s.kv.mem.keys[i]) && !(max > 0 && |out| == max)
      invariant lo <= i <= |keys| && |out| == i - lo && (max > 0 ==> |out| <= max)
      invariant forall t :: 0 <= t < |out| ==> ListedRow(keys[lo + t], s.st, b, prefix, out[t])
    {
      assert keys[i] in vals;
      ghost var k := CurrentUnder(vals, s.st, b, prefix, keys[i]);
      var name := s.kv.mem.keys[i];
      out := out + [ObjectListing(KeyOfCurrent(name, b), s.kv.mem.vals[name].current)];
      i := i + 1;
    }
    ghost var capped := max > 0 && |out| == max;
    assert !capped ==> i == |keys| || !IsPrefix(p, keys[i]);
    forall live: seq<bytes> | CurrentKeys(s.st, b, live)
      ensures KeysOf(out) == Page(live, prefix, after, max)
    {
      ListedIsPage(keys, vals, s.st, b, prefix, after, max, lo, i, out, live);
    }
  }

  /** What the scan lists for a row. */
  ghost predicate ListedRow(name: bytes, st: State, b: bytes, prefix: bytes, o: ObjectListing) {
    && name == Encode(CurrentRow(b, o.key)) && IsPrefix(prefix, o.key)
    && Find(st.current, ObjectKey(b, o.key)) == Some(o.current)
  }

  lemma ListedAscends(keys: seq<bytes>, st: State, b: bytes, prefix: bytes, lo: nat, hi: nat, out: seq<ObjectListing>)
    requires Ascending(keys) && lo <= hi <= |keys| && |out| == hi - lo
    requires forall t :: 0 <= t < |out| ==> ListedRow(keys[lo + t], st, b, prefix, out[t])
    ensures Ascending(KeysOf(out))
  {
    hide Less, Encode, IsPrefix;
    forall x, y | 0 <= x < y < |out|
      ensures Less(out[x].key, out[y].key)
    {
      assert ListedRow(keys[lo + x], st, b, prefix, out[x]) && ListedRow(keys[lo + y], st, b, prefix, out[y]);
      CurrentRowOrder(b, out[x].key, out[y].key);
    }
  }

  lemma ListedIsPage(keys: seq<bytes>, vals: map<bytes, Record>, st: State, b: bytes, prefix: bytes, after: bytes,
                     max: int, lo: nat, hi: nat, out: seq<ObjectListing>, live: seq<bytes>)
    requires Indexes(keys, vals) && Represents(vals, st) && CurrentKeys(st, b, live)
    requires Splits(keys, ScanFrom(b, prefix, after), lo) && lo <= hi <= |keys| && |out| == hi - lo &&
      (max > 0 ==> |out| <= max)
    requires forall t :: 0 <= t < |out| ==> ListedRow(keys[lo + t], st, b, prefix, out[t])
    requires (max > 0 && |out| == max) || hi == |keys| || !IsPrefix(CurrentPrefix(b) + prefix, keys[hi])
    ensures KeysOf(out) == Page(live, prefix, after, max)
  {
    hide Represents, Encode, IsPrefix, Less;
    var w, ks := Wanted(live, prefix, after), KeysOf(out);
    WantedAscends(live, prefix, after);
    ListedAscends(keys, st, b, prefix, lo, hi, out);
    forall i | 0 <= i < |ks|
      ensures ks[i] in w
    {
      ListedWanted(keys, vals, st, b, prefix, after, lo, hi, out, i);
    }
    forall k | k in w
      ensures k in ks || (max > 0 && |out| == max && forall i :: 0 <= i < |ks| ==> Less(ks[i], k))
    {
      var j := CurrentAt(keys, vals, st, b, prefix, after, k, ScanFrom(b, prefix, after), lo);
      WantedListed(keys, st, b, prefix, lo, hi, out, k, j);
    }
    LeadingPart(ks, w);
  }

  lemma ListedWanted(keys: seq<bytes>, vals: map<bytes, Record>, st: State, b: bytes, prefix: bytes, after: bytes,
                     lo: nat, hi: nat, out: seq<ObjectListing>, i: nat)
    requires Splits(keys, ScanFrom(b, prefix, after), lo) && lo <= hi <= |keys| && |out| == hi - lo && i < |out|
    requires forall t :: 0 <= t < |out| ==> ListedRow(keys[lo + t], st, b, prefix, out[t])
    ensures ObjectKey(b, out[i].key) in st.current && IsPrefix(prefix, out[i].key) &&
      (after == [] || Less(after, out[i].key))
  {
    hide Encode, IsPrefix, Less;
    assert ListedRow(keys[lo + i], st, b, prefix, out[i]);
    FromReaches(b, prefix, after, out[i].key);
  }

  lemma WantedListed(keys: seq<bytes>, st: State, b: bytes, prefix: bytes, lo: nat, hi: nat, out: seq<ObjectListing>,
                     k: bytes, j: nat)
    requires Ascending(keys) && lo <= hi <= |keys| && |out| == hi - lo && lo <= j < |keys| &&
      keys[j] == Encode(CurrentRow(b, k))
    requires forall t :: 0 <= t < |out| ==> ListedRow(keys[lo + t], st, b, prefix, out[t])
    ensures j < hi ==> k in KeysOf(out)
    ensures j >= hi ==> forall i :: 0 <= i < |out| ==> Less(out[i].key, k)
  {
    hide Less, IsPrefix;
    if j < hi {
      assert ListedRow(keys[lo + (j - lo)], st, b, prefix, out[j - lo]);
      KeyOfCurrentOf(b, k);
      KeyOfCurrentOf(b, out[j - lo].key);
      assert KeysOf(out)[j - lo] == k;
    } else {
      hide Encode;
      forall i | 0 <= i < |out|
        ensures Less(out[i].key, k)
      {
        assert ListedRow(keys[lo + i], st, b, prefix, out[i]);
        CurrentRowOrder(b, out[i].key, k);
      }
    }
  }

  /** In an ascending list, order of values is order of places. */
  lemma Places(s: seq<bytes>, i: nat, j: nat)
    requires Ascending(s) && i < |s| && j < |s|
    ensures Less(s[i], s[j]) <==> i < j
  {
    if i == j {
      Irreflexive(s[i]);
    } else if j < i {
      Asymmetric(s[j], s[i]);
    }
  }

  /** An ascending list inside another, below everything it misses, is its leading part. */
  lemma LeadingPart(a: seq<bytes>, w: seq<bytes>)
    requires Ascending(a) && Ascending(w) && (forall i :: 0 <= i < |a| ==> a[i] in w)
    requires forall k :: k in w ==> k in a || forall i :: 0 <= i < |a| ==> Less(a[i], k)
    ensures |a| <= |w| && a == w[..|a|]
    ensures (forall k :: k in w ==> k in a) ==> a == w
  {
    hide Less;
    LeadingUpTo(a, w, |a|);
    if |a| < |w| {
      var k := w[|a|];
      if k in a {
        var q :| 0 <= q < |a| && a[q] == k;
        Places(w, q, |a|);
        Places(w, |a|, q);
      }
    }
  }

  lemma {:induction false} LeadingUpTo(a: seq<bytes>, w: seq<bytes>, n: nat)
    requires Ascending(a) && Ascending(w) && (forall i :: 0 <= i < |a| ==> a[i] in w) && n <= |a|
    requires forall k :: k in w ==> k in a || forall i :: 0 <= i < |a| ==> Less(a[i], k)
    ensures n <= |w| && forall i :: 0 <= i < n ==> a[i] == w[i]
    decreases n
  {
    hide Less;
    if n > 0 {
      LeadingUpTo(a, w, n - 1);
      NextAgrees(a, w, n - 1);
    }
  }

  lemma NextAgrees(a: seq<bytes>, w: seq<bytes>, i: nat)
    requires Ascending(a) && Ascending(w) && i < |a| && a[i] in w && i <= |w| && forall j :: 0 <= j < i ==> a[j] == w[j]
    requires forall k :: k in w ==> k in a || forall j :: 0 <= j < |a| ==> Less(a[j], k)
    ensures i < |w| && a[i] == w[i]
  {
    hide Less;
    var p :| 0 <= p < |w| && w[p] == a[i];
    if p < i {
      Places(a, p, i);
      Places(a, i, p);
    } else if i < p {
      Places(w, i, p);
      Asymmetric(w[i], a[i]);
      assert w[i] in a;
      var q :| 0 <= q < |a| && a[q] == w[i];
      Places(a, q, i);
      Places(w, q, i);
      Irreflexive(w[i]);
    }
  }

  /** In every well-formed store the listed keys are those whose newest version is a live
      object, and each row shows that version's ID, size, ETag, date and number of parts: listing the
      index is filtering the version lists. */
  lemma ListingIsNaive(st: State, b: bytes, live: seq<bytes>)
    requires Inv(st)
    ensures CurrentKeys(st, b, live) <==> Ascending(live) && forall k :: k in live <==> Live(st, b, k)
    ensures forall k :: ObjectKey(b, k) in st.current ==>
      Live(st, b, k) && Shows(st.current[ObjectKey(b, k)], st.versions[VersionKey(b, k, Newest(st, b, k).value)])
  {
    forall k
      ensures ObjectKey(b, k) in st.current <==> Live(st, b, k)
      ensures Live(st, b, k) ==>
        Shows(st.current[ObjectKey(b, k)], st.versions[VersionKey(b, k, Newest(st, b, k).value)])
    {
      assert KeyInv(st, b, k);
    }
  }

  // ---- ListObjectVersions ----

  /** A version row of a bucket: the key and the ID. */
  type VersionAt = (bytes, vid)

  /** Listing order: key ascending, newest first within a key. */
  predicate RowBefore(a: VersionAt, b: VersionAt) {
    Less(a.0, b.0) || (a.0 == b.0 && a.1 > b.1)
  }

  predicate InListingOrder(rows: seq<VersionAt>) {
    forall i, j :: 0 <= i < j < |rows| ==> RowBefore(rows[i], rows[j])
  }

  /** The bucket's versions whose keys have a prefix, in listing order. */
  ghost predicate VersionRows(st: State, b: bytes, prefix: bytes, rows: seq<VersionAt>) {
    && InListingOrder(rows)
    && forall k: bytes, id: vid :: (k, id) in rows <==> VersionKey(b, k, id) in st.versions && IsPrefix(prefix, k)
  }

  datatype VersionListing = VersionListing(key: bytes, entry: VersionEntry, latest: bool)

  /** The first row of its key is the key's newest version. */
  predicate FirstOfKey(rows: seq<VersionAt>, i: nat)
    requires i < |rows|
  {
    i == 0 || rows[i - 1].0 != rows[i].0
  }

  /** The unpaged listing of rows lo to hi. */
  ghost function Listed(st: State, b: bytes, rows: seq<VersionAt>, lo: nat, hi: nat): (s: seq<VersionListing>)
    requires lo <= hi <= |rows| && forall i :: 0 <= i < |rows| ==> VersionKey(b, rows[i].0, rows[i].1) in st.versions
    ensures |s| == hi - lo
  {
    seq(hi - lo, i requires 0 <= i < hi - lo =>
      VersionListing(rows[lo + i].0, st.versions[VersionKey(b, rows[lo + i].0, rows[lo + i].1)],
                     FirstOfKey(rows, lo + i)))
  }

  predicate After(key: bytes, id: vid, row: VersionAt) {
    RowBefore((key, id), row)
  }

  /** The rows after a marker start at s; an empty key is no marker. */
  ghost predicate ResumesAt(rows: seq<VersionAt>, key: bytes, id: vid, s: nat) {
    s <= |rows| && if key == [] then s == 0 else forall i :: 0 <= i < |rows| ==> (After(key, id, rows[i]) <==> s <= i)
  }

  /** A row's name sorts after the marker's. */
  ghost predicate NamedAfter(b: bytes, key: bytes, id: vid, row: VersionAt) {
    Less(Encode(VersionRow(b, key, id)), Encode(VersionRow(b, row.0, row.1)))
  }

  /** Where a scan resumes: the marker may be any bytes, and is placed by its row name. */
  ghost predicate ResumesByName(b: bytes, rows: seq<VersionAt>, key: bytes, id: vid, s: nat) {
    s <= |rows| && if key == [] then s == 0 else forall i :: 0 <= i < |rows| ==>
    (NamedAfter(b, key, id, rows[i]) <==> s <= i)
  }

  /** For a marker that could be a key, that is its place in listing order. */
  lemma NamesInOrder(b: bytes, rows: seq<VersionAt>, key: bytes, id: vid, s: nat)
    requires NoNul(b) && NoNul(key) && forall i :: 0 <= i < |rows| ==> NoNul(rows[i].0)
    ensures ResumesByName(b, rows, key, id, s) <==> ResumesAt(rows, key, id, s)
  {
    hide After, NamedAfter, NoNul;
    forall i | 0 <= i < |rows|
      ensures NamedAfter(b, key, id, rows[i]) <==> After(key, id, rows[i])
    {
      NameInOrder(b, key, id, rows[i]);
    }
  }

  lemma NameInOrder(b: bytes, key: bytes, id: vid, row: VersionAt)
    requires NoNul(b) && NoNul(key) && NoNul(row.0)
    ensures NamedAfter(b, key, id, row) <==> After(key, id, row)
  {
    hide Less, Encode, NoNul;
    VersionRowOrder(b, key, id, row.0, row.1);
  }

  /** A listing's key and entry are a row's. */
  ghost predicate RowListed(st: State, b: bytes, row: VersionAt, o: VersionListing) {
    o.key == row.0 && Find(st.versions, VersionKey(b, row.0, row.1)) == Some(o.entry)
  }

  /** How a row is flagged: the first of its key on the page, unless the page is taken to have resumed
      inside that key. */
  predicate FlagOk(out: seq<VersionListing>, i: nat, key: bytes, id: vid)
    requires i < |out|
  {
    var first := i == 0 || out[i - 1].key != out[i].key;
    var resumedMidKey := key != [] && id != 0;
    out[i].latest == (first && !(resumedMidKey && out[i].key == key))
  }

  predicate Flagged(out: seq<VersionListing>, key: bytes, id: vid) {
    forall i :: 0 <= i < |out| ==> FlagOk(out, i, key, id)
  }

  /** What one page says of the rows from s. */
  ghost predicate IsPage(st: State, b: bytes, rows: seq<VersionAt>, s: nat, key: bytes, id: vid,
                         out: seq<VersionListing>) {
    && s + |out| <= |rows| && Flagged(out, key, id)
    && forall i :: 0 <= i < |out| ==> RowListed(st, b, rows[s + i], out[i])
  }

  // ---- the scan ----

  lemma RowBeforeTotal(a: VersionAt, b: VersionAt)
    ensures RowBefore(a, b) || RowBefore(b, a) || a == b
    ensures !(RowBefore(a, b) && RowBefore(b, a)) && !RowBefore(a, a)
  {
    Total(a.0, b.0);
    Irreflexive(a.0);
    if Less(a.0, b.0) {
      Asymmetric(a.0, b.0);
    }
    if Less(b.0, a.0) {
      Asymmetric(b.0, a.0);
    }
  }

  lemma RowPlaces(s: seq<VersionAt>, i: nat, j: nat)
    requires InListingOrder(s) && i < |s| && j < |s|
    ensures RowBefore(s[i], s[j]) <==> i < j
  {
    hide RowBefore;
    RowBeforeTotal(s[i], s[j]);
  }

  /** Rows in listing order among others, before every one they miss, are their leading part. */
  lemma {:induction false} LeadingRows(a: seq<VersionAt>, w: seq<VersionAt>, n: nat)
    requires InListingOrder(a) && InListingOrder(w) && (forall i :: 0 <= i < |a| ==> a[i] in w) && n <= |a|
    requires forall r :: r in w ==> r in a || forall i :: 0 <= i < |a| ==> RowBefore(a[i], r)
    ensures n <= |w| && forall i :: 0 <= i < n ==> a[i] == w[i]
    decreases n
  {
    hide RowBefore;
    if n > 0 {
      LeadingRows(a, w, n - 1);
      NextRowAgrees(a, w, n - 1);
    }
  }

  lemma NextRowAgrees(a: seq<VersionAt>, w: seq<VersionAt>, i: nat)
    requires InListingOrder(a) && InListingOrder(w) && i < |a| && a[i] in w && i <= |w| && forall j :: 0 <= j < i ==>
      a[j] == w[j]
    requires forall r :: r in w ==> r in a || forall j :: 0 <= j < |a| ==> RowBefore(a[j], r)
    ensures i < |w| && a[i] == w[i]
  {
    hide RowBefore;
    var p :| 0 <= p < |w| && w[p] == a[i];
    if p < i {
      RowPlaces(a, p, i);
      RowPlaces(a, i, p);
    } else if i < p {
      RowPlaces(w, i, p);
      RowBeforeTotal(w[i], a[i]);
      assert w[i] in a;
      var q :| 0 <= q < |a| && a[q] == w[i];
      RowPlaces(a, q, i);
      RowPlaces(w, q, i);
    }
  }

  /** Where the scan starts: at the prefix, or just past the marker's row. */
  function VersionsFrom(b: bytes, prefix: bytes, key: bytes, id: vid): bytes {
    var p := BucketVersionsPrefix(b) + prefix;
    var next := Encode(VersionRow(b, key, id)) + Nul;
    if key != [] && Less(p, next) then next else p
  }

  lemma VersionsFromAtLeast(b: bytes, prefix: bytes, key: bytes, id: vid)
    ensures AtMost(BucketVersionsPrefix(b) + prefix, VersionsFrom(b, prefix, key, id))
  {
  }

  lemma PrefixedName(b: bytes, prefix: bytes, k: bytes, id: vid)
    requires NoNul(prefix)
    ensures IsPrefix(BucketVersionsPrefix(b) + prefix, Encode(VersionRow(b, k, id))) <==> IsPrefix(prefix, k)
  {
    VersionRowSplit(b, k, id);
    hide Encode, Reversed;
    var t := k + Nul + Reversed(id);
    SameTable(BucketVersionsPrefix(b), prefix, BucketVersionsPrefix(b), t);
    if IsPrefix(prefix, k) {
      assert t[..|prefix|] == k[..|prefix|];
    }
    if IsPrefix(prefix, t) {
      assert forall x :: 0 <= x < |prefix| ==> prefix[x] == t[x] && t[x] != 0;
      assert t[|k|] == 0;
      assert |prefix| <= |k|;
      assert t[..|prefix|] == k[..|prefix|];
    }
  }

  /** The start is at or before exactly the rows after the marker. */
  lemma VersionsFromReaches(b: bytes, prefix: bytes, key: bytes, id: vid, k: bytes, i: vid)
    requires NoNul(b) && NoNul(k) && IsPrefix(prefix, k)
    ensures AtMost(VersionsFrom(b, prefix, key, id), Encode(VersionRow(b, k, i))) <==>
      key == [] || NamedAfter(b, key, id, (k, i))
  {
    hide Encode, Less, IsPrefix, BucketVersionsPrefix, NoNul;
    var p, name := BucketVersionsPrefix(b) + prefix, Encode(VersionRow(b, k, i));
    PrefixNoNul(prefix, k);
    PrefixedName(b, prefix, k, i);
    PrefixAtMost(p, name);
    if key != [] {
      var marker := Encode(VersionRow(b, key, id));
      Successor(marker, name);
      if !Less(p, marker + Nul) {
        Total(p, marker + Nul);
        AtMostTrans(marker + Nul, p, name);
      }
    }
  }

  /** A row the scan lists. */
  ghost predicate ScannedRow(name: bytes, st: State, b: bytes, prefix: bytes, row: VersionAt) {
    && name == Encode(VersionRow(b, row.0, row.1)) && NoNul(row.0) && IsPrefix(prefix, row.0)
    && VersionKey(b, row.0, row.1) in st.versions
  }

  /** The row a name is, if the scan goes on past it. */
  predicate Scannable(name: bytes, b: bytes, prefix: bytes) {
    && IsPrefix(BucketVersionsPrefix(b), name) && |name| >= |BucketVersionsPrefix(b)| + 17
    && IsPrefix(prefix, KeyAndVersion(name, b).0)
  }

  lemma BucketVersionUnder(vals: map<bytes, Record>, st: State, b: bytes, name: bytes)
    requires Represents(vals, st) && NoNul(b) && name in vals && IsPrefix(BucketVersionsPrefix(b), name)
    ensures |name| >= |BucketVersionsPrefix(b)| + 17
    ensures var (k, id) := KeyAndVersion(name, b);
      && name == Encode(VersionRow(b, k, id)) && NoNul(k) && VersionKey(b, k, id) in st.versions
      && vals[name] == VersionRec(st.versions[VersionKey(b, k, id)])
  {
    var r := NamedRow(vals, st, name);
    UnderBucketVersions(b, r);
    KeyAndVersionOf(b, r.key, r.id);
  }

  /** Where a wanted version's row is in the scan. */
  lemma VersionPlace(keys: seq<bytes>, vals: map<bytes, Record>, st: State, b: bytes, prefix: bytes, key: bytes,
                     id: vid, row: VersionAt, lo: nat) returns (j: nat)
    requires Indexes(keys, vals) && Represents(vals, st) && NoNul(b)
    requires VersionKey(b, row.0, row.1) in st.versions && IsPrefix(prefix, row.0)
    requires (key == [] || NamedAfter(b, key, id, row)) && Splits(keys, VersionsFrom(b, prefix, key, id), lo)
    ensures lo <= j < |keys| && NoNul(row.0) && keys[j] == Encode(VersionRow(b, row.0, row.1))
    ensures forall t :: lo <= t <= j ==> Scannable(keys[t], b, prefix)
  {
    var r := VersionRow(b, row.0, row.1);
    RowUnder(vals, st, r);
    hide Encode, Represents, RowBefore, Scannable, VersionsFrom, Less;
    j :| 0 <= j < |keys| && keys[j] == Encode(r);
    VersionsFromReaches(b, prefix, key, id, row.0, row.1);
    if j < lo {
      Asymmetric(keys[j], VersionsFrom(b, prefix, key, id));
    }
    PrefixNoNul(prefix, row.0);
    forall t | lo <= t <= j
      ensures Scannable(keys[t], b, prefix)
    {
      BetweenScannable(keys, vals, st, b, prefix, key, id, row, lo, t, j);
    }
  }

  lemma PrefixNoNul(prefix: bytes, k: bytes)
    requires NoNul(k) && IsPrefix(prefix, k)
    ensures NoNul(prefix)
  {
    assert forall x :: 0 <= x < |prefix| ==> prefix[x] == k[x];
  }

  lemma BetweenScannable(keys: seq<bytes>, vals: map<bytes, Record>, st: State, b: bytes, prefix: bytes, key: bytes,
                         id: vid, row: VersionAt, lo: nat, t: nat, j: nat)
    requires Indexes(keys, vals) && Represents(vals, st) && NoNul(b) && NoNul(prefix) && IsPrefix(prefix, row.0)
    requires Splits(keys, VersionsFrom(b, prefix, key, id), lo) && lo <= t <= j < |keys|
    requires keys[j] == Encode(VersionRow(b, row.0, row.1))
    ensures Scannable(keys[t], b, prefix)
  {
    hide Encode, Represents, VersionsFrom;
    var p := BucketVersionsPrefix(b) + prefix;
    PrefixedName(b, prefix, row.0, row.1);
    VersionsFromAtLeast(b, prefix, key, id);
    PrefixedBetween(keys, p, VersionsFrom(b, prefix, key, id), lo, j);
    assert IsPrefix(BucketVersionsPrefix(b), keys[t]) by {
      assert keys[t][..|BucketVersionsPrefix(b)|] == p[..|BucketVersionsPrefix(b)|];
    }
    assert keys[t] in vals;
    BucketVersionUnder(vals, st, b, keys[t]);
    var kv := KeyAndVersion(keys[t], b);
    PrefixedName(b, prefix, kv.0, kv.1);
  }

  lemma ScannedOrdered(keys: seq<bytes>, st: State, b: bytes, prefix: bytes, lo: nat, found: seq<VersionAt>)
    requires Ascending(keys) && NoNul(b) && lo + |found| <= |keys|
    requires forall t :: 0 <= t < |found| ==> ScannedRow(keys[lo + t], st, b, prefix, found[t])
    ensures InListingOrder(found)
  {
    hide Encode, Less, NoNul, IsPrefix;
    forall i, j | 0 <= i < j < |found|
      ensures RowBefore(found[i], found[j])
    {
      assert Less(keys[lo + i], keys[lo + j]);
      assert ScannedRow(keys[lo + i], st, b, prefix, found[i]) && ScannedRow(keys[lo + j], st, b, prefix, found[j]);
      VersionRowOrder(b, found[i].0, found[i].1, found[j].0, found[j].1);
    }
  }

  /** The rows a scan found are the rows after the marker, up to where it stopped. */
  lemma ScannedIsRest(keys: seq<bytes>, vals: map<bytes, Record>, st: State, b: bytes, prefix: bytes, key: bytes,
                      id: vid, lo: nat, found: seq<VersionAt>, rows: seq<VersionAt>, s: nat)
    requires Indexes(keys, vals) && Represents(vals, st) && NoNul(b) && lo + |found| <= |keys|
    requires Splits(keys, VersionsFrom(b, prefix, key, id), lo)
    requires forall t :: 0 <= t < |found| ==> ScannedRow(keys[lo + t], st, b, prefix, found[t])
    requires VersionRows(st, b, prefix, rows) && ResumesByName(b, rows, key, id, s)
    ensures s + |found| <= |rows| && forall i :: 0 <= i < |found| ==> found[i] == rows[s + i]
    ensures s + |found| < |rows| <==> lo + |found| < |keys| && Scannable(keys[lo + |found|], b, prefix)
  {
    hide Encode, Represents, RowBefore, IsPrefix, NoNul, Less, VersionsFrom, Scannable, VersionRows, Indexes,
      ScannedRow, Splits;
    var w, hi := rows[s..], lo + |found|;
    RestOrdered(st, b, prefix, rows, s);
    IndexesAscend(keys, vals);
    ScannedOrdered(keys, st, b, prefix, lo, found);
    forall i | 0 <= i < |found|
      ensures found[i] in w
    {
      FoundIsWanted(keys, st, b, prefix, key, id, lo, i, found, rows, s);
    }
    forall r | r in w
      ensures r in found || (hi < |keys| && Scannable(keys[hi], b, prefix) && forall i :: 0 <= i < |found| ==>
                             RowBefore(found[i], r))
    {
      RestIsFound(keys, vals, st, b, prefix, key, id, lo, found, rows, s, r);
    }
    LeadingRows(found, w, |found|);
    if |found| < |w| {
      NotListed(found, w);
    } else if hi < |keys| && Scannable(keys[hi], b, prefix) {
      NoneLeft(keys, vals, st, b, prefix, key, id, lo, found, rows, s);
    }
  }

  lemma IndexesAscend(keys: seq<bytes>, vals: map<bytes, Record>)
    requires Indexes(keys, vals)
    ensures Ascending(keys)
  {
  }

  lemma RestOrdered(st: State, b: bytes, prefix: bytes, rows: seq<VersionAt>, s: nat)
    requires VersionRows(st, b, prefix, rows) && s <= |rows|
    ensures InListingOrder(rows[s..])
  {
    hide RowBefore;
  }

  lemma NotListed(found: seq<VersionAt>, w: seq<VersionAt>)
    requires InListingOrder(w) && |found| < |w| && forall i :: 0 <= i < |found| ==> found[i] == w[i]
    ensures w[|found|] in w && w[|found|] !in found
  {
    hide RowBefore;
    var n := |found|;
    if w[n] in found {
      var q :| 0 <= q < n && found[q] == w[n];
      RowPlaces(w, q, n);
      RowPlaces(w, n, q);
    }
  }

  lemma RestIsFound(keys: seq<bytes>, vals: map<bytes, Record>, st: State, b: bytes, prefix: bytes, key: bytes, id: vid,
                    lo: nat, found: seq<VersionAt>, rows: seq<VersionAt>, s: nat, r: VersionAt)
    requires Indexes(keys, vals) && Represents(vals, st) && NoNul(b) && lo + |found| <= |keys|
    requires Splits(keys, VersionsFrom(b, prefix, key, id), lo)
    requires forall t :: 0 <= t < |found| ==> ScannedRow(keys[lo + t], st, b, prefix, found[t])
    requires VersionRows(st, b, prefix, rows) && ResumesByName(b, rows, key, id, s) && r in rows[s..]
    ensures var hi := lo + |found|;
      r in found || (hi < |keys| && Scannable(keys[hi], b, prefix) && forall i :: 0 <= i < |found| ==>
                     RowBefore(found[i], r))
  {
    hide Encode, Represents, RowBefore, IsPrefix, NoNul, Less, VersionsFrom, Scannable, ScannedRow;
    var x :| 0 <= x < |rows[s..]| && rows[s..][x] == r;
    assert rows[s + x] == r && r in rows && r == (r.0, r.1);
    var j := VersionPlace(keys, vals, st, b, prefix, key, id, r, lo);
    WantedIsFound(keys, st, b, prefix, lo, found, r, j);
  }

  /** With every row found, the scan has nothing left to list. */
  lemma NoneLeft(keys: seq<bytes>, vals: map<bytes, Record>, st: State, b: bytes, prefix: bytes, key: bytes, id: vid,
                 lo: nat, found: seq<VersionAt>, rows: seq<VersionAt>, s: nat)
    requires Indexes(keys, vals) && Represents(vals, st) && NoNul(b) && lo + |found| <= |keys|
    requires Splits(keys, VersionsFrom(b, prefix, key, id), lo)
    requires forall t :: 0 <= t < |found| ==> ScannedRow(keys[lo + t], st, b, prefix, found[t])
    requires VersionRows(st, b, prefix, rows) && ResumesByName(b, rows, key, id, s)
    requires s + |found| == |rows| && forall i :: 0 <= i < |found| ==> found[i] == rows[s..][i]
    ensures !(lo + |found| < |keys| && Scannable(keys[lo + |found|], b, prefix))
  {
    hide Encode, Represents, RowBefore, IsPrefix, NoNul, Less, VersionsFrom, VersionRows, ScannedRow, KeyAndVersion;
    var hi := lo + |found|;
    if hi < |keys| && Scannable(keys[hi], b, prefix) {
      NextIsWanted(keys, vals, st, b, prefix, key, id, lo, hi, rows, s);
      var r := KeyAndVersion(keys[hi], b);
      var q :| 0 <= q < |rows[s..]| && rows[s..][q] == r;
      SamePlace(keys, st, b, prefix, lo, found, r, hi, q);
    }
  }

  lemma SamePlace(keys: seq<bytes>, st: State, b: bytes, prefix: bytes, lo: nat, found: seq<VersionAt>, r: VersionAt,
                  hi: nat, q: nat)
    requires Ascending(keys) && hi == lo + |found| < |keys| && q < |found| && found[q] == r
    requires forall t :: 0 <= t < |found| ==> ScannedRow(keys[lo + t], st, b, prefix, found[t])
    ensures keys[hi] != Encode(VersionRow(b, r.0, r.1))
  {
    assert ScannedRow(keys[lo + q], st, b, prefix, found[q]);
    assert Less(keys[lo + q], keys[hi]);
    Irreflexive(keys[hi]);
  }

  lemma FoundIsWanted(keys: seq<bytes>, st: State, b: bytes, prefix: bytes, key: bytes, id: vid, lo: nat, i: nat,
                      found: seq<VersionAt>, rows: seq<VersionAt>, s: nat)
    requires NoNul(b) && lo + |found| <= |keys| && i < |found|
    requires Splits(keys, VersionsFrom(b, prefix, key, id), lo)
    requires forall t :: 0 <= t < |found| ==> ScannedRow(keys[lo + t], st, b, prefix, found[t])
    requires VersionRows(st, b, prefix, rows) && ResumesByName(b, rows, key, id, s)
    ensures found[i] in rows[s..]
  {
    hide Encode, RowBefore, IsPrefix, NoNul, Less;
    var r := found[i];
    assert ScannedRow(keys[lo + i], st, b, prefix, r);
    AfterMarker(b, prefix, key, id, keys[lo + i], st, r, rows, s);
  }

  /** A row at or past the start is among the rows after the marker. */
  lemma AfterMarker(b: bytes, prefix: bytes, key: bytes, id: vid, name: bytes, st: State, r: VersionAt,
                    rows: seq<VersionAt>, s: nat)
    requires NoNul(b) && ScannedRow(name, st, b, prefix, r) && AtMost(VersionsFrom(b, prefix, key, id), name)
    requires VersionRows(st, b, prefix, rows) && ResumesByName(b, rows, key, id, s)
    ensures r in rows[s..]
  {
    hide Encode, RowBefore, IsPrefix, NoNul, AtMost;
    VersionsFromReaches(b, prefix, key, id, r.0, r.1);
    assert r == (r.0, r.1);
    assert r in rows;
    var x :| 0 <= x < |rows| && rows[x] == r;
    assert x >= s;
    assert rows[s..][x - s] == r;
  }

  lemma NextIsWanted(keys: seq<bytes>, vals: map<bytes, Record>, st: State, b: bytes, prefix: bytes, key: bytes,
                     id: vid, lo: nat, hi: nat, rows: seq<VersionAt>, s: nat)
    requires Indexes(keys, vals) && Represents(vals, st) && NoNul(b) && lo <= hi < |keys|
    requires Splits(keys, VersionsFrom(b, prefix, key, id), lo) && Scannable(keys[hi], b, prefix)
    requires VersionRows(st, b, prefix, rows) && ResumesByName(b, rows, key, id, s)
    ensures KeyAndVersion(keys[hi], b) in rows[s..]
    ensures keys[hi] == Encode(VersionRow(b, KeyAndVersion(keys[hi], b).0, KeyAndVersion(keys[hi], b).1))
  {
    hide Encode, RowBefore, Represents, NoNul, Less;
    assert keys[hi] in vals;
    BucketVersionUnder(vals, st, b, keys[hi]);
    AfterMarker(b, prefix, key, id, keys[hi], st, KeyAndVersion(keys[hi], b), rows, s);
  }

  lemma WantedIsFound(keys: seq<bytes>, st: State, b: bytes, prefix: bytes, lo: nat, found: seq<VersionAt>,
                      r: VersionAt, j: nat)
    requires Ascending(keys) && NoNul(b) && lo + |found| <= |keys| && lo <= j < |keys| && NoNul(r.0)
    requires keys[j] == Encode(VersionRow(b, r.0, r.1))
    requires forall t :: 0 <= t < |found| ==> ScannedRow(keys[lo + t], st, b, prefix, found[t])
    ensures j < lo + |found| ==> r in found
    ensures j >= lo + |found| ==> forall i :: 0 <= i < |found| ==> RowBefore(found[i], r)
  {
    hide Encode, Less, IsPrefix;
    if j < lo + |found| {
      var x := found[j - lo];
      assert ScannedRow(keys[lo + (j - lo)], st, b, prefix, x);
      EncodeInjective(VersionRow(b, r.0, r.1), VersionRow(b, x.0, x.1));
      assert r == x;
    } else {
      forall i | 0 <= i < |found|
        ensures RowBefore(found[i], r)
      {
        assert ScannedRow(keys[lo + i], st, b, prefix, found[i]);
        VersionRowOrder(b, found[i].0, found[i].1, r.0, r.1);
      }
    }
  }

  /** ListObjectVersions: up to `max` rows after the marker, and whether more remain. */
  method ListObjectVersions(s: Store, b: bytes, prefix: bytes, keyMarker: bytes, idMarker: vid, max: int)
    returns (out: seq<VersionListing>, truncated: bool)
    requires s.Mid() && NoNul(b)
    ensures max <= 0 ==> out == [] && !truncated
    ensures max > 0 ==> forall rows: seq<VersionAt>, start: nat ::
      VersionRows(s.st, b, prefix, rows) && ResumesByName(b, rows, keyMarker, idMarker, start) ==>
        && IsPage(s.st, b, rows, start, keyMarker, idMarker, out)
        && |out| <= max && (|out| == max || start + |out| == |rows|)
        && (truncated <==> start + |out| < |rows|)
  {
    out, truncated := [], false;
    if max <= 0 {
      return;
    }
    hide Represents, Encode, IsPrefix, Less, NoNul, VersionsFrom, VersionRows, ResumesByName, Flagged, ScannedRow,
      RowListed, Scannable;
    var lo := s.kv.mem.Search(VersionsFrom(b, prefix, keyMarker, idMarker));
    ghost var found: seq<VersionAt>;
    out, truncated, found := ScanVersions(s.kv.mem, s.st, b, prefix, keyMarker, idMarker, max, lo);
    forall rows: seq<VersionAt>, start: nat | VersionRows(s.st, b, prefix, rows) &&
      ResumesByName(b, rows, keyMarker, idMarker, start)
      ensures IsPage(s.st, b, rows, start, keyMarker, idMarker, out)
      ensures truncated <==> start + |out| < |rows|
    {
      ScannedIsPage(s.kv.mem.keys, s.kv.mem.vals, s.st, b, prefix, keyMarker, idMarker, lo, found, rows, start, out);
    }
  }

  /** The scan itself, from a place in the keys. */
  method ScanVersions(mem: MemKV<Record>, ghost st: State, b: bytes, prefix: bytes, keyMarker: bytes, idMarker: vid,
                      max: int, lo: nat)
    returns (out: seq<VersionListing>, truncated: bool, ghost found: seq<VersionAt>)
    requires mem.Valid() && Represents(mem.vals, st) && NoNul(b) && lo <= |mem.keys| && max > 0
    ensures |out| == |found| <= max && lo + |found| <= |mem.keys| && Flagged(out, keyMarker, idMarker)
    ensures forall t :: 0 <= t < |found| ==> ScannedRow(mem.keys[lo + t], st, b, prefix, found[t])
    ensures forall t :: 0 <= t < |out| ==> RowListed(st, b, found[t], out[t])
    ensures truncated <==> lo + |found| < |mem.keys| && Scannable(mem.keys[lo + |found|], b, prefix)
    ensures truncated ==> |out| == max
  {
    hide Represents, Encode, IsPrefix, Less, NoNul, KeyAndVersion, Flagged, ScannedRow, RowListed, Scannable,
      BucketVersionsPrefix;
    out, truncated, found := [], false, [];
    var resumedMidKey := keyMarker != [] && idMarker != 0;
    var prevKey, havePrev := [], false;
    var i := lo;
    FlaggedEmpty(keyMarker, idMarker);
    while i < |mem.keys|
      invariant lo <= i <= |mem.keys| && |out| == |found| == i - lo && |out| <= max && !truncated
      invariant havePrev == (out != []) && (havePrev ==> prevKey == out[|out| - 1].key)
      invariant forall t :: 0 <= t < |found| ==> ScannedRow(mem.keys[lo + t], st, b, prefix, found[t])
      invariant forall t :: 0 <= t < |out| ==> RowListed(st, b, found[t], out[t])
      invariant Flagged(out, keyMarker, idMarker)
    {
      var name := mem.keys[i];
      Scanning(mem.vals, st, b, prefix, name);
      if !IsPrefix(BucketVersionsPrefix(b), name) {
        break;
      }
      var row := KeyAndVersion(name, b);
      if !IsPrefix(prefix, row.0) {
        break;
      }
      if |out| == max {
        truncated := true;
        break;
      }
      var firstOfKey := !havePrev || row.0 != prevKey;
      var o := VersionListing(row.0, mem.vals[name].version, firstOfKey && !(resumedMidKey && row.0 == keyMarker));
      FlaggedStep(out, keyMarker, idMarker, o);
      out := out + [o];
      found := found + [row];
      prevKey, havePrev := row.0, true;
      i := i + 1;
    }
  }

  /** The row at a name, as the scan reads it. */
  lemma Scanning(vals: map<bytes, Record>, st: State, b: bytes, prefix: bytes, name: bytes)
    requires Represents(vals, st) && NoNul(b) && name in vals
    ensures IsPrefix(BucketVersionsPrefix(b), name) ==>
      && |name| >= |BucketVersionsPrefix(b)| + 17 && vals[name].VersionRec?
      && (IsPrefix(prefix, KeyAndVersion(name, b).0) ==> ScannedRow(name, st, b, prefix, KeyAndVersion(name, b)))
      && forall l :: RowListed(st, b, KeyAndVersion(name, b),
                               VersionListing(KeyAndVersion(name, b).0, vals[name].version, l))
    ensures Scannable(name, b, prefix) <==>
      IsPrefix(BucketVersionsPrefix(b), name) && IsPrefix(prefix, KeyAndVersion(name, b).0)
  {
    hide Represents, Encode, KeyAndVersion, IsPrefix, BucketVersionsPrefix, NoNul;
    if IsPrefix(BucketVersionsPrefix(b), name) {
      BucketVersionUnder(vals, st, b, name);
    }
  }

  lemma ScannedIsPage(keys: seq<bytes>, vals: map<bytes, Record>, st: State, b: bytes, prefix: bytes, key: bytes,
                      id: vid, lo: nat, found: seq<VersionAt>, rows: seq<VersionAt>, s: nat, out: seq<VersionListing>)
    requires Indexes(keys, vals) && Represents(vals, st) && NoNul(b) && lo + |found| <= |keys|
    requires Splits(keys, VersionsFrom(b, prefix, key, id), lo)
    requires forall t :: 0 <= t < |found| ==> ScannedRow(keys[lo + t], st, b, prefix, found[t])
    requires VersionRows(st, b, prefix, rows) && ResumesByName(b, rows, key, id, s)
    requires |out| == |found| && Flagged(out, key, id) && forall t :: 0 <= t < |out| ==>
      RowListed(st, b, found[t], out[t])
    ensures IsPage(st, b, rows, s, key, id, out)
    ensures s + |out| < |rows| <==> lo + |found| < |keys| && Scannable(keys[lo + |found|], b, prefix)
  {
    hide Encode, Represents, NoNul, VersionsFrom, VersionRows, ScannedRow, ResumesByName, Flagged, Scannable,
      RowListed, Indexes, Splits;
    ScannedIsRest(keys, vals, st, b, prefix, key, id, lo, found, rows, s);
    forall t | 0 <= t < |out|
      ensures RowListed(st, b, rows[s + t], out[t])
    {
      assert RowListed(st, b, found[t], out[t]) && found[t] == rows[s + t];
    }
  }

  lemma FlaggedEmpty(key: bytes, id: vid)
    ensures Flagged([], key, id)
  {
  }

  lemma FlaggedStep(out: seq<VersionListing>, key: bytes, id: vid, row: VersionListing)
    requires Flagged(out, key, id)
    requires row.latest == ((out == [] || out[|out| - 1].key != row.key) && !(key != [] && id != 0 && row.key == key))
    ensures Flagged(out + [row], key, id)
  {
    forall i | 0 <= i < |out|
      ensures FlagOk(out + [row], i, key, id)
    {
      assert FlagOk(out, i, key, id);
    }
  }

  // ---- paging through ----

  /** A marker taken from the last row of a page resumes right after it, and the flags of the
      next page are those of the unpaged listing. */
  lemma HonestResume(st: State, b: bytes, prefix: bytes, rows: seq<VersionAt>, s: nat)
    requires VersionRows(st, b, prefix, rows) && 0 < s <= |rows| && rows[s - 1].0 != []
    ensures ResumesAt(rows, rows[s - 1].0, rows[s - 1].1, s)
  {
    hide RowBefore;
    var m := rows[s - 1];
    assert m == (m.0, m.1);
    forall i | 0 <= i < |rows|
      ensures RowBefore(m, rows[i]) <==> s <= i
    {
      RowPlaces(rows, s - 1, i);
    }
  }

  lemma PageIsListed(st: State, b: bytes, prefix: bytes, rows: seq<VersionAt>, s: nat, key: bytes, id: vid,
                     out: seq<VersionListing>)
    requires VersionRows(st, b, prefix, rows) && IsPage(st, b, rows, s, key, id, out)
    requires forall i :: 0 <= i < |rows| ==> VersionKey(b, rows[i].0, rows[i].1) in st.versions
    requires MarksEnd(rows, key, id, s)
    ensures out == Listed(st, b, rows, s, s + |out|)
  {
    hide Less;
    forall i | 0 <= i < |out|
      ensures out[i] == Listed(st, b, rows, s, s + |out|)[i]
    {
      assert RowListed(st, b, rows[s + i], out[i]);
      SameFlag(st, b, rows, s, key, id, out, i);
    }
  }

  /** A page's flag is the unpaged listing's. */
  lemma SameFlag(st: State, b: bytes, rows: seq<VersionAt>, s: nat, key: bytes, id: vid, out: seq<VersionListing>,
                 i: nat)
    requires InListingOrder(rows) && IsPage(st, b, rows, s, key, id, out) && MarksEnd(rows, key, id, s) && i < |out|
    ensures out[i].latest == FirstOfKey(rows, s + i)
  {
    hide InListingOrder;
    assert FlagOk(out, i, key, id);
    assert RowListed(st, b, rows[s + i], out[i]);
    if i > 0 {
      assert RowListed(st, b, rows[s + (i - 1)], out[i - 1]);
    }
    if key != [] && rows[s + i].0 == key {
      BlockOfKey(rows, s - 1, s + i);
      assert rows[s + i - 1].0 == key;
    }
  }

  /** A later row of the same key is older, so the marker's ID is not the last. */
  lemma OlderRow(rows: seq<VersionAt>, i: nat, j: nat)
    requires InListingOrder(rows) && i < j < |rows|
    ensures rows[i].0 == rows[j].0 ==> rows[i].1 > rows[j].1
  {
    Irreflexive(rows[i].0);
  }

  /** Rows of one key are contiguous. */
  lemma BlockOfKey(rows: seq<VersionAt>, i: nat, j: nat)
    requires InListingOrder(rows) && i < j < |rows| && rows[i].0 == rows[j].0
    ensures forall t :: i <= t <= j ==> rows[t].0 == rows[i].0
    ensures rows[i].1 != 0
  {
    OlderRow(rows, i, j);
    forall t | i < t < j
      ensures rows[t].0 == rows[i].0
    {
      assert RowBefore(rows[i], rows[t]) && RowBefore(rows[t], rows[j]);
      if rows[t].0 != rows[i].0 {
        Asymmetric(rows[i].0, rows[t].0);
      }
    }
  }

  // ---- what the latest flag marks ----

  /** The first row of a key is its newest version. */
  lemma FirstIsNewest(st: State, b: bytes, prefix: bytes, rows: seq<VersionAt>, i: nat)
    requires VersionRows(st, b, prefix, rows) && i < |rows|
    ensures FirstOfKey(rows, i) <==> Newest(st, b, rows[i].0) == Some(rows[i].1)
  {
    hide IsPrefix, Less;
    var (k, id) := rows[i];
    assert (k, id) in rows && id in Ids(st, b, k);
    if FirstOfKey(rows, i) {
      forall x: vid | x in Ids(st, b, k)
        ensures x <= id
      {
        RowOfKey(st, b, prefix, rows, i, x);
      }
    } else {
      OlderRow(rows, i - 1, i);
      assert rows[i - 1] in rows && rows[i - 1] == (k, rows[i - 1].1);
      assert rows[i - 1].1 in Ids(st, b, k);
    }
  }

  lemma RowOfKey(st: State, b: bytes, prefix: bytes, rows: seq<VersionAt>, i: nat, x: vid)
    requires VersionRows(st, b, prefix, rows) && i < |rows| && FirstOfKey(rows, i) && x in Ids(st, b, rows[i].0)
    ensures x <= rows[i].1
  {
    hide IsPrefix, Less;
    assert rows[i] in rows && rows[i] == (rows[i].0, rows[i].1);
    assert (rows[i].0, x) in rows;
    var j :| 0 <= j < |rows| && rows[j] == (rows[i].0, x);
    if j < i {
      BlockOfKey(rows, j, i);
    } else if i < j {
      OlderRow(rows, i, j);
    }
  }

  /** A page's flags mark exactly the newest versions of their keys. */
  ghost predicate MarksNewest(st: State, b: bytes, rows: seq<VersionAt>, s: nat, out: seq<VersionListing>)
    requires s + |out| <= |rows|
  {
    forall i :: 0 <= i < |out| ==> (out[i].latest <==> Newest(st, b, rows[s + i].0) == Some(rows[s + i].1))
  }

  /** The page is taken to resume inside the marker's own key. */
  predicate TakenMidKey(rows: seq<VersionAt>, s: nat, key: bytes, id: vid)
    requires s < |rows|
  {
    key != [] && id != 0 && rows[s].0 == key
  }

  /** After the first row of a page, a row is flagged exactly when it is the first of its key. */
  lemma LaterFlag(st: State, b: bytes, rows: seq<VersionAt>, s: nat, key: bytes, id: vid, out: seq<VersionListing>,
                  i: nat)
    requires NoNul(b) && InListingOrder(rows) && (forall t :: 0 <= t < |rows| ==> NoNul(rows[t].0))
    requires ResumesByName(b, rows, key, id, s) && IsPage(st, b, rows, s, key, id, out) && 0 < i < |out|
    ensures out[i].latest == FirstOfKey(rows, s + i)
  {
    hide InListingOrder, NamedAfter, NoNul;
    assert FlagOk(out, i, key, id);
    assert RowListed(st, b, rows[s + i], out[i]) && RowListed(st, b, rows[s + (i - 1)], out[i - 1]);
    if FirstOfKey(rows, s + i) && key != [] && rows[s + i].0 == key {
      assert NamedAfter(b, key, id, rows[s + (i - 1)]);
      NameInOrder(b, key, id, rows[s + (i - 1)]);
      EarlierKey(rows, s + i, key, id);
    }
  }

  /** Before the first row of a key come only smaller keys, which no marker of that key precedes. */
  lemma EarlierKey(rows: seq<VersionAt>, j: nat, key: bytes, id: vid)
    requires InListingOrder(rows) && 0 < j < |rows| && FirstOfKey(rows, j) && rows[j].0 == key
    ensures !After(key, id, rows[j - 1])
  {
    assert RowBefore(rows[j - 1], rows[j]);
    Asymmetric(rows[j - 1].0, key);
  }

  lemma FirstFlag(st: State, b: bytes, rows: seq<VersionAt>, s: nat, key: bytes, id: vid, out: seq<VersionListing>)
    requires IsPage(st, b, rows, s, key, id, out) && out != []
    ensures out[0].latest <==> !TakenMidKey(rows, s, key, id)
  {
    assert FlagOk(out, 0, key, id);
    assert RowListed(st, b, rows[s + 0], out[0]);
  }

  /** Exactly when a page's flags mark the newest versions, whatever the marker: its first row is a
      key's newest version unless the page is taken to resume inside that key. */
  lemma FlagsMarkNewestExactly(st: State, b: bytes, prefix: bytes, rows: seq<VersionAt>, s: nat, key: bytes, id: vid,
                               out: seq<VersionListing>)
    requires Inv(st) && NoNul(b) && VersionRows(st, b, prefix, rows) && ResumesByName(b, rows, key, id, s)
    requires IsPage(st, b, rows, s, key, id, out) && out != []
    ensures MarksNewest(st, b, rows, s, out) <==> (TakenMidKey(rows, s, key, id) <==> !FirstOfKey(rows, s))
  {
    hide Inv, VersionRows, ResumesByName, IsPage, Newest;
    RowsAreVersions(st, b, prefix, rows);
    PageFits(st, b, rows, s, key, id, out);
    RowsOrdered(st, b, prefix, rows);
    FirstFlag(st, b, rows, s, key, id, out);
    forall i | 0 <= i < |out|
      ensures i > 0 ==> out[i].latest == FirstOfKey(rows, s + i)
      ensures FirstOfKey(rows, s + i) <==> Newest(st, b, rows[s + i].0) == Some(rows[s + i].1)
    {
      FirstIsNewest(st, b, prefix, rows, s + i);
      if i > 0 {
        LaterFlag(st, b, rows, s, key, id, out, i);
      }
    }
    assert FirstOfKey(rows, s + 0) == FirstOfKey(rows, s);
  }

  lemma PageFits(st: State, b: bytes, rows: seq<VersionAt>, s: nat, key: bytes, id: vid, out: seq<VersionListing>)
    requires IsPage(st, b, rows, s, key, id, out)
    ensures s + |out| <= |rows|
  {
  }

  lemma RowsOrdered(st: State, b: bytes, prefix: bytes, rows: seq<VersionAt>)
    requires VersionRows(st, b, prefix, rows)
    ensures InListingOrder(rows)
  {
  }

  /** For a marker that could be a key: unless the marker is above every version of its key. */
  lemma FlagsWrongExactly(st: State, b: bytes, prefix: bytes, rows: seq<VersionAt>, s: nat, key: bytes, id: vid,
                          out: seq<VersionListing>)
    requires Inv(st) && NoNul(b) && NoNul(key) && VersionRows(st, b, prefix, rows) && ResumesAt(rows, key, id, s)
    requires IsPage(st, b, rows, s, key, id, out) && out != []
    ensures MarksNewest(st, b, rows, s, out) <==> !(TakenMidKey(rows, s, key, id) && FirstOfKey(rows, s))
  {
    hide Inv, VersionRows, IsPage, ResumesAt, ResumesByName, MarksNewest, TakenMidKey, FirstOfKey, InListingOrder,
      NoNul;
    RowsAreVersions(st, b, prefix, rows);
    PageFits(st, b, rows, s, key, id, out);
    RowsOrdered(st, b, prefix, rows);
    NamesInOrder(b, rows, key, id, s);
    FlagsMarkNewestExactly(st, b, prefix, rows, s, key, id, out);
    if !FirstOfKey(rows, s) {
      MidOnlyByMarker(rows, s, key, id);
    }
  }

  /** A page that starts inside a key resumed from a version of that key. */
  lemma MidOnlyByMarker(rows: seq<VersionAt>, s: nat, key: bytes, id: vid)
    requires InListingOrder(rows) && ResumesAt(rows, key, id, s) && s < |rows| && !FirstOfKey(rows, s)
    ensures TakenMidKey(rows, s, key, id)
  {
    var p, q := rows[s - 1], rows[s];
    assert !After(key, id, p) && After(key, id, q);
    assert RowBefore(p, q);
    RowBeforeTotal((key, id), p);
    Irreflexive(key);
    if Less(key, q.0) && Less(p.0, key) {
      Asymmetric(key, p.0);
    }
  }

  /** The input: a marker above every version of its key, such as one whose version was deleted since
      the page before. The key's newest version is listed as not the latest. */
  lemma StaleMarkerHidesLatest(st: State, b: bytes, prefix: bytes, rows: seq<VersionAt>, s: nat, id: vid,
                               out: seq<VersionListing>)
    requires VersionRows(st, b, prefix, rows) && s < |rows| && FirstOfKey(rows, s) && rows[s].0 != [] && id > rows[s].1
    requires IsPage(st, b, rows, s, rows[s].0, id, out) && out != []
    ensures ResumesAt(rows, rows[s].0, id, s)
    ensures Newest(st, b, rows[s].0) == Some(rows[s].1) && out[0].key == rows[s].0 && !out[0].latest
  {
    FirstIsNewest(st, b, prefix, rows, s);
    FirstFlag(st, b, rows, s, rows[s].0, id, out);
    assert RowListed(st, b, rows[s + 0], out[0]);
    hide IsPrefix, Less, VersionRows, Newest, IsPage;
    RowsOrdered(st, b, prefix, rows);
    forall i | 0 <= i < |rows|
      ensures After(rows[s].0, id, rows[i]) <==> s <= i
    {
      AboveAll(rows, s, id, i);
    }
  }

  lemma AboveAll(rows: seq<VersionAt>, s: nat, id: vid, i: nat)
    requires InListingOrder(rows) && s < |rows| && i < |rows| && FirstOfKey(rows, s) && id > rows[s].1
    ensures After(rows[s].0, id, rows[i]) <==> s <= i
  {
    RowPlaces(rows, s, i);
    if i < s {
      assert RowBefore(rows[i], rows[s]);
      if rows[i].0 == rows[s].0 {
        BlockOfKey(rows, i, s);
      } else {
        Asymmetric(rows[i].0, rows[s].0);
      }
    }
  }

  /** A client paging through a bucket, in pages of any sizes: the concatenation is the unpaged
      listing, latest flags included. */
  method PageThrough(s: Store, b: bytes, prefix: bytes, sizes: nat -> int, ghost rows: seq<VersionAt>)
    returns (all: seq<VersionListing>)
    requires s.Mid() && NoNul(b) && Inv(s.st) && VersionRows(s.st, b, prefix, rows) && forall n :: sizes(n) > 0
    ensures forall i :: 0 <= i < |rows| ==> VersionKey(b, rows[i].0, rows[i].1) in s.st.versions
    ensures all == Listed(s.st, b, rows, 0, |rows|)
  {
    hide Inv, VersionRows, IsPage, ResumesByName, Listed, NoNul, Represents;
    RowsAreVersions(s.st, b, prefix, rows);
    StartsAtZero(b, rows);
    all := [];
    var keyMarker: bytes, idMarker: vid := [], 0;
    var n, more := 0, true;
    while more
      invariant Paged(s.st, b, rows, all, keyMarker, idMarker)
      invariant !more ==> |all| == |rows|
      decreases |rows| - |all|, more
    {
      var out, truncated := ListObjectVersions(s, b, prefix, keyMarker, idMarker, sizes(n));
      NextPage(s.st, b, prefix, rows, all, keyMarker, idMarker, out);
      all := all + out;
      if out != [] {
        keyMarker, idMarker := out[|out| - 1].key, out[|out| - 1].entry.id;
      }
      more := truncated;
      n := n + 1;
    }
  }

  ghost predicate AllVersions(st: State, b: bytes, rows: seq<VersionAt>) {
    forall i :: 0 <= i < |rows| ==>
      && VersionKey(b, rows[i].0, rows[i].1) in st.versions && rows[i].0 != [] && NoNul(rows[i].0)
      && st.versions[VersionKey(b, rows[i].0, rows[i].1)].id == rows[i].1
  }

  /** What a client has after some pages: a leading part of the listing, and the marker of its end. */
  ghost predicate Paged(st: State, b: bytes, rows: seq<VersionAt>, all: seq<VersionListing>, key: bytes, id: vid) {
    && AllVersions(st, b, rows) && |all| <= |rows| && all == Listed(st, b, rows, 0, |all|)
    && MarksEnd(rows, key, id, |all|) && ResumesByName(b, rows, key, id, |all|)
  }

  lemma NextPage(st: State, b: bytes, prefix: bytes, rows: seq<VersionAt>, all: seq<VersionListing>, key: bytes,
                 id: vid, out: seq<VersionListing>)
    requires NoNul(b) && VersionRows(st, b, prefix, rows) && Paged(st, b, rows, all, key, id) &&
      IsPage(st, b, rows, |all|, key, id, out)
    ensures if out == [] then Paged(st, b, rows, all + out, key, id)
            else Paged(st, b, rows, all + out, out[|out| - 1].key, out[|out| - 1].entry.id)
  {
    hide Listed, VersionRows, ResumesByName, NoNul, RowListed, Flagged;
    var end := |all| + |out|;
    PageIsListed(st, b, prefix, rows, |all|, key, id, out);
    ListedAppends(st, b, rows, |all|, end);
    if out == [] {
      assert all + out == all;
    } else {
      HonestResume(st, b, prefix, rows, end);
      NamesInOrder(b, rows, rows[end - 1].0, rows[end - 1].1, end);
      LastListed(st, b, rows, |all|, end);
    }
  }

  /** No marker at the start, the last row listed afterwards. */
  ghost predicate MarksEnd(rows: seq<VersionAt>, key: bytes, id: vid, n: nat) {
    n <= |rows| && if key == [] then n == 0 else n > 0 && rows[n - 1] == (key, id)
  }

  lemma RowsAreVersions(st: State, b: bytes, prefix: bytes, rows: seq<VersionAt>)
    requires Inv(st) && VersionRows(st, b, prefix, rows)
    ensures AllVersions(st, b, rows)
  {
    forall i | 0 <= i < |rows|
      ensures VersionKey(b, rows[i].0, rows[i].1) in st.versions && rows[i].0 != [] && NoNul(rows[i].0)
      ensures st.versions[VersionKey(b, rows[i].0, rows[i].1)].id == rows[i].1
    {
      assert rows[i] == (rows[i].0, rows[i].1) && rows[i] in rows;
      assert KeyInv(st, b, rows[i].0);
      assert rows[i].1 in Ids(st, b, rows[i].0);
    }
  }

  lemma StartsAtZero(b: bytes, rows: seq<VersionAt>)
    ensures ResumesByName(b, rows, [], 0, 0) && MarksEnd(rows, [], 0, 0)
  {
  }

  lemma ListedAppends(st: State, b: bytes, rows: seq<VersionAt>, m: nat, n: nat)
    requires m <= n <= |rows| && forall i :: 0 <= i < |rows| ==> VersionKey(b, rows[i].0, rows[i].1) in st.versions
    ensures Listed(st, b, rows, 0, m) + Listed(st, b, rows, m, n) == Listed(st, b, rows, 0, n)
  {
  }

  lemma LastListed(st: State, b: bytes, rows: seq<VersionAt>, m: nat, n: nat)
    requires m < n <= |rows| && forall i :: 0 <= i < |rows| ==> VersionKey(b, rows[i].0, rows[i].1) in st.versions
    ensures Listed(st, b, rows, m, n)[n - m - 1].key == rows[n - 1].0
    ensures Listed(st, b, rows, m, n)[n - m - 1].entry == st.versions[VersionKey(b, rows[n - 1].0, rows[n - 1].1)]
  {
  }
}
