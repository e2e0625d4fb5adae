/** Delimiter listings: keys grouped under common prefixes, cut into pages and resumed. */
module GatewayListing {
  import opened Bytes
  import opened Lex
  import opened MetaKV
  import opened MetaPersist
  import opened MetaListing

  const ListBatch := 1000

  /** What a listing emits: a key, or a common prefix standing for every key under it. */
  datatype Entry = Key(token: bytes) | Group(token: bytes)

  // ---- grouping ----

  /** Where `d` first occurs in s, if anywhere. */
  function Index(s: bytes, d: bytes): (i: Option<nat>)
    ensures i.Some? ==> i.value + |d| <= |s| && s[i.value..i.value + |d|] == d
  {
    if |s| < |d| then None
    else if s[..|d|] == d then Some(0)
    else if s == [] then None
    else
      var rest := Index(s[1..], d);
      if rest.Some? then Some(rest.value + 1) else None
  }

  /** The common prefix a key falls under. */
  function GroupOf(k: bytes, prefix: bytes, d: bytes): (g: Option<bytes>)
    requires IsPrefix(prefix, k)
  {
    var i := Index(k[|prefix|..], d);
    if d == [] || i.None? then None else Some(k[..|prefix| + i.value + |d|])
  }

  function EntryOf(k: bytes, prefix: bytes, d: bytes): (e: Entry)
    requires IsPrefix(prefix, k)
    ensures IsPrefix(e.token, k) && IsPrefix(prefix, e.token)
  {
    var g := GroupOf(k, prefix, d);
    if g.Some? then Group(g.value) else Key(k)
  }

  /** The first occurrence depends only on the bytes through it. */
  lemma {:induction false} IndexLocal(s: bytes, t: bytes, d: bytes)
    requires Index(s, d).Some? && IsPrefix(s[..Index(s, d).value + |d|], t)
    ensures Index(t, d) == Index(s, d)
  {
    var i := Index(s, d).value;
    var n := i + |d|;
    assert |t| >= n && t[..n] == s[..n];
    if i == 0 {
      assert s[..|d|] == d;
      assert t[..|d|] == t[..n][..|d|];
    } else {
      assert s[1..][..n - 1] == s[..n][1..] && t[1..][..n - 1] == t[..n][1..];
      IndexLocal(s[1..], t[1..], d);
      assert t[..|d|] == t[..n][..|d|] && s[..|d|] == s[..n][..|d|];
    }
  }

  lemma {:induction false} IndexOfOccurrence(s: bytes, d: bytes, j: nat)
    requires j + |d| <= |s| && s[j..j + |d|] == d
    ensures Index(s, d).Some? && Index(s, d).value <= j
  {
    if s[..|d|] != d {
      assert s[0..|d|] == s[..|d|];
      assert j > 0;
      assert s[1..][j - 1..j - 1 + |d|] == s[j..j + |d|];
      IndexOfOccurrence(s[1..], d, j - 1);
    }
  }

  /** Everything under a common prefix falls under it. */
  lemma GroupIsShared(x: bytes, k: bytes, prefix: bytes, d: bytes)
    requires IsPrefix(prefix, x) && GroupOf(x, prefix, d).Some? && IsPrefix(GroupOf(x, prefix, d).value, k)
    ensures IsPrefix(prefix, k) && GroupOf(k, prefix, d) == GroupOf(x, prefix, d)
  {
    hide Index;
    var p := |prefix|;
    var n := Index(x[p..], d).value + |d|;
    SharedFront(x, k, p, n);
    IndexLocal(x[p..], k[p..], d);
  }

  /** Two keys that agree up to p + n agree up to p, and for n bytes after it. */
  lemma SharedFront(x: bytes, k: bytes, p: nat, n: nat)
    requires p + n <= |x| && p + n <= |k| && k[..p + n] == x[..p + n]
    ensures k[..p] == x[..p] && x[p..][..n] == k[p..][..n]
  {
    assert k[..p] == k[..p + n][..p] && x[..p] == x[..p + n][..p];
    assert k[p..][..n] == k[..p + n][p..] && x[p..][..n] == x[..p + n][p..];
  }

  /** A common prefix ends with the delimiter. */
  lemma GroupEnds(x: bytes, prefix: bytes, d: bytes)
    requires IsPrefix(prefix, x) && GroupOf(x, prefix, d).Some?
    ensures EndsWith(GroupOf(x, prefix, d).value, d) && IsPrefix(prefix, GroupOf(x, prefix, d).value)
  {
    var g := GroupOf(x, prefix, d).value;
    var i := Index(x[|prefix|..], d).value;
    assert g[|g| - |d|..] == x[|prefix|..][i..i + |d|];
    assert g[..|prefix|] == x[..|prefix|];
  }

  predicate EndsWith(s: bytes, d: bytes) {
    |d| <= |s| && s[|s| - |d|..] == d
  }

  // ---- the unpaged grouping ----

  predicate AllPrefixed(keys: seq<bytes>, prefix: bytes) {
    forall i :: 0 <= i < |keys| ==> IsPrefix(prefix, keys[i])
  }

  /** A key is skipped while it falls under the group last emitted. */
  predicate Skipped(k: bytes, last: bytes) {
    last != [] && IsPrefix(last, k)
  }

  /** The walk over the keys in order. */
  function Entries(keys: seq<bytes>, prefix: bytes, d: bytes, last: bytes): (es: seq<Entry>)
    requires AllPrefixed(keys, prefix)
  {
    if keys == [] then []
    else if Skipped(keys[0], last) then Entries(keys[1..], prefix, d, last)
    else
      var e := EntryOf(keys[0], prefix, d);
      [e] + Entries(keys[1..], prefix, d, if e.Group? then e.token else last)
  }

  predicate TokensAscend(es: seq<Entry>) {
    forall i, j :: 0 <= i < j < |es| ==> Less(es[i].token, es[j].token)
  }

  /** A group already passed by an ascending key does not come back. */
  lemma PassedGroup(g: bytes, k: bytes, later: bytes)
    requires AtMost(g, k) && !IsPrefix(g, k) && Less(k, later)
    ensures !IsPrefix(g, later)
  {
    PastPrefix(g, k, later);
  }

  /** Of two keys in order, the second's token is past the first's, unless it falls under it. */
  lemma NextToken(k1: bytes, k2: bytes, prefix: bytes, d: bytes)
    requires IsPrefix(prefix, k1) && IsPrefix(prefix, k2) && Less(k1, k2)
    requires EntryOf(k1, prefix, d).Group? ==> !IsPrefix(EntryOf(k1, prefix, d).token, k2)
    ensures Less(EntryOf(k1, prefix, d).token, EntryOf(k2, prefix, d).token)
  {
    hide GroupOf;
    var t1, t2 := EntryOf(k1, prefix, d).token, EntryOf(k2, prefix, d).token;
    PrefixAtMost(t1, k1);
    PrefixAtMost(t2, k2);
    Total(t1, t2);
    if !Less(t1, t2) {
      AtMostTrans(t2, t1, k1);
      if !IsPrefix(t2, k1) {
        PastPrefix(t2, k1, k2);
      } else if EntryOf(k2, prefix, d).Group? {
        GroupIsShared(k2, k1, prefix, d);
      } else {
        PrefixAtMost(k2, k1);
        Asymmetric(k1, k2);
      }
    }
  }

  /** Some key not under the last group has this entry. */
  ghost predicate Produces(keys: seq<bytes>, prefix: bytes, d: bytes, last: bytes, e: Entry)
    requires AllPrefixed(keys, prefix)
  {
    exists i :: 0 <= i < |keys| && !Skipped(keys[i], last) && EntryOf(keys[i], prefix, d) == e
  }

  /** What the walk emits: the entries of the keys not under the last group, each once, in
      token order. */
  lemma {:induction false} EntriesSpec(keys: seq<bytes>, prefix: bytes, d: bytes, last: bytes)
    requires AllPrefixed(keys, prefix) && Ascending(keys)
    requires forall i :: 0 <= i < |keys| ==> AtMost(last, keys[i])
    ensures forall e :: e in Entries(keys, prefix, d, last) <==> Produces(keys, prefix, d, last, e)
    ensures TokensAscend(Entries(keys, prefix, d, last))
    decreases |keys|
  {
    hide Less, IsPrefix, EntryOf;
    if keys != [] {
      var k, rest := keys[0], keys[1..];
      assert keys == [k] + rest;
      TailAscends(keys);
      assert AllPrefixed(rest, prefix) && forall i :: 0 <= i < |rest| ==> rest[i] == keys[i + 1];
      if Skipped(k, last) {
        EntriesSpec(rest, prefix, d, last);
        TailMembers(keys, prefix, d, last);
      } else {
        var e := EntryOf(k, prefix, d);
        var next := if e.Group? then e.token else last;
        NextLast(keys, prefix, d, last);
        EntriesSpec(rest, prefix, d, next);
        EmitMembers(keys, prefix, d, last, next);
        EmitAscends(keys, prefix, d, next);
      }
    }
  }

  lemma TailMembers(keys: seq<bytes>, prefix: bytes, d: bytes, last: bytes)
    requires keys != [] && AllPrefixed(keys, prefix) && Skipped(keys[0], last)
    ensures AllPrefixed(keys[1..], prefix)
    ensures forall e :: Produces(keys, prefix, d, last, e) <==> Produces(keys[1..], prefix, d, last, e)
  {
    hide IsPrefix, EntryOf, Skipped;
    var rest := keys[1..];
    assert forall i :: 0 <= i < |rest| ==> rest[i] == keys[i + 1];
    forall e
      ensures Produces(keys, prefix, d, last, e) <==> Produces(rest, prefix, d, last, e)
    {
      if Produces(keys, prefix, d, last, e) {
        var i :| 0 <= i < |keys| && !Skipped(keys[i], last) && EntryOf(keys[i], prefix, d) == e;
        assert rest[i - 1] == keys[i];
      }
      if Produces(rest, prefix, d, last, e) {
        var i :| 0 <= i < |rest| && !Skipped(rest[i], last) && EntryOf(rest[i], prefix, d) == e;
        assert keys[i + 1] == rest[i];
      }
    }
  }

  /** The group carried on is at or before every key left. */
  lemma NextLast(keys: seq<bytes>, prefix: bytes, d: bytes, last: bytes)
    requires keys != [] && AllPrefixed(keys, prefix) && Ascending(keys) && !Skipped(keys[0], last)
    requires forall i :: 0 <= i < |keys| ==> AtMost(last, keys[i])
    ensures var e := EntryOf(keys[0], prefix, d);
      forall i :: 1 <= i < |keys| ==> AtMost(if e.Group? then e.token else last, keys[i])
    ensures forall i :: 1 <= i < |keys| ==> !Skipped(keys[i], last)
  {
    hide Less, EntryOf;
    var e := EntryOf(keys[0], prefix, d);
    PrefixAtMost(e.token, keys[0]);
    forall i | 1 <= i < |keys|
      ensures AtMost(if e.Group? then e.token else last, keys[i]) && !Skipped(keys[i], last)
    {
      AtMostTrans(e.token, keys[0], keys[i]);
      if last != [] {
        PassedGroup(last, keys[0], keys[i]);
      }
    }
  }

  /** Emitting the first key's entry covers exactly the keys under it. */
  lemma EmitMembers(keys: seq<bytes>, prefix: bytes, d: bytes, last: bytes, next: bytes)
    requires keys != [] && AllPrefixed(keys, prefix) && Ascending(keys) && !Skipped(keys[0], last)
    requires next == (if EntryOf(keys[0], prefix, d).Group? then EntryOf(keys[0], prefix, d).token else last)
    requires forall i :: 1 <= i < |keys| ==> !Skipped(keys[i], last)
    ensures AllPrefixed(keys[1..], prefix)
    ensures forall e :: Produces(keys, prefix, d, last, e) <==>
      e == EntryOf(keys[0], prefix, d) || Produces(keys[1..], prefix, d, next, e)
  {
    var rest, first := keys[1..], EntryOf(keys[0], prefix, d);
    assert forall i :: 0 <= i < |rest| ==> rest[i] == keys[i + 1];
    forall i | 0 <= i < |rest|
      ensures Skipped(rest[i], next) ==> EntryOf(rest[i], prefix, d) == first
    {
      if Skipped(rest[i], next) && first.Group? {
        GroupIsShared(keys[0], rest[i], prefix, d);
      }
    }
    hide IsPrefix, EntryOf, Skipped, Less;
    forall e
      ensures Produces(keys, prefix, d, last, e) <==> e == first || Produces(rest, prefix, d, next, e)
    {
      if Produces(keys, prefix, d, last, e) {
        var i :| 0 <= i < |keys| && !Skipped(keys[i], last) && EntryOf(keys[i], prefix, d) == e;
        if i > 0 {
          assert rest[i - 1] == keys[i];
        }
      }
      if Produces(rest, prefix, d, next, e) {
        var i :| 0 <= i < |rest| && !Skipped(rest[i], next) && EntryOf(rest[i], prefix, d) == e;
        assert keys[i + 1] == rest[i];
      }
    }
  }

  lemma EmitAscends(keys: seq<bytes>, prefix: bytes, d: bytes, next: bytes)
    requires keys != [] && AllPrefixed(keys, prefix) && Ascending(keys) && AllPrefixed(keys[1..], prefix)
    requires EntryOf(keys[0], prefix, d).Group? ==> next == EntryOf(keys[0], prefix, d).token
    requires TokensAscend(Entries(keys[1..], prefix, d, next))
    requires forall e :: e in Entries(keys[1..], prefix, d, next) <==> Produces(keys[1..], prefix, d, next, e)
    ensures TokensAscend([EntryOf(keys[0], prefix, d)] + Entries(keys[1..], prefix, d, next))
  {
    var first, es, rest := EntryOf(keys[0], prefix, d), Entries(keys[1..], prefix, d, next), keys[1..];
    hide Less, IsPrefix, EntryOf, Entries;
    forall j | 0 <= j < |es|
      ensures Less(first.token, es[j].token)
    {
      assert es[j] in es && Produces(rest, prefix, d, next, es[j]);
      var i :| 0 <= i < |rest| && !Skipped(rest[i], next) && EntryOf(rest[i], prefix, d) == es[j];
      assert rest[i] == keys[i + 1];
      GroupNonEmpty(keys[0], prefix, d);
      NextToken(keys[0], rest[i], prefix, d);
    }
  }

  lemma GroupNonEmpty(k: bytes, prefix: bytes, d: bytes)
    requires IsPrefix(prefix, k)
    ensures EntryOf(k, prefix, d).Group? ==> EntryOf(k, prefix, d).token != []
  {
  }

  // ---- one page ----

  /** The group a resume point is taken for. */
  function ResumeGroup(prefix: bytes, d: bytes, after: bytes): bytes {
    if d != [] && after != [] && IsPrefix(prefix, after) && EndsWith(after, d) then after else []
  }

  /** The entries left after a resume point. */
  function Remaining(live: seq<bytes>, prefix: bytes, d: bytes, after: bytes): (es: seq<Entry>) {
    WantedPrefixed(live, prefix, after);
    Entries(Wanted(live, prefix, after), prefix, d, ResumeGroup(prefix, d, after))
  }

  lemma WantedPrefixed(live: seq<bytes>, prefix: bytes, after: bytes)
    ensures AllPrefixed(Wanted(live, prefix, after), prefix)
  {
    var w := Wanted(live, prefix, after);
    assert forall i :: 0 <= i < |w| ==> w[i] in w;
  }

  function KeysIn(es: seq<Entry>): (ks: seq<bytes>) {
    if es == [] then []
    else KeysIn(es[..|es| - 1]) + if es[|es| - 1].Key? then [es[|es| - 1].token] else []
  }

  function GroupsIn(es: seq<Entry>): (gs: seq<bytes>) {
    if es == [] then []
    else GroupsIn(es[..|es| - 1]) + if es[|es| - 1].Group? then [es[|es| - 1].token] else []
  }

  datatype Listing = Listing(objects: seq<bytes>, prefixes: seq<bytes>, truncated: bool, next: bytes)

  /** A page holds the first `max` of some entries. */
  predicate IsListing(l: Listing, es: seq<Entry>, max: int) {
    var n := if max <= 0 then 0 else Min(max, |es|);
    && l.objects == KeysIn(es[..n]) && l.prefixes == GroupsIn(es[..n])
    && (l.truncated <==> 0 < max < |es|)
    && (n > 0 ==> l.next == es[n - 1].token)
  }

  /** After the n-th key of a scan, the rest of it is what a scan from that key gives. */
  lemma WantedAfter(live: seq<bytes>, prefix: bytes, after: bytes, n: nat)
    requires Ascending(live) && [] !in live && 0 < n <= |Wanted(live, prefix, after)|
    ensures Wanted(live, prefix, Wanted(live, prefix, after)[n - 1]) == Wanted(live, prefix, after)[n..]
  {
    var w := Wanted(live, prefix, after);
    var mark := w[n - 1];
    assert mark in w;
    WantedAscends(live, prefix, after);
    WantedAscends(live, prefix, mark);
    hide Wanted, IsPrefix, Less;
    var rest, got := w[n..], Wanted(live, prefix, mark);
    assert Ascending(rest);
    forall k
      ensures k in rest <==> k in w && Less(mark, k)
    {
      PastMark(w, n, k);
    }
    forall k
      ensures k in rest <==> k in got
    {
      if k in got && after != [] {
        Transitive(after, mark, k);
      }
    }
    AscendingUnique(rest, got);
  }

  lemma PastMark(w: seq<bytes>, n: nat, k: bytes)
    requires Ascending(w) && 0 < n <= |w|
    ensures k in w[n..] <==> k in w && Less(w[n - 1], k)
  {
    hide Less;
    if k in w[n..] {
      var i :| 0 <= i < |w[n..]| && w[n..][i] == k;
      Places(w, n - 1, n + i);
    }
    if k in w && Less(w[n - 1], k) {
      var i :| 0 <= i < |w| && w[i] == k;
      Places(w, n - 1, i);
      assert w[n..][i - n] == k;
    }
  }

  /** The walk of the listing: batches of keys, grouped, until the page is full. */
  method CollectListing(bucketExists: bool, live: seq<bytes>, prefix: bytes, d: bytes, after: bytes, max: int)
    returns (out: Listing, found: bool)
    requires Ascending(live) && [] !in live
    ensures found == bucketExists
    ensures found ==> IsListing(out, Remaining(live, prefix, d, after), max)
  {
    out := Listing([], [], false, []);
    if !bucketExists {
      return out, false;
    }
    found := true;
    if max <= 0 {
      return;
    }
    hide Wanted, IsPrefix, Less, EntryOf, Remaining, IsListing, Holding, Entries, ResumeGroup;
    RemainingIs(live, prefix, d, after);
    ghost var all, done: seq<Entry> := Remaining(live, prefix, d, after), [];
    var lastGroup := ResumeGroup(prefix, d, after);
    var count := 0;
    var scanAfter := after;
    NothingHeld(max);
    while true
      invariant AllPrefixed(Wanted(live, prefix, scanAfter), prefix)
      invariant all == done + Entries(Wanted(live, prefix, scanAfter), prefix, d, lastGroup)
      invariant Holding(out, done, max, count)
      decreases |Wanted(live, prefix, scanAfter)|
    {
      ghost var from := scanAfter;
      var batch := Page(live, prefix, scanAfter, ListBatch);
      ghost var w := Wanted(live, prefix, scanAfter);
      assert batch == w[..|batch|] && (|batch| == ListBatch || batch == w);
      var full;
      out, lastGroup, count, full, done := WalkBatch(batch, prefix, d, max, out, lastGroup, count, done, w, all);
      if full {
        return;
      }
      if |batch| < ListBatch {
        assert w[|batch|..] == [];
        NoEntries(prefix, d, lastGroup);
        assert all == done;
        DonePage(out, done, max, count);
        return;
      }
      scanAfter := batch[|batch| - 1];
      WantedAfter(live, prefix, from, |batch|);
    }
  }

  lemma NoEntries(prefix: bytes, d: bytes, last: bytes)
    ensures Entries([], prefix, d, last) == []
  {
  }

  lemma NothingHeld(max: int)
    requires max > 0
    ensures Holding(Listing([], [], false, []), [], max, 0)
  {
  }

  /** One batch: each key is under the group last emitted, or emits its entry, until the page is
      full. */
  method WalkBatch(batch: seq<bytes>, prefix: bytes, d: bytes, max: int, page: Listing, group: bytes, n: int,
                   ghost before: seq<Entry>, ghost w: seq<bytes>, ghost all: seq<Entry>)
    returns (out: Listing, lastGroup: bytes, count: int, full: bool, ghost done: seq<Entry>)
    requires |batch| <= |w| && batch == w[..|batch|] && AllPrefixed(w, prefix) && max > 0 &&
      Holding(page, before, max, n)
    requires all == before + Entries(w, prefix, d, group)
    ensures full ==> IsListing(out, all, max)
    ensures !full ==>
      AllPrefixed(w[|batch|..], prefix) && Holding(out, done, max, count) &&
      all == done + Entries(w[|batch|..], prefix, d, lastGroup)
  {
    hide IsPrefix, EntryOf, Holding, IsListing, Entries;
    out, lastGroup, count, full, done := page, group, n, false, before;
    assert w[0..] == w;
    var i := 0;
    while i < |batch|
      invariant 0 <= i <= |batch| && AllPrefixed(w[i..], prefix)
      invariant all == done + Entries(w[i..], prefix, d, lastGroup)
      invariant Holding(out, done, max, count)
    {
      var k := batch[i];
      assert w[i..][0] == k && w[i..][1..] == w[i + 1..];
      EntriesStep(w[i..], prefix, d, lastGroup);
      if !(lastGroup != [] && IsPrefix(lastGroup, k)) {
        var e := EntryOf(k, prefix, d);
        EntryKey(k, prefix, d);
        HoldingCount(out, done, max, count);
        if count == max {
          FullPage(out, done, max, all);
          out := out.(truncated := true);
          full := true;
          return;
        }
        EmitEntry(out, done, max, count, e);
        if e.Group? {
          out := out.(prefixes := out.prefixes + [e.token], next := e.token);
          lastGroup := e.token;
        } else {
          out := out.(objects := out.objects + [k], next := k);
        }
        done := done + [e];
        count := count + 1;
      }
      i := i + 1;
    }
  }

  lemma EntriesStep(keys: seq<bytes>, prefix: bytes, d: bytes, last: bytes)
    requires keys != [] && AllPrefixed(keys, prefix)
    ensures AllPrefixed(keys[1..], prefix)
    ensures Entries(keys, prefix, d, last) ==
      if last != [] && IsPrefix(last, keys[0]) then Entries(keys[1..], prefix, d, last)
      else
        var e := EntryOf(keys[0], prefix, d);
        [e] + Entries(keys[1..], prefix, d, if e.Group? then e.token else last)
  {
  }

  lemma EntryKey(k: bytes, prefix: bytes, d: bytes)
    requires IsPrefix(prefix, k)
    ensures EntryOf(k, prefix, d).Key? ==> EntryOf(k, prefix, d).token == k
  {
  }

  lemma HoldingCount(out: Listing, done: seq<Entry>, max: int, count: int)
    requires Holding(out, done, max, count)
    ensures |done| == count <= max
  {
  }

  /** The page so far. */
  predicate Holding(out: Listing, done: seq<Entry>, max: int, count: int) {
    && |done| == count <= max && !out.truncated
    && out.objects == KeysIn(done) && out.prefixes == GroupsIn(done)
    && (count > 0 ==> out.next == done[count - 1].token)
  }

  lemma RemainingIs(live: seq<bytes>, prefix: bytes, d: bytes, after: bytes)
    ensures AllPrefixed(Wanted(live, prefix, after), prefix)
    ensures Remaining(live, prefix, d, after) == Entries(Wanted(live, prefix, after), prefix, d,
      ResumeGroup(prefix, d, after))
  {
    WantedPrefixed(live, prefix, after);
  }

  lemma EmitEntry(out: Listing, done: seq<Entry>, max: int, count: int, e: Entry)
    requires Holding(out, done, max, count) && count < max
    ensures Holding(if e.Group? then out.(prefixes := out.prefixes + [e.token], next := e.token)
                    else out.(objects := out.objects + [e.token], next := e.token), done + [e], max, count + 1)
  {
    assert (done + [e])[..|done|] == done;
  }

  lemma FullPage(out: Listing, done: seq<Entry>, max: int, all: seq<Entry>)
    requires Holding(out, done, max, max) && max > 0 && |all| > max && all[..max] == done
    ensures IsListing(out.(truncated := true), all, max)
  {
  }

  lemma DonePage(out: Listing, done: seq<Entry>, max: int, count: int)
    requires Holding(out, done, max, count) && max > 0
    ensures IsListing(out, done, max)
  {
    assert done[..|done|] == done;
  }

  // ---- resuming ----

  /** An ungrouped key that ends with the delimiter and has keys under it: given back as a resume
      point it is taken for a group, and what is under it is skipped. */
  ghost predicate Trap(live: seq<bytes>, prefix: bytes, d: bytes, k: bytes) {
    && k in live && IsPrefix(prefix, k) && GroupOf(k, prefix, d).None? && d != [] && EndsWith(k, d)
    && exists x :: x in live && x != k && IsPrefix(k, x)
  }

  /** The unpaged grouping. */
  function Unpaged(live: seq<bytes>, prefix: bytes, d: bytes): (es: seq<Entry>) {
    Remaining(live, prefix, d, [])
  }

  /** What a listing from a resume point emits, as a set. */
  ghost predicate Emits(live: seq<bytes>, prefix: bytes, d: bytes, after: bytes, e: Entry) {
    exists k :: k in live && IsPrefix(prefix, k) && (after == [] || Less(after, k))
      && !Skipped(k, ResumeGroup(prefix, d, after)) && EntryOf(k, prefix, d) == e
  }

  lemma RemainingSpec(live: seq<bytes>, prefix: bytes, d: bytes, after: bytes)
    requires Ascending(live)
    ensures TokensAscend(Remaining(live, prefix, d, after))
    ensures forall e :: e in Remaining(live, prefix, d, after) <==> Emits(live, prefix, d, after, e)
  {
    var w, last := Wanted(live, prefix, after), ResumeGroup(prefix, d, after);
    WantedPrefixed(live, prefix, after);
    WantedAscends(live, prefix, after);
    forall i | 0 <= i < |w|
      ensures AtMost(last, w[i])
    {
      assert w[i] in w;
    }
    EntriesSpec(w, prefix, d, last);
    hide Wanted, Entries, IsPrefix, Less, EntryOf, Skipped, ResumeGroup;
    forall e
      ensures e in Remaining(live, prefix, d, after) <==> Emits(live, prefix, d, after, e)
    {
      if e in Remaining(live, prefix, d, after) {
        assert Produces(w, prefix, d, last, e);
        var i :| 0 <= i < |w| && !Skipped(w[i], last) && EntryOf(w[i], prefix, d) == e;
        assert w[i] in w;
      }
      if Emits(live, prefix, d, after, e) {
        var k :| k in live && IsPrefix(prefix, k) && (after == [] || Less(after, k)) && !Skipped(k, last) &&
          EntryOf(k, prefix, d) == e;
        assert k in w;
        var i :| 0 <= i < |w| && w[i] == k;
        assert Produces(w, prefix, d, last, e);
      }
    }
  }

  /** In token order, order of tokens is order of places. */
  lemma TokenPlaces(es: seq<Entry>, i: nat, j: nat)
    requires TokensAscend(es) && i < |es| && j < |es|
    ensures Less(es[i].token, es[j].token) <==> i < j
  {
    if i == j {
      Irreflexive(es[i].token);
    } else if j < i {
      Asymmetric(es[j].token, es[i].token);
    }
  }

  /** Entries in token order are determined by which they are. */
  lemma {:induction false} TokensUnique(a: seq<Entry>, b: seq<Entry>, n: nat)
    requires TokensAscend(a) && TokensAscend(b) && (forall e :: e in a <==> e in b) && n <= |a|
    ensures n <= |b| && forall i :: 0 <= i < n ==> a[i] == b[i]
    decreases n
  {
    hide Less;
    if n > 0 {
      TokensUnique(a, b, n - 1);
      NextEntryAgrees(a, b, n - 1);
    }
  }

  lemma NextEntryAgrees(a: seq<Entry>, b: seq<Entry>, i: nat)
    requires TokensAscend(a) && TokensAscend(b) && (forall e :: e in a <==> e in b)
    requires i < |a| && i <= |b| && forall j :: 0 <= j < i ==> a[j] == b[j]
    ensures i < |b| && a[i] == b[i]
  {
    hide Less;
    assert a[i] in b;
    var p :| 0 <= p < |b| && b[p] == a[i];
    if p < i {
      TokenPlaces(a, p, i);
      TokenPlaces(a, i, p);
    } else if i < p {
      TokenPlaces(b, i, p);
      assert b[i] in a;
      var q :| 0 <= q < |a| && a[q] == b[i];
      TokenPlaces(a, q, i);
      TokenPlaces(b, q, i);
      Irreflexive(b[i].token);
    }
  }

  lemma SameEntries(a: seq<Entry>, b: seq<Entry>)
    requires TokensAscend(a) && TokensAscend(b) && forall e :: e in a <==> e in b
    ensures a == b
  {
    hide Less;
    TokensUnique(a, b, |a|);
    TokensUnique(b, a, |b|);
  }

  /** A key whose token is past another's entry, seen from that entry's token. */
  lemma PastToken(k0: bytes, k: bytes, prefix: bytes, d: bytes)
    requires IsPrefix(prefix, k0) && IsPrefix(prefix, k)
    ensures var e0, e := EntryOf(k0, prefix, d), EntryOf(k, prefix, d);
      Less(e0.token, e.token) <==> Less(e0.token, k) && !(e0.Group? && IsPrefix(e0.token, k))
  {
    hide GroupOf;
    var e0, e := EntryOf(k0, prefix, d), EntryOf(k, prefix, d);
    PrefixAtMost(e.token, k);
    if Less(e0.token, e.token) {
      if e.token != k {
        Transitive(e0.token, e.token, k);
      }
      if e0.Group? && IsPrefix(e0.token, k) {
        GroupIsShared(k0, k, prefix, d);
        Irreflexive(e.token);
      }
    } else if Less(e0.token, k) {
      Total(e0.token, e.token);
      TokenBetween(k0, k, prefix, d);
    }
  }

  /** A token at or before another entry's, of a key past it: the same group. */
  lemma TokenBetween(k0: bytes, k: bytes, prefix: bytes, d: bytes)
    requires IsPrefix(prefix, k0) && IsPrefix(prefix, k)
    requires AtMost(EntryOf(k, prefix, d).token, EntryOf(k0, prefix, d).token) && Less(EntryOf(k0, prefix, d).token, k)
    ensures EntryOf(k0, prefix, d).Group? && IsPrefix(EntryOf(k0, prefix, d).token, k)
  {
    hide GroupOf;
    var e0, e := EntryOf(k0, prefix, d), EntryOf(k, prefix, d);
    if !IsPrefix(e.token, e0.token) {
      PastPrefix(e.token, e0.token, k);
    }
    if e.Key? {
      PrefixAtMost(k, e0.token);
      Asymmetric(e0.token, k);
    } else {
      PrefixOfPrefix(e.token, e0.token, k0);
      GroupIsShared(k, k0, prefix, d);
    }
  }

  lemma PrefixOfPrefix(a: bytes, b: bytes, c: bytes)
    requires IsPrefix(a, b) && IsPrefix(b, c)
    ensures IsPrefix(a, c)
  {
    assert c[..|a|] == c[..|b|][..|a|];
  }

  /** Resumed at an entry that is no trap, a listing emits exactly the entries after it. */
  lemma ResumeEmits(live: seq<bytes>, prefix: bytes, d: bytes, k0: bytes, e: Entry)
    requires [] !in live && k0 in live && IsPrefix(prefix, k0) && !Trap(live, prefix, d, k0)
    ensures var t := EntryOf(k0, prefix, d).token; Emits(live, prefix, d, t, e) <==>
      Emits(live, prefix, d, [], e) && Less(t, e.token)
  {
    var e0 := EntryOf(k0, prefix, d);
    var t := e0.token;
    var last := ResumeGroup(prefix, d, t);
    EntryToken(k0, prefix, d);
    assert ResumeGroup(prefix, d, []) == [];
    forall k | k in live && IsPrefix(prefix, k)
      ensures Less(t, k) && !Skipped(k, last) <==> Less(t, EntryOf(k, prefix, d).token)
    {
      PastToken(k0, k, prefix, d);
      if e0.Key? && Less(t, k) {
        Irreflexive(k);
        assert Skipped(k, last) ==> Trap(live, prefix, d, k0);
      }
    }
    hide IsPrefix, Less, EntryOf, ResumeGroup, Trap, GroupOf;
    if Emits(live, prefix, d, t, e) {
      var k :| k in live && IsPrefix(prefix, k) && Less(t, k) && !Skipped(k, last) && EntryOf(k, prefix, d) == e;
      assert !Skipped(k, []);
    }
    if Emits(live, prefix, d, [], e) && Less(t, e.token) {
      var k :| k in live && IsPrefix(prefix, k) && EntryOf(k, prefix, d) == e;
    }
  }

  /** A token as a resume point: a group's is taken for that group. */
  lemma EntryToken(k: bytes, prefix: bytes, d: bytes)
    requires IsPrefix(prefix, k) && k != []
    ensures var e := EntryOf(k, prefix, d);
      && e.token != [] && (e.Group? ==> ResumeGroup(prefix, d, e.token) == e.token)
      && (e.Key? ==> e.token == k && GroupOf(k, prefix, d).None?)
  {
    var g := GroupOf(k, prefix, d);
    if g.Some? {
      GroupEnds(k, prefix, d);
    }
  }

  /** Resuming at an entry that is no trap gives the rest of the unpaged grouping. */
  lemma ResumeGivesRest(live: seq<bytes>, prefix: bytes, d: bytes, n: nat)
    requires Ascending(live) && [] !in live && 0 < n <= |Unpaged(live, prefix, d)|
    requires var e := Unpaged(live, prefix, d)[n - 1]; !(e.Key? && Trap(live, prefix, d, e.token))
    ensures Remaining(live, prefix, d, Unpaged(live, prefix, d)[n - 1].token) == Unpaged(live, prefix, d)[n..]
  {
    var all := Unpaged(live, prefix, d);
    var e0 := all[n - 1];
    RemainingSpec(live, prefix, d, []);
    RemainingSpec(live, prefix, d, e0.token);
    assert e0 in all;
    var k0 :| k0 in live && IsPrefix(prefix, k0) && EntryOf(k0, prefix, d) == e0;
    assert !Trap(live, prefix, d, k0) by {
      EntryToken(k0, prefix, d);
    }
    hide Remaining, IsPrefix, Less, EntryOf, Trap, Emits;
    var rest, got := all[n..], Remaining(live, prefix, d, e0.token);
    assert TokensAscend(rest);
    forall e
      ensures e in rest <==> e in got
    {
      ResumeEmits(live, prefix, d, k0, e);
      AfterPlace(all, n, e);
    }
    SameEntries(got, rest);
  }

  lemma AfterPlace(all: seq<Entry>, n: nat, e: Entry)
    requires TokensAscend(all) && 0 < n <= |all|
    ensures e in all[n..] <==> e in all && Less(all[n - 1].token, e.token)
  {
    hide Less;
    if e in all[n..] {
      var i :| 0 <= i < |all[n..]| && all[n..][i] == e;
      TokenPlaces(all, n - 1, n + i);
    }
    if e in all && Less(all[n - 1].token, e.token) {
      var i :| 0 <= i < |all| && all[i] == e;
      TokenPlaces(all, n - 1, i);
      assert all[n..][i - n] == e;
    }
  }

  /** Traps are ordinary: the empty object a client puts to stand for a folder, listed from inside
      that folder. */
  lemma FolderIsTrap(live: seq<bytes>, folder: bytes, d: bytes, x: bytes)
    requires d != [] && EndsWith(folder, d) && folder in live && x in live && x != folder && IsPrefix(folder, x)
    ensures Trap(live, folder, d, folder)
  {
    assert folder[|folder|..] == [];
  }

  /** Resuming at a trap loses entries. */
  lemma TrapLosesEntries(live: seq<bytes>, prefix: bytes, d: bytes, k: bytes) returns (n: nat)
    requires Ascending(live) && [] !in live && Trap(live, prefix, d, k)
    ensures 0 < n <= |Unpaged(live, prefix, d)| && Unpaged(live, prefix, d)[n - 1] == Key(k)
    ensures Remaining(live, prefix, d, k) != Unpaged(live, prefix, d)[n..]
  {
    var all := Unpaged(live, prefix, d);
    RemainingSpec(live, prefix, d, []);
    RemainingSpec(live, prefix, d, k);
    assert EntryOf(k, prefix, d) == Key(k);
    assert Emits(live, prefix, d, [], Key(k));
    hide Remaining, EntryOf, GroupOf;
    var i :| 0 <= i < |all| && all[i] == Key(k);
    n := i + 1;
    var x :| x in live && x != k && IsPrefix(k, x);
    LostEntry(live, prefix, d, k, x);
    var lost := EntryOf(x, prefix, d);
    assert Emits(live, prefix, d, [], lost);
    AfterPlace(all, n, lost);
  }

  lemma LostEntry(live: seq<bytes>, prefix: bytes, d: bytes, k: bytes, x: bytes)
    requires [] !in live && Trap(live, prefix, d, k) && x in live && x != k && IsPrefix(k, x)
    ensures IsPrefix(prefix, x) && Less(k, EntryOf(x, prefix, d).token)
    ensures !Emits(live, prefix, d, k, EntryOf(x, prefix, d))
  {
    var e := EntryOf2(prefix, k, x, d);
    PrefixAtMost(k, x);
    PastToken(k, x, prefix, d);
    assert ResumeGroup(prefix, d, k) == k;
    if Emits(live, prefix, d, k, e) {
      var y :| y in live && IsPrefix(prefix, y) && Less(k, y) && !Skipped(y, k) && EntryOf(y, prefix, d) == e;
      if e.Group? {
        UnderTrap(k, x, prefix, d);
        PrefixOfPrefix(k, e.token, y);
      }
    }
  }

  lemma EntryOf2(prefix: bytes, k: bytes, x: bytes, d: bytes) returns (e: Entry)
    requires IsPrefix(prefix, k) && IsPrefix(k, x)
    ensures IsPrefix(prefix, x) && e == EntryOf(x, prefix, d)
  {
    PrefixOfPrefix(prefix, k, x);
    e := EntryOf(x, prefix, d);
  }

  /** A key under an ungrouped key is grouped, if at all, under something longer. */
  lemma UnderTrap(k: bytes, x: bytes, prefix: bytes, d: bytes)
    requires IsPrefix(prefix, k) && IsPrefix(k, x) && IsPrefix(prefix, x) && GroupOf(k, prefix, d).None? &&
      EntryOf(x, prefix, d).Group?
    ensures IsPrefix(k, EntryOf(x, prefix, d).token)
  {
    hide GroupOf;
    var g := EntryOf(x, prefix, d).token;
    if |g| <= |k| {
      assert k[..|g|] == x[..|k|][..|g|] == x[..|g|];
      GroupIsShared(x, k, prefix, d);
    } else {
      assert g[..|k|] == x[..|g|][..|k|];
    }
  }

  /** Exactly when paging is faithful: every resume point gives the rest of the unpaged grouping
      if and only if no listed key ends with the delimiter, ungrouped, with keys under it. */
  lemma FaithfulExactlyWithoutTraps(live: seq<bytes>, prefix: bytes, d: bytes)
    requires Ascending(live) && [] !in live
    ensures (forall n :: 0 < n <= |Unpaged(live, prefix, d)| ==>
              Remaining(live, prefix, d, Unpaged(live, prefix, d)[n - 1].token) == Unpaged(live, prefix, d)[n..])
      <==> (forall k :: k in live ==> !Trap(live, prefix, d, k))
  {
    hide Remaining, Trap, EntryOf;
    var all := Unpaged(live, prefix, d);
    if forall k :: k in live ==> !Trap(live, prefix, d, k) {
      forall n | 0 < n <= |all|
        ensures Remaining(live, prefix, d, all[n - 1].token) == all[n..]
      {
        ResumeClean(live, prefix, d, n);
      }
    } else {
      var k :| k in live && Trap(live, prefix, d, k);
      var n := TrapLosesEntries(live, prefix, d, k);
    }
  }

  lemma ResumeClean(live: seq<bytes>, prefix: bytes, d: bytes, n: nat)
    requires Ascending(live) && [] !in live && (forall k :: k in live ==> !Trap(live, prefix, d, k)) &&
      0 < n <= |Unpaged(live, prefix, d)|
    ensures Remaining(live, prefix, d, Unpaged(live, prefix, d)[n - 1].token) == Unpaged(live, prefix, d)[n..]
  {
    hide Remaining, Trap, Unpaged;
    TrapIsLive(live, prefix, d, Unpaged(live, prefix, d)[n - 1].token);
    ResumeGivesRest(live, prefix, d, n);
  }

  lemma TrapIsLive(live: seq<bytes>, prefix: bytes, d: bytes, k: bytes)
    ensures Trap(live, prefix, d, k) ==> k in live
  {
  }

  /** With a one-byte delimiter only a key equal to the prefix can be a trap. */
  lemma OneByteTrap(live: seq<bytes>, prefix: bytes, d: bytes, k: bytes)
    requires |d| == 1 && Trap(live, prefix, d, k)
    ensures k == prefix
  {
    if |k| > |prefix| {
      var tail := k[|prefix|..];
      assert tail[|tail| - 1..|tail| - 1 + |d|] == k[|k| - 1..];
      IndexOfOccurrence(tail, d, |tail| - 1);
    }
    assert k[..|prefix|] == prefix;
  }

  /** Each common prefix is emitted once, and stands for a listed key. */
  lemma GroupsOnce(live: seq<bytes>, prefix: bytes, d: bytes, i: nat, j: nat)
    requires Ascending(live) && i < |Unpaged(live, prefix, d)| && j < |Unpaged(live, prefix, d)|
    ensures Unpaged(live, prefix, d)[i].token == Unpaged(live, prefix, d)[j].token ==> i == j
    ensures exists k :: k in live && IsPrefix(prefix, k) && EntryOf(k, prefix, d) == Unpaged(live, prefix, d)[i]
  {
    var all := Unpaged(live, prefix, d);
    RemainingSpec(live, prefix, d, []);
    TokenPlaces(all, i, j);
    TokenPlaces(all, j, i);
    assert all[i] in all;
  }

  /** A client paging through, in pages of any sizes, ends with the unpaged grouping. */
  method PageThroughGroups(live: seq<bytes>, prefix: bytes, d: bytes, sizes: nat -> int)
    returns (objects: seq<bytes>, prefixes: seq<bytes>)
    requires Ascending(live) && [] !in live && (forall k :: k in live ==> !Trap(live, prefix, d, k)) &&
      forall n :: sizes(n) > 0
    ensures objects == KeysIn(Unpaged(live, prefix, d)) && prefixes == GroupsIn(Unpaged(live, prefix, d))
  {
    ghost var all := Unpaged(live, prefix, d);
    UnpagedIs(live, prefix, d);
    hide Remaining, Trap, Unpaged, KeysIn, GroupsIn, Ascending, IsListing;
    assert all[..0] == [] && all[0..] == all;
    objects, prefixes := [], [];
    NoneIn();
    var after, pages, more := [], 0, true;
    ghost var done := 0;
    while more
      invariant done <= |all| && (more ==> Remaining(live, prefix, d, after) == all[done..])
      invariant objects == KeysIn(all[..done]) && prefixes == GroupsIn(all[..done])
      invariant !more ==> done == |all|
      decreases |all| - done, more
    {
      var page, _ := CollectListing(true, live, prefix, d, after, sizes(pages));
      ghost var n := NextListing(page, all, done, sizes(pages));
      objects, prefixes := objects + page.objects, prefixes + page.prefixes;
      done := done + n;
      more := page.truncated;
      if more {
        ResumeClean(live, prefix, d, done);
        after := page.next;
      }
      pages := pages + 1;
    }
    assert all[..|all|] == all;
  }

  lemma NoneIn()
    ensures KeysIn([]) == [] && GroupsIn([]) == []
  {
  }

  lemma NextListing(page: Listing, all: seq<Entry>, done: nat, max: int) returns (n: nat)
    requires done <= |all| && max > 0 && IsListing(page, all[done..], max)
    ensures done + n <= |all| && (page.truncated ==> n > 0 && page.next == all[done + n - 1].token) &&
      (!page.truncated ==> done + n == |all|)
    ensures KeysIn(all[..done + n]) == KeysIn(all[..done]) + page.objects
    ensures GroupsIn(all[..done + n]) == GroupsIn(all[..done]) + page.prefixes
  {
    n := Min(max, |all| - done);
    JoinEntries(all, done, n);
    assert all[done..][..n] == all[done..done + n];
  }

  lemma UnpagedIs(live: seq<bytes>, prefix: bytes, d: bytes)
    ensures Unpaged(live, prefix, d) == Remaining(live, prefix, d, [])
  {
  }

  lemma JoinEntries(all: seq<Entry>, m: nat, n: nat)
    requires m + n <= |all|
    ensures KeysIn(all[..m + n]) == KeysIn(all[..m]) + KeysIn(all[m..m + n])
    ensures GroupsIn(all[..m + n]) == GroupsIn(all[..m]) + GroupsIn(all[m..m + n])
  {
    ConcatEntries(all[..m], all[m..m + n]);
    assert all[..m] + all[m..m + n] == all[..m + n];
  }

  lemma LastEntry(es: seq<Entry>, e: Entry)
    ensures KeysIn(es + [e]) == KeysIn(es) + (if e.Key? then [e.token] else [])
    ensures GroupsIn(es + [e]) == GroupsIn(es) + (if e.Group? then [e.token] else [])
  {
    assert (es + [e])[..|es|] == es;
  }

  lemma Regroup<T>(a: seq<T>, b: seq<T>, c: seq<T>)
    ensures a + (b + c) == a + b + c
  {
  }

  lemma {:induction false} ConcatEntries(a: seq<Entry>, b: seq<Entry>)
    ensures KeysIn(a + b) == KeysIn(a) + KeysIn(b) && GroupsIn(a + b) == GroupsIn(a) + GroupsIn(b)
    decreases |b|
  {
    if b == [] {
      assert a + b == a;
    } else {
      var front, e := b[..|b| - 1], b[|b| - 1];
      hide KeysIn, GroupsIn;
      ConcatEntries(a, front);
      assert b == front + [e];
      Regroup(a, front, [e]);
      LastEntry(a + front, e);
      LastEntry(front, e);
      Regroup(KeysIn(a), KeysIn(front), if e.Key? then [e.token] else []);
      Regroup(GroupsIn(a), GroupsIn(front), if e.Group? then [e.token] else []);
    }
  }
}
