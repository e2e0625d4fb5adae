/** Byte strings in the order Go compares them. */
module Lex {
  import opened Bytes

  /** Strictly before, byte by byte; a proper prefix comes first. */
  predicate Less(a: bytes, b: bytes) {
    b != [] && (a == [] || a[0] < b[0] || (a[0] == b[0] && Less(a[1..], b[1..])))
  }

  predicate AtMost(a: bytes, b: bytes) {
    a == b || Less(a, b)
  }

  lemma {:induction false} Irreflexive(a: bytes)
    ensures !Less(a, a)
  {
    if a != [] {
      Irreflexive(a[1..]);
    }
  }

  lemma {:induction false} Transitive(a: bytes, b: bytes, c: bytes)
    requires Less(a, b) && Less(b, c)
    ensures Less(a, c)
  {
    if a != [] && a[0] == b[0] == c[0] {
      Transitive(a[1..], b[1..], c[1..]);
    }
  }

  lemma {:induction false} Total(a: bytes, b: bytes)
    ensures Less(a, b) || Less(b, a) || a == b
  {
    if a != [] && b != [] && a[0] == b[0] {
      Total(a[1..], b[1..]);
      assert a == [a[0]] + a[1..] && b == [b[0]] + b[1..];
    }
  }

  lemma Asymmetric(a: bytes, b: bytes)
    requires Less(a, b)
    ensures !Less(b, a) && a != b
  {
    Irreflexive(a);
    if Less(b, a) {
      Transitive(a, b, a);
    }
  }

  /** A common prefix does not matter. */
  lemma {:induction false} SamePrefix(p: bytes, a: bytes, b: bytes)
    ensures Less(p + a, p + b) <==> Less(a, b)
  {
    if p != [] {
      SamePrefix(p[1..], a, b);
      assert (p + a)[1..] == p[1..] + a && (p + b)[1..] == p[1..] + b;
    } else {
      assert p + a == a && p + b == b;
    }
  }

  /** Extending the right side keeps it the larger. */
  lemma {:induction false} LessExtend(a: bytes, b: bytes, t: bytes)
    requires Less(a, b)
    ensures Less(a, b + t)
  {
    if a != [] && a[0] == b[0] {
      LessExtend(a[1..], b[1..], t);
      assert (b + t)[1..] == b[1..] + t;
    }
  }

  /** A string that is before another and not its prefix stays before it whatever is
      appended to either. */
  lemma {:induction false} LessDiverges(a: bytes, b: bytes, s: bytes, t: bytes)
    requires Less(a, b) && !IsPrefix(a, b)
    ensures Less(a + s, b + t)
  {
    if a[0] == b[0] {
      PrefixTail(a, b);
      LessDiverges(a[1..], b[1..], s, t);
      assert (a + s)[1..] == a[1..] + s && (b + t)[1..] == b[1..] + t;
    }
  }

  /** With equal heads, being a prefix is decided by the tails. */
  lemma PrefixTail(a: bytes, b: bytes)
    requires a != [] && b != [] && a[0] == b[0]
    ensures IsPrefix(a, b) <==> IsPrefix(a[1..], b[1..])
  {
    if |a| <= |b| {
      assert b[..|a|] == [b[0]] + b[1..][..|a| - 1];
      assert a == [a[0]] + a[1..];
    }
  }

  lemma {:induction false} PrefixAtMost(p: bytes, s: bytes)
    requires IsPrefix(p, s)
    ensures AtMost(p, s)
  {
    if p != [] {
      assert p[1..] == s[1..][..|p| - 1];
      PrefixAtMost(p[1..], s[1..]);
      assert p == [p[0]] + p[1..] && s == [s[0]] + s[1..];
    }
  }
}
