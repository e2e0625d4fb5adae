/** Version IDs: 16 bytes read as a big-endian 128-bit integer, their order, and the
    increment that makes commit order beat clock order. */
module MetaVid {
  import opened Bytes
  import opened Lex
  import opened Arith

  const TwoTo128 := 0x1_0000_0000_0000_0000_0000_0000_0000_0000

  /** A version ID as the integer it stands for. */
  type vid = x: int | 0 <= x < TwoTo128

  const IdLen := 16

  function Pow256(n: nat): (p: nat)
    ensures p >= 1
  {
    if n == 0 then 1 else 256 * Pow256(n - 1)
  }

  /** The big-endian value of a byte string. */
  function Value(b: bytes): (v: nat) {
    if b == [] then 0
    else
      MulNonNegative(b[0] as int, Pow256(|b| - 1));
      b[0] as int * Pow256(|b| - 1) + Value(b[1..])
  }

  function ToBytes(v: nat, n: nat): (b: bytes)
    requires v < Pow256(n)
    ensures |b| == n
    decreases n
  {
    if n == 0 then []
    else
      LeadingDigit(v, Pow256(n - 1));
      [(v / Pow256(n - 1)) as byte] + ToBytes(v % Pow256(n - 1), n - 1)
  }

  lemma LeadingDigit(v: nat, p: nat)
    requires p > 0 && v < 256 * p
    ensures 0 <= v / p < 256 && 0 <= v % p < p && v == v / p * p + v % p
  {
    DivMod(v, p);
    DivBounds(v, p, 0, 256);
  }

  lemma {:induction false} ValueBound(b: bytes)
    ensures Value(b) < Pow256(|b|)
  {
    if b != [] {
      ValueBound(b[1..]);
      LeMul(b[0] as int, 255, Pow256(|b| - 1));
    }
  }

  /** Writing the value back gives the bytes. */
  lemma {:induction false} BytesOfValue(b: bytes)
    ensures Value(b) < Pow256(|b|) && ToBytes(Value(b), |b|) == b
  {
    ValueBound(b);
    if b != [] {
      var p := Pow256(|b| - 1);
      ValueBound(b[1..]);
      BytesOfValue(b[1..]);
      DigitAndRest(b[0] as int, Value(b[1..]), p);
    }
  }

  lemma DigitAndRest(d: nat, r: nat, p: nat)
    requires r < p
    ensures (d * p + r) / p == d && (d * p + r) % p == r
  {
    var v := d * p + r;
    MulNonNegative(d, p);
    DivMod(v, p);
    DivBounds(v, p, d, d + 1);
  }

  lemma {:induction false} ValueOfBytes(v: nat, n: nat)
    requires v < Pow256(n)
    ensures Value(ToBytes(v, n)) == v
    decreases n
  {
    if n > 0 {
      var p := Pow256(n - 1);
      LeadingDigit(v, p);
      ValueOfBytes(v % p, n - 1);
      assert ToBytes(v, n)[1..] == ToBytes(v % p, n - 1);
    }
  }

  lemma {:induction false} ValueConcat(a: bytes, b: bytes)
    ensures Value(a + b) == Value(a) * Pow256(|b|) + Value(b)
  {
    if a == [] {
      assert a + b == b;
    } else {
      ValueConcat(a[1..], b);
      assert (a + b)[1..] == a[1..] + b;
      PowAdd(|a| - 1, |b|);
      Distribute(a[0] as int, Pow256(|a| - 1), Value(a[1..]), Pow256(|b|));
    }
  }

  lemma Distribute(d: int, p: int, r: int, q: int)
    ensures (d * p + r) * q == d * (p * q) + r * q
  {
  }

  lemma {:induction false} PowAdd(a: nat, b: nat)
    ensures Pow256(a + b) == Pow256(a) * Pow256(b)
  {
    if a > 0 {
      PowAdd(a - 1, b);
      Distribute(256, Pow256(a - 1), 0, Pow256(b));
    }
  }

  lemma IdRange()
    ensures Pow256(IdLen) == TwoTo128
  {
    assert Pow256(1) == 256 * Pow256(0);
    hide Pow256;
    PowAdd(1, 1);
    PowAdd(2, 2);
    PowAdd(4, 4);
    PowAdd(8, 8);
  }

  /** Byte order on IDs is integer order. */
  lemma {:induction false} LessIsValueOrder(a: bytes, b: bytes)
    requires |a| == |b|
    ensures Less(a, b) <==> Value(a) < Value(b)
  {
    if a != [] {
      LessIsValueOrder(a[1..], b[1..]);
      ValueBound(a[1..]);
      ValueBound(b[1..]);
      var p := Pow256(|a| - 1);
      var x, y := a[0] as int, b[0] as int;
      assert Value(a) == x * p + Value(a[1..]) && Value(b) == y * p + Value(b[1..]);
      hide Value, Pow256;
      if x < y {
        HeadDecides(x, y, p, Value(a[1..]), Value(b[1..]));
      } else if y < x {
        HeadDecides(y, x, p, Value(b[1..]), Value(a[1..]));
      }
    }
  }

  lemma HeadDecides(x: int, y: int, p: nat, rx: nat, ry: nat)
    requires x < y && rx < p
    ensures x * p + rx < y * p + ry
  {
    LeMul(x + 1, y, p);
  }

  lemma {:induction false} ValueOfNines(n: nat, b: bytes)
    requires |b| == n && forall i :: 0 <= i < n ==> b[i] == 255
    ensures Value(b) == Pow256(n) - 1
  {
    if n > 0 {
      ValueOfNines(n - 1, b[1..]);
    }
  }

  lemma {:induction false} ValueOfZeros(n: nat, b: bytes)
    requires |b| == n && forall i :: 0 <= i < n ==> b[i] == 0
    ensures Value(b) == 0
  {
    if n > 0 {
      ValueOfZeros(n - 1, b[1..]);
    }
  }

  lemma OneByte(d: byte)
    ensures Value([d]) == d as int && Pow256(1) == 256
  {
    assert Pow256(1) == 256 * Pow256(0);
  }

  /** Adding one turns a run of 0xff into zeros and carries into the byte before it. */
  lemma Carry(p: bytes, d: byte, nines: bytes, zeros: bytes)
    requires d < 255 && |nines| == |zeros|
    requires forall i :: 0 <= i < |nines| ==> nines[i] == 255 && zeros[i] == 0
    ensures Value(p + [d + 1] + zeros) == Value(p + [d] + nines) + 1
  {
    hide Value, Pow256;
    var n := |nines|;
    ValueOfNines(n, nines);
    ValueOfZeros(n, zeros);
    ValueConcat(p + [d], nines);
    ValueConcat(p + [d + 1], zeros);
    ValueConcat(p, [d]);
    ValueConcat(p, [d + 1]);
    OneByte(d);
    OneByte(d + 1);
    OneMore(Value(p + [d]), Pow256(n));
  }

  lemma OneMore(v: int, p: int)
    ensures (v + 1) * p == v * p + p
  {
  }

  lemma CarryAt(v: bytes, a: bytes, i: nat)
    requires |v| == |a| == IdLen && i < IdLen && v[i] < 255 && a[i] == v[i] + 1
    requires (forall j :: 0 <= j < i ==> a[j] == v[j]) && forall j :: i < j < IdLen ==> a[j] == 0 && v[j] == 255
    ensures Value(a) == Value(v) + 1 < TwoTo128
  {
    hide Pow256, Value;
    assert v == v[..i] + [v[i]] + v[i + 1..];
    assert a == v[..i] + [v[i] + 1] + a[i + 1..];
    Carry(v[..i], v[i], v[i + 1..], a[i + 1..]);
    ValueBound(a);
    IdRange();
  }

  /** The carry loop. It wraps to zero exactly at the all-ones ID. */
  method Next(v: bytes) returns (r: bytes)
    requires |v| == IdLen
    ensures |r| == IdLen
    ensures Value(r) == (Value(v) + 1) % TwoTo128
  {
    hide Pow256, Value;
    var a := new byte[IdLen](i requires 0 <= i < IdLen => v[i]);
    var i := IdLen - 1;
    ValueBound(v);
    IdRange();
    while i >= 0
      invariant -1 <= i < IdLen
      invariant forall j :: 0 <= j <= i ==> a[j] == v[j]
      invariant forall j :: i < j < IdLen ==> a[j] == 0 && v[j] == 255
    {
      a[i] := if v[i] == 255 then 0 else v[i] + 1;
      if a[i] != 0 {
        CarryAt(v, a[..], i);
        return a[..];
      }
      i := i - 1;
    }
    ValueOfNines(IdLen, v);
    ValueOfZeros(IdLen, a[..]);
    r := a[..];
  }

  /** The bumped ID sorts after the old one, unless it wrapped. */
  lemma NextSortsAfter(v: bytes, r: bytes)
    requires |v| == |r| == IdLen && Value(r) == (Value(v) + 1) % TwoTo128
    ensures Less(v, r) <==> Value(v) + 1 < TwoTo128
  {
    LessIsValueOrder(v, r);
    ValueBound(v);
    IdRange();
  }

  function Complement(b: bytes): (c: bytes)
    ensures |c| == |b| && forall i :: 0 <= i < |b| ==> c[i] == 255 - b[i]
  {
    seq(|b|, i requires 0 <= i < |b| => 255 - b[i])
  }

  /** The complement reverses the order, and undoes itself. */
  lemma {:induction false} ComplementValue(b: bytes)
    ensures Value(Complement(b)) == Pow256(|b|) - 1 - Value(b)
    ensures Complement(Complement(b)) == b
  {
    if b != [] {
      ComplementValue(b[1..]);
      assert Complement(b)[1..] == Complement(b[1..]);
      assert Pow256(|b|) == 256 * Pow256(|b| - 1);
    }
  }

  /** The 16 bytes of an ID. */
  function IdBytes(v: vid): (b: bytes)
    ensures |b| == IdLen
  {
    IdRange();
    ToBytes(v, IdLen)
  }

  lemma IdBytesValue(v: vid)
    ensures Value(IdBytes(v)) == v
  {
    IdRange();
    ValueOfBytes(v, IdLen);
  }

  function IdFrom(b: bytes): (v: vid)
    requires |b| == IdLen
    ensures IdBytes(v) == b
  {
    IdRange();
    BytesOfValue(b);
    Value(b)
  }

  /** Incrementing the bytes increments the ID. */
  lemma NextId(v: vid, r: bytes)
    requires |r| == IdLen && Value(r) == (Value(IdBytes(v)) + 1) % TwoTo128
    ensures IdFrom(r) == (v + 1) % TwoTo128
  {
    hide Value, IdBytes;
    IdBytesValue(v);
  }

  /** What an ID looks like in a version row: complemented, so newest sorts first. */
  function Reversed(v: vid): (b: bytes)
    ensures |b| == IdLen
  {
    Complement(IdBytes(v))
  }

  lemma NewestSortsFirst(a: vid, b: vid)
    ensures Less(Reversed(a), Reversed(b)) <==> a > b
    ensures Reversed(a) == Reversed(b) ==> a == b
  {
    LessIsValueOrder(Reversed(a), Reversed(b));
    ComplementValue(IdBytes(a));
    ComplementValue(IdBytes(b));
    IdBytesValue(a);
    IdBytesValue(b);
  }
}
