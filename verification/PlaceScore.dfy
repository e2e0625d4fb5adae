/** The integer weighted-rendezvous key: -ln of a 64-bit score in fixed point, and the
    exact comparison of weight/-ln keys. */
module PlaceScore {
  import opened Bytes
  import opened Arith

  const TwoTo32 := 0x1_0000_0000
  const TwoTo33 := 0x2_0000_0000

  /** ln(2) in Q32 fixed point. */
  const Ln2Q32 := 2977044472

  function Pow2(n: nat): (p: nat)
    ensures p >= 1
  {
    if n == 0 then 1 else 2 * Pow2(n - 1)
  }

  /** How many bits a number needs. */
  function BitLen(h: nat): (n: nat) {
    if h == 0 then 0 else 1 + BitLen(h / 2)
  }

  function Shifted(h: nat, p: nat): nat {
    MulNonNegative(h, p);
    h * p
  }

  function Quotient(h: nat, p: nat): nat
    requires p > 0
  {
    DivMod(h, p);
    h / p
  }

  /** The top 33 bits of h, as a Q32 number in [1, 2). */
  function Mantissa(h: nat): (m: nat)
    requires h > 0
  {
    var bl := BitLen(h);
    if bl - 1 <= 32 then Shifted(h, Pow2(33 - bl))
    else Quotient(h, Pow2(bl - 33))
  }

  /** The mantissa squared, still in Q32: in [1, 4). */
  function Squared(x: nat): (y: nat) {
    MulNonNegative(x, x);
    x * x / TwoTo32
  }

  /** The next bit of log2 by squaring. */
  function Bit(x: nat): (b: nat)
    ensures b <= 1
  {
    if Squared(x) >= TwoTo33 then 1 else 0
  }

  /** The mantissa left after that bit. */
  function Rest(x: nat): (y: nat) {
    if Squared(x) >= TwoTo33 then Squared(x) / 2 else Squared(x)
  }

  /** The first n fraction bits of log2(x), appended to `frac`. */
  function FracBits(x: nat, frac: nat, n: nat): (f: nat)
    decreases n
  {
    if n == 0 then frac else FracBits(Rest(x), 2 * frac + Bit(x), n - 1)
  }

  /** -ln(h / 2^64) in Q32 fixed point, at least 1; a zero score counts as one. */
  function NegLn(h: uint64): nat {
    var g := if h == 0 then 1 else h;
    var negLog2 := (65 - BitLen(g)) * TwoTo32 - FracBits(Mantissa(g), 0, 32);
    var r := negLog2 * Ln2Q32 / TwoTo32;
    if r <= 0 then 1 else r
  }

  // ---- 64-bit arithmetic ----

  /** bits.Mul64: the 128-bit product as two words. */
  function Mul64(a: uint64, b: uint64): (r: (uint64, uint64))
    ensures a * b == r.0 * TwoTo64 + r.1
  {
    ProductBound(a, b);
    (a * b / TwoTo64, a * b % TwoTo64)
  }

  lemma ProductBound(a: uint64, b: uint64)
    ensures 0 <= a * b < TwoTo64 * TwoTo64
  {
    MulNonNegative(a, b);
    LeMul(a, TwoTo64 - 1, b);
  }

  /** (hi:lo) >> 32 as the source computes it, the left shift dropping high bits. */
  function Shift32(hi: uint64, lo: uint64): uint64 {
    hi * TwoTo32 % TwoTo64 + lo / TwoTo32
  }

  /** Nothing is dropped when the shifted product fits a word. */
  lemma ShiftExact(a: uint64, b: uint64)
    requires a * b < TwoTo64 * TwoTo32
    ensures Shift32(Mul64(a, b).0, Mul64(a, b).1) == a * b / TwoTo32
  {
  }

  lemma {:induction false} BitLenBounds(h: nat)
    requires h > 0
    ensures Pow2(BitLen(h) - 1) <= h < Pow2(BitLen(h))
  {
    if h > 1 {
      BitLenBounds(h / 2);
    } else {
      assert BitLen(1) == 1 + BitLen(0);
    }
  }

  lemma {:induction false} Pow2Add(a: nat, b: nat)
    ensures Pow2(a + b) == Pow2(a) * Pow2(b)
  {
    if a > 0 {
      Pow2Add(a - 1, b);
      assert Pow2(a + b) == 2 * (Pow2(a - 1) * Pow2(b));
    }
  }

  lemma {:induction false} Pow2Monotone(a: nat, b: nat)
    requires a <= b
    ensures Pow2(a) <= Pow2(b)
  {
    if a < b {
      Pow2Monotone(a, b - 1);
    }
  }

  lemma BitLenPositive(h: nat)
    requires h > 0
    ensures BitLen(h) >= 1
  {
  }

  lemma BitLenAtMost64(h: uint64)
    ensures BitLen(h) <= 64
  {
    if BitLen(h) > 64 {
      BitLenBounds(h);
      Pow2Monotone(64, BitLen(h) - 1);
      Pow2Is();
      assert false;
    }
  }

  lemma Pow2Of8()
    ensures Pow2(1) == 2 && Pow2(8) == 256
  {
  }

  lemma Pow2Is()
    ensures Pow2(32) == TwoTo32 && Pow2(33) == TwoTo33 && Pow2(64) == TwoTo64
  {
    hide Pow2;
    Pow2Of8();
    Pow2Add(8, 8);
    Pow2Add(16, 16);
    Pow2Add(1, 32);
    Pow2Add(32, 32);
  }

  lemma {:induction false} BitLenMonotone(a: nat, b: nat)
    requires a <= b
    ensures BitLen(a) <= BitLen(b)
  {
    if a > 0 {
      BitLenMonotone(a / 2, b / 2);
    }
  }

  /** The normalized mantissa lies in [2^32, 2^33). */
  lemma MantissaBounds(h: nat)
    requires h > 0
    ensures TwoTo32 <= Mantissa(h) < TwoTo33
  {
    assert BitLen(h) >= 1;
    hide Pow2, BitLen;
    BitLenBounds(h);
    if BitLen(h) - 1 <= 32 {
      ScaledUp(h, BitLen(h));
    } else {
      ScaledDown(h, BitLen(h));
    }
  }

  lemma ScaledUp(h: nat, bl: nat)
    requires 1 <= bl <= 33 && Pow2(bl - 1) <= h < Pow2(bl)
    ensures TwoTo32 <= h * Pow2(33 - bl) < TwoTo33
  {
    hide Pow2;
    Pow2Is();
    Pow2Add(bl - 1, 33 - bl);
    Pow2Add(bl, 33 - bl);
    LeMul(Pow2(bl - 1), h, Pow2(33 - bl));
    LtMul(h, Pow2(bl), Pow2(33 - bl));
  }

  lemma ScaledDown(h: nat, bl: nat)
    requires bl > 33 && Pow2(bl - 1) <= h < Pow2(bl)
    ensures TwoTo32 <= h / Pow2(bl - 33) < TwoTo33
  {
    hide Pow2;
    Pow2Is();
    Pow2Add(32, bl - 33);
    Pow2Add(33, bl - 33);
    DivBounds(h, Pow2(bl - 33), TwoTo32, TwoTo33);
  }

  lemma MantissaMonotone(a: nat, b: nat)
    requires 0 < a <= b && BitLen(a) == BitLen(b)
    ensures Mantissa(a) <= Mantissa(b)
  {
    var bl := BitLen(a);
    if bl - 1 <= 32 {
      LeMul(a, b, Pow2(33 - bl));
    } else {
      DivMonotone(a, b, Pow2(bl - 33));
    }
  }

  lemma SquareBounds(x: nat)
    requires TwoTo32 <= x < TwoTo33
    ensures x * x < TwoTo64 * 4 && TwoTo32 <= Rest(x) < TwoTo33
  {
    LeSquare(x, TwoTo33 - 1);
    LeSquare(TwoTo32, x);
    DivBounds(x * x, TwoTo32, TwoTo32, 2 * TwoTo33);
  }

  lemma {:induction false} FracBitsBounds(x: nat, frac: nat, n: nat)
    requires TwoTo32 <= x < TwoTo33
    ensures frac * Pow2(n) <= FracBits(x, frac, n) < (frac + 1) * Pow2(n)
    decreases n
  {
    if n > 0 {
      SquareBounds(x);
      FracBitsBounds(Rest(x), 2 * frac + Bit(x), n - 1);
      Bracket(frac, Bit(x), Pow2(n - 1));
    }
  }

  lemma Bracket(frac: nat, bit: nat, p: nat)
    requires bit <= 1
    ensures frac * (2 * p) <= (2 * frac + bit) * p && (2 * frac + bit + 1) * p <= (frac + 1) * (2 * p)
  {
    assert (2 * frac + bit) * p == frac * (2 * p) + bit * p;
    assert (2 * frac + bit + 1) * p == (frac + 1) * (2 * p) - (1 - bit) * p;
    MulNonNegative(bit, p);
    MulNonNegative(1 - bit, p);
  }

  /** A larger mantissa never has a smaller log2 fraction: the first bit to differ decides. */
  lemma {:induction false} FracBitsMonotone(x: nat, y: nat, frac: nat, n: nat)
    requires TwoTo32 <= x <= y < TwoTo33
    ensures FracBits(x, frac, n) <= FracBits(y, frac, n)
    decreases n
  {
    if n > 0 {
      SquareBounds(x);
      SquareBounds(y);
      LeSquare(x, y);
      DivMonotone(x * x, y * y, TwoTo32);
      if Bit(x) == Bit(y) {
        FracBitsMonotone(Rest(x), Rest(y), 2 * frac + Bit(x), n - 1);
      } else {
        FracBitsBounds(Rest(x), 2 * frac + Bit(x), n - 1);
        FracBitsBounds(Rest(y), 2 * frac + Bit(y), n - 1);
      }
    }
  }

  /** What -log2 is multiplied by ln(2). */
  lemma NegLogBounds(h: uint64)
    requires h > 0
    ensures 0 <= FracBits(Mantissa(h), 0, 32) < TwoTo32
    ensures 0 < (65 - BitLen(h)) * TwoTo32 - FracBits(Mantissa(h), 0, 32) <= 64 * TwoTo32
  {
    hide FracBits, Mantissa, BitLen, Pow2;
    BitLenPositive(h);
    MantissaBounds(h);
    FracBitsBounds(Mantissa(h), 0, 32);
    Pow2Is();
    BitLenAtMost64(h);
  }

  /** A larger score never has a larger -ln: with equal weights the ranking is the bare
      score order. */
  lemma NegLnAntitone(a: uint64, b: uint64)
    requires a <= b
    ensures NegLn(b) <= NegLn(a)
  {
    hide FracBits, Mantissa, BitLen;
    var g, h := if a == 0 then 1 else a, if b == 0 then 1 else b;
    NegLogBounds(g);
    NegLogBounds(h);
    BitLenMonotone(g, h);
    MantissaBounds(g);
    MantissaBounds(h);
    var ng := (65 - BitLen(g)) * TwoTo32 - FracBits(Mantissa(g), 0, 32);
    var nh := (65 - BitLen(h)) * TwoTo32 - FracBits(Mantissa(h), 0, 32);
    if BitLen(g) == BitLen(h) {
      MantissaMonotone(g, h);
      FracBitsMonotone(Mantissa(g), Mantissa(h), 0, 32);
    }
    assert nh <= ng;
    DivMonotone(nh * Ln2Q32, ng * Ln2Q32, TwoTo32);
  }

  lemma NegLnBounds(h: uint64)
    ensures 1 <= NegLn(h) <= 64 * Ln2Q32
  {
    hide FracBits, Mantissa, BitLen;
    var g := if h == 0 then 1 else h;
    NegLogBounds(g);
    var n := (65 - BitLen(g)) * TwoTo32 - FracBits(Mantissa(g), 0, 32);
    DivMonotone(n * Ln2Q32, 64 * TwoTo32 * Ln2Q32, TwoTo32);
    assert 64 * TwoTo32 * Ln2Q32 / TwoTo32 == 64 * Ln2Q32;
  }

  /** The loop as the source runs it, in 64-bit words throughout: no intermediate value ever
      leaves its word. */
  method ComputeNegLn(score: uint64) returns (res: uint64)
    ensures res == NegLn(score) && res >= 1
  {
    hide NegLn, FracBits, BitLen, Mantissa, Shift32, Mul64, Pow2;
    var h: uint64 := if score == 0 then 1 else score;
    BitLenAtMost64(h);
    var bl := BitLen(h);
    MantissaBounds(h);
    var x: uint64 := Mantissa(h);
    var frac: uint64 := 0;
    Pow2Is();
    Pow2Of8();
    var i := 0;
    while i < 32
      invariant 0 <= i <= 32 && TwoTo32 <= x < TwoTo33
      invariant FracBits(x, frac, 32 - i) == FracBits(Mantissa(h), 0, 32)
      invariant frac < Pow2(i)
    {
      SquareBounds(x);
      UnfoldFracBits(x, frac, 32 - i);
      var (hi, lo) := Mul64(x, x);
      ShiftExact(x, x);
      x := Shift32(hi, lo);
      Pow2Add(1, i);
      Pow2Monotone(i + 1, 64);
      frac := 2 * frac;
      if x >= TwoTo33 {
        x := x / 2;
        frac := frac + 1;
      }
      i := i + 1;
    }
    NegLogBounds(h);
    UnfoldFracBits(x, frac, 0);
    var negLog2: uint64 := (65 - bl) * TwoTo32 - frac;
    assert negLog2 * Ln2Q32 <= 64 * TwoTo32 * Ln2Q32;
    var (hi, lo) := Mul64(negLog2, Ln2Q32);
    ShiftExact(negLog2, Ln2Q32);
    res := Shift32(hi, lo);
    if res == 0 {
      res := 1;
    }
    NegLnUnfold(score);
  }

  lemma UnfoldFracBits(x: nat, frac: nat, n: nat)
    ensures FracBits(x, frac, n) == if n == 0 then frac else FracBits(Rest(x), 2 * frac + Bit(x), n - 1)
  {
  }

  lemma NegLnUnfold(h: uint64)
    ensures var g := if h == 0 then 1 else h;
      var r := ((65 - BitLen(g)) * TwoTo32 - FracBits(Mantissa(g), 0, 32)) * Ln2Q32 / TwoTo32;
      NegLn(h) == if r <= 0 then 1 else r
  {
  }
}
