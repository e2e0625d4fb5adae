/** The fixed-point -ln is the natural logarithm, to within a few units in the last place. The logarithm
    is known by its laws: it turns products into sums and lies below x - 1. */
module PlaceLog {
  import opened Bytes
  import opened Arith
  import opened PlaceScore
  import opened PlaceRank

  // ---- the natural logarithm ----

  ghost predicate IsLn(ln: real -> real) {
    && (forall x: real, y: real :: x > 0.0 && y > 0.0 ==> ln(x * y) == ln(x) + ln(y))
    && (forall x: real :: x > 0.0 ==> ln(x) <= x - 1.0)
  }

  lemma LnProduct(ln: real -> real, x: real, y: real)
    requires IsLn(ln) && x > 0.0 && y > 0.0
    ensures ln(x * y) == ln(x) + ln(y)
  {
  }

  lemma LnProductIs(ln: real -> real, x: real, y: real, z: real)
    requires IsLn(ln) && x > 0.0 && y > 0.0 && z == x * y
    ensures ln(z) == ln(x) + ln(y)
  {
  }

  lemma LnBelow(ln: real -> real, x: real)
    requires IsLn(ln) && x > 0.0
    ensures ln(x) <= x - 1.0
  {
  }

  lemma LnOne(ln: real -> real)
    requires IsLn(ln)
    ensures ln(1.0) == 0.0
  {
    hide IsLn;
    LnProduct(ln, 1.0, 1.0);
  }

  lemma LnQuotient(ln: real -> real, x: real, y: real, q: real)
    requires IsLn(ln) && x > 0.0 && y > 0.0 && q * y == x
    ensures q > 0.0 && ln(q) == ln(x) - ln(y)
  {
    hide IsLn;
    LnProduct(ln, q, y);
  }

  /** Between y and x it grows, and by at most d if x is within y * (1 + d). */
  lemma LnNear(ln: real -> real, x: real, y: real, d: real)
    requires IsLn(ln) && 0.0 < y <= x <= y + d * y
    ensures 0.0 <= ln(x) - ln(y) <= d
  {
    hide IsLn;
    var q, r := x / y, y / x;
    assert q * y == x && r * x == y;
    LnQuotient(ln, x, y, q);
    LnQuotient(ln, y, x, r);
    LnBelow(ln, q);
    LnBelow(ln, r);
    AtMost(q, 1.0 + d, y);
    AtMost(r, 1.0, x);
  }

  lemma AtMost(a: real, b: real, y: real)
    requires y > 0.0 && a * y <= b * y
    ensures a <= b
  {
    if a > b {
      MulGreater(a - b, y);
    }
  }

  lemma MulGreater(a: real, y: real)
    requires a > 0.0 && y > 0.0
    ensures a * y > 0.0
  {
  }

  /** A distance of at most d above something at least 1. */
  lemma LnWithin(ln: real -> real, x: real, y: real, d: real)
    requires IsLn(ln) && 1.0 <= y <= x <= y + d && d >= 0.0
    ensures 0.0 <= ln(x) - ln(y) <= d
  {
    hide IsLn;
    assert d * (y - 1.0) >= 0.0;
    LnNear(ln, x, y, d);
  }

  lemma {:induction false} LnPow2(ln: real -> real, n: nat)
    requires IsLn(ln)
    ensures ln(Pow2(n) as real) == n as real * ln(2.0)
  {
    hide IsLn;
    if n == 0 {
      LnOne(ln);
    } else {
      LnPow2(ln, n - 1);
      LnProduct(ln, 2.0, Pow2(n - 1) as real);
    }
  }

  // ---- ln 2, from squarings ----

  const Unit: nat := 0x1_0000_0000_0000_0000_0000

  /** Roots of 2 in units, rounded down: the 2^36-th, each next the square of the one before, 2 itself. */
  const Roots: seq<nat> := [
    0x1_0000_0000_0b17_217f_7d5a, 0x1_0000_0000_162e_42fe_fb2e, 0x1_0000_0000_2c5c_85fd_f847,
    0x1_0000_0000_58b9_0bfb_f83d,
    0x1_0000_0000_b172_17f8_0f39, 0x1_0000_0001_62e4_2ff0_9970, 0x1_0000_0002_c5c8_5fe3_1edb,
    0x1_0000_0005_8b90_bfcd_eda5,
    0x1_0000_000b_1721_7fba_9b08, 0x1_0000_0016_2e42_fff0_3508, 0x1_0000_002c_5c86_01cc_65f0,
    0x1_0000_0058_b90c_0b48_bb61,
    0x1_0000_00b1_7218_3551_34cc, 0x1_0000_0162_e430_e5a1_61eb, 0x1_0000_02c5_c863_b73e_a678,
    0x1_0000_058b_90cf_1e6c_e220,
    0x1_0000_0b17_21bc_fc98_6e44, 0x1_0000_162e_43f4_f82e_2ea4, 0x1_0000_2c5c_89d5_ec66_f603,
    0x1_0000_58b9_1b5b_c9a2_d141,
    0x1_0000_b172_5577_5bed_4ab7, 0x1_0001_62e5_25ee_0519_dd62, 0x1_0002_c5cc_37da_9436_e253,
    0x1_0005_8ba0_1fb9_f8b7_8e29,
    0x1_000b_175e_ffdc_754e_73fa, 0x1_0016_2f39_0405_1cc9_7f65, 0x1_002c_605e_2e8c_e6a0_9c54,
    0x1_0058_c86d_a1c0_9340_64c6,
    0x1_00b1_afa5_abcb_d696_1017, 0x1_0163_da9f_b333_2922_731d, 0x1_02c9_a3e7_7805_b2fc_34d1,
    0x1_059b_0d31_5856_89d8_7efb,
    0x1_0b55_86cf_988f_7a5a_18b1, 0x1_172b_83c7_d514_948d_765e, 0x1_306f_e0a3_1b6a_90c6_46e9,
    0x1_6a09_e667_f3ac_b626_de59,
    0x1_ffff_ffff_ffd2_895b_0fc9
  ]

  /** b is a squared, rounded down. */
  predicate Squares(a: nat, b: nat) {
    b * Unit <= a * a < (b + 1) * Unit
  }

  lemma RootsFirst(i: nat)
    requires 0 <= i < 9
    ensures Squares(Roots[i], Roots[i + 1])
  {
    assert Squares(Roots[0], Roots[1]);
    assert Squares(Roots[1], Roots[2]);
    assert Squares(Roots[2], Roots[3]);
    assert Squares(Roots[3], Roots[4]);
    assert Squares(Roots[4], Roots[5]);
    assert Squares(Roots[5], Roots[6]);
    assert Squares(Roots[6], Roots[7]);
    assert Squares(Roots[7], Roots[8]);
    assert Squares(Roots[8], Roots[9]);
  }

  lemma RootsSecond(i: nat)
    requires 9 <= i < 18
    ensures Squares(Roots[i], Roots[i + 1])
  {
    assert Squares(Roots[9], Roots[10]);
    assert Squares(Roots[10], Roots[11]);
    assert Squares(Roots[11], Roots[12]);
    assert Squares(Roots[12], Roots[13]);
    assert Squares(Roots[13], Roots[14]);
    assert Squares(Roots[14], Roots[15]);
    assert Squares(Roots[15], Roots[16]);
    assert Squares(Roots[16], Roots[17]);
    assert Squares(Roots[17], Roots[18]);
  }

  lemma RootsThird(i: nat)
    requires 18 <= i < 27
    ensures Squares(Roots[i], Roots[i + 1])
  {
    assert Squares(Roots[18], Roots[19]);
    assert Squares(Roots[19], Roots[20]);
    assert Squares(Roots[20], Roots[21]);
    assert Squares(Roots[21], Roots[22]);
    assert Squares(Roots[22], Roots[23]);
    assert Squares(Roots[23], Roots[24]);
    assert Squares(Roots[24], Roots[25]);
    assert Squares(Roots[25], Roots[26]);
    assert Squares(Roots[26], Roots[27]);
  }

  lemma RootsLast(i: nat)
    requires 27 <= i < 36
    ensures Squares(Roots[i], Roots[i + 1])
  {
    assert Squares(Roots[27], Roots[28]);
    assert Squares(Roots[28], Roots[29]);
    assert Squares(Roots[29], Roots[30]);
    assert Squares(Roots[30], Roots[31]);
    assert Squares(Roots[31], Roots[32]);
    assert Squares(Roots[32], Roots[33]);
    assert Squares(Roots[33], Roots[34]);
    assert Squares(Roots[34], Roots[35]);
    assert Squares(Roots[35], Roots[36]);
  }

  lemma RootsSquare(i: nat)
    requires i < 36
    ensures Squares(Roots[i], Roots[i + 1])
  {
    hide Squares, Roots;
    if i < 9 {
      RootsFirst(i);
    } else if i < 18 {
      RootsSecond(i);
    } else if i < 27 {
      RootsThird(i);
    } else {
      RootsLast(i);
    }
  }

  lemma RootsAboveUnit(i: nat)
    requires i < 37
    ensures Roots[i] >= Unit
  {
  }

  /** a units of u as a number. */
  function Val(a: nat, u: nat): (v: real)
    requires u > 0
    ensures v * u as real == a as real && v >= 0.0
  {
    a as real / u as real
  }

  /** A square rounded down to the unit. */
  lemma SquareNear(ln: real -> real, a: nat, b: nat, u: nat)
    requires IsLn(ln) && u <= b && 0 < u <= a && b * u <= a * a < (b + 1) * u
    ensures ln(Val(b, u)) <= 2.0 * ln(Val(a, u)) <= ln(Val(b, u)) + Val(1, u)
  {
    hide IsLn, Val;
    var x, y, d := Val(a, u), Val(b, u), Val(1, u);
    SquareBracket(x, y, d, a, b, u);
    LnWithin(ln, x * x, y, d);
    AtMost(1.0, x, u as real);
    LnProduct(ln, x, x);
  }

  lemma SquareBracket(x: real, y: real, d: real, a: nat, b: nat, u: nat)
    requires 0 < u <= b && b * u <= a * a < (b + 1) * u
    requires x * u as real == a as real && y * u as real == b as real && d * u as real == 1.0
    ensures 1.0 <= y <= x * x <= y + d && d >= 0.0
  {
    var v := u as real;
    AtMost(1.0, y, v);
    AtMost(0.0, d, v);
    SquareScaled(x, v, a);
    ProductScaled(y, v, b, u);
    assert (y + d) * v == (b + 1) as real;
    ProductScaled(y + d, v, b + 1, u);
    AtMost(y, x * x, v * v);
    AtMost(x * x, y + d, v * v);
  }

  lemma SquareScaled(x: real, v: real, a: nat)
    requires x * v == a as real
    ensures x * x * (v * v) == (a * a) as real
  {
    assert x * x * (v * v) == (x * v) * (x * v);
  }

  lemma ProductScaled(y: real, v: real, b: nat, u: nat)
    requires y * v == b as real && v == u as real
    ensures y * (v * v) == (b * u) as real
  {
    assert y * (v * v) == y * v * v;
  }

  function Root(i: nat): (a: nat)
    requires i <= 36
    ensures a >= Unit
  {
    RootsAboveUnit(i);
    Roots[i]
  }

  lemma RootStep(ln: real -> real, i: nat)
    requires IsLn(ln) && i < 36
    ensures ln(Val(Root(i + 1), Unit)) <= 2.0 * ln(Val(Root(i), Unit)) <= ln(Val(Root(i + 1), Unit)) + Val(1, Unit)
  {
    RootsSquare(i);
    hide IsLn, Val, Roots;
    SquareNear(ln, Root(i), Root(i + 1), Unit);
  }

  /** The logarithms of the roots, each twice the one before up to rounding. */
  lemma {:induction false} RootsDouble(ln: real -> real, n: nat)
    requires IsLn(ln) && n <= 36
    ensures var first, e, p := ln(Val(Root(0), Unit)), Val(1, Unit), Pow2(n) as real;
      p * first - (p - 1.0) * e <= ln(Val(Root(n), Unit)) <= p * first
  {
    hide IsLn, Root, Val;
    if n > 0 {
      RootsDouble(ln, n - 1);
      RootStep(ln, n - 1);
      Doubling(ln(Val(Root(0), Unit)), Val(1, Unit), Pow2(n - 1) as real, ln(Val(Root(n - 1), Unit)),
               ln(Val(Root(n), Unit)));
    }
  }

  lemma Doubling(first: real, e: real, p: real, x: real, y: real)
    requires p * first - (p - 1.0) * e <= x <= p * first && y <= 2.0 * x <= y + e
    ensures (2.0 * p) * first - (2.0 * p - 1.0) * e <= y <= (2.0 * p) * first
  {
  }

  lemma LnAbove(ln: real -> real, x: real, q: real)
    requires IsLn(ln) && x > 0.0 && q * x == 1.0
    ensures ln(x) >= 1.0 - q
  {
    hide IsLn;
    LnOne(ln);
    LnQuotient(ln, 1.0, x, q);
    LnBelow(ln, q);
  }

  lemma RootEnds()
    ensures Root(0) == 0x1_0000_0000_0b17_217f_7d5a && Root(36) == 0x1_ffff_ffff_ffd2_895b_0fc9
  {
  }

  lemma Pow2Of36()
    ensures Pow2(36) == 68719476736
  {
    hide Pow2;
    Pow2Of8();
    Pow2Is();
    Pow2Add(32, 4);
    Pow2Of4();
  }

  lemma Pow2Of4()
    ensures Pow2(4) == 16
  {
  }

  /** The first root's logarithm, and how far the last is from 2. */
  lemma RootLogs(ln: real -> real)
    requires IsLn(ln)
    ensures 0.00000000001008661901223855 <= ln(Val(Root(0), Unit)) <= 0.00000000001008661901234031
    ensures 0.0 <= ln(2.0) - ln(Val(Root(36), Unit)) <= 0.0000000000002
    ensures Val(1, Unit) <= 0.000000000000000000000001
  {
    hide IsLn;
    RootEnds();
    var first, last := Val(Root(0), Unit), Val(Root(36), Unit);
    LnBelow(ln, first);
    LnAbove(ln, first, Unit as real / Root(0) as real);
    LnWithin(ln, 2.0, last, 0.0000000000002);
  }

  /** ln 2 in Q32, to a fiftieth of a unit. */
  lemma LnTwo(ln: real -> real)
    requires IsLn(ln)
    ensures 2977044471.80 <= 4294967296.0 * ln(2.0) <= 2977044471.84
  {
    hide IsLn, Val, Root, Pow2;
    RootsDouble(ln, 36);
    Pow2Of36();
    RootLogs(ln);
  }

  // ---- the bits of a mantissa ----

  /** A Q32 number's logarithm. */
  ghost function LogOf(ln: real -> real, x: nat): real { ln(Val(x, TwoTo32)) }

  lemma ValOrder(a: nat, b: nat, u: nat)
    requires u > 0 && a <= b
    ensures Val(a, u) <= Val(b, u)
  {
    hide Val;
    AtMost(Val(a, u), Val(b, u), u as real);
  }

  lemma ValOne(u: nat)
    requires u > 0
    ensures Val(u, u) == 1.0 && Val(2 * u, u) == 2.0
  {
    hide Val;
    AtMost(Val(u, u), 1.0, u as real);
    AtMost(1.0, Val(u, u), u as real);
    AtMost(Val(2 * u, u), 2.0, u as real);
    AtMost(2.0, Val(2 * u, u), u as real);
  }

  lemma ValSum(a: nat, b: nat, u: nat)
    requires u > 0
    ensures Val(a + b, u) == Val(a, u) + Val(b, u)
  {
    hide Val;
    var v := u as real;
    assert (Val(a, u) + Val(b, u)) * v == Val(a + b, u) * v;
    AtMost(Val(a, u) + Val(b, u), Val(a + b, u), v);
    AtMost(Val(a + b, u), Val(a, u) + Val(b, u), v);
  }

  /** A mantissa's logarithm lies between 0 and ln 2. */
  lemma LogRange(ln: real -> real, x: nat)
    requires IsLn(ln) && TwoTo32 <= x < TwoTo33
    ensures 0.0 <= LogOf(ln, x) <= ln(2.0)
  {
    hide IsLn, Val;
    ValOne(TwoTo32);
    ValOrder(TwoTo32, x, TwoTo32);
    ValOrder(x, TwoTo33, TwoTo32);
    LnOne(ln);
    LnNear(ln, Val(x, TwoTo32), 1.0, 1.0);
    LnNear(ln, 2.0, Val(x, TwoTo32), 1.0);
  }

  /** One bit: twice the logarithm is the bit and the rest's, up to two roundings. */
  lemma BitStep(ln: real -> real, x: nat)
    requires IsLn(ln) && TwoTo32 <= x < TwoTo33
    ensures var known := Bit(x) as real * ln(2.0) + LogOf(ln, Rest(x));
      known <= 2.0 * LogOf(ln, x) <= known + 2.0 * Val(1, TwoTo32)
  {
    hide IsLn, Val, Bit, Rest, Squared, LogOf;
    SquaredNear(x);
    BitRest(x);
    SquaredLog(ln, x);
    if Bit(x) == 1 {
      HalfNear(ln, Squared(x), Rest(x));
    }
  }

  lemma BitRest(x: nat)
    requires TwoTo32 <= Squared(x)
    ensures if Bit(x) == 1 then TwoTo32 <= Rest(x) && 2 * Rest(x) <= Squared(x) <= 2 * Rest(x) + 1
      else Bit(x) == 0 && Rest(x) == Squared(x)
  {
    hide Squared;
  }

  lemma SquaredLog(ln: real -> real, x: nat)
    requires IsLn(ln) && TwoTo32 <= x
    ensures LogOf(ln, Squared(x)) <= 2.0 * LogOf(ln, x) <= LogOf(ln, Squared(x)) + Val(1, TwoTo32)
  {
    hide IsLn, Val, Squared;
    SquaredNear(x);
    SquareNear(ln, x, Squared(x), TwoTo32);
  }

  lemma SquaredNear(x: nat)
    requires TwoTo32 <= x
    ensures TwoTo32 <= Squared(x) && Squared(x) * TwoTo32 <= x * x < (Squared(x) + 1) * TwoTo32
  {
    LeSquare(TwoTo32, x);
    DivMod(x * x, TwoTo32);
  }

  lemma HalfNear(ln: real -> real, s: nat, y: nat)
    requires IsLn(ln) && TwoTo32 <= y && 2 * y <= s <= 2 * y + 1
    ensures ln(2.0) + LogOf(ln, y) <= LogOf(ln, s) <= ln(2.0) + LogOf(ln, y) + Val(1, TwoTo32)
  {
    hide IsLn, Val;
    ValOne(TwoTo32);
    ValOrder(TwoTo32, y, TwoTo32);
    ValSum(y, y, TwoTo32);
    ValSum(2 * y, 1, TwoTo32);
    ValOrder(2 * y, s, TwoTo32);
    ValOrder(s, 2 * y + 1, TwoTo32);
    LnProduct(ln, 2.0, Val(y, TwoTo32));
    LnWithin(ln, Val(s, TwoTo32), 2.0 * Val(y, TwoTo32), Val(1, TwoTo32));
  }

  /** The bits squaring finds are those of the logarithm to base 2, one short at most but for rounding. */
  lemma {:induction false} BitsAreLog(ln: real -> real, x: nat, frac: nat, n: nat)
    requires IsLn(ln) && TwoTo32 <= x < TwoTo33
    ensures var found := FracBits(x, frac, n) as real - frac as real * Pow2(n) as real;
      var p, e := Pow2(n) as real, 2.0 * Val(1, TwoTo32);
      found * ln(2.0) <= p * LogOf(ln, x) <= (found + 1.0) * ln(2.0) + (p - 1.0) * e
    decreases n
  {
    hide IsLn, Val, LogOf, Bit, Rest;
    if n == 0 {
      LogRange(ln, x);
    } else {
      SquareBounds(x);
      BitStep(ln, x);
      BitsAreLog(ln, Rest(x), 2 * frac + Bit(x), n - 1);
      OneBit(FracBits(x, frac, n) as real, frac as real, Bit(x) as real, Pow2(n - 1) as real, ln(2.0),
             2.0 * Val(1, TwoTo32), LogOf(ln, x), LogOf(ln, Rest(x)));
    }
  }

  lemma OneBit(f: real, frac: real, bit: real, p: real, l2: real, e: real, x: real, y: real)
    requires p >= 0.0 && bit * l2 + y <= 2.0 * x <= bit * l2 + y + e
    requires (f - (2.0 * frac + bit) * p) * l2 <= p * y <= (f - (2.0 * frac + bit) * p + 1.0) * l2 + (p - 1.0) * e
    ensures (f - frac * (2.0 * p)) * l2 <= 2.0 * p * x <= (f - frac * (2.0 * p) + 1.0) * l2 + (2.0 * p - 1.0) * e
  {
    Scaled(p, bit * l2 + y, 2.0 * x);
    Scaled(p, 2.0 * x, bit * l2 + y + e);
  }

  lemma Scaled(p: real, a: real, b: real)
    requires p >= 0.0 && a <= b
    ensures p * a <= p * b
  {
    assert p * (b - a) >= 0.0;
  }

  // ---- the whole ----

  /** The logarithm of a Q32 number is that of its units, less 32 doublings. */
  lemma LogOfUnits(ln: real -> real, x: nat)
    requires IsLn(ln) && x > 0
    ensures LogOf(ln, x) == ln(x as real) - 32.0 * ln(2.0)
  {
    hide IsLn, Val;
    LnPow2(ln, 32);
    Pow2Is();
    LnQuotient(ln, x as real, TwoTo32 as real, Val(x, TwoTo32));
  }

  /** A score is its leading bit and its mantissa, up to one rounding. */
  lemma ScoreLog(ln: real -> real, h: nat)
    requires IsLn(ln) && h > 0
    ensures var lead := (BitLen(h) - 1) as real * ln(2.0) + LogOf(ln, Mantissa(h));
      lead <= ln(h as real) <= lead + Val(1, TwoTo32)
  {
    hide IsLn, Val, LogOf, BitLen, Pow2, Mantissa;
    MantissaBounds(h);
    BitLenPositive(h);
    LogOfUnits(ln, Mantissa(h));
    var b, m := BitLen(h), Mantissa(h);
    if b <= 33 {
      MantissaUp(h);
      UpLog(ln, h, m, 33 - b);
      LeadIs(b as real, 33.0 - b as real, ln(2.0), ln(h as real), ln(m as real));
    } else {
      MantissaDown(h);
      DownLog(ln, h, m, b - 33);
      LeadIs(b as real, 33.0 - b as real, ln(2.0), ln(m as real) + (b - 33) as real * ln(2.0), ln(m as real));
    }
  }

  lemma UpLog(ln: real -> real, h: nat, m: nat, n: nat)
    requires IsLn(ln) && h > 0 && m == h * Pow2(n)
    ensures ln(m as real) == ln(h as real) + n as real * ln(2.0)
  {
    hide IsLn, Pow2;
    LnPow2(ln, n);
    var p := Pow2(n);
    CastProduct(h, p);
    LnProductIs(ln, h as real, p as real, m as real);
  }

  lemma DownLog(ln: real -> real, h: nat, m: nat, n: nat)
    requires IsLn(ln) && TwoTo32 <= m && m * Pow2(n) <= h < (m + 1) * Pow2(n)
    ensures var low := ln(m as real) + n as real * ln(2.0); low <= ln(h as real) <= low + Val(1, TwoTo32)
  {
    hide IsLn, Pow2, Val;
    LnPow2(ln, n);
    QuotientLog(ln, h, m, Pow2(n));
  }

  lemma LeadIs(b: real, n: real, l2: real, lh: real, lm: real)
    requires n == 33.0 - b && lm == lh + n * l2
    ensures (b - 1.0) * l2 + (lm - 32.0 * l2) == lh
  {
    assert (33.0 - b) * l2 == 33.0 * l2 - b * l2;
    assert (b - 1.0) * l2 == b * l2 - l2;
  }

  lemma MantissaUp(h: nat)
    requires 1 <= BitLen(h) <= 33 && h > 0
    ensures Mantissa(h) == h * Pow2(33 - BitLen(h))
  {
  }

  lemma MantissaDown(h: nat)
    requires BitLen(h) > 33 && h > 0
    ensures var p := Pow2(BitLen(h) - 33); Mantissa(h) * p <= h < (Mantissa(h) + 1) * p
  {
    DivMod(h, Pow2(BitLen(h) - 33));
  }

  lemma QuotientLog(ln: real -> real, h: nat, m: nat, p: nat)
    requires IsLn(ln) && TwoTo32 <= m && p > 0 && m * p <= h < (m + 1) * p
    ensures ln(m as real) + ln(p as real) <= ln(h as real) <= ln(m as real) + ln(p as real) + Val(1, TwoTo32)
  {
    hide IsLn, Val;
    var e, y := Val(1, TwoTo32), (m * p) as real;
    CastProduct(m, p);
    LnProductIs(ln, m as real, p as real, y);
    NextMultiple(h, m, p);
    UnitCovers(e, m as real, p as real);
    LnNear(ln, h as real, y, e);
  }

  lemma CastProduct(a: nat, b: nat)
    ensures (a * b) as real == a as real * b as real
  {
  }

  lemma NextMultiple(h: nat, m: nat, p: nat)
    requires 0 < p && 0 < m && m * p <= h < (m + 1) * p
    ensures 0.0 < (m * p) as real <= h as real <= (m * p) as real + p as real
  {
    assert (m + 1) * p == m * p + p;
    MulPositive(m, p);
  }

  lemma UnitCovers(e: real, m: real, p: real)
    requires e * TwoTo32 as real == 1.0 && e >= 0.0 && m >= TwoTo32 as real && p >= 0.0
    ensures e * (m * p) >= p
  {
    Scaled(e, TwoTo32 as real, m);
    Scaled(p, 1.0, e * m);
    assert e * (m * p) == p * (e * m);
  }

  /** The negated logarithm of a score in Q32, before it is multiplied by ln 2: at most 4 too large. */
  lemma NegLog2Near(ln: real -> real, h: uint64)
    requires IsLn(ln) && h > 0
    ensures var n := (65 - BitLen(h)) * TwoTo32 - FracBits(Mantissa(h), 0, 32);
      var exact := 4294967296.0 * (64.0 * ln(2.0) - ln(h as real));
      n as real * ln(2.0) - 4.0 <= exact <= n as real * ln(2.0)
  {
    hide IsLn, Val, LogOf, BitLen, Pow2, Mantissa, FracBits;
    MantissaBounds(h);
    ScoreLog(ln, h);
    BitsAreLog(ln, Mantissa(h), 0, 32);
    Pow2Is();
    LnTwo(ln);
    NegLogSum(BitLen(h) as real, FracBits(Mantissa(h), 0, 32) as real, ln(2.0), Val(1, TwoTo32), ln(h as real),
              LogOf(ln, Mantissa(h)));
  }

  lemma NegLogSum(b: real, f: real, l2: real, e: real, lh: real, lm: real)
    requires 4294967296.0 * e == 1.0 && 0.0 <= l2 <= 1.0
    requires (b - 1.0) * l2 + lm <= lh <= (b - 1.0) * l2 + lm + e
    requires f * l2 <= 4294967296.0 * lm <= (f + 1.0) * l2 + 4294967295.0 * (2.0 * e)
    ensures var n := (65.0 - b) * 4294967296.0 - f;
      n * l2 - 4.0 <= 4294967296.0 * (64.0 * l2 - lh) <= n * l2
  {
    var n := (65.0 - b) * 4294967296.0 - f;
    assert n * l2 == 65.0 * 4294967296.0 * l2 - 4294967296.0 * (b * l2) - f * l2;
    assert (b - 1.0) * l2 == b * l2 - l2;
    assert (f + 1.0) * l2 == f * l2 + l2;
  }

  /** Accuracy: for every score, the fixed-point value is -ln(score / 2^64) times 2^32, from one unit below
      to eighteen above. A zero score counts as one. */
  lemma NegLnIsLn(ln: real -> real, score: uint64)
    requires IsLn(ln)
    ensures var h := if score == 0 then 1 else score;
      var exact := 4294967296.0 * (64.0 * ln(2.0) - ln(h as real));
      exact - 1.0 <= NegLn(score) as real <= exact + 18.0
  {
    hide IsLn, BitLen, Mantissa, FracBits, NegLn;
    var h := if score == 0 then 1 else score;
    NegLog2Near(ln, h);
    LnTwo(ln);
    NegLogBounds(h);
    NegLnUnfold(score);
    var n := (65 - BitLen(h)) * TwoTo32 - FracBits(Mantissa(h), 0, 32);
    ScaleNear(n, ln(2.0));
    MulAtLeast(n as real, ln(2.0));
    Clamped(4294967296.0 * (64.0 * ln(2.0) - ln(h as real)), n as real * ln(2.0), n * Ln2Q32 / TwoTo32, NegLn(score));
  }

  lemma MulAtLeast(a: real, b: real)
    requires a >= 0.0 && b >= 0.0
    ensures a * b >= 0.0
  {
  }

  lemma Clamped(exact: real, scaled: real, q: int, r: int)
    requires scaled - 4.0 <= exact <= scaled && scaled - 1.0 <= q as real <= scaled + 12.9 && scaled >= 0.0
    requires r == if q <= 0 then 1 else q
    ensures exact - 1.0 <= r as real <= exact + 18.0
  {
  }

  /** Multiplying by ln 2 in Q32 and dropping the fraction. */
  lemma ScaleNear(n: nat, l2: real)
    requires n <= 64 * TwoTo32 && 2977044471.80 <= 4294967296.0 * l2 <= 2977044471.84
    ensures n as real * l2 - 1.0 <= (n * Ln2Q32 / TwoTo32) as real <= n as real * l2 + 12.9
  {
    var q := n * Ln2Q32 / TwoTo32;
    DivMod(n * Ln2Q32, TwoTo32);
    assert q * TwoTo32 <= n * Ln2Q32 < (q + 1) * TwoTo32;
    ScaleSum(q as real, n as real, n as real * l2, l2);
  }

  lemma ScaleSum(q: real, n: real, nl: real, l2: real)
    requires 0.0 <= n <= 64.0 * 4294967296.0 && 2977044471.80 <= 4294967296.0 * l2 <= 2977044471.84 && nl == n * l2
    requires q * 4294967296.0 <= n * 2977044472.0 < (q + 1.0) * 4294967296.0
    ensures nl - 1.0 <= q <= nl + 12.9
  {
    Scaled(n, 4294967296.0 * l2, 2977044471.84);
    Scaled(n, 2977044471.80, 4294967296.0 * l2);
    assert n * (4294967296.0 * l2) == 4294967296.0 * nl;
  }

  // ---- the ranking ----

  /** -ln(score / 2^64) in Q32, exactly. */
  ghost function Exact(ln: real -> real, score: uint64): real {
    4294967296.0 * (64.0 * ln(2.0) - ln((if score == 0 then 1 else score) as real))
  }

  function Share(n: Node): real { if n.weight == 0 then 1.0 else n.weight as real }

  /** Weighted rendezvous: a node ranks before another whenever its weight over -ln of its score is larger,
      by more than the rounding of the two logarithms. */
  lemma RankIsWeighted(ln: real -> real, score: Score, a: Node, b: Node)
    requires IsLn(ln) && ValidNode(a) && ValidNode(b)
    requires Share(a) * (Exact(ln, score(b.id)) - 1.0) > Share(b) * (Exact(ln, score(a.id)) + 18.0)
    ensures Before(Rank(score, a), Rank(score, b))
  {
    hide IsLn, NegLn, Exact;
    var x, y := Rank(score, a), Rank(score, b);
    NegLnExact(ln, score(a.id));
    NegLnExact(ln, score(b.id));
    LargerKey(x.weight, y.weight, x.negln, y.negln, Exact(ln, score(a.id)), Exact(ln, score(b.id)));
  }

  lemma NegLnExact(ln: real -> real, score: uint64)
    requires IsLn(ln)
    ensures Exact(ln, score) - 1.0 <= NegLn(score) as real <= Exact(ln, score) + 18.0
  {
    hide IsLn, NegLn;
    NegLnIsLn(ln, score);
  }

  lemma LargerKey(wa: nat, wb: nat, na: nat, nb: nat, xa: real, xb: real)
    requires wa as real * (xb - 1.0) > wb as real * (xa + 18.0)
    requires na as real <= xa + 18.0 && xb - 1.0 <= nb as real
    ensures wa * nb > wb * na
  {
    Scaled(wa as real, xb - 1.0, nb as real);
    Scaled(wb as real, na as real, xa + 18.0);
    CastProduct(wa, nb);
    CastProduct(wb, na);
  }
}
