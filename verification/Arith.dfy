/** Nonlinear facts, each small enough to prove on its own. */
module Arith {

  lemma MulPositive(a: int, b: int)
    requires a > 0 && b > 0
    ensures a * b > 0
  {
  }

  lemma MulNonNegative(a: int, b: int)
    requires a >= 0 && b >= 0
    ensures a * b >= 0
  {
  }

  lemma LeMul(a: int, b: int, c: int)
    requires a <= b && c >= 0
    ensures a * c <= b * c
  {
  }

  lemma LtMul(a: int, b: int, c: int)
    requires a < b && c > 0
    ensures a * c < b * c
  {
  }

  lemma DivMod(a: int, d: int)
    requires a >= 0 && d > 0
    ensures a == a / d * d + a % d && 0 <= a % d < d && a / d >= 0
  {
  }

  lemma LeSquare(a: int, b: int)
    requires 0 <= a <= b
    ensures a * a <= b * b
  {
    LeMul(a, b, a);
    LeMul(a, b, b);
  }

  lemma DivBounds(h: int, p: int, lo: int, hi: int)
    requires p > 0 && 0 <= h && lo * p <= h < hi * p
    ensures lo <= h / p < hi
  {
    DivMod(h, p);
    if h / p >= hi {
      LeMul(hi, h / p, p);
      assert false;
    } else if h / p < lo {
      LeMul(h / p + 1, lo, p);
      assert false;
    }
  }

  lemma DivMonotone(a: int, b: int, p: int)
    requires 0 <= a <= b && p > 0
    ensures a / p <= b / p
  {
    DivMod(a, p);
    DivMod(b, p);
    if a / p > b / p {
      LeMul(b / p + 1, a / p, p);
      assert false;
    }
  }
}
