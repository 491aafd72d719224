/** Exact multiplication by powers of ten over the rationals, for the
    exponents of numeric literals and the scale of decimals. `Shift(x, k)` is
    x * 10^k, computed one factor of ten (or one tenth) at a time. */
module PowersOfTen {
  import opened Digits

  /** x * 10^k */
  function Shift(x: real, k: int): real
    decreases if k >= 0 then k else -k
  {
    if k == 0 then x
    else if k > 0 then 10.0 * Shift(x, k - 1)
    else 0.1 * Shift(x, k + 1)
  }

  /** One more factor of ten on the outside. */
  lemma {:induction false} ShiftStep(x: real, k: int)
    ensures Shift(x, k + 1) == 10.0 * Shift(x, k)
  {
    if k < 0 {
      assert Shift(x, k) == 0.1 * Shift(x, k + 1);
    }
  }

  lemma {:induction false} ShiftAdd(x: real, y: real, k: int)
    ensures Shift(x + y, k) == Shift(x, k) + Shift(y, k)
    decreases if k >= 0 then k else -k
  {
    if k > 0 {
      ShiftAdd(x, y, k - 1);
    } else if k < 0 {
      ShiftAdd(x, y, k + 1);
    }
  }

  lemma {:induction false} ShiftNegate(x: real, k: int)
    ensures Shift(-x, k) == -Shift(x, k)
    decreases if k >= 0 then k else -k
  {
    if k > 0 {
      ShiftNegate(x, k - 1);
    } else if k < 0 {
      ShiftNegate(x, k + 1);
    }
  }

  lemma {:induction false} ShiftZero(k: int)
    ensures Shift(0.0, k) == 0.0
    decreases if k >= 0 then k else -k
  {
    if k > 0 {
      ShiftZero(k - 1);
    } else if k < 0 {
      ShiftZero(k + 1);
    }
  }

  /** Shifting by a and then by b is shifting by a + b. */
  lemma {:induction false} ShiftShift(x: real, a: int, b: int)
    ensures Shift(Shift(x, a), b) == Shift(x, a + b)
    decreases if b >= 0 then b else -b
  {
    if b > 0 {
      ShiftShift(x, a, b - 1);
      ShiftStep(x, a + b - 1);
    } else if b < 0 {
      ShiftShift(x, a, b + 1);
      ShiftStep(x, a + b);
    }
  }

  lemma {:induction false} ShiftMonotone(x: real, y: real, k: int)
    requires x < y
    ensures Shift(x, k) < Shift(y, k)
    decreases if k >= 0 then k else -k
  {
    if k > 0 {
      ShiftMonotone(x, y, k - 1);
    } else if k < 0 {
      ShiftMonotone(x, y, k + 1);
    }
  }

  lemma {:induction false} ShiftNonNegative(x: real, k: int)
    requires x >= 0.0
    ensures Shift(x, k) >= 0.0
    decreases if k >= 0 then k else -k
  {
    if k > 0 {
      ShiftNonNegative(x, k - 1);
    } else if k < 0 {
      ShiftNonNegative(x, k + 1);
    }
  }

  /** The integer power `Pow10` agrees with shifting one. */
  lemma {:induction false} Pow10IsShift(k: nat)
    ensures Pow10(k) as real == Shift(1.0, k)
  {
    if k > 0 {
      Pow10IsShift(k - 1);
    }
  }

  function RealPow10(k: int): (r: real)
    ensures r > 0.0
    decreases if k >= 0 then k else -k
  {
    if k == 0 then 1.0 else if k > 0 then 10.0 * RealPow10(k - 1) else 0.1 * RealPow10(k + 1)
  }

  /** `Shift` is multiplication by the power of ten. */
  lemma {:induction false} ShiftIsProduct(x: real, k: int)
    ensures Shift(x, k) == x * RealPow10(k)
    decreases if k >= 0 then k else -k
  {
    if k > 0 {
      ShiftIsProduct(x, k - 1);
      FactorMoves(10.0, x, RealPow10(k - 1));
    } else if k < 0 {
      ShiftIsProduct(x, k + 1);
      FactorMoves(0.1, x, RealPow10(k + 1));
    }
  }

  lemma FactorMoves(c: real, x: real, y: real)
    ensures c * (x * y) == x * (c * y)
  {
  }
}
