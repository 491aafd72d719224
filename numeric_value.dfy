/** The exact value of a matched numeric literal. `to_decimal` parses it into
    a BigDecimal, an unscaled integer with a power-of-ten exponent; `to_float`
    is modelled by the exact rational value, with no binary rounding. */
module NumericValue {
  import opened Digits
  import opened NumericLiteral
  import opened CoercionResult
  import opened PowersOfTen

  /** A leading `-` negates; `+` and no sign leave the value as it is. */
  function ApplySign(s: Sign, n: int): int
  {
    if s == Minus then -n else n
  }

  function ApplySignReal(s: Sign, x: real): real
  {
    if s == Minus then -x else x
  }

  /** The signed integer written after `e` or `E`, zero when there is none. */
  function ExponentValue(e: Option<Exponent>): int
    requires OptExponentWellFormed(e)
  {
    match e
    case None => 0
    case Some(x) => ApplySign(x.sign, DigitsValue(x.digits))
  }

  /** The value of a digit string, over the rationals. */
  function RealDigitsValue(s: string): real
    requires AllDigits(s)
  {
    if s == [] then 0.0 else 10.0 * RealDigitsValue(s[..|s| - 1]) + DigitValue(s[|s| - 1]) as real
  }

  lemma {:induction false} RealDigitsValueIsDigitsValue(s: string)
    requires AllDigits(s)
    ensures RealDigitsValue(s) == DigitsValue(s) as real
  {
    if s != [] {
      RealDigitsValueIsDigitsValue(s[..|s| - 1]);
    }
  }

  /** The value of the digits after the dot: `0.ds`, that is ds * 10^-|ds|. */
  function FractionValue(ds: string): (r: real)
    requires AllDigits(ds)
    ensures 0.0 <= r < 1.0
  {
    FractionBelowOne(ds);
    Shift(RealDigitsValue(ds), -|ds|)
  }

  lemma FractionBelowOne(ds: string)
    requires AllDigits(ds)
    ensures 0.0 <= Shift(RealDigitsValue(ds), -|ds|) < 1.0
  {
    DigitsValueBound(ds);
    RealDigitsValueIsDigitsValue(ds);
    Pow10IsShift(|ds|);
    ShiftMonotone(RealDigitsValue(ds), Shift(1.0, |ds|), -|ds|);
    ShiftShift(1.0, |ds|, -|ds|);
    ShiftNonNegative(RealDigitsValue(ds), -|ds|);
  }

  function FractionDigits(f: Option<string>): string
  {
    match f
    case None => ""
    case Some(ds) => ds
  }

  /** sign * (integer digits + 0.fraction digits) * 10^exponent */
  function LiteralValue(l: Literal): real
    requires WellFormed(l)
  {
    match l
    case IntegerForm(sign, integer, fraction, exponent) =>
      ApplySignReal(sign,
        Shift(RealDigitsValue(integer) + FractionValue(FractionDigits(fraction)), ExponentValue(exponent)))
    case FractionForm(digits, exponent) =>
      Shift(FractionValue(digits), ExponentValue(exponent))
  }

  /** An arbitrary-precision decimal: `unscaled * 10^exponent`. */
  datatype Decimal = Decimal(unscaled: int, exponent: int)
  {
    function Value(): real
    {
      Shift(unscaled as real, exponent)
    }
  }

  /** The BigDecimal a matched literal parses to: all digits of the integer
      and fraction parts form the unscaled value, and the exponent is lowered
      by the number of fraction digits. */
  function LiteralDecimal(l: Literal): Decimal
    requires WellFormed(l)
  {
    match l
    case IntegerForm(sign, integer, fraction, exponent) =>
      AllDigitsAppend(integer, FractionDigits(fraction));
      Decimal(ApplySign(sign, DigitsValue(integer + FractionDigits(fraction))),
              ExponentValue(exponent) - |FractionDigits(fraction)|)
    case FractionForm(digits, exponent) =>
      Decimal(DigitsValue(digits), ExponentValue(exponent) - |digits|)
  }

  /** `DigitsValueAppend` over the rationals. */
  lemma {:induction false} RealDigitsValueAppend(a: string, b: string)
    requires AllDigits(a) && AllDigits(b)
    ensures AllDigits(a + b)
    ensures RealDigitsValue(a + b) == Shift(RealDigitsValue(a), |b|) + RealDigitsValue(b)
  {
    AllDigitsAppend(a, b);
    if b == [] {
      assert a + b == a;
    } else {
      var b' := b[..|b| - 1];
      assert (a + b)[..|a + b| - 1] == a + b';
      assert (a + b)[|a + b| - 1] == b[|b| - 1];
      RealDigitsValueAppend(a, b');
      ShiftStep(RealDigitsValue(a), |b'|);
    }
  }

  /** The unsigned core of `LiteralDecimalValue`: reading the fraction digits
      into the unscaled value and lowering the exponent by their count. */
  lemma UnsignedShift(integer: string, f: string, e: int)
    requires AllDigits(integer) && AllDigits(f)
    ensures AllDigits(integer + f)
    ensures Shift(RealDigitsValue(integer + f), e - |f|)
            == Shift(RealDigitsValue(integer) + FractionValue(f), e)
  {
    var a, b, m := RealDigitsValue(integer), RealDigitsValue(f), |f|;
    RealDigitsValueAppend(integer, f);
    ShiftAdd(Shift(a, m), b, e - m);
    ShiftShift(a, m, e - m);
    ShiftShift(b, -m, e);
    ShiftAdd(a, Shift(b, -m), e);
  }

  lemma SignedCast(sign: Sign, n: int)
    ensures ApplySign(sign, n) as real == ApplySignReal(sign, n as real)
  {
  }

  /** The BigDecimal that `to_decimal` builds and the exact value that
      `to_float` stands for are the same number. */
  lemma LiteralDecimalValue(l: Literal)
    requires WellFormed(l)
    ensures LiteralDecimal(l).Value() == LiteralValue(l)
  {
    match l
    case IntegerForm(sign, integer, fraction, exponent) =>
      var f := FractionDigits(fraction);
      var e := ExponentValue(exponent);
      UnsignedShift(integer, f, e);
      RealDigitsValueIsDigitsValue(integer + f);
      var x := DigitsValue(integer + f) as real;
      SignedCast(sign, DigitsValue(integer + f));
      if sign == Minus {
        ShiftNegate(x, e - |f|);
      }
    case FractionForm(digits, exponent) =>
      UnsignedShift("", digits, ExponentValue(exponent));
      assert "" + digits == digits;
      assert RealDigitsValue("") == 0.0;
      RealDigitsValueIsDigitsValue(digits);
  }

  /** `Float#to_i`: the integer part, rounding toward zero. */
  function TruncateTowardZero(x: real): (n: int)
    ensures x >= 0.0 ==> n as real <= x < n as real + 1.0
    ensures x < 0.0 ==> n as real - 1.0 < x <= n as real
  {
    if x >= 0.0 then x.Floor else -((-x).Floor)
  }

  /** Without an exponent, truncation keeps exactly the signed integer digits:
      the fraction never carries into them. */
  lemma TruncateWithoutExponent(sign: Sign, integer: string, fraction: Option<string>)
    requires WellFormed(IntegerForm(sign, integer, fraction, None))
    ensures TruncateTowardZero(LiteralValue(IntegerForm(sign, integer, fraction, None)))
            == ApplySign(sign, DigitsValue(integer))
  {
    var i: int := DigitsValue(integer);
    RealDigitsValueIsDigitsValue(integer);
    var v := RealDigitsValue(integer) + FractionValue(FractionDigits(fraction));
    assert i as real <= v < i as real + 1.0;
    assert LiteralValue(IntegerForm(sign, integer, fraction, None)) == ApplySignReal(sign, v);
    if sign == Minus {
      assert TruncateTowardZero(-v) == -i;
    } else {
      assert TruncateTowardZero(v) == i;
    }
  }
}
