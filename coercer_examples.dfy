/** The documented examples of the String coercer and its `to_decimal` test
    table, as instances of the general properties. */
module CoercerExamples {
  import opened CoercionResult
  import opened NumericLiteral
  import opened NumericValue
  import opened IntegerText
  import opened StringCoercer
  import opened CoercerProperties
  import opened PowersOfTen

  /** A sign before the dot is turned away. */
  lemma GrammarRejectsSignedFraction()
    ensures !IsNumeric("-.1") && !IsNumeric("+.1")
  {
    if IsNumeric("-.1") { NumericShape("-.1"); }
    if IsNumeric("+.1") { NumericShape("+.1"); }
  }

  /** A dot or an exponent marker without digits after it is turned away. */
  lemma GrammarRejectsMissingDigits()
    ensures !IsNumeric("1.") && !IsNumeric("1.0e") && !IsNumeric(".")
  {
    if IsNumeric("1.") { NumericShape("1."); }
    if IsNumeric("1.0e") { NumericShape("1.0e"); }
    if IsNumeric(".") { NumericShape("."); }
  }

  /** Words, the empty string and surrounding blanks are turned away. */
  lemma GrammarRejectsOtherText()
    ensures !IsNumeric("") && !IsNumeric("non-decimal") && !IsNumeric(" 1") && !IsNumeric("1 ")
  {
    if IsNumeric("") { NumericShape(""); }
    if IsNumeric("non-decimal") { NumericShape("non-decimal"); }
    if IsNumeric(" 1") { NumericShape(" 1"); }
    if IsNumeric("1 ") { NumericShape("1 "); }
  }

  /** Leading zeros and a fraction with no integer part are accepted. */
  lemma GrammarAccepts()
    ensures IsNumeric("007")
    ensures IsNumeric(".1E-1")
  {
    var a := IntegerForm(NoSign, "007", None, None);
    assert Render(a) == "007";
    ParseComplete(a);
    var b := FractionForm("1", Some(Exponent('E', Minus, "1")));
    assert Render(b) == ".1E-1";
    ParseComplete(b);
  }

  predicate DecimalIs(value: string, x: real)
  {
    var r := Default().ToDecimal(value);
    r.Ok? && r.value.Value() == x
  }

  lemma DecimalExample(l: Literal, value: string, x: real)
    requires WellFormed(l) && Render(l) == value && LiteralValue(l) == x
    ensures DecimalIs(value, x)
  {
    ToDecimalOfLiteral(Default(), l);
  }

  /** The rows `1`, `+1` and `-1` of the `to_decimal` table. */
  lemma ToDecimalSignedOne(sign: Sign)
    ensures DecimalIs(SignText(sign) + "1", ApplySignReal(sign, 1.0))
  {
    var t := IntegerForm(sign, "1", None, None);
    assert Render(t) == SignText(sign) + "1";
    assert RealDigitsValue("1") == 1.0;
    assert FractionValue("") == 0.0;
    DecimalExample(t, SignText(sign) + "1", ApplySignReal(sign, 1.0));
  }

  /** The rows `1.0`, `+1.0` and `-1.0`. */
  lemma ToDecimalSignedOnePointZero(sign: Sign)
    ensures DecimalIs(SignText(sign) + "1.0", ApplySignReal(sign, 1.0))
  {
    var t := IntegerForm(sign, "1", Some("0"), None);
    assert Render(t) == SignText(sign) + "1.0";
    assert RealDigitsValue("1") == 1.0;
    assert RealDigitsValue("0") == 0.0 by { assert "0"[..0] == []; }
    ShiftZero(-1);
    assert FractionValue("0") == 0.0;
    DecimalExample(t, SignText(sign) + "1.0", ApplySignReal(sign, 1.0));
  }

  /** The twelve rows `[-+]?1.0[eE][-+]1`: ten times one for `+1`, a tenth
      of one for `-1`. */
  lemma ToDecimalSignedScientific(sign: Sign, marker: char, expSign: Sign)
    requires marker == 'e' || marker == 'E'
    requires expSign != NoSign
    ensures DecimalIs(SignText(sign) + "1.0" + [marker] + SignText(expSign) + "1",
                      ApplySignReal(sign, if expSign == Plus then 10.0 else 0.1))
  {
    var t := IntegerForm(sign, "1", Some("0"), Some(Exponent(marker, expSign, "1")));
    assert Render(t) == SignText(sign) + "1.0" + [marker] + SignText(expSign) + "1";
    assert RealDigitsValue("1") == 1.0;
    assert RealDigitsValue("0") == 0.0 by { assert "0"[..0] == []; }
    ShiftZero(-1);
    assert FractionValue("0") == 0.0;
    DecimalExample(t, Render(t), ApplySignReal(sign, if expSign == Plus then 10.0 else 0.1));
  }

  /** The row `.1`. */
  lemma ToDecimalFraction()
    ensures DecimalIs(".1", 0.1)
  {
    var t := FractionForm("1", None);
    assert Render(t) == ".1";
    assert RealDigitsValue("1") == 1.0;
    DecimalExample(t, ".1", 0.1);
  }

  /** The rows `.1[eE][-+]1`: one for `+1`, a hundredth for `-1`. */
  lemma ToDecimalFractionScientific(marker: char, expSign: Sign)
    requires marker == 'e' || marker == 'E'
    requires expSign != NoSign
    ensures DecimalIs("." + "1" + [marker] + SignText(expSign) + "1", if expSign == Plus then 1.0 else 0.01)
  {
    var t := FractionForm("1", Some(Exponent(marker, expSign, "1")));
    assert Render(t) == "." + "1" + [marker] + SignText(expSign) + "1";
    assert RealDigitsValue("1") == 1.0;
    DecimalExample(t, Render(t), if expSign == Plus then 1.0 else 0.01);
  }

  lemma ToDecimalRejects()
    ensures Default().ToDecimal("non-decimal") == Unsupported("non-decimal", DecimalCoercion)
    ensures Default().ToFloat("-.1") == Unsupported("-.1", FloatCoercion)
  {
    GrammarRejectsOtherText();
    GrammarRejectsSignedFraction();
  }

  /** `to_integer('1')`, the documented example, takes the fast path. */
  lemma ToIntegerOne()
    ensures Default().ToInteger("1") == Ok(1)
  {
    ToIntegerFastPath(Default(), 1);
  }

  lemma IntegerExample(l: Literal, value: string, n: int)
    requires WellFormed(l) && Render(l) == value && TruncateTowardZero(LiteralValue(l)) == n
    ensures Default().ToInteger(value) == Ok(n)
  {
    ToIntegerOfLiteral(Default(), l);
  }

  /** The exponent is applied before truncating. */
  lemma ToIntegerScientific()
    ensures Default().ToInteger("1e3") == Ok(1000)
  {
    var t := IntegerForm(NoSign, "1", None, Some(Exponent('e', NoSign, "3")));
    assert Render(t) == "1e3";
    assert RealDigitsValue("1") == 1.0;
    assert ExponentValue(t.exponent) == 3;
    assert LiteralValue(t) == 1000.0;
    IntegerExample(t, "1e3", 1000);
  }

  lemma ToIntegerPlusSign()
    ensures Default().ToInteger("+1") == Ok(1)
  {
    var t := IntegerForm(Plus, "1", None, None);
    assert Render(t) == "+1";
    assert RealDigitsValue("1") == 1.0;
    assert LiteralValue(t) == 1.0;
    IntegerExample(t, "+1", 1);
  }

  /** Truncation is toward zero, not down. */
  lemma ToIntegerTruncates()
    ensures Default().ToInteger("-1.9") == Ok(-1)
  {
    var t := IntegerForm(Minus, "1", Some("9"), None);
    assert Render(t) == "-1.9";
    assert RealDigitsValue("1") == 1.0;
    assert RealDigitsValue("9") == 9.0 by { assert "9"[..0] == []; }
    assert Shift(9.0, -1) == 0.9;
    assert FractionValue("9") == 0.9;
    assert LiteralValue(t) == -1.9;
    IntegerExample(t, "-1.9", -1);
  }

  /** Leading zeros are not canonical text, but the fallback still reads them. */
  lemma ToIntegerLeadingZeros()
    ensures Default().ToInteger("007") == Ok(7)
  {
    var t := IntegerForm(NoSign, "007", None, None);
    assert Render(t) == "007";
    assert "007"[..2] == "00" && "00"[..1] == "0" && "0"[..0] == [];
    assert RealDigitsValue("007") == 7.0;
    assert LiteralValue(t) == 7.0;
    IntegerExample(t, "007", 7);
  }

  /** `-0` is not canonical text; the fallback gives zero. */
  lemma ToIntegerNegativeZero()
    ensures Default().ToInteger("-0") == Ok(0)
  {
    var t := IntegerForm(Minus, "0", None, None);
    assert Render(t) == "-0";
    assert RealDigitsValue("0") == 0.0 by { assert "0"[..0] == []; }
    assert LiteralValue(t) == 0.0;
    IntegerExample(t, "-0", 0);
  }

  /** A non-numeric string fails as `to_integer`. */
  lemma ToIntegerRejects()
    ensures Default().ToInteger("abc") == Unsupported("abc", IntegerCoercion)
  {
    assert !IsNumeric("abc");
    ToIntegerSpec(Default(), "abc");
  }
}
