/** What the String coercer promises, proved over every input, and the
    documented examples and test table as instances. */
module CoercerProperties {
  import opened AsciiCase
  import opened CoercionResult
  import opened NumericLiteral
  import opened NumericValue
  import opened IntegerText
  import opened StringCoercer

  // ---------------------------------------------------------------------
  // The default boolean map

  const DefaultPairs: seq<(string, bool)> :=
    [("1", true), ("on", true), ("t", true), ("true", true), ("y", true), ("yes", true),
     ("0", false), ("off", false), ("f", false), ("false", false), ("n", false), ("no", false)]

  lemma DefaultPairsAre()
    ensures PairWith(TrueValues, true) + PairWith(FalseValues, false) == DefaultPairs
  {
  }

  /** Each of the twelve keys is in the map with its own value. */
  lemma DefaultBooleanMapEntries()
    ensures forall i :: 0 <= i < |DefaultPairs| ==>
      DefaultPairs[i].0 in BooleanMap && BooleanMap[DefaultPairs[i].0] == DefaultPairs[i].1
  {
    DefaultPairsAre();
    forall i | 0 <= i < |DefaultPairs|
      ensures DefaultPairs[i].0 in BooleanMap && BooleanMap[DefaultPairs[i].0] == DefaultPairs[i].1
    {
      HashFromPairsLast(DefaultPairs, i);
    }
  }

  lemma DefaultBooleanMapKeys()
    ensures forall k :: k in BooleanMap <==> k in TrueValues || k in FalseValues
  {
    DefaultPairsAre();
    DefaultBooleanMapEntries();
    forall k | k in BooleanMap
      ensures k in TrueValues || k in FalseValues
    {
      var i :| 0 <= i < |DefaultPairs| && DefaultPairs[i].0 == k;
      if i < 6 {
        assert TrueValues[i] == k;
      } else {
        assert FalseValues[i - 6] == k;
      }
    }
    forall k | k in TrueValues || k in FalseValues
      ensures k in BooleanMap
    {
      if k in TrueValues {
        var i :| 0 <= i < 6 && TrueValues[i] == k;
        assert DefaultPairs[i].0 == k;
      } else {
        var i :| 0 <= i < 6 && FalseValues[i] == k;
        assert DefaultPairs[i + 6].0 == k;
      }
    }
  }

  /** `TRUE_VALUES` map to true and `FALSE_VALUES` to false; no key is in both. */
  lemma DefaultBooleanMapValues()
    ensures forall k :: k in TrueValues ==> k in BooleanMap && BooleanMap[k]
    ensures forall k :: k in FalseValues ==> k in BooleanMap && !BooleanMap[k]
    ensures forall k :: !(k in TrueValues && k in FalseValues)
  {
    DefaultPairsAre();
    DefaultBooleanMapEntries();
    forall k | k in TrueValues ensures k in BooleanMap && BooleanMap[k] {
      var i :| 0 <= i < 6 && TrueValues[i] == k;
      assert DefaultPairs[i] == (k, true);
    }
    forall k | k in FalseValues ensures k in BooleanMap && !BooleanMap[k] {
      var i :| 0 <= i < 6 && FalseValues[i] == k;
      assert DefaultPairs[i + 6] == (k, false);
    }
  }

  /** The twelve keys are distinct and all lower-case. */
  lemma DefaultKeysDistinctLowerCase()
    ensures forall i, j :: 0 <= i < j < |DefaultPairs| ==> DefaultPairs[i].0 != DefaultPairs[j].0
    ensures forall k :: k in BooleanMap ==> IsLowerCase(k)
  {
    DefaultBooleanMapKeys();
  }

  // ---------------------------------------------------------------------
  // to_boolean

  /** The lookup is of the lower-cased value, with no partial matching: a
      value whose lower-cased text is not a key fails as `to_boolean`. */
  lemma ToBooleanSpec(c: Coercer, value: string)
    ensures c.ToBoolean(value).Ok? <==> Downcase(value) in c.booleanMap
    ensures c.ToBoolean(value).Ok? ==> c.ToBoolean(value).value == c.booleanMap[Downcase(value)]
    ensures c.ToBoolean(value).Unsupported? ==> c.ToBoolean(value) == Unsupported(value, BooleanCoercion)
  {
  }

  /** Two values that lower-case alike coerce alike. */
  lemma ToBooleanCaseInsensitive(c: Coercer, v: string, w: string)
    requires Downcase(v) == Downcase(w)
    ensures c.ToBoolean(v).Ok? == c.ToBoolean(w).Ok?
    ensures c.ToBoolean(v).Ok? ==> c.ToBoolean(v).value == c.ToBoolean(w).value
  {
  }

  /** With the default map: true exactly for a case variant of a true key,
      false exactly for a case variant of a false key, and a failure otherwise. */
  lemma DefaultToBoolean(value: string)
    ensures Default().ToBoolean(value) == Ok(true) <==> Downcase(value) in TrueValues
    ensures Default().ToBoolean(value) == Ok(false) <==> Downcase(value) in FalseValues
    ensures Default().ToBoolean(value) == Unsupported(value, BooleanCoercion)
            <==> Downcase(value) !in TrueValues && Downcase(value) !in FalseValues
  {
    DefaultBooleanMapKeys();
    DefaultBooleanMapValues();
  }

  /** Any upper- or lower-case spelling of a key gives that key's value. */
  lemma DefaultKeyVariants(value: string, key: string)
    requires key in TrueValues || key in FalseValues
    requires Downcase(value) == key
    ensures Default().ToBoolean(value) == Ok(key in TrueValues)
    ensures Default().ToBoolean(Upcase(key)) == Ok(key in TrueValues)
  {
    DefaultBooleanMapKeys();
    DefaultBooleanMapValues();
    DefaultKeysDistinctLowerCase();
    DowncaseOfUpcase(key);
    DowncaseOfLowerCase(key);
  }

  /** The documented examples: `'T'` gives true and `'F'` gives false. */
  lemma ToBooleanDocumentedExamples()
    ensures Default().ToBoolean("T") == Ok(true)
    ensures Default().ToBoolean("F") == Ok(false)
  {
    assert Downcase("T") == "t";
    DefaultKeyVariants("T", "t");
    assert Downcase("F") == "f";
    DefaultKeyVariants("F", "f");
  }

  /** The all-capitals spelling of a key gives that key's value. */
  lemma ToBooleanUpperCaseWord()
    ensures Default().ToBoolean("TRUE") == Ok(true)
    ensures Default().ToBoolean("NO") == Ok(false)
  {
    DowncaseOfLowerCase("true");
    DefaultKeyVariants("true", "true");
    assert Upcase("true") == "TRUE";
    DowncaseOfLowerCase("no");
    DefaultKeyVariants("no", "no");
    assert Upcase("no") == "NO";
  }

  /** A word that is not a key fails; there is no fuzzy matching. */
  lemma ToBooleanRejectsOtherWords()
    ensures Default().ToBoolean("maybe") == Unsupported("maybe", BooleanCoercion)
    ensures Default().ToBoolean("tru") == Unsupported("tru", BooleanCoercion)
  {
    DowncaseOfLowerCase("maybe");
    DefaultToBoolean("maybe");
    DowncaseOfLowerCase("tru");
    DefaultToBoolean("tru");
  }

  // ---------------------------------------------------------------------
  // to_symbol

  /** The symbol's name is the value, so distinct values give distinct symbols. */
  lemma ToSymbolInjective(c: Coercer, v: string, w: string)
    ensures c.ToSymbol(v) == c.ToSymbol(w) <==> v == w
  {
  }

  lemma ToSymbolExample()
    ensures Default().ToSymbol("value") == Symbol("value")
  {
  }

  // ---------------------------------------------------------------------
  // to_float and to_decimal

  /** `to_numeric` finds a number for every string the grammar matches: the
      text of a well-formed tree is matched, with exactly that tree. */
  lemma MatchNumericComplete(c: Coercer, l: Literal)
    requires WellFormed(l)
    ensures c.MatchNumeric(Render(l)) == Some(l)
  {
    ParseComplete(l);
  }

  /** `to_float` succeeds exactly on the strings the grammar matches as a
      whole, and otherwise fails as `to_float` with the value itself. */
  lemma ToFloatSpec(c: Coercer, value: string)
    ensures c.ToFloat(value).Ok? <==> exists l :: WellFormed(l) && Render(l) == value
    ensures c.ToFloat(value).Unsupported? ==> c.ToFloat(value) == Unsupported(value, FloatCoercion)
  {
    IsNumericIff(value);
  }

  /** The text of a well-formed literal coerces to its exact value. */
  lemma ToFloatOfLiteral(c: Coercer, l: Literal)
    requires WellFormed(l)
    ensures c.ToFloat(Render(l)) == Ok(LiteralValue(l))
  {
    ParseComplete(l);
  }

  lemma ToDecimalSpec(c: Coercer, value: string)
    ensures c.ToDecimal(value).Ok? <==> exists l :: WellFormed(l) && Render(l) == value
    ensures c.ToDecimal(value).Unsupported? ==> c.ToDecimal(value) == Unsupported(value, DecimalCoercion)
  {
    IsNumericIff(value);
  }

  /** The text of a well-formed literal coerces to the decimal built from its
      digits, whose value is the literal's exact value. */
  lemma ToDecimalOfLiteral(c: Coercer, l: Literal)
    requires WellFormed(l)
    ensures c.ToDecimal(Render(l)) == Ok(LiteralDecimal(l))
    ensures c.ToDecimal(Render(l)).value.Value() == LiteralValue(l)
  {
    ParseComplete(l);
    LiteralDecimalValue(l);
  }

  /** `to_decimal` and `to_float` accept the same strings and, under exact
      arithmetic, give the same number. */
  lemma ToDecimalAgreesWithFloat(c: Coercer, value: string)
    ensures c.ToDecimal(value).Ok? <==> c.ToFloat(value).Ok?
    ensures c.ToDecimal(value).Ok? ==> c.ToDecimal(value).value.Value() == c.ToFloat(value).value
  {
    if c.MatchNumeric(value).Some? {
      LiteralDecimalValue(c.MatchNumeric(value).value);
    }
  }

  // ---------------------------------------------------------------------
  // to_integer

  /** Canonical integer text is a numeric literal, and truncating its value
      gives back the integer the fast path reads: the two paths agree. */
  lemma FastPathAgreesWithFallback(c: Coercer, value: string)
    requires IsCanonicalInt(value)
    ensures c.ToFloat(value).Ok?
    ensures TruncateTowardZero(c.ToFloat(value).value) == CanonicalValue(value)
  {
    var neg := value[0] == '-';
    var sign := if neg then Minus else NoSign;
    var ds := if neg then value[1..] else value;
    var l := IntegerForm(sign, ds, None, None);
    assert Render(l) == value;
    ParseComplete(l);
    TruncateWithoutExponent(sign, ds, None);
  }

  /** The integer text of `n` coerces to `n`. */
  lemma ToIntegerFastPath(c: Coercer, n: int)
    ensures c.ToInteger(IntToString(n)) == Ok(n)
  {
    IntToStringCanonical(n);
  }

  /** `to_integer` succeeds exactly on numeric literals, with the truncated
      exact value of the literal; otherwise it fails as `to_integer`, not as
      `to_float`. */
  lemma ToIntegerSpec(c: Coercer, value: string)
    ensures c.ToInteger(value).Ok? <==> c.ToFloat(value).Ok?
    ensures c.ToInteger(value).Ok? ==> c.ToInteger(value).value == TruncateTowardZero(c.ToFloat(value).value)
    ensures c.ToInteger(value).Unsupported? ==> c.ToInteger(value) == Unsupported(value, IntegerCoercion)
  {
    if IsCanonicalInt(value) {
      FastPathAgreesWithFallback(c, value);
    }
  }

  /** The text of a well-formed literal coerces to its truncated value. */
  lemma ToIntegerOfLiteral(c: Coercer, l: Literal)
    requires WellFormed(l)
    ensures c.ToInteger(Render(l)) == Ok(TruncateTowardZero(LiteralValue(l)))
  {
    ToIntegerSpec(c, Render(l));
    ToFloatOfLiteral(c, l);
  }
}
