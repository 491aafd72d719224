/** The String coercer: the `to_symbol`, `to_boolean`, `to_integer`,
    `to_float` and `to_decimal` coercions of a string value, over a coercer
    that holds the boolean map it was configured with. */
module StringCoercer {
  import opened AsciiCase
  import opened CoercionResult
  import opened NumericLiteral
  import opened NumericValue
  import opened IntegerText

  const TrueValues: seq<string> := ["1", "on", "t", "true", "y", "yes"]
  const FalseValues: seq<string> := ["0", "off", "f", "false", "n", "no"]

  /** `keys.product([v])`: every key paired with the same value. */
  function PairWith(keys: seq<string>, v: bool): (r: seq<(string, bool)>)
    ensures |r| == |keys|
    ensures forall i :: 0 <= i < |keys| ==> r[i] == (keys[i], v)
  {
    seq(|keys|, i requires 0 <= i < |keys| => (keys[i], v))
  }

  /** `Hash[pairs]`: a later pair for the same key replaces an earlier one. */
  function HashFromPairs(pairs: seq<(string, bool)>): (m: map<string, bool>)
    ensures forall k :: k in m <==> exists i :: 0 <= i < |pairs| && pairs[i].0 == k
  {
    if pairs == [] then map[]
    else
      var init := HashFromPairs(pairs[..|pairs| - 1]);
      assert forall i :: 0 <= i < |pairs| - 1 ==> pairs[..|pairs| - 1][i] == pairs[i];
      init[pairs[|pairs| - 1].0 := pairs[|pairs| - 1].1]
  }

  /** The value a key gets is the one of its last pair. */
  lemma {:induction false} HashFromPairsLast(pairs: seq<(string, bool)>, i: int)
    requires 0 <= i < |pairs|
    requires forall j :: i < j < |pairs| ==> pairs[j].0 != pairs[i].0
    ensures pairs[i].0 in HashFromPairs(pairs)
    ensures HashFromPairs(pairs)[pairs[i].0] == pairs[i].1
  {
    if i < |pairs| - 1 {
      var init := pairs[..|pairs| - 1];
      assert init[i] == pairs[i];
      HashFromPairsLast(init, i);
    }
  }

  /** `BOOLEAN_MAP` */
  const BooleanMap: map<string, bool> := HashFromPairs(PairWith(TrueValues, true) + PairWith(FalseValues, false))

  /** The configuration a coercer is built from; only its boolean map is read. */
  datatype Config = Config(booleanMap: map<string, bool>)

  /** `String.config`: the default configuration holds `BOOLEAN_MAP`. */
  function DefaultConfig(): (c: Config)
    ensures c.booleanMap == BooleanMap
  {
    Config(BooleanMap)
  }

  /** A symbol, identified by its name. */
  datatype Symbol = Symbol(name: string)

  /** A string coercer. Its boolean map is fixed when it is built. */
  datatype Coercer = Coercer(booleanMap: map<string, bool>)
  {
    /** `to_symbol` */
    function ToSymbol(value: string): (r: Symbol)
      ensures r.name == value
    {
      Symbol(value)
    }

    /** `to_boolean`: the lower-cased value looked up in the boolean map. */
    function ToBoolean(value: string): (r: Result<bool>)
    {
      var key := Downcase(value);
      if key in booleanMap then Ok(booleanMap[key]) else Unsupported(value, BooleanCoercion)
    }

    /** `to_numeric`: the parse of the value when the whole of it matches
        `NUMERIC_REGEXP`, and the failure sentinel otherwise. */
    function MatchNumeric(value: string): (r: Option<Literal>)
      ensures r.Some? ==> WellFormed(r.value) && Render(r.value) == value
      ensures r.None? ==> forall l :: WellFormed(l) ==> Render(l) != value
    {
      var p := Parse(value);
      if p.Some? then ParseSound(value, p.value); p else IsNumericIff(value); None
    }

    /** `to_float`, with the exact value of the literal. */
    function ToFloat(value: string): (r: Result<real>)
    {
      RaiseOnCoercionFailure(value, FloatCoercion,
        match MatchNumeric(value)
        case Some(l) => Some(LiteralValue(l))
        case None => None)
    }

    /** `to_decimal` */
    function ToDecimal(value: string): (r: Result<Decimal>)
    {
      RaiseOnCoercionFailure(value, DecimalCoercion,
        match MatchNumeric(value)
        case Some(l) => Some(LiteralDecimal(l))
        case None => None)
    }

    /** `to_integer`: the canonical text of an integer is read directly;
        anything else goes through `to_float` and is truncated toward zero,
        and a failure there is reported as a failure of `to_integer`. */
    function ToInteger(value: string): (r: Result<int>)
    {
      if IsCanonicalInt(value) then Ok(CanonicalValue(value))
      else
        match ToFloat(value)
        case Ok(x) => Ok(TruncateTowardZero(x))
        case Unsupported(_, _) => Unsupported(value, IntegerCoercion)
    }
  }

  /** `String.new(coercer, config)`: the coercer keeps the configured map. */
  function Initialize(config: Config): (c: Coercer)
    ensures c.booleanMap == config.booleanMap
  {
    Coercer(config.booleanMap)
  }

  /** A coercer built with the default configuration. */
  function Default(): Coercer
  {
    Initialize(DefaultConfig())
  }
}
