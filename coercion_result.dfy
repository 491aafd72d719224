/** The uniform failure taxonomy of the String coercer: every operation either
    yields its target value or an `UnsupportedCoercion` carrying the original
    input and the name of the attempted conversion. */
module CoercionResult {

  /** The conversions of the String coercer that can fail. */
  datatype Coercion = BooleanCoercion | IntegerCoercion | FloatCoercion | DecimalCoercion
  {
    /** The Ruby method name recorded in the failure. */
    function Name(): string
    {
      match this
      case BooleanCoercion => "to_boolean"
      case IntegerCoercion => "to_integer"
      case FloatCoercion => "to_float"
      case DecimalCoercion => "to_decimal"
    }
  }

  datatype Option<+T> = None | Some(value: T)

  /** `Ok(v)` is a successful coercion; `Unsupported(input, coercion)` is the
      `UnsupportedCoercion` error raised by `raise_unsupported_coercion`. */
  datatype Result<+T> = Ok(value: T) | Unsupported(input: string, coercion: Coercion)

  /** `raise_on_coercion_failure`: the internal helper's outcome is `None` when
      it returned the `COERCION_FAILURE` sentinel. The sentinel becomes an
      error naming the original value and the method; any other result is
      passed through untouched. */
  function RaiseOnCoercionFailure<T>(value: string, coercion: Coercion, outcome: Option<T>): (r: Result<T>)
    ensures r.Ok? <==> outcome.Some?
    ensures r.Ok? ==> r.value == outcome.value
    ensures r.Unsupported? ==> r.input == value && r.coercion == coercion
  {
    match outcome
    case Some(v) => Ok(v)
    case None => Unsupported(value, coercion)
  }

  lemma CoercionNamesDistinct(a: Coercion, b: Coercion)
    ensures a.Name() == b.Name() <==> a == b
  {
    if a != b {
      assert a.Name()[3] != b.Name()[3] || |a.Name()| != |b.Name()|;
    }
  }
}
