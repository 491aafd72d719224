/** The numeric literal grammar of the String coercer (`NUMERIC_REGEXP`):

      \A ( INTEGER FRACTIONAL? EXPONENT?  |  FRACTIONAL EXPONENT? ) \z
      INTEGER    = [-+]? [0-9] \d*
      FRACTIONAL = \. \d+
      EXPONENT   = [eE] [-+]? \d+

    The `/x` flag makes the layout around `|` insignificant. A `Literal` is a
    parse tree of that regular expression; `WellFormed` and `Render` together
    define the set of matching strings, and `Parse` is the recogniser. */
module NumericLiteral {
  import opened Digits
  import opened CoercionResult

  datatype Sign = NoSign | Plus | Minus

  /** `[eE] [-+]? \d+`, keeping the marker letter as written. */
  datatype Exponent = Exponent(marker: char, sign: Sign, digits: string)

  datatype Literal =
    | IntegerForm(sign: Sign, integer: string, fraction: Option<string>, exponent: Option<Exponent>)
    | FractionForm(digits: string, exponent: Option<Exponent>)

  predicate IsDigitRun(s: string) { |s| > 0 && AllDigits(s) }

  predicate ExponentWellFormed(e: Exponent)
  {
    (e.marker == 'e' || e.marker == 'E') && IsDigitRun(e.digits)
  }

  predicate OptExponentWellFormed(e: Option<Exponent>)
  {
    e.Some? ==> ExponentWellFormed(e.value)
  }

  /** The constraints of the regular expression on each part of the parse tree. */
  predicate WellFormed(l: Literal)
  {
    match l
    case IntegerForm(_, integer, fraction, exponent) =>
      IsDigitRun(integer) && (fraction.Some? ==> IsDigitRun(fraction.value)) && OptExponentWellFormed(exponent)
    case FractionForm(fraction, exponent) =>
      IsDigitRun(fraction) && OptExponentWellFormed(exponent)
  }

  function SignText(s: Sign): string
  {
    match s
    case NoSign => ""
    case Plus => "+"
    case Minus => "-"
  }

  function FractionText(f: Option<string>): string
  {
    match f
    case None => ""
    case Some(ds) => "." + ds
  }

  function ExponentText(e: Option<Exponent>): string
  {
    match e
    case None => ""
    case Some(x) => [x.marker] + SignText(x.sign) + x.digits
  }

  /** The text a parse tree stands for. */
  function Render(l: Literal): string
  {
    match l
    case IntegerForm(sign, integer, fraction, exponent) =>
      SignText(sign) + integer + FractionText(fraction) + ExponentText(exponent)
    case FractionForm(fraction, exponent) =>
      FractionText(Some(fraction)) + ExponentText(exponent)
  }

  /** Splits off an optional leading `+` or `-`. */
  function ParseSign(s: string): (r: (Sign, string))
    ensures SignText(r.0) + r.1 == s
    ensures r.0 == NoSign ==> r.1 == s
    ensures |r.1| <= |s|
  {
    if |s| > 0 && s[0] == '+' then (Plus, s[1..])
    else if |s| > 0 && s[0] == '-' then (Minus, s[1..])
    else (NoSign, s)
  }

  /** `EXPONENT? \z`: `Some(None)` for the empty rest, `Some(Some(e))` when the
      whole rest is one exponent, `None` otherwise. */
  function ParseExponentTail(s: string): Option<Option<Exponent>>
  {
    if s == [] then Some(None)
    else if s[0] == 'e' || s[0] == 'E' then
      var (sign, ds) := ParseSign(s[1..]);
      if IsDigitRun(ds) then Some(Some(Exponent(s[0], sign, ds))) else None
    else None
  }

  /** `FRACTIONAL EXPONENT? \z`: a dot, a non-empty digit run, and an
      optional exponent that ends the input. */
  function ParseFractional(s: string): Option<(string, Option<Exponent>)>
  {
    if |s| > 0 && s[0] == '.' then
      var k := SpanDigits(s[1..]);
      if k == 0 then None
      else match ParseExponentTail(s[1 + k..])
        case None => None
        case Some(e) => Some((s[1..1 + k], e))
    else None
  }

  /** `FRACTIONAL? EXPONENT? \z`, after the integer digits. */
  function ParseFractionTail(s: string): Option<(Option<string>, Option<Exponent>)>
  {
    if |s| > 0 && s[0] == '.' then
      match ParseFractional(s)
      case None => None
      case Some((f, e)) => Some((Some(f), e))
    else
      match ParseExponentTail(s)
      case None => None
      case Some(e) => Some((None, e))
  }

  /** `INTEGER FRACTIONAL? EXPONENT? \z` */
  function ParseIntegerForm(s: string): Option<Literal>
  {
    var (sign, rest) := ParseSign(s);
    var n := SpanDigits(rest);
    if n == 0 then None
    else match ParseFractionTail(rest[n..])
      case None => None
      case Some((f, e)) => Some(IntegerForm(sign, rest[..n], f, e))
  }

  /** The recogniser: whether, and how, the whole of `s` matches the grammar.
      The integer branch needs a digit after the optional sign, so it never
      applies to a string that starts with a dot; digit runs are greedy and
      stop at `.`, `e` or `E`, so a match has exactly one parse tree. */
  function Parse(s: string): Option<Literal>
  {
    if |s| > 0 && s[0] == '.' then
      match ParseFractional(s)
      case None => None
      case Some((f, e)) => Some(FractionForm(f, e))
    else
      ParseIntegerForm(s)
  }

  /** `value =~ NUMERIC_REGEXP` */
  predicate IsNumeric(s: string)
  {
    Parse(s).Some?
  }

  // ---------------------------------------------------------------------------
  // The recogniser accepts exactly the strings the grammar describes.

  lemma ExponentTailSound(s: string, e: Option<Exponent>)
    requires ParseExponentTail(s) == Some(e)
    ensures OptExponentWellFormed(e) && ExponentText(e) == s
  {
    if s != [] {
      var (sign, ds) := ParseSign(s[1..]);
      assert s == [s[0]] + s[1..];
    }
  }

  lemma ExponentTailComplete(e: Option<Exponent>)
    requires OptExponentWellFormed(e)
    ensures ParseExponentTail(ExponentText(e)) == Some(e)
  {
    if e.Some? {
      var x := e.value;
      var s := ExponentText(e);
      assert s[1..] == SignText(x.sign) + x.digits;
      if x.sign == NoSign {
        assert s[1..] == x.digits;
        assert x.digits[0] != '+' && x.digits[0] != '-';
      }
    }
  }

  lemma FractionalSound(s: string, f: string, e: Option<Exponent>)
    requires ParseFractional(s) == Some((f, e))
    ensures IsDigitRun(f) && OptExponentWellFormed(e)
    ensures FractionText(Some(f)) + ExponentText(e) == s
  {
    var k := SpanDigits(s[1..]);
    assert f == s[1..1 + k];
    ExponentTailSound(s[1 + k..], e);
    SplitAfterDot(s, k);
  }

  /** A string that starts with a dot is the dot, the next k characters and the rest. */
  lemma SplitAfterDot(s: string, k: nat)
    requires |s| > 0 && s[0] == '.' && 1 + k <= |s|
    ensures s[1..][..k] == s[1..1 + k]
    ensures s == "." + s[1..1 + k] + s[1 + k..]
  {
  }

  lemma FractionalComplete(f: string, e: Option<Exponent>)
    requires IsDigitRun(f) && OptExponentWellFormed(e)
    ensures ParseFractional(FractionText(Some(f)) + ExponentText(e)) == Some((f, e))
  {
    var t := ExponentText(e);
    var s := "." + f + t;
    ExponentTailComplete(e);
    assert t == [] || !IsDigit(t[0]);
    assert s[1..] == f + t;
    SpanDigitsOfPrefix(f, t);
    assert s[1 + |f|..] == t;
    assert s[1..1 + |f|] == f;
  }

  lemma FractionTailSound(s: string, f: Option<string>, e: Option<Exponent>)
    requires ParseFractionTail(s) == Some((f, e))
    ensures (f.Some? ==> IsDigitRun(f.value)) && OptExponentWellFormed(e)
    ensures FractionText(f) + ExponentText(e) == s
  {
    if |s| > 0 && s[0] == '.' {
      FractionalSound(s, f.value, e);
    } else {
      ExponentTailSound(s, e);
    }
  }

  lemma FractionTailComplete(f: Option<string>, e: Option<Exponent>)
    requires f.Some? ==> IsDigitRun(f.value)
    requires OptExponentWellFormed(e)
    ensures ParseFractionTail(FractionText(f) + ExponentText(e)) == Some((f, e))
  {
    if f.Some? {
      FractionalComplete(f.value, e);
    } else {
      ExponentTailComplete(e);
      assert FractionText(f) + ExponentText(e) == ExponentText(e);
    }
  }

  lemma RenderIntegerForm(sign: Sign, ds: string, f: Option<string>, e: Option<Exponent>, tail: string)
    requires FractionText(f) + ExponentText(e) == tail
    ensures Render(IntegerForm(sign, ds, f, e)) == SignText(sign) + (ds + tail)
  {
    ConcatAssoc(SignText(sign), ds, FractionText(f), ExponentText(e));
  }

  lemma ConcatAssoc(a: string, b: string, c: string, d: string)
    ensures a + b + c + d == a + (b + (c + d))
  {
  }

  lemma IntegerFormSound(s: string, l: Literal)
    requires ParseIntegerForm(s) == Some(l)
    ensures WellFormed(l) && Render(l) == s
  {
    var p := ParseSign(s);
    var n := SpanDigits(p.1);
    var ds, tail := p.1[..n], p.1[n..];
    var ft := ParseFractionTail(tail);
    assert n > 0 && ft.Some? && l == IntegerForm(p.0, ds, ft.value.0, ft.value.1);
    FractionTailSound(tail, l.fraction, l.exponent);
    SplitAt(p.1, n);
    RenderIntegerForm(p.0, ds, l.fraction, l.exponent, tail);
  }

  lemma SplitAt(s: string, n: nat)
    requires n <= |s|
    ensures s == s[..n] + s[n..]
  {
  }

  /** A sign is split off again when the text after it cannot be read as one. */
  lemma ParseSignOf(sign: Sign, body: string)
    requires |body| > 0 && IsDigit(body[0])
    ensures ParseSign(SignText(sign) + body) == (sign, body)
  {
    if sign == NoSign {
      assert SignText(sign) + body == body;
    } else {
      assert (SignText(sign) + body)[1..] == body;
    }
  }

  lemma IntegerFormComplete(l: Literal)
    requires l.IntegerForm? && WellFormed(l)
    ensures ParseIntegerForm(Render(l)) == Some(l)
  {
    var ds := l.integer;
    var t := FractionText(l.fraction) + ExponentText(l.exponent);
    FractionTailComplete(l.fraction, l.exponent);
    assert t == [] || !IsDigit(t[0]) by {
      if l.fraction.None? { ExponentTailComplete(l.exponent); }
    }
    RenderIntegerForm(l.sign, ds, l.fraction, l.exponent, t);
    ParseSignOf(l.sign, ds + t);
    SpanDigitsOfPrefix(ds, t);
    ParseIntegerFormOf(l.sign, ds, t, l.fraction, l.exponent);
  }

  /** The integer branch, once the sign, the digit run and the tail are known. */
  lemma ParseIntegerFormOf(sign: Sign, ds: string, t: string, f: Option<string>, e: Option<Exponent>)
    requires |ds| > 0
    requires ParseSign(SignText(sign) + (ds + t)) == (sign, ds + t)
    requires SpanDigits(ds + t) == |ds|
    requires ParseFractionTail(t) == Some((f, e))
    ensures ParseIntegerForm(SignText(sign) + (ds + t)) == Some(IntegerForm(sign, ds, f, e))
  {
    var rest := ds + t;
    assert rest[..|ds|] == ds;
    assert rest[|ds|..] == t;
  }

  /** Everything the recogniser accepts is the text of a well-formed parse tree. */
  lemma ParseSound(s: string, l: Literal)
    requires Parse(s) == Some(l)
    ensures WellFormed(l) && Render(l) == s
  {
    if |s| > 0 && s[0] == '.' {
      FractionalSound(s, l.digits, l.exponent);
    } else {
      IntegerFormSound(s, l);
    }
  }

  /** The text of every well-formed parse tree is accepted, with that tree. */
  lemma ParseComplete(l: Literal)
    requires WellFormed(l)
    ensures Parse(Render(l)) == Some(l)
  {
    if l.FractionForm? {
      FractionalComplete(l.digits, l.exponent);
    } else {
      IntegerFormComplete(l);
      var s := Render(l);
      assert s[0] != '.' by {
        if l.sign == NoSign { assert s[0] == l.integer[0]; }
      }
    }
  }

  /** `s =~ NUMERIC_REGEXP` holds exactly when `s` is the text of some
      well-formed parse tree. */
  lemma IsNumericIff(s: string)
    ensures IsNumeric(s) <==> exists l :: WellFormed(l) && Render(l) == s
  {
    if IsNumeric(s) {
      ParseSound(s, Parse(s).value);
    }
    if l :| WellFormed(l) && Render(l) == s {
      ParseComplete(l);
    }
  }

  /** The last character of a concatenation with a non-empty right part. */
  lemma LastOfAppend(a: string, b: string)
    requires |b| > 0
    ensures (a + b)[|a + b| - 1] == b[|b| - 1]
  {
  }

  /** The text of a parse tree ends in a digit, and a sign in it is
      followed by a digit. */
  lemma RenderShape(l: Literal)
    requires WellFormed(l)
    ensures |Render(l)| > 0 && IsDigit(Render(l)[|Render(l)| - 1])
    ensures IsDigit(Render(l)[0]) || Render(l)[0] == '+' || Render(l)[0] == '-' || Render(l)[0] == '.'
    ensures Render(l)[0] == '+' || Render(l)[0] == '-' ==> |Render(l)| > 1 && IsDigit(Render(l)[1])
  {
    var s := Render(l);
    match l
    case IntegerForm(sign, integer, fraction, exponent) =>
      var head := SignText(sign) + integer;
      if exponent.Some? {
        var x := exponent.value;
        assert s == (head + FractionText(fraction) + [x.marker] + SignText(x.sign)) + x.digits;
        LastOfAppend(head + FractionText(fraction) + [x.marker] + SignText(x.sign), x.digits);
      } else if fraction.Some? {
        assert s == (head + ".") + fraction.value;
        LastOfAppend(head + ".", fraction.value);
      } else {
        assert s == SignText(sign) + integer;
        LastOfAppend(SignText(sign), integer);
      }
      assert s == head + FractionText(fraction) + ExponentText(exponent);
      if sign != NoSign {
        assert s[1] == integer[0];
      } else {
        assert s[0] == integer[0];
      }
    case FractionForm(digits, exponent) =>
      if exponent.Some? {
        var x := exponent.value;
        assert s == ("." + digits + [x.marker] + SignText(x.sign)) + x.digits;
        LastOfAppend("." + digits + [x.marker] + SignText(x.sign), x.digits);
      } else {
        assert s == "." + digits;
        LastOfAppend(".", digits);
      }
  }

  /** Every matching text starts with a digit, a sign or a dot, ends in a
      digit (no trailing `.` or exponent marker), and has a digit after a
      leading sign (never a dot). */
  lemma NumericShape(s: string)
    requires IsNumeric(s)
    ensures |s| > 0 && IsDigit(s[|s| - 1])
    ensures IsDigit(s[0]) || s[0] == '+' || s[0] == '-' || s[0] == '.'
    ensures s[0] == '+' || s[0] == '-' ==> |s| > 1 && IsDigit(s[1])
  {
    ParseSound(s, Parse(s).value);
    RenderShape(Parse(s).value);
  }
}
