/** The decimal text of a Ruby Integer (`Integer#to_s`) and the strings that
    are exactly such a text: the test `value.to_i.to_s == value` that gives
    `to_integer` its fast path. */
module IntegerText {
  import opened Digits

  /** `n.to_s`: a `-` for negative numbers, then the canonical digits. */
  function IntToString(n: int): string
  {
    if n < 0 then "-" + NatToString(-n) else NatToString(n)
  }

  /** Canonical integer text: an optional `-` and digits without a leading
      zero, and no `-0`. A `+`, a leading zero or surrounding text are not
      canonical. */
  predicate IsCanonicalInt(s: string)
  {
    IsCanonicalDigits(s)
    || (|s| > 1 && s[0] == '-' && IsCanonicalDigits(s[1..]) && s[1] != '0')
  }

  /** The integer a canonical text stands for. */
  function CanonicalValue(s: string): int
    requires IsCanonicalInt(s)
  {
    if s[0] == '-' then -(DigitsValue(s[1..]) as int) else DigitsValue(s)
  }

  /** Every integer prints as canonical text that reads back as itself. */
  lemma IntToStringCanonical(n: int)
    ensures IsCanonicalInt(IntToString(n))
    ensures CanonicalValue(IntToString(n)) == n
  {
    var s := IntToString(n);
    if n < 0 {
      NatToStringRoundTrip(-n);
      var d := NatToString(-n);
      assert s[1..] == d;
      assert s[1] == d[0];
    } else {
      NatToStringRoundTrip(n);
      assert s[0] != '-';
    }
  }

  /** Canonical text is exactly what its value prints as. */
  lemma CanonicalRoundTrip(s: string)
    requires IsCanonicalInt(s)
    ensures IntToString(CanonicalValue(s)) == s
  {
    if s[0] == '-' {
      var d := s[1..];
      CanonicalDigitsRoundTrip(d);
      DigitsValuePositive(d);
      assert s == "-" + d;
    } else {
      CanonicalDigitsRoundTrip(s);
    }
  }

  /** A string is canonical integer text exactly when some integer prints as it. */
  lemma CanonicalIntIff(s: string)
    ensures IsCanonicalInt(s) <==> exists n :: IntToString(n) == s
  {
    if IsCanonicalInt(s) {
      CanonicalRoundTrip(s);
    }
    if n :| IntToString(n) == s {
      IntToStringCanonical(n);
    }
  }

  /** Printing is injective, so the integer behind a canonical text is unique. */
  lemma IntToStringInjective(m: int, n: int)
    requires IntToString(m) == IntToString(n)
    ensures m == n
  {
    IntToStringCanonical(m);
    IntToStringCanonical(n);
  }
}
