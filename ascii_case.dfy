/** ASCII case mapping, standing in for Ruby's `String#downcase`. */
module AsciiCase {

  predicate IsUpperChar(c: char) { 'A' <= c <= 'Z' }

  predicate IsLowerChar(c: char) { 'a' <= c <= 'z' }

  function LowerChar(c: char): (d: char)
    ensures IsUpperChar(c) ==> IsLowerChar(d) && d as int - c as int == 32
    ensures !IsUpperChar(c) ==> d == c
  {
    if IsUpperChar(c) then (c as int + 32) as char else c
  }

  function UpperChar(c: char): (d: char)
    ensures IsLowerChar(c) ==> IsUpperChar(d) && c as int - d as int == 32
    ensures !IsLowerChar(c) ==> d == c
  {
    if IsLowerChar(c) then (c as int - 32) as char else c
  }

  /** `s.downcase`, for ASCII letters only. */
  function Downcase(s: string): (r: string)
  {
    seq(|s|, i requires 0 <= i < |s| => LowerChar(s[i]))
  }

  /** `s.upcase`, for ASCII letters only. */
  function Upcase(s: string): (r: string)
  {
    seq(|s|, i requires 0 <= i < |s| => UpperChar(s[i]))
  }

  /** A string in which no character is an upper-case letter. */
  predicate IsLowerCase(s: string)
  {
    forall i :: 0 <= i < |s| ==> !IsUpperChar(s[i])
  }

  /** Downcasing keeps the length, produces no upper-case letter and leaves
      every character that is not an upper-case letter where it was. */
  lemma DowncaseShape(s: string)
    ensures |Downcase(s)| == |s|
    ensures IsLowerCase(Downcase(s))
    ensures forall i :: 0 <= i < |s| && !IsUpperChar(s[i]) ==> Downcase(s)[i] == s[i]
  {
  }

  /** A lower-case string is its own downcase. */
  lemma DowncaseOfLowerCase(s: string)
    requires IsLowerCase(s)
    ensures Downcase(s) == s
  {
  }

  lemma DowncaseIdempotent(s: string)
    ensures Downcase(Downcase(s)) == Downcase(s)
  {
  }

  /** Upcasing first does not change the downcase: `k.upcase.downcase == k.downcase`. */
  lemma DowncaseOfUpcase(s: string)
    ensures Downcase(Upcase(s)) == Downcase(s)
  {
  }
}
