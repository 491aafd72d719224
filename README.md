# String coercer of coercible, in Dafny

This project models the String coercer of the Ruby gem coercible
(`Coercible::Coercer::String`). The coercer turns a string into another
kind of value:

- `to_symbol` gives the symbol with the same text.
- `to_boolean` looks up the lower-cased string in a boolean map. The default
  map has twelve keys: `1 on t true y yes` and `0 off f false n no`.
- `to_float` and `to_decimal` accept exactly the strings that match
  `NUMERIC_REGEXP` as a whole, and give the value of the literal.
- `to_integer` reads canonical integer text (`i.to_s == value`) directly.
  It coerces anything else through `to_float`, then truncates toward zero.
- A failure, on any string of characters, is reported as an unsupported
  coercion. It carries the input and the name of the public method that
  failed. Encoding errors are the exception, as noted under "Left out".

The modules follow the parts of `lib/coercible/coercer/string.rb`:

| module | file | what it holds |
|---|---|---|
| `CoercionResult` | coercion_result.dfy | the `Ok`/`Unsupported` result, the coercion names, `raise_on_coercion_failure` |
| `AsciiCase` | ascii_case.dfy | `String#downcase` and `upcase` on ASCII letters |
| `Digits` | digits.dfy | digit runs, their values, `Integer#to_s` for naturals |
| `NumericLiteral` | numeric_literal.dfy | `NUMERIC_REGEXP` as a grammar of parse trees, and a recogniser proved equal to it |
| `PowersOfTen` | powers_of_ten.dfy | exact scaling by powers of ten |
| `NumericValue` | numeric_value.dfy | the exact value of a literal, the BigDecimal it parses to, truncation |
| `IntegerText` | integer_text.dfy | `Integer#to_s` and canonical integer text |
| `StringCoercer` | string_coercer.dfy | the boolean map, the configuration and the coercer with its five coercions |
| `CoercerProperties` | coercer_properties.dfy | the properties of the coercions, over all inputs |
| `CoercerExamples` | coercer_examples.dfy | the documented examples and the `to_decimal` test table |

The recogniser reads `NUMERIC_REGEXP` as follows:

- Both ends are anchored (`\A … \z`).
- The `/x` flag makes the layout around `|` insignificant.
- The integer part is `[0-9]\d*`, so leading zeros such as `007` are accepted.
- A sign is only allowed in front of the integer branch.

The value of a literal is sign × (integer digits + 0.fraction digits) ×
10^exponent. It is an exact rational (`real`). `to_decimal` builds a
`Decimal(unscaled, exponent)`: all digits of the integer and fraction parts
form the unscaled number, and the exponent is lowered by the number of
fraction digits. `NumericValue.LiteralDecimalValue` proves that the two
agree.

Inputs to the coercer are parameters. Nothing here reads a clock, a file or
the network.

## Model

| member | source | states |
|---|---|---|
| CoercionResult.RaiseOnCoercionFailure | lib/coercible/coercer/string.rb:267-274 | succeeds exactly when the block gave a value, with that value; otherwise fails with the input and the method name |
| CoercionResult.CoercionNamesDistinct | lib/coercible/coercer/string.rb:169 | the method names carried by failures tell the four coercions apart |
| AsciiCase.LowerChar | lib/coercible/coercer/string.rb:143 | an upper-case letter becomes its lower-case letter, 32 code points up; every other character is unchanged |
| AsciiCase.UpperChar | lib/coercible/coercer/string.rb:131-135 | a lower-case letter becomes its upper-case letter; every other character is unchanged |
| AsciiCase.Downcase | lib/coercible/coercer/string.rb:143 | `value.downcase`, letter by letter; its meaning is stated by `DowncaseShape`, `DowncaseOfLowerCase`, `DowncaseIdempotent` and `DowncaseOfUpcase` |
| AsciiCase.DowncaseShape | lib/coercible/coercer/string.rb:143 | `downcase` keeps the length, leaves no upper-case letter and does not touch other characters |
| AsciiCase.DowncaseOfLowerCase | lib/coercible/coercer/string.rb:143 | lower-case text is its own `downcase` |
| AsciiCase.DowncaseIdempotent | lib/coercible/coercer/string.rb:143 | `downcase` twice is `downcase` once |
| AsciiCase.DowncaseOfUpcase | lib/coercible/coercer/string.rb:131-135 | `downcase(upcase(s)) == downcase(s)`, so every case spelling looks up the same key |
| Digits.SpanDigits | lib/coercible/coercer/string.rb:16-18 | the greedy `\d*` run: a prefix of digits that stops at the end or at a non-digit |
| Digits.SpanDigitsOfPrefix | lib/coercible/coercer/string.rb:16-18 | a digit run followed by a non-digit is consumed exactly |
| Digits.DigitsValueAppend | lib/coercible/coercer/string.rb:16 | the value of `a + b` is value(a) · 10^len(b) + value(b) |
| Digits.DigitsValueBound | lib/coercible/coercer/string.rb:18 | a run of k digits is worth less than 10^k |
| Digits.NatToStringRoundTrip | lib/coercible/coercer/string.rb:161 | `n.to_s` for n ≥ 0 is canonical digit text that reads back as n |
| Digits.CanonicalDigitsRoundTrip | lib/coercible/coercer/string.rb:161 | canonical digit text is exactly what its value prints as |
| NumericLiteral.WellFormed | lib/coercible/coercer/string.rb:16-18 | a parse tree of the grammar: a non-empty integer digit run, a non-empty fraction run after a dot, and an exponent marker `e` or `E` with a non-empty digit run |
| NumericLiteral.Render | lib/coercible/coercer/string.rb:22-25 | the text a tree stands for, the two branches of `NUMERIC_REGEXP`; it is the reference grammar the recogniser is proved against in `ParseSound` and `ParseComplete` |
| NumericLiteral.Parse | lib/coercible/coercer/string.rb:22-25 | the whole-string match of `NUMERIC_REGEXP` with its capture; `ParseSound` and `ParseComplete` prove it accepts exactly the texts of well-formed trees, each with its unique tree |
| NumericLiteral.IsNumeric | lib/coercible/coercer/string.rb:235 | `value =~ NUMERIC_REGEXP`; `IsNumericIff` proves it holds exactly on the texts of well-formed trees |
| NumericLiteral.ParseSign | lib/coercible/coercer/string.rb:16-17 | `[-+]?`: splits off at most one sign, and the sign text plus the rest is the input |
| NumericLiteral.ExponentTailSound | lib/coercible/coercer/string.rb:17 | an accepted exponent tail is the text of a well-formed `[eE][-+]?\d+` |
| NumericLiteral.ExponentTailComplete | lib/coercible/coercer/string.rb:17 | the text of every well-formed exponent is accepted, with that exponent |
| NumericLiteral.FractionalSound | lib/coercible/coercer/string.rb:18 | an accepted `\.\d+` part is a dot and a non-empty digit run |
| NumericLiteral.FractionalComplete | lib/coercible/coercer/string.rb:18 | every `\.\d+` part, with its exponent, is accepted unchanged |
| NumericLiteral.FractionTailSound | lib/coercible/coercer/string.rb:23 | the optional fraction and exponent after the integer digits are read soundly |
| NumericLiteral.FractionTailComplete | lib/coercible/coercer/string.rb:23 | and completely |
| NumericLiteral.IntegerFormSound | lib/coercible/coercer/string.rb:23 | an accepted integer-branch literal is a well-formed tree whose text is the input |
| NumericLiteral.IntegerFormComplete | lib/coercible/coercer/string.rb:23 | every well-formed integer-branch tree is accepted from its text |
| NumericLiteral.ParseSound | lib/coercible/coercer/string.rb:22-25 | every string the recogniser accepts is the text of the well-formed tree it returns |
| NumericLiteral.ParseComplete | lib/coercible/coercer/string.rb:22-25 | the text of every well-formed tree is accepted, with exactly that tree, so the parse is unique |
| NumericLiteral.IsNumericIff | lib/coercible/coercer/string.rb:235 | `value =~ NUMERIC_REGEXP` holds exactly when the value is the text of some well-formed tree |
| NumericLiteral.RenderShape | lib/coercible/coercer/string.rb:22-25 | the text of a tree starts with a digit, sign or dot, ends in a digit, and has a digit after a sign |
| NumericLiteral.NumericShape | lib/coercible/coercer/string.rb:22-25 | every accepted string starts with a digit, sign or dot, ends in a digit, and has a digit after a leading sign |
| PowersOfTen.ShiftShift | lib/coercible/coercer/string.rb:17 | scaling by 10^a and then by 10^b is scaling by 10^(a+b) |
| PowersOfTen.ShiftMonotone | lib/coercible/coercer/string.rb:17 | scaling by a power of ten preserves strict order |
| PowersOfTen.ShiftIsProduct | lib/coercible/coercer/string.rb:17 | the scaling is multiplication by 10^k, for negative k too |
| NumericValue.RealDigitsValueIsDigitsValue | lib/coercible/coercer/string.rb:16 | the rational value of a digit run is its integer value |
| NumericValue.FractionValue | lib/coercible/coercer/string.rb:18 | the value `0.ds` of the fraction digits lies in [0, 1) |
| NumericValue.RealDigitsValueAppend | lib/coercible/coercer/string.rb:23 | joining the integer and fraction digits shifts the integer digits left by the fraction's length |
| NumericValue.UnsignedShift | lib/coercible/coercer/string.rb:200 | reading all digits as one number and lowering the exponent by the fraction length gives the literal's magnitude |
| NumericValue.LiteralValue | lib/coercible/coercer/string.rb:182-186 | the exact value sign × (integer + 0.fraction) × 10^exponent of a literal; `ToFloatOfLiteral` ties `to_float` to it |
| NumericValue.LiteralDecimal | lib/coercible/coercer/string.rb:198-202 | the BigDecimal built from all the digits with the exponent lowered by the fraction length; `LiteralDecimalValue` proves its value equals `LiteralValue` |
| NumericValue.LiteralDecimalValue | lib/coercible/coercer/string.rb:198-202 | the BigDecimal built from a literal has exactly the literal's value sign × (I + 0.F) × 10^E |
| NumericValue.TruncateTowardZero | lib/coercible/coercer/string.rb:166 | `Float#to_i`: the integer part, within one of x and never farther from zero than x |
| NumericValue.TruncateWithoutExponent | lib/coercible/coercer/string.rb:166 | without an exponent, truncation gives exactly the signed integer digits |
| IntegerText.IntToString | lib/coercible/coercer/string.rb:161 | `Integer#to_s`; `IntToStringCanonical` and `IntToStringInjective` state that it prints canonical text that reads back as the number |
| IntegerText.IsCanonicalInt | lib/coercible/coercer/string.rb:159-161 | the fast-path test `value.to_i.to_s == value`; `CanonicalIntIff` proves it holds exactly on the strings some integer prints as |
| IntegerText.IntToStringCanonical | lib/coercible/coercer/string.rb:161 | `n.to_s` is canonical integer text that reads back as n |
| IntegerText.CanonicalRoundTrip | lib/coercible/coercer/string.rb:161 | canonical integer text is exactly what its value prints as |
| IntegerText.CanonicalIntIff | lib/coercible/coercer/string.rb:159-161 | a string is canonical integer text exactly when some integer prints as it (no `+`, no leading zero, no `-0`) |
| IntegerText.IntToStringInjective | lib/coercible/coercer/string.rb:161 | distinct integers print differently |
| StringCoercer.BooleanMap | lib/coercible/coercer/string.rb:12-14 | `BOOLEAN_MAP`; `DefaultBooleanMapEntries`, `DefaultBooleanMapKeys` and `DefaultBooleanMapValues` state its twelve entries and nothing else |
| StringCoercer.PairWith | lib/coercible/coercer/string.rb:14 | `keys.product([v])` pairs every key, in order, with v |
| StringCoercer.HashFromPairs | lib/coercible/coercer/string.rb:14 | `Hash[pairs]` has exactly the keys of the pairs |
| StringCoercer.HashFromPairsLast | lib/coercible/coercer/string.rb:14 | a key's value in `Hash[pairs]` is the one of its last pair |
| StringCoercer.DefaultConfig | lib/coercible/coercer/string.rb:32-34 | the default configuration holds `BOOLEAN_MAP` |
| StringCoercer.Initialize | lib/coercible/coercer/string.rb:52-55 | a new coercer keeps the configured boolean map; the datatype never changes it afterwards |
| StringCoercer.Coercer.ToSymbol | lib/coercible/coercer/string.rb:83-85 | `to_symbol` always succeeds, and the symbol's text is the input |
| StringCoercer.Coercer.MatchNumeric | lib/coercible/coercer/string.rb:234-240 | a match returns a well-formed tree whose text is the whole input, and no match means no well-formed tree has the input as its text |
| StringCoercer.Coercer.ToBoolean | lib/coercible/coercer/string.rb:142-146 | the lower-cased value looked up in the boolean map, else a `to_boolean` failure; specified by `ToBooleanSpec`, `DefaultToBoolean` and `ToBooleanCaseInsensitive` |
| StringCoercer.Coercer.ToFloat | lib/coercible/coercer/string.rb:182-186 | the literal value of a matching string, else a `to_float` failure; specified by `ToFloatSpec` and `ToFloatOfLiteral` |
| StringCoercer.Coercer.ToDecimal | lib/coercible/coercer/string.rb:198-202 | the digit-built decimal of a matching string, else a `to_decimal` failure; specified by `ToDecimalSpec`, `ToDecimalOfLiteral` and `ToDecimalAgreesWithFloat` |
| StringCoercer.Coercer.ToInteger | lib/coercible/coercer/string.rb:158-170 | canonical integer text read directly, anything else truncated from `to_float`, failures reported as `to_integer`; specified by `ToIntegerSpec`, `FastPathAgreesWithFallback` and `ToIntegerOfLiteral` |
| CoercerProperties.MatchNumericComplete | lib/coercible/coercer/string.rb:230-236 | every string the grammar matches yields a number: the text of a well-formed tree is matched with exactly that tree |
| CoercerProperties.DefaultBooleanMapEntries | lib/coercible/coercer/string.rb:12-14 | every pair of the default table is an entry of `BOOLEAN_MAP` |
| CoercerProperties.DefaultBooleanMapKeys | lib/coercible/coercer/string.rb:12-14 | `BOOLEAN_MAP`'s keys are exactly `TRUE_VALUES` and `FALSE_VALUES` |
| CoercerProperties.DefaultBooleanMapValues | lib/coercible/coercer/string.rb:12-14 | the true keys map to true, the false keys to false, and no key is in both lists |
| CoercerProperties.DefaultKeysDistinctLowerCase | lib/coercible/coercer/string.rb:12-13 | the twelve keys are distinct and lower-case |
| CoercerProperties.ToBooleanSpec | lib/coercible/coercer/string.rb:142-146 | `to_boolean` succeeds exactly when the lower-cased input is a key, with its value; otherwise it fails as `to_boolean` |
| CoercerProperties.ToBooleanCaseInsensitive | lib/coercible/coercer/string.rb:143 | two inputs that lower-case alike coerce alike |
| CoercerProperties.DefaultToBoolean | lib/coercible/coercer/string.rb:142-146 | with the default map: true exactly for a true key, false exactly for a false key, failure otherwise |
| CoercerProperties.DefaultKeyVariants | lib/coercible/coercer/string.rb:131-135 | any case spelling of a key, and its upper-case form, gives that key's boolean |
| CoercerProperties.ToBooleanDocumentedExamples | lib/coercible/coercer/string.rb:131-135 | `'T'` gives true and `'F'` gives false |
| CoercerProperties.ToBooleanUpperCaseWord | lib/coercible/coercer/string.rb:143 | `TRUE` gives true and `NO` gives false |
| CoercerProperties.ToBooleanRejectsOtherWords | lib/coercible/coercer/string.rb:143-145 | `maybe` and `tru` fail as `to_boolean`; there is no partial matching |
| CoercerProperties.ToSymbolInjective | lib/coercible/coercer/string.rb:83-85 | two inputs give the same symbol exactly when they are the same text |
| CoercerProperties.ToSymbolExample | spec/unit/coercible/coercer/string/to_symbol_spec.rb:3-8 | `to_symbol('value')` is the symbol `value` |
| CoercerProperties.ToFloatSpec | lib/coercible/coercer/string.rb:182-186 | `to_float` succeeds exactly on the texts of well-formed trees; otherwise it fails as `to_float` with the input |
| CoercerProperties.ToFloatOfLiteral | lib/coercible/coercer/string.rb:182-186 | the text of a literal coerces to the literal's exact value |
| CoercerProperties.ToDecimalSpec | lib/coercible/coercer/string.rb:198-202 | `to_decimal` succeeds exactly on the texts of well-formed trees; otherwise it fails as `to_decimal` with the input |
| CoercerProperties.ToDecimalOfLiteral | lib/coercible/coercer/string.rb:198-202 | the text of a literal coerces to the decimal built from its digits, whose value is the literal's |
| CoercerProperties.ToDecimalAgreesWithFloat | lib/coercible/coercer/string.rb:182-202 | `to_decimal` and `to_float` accept the same strings and give the same number |
| CoercerProperties.FastPathAgreesWithFallback | lib/coercible/coercer/string.rb:159-166 | canonical integer text is a numeric literal whose truncated value is the integer the fast path returns |
| CoercerProperties.ToIntegerFastPath | lib/coercible/coercer/string.rb:159-162 | the text of n coerces to n |
| CoercerProperties.ToIntegerSpec | lib/coercible/coercer/string.rb:158-170 | `to_integer` succeeds exactly when `to_float` does, with the truncated float value; otherwise it fails as `to_integer` |
| CoercerProperties.ToIntegerOfLiteral | lib/coercible/coercer/string.rb:163-166 | the text of a literal coerces to its value truncated toward zero |
| CoercerExamples.GrammarRejectsSignedFraction | lib/coercible/coercer/string.rb:23-24 | `-.1` and `+.1` do not match: a sign needs an integer digit after it |
| CoercerExamples.GrammarRejectsMissingDigits | lib/coercible/coercer/string.rb:17-18 | `1.`, `1.0e` and `.` do not match |
| CoercerExamples.GrammarRejectsOtherText | lib/coercible/coercer/string.rb:22-25 | the empty string, `non-decimal`, ` 1` and `1 ` do not match |
| CoercerExamples.GrammarAccepts | lib/coercible/coercer/string.rb:16-18 | `007` and `.1E-1` match |
| CoercerExamples.ToDecimalSignedOne | spec/unit/coercible/coercer/string/to_decimal_spec.rb:9-11 | `1`, `+1` and `-1` give 1, 1 and -1 |
| CoercerExamples.ToDecimalSignedOnePointZero | spec/unit/coercible/coercer/string/to_decimal_spec.rb:12-22 | `1.0`, `+1.0` and `-1.0` give 1, 1 and -1 |
| CoercerExamples.ToDecimalSignedScientific | spec/unit/coercible/coercer/string/to_decimal_spec.rb:13-26 | the twelve rows `[-+]?1.0[eE][-+]1` give ±10 and ±0.1 |
| CoercerExamples.ToDecimalFraction | spec/unit/coercible/coercer/string/to_decimal_spec.rb:27 | `.1` gives 0.1 |
| CoercerExamples.ToDecimalFractionScientific | spec/unit/coercible/coercer/string/to_decimal_spec.rb:28-31 | `.1e+1`, `.1E+1` give 1 and `.1e-1`, `.1E-1` give 0.01 |
| CoercerExamples.ToDecimalRejects | spec/unit/coercible/coercer/string/to_decimal_spec.rb:42-46 | `non-decimal` fails as `to_decimal`, and `-.1` fails as `to_float` |
| CoercerExamples.ToIntegerOne | lib/coercible/coercer/string.rb:151 | `to_integer('1')` is 1 |
| CoercerExamples.ToIntegerScientific | lib/coercible/coercer/string.rb:164-166 | `1e3` gives 1000: the exponent is applied before truncating |
| CoercerExamples.ToIntegerPlusSign | lib/coercible/coercer/string.rb:161-166 | `+1` is not canonical, and the fallback gives 1 |
| CoercerExamples.ToIntegerTruncates | lib/coercible/coercer/string.rb:166 | `-1.9` gives -1: truncation is toward zero |
| CoercerExamples.ToIntegerLeadingZeros | lib/coercible/coercer/string.rb:161-166 | `007` is not canonical, and the fallback gives 7 |
| CoercerExamples.ToIntegerNegativeZero | lib/coercible/coercer/string.rb:161-166 | `-0` is not canonical, and the fallback gives 0 |
| CoercerExamples.ToIntegerRejects | lib/coercible/coercer/string.rb:168-169 | `abc` fails as `to_integer`, not as `to_float` |

## Left out

- `to_time`, `to_date`, `to_datetime` and `parse_value`: they delegate to Ruby's `Time.parse`, `Date.parse` and `DateTime.parse`, whose accepted formats are not part of this model.
- `to_constant` and `constant_lookup`: they reflect into Ruby's constant namespace (`const_defined?`, `const_get`, `const_missing`), which has no counterpart here.
- `Configurable`, `config_keys`, the `Configuration` object, the `Coercer` registry passed to `initialize`, and the `primitive` declaration. These files are not part of this model. Only the boolean map the configuration carries is kept.
- StringCoercer.Coercer.ToFloat: gives the exact rational value of the literal. Ruby rounds it to the nearest binary double, so the two differ for every literal whose value is not a binary double, including the documented `to_float('1.2')` and `0.1`; Ruby also overflows to infinity or underflows to zero for huge or tiny exponents.
- StringCoercer.Coercer.ToDecimal: the model's `Decimal.exponent` is an unbounded integer, so a literal such as `1e99999999999999999999` gets its exact value. BigDecimal keeps its exponent in a bounded machine integer, and Ruby overflows on such an exponent.
- StringCoercer.Coercer.ToInteger: the fallback truncates the exact value, not the rounded double. Ruby's `Float#to_i` raises `FloatDomainError` for an infinite float (for example `1e400`), and `to_integer` does not rescue it. The model gives the exact integer instead.
- The sign of a negative zero float (`-0.0`) is not represented. `-0` and `-0.0` have the value 0.
- `String#to_i` internals (leading blanks, underscores, stopping at the first bad character) are not modelled. The fast-path test `i.to_s == value` only holds when the value is canonical integer text, whatever `to_i` does with other input. So the model tests canonical text directly (`IntegerText.CanonicalIntIff`).
- Strings are modelled as sequences of Unicode characters. A Ruby String with an invalid byte sequence or an ASCII-incompatible encoding (UTF-16, for example) makes `=~` raise `ArgumentError` or `Encoding::CompatibilityError`. Then `to_float`, `to_decimal` and `to_integer` raise that error instead of an unsupported coercion, because neither `raise_on_coercion_failure` nor the `rescue UnsupportedCoercion` in `to_integer` catches it.
- `String#downcase` is modelled for ASCII letters only. Ruby also folds the case of other Unicode letters.
- A `Decimal` keeps the unscaled number and exponent as the digits give them, for example `1.0` as 10 × 10^-1. BigDecimal normalises its internal form, and equality (`eql`) compares values, which is what the examples state.
