# PWM prescaler/period calculator — Dafny model

This project models the two computations of the PWM frequency calculator
(`app.py`).

- **The frequency parser** (`parse_frequency_input`) reads strings such as
  `"72MHz"`, `"1k"` or `" 50 "`. It strips the input and matches
  `([\d\.]+)\s*([a-zA-Z]*)` at its start. It converts the numeric group with
  `float()` and lower-cases the unit group, where an empty group means `hz`.
  It then looks the unit up in a seven-entry table (`hz` 1, `k`/`khz` 10^3,
  `m`/`mhz` 10^6, `g`/`ghz` 10^9; lower-case `m` is mega) and returns
  value × scale.
- **The configuration enumerator** (`calculate_pwm_configurations`) tries
  every prescaler from 1 to 65536 in turn. It keeps `(prescaler, period)`
  whenever `timer_clock / (prescaler * target_frequency)` is a whole number
  between 1 and 65535.

Files:

- `wrappers.dfy`: `Option` and `Result`.
- `text.dfy`: character classes, maximal runs, `str.strip()` and ASCII
  `str.lower()`.
- `frequency_parser.dfy`: decimal literals, the pattern match as a two-phase
  scan, the unit table and `Parse`.
- `frequency_parser_examples.dfy`: worked inputs (`"72MHZ"`, `"1kHz"`,
  `" 72 m "`, `"5xyz"`, `"1.2.3k"`, …).
- `pwm_configurations.dfy`: the enumerator, as a `while` loop building a
  sequence. It is proved equal to a recursive filter function, and the
  filter's properties are proved as lemmas.

Numbers are exact `real`s. The parser's literal is read exactly, and "is an
integer" is `x.Floor as real == x`.

The parser has three failure results. `InvalidFormat` means there is no
numeric prefix. `InvalidNumber` means the run of digits and dots is not
something `float()` accepts (`"."`, `"1.2.3"`). `UnsupportedUnit(u)` means the
lower-cased letter run `u` is not in the table. The class `[\d\.]` accepts
any number of dots, and `float()` then raises; the model keeps that as the
separate `InvalidNumber` case.

## Model

| member | source | states |
|---|---|---|
| `FrequencyParser.Parse` | app.py:1-31 | fails with `InvalidFormat` exactly when the stripped input is empty or does not start with a digit or `.` |
| `FrequencyParser.Scan` | app.py:20 | the regex match exists exactly when the stripped text starts with a digit or dot, and what it finds satisfies `IsMatch`: three maximal runs (digits/dots, whitespace, letters) |
| `FrequencyParser.MatchUnique` | app.py:20 | two matches of the same text coincide, because each group boundary is forced by the next character |
| `FrequencyParser.MatchIsScan` | app.py:20 | any group split satisfying the declarative match predicate is the one the scan returns |
| `FrequencyParser.ParseOfMatch` | app.py:20-31 | the result depends only on the two groups: leading whitespace, the gap, text after the unit and trailing whitespace are ignored |
| `FrequencyParser.ParseWithUnit` | app.py:20-31 | number, optional whitespace and a table unit in any case (followed by a non-letter or nothing) give decimal value × table scale of the lower-cased unit |
| `FrequencyParser.ParseWithoutUnit` | app.py:20-31 | a number with no letters after it gives its value times 1 (the `hz` default) |
| `FrequencyParser.ParseUnsupportedUnit` | app.py:26-29 | a letter run whose lower-case form is not a table key fails with `UnsupportedUnit` naming that lower-cased run |
| `FrequencyParser.ParseInvalidNumber` | app.py:20-25 | a matched numeric run that is not a decimal literal fails with `InvalidNumber` carrying that run, whatever follows |
| `FrequencyParser.ParseIgnoresCase` | app.py:20-26 | lower-casing the whole input never changes the parse result |
| `FrequencyParser.ParseNonNegative` | app.py:8-31 | a successful parse is never negative |
| `FrequencyParser.ApplyUnitNonNegative` | app.py:8-16 | every table scale is at least 1, so scaling a non-negative value keeps it non-negative |
| `FrequencyParser.ApplyUnit` | app.py:26-31 | the unit stage never reports a format or number error |
| `FrequencyParser.ApplyUnitLower` | app.py:26 | the unit stage gives the same result for a unit and its lower-case form |
| `FrequencyParser.Evaluate` | app.py:24-31 | evaluating the groups never reports `InvalidFormat` |
| `FrequencyParser.ParseNumber` | app.py:25 | `float()` of a digits-and-dots run, when it succeeds, is non-negative |
| `FrequencyParser.ParseNumberAccepts` | app.py:25 | `float()` accepts a digits-and-dots run exactly when it has at most one dot and at least one digit |
| `FrequencyParser.ParseNumberDigits` | app.py:25 | a run of digits denotes the natural number it spells |
| `FrequencyParser.ParseNumberWithDot` | app.py:25 | `w.f` denotes the whole part plus the fraction digits over 10^len(f) |
| `FrequencyParser.ParseNumberShowNat` | app.py:25 | round trip: `float()` of the decimal digits of n is n |
| `FrequencyParser.ParseNumberTrailingDot` | app.py:25 | `"7."` and `"7"` denote the same value |
| `FrequencyParser.ParseNumberTrailingZero` | app.py:25 | a trailing fraction zero does not change the value (`"7.50"` = `"7.5"`) |
| `FrequencyParser.DigitsValueShowNat` | app.py:25 | the value of the printed digits of n is n |
| `FrequencyParser.DecimalWithoutDot` | app.py:25 | a literal without a dot is all digits and denotes the natural number they spell |
| `FrequencyParser.DecimalAtDot` | app.py:25 | a literal with its dot at position k has digit runs on both sides and denotes the whole part plus the fraction digits over 10^len(fraction) |
| `FrequencyParser.UnitKeys` | app.py:8-16 | every key of the unit table is a non-empty run of lower-case letters, so the unit group can spell it and lower-casing keeps it |
| `FrequencyParser.IsMatch` | app.py:20 | a match is anchored at the start of the stripped text, which begins with a digit or a dot |
| `FrequencyParser.ScanLower` | app.py:20 | lower-casing the text leaves the match where it was |
| `FrequencyParser.MatchOfLower` | app.py:20-26 | lower-casing the input keeps the match and the numeric group, and lower-cases the unit group |
| `Text.IsSpace` | app.py:20 | the whitespace class shares no character with the digit-or-dot class or the letter class |
| `Text.LowerChar` | app.py:26 | an ASCII capital becomes its small letter (code point + 32); every other character is kept; letter, whitespace and digit-or-dot classes are preserved |
| `Text.Lower` | app.py:26 | the length is kept, each character is lower-cased, and the result holds no ASCII capital |
| `Text.Strip` | app.py:20 | `str.strip()`: the result neither starts nor ends with whitespace |
| `Text.StripSplit` | app.py:20 | the input is leading whitespace, then the stripped text, then trailing whitespace |
| `Text.StripPadded` | app.py:20 | stripping a padded string without edge whitespace gives that string back |
| `Text.StripIgnoresPadding` | app.py:20 | extra whitespace on either side never changes what `strip()` keeps |
| `Text.StripLower` | app.py:20-26 | stripping and lower-casing commute |
| `Text.LowerIdempotent` | app.py:26 | lower-casing twice is lower-casing once |
| `FrequencyParserExamples.ParseMegahertzUpper` | app.py:8-31 | `"72MHZ"` parses to 72 000 000 |
| `FrequencyParserExamples.ParseMegahertzLower` | app.py:8-31 | `"72mhz"` parses to 72 000 000 |
| `FrequencyParserExamples.ParseNoUnit` | app.py:26 | `"50"` parses to 50 |
| `FrequencyParserExamples.ParseLowerM` | app.py:14 | `" 72 m "` parses to 72 000 000: lower-case `m` is mega, and the padding and gap are ignored |
| `FrequencyParserExamples.ParseKilohertz` | app.py:10 | `"1kHz"` parses to 1000 |
| `FrequencyParserExamples.ParseFraction` | app.py:20-31 | `"1.5k!"` parses to 1500: the fraction is exact and the text after the unit is ignored |
| `FrequencyParserExamples.ParseEmpty` | app.py:20-22 | `""` fails with `InvalidFormat` |
| `FrequencyParserExamples.ParseBlank` | app.py:20-22 | a whitespace-only input fails with `InvalidFormat` |
| `FrequencyParserExamples.ParseLettersFirst` | app.py:20-22 | `"abc"` fails with `InvalidFormat` |
| `FrequencyParserExamples.ParseUnknownUnit` | app.py:28-29 | `"5xyz"` fails with `UnsupportedUnit("xyz")` |
| `FrequencyParserExamples.ParseUnknownUnitUpper` | app.py:26-29 | `"5XYZ"` also names the unit as `"xyz"` |
| `FrequencyParserExamples.ParseTwoDots` | app.py:20-25 | `"1.2.3k"` fails on the number `"1.2.3"` |
| `FrequencyParserExamples.ParseLoneDot` | app.py:20-25 | `"."` matches the pattern but fails on the number |
| `PwmConfigurations.CalculateConfigurations` | app.py:33-52 | the loop returns exactly the filter over prescalers 1..65536. Every pair has prescaler in [1, 65536], period in [1, 65535] and period × prescaler × target = clock exactly. Every such (prescaler, period) pair is returned. Prescalers strictly ascend |
| `PwmConfigurations.Quotient` | app.py:46 | the candidate period times prescaler × target is the clock |
| `PwmConfigurations.IsWhole` | app.py:49 | `is_integer()`: a real is whole exactly when it is the value of some integer |
| `PwmConfigurations.AdmitsBound` | app.py:46-49 | with a positive target, an admitted prescaler times the target never exceeds the clock |
| `PwmConfigurations.ConfigsUpTo` | app.py:41-50 | after prescalers 1..k at most k configurations have been collected |
| `PwmConfigurations.Period` | app.py:49-50 | the recorded period of an admitted prescaler is in [1, 65535] and times prescaler × target is the clock |
| `PwmConfigurations.AdmitsIff` | app.py:46-50 | the filter admits p with period n exactly when n is in [1, 65535] and n × p × target = clock (no division) |
| `PwmConfigurations.AdmitsIffExists` | app.py:46-49 | p is admitted exactly when some period in range yields the clock |
| `PwmConfigurations.AdmitsIffDivides` | app.py:46-50 | for whole-number frequencies, p is admitted exactly when p × target divides the clock with a quotient in [1, 65535], and that quotient is the period |
| `PwmConfigurations.ConfigsUpToSound` | app.py:44-50 | everything collected after prescalers 1..k has a prescaler in [1, k], passed the filter and carries its period |
| `PwmConfigurations.ConfigsUpToComplete` | app.py:44-50 | every admitted prescaler in [1, k] is collected with its period |
| `PwmConfigurations.ConfigsUpToAscending` | app.py:44-50 | collected prescalers strictly ascend, so none appears twice |
| `PwmConfigurations.ConfigsUpToEmpty` | app.py:44-52 | the result is empty exactly when no prescaler passes the filter |
| `PwmConfigurations.ConfigsUpToFirst` | app.py:44-50 | the smallest admitted prescaler comes first |
| `PwmConfigurations.TargetAboveClock` | app.py:46-49 | a target above a positive clock yields no configurations |
| `PwmConfigurations.EqualFrequencies` | app.py:44-50 | 1 MHz from 1 MHz includes (1, 1) |
| `PwmConfigurations.KilohertzFromSeventyTwoMegahertz` | app.py:44-50 | 1 kHz from 72 MHz starts with (2, 36000): prescaler 1 would need period 72000, which is beyond the register |

## Left out

- The `__main__` block (app.py:55-77): prompting, printing and catching `ValueError` are console I/O.
- Floating point: `float()`, the product `value * units[unit]`, the division at app.py:46 and `is_integer()` are modelled with exact reals. Rounding that could admit or reject a near-integer quotient is not modelled.
- `PwmConfigurations.CalculateConfigurations`: requires `target != 0`. With a zero target the source raises `ZeroDivisionError`, and that exception is not modelled. Any other real target and clock, including negative ones, are handled.
- `Text.IsDigit`: `\d` on `str` patterns also matches non-ASCII decimal digits, which `float()` accepts. Only ASCII `0`-`9` are modelled.
- `Text.Lower`: only ASCII letters are lower-cased. The unit group holds only `[a-zA-Z]`, so the unit lookup is exact. `FrequencyParser.ParseIgnoresCase` speaks about ASCII case only.
- Error messages: only the error kind and the offending lower-cased unit are kept, not the message text.
