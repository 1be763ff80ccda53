/**
 * The frequency-string parser of app.py: strip the input, match the pattern
 * `([\d\.]+)\s*([a-zA-Z]*)` at its start, convert the numeric group to a
 * number, lower-case the unit group (empty means "hz"), look it up in the
 * fixed unit table and scale. Numbers are exact reals.
 */
module FrequencyParser {
  import opened Wrappers
  import opened Text

  /** The three ways parsing fails. */
  datatype ParseError =
    | InvalidFormat                  // no numeric prefix after stripping
    | InvalidNumber(literal: string) // the numeric group is not a float literal
    | UnsupportedUnit(unit: string)  // the lower-cased unit is not in the table

  /** The unit table; lower-case "m" is mega. */
  const Units: map<string, real> :=
    map["hz" := 1.0, "khz" := 1000.0, "mhz" := 1000000.0, "ghz" := 1000000000.0,
        "k" := 1000.0, "m" := 1000000.0, "g" := 1000000000.0]

  /**
   * Every key is a non-empty run of lower-case letters: the unit group can
   * spell each of them, and each is its own lower-case form.
   */
  lemma UnitKeys()
    ensures forall key :: key in Units ==> key != [] && AllLetters(key) && Lower(key) == key
  {
  }

  // ---------------------------------------------------------------------------
  // Decimal literals (what float() accepts of a run of digits and dots)

  function Pow10(n: nat): (r: nat)
    ensures r >= 1
  {
    if n == 0 then 1 else 10 * Pow10(n - 1)
  }

  function DigitValue(c: char): (d: nat)
    requires IsDigit(c)
    ensures d < 10
  {
    c as int - '0' as int
  }

  /** The natural number a string of decimal digits denotes ("" denotes 0). */
  function DigitsValue(s: string): (v: nat)
    requires AllDigits(s)
    ensures v < Pow10(|s|)
  {
    if s == [] then 0 else DigitsValue(s[..|s| - 1]) * 10 + DigitValue(s[|s| - 1])
  }

  predicate HasDigit(s: string) {
    exists i :: 0 <= i < |s| && IsDigit(s[i])
  }

  predicate AtMostOneDot(s: string) {
    forall i, j :: 0 <= i < j < |s| && s[i] == '.' ==> s[j] != '.'
  }

  /**
   * A run of digits and dots that float() accepts: at most one dot and at
   * least one digit ("7", "7.", ".5", "7.25"; not ".", "1.2.3").
   */
  predicate IsDecimalLiteral(s: string) {
    AllNumChars(s) && AtMostOneDot(s) && HasDigit(s)
  }

  predicate IsNotDot(c: char) {
    c != '.'
  }

  /** The number a literal with whole-part digits `whole` and fraction digits `frac` denotes. */
  function FixedPoint(whole: string, frac: string): (v: real)
    requires AllDigits(whole) && AllDigits(frac)
    ensures 0.0 <= v
  {
    DigitsValue(whole) as real + DigitsValue(frac) as real / Pow10(|frac|) as real
  }

  /** float() of a run of digits and dots, as an exact real; None where float() raises. */
  function ParseNumber(lit: string): (r: Option<real>)
    requires AllNumChars(lit)
    ensures r.Some? ==> 0.0 <= r.value
  {
    var k := RunLength(lit, IsNotDot);
    var whole := lit[..k];
    var frac := if k < |lit| then lit[k + 1..] else [];
    if '.' in frac || |whole| + |frac| == 0 then None
    else Some(FixedPoint(whole, frac))
  }

  /** float() accepts a run of digits and dots exactly when it has at most one dot and some digit. */
  lemma ParseNumberAccepts(lit: string)
    requires AllNumChars(lit)
    ensures ParseNumber(lit).Some? <==> IsDecimalLiteral(lit)
  {
    var k := RunLength(lit, IsNotDot);
    if k < |lit| {
      var frac := lit[k + 1..];
      if '.' !in frac {
        if k + |frac| == 0 {
          assert lit == ".";
        } else if k > 0 {
          assert IsDigit(lit[0]);
        } else {
          assert IsDigit(lit[k + 1]);
        }
      } else {
        var i :| 0 <= i < |frac| && frac[i] == '.';
        assert lit[k] == '.' && lit[k + 1 + i] == '.';
      }
    } else if lit != [] {
      assert IsDigit(lit[0]);
    }
  }

  /** Decimal digits of a natural number, without leading zeros. */
  function ShowNat(n: nat): (s: string)
    ensures s != [] && AllDigits(s)
  {
    var d := ['0' + (n % 10) as char];
    if n < 10 then d else ShowNat(n / 10) + d
  }

  lemma {:induction false} DigitsValueShowNat(n: nat)
    ensures DigitsValue(ShowNat(n)) == n
  {
    var s := ShowNat(n);
    if n >= 10 {
      DigitsValueShowNat(n / 10);
      assert s[..|s| - 1] == ShowNat(n / 10);
    }
  }

  /** A run of digits alone denotes the natural number it spells. */
  lemma ParseNumberDigits(digits: string)
    requires digits != [] && AllDigits(digits)
    ensures AllNumChars(digits) && ParseNumber(digits) == Some(DigitsValue(digits) as real)
  {
    RunLengthUnique(digits, IsNotDot, |digits|);
    assert digits[..|digits|] == digits;
  }

  /** A literal with a dot denotes its whole part plus its fraction digits over a power of ten. */
  lemma ParseNumberWithDot(whole: string, frac: string)
    requires AllDigits(whole) && AllDigits(frac) && whole + frac != []
    ensures AllNumChars(whole + "." + frac)
    ensures ParseNumber(whole + "." + frac) == Some(FixedPoint(whole, frac))
  {
    var lit := whole + "." + frac;
    RunLengthUnique(lit, IsNotDot, |whole|);
    assert lit[..|whole|] == whole && lit[|whole| + 1..] == frac;
  }

  /** Round trip: float() of the digits of n is n. */
  lemma ParseNumberShowNat(n: nat)
    ensures AllNumChars(ShowNat(n)) && ParseNumber(ShowNat(n)) == Some(n as real)
  {
    ParseNumberDigits(ShowNat(n));
    DigitsValueShowNat(n);
  }

  /** A dot with nothing after it adds nothing: float("7.") == float("7"). */
  lemma ParseNumberTrailingDot(digits: string)
    requires digits != [] && AllDigits(digits)
    ensures AllNumChars(digits + ".") && ParseNumber(digits + ".") == ParseNumber(digits)
  {
    ParseNumberDigits(digits);
    assert digits + "." == digits + "." + [];
    ParseNumberWithDot(digits, []);
  }

  lemma DigitsValueAppendZero(s: string)
    requires AllDigits(s)
    ensures AllDigits(s + "0") && DigitsValue(s + "0") == 10 * DigitsValue(s)
  {
    assert (s + "0")[..|s|] == s;
  }

  /** Scaling numerator and denominator by ten keeps a ratio. */
  lemma RatioScale(f: real, p: real, f0: real, p0: real)
    requires p > 0.0 && f0 == 10.0 * f && p0 == 10.0 * p
    ensures f0 / p0 == f / p
  {
    var r := f / p;
    assert f == r * p;
    assert f0 == r * p0;
  }

  lemma FixedPointAppendZero(whole: string, frac: string)
    requires AllDigits(whole) && AllDigits(frac)
    ensures AllDigits(frac + "0") && FixedPoint(whole, frac + "0") == FixedPoint(whole, frac)
  {
    DigitsValueAppendZero(frac);
    var f, f0 := DigitsValue(frac) as real, DigitsValue(frac + "0") as real;
    var p, p0 := Pow10(|frac|) as real, Pow10(|frac + "0"|) as real;
    assert f0 == 10.0 * f && p0 == 10.0 * p;
    RatioScale(f, p, f0, p0);
  }

  /** A trailing zero after the dot adds nothing: float("7.50") == float("7.5"). */
  lemma ParseNumberTrailingZero(whole: string, frac: string)
    requires AllDigits(whole) && AllDigits(frac) && whole + frac != []
    ensures AllNumChars(whole + "." + frac) && AllNumChars(whole + "." + frac + "0")
    ensures ParseNumber(whole + "." + frac + "0") == ParseNumber(whole + "." + frac)
  {
    var frac0 := frac + "0";
    DigitsValueAppendZero(frac);
    var lit, lit0 := whole + "." + frac, whole + "." + frac0;
    assert whole + "." + frac + "0" == lit0;
    assert ParseNumber(lit) == Some(FixedPoint(whole, frac)) by { ParseNumberWithDot(whole, frac); }
    assert ParseNumber(lit0) == Some(FixedPoint(whole, frac0)) by { ParseNumberWithDot(whole, frac0); }
    FixedPointAppendZero(whole, frac);
  }

  // ---------------------------------------------------------------------------
  // The pattern match

  /**
   * Where the groups of a match lie in the stripped text `t`: the numeric
   * group is `t[..numberEnd]`, the whitespace between the groups is
   * `t[numberEnd..unitStart]`, the unit group is `t[unitStart..unitEnd]`, and
   * `t[unitEnd..]` is not part of the match.
   */
  datatype Match = Match(numberEnd: nat, unitStart: nat, unitEnd: nat)

  /**
   * `m` is the match of `([\d\.]+)\s*([a-zA-Z]*)` at the start of `t`: each
   * piece has the right class and each run is maximal, because all three
   * quantifiers are greedy and only the first must match something.
   */
  predicate IsMatch(t: string, m: Match)
    ensures IsMatch(t, m) ==> t != [] && IsNumChar(t[0])
  {
    && 0 < m.numberEnd <= m.unitStart <= m.unitEnd <= |t|
    && (forall i :: 0 <= i < m.numberEnd ==> IsNumChar(t[i]))
    && (m.numberEnd < |t| ==> !IsNumChar(t[m.numberEnd]))
    && (forall i :: m.numberEnd <= i < m.unitStart ==> IsSpace(t[i]))
    && (m.unitStart < |t| ==> !IsSpace(t[m.unitStart]))
    && (forall i :: m.unitStart <= i < m.unitEnd ==> IsLetter(t[i]))
    && (m.unitEnd < |t| ==> !IsLetter(t[m.unitEnd]))
  }

  /** `re.match` of the pattern against a stripped string, as an explicit two-phase scan. */
  function Scan(t: string): (r: Option<Match>)
    ensures r.Some? <==> t != [] && IsNumChar(t[0])
    ensures r.Some? ==> IsMatch(t, r.value)
  {
    var n := RunLength(t, IsNumChar);
    if n == 0 then None
    else
      var g := n + RunLength(t[n..], IsSpace);
      var u := g + RunLength(t[g..], IsLetter);
      Some(Match(n, g, u))
  }

  /** Two matches of the same text agree: each group boundary is forced by the next character. */
  lemma MatchUnique(t: string, m1: Match, m2: Match)
    requires IsMatch(t, m1) && IsMatch(t, m2)
    ensures m1 == m2
  {
    if m1.numberEnd != m2.numberEnd {
      assert false;
    } else if m1.unitStart != m2.unitStart {
      assert false;
    } else if m1.unitEnd != m2.unitEnd {
      assert false;
    }
  }

  /** Whatever satisfies `IsMatch` is what `Scan` finds: the match is unique. */
  lemma MatchIsScan(t: string, m: Match)
    requires IsMatch(t, m)
    ensures Scan(t) == Some(m)
  {
    assert IsNumChar(t[0]);
    MatchUnique(t, Scan(t).value, m);
  }

  /** Whitespace at the end of the text never changes the groups of the match. */
  lemma MatchAppendSpaces(t: string, m: Match, w: string)
    requires IsMatch(t, m) && AllSpace(w)
    ensures IsMatch(t + w, if m.unitStart == |t| then Match(m.numberEnd, |t + w|, |t + w|) else m)
  {
  }

  // ---------------------------------------------------------------------------
  // Parsing

  /** The unit stage: lower-case the letters, default to "hz", look up and scale. */
  function ApplyUnit(value: real, unit: string): (r: Result<real, ParseError>)
    ensures r != Failure(InvalidFormat) && !(r.Failure? && r.error.InvalidNumber?)
  {
    var lowered := Lower(unit);
    var key := if lowered == [] then "hz" else lowered;
    if key in Units then Success(value * Units[key]) else Failure(UnsupportedUnit(key))
  }

  /** Everything after the match: float() of the number, then the unit stage. */
  function Evaluate(number: string, unit: string): (r: Result<real, ParseError>)
    requires AllNumChars(number)
    ensures r != Failure(InvalidFormat)
  {
    match ParseNumber(number)
    case None => Failure(InvalidNumber(number))
    case Some(value) => ApplyUnit(value, unit)
  }

  /** parse_frequency_input: the input in Hz, or why it was refused. */
  function Parse(input: string): (r: Result<real, ParseError>)
    ensures r == Failure(InvalidFormat) <==> var t := Strip(input); t == [] || !IsNumChar(t[0])
  {
    var t := Strip(input);
    match Scan(t)
    case None => Failure(InvalidFormat)
    case Some(m) => Evaluate(t[..m.numberEnd], t[m.unitStart..m.unitEnd])
  }

  /** A parsed frequency is never negative: the literal has no sign and every scale is positive. */
  lemma ParseNonNegative(input: string)
    ensures Parse(input).Success? ==> 0.0 <= Parse(input).value
  {
    var t := Strip(input);
    if m :| Scan(t) == Some(m) {
      var number, unit := t[..m.numberEnd], t[m.unitStart..m.unitEnd];
      if value :| ParseNumber(number) == Some(value) {
        ApplyUnitNonNegative(value, unit);
      }
    }
  }

  /** Every scale in the table is at least 1, so scaling keeps the sign. */
  lemma ApplyUnitNonNegative(value: real, unit: string)
    requires 0.0 <= value
    ensures ApplyUnit(value, unit).Success? ==> 0.0 <= ApplyUnit(value, unit).value
  {
    var lowered := Lower(unit);
    var key := if lowered == [] then "hz" else lowered;
    if key in Units {
      assert Units[key] >= 1.0;
    }
  }

  /** Parsing a string whose stripped form matches evaluates the two groups. */
  lemma ParseOfStripped(input: string, m: Match)
    requires IsMatch(Strip(input), m)
    ensures Parse(input) == Evaluate(Strip(input)[..m.numberEnd], Strip(input)[m.unitStart..m.unitEnd])
  {
    MatchIsScan(Strip(input), m);
  }

  /** Only trailing whitespace is stripped from a text that starts with its numeric group. */
  lemma StripOfMatch(lead: string, t: string, m: Match) returns (b: string)
    requires AllSpace(lead) && IsMatch(t, m)
    ensures AllSpace(b) && t == Strip(lead + t) + b
  {
    assert !IsSpace(t[0]);
    b := StripOfUnpaddedStart(lead, t);
  }

  lemma SlicesOfAppend(s: string, b: string, n: nat, i: nat, j: nat)
    requires n <= |s| && i <= j <= |s|
    ensures (s + b)[..n] == s[..n] && (s + b)[i..j] == s[i..j]
  {
  }

  /** Dropping trailing whitespace keeps both groups of the match. */
  lemma MatchOfStripped(t: string, m: Match, s: string, b: string) returns (m': Match)
    requires IsMatch(t, m) && t == s + b && AllSpace(b)
    ensures IsMatch(s, m')
    ensures s[..m'.numberEnd] == t[..m.numberEnd] && s[m'.unitStart..m'.unitEnd] == t[m.unitStart..m.unitEnd]
  {
    assert !IsSpace(t[0]);
    assert t != b && [] + b == b;
    assert s[0] == t[0];
    m' := Scan(s).value;
    MatchAppendSpaces(s, m', b);
    var m'' := if m'.unitStart == |s| then Match(m'.numberEnd, |t|, |t|) else m';
    MatchIsScan(t, m'');
    MatchIsScan(t, m);
    SlicesOfAppend(s, b, m'.numberEnd, m'.unitStart, m'.unitEnd);
  }

  /**
   * The result depends only on the number and unit groups: leading
   * whitespace, the gap, whatever follows the unit and trailing whitespace
   * are all ignored.
   */
  lemma ParseOfMatch(lead: string, t: string, m: Match)
    requires AllSpace(lead) && IsMatch(t, m)
    ensures Parse(lead + t) == Evaluate(t[..m.numberEnd], t[m.unitStart..m.unitEnd])
  {
    var b := StripOfMatch(lead, t, m);
    var m' := MatchOfStripped(t, m, Strip(lead + t), b);
    ParseOfStripped(lead + t, m');
  }
  /** Other letters are refused, naming them lower-cased. */
  lemma ApplyUnitNotInTable(value: real, unit: string)
    requires unit != [] && Lower(unit) !in Units
    ensures ApplyUnit(value, unit) == Failure(UnsupportedUnit(Lower(unit)))
  {
  }

  /** No letters at all means hertz. */
  lemma ApplyUnitDefault(value: real)
    ensures ApplyUnit(value, []) == Success(value)
  {
  }

  lemma ApplyUnitLower(value: real, unit: string)
    ensures ApplyUnit(value, Lower(unit)) == ApplyUnit(value, unit)
  {
    LowerIdempotent(unit);
  }

  /** A number float() accepts goes on to the unit stage with its exact value. */
  lemma EvaluateDecimal(lit: string, unit: string)
    requires IsDecimalLiteral(lit)
    ensures Evaluate(lit, unit) == ApplyUnit(Decimal(lit), unit)
  {
  }

  /** A number, optional whitespace and a table unit in any case give value × scale. */
  lemma ParseWithUnit(lead: string, lit: string, gap: string, unit: string, rest: string)
    requires AllSpace(lead) && IsDecimalLiteral(lit) && AllSpace(gap)
    requires unit != [] && AllLetters(unit) && Lower(unit) in Units
    requires rest == [] || !IsLetter(rest[0])
    ensures Parse(lead + lit + gap + unit + rest) == Success(Decimal(lit) * Units[Lower(unit)])
  {
    assert (gap + unit + rest)[0] == if gap == [] then unit[0] else gap[0];
    assert (unit + rest)[0] == unit[0];
    ParseOfPieces(lead, lit, gap, unit, rest);
    EvaluateDecimal(lit, unit);
    ApplyUnitInTable(lit, unit);
  }

  /** A table unit, in any case, scales the literal's value by its table entry. */
  lemma ApplyUnitInTable(lit: string, unit: string)
    requires IsDecimalLiteral(lit) && unit != [] && Lower(unit) in Units
    ensures ApplyUnit(Decimal(lit), unit) == Success(Decimal(lit) * Units[Lower(unit)])
  {
    var key := Lower(unit);
    assert |key| == |unit|;
  }

  /** Without letters after the number the scale is that of "hz", i.e. 1. */
  lemma ParseWithoutUnit(lead: string, lit: string, gap: string, rest: string)
    requires AllSpace(lead) && IsDecimalLiteral(lit) && AllSpace(gap)
    requires gap + rest != [] ==> !IsNumChar((gap + rest)[0])
    requires rest != [] ==> !IsLetter(rest[0]) && !IsSpace(rest[0])
    ensures Parse(lead + lit + gap + rest) == Success(Decimal(lit))
  {
    assert lead + lit + gap + rest == lead + lit + gap + [] + rest;
    ParseOfPieces(lead, lit, gap, [], rest);
    EvaluateDecimal(lit, []);
    ApplyUnitDefault(Decimal(lit));
  }

  /** A letter run outside the table, in any case, is refused, naming the lower-cased run. */
  lemma ParseUnsupportedUnit(lead: string, lit: string, gap: string, unit: string, rest: string)
    requires AllSpace(lead) && IsDecimalLiteral(lit) && AllSpace(gap)
    requires unit != [] && AllLetters(unit) && Lower(unit) !in Units
    requires rest == [] || !IsLetter(rest[0])
    ensures Parse(lead + lit + gap + unit + rest) == Failure(UnsupportedUnit(Lower(unit)))
  {
    assert (gap + unit + rest)[0] == if gap == [] then unit[0] else gap[0];
    assert (unit + rest)[0] == unit[0];
    ParseOfPieces(lead, lit, gap, unit, rest);
    EvaluateDecimal(lit, unit);
    ApplyUnitNotInTable(Decimal(lit), unit);
  }

  /** A numeric run float() rejects is refused, whatever unit follows. */
  lemma ParseInvalidNumber(lead: string, t: string, m: Match)
    requires AllSpace(lead) && IsMatch(t, m) && !IsDecimalLiteral(t[..m.numberEnd])
    ensures Parse(lead + t) == Failure(InvalidNumber(t[..m.numberEnd]))
  {
    ParseOfMatch(lead, t, m);
    ParseNumberAccepts(t[..m.numberEnd]);
  }

  /** Parsing a text given as the four pieces of its match. */
  lemma ParseOfPieces(lead: string, lit: string, gap: string, unit: string, rest: string)
    requires AllSpace(lead)
    requires lit != [] && AllNumChars(lit) && AllSpace(gap) && AllLetters(unit)
    requires gap + unit + rest != [] ==> !IsNumChar((gap + unit + rest)[0])
    requires unit + rest != [] ==> !IsSpace((unit + rest)[0])
    requires rest != [] ==> !IsLetter(rest[0])
    ensures Parse(lead + lit + gap + unit + rest) == Evaluate(lit, unit)
  {
    var t := lit + gap + unit + rest;
    var m := MatchOfPieces(lit, gap, unit, rest);
    assert lead + lit + gap + unit + rest == lead + t;
    ParseOfMatch(lead, t, m);
  }

  /** The match of a text given as its four pieces. */
  lemma MatchOfPieces(lit: string, gap: string, unit: string, rest: string) returns (m: Match)
    requires lit != [] && AllNumChars(lit) && AllSpace(gap) && AllLetters(unit)
    requires gap + unit + rest != [] ==> !IsNumChar((gap + unit + rest)[0])
    requires unit + rest != [] ==> !IsSpace((unit + rest)[0])
    requires rest != [] ==> !IsLetter(rest[0])
    ensures var t := lit + gap + unit + rest;
            IsMatch(t, m) && t[..m.numberEnd] == lit && t[m.unitStart..m.unitEnd] == unit
  {
    var t := lit + gap + unit + rest;
    m := Match(|lit|, |lit| + |gap|, |lit| + |gap| + |unit|);
    assert t[..m.numberEnd] == lit;
    assert t[m.numberEnd..] == gap + unit + rest;
    assert t[m.unitStart..] == unit + rest;
    assert t[m.unitStart..m.unitEnd] == unit;
    assert t[m.unitEnd..] == rest;
  }

  /** The value of a decimal literal, as `float()` computes it. */
  function Decimal(lit: string): (v: real)
    requires IsDecimalLiteral(lit)
    ensures ParseNumber(lit) == Some(v)
  {
    ParseNumberAccepts(lit);
    ParseNumber(lit).value
  }

  /** A literal without a dot is worth the number its digits spell. */
  lemma DecimalWithoutDot(lit: string)
    requires IsDecimalLiteral(lit) && '.' !in lit
    ensures AllDigits(lit) && Decimal(lit) == DigitsValue(lit) as real
  {
    ParseNumberDigits(lit);
  }

  /** A literal split at its dot is worth its whole part plus its fraction digits over a power of ten. */
  lemma DecimalAtDot(lit: string, k: nat)
    requires IsDecimalLiteral(lit) && k < |lit| && lit[k] == '.'
    ensures AllDigits(lit[..k]) && AllDigits(lit[k + 1..])
    ensures Decimal(lit) == FixedPoint(lit[..k], lit[k + 1..])
  {
    var w, f := lit[..k], lit[k + 1..];
    assert lit == w + "." + f;
    ParseNumberWithDot(w, f);
  }

  /** Lower-casing the text keeps the match where it was. */
  lemma ScanLower(t: string)
    ensures Scan(Lower(t)).Some? == Scan(t).Some?
    ensures Scan(t).Some? ==> Scan(Lower(t)) == Scan(t)
  {
    if Scan(t).Some? {
      var m := Scan(t).value;
      assert IsMatch(Lower(t), m);
      MatchIsScan(Lower(t), m);
    }
  }

  lemma LowerSlices(t: string, n: nat, i: nat, j: nat)
    requires n <= |t| && i <= j <= |t| && AllNumChars(t[..n])
    ensures Lower(t)[..n] == t[..n] && Lower(t)[i..j] == Lower(t[i..j])
  {
  }

  lemma EvaluateLower(number: string, unit: string)
    requires AllNumChars(number)
    ensures Evaluate(number, Lower(unit)) == Evaluate(number, unit)
  {
    match ParseNumber(number)
    case None =>
    case Some(value) => ApplyUnitLower(value, unit);
  }

  lemma ParseOfScan(input: string, m: Match)
    requires Scan(Strip(input)) == Some(m)
    ensures Parse(input) == Evaluate(Strip(input)[..m.numberEnd], Strip(input)[m.unitStart..m.unitEnd])
  {
  }

  /** Lower-casing a matching input keeps the match and its number group, and lower-cases its unit group. */
  lemma MatchOfLower(input: string, m: Match)
    requires Scan(Strip(input)) == Some(m)
    ensures Scan(Strip(Lower(input))) == Some(m)
    ensures Strip(Lower(input))[..m.numberEnd] == Strip(input)[..m.numberEnd]
    ensures Strip(Lower(input))[m.unitStart..m.unitEnd] == Lower(Strip(input)[m.unitStart..m.unitEnd])
  {
    var t := Strip(input);
    StripLower(input);
    ScanLower(t);
    LowerSlices(t, m.numberEnd, m.unitStart, m.unitEnd);
  }

  /** A matching input: both parses evaluate the same groups, the unit lower-cased or not. */
  lemma ParseLowerOfMatch(input: string, m: Match)
    requires Scan(Strip(input)) == Some(m)
    ensures Parse(Lower(input)) == Parse(input)
  {
    var t := Strip(input);
    var number, unit := t[..m.numberEnd], t[m.unitStart..m.unitEnd];
    EvaluateLower(number, unit);
    MatchOfLower(input, m);
    ParseOfScan(input, m);
    ParseOfScan(Lower(input), m);
  }

  /** The parser does not distinguish ASCII upper and lower case anywhere in its input. */
  lemma ParseIgnoresCase(input: string)
    ensures Parse(Lower(input)) == Parse(input)
  {
    var t := Strip(input);
    match Scan(t)
    case Some(m) => ParseLowerOfMatch(input, m);
    case None =>
      assert Strip(Lower(input)) == Lower(t) by { StripLower(input); }
      ScanLower(t);
  }
}
