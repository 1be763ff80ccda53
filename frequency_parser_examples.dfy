/**
 * Worked inputs of the frequency parser. Most examples name their input as a
 * parameter that the requires fixes to the literal.
 */
module FrequencyParserExamples {
  import opened Wrappers
  import opened Text
  import opened FrequencyParser

  lemma DecimalOfDigits(lit: string, n: nat)
    requires lit != [] && AllDigits(lit) && DigitsValue(lit) == n
    ensures IsDecimalLiteral(lit) && Decimal(lit) == n as real
  {
    ParseNumberDigits(lit);
    ParseNumberAccepts(lit);
  }

  lemma DecimalSeventyTwo()
    ensures IsDecimalLiteral("72") && Decimal("72") == 72.0
  {
    assert DigitsValue("72") == 72 by { assert "72"[..1] == "7"; }
    DecimalOfDigits("72", 72);
  }

  /** "MHZ" lower-cases to the table key "mhz". */
  lemma LowerMHZ()
    ensures Lower("MHZ") == "mhz"
  {
    assert Lower("MHZ")[0] == 'm' && Lower("MHZ")[1] == 'h' && Lower("MHZ")[2] == 'z';
  }

  /** "kHz" lower-cases to the table key "khz". */
  lemma LowerKHz()
    ensures Lower("kHz") == "khz"
  {
    assert Lower("kHz")[0] == 'k' && Lower("kHz")[1] == 'h' && Lower("kHz")[2] == 'z';
  }

  /** A literal directly followed by a table unit, with nothing around them. */
  lemma ParseLiteralUnit(input: string, lit: string, unit: string)
    requires input == lit + unit
    requires IsDecimalLiteral(lit)
    requires unit != [] && AllLetters(unit) && Lower(unit) in Units
    ensures Parse(input) == Success(Decimal(lit) * Units[Lower(unit)])
  {
    var empty: string := [];
    assert empty + lit + empty + unit + empty == input by {
      assert empty + lit == lit && lit + empty == lit && unit + empty == unit;
    }
    ParseWithUnit(empty, lit, empty, unit, empty);
  }

  /** "72MHZ" is 72 MHz. */
  lemma ParseMegahertzUpper(input: string)
    requires input == "72MHZ"
    ensures Parse(input) == Success(72000000.0)
  {
    DecimalSeventyTwo();
    LowerMHZ();
    assert input == "72" + "MHZ";
    ParseLiteralUnit(input, "72", "MHZ");
  }

  /** "72mhz" is 72 MHz too: the unit is matched in any case. */
  lemma ParseMegahertzLower(input: string)
    requires input == "72mhz"
    ensures Parse(input) == Success(72000000.0)
  {
    DecimalSeventyTwo();
    assert Lower("mhz") == "mhz";
    assert input == "72" + "mhz";
    ParseLiteralUnit(input, "72", "mhz");
  }

  /** "50" has no unit and is 50 Hz. */
  lemma ParseNoUnit(input: string)
    requires input == "50"
    ensures Parse(input) == Success(50.0)
  {
    assert DigitsValue("50") == 50 by { assert "50"[..1] == "5"; }
    DecimalOfDigits("50", 50);
    assert [] + "50" + [] + [] == input;
    ParseWithoutUnit([], "50", [], []);
  }

  /** Lower-case "m" is mega, not milli; the padding and the gap are ignored: " 72 m " is 72 000 000 Hz. */
  lemma ParseLowerM(input: string)
    requires input == " 72 m "
    ensures Parse(input) == Success(72000000.0)
  {
    DecimalSeventyTwo();
    assert Lower("m") == "m";
    assert " " + "72" + " " + "m" + " " == input;
    ParseWithUnit(" ", "72", " ", "m", " ");
  }

  /** "1kHz" is 1000 Hz. */
  lemma ParseKilohertz(input: string)
    requires input == "1kHz"
    ensures Parse(input) == Success(1000.0)
  {
    DecimalOfDigits("1", 1);
    LowerKHz();
    assert input == "1" + "kHz";
    ParseLiteralUnit(input, "1", "kHz");
  }

  /** "1.5" denotes one and a half. */
  lemma DecimalOneAndAHalf()
    ensures IsDecimalLiteral("1.5") && Decimal("1.5") == 1.5
  {
    assert FixedPoint("1", "5") == 1.5 by {
      assert DigitsValue("1") == 1 && DigitsValue("5") == 5 && Pow10(1) == 10;
    }
    ParseNumberWithDot("1", "5");
    assert "1" + "." + "5" == "1.5";
    ParseNumberAccepts("1.5");
  }

  /** A fraction scales exactly, and text after the unit is ignored: "1.5k!" is 1500 Hz. */
  lemma ParseFraction(input: string)
    requires input == "1.5k!"
    ensures Parse(input) == Success(1500.0)
  {
    DecimalOneAndAHalf();
    assert Lower("k") == "k";
    assert [] + "1.5" + [] + "k" + "!" == input;
    ParseWithUnit([], "1.5", [], "k", "!");
  }

  /** The empty input has no numeric prefix. */
  lemma ParseEmpty()
    ensures Parse("") == Failure(InvalidFormat)
  {
  }

  /** Nor has a blank one. */
  lemma ParseBlank()
    ensures Parse(" \t ") == Failure(InvalidFormat)
  {
    var input := " \t ";
    assert AllSpace(input);
    StripPadded(input, [], []);
    assert input + [] + [] == input;
  }

  /** Nor has one that starts with a letter. */
  lemma ParseLettersFirst()
    ensures Parse("abc") == Failure(InvalidFormat)
  {
    var input := "abc";
    assert NoEdgeSpace(input);
    StripPadded([], input, []);
    assert [] + input + [] == input;
  }

  /** "5xyz" is refused, naming the unit. */
  lemma ParseUnknownUnit(input: string)
    requires input == "5xyz"
    ensures Parse(input) == Failure(UnsupportedUnit("xyz"))
  {
    DecimalOfDigits("5", 5);
    assert Lower("xyz") == "xyz";
    assert [] + "5" + [] + "xyz" + [] == input;
    ParseUnsupportedUnit([], "5", [], "xyz", []);
  }

  /** The refused unit is named lower-cased: "5XYZ" names "xyz". */
  lemma ParseUnknownUnitUpper(input: string)
    requires input == "5XYZ"
    ensures Parse(input) == Failure(UnsupportedUnit("xyz"))
  {
    DecimalOfDigits("5", 5);
    assert Lower("XYZ") == "xyz";
    assert [] + "5" + [] + "XYZ" + [] == input;
    ParseUnsupportedUnit([], "5", [], "XYZ", []);
  }

  /** A run of digits and dots that float() rejects fails on the number: "1.2.3k". */
  lemma ParseTwoDots(input: string)
    requires input == "1.2.3k"
    ensures Parse(input) == Failure(InvalidNumber("1.2.3"))
  {
    var m := MatchOfPieces("1.2.3", [], "k", []);
    assert "1.2.3" + [] + "k" + [] == input;
    assert !AtMostOneDot("1.2.3") by { assert "1.2.3"[1] == '.' && "1.2.3"[3] == '.'; }
    assert [] + input == input;
    ParseInvalidNumber([], input, m);
  }

  /** A lone dot is a numeric prefix that float() rejects. */
  lemma ParseLoneDot(input: string)
    requires input == "."
    ensures Parse(input) == Failure(InvalidNumber("."))
  {
    var m := MatchOfPieces(".", [], [], []);
    assert "." + [] + [] + [] == input;
    assert !HasDigit(".");
    assert [] + input == input;
    ParseInvalidNumber([], input, m);
  }
}
