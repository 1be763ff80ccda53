/**
 * Character classes and the small string operations the frequency parser is
 * built from: maximal runs of a character class (the greedy parts of the
 * pattern), whitespace stripping and ASCII lower-casing.
 */
module Text {

  /** Whitespace as `str.isspace` and the `\s` class of a `str` pattern see it. */
  predicate IsSpace(c: char)
    ensures IsSpace(c) ==> !IsNumChar(c) && !IsLetter(c)
  {
    c == ' ' || c == '\t' || c == '\n' || c == '\r' || c == '\U{0B}' || c == '\U{0C}'
    || ('\U{1C}' <= c <= '\U{1F}') || c == '\U{85}' || c == '\U{A0}' || c == '\U{1680}'
    || ('\U{2000}' <= c <= '\U{200A}') || c == '\U{2028}' || c == '\U{2029}'
    || c == '\U{202F}' || c == '\U{205F}' || c == '\U{3000}'
  }

  predicate IsDigit(c: char) {
    '0' <= c <= '9'
  }

  /** The class `[a-zA-Z]`. */
  predicate IsLetter(c: char) {
    ('a' <= c <= 'z') || ('A' <= c <= 'Z')
  }

  /** The class `[\d\.]`. */
  predicate IsNumChar(c: char) {
    IsDigit(c) || c == '.'
  }

  predicate AllSpace(s: string) {
    forall i :: 0 <= i < |s| ==> IsSpace(s[i])
  }

  predicate AllDigits(s: string) {
    forall i :: 0 <= i < |s| ==> IsDigit(s[i])
  }

  predicate AllLetters(s: string) {
    forall i :: 0 <= i < |s| ==> IsLetter(s[i])
  }

  predicate AllNumChars(s: string) {
    forall i :: 0 <= i < |s| ==> IsNumChar(s[i])
  }

  /** Neither the first nor the last character of `s` is whitespace. */
  predicate NoEdgeSpace(s: string) {
    s == [] || (!IsSpace(s[0]) && !IsSpace(s[|s| - 1]))
  }

  /** Length of the longest prefix of `s` whose characters all satisfy `P`. */
  function RunLength(s: string, P: char -> bool): (n: nat)
    ensures n <= |s|
    ensures forall i :: 0 <= i < n ==> P(s[i])
    ensures n < |s| ==> !P(s[n])
  {
    if s != [] && P(s[0]) then 1 + RunLength(s[1..], P) else 0
  }

  /** Length of the longest suffix of `s` whose characters all satisfy `P`. */
  function TrailingRunLength(s: string, P: char -> bool): (n: nat)
    ensures n <= |s|
    ensures forall i :: |s| - n <= i < |s| ==> P(s[i])
    ensures n < |s| ==> !P(s[|s| - n - 1])
  {
    if s != [] && P(s[|s| - 1]) then 1 + TrailingRunLength(s[..|s| - 1], P) else 0
  }

  /** A prefix of length `k` that is a maximal `P`-run is the one `RunLength` finds. */
  lemma RunLengthUnique(s: string, P: char -> bool, k: nat)
    requires k <= |s|
    requires forall i :: 0 <= i < k ==> P(s[i])
    requires k < |s| ==> !P(s[k])
    ensures RunLength(s, P) == k
  {
  }

  lemma TrailingRunLengthUnique(s: string, P: char -> bool, k: nat)
    requires k <= |s|
    requires forall i :: |s| - k <= i < |s| ==> P(s[i])
    requires k < |s| ==> !P(s[|s| - k - 1])
    ensures TrailingRunLength(s, P) == k
  {
  }

  /** Python's `str.strip()` with no argument: drop leading and trailing whitespace. */
  function Strip(s: string): (r: string)
    ensures NoEdgeSpace(r)
  {
    var i := RunLength(s, IsSpace);
    var t := s[i..];
    t[..|t| - TrailingRunLength(t, IsSpace)]
  }

  /** What `Strip` removes is whitespace, from the two ends only. */
  lemma StripSplit(s: string) returns (lead: string, trail: string)
    ensures AllSpace(lead) && AllSpace(trail) && s == lead + Strip(s) + trail
  {
    var i := RunLength(s, IsSpace);
    var t := s[i..];
    var j := |t| - TrailingRunLength(t, IsSpace);
    lead, trail := s[..i], t[j..];
    assert s == lead + t[..j] + trail;
  }

  /** Stripping a string that is already free of edge whitespace and padded on both sides gives it back. */
  lemma StripPadded(lead: string, s: string, trail: string)
    requires AllSpace(lead) && AllSpace(trail) && NoEdgeSpace(s)
    ensures Strip(lead + s + trail) == s
  {
    var x := lead + s + trail;
    if s == [] {
      assert x == lead + trail;
      RunLengthUnique(x, IsSpace, |x|);
      assert x[|x|..] == [];
    } else {
      RunLengthUnique(x, IsSpace, |lead|);
      var t := x[|lead|..];
      assert t == s + trail;
      TrailingRunLengthUnique(t, IsSpace, |trail|);
      assert t[..|s|] == s;
    }
  }

  /** Extra whitespace on either side never changes what `Strip` keeps. */
  lemma StripIgnoresPadding(lead: string, s: string, trail: string)
    requires AllSpace(lead) && AllSpace(trail)
    ensures Strip(lead + s + trail) == Strip(s)
  {
    var r := Strip(s);
    var a, b := StripSplit(s);
    assert AllSpace(lead + a) && AllSpace(b + trail);
    assert lead + s + trail == (lead + a) + r + (b + trail);
    StripPadded(lead + a, r, b + trail);
  }

  /** A string that does not start with whitespace loses only trailing whitespace, however it is padded in front. */
  lemma StripOfUnpaddedStart(lead: string, t: string) returns (trail: string)
    requires AllSpace(lead) && t != [] && !IsSpace(t[0])
    ensures AllSpace(trail) && t == Strip(lead + t) + trail
  {
    assert lead + t == lead + t + [];
    StripIgnoresPadding(lead, t, []);
    assert RunLength(t, IsSpace) == 0;
    assert t[0..] == t;
    var k := TrailingRunLength(t, IsSpace);
    trail := t[|t| - k..];
    assert t == t[..|t| - k] + trail;
  }

  function LowerChar(c: char): (d: char)
    ensures IsLetter(d) <==> IsLetter(c)
    ensures IsSpace(d) <==> IsSpace(c)
    ensures IsNumChar(d) <==> IsNumChar(c)
    ensures 'A' <= c <= 'Z' ==> 'a' <= d <= 'z' && d as int - c as int == 32
    ensures !('A' <= c <= 'Z') ==> d == c
  {
    if 'A' <= c <= 'Z' then (c as int + 32) as char else c
  }

  /** `str.lower()` restricted to ASCII letters; every other character is kept. */
  function Lower(s: string): (r: string)
    ensures |r| == |s|
    ensures forall i :: 0 <= i < |s| ==> r[i] == LowerChar(s[i])
    ensures forall i :: 0 <= i < |r| ==> !('A' <= r[i] <= 'Z')
  {
    seq(|s|, i requires 0 <= i < |s| => LowerChar(s[i]))
  }

  lemma LowerAppend(a: string, b: string)
    ensures Lower(a + b) == Lower(a) + Lower(b)
  {
  }

  lemma LowerIdempotent(s: string)
    ensures Lower(Lower(s)) == Lower(s)
  {
  }

  /** Lower-casing leaves strings without ASCII upper-case letters alone (digits, dots, whitespace). */
  lemma LowerKeepsNonLetters(s: string)
    requires forall i :: 0 <= i < |s| ==> !IsLetter(s[i])
    ensures Lower(s) == s
  {
  }

  /** Stripping and lower-casing commute. */
  lemma StripLower(s: string)
    ensures Strip(Lower(s)) == Lower(Strip(s))
  {
    var a, b := StripSplit(s);
    LowerAppend(a + Strip(s), b);
    LowerAppend(a, Strip(s));
    LowerKeepsNonLetters(a);
    LowerKeepsNonLetters(b);
    StripPadded(a, Lower(Strip(s)), b);
  }
}
