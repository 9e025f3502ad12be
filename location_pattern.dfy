/** The room location format shared by the catalog and the legacy room registry:
    the whole string must match `^[A-Z]{2,10}-\d{2}-\d{2,4}$` (BUILDING-LEVEL-ROOMCODE,
    as in "LIB-03-12"). Java's `\d` without the Unicode flag is `[0-9]`. */
module LocationPattern {

  predicate IsUpperLetter(c: char) { 'A' <= c <= 'Z' }
  predicate IsDigit(c: char) { '0' <= c <= '9' }

  predicate AllUpperLetters(s: string) { forall i :: 0 <= i < |s| ==> IsUpperLetter(s[i]) }
  predicate AllDigits(s: string) { forall i :: 0 <= i < |s| ==> IsDigit(s[i]) }

  /** The language of the regular expression, stated by its parts: a building code
      of `b` letters, a dash, a two-digit level, a dash and a room code of the rest. */
  ghost predicate HasLocationShape(s: string) {
    exists b :: 2 <= b <= 10 && IsShapeSplit(s, b)
  }

  ghost predicate IsShapeSplit(s: string, b: int)
    requires 2 <= b <= 10
  {
    && b + 4 <= |s|
    && 2 <= |s| - b - 4 <= 4
    && AllUpperLetters(s[..b])
    && s[b] == '-'
    && AllDigits(s[b + 1..b + 3])
    && s[b + 3] == '-'
    && AllDigits(s[b + 4..])
  }

  /** Length of the run of upper-case letters at the start of `s`. */
  function LeadingLetters(s: string): (n: nat)
    ensures n <= |s|
    ensures AllUpperLetters(s[..n])
    ensures n < |s| ==> !IsUpperLetter(s[n])
  {
    if s != [] && IsUpperLetter(s[0]) then
      var n := 1 + LeadingLetters(s[1..]);
      assert s[..n] == [s[0]] + s[1..][..n - 1];
      n
    else 0
  }

  /** The hand-written matcher: the building code is the maximal leading run of
      letters (a dash can never be a letter, so the regex cannot backtrack into it). */
  function MatchesLocationPattern(s: string): bool {
    var b := LeadingLetters(s);
    && 2 <= b <= 10
    && b + 4 <= |s|
    && 2 <= |s| - b - 4 <= 4
    && s[b] == '-'
    && IsDigit(s[b + 1]) && IsDigit(s[b + 2])
    && s[b + 3] == '-'
    && AllDigits(s[b + 4..])
  }

  /** The matcher accepts exactly the strings of the regular expression. */
  lemma MatcherIsPattern(s: string)
    ensures MatchesLocationPattern(s) <==> HasLocationShape(s)
  {
    var n := LeadingLetters(s);
    if MatchesLocationPattern(s) {
      assert IsShapeSplit(s, n);
    }
    if HasLocationShape(s) {
      var b :| 2 <= b <= 10 && IsShapeSplit(s, b);
      LeadingLettersOfSplit(s, b);
      assert s[b + 1..b + 3][0] == s[b + 1] && s[b + 1..b + 3][1] == s[b + 2];
    }
  }

  lemma LeadingLettersOfSplit(s: string, b: int)
    requires 2 <= b <= 10 && IsShapeSplit(s, b)
    ensures LeadingLetters(s) == b
  {
  }

  /** A matching location has at least eight characters and starts with a capital
      letter, so in particular it is never blank. */
  lemma MatchImpliesFirstIsLetter(s: string)
    requires MatchesLocationPattern(s)
    ensures |s| >= 8 && IsUpperLetter(s[0])
  {
    assert s[..LeadingLetters(s)][0] == s[0];
  }

  /** "LIB-03-12", the example of the error message, is accepted. */
  lemma ExampleLocationAccepted()
    ensures MatchesLocationPattern("LIB-03-12")
  {
    assert LeadingLetters("LIB-03-12") == 3 by {
      assert "LIB-03-12"[1..] == "IB-03-12";
      assert "IB-03-12"[1..] == "B-03-12";
      assert "B-03-12"[1..] == "-03-12";
    }
    assert "LIB-03-12"[7..] == "12";
  }

  /** A single-digit floor and lower-case letters are rejected. */
  lemma ExampleLocationsRejected()
    ensures !MatchesLocationPattern("LIB-3-12")
    ensures !MatchesLocationPattern("lib-03-12")
  {
    assert LeadingLetters("LIB-3-12") == 3 by {
      assert "LIB-3-12"[1..] == "IB-3-12";
      assert "IB-3-12"[1..] == "B-3-12";
      assert "B-3-12"[1..] == "-3-12";
    }
  }
}
