/** The Kotlin standard-library text operations the server and the client rely
    on (`Char.isLetter`, `Char.isLowerCase`, `String.lowercase`, `String.trim`),
    restricted to the ASCII range. */
module Text {

  /** `Char.isLetter()` on ASCII characters. */
  predicate IsLetter(c: char)
  {
    'a' <= c <= 'z' || 'A' <= c <= 'Z'
  }

  /** `isLetter() && isLowerCase()` on ASCII characters. */
  predicate IsLowerLetter(c: char)
  {
    'a' <= c <= 'z'
  }

  /** `Char.isWhitespace()` on ASCII characters: tab to carriage return,
      the four information separators and the space. */
  predicate IsWhitespace(c: char)
  {
    9 <= c as int <= 13 || 28 <= c as int <= 32
  }

  /** `String.isLetters()` of plugins/Words.kt: every character is a letter
      (so the empty string qualifies). */
  predicate IsLetters(s: string)
    ensures IsLetters(s) ==> forall i :: 0 <= i < |s| ==> !IsWhitespace(s[i])
  {
    forall i :: 0 <= i < |s| ==> IsLetter(s[i])
  }

  predicate IsLowerLetters(s: string)
  {
    forall i :: 0 <= i < |s| ==> IsLowerLetter(s[i])
  }

  /** `Char.lowercaseChar()`. */
  function LowerChar(c: char): (r: char)
    ensures IsLetter(c) <==> IsLetter(r)
    ensures IsLetter(c) ==> IsLowerLetter(r)
    ensures !('A' <= c <= 'Z') ==> r == c
  {
    if 'A' <= c <= 'Z' then (c as int + 32) as char else c
  }

  /** `String.lowercase()`: character by character. */
  function Lower(s: string): (r: string)
    ensures |r| == |s|
    ensures forall i :: 0 <= i < |s| && !('A' <= s[i] <= 'Z') ==> r[i] == s[i]
    ensures forall i :: 0 <= i < |s| && IsLetter(s[i]) ==> IsLowerLetter(r[i])
  {
    seq(|s|, i requires 0 <= i < |s| => LowerChar(s[i]))
  }

  /** Lower-casing keeps the length, keeps letters letters, makes them
      lower-case, and doing it twice is doing it once. */
  lemma LowerFacts(s: string)
    ensures |Lower(s)| == |s|
    ensures IsLetters(s) <==> IsLetters(Lower(s))
    ensures IsLetters(s) ==> IsLowerLetters(Lower(s))
    ensures Lower(Lower(s)) == Lower(s)
  {
    if IsLetters(Lower(s)) {
      forall i | 0 <= i < |s| ensures IsLetter(s[i]) {
        assert IsLetter(Lower(s)[i]);
      }
    }
  }

  /** A string of lower-case letters is its own lower-case form. */
  lemma LowerOfLowerLetters(s: string)
    requires IsLowerLetters(s)
    ensures Lower(s) == s
  {
  }

  /** Number of leading whitespace characters. */
  function LeadingWhitespace(s: string): (n: nat)
    ensures n <= |s|
    ensures forall i :: 0 <= i < n ==> IsWhitespace(s[i])
    ensures n < |s| ==> !IsWhitespace(s[n])
  {
    if s == [] || !IsWhitespace(s[0]) then 0 else 1 + LeadingWhitespace(s[1..])
  }

  /** Number of trailing whitespace characters. */
  function TrailingWhitespace(s: string): (n: nat)
    ensures n <= |s|
    ensures forall i :: |s| - n <= i < |s| ==> IsWhitespace(s[i])
    ensures n < |s| ==> !IsWhitespace(s[|s| - 1 - n])
  {
    if s == [] || !IsWhitespace(s[|s| - 1]) then 0
    else 1 + TrailingWhitespace(s[..|s| - 1])
  }

  /** `String.trim()`: drop the whitespace at both ends. The result is a
      contiguous piece of the input, everything dropped is whitespace, and
      the result neither starts nor ends with whitespace. */
  function Trim(s: string): (r: string)
    ensures LeadingWhitespace(s) + |r| <= |s|
    ensures r == s[LeadingWhitespace(s)..LeadingWhitespace(s) + |r|]
    ensures forall i :: LeadingWhitespace(s) + |r| <= i < |s| ==> IsWhitespace(s[i])
    ensures r == [] || (!IsWhitespace(r[0]) && !IsWhitespace(r[|r| - 1]))
  {
    var lead := LeadingWhitespace(s);
    var rest := s[lead..];
    var trail := TrailingWhitespace(rest);
    rest[..|rest| - trail]
  }
}
