/**
 * The character-level string operations the contact-form checks rely on:
 * ECMAScript whitespace (shared by `String.prototype.trim` and the regular
 * expression class `\s`), `trim()` itself, and the "blank after trimming" test.
 */
module Text {

  /**
   * ECMAScript's WhiteSpace and LineTerminator code points (every Zs space
   * included): what `trim()` strips and what `\s` matches.
   */
  predicate IsWhitespace(c: char): (b: bool)
    ensures c == ' ' || c == '\t' || c == '\n' || c == '\r' || c == '\U{00A0}' ==> b
    ensures b ==> !('0' <= c <= '9') && c != '@' && c != '.' && c != '-'
  {
    if c <= ' ' then '\U{0009}' <= c <= '\U{000D}' || c == ' '
    else if c < '\U{2000}' then c == '\U{00A0}' || c == '\U{1680}'
    else ('\U{2000}' <= c <= '\U{200A}') || c == '\U{2028}' || c == '\U{2029}' || c == '\U{202F}' ||
         c == '\U{205F}' || c == '\U{3000}' || c == '\U{FEFF}'
  }

  /** No character of `s` is whitespace: every character matches `\S`. */
  predicate NoWhitespace(s: string)
  {
    forall k | 0 <= k < |s| :: !IsWhitespace(s[k])
  }

  /** Every character of `s` is whitespace. */
  predicate AllWhitespace(s: string)
  {
    forall k | 0 <= k < |s| :: IsWhitespace(s[k])
  }

  /** The length of the run of whitespace `s` starts with. */
  function LeadingWhitespace(s: string): (n: nat)
    ensures n <= |s|
    ensures forall k | 0 <= k < n :: IsWhitespace(s[k])
    ensures n < |s| ==> !IsWhitespace(s[n])
  {
    if s == [] || !IsWhitespace(s[0]) then 0 else 1 + LeadingWhitespace(s[1..])
  }

  /** The length of the run of whitespace `s` ends with. */
  function TrailingWhitespace(s: string): (n: nat)
    ensures n <= |s|
    ensures forall k | |s| - n <= k < |s| :: IsWhitespace(s[k])
    ensures n < |s| ==> !IsWhitespace(s[|s| - n - 1])
  {
    if s == [] || !IsWhitespace(s[|s| - 1]) then 0 else 1 + TrailingWhitespace(s[..|s| - 1])
  }

  /** `r` is `s[i..j]`, and everything of `s` before `i` and from `j` on is whitespace. */
  ghost predicate IsSliceBetweenWhitespace(s: string, r: string, i: int, j: int)
  {
    0 <= i <= j <= |s| && r == s[i..j] &&
    (forall k | 0 <= k < i :: IsWhitespace(s[k])) && (forall k | j <= k < |s| :: IsWhitespace(s[k]))
  }

  /**
   * JavaScript's `s.trim()`: the slice of `s` left when the whitespace at both
   * ends is cut off; it neither starts nor ends with whitespace.
   */
  function Trim(s: string): (r: string)
    ensures IsSliceBetweenWhitespace(s, r, LeadingWhitespace(s), LeadingWhitespace(s) + |r|)
    ensures r != [] ==> !IsWhitespace(r[0]) && !IsWhitespace(r[|r| - 1])
  {
    var i := LeadingWhitespace(s);
    if i == |s| then []
    else
      var n := TrailingWhitespace(s);
      s[i..|s| - n]
  }

  /** `!value.trim()`: the trimmed value is the empty string, which happens exactly when the value is whitespace only. */
  predicate IsBlank(s: string): (b: bool)
    ensures b <==> AllWhitespace(s)
  {
    Trim(s) == []
  }
}
