/**
 * The two regular expressions of the contact form, written as character-level
 * predicates, each next to an independent description of the strings it
 * accepts and a lemma that the two agree on every input.
 *
 *   phone:  /^0\d([- ]?\d){7,8}$/
 *   email:  /^\S+@\S+\.\S+$/
 */
module Patterns {
  import opened Wrappers
  import opened Text

  /** `\d` in a JavaScript regular expression: an ASCII decimal digit. */
  predicate IsDigit(c: char)
  {
    '0' <= c <= '9'
  }

  /** The class `[- ]`: the separators the phone pattern allows before a digit. */
  predicate IsSeparator(c: char)
  {
    c == '-' || c == ' '
  }

  /** The number of digits in `s`. */
  function DigitCount(s: string): (n: nat)
    ensures n <= |s|
  {
    if s == [] then 0 else (if IsDigit(s[0]) then 1 else 0) + DigitCount(s[1..])
  }

  // ---------------------------------------------------------------------------
  // Phone
  // ---------------------------------------------------------------------------

  /**
   * Matches `t` in full against `([- ]?\d)*` and returns how many groups it
   * consumed. Each group ends in a digit and a separator can only open a group,
   * so the split into groups is forced and the count is unique.
   */
  function ParseGroups(t: string): (r: Option<nat>)
    ensures r.Some? ==> r.value <= |t|
  {
    if t == [] then Some(0)
    else if IsDigit(t[0]) then
      match ParseGroups(t[1..])
      case Some(n) => Some(n + 1)
      case None => None
    else if IsSeparator(t[0]) && |t| >= 2 && IsDigit(t[1]) then
      match ParseGroups(t[2..])
      case Some(n) => Some(n + 1)
      case None => None
    else None
  }

  /** `/^0\d([- ]?\d){7,8}$/.test(s)`: an accepted value starts with '0' and a digit and is at least 9 characters long. */
  predicate PhoneMatches(s: string): (b: bool)
    ensures b ==> |s| >= 9 && s[0] == '0' && IsDigit(s[1])
  {
    |s| >= 2 && s[0] == '0' && IsDigit(s[1]) &&
    match ParseGroups(s[2..])
    case Some(n) => 7 <= n <= 8
    case None => false
  }

  /**
   * Every character of `t` is a digit, or a separator that has a digit right
   * after it: no doubled separator and no trailing one.
   */
  predicate SeparatedDigits(t: string)
  {
    forall k | 0 <= k < |t| :: IsDigit(t[k]) || (IsSeparator(t[k]) && k + 1 < |t| && IsDigit(t[k + 1]))
  }

  /**
   * The accepted phone numbers, described without the regular expression:
   * '0', then a digit (so no separator right after the 0), then digits and
   * single separators each followed by a digit; 9 or 10 digits in all.
   */
  predicate PhoneShape(s: string)
  {
    |s| >= 2 && s[0] == '0' && IsDigit(s[1]) && SeparatedDigits(s[2..]) &&
    9 <= DigitCount(s) <= 10
  }

  /** `t` matches `([- ]?\d)*` exactly when it has the separated-digits shape; the group count is its digit count. */
  lemma {:induction false} ParseGroupsSpec(t: string)
    ensures ParseGroups(t).Some? <==> SeparatedDigits(t)
    ensures ParseGroups(t).Some? ==> ParseGroups(t).value == DigitCount(t)
  {
    if t == [] {
    } else if IsDigit(t[0]) {
      ParseGroupsSpec(t[1..]);
      SeparatedDigitsTail(t, 1);
    } else if IsSeparator(t[0]) && |t| >= 2 && IsDigit(t[1]) {
      ParseGroupsSpec(t[2..]);
      SeparatedDigitsTail(t, 2);
      assert DigitCount(t) == DigitCount(t[1..]);
      assert t[1..][1..] == t[2..];
      assert DigitCount(t[1..]) == 1 + DigitCount(t[2..]);
    } else {
      assert !SeparatedDigits(t) by {
        if |t| >= 2 { assert !(IsDigit(t[0]) || (IsSeparator(t[0]) && 1 < |t| && IsDigit(t[1]))); }
      }
    }
  }

  /** Dropping a prefix of 1 or 2 characters that are themselves well formed keeps or loses the shape with the rest. */
  lemma SeparatedDigitsTail(t: string, d: nat)
    requires 1 <= d <= 2 && d <= |t|
    requires d == 1 ==> IsDigit(t[0])
    requires d == 2 ==> IsSeparator(t[0]) && IsDigit(t[1])
    ensures SeparatedDigits(t) <==> SeparatedDigits(t[d..])
  {
    if SeparatedDigits(t[d..]) {
      forall k | 0 <= k < |t| ensures IsDigit(t[k]) || (IsSeparator(t[k]) && k + 1 < |t| && IsDigit(t[k + 1])) {
        if k >= d { assert t[k] == t[d..][k - d]; if k + 1 < |t| { assert t[k + 1] == t[d..][k + 1 - d]; } }
      }
    }
    if SeparatedDigits(t) {
      forall k | 0 <= k < |t[d..]|
        ensures IsDigit(t[d..][k]) || (IsSeparator(t[d..][k]) && k + 1 < |t[d..]| && IsDigit(t[d..][k + 1]))
      {
        assert t[d..][k] == t[k + d];
      }
    }
  }

  /** The phone regular expression accepts exactly the strings of `PhoneShape`. */
  lemma PhoneMatchesIff(s: string)
    ensures PhoneMatches(s) <==> PhoneShape(s)
  {
    if |s| >= 2 && s[0] == '0' && IsDigit(s[1]) {
      ParseGroupsSpec(s[2..]);
      assert s[1..][1..] == s[2..];
      assert DigitCount(s) == 2 + DigitCount(s[2..]);
    }
  }

  /** An accepted phone number has 9 or 10 digits and starts with "0" and a digit. */
  lemma PhoneDigits(s: string)
    requires PhoneMatches(s)
    ensures 9 <= DigitCount(s) <= 10 && s[0] == '0' && IsDigit(s[1])
    ensures !IsSeparator(s[|s| - 1])
  {
    PhoneMatchesIff(s);
    if |s| > 2 {
      assert s[|s| - 1] == s[2..][|s| - 3];
    }
  }

  /** "0501234567" is accepted. */
  lemma PhoneAcceptsPlain()
    ensures PhoneMatches("0501234567")
  {
    var t := "01234567";
    assert "0501234567"[2..] == t;
    assert ParseGroups(t[7..]) == Some(1);
    assert ParseGroups(t[6..]) == Some(2);
    assert ParseGroups(t[5..]) == Some(3);
    assert ParseGroups(t[4..]) == Some(4);
    assert ParseGroups(t[3..]) == Some(5);
    assert ParseGroups(t[2..]) == Some(6);
    assert ParseGroups(t[1..]) == Some(7);
    assert ParseGroups(t) == Some(8);
  }

  /** "050-123-4567" is accepted. */
  lemma PhoneAcceptsSeparated()
    ensures PhoneMatches("050-123-4567")
  {
    var t := "0-123-4567";
    assert "050-123-4567"[2..] == t;
    assert ParseGroups(t[9..]) == Some(1);
    assert ParseGroups(t[8..]) == Some(2);
    assert ParseGroups(t[7..]) == Some(3);
    assert ParseGroups(t[5..]) == Some(4);
    assert ParseGroups(t[4..]) == Some(5);
    assert ParseGroups(t[3..]) == Some(6);
    assert ParseGroups(t[1..]) == Some(7);
    assert ParseGroups(t) == Some(8);
  }

  /** "123" and a doubled separator are refused. */
  lemma PhoneRejects()
    ensures !PhoneMatches("123")
    ensures !PhoneMatches("05--1234567")
  {
    assert "05--1234567"[2..] == "--1234567";
  }

  // ---------------------------------------------------------------------------
  // Email
  // ---------------------------------------------------------------------------

  /** The first index `k >= from` with `s[k] == c`, if any. */
  function IndexFrom(s: string, c: char, from: nat): (r: Option<nat>)
    ensures r.Some? ==> from <= r.value < |s| && s[r.value] == c
    ensures r.Some? ==> forall k | from <= k < r.value :: s[k] != c
    ensures r.None? ==> forall k | from <= k < |s| :: s[k] != c
    decreases |s| - from
  {
    if from >= |s| then None
    else if s[from] == c then Some(from)
    else IndexFrom(s, c, from + 1)
  }

  /** The last index `k < bound` with `s[k] == c`, if any. */
  function LastIndexBelow(s: string, c: char, bound: nat): (r: Option<nat>)
    requires bound <= |s|
    ensures r.Some? ==> r.value < bound && s[r.value] == c
    ensures r.Some? ==> forall k | r.value < k < bound :: s[k] != c
    ensures r.None? ==> forall k | 0 <= k < bound :: s[k] != c
  {
    if bound == 0 then None
    else if s[bound - 1] == c then Some(bound - 1)
    else LastIndexBelow(s, c, bound - 1)
  }

  /**
   * `/^\S+@\S+\.\S+$/.test(s)`. As `\S` also matches '@' and '.', the pattern
   * succeeds on a whitespace-free string as soon as the earliest '@' that has
   * a character before it lies at least two places before the latest '.' that
   * has a character after it. An accepted value
   * is thus at least five characters long.
   */
  predicate EmailMatches(s: string): (b: bool)
    ensures b ==> NoWhitespace(s) && |s| >= 5 && '@' in s[1..] && '.' in s[..|s| - 1]
  {
    NoWhitespace(s) && |s| >= 1 &&
    match (IndexFrom(s, '@', 1), LastIndexBelow(s, '.', |s| - 1))
    case (Some(i), Some(j)) => i + 2 <= j
    case _ => false
  }

  /** '@' at `i` and '.' at `j`, with at least one character before the '@', between the two, and after the '.'. */
  predicate AtDot(s: string, i: int, j: int)
  {
    1 <= i && i + 2 <= j && j + 2 <= |s| && s[i] == '@' && s[j] == '.'
  }

  /** The accepted addresses, described without the regular expression. */
  ghost predicate EmailShape(s: string)
  {
    NoWhitespace(s) && exists i, j :: AtDot(s, i, j)
  }

  /** The email regular expression accepts exactly the strings of `EmailShape`. */
  lemma EmailMatchesIff(s: string)
    ensures EmailMatches(s) <==> EmailShape(s)
  {
    if EmailMatches(s) {
      var i := IndexFrom(s, '@', 1).value;
      var j := LastIndexBelow(s, '.', |s| - 1).value;
      assert AtDot(s, i, j);
    }
    if EmailShape(s) {
      var i0, j0 :| AtDot(s, i0, j0);
      var at := IndexFrom(s, '@', 1);
      var dot := LastIndexBelow(s, '.', |s| - 1);
      assert at.Some? && at.value <= i0;
      assert dot.Some? && j0 <= dot.value;
    }
  }

  /** "a@b.co" is accepted; a missing dot, a missing local part and a space are refused. */
  lemma EmailExamples()
    ensures EmailMatches("a@b.co")
    ensures !EmailMatches("a@b")
    ensures !EmailMatches("@b.co")
    ensures !EmailMatches("a b@c.d")
  {
    EmailMatchesIff("a@b.co");
    assert AtDot("a@b.co", 1, 3);
    EmailMatchesIff("a@b");
    EmailMatchesIff("@b.co");
    assert !NoWhitespace("a b@c.d") by { assert IsWhitespace("a b@c.d"[1]); }
  }
}
