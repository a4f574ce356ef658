/**
 * The string operations the validations and lookups rely on, restricted to
 * ASCII: `equalsIgnoreCase`, `trim`, `replaceAll("[^0-9]", "")` and the
 * e-mail pattern `^[A-Za-z0-9+_.-]+@[A-Za-z0-9.-]+$`.
 */
module Text {
  import Lists

  predicate IsUpper(c: char) { 'A' <= c <= 'Z' }

  predicate IsLower(c: char) { 'a' <= c <= 'z' }

  predicate IsLetter(c: char) { IsUpper(c) || IsLower(c) }

  predicate IsDigit(c: char) { '0' <= c <= '9' }

  function ToUpper(c: char): (u: char)
    ensures !IsLower(u)
  {
    if IsLower(c) then (c as int - 32) as char else c
  }

  function ToLower(c: char): (l: char)
    ensures !IsUpper(l)
  {
    if IsUpper(c) then (c as int + 32) as char else c
  }

  /** The per-character test of `regionMatches(true, ...)`, which `equalsIgnoreCase` runs. */
  predicate CharEqualsIgnoreCase(a: char, b: char) {
    a == b || ToUpper(a) == ToUpper(b) || ToLower(ToUpper(a)) == ToLower(ToUpper(b))
  }

  /** `String.equalsIgnoreCase`: equal lengths and equal characters up to case. */
  predicate EqualsIgnoreCase(a: string, b: string) {
    |a| == |b| && forall k :: 0 <= k < |a| ==> CharEqualsIgnoreCase(a[k], b[k])
  }

  /** The string with every upper-case letter replaced by its lower-case one. */
  function FoldCase(s: string): (r: string)
    ensures |r| == |s|
    ensures forall k :: 0 <= k < |s| ==> r[k] == ToLower(s[k])
  {
    if s == [] then [] else [ToLower(s[0])] + FoldCase(s[1..])
  }

  /** Two characters are equal up to case exactly when they fold to the same character. */
  lemma CharEqualsIgnoreCaseIsFold(a: char, b: char)
    ensures CharEqualsIgnoreCase(a, b) <==> ToLower(a) == ToLower(b)
  {
  }

  /**
   * `equalsIgnoreCase` is equality of the case-folded strings; in particular
   * it is an equivalence relation, so "same name ignoring case" partitions names.
   */
  lemma EqualsIgnoreCaseIsFoldEquality(a: string, b: string)
    ensures EqualsIgnoreCase(a, b) <==> FoldCase(a) == FoldCase(b)
  {
    if EqualsIgnoreCase(a, b) {
      forall k | 0 <= k < |a| ensures FoldCase(a)[k] == FoldCase(b)[k] {
        CharEqualsIgnoreCaseIsFold(a[k], b[k]);
      }
    }
    if FoldCase(a) == FoldCase(b) {
      forall k | 0 <= k < |a| ensures CharEqualsIgnoreCase(a[k], b[k]) {
        assert FoldCase(a)[k] == FoldCase(b)[k];
        CharEqualsIgnoreCaseIsFold(a[k], b[k]);
      }
    }
  }

  /** The characters `String.trim` strips: every code point up to and including the space. */
  predicate IsBlank(c: char) { c <= ' ' }

  /** How many blanks `s` starts with. */
  function LeadingBlanks(s: string): (n: nat)
    ensures n <= |s|
    ensures forall k :: 0 <= k < n ==> IsBlank(s[k])
    ensures n == |s| || !IsBlank(s[n])
  {
    if s != [] && IsBlank(s[0]) then 1 + LeadingBlanks(s[1..]) else 0
  }

  /** How many blanks `s` ends with. */
  function TrailingBlanks(s: string): (n: nat)
    ensures n <= |s|
    ensures forall k :: |s| - n <= k < |s| ==> IsBlank(s[k])
    ensures n == |s| || !IsBlank(s[|s| - n - 1])
  {
    if s != [] && IsBlank(s[|s| - 1]) then 1 + TrailingBlanks(s[..|s| - 1]) else 0
  }

  /**
   * `String.trim`: the slice of `s` that is left once the blanks at both
   * ends are stripped. The result starts and ends with a non-blank, and
   * everything cut away on either side is blank.
   */
  function Trim(s: string): (r: string)
    ensures r == [] || (!IsBlank(r[0]) && !IsBlank(r[|r| - 1]))
    ensures var lo := LeadingBlanks(s);
      && lo + |r| <= |s|
      && r == s[lo..lo + |r|]
      && (forall k :: 0 <= k < lo ==> IsBlank(s[k]))
      && (forall k :: lo + |r| <= k < |s| ==> IsBlank(s[k]))
  {
    var lo := LeadingBlanks(s);
    var hi := |s| - TrailingBlanks(s[lo..]);
    assert forall k :: hi <= k < |s| ==> s[k] == s[lo..][k - lo];
    s[lo..hi]
  }

  /** A string made only of blanks trims to the empty string. */
  lemma TrimAllBlank(s: string)
    requires forall k :: 0 <= k < |s| ==> IsBlank(s[k])
    ensures Trim(s) == []
  {
    assert LeadingBlanks(s) == |s|;
  }

  /** `replaceAll("[^0-9]", "")`: the decimal digits of `s`, in order. */
  function Digits(s: string): (r: string)
    ensures |r| <= |s|
  {
    Lists.Filter(s, IsDigit)
  }

  /** `Digits` keeps exactly the digits of `s`. */
  lemma DigitsMembers(s: string)
    ensures forall c :: c in Digits(s) ==> IsDigit(c) && c in s
    ensures forall c :: c in s && IsDigit(c) ==> c in Digits(s)
  {
    Lists.FilterMembers(s, IsDigit);
  }

  predicate IsAt(c: char) { c == '@' }

  /** The character class `[A-Za-z0-9+_.-]` before the '@'. */
  predicate IsLocalChar(c: char) {
    IsLetter(c) || IsDigit(c) || c == '+' || c == '_' || c == '.' || c == '-'
  }

  /** The character class `[A-Za-z0-9.-]` after the '@'. */
  predicate IsDomainChar(c: char) {
    IsLetter(c) || IsDigit(c) || c == '.' || c == '-'
  }

  predicate AllChars(s: string, p: char -> bool) {
    forall k :: 0 <= k < |s| ==> p(s[k])
  }

  /**
   * `Pattern.matches("^[A-Za-z0-9+_.-]+@[A-Za-z0-9.-]+$", s)`, decided by
   * splitting `s` at its first '@'.
   */
  predicate IsEmail(s: string) {
    var k := Lists.FirstIndex(s, IsAt);
    0 < k < |s| - 1 && AllChars(s[..k], IsLocalChar) && AllChars(s[k + 1..], IsDomainChar)
  }

  /**
   * The language of the pattern: one or more local characters, an '@', one
   * or more domain characters, and nothing else.
   */
  ghost predicate MatchesEmailPattern(s: string) {
    exists k :: 0 < k < |s| - 1 && s[k] == '@'
      && AllChars(s[..k], IsLocalChar) && AllChars(s[k + 1..], IsDomainChar)
  }

  /** Splitting at the first '@' decides the pattern exactly. */
  lemma IsEmailMatchesPattern(s: string)
    ensures IsEmail(s) <==> MatchesEmailPattern(s)
  {
    if IsEmail(s) {
      var f := Lists.FirstIndex(s, IsAt);
      assert IsAt(s[f]);
      assert s[f] == '@';
    }
    if MatchesEmailPattern(s) {
      var k :| 0 < k < |s| - 1 && s[k] == '@'
        && AllChars(s[..k], IsLocalChar) && AllChars(s[k + 1..], IsDomainChar);
      FirstAtAfterLocalPart(s, k);
    }
  }

  /** '@' is not a local character, so an '@' after a run of local characters is the first one. */
  lemma FirstAtAfterLocalPart(s: string, k: nat)
    requires k < |s| && s[k] == '@'
    requires AllChars(s[..k], IsLocalChar)
    ensures Lists.FirstIndex(s, IsAt) == k
  {
    var f := Lists.FirstIndex(s, IsAt);
    assert IsAt(s[k]);
    assert f <= k;
  }

  /** An accepted e-mail address holds exactly one '@'. */
  lemma IsEmailHasOneAt(s: string)
    requires IsEmail(s)
    ensures Lists.Count(s, IsAt) == 1
  {
    var k := Lists.FirstIndex(s, IsAt);
    Lists.FilterSplitAt(s, k, IsAt);
    var a, b := s[..k], s[k + 1..];
    forall m | 0 <= m < |a| ensures !IsAt(a[m]) { }
    Lists.FilterNoneMatch(a, IsAt);
    forall m | 0 <= m < |b| ensures !IsAt(b[m]) {
      assert IsDomainChar(b[m]);
    }
    Lists.FilterNoneMatch(b, IsAt);
    Lists.CountIsFilterLength(s, IsAt);
  }
}
