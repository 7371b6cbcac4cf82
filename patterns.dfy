/**
 * The two attribute patterns of scraper.py, `SCORE_REGEX = ^score_\d+` and
 * `USER_REGEX = user\?id=.*`. The document query applies a pattern with a
 * regular-expression *search*, so a pattern matches an attribute value when it
 * matches somewhere in it; `^` pins the score pattern to the start.
 */
module Patterns {

  const ScorePrefix: string := "score_"
  const UserMarker: string := "user?id="

  /** `\d` in a byte-string pattern: an ASCII digit. */
  predicate IsDigit(c: char) {
    '0' <= c <= '9'
  }

  /** `pat` occurs in `s` starting at position `i`. */
  predicate OccursAt(s: string, pat: string, i: nat) {
    i + |pat| <= |s| && s[i..i + |pat|] == pat
  }

  /** Whether `pat` occurs anywhere in `s`, scanning left to right. */
  function Contains(s: string, pat: string): bool
    decreases |s|
  {
    if |s| < |pat| then false
    else s[..|pat|] == pat || Contains(s[1..], pat)
  }

  /** A scan that succeeds has found an occurrence. */
  lemma {:induction false} ContainsHasOccurrence(s: string, pat: string) returns (i: nat)
    requires Contains(s, pat)
    ensures OccursAt(s, pat, i)
    decreases |s|
  {
    if s[..|pat|] == pat {
      i := 0;
    } else {
      var j := ContainsHasOccurrence(s[1..], pat);
      assert s[1..][j..j + |pat|] == s[j + 1..j + 1 + |pat|];
      i := j + 1;
    }
  }

  /** Every occurrence is found by the scan. */
  lemma {:induction false} OccurrenceIsContained(s: string, pat: string, i: nat)
    requires OccursAt(s, pat, i)
    ensures Contains(s, pat)
    decreases i
  {
    if i > 0 && s[..|pat|] != pat {
      assert s[1..][i - 1..i - 1 + |pat|] == s[i..i + |pat|];
      OccurrenceIsContained(s[1..], pat, i - 1);
    }
  }

  lemma ContainsIffOccurs(s: string, pat: string)
    ensures Contains(s, pat) <==> exists i: nat :: OccursAt(s, pat, i)
  {
    if Contains(s, pat) {
      var i := ContainsHasOccurrence(s, pat);
    }
    if exists i: nat :: OccursAt(s, pat, i) {
      var i: nat :| OccursAt(s, pat, i);
      OccurrenceIsContained(s, pat, i);
    }
  }

  /** `^score_\d+` matches `id`: the prefix `score_` followed by at least one digit. */
  predicate IsScoreId(id: string) {
    |id| > |ScorePrefix| && id[..|ScorePrefix|] == ScorePrefix && IsDigit(id[|ScorePrefix|])
  }

  /** `^score_\d{n}` matches `id`: `score_` then exactly `n` digits, anything after. */
  ghost predicate ScoreMatchOfLength(id: string, n: nat) {
    |ScorePrefix| + n <= |id| && id[..|ScorePrefix|] == ScorePrefix &&
    forall k :: |ScorePrefix| <= k < |ScorePrefix| + n ==> IsDigit(id[k])
  }

  /** `IsScoreId` agrees with the regular expression: `\d+` matches one or more digits. */
  lemma ScoreIdIsRegexMatch(id: string)
    ensures IsScoreId(id) <==> exists n: nat :: 1 <= n && ScoreMatchOfLength(id, n)
  {
    if IsScoreId(id) {
      assert ScoreMatchOfLength(id, 1);
    }
    if exists n: nat :: 1 <= n && ScoreMatchOfLength(id, n) {
      var n: nat :| 1 <= n && ScoreMatchOfLength(id, n);
      assert IsDigit(id[|ScorePrefix|]);
    }
  }

  /** `user\?id=.*` matches `href`: the marker `user?id=` occurs in it (`.*` may match nothing). */
  predicate IsUserHref(href: string)
  {
    Contains(href, UserMarker)
  }

  lemma UserHrefIffMarker(href: string)
    ensures IsUserHref(href) <==> exists i: nat :: OccursAt(href, UserMarker, i)
  {
    ContainsIffOccurs(href, UserMarker);
  }
}
