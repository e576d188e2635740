/**
 The two regular expressions of the registration schema, `/^\d{10}$/` and
 `/^\d{6}$/`, are both instances of the JavaScript pattern `^\d{n}$` written
 without flags. This module gives a matcher for that pattern and the meaning
 of `RegExp.prototype.test` for it, and proves the two agree.
 */
module Regex {

  /** `\d` in a JavaScript regular expression: an ASCII decimal digit. */
  predicate IsAsciiDigit(c: char) {
    '0' <= c <= '9'
  }

  predicate AllAsciiDigits(s: string) {
    forall i :: 0 <= i < |s| ==> IsAsciiDigit(s[i])
  }

  /** Matches `^\d{n}$` from the start of `s`, consuming one digit per step. */
  function MatchDigits(s: string, n: nat): (r: bool)
    ensures r <==> |s| == n && AllAsciiDigits(s)
  {
    if n == 0 then |s| == 0
    else |s| > 0 && IsAsciiDigit(s[0]) && MatchDigits(s[1..], n - 1)
  }

  /**
   A match of `^\d{n}$` starting at index `k`. Without the m flag, `^` holds
   only at index 0 and `$` only at the end of the input (no allowance for a
   trailing line terminator).
   */
  ghost predicate MatchesAt(s: string, k: nat, n: nat) {
    && k == 0                                              // `^`
    && k + n <= |s|
    && (forall i :: k <= i < k + n ==> IsAsciiDigit(s[i]))  // `\d{n}`
    && k + n == |s|                                        // `$`
  }

  /** `RegExp.prototype.test`: some starting index yields a match. */
  ghost predicate Test(s: string, n: nat) {
    exists k: nat :: k <= |s| && MatchesAt(s, k, n)
  }

  lemma MatchDigitsIsTest(s: string, n: nat)
    ensures MatchDigits(s, n) <==> Test(s, n)
  {
    if MatchDigits(s, n) {
      assert MatchesAt(s, 0, n);
    }
  }
}
