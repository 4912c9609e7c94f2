/**
  `isValidId`: an explicit task id is rejected when the case-insensitive
  pattern `[^a-z0-9]` finds a character anywhere in it.
 */
module Ids {
  import opened Text

  /**
    Whether `c` falls in the range `lo`..`hi` under case-insensitive matching
    without Unicode case: `c` itself, or its ASCII upper- or lower-case form,
    lies in the range.
   */
  predicate InRangeIgnoreCase(lo: char, hi: char, c: char) {
    || lo <= c <= hi
    || lo <= AsciiUpper(c) <= hi
    || lo <= AsciiLower(c) <= hi
  }

  /** The negated character class `[^a-z0-9]` compiled case-insensitively. */
  predicate InForbiddenClass(c: char) {
    !(InRangeIgnoreCase('a', 'z', c) || InRangeIgnoreCase('0', '9', c))
  }

  /** `Matcher.find()` for a one-character pattern: some position of `s` matches. */
  function Find(s: string): (r: bool)
    ensures r <==> exists i :: 0 <= i < |s| && InForbiddenClass(s[i])
  {
    if s == [] then false
    else
      assert forall i :: 1 <= i < |s| ==> s[i] == s[1..][i - 1];
      InForbiddenClass(s[0]) || Find(s[1..])
  }

  /** True iff `c` is one of `A`-`Z`, `a`-`z`, `0`-`9`. */
  predicate IsAsciiLetterOrDigit(c: char) {
    ('A' <= c <= 'Z') || ('a' <= c <= 'z') || ('0' <= c <= '9')
  }

  /**
    `isValidId(id)`: the forbidden class matches nowhere in `id`. So an id is
    valid exactly when every character is an ASCII letter or digit; in
    particular the empty id is valid.
   */
  function IsValidId(id: string): (r: bool)
    ensures r <==> forall i :: 0 <= i < |id| ==> IsAsciiLetterOrDigit(id[i])
  {
    !Find(id)
  }
}
