/**
  String handling the interpreter relies on: the two forms of `String.split`
  it uses with a single-space separator, and `String.equalsIgnoreCase`.
  A string is modelled as a sequence of Unicode characters.
 */
module Text {

  /** True iff `c` is an upper-case ASCII letter. */
  predicate IsAsciiUpper(c: char) {
    'A' <= c <= 'Z'
  }

  /** True iff `c` is a lower-case ASCII letter. */
  predicate IsAsciiLower(c: char) {
    'a' <= c <= 'z'
  }

  /** ASCII lower-case mapping: upper-case ASCII letters go down, everything else is kept. */
  function AsciiLower(c: char): char {
    if IsAsciiUpper(c) then (c as int + 32) as char else c
  }

  /** ASCII upper-case mapping: lower-case ASCII letters go up, everything else is kept. */
  function AsciiUpper(c: char): char {
    if IsAsciiLower(c) then (c as int - 32) as char else c
  }

  // ---------------------------------------------------------------------------
  // s.split(" ", 2)
  // ---------------------------------------------------------------------------

  /**
    `s.split(" ", 2)`: the text before the first space and the text after it,
    or `[s]` when `s` holds no space at all. Empty pieces are kept, so a
    leading or trailing space yields an empty piece.
   */
  function SplitFirst(s: string): (r: seq<string>)
    ensures |r| == 1 || |r| == 2
    ensures |r| == 1 <==> ' ' !in s
    ensures |r| == 1 ==> r[0] == s
    ensures |r| == 2 ==> ' ' !in r[0] && r[0] + " " + r[1] == s
  {
    if s == [] then [s]
    else if s[0] == ' ' then
      assert s == " " + s[1..];
      ["", s[1..]]
    else
      var rest := SplitFirst(s[1..]);
      assert s == [s[0]] + s[1..];
      if |rest| == 1 then [s]
      else
        assert [s[0]] + rest[0] + " " + rest[1] == [s[0]] + (rest[0] + " " + rest[1]);
        [[s[0]] + rest[0], rest[1]]
  }

  /** Two ways of cutting one string at a space that is the first space of both halves agree. */
  lemma FirstSpaceUnique(a: string, b: string, c: string, d: string)
    requires ' ' !in a && ' ' !in c
    requires a + " " + b == c + " " + d
    ensures a == c && b == d
  {
    var s := a + " " + b;
    assert forall k :: 0 <= k < |c| ==> s[k] == c[k];
    assert forall k :: 0 <= k < |a| ==> s[k] == a[k];
    assert s[|a|] == ' ' && s[|c|] == ' ';
    assert |a| == |c|;
    assert a == s[..|a|] == c;
    assert b == s[|a| + 1..] == d;
  }

  /** Splitting a word, a space and any remainder gives back the word and the remainder. */
  lemma SplitFirstOfJoin(a: string, b: string)
    requires ' ' !in a
    ensures SplitFirst(a + " " + b) == [a, b]
  {
    var r := SplitFirst(a + " " + b);
    assert (a + " " + b)[|a|] == ' ';
    FirstSpaceUnique(r[0], r[1], a, b);
  }

  // ---------------------------------------------------------------------------
  // s.split(" ")
  // ---------------------------------------------------------------------------

  /** The inverse of cutting at every space: the pieces joined with single spaces. */
  function Join(pieces: seq<string>): string
    requires |pieces| >= 1
  {
    if |pieces| == 1 then pieces[0] else pieces[0] + " " + Join(pieces[1..])
  }

  /** Every piece of `s` between single spaces, empty pieces included. */
  function Pieces(s: string): (r: seq<string>)
    ensures |r| >= 1
    ensures forall i :: 0 <= i < |r| ==> ' ' !in r[i]
    ensures Join(r) == s
  {
    if s == [] then [""]
    else
      var rest := Pieces(s[1..]);
      assert s == [s[0]] + s[1..];
      if s[0] == ' ' then
        assert Join([""] + rest) == "" + " " + Join(rest);
        [""] + rest
      else
        JoinExtendHead(s[0], rest);
        [[s[0]] + rest[0]] + rest[1..]
  }

  /** Prefixing the first piece with a character prefixes the joined string with it. */
  lemma JoinExtendHead(c: char, pieces: seq<string>)
    requires |pieces| >= 1
    ensures Join([[c] + pieces[0]] + pieces[1..]) == [c] + Join(pieces)
  {
    var r := [[c] + pieces[0]] + pieces[1..];
    if |pieces| > 1 {
      assert r[1..] == pieces[1..];
    }
  }

  /** Drops the empty strings at the end of `xs`. */
  function DropTrailingEmpty(xs: seq<string>): (r: seq<string>)
    ensures |r| <= |xs| && r == xs[..|r|]
    ensures forall i :: |r| <= i < |xs| ==> xs[i] == ""
    ensures |r| > 0 ==> r[|r| - 1] != ""
  {
    if xs == [] then []
    else if xs[|xs| - 1] == "" then DropTrailingEmpty(xs[..|xs| - 1])
    else xs
  }

  /**
    `s.split(" ")`: every piece between single spaces with the trailing empty
    pieces removed, except that a string without any space comes back whole,
    as a one-element array, even when it is empty. A string of spaces only
    yields no pieces at all.
   */
  function SplitTokens(s: string): (r: seq<string>)
    ensures forall i :: 0 <= i < |r| ==> ' ' !in r[i]
    ensures ' ' !in s ==> r == [s]
    ensures ' ' in s ==> r == DropTrailingEmpty(Pieces(s))
  {
    if ' ' !in s then [s] else DropTrailingEmpty(Pieces(s))
  }

  /** Cutting at every space distributes over a word followed by a space. */
  lemma {:induction false} PiecesAfterWord(a: string, rest: string)
    requires ' ' !in a
    ensures Pieces(a + " " + rest) == [a] + Pieces(rest)
  {
    if a == [] {
      assert a + " " + rest == " " + rest;
      assert (" " + rest)[1..] == rest;
    } else {
      var s := a + " " + rest;
      assert s[0] == a[0];
      assert s[1..] == a[1..] + " " + rest;
      PiecesAfterWord(a[1..], rest);
      assert [a[0]] + a[1..] == a;
    }
  }

  /** `(a + " " + b).split(" ")` is `[a, b]` for two words, the second one non-empty. */
  lemma SplitTokensOfPair(a: string, b: string)
    requires ' ' !in a && ' ' !in b && b != ""
    ensures SplitTokens(a + " " + b) == [a, b]
  {
    assert (a + " " + b)[|a|] == ' ';
    PiecesAfterWord(a, b);
    assert Pieces(b) == [b] by {
      var p := Pieces(b);
      if |p| > 1 {
        assert false;
      }
    }
  }

  // ---------------------------------------------------------------------------
  // String.equalsIgnoreCase
  // ---------------------------------------------------------------------------

  /**
    The per-character test of `String.regionMatches(true, ...)`: equal, or
    equal after upper-casing, or equal after upper- then lower-casing. Case
    mappings are the ASCII ones.
   */
  predicate CharEqualsIgnoreCase(c1: char, c2: char) {
    || c1 == c2
    || AsciiUpper(c1) == AsciiUpper(c2)
    || AsciiLower(AsciiUpper(c1)) == AsciiLower(AsciiUpper(c2))
  }

  /** Lower-cases every ASCII letter of `s`. */
  function FoldCase(s: string): (r: string)
    ensures |r| == |s|
    ensures forall i :: 0 <= i < |s| ==> r[i] == AsciiLower(s[i])
  {
    if s == [] then [] else [AsciiLower(s[0])] + FoldCase(s[1..])
  }

  /** The per-character test is exactly equality of the ASCII lower-case forms. */
  lemma CharEqualsIgnoreCaseIsFold(c1: char, c2: char)
    ensures CharEqualsIgnoreCase(c1, c2) <==> AsciiLower(c1) == AsciiLower(c2)
  {
  }

  /** `a.equalsIgnoreCase(b)`: same length and characters pairwise equal ignoring case. */
  predicate EqualsIgnoreCase(a: string, b: string) {
    |a| == |b| && forall i :: 0 <= i < |a| ==> CharEqualsIgnoreCase(a[i], b[i])
  }

  /** Two ids are equal ignoring case exactly when their case-folded forms are equal. */
  lemma EqualsIgnoreCaseIsFold(a: string, b: string)
    ensures EqualsIgnoreCase(a, b) <==> FoldCase(a) == FoldCase(b)
  {
    if EqualsIgnoreCase(a, b) {
      forall i | 0 <= i < |a|
        ensures FoldCase(a)[i] == FoldCase(b)[i]
      {
        CharEqualsIgnoreCaseIsFold(a[i], b[i]);
      }
    }
    if FoldCase(a) == FoldCase(b) {
      forall i | 0 <= i < |a|
        ensures CharEqualsIgnoreCase(a[i], b[i])
      {
        assert FoldCase(a)[i] == FoldCase(b)[i];
        CharEqualsIgnoreCaseIsFold(a[i], b[i]);
      }
    }
  }

  /** Matching ids ignoring case is an equivalence relation. */
  lemma EqualsIgnoreCaseEquivalence(a: string, b: string, c: string)
    ensures EqualsIgnoreCase(a, a)
    ensures EqualsIgnoreCase(a, b) ==> EqualsIgnoreCase(b, a)
    ensures EqualsIgnoreCase(a, b) && EqualsIgnoreCase(b, c) ==> EqualsIgnoreCase(a, c)
  {
    EqualsIgnoreCaseIsFold(a, a);
    EqualsIgnoreCaseIsFold(a, b);
    EqualsIgnoreCaseIsFold(b, a);
    EqualsIgnoreCaseIsFold(b, c);
    EqualsIgnoreCaseIsFold(a, c);
  }
}
