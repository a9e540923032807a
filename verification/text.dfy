/** Character-level text operations used by the episode search: ASCII case
    mapping (JavaScript's `toLowerCase`) and substring search (JavaScript's
    `String.prototype.includes`).

    Case mapping is ASCII-only: JavaScript's `toLowerCase` also maps non-ASCII
    letters (and can change a string's length), which this model does not. */
module Text {

  predicate IsUpper(c: char) { 'A' <= c <= 'Z' }

  predicate IsLower(c: char) { 'a' <= c <= 'z' }

  /** Lower-cases one ASCII letter; every other character is left alone. */
  function LowerChar(c: char): char {
    if IsUpper(c) then (c as int + 32) as char else c
  }

  /** Upper-cases one ASCII letter; every other character is left alone. */
  function UpperChar(c: char): char {
    if IsLower(c) then (c as int - 32) as char else c
  }

  /** `s.toLowerCase()`, restricted to ASCII: the result differs from `s` only
      in the case of its letters, and has no upper-case letter left. */
  function Lower(s: string): (r: string)
    ensures EqualIgnoringCase(s, r)
    ensures forall i :: 0 <= i < |r| ==> !IsUpper(r[i])
  {
    seq(|s|, i requires 0 <= i < |s| => LowerChar(s[i]))
  }

  /** `s.toUpperCase()`, restricted to ASCII. */
  function Upper(s: string): (r: string)
    ensures |r| == |s|
    ensures forall i :: 0 <= i < |r| ==> !IsLower(r[i])
  {
    seq(|s|, i requires 0 <= i < |s| => UpperChar(s[i]))
  }

  /** Two characters are the same letter up to ASCII case. */
  predicate SameLetterIgnoringCase(a: char, b: char) {
    || a == b
    || (IsUpper(a) && b as int == a as int + 32)
    || (IsUpper(b) && a as int == b as int + 32)
  }

  /** Two strings that differ at most in the ASCII case of their letters. */
  predicate EqualIgnoringCase(a: string, b: string) {
    |a| == |b| && forall i :: 0 <= i < |a| ==> SameLetterIgnoringCase(a[i], b[i])
  }

  /** Two strings lower-case to the same string exactly when they differ only in
      letter case. */
  lemma LowerEqualIffEqualIgnoringCase(a: string, b: string)
    ensures Lower(a) == Lower(b) <==> EqualIgnoringCase(a, b)
  {
    if Lower(a) == Lower(b) {
      forall i | 0 <= i < |a|
        ensures SameLetterIgnoringCase(a[i], b[i])
      {
        assert Lower(a)[i] == Lower(b)[i];
      }
    }
    if EqualIgnoringCase(a, b) {
      forall i | 0 <= i < |a|
        ensures Lower(a)[i] == Lower(b)[i]
      {
        assert SameLetterIgnoringCase(a[i], b[i]);
      }
    }
  }

  /** Upper-casing first does not change the lower-cased string. */
  lemma LowerOfUpper(s: string)
    ensures Lower(Upper(s)) == Lower(s)
  {
    assert EqualIgnoringCase(Upper(s), s) by {
      forall i | 0 <= i < |s|
        ensures SameLetterIgnoringCase(Upper(s)[i], s[i])
      {
      }
    }
    LowerEqualIffEqualIgnoringCase(Upper(s), s);
  }

  /** `sub` occurs in `s` starting at position `i`. */
  ghost predicate OccursAt(s: string, sub: string, i: int) {
    0 <= i && i + |sub| <= |s| && s[i..i + |sub|] == sub
  }

  /** Occurrences in the tail of `s` are the occurrences in `s` after position 0,
      shifted down by one. */
  lemma OccursInTail(s: string, sub: string)
    requires |s| > 0
    ensures forall i :: OccursAt(s[1..], sub, i) ==> OccursAt(s, sub, i + 1)
    ensures forall j :: OccursAt(s, sub, j) && j > 0 ==> OccursAt(s[1..], sub, j - 1)
  {
    forall i | OccursAt(s[1..], sub, i)
      ensures OccursAt(s, sub, i + 1)
    {
      assert s[1..][i..i + |sub|] == s[i + 1..i + 1 + |sub|];
    }
    forall j | OccursAt(s, sub, j) && j > 0
      ensures OccursAt(s[1..], sub, j - 1)
    {
      assert s[1..][j - 1..j - 1 + |sub|] == s[j..j + |sub|];
    }
  }

  /** `s.includes(sub)`: a left-to-right scan for an occurrence of `sub`. It
      answers true exactly when `sub` occurs somewhere in `s`. */
  function Includes(s: string, sub: string): (r: bool)
    ensures r <==> exists i :: OccursAt(s, sub, i)
    decreases |s|
  {
    if |sub| > |s| then false
    else if sub <= s then
      assert OccursAt(s, sub, 0);
      true
    else
      OccursInTail(s, sub);
      Includes(s[1..], sub)
  }

  /** Every string contains the empty string. */
  lemma IncludesEmpty(s: string)
    ensures Includes(s, "")
  {
    assert OccursAt(s, "", 0);
  }

  /** A concatenation splits back into its two parts. */
  lemma SplitConcat(a: string, b: string)
    ensures (a + b)[..|a|] == a && (a + b)[|a|..] == b
  {
  }
}
