/**
 * The JavaScript string operations the catalog screens rely on, restricted to
 * ASCII: `toLowerCase`, `toUpperCase` of a single character, and `includes`.
 */
module Strings {

  /** `toLowerCase` of one character: only 'A'..'Z' change. */
  function LowerChar(c: char): (r: char)
    ensures !('A' <= r <= 'Z')
    ensures 'A' <= c <= 'Z' ==> r as int == c as int + 32
    ensures !('A' <= c <= 'Z') ==> r == c
  {
    if 'A' <= c <= 'Z' then (c as int + 32) as char else c
  }

  /** `toUpperCase` of one character: only 'a'..'z' change. */
  function UpperChar(c: char): (r: char)
    ensures !('a' <= r <= 'z')
    ensures 'a' <= c <= 'z' ==> r as int == c as int - 32
    ensures !('a' <= c <= 'z') ==> r == c
  {
    if 'a' <= c <= 'z' then (c as int - 32) as char else c
  }

  /** `s.toLowerCase()`, character by character. */
  function Lower(s: string): (r: string)
    ensures |r| == |s|
    ensures forall i :: 0 <= i < |r| ==> !('A' <= r[i] <= 'Z')
    ensures forall i :: 0 <= i < |s| && !('A' <= s[i] <= 'Z') ==> r[i] == s[i]
  {
    seq(|s|, i requires 0 <= i < |s| => LowerChar(s[i]))
  }

  /** A string that `toLowerCase` leaves unchanged. */
  predicate IsLowerCase(s: string)
  {
    Lower(s) == s
  }

  /** Lower-casing twice is lower-casing once. */
  lemma LowerIdempotent(s: string)
    ensures Lower(Lower(s)) == Lower(s)
    ensures IsLowerCase(Lower(s))
  {
  }

  /** Upper-casing a character and lower-casing it again gives back any
      character that lower-casing leaves alone. */
  lemma LowerUpperChar(c: char)
    requires LowerChar(c) == c
    ensures LowerChar(UpperChar(c)) == c
  {
  }

  /** `t` occurs in `s` starting at offset `i`. */
  predicate OccursAt(s: string, t: string, i: int)
  {
    0 <= i <= |s| - |t| && s[i..i + |t|] == t
  }

  /** `t` occurs in `s` at some offset: the meaning of `s.includes(t)`. */
  ghost predicate Contains(s: string, t: string)
  {
    exists i :: OccursAt(s, t, i)
  }

  /** A lower-case letter absent, in both cases, from `s[k..]` is absent from `Lower(s)[k..]`. */
  lemma LowerAvoids(s: string, c: char, k: nat)
    requires k <= |s| && 'a' <= c <= 'z' && c !in s[k..] && UpperChar(c) !in s[k..]
    ensures c !in Lower(s)[k..]
  {
    forall i | k <= i < |s|
      ensures Lower(s)[i] != c
    {
      assert s[i] == s[k..][i - k];
    }
  }

  /** A string cannot contain `t` when it lacks the first character of `t`. */
  lemma MissingFirstChar(s: string, t: string)
    requires |t| > 0 && t[0] !in s
    ensures !Contains(s, t)
  {
    forall i | 0 <= i <= |s| - |t|
      ensures !OccursAt(s, t, i)
    {
      assert s[i..i + |t|][0] == s[i] && s[i] in s;
    }
  }

  /** An occurrence of `t` in `s` is either at offset 0 or an occurrence in `s[1..]`. */
  lemma ContainsStep(s: string, t: string)
    requires |t| <= |s| && s[..|t|] != t
    ensures Contains(s, t) <==> Contains(s[1..], t)
  {
    if Contains(s, t) {
      var i :| OccursAt(s, t, i);
      assert i != 0;
      assert s[1..][i - 1..i - 1 + |t|] == t;
      assert OccursAt(s[1..], t, i - 1);
    }
    if Contains(s[1..], t) {
      var j :| OccursAt(s[1..], t, j);
      assert s[j + 1..j + 1 + |t|] == t;
      assert OccursAt(s, t, j + 1);
    }
  }

  /** `s.includes(t)`: scan `s` from the left for an occurrence of `t`. */
  function Includes(s: string, t: string): (r: bool)
    ensures r <==> Contains(s, t)
    decreases |s|
  {
    if |t| > |s| then false
    else if s[..|t|] == t then (assert OccursAt(s, t, 0); true)
    else (ContainsStep(s, t); Includes(s[1..], t))
  }
}
