/**
 * Order-preserving operations on immutable sequences: `Array.prototype.filter`,
 * `slice(0, n)`, and the first-seen order of distinct keys, with the facts
 * the screens rely on (subsequence, membership, multiplicity, idempotence).
 */
module Sequences {

  /** `s.filter(f)`: the elements of `s` that satisfy `f`, in their order in `s`. */
  function Keep<T>(s: seq<T>, f: T -> bool): (r: seq<T>)
    ensures |r| <= |s|
    ensures forall x :: x in r ==> x in s && f(x)
  {
    if s == [] then []
    else Keep(s[..|s| - 1], f) + (if f(s[|s| - 1]) then [s[|s| - 1]] else [])
  }

  /** `s.slice(0, n)`: the first `n` elements, or all of them when there are fewer. */
  function Take<T>(s: seq<T>, n: nat): (r: seq<T>)
    ensures |r| == if |s| < n then |s| else n
    ensures r <= s
  {
    if |s| < n then s else s[..n]
  }

  /** No element occurs twice. */
  predicate Distinct<T(==)>(s: seq<T>)
  {
    forall i, j :: 0 <= i < j < |s| ==> s[i] != s[j]
  }

  /** `idx` embeds `a` into `b`: strictly increasing positions of `b` holding the elements of `a`. */
  ghost predicate EmbedsBy<T>(a: seq<T>, b: seq<T>, idx: seq<nat>)
  {
    && |idx| == |a|
    && (forall k :: 0 <= k < |idx| ==> idx[k] < |b| && b[idx[k]] == a[k])
    && (forall k, l :: 0 <= k < l < |idx| ==> idx[k] < idx[l])
  }

  /** `a` is an order-preserving subsequence of `b`. */
  ghost predicate IsSubsequence<T>(a: seq<T>, b: seq<T>)
  {
    exists idx :: EmbedsBy(a, b, idx)
  }

  /** Appending one element to a sequence extends filtering by that element alone. */
  lemma KeepSnoc<T>(s: seq<T>, x: T, f: T -> bool)
    ensures Keep(s + [x], f) == Keep(s, f) + (if f(x) then [x] else [])
  {
    assert (s + [x])[..|s|] == s;
  }

  /** The positions in `s` of the elements `Keep(s, f)` retains. */
  ghost function KeepPositions<T>(s: seq<T>, f: T -> bool): (idx: seq<nat>)
    ensures EmbedsBy(Keep(s, f), s, idx)
    ensures forall k :: 0 <= k < |idx| ==> idx[k] < |s|
  {
    if s == [] then []
    else
      var idx := KeepPositions(s[..|s| - 1], f);
      if f(s[|s| - 1]) then idx + [|s| - 1] else idx
  }

  /** Filtering keeps the catalog order: the result is a subsequence. */
  lemma KeepIsSubsequence<T>(s: seq<T>, f: T -> bool)
    ensures IsSubsequence(Keep(s, f), s)
  {
    var idx := KeepPositions(s, f);
  }

  /** Every prefix of a subsequence is a subsequence. */
  lemma PrefixIsSubsequence<T>(a: seq<T>, b: seq<T>, n: nat)
    requires IsSubsequence(a, b) && n <= |a|
    ensures IsSubsequence(a[..n], b)
  {
    var idx :| EmbedsBy(a, b, idx);
    assert EmbedsBy(a[..n], b, idx[..n]);
  }

  /** Filtering drops no element that satisfies the predicate. */
  lemma {:induction false} KeepComplete<T>(s: seq<T>, f: T -> bool, x: T)
    requires x in s && f(x)
    ensures x in Keep(s, f)
  {
    var last := s[|s| - 1];
    if x != last {
      assert s == s[..|s| - 1] + [last];
      KeepComplete(s[..|s| - 1], f, x);
    }
  }

  /** The elements of `Keep(s, f)` are exactly the elements of `s` that satisfy `f`. */
  lemma KeepMembers<T>(s: seq<T>, f: T -> bool)
    ensures forall x :: x in Keep(s, f) <==> x in s && f(x)
  {
    forall x | x in s && f(x)
      ensures x in Keep(s, f)
    {
      KeepComplete(s, f, x);
    }
  }

  /** `s[i]` is the first element of `s` that satisfies `f`. */
  ghost predicate FirstSatisfying<T>(s: seq<T>, f: T -> bool, i: int)
  {
    0 <= i < |s| && f(s[i]) && forall j :: 0 <= j < i ==> !f(s[j])
  }

  /** The first retained element is the first element of `s` that satisfies `f`. */
  lemma {:induction false} KeepHead<T>(s: seq<T>, f: T -> bool)
    requires Keep(s, f) != []
    ensures exists i :: FirstSatisfying(s, f, i) && s[i] == Keep(s, f)[0]
  {
    var init, last := s[..|s| - 1], s[|s| - 1];
    if Keep(init, f) != [] {
      KeepHead(init, f);
      var i :| FirstSatisfying(init, f, i) && init[i] == Keep(init, f)[0];
      assert s[i] == Keep(s, f)[0] && FirstSatisfying(s, f, i);
    } else {
      forall j | 0 <= j < |init|
        ensures !f(s[j])
      {
        if f(init[j]) {
          KeepComplete(init, f, init[j]);
        }
      }
      assert s[|s| - 1] == Keep(s, f)[0] && FirstSatisfying(s, f, |s| - 1);
    }
  }

  /** Filtering by a stricter predicate can be done after filtering by a looser one. */
  lemma {:induction false} KeepRefines<T>(s: seq<T>, f: T -> bool, g: T -> bool)
    requires forall x :: f(x) ==> g(x)
    ensures Keep(Keep(s, g), f) == Keep(s, f)
    ensures IsSubsequence(Keep(s, f), Keep(s, g))
  {
    if s != [] {
      var init, last := s[..|s| - 1], s[|s| - 1];
      KeepRefines(init, f, g);
      if g(last) {
        KeepSnoc(Keep(init, g), last, f);
      } else {
        assert Keep(s, g) == Keep(init, g);
      }
    }
    KeepIsSubsequence(Keep(s, g), f);
  }

  /** Filtering keeps every retained element exactly as often as it occurs in `s`. */
  lemma {:induction false} KeepMultiplicity<T>(s: seq<T>, f: T -> bool, x: T)
    ensures multiset(Keep(s, f))[x] == if f(x) then multiset(s)[x] else 0
  {
    if s != [] {
      var init, last := s[..|s| - 1], s[|s| - 1];
      assert s == init + [last];
      KeepMultiplicity(init, f, x);
    }
  }

  /** `KeepMultiplicity` for every element at once. */
  lemma KeepCounts<T>(s: seq<T>, f: T -> bool)
    ensures forall x :: multiset(Keep(s, f))[x] == if f(x) then multiset(s)[x] else 0
  {
    forall x
      ensures multiset(Keep(s, f))[x] == if f(x) then multiset(s)[x] else 0
    {
      KeepMultiplicity(s, f, x);
    }
  }

  /** A filter that accepts every element returns the sequence unchanged. */
  lemma {:induction false} KeepAll<T>(s: seq<T>, f: T -> bool)
    requires forall x :: x in s ==> f(x)
    ensures Keep(s, f) == s
  {
    if s != [] {
      var init, last := s[..|s| - 1], s[|s| - 1];
      assert s == init + [last];
      assert f(last);
      KeepAll(init, f);
    }
  }

  /** Filtering twice with the same predicate is filtering once. */
  lemma KeepIdempotent<T>(s: seq<T>, f: T -> bool)
    ensures Keep(Keep(s, f), f) == Keep(s, f)
  {
    KeepAll(Keep(s, f), f);
  }

  /** Filtering depends only on what the predicate answers. */
  lemma {:induction false} KeepExtensional<T>(s: seq<T>, f: T -> bool, g: T -> bool)
    requires forall x :: x in s ==> f(x) == g(x)
    ensures Keep(s, f) == Keep(s, g)
  {
    if s != [] {
      KeepExtensional(s[..|s| - 1], f, g);
    }
  }

  /** The distinct elements of `s`, each where it is first seen. */
  function FirstSeen<T(==,!new)>(s: seq<T>): (r: seq<T>)
    ensures Distinct(r)
    ensures forall x :: x in r <==> x in s
  {
    if s == [] then []
    else
      var d := FirstSeen(s[..|s| - 1]);
      var x := s[|s| - 1];
      assert forall y :: y in s <==> y in s[..|s| - 1] || y == x by {
        assert s == s[..|s| - 1] + [x];
      }
      if x in d then d else d + [x]
  }

  /** The position of the first occurrence of `x` in `s`. */
  function FirstIndex<T(==)>(s: seq<T>, x: T): (i: nat)
    requires x in s
    ensures i < |s| && s[i] == x
    ensures forall j :: 0 <= j < i ==> s[j] != x
  {
    if s[0] == x then 0 else 1 + FirstIndex(s[1..], x)
  }

  /** Appending to `s` does not move the first occurrence of an element already in `s`. */
  lemma FirstIndexSnoc<T>(s: seq<T>, y: T, x: T)
    requires x in s
    ensures FirstIndex(s + [y], x) == FirstIndex(s, x)
  {
    var i, k := FirstIndex(s + [y], x), FirstIndex(s, x);
    assert (s + [y])[k] == x;
  }

  /** Appending `x` keeps the first occurrences of the elements of `s`, and puts a new `x` last. */
  lemma FirstIndexAppend<T>(s: seq<T>, x: T)
    ensures forall y :: y in s ==> FirstIndex(s + [x], y) == FirstIndex(s, y) < |s|
    ensures x !in s ==> FirstIndex(s + [x], x) == |s|
  {
    forall y | y in s
      ensures FirstIndex(s + [x], y) == FirstIndex(s, y) < |s|
    {
      FirstIndexSnoc(s, x, y);
    }
  }

  /** `FirstSeen` lists the distinct elements in the order of their first occurrences. */
  lemma {:induction false} FirstSeenOrder<T(!new)>(s: seq<T>)
    ensures forall i, j :: 0 <= i < j < |FirstSeen(s)| ==>
      FirstIndex(s, FirstSeen(s)[i]) < FirstIndex(s, FirstSeen(s)[j])
  {
    if s != [] {
      var init, x := s[..|s| - 1], s[|s| - 1];
      assert s == init + [x];
      var d, r := FirstSeen(init), FirstSeen(s);
      FirstSeenOrder(init);
      FirstIndexAppend(init, x);
      forall i, j | 0 <= i < j < |r|
        ensures FirstIndex(s, r[i]) < FirstIndex(s, r[j])
      {
        assert r[i] == d[i] && r[i] in init;
        if j < |d| {
          assert r[j] == d[j] && r[j] in init;
        } else {
          assert r[j] == x && x !in init;
        }
      }
    }
  }
}
