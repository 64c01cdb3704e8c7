/**
 * The order-preserving filter that every version-resolution step is built
 * from (Java streams' `filter`, Kotlin's `filter`/`filterNot`), with the
 * positions it keeps, so that "sound, complete and in input order" is stated
 * once.
 */
module Sequences {

  /** Keep the elements of `s` that satisfy `p`, in their original order. */
  function Filter<T(!new)>(s: seq<T>, p: T -> bool): (r: seq<T>)
    ensures |r| <= |s|
    ensures forall x :: x in r <==> x in s && p(x)
  {
    if s == [] then []
    else
      var rest := Filter(s[1..], p);
      assert forall x :: x in s <==> x == s[0] || x in s[1..];
      (if p(s[0]) then [s[0]] else []) + rest
  }

  /** The positions at or after `from` whose element satisfies `p`, ascending. */
  ghost function KeptPositions<T(!new)>(s: seq<T>, p: T -> bool, from: nat): seq<nat>
    requires from <= |s|
    decreases |s| - from
  {
    if from == |s| then []
    else (if p(s[from]) then [from] else []) + KeptPositions(s, p, from + 1)
  }

  /**
   * `r` is the subsequence of `s` at the ascending positions `ps`, and those
   * are exactly the positions whose element satisfies `p`.
   */
  ghost predicate SelectedAt<T(!new)>(s: seq<T>, p: T -> bool, r: seq<T>, ps: seq<nat>, from: nat)
  {
    && |ps| == |r|
    && (forall k :: 0 <= k < |ps| ==> from <= ps[k] < |s| && r[k] == s[ps[k]])
    && (forall k, l :: 0 <= k < l < |ps| ==> ps[k] < ps[l])
    && (forall i :: from <= i < |s| ==> (p(s[i]) <==> i in ps))
  }

  /** One more position in front: the selection property extends from `from + 1` to `from`. */
  lemma SelectedAtStep<T(!new)>(s: seq<T>, p: T -> bool, r: seq<T>, ps: seq<nat>, from: nat)
    requires from < |s|
    requires SelectedAt(s, p, r, ps, from + 1)
    ensures p(s[from]) ==> SelectedAt(s, p, [s[from]] + r, [from] + ps, from)
    ensures !p(s[from]) ==> SelectedAt(s, p, r, ps, from)
  {
    assert forall k :: 0 <= k < |ps| ==> ps[k] != from;
    if p(s[from]) {
      var r2, ps2 := [s[from]] + r, [from] + ps;
      forall k | 0 <= k < |ps2| ensures from <= ps2[k] < |s| && r2[k] == s[ps2[k]] {
        if k > 0 { assert ps2[k] == ps[k - 1] && r2[k] == r[k - 1]; }
      }
      forall k, l | 0 <= k < l < |ps2| ensures ps2[k] < ps2[l] {
        assert ps2[l] == ps[l - 1];
        if k > 0 { assert ps2[k] == ps[k - 1]; }
      }
      forall i | from <= i < |s| ensures p(s[i]) <==> i in ps2 {
        assert i in ps2 <==> i == from || i in ps;
      }
    }
  }

  lemma {:induction false} FilterFrom<T(!new)>(s: seq<T>, p: T -> bool, from: nat)
    requires from <= |s|
    ensures SelectedAt(s, p, Filter(s[from..], p), KeptPositions(s, p, from), from)
    decreases |s| - from
  {
    if from < |s| {
      FilterFrom(s, p, from + 1);
      var t := s[from..];
      assert t[0] == s[from] && t[1..] == s[from + 1..];
      SelectedAtStep(s, p, Filter(s[from + 1..], p), KeptPositions(s, p, from + 1), from);
    }
  }

  /**
   * The filter keeps exactly the elements that satisfy `p`, each once per
   * occurrence, in the order of the input.
   */
  lemma FilterKeepsOrder<T(!new)>(s: seq<T>, p: T -> bool)
    ensures SelectedAt(s, p, Filter(s, p), KeptPositions(s, p, 0), 0)
  {
    FilterFrom(s, p, 0);
    assert s[0..] == s;
  }

  /** Nothing survives the filter exactly when no element satisfies `p`. */
  lemma FilterEmptyIff<T(!new)>(s: seq<T>, p: T -> bool)
    ensures Filter(s, p) == [] <==> forall i :: 0 <= i < |s| ==> !p(s[i])
  {
    if Filter(s, p) == [] {
      forall i | 0 <= i < |s| ensures !p(s[i]) {
        assert s[i] in s;
      }
    }
    else {
      assert Filter(s, p)[0] in Filter(s, p);
    }
  }

  /** No element occurs twice. */
  predicate NoDuplicates<T(==)>(s: seq<T>)
  {
    forall i, j :: 0 <= i < j < |s| ==> s[i] != s[j]
  }

  /** The position of the first occurrence of `x` (Java's `List.indexOf` on a present element). */
  function IndexOf<T(==)>(s: seq<T>, x: T): (i: nat)
    requires x in s
    ensures i < |s| && s[i] == x
    ensures forall j :: 0 <= j < i ==> s[j] != x
  {
    if s[0] == x then 0
    else
      assert x in s[1..] by {
        var k :| 0 <= k < |s| && s[k] == x;
        assert s[1..][k - 1] == x;
      }
      1 + IndexOf(s[1..], x)
  }

  /** Without duplicates, every element is found at its own position. */
  lemma IndexOfOwnPosition<T>(s: seq<T>, k: nat)
    requires NoDuplicates(s) && k < |s|
    ensures IndexOf(s, s[k]) == k
  {
  }
}
