/** Sequence facts the traversal needs: distinctness and "first occurrences, in order". */
module Sequences {

  /** True when no element of `s` occurs twice. */
  predicate Distinct<T(==)>(s: seq<T>) {
    forall i, j :: 0 <= i < j < |s| ==> s[i] != s[j]
  }

  /** A sequence without repeats has as many distinct elements as positions. */
  lemma {:induction false} DistinctElements<T>(s: seq<T>)
    requires Distinct(s)
    ensures |(set x | x in s)| == |s|
    decreases |s|
  {
    if |s| > 0 {
      var t := s[..|s| - 1];
      DistinctElements(t);
      assert (set x | x in s) == (set x | x in t) + {s[|s| - 1]};
      assert s[|s| - 1] !in t;
    }
  }

  /** Index of the first occurrence of `x` in `s`. */
  function IndexOf<T(==)>(s: seq<T>, x: T): (k: nat)
    requires x in s
    ensures k < |s| && s[k] == x
    ensures x !in s[..k]
  {
    if s[0] == x then 0 else 1 + IndexOf(s[1..], x)
  }

  /** The elements of `s` in the order in which each first occurs; later repeats are dropped. */
  function FirstOccurrences<T(==, !new)>(s: seq<T>): (r: seq<T>)
    ensures Distinct(r)
    ensures forall x :: x in r <==> x in s
    decreases |s|
  {
    if |s| == 0 then []
    else
      var prefix := FirstOccurrences(s[..|s| - 1]);
      if s[|s| - 1] in prefix then prefix else prefix + [s[|s| - 1]]
  }

  lemma IndexOfPrefix<T>(s: seq<T>, x: T, y: T)
    requires y in s
    ensures IndexOf(s + [x], y) == IndexOf(s, y)
  {
    if s[0] != y {
      assert (s + [x])[1..] == s[1..] + [x];
      IndexOfPrefix(s[1..], x, y);
    }
  }

  /** FirstOccurrences lists elements in increasing order of their first position in `s`. */
  lemma {:induction false} FirstOccurrencesOrdered<T(!new)>(s: seq<T>)
    ensures forall i, j :: 0 <= i < j < |FirstOccurrences(s)| ==>
      IndexOf(s, FirstOccurrences(s)[i]) < IndexOf(s, FirstOccurrences(s)[j])
    decreases |s|
  {
    if |s| > 0 {
      var s0 := s[..|s| - 1];
      var x := s[|s| - 1];
      assert s == s0 + [x];
      FirstOccurrencesOrdered(s0);
      var r0 := FirstOccurrences(s0);
      var r := FirstOccurrences(s);
      assert r == if x in r0 then r0 else r0 + [x];
      forall i, j | 0 <= i < j < |r|
        ensures IndexOf(s, r[i]) < IndexOf(s, r[j])
      {
        assert r[i] == r0[i] && r0[i] in r0;
        IndexOfPrefix(s0, x, r[i]);
        if j < |r0| {
          assert r[j] == r0[j] && r0[j] in r0;
          IndexOfPrefix(s0, x, r[j]);
          assert IndexOf(s0, r0[i]) < IndexOf(s0, r0[j]);
        } else {
          assert r[j] == x && x !in s0;
          assert IndexOf(s, x) == |s0|;
        }
      }
    }
  }
}
