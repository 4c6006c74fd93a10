/**
  Walks through the adjacency lists and their lengths: the reference against which
  the traversal's distances are judged.
*/
module Walks {
  import opened Graph

  /**
    A walk leaving `from`, written as the entries it follows: step `i` moves along the
    entry `p[i]`, which must belong to the list of the station reached after `i` steps.
  */
  predicate IsWalk(g: Network, from: Station, p: seq<Entry>)
    decreases |p|
  {
    |p| == 0 || (IsWalk(g, from, p[..|p| - 1]) && p[|p| - 1] in Neighbors(g, Last(from, p[..|p| - 1])))
  }

  /** The station a walk leaving `from` ends at. */
  function Last(from: Station, p: seq<Entry>): Station {
    if |p| == 0 then from else p[|p| - 1].0
  }

  /** The total length of a walk: the sum of the distances of the entries it follows. */
  function Length(p: seq<Entry>): nat
    decreases |p|
  {
    if |p| == 0 then 0 else Length(p[..|p| - 1]) + p[|p| - 1].1
  }

  /** `to` can be reached from `from` by a walk of total length at most `bound`. */
  ghost predicate WithinReach(g: Network, from: Station, to: Station, bound: int) {
    exists p :: IsWalk(g, from, p) && Last(from, p) == to && Length(p) <= bound
  }

  /** Following one more entry of the station a walk ends at extends the walk by that entry's length. */
  lemma {:induction false} WalkExtend(g: Network, from: Station, p: seq<Entry>, e: Entry)
    requires IsWalk(g, from, p)
    requires e in Neighbors(g, Last(from, p))
    ensures IsWalk(g, from, p + [e])
    ensures Last(from, p + [e]) == e.0
    ensures Length(p + [e]) == Length(p) + e.1
  {
    assert (p + [e])[..|p|] == p;
  }

  /** From a station with no entries the only walk is the empty one. */
  lemma {:induction false} WalkFromIsolated(g: Network, from: Station, p: seq<Entry>)
    requires Neighbors(g, from) == []
    requires IsWalk(g, from, p)
    ensures p == []
    decreases |p|
  {
    if |p| > 0 {
      WalkFromIsolated(g, from, p[..|p| - 1]);
    }
  }

  /** A walk from a station of `vs` ends in `vs` when `vs` holds the far end of every entry. */
  lemma WalkEndCovered(g: Network, from: Station, p: seq<Entry>, vs: set<Station>)
    requires IsWalk(g, from, p)
    requires from in vs && CoversEntries(g, vs)
    ensures Last(from, p) in vs
  {
    if |p| > 0 {
      var u := Last(from, p[..|p| - 1]);
      var k :| 0 <= k < |Neighbors(g, u)| && Neighbors(g, u)[k] == p[|p| - 1];
      assert CoversEntriesOf(g, u, vs);
    }
  }

  /** Every station within reach of a station of `vs` lies in `vs` when `vs` holds the far end of every entry. */
  lemma ReachEndsCovered(g: Network, from: Station, vs: set<Station>, bound: int)
    requires from in vs && CoversEntries(g, vs)
    ensures forall v :: WithinReach(g, from, v, bound) ==> v in vs
  {
    forall v | WithinReach(g, from, v, bound)
      ensures v in vs
    {
      var p :| IsWalk(g, from, p) && Last(from, p) == v && Length(p) <= bound;
      WalkEndCovered(g, from, p, vs);
    }
  }

  /** Two consecutive entries give walks of one and of two steps, of the entries' summed lengths. */
  lemma TwoSteps(g: Network, from: Station, e1: Entry, e2: Entry)
    requires e1 in Neighbors(g, from) && e2 in Neighbors(g, e1.0)
    ensures WithinReach(g, from, e1.0, e1.1)
    ensures WithinReach(g, from, e2.0, e1.1 + e2.1)
  {
    WalkExtend(g, from, [], e1);
    assert [] + [e1] == [e1];
    WalkExtend(g, from, [e1], e2);
  }
}
