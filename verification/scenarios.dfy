/** A concrete network on which the bounded query is worked through end to end. */
module Scenarios {
  import opened Sequences
  import opened Graph
  import opened Walks
  import opened Relaxation
  import opened Traversal

  /** The network built by inserting A--B of length 10, A--C of length 1 and C--B of length 1, in that order. */
  function Triangle(): Network {
    AddConnection(AddConnection(AddConnection(map[], "A", "B", 10), "A", "C", 1), "C", "B", 1)
  }

  /** The adjacency lists of A and C in the triangle, in insertion order. */
  lemma TriangleLists()
    ensures Neighbors(Triangle(), "A") == [("B", 10), ("C", 1)]
    ensures Neighbors(Triangle(), "C") == [("A", 1), ("B", 1)]
  {
    var g1 := AddConnection(map[], "A", "B", 10);
    var g2 := AddConnection(g1, "A", "C", 1);
    assert "A" != "B" && "A" != "C" && "B" != "C";
    assert Neighbors(g1, "A") == [("B", 10)];
    assert Neighbors(g2, "A") == [("B", 10), ("C", 1)];
    assert Neighbors(g2, "C") == [("A", 1)];
  }

  /** Every entry of the triangle leads to A, B or C. */
  lemma TriangleCovers()
    ensures CoversEntries(Triangle(), {"A", "B", "C"})
  {
    var vs := {"A", "B", "C"};
    var g1 := AddConnection(map[], "A", "B", 10);
    var g2 := AddConnection(g1, "A", "C", 1);
    assert forall s :: CoversEntriesOf(map[], s, vs);
    AddConnectionCovers(map[], "A", "B", 10, vs);
    AddConnectionCovers(g1, "A", "C", 1, vs);
    AddConnectionCovers(g2, "C", "B", 1, vs);
  }

  /** C lies within 2 of A directly, and B through C. */
  lemma TriangleNear()
    ensures WithinReach(Triangle(), "A", "B", 2) && WithinReach(Triangle(), "A", "C", 2)
  {
    TriangleLists();
    TwoSteps(Triangle(), "A", ("C", 1), ("B", 1));
  }

  /** Every walk from A in the triangle ends at A, B or C. */
  lemma TriangleOnly()
    ensures forall v :: WithinReach(Triangle(), "A", v, 2) ==> v == "A" || v == "B" || v == "C"
  {
    TriangleCovers();
    ReachEndsCovered(Triangle(), "A", {"A", "B", "C"}, 2);
  }

  /**
    In any network where A's list is [(B, 10), (C, 1)], a result holding exactly B and C,
    in reach order from A with bound 2, lists C first: (B, 10) does not stay within the bound.
  */
  lemma ShortcutOrder(g: Network, d: map<Station, nat>, r: seq<Station>)
    requires Neighbors(g, "A") == [("B", 10), ("C", 1)]
    requires "A" in d && d["A"] == 0
    requires Distinct(r) && "B" in r && "C" in r
    requires forall v :: v in r ==> v == "B" || v == "C"
    requires ListedInReachOrder(g, "A", 2, r, d)
    ensures r == ["C", "B"]
  {
    assert ListedAfterSource(g, "A", 2, r, d, 0);
    assert LeadsWithin(g, d, 2, "A", r[0]);
    forall e | e in Neighbors(g, "A") && e.0 == "B"
      ensures d["A"] + e.1 > 2
    {
      assert e == ("B", 10);
    }
    assert r[0] == "C";
    assert (set v | v in r) == {"B", "C"};
    DistinctElements(r);
    assert r[1] in r && r[1] != r[0];
  }

  /**
    From A with bound 2 the query lists C, then B: B lies beyond the bound along its
    direct connection, so it is found only through C.
  */
  method TriangleShortcut() returns (reachable: seq<Station>)
    ensures reachable == ["C", "B"]
  {
    var distances: map<Station, nat>;
    ghost var discovered: seq<Station>;
    reachable, distances, discovered := FindStationsWithinDistance(Triangle(), "A", 2);
    TriangleNear();
    TriangleOnly();
    TriangleLists();
    ShortcutOrder(Triangle(), distances, reachable);
  }
}
