/**
  The subway network: a weighted undirected graph kept as adjacency lists.
  Each station maps to the list of (neighbour, distance) entries inserted for it;
  one connection contributes one entry in each direction, and repeated
  connections are kept as parallel entries.
*/
module Graph {

  /** A station is identified by its case-sensitive name. */
  type Station = string

  /** One adjacency entry: the station at the far end and the length of the connection. */
  type Entry = (Station, nat)

  type Network = map<Station, seq<Entry>>

  /** One connection record as the loader hands it over: both ends and the distance. */
  type Connection = (Station, Station, nat)

  /** The adjacency list of `s`; a station the network does not know has none. */
  function Neighbors(g: Network, s: Station): (r: seq<Entry>)
    ensures s in g ==> r == g[s]
    ensures s !in g ==> r == []
  {
    if s in g then g[s] else []
  }

  /**
    Inserts the undirected connection `from`--`to` of length `d`: an empty list is
    created for each end that has none yet, then `(to, d)` is appended to the list
    of `from` and `(from, d)` to the list of `to`.
  */
  function AddConnection(g: Network, from: Station, to: Station, d: nat): (g': Network)
    ensures g'.Keys == g.Keys + {from, to}
    ensures forall s ::
      Neighbors(g', s) == Neighbors(g, s) + (if s == from then [(to, d)] else []) + (if s == to then [(from, d)] else [])
  {
    var withFrom := if from in g then g else g[from := []];
    var withBoth := if to in withFrom then withFrom else withFrom[to := []];
    var forward := withBoth[from := withBoth[from] + [(to, d)]];
    forward[to := forward[to] + [(from, d)]]
  }

  /** How many entries `(b, d)` the list of `a` holds. */
  function Multiplicity(g: Network, a: Station, b: Station, d: nat): nat {
    multiset(Neighbors(g, a))[(b, d)]
  }

  /** Symmetry of the adjacency lists: as many `a -> b` entries of each length as `b -> a` ones. */
  ghost predicate Symmetric(g: Network) {
    forall a, b, d :: Multiplicity(g, a, b, d) == Multiplicity(g, b, a, d)
  }

  /** AddConnection adds exactly one `from -> to` and one `to -> from` entry, nothing else. */
  lemma AddConnectionMultiplicity(g: Network, from: Station, to: Station, d: nat, a: Station, b: Station, w: nat)
    ensures Multiplicity(AddConnection(g, from, to, d), a, b, w)
         == Multiplicity(g, a, b, w)
            + (if a == from && b == to && w == d then 1 else 0)
            + (if a == to && b == from && w == d then 1 else 0)
  {
    var forward: seq<Entry> := if a == from then [(to, d)] else [];
    var backward: seq<Entry> := if a == to then [(from, d)] else [];
    assert Neighbors(AddConnection(g, from, to, d), a) == Neighbors(g, a) + forward + backward;
    assert multiset(forward)[(b, w)] == if a == from && b == to && w == d then 1 else 0;
    assert multiset(backward)[(b, w)] == if a == to && b == from && w == d then 1 else 0;
  }

  /** Inserting a connection keeps the adjacency lists symmetric. */
  lemma AddConnectionPreservesSymmetry(g: Network, from: Station, to: Station, d: nat)
    requires Symmetric(g)
    ensures Symmetric(AddConnection(g, from, to, d))
  {
    var g' := AddConnection(g, from, to, d);
    forall a, b, w
      ensures Multiplicity(g', a, b, w) == Multiplicity(g', b, a, w)
    {
      AddConnectionMultiplicity(g, from, to, d, a, b, w);
      AddConnectionMultiplicity(g, from, to, d, b, a, w);
    }
  }

  /**
    Inserting the same connection twice keeps both copies: the list of `from` gains two
    `(to, d)` entries, or four when the connection is a self-loop.
  */
  lemma AddConnectionTwice(g: Network, from: Station, to: Station, d: nat)
    ensures Multiplicity(AddConnection(AddConnection(g, from, to, d), from, to, d), from, to, d)
         == Multiplicity(g, from, to, d) + (if from == to then 4 else 2)
  {
    AddConnectionMultiplicity(g, from, to, d, from, to, d);
    AddConnectionMultiplicity(AddConnection(g, from, to, d), from, to, d, from, to, d);
  }

  /** The network built by inserting the connections in order, starting from no stations. */
  function FromConnections(cs: seq<Connection>): Network
    decreases |cs|
  {
    if |cs| == 0 then map[]
    else AddConnection(FromConnections(cs[..|cs| - 1]), cs[|cs| - 1].0, cs[|cs| - 1].1, cs[|cs| - 1].2)
  }

  /** The ends of a non-empty record sequence: those of all but the last record, plus the last one's. */
  lemma EndsOfLast(cs: seq<Connection>)
    requires |cs| > 0
    ensures (set c | c in cs :: c.0) == (set c | c in cs[..|cs| - 1] :: c.0) + {cs[|cs| - 1].0}
    ensures (set c | c in cs :: c.1) == (set c | c in cs[..|cs| - 1] :: c.1) + {cs[|cs| - 1].1}
  {
    assert cs == cs[..|cs| - 1] + [cs[|cs| - 1]];
    assert forall x :: x in cs <==> x in cs[..|cs| - 1] || x == cs[|cs| - 1];
  }

  /** The stations of a network built from records are exactly the records' endpoints. */
  lemma {:induction false} FromConnectionsKeys(cs: seq<Connection>)
    ensures FromConnections(cs).Keys == (set c | c in cs :: c.0) + (set c | c in cs :: c.1)
    decreases |cs|
  {
    if |cs| > 0 {
      EndsOfLast(cs);
      FromConnectionsKeys(cs[..|cs| - 1]);
    }
  }

  /** How often `x` occurs in a non-empty record sequence, counted from the occurrences before the last record. */
  lemma CountOfLast(cs: seq<Connection>, x: Connection)
    requires |cs| > 0
    ensures multiset(cs)[x] == multiset(cs[..|cs| - 1])[x] + (if cs[|cs| - 1] == x then 1 else 0)
  {
    assert cs == cs[..|cs| - 1] + [cs[|cs| - 1]];
  }

  /**
    Every inserted connection is kept: the list of `a` holds one `(b, d)` entry per record
    `(a, b, d)` and one per record `(b, a, d)`, with no de-duplication (a self-loop record
    `(a, a, d)` is counted by both terms and so contributes two entries).
  */
  lemma {:induction false} FromConnectionsMultiplicity(cs: seq<Connection>, a: Station, b: Station, d: nat)
    ensures Multiplicity(FromConnections(cs), a, b, d) == multiset(cs)[(a, b, d)] + multiset(cs)[(b, a, d)]
    decreases |cs|
  {
    if |cs| > 0 {
      var c := cs[|cs| - 1];
      var prefix := cs[..|cs| - 1];
      CountOfLast(cs, (a, b, d));
      CountOfLast(cs, (b, a, d));
      FromConnectionsMultiplicity(prefix, a, b, d);
      AddConnectionMultiplicity(FromConnections(prefix), c.0, c.1, c.2, a, b, d);
    }
  }

  /** A network built from connection records is symmetric. */
  lemma FromConnectionsSymmetric(cs: seq<Connection>)
    ensures Symmetric(FromConnections(cs))
  {
    var g := FromConnections(cs);
    forall a, b, d
      ensures Multiplicity(g, a, b, d) == Multiplicity(g, b, a, d)
    {
      FromConnectionsMultiplicity(cs, a, b, d);
      FromConnectionsMultiplicity(cs, b, a, d);
    }
  }

  /** Each record `(a, b, d)` shows up as an entry `(b, d)` of `a` and an entry `(a, d)` of `b`. */
  lemma FromConnectionsContains(cs: seq<Connection>, i: nat)
    requires i < |cs|
    ensures (cs[i].1, cs[i].2) in Neighbors(FromConnections(cs), cs[i].0)
    ensures (cs[i].0, cs[i].2) in Neighbors(FromConnections(cs), cs[i].1)
  {
    var g := FromConnections(cs);
    var c := cs[i];
    assert c in multiset(cs);
    FromConnectionsMultiplicity(cs, c.0, c.1, c.2);
    FromConnectionsMultiplicity(cs, c.1, c.0, c.2);
    assert (c.1, c.2) in multiset(Neighbors(g, c.0));
    assert (c.0, c.2) in multiset(Neighbors(g, c.1));
  }

  /** Every station the network mentions, as a key or as the far end of some entry. */
  ghost function Stations(g: Network): set<Station> {
    g.Keys + set s, e | s in g && e in g[s] :: e.0
  }

  /** `vs` holds the far end of every entry of `s`. */
  ghost predicate CoversEntriesOf(g: Network, s: Station, vs: set<Station>) {
    forall k :: 0 <= k < |Neighbors(g, s)| ==> Neighbors(g, s)[k].0 in vs
  }

  /** `vs` holds the far end of every entry of the network. */
  ghost predicate CoversEntries(g: Network, vs: set<Station>) {
    forall s :: CoversEntriesOf(g, s, vs)
  }

  /** The stations a network mentions include the far end of every entry. */
  lemma StationsCoverEntries(g: Network, vs: set<Station>)
    requires Stations(g) <= vs
    ensures CoversEntries(g, vs)
  {
    forall s
      ensures CoversEntriesOf(g, s, vs)
    {
      forall k | 0 <= k < |Neighbors(g, s)|
        ensures Neighbors(g, s)[k].0 in vs
      {
        assert s in g && Neighbors(g, s)[k] in g[s];
      }
    }
  }

  /** Inserting a connection between two stations of `vs` keeps every entry leading into `vs`. */
  lemma AddConnectionCovers(g: Network, from: Station, to: Station, d: nat, vs: set<Station>)
    requires CoversEntries(g, vs)
    requires from in vs && to in vs
    ensures CoversEntries(AddConnection(g, from, to, d), vs)
  {
    var g' := AddConnection(g, from, to, d);
    forall s
      ensures CoversEntriesOf(g', s, vs)
    {
      var forward: seq<Entry> := if s == from then [(to, d)] else [];
      var backward: seq<Entry> := if s == to then [(from, d)] else [];
      var before, after := Neighbors(g, s), Neighbors(g', s);
      assert after == before + forward + backward;
      assert CoversEntriesOf(g, s, vs);
      forall k | 0 <= k < |after|
        ensures after[k].0 in vs
      {
        if k < |before| {
          assert after[k] == before[k];
        } else if k - |before| < |forward| {
          assert after[k] == forward[k - |before|];
        } else {
          assert after[k] == backward[k - |before| - |forward|];
        }
      }
    }
  }
}
