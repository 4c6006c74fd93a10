/**
  The bounded query: which stations lie within `maxDistance` of `start`.

  The traversal is a first-in-first-out label-correcting relaxation. A station is put
  back on the queue every time its recorded distance strictly improves while staying
  within the bound, and a dequeued station relaxes its entries with the distance
  recorded for it at that moment. Weights are natural numbers, so the walk lengths
  it compares are exact.
*/
module Traversal {
  import opened Sequences
  import opened Graph
  import opened Walks
  import opened Potential
  import opened Relaxation

  /**
    Handles entry `i` of `current`, whose distance is `currentDistance`. When going
    through `current` stays within the bound and strictly improves the distance recorded
    for the far end (or gives it its first one), the new distance is recorded, the far end
    is queued again and logged, and it is added to the result unless already there;
    otherwise nothing changes. Either way the entry is relaxed afterwards, and a change
    always lowers the potential.
  */
  method RelaxEntry(
    g: Network, start: Station, maxDistance: int, ghost stations: set<Station>, ghost cap: nat,
    current: Station, currentDistance: nat, entries: seq<Entry>, i: nat, st: State, ghost tr: Trail)
    returns (st': State, ghost tr': Trail)
    requires CoversEntriesOf(g, current, stations)
    requires cap > maxDistance
    requires entries == Neighbors(g, current) && i < |entries|
    requires Invariant(g, start, maxDistance, stations, st, tr, {current})
    requires current in st.distances && st.distances[current] == currentDistance
    requires RelaxedUpTo(st.distances, currentDistance, entries, i, maxDistance)
    ensures Invariant(g, start, maxDistance, stations, st', tr', {current})
    ensures current in st'.distances && st'.distances[current] == currentDistance
    ensures RelaxedUpTo(st'.distances, currentDistance, entries, i + 1, maxDistance)
    ensures Sum(stations, st'.distances, cap) < Sum(stations, st.distances, cap) || st' == st
  {
    var next := entries[i];
    var newDistance := currentDistance + next.1;
    if newDistance <= maxDistance && (next.0 !in st.distances || newDistance < st.distances[next.0]) {
      var station := next.0;
      st' := State(
        if station in st.reachable then st.reachable else st.reachable + [station],
        st.distances[station := newDistance],
        st.queue + [station]);
      tr' := Trail(tr.discovered + [station], tr.paths[station := tr.paths[current] + [next]]);
      ImproveEntry(g, maxDistance, stations, cap, current, entries, i, st.distances, st'.distances);
      RelaxStep(g, start, maxDistance, stations, current, next, st, tr, st', tr');
    } else {
      RelaxedUpToSkip(st.distances, currentDistance, entries, i, maxDistance);
      st', tr' := st, tr;
    }
  }

  /**
    One round of the main loop: dequeues the head `current` and relaxes its entries in
    list order, each with the distance recorded for `current` when it was dequeued.
    Afterwards `current` is settled (unless queued again), and either the potential has
    dropped or the queue has only lost its head.
  */
  method Visit(
    g: Network, start: Station, maxDistance: int, ghost stations: set<Station>, ghost cap: nat,
    st: State, ghost tr: Trail)
    returns (st': State, ghost tr': Trail)
    requires CoversEntries(g, stations)
    requires cap > maxDistance
    requires st.queue != []
    requires Invariant(g, start, maxDistance, stations, st, tr, {})
    ensures Invariant(g, start, maxDistance, stations, st', tr', {})
    ensures Sum(stations, st'.distances, cap) < Sum(stations, st.distances, cap)
         || (Sum(stations, st'.distances, cap) == Sum(stations, st.distances, cap) && st'.queue == st.queue[1..])
  {
    PopKeeps(g, start, maxDistance, stations, st, tr);
    var current := st.queue[0];
    var currentDistance := st.distances[current];
    st', tr' := st.(queue := st.queue[1..]), tr;
    ghost var before := Sum(stations, st.distances, cap);
    var entries := Neighbors(g, current);
    assert CoversEntriesOf(g, current, stations);
    var i := 0;
    while i < |entries|
      invariant 0 <= i <= |entries|
      invariant current in st'.distances && st'.distances[current] == currentDistance
      invariant Invariant(g, start, maxDistance, stations, st', tr', {current})
      invariant RelaxedUpTo(st'.distances, currentDistance, entries, i, maxDistance)
      invariant Sum(stations, st'.distances, cap) <= before
      invariant Sum(stations, st'.distances, cap) == before ==> st'.queue == st.queue[1..]
    {
      st', tr' := RelaxEntry(g, start, maxDistance, stations, cap, current, currentDistance, entries, i, st', tr');
      i := i + 1;
    }
    SettleCurrent(g, start, maxDistance, stations, current, st', tr');
  }

  /**
    The main loop: visits queued stations until the queue is empty. It terminates because
    every round either lowers the potential or shortens the queue.
  */
  method Drain(
    g: Network, start: Station, maxDistance: int, ghost stations: set<Station>, ghost cap: nat,
    st: State, ghost tr: Trail)
    returns (st': State, ghost tr': Trail)
    requires CoversEntries(g, stations)
    requires cap > maxDistance
    requires Invariant(g, start, maxDistance, stations, st, tr, {})
    ensures st'.queue == []
    ensures Invariant(g, start, maxDistance, stations, st', tr', {})
    ensures start in st'.distances && st'.distances[start] == 0
    ensures forall v :: v in st'.reachable <==> v in st'.distances && v != start
  {
    st', tr' := st, tr;
    while st'.queue != []
      invariant Invariant(g, start, maxDistance, stations, st', tr', {})
      decreases Sum(stations, st'.distances, cap), |st'.queue|
    {
      st', tr' := Visit(g, start, maxDistance, stations, cap, st', tr');
    }
    assert Anchored(start, maxDistance, stations, st'.distances);
    assert Logged(start, st'.reachable, tr'.discovered, st'.distances);
  }

  /**
    Returns the stations other than `start` within `maxDistance` of it, in the order in
    which each first received a distance, together with the distance table built on the
    way. The ghost `discovered` logs every station whose distance was set or improved,
    in order.
  */
  method FindStationsWithinDistance(g: Network, start: Station, maxDistance: int)
    returns (reachable: seq<Station>, distances: map<Station, nat>, ghost discovered: seq<Station>)
    ensures start in distances && distances[start] == 0
    ensures forall v :: v in reachable <==> v in distances && v != start
    ensures Distinct(reachable)
    ensures reachable == FirstOccurrences(discovered)
    ensures forall v :: v in discovered <==> v in reachable
    ensures forall v :: v in distances && v != start ==> distances[v] <= maxDistance
    ensures ListedInReachOrder(g, start, maxDistance, reachable, distances)
    ensures forall v :: v in distances ==>
      exists p :: IsWalk(g, start, p) && Last(start, p) == v && Length(p) == distances[v]
    ensures forall p :: IsWalk(g, start, p) && Length(p) <= maxDistance ==>
      Last(start, p) in distances && distances[Last(start, p)] <= Length(p)
    ensures forall p :: IsWalk(g, start, p) && Last(start, p) in distances ==>
      distances[Last(start, p)] <= Length(p)
    ensures forall v :: v in reachable <==> v != start && WithinReach(g, start, v, maxDistance)
    ensures maxDistance < 0 ==> reachable == []
    ensures Neighbors(g, start) == [] ==> reachable == []
  {
    var cap: nat := (if maxDistance < 0 then 0 else maxDistance) + 1;
    ghost var stations := Stations(g) + {start};
    InitialInvariant(g, start, maxDistance, stations);
    StationsCoverEntries(g, stations);
    var st: State;
    ghost var tr: Trail;
    st, tr := Drain(g, start, maxDistance, stations, cap, State([], map[start := 0], [start]), Trail([], map[start := []]));
    ConcludeTable(g, start, maxDistance, stations, st, tr);
    ConcludeSound(g, start, maxDistance, stations, st, tr);
    ConcludeComplete(g, start, maxDistance, stations, st, tr);
    ConcludeShortest(g, start, maxDistance, stations, st, tr);
    ConcludeEmpty(g, start, maxDistance, stations, st, tr);
    reachable, distances, discovered := st.reachable, st.distances, tr.discovered;
  }
}
