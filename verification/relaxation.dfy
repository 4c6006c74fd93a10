/**
  The state the bounded query keeps between steps, what holds of it, and the facts
  that one relaxation, one dequeue and an empty queue each establish.
*/
module Relaxation {
  import opened Sequences
  import opened Graph
  import opened Walks
  import opened Potential

  /**
    Every entry leaving `u` is relaxed: going through `u` either overshoots the bound
    or reaches a station already recorded at no greater distance.
  */
  ghost predicate Settled(g: Network, d: map<Station, nat>, u: Station, maxDistance: int)
    requires u in d
  {
    forall e :: e in Neighbors(g, u) ==> d[u] + e.1 > maxDistance || (e.0 in d && d[e.0] <= d[u] + e.1)
  }

  /** Each recorded distance is the length of the recorded walk from `start` to that station. */
  ghost predicate Witnessed(g: Network, start: Station, d: map<Station, nat>, paths: map<Station, seq<Entry>>) {
    forall v :: v in d ==>
      && v in paths
      && IsWalk(g, start, paths[v])
      && Last(start, paths[v]) == v
      && Length(paths[v]) == d[v]
  }

  /** Improving the distance of `v` keeps every other settled station settled. */
  lemma SettledAfterImprove(g: Network, d: map<Station, nat>, u: Station, v: Station, x: nat, maxDistance: int)
    requires u in d && u != v
    requires v in d ==> x < d[v]
    requires Settled(g, d, u, maxDistance)
    ensures Settled(g, d[v := x], u, maxDistance)
  {
  }

  /**
    Once every recorded station is settled and `start` is recorded at 0, every walk from
    `start` within the bound ends at a recorded station whose distance is at most the
    walk's length.
  */
  lemma {:induction false} SettledIsComplete(g: Network, start: Station, d: map<Station, nat>, maxDistance: int, p: seq<Entry>)
    requires start in d && d[start] == 0
    requires forall u :: u in d ==> Settled(g, d, u, maxDistance)
    requires IsWalk(g, start, p)
    requires Length(p) <= maxDistance
    ensures Last(start, p) in d && d[Last(start, p)] <= Length(p)
    decreases |p|
  {
    if |p| > 0 {
      var prefix := p[..|p| - 1];
      var e := p[|p| - 1];
      SettledIsComplete(g, start, d, maxDistance, prefix);
      var u := Last(start, prefix);
      assert e in Neighbors(g, u);
      assert Settled(g, d, u, maxDistance);
    }
  }

  /** `start` is recorded at 0, every recorded station is one of `stations`, and every other recorded distance is within the bound. */
  ghost predicate Anchored(start: Station, maxDistance: int, stations: set<Station>, d: map<Station, nat>) {
    && start in d && d[start] == 0
    && d.Keys <= stations
    && (forall v :: v in d && v != start ==> d[v] <= maxDistance)
  }

  /** Every queued station has a recorded distance. */
  ghost predicate Queued(queue: seq<Station>, d: map<Station, nat>) {
    forall q :: q in queue ==> q in d
  }

  /**
    The result lists the logged stations in order of first occurrence, and the log holds
    exactly the recorded stations other than `start`.
  */
  ghost predicate Logged(start: Station, reachable: seq<Station>, discovered: seq<Station>, d: map<Station, nat>) {
    && reachable == FirstOccurrences(discovered)
    && (forall v :: v in discovered <==> v in d && v != start)
  }

  /** Every recorded station other than the `pending` ones is still queued or settled. */
  ghost predicate SettledOutside(g: Network, maxDistance: int, d: map<Station, nat>, queue: seq<Station>, pending: set<Station>) {
    forall u :: u in d ==> u in queue || u in pending || Settled(g, d, u, maxDistance)
  }

  /** An entry of the recorded station `u` leads to `v` and stays within the bound when followed from `u`'s distance. */
  ghost predicate LeadsWithin(g: Network, d: map<Station, nat>, maxDistance: int, u: Station, v: Station) {
    u in d && exists e :: e in Neighbors(g, u) && e.0 == v && d[u] + e.1 <= maxDistance
  }

  /** The station listed at `i` is led to, within the bound, by an entry of `start` or of a station listed before it. */
  ghost predicate ListedAfterSource(g: Network, start: Station, maxDistance: int, reachable: seq<Station>, d: map<Station, nat>, i: nat)
    requires i < |reachable|
  {
    || LeadsWithin(g, d, maxDistance, start, reachable[i])
    || exists j :: 0 <= j < i && LeadsWithin(g, d, maxDistance, reachable[j], reachable[i])
  }

  /** The order of the result: every listed station comes after a station that leads to it, or is led to by `start`. */
  ghost predicate ListedInReachOrder(g: Network, start: Station, maxDistance: int, reachable: seq<Station>, d: map<Station, nat>) {
    forall i :: 0 <= i < |reachable| ==> ListedAfterSource(g, start, maxDistance, reachable, d, i)
  }

  /**
    What the traversal keeps between steps: the result so far, the distance recorded for
    each station reached, and the stations still to visit, oldest first.
  */
  datatype State = State(reachable: seq<Station>, distances: map<Station, nat>, queue: seq<Station>)

  /**
    The proof's bookkeeping alongside the state: every station whose distance was set or
    improved, in order, and a walk from `start` for each recorded distance.
  */
  datatype Trail = Trail(discovered: seq<Station>, paths: map<Station, seq<Entry>>)

  /**
    What holds of the traversal's state between steps. `pending` holds the station
    whose entries are being relaxed, if any.
  */
  ghost predicate Invariant(
    g: Network, start: Station, maxDistance: int, stations: set<Station>,
    st: State, tr: Trail, pending: set<Station>)
  {
    TableConsistent(g, start, maxDistance, stations, st, tr) && ResultConsistent(g, start, maxDistance, st, tr, pending)
  }

  /** The distance table: anchored at `start`, covering the queue, and witnessed by walks. */
  ghost predicate TableConsistent(g: Network, start: Station, maxDistance: int, stations: set<Station>, st: State, tr: Trail) {
    && Anchored(start, maxDistance, stations, st.distances)
    && Queued(st.queue, st.distances)
    && Witnessed(g, start, st.distances, tr.paths)
  }

  /** The result and the work left: logged, in reach order, and every station queued, pending or settled. */
  ghost predicate ResultConsistent(g: Network, start: Station, maxDistance: int, st: State, tr: Trail, pending: set<Station>) {
    && Logged(start, st.reachable, tr.discovered, st.distances)
    && SettledOutside(g, maxDistance, st.distances, st.queue, pending)
    && ListedInReachOrder(g, start, maxDistance, st.reachable, st.distances)
  }

  /** The entries `entries[..i]`, followed from a station at `base`, are all relaxed. */
  ghost predicate RelaxedUpTo(d: map<Station, nat>, base: nat, entries: seq<Entry>, i: nat, maxDistance: int)
    requires i <= |entries|
  {
    forall j :: 0 <= j < i ==>
      base + entries[j].1 > maxDistance || (entries[j].0 in d && d[entries[j].0] <= base + entries[j].1)
  }

  /** An entry that needs no relaxation extends the relaxed prefix by one. */
  lemma RelaxedUpToSkip(d: map<Station, nat>, base: nat, entries: seq<Entry>, i: nat, maxDistance: int)
    requires i < |entries|
    requires RelaxedUpTo(d, base, entries, i, maxDistance)
    requires base + entries[i].1 > maxDistance
          || (entries[i].0 in d && d[entries[i].0] <= base + entries[i].1)
    ensures RelaxedUpTo(d, base, entries, i + 1, maxDistance)
  {
  }

  /** Relaxing entry `i` extends the relaxed prefix by one. */
  lemma RelaxedUpToImprove(d: map<Station, nat>, base: nat, entries: seq<Entry>, i: nat, maxDistance: int, d': map<Station, nat>)
    requires i < |entries|
    requires RelaxedUpTo(d, base, entries, i, maxDistance)
    requires entries[i].0 in d ==> base + entries[i].1 < d[entries[i].0]
    requires d' == d[entries[i].0 := base + entries[i].1]
    ensures RelaxedUpTo(d', base, entries, i + 1, maxDistance)
  {
  }

  /** Recording a distance within the bound for the far end of an entry keeps the table anchored. */
  lemma AnchoredAfterRelax(
    start: Station, maxDistance: int, stations: set<Station>, d: map<Station, nat>,
    current: Station, next: Entry, d': map<Station, nat>)
    requires Anchored(start, maxDistance, stations, d)
    requires next.0 in stations
    requires current in d && d[current] + next.1 <= maxDistance
    requires next.0 in d ==> d[current] + next.1 < d[next.0]
    requires d' == d[next.0 := d[current] + next.1]
    ensures Anchored(start, maxDistance, stations, d')
  {
  }

  /** Queueing the station whose distance was just recorded keeps every queued station recorded. */
  lemma QueuedAfterRelax(
    queue: seq<Station>, d: map<Station, nat>, station: Station, x: nat,
    queue': seq<Station>, d': map<Station, nat>)
    requires Queued(queue, d)
    requires d' == d[station := x]
    requires queue' == queue + [station]
    ensures Queued(queue', d')
  {
  }

  /** Recording a walk for the far end of an entry of a witnessed station keeps every distance witnessed. */
  lemma WitnessedAfterRelax(
    g: Network, start: Station, d: map<Station, nat>, paths: map<Station, seq<Entry>>,
    current: Station, next: Entry, d': map<Station, nat>, paths': map<Station, seq<Entry>>)
    requires Witnessed(g, start, d, paths)
    requires current in d
    requires next in Neighbors(g, current)
    requires d' == d[next.0 := d[current] + next.1]
    requires paths' == paths[next.0 := paths[current] + [next]]
    ensures Witnessed(g, start, d', paths')
  {
    WalkExtend(g, start, paths[current], next);
  }

  /** Logging a newly recorded station, and listing it unless already listed, keeps the log consistent. */
  lemma LoggedAfterRelax(
    start: Station, reachable: seq<Station>, discovered: seq<Station>, d: map<Station, nat>,
    station: Station, x: nat, reachable': seq<Station>, discovered': seq<Station>, d': map<Station, nat>)
    requires Logged(start, reachable, discovered, d)
    requires station != start
    requires reachable' == if station in reachable then reachable else reachable + [station]
    requires discovered' == discovered + [station]
    requires d' == d[station := x]
    ensures Logged(start, reachable', discovered', d')
  {
    assert discovered'[..|discovered|] == discovered;
  }

  /** In a consistent log every recorded station other than `start` is listed. */
  lemma LoggedListed(start: Station, reachable: seq<Station>, discovered: seq<Station>, d: map<Station, nat>, u: Station)
    requires Logged(start, reachable, discovered, d)
    requires u in d
    ensures u == start || u in reachable
  {
  }

  /** Improving the distance of `station` and queueing it keeps everyone else settled. */
  lemma SettledOutsideAfterRelax(
    g: Network, maxDistance: int, d: map<Station, nat>, queue: seq<Station>, current: Station,
    station: Station, x: nat, d': map<Station, nat>, queue': seq<Station>)
    requires SettledOutside(g, maxDistance, d, queue, {current})
    requires station in d ==> x < d[station]
    requires d' == d[station := x]
    requires queue' == queue + [station]
    ensures SettledOutside(g, maxDistance, d', queue', {current})
  {
    forall u | u in d'
      ensures u in queue' || u in {current} || Settled(g, d', u, maxDistance)
    {
      if u != station && u !in queue && u != current {
        SettledAfterImprove(g, d, u, station, x, maxDistance);
      }
    }
  }

  /** Improving the distance of `s` keeps every entry that led within the bound leading within it. */
  lemma LeadsWithinAfterImprove(g: Network, d: map<Station, nat>, maxDistance: int, u: Station, v: Station, s: Station, x: nat)
    requires LeadsWithin(g, d, maxDistance, u, v)
    requires s in d ==> x < d[s]
    ensures LeadsWithin(g, d[s := x], maxDistance, u, v)
  {
    var e :| e in Neighbors(g, u) && e.0 == v && d[u] + e.1 <= maxDistance;
    assert d[s := x][u] <= d[u];
  }

  /** Improving one distance and appending to the result keeps an already listed station after its source. */
  lemma ListedAfterSourceKept(
    g: Network, start: Station, maxDistance: int, reachable: seq<Station>, d: map<Station, nat>, i: nat,
    s: Station, x: nat, reachable': seq<Station>)
    requires i < |reachable| <= |reachable'| && reachable'[..|reachable|] == reachable
    requires ListedAfterSource(g, start, maxDistance, reachable, d, i)
    requires s in d ==> x < d[s]
    ensures ListedAfterSource(g, start, maxDistance, reachable', d[s := x], i)
  {
    assert reachable'[i] == reachable[i];
    if LeadsWithin(g, d, maxDistance, start, reachable[i]) {
      LeadsWithinAfterImprove(g, d, maxDistance, start, reachable[i], s, x);
    } else {
      var j :| 0 <= j < i && LeadsWithin(g, d, maxDistance, reachable[j], reachable[i]);
      LeadsWithinAfterImprove(g, d, maxDistance, reachable[j], reachable[i], s, x);
      assert reachable'[j] == reachable[j];
    }
  }

  /** The far end of an entry of `current`, newly listed, comes after its source. */
  lemma ListedAfterSourceAppended(
    g: Network, start: Station, maxDistance: int, reachable: seq<Station>, d': map<Station, nat>,
    current: Station, next: Entry)
    requires current in d' && (current == start || current in reachable)
    requires next in Neighbors(g, current) && d'[current] + next.1 <= maxDistance
    ensures ListedAfterSource(g, start, maxDistance, reachable + [next.0], d', |reachable|)
  {
    assert LeadsWithin(g, d', maxDistance, current, next.0);
    if current != start {
      var j :| 0 <= j < |reachable| && reachable[j] == current;
      assert (reachable + [next.0])[j] == current;
    }
  }

  /**
    Improving the far end of an entry of `current`, which is `start` or already listed, and
    listing it unless already listed keeps the result in reach order.
  */
  lemma ListedInReachOrderAfterRelax(
    g: Network, start: Station, maxDistance: int, reachable: seq<Station>, d: map<Station, nat>,
    current: Station, next: Entry, reachable': seq<Station>, d': map<Station, nat>)
    requires ListedInReachOrder(g, start, maxDistance, reachable, d)
    requires current in d && (current == start || current in reachable)
    requires next in Neighbors(g, current) && d[current] + next.1 <= maxDistance
    requires next.0 in d ==> d[current] + next.1 < d[next.0]
    requires reachable' == if next.0 in reachable then reachable else reachable + [next.0]
    requires d' == d[next.0 := d[current] + next.1]
    ensures ListedInReachOrder(g, start, maxDistance, reachable', d')
  {
    var x := d[current] + next.1;
    assert next.0 != current && d'[current] == d[current];
    assert reachable'[..|reachable|] == reachable;
    forall i | 0 <= i < |reachable'|
      ensures ListedAfterSource(g, start, maxDistance, reachable', d', i)
    {
      if i < |reachable| {
        ListedAfterSourceKept(g, start, maxDistance, reachable, d, i, next.0, x, reachable');
      } else {
        ListedAfterSourceAppended(g, start, maxDistance, reachable, d', current, next);
      }
    }
  }

  /** What one successful relaxation of the entry `next` of `current` does to the state and the trail. */
  ghost predicate Relaxed(current: Station, next: Entry, st: State, tr: Trail, st': State, tr': Trail)
    requires current in st.distances && current in tr.paths
  {
    && st'.reachable == (if next.0 in st.reachable then st.reachable else st.reachable + [next.0])
    && st'.distances == st.distances[next.0 := st.distances[current] + next.1]
    && st'.queue == st.queue + [next.0]
    && tr'.discovered == tr.discovered + [next.0]
    && tr'.paths == tr.paths[next.0 := tr.paths[current] + [next]]
  }

  /** A successful relaxation keeps the distance table consistent. */
  lemma TableAfterRelax(
    g: Network, start: Station, maxDistance: int, stations: set<Station>,
    current: Station, next: Entry, st: State, tr: Trail, st': State, tr': Trail)
    requires TableConsistent(g, start, maxDistance, stations, st, tr)
    requires current in st.distances && current in tr.paths
    requires next in Neighbors(g, current) && next.0 in stations
    requires st.distances[current] + next.1 <= maxDistance
    requires next.0 in st.distances ==> st.distances[current] + next.1 < st.distances[next.0]
    requires Relaxed(current, next, st, tr, st', tr')
    ensures TableConsistent(g, start, maxDistance, stations, st', tr')
  {
    var d, d' := st.distances, st'.distances;
    AnchoredAfterRelax(start, maxDistance, stations, d, current, next, d');
    QueuedAfterRelax(st.queue, d, next.0, d[current] + next.1, st'.queue, d');
    WitnessedAfterRelax(g, start, d, tr.paths, current, next, d', tr'.paths);
  }

  /** A successful relaxation keeps the result consistent, with `current` still pending. */
  lemma ResultAfterRelax(
    g: Network, start: Station, maxDistance: int,
    current: Station, next: Entry, st: State, tr: Trail, st': State, tr': Trail)
    requires ResultConsistent(g, start, maxDistance, st, tr, {current})
    requires current in st.distances && current in tr.paths
    requires next.0 != start
    requires next in Neighbors(g, current)
    requires st.distances[current] + next.1 <= maxDistance
    requires next.0 in st.distances ==> st.distances[current] + next.1 < st.distances[next.0]
    requires Relaxed(current, next, st, tr, st', tr')
    ensures ResultConsistent(g, start, maxDistance, st', tr', {current})
  {
    var d, d' := st.distances, st'.distances;
    var x := d[current] + next.1;
    LoggedAfterRelax(start, st.reachable, tr.discovered, d, next.0, x, st'.reachable, tr'.discovered, d');
    SettledOutsideAfterRelax(g, maxDistance, d, st.queue, current, next.0, x, d', st'.queue);
    LoggedListed(start, st.reachable, tr.discovered, d, current);
    ListedInReachOrderAfterRelax(g, start, maxDistance, st.reachable, d, current, next, st'.reachable, d');
  }

  /**
    One successful relaxation of the entry `next` of `current` (state `st` before, `st'`
    after) keeps the invariant, with `current` still pending.
  */
  lemma RelaxStep(
    g: Network, start: Station, maxDistance: int, stations: set<Station>,
    current: Station, next: Entry, st: State, tr: Trail, st': State, tr': Trail)
    requires Invariant(g, start, maxDistance, stations, st, tr, {current})
    requires current in st.distances
    requires next in Neighbors(g, current) && next.0 in stations
    requires st.distances[current] + next.1 <= maxDistance
    requires next.0 in st.distances ==> st.distances[current] + next.1 < st.distances[next.0]
    requires st'.reachable == if next.0 in st.reachable then st.reachable else st.reachable + [next.0]
    requires st'.distances == st.distances[next.0 := st.distances[current] + next.1]
    requires st'.queue == st.queue + [next.0]
    requires tr'.discovered == tr.discovered + [next.0]
    requires tr'.paths == tr.paths[next.0 := tr.paths[current] + [next]]
    ensures Invariant(g, start, maxDistance, stations, st', tr', {current})
    ensures current in st'.distances && st'.distances[current] == st.distances[current]
  {
    assert Witnessed(g, start, st.distances, tr.paths);
    assert Anchored(start, maxDistance, stations, st.distances);
    TableAfterRelax(g, start, maxDistance, stations, current, next, st, tr, st', tr');
    ResultAfterRelax(g, start, maxDistance, current, next, st, tr, st', tr');
  }

  /** Once all of its entries are relaxed, the pending station `current` is settled. */
  lemma SettleCurrent(
    g: Network, start: Station, maxDistance: int, stations: set<Station>, current: Station,
    st: State, tr: Trail)
    requires Invariant(g, start, maxDistance, stations, st, tr, {current})
    requires current in st.distances
    requires RelaxedUpTo(st.distances, st.distances[current], Neighbors(g, current), |Neighbors(g, current)|, maxDistance)
    ensures Invariant(g, start, maxDistance, stations, st, tr, {})
  {
    assert Settled(g, st.distances, current, maxDistance);
  }

  /** The state before the first round: only `start` is recorded, at 0, and queued. */
  lemma InitialInvariant(g: Network, start: Station, maxDistance: int, stations: set<Station>)
    requires start in stations
    ensures Invariant(g, start, maxDistance, stations, State([], map[start := 0], [start]), Trail([], map[start := []]), {})
  {
  }

  /** Taking the head off the queue leaves it pending. */
  lemma PopKeeps(g: Network, start: Station, maxDistance: int, stations: set<Station>, st: State, tr: Trail)
    requires st.queue != []
    requires Invariant(g, start, maxDistance, stations, st, tr, {})
    ensures st.queue[0] in st.distances
    ensures Invariant(g, start, maxDistance, stations, st.(queue := st.queue[1..]), tr, {st.queue[0]})
  {
    assert forall q :: q in st.queue ==> q == st.queue[0] || q in st.queue[1..];
  }

  /**
    Relaxing entry `i` of `current` when it improves the far end: `current` keeps its
    distance, one more entry is relaxed and the potential drops.
  */
  lemma ImproveEntry(
    g: Network, maxDistance: int, stations: set<Station>, cap: nat,
    current: Station, entries: seq<Entry>, i: nat, d: map<Station, nat>, d': map<Station, nat>)
    requires CoversEntriesOf(g, current, stations)
    requires cap > maxDistance
    requires entries == Neighbors(g, current) && i < |entries|
    requires current in d
    requires RelaxedUpTo(d, d[current], entries, i, maxDistance)
    requires d[current] + entries[i].1 <= maxDistance
    requires entries[i].0 in d ==> d[current] + entries[i].1 < d[entries[i].0]
    requires d' == d[entries[i].0 := d[current] + entries[i].1]
    ensures entries[i].0 in stations
    ensures current in d' && d'[current] == d[current]
    ensures RelaxedUpTo(d', d[current], entries, i + 1, maxDistance)
    ensures Sum(stations, d', cap) < Sum(stations, d, cap)
  {
    RelaxedUpToImprove(d, d[current], entries, i, maxDistance, d');
    RelaxLowersSum(stations, d, cap, entries[i].0, d[current] + entries[i].1, d');
  }


  /**
    With the queue drained, the result lists each station other than `start` that has a
    distance, once, and every such distance is within the bound.
  */
  lemma ConcludeTable(
    g: Network, start: Station, maxDistance: int, stations: set<Station>, st: State, tr: Trail)
    requires st.queue == []
    requires Invariant(g, start, maxDistance, stations, st, tr, {})
    ensures start in st.distances && st.distances[start] == 0
    ensures forall v :: v in st.reachable <==> v in st.distances && v != start
    ensures Distinct(st.reachable)
    ensures st.reachable == FirstOccurrences(tr.discovered)
    ensures forall v :: v in tr.discovered <==> v in st.reachable
    ensures forall v :: v in st.distances && v != start ==> st.distances[v] <= maxDistance
    ensures ListedInReachOrder(g, start, maxDistance, st.reachable, st.distances)
  {
  }

  /** With the queue drained, every recorded distance is the length of a walk from `start`. */
  lemma ConcludeSound(
    g: Network, start: Station, maxDistance: int, stations: set<Station>, st: State, tr: Trail)
    requires st.queue == []
    requires Invariant(g, start, maxDistance, stations, st, tr, {})
    ensures forall v :: v in st.distances ==>
      exists p :: IsWalk(g, start, p) && Last(start, p) == v && Length(p) == st.distances[v]
    ensures forall v :: v in st.reachable ==> WithinReach(g, start, v, maxDistance)
  {
    assert Witnessed(g, start, st.distances, tr.paths);
    forall v | v in st.distances
      ensures IsWalk(g, start, tr.paths[v]) && Last(start, tr.paths[v]) == v && Length(tr.paths[v]) == st.distances[v]
    {
    }
  }

  /**
    With the queue drained, every walk from `start` within the bound ends at a recorded
    station whose distance is at most the walk's length, and that station is in the result
    unless it is `start`.
  */
  lemma ConcludeComplete(
    g: Network, start: Station, maxDistance: int, stations: set<Station>, st: State, tr: Trail)
    requires st.queue == []
    requires Invariant(g, start, maxDistance, stations, st, tr, {})
    ensures forall p :: IsWalk(g, start, p) && Length(p) <= maxDistance ==>
      Last(start, p) in st.distances && st.distances[Last(start, p)] <= Length(p)
    ensures forall v :: v != start && WithinReach(g, start, v, maxDistance) ==> v in st.reachable
  {
    assert forall u :: u in st.distances ==> Settled(g, st.distances, u, maxDistance);
    forall p | IsWalk(g, start, p) && Length(p) <= maxDistance
      ensures Last(start, p) in st.distances && st.distances[Last(start, p)] <= Length(p)
    {
      SettledIsComplete(g, start, st.distances, maxDistance, p);
    }
  }

  /**
    With the queue drained, every recorded distance is at most the length of every walk
    from `start` to that station, within the bound or not: it is the shortest distance.
  */
  lemma ConcludeShortest(
    g: Network, start: Station, maxDistance: int, stations: set<Station>, st: State, tr: Trail)
    requires st.queue == []
    requires Invariant(g, start, maxDistance, stations, st, tr, {})
    ensures forall p :: IsWalk(g, start, p) && Last(start, p) in st.distances ==>
      st.distances[Last(start, p)] <= Length(p)
  {
    assert forall u :: u in st.distances ==> Settled(g, st.distances, u, maxDistance);
    forall p | IsWalk(g, start, p) && Last(start, p) in st.distances
      ensures st.distances[Last(start, p)] <= Length(p)
    {
      if Length(p) <= maxDistance {
        SettledIsComplete(g, start, st.distances, maxDistance, p);
      }
    }
  }

  /** With the queue drained, nothing is found past a negative bound or from a station without entries. */
  lemma ConcludeEmpty(
    g: Network, start: Station, maxDistance: int, stations: set<Station>, st: State, tr: Trail)
    requires st.queue == []
    requires Invariant(g, start, maxDistance, stations, st, tr, {})
    ensures maxDistance < 0 ==> st.reachable == []
    ensures Neighbors(g, start) == [] ==> st.reachable == []
  {
    if |st.reachable| > 0 {
      var v := st.reachable[0];
      assert v in tr.discovered;
      assert v in st.distances && v != start;
      if Neighbors(g, start) == [] {
        WalkFromIsolated(g, start, tr.paths[v]);
      }
    }
  }
}
