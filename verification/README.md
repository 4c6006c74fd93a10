# Subway network: stations within a distance

This project models the core of a small subway-network program in Dafny:

- how connections between stations are inserted into the network;
- the query that lists every station lying within a given travel distance of a starting station.

The network is a map from station name to an adjacency list of `(neighbour, distance)` entries. `Graph.AddConnection` models the insertion of one undirected connection:

- it creates an empty list for each end that has none;
- it appends one entry in each direction;
- it never merges repeated connections.

`Traversal.FindStationsWithinDistance` models the query. It is a first-in-first-out label-correcting relaxation:

- `start` is recorded at distance 0 and queued;
- each dequeued station relaxes its entries in list order, using the distance recorded for it when it was dequeued;
- an entry is relaxed only when the new distance stays within the bound and strictly improves the far end's recorded distance (or gives it its first one);
- on such an improvement the far end is recorded, queued again, and appended to the result unless it is already there.

The proofs establish the following:

- **Termination:** a potential, the sum over all mentioned stations of their recorded distance (or a cap while unrecorded), drops with every improvement.
- **Soundness:** every recorded distance is the length of an actual walk.
- **Completeness and exactness:** every walk within the bound reaches a recorded station at no greater distance. So the recorded distances are the true shortest distances, even though the queue is not ordered by distance.
- **The result itself:** the result is exactly the set of stations other than `start` within the bound, each listed once.
- **The order of the result:** each listed station is the far end of an entry of `start`, or of a station listed before it, whose distance plus the entry's stays within the bound.

The queue is first-in-first-out, not ordered by distance. The proof shows the recorded distances are still the shortest ones.

Insertion does not check its weight. The model's weights are natural numbers.

Modules:

- `Sequences`: distinctness and first occurrences.
- `Graph`: the network and connection insertion.
- `Walks`: walks and their lengths, the reference for distances.
- `Potential`: the termination measure.
- `Relaxation`: the traversal's state, its invariant and the facts about each step.
- `Traversal`: the query's methods.
- `Scenarios`: a worked three-station example.

## Model

| member | source | states |
|---|---|---|
| Graph.Neighbors | src/subwaysystem/SubwaySystem.java:54 | the list of a known station is its stored list; a station the network does not know has the empty list, so the traversal follows nothing from it |
| Graph.AddConnection | src/subwaysystem/SubwaySystem.java:34-39 | after insertion the stations are the old ones plus both ends; the list of `from` gains `(to, d)` at its end, that of `to` gains `(from, d)`, and every other list is unchanged |
| Graph.AddConnectionMultiplicity | src/subwaysystem/SubwaySystem.java:37-38 | insertion adds exactly one `from -> to` entry and one `to -> from` entry of the given length, and no other entry |
| Graph.AddConnectionPreservesSymmetry | src/subwaysystem/SubwaySystem.java:34-39 | insertion keeps the network undirected: as many `a -> b` entries of each length as `b -> a` ones |
| Graph.AddConnectionTwice | src/subwaysystem/SubwaySystem.java:37-38 | inserting the same connection twice keeps both copies as parallel entries, with no de-duplication (four entries for a self-loop) |
| Graph.AddConnectionCovers | src/subwaysystem/SubwaySystem.java:37-38 | inserting a connection between two stations of a set keeps every entry of the network leading into that set |
| Graph.FromConnectionsKeys | src/subwaysystem/SubwaySystem.java:35-36 | a network built by inserting a sequence of connections has exactly the connections' endpoints as stations |
| Graph.FromConnectionsMultiplicity | src/subwaysystem/SubwaySystem.java:37-38 | in a network built from connections, the list of `a` holds one `(b, d)` entry per connection `(a, b, d)` and one per connection `(b, a, d)` |
| Graph.FromConnectionsSymmetric | src/subwaysystem/SubwaySystem.java:34-39 | a network built from connections is symmetric |
| Graph.FromConnectionsContains | src/subwaysystem/SubwaySystem.java:37-38 | every inserted connection appears as an entry in the lists of both of its ends |
| Graph.StationsCoverEntries | src/subwaysystem/SubwaySystem.java:54 | the far end of every entry the traversal can follow is a station the network mentions |
| Walks.WalkExtend | src/subwaysystem/SubwaySystem.java:55 | following an entry of the station a walk ends at extends the walk, moves its end to the entry's far end and adds the entry's distance to its length |
| Walks.WalkFromIsolated | src/subwaysystem/SubwaySystem.java:54 | from a station with no list (or an empty one) the only walk is the empty one |
| Walks.WalkEndCovered | src/subwaysystem/SubwaySystem.java:54 | a walk from a station of a set closed under entries ends inside that set |
| Walks.ReachEndsCovered | src/subwaysystem/SubwaySystem.java:54 | every station within reach of a station of a set closed under entries lies in that set |
| Walks.TwoSteps | src/subwaysystem/SubwaySystem.java:55 | two consecutive entries reach their far ends within their first and summed distances |
| Sequences.FirstOccurrences | src/subwaysystem/SubwaySystem.java:59-61 | appending a station only when it is not yet listed gives a list with no repeats holding exactly the appended stations |
| Sequences.FirstOccurrencesOrdered | src/subwaysystem/SubwaySystem.java:59-61 | that list keeps the stations in order of their first appearance |
| Potential.RelaxLowersSum | src/subwaysystem/SubwaySystem.java:56-57 | recording a distance within the bound that improves the recorded one strictly lowers the termination measure |
| Relaxation.SettledIsComplete | src/subwaysystem/SubwaySystem.java:54-62 | once every recorded station has all its entries relaxed, every walk from `start` within the bound ends at a recorded station at a distance no greater than the walk's length |
| Relaxation.RelaxedUpToImprove | src/subwaysystem/SubwaySystem.java:56-57 | recording an improved distance for an entry's far end keeps the earlier entries of the list relaxed and relaxes that entry |
| Relaxation.RelaxedUpToSkip | src/subwaysystem/SubwaySystem.java:56 | an entry that overshoots the bound or does not improve its far end is already relaxed |
| Relaxation.ListedInReachOrderAfterRelax | src/subwaysystem/SubwaySystem.java:56-61 | appending the improved far end of an entry of the dequeued station, which is `start` or already listed, keeps every listed station after a station that leads to it within the bound |
| Relaxation.TableAfterRelax | src/subwaysystem/SubwaySystem.java:57-58 | one improvement keeps the distance table anchored at `start` with 0, within the bound, covering the queue and witnessed by walks |
| Relaxation.ResultAfterRelax | src/subwaysystem/SubwaySystem.java:57-61 | one improvement keeps the result equal to the first occurrences of the log, in reach order, with every station other than the dequeued one queued or relaxed |
| Relaxation.RelaxStep | src/subwaysystem/SubwaySystem.java:55-61 | one improvement keeps the whole invariant: every recorded distance within the bound and witnessed by a walk, its station queued or relaxed, and the result equal to the first occurrences of the log and in reach order |
| Relaxation.ImproveEntry | src/subwaysystem/SubwaySystem.java:55-58 | an improvement keeps the dequeued station's distance, extends the relaxed prefix of its list and lowers the termination measure |
| Relaxation.InitialInvariant | src/subwaysystem/SubwaySystem.java:43-48 | the initial state (only `start`, at 0, queued; empty result) satisfies the invariant |
| Relaxation.PopKeeps | src/subwaysystem/SubwaySystem.java:51-52 | the dequeued station has a recorded distance, and the invariant holds with it pending |
| Relaxation.SettleCurrent | src/subwaysystem/SubwaySystem.java:54-63 | once all entries of the dequeued station are relaxed, it is settled |
| Relaxation.ConcludeTable | src/subwaysystem/SubwaySystem.java:50-66 | with the queue empty, the result holds each recorded station other than `start` exactly once and in reach order, and every such distance is within the bound |
| Relaxation.ConcludeSound | src/subwaysystem/SubwaySystem.java:50-66 | with the queue empty, every recorded distance is the length of a walk from `start`, so every listed station is within reach |
| Relaxation.ConcludeComplete | src/subwaysystem/SubwaySystem.java:50-66 | with the queue empty, every station other than `start` reachable within the bound is listed |
| Relaxation.ConcludeShortest | src/subwaysystem/SubwaySystem.java:50-66 | with the queue empty, every recorded distance is at most the length of every walk to that station |
| Relaxation.ConcludeEmpty | src/subwaysystem/SubwaySystem.java:54-56 | with the queue empty, a negative bound or a start without entries gives an empty result |
| Traversal.RelaxEntry | src/subwaysystem/SubwaySystem.java:55-62 | relaxing one entry keeps the invariant and extends the relaxed prefix, and it either changes nothing or lowers the termination measure |
| Traversal.Visit | src/subwaysystem/SubwaySystem.java:51-63 | one round keeps the invariant, and it either lowers the termination measure or only removes the queue's head |
| Traversal.Drain | src/subwaysystem/SubwaySystem.java:50-64 | the loop terminates with an empty queue and the invariant intact; `start` stays recorded at 0 and the result holds exactly the other recorded stations |
| Traversal.FindStationsWithinDistance | src/subwaysystem/SubwaySystem.java:42-67 | a station is listed if and only if it differs from `start` and some walk from `start` reaches it within the bound. The list has no repeats, and each listed station is led to within the bound by an entry of `start` or of a station listed earlier. Each recorded distance is the shortest walk length. A negative bound, or a start without entries (an unknown start included), gives an empty list |
| Scenarios.TriangleLists | src/subwaysystem/SubwaySystem.java:34-39 | inserting A--B (10), A--C (1) and C--B (1) gives A the list [(B, 10), (C, 1)] and C the list [(A, 1), (B, 1)] |
| Scenarios.ShortcutOrder | src/subwaysystem/SubwaySystem.java:56-61 | when A's list is [(B, 10), (C, 1)], a repeat-free result of exactly B and C in reach order from A with bound 2 is [C, B] |
| Scenarios.TriangleShortcut | src/subwaysystem/SubwaySystem.java:42-67 | from A with bound 2 in that network the query returns [C, B]: B's direct connection exceeds the bound, so B is found only through C |

## Left out

- The constructor and `loadSubwayData` (SubwaySystem.java:10-31) read a text file line by line. File I/O is not modelled. `Graph.FromConnections` stands for the result of inserting the parsed records in order.
- `main` (SubwaySystem.java:81-85) only wires the program together and prints. It is not modelled.
- Distances are Java `double`s. The model uses natural numbers for weights and an unbounded integer for the bound. Rounding, NaN, infinities and negative weights are not modelled.
- The `StationDistance` class (SubwaySystem.java:70-78) is modelled as the pair `Entry`.
- The `HashMap` of distances is a Dafny `map`. Its iteration order plays no part in the result.
- `Traversal.FindStationsWithinDistance` returns the distance table alongside the list, so that its contract can speak about distances. The Java method returns only the list.
- Traversal.FindStationsWithinDistance: the order of the list is stated as reach order, which in general allows more than one ordering; the exact order the queue produces is not stated. The ghost log it also returns is the method's own output, so its clauses about the log add nothing about the order.
