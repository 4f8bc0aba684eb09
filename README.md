# Breadth-first search vertex program of kafka-graphs

kafka-graphs runs vertex-centric graph algorithms on a Pregel-style engine:
in each superstep the engine calls an algorithm's compute function once per
active vertex, and the function acts only through a callback (set a new
vertex value, send messages, vote to halt). This project models the
breadth-first-search compute function `BFSComputeFunction.compute` and
proves what it does in every case.

- `pregel.dfy` (module `Pregel`): Java's `int` and `long` as the newtypes
  `Int` and `Long`, a `Vertex` (id and value), a `Message` (target and
  payload), the `Effects` a compute call records, and the `Callback` class
  whose fields `newValue`, `outbox` and `halted` the callback methods update.
- `bfs.dfy` (module `BreadthFirstSearch`): the `UNVISITED` sentinel
  (`Long.MAX_VALUE`), the pure specification `BfsStep` of one compute call,
  the class `BfsComputeFunction` holding `srcVertexId`, whose `Compute`
  method loops over the edges and is proved to record exactly `BfsStep`'s
  effects, and lemmas for each branch of the rule.
- `bfs_runs.dfy` (module `BfsRuns`): successive compute calls on one vertex,
  with each call's new value stored before the next, at non-negative and
  strictly increasing supersteps. The lemmas show the value is set at most
  once, and exactly once for an unvisited vertex that is the source and gets
  any call, or gets a call after superstep 0. Which calls a vertex receives is
  left to the engine and is a parameter.

Vertex ids are `Long`: the test `vertex.id().equals(srcVertexId)` compares
with a boxed `long`, so it only succeeds when the key type is `Long`. An
edge is represented by its target id, since the edge value is never read.
The superstep is a Java `int`, so every value the function writes
(`(long) superstep`) lies in the `int` range and can never equal
`UNVISITED`.

## Model

| member | source | states |
|---|---|---|
| `BreadthFirstSearch.BfsComputeFunction.Compute` | kafka-graphs-core/src/main/java/io/kgraph/library/BreadthFirstSearch.java:90-115 | the callback's record after the call is its record before, followed by exactly the effects `BfsStep` prescribes (new value, messages in edge order, halt vote); on a fresh callback it is exactly those effects |
| `BreadthFirstSearch.BfsComputeFunction.SendToEdges` | kafka-graphs-core/src/main/java/io/kgraph/library/BreadthFirstSearch.java:101-103 | the loop appends one message per edge, in edge order, to the outbox and touches nothing else |
| `BreadthFirstSearch.BfsComputeFunction.constructor` | kafka-graphs-core/src/main/java/io/kgraph/library/BreadthFirstSearch.java:53-58 | the algorithm object keeps the source vertex id it was given |
| `Pregel.Callback.constructor` | kafka-graphs-core/src/main/java/io/kgraph/library/BreadthFirstSearch.java:95 | a callback starts with no value set, an empty outbox and no halt vote |
| `Pregel.Callback.SetNewVertexValue` | kafka-graphs-core/src/main/java/io/kgraph/library/BreadthFirstSearch.java:100 | records the new value and leaves outbox and halt vote unchanged |
| `Pregel.Callback.SendMessageTo` | kafka-graphs-core/src/main/java/io/kgraph/library/BreadthFirstSearch.java:102 | appends the message to the outbox and leaves the rest unchanged |
| `Pregel.Callback.VoteToHalt` | kafka-graphs-core/src/main/java/io/kgraph/library/BreadthFirstSearch.java:114 | records the halt vote and leaves the rest unchanged |
| `BreadthFirstSearch.BroadcastSpec` | kafka-graphs-core/src/main/java/io/kgraph/library/BreadthFirstSearch.java:108-110 | the messages sent by the edge loop are as many as the edges, message i goes to edge i's target, and all carry the same payload |
| `BreadthFirstSearch.SourceSeededAtZero` | kafka-graphs-core/src/main/java/io/kgraph/library/BreadthFirstSearch.java:98-103 | at superstep 0 the source vertex gets value 0 and sends 0 to each edge target in edge order, then votes to halt |
| `BreadthFirstSearch.OthersIdleAtZero` | kafka-graphs-core/src/main/java/io/kgraph/library/BreadthFirstSearch.java:98-104 | at superstep 0 a vertex other than the source sets nothing, sends nothing and votes to halt |
| `BreadthFirstSearch.UnvisitedIsVisited` | kafka-graphs-core/src/main/java/io/kgraph/library/BreadthFirstSearch.java:105-110 | at a superstep n other than 0 an `UNVISITED` vertex gets value n and sends n to each edge target in edge order |
| `BreadthFirstSearch.VisitedIsLeftAlone` | kafka-graphs-core/src/main/java/io/kgraph/library/BreadthFirstSearch.java:105-111 | at a superstep other than 0 a vertex whose value is not `UNVISITED` sets nothing and sends nothing |
| `BreadthFirstSearch.HaltsAndIgnoresMessages` | kafka-graphs-core/src/main/java/io/kgraph/library/BreadthFirstSearch.java:90-115 | every call votes to halt, and two calls that differ only in their incoming messages have the same effects |
| `BreadthFirstSearch.MessageShape` | kafka-graphs-core/src/main/java/io/kgraph/library/BreadthFirstSearch.java:98-112 | a value is set exactly in the visiting cases; then one message per edge is sent, each carrying the superstep, and otherwise none |
| `BreadthFirstSearch.VisitIsFinal` | kafka-graphs-core/src/main/java/io/kgraph/library/BreadthFirstSearch.java:106-107 | a written value is the superstep, never `UNVISITED` and non-negative for a non-negative superstep; computing the updated vertex at any later superstep is a no-op |
| `BfsRuns.NothingAfterVisit` | kafka-graphs-core/src/main/java/io/kgraph/library/BreadthFirstSearch.java:106-111 | once a vertex's value is not `UNVISITED`, any number of calls at supersteps other than 0 leave it unchanged and send nothing |
| `BfsRuns.VisitedAtMostOnce` | kafka-graphs-core/src/main/java/io/kgraph/library/BreadthFirstSearch.java:98-112 | over calls at non-negative increasing supersteps at most one call sets a value, and the messages sent in all number the edges times the number of visits |
| `BfsRuns.UnvisitedVisitedExactlyOnce` | kafka-graphs-core/src/main/java/io/kgraph/library/BreadthFirstSearch.java:98-112 | an `UNVISITED` vertex is visited exactly once iff it is the source and gets any call, or gets a call after superstep 0; stays `UNVISITED` otherwise, and ends with the superstep of its first call that visits it |

## Left out

- The two `BreadthFirstSearch` constructors pass Kafka, ZooKeeper and Curator connection settings, topic names and serialisers to `PregelGraphAlgorithm`, which is not part of this model; only their storing of `srcVertexId` is modelled.
- The Pregel engine (superstep driving, choice of active vertices, message routing and delivery, barrier, termination, aggregators) is not part of this model. In particular, whether a vertex is computed after superstep 0 only when it has messages is the engine's decision; `BfsRuns` takes the sequence of calls a vertex receives as a parameter and assumes only a non-negative, strictly increasing superstep counter.
- `BfsRuns.Run` and `BfsRuns.Final` assume that a value given to `setNewVertexValue` becomes the vertex's value before its next compute call, as the callback's name says; the engine code that stores it is not part of this model.
- The `Callback` interface and `ComputeFunction` are not part of this model; the `Callback` class records effects in the order the compute function makes them, and a second `setNewVertexValue` replaces the first.
- Null vertex ids, null vertex values and null edges are not represented: `Vertex`, `Long` and the edge list cannot hold null, so the `NullPointerException` the source throws at lines 99, 106, 101 and 108 for such inputs is not modelled.
- The generic edge value type `EV` is never read and is dropped: edges are their target ids.
- The logger is never used by `compute` and is left out.
- The REST integration test `GraphIntegrationTest.java` drives an embedded Kafka cluster over HTTP and exercises connected components, not this function; it is left out.
