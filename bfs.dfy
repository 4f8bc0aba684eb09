/** Breadth-first search as a Pregel vertex program: the source vertex is
    seeded with distance 0 at superstep 0, and every other vertex takes as
    its value the first later superstep at which it is computed while still
    unvisited, forwarding that superstep number along all of its edges. */
module BreadthFirstSearch {
  import opened Pregel

  /** The value of a vertex that has not been reached yet (`Long.MAX_VALUE`). */
  const UNVISITED: Long := MAX_LONG

  /** One message to each edge target, in edge order, all carrying `payload`. */
  function Broadcast(targets: seq<VertexId>, payload: Long): seq<Message>
  {
    if |targets| == 0 then []
    else Broadcast(targets[..|targets| - 1], payload) + [Message(targets[|targets| - 1], payload)]
  }

  /** Whether a compute call at `superstep` on `vertex` visits it: at superstep
      0 only the source is visited; later, only a vertex still unvisited. */
  predicate Visits(srcVertexId: VertexId, superstep: Int, vertex: Vertex)
  {
    if superstep == 0 then vertex.id == srcVertexId else vertex.value == UNVISITED
  }

  /** The effects of one compute call: a visit sets the value to the superstep
      and sends it along every edge; every call votes to halt. The incoming
      messages are a parameter because compute receives them. */
  function BfsStep(srcVertexId: VertexId, superstep: Int, vertex: Vertex,
                   messages: seq<Long>, edges: seq<VertexId>): Effects
  {
    if Visits(srcVertexId, superstep, vertex) then
      Effects(Some(superstep as Long), Broadcast(edges, superstep as Long), true)
    else
      Effects(None, [], true)
  }

  /** `BFSComputeFunction`, with the algorithm's `srcVertexId` field, which the
      Java inner class reads from its enclosing `BreadthFirstSearch` object. */
  class BfsComputeFunction {
    const srcVertexId: VertexId

    constructor (srcVertexId: VertexId)
      ensures this.srcVertexId == srcVertexId
    {
      this.srcVertexId := srcVertexId;
    }

    /** `BFSComputeFunction.compute`: acts on the vertex only through `cb`. */
    method Compute(superstep: Int, vertex: Vertex, messages: seq<Long>,
                   edges: seq<VertexId>, cb: Callback)
      modifies cb
      ensures cb.Recorded() == Then(old(cb.Recorded()), BfsStep(srcVertexId, superstep, vertex, messages, edges))
      ensures old(cb.Recorded()) == NoEffects ==>
                cb.Recorded() == BfsStep(srcVertexId, superstep, vertex, messages, edges)
    {
      if superstep == 0 {
        if vertex.id == srcVertexId {
          cb.SetNewVertexValue(superstep as Long);
          SendToEdges(edges, superstep as Long, cb);
        }
      } else {
        if vertex.value == UNVISITED {
          cb.SetNewVertexValue(superstep as Long);
          SendToEdges(edges, superstep as Long, cb);
        }
      }
      cb.VoteToHalt();
    }

    /** The `for` loop over the edges in `compute`: one `sendMessageTo` per edge. */
    static method SendToEdges(edges: seq<VertexId>, payload: Long, cb: Callback)
      modifies cb
      ensures cb.outbox == old(cb.outbox) + Broadcast(edges, payload)
      ensures cb.newValue == old(cb.newValue) && cb.halted == old(cb.halted)
    {
      for i := 0 to |edges|
        invariant cb.outbox == old(cb.outbox) + Broadcast(edges[..i], payload)
        invariant cb.newValue == old(cb.newValue) && cb.halted == old(cb.halted)
      {
        assert edges[..i + 1][..i] == edges[..i];
        cb.SendMessageTo(edges[i], payload);
      }
      assert edges[..|edges|] == edges;
    }
  }

  /** Message `i` of a broadcast goes to edge target `i` and carries the payload. */
  lemma {:induction false} BroadcastSpec(targets: seq<VertexId>, payload: Long)
    ensures |Broadcast(targets, payload)| == |targets|
    ensures forall i :: 0 <= i < |targets| ==> Broadcast(targets, payload)[i] == Message(targets[i], payload)
  {
    if |targets| > 0 {
      BroadcastSpec(targets[..|targets| - 1], payload);
    }
  }

  /** At superstep 0 the source vertex takes value 0 and sends 0 to each edge target, in edge order. */
  lemma SourceSeededAtZero(srcVertexId: VertexId, vertex: Vertex, messages: seq<Long>, edges: seq<VertexId>)
    requires vertex.id == srcVertexId
    ensures var e := BfsStep(srcVertexId, 0, vertex, messages, edges);
      && e.newValue == Some(0)
      && |e.outbox| == |edges|
      && (forall i :: 0 <= i < |edges| ==> e.outbox[i] == Message(edges[i], 0))
      && e.halted
  {
    BroadcastSpec(edges, 0);
  }

  /** At superstep 0 any other vertex sets no value and sends nothing. */
  lemma OthersIdleAtZero(srcVertexId: VertexId, vertex: Vertex, messages: seq<Long>, edges: seq<VertexId>)
    requires vertex.id != srcVertexId
    ensures BfsStep(srcVertexId, 0, vertex, messages, edges) == Effects(None, [], true)
  {
  }

  /** At a later superstep an unvisited vertex takes the superstep as its value
      and sends it to each edge target, in edge order. */
  lemma UnvisitedIsVisited(srcVertexId: VertexId, superstep: Int, vertex: Vertex,
                           messages: seq<Long>, edges: seq<VertexId>)
    requires superstep != 0 && vertex.value == UNVISITED
    ensures var e := BfsStep(srcVertexId, superstep, vertex, messages, edges);
      && e.newValue == Some(superstep as Long)
      && |e.outbox| == |edges|
      && (forall i :: 0 <= i < |edges| ==> e.outbox[i] == Message(edges[i], superstep as Long))
      && e.halted
  {
    BroadcastSpec(edges, superstep as Long);
  }

  /** At a later superstep a visited vertex sets no value and sends nothing. */
  lemma VisitedIsLeftAlone(srcVertexId: VertexId, superstep: Int, vertex: Vertex,
                           messages: seq<Long>, edges: seq<VertexId>)
    requires superstep != 0 && vertex.value != UNVISITED
    ensures BfsStep(srcVertexId, superstep, vertex, messages, edges) == Effects(None, [], true)
  {
  }

  /** Every call votes to halt, and the incoming messages never change the effects. */
  lemma HaltsAndIgnoresMessages(srcVertexId: VertexId, superstep: Int, vertex: Vertex,
                                messages: seq<Long>, other: seq<Long>, edges: seq<VertexId>)
    ensures BfsStep(srcVertexId, superstep, vertex, messages, edges).halted
    ensures BfsStep(srcVertexId, superstep, vertex, messages, edges)
         == BfsStep(srcVertexId, superstep, vertex, other, edges)
  {
  }

  /** A value is set exactly when messages may be sent: then there is one per
      edge, each carrying the superstep; otherwise there are none. */
  lemma MessageShape(srcVertexId: VertexId, superstep: Int, vertex: Vertex,
                     messages: seq<Long>, edges: seq<VertexId>)
    ensures var e := BfsStep(srcVertexId, superstep, vertex, messages, edges);
      && (e.newValue.Some? <==> Visits(srcVertexId, superstep, vertex))
      && |e.outbox| == (if e.newValue.Some? then |edges| else 0)
      && (forall i :: 0 <= i < |e.outbox| ==> e.outbox[i].target == edges[i] && e.outbox[i].payload == superstep as Long)
  {
    BroadcastSpec(edges, superstep as Long);
  }

  /** A written value is the superstep, which fits in an `int` and therefore
      is never `UNVISITED`; computing the updated vertex again at any later
      superstep sets nothing and sends nothing. */
  lemma VisitIsFinal(srcVertexId: VertexId, superstep: Int, vertex: Vertex,
                     messages: seq<Long>, edges: seq<VertexId>,
                     later: Int, laterMessages: seq<Long>)
    requires BfsStep(srcVertexId, superstep, vertex, messages, edges).newValue.Some?
    requires later != 0
    ensures var w := Applied(vertex, BfsStep(srcVertexId, superstep, vertex, messages, edges));
      && w.value == superstep as Long
      && w.value != UNVISITED
      && (superstep >= 0 ==> w.value >= 0)
      && BfsStep(srcVertexId, later, w, laterMessages, edges) == Effects(None, [], true)
  {
  }
}
