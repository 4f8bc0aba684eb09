/** What the BFS compute function guarantees over a whole run of one vertex:
    the successive compute calls the vertex receives, with the value each call
    sets stored before the next call. Which calls a vertex receives is the
    engine's choice; the only assumption here is that the superstep counter
    starts at 0 and strictly increases. */
module BfsRuns {
  import opened Pregel
  import opened BreadthFirstSearch

  /** One compute call on the vertex: its superstep and the messages it receives. */
  datatype Invocation = Invocation(superstep: Int, messages: seq<Long>)

  /** Supersteps as the engine's counter produces them: non-negative and strictly increasing. */
  predicate Ascending(calls: seq<Invocation>)
  {
    && (forall i :: 0 <= i < |calls| ==> calls[i].superstep >= 0)
    && (forall i, j :: 0 <= i < j < |calls| ==> calls[i].superstep < calls[j].superstep)
  }

  /** The effects of each call, in order. */
  function Run(srcVertexId: VertexId, v: Vertex, edges: seq<VertexId>, calls: seq<Invocation>): seq<Effects>
    decreases |calls|
  {
    if calls == [] then []
    else
      var e := BfsStep(srcVertexId, calls[0].superstep, v, calls[0].messages, edges);
      [e] + Run(srcVertexId, Applied(v, e), edges, calls[1..])
  }

  /** The vertex once every call's new value, if any, has been stored. */
  function Final(srcVertexId: VertexId, v: Vertex, edges: seq<VertexId>, calls: seq<Invocation>): Vertex
    decreases |calls|
  {
    if calls == [] then v
    else
      var e := BfsStep(srcVertexId, calls[0].superstep, v, calls[0].messages, edges);
      Final(srcVertexId, Applied(v, e), edges, calls[1..])
  }

  /** How many of the effects set a new value. */
  function VisitCount(effs: seq<Effects>): nat
  {
    if effs == [] then 0
    else (if effs[0].newValue.Some? then 1 else 0) + VisitCount(effs[1..])
  }

  /** How many messages the effects send in all. */
  function SentCount(effs: seq<Effects>): nat
  {
    if effs == [] then 0 else |effs[0].outbox| + SentCount(effs[1..])
  }

  /** Once a vertex holds a value other than `UNVISITED`, calls at any
      superstep other than 0 neither change it nor send anything. */
  lemma {:induction false} NothingAfterVisit(srcVertexId: VertexId, v: Vertex, edges: seq<VertexId>,
                                              calls: seq<Invocation>)
    requires v.value != UNVISITED
    requires forall i :: 0 <= i < |calls| ==> calls[i].superstep != 0
    ensures VisitCount(Run(srcVertexId, v, edges, calls)) == 0
    ensures SentCount(Run(srcVertexId, v, edges, calls)) == 0
    ensures Final(srcVertexId, v, edges, calls) == v
    decreases |calls|
  {
    if calls != [] {
      var e := BfsStep(srcVertexId, calls[0].superstep, v, calls[0].messages, edges);
      VisitedIsLeftAlone(srcVertexId, calls[0].superstep, v, calls[0].messages, edges);
      NothingAfterVisit(srcVertexId, v, edges, calls[1..]);
      var effs := Run(srcVertexId, v, edges, calls);
      assert effs[1..] == Run(srcVertexId, v, edges, calls[1..]);
    }
  }

  /** Over any run, at most one call sets a value, and the messages sent in all
      are one per edge for that call and none otherwise. */
  lemma {:induction false} VisitedAtMostOnce(srcVertexId: VertexId, v: Vertex, edges: seq<VertexId>,
                                              calls: seq<Invocation>)
    requires Ascending(calls)
    ensures VisitCount(Run(srcVertexId, v, edges, calls)) <= 1
    ensures SentCount(Run(srcVertexId, v, edges, calls)) == VisitCount(Run(srcVertexId, v, edges, calls)) * |edges|
    decreases |calls|
  {
    if calls != [] {
      var c := calls[0];
      var e := BfsStep(srcVertexId, c.superstep, v, c.messages, edges);
      var w := Applied(v, e);
      var rest := calls[1..];
      MessageShape(srcVertexId, c.superstep, v, c.messages, edges);
      var effs := Run(srcVertexId, v, edges, calls);
      assert effs[0] == e && effs[1..] == Run(srcVertexId, w, edges, rest);
      if e.newValue.Some? {
        assert forall i :: 0 <= i < |rest| ==> rest[i].superstep > 0 by {
          forall i | 0 <= i < |rest| ensures rest[i].superstep > 0 {
            assert rest[i] == calls[i + 1];
          }
        }
        NothingAfterVisit(srcVertexId, w, edges, rest);
      } else {
        assert Ascending(rest) by {
          forall i | 0 <= i < |rest| ensures rest[i] == calls[i + 1] { }
        }
        VisitedAtMostOnce(srcVertexId, w, edges, rest);
      }
    }
  }

  /** A vertex that starts `UNVISITED` is visited exactly when it receives a
      call after superstep 0, or is the source and receives any call; its
      final value is then the superstep of its first call, or of its second
      when the first was the superstep-0 call of a non-source vertex. */
  lemma {:induction false} UnvisitedVisitedExactlyOnce(srcVertexId: VertexId, v: Vertex, edges: seq<VertexId>,
                                                        calls: seq<Invocation>)
    requires Ascending(calls)
    requires v.value == UNVISITED
    ensures var n := VisitCount(Run(srcVertexId, v, edges, calls));
      && (n == 1 <==> exists i :: 0 <= i < |calls| && (calls[i].superstep > 0 || v.id == srcVertexId))
      && (n == 0 <==> Final(srcVertexId, v, edges, calls).value == UNVISITED)
      && (n == 1 ==>
            Final(srcVertexId, v, edges, calls).value ==
            (if calls[0].superstep > 0 || v.id == srcVertexId then calls[0].superstep else calls[1].superstep) as Long)
    decreases |calls|
  {
    VisitedAtMostOnce(srcVertexId, v, edges, calls);
    if calls != [] {
      var c := calls[0];
      var e := BfsStep(srcVertexId, c.superstep, v, c.messages, edges);
      var w := Applied(v, e);
      var rest := calls[1..];
      var effs := Run(srcVertexId, v, edges, calls);
      assert effs[0] == e && effs[1..] == Run(srcVertexId, w, edges, rest);
      assert Final(srcVertexId, v, edges, calls) == Final(srcVertexId, w, edges, rest);
      assert forall i :: 0 <= i < |rest| ==> rest[i].superstep > 0 by {
        forall i | 0 <= i < |rest| ensures rest[i].superstep > 0 {
          assert rest[i] == calls[i + 1];
        }
      }
      if Visits(srcVertexId, c.superstep, v) {
        NothingAfterVisit(srcVertexId, w, edges, rest);
      } else {
        assert Ascending(rest) by {
          forall i | 0 <= i < |rest| ensures rest[i] == calls[i + 1] { }
        }
        UnvisitedVisitedExactlyOnce(srcVertexId, w, edges, rest);
        if exists i :: 0 <= i < |calls| && (calls[i].superstep > 0 || v.id == srcVertexId) {
          var i :| 0 <= i < |calls| && (calls[i].superstep > 0 || v.id == srcVertexId);
          assert i > 0 && rest[i - 1] == calls[i];
        }
        if rest != [] {
          assert rest[0] == calls[1];
        }
      }
    }
  }
}
