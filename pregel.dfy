/** The vertex-program interface of the Pregel engine, as seen by a compute
    function: the Java numeric types it uses, a vertex, an outgoing message,
    and the callback through which a compute call makes its effects. */
module Pregel {

  /** Java's `int` (32-bit, two's complement). The superstep number has this type. */
  newtype Int = x: int | -0x8000_0000 <= x < 0x8000_0000

  /** Java's `long` (64-bit, two's complement). Vertex ids, values and message payloads have this type. */
  newtype Long = x: int | -0x8000_0000_0000_0000 <= x < 0x8000_0000_0000_0000

  /** `Long.MAX_VALUE` */
  const MAX_LONG: Long := 0x7FFF_FFFF_FFFF_FFFF

  /** A vertex id; for breadth-first search the key type is a boxed `Long`. */
  type VertexId = Long

  datatype Option<T> = None | Some(value: T)

  /** A vertex as handed to compute: its id and its current value. */
  datatype Vertex = Vertex(id: VertexId, value: Long)

  /** One `sendMessageTo(target, payload)` call. */
  datatype Message = Message(target: VertexId, payload: Long)

  /** What a callback has recorded: the last value given to `setNewVertexValue`
      (if any), every message sent in send order, and whether `voteToHalt` was called. */
  datatype Effects = Effects(newValue: Option<Long>, outbox: seq<Message>, halted: bool)

  /** The record of a callback nobody has called yet. */
  const NoEffects := Effects(None, [], false)

  /** The record after a compute call that made the effects `step` on a
      callback that had already recorded `before`: a new value replaces the
      old one, messages are appended, and a halt vote is never withdrawn. */
  function Then(before: Effects, step: Effects): Effects
  {
    Effects(if step.newValue.Some? then step.newValue else before.newValue,
            before.outbox + step.outbox,
            before.halted || step.halted)
  }

  /** A fresh callback's record is neutral on both sides: a call on a fresh
      callback records exactly that call's effects, and a call with no effect
      leaves the record as it was. */
  lemma ThenIdentity(e: Effects)
    ensures Then(NoEffects, e) == e
    ensures Then(e, NoEffects) == e
  {
  }

  /** Several calls on one callback compose: recording `a`, then `b`, then
      `c` is the same as recording `a` and then the combined `b` and `c`. */
  lemma ThenAssociative(a: Effects, b: Effects, c: Effects)
    ensures Then(Then(a, b), c) == Then(a, Then(b, c))
  {
  }

  /** The vertex as it stands once the value given to `setNewVertexValue`, if any, is stored. */
  function Applied(v: Vertex, e: Effects): Vertex
  {
    match e.newValue
    case None => v
    case Some(x) => v.(value := x)
  }

  /** The callback handed to one compute call; each method records its effect. */
  class Callback {
    var newValue: Option<Long>
    var outbox: seq<Message>
    var halted: bool

    function Recorded(): Effects
      reads this
    {
      Effects(newValue, outbox, halted)
    }

    constructor ()
      ensures Recorded() == NoEffects
    {
      newValue, outbox, halted := None, [], false;
    }

    method SetNewVertexValue(value: Long)
      modifies this
      ensures newValue == Some(value)
      ensures outbox == old(outbox) && halted == old(halted)
    {
      newValue := Some(value);
    }

    method SendMessageTo(target: VertexId, payload: Long)
      modifies this
      ensures outbox == old(outbox) + [Message(target, payload)]
      ensures newValue == old(newValue) && halted == old(halted)
    {
      outbox := outbox + [Message(target, payload)];
    }

    method VoteToHalt()
      modifies this
      ensures halted
      ensures newValue == old(newValue) && outbox == old(outbox)
    {
      halted := true;
    }
  }
}
