/** `api/HasContext`: an object that tells its context listeners about
    changes to a context value, and the `Operation` tags describing a change. */
module Context {
  import opened Base

  /** An operation is known by its key (`getKey()`). */
  datatype Operation = Operation(key: string)

  const Created: Operation := Operation("CREATED")
  const Updated: Operation := Operation("UPDATED")
  const Deleted: Operation := Operation("DELETED")

  /** `isEqualTo(other)`: equal keys. */
  predicate IsEqualTo(op: Operation, other: Operation) {
    op.key == other.key
  }

  /** `when(other, runnable)`: the receiver, and whether the runnable ran. */
  function When(op: Operation, other: Operation): (Operation, bool) {
    (op, IsEqualTo(op, other))
  }

  /** The three predefined operations are pairwise different, and `when`
      runs its runnable exactly for an equal key while always returning the
      receiver, so `when` calls can be chained. */
  lemma OperationKeys(op: Operation, other: Operation)
    ensures !IsEqualTo(Created, Updated) && !IsEqualTo(Created, Deleted) && !IsEqualTo(Updated, Deleted)
    ensures When(op, other).0 == op
    ensures When(op, other).1 <==> op.key == other.key
    ensures When(op, other).1 == When(other, op).1
    ensures When(op, op).1
  {
    assert Created.key[0] != Updated.key[0] && Created.key[0] != Deleted.key[0];
    assert Updated.key[0] != Deleted.key[0];
  }

  /** A context listener, known by its identity; a context value, likewise. */
  type ContextListener = nat
  type ContextValue = nat

  /** One `onContextChange(context, operation)` call. */
  datatype Change = Change(listener: ContextListener, context: ContextValue, operation: Operation)

  function Changes(order: seq<ContextListener>, ctx: ContextValue, op: Operation): (cs: seq<Change>)
    ensures |cs| == |order|
    ensures forall i :: 0 <= i < |order| ==> cs[i] == Change(order[i], ctx, op)
  {
    if order == [] then [] else [Change(order[0], ctx, op)] + Changes(order[1..], ctx, op)
  }

  /** An implementor of `HasContext` with its listener set. */
  class ContextHolder {
    var listeners: set<ContextListener>
    /** Every `onContextChange` call made so far, in order. */
    ghost var changes: seq<Change>

    constructor ()
      ensures listeners == {} && changes == []
    {
      listeners := {};
      changes := [];
    }

    /** `update(context, operation)`: one call per listener, in hash-set order. */
    method Update(ctx: ContextValue, op: Operation) returns (order: seq<ContextListener>)
      modifies this
      ensures listeners == old(listeners)
      ensures IsEnumeration(order, listeners)
      ensures changes == old(changes) + Changes(order, ctx, op)
    {
      order := Enumerate(listeners);
      var i := 0;
      while i < |order|
        invariant 0 <= i <= |order|
        invariant listeners == old(listeners)
        invariant changes == old(changes) + Changes(order[..i], ctx, op)
      {
        assert order[..i + 1] == order[..i] + [order[i]];
        ChangesAppend(order[..i], order[i], ctx, op);
        changes := changes + [Change(order[i], ctx, op)];
        i := i + 1;
      }
      assert order[..|order|] == order;
    }

    /** `update(context)` is `update(context, UPDATED)`. */
    method UpdateDefault(ctx: ContextValue) returns (order: seq<ContextListener>)
      modifies this
      ensures listeners == old(listeners)
      ensures IsEnumeration(order, listeners)
      ensures changes == old(changes) + Changes(order, ctx, Updated)
    {
      order := Update(ctx, Updated);
    }

    /** `registerContextListener(listener)`: adds it and returns the receiver. */
    method RegisterContextListener(l: ContextListener) returns (self: ContextHolder)
      modifies this
      ensures listeners == old(listeners) + {l} && changes == old(changes)
      ensures self == this
    {
      listeners := listeners + {l};
      self := this;
    }

    /** `removeChangeListener(listener)`: removes it and returns the receiver. */
    method RemoveChangeListener(l: ContextListener) returns (self: ContextHolder)
      modifies this
      ensures listeners == old(listeners) - {l} && changes == old(changes)
      ensures self == this
    {
      listeners := listeners - {l};
      self := this;
    }
  }

  lemma ChangesAppend(order: seq<ContextListener>, l: ContextListener, ctx: ContextValue, op: Operation)
    ensures Changes(order + [l], ctx, op) == Changes(order, ctx, op) + [Change(l, ctx, op)]
  {
  }

  /** Every listener hears about an update exactly once. */
  lemma EachContextListenerOnce(order: seq<ContextListener>, listeners: set<ContextListener>,
                                ctx: ContextValue, op: Operation)
    requires IsEnumeration(order, listeners)
    ensures forall l :: l in listeners ==> Change(l, ctx, op) in Changes(order, ctx, op)
    ensures forall i, j :: 0 <= i < j < |order| ==>
              Changes(order, ctx, op)[i].listener != Changes(order, ctx, op)[j].listener
  {
    forall l | l in listeners
      ensures Change(l, ctx, op) in Changes(order, ctx, op)
    {
      assert l in Elements(order);
      var i :| 0 <= i < |order| && order[i] == l;
      assert Changes(order, ctx, op)[i] == Change(l, ctx, op);
    }
  }
}
