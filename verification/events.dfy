/** The in-memory event bus (`events/BrixEvents`): a set of listeners, each
    of which receives every fired event once. */
module Events {
  import opened Base

  /** An event listener, known by its identity. */
  type Listener = nat

  /** An event: its identity and the identity of the object recorded as its
      source, if any. Payload, timestamp and id are not modelled. */
  datatype BrixEvent = BrixEvent(id: nat, source: Option<nat>)

  /** One `listener.onEventReceived(event)` call. */
  datatype Delivery = Delivery(listener: Listener, event: BrixEvent)

  /** The closure `register` returns: `() -> unregister(listener)`. */
  datatype EventsRecord = UnregisterListener(listener: Listener)

  /** `fireEvent(source, event)` refuses an event whose recorded source is a
      different object from a non-null `source` argument. */
  predicate SourceConflict(source: Option<nat>, e: BrixEvent) {
    e.source.Some? && source.Some? && source.value != e.source.value
  }

  /** The deliveries of `e` to the listeners in `order`. */
  function Deliveries(order: seq<Listener>, e: BrixEvent): (ds: seq<Delivery>)
    ensures |ds| == |order|
    ensures forall i :: 0 <= i < |order| ==> ds[i] == Delivery(order[i], e)
  {
    if order == [] then [] else [Delivery(order[0], e)] + Deliveries(order[1..], e)
  }

  /** The source check refuses exactly a present, different source: a null
      source argument or an event without a source always passes, and the
      event's own source always passes. */
  lemma SourceConflictIff(source: Option<nat>, e: BrixEvent)
    ensures !SourceConflict(None, e)
    ensures e.source.None? ==> !SourceConflict(source, e)
    ensures !SourceConflict(e.source, e)
    ensures SourceConflict(source, e) <==>
            e.source.Some? && source.Some? && source.value != e.source.value
  {
  }

  /** Firing over an enumeration of the listener set delivers the event to
      every registered listener exactly once, and to nobody else. */
  lemma EachListenerOnce(order: seq<Listener>, listeners: set<Listener>, e: BrixEvent)
    requires IsEnumeration(order, listeners)
    ensures forall l :: l in listeners ==> Delivery(l, e) in Deliveries(order, e)
    ensures forall i, j :: 0 <= i < j < |order| ==>
              Deliveries(order, e)[i].listener != Deliveries(order, e)[j].listener
    ensures forall i :: 0 <= i < |order| ==> Deliveries(order, e)[i].listener in listeners
  {
    forall l | l in listeners
      ensures Delivery(l, e) in Deliveries(order, e)
    {
      assert l in Elements(order);
      var i :| 0 <= i < |order| && order[i] == l;
      assert Deliveries(order, e)[i] == Delivery(l, e);
    }
    forall i | 0 <= i < |order|
      ensures Deliveries(order, e)[i].listener in listeners
    {
      assert order[i] in Elements(order);
    }
  }

  class BrixEvents {
    var listeners: set<Listener>
    /** Every `onEventReceived` call made so far, in order. */
    ghost var delivered: seq<Delivery>

    constructor ()
      ensures listeners == {} && delivered == []
    {
      listeners := {};
      delivered := [];
    }

    /** `register(listener)`: a second registration of the same listener adds nothing. */
    method Register(l: Listener) returns (rec: EventsRecord)
      modifies this
      ensures listeners == old(listeners) + {l}
      ensures delivered == old(delivered)
      ensures rec == UnregisterListener(l)
    {
      listeners := listeners + {l};
      rec := UnregisterListener(l);
    }

    /** `unregister(listener)`: a no-op when the listener is absent. */
    method Unregister(l: Listener)
      modifies this
      ensures listeners == old(listeners) - {l}
      ensures delivered == old(delivered)
    {
      listeners := listeners - {l};
    }

    /** Runs a record returned by `register`. */
    method Release(rec: EventsRecord)
      modifies this
      ensures listeners == old(listeners) - {rec.listener}
      ensures delivered == old(delivered)
    {
      Unregister(rec.listener);
    }

    /** `fireEvent(source, event)`: the source check, then one delivery per
        listener in hash-set order. */
    method FireEvent(source: Option<nat>, e: BrixEvent) returns (out: Outcome, order: seq<Listener>)
      modifies this
      ensures listeners == old(listeners)
      ensures SourceConflict(source, e) ==>
                out == Throws(IllegalStateException) && order == [] && delivered == old(delivered)
      ensures !SourceConflict(source, e) ==>
                out == Normal && IsEnumeration(order, listeners) &&
                delivered == old(delivered) + Deliveries(order, e)
    {
      if e.source.Some? {
        if source.Some? && source.value != e.source.value {
          return Throws(IllegalStateException), [];
        }
      }
      order := Enumerate(listeners);
      var i := 0;
      while i < |order|
        invariant 0 <= i <= |order|
        invariant listeners == old(listeners)
        invariant delivered == old(delivered) + Deliveries(order[..i], e)
      {
        assert order[..i + 1] == order[..i] + [order[i]];
        DeliveriesAppend(order[..i], order[i], e);
        delivered := delivered + [Delivery(order[i], e)];
        i := i + 1;
      }
      assert order[..|order|] == order;
      out := Normal;
    }

    /** `fireEvent(event)` is `fireEvent(null, event)`, so it never throws. */
    method FireEventWithoutSource(e: BrixEvent) returns (out: Outcome, order: seq<Listener>)
      modifies this
      ensures listeners == old(listeners)
      ensures out == Normal
      ensures IsEnumeration(order, listeners) && delivered == old(delivered) + Deliveries(order, e)
    {
      out, order := FireEvent(None, e);
    }
  }

  lemma DeliveriesAppend(order: seq<Listener>, l: Listener, e: BrixEvent)
    ensures Deliveries(order + [l], e) == Deliveries(order, e) + [Delivery(l, e)]
  {
  }
}
