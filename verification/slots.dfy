/** The slot registry (`api/BrixSlots`): for every key a stack of slots, the
    most recently registered on top, plus the set of slot listeners that are
    told when a key becomes available. `Registry` and the functions over it
    say what each operation does to that state; the class `BrixSlots` is the
    registry itself, and each of its methods is proved to perform the
    corresponding function. */
module Slots {
  import opened Base

  const BrixBodySlot: string := "brix-body-slot"
  const BrixNoContentSlot: string := "brix-no-content-slot"
  const BrixPopupSlot: string := "brix-popup-slot"

  /** A slot listener is known by its identity only. */
  type ListenerId = nat

  /** The slots the registry can hold. The body, popup and no-content slots
      are the built-ins; every other slot (accept-one, append, element-id) is
      an element slot with a key of its own and an identity telling two
      instances apart. */
  datatype Slot =
    | BodySlot
    | PopupSlot
    | NoContentSlot
    | ElementSlot(elementKey: string, id: nat)
  {
    /** `getKey()` */
    function Key(): string {
      match this
      case BodySlot => BrixBodySlot
      case PopupSlot => BrixPopupSlot
      case NoContentSlot => BrixNoContentSlot
      case ElementSlot(k, _) => k
    }
  }

  /** The registry's state: `slots` (top of each stack at index 0, as
      `LinkedList.push` adds at the front) and `listeners`. */
  datatype Registry = Registry(stacks: map<string, seq<Slot>>, listeners: set<ListenerId>)

  /** What `unRegister` ends with. */
  datatype Unregistered =
    | Popped(slot: Slot)   // the top slot was popped and told `onRemoved`
    | UnknownKey           // no stack for the key: nothing happens
    | EmptyStack           // a stack exists but is empty: `pop` throws NoSuchElementException

  /** The closures `listen` and `register` return. */
  datatype RegistrationRecord =
    | UnregisterSlot(slot: Slot)         // `() -> unRegister(slot)`
    | StopListening(listener: ListenerId) // `() -> listeners.remove(listener)`

  /** What the registry does to the outside world, in order. */
  datatype SlotEvent =
    | OnRegistered(slot: Slot)                        // `slot.onRegistered()`
    | Notified(listener: ListenerId, key: string)     // `listener.onSlotRegistered(key)`
    | OnRemoved(slot: Slot)                           // `slot.onRemoved()`

  function Empty(): Registry {
    Registry(map[], {})
  }

  function StackOf(r: Registry, key: string): seq<Slot> {
    if key in r.stacks then r.stacks[key] else []
  }

  /** `register(slot)`: push onto the stack of the slot's key, creating it if needed. */
  function Push(r: Registry, s: Slot): Registry {
    r.(stacks := r.stacks[s.Key() := [s] + StackOf(r, s.Key())])
  }

  /** `unRegister(slot)`: pop the stack of the slot's key, whatever is on top. */
  function Pop(r: Registry, s: Slot): (Registry, Unregistered) {
    var k := s.Key();
    if k !in r.stacks then (r, UnknownKey)
    else if r.stacks[k] == [] then (r, EmptyStack)
    else (r.(stacks := r.stacks[k := r.stacks[k][1..]]), Popped(r.stacks[k][0]))
  }

  /** `findSlot(key)`: the top of the key's stack, if there is one. */
  function Find(r: Registry, key: Option<string>): Option<Slot> {
    if key.None? || key.value == [] || key.value !in r.stacks || r.stacks[key.value] == [] then None
    else Some(r.stacks[key.value][0])
  }

  /** A fresh registry: the constructor registers the body, popup and
      no-content slots, in that order. */
  function Initial(): Registry {
    Push(Push(Push(Empty(), BodySlot), PopupSlot), NoContentSlot)
  }

  /** The events of notifying `order` that `key` is available. */
  function Notifications(order: seq<ListenerId>, key: string): (evs: seq<SlotEvent>)
    ensures |evs| == |order|
    ensures forall i :: 0 <= i < |order| ==> evs[i] == Notified(order[i], key)
  {
    if order == [] then [] else [Notified(order[0], key)] + Notifications(order[1..], key)
  }

  // ---------------------------------------------------------------------
  // Properties of the registry operations

  /** A fresh registry holds exactly the three built-in slots, one per key. */
  lemma InitialHoldsBuiltins()
    ensures Initial().stacks == map[BrixBodySlot := [BodySlot], BrixPopupSlot := [PopupSlot],
                                    BrixNoContentSlot := [NoContentSlot]]
    ensures Find(Initial(), Some(BrixBodySlot)) == Some(BodySlot)
    ensures Find(Initial(), Some(BrixPopupSlot)) == Some(PopupSlot)
    ensures Find(Initial(), Some(BrixNoContentSlot)) == Some(NoContentSlot)
    ensures Initial().listeners == {}
  {
    assert BrixBodySlot[5] != BrixPopupSlot[5] && BrixBodySlot[5] != BrixNoContentSlot[5]
        && BrixPopupSlot[5] != BrixNoContentSlot[5];
    var r1 := Push(Empty(), BodySlot);
    assert BodySlot.Key() == BrixBodySlot && PopupSlot.Key() == BrixPopupSlot;
    assert NoContentSlot.Key() == BrixNoContentSlot;
    assert [BodySlot] + [] == [BodySlot];
    assert [PopupSlot] + [] == [PopupSlot];
    assert [NoContentSlot] + [] == [NoContentSlot];
    assert r1.stacks == map[BrixBodySlot := [BodySlot]];
    var r2 := Push(r1, PopupSlot);
    assert r2.stacks == map[BrixBodySlot := [BodySlot], BrixPopupSlot := [PopupSlot]];
  }

  /** After registering `s`, looking up its key finds `s` (the last
      registration wins), and no other key's stack changes. */
  lemma FindAfterPush(r: Registry, s: Slot)
    requires s.Key() != []
    ensures Find(Push(r, s), Some(s.Key())) == Some(s)
    ensures forall k :: k != s.Key() ==> StackOf(Push(r, s), k) == StackOf(r, k)
    ensures forall k :: k != Some(s.Key()) ==> Find(Push(r, s), k) == Find(r, k)
    ensures Push(r, s).listeners == r.listeners
  {
  }

  /** Registering and then unregistering a slot of the same key pops exactly
      what was pushed: lookups see the registry as before. */
  lemma PopAfterPush(r: Registry, s: Slot, x: Slot)
    requires x.Key() == s.Key()
    ensures Pop(Push(r, s), x).1 == Popped(s)
    ensures Pop(Push(r, s), x).0.stacks == r.stacks[s.Key() := StackOf(r, s.Key())]
    ensures forall k :: Find(Pop(Push(r, s), x).0, k) == Find(r, k)
  {
  }

  /** register(A); register(B); unRegister(B) leaves A as the lookup result. */
  lemma RegisterTwiceUnregisterOnce(r: Registry, a: Slot, b: Slot)
    requires a.Key() == b.Key() && a.Key() != []
    ensures Find(Pop(Push(Push(r, a), b), b).0, Some(a.Key())) == Some(a)
  {
    PopAfterPush(Push(r, a), b, b);
    FindAfterPush(r, a);
  }

  /** `unRegister` does not search: out of push order it pops whatever is on top. */
  lemma PopIgnoresArgument(r: Registry, a: Slot, b: Slot)
    requires a.Key() == b.Key()
    ensures Pop(Push(Push(r, a), b), a).1 == Popped(b)
  {
  }

  /** Unregistering a key that was never registered changes nothing; once a
      key's stack has been emptied, unregistering it again is the
      NoSuchElementException of `pop`. */
  lemma PopErrors(r: Registry, s: Slot)
    ensures s.Key() !in r.stacks ==> Pop(r, s) == (r, UnknownKey)
    ensures s.Key() in r.stacks && r.stacks[s.Key()] == [] ==> Pop(r, s) == (r, EmptyStack)
    ensures s.Key() in r.stacks && r.stacks[s.Key()] != [] ==> Pop(r, s).1.Popped?
  {
  }

  /** `findSlot` answers "not found" for a null or empty key, an unknown key
      and an emptied stack, and otherwise the top of the stack. */
  lemma FindNotFound(r: Registry, key: Option<string>)
    ensures Find(r, key).None? <==>
            key.None? || key.value == [] || StackOf(r, key.value) == []
    ensures Find(r, key).Some? ==> Find(r, key).value == StackOf(r, key.value)[0]
  {
  }

  /** Pushing then popping the single slot of a new key leaves an empty stack,
      for which lookups say "not found" and a further pop is an error. */
  lemma EmptiedStack(r: Registry, s: Slot)
    requires s.Key() !in r.stacks
    ensures Find(Pop(Push(r, s), s).0, Some(s.Key())) == None
    ensures Pop(Pop(Push(r, s), s).0, s).1 == EmptyStack
  {
  }

  // ---------------------------------------------------------------------
  // The registry object

  class BrixSlots {
    var stacks: map<string, seq<Slot>>
    var listeners: set<ListenerId>
    /** The listener set's modification count: `HashSet` bumps it on every
        add or remove that changes the set, and its iterators compare it
        after each pass. */
    var modCount: nat
    /** Every hook call and notification the registry has made, in order. */
    ghost var log: seq<SlotEvent>

    function State(): Registry
      reads this
    {
      Registry(stacks, listeners)
    }

    /** The built-in slots are registered before any listener exists, so
        nobody is notified. */
    constructor ()
      ensures State() == Initial()
      ensures log == [OnRegistered(BodySlot), OnRegistered(PopupSlot), OnRegistered(NoContentSlot)]
      ensures modCount == 0
    {
      stacks := map[];
      listeners := {};
      modCount := 0;
      log := [];
      new;
      var n0 := Register(BodySlot);
      var n1 := Register(PopupSlot);
      var n2 := Register(NoContentSlot);
    }

    /** `listen(listener)`: adds the listener; the record removes it. */
    method Listen(l: ListenerId) returns (rec: RegistrationRecord)
      modifies this
      ensures State() == old(State()).(listeners := old(listeners) + {l})
      ensures log == old(log)
      ensures rec == StopListening(l)
      ensures modCount == old(modCount) + (if l in old(listeners) then 0 else 1)
    {
      if l !in listeners {
        modCount := modCount + 1;
      }
      listeners := listeners + {l};
      rec := StopListening(l);
    }

    /** `register(slot)`: push, `slot.onRegistered()`, then tell every
        listener (in hash-set order) that the slot's key is available. The
        record it returns is `UnregisterSlot(slot)`. */
    method Register(s: Slot) returns (notified: seq<ListenerId>)
      modifies this
      ensures State() == Push(old(State()), s)
      ensures IsEnumeration(notified, old(listeners)) && |notified| == |old(listeners)|
      ensures log == old(log) + [OnRegistered(s)] + Notifications(notified, s.Key())
      ensures modCount == old(modCount)
    {
      stacks := stacks[s.Key() := [s] + (if s.Key() in stacks then stacks[s.Key()] else [])];
      log := log + [OnRegistered(s)];
      notified := Enumerate(listeners);
      log := log + Notifications(notified, s.Key());
    }

    /** `unRegister(slot)`: pops the top of the slot's key stack and calls
        `onRemoved` on the popped slot. No listener is told. */
    method UnRegister(s: Slot) returns (r: Unregistered)
      modifies this
      ensures (State(), r) == Pop(old(State()), s)
      ensures r.Popped? ==> log == old(log) + [OnRemoved(r.slot)]
      ensures !r.Popped? ==> log == old(log)
      ensures modCount == old(modCount)
    {
      var k := s.Key();
      if k in stacks {
        if stacks[k] == [] {
          r := EmptyStack;
        } else {
          var top := stacks[k][0];
          stacks := stacks[k := stacks[k][1..]];
          log := log + [OnRemoved(top)];
          r := Popped(top);
        }
      } else {
        r := UnknownKey;
      }
    }

    /** Runs a record returned by `listen` or `register`. */
    method Release(rec: RegistrationRecord) returns (r: Option<Unregistered>)
      modifies this
      ensures rec.StopListening? ==>
                State() == old(State()).(listeners := old(listeners) - {rec.listener}) &&
                log == old(log) && r == None &&
                modCount == old(modCount) + (if rec.listener in old(listeners) then 1 else 0)
      ensures rec.UnregisterSlot? ==> r.Some? && (State(), r.value) == Pop(old(State()), rec.slot)
      ensures rec.UnregisterSlot? ==> modCount == old(modCount)
    {
      match rec
      case StopListening(l) =>
        if l in listeners {
          modCount := modCount + 1;
        }
        listeners := listeners - {l};
        r := None;
      case UnregisterSlot(s) =>
        var u := UnRegister(s);
        r := Some(u);
    }

    /** `findSlot(key)`; it never throws. */
    function FindSlot(key: Option<string>): (r: Option<Slot>)
      reads this
      ensures r == Find(State(), key)
    {
      if key.None? || key.value == [] || key.value !in stacks || stacks[key.value] == [] then None
      else Some(stacks[key.value][0])
    }
  }

  /** Listening and then releasing the record leaves the listener out, so a
      later registration no longer notifies it. */
  lemma ListenThenRelease(r: Registry, l: ListenerId, later: Slot, order: seq<ListenerId>)
    requires IsEnumeration(order, r.listeners - {l})
    ensures l !in order
    ensures forall i :: 0 <= i < |order| ==> Notifications(order, later.Key())[i].listener != l
  {
    assert forall i :: 0 <= i < |order| ==> order[i] in Elements(order);
  }
}
