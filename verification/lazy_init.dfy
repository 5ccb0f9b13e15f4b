/** `api/LazyInitializer`: a one-shot initialisation that can be reset, with
    callbacks deferred until it has run (`whenInitialized`, `doOnce`) and
    callbacks run on reset (`onReset`). Callbacks are known by their
    identity; what they do is not modelled, only that they run, and when. */
module LazyInit {
  import opened Base

  /** A `Runnable` handed to the initializer. */
  type Callback = nat

  /** One call of a runnable: the initialisation function given to the
      constructor, or a registered callback. */
  datatype Effect = RanInit | Ran(callback: Callback)

  /** The fields of an initializer. `functionArmed` says that `function` is
      still the original initialisation function rather than the no-op that
      replaces it once run; `doOnceArmed` says the same of `doOnceFunction`. */
  datatype Lazy = Lazy(
    initialized: bool,
    functionArmed: bool,
    doOnceArmed: bool,
    functions: set<Callback>,
    doOnce: set<Callback>,
    doOnReset: set<Callback>)

  /** Both functions are armed exactly while the initializer has not run. */
  predicate Armed(s: Lazy) {
    s.functionArmed == !s.initialized && s.doOnceArmed == !s.initialized
  }

  /** A fresh initializer: nothing registered, nothing run. */
  const Fresh: Lazy := Lazy(false, true, true, {}, {}, {})

  /** The runs of the callbacks in `order`, one after the other. */
  function Runs(order: seq<Callback>): (r: seq<Effect>)
    ensures |r| == |order|
    ensures forall i :: 0 <= i < |order| ==> r[i] == Ran(order[i])
  {
    if order == [] then [] else [Ran(order[0])] + Runs(order[1..])
  }

  lemma AppendAssoc(w: seq<Effect>, x: seq<Effect>, y: seq<Effect>, z: seq<Effect>)
    ensures w + x + y + z == w + (x + y + z)
  {
  }

  lemma RunsAppend(order: seq<Callback>, c: Callback)
    ensures Runs(order + [c]) == Runs(order) + [Ran(c)]
  {
  }

  /** `apply()`: a no-op once initialised; otherwise the function and the
      doOnce function become no-ops and the initializer is initialised. */
  function AfterApply(s: Lazy): Lazy {
    if s.initialized then s
    else s.(initialized := true, functionArmed := false, doOnceArmed := false)
  }

  /** What `apply()` runs, given the iteration orders of the doOnce and
      deferred callback sets: the function, the doOnce function, then every
      deferred callback. */
  function ApplyEffects(s: Lazy, onceOrder: seq<Callback>, order: seq<Callback>): seq<Effect> {
    if s.initialized then []
    else (if s.functionArmed then [RanInit] else []) +
         (if s.doOnceArmed then Runs(onceOrder) else []) +
         Runs(order)
  }

  /** `reset()`: when initialised, re-arms both functions and becomes
      uninitialised; callback sets are kept. Otherwise nothing changes. */
  function AfterReset(s: Lazy): Lazy {
    if s.initialized then s.(initialized := false, functionArmed := true, doOnceArmed := true)
    else s
  }

  /** `whenInitialized(functions...)`: deferred unless initialised. */
  function AfterWhenInitialized(s: Lazy, cs: seq<Callback>): Lazy {
    if s.initialized then s else s.(functions := s.functions + Elements(cs))
  }

  /** `doOnce(function)`: deferred unless initialised. */
  function AfterDoOnce(s: Lazy, c: Callback): Lazy {
    if s.initialized then s else s.(doOnce := s.doOnce + {c})
  }

  /** `onReset(function)`: always registered, never run. */
  function AfterOnReset(s: Lazy, c: Callback): Lazy {
    s.(doOnReset := s.doOnReset + {c})
  }

  /** Every operation keeps both functions armed exactly while the
      initializer has not run, starting from a fresh one. */
  lemma ArmedPreserved(s: Lazy, cs: seq<Callback>, c: Callback)
    requires Armed(s)
    ensures Armed(Fresh)
    ensures Armed(AfterApply(s)) && Armed(AfterReset(s))
    ensures Armed(AfterWhenInitialized(s, cs)) && Armed(AfterDoOnce(s, c)) && Armed(AfterOnReset(s, c))
  {
  }

  /** The first `apply` runs the initialisation function first, then every
      doOnce callback once, then every deferred callback once, and leaves
      the initializer initialised; a second `apply` runs nothing and
      changes nothing. */
  lemma ApplyOnce(s: Lazy, onceOrder: seq<Callback>, order: seq<Callback>,
                  onceOrder': seq<Callback>, order': seq<Callback>)
    requires Armed(s) && !s.initialized
    requires IsEnumeration(onceOrder, s.doOnce) && IsEnumeration(order, s.functions)
    ensures var e := ApplyEffects(s, onceOrder, order);
            |e| == 1 + |s.doOnce| + |s.functions| && e[0] == RanInit &&
            (forall c :: c in s.doOnce <==> Ran(c) in e[1..1 + |s.doOnce|]) &&
            (forall c :: c in s.functions <==> Ran(c) in e[1 + |s.doOnce|..])
    ensures AfterApply(s).initialized
    ensures AfterApply(AfterApply(s)) == AfterApply(s)
    ensures ApplyEffects(AfterApply(s), onceOrder', order') == []
  {
    var e := ApplyEffects(s, onceOrder, order);
    EnumerationSize(onceOrder, s.doOnce);
    EnumerationSize(order, s.functions);
    assert e == [RanInit] + Runs(onceOrder) + Runs(order);
    assert e[1..1 + |s.doOnce|] == Runs(onceOrder);
    assert e[1 + |s.doOnce|..] == Runs(order);
    RunsOf(onceOrder, s.doOnce);
    RunsOf(order, s.functions);
  }

  /** An enumeration of a set is as long as the set. */
  lemma EnumerationSize(order: seq<Callback>, s: set<Callback>)
    requires IsEnumeration(order, s)
    ensures |order| == |s|
  {
    DistinctCard(order);
  }

  lemma {:induction false} DistinctCard(order: seq<Callback>)
    requires Distinct(order)
    ensures |Elements(order)| == |order|
  {
    if order != [] {
      var rest := order[1..];
      assert Distinct(rest);
      DistinctCard(rest);
      assert Elements(order) == {order[0]} + Elements(rest);
      forall j | 0 <= j < |rest|
        ensures rest[j] != order[0]
      {
        assert rest[j] == order[j + 1];
      }
      assert order[0] !in Elements(rest);
    }
  }

  /** Running an enumeration of a set runs exactly the set's callbacks. */
  lemma RunsOf(order: seq<Callback>, s: set<Callback>)
    requires IsEnumeration(order, s)
    ensures forall c :: c in s <==> Ran(c) in Runs(order)
  {
    forall c | c in s
      ensures Ran(c) in Runs(order)
    {
      assert c in Elements(order);
      var i :| 0 <= i < |order| && order[i] == c;
      assert Runs(order)[i] == Ran(c);
    }
    forall c | Ran(c) in Runs(order)
      ensures c in s
    {
      var i :| 0 <= i < |order| && Runs(order)[i] == Ran(c);
      assert order[i] in Elements(order);
    }
  }

  /** Stored callbacks are never cleared: after `apply` and `reset`, the
      next `apply` finds the same callback sets armed again, so it runs the
      initialisation function, the doOnce callbacks and the deferred
      callbacks once more. `reset` before any `apply` changes nothing. */
  lemma ResetRearms(s: Lazy)
    requires Armed(s) && !s.initialized
    ensures AfterReset(AfterApply(s)) == s
    ensures AfterReset(s) == s
    ensures AfterReset(AfterReset(AfterApply(s))) == s
  {
  }

  /** Deferring before initialisation: `doOnce` and `whenInitialized`
      store their callbacks for the next `apply`, which then runs them;
      once initialised they run at once and store nothing. `onReset` only
      stores, whatever the state. */
  lemma DeferredRunAtApply(s: Lazy, c: Callback, cs: seq<Callback>)
    ensures !s.initialized ==> c in AfterDoOnce(s, c).doOnce
    ensures !s.initialized ==> forall x :: x in cs ==> x in AfterWhenInitialized(s, cs).functions
    ensures s.initialized ==> AfterDoOnce(s, c) == s && AfterWhenInitialized(s, cs) == s
    ensures c in AfterOnReset(s, c).doOnReset && AfterOnReset(s, c).initialized == s.initialized
  {
    if !s.initialized {
      forall x | x in cs
        ensures x in AfterWhenInitialized(s, cs).functions
      {
        assert x in Elements(cs);
      }
    }
  }

  class LazyInitializer {
    var initialized: bool
    var functionArmed: bool
    var doOnceArmed: bool
    var functions: set<Callback>
    var doOnce: set<Callback>
    var doOnReset: set<Callback>
    /** Every run so far, in order. */
    ghost var ran: seq<Effect>

    function State(): Lazy
      reads this
    {
      Lazy(initialized, functionArmed, doOnceArmed, functions, doOnce, doOnReset)
    }

    /** The constructor keeps the function as both the current and the
        original one, and arms the doOnce function. */
    constructor ()
      ensures State() == Fresh && ran == []
    {
      initialized := false;
      functionArmed := true;
      doOnceArmed := true;
      functions := {};
      doOnce := {};
      doOnReset := {};
      ran := [];
    }

    /** Runs the callbacks in `order`, one after the other. */
    method RunEach(order: seq<Callback>)
      modifies this`ran
      ensures ran == old(ran) + Runs(order)
    {
      var i := 0;
      while i < |order|
        invariant 0 <= i <= |order|
        invariant ran == old(ran) + Runs(order[..i])
      {
        assert order[..i + 1] == order[..i] + [order[i]];
        RunsAppend(order[..i], order[i]);
        ran := ran + [Ran(order[i])];
        i := i + 1;
      }
      assert order[..|order|] == order;
    }

    /** `doOnceFunction.run()`: while armed, runs every doOnce callback and
        then disarms itself. */
    method RunDoOnceFunction() returns (onceOrder: seq<Callback>)
      modifies this`ran, this`doOnceArmed
      ensures IsEnumeration(onceOrder, if old(doOnceArmed) then doOnce else {})
      ensures ran == old(ran) + (if old(doOnceArmed) then Runs(onceOrder) else [])
      ensures !doOnceArmed
    {
      if doOnceArmed {
        onceOrder := Enumerate(doOnce);
        RunEach(onceOrder);
        doOnceArmed := false;
      } else {
        onceOrder := [];
      }
    }

    /** `apply()`. */
    method Apply() returns (self: LazyInitializer, onceOrder: seq<Callback>, order: seq<Callback>)
      modifies this
      ensures self == this
      ensures State() == AfterApply(old(State()))
      ensures old(initialized) ==> ran == old(ran)
      ensures !old(initialized) ==>
                IsEnumeration(onceOrder, if old(doOnceArmed) then doOnce else {}) &&
                IsEnumeration(order, functions) &&
                ran == old(ran) + ApplyEffects(old(State()), onceOrder, order)
    {
      self, onceOrder, order := this, [], [];
      if !initialized {
        ghost var s0, r0 := State(), ran;
        if functionArmed {
          ran := ran + [RanInit];
        }
        ghost var r1 := ran;
        assert r1 == r0 + (if s0.functionArmed then [RanInit] else []);
        functionArmed := false;
        onceOrder := RunDoOnceFunction();
        ghost var r2 := ran;
        order := Enumerate(functions);
        RunEach(order);
        initialized := true;
        ghost var a := if s0.functionArmed then [RanInit] else [];
        ghost var b := if s0.doOnceArmed then Runs(onceOrder) else [];
        assert r2 == r1 + b;
        calc {
          ran;
          r2 + Runs(order);
          (r0 + a) + b + Runs(order);
          { AppendAssoc(r0, a, b, Runs(order)); }
          r0 + (a + b + Runs(order));
        }
      }
    }

    /** `ifInitialized(function)`: runs it only once initialised. */
    method IfInitialized(c: Callback) returns (self: LazyInitializer)
      modifies this`ran
      ensures self == this
      ensures ran == old(ran) + (if initialized then [Ran(c)] else [])
    {
      if IsInitialized() {
        ran := ran + [Ran(c)];
      }
      self := this;
    }

    /** `whenInitialized(functions...)`: runs them in argument order when
        initialised, otherwise stores them for the next `apply`. */
    method WhenInitialized(cs: seq<Callback>) returns (self: LazyInitializer)
      modifies this
      ensures self == this
      ensures State() == AfterWhenInitialized(old(State()), cs)
      ensures ran == old(ran) + (if old(initialized) then Runs(cs) else [])
    {
      if IsInitialized() {
        RunEach(cs);
      } else {
        functions := functions + Elements(cs);
      }
      self := this;
    }

    /** `doOnce(function)`: runs it when initialised, otherwise stores it. */
    method DoOnce(c: Callback) returns (self: LazyInitializer)
      modifies this
      ensures self == this
      ensures State() == AfterDoOnce(old(State()), c)
      ensures ran == old(ran) + (if old(initialized) then [Ran(c)] else [])
    {
      if IsInitialized() {
        ran := ran + [Ran(c)];
      } else {
        doOnce := doOnce + {c};
      }
      self := this;
    }

    /** `onReset(function)`: stores it; nothing runs. */
    method OnReset(c: Callback) returns (self: LazyInitializer)
      modifies this
      ensures self == this
      ensures State() == AfterOnReset(old(State()), c) && ran == old(ran)
    {
      doOnReset := doOnReset + {c};
      self := this;
    }

    /** `isInitialized()`. */
    function IsInitialized(): (b: bool)
      reads this
      ensures b <==> State().initialized
    {
      initialized
    }

    /** `reset()`: when initialised, restores the original function,
        re-arms the doOnce function, becomes uninitialised and runs every
        onReset callback; otherwise does nothing. */
    method Reset() returns (order: seq<Callback>)
      modifies this
      ensures State() == AfterReset(old(State()))
      ensures !old(initialized) ==> order == [] && ran == old(ran)
      ensures old(initialized) ==> IsEnumeration(order, doOnReset) && ran == old(ran) + Runs(order)
    {
      order := [];
      if IsInitialized() {
        functionArmed := true;
        doOnceArmed := true;
        initialized := false;
        order := Enumerate(doOnReset);
        RunEach(order);
      }
    }
  }
}
