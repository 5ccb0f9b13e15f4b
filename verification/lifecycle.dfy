/** The presenter lifecycle (`api/Presenter`, `api/ChildPresenter`): a
    runtime holding every presenter's state next to the shared slot
    registry, event bus and security context. Every presenter's view is a
    no-content view, which makes attach and detach concrete: revealing
    through the no-content slot attaches the view and calls the presenter
    back, and removing it detaches the view and calls the presenter back.
    What a presenter subclass overrides (slot key, enabled, auto reveal,
    authorizer, roles, whether it is a child) is fixed configuration. */
module Lifecycle {
  import opened Base
  import opened JavaStrings
  import opened Slots
  import opened NoContent
  import opened Events
  import opened Security

  /** The authorizer `getAuthorizer()` returns. `RolesAllowedAuthorizer` is
      modelled; the default, permit-all and deny-all authorizers are not
      part of this model and their decision is a parameter. */
  datatype AuthorizerKind = RolesAllowed | Unseen(grants: bool)

  /** The overridable decisions of a presenter class. */
  datatype PresenterConfig = PresenterConfig(
    slotKey: Option<string>,      // getSlotKey()
    enabled: bool,                // isEnabled()
    autoReveal: bool,             // isAutoReveal()
    authorizer: AuthorizerKind,   // getAuthorizer()
    roles: seq<string>,           // getRoles(), in iteration order
    isChild: bool,                // a ChildPresenter
    confirmsNavigation: bool)     // the view can confirm navigation

  /** What `Presenter` answers when nothing is overridden: no slot key,
      enabled, auto revealing, no roles. */
  function DefaultConfig(defaultGrants: bool): (c: PresenterConfig)
    ensures c.slotKey.None? && c.enabled && c.autoReveal && c.roles == []
    ensures c.authorizer == Unseen(defaultGrants) && !c.isChild
  {
    PresenterConfig(None, true, true, Unseen(defaultGrants), [], false, false)
  }

  /** The fields of one presenter (and its view). */
  datatype PresenterState = PresenterState(
    active: bool,
    eventsRecord: Option<EventsRecord>,           // eventsListenerRecord
    slotRecord: Option<RegistrationRecord>,       // slotListenerRecord
    interceptorCreated: bool,                     // navigationInterceptor != null
    interceptorInstalled: bool,                   // added to the router
    registeredSlots: seq<RegistrationRecord>,     // registeredSlots
    childListeners: multiset<PresenterId>,        // deferred `doActivate` of these children
    parent: Option<PresenterId>,                  // ChildPresenter.parent
    routingState: Option<nat>,                    // state
    view: ViewState)

  function NewPresenter(): (s: PresenterState)
    ensures !s.active && s.eventsRecord.None? && s.slotRecord.None? && s.childListeners == multiset{}
    ensures s.view == NewView() && s.parent.None? && s.registeredSlots == []
  {
    PresenterState(false, None, None, false, false, [], multiset{}, None, None, NewView())
  }

  /** `registerChildListener` on `parent` for child `c`: one more deferred
      activation. */
  function QueueChild(m: map<PresenterId, PresenterState>, parent: PresenterId, c: PresenterId)
    : (m': map<PresenterId, PresenterState>)
    requires parent in m
    ensures m'.Keys == m.Keys
    ensures m'[parent].childListeners[c] == m[parent].childListeners[c] + 1
    ensures forall q :: q in m && q != parent ==> m'[q] == m[q]
  {
    m[parent := m[parent].(childListeners := m[parent].childListeners + multiset{c})]
  }

  /** Whether the parent of `c` is active, when `c` has a parent. */
  function ParentActive(m: map<PresenterId, PresenterState>, c: PresenterId): (r: Option<bool>)
    requires c in m
    ensures r.Some? ==> m[c].parent.Some? && m[c].parent.value in m &&
                        r.value == m[m[c].parent.value].active
  {
    match m[c].parent
    case None => None
    case Some(q) => if q in m then Some(m[q].active) else None
  }

  /** The teardown branch of `deactivate`: inactive, interceptor removed;
      the records, registered slots and view are kept. */
  function TornDown(s: PresenterState): (t: PresenterState)
    ensures !t.active && !t.interceptorInstalled
    ensures t.eventsRecord == s.eventsRecord && t.slotRecord == s.slotRecord && t.view == s.view
    ensures t.registeredSlots == s.registeredSlots && t.childListeners == s.childListeners
  {
    s.(active := false, interceptorInstalled := false)
  }

  /** The overridable hooks a presenter runs, and the deferred child
      activations it invokes, in the order they happen. */
  datatype Hook =
    | OnActivated(p: PresenterId)
    | OnDeactivated(p: PresenterId)
    | OnBeforeRevealed(p: PresenterId)
    | RegisterSlots(p: PresenterId)
    | OnRevealed(p: PresenterId)
    | OnRemoved(p: PresenterId)
    | SetState(p: PresenterId)
    | OnStateChanged(p: PresenterId)
    | ChildListenerInvoked(p: PresenterId, child: PresenterId)

  /** The ways `doActivate` can go: nothing to do, the authorizer throws,
      access denied, or activation. */
  datatype Gate = Skip | Fail(error: JavaException) | Deny | Proceed

  /** `doActivate`'s gates: already active or disabled does nothing; then
      the authorizer's decision, which may throw, decides. */
  function ActivationGate(active: bool, enabled: bool, decision: Result<bool>): (g: Gate)
    ensures g == Skip <==> active || !enabled
    ensures g.Fail? <==> !active && enabled && decision.Failure?
    ensures g.Fail? ==> g.error == decision.error
    ensures g == Deny <==> !active && enabled && decision == Success(false)
    ensures g == Proceed <==> !active && enabled && decision == Success(true)
  {
    if active || !enabled then Skip
    else match decision
      case Failure(e) => Fail(e)
      case Success(granted) => if granted then Proceed else Deny
  }

  /** `getAuthorizer().isAuthorized(securityContext, this)` */
  function Authorization(c: PresenterConfig, user: Option<User>): Result<bool> {
    match c.authorizer
    case RolesAllowed => RolesAllowedDecision(user, c.roles)
    case Unseen(g) => Success(g)
  }

  /** For a presenter guarded by `RolesAllowedAuthorizer`, activation
      proceeds exactly when it is inactive, enabled, and the user is
      authenticated and shares one of its roles. A presenter declaring no
      roles never gets past the gates, and an eligible presenter facing no
      user at all makes `doActivate` throw NullPointerException. */
  lemma RolesAllowedGate(c: PresenterConfig, user: Option<User>, active: bool)
    requires c.authorizer == RolesAllowed
    ensures ActivationGate(active, c.enabled, Authorization(c, user)) == Proceed <==>
            !active && c.enabled && user.Some? && user.value.authenticated &&
            Elements(c.roles) * user.value.roles != {}
    ensures c.roles == [] ==> ActivationGate(active, c.enabled, Authorization(c, user)) != Proceed
    ensures !active && c.enabled && user.None? ==>
              ActivationGate(active, c.enabled, Authorization(c, user)) == Fail(NullPointerException)
  {
    RolesAllowedIff(user, c.roles);
    if user.Some? {
      RolesAllowedDenials(user.value, c.roles);
    }
  }

  /** What `reveal` (and the attached branch of `deactivate`) finds before
      touching the view. */
  datatype RevealPlan = NoSlotKey | SlotMissing | RevealWith(slot: Slot)

  /** `getSlot()`: a null or blank key throws SlotNotDefinedException,
      otherwise the registry is asked. */
  function PlanReveal(key: Option<string>, reg: Registry): (r: RevealPlan)
    ensures r == NoSlotKey <==> IsBlank(key)
    ensures r == SlotMissing <==> !IsBlank(key) && Find(reg, key).None?
    ensures r.RevealWith? <==> !IsBlank(key) && Find(reg, key).Some?
    ensures r.RevealWith? ==> Find(reg, key) == Some(r.slot)
  {
    if IsBlank(key) then NoSlotKey
    else match Find(reg, key)
      case None => SlotMissing
      case Some(s) => RevealWith(s)
  }

  /** A presenter without a slot key cannot be revealed; one with a key is
      revealed into the slot on top of that key's stack. */
  lemma PlanRevealUsesTopOfStack(key: string, reg: Registry, s: Slot)
    requires !IsBlank(Some(key))
    ensures PlanReveal(Some(key), reg) == RevealWith(s) <==>
            key in reg.stacks && reg.stacks[key] != [] && reg.stacks[key][0] == s
    ensures PlanReveal(None, reg) == NoSlotKey
  {
    if key == [] {
      TrimEmptyIff(key);
    }
  }

  /** Right after `s` is pushed, a presenter waiting for the slot's key is
      shown `s` itself, unless that key is blank; the no-content key is not. */
  lemma PlanAfterPush(reg: Registry, pushed: Registry, s: Slot)
    requires pushed.stacks == Push(reg, s).stacks
    ensures PlanReveal(Some(s.Key()), pushed) == if IsBlank(Some(s.Key())) then NoSlotKey else RevealWith(s)
    ensures s == NoContentSlot ==> PlanReveal(Some(s.Key()), pushed) == RevealWith(NoContentSlot)
  {
    if s.Key() == [] {
      TrimEmptyIff(s.Key());
    }
    if s == NoContentSlot {
      TrimEmptyIff(BrixNoContentSlot);
      assert !IsTrimmable(BrixNoContentSlot[0]);
    }
  }

  /** A presenter reveals through the slot registered last under its key:
      registering another slot under that key changes where it is revealed,
      and unregistering it again restores the previous target. */
  lemma RevealTargetFollowsRegistry(key: string, reg: Registry, s: Slot)
    requires !IsBlank(Some(key)) && s.Key() == key
    ensures PlanReveal(Some(key), Push(reg, s)) == RevealWith(s)
    ensures PlanReveal(Some(key), Pop(Push(reg, s), s).0) == PlanReveal(Some(key), reg)
  {
    if key == [] {
      TrimEmptyIff(key);
    }
    FindAfterPush(reg, s);
    PopAfterPush(reg, s, s);
  }

  // The runtime invariant, on values

  /** One presenter's fields agree with the registries: it is subscribed to
      slots and events exactly while active, its records are its own and
      come in pairs, its view reports to it and is attached only once
      bound, and its parent and deferred children are presenters. */
  ghost predicate StateOk(q: PresenterId, s: PresenterState, keys: set<PresenterId>,
                          slotListeners: set<ListenerId>, eventListeners: set<Listener>)
  {
    (s.active <==> q in slotListeners) &&
    (s.active <==> q in eventListeners) &&
    (s.active ==> s.eventsRecord.Some?) &&
    (s.eventsRecord.Some? <==> s.slotRecord.Some?) &&
    (s.eventsRecord.Some? ==> s.eventsRecord.value == UnregisterListener(q)) &&
    (s.slotRecord.Some? ==> s.slotRecord.value == StopListening(q)) &&
    (s.view.attachable.Some? ==> s.view.attachable.value == q) &&
    (s.active ==> s.view.attachable == Some(q)) &&
    (s.view.attached ==> s.view.attachable.Some?) &&
    (s.parent.Some? ==> s.parent.value in keys) &&
    (forall c :: c in s.childListeners ==> c in keys)
  }

  ghost predicate AllOk(m: map<PresenterId, PresenterState>,
                        slotListeners: set<ListenerId>, eventListeners: set<Listener>)
  {
    forall q :: q in m ==> StateOk(q, m[q], m.Keys, slotListeners, eventListeners)
  }

  /** Replacing one presenter's state by a consistent one keeps the whole
      runtime consistent when nobody else's subscriptions change. */
  lemma UpdateKeepsOk(m: map<PresenterId, PresenterState>, p: PresenterId, s: PresenterState,
                      sl: set<ListenerId>, el: set<Listener>, sl': set<ListenerId>, el': set<Listener>)
    requires AllOk(m, sl, el) && p in m
    requires StateOk(p, s, m.Keys, sl', el')
    requires forall q :: q in m && q != p ==> (q in sl <==> q in sl') && (q in el <==> q in el')
    ensures AllOk(m[p := s], sl', el')
  {
    var m' := m[p := s];
    assert m'.Keys == m.Keys;
    forall q | q in m'
      ensures StateOk(q, m'[q], m'.Keys, sl', el')
    {
      if q != p {
        assert StateOk(q, m[q], m.Keys, sl, el);
      }
    }
  }

  // What activation never undoes, on values

  ghost function InactiveOf(m: map<PresenterId, PresenterState>): set<PresenterId> {
    set q | q in m && !m[q].active
  }

  ghost function UnattachedOf(m: map<PresenterId, PresenterState>): set<PresenterId> {
    set q | q in m && !m[q].view.attached
  }

  ghost function AttachedOf(m: map<PresenterId, PresenterState>): set<PresenterId> {
    set q | q in m && m[q].view.attached
  }

  /** Activation only makes presenters active and views attached, so this
      count bounds how often the callback chain can go round. */
  ghost function PotentialOf(m: map<PresenterId, PresenterState>): nat {
    |InactiveOf(m)| + |UnattachedOf(m)|
  }

  /** From `m0` to `m1` presenters only became active, views only became
      attached or bound, deferred child lists only shrank, and parents
      and registered slots stayed as they were. */
  ghost predicate Grows(m0: map<PresenterId, PresenterState>, m1: map<PresenterId, PresenterState>) {
    m1.Keys == m0.Keys &&
    InactiveOf(m1) <= InactiveOf(m0) && UnattachedOf(m1) <= UnattachedOf(m0) &&
    (forall q :: q in m0 ==>
       m1[q].parent == m0[q].parent &&
       m1[q].childListeners <= m0[q].childListeners &&
       m1[q].registeredSlots == m0[q].registeredSlots &&
       (m0[q].view.attachable.Some? ==> m1[q].view.attachable.Some?))
  }

  lemma GrowsPotential(m0: map<PresenterId, PresenterState>, m1: map<PresenterId, PresenterState>)
    requires Grows(m0, m1)
    ensures PotentialOf(m1) <= PotentialOf(m0)
  {
    SubsetCardinality(InactiveOf(m1), InactiveOf(m0));
    SubsetCardinality(UnattachedOf(m1), UnattachedOf(m0));
  }

  /** An update of one presenter that undoes nothing is growth. */
  lemma UpdateGrows(m: map<PresenterId, PresenterState>, p: PresenterId, s: PresenterState)
    requires p in m
    requires m[p].active ==> s.active
    requires m[p].view.attached ==> s.view.attached
    requires m[p].view.attachable.Some? ==> s.view.attachable.Some?
    requires s.parent == m[p].parent && s.childListeners <= m[p].childListeners
    requires s.registeredSlots == m[p].registeredSlots
    ensures Grows(m, m[p := s])
  {
  }

  /** Activating an inactive presenter lowers the potential. */
  lemma ActivationLowersPotential(m: map<PresenterId, PresenterState>, p: PresenterId, s: PresenterState)
    requires p in m && !m[p].active && s.active && s.view.attached == m[p].view.attached
    ensures PotentialOf(m[p := s]) < PotentialOf(m)
  {
    var m' := m[p := s];
    assert InactiveOf(m') == InactiveOf(m) - {p};
    assert UnattachedOf(m') == UnattachedOf(m);
  }

  /** Detaching a view lowers the number of attached views by one when it
      was attached, and keeps it otherwise. */
  lemma DetachLowersAttached(m: map<PresenterId, PresenterState>, p: PresenterId, s: PresenterState)
    requires p in m && !s.view.attached
    ensures |AttachedOf(m[p := s])| + (if m[p].view.attached then 1 else 0) == |AttachedOf(m)|
  {
    if m[p].view.attached {
      assert AttachedOf(m[p := s]) == AttachedOf(m) - {p};
    } else {
      assert AttachedOf(m[p := s]) == AttachedOf(m);
    }
  }

  /** From `m0` to `m1`, no presenter outside `except` that was active with
      a detached view has had its view attached. Within the activation
      chain only a presenter's own reveal attaches its view, and that
      reveal is reached only while activating it. */
  ghost predicate StaysDetached(m0: map<PresenterId, PresenterState>, m1: map<PresenterId, PresenterState>,
                                except: set<PresenterId>)
  {
    forall q :: q in m0 && q in m1 && q !in except && m0[q].active && !m0[q].view.attached ==>
      !m1[q].view.attached
  }

  /** Listener `q`, active and detached in `m0`, is still detached in `m1`. */
  ghost predicate StillDetached(m0: map<PresenterId, PresenterState>, m1: map<PresenterId, PresenterState>,
                                q: PresenterId)
  {
    q in m0 && m0[q].active && !m0[q].view.attached ==> q in m1 && !m1[q].view.attached
  }

  /** What telling a waiting listener `q` about slot `s` leaves behind when
      that did not throw: `q` is attached when `s` is the no-content slot,
      and was attached already otherwise. */
  ghost predicate SawSlot(m0: map<PresenterId, PresenterState>, m1: map<PresenterId, PresenterState>,
                           q: PresenterId, s: Slot)
  {
    q in m0 ==>
      (s == NoContentSlot ==> q in m1 && m1[q].view.attached) &&
      (s != NoContentSlot ==> m0[q].view.attached)
  }

  /** The listeners of `order` from position `i` on, not yet reached by the
      walk: those active and detached in `m0` are still detached in `m1`. */
  ghost predicate Unreached(m0: map<PresenterId, PresenterState>, m1: map<PresenterId, PresenterState>,
                            order: seq<ListenerId>, i: nat)
  {
    i <= |order| && forall j :: i <= j < |order| ==> StillDetached(m0, m1, order[j])
  }

  /** Every waiting listener among the first `k` of `order` has seen slot `s`. */
  ghost predicate Told(m0: map<PresenterId, PresenterState>, m1: map<PresenterId, PresenterState>,
                       order: seq<ListenerId>, k: nat, s: Slot, waiting: set<PresenterId>)
  {
    k <= |order| && forall j :: 0 <= j < k && order[j] in waiting ==> SawSlot(m0, m1, order[j], s)
  }

  /** Every modification count logged before the last of `n` callbacks is
      `mods`: the walk went on only while the set was unchanged. */
  ghost predicate CountsKept(counts: seq<nat>, mods: nat, n: nat) {
    forall j :: 0 <= j < |counts| && j + 1 < n ==> counts[j] == mods
  }

  // Proof helpers below this line have no counterpart in the source: they
  // compose the facts above across calls.

  lemma SubsetCardinality(a: set<PresenterId>, b: set<PresenterId>)
    requires a <= b
    ensures |a| <= |b|
  {
    assert b == a + (b - a);
  }

  lemma GrowsRefl(m: map<PresenterId, PresenterState>)
    ensures Grows(m, m)
  {
  }

  lemma GrowsTrans(m0: map<PresenterId, PresenterState>, m1: map<PresenterId, PresenterState>,
                   m2: map<PresenterId, PresenterState>)
    requires Grows(m0, m1) && Grows(m1, m2)
    ensures Grows(m0, m2)
  {
  }

  lemma StaysRefl(m: map<PresenterId, PresenterState>, e: set<PresenterId>)
    ensures StaysDetached(m, m, e)
  {
  }

  lemma StaysTrans(m0: map<PresenterId, PresenterState>, m1: map<PresenterId, PresenterState>,
                   m2: map<PresenterId, PresenterState>, e1: set<PresenterId>, e2: set<PresenterId>,
                   e: set<PresenterId>)
    requires Grows(m0, m1) && StaysDetached(m0, m1, e1) && StaysDetached(m1, m2, e2)
    requires e1 <= e && e2 <= e
    ensures StaysDetached(m0, m2, e)
  {
    forall q | q in m0 && q in m2 && q !in e && m0[q].active && !m0[q].view.attached
      ensures !m2[q].view.attached
    {
      assert q !in InactiveOf(m0);
      assert q !in InactiveOf(m1);
    }
  }

  /** Replacing one presenter's state: the exception set grows by that
      presenter, unless its view's flag is kept. */
  lemma StaysUpdate(m0: map<PresenterId, PresenterState>, m1: map<PresenterId, PresenterState>,
                    p: PresenterId, s: PresenterState, e: set<PresenterId>)
    requires StaysDetached(m0, m1, e) && p in m1
    ensures StaysDetached(m0, m1[p := s], e + {p})
    ensures s.view.attached == m1[p].view.attached ==> StaysDetached(m0, m1[p := s], e)
  {
  }

  lemma KeptStep(counts: seq<nat>, mods: nat, n: nat, c: nat)
    requires CountsKept(counts, mods, n) && |counts| < n
    ensures CountsKept(counts + [c], mods, |counts| + 1)
    ensures c == mods ==> CountsKept(counts + [c], mods, n)
  {
  }

  /** A presenter that was inactive at the start needs no exception. */
  lemma StaysWithout(m0: map<PresenterId, PresenterState>, m1: map<PresenterId, PresenterState>,
                     p: PresenterId)
    requires StaysDetached(m0, m1, {p}) && p in m0 && !m0[p].active
    ensures StaysDetached(m0, m1, {})
  {
  }

  /** One more listener told: the listeners behind it stay as they were, and
      it has seen the slot when its callback did what a normal return
      promises. */
  lemma WalkStep(m0: map<PresenterId, PresenterState>, m1: map<PresenterId, PresenterState>,
                 m2: map<PresenterId, PresenterState>, order: seq<ListenerId>, i: nat, s: Slot,
                 waiting: set<PresenterId>)
    requires i < |order| && Distinct(order)
    requires Unreached(m0, m1, order, i) && Told(m0, m1, order, i, s, waiting)
    requires Grows(m0, m1) && Grows(m1, m2) && StaysDetached(m1, m2, {order[i]})
    requires order[i] in m0 && m0[order[i]].active
    ensures Unreached(m0, m2, order, i + 1) && Told(m0, m2, order, i, s, waiting)
    ensures (order[i] in waiting && s == NoContentSlot ==> m2[order[i]].view.attached) &&
            (order[i] in waiting && s != NoContentSlot ==> m1[order[i]].view.attached) ==>
              Told(m0, m2, order, i + 1, s, waiting)
  {
    var q := order[i];
    forall j | i < j < |order|
      ensures StillDetached(m0, m2, order[j])
    {
      var x := order[j];
      assert x != q;
      if x in m0 && m0[x].active && !m0[x].view.attached {
        assert x !in InactiveOf(m1);
      }
    }
    forall j | 0 <= j < i && order[j] in waiting
      ensures SawSlot(m0, m2, order[j], s)
    {
      var x := order[j];
      if x in m0 && s == NoContentSlot {
        assert x !in UnattachedOf(m2);
      }
    }
    if (q in waiting && s == NoContentSlot ==> m2[q].view.attached) &&
       (q in waiting && s != NoContentSlot ==> m1[q].view.attached) {
      assert StillDetached(m0, m1, q);
    }
  }

  lemma RemoveOneMono(a: multiset<PresenterId>, b: multiset<PresenterId>, c: multiset<PresenterId>, x: PresenterId)
    requires a <= b - multiset{x} && b <= c
    ensures a <= c - multiset{x}
  {
  }

  lemma RemoveOneOnly(m: multiset<PresenterId>, x: PresenterId, y: PresenterId)
    requires y in m && y !in m - multiset{x}
    ensures y == x
  {
  }

  // Proof helpers on hook traces, which only grow at the end

  lemma PrefixTrans(a: seq<Hook>, b: seq<Hook>, c: seq<Hook>)
    requires a <= b && b <= c
    ensures a <= c
  {
    assert b == c[..|b|];
    assert a == b[..|a|];
    assert a == c[..|a|];
  }

  lemma PrefixOfAppend(a: seq<Hook>, b: seq<Hook>)
    ensures a <= a + b
  {
    assert (a + b)[..|a|] == a;
  }

  lemma AppendAssoc(a: seq<Hook>, b: seq<Hook>, c: seq<Hook>)
    ensures (a + b) + c == a + (b + c)
  {
  }

  /** A hook recorded after position `k` stays recorded after `k` as the
      trace grows. */
  lemma StillInSuffix(t0: seq<Hook>, t1: seq<Hook>, k: nat, h: Hook)
    requires t0 <= t1 && k <= |t0| && h in t0[k..]
    ensures h in t1[k..]
  {
    var j :| 0 <= j < |t0[k..]| && t0[k..][j] == h;
    assert t0 == t1[..|t0|];
    assert t1[k..][j] == t0[k + j];
  }

  lemma AppendedInSuffix(t0: seq<Hook>, h: Hook, t1: seq<Hook>, k: nat)
    requires t0 + [h] <= t1 && k <= |t0|
    ensures h in t1[k..]
  {
    assert t0 + [h] == t1[..|t0| + 1];
    assert t1[k..][|t0| - k] == h;
  }

  class Runtime {
    const configs: map<PresenterId, PresenterConfig>
    var presenters: map<PresenterId, PresenterState>
    const slots: BrixSlots
    const events: BrixEvents
    const security: SecurityContext
    ghost var trace: seq<Hook>

    ghost predicate Valid()
      reads this, slots, events
    {
      presenters.Keys == configs.Keys &&
      slots.listeners <= presenters.Keys &&
      AllOk(presenters, slots.listeners, events.listeners)
    }

    /** What the activation chain (activate, reveal, attach, ready, slot
        notification) keeps: it only grows presenters' states, never
        changes slot stacks or the user, and only appends hooks. */
    twostate predicate OnlyGrows()
      reads this, slots, security
    {
      Grows(old(presenters), presenters) &&
      slots.stacks == old(slots.stacks) &&
      security.user == old(security.user) &&
      old(trace) <= trace
    }

    constructor (cs: map<PresenterId, PresenterConfig>)
      ensures Valid() && fresh(slots) && fresh(events) && fresh(security)
      ensures configs == cs && presenters == map q | q in cs :: NewPresenter()
      ensures slots.State() == Initial() && events.listeners == {} && security.user.None?
      ensures trace == []
    {
      configs := cs;
      presenters := map q | q in cs :: NewPresenter();
      slots := new BrixSlots();
      events := new BrixEvents();
      security := new SecurityContext();
      trace := [];
    }

    /** `isActive()` */
    function IsActive(p: PresenterId): (b: bool)
      requires Valid() && p in presenters
      reads this, slots, events
      ensures b <==> p in slots.listeners
      ensures b <==> p in events.listeners
    {
      assert StateOk(p, presenters[p], presenters.Keys, slots.listeners, events.listeners);
      presenters[p].active
    }

    /** `ChildPresenter.getParent()` */
    function GetParent(c: PresenterId): (r: Option<PresenterId>)
      requires Valid() && c in presenters
      reads this, slots, events
      ensures r.Some? ==> r.value in presenters
    {
      assert StateOk(c, presenters[c], presenters.Keys, slots.listeners, events.listeners);
      presenters[c].parent
    }

    /** `ChildPresenter.setParent(parent)` */
    method SetParent(c: PresenterId, parent: PresenterId)
      requires Valid() && c in presenters && parent in presenters
      modifies this
      ensures Valid()
      ensures presenters == old(presenters)[c := old(presenters)[c].(parent := Some(parent))]
      ensures GetParent(c) == Some(parent)
      ensures trace == old(trace)
    {
      var s := presenters[c].(parent := Some(parent));
      UpdateKeepsOk(presenters, c, s, slots.listeners, events.listeners, slots.listeners, events.listeners);
      presenters := presenters[c := s];
    }

    /** `registerChildListener(listener)` with the listener `super::doActivate`
        of child `c`; every call adds a new entry. */
    method RegisterChildListener(p: PresenterId, c: PresenterId)
      requires Valid() && p in presenters && c in presenters
      modifies this
      ensures Valid()
      ensures presenters == QueueChild(old(presenters), p, c)
      ensures trace == old(trace)
    {
      var s := presenters[p].(childListeners := presenters[p].childListeners + multiset{c});
      UpdateKeepsOk(presenters, p, s, slots.listeners, events.listeners, slots.listeners, events.listeners);
      presenters := presenters[p := s];
    }

    /** `setRoutingState(state)`: always stores it and runs `setState`; runs
        `onStateChanged` only while active. */
    method SetRoutingState(p: PresenterId, st: nat)
      requires Valid() && p in presenters
      modifies this
      ensures Valid()
      ensures presenters == old(presenters)[p := old(presenters)[p].(routingState := Some(st))]
      ensures trace == old(trace) + [SetState(p)] +
                       (if old(presenters)[p].active then [OnStateChanged(p)] else [])
    {
      var s := presenters[p].(routingState := Some(st));
      UpdateKeepsOk(presenters, p, s, slots.listeners, events.listeners, slots.listeners, events.listeners);
      presenters := presenters[p := s];
      trace := trace + [SetState(p)];
      if presenters[p].active {
        trace := trace + [OnStateChanged(p)];
      }
    }

    /** What `Presenter.doActivate` promises, by gate. */
    twostate predicate ActivatedAsPresenter(p: PresenterId, out: Outcome)
      requires p in configs
      reads this, slots, events, security
    {
      var gate := ActivationGate(old(p in presenters && presenters[p].active), configs[p].enabled,
                                 Authorization(configs[p], old(security.user)));
      (gate == Skip ==>
         out == Normal && presenters == old(presenters) && trace == old(trace) &&
         unchanged(slots, events, security)) &&
      (gate.Fail? ==>
         out == Throws(gate.error) && presenters == old(presenters) && trace == old(trace) &&
         unchanged(slots, events, security)) &&
      (gate == Deny ==>
         out == Normal && presenters == old(presenters) && trace == old(trace) &&
         unchanged(slots, events) &&
         security.handlerRuns == old(security.handlerRuns) + [old(security.handler)]) &&
      (gate == Proceed ==>
         p in presenters && presenters[p].active && p in slots.listeners && p in events.listeners &&
         presenters[p].view.attachable == Some(p) &&
         old(trace) + [OnActivated(p)] <= trace)
    }

    /** `activate()`: `doActivate`, which a child presenter overrides. */
    method Activate(p: PresenterId) returns (out: Outcome)
      requires Valid() && p in presenters
      modifies this, slots, events, security
      ensures Valid()
      ensures !configs[p].isChild ==> ActivatedAsPresenter(p, out)
      ensures configs[p].isChild ==> ActivatedAsChild(p, out)
    {
      if configs[p].isChild {
        out := ChildDoActivate(p);
      } else {
        out := DoActivate(p);
      }
    }

    /** What `ChildPresenter.doActivate` promises: under an active parent
        the child activates as any presenter; under an inactive parent it
        stays inactive and queues one deferred activation with the parent;
        with no parent it dereferences null. */
    twostate predicate ActivatedAsChild(p: PresenterId, out: Outcome)
      requires p in configs && old(p in presenters)
      reads this, slots, events, security
    {
      (old(presenters[p].parent).None? ==>
         out == Throws(NullPointerException) && presenters == old(presenters) &&
         trace == old(trace) && unchanged(slots, events, security)) &&
      (old(ParentActive(presenters, p)) == Some(false) ==>
         out == Normal && trace == old(trace) && unchanged(slots, events, security) &&
         presenters == QueueChild(old(presenters), old(presenters[p].parent.value), p)) &&
      (old(ParentActive(presenters, p)) == Some(true) ==> ActivatedAsPresenter(p, out))
    }

    /** `ChildPresenter.doActivate()` */
    method ChildDoActivate(p: PresenterId) returns (out: Outcome)
      requires Valid() && p in presenters
      modifies this, slots, events, security
      ensures Valid()
      ensures ActivatedAsChild(p, out)
    {
      var parent := GetParent(p);
      if parent.None? {
        return Throws(NullPointerException);
      }
      if presenters[parent.value].active {
        assert ParentActive(presenters, p) == Some(true);
        out := DoActivate(p);
      } else {
        assert ParentActive(presenters, p) == Some(false);
        RegisterChildListener(parent.value, p);
        out := Normal;
      }
    }

    /** `Presenter.doActivate()`: the gates; then subscribe to slots, bind the
        view's attach handlers, install the navigation interceptor if the
        view confirms navigation, subscribe to events, become active, run
        `onActivated`, and only then try to reveal. */
    method DoActivate(p: PresenterId) returns (out: Outcome)
      requires Valid() && p in presenters
      modifies this, slots, events, security
      decreases PotentialOf(presenters), 7
      ensures Valid() && OnlyGrows() && StaysDetached(old(presenters), presenters, {})
      ensures ActivatedAsPresenter(p, out)
    {
      var c := configs[p];
      if presenters[p].active || !c.enabled {
        GrowsRefl(presenters);
        return Normal;
      }
      var decision := Authorization(c, security.GetUser());
      if decision.Failure? {
        GrowsRefl(presenters);
        return Throws(decision.error);
      }
      if !decision.value {
        security.ReportUnAuthorizedAccess();
        GrowsRefl(presenters);
        return Normal;
      }
      out := ActivateGranted(p);
    }

    /** The part of `doActivate` past the gate: subscribe to slot and event
        notifications, bind the view, create and install the navigation
        interceptor when the presenter confirms navigation, become active,
        run `onActivated`, then reveal when auto-reveal is on. */
    method ActivateGranted(p: PresenterId) returns (out: Outcome)
      requires Valid() && p in presenters
      requires !presenters[p].active && configs[p].enabled
      requires Authorization(configs[p], security.user) == Success(true)
      modifies this, slots, events, security
      decreases PotentialOf(presenters), 6
      ensures Valid() && OnlyGrows()
      ensures p in presenters && presenters[p].active && p in slots.listeners && p in events.listeners
      ensures presenters[p].view.attachable == Some(p) && old(trace) + [OnActivated(p)] <= trace
      ensures StaysDetached(old(presenters), presenters, {})
    {
      Subscribe(p);
      ghost var m1, t1 := presenters, trace;
      out := TryReveal(p);
      GrowsTrans(old(presenters), m1, presenters);
      StaysTrans(old(presenters), m1, presenters, {}, {p}, {p});
      StaysWithout(old(presenters), presenters, p);
      PrefixTrans(old(trace), t1, trace);
      assert p !in InactiveOf(presenters);
      assert StateOk(p, presenters[p], presenters.Keys, slots.listeners, events.listeners);
    }

    /** Subscribes an inactive presenter to slot and event notifications,
        binds its view, sets up the navigation interceptor when it confirms
        navigation, marks it active and runs `onActivated`. */
    method Subscribe(p: PresenterId)
      requires Valid() && p in presenters && !presenters[p].active
      modifies this, slots, events
      ensures Valid() && Grows(old(presenters), presenters)
      ensures PotentialOf(presenters) < PotentialOf(old(presenters))
      ensures presenters[p].active && presenters[p].view.attachable == Some(p)
      ensures slots.stacks == old(slots.stacks) && StaysDetached(old(presenters), presenters, {})
      ensures trace == old(trace) + [OnActivated(p)] && old(trace) + [OnActivated(p)] <= trace
    {
      assert StateOk(p, presenters[p], presenters.Keys, slots.listeners, events.listeners);
      ghost var sl, el := slots.listeners, events.listeners;
      var srec := slots.Listen(p);
      var erec := events.Register(p);
      MarkActive(p, srec, erec, sl, el);
    }

    /** The presenter-side half of `Subscribe`, once the slot and event
        registrations are made: records them, binds the view, sets up the
        interceptor when needed, marks the presenter active, runs `onActivated`. */
    method MarkActive(p: PresenterId, srec: RegistrationRecord, erec: EventsRecord,
                      ghost sl: set<ListenerId>, ghost el: set<Listener>)
      requires presenters.Keys == configs.Keys && p in presenters && !presenters[p].active
      requires sl <= presenters.Keys && AllOk(presenters, sl, el)
      requires slots.listeners == sl + {p} && events.listeners == el + {p}
      requires srec == StopListening(p) && erec == UnregisterListener(p)
      modifies this
      ensures Valid() && Grows(old(presenters), presenters)
      ensures PotentialOf(presenters) < PotentialOf(old(presenters))
      ensures presenters[p].active && presenters[p].view.attachable == Some(p)
      ensures StaysDetached(old(presenters), presenters, {})
      ensures trace == old(trace) + [OnActivated(p)] && old(trace) + [OnActivated(p)] <= trace
    {
      var c := configs[p];
      var s := presenters[p];
      var s' := s.(
        slotRecord := Some(srec),
        view := Rebound(s.view, p),
        interceptorCreated := s.interceptorCreated || c.confirmsNavigation,
        interceptorInstalled := s.interceptorInstalled || c.confirmsNavigation,
        eventsRecord := Some(erec),
        active := true);
      assert StateOk(p, s, presenters.Keys, sl, el);
      UpdateKeepsOk(presenters, p, s', sl, el, slots.listeners, events.listeners);
      UpdateGrows(presenters, p, s');
      ActivationLowersPotential(presenters, p, s');
      StaysRefl(presenters, {});
      StaysUpdate(presenters, presenters, p, s', {});
      presenters := presenters[p := s'];
      trace := trace + [OnActivated(p)];
      PrefixOfAppend(old(trace), [OnActivated(p)]);
    }

    /** What `reveal` promises, by what `getSlot` finds. */
    twostate predicate RevealedAsPresenter(p: PresenterId, out: Outcome)
      requires p in configs && old(p in presenters)
      reads this, slots, events, security
    {
      var plan := PlanReveal(configs[p].slotKey, old(slots.State()));
      (plan == NoSlotKey ==>
         out == Throws(SlotNotDefinedException) && presenters == old(presenters) &&
         trace == old(trace) && unchanged(slots, events, security)) &&
      (plan == SlotMissing ==>
         out == Normal && presenters == old(presenters) &&
         trace == old(trace) && unchanged(slots, events, security)) &&
      (plan.RevealWith? ==> old(trace) + [OnBeforeRevealed(p)] <= trace) &&
      (plan.RevealWith? && plan.slot != NoContentSlot ==>
         out == Throws(IllegalArgumentException) && presenters == old(presenters) &&
         trace == old(trace) + [OnBeforeRevealed(p)] && unchanged(slots, events, security)) &&
      (plan == RevealWith(NoContentSlot) && old(presenters[p].view.attachable).None? ==>
         out == Normal && presenters == old(presenters) &&
         trace == old(trace) + [OnBeforeRevealed(p)] && unchanged(slots, events, security)) &&
      (plan == RevealWith(NoContentSlot) && old(presenters[p].view.attachable).Some? ==>
         p in presenters &&
         old(trace) + [OnBeforeRevealed(p), RegisterSlots(p), OnRevealed(p)] <= trace &&
         (out == Normal ==> presenters[p].view.attached && presenters[p].childListeners == multiset{}) &&
         (out.Throws? && old(presenters[p].active) ==>
            presenters[p].view.attached == old(presenters[p].view.attached)))
    }

    /** `tryReveal()`: reveals only an auto-revealing presenter whose view is
        not attached. */
    method TryReveal(p: PresenterId) returns (out: Outcome)
      requires Valid() && p in presenters
      modifies this, slots, events, security
      decreases PotentialOf(presenters) + 1, 5
      ensures Valid() && OnlyGrows() && StaysDetached(old(presenters), presenters, {p})
      ensures !configs[p].autoReveal || old(presenters[p].view.attached) ==>
                out == Normal && presenters == old(presenters) && trace == old(trace) &&
                unchanged(slots, events, security)
      ensures configs[p].autoReveal && !old(presenters[p].view.attached) ==> RevealedAsPresenter(p, out)
    {
      if configs[p].autoReveal && !presenters[p].view.attached {
        out := Reveal(p);
      } else {
        GrowsRefl(presenters);
        out := Normal;
      }
    }

    /** `reveal()`: a null or blank slot key throws; a slot not yet
        registered leaves everything as it is (the presenter waits for
        `onSlotRegistered`); otherwise `onBeforeRevealed` runs and the slot
        reveals the view, which only the no-content slot accepts. */
    method Reveal(p: PresenterId) returns (out: Outcome)
      requires Valid() && p in presenters
      modifies this, slots, events, security
      decreases PotentialOf(presenters) + 1, 4
      ensures Valid() && OnlyGrows() && StaysDetached(old(presenters), presenters, {p})
      ensures RevealedAsPresenter(p, out)
    {
      var key := configs[p].slotKey;
      if IsBlank(key) {
        GrowsRefl(presenters);
        return Throws(SlotNotDefinedException);
      }
      var slot := slots.FindSlot(key);
      if slot.None? {
        GrowsRefl(presenters);
        return Normal;
      }
      trace := trace + [OnBeforeRevealed(p)];
      PrefixOfAppend(old(trace), [OnBeforeRevealed(p)]);
      if RevealInto(slot.value, NoContentViewable) == Rejected {
        GrowsRefl(presenters);
        return Throws(IllegalArgumentException);
      }
      OnlyNoContentSlotTakesNoContentView(slot.value);
      ghost var t1 := trace;
      out := RevealView(p);
      PrefixTrans(old(trace), t1, trace);
      PrefixTrans(old(trace) + [OnBeforeRevealed(p)], t1, trace);
      if old(presenters[p].view.attachable).Some? {
        AppendAssoc(old(trace), [OnBeforeRevealed(p)], [RegisterSlots(p), OnRevealed(p)]);
        assert [OnBeforeRevealed(p)] + [RegisterSlots(p), OnRevealed(p)] ==
               [OnBeforeRevealed(p), RegisterSlots(p), OnRevealed(p)];
      }
    }

    /** `NoContentSlot.reveal(view)` on the presenter's view, which is the
        view's `onReveal()`: a bound view calls back `onAttached` and is
        marked attached once that returns; when the callback throws, the
        flag stays as it was. */
    method RevealView(p: PresenterId) returns (out: Outcome)
      requires Valid() && p in presenters
      modifies this, slots, events, security
      decreases PotentialOf(presenters) + 1, 3
      ensures Valid() && OnlyGrows() && StaysDetached(old(presenters), presenters, {p})
      ensures old(presenters[p].view.attachable).None? ==>
                out == Normal && presenters == old(presenters) &&
                trace == old(trace) && unchanged(slots, events, security)
      ensures old(presenters[p].view.attachable).Some? ==>
                old(trace) + [RegisterSlots(p), OnRevealed(p)] <= trace &&
                (out == Normal ==> presenters[p].view.attached && presenters[p].childListeners == multiset{}) &&
                (out.Throws? && old(presenters[p].active) ==>
                   presenters[p].view.attached == old(presenters[p].view.attached))
    {
      if Revealed(presenters[p].view).1.None? {
        GrowsRefl(presenters);
        return Normal;
      }
      out := OnAttached(p);
      assert old(presenters[p].view.attached) ==> p !in UnattachedOf(old(presenters));
      if out.Throws? {
        return;
      }
      ghost var m1 := presenters;
      MarkAttached(p);
      GrowsTrans(old(presenters), m1, presenters);
      StaysTrans(old(presenters), m1, presenters, {}, {p}, {p});
    }

    /** The `attached = true` that ends `onReveal` on a bound view. */
    method MarkAttached(p: PresenterId)
      requires Valid() && p in presenters && presenters[p].view.attachable.Some?
      modifies this
      ensures Valid() && Grows(old(presenters), presenters) && StaysDetached(old(presenters), presenters, {p})
      ensures presenters == old(presenters)[p := old(presenters[p]).(view := Revealed(old(presenters[p].view)).0)]
      ensures presenters[p].view.attached && trace == old(trace)
    {
      assert StateOk(p, presenters[p], presenters.Keys, slots.listeners, events.listeners);
      var s' := presenters[p].(view := Revealed(presenters[p].view).0);
      UpdateKeepsOk(presenters, p, s', slots.listeners, events.listeners, slots.listeners, events.listeners);
      UpdateGrows(presenters, p, s');
      StaysRefl(presenters, {});
      StaysUpdate(presenters, presenters, p, s', {});
      presenters := presenters[p := s'];
    }

    /** `onAttached()`: `registerSlots` (a no-op unless generated), then
        `onRevealed`, then `onReady`. */
    method OnAttached(p: PresenterId) returns (out: Outcome)
      requires Valid() && p in presenters
      modifies this, slots, events, security
      decreases PotentialOf(presenters) + 1, 2
      ensures Valid() && OnlyGrows() && StaysDetached(old(presenters), presenters, {})
      ensures old(trace) + [RegisterSlots(p), OnRevealed(p)] <= trace
      ensures out == Normal ==> presenters[p].childListeners == multiset{}
    {
      trace := trace + [RegisterSlots(p), OnRevealed(p)];
      ghost var t1 := trace;
      PrefixOfAppend(old(trace), [RegisterSlots(p), OnRevealed(p)]);
      out := OnReady(p);
      PrefixTrans(old(trace), t1, trace);
    }

    /** `onReady()`: every deferred child activation pending when it starts
        is invoked once and removed, iterating over a snapshot of the set. */
    method OnReady(p: PresenterId) returns (out: Outcome)
      requires Valid() && p in presenters
      modifies this, slots, events, security
      decreases PotentialOf(presenters) + 1, 1
      ensures Valid() && OnlyGrows() && StaysDetached(old(presenters), presenters, {})
      ensures out == Normal ==> presenters[p].childListeners == multiset{}
      ensures out == Normal ==> forall c :: c in old(presenters[p].childListeners) ==>
                ChildListenerInvoked(p, c) in trace[|old(trace)|..]
    {
      var snapshot := presenters[p].childListeners;
      var pending := snapshot;
      out := Normal;
      GrowsRefl(presenters);
      StaysRefl(presenters, {});
      assert StateOk(p, presenters[p], presenters.Keys, slots.listeners, events.listeners);
      while pending != multiset{}
        invariant Valid() && OnlyGrows() && StaysDetached(old(presenters), presenters, {})
        invariant presenters[p].childListeners <= pending
        invariant forall c :: c in pending ==> c in configs
        invariant forall c :: c in snapshot && c !in pending ==>
                    ChildListenerInvoked(p, c) in trace[|old(trace)|..]
        decreases |pending|
      {
        var c :| c in pending;
        ghost var m1 := presenters;
        ghost var t0 := trace;
        GrowsPotential(old(presenters), m1);
        out := InvokeChildListener(p, c);
        StaysTrans(old(presenters), m1, presenters, {}, {}, {});
        GrowsTrans(old(presenters), m1, presenters);
        PrefixOfAppend(t0, [ChildListenerInvoked(p, c)]);
        PrefixTrans(t0, t0 + [ChildListenerInvoked(p, c)], trace);
        PrefixTrans(old(trace), t0, trace);
        forall d | d in snapshot && d !in pending
          ensures ChildListenerInvoked(p, d) in trace[|old(trace)|..]
        {
          StillInSuffix(t0, trace, |old(trace)|, ChildListenerInvoked(p, d));
        }
        AppendedInSuffix(t0, ChildListenerInvoked(p, c), trace, |old(trace)|);
        if out.Throws? {
          return;
        }
        RemoveOneMono(presenters[p].childListeners, m1[p].childListeners, pending, c);
        ghost var before := pending;
        pending := pending - multiset{c};
        forall d | d in snapshot && d !in pending
          ensures ChildListenerInvoked(p, d) in trace[|old(trace)|..]
        {
          if d in before {
            RemoveOneOnly(before, c, d);
          }
        }
      }
    }

    /** What one deferred activation of child `c` in `p`'s `onReady` does:
        the invocation is recorded, then `Presenter.doActivate` of `c` runs
        through its gates and, unless it throws, the entry is removed. An
        entry for a child that is already active, such as a repeated entry
        once the first has activated it, only removes itself. */
    twostate predicate ChildInvoked(p: PresenterId, c: PresenterId, out: Outcome)
      requires p in configs && c in configs && old(p in presenters && c in presenters)
      reads this, slots, events, security
    {
      var gate := ActivationGate(old(presenters[c].active), configs[c].enabled,
                                 Authorization(configs[c], old(security.user)));
      var dropped := old(presenters)[p := old(presenters[p]).(childListeners :=
                                                                old(presenters[p].childListeners) - multiset{c})];
      var invoked := old(trace) + [ChildListenerInvoked(p, c)];
      (gate == Skip ==>
         out == Normal && presenters == dropped && trace == invoked && unchanged(slots, events, security)) &&
      (gate.Fail? ==>
         out == Throws(gate.error) && presenters == old(presenters) && trace == invoked &&
         unchanged(slots, events, security)) &&
      (gate == Deny ==>
         out == Normal && presenters == dropped && trace == invoked && unchanged(slots, events) &&
         security.handlerRuns == old(security.handlerRuns) + [old(security.handler)]) &&
      (gate == Proceed ==>
         c in presenters && presenters[c].active && c in slots.listeners && c in events.listeners &&
         presenters[c].view.attachable == Some(c) && invoked + [OnActivated(c)] <= trace)
    }

    /** One deferred activation of `onReady`: `listener.invoke()`, which is
        the child's `Presenter.doActivate`, then `childListeners.remove(listener)`. */
    method InvokeChildListener(p: PresenterId, c: PresenterId) returns (out: Outcome)
      requires Valid() && p in presenters && c in presenters
      modifies this, slots, events, security
      decreases PotentialOf(presenters) + 1, 0
      ensures Valid() && OnlyGrows() && StaysDetached(old(presenters), presenters, {})
      ensures ChildInvoked(p, c, out)
      ensures old(trace) + [ChildListenerInvoked(p, c)] <= trace
      ensures out == Normal ==>
                presenters[p].childListeners <= old(presenters[p].childListeners) - multiset{c}
    {
      trace := trace + [ChildListenerInvoked(p, c)];
      ghost var t1 := trace;
      PrefixOfAppend(old(trace), [ChildListenerInvoked(p, c)]);
      out := DoActivate(c);
      PrefixTrans(old(trace), t1, trace);
      if out.Throws? {
        return;
      }
      ghost var m1 := presenters;
      DropChildEntry(p, c);
      GrowsTrans(old(presenters), m1, presenters);
      StaysTrans(old(presenters), m1, presenters, {}, {}, {});
      RemoveOneMono(presenters[p].childListeners, m1[p].childListeners,
                    old(presenters[p].childListeners), c);
    }

    /** `childListeners.remove(listener)`: one entry for child `c` goes. */
    method DropChildEntry(p: PresenterId, c: PresenterId)
      requires Valid() && p in presenters
      modifies this
      ensures Valid() && Grows(old(presenters), presenters) && StaysDetached(old(presenters), presenters, {})
      ensures presenters == old(presenters)[p := old(presenters[p]).(childListeners :=
                                                                     old(presenters[p].childListeners) - multiset{c})]
      ensures trace == old(trace)
    {
      var s' := presenters[p].(childListeners := presenters[p].childListeners - multiset{c});
      assert StateOk(p, presenters[p], presenters.Keys, slots.listeners, events.listeners);
      UpdateKeepsOk(presenters, p, s', slots.listeners, events.listeners, slots.listeners, events.listeners);
      UpdateGrows(presenters, p, s');
      StaysRefl(presenters, {});
      StaysUpdate(presenters, presenters, p, s', {});
      presenters := presenters[p := s'];
    }

    /** `onSlotRegistered(key)`: a presenter waiting for exactly this key
        tries to reveal itself. */
    method OnSlotRegistered(q: PresenterId, key: string) returns (out: Outcome)
      requires Valid() && q in presenters
      modifies this, slots, events, security
      decreases PotentialOf(presenters) + 1, 6
      ensures Valid() && OnlyGrows() && StaysDetached(old(presenters), presenters, {q})
      ensures configs[q].slotKey != Some(key) ==>
                out == Normal && presenters == old(presenters) && trace == old(trace) &&
                unchanged(slots, events, security)
      ensures (configs[q].slotKey == Some(key) && configs[q].autoReveal &&
               !old(presenters[q].view.attached)) ==> RevealedAsPresenter(q, out)
    {
      if configs[q].slotKey == Some(key) {
        out := TryReveal(q);
      } else {
        GrowsRefl(presenters);
        out := Normal;
      }
    }

    /** `registerSlot(slot)`: registers the slot, then walks the slot
        listeners (in hash-set order) with the set's iterator, telling each
        that the key is available, and keeps the registration record when
        the walk ends normally. The iterator checks the set's modification
        count before handing out each further listener: a callback that adds
        or removes a listener ends the walk there with
        `ConcurrentModificationException`, unless it was the last callback,
        whose change goes unnoticed. A waiting presenter is revealed in the
        no-content slot; any other slot kind makes its reveal throw.
        `told` is how many listeners were reached, `counts` the modification
        count after each callback that returned normally. */
    method RegisterSlot(p: PresenterId, s: Slot)
      returns (out: Outcome, notified: seq<ListenerId>, told: nat, ghost counts: seq<nat>)
      requires Valid() && p in presenters
      modifies this, slots, events, security
      ensures Valid() && presenters.Keys == old(presenters.Keys)
      ensures slots.stacks == Push(old(slots.State()), s).stacks
      ensures IsEnumeration(notified, old(slots.listeners))
      ensures told <= |notified| && |counts| <= told && (out == Normal ==> told == |counts| == |notified|)
      ensures |counts| == |notified| ==> out == Normal
      ensures out == Normal ==>
                presenters[p].registeredSlots == old(presenters[p].registeredSlots) + [UnregisterSlot(s)]
      ensures out.Throws? ==> presenters[p].registeredSlots == old(presenters[p].registeredSlots)
      ensures forall j :: 0 <= j < |counts| && j + 1 < told ==> counts[j] == old(slots.modCount)
      ensures |counts| == told < |notified| ==>
                0 < told && counts[told - 1] != old(slots.modCount) &&
                out == Throws(ConcurrentModificationException)
      ensures forall j :: told <= j < |notified| ==> StillDetached(old(presenters), presenters, notified[j])
      ensures forall j :: 0 <= j < |counts| && WaitsFor(notified[j], s.Key()) ==>
                SawSlot(old(presenters), presenters, notified[j], s)
      ensures s == NoContentSlot && out == Normal ==>
                forall q :: q in old(slots.listeners) && WaitsFor(q, s.Key()) ==> presenters[q].view.attached
      ensures s != NoContentSlot &&
              (exists q :: q in old(slots.listeners) && WaitsFor(q, s.Key()) && !old(presenters[q].view.attached)) ==>
                out.Throws?
    {
      notified := slots.Register(s);
      out, told, counts := NotifyAll(notified, s, old(slots.State()));
      if out.Throws? {
        return;
      }
      ghost var m := presenters;
      if s == NoContentSlot {
        forall q | q in old(slots.listeners) && WaitsFor(q, s.Key())
          ensures m[q].view.attached
        {
          var j :| 0 <= j < |notified| && notified[j] == q;
          assert SawSlot(old(presenters), m, notified[j], s);
        }
      }
      KeepSlotRecord(p, s);
    }

    /** The `registeredSlots.add(...)` of `registerSlot`: the record is kept
        and nothing else about any presenter changes. */
    method KeepSlotRecord(p: PresenterId, s: Slot)
      requires Valid() && p in presenters
      modifies this
      ensures Valid() && presenters.Keys == old(presenters.Keys) && trace == old(trace)
      ensures presenters ==
              old(presenters)[p := old(presenters[p]).(registeredSlots := old(presenters[p].registeredSlots) + [UnregisterSlot(s)])]
      ensures forall q :: q in presenters ==> presenters[q].view == old(presenters[q].view)
    {
      var st := presenters[p].(registeredSlots := presenters[p].registeredSlots + [UnregisterSlot(s)]);
      assert StateOk(p, presenters[p], presenters.Keys, slots.listeners, events.listeners);
      UpdateKeepsOk(presenters, p, st, slots.listeners, events.listeners, slots.listeners, events.listeners);
      presenters := presenters[p := st];
    }

    /** A presenter that reveals itself once a slot with `key` is registered. */
    predicate WaitsFor(q: PresenterId, key: string) {
      q in configs && configs[q].slotKey == Some(key) && configs[q].autoReveal
    }

    /** The iterator walk of `registerSlot` over the listeners, in the order
        given: it stops at the first callback that throws, and after a
        callback that changed the listener set it throws
        `ConcurrentModificationException` instead of moving on to the next
        listener. */
    method NotifyAll(notified: seq<ListenerId>, s: Slot, ghost before: Registry)
      returns (out: Outcome, told: nat, ghost counts: seq<nat>)
      requires Valid() && Distinct(notified) && Elements(notified) <= presenters.Keys
      requires forall q :: q in notified ==> presenters[q].active
      requires slots.stacks == Push(before, s).stacks
      modifies this, slots, events, security
      ensures Valid() && OnlyGrows()
      ensures told <= |notified| && |counts| <= told && (0 < |notified| ==> 0 < told)
      ensures out == Normal ==> told == |counts| == |notified|
      ensures |counts| == |notified| ==> out == Normal
      ensures |counts| < told ==> out.Throws? && |counts| == told - 1
      ensures forall j :: 0 <= j < |counts| && j + 1 < told ==> counts[j] == old(slots.modCount)
      ensures |counts| == told < |notified| ==>
                counts[told - 1] != old(slots.modCount) && out == Throws(ConcurrentModificationException)
      ensures forall j :: told <= j < |notified| ==> StillDetached(old(presenters), presenters, notified[j])
      ensures forall j :: 0 <= j < |counts| && WaitsFor(notified[j], s.Key()) ==>
                SawSlot(old(presenters), presenters, notified[j], s)
      ensures s != NoContentSlot &&
              (exists q :: q in notified && WaitsFor(q, s.Key()) && !old(presenters[q].view.attached)) ==>
                out.Throws?
    {
      GrowsRefl(presenters);
      ghost var m0 := presenters;
      ghost var waiting := set q | q in Elements(notified) && WaitsFor(q, s.Key());
      var mods := slots.modCount;
      var i := 0;
      out, told, counts := Normal, 0, [];
      while i < |notified|
        invariant 0 <= i <= |notified| && out == Normal && told == i == |counts|
        invariant Valid() && Grows(m0, presenters) && old(trace) <= trace
        invariant slots.stacks == old(slots.stacks) && security.user == old(security.user)
        invariant CountsKept(counts, mods, |notified|)
        invariant Unreached(m0, presenters, notified, i) && Told(m0, presenters, notified, i, s, waiting)
      {
        ghost var t1 := trace;
        out := NotifyNext(notified, i, s, before, m0, waiting);
        PrefixTrans(old(trace), t1, trace);
        told := i + 1;
        if out.Throws? {
          break;
        }
        KeptStep(counts, mods, |notified|, slots.modCount);
        counts := counts + [slots.modCount];
        i := i + 1;
        if i < |notified| && slots.modCount != mods {
          out := Throws(ConcurrentModificationException);
          break;
        }
      }
      assert Unreached(m0, presenters, notified, told) && CountsKept(counts, mods, told);
      ToldWaiting(m0, presenters, notified, |counts|, s, waiting);
    }

    /** One step of the walk: the listener at position `i` is told. */
    method NotifyNext(notified: seq<ListenerId>, i: nat, s: Slot, ghost before: Registry,
                      ghost m0: map<PresenterId, PresenterState>, ghost waiting: set<PresenterId>)
      returns (out: Outcome)
      requires Valid() && Distinct(notified) && i < |notified|
      requires notified[i] in m0 && m0[notified[i]].active
      requires forall q :: q in waiting ==> WaitsFor(q, s.Key())
      requires Grows(m0, presenters) && slots.stacks == Push(before, s).stacks
      requires Unreached(m0, presenters, notified, i) && Told(m0, presenters, notified, i, s, waiting)
      modifies this, slots, events, security
      ensures Valid() && OnlyGrows() && Grows(m0, presenters)
      ensures Unreached(m0, presenters, notified, i + 1) && Told(m0, presenters, notified, i, s, waiting)
      ensures out == Normal ==> Told(m0, presenters, notified, i + 1, s, waiting)
    {
      var q := notified[i];
      assert q !in InactiveOf(m0);
      ghost var m1 := presenters;
      out := NotifyListener(q, s, before);
      GrowsTrans(m0, m1, presenters);
      WalkStep(m0, m1, presenters, notified, i, s, waiting);
    }

    /** The walk's record of told listeners, read back through `WaitsFor`. */
    lemma ToldWaiting(m0: map<PresenterId, PresenterState>, m1: map<PresenterId, PresenterState>,
                      order: seq<ListenerId>, k: nat, s: Slot, waiting: set<PresenterId>)
      requires Told(m0, m1, order, k, s, waiting)
      requires forall q :: q in order && WaitsFor(q, s.Key()) ==> q in waiting
      ensures forall j :: 0 <= j < k && WaitsFor(order[j], s.Key()) ==> SawSlot(m0, m1, order[j], s)
      ensures k == |order| ==> forall q :: q in order && WaitsFor(q, s.Key()) ==> SawSlot(m0, m1, q, s)
    {
      forall j | 0 <= j < k && WaitsFor(order[j], s.Key())
        ensures SawSlot(m0, m1, order[j], s)
      {
        assert order[j] in order;
      }
      if k == |order| {
        forall q | q in order && WaitsFor(q, s.Key())
          ensures SawSlot(m0, m1, q, s)
        {
          var j :| 0 <= j < |order| && order[j] == q;
        }
      }
    }

    /** One `listener.onSlotRegistered(key)` of `registerSlot`, made right
        after slot `s` was pushed onto the registry `before`. */
    method NotifyListener(q: PresenterId, s: Slot, ghost before: Registry) returns (out: Outcome)
      requires Valid() && q in presenters && presenters[q].active
      requires slots.stacks == Push(before, s).stacks
      modifies this, slots, events, security
      ensures Valid() && OnlyGrows() && StaysDetached(old(presenters), presenters, {q})
      ensures WaitsFor(q, s.Key()) && !old(presenters[q].view.attached) && s != NoContentSlot ==> out.Throws?
      ensures WaitsFor(q, s.Key()) && s == NoContentSlot && out == Normal ==> presenters[q].view.attached
    {
      PlanAfterPush(before, slots.State(), s);
      assert old(presenters[q].view.attached) ==> q !in UnattachedOf(old(presenters));
      out := OnSlotRegistered(q, s.Key());
    }

    /** `deactivate()`. With the view attached it asks the slot to remove
        the view (a missing key throws, a missing slot does nothing); the
        view's detach callback then finishes the job. Otherwise it releases
        the event and slot subscriptions (a presenter never activated has
        none and dereferences null), removes the navigation interceptor,
        becomes inactive and runs `onDeactivated`. The removal follows the
        corrected flag-first order of `detach()` (see `DetachView`): as
        written, an active presenter attached in the no-content slot never
        returns from here. */
    method Deactivate(p: PresenterId) returns (out: Outcome)
      requires Valid() && p in presenters
      modifies this, slots, events
      decreases |AttachedOf(presenters)|, 2
      ensures Valid() && presenters.Keys == old(presenters.Keys) && slots.stacks == old(slots.stacks)
      ensures !old(presenters[p].view.attached) && old(presenters[p].eventsRecord).None? ==>
                out == Throws(NullPointerException) && presenters == old(presenters) &&
                trace == old(trace) && unchanged(slots, events)
      ensures !old(presenters[p].view.attached) && old(presenters[p].eventsRecord).Some? ==>
                out == Normal && presenters == old(presenters)[p := TornDown(old(presenters[p]))] &&
                slots.listeners == old(slots.listeners) - {p} &&
                events.listeners == old(events.listeners) - {p} &&
                trace == old(trace) + [OnDeactivated(p)]
      ensures old(presenters[p].view.attached) &&
              PlanReveal(configs[p].slotKey, old(slots.State())) == NoSlotKey ==>
                out == Throws(SlotNotDefinedException) && presenters == old(presenters) &&
                trace == old(trace) && unchanged(slots, events)
      ensures old(presenters[p].view.attached) &&
              PlanReveal(configs[p].slotKey, old(slots.State())) == SlotMissing ==>
                out == Normal && presenters == old(presenters) &&
                trace == old(trace) && unchanged(slots, events)
      ensures old(presenters[p].view.attached) &&
              PlanReveal(configs[p].slotKey, old(slots.State())).RevealWith? &&
              PlanReveal(configs[p].slotKey, old(slots.State())).slot != NoContentSlot ==>
                out == Throws(IllegalArgumentException) && presenters == old(presenters) &&
                trace == old(trace) && unchanged(slots, events)
      ensures old(presenters[p].view.attached) &&
              PlanReveal(configs[p].slotKey, old(slots.State())) == RevealWith(NoContentSlot) ==>
                out == Normal && !presenters[p].view.attached && !presenters[p].active &&
                p !in slots.listeners && p !in events.listeners &&
                trace == old(trace) + [Hook.OnRemoved(p)] +
                         (if old(presenters[p].active) then [OnDeactivated(p)] else [])
    {
      if presenters[p].view.attached {
        var key := configs[p].slotKey;
        if IsBlank(key) {
          return Throws(SlotNotDefinedException);
        }
        var slot := slots.FindSlot(key);
        if slot.None? {
          return Normal;
        }
        if RemoveFrom(slot.value, NoContentViewable) == Rejected {
          return Throws(IllegalArgumentException);
        }
        OnlyNoContentSlotTakesNoContentView(slot.value);
        out := DetachView(p);
      } else {
        assert StateOk(p, presenters[p], presenters.Keys, slots.listeners, events.listeners);
        if presenters[p].eventsRecord.None? {
          return Throws(NullPointerException);
        }
        events.Release(presenters[p].eventsRecord.value);
        var r := slots.Release(presenters[p].slotRecord.value);
        var s' := TornDown(presenters[p]);
        UpdateKeepsOk(presenters, p, s', old(slots.listeners), old(events.listeners), slots.listeners, events.listeners);
        presenters := presenters[p := s'];
        trace := trace + [OnDeactivated(p)];
        out := Normal;
      }
    }

    /** `detach()` of the presenter's no-content view (also what the
        no-content slot's `remove` does), in the corrected order: a bound
        view is marked detached and then calls back `onDetached`, attached
        or not. As written, `detach()` calls back first and clears the flag
        after, which `NoContent.AsWrittenTeardownNeverCompletes` shows never
        finishes for an active presenter. */
    method DetachView(p: PresenterId) returns (out: Outcome)
      requires Valid() && p in presenters
      modifies this, slots, events
      decreases |AttachedOf(presenters)| + (if presenters[p].view.attached then 0 else 1), 1
      ensures Valid() && presenters.Keys == old(presenters.Keys) && slots.stacks == old(slots.stacks)
      ensures old(presenters[p].view.attachable).None? ==>
                out == Normal && presenters == old(presenters) &&
                trace == old(trace) && unchanged(slots, events)
      ensures old(presenters[p].view.attachable).Some? ==>
                out == Normal && !presenters[p].view.attached && !presenters[p].active &&
                p !in slots.listeners && p !in events.listeners &&
                trace == old(trace) + [Hook.OnRemoved(p)] +
                         (if old(presenters[p].active) then [OnDeactivated(p)] else [])
    {
      var bound := MarkDetached(p);
      if !bound {
        return Normal;
      }
      out := OnDetached(p);
    }

    /** The first half of `detach()` in the corrected order: a bound view is
        marked detached before its callback runs; the result says whether the
        view is bound, so that `onDetached` follows. */
    method MarkDetached(p: PresenterId) returns (bound: bool)
      requires Valid() && p in presenters
      modifies this
      ensures Valid() && trace == old(trace)
      ensures bound <==> old(presenters[p].view.attachable).Some?
      ensures !bound ==> presenters == old(presenters)
      ensures bound ==> presenters == old(presenters)[p := old(presenters[p]).(view := Removed(old(presenters[p].view)).0)]
      ensures bound ==> |AttachedOf(presenters)| + 1 <= |AttachedOf(old(presenters))| + (if old(presenters[p].view.attached) then 0 else 1)
    {
      var (v, callback) := Removed(presenters[p].view);
      if callback.None? {
        return false;
      }
      var s' := presenters[p].(view := v);
      assert StateOk(p, presenters[p], presenters.Keys, slots.listeners, events.listeners);
      UpdateKeepsOk(presenters, p, s', slots.listeners, events.listeners, slots.listeners, events.listeners);
      DetachLowersAttached(presenters, p, s');
      presenters := presenters[p := s'];
      bound := true;
    }

    /** `onDetached()`: `onRemoved`, then `deactivate` if still active. */
    method OnDetached(p: PresenterId) returns (out: Outcome)
      requires Valid() && p in presenters && !presenters[p].view.attached
      modifies this, slots, events
      decreases |AttachedOf(presenters)| + 1, 0
      ensures Valid() && presenters.Keys == old(presenters.Keys) && slots.stacks == old(slots.stacks)
      ensures out == Normal
      ensures old(presenters[p].active) ==>
                presenters == old(presenters)[p := TornDown(old(presenters[p]))] &&
                slots.listeners == old(slots.listeners) - {p} &&
                events.listeners == old(events.listeners) - {p} &&
                trace == old(trace) + [Hook.OnRemoved(p), OnDeactivated(p)]
      ensures !old(presenters[p].active) ==>
                presenters == old(presenters) && unchanged(slots, events) &&
                trace == old(trace) + [Hook.OnRemoved(p)]
      ensures !presenters[p].active && !presenters[p].view.attached
      ensures p !in slots.listeners && p !in events.listeners
      ensures trace == old(trace) + [Hook.OnRemoved(p)] + (if old(presenters[p].active) then [OnDeactivated(p)] else [])
    {
      trace := trace + [Hook.OnRemoved(p)];
      assert StateOk(p, presenters[p], presenters.Keys, slots.listeners, events.listeners);
      if presenters[p].active {
        out := Deactivate(p);
      } else {
        out := Normal;
      }
    }
  }
}
