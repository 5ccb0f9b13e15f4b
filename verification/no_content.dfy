/** The view that renders nothing (`impl/NoContentView`) and the slot that
    hosts it (`impl/NoContentSlot`). A no-content view has two pieces of
    state: whether it is attached, and the presenter callback
    (`AttachableAware`) it reports attach and detach to. */
module NoContent {
  import opened Base
  import opened Slots

  /** A presenter, known by its identity. */
  type PresenterId = nat

  /** `attached` and `attachable` of a no-content view; the attachable is the
      presenter whose `onAttached` / `onDetached` the view calls. */
  datatype ViewState = ViewState(attached: bool, attachable: Option<PresenterId>)

  /** A new view: not attached and bound to nobody. */
  function NewView(): (v: ViewState)
    ensures !v.attached && v.attachable.None?
  {
    ViewState(false, None)
  }

  /** `getAttachableBinder().initAttachable(p)`: rebinds to the latest presenter. */
  function Rebound(v: ViewState, p: PresenterId): ViewState {
    v.(attachable := Some(p))
  }

  /** `onReveal()`: the presenter whose `onAttach` runs, and the state once
      that callback has returned normally. The source sets the flag after
      the callback, so a callback that throws leaves it unset; the runtime
      (`Lifecycle.Runtime.RevealView`) keeps that order. */
  function Revealed(v: ViewState): (ViewState, Option<PresenterId>) {
    if v.attachable.None? then (v, None) else (v.(attached := true), v.attachable)
  }

  /** `onRemove()` (and `detach()`): the new state and the presenter whose
      `onDetach` runs; the flag is cleared before the callback runs. */
  function Removed(v: ViewState): (ViewState, Option<PresenterId>) {
    if v.attachable.None? then (v, None) else (v.(attached := false), v.attachable)
  }

  /** Before a binder is initialised, reveal and remove change nothing and
      call nobody. */
  lemma UnboundViewIsInert(v: ViewState)
    requires v.attachable.None?
    ensures Revealed(v) == (v, None) && Removed(v) == (v, None)
  {
  }

  /** Once bound to `p`, a reveal attaches the view and reports to `p`, a
      remove detaches it and reports to `p`, and a reveal/remove cycle ends
      where a new bound view starts. */
  lemma BoundViewCycle(v: ViewState, p: PresenterId)
    ensures Revealed(Rebound(v, p)).0.attached && Revealed(Rebound(v, p)).1 == Some(p)
    ensures !Removed(Rebound(v, p)).0.attached && Removed(Rebound(v, p)).1 == Some(p)
    ensures Removed(Revealed(Rebound(v, p)).0).0 == Rebound(NewView(), p)
    ensures Revealed(Removed(Revealed(Rebound(v, p)).0).0) == Revealed(Rebound(v, p))
  {
  }

  /** Rebinding keeps the attached flag and only the latest binding counts. */
  lemma ReboundLatestWins(v: ViewState, p: PresenterId, q: PresenterId)
    ensures Rebound(Rebound(v, p), q) == Rebound(v, q)
    ensures Rebound(v, p).attached == v.attached
  {
  }

  class NoContentView {
    var attached: bool
    var attachable: Option<PresenterId>

    function State(): ViewState
      reads this
    {
      ViewState(attached, attachable)
    }

    constructor ()
      ensures State() == NewView()
    {
      attached := false;
      attachable := None;
    }

    /** `isAttached()` */
    function IsAttached(): (b: bool)
      reads this
      ensures b == State().attached
    {
      attached
    }

    /** `getId()` is always the empty string. */
    function GetId(): (id: string)
      ensures id == []
    {
      ""
    }

    /** The binder's `initAttachable(p)`. */
    method InitAttachable(p: PresenterId)
      modifies this
      ensures State() == Rebound(old(State()), p)
    {
      attachable := Some(p);
    }

    /** `onReveal()`: returns the presenter whose `onAttach` the caller runs
        next, and takes on the state that follows a callback that returned. */
    method OnReveal() returns (callback: Option<PresenterId>)
      modifies this
      ensures (State(), callback) == Revealed(old(State()))
    {
      callback := attachable;
      if attachable.Some? {
        attached := true;
      }
    }

    /** `onRemove()`: returns the presenter whose `onDetach` the caller runs next. */
    method OnRemove() returns (callback: Option<PresenterId>)
      modifies this
      ensures (State(), callback) == Removed(old(State()))
    {
      callback := attachable;
      if attachable.Some? {
        attached := false;
      }
    }

    /** `detach()` is exactly `onRemove()`. */
    method Detach() returns (callback: Option<PresenterId>)
      modifies this
      ensures (State(), callback) == Removed(old(State()))
    {
      callback := OnRemove();
    }
  }

  // ---------------------------------------------------------------------
  // Slots meeting views

  /** What a view handed to a slot is: absent (null), a no-content view, an
      element view or a popup view. */
  datatype ViewKind = NullView | NoContentViewable | ElementView | PopupView

  /** What `slot.reveal(view)` or `slot.remove(view)` does. */
  datatype SlotAction =
    | NoAction          // null view
    | CallOnReveal      // the view's `onReveal()`
    | CallOnRemove      // the view's `onRemove()`
    | DomOperation      // DOM work of an element or popup slot
    | Rejected          // IllegalArgumentException: wrong kind of view

  /** The view kind a slot accepts. */
  function Accepts(slot: Slot): (kind: ViewKind)
    ensures kind != NullView
  {
    match slot
    case NoContentSlot => NoContentViewable
    case PopupSlot => PopupView
    case BodySlot => ElementView
    case ElementSlot(_, _) => ElementView
  }

  /** `slot.reveal(view)` */
  function RevealInto(slot: Slot, view: ViewKind): SlotAction {
    if view == NullView then NoAction
    else if view != Accepts(slot) then Rejected
    else if slot == NoContentSlot then CallOnReveal
    else DomOperation
  }

  /** `slot.remove(view)` */
  function RemoveFrom(slot: Slot, view: ViewKind): SlotAction {
    if view == NullView then NoAction
    else if view != Accepts(slot) then Rejected
    else if slot == NoContentSlot then CallOnRemove
    else DomOperation
  }

  /** The no-content slot: key "brix-no-content-slot"; a null view is
      ignored, a no-content view is revealed/removed through its own
      callbacks, and every other view is rejected. */
  lemma NoContentSlotBehaviour(view: ViewKind)
    ensures NoContentSlot.Key() == "brix-no-content-slot"
    ensures RevealInto(NoContentSlot, view) == NoAction <==> view == NullView
    ensures RemoveFrom(NoContentSlot, view) == NoAction <==> view == NullView
    ensures RevealInto(NoContentSlot, view) == CallOnReveal <==> view == NoContentViewable
    ensures RemoveFrom(NoContentSlot, view) == CallOnRemove <==> view == NoContentViewable
    ensures view != NullView && view != NoContentViewable ==>
              RevealInto(NoContentSlot, view) == Rejected && RemoveFrom(NoContentSlot, view) == Rejected
  {
  }

  /** A no-content view can only be shown through the no-content slot: every
      other slot rejects it, for reveal and for remove alike. */
  lemma OnlyNoContentSlotTakesNoContentView(slot: Slot)
    ensures RevealInto(slot, NoContentViewable) != Rejected <==> slot == NoContentSlot
    ensures RemoveFrom(slot, NoContentViewable) != Rejected <==> slot == NoContentSlot
    ensures slot != NoContentSlot ==> RevealInto(slot, NoContentViewable) == Rejected
  {
  }

  // ---------------------------------------------------------------------
  // The teardown of an attached no-content view

  /** The order in which `onRemove` updates the flag and runs the callback. */
  datatype RemoveOrder = CallbackThenFlag | FlagThenCallback

  /** How a call of `Presenter.deactivate` ends. */
  datatype Teardown = Completed(active: bool, attached: bool) | StackOverflow

  /** `Presenter.deactivate()` for a presenter whose no-content view is bound
      to it and sits in the no-content slot, with `depth` stack frames left.
      When attached it removes the view through the slot, whose `onRemove`
      calls `onDetach`, that is the presenter's `onDetached`, which
      deactivates again while the presenter is active; when detached it
      tears down and clears `active`. */
  function DeactivateNested(order: RemoveOrder, active: bool, attached: bool, depth: nat): Teardown
    decreases depth, 0
  {
    if depth == 0 then StackOverflow
    else if attached then
      match order
      case FlagThenCallback => DetachedNested(order, active, false, depth - 1)
      case CallbackThenFlag =>
        match DetachedNested(order, active, true, depth - 1)
        case StackOverflow => StackOverflow
        case Completed(a, _) => Completed(a, false)
    else Completed(false, attached)
  }

  /** `Presenter.onDetached()` as called back from the view: `onRemoved`,
      then `deactivate` if still active. */
  function DetachedNested(order: RemoveOrder, active: bool, attached: bool, depth: nat): Teardown
    decreases depth, 1
  {
    if active then DeactivateNested(order, active, attached, depth) else Completed(active, attached)
  }

  /** As written (`attachable.onDetach()` before `attached = false`), the
      view still reports itself attached when the presenter deactivates from
      inside the callback, so deactivation re-enters itself until the stack
      runs out, however deep the stack is. */
  lemma {:induction false} AsWrittenTeardownNeverCompletes(depth: nat)
    ensures DeactivateNested(CallbackThenFlag, true, true, depth) == StackOverflow
  {
    if depth > 0 {
      AsWrittenTeardownNeverCompletes(depth - 1);
    }
  }

  /** With the flag cleared before the callback, deactivating an active,
      attached presenter completes in two steps: the view is removed, and
      the re-entrant call finds it detached and deactivates. */
  lemma CorrectedTeardownCompletes(depth: nat)
    requires depth >= 2
    ensures DeactivateNested(FlagThenCallback, true, true, depth) == Completed(false, false)
  {
    assert DeactivateNested(FlagThenCallback, true, false, depth - 1) == Completed(false, false);
  }

  /** The two orders agree whenever the presenter is no longer active when
      the view is removed: then no re-entrant deactivation happens. */
  lemma OrdersAgreeWhenInactive(depth: nat)
    requires depth >= 1
    ensures DeactivateNested(CallbackThenFlag, false, true, depth)
         == DeactivateNested(FlagThenCallback, false, true, depth)
         == Completed(false, false)
  {
  }

  /** The corrected `Removed` is the `FlagThenCallback` order: the callback
      sees the view detached. */
  lemma RemovedClearsFlagFirst(v: ViewState, p: PresenterId)
    requires v.attached && v.attachable == Some(p)
    ensures Removed(v) == (v.(attached := false), Some(p))
  {
  }
}
