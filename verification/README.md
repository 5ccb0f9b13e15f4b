# domino-brix runtime and processor rules in Dafny

This project models the core of domino-brix, a presenter framework for GWT/J2CL client
applications, together with the pure decision rules of its annotation processor.

**Client runtime.** The model covers:

- the slot registry: a stack of slots per key, plus slot listeners;
- the presenter lifecycle: activation gates, reveal through a slot, attach and detach
  callbacks from a no-content view, deferred child activation, and the two-step teardown;
- route-filter composition for plain and child routing providers;
- the startup-task scheduler: tasks grouped by order, groups chained, and a completion handler
  that waits for every group;
- smaller stateful pieces: `LazyInitializer`, `ConfigImpl`, `SecurityContext` with
  `RolesAllowedAuthorizer`, the `BrixEvents` bus, `HasContext`, and the no-content view and slot.

**Processor.** The model covers:

- the first-letter helpers and superclass-chain searches of `SourceUtil`;
- the slot naming functions of `DominoBrixProcessorStep`;
- the rules that decide which overriding methods the processor generates for a presenter.

Objects whose fields the Java code updates in place are Dafny classes. Examples are
`Slots.BrixSlots`, `Lifecycle.Runtime`, `LazyInit.LazyInitializer`, `Tasks.StartupRun`,
`Events.BrixEvents` and `NoContent.NoContentView`. Each of their methods is proved against a
function on values, or against a state invariant that the other lemmas reason about.

How Java constructs are represented:

- A Java `null` or `Optional` is `Option`.
- A thrown exception is an `Outcome` or `Result` value.
- Iteration over a `HashSet` is `Base.Enumerate`, which fixes no order: it only guarantees
  that every element appears exactly once.
- Callbacks are identities. The model records *that* they run and *when*, in a ghost trace,
  but not what they do.

Files (one module each):

| file | contents |
|---|---|
| `base.dfy` | `Option`, `Outcome`, `Result`, Java exceptions, hash-set enumeration |
| `java_strings.dfy` | `trim`, blankness, ASCII case mapping |
| `slots.dfy` | the slot registry |
| `no_content.dfy` | no-content view and slot; the teardown order |
| `events.dfy` | the event bus |
| `security.dfy` | security context and roles authorizer |
| `lifecycle.dfy` | presenters and the runtime |
| `filters.dfy`, `routing.dfy` | token filters and routing providers |
| `tasks.dfy` | startup tasks |
| `lazy_init.dfy` | `LazyInitializer` |
| `config.dfy` | `ConfigImpl` |
| `context.dfy` | `HasContext` |
| `source_util.dfy` | `SourceUtil` |
| `processor_step.dfy` | naming and emission rules |

## Model

| member | source | states |
|---|---|---|
| Slots.InitialHoldsBuiltins | domino-brix-client/src/main/java/org/dominokit/brix/api/BrixSlots.java:40-51 | A fresh registry holds exactly one slot under each of "brix-body-slot", "brix-popup-slot" and "brix-no-content-slot". Looking up each key finds that slot, and there are no listeners. |
| Slots.FindAfterPush | domino-brix-client/src/main/java/org/dominokit/brix/api/BrixSlots.java:70-76 | After `register(s)`, `findSlot(s.getKey())` is `s` (the last registration wins). Every other key's stack and lookup are unchanged, and so are the listeners. |
| Slots.PopAfterPush | domino-brix-client/src/main/java/org/dominokit/brix/api/BrixSlots.java:88-94 | Unregistering any slot with the same key right after a registration pops exactly the registered slot. Every lookup then answers as before the registration. |
| Slots.RegisterTwiceUnregisterOnce | domino-brix-client/src/main/java/org/dominokit/brix/api/BrixSlots.java:70-94 | register(A); register(B); unRegister(B) leaves `findSlot` answering A. |
| Slots.PopIgnoresArgument | domino-brix-client/src/main/java/org/dominokit/brix/api/BrixSlots.java:90-92 | `unRegister(A)` after register(A); register(B) pops B: it takes the top of the stack, not its argument. |
| Slots.PopErrors | domino-brix-client/src/main/java/org/dominokit/brix/api/BrixSlots.java:90-92 | An unknown key changes nothing. A known key with an empty stack is the `pop` error. Otherwise a slot is popped. |
| Slots.FindNotFound | domino-brix-client/src/main/java/org/dominokit/brix/api/BrixSlots.java:102-107 | `findSlot` answers empty exactly for a null key, an empty key, an unknown key or an emptied stack. Otherwise it answers the top of the stack. |
| Slots.EmptiedStack | domino-brix-client/src/main/java/org/dominokit/brix/api/BrixSlots.java:88-107 | Pushing and popping the only slot of a new key leaves an empty stack. A lookup of that key then finds nothing, and a further unregister is the empty-stack error. |
| Slots.ListenThenRelease | domino-brix-client/src/main/java/org/dominokit/brix/api/BrixSlots.java:59-62 | Once a listener's record has been run, an enumeration of the remaining listeners excludes it, so no later registration notifies it. |
| Slots.Notifications | domino-brix-client/src/main/java/org/dominokit/brix/api/BrixSlots.java:78 | One `onSlotRegistered(key)` notification per listener, in enumeration order. |
| Slots.BrixSlots.constructor | domino-brix-client/src/main/java/org/dominokit/brix/api/BrixSlots.java:47-51 | The registry starts in the built-in state. Only `onRegistered` of the three built-in slots runs, in order, because no listener exists yet. |
| Slots.BrixSlots.Listen | domino-brix-client/src/main/java/org/dominokit/brix/api/BrixSlots.java:59-62 | Adds the listener and leaves the stacks and the log alone. The modification count rises exactly when the listener is new. Returns the record that stops listening. |
| Slots.BrixSlots.Register | domino-brix-client/src/main/java/org/dominokit/brix/api/BrixSlots.java:70-81 | The new state is the push. The log gains `onRegistered`, then exactly one notification per listener present before the call. |
| Slots.BrixSlots.UnRegister | domino-brix-client/src/main/java/org/dominokit/brix/api/BrixSlots.java:88-94 | State and result are the pop. `onRemoved` is logged only for a popped slot, and no listener is told. |
| Slots.BrixSlots.Release | domino-brix-client/src/main/java/org/dominokit/brix/api/BrixSlots.java:59-62 | Running a listen record removes the listener, and the modification count rises exactly when it was present. Running a register record unregisters that slot. |
| Slots.BrixSlots.FindSlot | domino-brix-client/src/main/java/org/dominokit/brix/api/BrixSlots.java:102-107 | Reads the registry exactly as the value-level lookup does, which `FindNotFound` characterises. |
| NoContent.NoContentView.constructor | domino-brix-client/src/main/java/org/dominokit/brix/impl/NoContentView.java:31-32 | A new view object starts detached and unbound. |
| NoContent.NewView | domino-brix-client/src/main/java/org/dominokit/brix/impl/NoContentView.java:31-32 | A new view is detached and bound to nobody. |
| NoContent.UnboundViewIsInert | domino-brix-client/src/main/java/org/dominokit/brix/impl/NoContentView.java:35-48 | Before a binder is initialised, reveal and remove change nothing and call nobody. |
| NoContent.BoundViewCycle | domino-brix-client/src/main/java/org/dominokit/brix/impl/NoContentView.java:35-48 | Once bound to `p`, reveal attaches and reports to `p`, and remove detaches and reports to `p`. A reveal/remove cycle returns to the state of a newly bound view. |
| NoContent.ReboundLatestWins | domino-brix-client/src/main/java/org/dominokit/brix/impl/NoContentView.java:66-73 | Rebinding keeps the attached flag, and only the latest binding counts. |
| NoContent.NoContentView.IsAttached | domino-brix-client/src/main/java/org/dominokit/brix/impl/NoContentView.java:51-53 | Reports the attached flag of the view's state. |
| NoContent.NoContentView.GetId | domino-brix-client/src/main/java/org/dominokit/brix/impl/NoContentView.java:56-58 | The id is the empty string. |
| NoContent.NoContentView.InitAttachable | domino-brix-client/src/main/java/org/dominokit/brix/impl/NoContentView.java:66-73 | Binds the view to the given presenter. |
| NoContent.NoContentView.OnReveal | domino-brix-client/src/main/java/org/dominokit/brix/impl/NoContentView.java:35-40 | Performs `Revealed`: a bound view names the presenter to call back and takes on the attached state that follows a normal return of that callback. |
| NoContent.NoContentView.OnRemove | domino-brix-client/src/main/java/org/dominokit/brix/impl/NoContentView.java:43-48 | Performs the corrected `Removed`: a bound view becomes detached before the presenter is called back. |
| NoContent.NoContentView.Detach | domino-brix-client/src/main/java/org/dominokit/brix/impl/NoContentView.java:61-63 | `detach()` is exactly `onRemove()`. |
| NoContent.Accepts | domino-brix-client/src/main/java/org/dominokit/brix/impl/NoContentSlot.java:37-59 | Every slot accepts one non-null kind of view. |
| NoContent.NoContentSlotBehaviour | domino-brix-client/src/main/java/org/dominokit/brix/impl/NoContentSlot.java:33-59 | The key is "brix-no-content-slot". A null view is ignored, a no-content view is revealed or removed through its own callbacks, and every other view is rejected with IllegalArgumentException. Each of these holds in both directions. |
| NoContent.OnlyNoContentSlotTakesNoContentView | domino-brix-client/src/main/java/org/dominokit/brix/impl/NoContentSlot.java:40-56 | A no-content view is accepted, for reveal and for remove, exactly by the no-content slot. |
| NoContent.AsWrittenTeardownNeverCompletes | domino-brix-client/src/main/java/org/dominokit/brix/impl/NoContentView.java:43-48 | As written, deactivating an active presenter whose bound view is attached overflows the stack, however deep the stack is. |
| NoContent.CorrectedTeardownCompletes | domino-brix-client/src/main/java/org/dominokit/brix/impl/NoContentView.java:43-48 | Clearing the flag before the callback makes the same deactivation complete with the presenter inactive and the view detached. |
| NoContent.OrdersAgreeWhenInactive | domino-brix-client/src/main/java/org/dominokit/brix/api/Presenter.java:130-136 | When the presenter is no longer active, both orders complete the same way, because `onDetached` does not deactivate again. |
| NoContent.RemovedClearsFlagFirst | domino-brix-client/src/main/java/org/dominokit/brix/impl/NoContentView.java:43-48 | The corrected removal clears the flag and reports to the bound presenter. |
| Events.SourceConflictIff | domino-brix-client/src/main/java/org/dominokit/brix/events/BrixEvents.java:63-68 | The source check refuses exactly a present event source together with a different non-null argument. A null argument, a source-less event and the event's own source always pass. |
| Events.EachListenerOnce | domino-brix-client/src/main/java/org/dominokit/brix/events/BrixEvents.java:69 | Firing over the listener set delivers to every registered listener and only to them, each exactly once. |
| Events.Deliveries | domino-brix-client/src/main/java/org/dominokit/brix/events/BrixEvents.java:69 | One delivery per listener, in enumeration order. |
| Events.BrixEvents.constructor | domino-brix-client/src/main/java/org/dominokit/brix/events/BrixEvents.java:26 | A new bus has no listeners and has delivered nothing. |
| Events.BrixEvents.Register | domino-brix-client/src/main/java/org/dominokit/brix/events/BrixEvents.java:34-37 | Adds the listener, so a second registration adds nothing. Returns the record that unregisters it. |
| Events.BrixEvents.Unregister | domino-brix-client/src/main/java/org/dominokit/brix/events/BrixEvents.java:40-42 | Removes the listener, which is a no-op when it is absent. |
| Events.BrixEvents.Release | domino-brix-client/src/main/java/org/dominokit/brix/events/BrixEvents.java:36 | Running the record unregisters its listener. |
| Events.BrixEvents.FireEvent | domino-brix-client/src/main/java/org/dominokit/brix/events/BrixEvents.java:62-70 | A source conflict throws IllegalStateException before anyone is notified. Otherwise the event is delivered once to each registered listener. |
| Events.BrixEvents.FireEventWithoutSource | domino-brix-client/src/main/java/org/dominokit/brix/events/BrixEvents.java:49-51 | `fireEvent(event)` never throws and delivers to every listener. |
| Security.ContainsAllIff | domino-brix-client/src/main/java/org/dominokit/brix/security/SecurityContext.java:75 | `containsAll` over a role list is inclusion of its elements. |
| Security.AnyMatchIff | domino-brix-client/src/main/java/org/dominokit/brix/security/SecurityContext.java:86 | `anyMatch(contains)` over a role list is a non-empty intersection. |
| Security.AuthorizedForIff | domino-brix-client/src/main/java/org/dominokit/brix/security/SecurityContext.java:60-65 | False without a user; otherwise the role is one of the user's. |
| Security.AuthorizedForAllIff | domino-brix-client/src/main/java/org/dominokit/brix/security/SecurityContext.java:71-76 | False without a user or with null roles; otherwise the roles are included in the user's, so an empty collection is accepted. |
| Security.AuthorizedForAnyIff | domino-brix-client/src/main/java/org/dominokit/brix/security/SecurityContext.java:82-87 | False without a user or with null roles; otherwise the intersection is non-empty, so an empty collection is refused. |
| Security.VarargsAgree | domino-brix-client/src/main/java/org/dominokit/brix/security/SecurityContext.java:67-80 | The varargs overloads agree with the collection overloads. |
| Security.RolesAllowedIff | domino-brix-client/src/main/java/org/dominokit/brix/security/RolesAllowedAuthorizer.java:24-26 | A missing user throws NullPointerException, and only a missing user does. Otherwise access is granted exactly for an authenticated user who shares a required role. |
| Security.RolesAllowedDenials | domino-brix-client/src/main/java/org/dominokit/brix/security/RolesAllowedAuthorizer.java:25 | An unauthenticated user is denied, and an empty role set is always denied. |
| Security.RolesAllowedMonotone | domino-brix-client/src/main/java/org/dominokit/brix/security/RolesAllowedAuthorizer.java:25 | More user roles never turn a grant into a denial, and the order of the required roles does not change the decision. |
| Security.SecurityContext.constructor | domino-brix-client/src/main/java/org/dominokit/brix/security/SecurityContext.java:34-41 | A new context has no user and the logging handler, and has run no handler. |
| Security.SecurityContext.GetUser | domino-brix-client/src/main/java/org/dominokit/brix/security/SecurityContext.java:43-45 | Returns the user last set, or empty. |
| Security.SecurityContext.SetUser | domino-brix-client/src/main/java/org/dominokit/brix/security/SecurityContext.java:47-50 | Stores the user and nothing else. |
| Security.SecurityContext.SetUnauthorizedAccessHandler | domino-brix-client/src/main/java/org/dominokit/brix/security/SecurityContext.java:52-54 | Installs the handler and nothing else. |
| Security.SecurityContext.ReportUnAuthorizedAccess | domino-brix-client/src/main/java/org/dominokit/brix/security/SecurityContext.java:56-58 | Runs exactly the handler installed last (the logging default on a fresh context). |
| Filters.Of | domino-brix-client/src/main/java/org/dominokit/brix/api/CompositeFilter.java:24-34 | `of(root, subs...)` fixes root and sub-filters at construction. |
| Filters.AllAcceptIff | domino-brix-client/src/main/java/org/dominokit/brix/api/CompositeFilter.java:38 | `TokenFilter.and(subFilters)` accepts exactly when every sub-filter accepts. |
| Filters.CompositeAcceptsIff | domino-brix-client/src/main/java/org/dominokit/brix/api/CompositeFilter.java:37-39 | A composite accepts exactly when its root and all its sub-filters accept. |
| Filters.RootRejectsComposite | domino-brix-client/src/main/java/org/dominokit/brix/api/CompositeFilter.java:38 | If the root rejects a token, no choice of sub-filters makes the composite accept it. |
| Filters.NormalizeIgnoresSubFilters | domino-brix-client/src/main/java/org/dominokit/brix/api/CompositeFilter.java:42-44 | Normalisation is the root's; sub-filters never influence it. |
| Routing.DefaultProvider | domino-brix-client/src/main/java/org/dominokit/brix/api/RoutingProvider.java:31-33 | A provider that overrides nothing has the routing path "". |
| Routing.DefaultProviderMatchesAnything | domino-brix-client/src/main/java/org/dominokit/brix/api/RoutingProvider.java:31-65 | The default provider's filter is Any and it is not hash based. |
| Routing.ContainsHashInPath | domino-brix-client/src/main/java/org/dominokit/brix/api/RoutingProvider.java:45-51 | True exactly for a non-null path that contains '#'. |
| Routing.RootHashBasedIff | domino-brix-client/src/main/java/org/dominokit/brix/api/RoutingProvider.java:38-40 | A plain provider is hash based exactly when its path contains '#'. |
| Routing.RootFilter | domino-brix-client/src/main/java/org/dominokit/brix/api/RoutingProvider.java:56-65 | Any exactly for a null or blank path. Otherwise a fragment prefix when the path has a '#', else a path prefix, on the whole path. |
| Routing.GetTokenFilter | domino-brix-client/src/main/java/org/dominokit/brix/api/RoutingProvider.java:70-72 | `getTokenFilter()` is `tokenFilter()`. |
| Routing.BlankHasNoHash | domino-brix-client/src/main/java/org/dominokit/brix/api/RoutingProvider.java:47-58 | A path that is blank after `trim` never contains '#'. |
| Routing.ChildHashBasedIff | domino-brix-client/src/main/java/org/dominokit/brix/api/ChildPresenterRouting.java:31-33 | A child is hash based exactly when its own path has a '#' or its parent is hash based. |
| Routing.BlankChildPassesThrough | domino-brix-client/src/main/java/org/dominokit/brix/api/ChildPresenterRouting.java:36-38 | A blank child path passes the parent's filter through unchanged. |
| Routing.ChildUnderBlankParent | domino-brix-client/src/main/java/org/dominokit/brix/api/ChildPresenterRouting.java:40-44 | Under a parent without a path, the child filters on its own path: a fragment prefix when it is hash based, else a path prefix. |
| Routing.ChildUnderHashParent | domino-brix-client/src/main/java/org/dominokit/brix/api/ChildPresenterRouting.java:46-47 | Under a hash-based parent with a path, the filter is a fragment prefix on parent path + child path. |
| Routing.ChildUnderPathParent | domino-brix-client/src/main/java/org/dominokit/brix/api/ChildPresenterRouting.java:48-54 | Under a path-based parent, a hash child gets Composite(parent filter, fragment prefix on its own path). A path child gets a path prefix on the concatenation. |
| Routing.FlatComposition | domino-brix-client/src/main/java/org/dominokit/brix/api/ChildPresenterRouting.java:35-58 | Composing two non-blank paths gives the filter of their concatenation, except for a path parent with a hash child. That case yields a composite where the flat path yields a fragment prefix. |
| Routing.ChildFilterDeterministic | domino-brix-client/src/main/java/org/dominokit/brix/api/ChildPresenterRouting.java:35-58 | The child filter depends on the parent only through the parent's path, hash flag and filter. |
| Routing.PresenterTokenFilter | domino-brix-client/src/main/java/org/dominokit/brix/api/Presenter.java:94-101 | A presenter's filter is Any exactly for a blank path. Otherwise it is a path prefix on the path, even when the path has a '#'. |
| Lifecycle.DefaultConfig | domino-brix-client/src/main/java/org/dominokit/brix/api/Presenter.java:138-147 | By default: no slot key, enabled, auto revealing, no roles, not a child. |
| Lifecycle.NewPresenter | domino-brix-client/src/main/java/org/dominokit/brix/api/Presenter.java:60-68 | A new presenter is inactive with no records, no children, no parent, and a new view. |
| Lifecycle.QueueChild | domino-brix-client/src/main/java/org/dominokit/brix/api/Presenter.java:333-335 | Registering a child listener adds one more deferred entry for that child and changes no other presenter. |
| Lifecycle.ParentActive | domino-brix-client/src/main/java/org/dominokit/brix/api/ChildPresenter.java:36 | When known, this is exactly the active flag of the child's parent. |
| Lifecycle.TornDown | domino-brix-client/src/main/java/org/dominokit/brix/api/Presenter.java:279-287 | The teardown leaves the presenter inactive with the interceptor removed, and keeps its records, slots, children and view. |
| Lifecycle.ActivationGate | domino-brix-client/src/main/java/org/dominokit/brix/api/Presenter.java:149-163 | Skip exactly when already active or disabled. Fail, with the authorizer's exception, exactly when eligible and the authorizer throws. Deny exactly when eligible but unauthorized. Proceed exactly when eligible and authorized. |
| Lifecycle.RolesAllowedGate | domino-brix-client/src/main/java/org/dominokit/brix/api/Presenter.java:149-151 | Under the roles authorizer, activation proceeds exactly for an inactive, enabled presenter and an authenticated user sharing a role. It never proceeds with no roles. With no user, an eligible presenter's activation throws NullPointerException. |
| Lifecycle.PlanReveal | domino-brix-client/src/main/java/org/dominokit/brix/api/Presenter.java:249-269 | A null or blank key is the SlotNotDefinedException case. Otherwise a missing slot is the waiting case, and a found slot is the registry's answer for the key. |
| Lifecycle.PlanRevealUsesTopOfStack | domino-brix-client/src/main/java/org/dominokit/brix/api/Presenter.java:263-269 | With a key, the reveal target is exactly the top of that key's stack. Without a key, reveal cannot proceed. |
| Lifecycle.RevealTargetFollowsRegistry | domino-brix-client/src/main/java/org/dominokit/brix/api/Presenter.java:249-269 | Registering a slot under the key redirects reveal to it, and unregistering it restores the previous target. |
| Lifecycle.UpdateKeepsOk | domino-brix-client/src/main/java/org/dominokit/brix/api/Presenter.java:60-68 | Replacing one presenter's state by a consistent one keeps the runtime invariant. The invariant is: subscribed exactly while active, own records, and a view bound only to its presenter. |
| Lifecycle.ActivationLowersPotential | domino-brix-client/src/main/java/org/dominokit/brix/api/Presenter.java:157 | Activating an inactive presenter lowers the count that bounds the callback chain. |
| Lifecycle.DetachLowersAttached | domino-brix-client/src/main/java/org/dominokit/brix/api/Presenter.java:130-136 | Detaching a view lowers the number of attached views by exactly one when it was attached and keeps it otherwise, which bounds the teardown recursion. |
| Lifecycle.Runtime.constructor | domino-brix-client/src/main/java/org/dominokit/brix/api/Presenter.java:62-70 | All presenters are new, the registry is in its initial state, there are no event listeners and no user, and the invariant holds. |
| Lifecycle.Runtime.IsActive | domino-brix-client/src/main/java/org/dominokit/brix/api/Presenter.java:309-311 | A presenter is active exactly when it is subscribed to slot notifications, and exactly when it is subscribed to events. |
| Lifecycle.Runtime.GetParent | domino-brix-client/src/main/java/org/dominokit/brix/api/ChildPresenter.java:30-32 | The parent, when set, is a presenter of the runtime. |
| Lifecycle.Runtime.SetParent | domino-brix-client/src/main/java/org/dominokit/brix/api/ChildPresenter.java:44-46 | Stores the parent, so `getParent` then returns it. |
| Lifecycle.Runtime.RegisterChildListener | domino-brix-client/src/main/java/org/dominokit/brix/api/Presenter.java:333-335 | Adds one deferred activation of the child to the parent. |
| Lifecycle.Runtime.SetRoutingState | domino-brix-client/src/main/java/org/dominokit/brix/api/Presenter.java:323-329 | Always stores the state and runs `setState`. Runs `onStateChanged` only while active. |
| Lifecycle.Runtime.Activate | domino-brix-client/src/main/java/org/dominokit/brix/api/Presenter.java:167-169 | Dispatches to the child or plain `doActivate` and keeps the invariant. |
| Lifecycle.Runtime.ChildDoActivate | domino-brix-client/src/main/java/org/dominokit/brix/api/ChildPresenter.java:34-41 | With an active parent, the child activates as any presenter. With an inactive parent, it stays inactive and queues exactly one deferred activation with the parent. With no parent, it throws NullPointerException and changes nothing. |
| Lifecycle.Runtime.DoActivate | domino-brix-client/src/main/java/org/dominokit/brix/api/Presenter.java:149-165 | Skip changes nothing. An authorizer that throws propagates its exception and changes nothing. Deny only runs the unauthorized handler: no registration is made and the presenter stays inactive. Proceed leaves it active, subscribed to slots and events and bound to its view, with `onActivated` traced. Presenters only grow, and no other active presenter's view gets attached. |
| Lifecycle.Runtime.ActivateGranted | domino-brix-client/src/main/java/org/dominokit/brix/api/Presenter.java:152-160 | Past the gate the presenter ends active, subscribed and bound, with `onActivated` traced before anything `tryReveal` does. |
| Lifecycle.Runtime.Subscribe | domino-brix-client/src/main/java/org/dominokit/brix/api/Presenter.java:153-158 | Slot and event subscriptions, view binding and the active flag are set, and `onActivated` is appended. This strictly lowers the chain's potential. |
| Lifecycle.Runtime.MarkActive | domino-brix-client/src/main/java/org/dominokit/brix/api/Presenter.java:153-158 | After the registrations, the presenter is active and bound to its view, `onActivated` is traced, and the chain potential strictly drops. |
| Lifecycle.Runtime.TryReveal | domino-brix-client/src/main/java/org/dominokit/brix/api/Presenter.java:171-175 | Without auto-reveal, or with the view already attached, nothing happens. Otherwise it behaves as `reveal`. |
| Lifecycle.Runtime.Reveal | domino-brix-client/src/main/java/org/dominokit/brix/api/Presenter.java:249-269 | With no key: SlotNotDefinedException and nothing changes. With no slot: nothing changes. Otherwise `onBeforeRevealed` runs first. Any slot other than the no-content slot rejects the view. The no-content slot runs `registerSlots` then `onRevealed` for a bound view. The view ends attached on a normal return; if `onAttached` throws, an active presenter's flag is as it was. |
| Lifecycle.Runtime.RevealView | domino-brix-client/src/main/java/org/dominokit/brix/impl/NoContentView.java:35-40 | An unbound view changes nothing. A bound view first calls back `onAttached` and is attached only when that returns normally. When the callback throws, an active presenter's attached flag is left as it was. |
| Lifecycle.Runtime.MarkAttached | domino-brix-client/src/main/java/org/dominokit/brix/impl/NoContentView.java:38 | Exactly the presenter's view becomes attached; nothing else changes and the runtime invariant holds. |
| Lifecycle.Runtime.OnAttached | domino-brix-client/src/main/java/org/dominokit/brix/api/Presenter.java:111-116 | `registerSlots` then `onRevealed` are traced, then `onReady` runs. A normal ending leaves no deferred child. |
| Lifecycle.Runtime.OnReady | domino-brix-client/src/main/java/org/dominokit/brix/api/Presenter.java:120-128 | Every deferred child pending at the start is invoked, and a normal ending leaves none pending. No other active presenter's view gets attached. |
| Lifecycle.Runtime.InvokeChildListener | domino-brix-client/src/main/java/org/dominokit/brix/api/Presenter.java:123-127 | Traces the invocation, then runs the child's `doActivate` through its gates (`ChildInvoked`). An already active or disabled child only loses the entry, so of several entries for one child only the first activates it and the rest skip. An authorizer that throws keeps the entry. A denied child loses the entry after the handler runs. Otherwise the child ends active, subscribed and bound, with `onActivated` traced after the invocation. |
| Lifecycle.Runtime.DropChildEntry | domino-brix-client/src/main/java/org/dominokit/brix/api/Presenter.java:126 | Exactly one entry for the child is removed from the parent's pending set; nothing else changes. |
| Lifecycle.Runtime.OnSlotRegistered | domino-brix-client/src/main/java/org/dominokit/brix/api/Presenter.java:235-240 | Another key changes nothing. The presenter's own key retries `tryReveal`, which leaves every other active, detached view detached. |
| Lifecycle.Runtime.RegisterSlot | domino-brix-client/src/main/java/org/dominokit/brix/api/Presenter.java:242-244 | The slot is pushed and the listeners present at the call are walked with the set's iterator. The walk goes past a listener only if its callback left the listener set unchanged. A change in any callback but the last ends the walk with ConcurrentModificationException, and the listeners not reached keep their views detached. A change in the last callback goes unnoticed: once every callback has returned normally, the call ends normally. The register record is kept exactly on a normal ending. Every waiting listener whose callback returned has seen the slot. After a normal ending with the no-content slot, every waiting listener is attached. Any other slot throws if some waiting listener was detached. |
| Lifecycle.Runtime.NotifyAll | domino-brix-client/src/main/java/org/dominokit/brix/api/BrixSlots.java:78 | The walk stops at the first callback that throws, and a walk whose every callback returned normally ends normally. After a callback that is not the last, a changed modification count ends the walk with ConcurrentModificationException; an unchanged one moves it on. The listeners not reached keep their views detached. Each waiting listener whose callback returned has seen the slot. Any slot other than the no-content slot makes the walk throw when a waiting listener was detached. |
| Lifecycle.Runtime.NotifyNext | domino-brix-client/src/main/java/org/dominokit/brix/api/BrixSlots.java:78 | One step of the walk: the listener at the current position is told. Listeners further on that were detached stay detached, listeners told earlier keep what they saw, and on a normal return this listener has seen the slot too. |
| Lifecycle.Runtime.KeepSlotRecord | domino-brix-client/src/main/java/org/dominokit/brix/api/Presenter.java:243 | The register record is appended to the presenter's records, and nothing else changes; every view stays as it was. |
| Lifecycle.Runtime.NotifyListener | domino-brix-client/src/main/java/org/dominokit/brix/api/Presenter.java:235-240 | One notification after a push: a waiting, detached listener throws for any slot but the no-content slot, and ends attached in the no-content slot when nothing throws. |
| Lifecycle.PlanAfterPush | domino-brix-client/src/main/java/org/dominokit/brix/api/Presenter.java:249-269 | Right after a push, a presenter waiting for the pushed slot's key is shown that slot, unless the key is blank. The no-content key is never blank. |
| Lifecycle.Runtime.Deactivate | domino-brix-client/src/main/java/org/dominokit/brix/api/Presenter.java:275-289 | The outcome depends on the view and the slot key. Detached and never activated: NullPointerException. Detached: the presenter is torn down (unsubscribed, inactive, `onDeactivated`). Attached with no key: SlotNotDefinedException. Attached with a missing slot: nothing. Attached with the wrong slot: IllegalArgumentException. Attached in the no-content slot: removed, then torn down through the callback if it was active. This last case uses the corrected flag-first order of `detach()` (see ## Findings); as written, it never returns for an active presenter. |
| Lifecycle.Runtime.DetachView | domino-brix-client/src/main/java/org/dominokit/brix/impl/NoContentView.java:43-48 | Corrected order (see ## Findings): the flag is cleared before the callback, where the source clears it after. An unbound view changes nothing. A bound view ends detached, and the presenter ends inactive and unsubscribed, with `onRemoved` (and `onDeactivated` if it was active) traced. |
| Lifecycle.Runtime.MarkDetached | domino-brix-client/src/main/java/org/dominokit/brix/impl/NoContentView.java:44-47 | Corrected order (see ## Findings): a bound view is marked detached before the callback is reported, where the source marks it after. An unbound view is untouched. |
| Lifecycle.Runtime.OnDetached | domino-brix-client/src/main/java/org/dominokit/brix/api/Presenter.java:130-136 | `onRemoved` runs. An active presenter is then deactivated and torn down; an inactive one is left alone. |
| Tasks.Insert | domino-brix-client/src/main/java/org/dominokit/brix/tasks/TasksRunner.java:41 | Inserting into an ascending list of distinct orders keeps it ascending and distinct, adding exactly that order. |
| Tasks.SortedOrders | domino-brix-client/src/main/java/org/dominokit/brix/tasks/TasksRunner.java:35-41 | The distinct orders of the tasks, in ascending order. |
| Tasks.Groups | domino-brix-client/src/main/java/org/dominokit/brix/tasks/TasksRunner.java:35-41 | One group per distinct order, in ascending order. |
| Tasks.GroupsPartition | domino-brix-client/src/main/java/org/dominokit/brix/tasks/TasksRunner.java:35-41 | The grouping is a partition: exactly one non-empty group per distinct order, ascending, each holding exactly the tasks of that order. |
| Tasks.GroupsWellFormed | domino-brix-client/src/main/java/org/dominokit/brix/tasks/TasksRunner.java:35-41 | Every group is non-empty with distinct members, the group orders strictly ascend, and a task is in a group exactly when it carries that group's order. |
| Tasks.CompareOrders | domino-brix-client/src/main/java/org/dominokit/brix/tasks/TasksAggregator.java:56-59 | The sign of the comparison is that of the difference of the orders. |
| Tasks.GroupsSortedByCompareTo | domino-brix-client/src/main/java/org/dominokit/brix/tasks/TasksAggregator.java:56-59 | No two groups compare equal, so the sorted set keeps them all, in compareTo order. |
| Tasks.StartOk | domino-brix-client/src/main/java/org/dominokit/brix/tasks/TasksRunner.java:54-61 | Right after `runTasks`, exactly the lowest group has run (or the handler, with no task), and the run invariant holds. |
| Tasks.FirstGroupRuns | domino-brix-client/src/main/java/org/dominokit/brix/tasks/TasksRunner.java:56-58 | At the start, the tasks that have run are exactly those of the lowest order, each once. |
| Tasks.NothingCompletedAtStart | domino-brix-client/src/main/java/org/dominokit/brix/tasks/TasksRunner.java:54-61 | At the start no task, no group and not the handler has completed, unless there are no tasks. |
| Tasks.ReleasedAfter | domino-brix-client/src/main/java/org/dominokit/brix/tasks/TasksAggregator.java:38-44 | A completion releases exactly the tasks of the next group, and only when it finishes its own group. |
| Tasks.AllDoneAfter | domino-brix-client/src/main/java/org/dominokit/brix/tasks/TasksRunner.java:54 | When a completion finishes its group, every group is done exactly when that group is the last. |
| Tasks.CompleteStep | domino-brix-client/src/main/java/org/dominokit/brix/api/BrixStartupTask.java:40-42 | Completing a task that has run and not completed keeps the run invariant. No task runs before every lower order has completed, a group completes exactly when all its tasks have, the handler runs exactly when every group has, and nothing happens twice. |
| Tasks.HandlerWaitsForAll | domino-brix-client/src/main/java/org/dominokit/brix/tasks/TasksRunner.java:54-61 | The handler has run exactly when every task has completed. With no task it runs from the start. |
| Tasks.SignalStepsAre | domino-brix-client/src/main/java/org/dominokit/brix/tasks/TasksAggregator.java:38-44 | The aggregators' callbacks take exactly the steps the completion rule describes. |
| Tasks.NothingDoneYet | domino-brix-client/src/main/java/org/dominokit/brix/api/BrixStartupTask.java:26-30 | Before any completion, a non-empty group waits for all of its tasks. |
| Tasks.TasksAggregator.constructor | domino-brix-client/src/main/java/org/dominokit/brix/tasks/TasksAggregator.java:32-45 | A new aggregator waits for all of its tasks' waits and has no successor. |
| Tasks.TasksAggregator.CompareTo | domino-brix-client/src/main/java/org/dominokit/brix/tasks/TasksAggregator.java:56-59 | Orders aggregators by `order` alone, in both directions. |
| Tasks.TasksAggregator.SetNextAggregator | domino-brix-client/src/main/java/org/dominokit/brix/tasks/TasksAggregator.java:47-50 | Stores the successor and returns the receiver. |
| Tasks.TasksAggregator.Execute | domino-brix-client/src/main/java/org/dominokit/brix/tasks/TasksAggregator.java:52-54 | Logs one `Ran` step per task of the group, in list order: exactly the group's run steps. |
| Tasks.TasksAggregator.TaskCompleted | domino-brix-client/src/main/java/org/dominokit/brix/tasks/TasksAggregator.java:35-44 | Drops the task's wait. The group fires exactly when no wait is left, and then stays completed. |
| Tasks.LinkAggregators | domino-brix-client/src/main/java/org/dominokit/brix/tasks/TasksRunner.java:43-52 | One fresh aggregator per group in ascending order. Each is linked to the next, and the last to none. |
| Tasks.StartupRun.constructor | domino-brix-client/src/main/java/org/dominokit/brix/tasks/TasksRunner.java:34-63 | `runTasks` leaves the groups as the partition and no task completed, with exactly the start steps taken. |
| Tasks.StartupRun.StartValid | domino-brix-client/src/main/java/org/dominokit/brix/tasks/TasksRunner.java:43-61 | The linked aggregators built by `runTasks` satisfy the run's invariant. |
| Tasks.StartupRun.Signal | domino-brix-client/src/main/java/org/dominokit/brix/tasks/TasksAggregator.java:38-44 | The group fires exactly when the task was its last. The handler runs exactly when that group is the last, and otherwise the next group's tasks run. |
| Tasks.StartupRun.Complete | domino-brix-client/src/main/java/org/dominokit/brix/api/BrixStartupTask.java:40-42 | `complete()` adds the task to the completed ones, appends exactly the completion steps, and keeps the invariant. |
| LazyInit.ArmedPreserved | domino-brix-client/src/main/java/org/dominokit/brix/api/LazyInitializer.java:39-122 | Starting fresh, every operation keeps the function and doOnce function armed exactly while uninitialised. |
| LazyInit.ApplyOnce | domino-brix-client/src/main/java/org/dominokit/brix/api/LazyInitializer.java:56-67 | The first `apply` runs the function first, then each doOnce callback once, then each deferred callback once, and initialises. A second `apply` runs and changes nothing. |
| LazyInit.RunsOf | domino-brix-client/src/main/java/org/dominokit/brix/api/LazyInitializer.java:61-63 | Running an enumeration of a callback set runs exactly the set's callbacks. |
| LazyInit.ResetRearms | domino-brix-client/src/main/java/org/dominokit/brix/api/LazyInitializer.java:113-122 | `reset` after `apply` restores the state before `apply`, with the stored callbacks intact, so they run again. `reset` before `apply` changes nothing. |
| LazyInit.DeferredRunAtApply | domino-brix-client/src/main/java/org/dominokit/brix/api/LazyInitializer.java:78-103 | Before initialisation, `doOnce` and `whenInitialized` store their callbacks; afterwards they store nothing. `onReset` always stores and never changes the initialised flag. |
| LazyInit.LazyInitializer.constructor | domino-brix-client/src/main/java/org/dominokit/brix/api/LazyInitializer.java:39-43 | A fresh, armed initializer that has run nothing. |
| LazyInit.LazyInitializer.RunDoOnceFunction | domino-brix-client/src/main/java/org/dominokit/brix/api/LazyInitializer.java:45-53 | While armed, runs every doOnce callback once, then disarms itself. |
| LazyInit.LazyInitializer.RunEach | domino-brix-client/src/main/java/org/dominokit/brix/api/LazyInitializer.java:61-63 | Runs the given callbacks one after the other: the run log grows by exactly one run per callback, in order. |
| LazyInit.LazyInitializer.Apply | domino-brix-client/src/main/java/org/dominokit/brix/api/LazyInitializer.java:56-67 | The new state is `AfterApply`, and the runs are exactly `ApplyEffects`. It runs nothing once initialised. |
| LazyInit.LazyInitializer.IfInitialized | domino-brix-client/src/main/java/org/dominokit/brix/api/LazyInitializer.java:70-75 | Runs the callback exactly when initialised. |
| LazyInit.LazyInitializer.WhenInitialized | domino-brix-client/src/main/java/org/dominokit/brix/api/LazyInitializer.java:78-87 | Runs the callbacks in argument order when initialised; otherwise stores them. |
| LazyInit.LazyInitializer.DoOnce | domino-brix-client/src/main/java/org/dominokit/brix/api/LazyInitializer.java:90-97 | Runs the callback when initialised; otherwise stores it. |
| LazyInit.LazyInitializer.OnReset | domino-brix-client/src/main/java/org/dominokit/brix/api/LazyInitializer.java:100-103 | Stores the callback and runs nothing. |
| LazyInit.LazyInitializer.IsInitialized | domino-brix-client/src/main/java/org/dominokit/brix/api/LazyInitializer.java:108-110 | Reports the initialised flag. |
| LazyInit.LazyInitializer.Reset | domino-brix-client/src/main/java/org/dominokit/brix/api/LazyInitializer.java:113-122 | When initialised, re-arms, uninitialises and runs every onReset callback once. Otherwise it does nothing. |
| Configuration.ConfigImpl.constructor | domino-brix-client/src/main/java/org/dominokit/brix/api/ConfigImpl.java:27-30 | A new config holds no entry. |
| Configuration.ConfigImpl.Init | domino-brix-client/src/main/java/org/dominokit/brix/api/ConfigImpl.java:38-43 | An empty config takes exactly the given map. A non-empty one throws IllegalOperationException and keeps its contents. |
| Configuration.ConfigImpl.Get | domino-brix-client/src/main/java/org/dominokit/brix/api/ConfigImpl.java:47-49 | Present exactly when the key is stored with a non-null value, and then it is that value. |
| Configuration.InitThenGet | domino-brix-client/src/main/java/org/dominokit/brix/api/ConfigImpl.java:38-49 | On a new `ConfigImpl`, `get` reports nothing, and a first `init` succeeds. `get` then reports the map's value, with a null value reported as empty. A second `init` is refused unless the first map was empty. |
| Context.OperationKeys | domino-brix-client/src/main/java/org/dominokit/brix/api/HasContext.java:51-66 | CREATED, UPDATED and DELETED differ pairwise. `when` returns the receiver and runs its runnable exactly for equal keys, symmetrically. |
| Context.Changes | domino-brix-client/src/main/java/org/dominokit/brix/api/HasContext.java:30 | One `onContextChange(context, operation)` per listener, in enumeration order. |
| Context.EachContextListenerOnce | domino-brix-client/src/main/java/org/dominokit/brix/api/HasContext.java:26-32 | Every listener hears about an update, and none hears about it twice. |
| Context.ContextHolder.constructor | domino-brix-client/src/main/java/org/dominokit/brix/api/HasContext.java:26-44 | A new holder has no listeners and has made no change. |
| Context.ContextHolder.Update | domino-brix-client/src/main/java/org/dominokit/brix/api/HasContext.java:26-32 | Notifies each listener once with the context and operation, and keeps the listener set. |
| Context.ContextHolder.UpdateDefault | domino-brix-client/src/main/java/org/dominokit/brix/api/HasContext.java:22-24 | `update(context)` is `update(context, UPDATED)`. |
| Context.ContextHolder.RegisterContextListener | domino-brix-client/src/main/java/org/dominokit/brix/api/HasContext.java:36-39 | Adds the listener and returns the receiver. |
| Context.ContextHolder.RemoveChangeListener | domino-brix-client/src/main/java/org/dominokit/brix/api/HasContext.java:41-44 | Removes the listener and returns the receiver. |
| JavaStrings.TrimEmptyIff | domino-brix-client/src/main/java/org/dominokit/brix/api/RoutingProvider.java:58 | `trim()` is empty exactly when every character is at most U+0020. |
| SourceUtil.CapitalizeFirstLetter | domino-brix-processor/src/main/java/org/dominokit/brix/processor/SourceUtil.java:116-118 | Throws StringIndexOutOfBoundsException exactly on the empty string. Otherwise it has the same length, an upper-cased first character and an unchanged rest. |
| SourceUtil.SmallFirstLetter | domino-brix-processor/src/main/java/org/dominokit/brix/processor/SourceUtil.java:126-128 | The same, with a lower-cased first character. |
| SourceUtil.FirstLetterLaws | domino-brix-processor/src/main/java/org/dominokit/brix/processor/SourceUtil.java:116-128 | Both helpers are idempotent. Of two opposite changes to an ASCII letter the second wins. The results never start with a letter of the wrong case. |
| SourceUtil.Chain | domino-brix-processor/src/main/java/org/dominokit/brix/processor/SourceUtil.java:293-298 | The superclass chain starts at the type and ends at the root. |
| SourceUtil.FindClassAnnotation | domino-brix-processor/src/main/java/org/dominokit/brix/processor/SourceUtil.java:288-299 | An annotation on the type itself is found on the type, before any superclass is searched. |
| SourceUtil.FindClassAnnotationNearest | domino-brix-processor/src/main/java/org/dominokit/brix/processor/SourceUtil.java:288-299 | Null exactly when no level of the chain carries the annotation. Otherwise the value is the one on the nearest level that does. |
| SourceUtil.GetAnnotatedElements | domino-brix-processor/src/main/java/org/dominokit/brix/processor/SourceUtil.java:380-398 | Every member found passes the filter and carries the annotation. |
| SourceUtil.FirstMatching | domino-brix-processor/src/main/java/org/dominokit/brix/processor/SourceUtil.java:416-421 | `findFirst` on one level is the head of that level's matches, or empty. |
| SourceUtil.Matching | domino-brix-processor/src/main/java/org/dominokit/brix/processor/SourceUtil.java:387-392 | A member is kept exactly when it passes the filter and carries the annotation. |
| SourceUtil.AnnotatedElementsByLevel | domino-brix-processor/src/main/java/org/dominokit/brix/processor/SourceUtil.java:380-398 | The result lists each level of the chain except the root, nearest first, each in declaration order. |
| SourceUtil.AnnotatedElementsMembership | domino-brix-processor/src/main/java/org/dominokit/brix/processor/SourceUtil.java:380-398 | A member is found exactly when it passes the filter, carries the annotation and is enclosed by a non-root level of the chain. |
| SourceUtil.GetAnnotatedMethods | domino-brix-processor/src/main/java/org/dominokit/brix/processor/SourceUtil.java:307-311 | Only annotated methods are found. |
| SourceUtil.FindFirstAnnotatedElement | domino-brix-processor/src/main/java/org/dominokit/brix/processor/SourceUtil.java:407-428 | The result is the head of what `getAnnotatedElements` lists, or empty. |
| ProcessorStep.JavaSplit | domino-brix-processor/src/main/java/org/dominokit/brix/processor/DominoBrixProcessorStep.java:619 | `split("-\|\\.")` never yields a piece holding a separator. |
| ProcessorStep.Pieces | domino-brix-processor/src/main/java/org/dominokit/brix/processor/DominoBrixProcessorStep.java:619 | Splitting on '-' and '.' gives at least one piece, and no piece holds a separator. |
| ProcessorStep.DropTrailingEmpty | domino-brix-processor/src/main/java/org/dominokit/brix/processor/DominoBrixProcessorStep.java:619 | Java `split` keeps a prefix ending in a non-empty piece, and everything it drops is empty. |
| ProcessorStep.PiecesJoin | domino-brix-processor/src/main/java/org/dominokit/brix/processor/DominoBrixProcessorStep.java:625-631 | Joining the pieces with a character replaces every separator by it, so splitting loses nothing but separators. |
| ProcessorStep.CapitalizeAll | domino-brix-processor/src/main/java/org/dominokit/brix/processor/DominoBrixProcessorStep.java:619-621 | Fails with StringIndexOutOfBoundsException exactly when some segment is empty. Otherwise the result has no separator. |
| ProcessorStep.SlotAsMethodName | domino-brix-processor/src/main/java/org/dominokit/brix/processor/DominoBrixProcessorStep.java:617-623 | A successful result starts with "get", ends with "Slot" and has no separator. |
| ProcessorStep.SlotAsMethodNameThrowsIff | domino-brix-processor/src/main/java/org/dominokit/brix/processor/DominoBrixProcessorStep.java:617-623 | Throws exactly for the empty name, or for a separator that starts the name or follows another separator and is followed by a non-separator somewhere later. |
| ProcessorStep.TrailingSeparatorIgnored | domino-brix-processor/src/main/java/org/dominokit/brix/processor/DominoBrixProcessorStep.java:619-627 | A trailing separator changes neither the split nor either name. |
| ProcessorStep.PlainSlotName | domino-brix-processor/src/main/java/org/dominokit/brix/processor/DominoBrixProcessorStep.java:617-631 | A non-empty name without separators gives "get" + capitalised name + "Slot", and its upper-cased self as the field name. |
| ProcessorStep.SlotAsFieldNameReplaces | domino-brix-processor/src/main/java/org/dominokit/brix/processor/DominoBrixProcessorStep.java:625-631 | Without a trailing separator, the field name is the upper-cased name with every separator replaced by '_'. |
| ProcessorStep.SlotAsFieldNameShape | domino-brix-processor/src/main/java/org/dominokit/brix/processor/DominoBrixProcessorStep.java:625-631 | The field name has no separator and no lower-case ASCII letter. |
| ProcessorStep.ValueOverrideRule | domino-brix-processor/src/main/java/org/dominokit/brix/processor/DominoBrixProcessorStep.java:452-476 | At most one override. It is emitted exactly when the nearest level's annotation value is non-null and non-blank, and it returns that value. |
| ProcessorStep.RouteMethods | domino-brix-processor/src/main/java/org/dominokit/brix/processor/DominoBrixProcessorStep.java:452-463 | Emits nothing or a `getRoutingPath` returning the route. |
| ProcessorStep.SlotMethods | domino-brix-processor/src/main/java/org/dominokit/brix/processor/DominoBrixProcessorStep.java:465-476 | Emits nothing or a `getSlotKey` returning the slot key. |
| ProcessorStep.AuthorizerRules | domino-brix-processor/src/main/java/org/dominokit/brix/processor/DominoBrixProcessorStep.java:561-615 | An error is reported exactly when more than one of PermitAll, DenyAll and RolesAllowed is present. `getAuthorizer` is emitted exactly when one is present. `getRoles` is emitted exactly with RolesAllowed, with one `roles.add` per declared role in order. A single annotation gives a single-return body of the matching authorizer. |
| ProcessorStep.RoleStatements | domino-brix-processor/src/main/java/org/dominokit/brix/processor/DominoBrixProcessorStep.java:601-607 | One `roles.add(role)` per declared role, in declaration order. |
| ProcessorStep.HookRule | domino-brix-processor/src/main/java/org/dominokit/brix/processor/DominoBrixProcessorStep.java:510-526 | A hook override is emitted exactly when some non-root level declares an annotated method. Its body calls `super` first, then each annotated method in discovery order. |
| ProcessorStep.GenerateRolesMethod | domino-brix-processor/src/main/java/org/dominokit/brix/processor/DominoBrixProcessorStep.java:591-610 | The loop builds exactly the specified `getRoles` method. |
| ProcessorStep.GenerateAuthorizerMethod | domino-brix-processor/src/main/java/org/dominokit/brix/processor/DominoBrixProcessorStep.java:561-615 | Emits exactly the specified methods and reports exactly the specified mixed error. |
| ProcessorStep.CollectAnnotatedMethods | domino-brix-processor/src/main/java/org/dominokit/brix/processor/DominoBrixProcessorStep.java:510-526 | The loop builds exactly the specified hook override. |

## Left out

- Logging (SLF4J), the presenter's random id, `toString`, and dependency injection are not modelled. Singletons are passed as the runtime's own objects.
- DOM-bound slots and views (body, popup, accept-one, append, element-id) are not modelled as such.
  - Every presenter's view is a no-content view. Any other slot rejects it, because each of those slots first checks the kind of view.
  - The DOM work those slots do is not part of this model.
- The lazy view cache (`getView`/`view()`) is not modelled: every presenter has its view from the start.
- The navigation interceptor is modelled as created and installed flags only. The router and its interceptor chain are not part of this model.
- `onEventReceived`, `postConstruct`, `onBindParent` and the other overridable hooks are identities recorded in a trace. What subclasses do in them is not modelled. `registerSlots` is a no-op, as in `Presenter`.
- The authorizer returned by `getAuthorizer()` is modelled for `RolesAllowedAuthorizer`. The default, permit-all and deny-all authorizers are not shown, so their decision is a configuration parameter.
- `ContextAggregator` (the external wait library) is modelled as one pending set per group and a wait over all groups. The aggregator's internal state is not part of this model.
- `Tasks.StartupRun.Complete`: requires that the task has run and has not completed before. What a second `complete()` does depends on `ContextAggregator`, which is not part of this model.
- Token matching and normalisation belong to the history library. `Filters` keeps them as parameters, so only how composites combine them is modelled.
- `BrixEvent` payload, timestamp and id are not modelled; an event is an identity with an optional source.
- NoContent.NoContentView.OnReveal: returns the callback and takes on the state that follows its normal return in one step. The caller runs the callback. `Lifecycle.Runtime.RevealView` keeps the source's order: the callback runs first, and the flag is set only when it returns.
- Lifecycle.Runtime.RegisterSlot: the JDK's `HashSet` iterator is not part of this model; its fail-fast check is modelled by `BrixSlots.modCount`, compared after each callback but the last, as `Iterable.forEach` does through that iterator.
- Tasks.TasksAggregator.Execute: logs a whole group's `Ran` steps before any completion. It therefore cannot represent a task that calls `complete()` inside its own `run()`.
- `SecurityContext.getUser` returns an `Optional`, but `RolesAllowedAuthorizer` calls the interface's plain `BrixUser getUser()`. The model follows the interface, so a missing user is a NullPointerException.
- `SourceUtil.CapitalizeFirstLetter`: maps only ASCII letters. Java's full Unicode case mapping, which can change a string's length, is not modelled.
- `SourceUtil.SmallFirstLetter`: the same ASCII-only limitation.
- `ProcessorStep.SlotAsFieldName`: `toUpperCase` is ASCII-only here, for the same reason.
- Annotation values are modelled as strings, string lists or markers. A mismatched shape reads as absent.
- The remaining code generation in `DominoBrixProcessorStep` is not modelled: UI handlers, state and events methods, `registerSlots` and slot fields, bindings, routing tasks, and writing Java files. These are JavaPoet/Dagger plumbing and file output.
- `Lifecycle.Runtime.Activate`: the twostate predicates it ensures, `ActivatedAsPresenter` and `ActivatedAsChild`, describe the chain it sets off only up to trace prefixes. Effects of the reveal chain beyond "presenters only grow" are given by the individual methods.

## Findings

| source | as written | input that shows it | evidently intended | confidence | as-written member | corrected member |
|---|---|---|---|---|---|---|
| domino-brix-client/src/main/java/org/dominokit/brix/impl/NoContentView.java:43-48 | `onRemove` calls `onDetach` before clearing `attached`. `Presenter.onDetached` then deactivates the still-active presenter. `deactivate` sees the view attached and asks the slot to remove it again, which re-enters `onRemove` without end. | an active presenter whose bound no-content view is attached in the no-content slot, and a call to `deactivate()` | clear `attached` first, so the re-entrant `deactivate` tears the presenter down and returns | not executed | NoContent.AsWrittenTeardownNeverCompletes | NoContent.CorrectedTeardownCompletes |
