/** Role checks of `security/SecurityContext` and the decision of
    `security/RolesAllowedAuthorizer`. Role collections are sequences in
    their iteration order; each check is shown to depend only on the set of
    roles. */
module Security {
  import opened Base

  /** A `BrixUser`: whether it is authenticated, and its roles. */
  datatype User = User(authenticated: bool, roles: set<string>)

  /** `containsAll` over the roles in iteration order. */
  predicate ContainsAll(have: set<string>, want: seq<string>) {
    if want == [] then true else want[0] in have && ContainsAll(have, want[1..])
  }

  /** `stream().anyMatch(have::contains)` over the roles in iteration order. */
  predicate AnyMatch(have: set<string>, want: seq<string>) {
    if want == [] then false else want[0] in have || AnyMatch(have, want[1..])
  }

  lemma {:induction false} ContainsAllIff(have: set<string>, want: seq<string>)
    ensures ContainsAll(have, want) <==> Elements(want) <= have
  {
    if want != [] {
      ContainsAllIff(have, want[1..]);
      assert Elements(want) == {want[0]} + Elements(want[1..]);
    }
  }

  lemma {:induction false} AnyMatchIff(have: set<string>, want: seq<string>)
    ensures AnyMatch(have, want) <==> Elements(want) * have != {}
  {
    if want != [] {
      AnyMatchIff(have, want[1..]);
      assert Elements(want) == {want[0]} + Elements(want[1..]);
      if want[0] in have {
        assert want[0] in Elements(want) * have;
      }
    }
  }

  /** `isAuthorizedFor(role)` */
  predicate IsAuthorizedFor(user: Option<User>, role: string) {
    user.Some? && role in user.value.roles
  }

  /** `isAuthorizedForAll(Collection)`; `roles` is None for a null collection. */
  predicate IsAuthorizedForAll(user: Option<User>, roles: Option<seq<string>>) {
    user.Some? && roles.Some? && ContainsAll(user.value.roles, roles.value)
  }

  /** `isAuthorizedForAny(Collection)`; `roles` is None for a null collection. */
  predicate IsAuthorizedForAny(user: Option<User>, roles: Option<seq<string>>) {
    user.Some? && roles.Some? && AnyMatch(user.value.roles, roles.value)
  }

  /** The varargs overloads pass the arguments on as a (non-null) list. */
  predicate IsAuthorizedForAllOf(user: Option<User>, roles: seq<string>) {
    IsAuthorizedForAll(user, Some(roles))
  }

  predicate IsAuthorizedForAnyOf(user: Option<User>, roles: seq<string>) {
    IsAuthorizedForAny(user, Some(roles))
  }

  /** The single-role check: no user means no role. */
  lemma AuthorizedForIff(user: Option<User>, role: string)
    ensures IsAuthorizedFor(user, role) <==> user.Some? && role in user.value.roles
    ensures user.None? ==> !IsAuthorizedFor(user, role)
  {
  }

  /** "All": false without a user or with a null collection, otherwise
      inclusion of the roles in the user's roles, so the empty collection is
      accepted. */
  lemma AuthorizedForAllIff(user: Option<User>, roles: Option<seq<string>>)
    ensures IsAuthorizedForAll(user, roles) <==>
            user.Some? && roles.Some? && Elements(roles.value) <= user.value.roles
    ensures user.Some? ==> IsAuthorizedForAll(user, Some([]))
  {
    if roles.Some? && user.Some? {
      ContainsAllIff(user.value.roles, roles.value);
    }
  }

  /** "Any": false without a user or with a null collection, otherwise a
      non-empty intersection, so the empty collection is refused. */
  lemma AuthorizedForAnyIff(user: Option<User>, roles: Option<seq<string>>)
    ensures IsAuthorizedForAny(user, roles) <==>
            user.Some? && roles.Some? && Elements(roles.value) * user.value.roles != {}
    ensures !IsAuthorizedForAny(user, Some([]))
  {
    if roles.Some? && user.Some? {
      AnyMatchIff(user.value.roles, roles.value);
    }
  }

  /** The varargs overloads agree with the collection overloads. */
  lemma VarargsAgree(user: Option<User>, roles: seq<string>)
    ensures IsAuthorizedForAllOf(user, roles) == IsAuthorizedForAll(user, Some(roles))
    ensures IsAuthorizedForAnyOf(user, roles) == IsAuthorizedForAny(user, Some(roles))
    ensures IsAuthorizedForAllOf(user, roles) <==> user.Some? && Elements(roles) <= user.value.roles
  {
    AuthorizedForAllIff(user, Some(roles));
  }

  /** `RolesAllowedAuthorizer.isAuthorized(context, hasRoles)`. It calls
      `isAuthenticated()` on the user that `IsSecurityContext.getUser()`
      returns, a plain `BrixUser`, so a missing user is a null dereference.
      Otherwise it grants an authenticated user who holds at least one of
      the presenter's roles (`getRoles()`, in iteration order). */
  function RolesAllowedDecision(user: Option<User>, required: seq<string>): Result<bool> {
    if user.None? then Failure(NullPointerException)
    else Success(user.value.authenticated && IsAuthorizedForAny(user, Some(required)))
  }

  /** Without a user the decision throws NullPointerException. With one, it
      grants exactly an authenticated user sharing a required role. */
  lemma RolesAllowedIff(user: Option<User>, required: seq<string>)
    ensures RolesAllowedDecision(user, required).Failure? <==> user.None?
    ensures user.None? ==> RolesAllowedDecision(user, required) == Failure(NullPointerException)
    ensures RolesAllowedDecision(user, required) == Success(true) <==>
            user.Some? && user.value.authenticated && Elements(required) * user.value.roles != {}
  {
    AuthorizedForAnyIff(user, Some(required));
  }

  /** An unauthenticated user is denied whatever the roles, and an empty
      role set is denied to every user. */
  lemma RolesAllowedDenials(u: User, required: seq<string>)
    ensures !u.authenticated ==> RolesAllowedDecision(Some(u), required) == Success(false)
    ensures RolesAllowedDecision(Some(u), []) == Success(false)
  {
    AuthorizedForAnyIff(Some(u), Some([]));
  }

  /** Giving the user more roles never turns a grant into a denial, and the
      decision does not depend on the order the roles are listed in. */
  lemma RolesAllowedMonotone(u: User, more: set<string>, required: seq<string>, reordered: seq<string>)
    requires Elements(reordered) == Elements(required)
    ensures RolesAllowedDecision(Some(u), required) == Success(true) ==>
            RolesAllowedDecision(Some(u.(roles := u.roles + more)), required) == Success(true)
    ensures RolesAllowedDecision(Some(u), required) == RolesAllowedDecision(Some(u), reordered)
  {
    RolesAllowedIff(Some(u), required);
    RolesAllowedIff(Some(u.(roles := u.roles + more)), required);
    RolesAllowedIff(Some(u), reordered);
  }

  /** The handler a fresh context reports to: it only logs. */
  const DefaultHandler: nat := 0

  class SecurityContext {
    var user: Option<User>
    var handler: nat
    /** The handlers run by `reportUnAuthorizedAccess`, in order. */
    ghost var handlerRuns: seq<nat>

    constructor ()
      ensures user.None? && handler == DefaultHandler && handlerRuns == []
    {
      user := None;
      handler := DefaultHandler;
      handlerRuns := [];
    }

    /** `getUser()`: the user last set, or empty. */
    function GetUser(): (u: Option<User>)
      reads this
      ensures u == user
    {
      user
    }

    /** `setUser(user)`; the Java method also returns the receiver. */
    method SetUser(u: Option<User>)
      modifies this
      ensures user == u && handler == old(handler) && handlerRuns == old(handlerRuns)
    {
      user := u;
    }

    /** `setUnauthorizedAccessHandler(handler)` */
    method SetUnauthorizedAccessHandler(h: nat)
      modifies this
      ensures handler == h && user == old(user) && handlerRuns == old(handlerRuns)
    {
      handler := h;
    }

    /** `reportUnAuthorizedAccess()`: runs the handler installed last. */
    method ReportUnAuthorizedAccess()
      modifies this
      ensures handlerRuns == old(handlerRuns) + [handler]
      ensures user == old(user) && handler == old(handler)
    {
      handlerRuns := handlerRuns + [handler];
    }
  }
}
