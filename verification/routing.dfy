/** How a presenter's routing path becomes a token filter: the default methods
    of `RoutingProvider`, the parent/child composition of
    `ChildPresenterRouting`, and `Presenter.tokenFilter`. A routing path is
    the value `getRoutingPath()` returns, which may be null. */
module Routing {
  import opened Base
  import opened JavaStrings
  import opened Filters

  /** `getRoutingPath()` when a provider does not override it. */
  const DefaultRoutingPath: string := ""

  /** A routing provider: a plain `RoutingProvider` (generated routing classes
      override only `getRoutingPath`) or a `ChildPresenterRouting` over its parent. */
  datatype Provider =
    | Root(path: Option<string>)
    | Child(path: Option<string>, parent: Provider)

  /** A provider that overrides nothing. */
  function DefaultProvider(): (p: Provider)
    ensures p.Root? && p.path == Some(DefaultRoutingPath)
  {
    Root(Some(DefaultRoutingPath))
  }

  /** `containsHashInPath()`: a non-null, non-empty path containing '#'. */
  predicate ContainsHashInPath(p: Provider)
    ensures ContainsHashInPath(p) <==> p.path.Some? && '#' in p.path.value
  {
    p.path.Some? && |p.path.value| > 0 && ContainsChar(p.path.value, '#')
  }

  /** `isHashBasedRouting()`: by default the provider's own '#' test; a child
      is also hash based when its parent is. */
  predicate IsHashBasedRouting(p: Provider)
    decreases p
  {
    match p
    case Root(_) => ContainsHashInPath(p)
    case Child(_, parent) => ContainsHashInPath(p) || IsHashBasedRouting(parent)
  }

  /** The prefix filter a non-blank path gets on its own. */
  function PrefixFilter(path: string, hashBased: bool): TokenFilter {
    if hashBased then StartsWithFragment(path) else StartsWithPath(path)
  }

  /** `tokenFilter()` (and `getTokenFilter()`, which returns it). */
  function TokenFilterOf(p: Provider): TokenFilter
    decreases p
  {
    match p
    case Root(path) =>
      if IsBlank(path) then Any
      else PrefixFilter(path.value, IsHashBasedRouting(p))
    case Child(path, parent) =>
      if IsBlank(path) then TokenFilterOf(parent)
      else if IsBlank(parent.path) then PrefixFilter(path.value, IsHashBasedRouting(p))
      else if IsHashBasedRouting(parent) then StartsWithFragment(parent.path.value + path.value)
      else if IsHashBasedRouting(p) then Of(TokenFilterOf(parent), [StartsWithFragment(path.value)])
      else StartsWithPath(parent.path.value + path.value)
  }

  /** `getTokenFilter()` is an alias of `tokenFilter()`. */
  function GetTokenFilter(p: Provider): TokenFilter {
    TokenFilterOf(p)
  }

  /** `Presenter.tokenFilter()`: unlike a routing provider, a presenter always
      uses a path-prefix filter for a non-blank path. */
  function PresenterTokenFilter(path: Option<string>): (f: TokenFilter)
    ensures f == Any <==> IsBlank(path)
    ensures f != Any ==> f == StartsWithPath(path.value)
  {
    if IsBlank(path) then Any else StartsWithPath(path.value)
  }

  // ---------------------------------------------------------------------
  // Properties of a plain provider

  /** The default provider routes everything. */
  lemma DefaultProviderMatchesAnything()
    ensures TokenFilterOf(DefaultProvider()) == Any
    ensures !IsHashBasedRouting(DefaultProvider())
  {
    TrimEmptyIff(DefaultRoutingPath);
  }

  /** A plain provider is hash based exactly when its path contains '#'. */
  lemma RootHashBasedIff(path: Option<string>)
    ensures IsHashBasedRouting(Root(path)) <==> path.Some? && '#' in path.value
  {
  }

  /** A plain provider's filter: `Any` exactly for a blank path, otherwise a
      prefix filter on the whole path, fragment style exactly when it has a '#'. */
  lemma RootFilter(path: Option<string>)
    ensures TokenFilterOf(Root(path)) == Any <==> IsBlank(path)
    ensures !IsBlank(path) && '#' in path.value ==>
              TokenFilterOf(Root(path)) == StartsWithFragment(path.value)
    ensures !IsBlank(path) && '#' !in path.value ==>
              TokenFilterOf(Root(path)) == StartsWithPath(path.value)
  {
  }

  /** A blank path never contains '#'. */
  lemma BlankHasNoHash(path: string)
    requires IsBlank(Some(path))
    ensures '#' !in path
  {
    TrimEmptyIff(path);
  }

  // ---------------------------------------------------------------------
  // Properties of a child provider

  /** A child is hash based iff its own path has a '#' or its parent is hash based. */
  lemma ChildHashBasedIff(path: Option<string>, parent: Provider)
    ensures IsHashBasedRouting(Child(path, parent)) <==>
            (path.Some? && '#' in path.value) || IsHashBasedRouting(parent)
  {
  }

  /** A child without a path of its own uses its parent's filter unchanged. */
  lemma BlankChildPassesThrough(path: Option<string>, parent: Provider)
    requires IsBlank(path)
    ensures TokenFilterOf(Child(path, parent)) == GetTokenFilter(parent)
  {
  }

  /** A child under a parent without a path filters on its own path alone. */
  lemma ChildUnderBlankParent(path: string, parent: Provider)
    requires !IsBlank(Some(path)) && IsBlank(parent.path)
    ensures TokenFilterOf(Child(Some(path), parent)) ==
            if '#' in path || IsHashBasedRouting(parent) then StartsWithFragment(path)
            else StartsWithPath(path)
  {
  }

  /** Under a hash-based parent with a path, the child's filter is a fragment
      prefix on the two paths concatenated. */
  lemma ChildUnderHashParent(path: string, parent: Provider)
    requires !IsBlank(Some(path)) && !IsBlank(parent.path) && IsHashBasedRouting(parent)
    ensures TokenFilterOf(Child(Some(path), parent)) ==
            StartsWithFragment(parent.path.value + path)
  {
  }

  /** Under a path-based parent with a path, a hash-based child composes its
      parent's filter with a fragment prefix on its own path; a path-based child
      uses a path prefix on the two paths concatenated. */
  lemma ChildUnderPathParent(path: string, parent: Provider)
    requires !IsBlank(Some(path)) && !IsBlank(parent.path) && !IsHashBasedRouting(parent)
    ensures '#' in path ==>
              TokenFilterOf(Child(Some(path), parent)) ==
              Composite(GetTokenFilter(parent), [StartsWithFragment(path)])
    ensures '#' !in path ==>
              TokenFilterOf(Child(Some(path), parent)) == StartsWithPath(parent.path.value + path)
  {
  }

  /** Composing a parent path `a` with a child path `b` gives the filter of the
      flat path `a + b`, except when a path-based parent has a hash-based child:
      then the child gets a composite where the flat path gets a fragment prefix. */
  lemma FlatComposition(a: string, b: string)
    requires !IsBlank(Some(a)) && !IsBlank(Some(b))
    ensures '#' in a || '#' !in b ==>
              TokenFilterOf(Child(Some(b), Root(Some(a)))) == TokenFilterOf(Root(Some(a + b)))
    ensures '#' !in a && '#' in b ==>
              TokenFilterOf(Child(Some(b), Root(Some(a)))) ==
              Composite(StartsWithPath(a), [StartsWithFragment(b)]) &&
              TokenFilterOf(Root(Some(a + b))) == StartsWithFragment(a + b)
  {
    NotBlankConcat(a, b);
    assert '#' in a + b <==> '#' in a || '#' in b by {
      assert forall i :: 0 <= i < |a| ==> (a + b)[i] == a[i];
      assert forall i :: 0 <= i < |b| ==> (a + b)[|a| + i] == b[i];
    }
  }

  /** A child's filter is determined by its own path and its parent's path,
      hash flag and filter: two parents that agree on those give the same child filter. */
  lemma ChildFilterDeterministic(path: Option<string>, p1: Provider, p2: Provider)
    requires p1.path == p2.path
    requires IsHashBasedRouting(p1) == IsHashBasedRouting(p2)
    requires TokenFilterOf(p1) == TokenFilterOf(p2)
    ensures TokenFilterOf(Child(path, p1)) == TokenFilterOf(Child(path, p2))
  {
  }
}
