/** Route filters as symbolic terms. Matching a token against the three
    primitive filters (any, path prefix, fragment prefix) and normalising a
    token belong to the history library, so they are parameters here: `atom`
    decides a primitive filter and `atomNormalize` normalises with one. What
    this module fixes is how `CompositeFilter` combines them. */
module Filters {

  datatype TokenFilter =
    | Any                                  // TokenFilter.any()
    | StartsWithPath(path: string)         // TokenFilter.startsWithPathFilter(path)
    | StartsWithFragment(path: string)     // TokenFilter.startsWithFragment(path)
    | Composite(root: TokenFilter, subFilters: seq<TokenFilter>)  // CompositeFilter

  /** `CompositeFilter.of(root, subFilters...)`: root and sub-filters are
      fixed at construction. */
  function Of(root: TokenFilter, subFilters: seq<TokenFilter>): (f: TokenFilter)
    ensures f.Composite? && f.root == root && f.subFilters == subFilters
  {
    Composite(root, subFilters)
  }

  /** `filter(token)`: primitives are decided by `atom`; a composite needs its
      root and then every sub-filter (`TokenFilter.and`) to accept. */
  predicate Accepts(f: TokenFilter, token: string, atom: (TokenFilter, string) -> bool)
    decreases f
  {
    match f
    case Composite(root, subs) =>
      Accepts(root, token, atom) && AllAccept(subs, token, atom)
    case _ => atom(f, token)
  }

  predicate AllAccept(subs: seq<TokenFilter>, token: string, atom: (TokenFilter, string) -> bool)
    decreases subs
  {
    if subs == [] then true
    else Accepts(subs[0], token, atom) && AllAccept(subs[1..], token, atom)
  }

  /** `normalizeToken(rootPath, token)`: a composite delegates to its root only. */
  function Normalize<N>(f: TokenFilter, rootPath: string, token: string,
                        atomNormalize: (TokenFilter, string, string) -> N): N
    decreases f
  {
    match f
    case Composite(root, _) => Normalize(root, rootPath, token, atomNormalize)
    case _ => atomNormalize(f, rootPath, token)
  }

  /** `AllAccept` is the conjunction over every sub-filter. */
  lemma {:induction false} AllAcceptIff(subs: seq<TokenFilter>, token: string,
                                        atom: (TokenFilter, string) -> bool)
    ensures AllAccept(subs, token, atom) <==>
            forall i :: 0 <= i < |subs| ==> Accepts(subs[i], token, atom)
  {
    if subs != [] {
      AllAcceptIff(subs[1..], token, atom);
      assert forall i :: 1 <= i < |subs| ==> subs[i] == subs[1..][i - 1];
    }
  }

  /** A composite accepts a token iff its root accepts it and every sub-filter does. */
  lemma CompositeAcceptsIff(root: TokenFilter, subs: seq<TokenFilter>, token: string,
                            atom: (TokenFilter, string) -> bool)
    ensures Accepts(Of(root, subs), token, atom) <==>
            Accepts(root, token, atom) &&
            forall i :: 0 <= i < |subs| ==> Accepts(subs[i], token, atom)
  {
    AllAcceptIff(subs, token, atom);
  }

  /** When the root rejects, no choice of sub-filters can make the composite accept. */
  lemma RootRejectsComposite(root: TokenFilter, subs: seq<TokenFilter>, token: string,
                             atom: (TokenFilter, string) -> bool)
    requires !Accepts(root, token, atom)
    ensures forall others: seq<TokenFilter> :: !Accepts(Of(root, others), token, atom)
  {
  }

  /** Sub-filters never influence normalisation. */
  lemma NormalizeIgnoresSubFilters<N>(root: TokenFilter, subs1: seq<TokenFilter>,
                                      subs2: seq<TokenFilter>, rootPath: string, token: string,
                                      atomNormalize: (TokenFilter, string, string) -> N)
    ensures Normalize(Of(root, subs1), rootPath, token, atomNormalize)
         == Normalize(Of(root, subs2), rootPath, token, atomNormalize)
         == Normalize(root, rootPath, token, atomNormalize)
  {
  }
}
