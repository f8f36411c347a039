/**
 * What the client receives from `GET /api/snacks`: each snack with its
 * category (or null), and the search both snack pages filter with.
 */
module Listings {
  import opened Common
  import opened Text
  import opened Schema

  datatype Listing = Listing(snack: Snack, category: Option<Category>) {
    function Name(): String { snack.name }
  }

  /**
   * The search test: the lowercased name includes the lowercased search, or
   * the snack has a store and its lowercased store does.
   */
  predicate MatchesSearch(x: Listing, search: String) {
    || Includes(Lower(x.snack.name), Lower(search))
    || (x.snack.store.Some? && Includes(Lower(x.snack.store.value), Lower(search)))
  }

  /** Every listing matches the empty search. */
  lemma EmptySearchMatches(x: Listing)
    ensures MatchesSearch(x, "")
  {
    assert Lower("") == [];
    IncludesEmpty(Lower(x.snack.name));
  }

  /** `a` is `b` with some elements left out, the rest in their order. */
  predicate Subsequence<T(==)>(a: seq<T>, b: seq<T>)
    decreases |b|
  {
    if a == [] then true
    else if b == [] then false
    else (a[0] == b[0] && Subsequence(a[1..], b[1..])) || Subsequence(a, b[1..])
  }
}
