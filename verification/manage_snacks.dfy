/**
 * The snack catalogue page's search filter.
 */
module ManageSnacks {
  import opened Common
  import opened Text
  import opened Listings

  /**
   * The listings that match the search, in their order: exactly the
   * matching ones, and a listing without a store only by its name.
   */
  function FilterListings(xs: seq<Listing>, search: String): (r: seq<Listing>)
    ensures |r| <= |xs|
    ensures forall x :: x in r <==> x in xs && MatchesSearch(x, search)
    ensures forall x :: x in r && x.snack.store.None? ==> Includes(Lower(x.snack.name), Lower(search))
  {
    if xs == [] then []
    else
      var rest := FilterListings(xs[1..], search);
      assert xs == [xs[0]] + xs[1..];
      if MatchesSearch(xs[0], search) then [xs[0]] + rest else rest
  }

  /** `filteredSnacks`: nothing while the snack list has not loaded. */
  function FilteredSnacks(snacks: Option<seq<Listing>>, search: String): (r: Option<seq<Listing>>)
    ensures r.None? <==> snacks.None?
    ensures r.Some? ==> forall x :: x in r.value <==> x in snacks.value && MatchesSearch(x, search)
  {
    match snacks
    case None => None
    case Some(xs) => Some(FilterListings(xs, search))
  }

  /** The filtered list keeps the order of the snack list. */
  lemma {:induction false} FilterIsSubsequence(xs: seq<Listing>, search: String)
    ensures Subsequence(FilterListings(xs, search), xs)
  {
    if xs != [] {
      FilterIsSubsequence(xs[1..], search);
      var rest := FilterListings(xs[1..], search);
      if MatchesSearch(xs[0], search) {
        assert ([xs[0]] + rest)[1..] == rest;
      }
    }
  }

  /** An empty search keeps every snack. */
  lemma {:induction false} EmptySearchKeepsAll(xs: seq<Listing>)
    ensures FilterListings(xs, "") == xs
  {
    if xs != [] {
      EmptySearchMatches(xs[0]);
      EmptySearchKeepsAll(xs[1..]);
      assert xs == [xs[0]] + xs[1..];
    }
  }
}
