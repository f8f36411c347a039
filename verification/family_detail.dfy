/**
 * The family selection page: the snacks merged with the family's
 * quantities, grouped by category under the search, the points budget, and
 * the quantity change it sends to the server.
 */
module FamilyDetail {
  import opened Common
  import opened Text
  import opened Order
  import opened Schema
  import opened Listings
  import opened Api
  import opened Queries

  /** A snack of the page with the family's quantity of it. */
  datatype Item = Item(listing: Listing, quantity: int) {
    function Name(): String { listing.snack.name }
    function Points(): int { listing.snack.points }
  }

  function ItemName(x: Item): String { x.Name() }

  // ---------------------------------------------------------------------------
  // snacksWithQuantities

  /** Index of the first selection of the snack at or after `from`. */
  function FirstSelectionFrom(sels: seq<Selection>, snackId: int, from: nat): (r: Option<nat>)
    ensures r.Some? ==> from <= r.value < |sels| && sels[r.value].snackId == snackId
    ensures forall j :: from <= j < |sels| && (r.None? || j < r.value) ==> sels[j].snackId != snackId
    decreases |sels| - from
  {
    if from >= |sels| then None
    else if sels[from].snackId == snackId then Some(from)
    else FirstSelectionFrom(sels, snackId, from + 1)
  }

  predicate NoSelectionOf(sels: Option<seq<Selection>>, snackId: int) {
    sels.None? || forall j :: 0 <= j < |sels.value| ==> sels.value[j].snackId != snackId
  }

  /** The quantity of the first selection of the snack, or 0 without one (or before the selections load). */
  function QuantityFor(sels: Option<seq<Selection>>, snackId: int): int {
    match sels
    case None => 0
    case Some(s) =>
      match FirstSelectionFrom(s, snackId, 0)
      case Some(j) => s[j].quantity
      case None => 0
  }

  /**
   * `snacksWithQuantities`: the same snacks in the same order, each with the
   * quantity of the first selection naming it, or 0; nothing before the
   * snacks load.
   */
  function SnacksWithQuantities(snacks: Option<seq<Listing>>, sels: Option<seq<Selection>>): (r: seq<Item>)
    ensures snacks.None? ==> r == []
    ensures snacks.Some? ==> |r| == |snacks.value| && forall i :: 0 <= i < |r| ==> r[i].listing == snacks.value[i]
    ensures snacks.Some? ==> forall i :: 0 <= i < |r| && NoSelectionOf(sels, snacks.value[i].snack.id) ==> r[i].quantity == 0
    ensures snacks.Some? && sels.Some? ==> forall i, j ::
      && 0 <= i < |r| && 0 <= j < |sels.value| && sels.value[j].snackId == snacks.value[i].snack.id
      && (forall k :: 0 <= k < j ==> sels.value[k].snackId != snacks.value[i].snack.id)
      ==> r[i].quantity == sels.value[j].quantity
  {
    match snacks
    case None => []
    case Some(xs) =>
      var r := seq(|xs|, i requires 0 <= i < |xs| => Item(xs[i], QuantityFor(sels, xs[i].snack.id)));
      assert sels.Some? ==> forall i, j ::
        && 0 <= i < |r| && 0 <= j < |sels.value| && sels.value[j].snackId == xs[i].snack.id
        && (forall k :: 0 <= k < j ==> sels.value[k].snackId != xs[i].snack.id)
        ==> r[i].quantity == sels.value[j].quantity by {
        if sels.Some? {
          forall i, j |
            && 0 <= i < |r| && 0 <= j < |sels.value| && sels.value[j].snackId == xs[i].snack.id
            && (forall k :: 0 <= k < j ==> sels.value[k].snackId != xs[i].snack.id)
            ensures r[i].quantity == sels.value[j].quantity
          {
            var found := FirstSelectionFrom(sels.value, xs[i].snack.id, 0);
            assert found.Some?;
            assert !(found.value < j);
          }
        }
      }
      r
  }

  // ---------------------------------------------------------------------------
  // groupedSnacks

  /** The group a snack goes in: its category's name, or "Other" without a category or with an empty name. */
  function GroupKey(x: Item): String {
    match x.listing.category
    case None => "Other"
    case Some(c) => if c.name == "" then "Other" else c.name
  }

  /** The page's search test: an empty search shows everything. */
  predicate Shown(x: Item, search: String) {
    search == "" || MatchesSearch(x.listing, search)
  }

  /** The page shows exactly the snacks the catalogue page's filter keeps. */
  lemma ShownIsCatalogueFilter(x: Item, search: String)
    ensures Shown(x, search) <==> MatchesSearch(x.listing, search)
  {
    if search == "" {
      EmptySearchMatches(x.listing);
    }
  }

  datatype Group = Group(name: String, items: seq<Item>)

  predicate HasGroup(groups: seq<Group>, key: String) {
    exists g :: 0 <= g < |groups| && groups[g].name == key
  }

  predicate DistinctGroupNames(groups: seq<Group>) {
    forall g, h :: 0 <= g < h < |groups| ==> groups[g].name != groups[h].name
  }

  /** The group with that name, looked up among the record's own keys. */
  function FindGroup(groups: seq<Group>, key: String): (r: Option<nat>)
    ensures r.Some? ==> r.value < |groups| && groups[r.value].name == key
    ensures r.None? <==> !HasGroup(groups, key)
  {
    if groups == [] then None
    else if groups[0].name == key then Some(0)
    else match FindGroup(groups[1..], key)
      case Some(k) => Some(k + 1)
      case None => None
  }

  /** One iteration of the `forEach`: a shown snack goes at the end of its group, created if new. */
  function GroupStep(groups: seq<Group>, x: Item, search: String): seq<Group> {
    if !Shown(x, search) then groups
    else match FindGroup(groups, GroupKey(x))
      case None => groups + [Group(GroupKey(x), [x])]
      case Some(k) => groups[k := Group(groups[k].name, groups[k].items + [x])]
  }

  /** The record after the `forEach` has run over `xs`. */
  function GroupAll(xs: seq<Item>, search: String): seq<Group>
    decreases |xs|
  {
    if xs == [] then [] else GroupStep(GroupAll(xs[..|xs| - 1], search), xs[|xs| - 1], search)
  }

  /** The shown snacks of `xs` whose group is `key`, in their order. */
  function ItemsOf(xs: seq<Item>, search: String, key: String): seq<Item>
    decreases |xs|
  {
    if xs == [] then []
    else
      var x := xs[|xs| - 1];
      ItemsOf(xs[..|xs| - 1], search, key) + (if Shown(x, search) && GroupKey(x) == key then [x] else [])
  }

  /**
   * `groupedSnacks`: sort the merged snacks by name, then put every shown
   * one at the end of its category's group.
   */
  method GroupedSnacks(items: seq<Item>, search: String) returns (groups: seq<Group>)
    ensures groups == GroupAll(SortBy(items, ItemName), search)
  {
    var sorted := SortBy(items, ItemName);
    groups := [];
    var i := 0;
    while i < |sorted|
      invariant 0 <= i <= |sorted|
      invariant groups == GroupAll(sorted[..i], search)
    {
      var x := sorted[i];
      assert sorted[..i + 1][..i] == sorted[..i];
      if Shown(x, search) {
        var key := GroupKey(x);
        var found := FindGroup(groups, key);
        if found.None? {
          groups := groups + [Group(key, [x])];
        } else {
          var k := found.value;
          groups := groups[k := Group(groups[k].name, groups[k].items + [x])];
        }
      }
      i := i + 1;
    }
    assert sorted[..i] == sorted;
  }

  lemma {:induction false} ItemsOfAbsent(xs: seq<Item>, search: String, key: String)
    requires forall j :: 0 <= j < |xs| && Shown(xs[j], search) ==> GroupKey(xs[j]) != key
    ensures ItemsOf(xs, search, key) == []
    decreases |xs|
  {
    if xs != [] {
      ItemsOfAbsent(xs[..|xs| - 1], search, key);
    }
  }
  /** What the record holds for the snacks `xs`. */
  predicate GroupsOf(groups: seq<Group>, xs: seq<Item>, search: String) {
    && DistinctGroupNames(groups)
    && (forall g :: 0 <= g < |groups| ==> groups[g].items == ItemsOf(xs, search, groups[g].name))
    && (forall g :: 0 <= g < |groups| ==> groups[g].items != [])
    && (forall j :: 0 <= j < |xs| && Shown(xs[j], search) ==> HasGroup(groups, GroupKey(xs[j])))
  }

  lemma ItemsOfAppend(p: seq<Item>, x: Item, search: String, key: String)
    ensures ItemsOf(p + [x], search, key) == ItemsOf(p, search, key) + (if Shown(x, search) && GroupKey(x) == key then [x] else [])
  {
    assert (p + [x])[..|p|] == p;
  }

  lemma HasGroupKept(before: seq<Group>, after: seq<Group>, key: String)
    requires |before| <= |after| && forall g :: 0 <= g < |before| ==> after[g].name == before[g].name
    requires HasGroup(before, key)
    ensures HasGroup(after, key)
  {
    var g :| 0 <= g < |before| && before[g].name == key;
    assert after[g].name == key;
  }

  /** A snack the search hides leaves the record as it is. */
  lemma StepHidden(before: seq<Group>, p: seq<Item>, x: Item, search: String)
    requires GroupsOf(before, p, search) && !Shown(x, search)
    ensures GroupsOf(GroupStep(before, x, search), p + [x], search)
  {
    forall g | 0 <= g < |before| ensures before[g].items == ItemsOf(p + [x], search, before[g].name) {
      ItemsOfAppend(p, x, search, before[g].name);
    }
    assert forall j :: 0 <= j < |p| ==> (p + [x])[j] == p[j];
  }

  /** A shown snack with a new key opens a group at the end. */
  lemma StepNewGroup(before: seq<Group>, p: seq<Item>, x: Item, search: String)
    requires GroupsOf(before, p, search) && Shown(x, search) && !HasGroup(before, GroupKey(x))
    ensures GroupsOf(GroupStep(before, x, search), p + [x], search)
  {
    var key := GroupKey(x);
    var after := before + [Group(key, [x])];
    assert GroupStep(before, x, search) == after;
    forall j | 0 <= j < |p| && Shown(p[j], search) ensures GroupKey(p[j]) != key {
      assert HasGroup(before, GroupKey(p[j]));
    }
    ItemsOfAbsent(p, search, key);
    forall g | 0 <= g < |after| ensures after[g].items == ItemsOf(p + [x], search, after[g].name) {
      ItemsOfAppend(p, x, search, after[g].name);
    }
    forall j | 0 <= j < |p + [x]| && Shown((p + [x])[j], search) ensures HasGroup(after, GroupKey((p + [x])[j])) {
      if j < |p| {
        HasGroupKept(before, after, GroupKey(p[j]));
      } else {
        assert after[|before|].name == key;
      }
    }
  }

  /** A shown snack with a known key goes at the end of that group. */
  lemma StepExistingGroup(before: seq<Group>, p: seq<Item>, x: Item, search: String, k: nat)
    requires GroupsOf(before, p, search) && Shown(x, search)
    requires k < |before| && before[k].name == GroupKey(x)
    ensures GroupsOf(before[k := Group(before[k].name, before[k].items + [x])], p + [x], search)
  {
    var after := before[k := Group(before[k].name, before[k].items + [x])];
    forall g | 0 <= g < |after| ensures after[g].items == ItemsOf(p + [x], search, after[g].name) {
      ItemsOfAppend(p, x, search, after[g].name);
    }
    forall j | 0 <= j < |p + [x]| && Shown((p + [x])[j], search) ensures HasGroup(after, GroupKey((p + [x])[j])) {
      if j < |p| {
        HasGroupKept(before, after, GroupKey(p[j]));
      } else {
        assert after[k].name == GroupKey(x);
      }
    }
  }

  lemma StepKeepsGroupsOf(before: seq<Group>, p: seq<Item>, x: Item, search: String)
    requires GroupsOf(before, p, search)
    ensures GroupsOf(GroupStep(before, x, search), p + [x], search)
  {
    if !Shown(x, search) {
      StepHidden(before, p, x, search);
    } else {
      match FindGroup(before, GroupKey(x))
      case None => StepNewGroup(before, p, x, search);
      case Some(k) => StepExistingGroup(before, p, x, search, k);
    }
  }

  /**
   * What the record holds after the `forEach`: distinct keys, one group per
   * key of a shown snack, and each group holding exactly the shown snacks
   * with its key, in list order.
   */
  lemma {:induction false} GroupAllShape(xs: seq<Item>, search: String)
    ensures GroupsOf(GroupAll(xs, search), xs, search)
    decreases |xs|
  {
    if xs != [] {
      var p := xs[..|xs| - 1];
      GroupAllShape(p, search);
      StepKeepsGroupsOf(GroupAll(p, search), p, xs[|xs| - 1], search);
      assert p + [xs[|xs| - 1]] == xs;
    }
  }

  lemma {:induction false} ItemsOfMembers(xs: seq<Item>, search: String, key: String)
    ensures forall x :: x in ItemsOf(xs, search, key) <==> x in xs && Shown(x, search) && GroupKey(x) == key
    decreases |xs|
  {
    if xs != [] {
      ItemsOfMembers(xs[..|xs| - 1], search, key);
      assert xs == xs[..|xs| - 1] + [xs[|xs| - 1]];
    }
  }

  /** Picking snacks out of a name-sorted list keeps them sorted. */
  lemma {:induction false} ItemsOfSorted(xs: seq<Item>, search: String, key: String)
    requires SortedBy(xs, ItemName)
    ensures SortedBy(ItemsOf(xs, search, key), ItemName)
    decreases |xs|
  {
    if xs != [] {
      var p := xs[..|xs| - 1];
      var x := xs[|xs| - 1];
      ItemsOfSorted(p, search, key);
      ItemsOfMembers(p, search, key);
      var rp := ItemsOf(p, search, key);
      var r := ItemsOf(xs, search, key);
      forall i, j | 0 <= i < j < |r| ensures LexLe(ItemName(r[i]), ItemName(r[j])) {
        if j >= |rp| {
          assert rp[i] in rp;
          var a :| 0 <= a < |p| && p[a] == rp[i];
          assert xs[a] == r[i] && r[j] == x;
        }
      }
    }
  }

  /** Every shown snack is in exactly one group: the one named by its category (or "Other"). */
  lemma ShownInExactlyOneGroup(xs: seq<Item>, search: String, x: Item)
    requires x in xs && Shown(x, search)
    ensures exists g ::
      0 <= g < |GroupAll(xs, search)| && GroupAll(xs, search)[g].name == GroupKey(x) && x in GroupAll(xs, search)[g].items
    ensures var groups := GroupAll(xs, search);
      forall g :: 0 <= g < |groups| && x in groups[g].items ==> groups[g].name == GroupKey(x)
  {
    var groups := GroupAll(xs, search);
    GroupAllShape(xs, search);
    var j :| 0 <= j < |xs| && xs[j] == x;
    assert HasGroup(groups, GroupKey(xs[j]));
    var g :| 0 <= g < |groups| && groups[g].name == GroupKey(x);
    ItemsOfMembers(xs, search, GroupKey(x));
    assert groups[g].items == ItemsOf(xs, search, GroupKey(x));
    assert x in groups[g].items;
    forall h | 0 <= h < |groups| && x in groups[h].items ensures groups[h].name == GroupKey(x) {
      ItemsOfMembers(xs, search, groups[h].name);
    }
  }

  /** A snack the search hides is in no group. */
  lemma HiddenInNoGroup(xs: seq<Item>, search: String, x: Item)
    requires !Shown(x, search)
    ensures var groups := GroupAll(xs, search); forall g :: 0 <= g < |groups| ==> x !in groups[g].items
  {
    var groups := GroupAll(xs, search);
    GroupAllShape(xs, search);
    forall g | 0 <= g < |groups| ensures x !in groups[g].items {
      ItemsOfMembers(xs, search, groups[g].name);
    }
  }

  /** With an empty search every snack is in a group. */
  lemma EmptySearchGroupsAll(xs: seq<Item>, x: Item)
    requires x in xs
    ensures var groups := GroupAll(xs, ""); exists g :: 0 <= g < |groups| && x in groups[g].items
  {
    ShownInExactlyOneGroup(xs, "", x);
  }

  /** Inside a group the snacks keep the name order of the sorted list. */
  lemma GroupsKeepNameOrder(items: seq<Item>, search: String)
    ensures var groups := GroupAll(SortBy(items, ItemName), search);
      forall g :: 0 <= g < |groups| ==> SortedBy(groups[g].items, ItemName)
  {
    var sorted := SortBy(items, ItemName);
    var groups := GroupAll(sorted, search);
    GroupAllShape(sorted, search);
    forall g | 0 <= g < |groups| ensures SortedBy(groups[g].items, ItemName) {
      ItemsOfSorted(sorted, search, groups[g].name);
    }
  }

  /**
   * Snacks listed without their category (as the snacks query of this
   * storage returns them) all land in one group, "Other".
   */
  lemma UncategorisedAllOther(xs: seq<Item>, search: String)
    requires forall i :: 0 <= i < |xs| ==> xs[i].listing.category.None?
    ensures forall g :: 0 <= g < |GroupAll(xs, search)| ==> GroupAll(xs, search)[g].name == "Other"
    ensures |GroupAll(xs, search)| <= 1
  {
    var groups := GroupAll(xs, search);
    GroupAllShape(xs, search);
    forall g | 0 <= g < |groups| ensures groups[g].name == "Other" {
      var name := groups[g].name;
      ItemsOfMembers(xs, search, name);
      var y := groups[g].items[0];
      assert y in ItemsOf(xs, search, name);
      var j :| 0 <= j < |xs| && xs[j] == y;
    }
  }

  // The record as the page writes it: a plain object, whose lookups also see
  // the members every object inherits.

  /** The names every plain object inherits. */
  const InheritedNames: set<String> := {
    "constructor", "__proto__", "hasOwnProperty", "isPrototypeOf", "propertyIsEnumerable",
    "toLocaleString", "toString", "valueOf",
    "__defineGetter__", "__defineSetter__", "__lookupGetter__", "__lookupSetter__"
  }

  /** What `grouped[key]` finds on the object. */
  datatype Lookup = OwnGroup(index: nat) | InheritedMember | Undefined

  function LookupAsWritten(groups: seq<Group>, key: String): Lookup {
    match FindGroup(groups, key)
    case Some(k) => OwnGroup(k)
    case None => if key in InheritedNames then InheritedMember else Undefined
  }

  /**
   * The `forEach` as written: an inherited member is truthy, so no group is
   * created, and it has no `push`, so the page throws (`None`).
   */
  function GroupAllAsWritten(xs: seq<Item>, search: String): Option<seq<Group>>
    decreases |xs|
  {
    if xs == [] then Some([])
    else match GroupAllAsWritten(xs[..|xs| - 1], search)
      case None => None
      case Some(groups) =>
        var x := xs[|xs| - 1];
        if !Shown(x, search) then Some(groups)
        else match LookupAsWritten(groups, GroupKey(x))
          case Undefined => Some(groups + [Group(GroupKey(x), [x])])
          case OwnGroup(k) => Some(groups[k := Group(groups[k].name, groups[k].items + [x])])
          case InheritedMember => None
  }


  predicate ShowsInheritedKey(xs: seq<Item>, search: String) {
    exists j :: 0 <= j < |xs| && Shown(xs[j], search) && GroupKey(xs[j]) in InheritedNames
  }

  lemma ShowsInheritedKeyAppend(p: seq<Item>, x: Item, search: String)
    ensures ShowsInheritedKey(p + [x], search) <==>
      ShowsInheritedKey(p, search) || (Shown(x, search) && GroupKey(x) in InheritedNames)
  {
    var xs := p + [x];
    assert forall j :: 0 <= j < |p| ==> xs[j] == p[j];
    if ShowsInheritedKey(xs, search) && !ShowsInheritedKey(p, search) {
      var j :| 0 <= j < |xs| && Shown(xs[j], search) && GroupKey(xs[j]) in InheritedNames;
      assert j == |p|;
    }
    if Shown(x, search) && GroupKey(x) in InheritedNames {
      assert xs[|p|] == x;
    }
  }

  /** While no shown snack has an inherited key, no group is named like one. */
  lemma NoInheritedGroupName(p: seq<Item>, search: String, key: String)
    requires !ShowsInheritedKey(p, search) && key in InheritedNames
    ensures !HasGroup(GroupAll(p, search), key)
  {
    var groups := GroupAll(p, search);
    GroupAllShape(p, search);
    forall g | 0 <= g < |groups| ensures groups[g].name != key {
      var name := groups[g].name;
      ItemsOfMembers(p, search, name);
      var y := groups[g].items[0];
      assert y in ItemsOf(p, search, name);
      var j :| 0 <= j < |p| && p[j] == y;
      assert Shown(p[j], search) && GroupKey(p[j]) == name;
    }
  }

  /** One step of the page as written, while it has not thrown. */
  lemma AsWrittenStep(p: seq<Item>, x: Item, search: String)
    requires !ShowsInheritedKey(p, search)
    requires GroupAllAsWritten(p, search) == Some(GroupAll(p, search))
    ensures Shown(x, search) && GroupKey(x) in InheritedNames ==> GroupAllAsWritten(p + [x], search) == None
    ensures !(Shown(x, search) && GroupKey(x) in InheritedNames) ==>
      GroupAllAsWritten(p + [x], search) == Some(GroupAll(p + [x], search))
  {
    var xs := p + [x];
    assert xs[..|xs| - 1] == p && xs[|xs| - 1] == x;
    if Shown(x, search) && GroupKey(x) in InheritedNames {
      NoInheritedGroupName(p, search, GroupKey(x));
    }
  }

  /**
   * The page as written agrees with own-key grouping unless a shown snack's
   * category is named like an inherited member; then it throws.
   */
  lemma {:induction false} AsWrittenAgreesOrThrows(xs: seq<Item>, search: String)
    ensures !ShowsInheritedKey(xs, search) ==> GroupAllAsWritten(xs, search) == Some(GroupAll(xs, search))
    ensures ShowsInheritedKey(xs, search) ==> GroupAllAsWritten(xs, search) == None
    decreases |xs|
  {
    if xs != [] {
      var p := xs[..|xs| - 1];
      var x := xs[|xs| - 1];
      assert xs == p + [x];
      AsWrittenAgreesOrThrows(p, search);
      ShowsInheritedKeyAppend(p, x, search);
      if !ShowsInheritedKey(p, search) {
        AsWrittenStep(p, x, search);
      }
    }
  }

  /** A snack in a category named "constructor" makes the page throw. */
  lemma ConstructorCategoryThrows(s: Snack, quantity: int)
    ensures GroupAllAsWritten([Item(Listing(s, Some(Category(1, "constructor"))), quantity)], "") == None
  {
    var xs := [Item(Listing(s, Some(Category(1, "constructor"))), quantity)];
    assert xs[..0] == [];
    assert GroupKey(xs[0]) == "constructor";
  }

  // ---------------------------------------------------------------------------
  // Budget

  /** `totalPointsUsed`: points × quantity summed over the merged list. */
  function TotalPointsUsed(items: seq<Item>): int {
    if items == [] then 0 else items[0].Points() * items[0].quantity + TotalPointsUsed(items[1..])
  }

  /** `pointsRemaining`: the allowance (0 while the family is missing) minus the points used. */
  function PointsRemaining(family: Option<Family>, totalPointsUsed: int): int {
    (if family.Some? then family.value.pointsAllowed else 0) - totalPointsUsed
  }

  predicate IsOverLimit(pointsRemaining: int) {
    pointsRemaining < 0
  }

  lemma {:induction false} TotalOfZeroQuantities(items: seq<Item>)
    requires forall i :: 0 <= i < |items| ==> items[i].quantity == 0
    ensures TotalPointsUsed(items) == 0
    decreases |items|
  {
    if items != [] {
      TotalOfZeroQuantities(items[1..]);
    }
  }

  /** Without selections nothing is used and the whole allowance remains. */
  lemma NoSelectionsUseNothing(snacks: Option<seq<Listing>>, sels: Option<seq<Selection>>, family: Family)
    requires sels.None? || sels == Some([])
    ensures TotalPointsUsed(SnacksWithQuantities(snacks, sels)) == 0
    ensures PointsRemaining(Some(family), TotalPointsUsed(SnacksWithQuantities(snacks, sels))) == family.pointsAllowed
  {
    TotalOfZeroQuantities(SnacksWithQuantities(snacks, sels));
  }

  /** 800 allowed, 3 of a 16-point snack and 2 of a 25-point snack: 98 used, 702 left, within the limit. */
  lemma BudgetExample(f: Family, a: Listing, b: Listing)
    requires f.pointsAllowed == 800 && a.snack.points == 16 && b.snack.points == 25
    ensures TotalPointsUsed([Item(a, 3), Item(b, 2)]) == 98
    ensures PointsRemaining(Some(f), 98) == 702 && !IsOverLimit(702)
  {
    var items := [Item(a, 3), Item(b, 2)];
    assert items[1..] == [Item(b, 2)];
    assert items[1..][1..] == [];
    assert TotalPointsUsed(items[1..]) == 50;
  }

  // The page's total against the server's total for the same family.

  /** The snacks of the listings, in order. */
  function SnacksOf(ls: seq<Listing>): (r: seq<Snack>)
    ensures |r| == |ls| && forall i :: 0 <= i < |ls| ==> r[i] == ls[i].snack
  {
    if ls == [] then [] else [ls[0].snack] + SnacksOf(ls[1..])
  }

  predicate DistinctSnackIds(sels: seq<Selection>) {
    forall i, j :: 0 <= i < j < |sels| ==> sels[i].snackId != sels[j].snackId
  }

  /** The quantities of the selections of one snack, added up. */
  function SelSum(sels: seq<Selection>, snackId: int): int {
    if sels == [] then 0
    else (if sels[0].snackId == snackId then sels[0].quantity else 0) + SelSum(sels[1..], snackId)
  }

  /** quantity × points of the selections of one snack, added up. */
  function SelPoints(sels: seq<Selection>, snackId: int, points: int): int {
    if sels == [] then 0
    else (if sels[0].snackId == snackId then sels[0].quantity * points else 0) + SelPoints(sels[1..], snackId, points)
  }

  lemma {:induction false} SelPointsFactor(sels: seq<Selection>, snackId: int, points: int)
    ensures SelPoints(sels, snackId, points) == points * SelSum(sels, snackId)
    decreases |sels|
  {
    if sels != [] {
      SelPointsFactor(sels[1..], snackId, points);
    }
  }

  lemma {:induction false} SelSumAbsent(sels: seq<Selection>, snackId: int)
    requires forall j :: 0 <= j < |sels| ==> sels[j].snackId != snackId
    ensures SelSum(sels, snackId) == 0
    decreases |sels|
  {
    if sels != [] {
      SelSumAbsent(sels[1..], snackId);
    }
  }

  /** With one selection per snack, the first selection's quantity is the sum over the snack's selections. */
  lemma {:induction false} FirstIsSum(sels: seq<Selection>, snackId: int, from: nat)
    requires DistinctSnackIds(sels) && from <= |sels|
    ensures (match FirstSelectionFrom(sels, snackId, from) case Some(j) => sels[j].quantity case None => 0)
      == SelSum(sels[from..], snackId)
    decreases |sels| - from
  {
    if from < |sels| {
      var rest := sels[from..];
      assert rest[0] == sels[from] && rest[1..] == sels[from + 1..];
      if sels[from].snackId == snackId {
        SelSumAbsent(sels[from + 1..], snackId);
      } else {
        FirstIsSum(sels, snackId, from + 1);
      }
    }
  }

  /** The page's total, taken snack by snack. */
  function ListSum(ls: seq<Listing>, sels: seq<Selection>): int {
    if ls == [] then 0 else SelPoints(sels, ls[0].snack.id, ls[0].snack.points) + ListSum(ls[1..], sels)
  }

  /** What one selection adds to the snack-by-snack total. */
  function ListHead(ls: seq<Listing>, sel: Selection): int {
    if ls == [] then 0
    else (if sel.snackId == ls[0].snack.id then sel.quantity * ls[0].snack.points else 0) + ListHead(ls[1..], sel)
  }

  lemma {:induction false} MergedTotal(items: seq<Item>, ls: seq<Listing>, sels: seq<Selection>)
    requires DistinctSnackIds(sels) && |items| == |ls|
    requires forall i :: 0 <= i < |ls| ==> items[i] == Item(ls[i], QuantityFor(Some(sels), ls[i].snack.id))
    ensures TotalPointsUsed(items) == ListSum(ls, sels)
    decreases |ls|
  {
    if ls != [] {
      var id := ls[0].snack.id;
      FirstIsSum(sels, id, 0);
      assert sels[0..] == sels;
      SelPointsFactor(sels, id, ls[0].snack.points);
      MergedTotal(items[1..], ls[1..], sels);
    }
  }

  lemma {:induction false} ListSumNoSelections(ls: seq<Listing>)
    ensures ListSum(ls, []) == 0
    decreases |ls|
  {
    if ls != [] {
      ListSumNoSelections(ls[1..]);
    }
  }

  lemma {:induction false} ListSumSplit(ls: seq<Listing>, sels: seq<Selection>)
    requires sels != []
    ensures ListSum(ls, sels) == ListHead(ls, sels[0]) + ListSum(ls, sels[1..])
    decreases |ls|
  {
    if ls != [] {
      ListSumSplit(ls[1..], sels);
    }
  }

  lemma {:induction false} ListHeadAbsent(ls: seq<Listing>, sel: Selection)
    requires forall i :: 0 <= i < |ls| ==> ls[i].snack.id != sel.snackId
    ensures ListHead(ls, sel) == 0
    decreases |ls|
  {
    if ls != [] {
      ListHeadAbsent(ls[1..], sel);
    }
  }

  /** With unique snack ids a selection meets at most one listing: the snack a join would find. */
  lemma {:induction false} ListHeadValue(ls: seq<Listing>, sel: Selection)
    requires UniqueSnackIds(SnacksOf(ls))
    ensures ListHead(ls, sel) == match FindSnack(SnacksOf(ls), sel.snackId)
      case Some(s) => sel.quantity * s.points
      case None => 0
    decreases |ls|
  {
    if ls != [] {
      var ss := SnacksOf(ls);
      assert ss[1..] == SnacksOf(ls[1..]);
      assert UniqueSnackIds(SnacksOf(ls[1..])) by {
        forall i, j | 0 <= i < j < |ls| - 1 ensures SnacksOf(ls[1..])[i].id != SnacksOf(ls[1..])[j].id {
          assert ss[i + 1].id != ss[j + 1].id;
        }
      }
      if ls[0].snack.id == sel.snackId {
        forall i | 0 <= i < |ls| - 1 ensures ls[1..][i].snack.id != sel.snackId {
          assert ss[0].id != ss[i + 1].id;
        }
        ListHeadAbsent(ls[1..], sel);
      } else {
        ListHeadValue(ls[1..], sel);
      }
    }
  }

  /**
   * Fed the family's selections (one per snack, as the pair constraint
   * guarantees), the page's total is the total the server reports for the
   * family.
   */
  lemma {:induction false} PageTotalIsServerTotal(ls: seq<Listing>, sels: seq<Selection>, familyId: int)
    requires UniqueSnackIds(SnacksOf(ls)) && DistinctSnackIds(sels)
    requires forall j :: 0 <= j < |sels| ==> sels[j].familyId == familyId
    ensures TotalPointsUsed(SnacksWithQuantities(Some(ls), Some(sels))) == FamilyPoints(sels, SnacksOf(ls), familyId)
  {
    var items := SnacksWithQuantities(Some(ls), Some(sels));
    MergedTotal(items, ls, sels);
    ListSumIsFamilyPoints(ls, sels, familyId);
  }

  /**
   * Fed the family's selections, the page's remaining points are the
   * allowance minus the points the server reports for the family, and the
   * page warns exactly when that total exceeds the allowance.
   */
  lemma OverLimitAgreesWithServer(f: Family, ls: seq<Listing>, sels: seq<Selection>)
    requires UniqueSnackIds(SnacksOf(ls)) && DistinctSnackIds(sels)
    requires forall j :: 0 <= j < |sels| ==> sels[j].familyId == f.id
    ensures PointsRemaining(Some(f), TotalPointsUsed(SnacksWithQuantities(Some(ls), Some(sels))))
      == f.pointsAllowed - FamilyPoints(sels, SnacksOf(ls), f.id)
    ensures IsOverLimit(PointsRemaining(Some(f), TotalPointsUsed(SnacksWithQuantities(Some(ls), Some(sels)))))
      <==> FamilyPoints(sels, SnacksOf(ls), f.id) > f.pointsAllowed
  {
    PageTotalIsServerTotal(ls, sels, f.id);
  }

  lemma {:induction false} ListSumIsFamilyPoints(ls: seq<Listing>, sels: seq<Selection>, familyId: int)
    requires UniqueSnackIds(SnacksOf(ls))
    requires forall j :: 0 <= j < |sels| ==> sels[j].familyId == familyId
    ensures ListSum(ls, sels) == FamilyPoints(sels, SnacksOf(ls), familyId)
    decreases |sels|
  {
    if sels == [] {
      ListSumNoSelections(ls);
    } else {
      ListSumSplit(ls, sels);
      ListHeadValue(ls, sels[0]);
      ListSumIsFamilyPoints(ls, sels[1..], familyId);
    }
  }

  // ---------------------------------------------------------------------------
  // handleQuantityChange

  /** The update the page sends: none for a negative quantity, else exactly the family, snack and quantity. */
  function HandleQuantityChange(familyId: int, snackId: int, newQuantity: int): (r: Option<InsertSelection>)
    ensures r.None? <==> newQuantity < 0
    ensures r.Some? ==> r.value.familyId == familyId && r.value.snackId == snackId && r.value.quantity == newQuantity
  {
    if newQuantity < 0 then None else Some(InsertSelection(familyId, snackId, newQuantity))
  }

  /**
   * The page and the server draw the same line: what the page sends the
   * server accepts unchanged, and what the page holds back the server would
   * refuse.
   */
  lemma ClientAndServerAgree(familyId: int, snackId: int, q: int)
    ensures var ins := InsertSelection(familyId, snackId, q);
      && (HandleQuantityChange(familyId, snackId, q).Some? ==> ParseSelectionUpdate(SelectionBody(ins)) == Accepted(ins))
      && (HandleQuantityChange(familyId, snackId, q).None? ==> ParseSelectionUpdate(SelectionBody(ins)).Rejected?)
  {
    var ins := InsertSelection(familyId, snackId, q);
    if q >= 0 {
      SelectionBodyAccepted(ins);
    } else {
      NegativeQuantityRejected(ins);
    }
  }
}
