/**
 * The store's read queries as functions of the table contents: the per-family
 * points total (a LEFT JOIN with SUM and COALESCE), the master shopping list
 * (an inner JOIN filtered on quantity > 0, grouped by snack), a family's
 * selections joined with their snacks, and the snack list ordered by name.
 */
module Queries {
  import opened Common
  import opened Text
  import opened Order
  import opened Schema

  function SnackName(s: Snack): String { s.name }
  function FamilyName(f: Family): String { f.name }

  /** The snack a join on `snacks.id = snackId` finds, if any. */
  function FindSnack(ss: seq<Snack>, id: int): (r: Option<Snack>)
    ensures r.Some? ==> r.value in ss && r.value.id == id
    ensures r.None? <==> !HasSnack(ss, id)
  {
    if ss == [] then None
    else if ss[0].id == id then Some(ss[0])
    else FindSnack(ss[1..], id)
  }

  /** With unique ids, the snack found is the one with that id. */
  lemma FindSnackUnique(ss: seq<Snack>, s: Snack)
    requires UniqueSnackIds(ss) && s in ss
    ensures FindSnack(ss, s.id) == Some(s)
  {
    var r := FindSnack(ss, s.id).value;
    var i :| 0 <= i < |ss| && ss[i] == s;
    var j :| 0 <= j < |ss| && ss[j] == r;
    assert i == j;
  }

  /** The family `getFamily(id)` finds, if any. */
  function FindFamily(fs: seq<Family>, id: int): (r: Option<Family>)
    ensures r.Some? ==> r.value in fs && r.value.id == id
    ensures r.None? <==> !HasFamily(fs, id)
  {
    if fs == [] then None
    else if fs[0].id == id then Some(fs[0])
    else FindFamily(fs[1..], id)
  }

  // ---------------------------------------------------------------------------
  // getFamilies

  datatype FamilyWithTotal = FamilyWithTotal(id: int, name: String, pointsAllowed: int, totalPointsUsed: int) {
    /** The family record the row was built from. */
    function Base(): Family { Family(id, name, pointsAllowed) }
  }

  /**
   * Reference definition of a family's points used: over the family's
   * selections, quantity × the points of the selected snack. A selection
   * whose snack is missing contributes nothing.
   */
  function FamilyPoints(sels: seq<Selection>, ss: seq<Snack>, familyId: int): int {
    if sels == [] then 0
    else
      var here :=
        if sels[0].familyId != familyId then 0
        else match FindSnack(ss, sels[0].snackId)
          case Some(s) => sels[0].quantity * s.points
          case None => 0;
      here + FamilyPoints(sels[1..], ss, familyId)
  }

  /** A family with no selections has used no points. */
  lemma {:induction false} FamilyPointsNoSelections(sels: seq<Selection>, ss: seq<Snack>, familyId: int)
    requires forall sel :: sel in sels ==> sel.familyId != familyId
    ensures FamilyPoints(sels, ss, familyId) == 0
  {
    if sels != [] {
      FamilyPointsNoSelections(sels[1..], ss, familyId);
    }
  }

  /** `sel.quantity * s.points` of one joined row; NULL when no snack matched. */
  function JoinedProduct(sel: Selection, ss: seq<Snack>): Option<int> {
    match FindSnack(ss, sel.snackId)
    case Some(s) => Some(sel.quantity * s.points)
    case None => None
  }

  /** The rows `families f LEFT JOIN selections sel LEFT JOIN snacks s` yields for one family with a selection. */
  function JoinedProducts(f: Family, sels: seq<Selection>, ss: seq<Snack>): seq<Option<int>> {
    if sels == [] then []
    else (if sels[0].familyId == f.id then [JoinedProduct(sels[0], ss)] else [])
         + JoinedProducts(f, sels[1..], ss)
  }

  /** A family without selections still yields one row, whose product is NULL. */
  function LeftJoinRows(f: Family, sels: seq<Selection>, ss: seq<Snack>): seq<Option<int>> {
    var rows := JoinedProducts(f, sels, ss);
    if rows == [] then [None] else rows
  }

  /** SQL `SUM`: NULLs are skipped, and the sum of no values is NULL. */
  function SqlSum(vals: seq<Option<int>>): Option<int> {
    if vals == [] then None
    else match (vals[0], SqlSum(vals[1..]))
      case (None, rest) => rest
      case (Some(x), None) => Some(x)
      case (Some(x), Some(y)) => Some(x + y)
  }

  /** `COALESCE(v, d)` */
  function Coalesce(v: Option<int>, d: int): int {
    v.GetOr(d)
  }

  /** `COALESCE(SUM(sel.quantity * s.points), 0)` over one family's group. */
  function TotalPointsUsed(f: Family, sels: seq<Selection>, ss: seq<Snack>): int {
    Coalesce(SqlSum(LeftJoinRows(f, sels, ss)), 0)
  }

  function SumNonNull(vals: seq<Option<int>>): int {
    if vals == [] then 0 else vals[0].GetOr(0) + SumNonNull(vals[1..])
  }

  lemma {:induction false} CoalesceSum(vals: seq<Option<int>>)
    ensures Coalesce(SqlSum(vals), 0) == SumNonNull(vals)
  {
    if vals != [] {
      CoalesceSum(vals[1..]);
      match vals[0]
      case None =>
      case Some(x) =>
        assert SqlSum(vals).Some? && SqlSum(vals).value == x + Coalesce(SqlSum(vals[1..]), 0);
    }
  }

  lemma {:induction false} SumNonNullAppend(a: seq<Option<int>>, b: seq<Option<int>>)
    ensures SumNonNull(a + b) == SumNonNull(a) + SumNonNull(b)
  {
    if a != [] {
      assert (a + b)[0] == a[0];
      assert (a + b)[1..] == a[1..] + b;
      SumNonNullAppend(a[1..], b);
      calc {
        SumNonNull(a + b);
        (a + b)[0].GetOr(0) + SumNonNull((a + b)[1..]);
        a[0].GetOr(0) + SumNonNull(a[1..] + b);
      }
    } else {
      assert a + b == b;
    }
  }

  lemma {:induction false} JoinedProductsSum(f: Family, sels: seq<Selection>, ss: seq<Snack>)
    ensures SumNonNull(JoinedProducts(f, sels, ss)) == FamilyPoints(sels, ss, f.id)
  {
    if sels != [] {
      JoinedProductsSum(f, sels[1..], ss);
      var head := if sels[0].familyId == f.id then [JoinedProduct(sels[0], ss)] else [];
      SumNonNullAppend(head, JoinedProducts(f, sels[1..], ss));
    }
  }

  /**
   * The left join with SUM and COALESCE computes the reference total: a
   * family with no selections gets 0 rather than NULL, a selection whose snack
   * is missing adds nothing.
   */
  lemma LeftJoinTotal(f: Family, sels: seq<Selection>, ss: seq<Snack>)
    ensures TotalPointsUsed(f, sels, ss) == FamilyPoints(sels, ss, f.id)
  {
    CoalesceSum(LeftJoinRows(f, sels, ss));
    JoinedProductsSum(f, sels, ss);
  }

  function WithTotal(f: Family, sels: seq<Selection>, ss: seq<Snack>): FamilyWithTotal {
    FamilyWithTotal(f.id, f.name, f.pointsAllowed, TotalPointsUsed(f, sels, ss))
  }

  function Bases(rows: seq<FamilyWithTotal>): seq<Family> {
    seq(|rows|, i requires 0 <= i < |rows| => rows[i].Base())
  }

  /**
   * `getFamilies`: every family exactly once (the rows are a permutation of
   * the families table), ordered by name, each with the points it has used.
   */
  function FamiliesWithTotals(fs: seq<Family>, sels: seq<Selection>, ss: seq<Snack>): (r: seq<FamilyWithTotal>)
    ensures |r| == |fs|
    ensures multiset(Bases(r)) == multiset(fs)
    ensures forall i, j :: 0 <= i < j < |r| ==> LexLe(r[i].name, r[j].name)
    ensures forall i :: 0 <= i < |r| ==> r[i].totalPointsUsed == FamilyPoints(sels, ss, r[i].id)
  {
    var sorted := SortBy(fs, FamilyName);
    var r := seq(|sorted|, i requires 0 <= i < |sorted| => WithTotal(sorted[i], sels, ss));
    assert Bases(r) == sorted;
    assert forall i :: 0 <= i < |r| ==> r[i].totalPointsUsed == FamilyPoints(sels, ss, r[i].id) by {
      forall i | 0 <= i < |r| ensures r[i].totalPointsUsed == FamilyPoints(sels, ss, r[i].id) {
        LeftJoinTotal(sorted[i], sels, ss);
      }
    }
    r
  }

  // ---------------------------------------------------------------------------
  // getMasterList

  datatype MasterRow = MasterRow(snackId: int, snackName: String, store: Option<String>, totalQuantity: int, totalPoints: int)

  /** The row passes `WHERE sel.quantity > 0` and belongs to the snack's group. */
  predicate Counted(sel: Selection, snackId: int) {
    sel.snackId == snackId && sel.quantity > 0
  }

  predicate HasPositive(sels: seq<Selection>, snackId: int) {
    exists sel :: sel in sels && Counted(sel, snackId)
  }

  /** `SUM(sel.quantity)` over the snack's group. */
  function PositiveQuantity(sels: seq<Selection>, snackId: int): int {
    if sels == [] then 0
    else (if Counted(sels[0], snackId) then sels[0].quantity else 0) + PositiveQuantity(sels[1..], snackId)
  }

  /** `SUM(sel.quantity * s.points)` over the snack's group. */
  function PositivePoints(sels: seq<Selection>, snackId: int, points: int): int {
    if sels == [] then 0
    else (if Counted(sels[0], snackId) then sels[0].quantity * points else 0) + PositivePoints(sels[1..], snackId, points)
  }

  /** A group's quantity is positive exactly when it has a row, and is 0 otherwise. */
  lemma {:induction false} PositiveQuantitySign(sels: seq<Selection>, snackId: int)
    ensures HasPositive(sels, snackId) <==> PositiveQuantity(sels, snackId) > 0
    ensures !HasPositive(sels, snackId) ==> PositiveQuantity(sels, snackId) == 0
  {
    if sels != [] {
      PositiveQuantitySign(sels[1..], snackId);
      assert HasPositive(sels, snackId) <==> Counted(sels[0], snackId) || HasPositive(sels[1..], snackId) by {
        assert sels == [sels[0]] + sels[1..];
      }
    }
  }

  /** Summing quantity × points row by row is points × the summed quantity. */
  lemma {:induction false} PositivePointsFactor(sels: seq<Selection>, snackId: int, points: int)
    ensures PositivePoints(sels, snackId, points) == points * PositiveQuantity(sels, snackId)
  {
    if sels != [] {
      PositivePointsFactor(sels[1..], snackId, points);
    }
  }

  function MasterRowOf(s: Snack, sels: seq<Selection>): MasterRow {
    MasterRow(s.id, s.name, s.store, PositiveQuantity(sels, s.id), PositivePoints(sels, s.id, s.points))
  }

  function RowName(row: MasterRow): String { row.snackName }

  /** The rows of the grouped query, for snacks already in name order. */
  function GroupRows(sorted: seq<Snack>, sels: seq<Selection>): seq<MasterRow> {
    if sorted == [] then []
    else (if HasPositive(sels, sorted[0].id) then [MasterRowOf(sorted[0], sels)] else [])
         + GroupRows(sorted[1..], sels)
  }

  lemma {:induction false} GroupRowsFrom(sorted: seq<Snack>, sels: seq<Selection>)
    ensures forall row :: row in GroupRows(sorted, sels) ==>
      exists s :: s in sorted && HasPositive(sels, s.id) && row == MasterRowOf(s, sels)
  {
    if sorted != [] {
      GroupRowsFrom(sorted[1..], sels);
      assert forall s :: s in sorted[1..] ==> s in sorted;
    }
  }

  lemma {:induction false} GroupRowsComplete(sorted: seq<Snack>, sels: seq<Selection>)
    ensures forall s :: s in sorted && HasPositive(sels, s.id) ==> MasterRowOf(s, sels) in GroupRows(sorted, sels)
  {
    if sorted != [] {
      GroupRowsComplete(sorted[1..], sels);
      assert forall s :: s in sorted ==> s == sorted[0] || s in sorted[1..];
    }
  }

  lemma SortedTail<T>(xs: seq<T>, key: T -> String)
    requires xs != [] && SortedBy(xs, key)
    ensures SortedBy(xs[1..], key)
    ensures forall x :: x in xs[1..] ==> LexLe(key(xs[0]), key(x))
  {
    forall x | x in xs[1..] ensures LexLe(key(xs[0]), key(x)) {
      var k :| 0 <= k < |xs[1..]| && xs[1..][k] == x;
      assert xs[k + 1] == x;
    }
  }

  lemma {:induction false} GroupRowsSorted(sorted: seq<Snack>, sels: seq<Selection>)
    requires SortedBy(sorted, SnackName)
    ensures SortedBy(GroupRows(sorted, sels), RowName)
  {
    if sorted != [] {
      SortedTail(sorted, SnackName);
      GroupRowsSorted(sorted[1..], sels);
      var rest := GroupRows(sorted[1..], sels);
      if HasPositive(sels, sorted[0].id) && rest != [] {
        GroupRowsFrom(sorted[1..], sels);
        assert rest[0] in rest;
        PrependSorted(MasterRowOf(sorted[0], sels), rest, RowName);
      }
    }
  }

  /** No snack has two rows. */
  predicate DistinctRows(r: seq<MasterRow>) {
    forall i, j :: 0 <= i < j < |r| ==> r[i].snackId != r[j].snackId
  }

  lemma {:induction false} GroupRowsDistinct(sorted: seq<Snack>, sels: seq<Selection>)
    requires UniqueSnackIds(sorted)
    ensures DistinctRows(GroupRows(sorted, sels))
  {
    if sorted != [] {
      assert UniqueSnackIds(sorted[1..]) by {
        forall i, j | 0 <= i < j < |sorted[1..]| ensures sorted[1..][i].id != sorted[1..][j].id {
          assert sorted[1..][i] == sorted[i + 1] && sorted[1..][j] == sorted[j + 1];
        }
      }
      GroupRowsDistinct(sorted[1..], sels);
      var rest := GroupRows(sorted[1..], sels);
      if HasPositive(sels, sorted[0].id) {
        GroupRowsFrom(sorted[1..], sels);
        forall i | 0 <= i < |rest| ensures rest[i].snackId != sorted[0].id {
          assert rest[i] in rest;
          var s :| s in sorted[1..] && HasPositive(sels, s.id) && rest[i] == MasterRowOf(s, sels);
          var k :| 0 <= k < |sorted[1..]| && sorted[1..][k] == s;
          assert sorted[k + 1] == s;
        }
        var r := [MasterRowOf(sorted[0], sels)] + rest;
        assert GroupRows(sorted, sels) == r;
        forall i, j | 0 <= i < j < |r| ensures r[i].snackId != r[j].snackId {
          assert r[j] == rest[j - 1];
          if i > 0 {
            assert r[i] == rest[i - 1];
          }
        }
      } else {
        assert GroupRows(sorted, sels) == rest;
      }
    }
  }

  /**
   * A master-list row for snack `s`: the snack's id, name and store, the
   * positive quantities summed, and points × that sum.
   */
  predicate RowFor(row: MasterRow, s: Snack, sels: seq<Selection>) {
    && row.snackId == s.id && row.snackName == s.name && row.store == s.store
    && row.totalQuantity == PositiveQuantity(sels, s.id) && row.totalQuantity > 0
    && row.totalPoints == s.points * row.totalQuantity
  }

  /**
   * `getMasterList`: the grouped rows, ordered by snack name.
   */
  function MasterListRows(ss: seq<Snack>, sels: seq<Selection>): seq<MasterRow> {
    GroupRows(SortBy(ss, SnackName), sels)
  }

  lemma SortedSameElements(ss: seq<Snack>)
    ensures forall s :: s in SortBy(ss, SnackName) <==> s in ss
  {
    var sorted := SortBy(ss, SnackName);
    forall s ensures s in sorted <==> s in ss {
      assert s in sorted <==> s in multiset(sorted);
      assert s in ss <==> s in multiset(ss);
    }
  }

  /** The master list is ordered by snack name. */
  lemma MasterListOrdered(ss: seq<Snack>, sels: seq<Selection>)
    ensures var r := MasterListRows(ss, sels);
      forall i, j :: 0 <= i < j < |r| ==> LexLe(r[i].snackName, r[j].snackName)
  {
    GroupRowsSorted(SortBy(ss, SnackName), sels);
  }

  /**
   * Each row belongs to a snack of the table and carries its positive summed
   * quantity and points × that quantity.
   */
  lemma MasterListRowsSound(ss: seq<Snack>, sels: seq<Selection>)
    ensures forall row :: row in MasterListRows(ss, sels) ==> exists s :: s in ss && RowFor(row, s, sels)
  {
    var sorted := SortBy(ss, SnackName);
    GroupRowsFrom(sorted, sels);
    SortedSameElements(ss);
    forall row | row in MasterListRows(ss, sels) ensures exists s :: s in ss && RowFor(row, s, sels) {
      var s :| s in sorted && HasPositive(sels, s.id) && row == MasterRowOf(s, sels);
      PositiveQuantitySign(sels, s.id);
      PositivePointsFactor(sels, s.id, s.points);
      assert RowFor(row, s, sels);
    }
  }

  /** Every snack with a selection of positive quantity has its row. */
  lemma MasterListComplete(ss: seq<Snack>, sels: seq<Selection>)
    ensures forall s :: s in ss && HasPositive(sels, s.id) ==>
      exists row :: row in MasterListRows(ss, sels) && RowFor(row, s, sels)
  {
    var sorted := SortBy(ss, SnackName);
    GroupRowsComplete(sorted, sels);
    SortedSameElements(ss);
    forall s | s in ss && HasPositive(sels, s.id)
      ensures exists row :: row in MasterListRows(ss, sels) && RowFor(row, s, sels)
    {
      PositiveQuantitySign(sels, s.id);
      PositivePointsFactor(sels, s.id, s.points);
      assert RowFor(MasterRowOf(s, sels), s, sels);
    }
  }

  /**
   * With unique snack ids, no snack has two rows, and a snack whose
   * selections are all zero (or that has none) has no row.
   */
  lemma MasterListExact(ss: seq<Snack>, sels: seq<Selection>)
    requires UniqueSnackIds(ss)
    ensures DistinctRows(MasterListRows(ss, sels))
    ensures forall s, row :: s in ss && !HasPositive(sels, s.id) && row in MasterListRows(ss, sels) ==>
      row.snackId != s.id
  {
    var sorted := SortBy(ss, SnackName);
    SortKeepsUniqueSnackIds(ss, sorted);
    GroupRowsDistinct(sorted, sels);
    assert MasterListRows(ss, sels) == GroupRows(sorted, sels);
    GroupRowsFrom(sorted, sels);
    SortedSameElements(ss);
    forall s, row | s in ss && !HasPositive(sels, s.id) && row in MasterListRows(ss, sels)
      ensures row.snackId != s.id
    {
      var t :| t in sorted && HasPositive(sels, t.id) && row == MasterRowOf(t, sels);
      var a :| 0 <= a < |ss| && ss[a] == s;
      var b :| 0 <= b < |ss| && ss[b] == t;
      assert a != b;
    }
  }

  lemma SortKeepsUniqueSnackIds(ss: seq<Snack>, sorted: seq<Snack>)
    requires UniqueSnackIds(ss) && multiset(sorted) == multiset(ss)
    ensures UniqueSnackIds(sorted)
  {
    forall i, j | 0 <= i < j < |sorted| ensures sorted[i].id != sorted[j].id {
      if sorted[i].id == sorted[j].id {
        assert sorted[i] in multiset(ss) && sorted[j] in multiset(ss);
        var a :| 0 <= a < |ss| && ss[a] == sorted[i];
        var b :| 0 <= b < |ss| && ss[b] == sorted[j];
        assert a == b;
        MultisetCountTwo(sorted, i, j);
        MultisetCountOne(ss, a);
      }
    }
  }

  lemma MultisetCountTwo<T>(xs: seq<T>, i: nat, j: nat)
    requires i < j < |xs| && xs[i] == xs[j]
    ensures multiset(xs)[xs[i]] >= 2
  {
    assert xs == xs[..i] + [xs[i]] + xs[i + 1..j] + [xs[j]] + xs[j + 1..];
  }

  lemma MultisetCountOne(ss: seq<Snack>, a: nat)
    requires UniqueSnackIds(ss) && a < |ss|
    ensures multiset(ss)[ss[a]] == 1
  {
    assert ss == ss[..a] + [ss[a]] + ss[a + 1..];
    forall b | 0 <= b < a ensures ss[..a][b] != ss[a] {
      assert ss[..a][b] == ss[b];
    }
    var tail := ss[a + 1..];
    forall b | 0 <= b < |tail| ensures tail[b] != ss[a] {
      assert tail[b] == ss[a + 1 + b];
    }
    assert ss[a] !in ss[..a] && ss[a] !in ss[a + 1..];
  }

  // ---------------------------------------------------------------------------
  // getSelections

  datatype SelectionWithSnack = SelectionWithSnack(selection: Selection, snack: Snack)

  /**
   * `getSelections(familyId)`: the family's selections, each joined with the
   * snack its `snackId` names (inner join: a selection without a snack is
   * dropped), in table order.
   */
  /** The selection rows of a result, in its order. */
  function RowsOf(r: seq<SelectionWithSnack>): (rows: seq<Selection>)
    ensures |rows| == |r|
    ensures forall i :: 0 <= i < |r| ==> rows[i] == r[i].selection
  {
    seq(|r|, i requires 0 <= i < |r| => r[i].selection)
  }

  /** The family's rows, in table order. */
  function OfFamily(sels: seq<Selection>, familyId: int): seq<Selection> {
    if sels == [] then []
    else (if sels[0].familyId == familyId then [sels[0]] else []) + OfFamily(sels[1..], familyId)
  }

  /** The family's rows whose snack exists, in table order: what an inner join keeps. */
  function JoinedRows(sels: seq<Selection>, ss: seq<Snack>, familyId: int): seq<Selection> {
    if sels == [] then []
    else
      (if sels[0].familyId == familyId && HasSnack(ss, sels[0].snackId) then [sels[0]] else [])
      + JoinedRows(sels[1..], ss, familyId)
  }

  /** With every selection naming an existing snack, the inner join drops none of the family's rows. */
  lemma {:induction false} JoinedRowsUnderForeignKey(sels: seq<Selection>, ss: seq<Snack>, familyId: int)
    requires forall sel :: sel in sels ==> HasSnack(ss, sel.snackId)
    ensures JoinedRows(sels, ss, familyId) == OfFamily(sels, familyId)
  {
    if sels != [] {
      assert sels[0] in sels;
      assert forall sel :: sel in sels[1..] ==> sel in sels;
      JoinedRowsUnderForeignKey(sels[1..], ss, familyId);
    }
  }

  function SelectionsOf(sels: seq<Selection>, ss: seq<Snack>, familyId: int): (r: seq<SelectionWithSnack>)
    ensures RowsOf(r) == JoinedRows(sels, ss, familyId)
    ensures |r| <= |sels|
    ensures forall x :: x in r ==>
      x.selection in sels && x.selection.familyId == familyId && x.snack in ss && x.snack.id == x.selection.snackId
    ensures forall sel :: sel in sels && sel.familyId == familyId && HasSnack(ss, sel.snackId) ==>
      exists x :: x in r && x.selection == sel
  {
    if sels == [] then []
    else
      var rest := SelectionsOf(sels[1..], ss, familyId);
      var here :=
        if sels[0].familyId != familyId then []
        else match FindSnack(ss, sels[0].snackId)
          case Some(s) => [SelectionWithSnack(sels[0], s)]
          case None => [];
      assert sels == [sels[0]] + sels[1..];
      assert RowsOf(here + rest) == RowsOf(here) + RowsOf(rest);
      here + rest
  }
}
