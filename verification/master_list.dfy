/**
 * The master shopping list page: the two totals it shows above the list,
 * and what they add up to in terms of the selections themselves.
 */
module MasterListPage {
  import opened Common
  import opened Order
  import opened Schema
  import opened Queries

  function SumQuantities(rows: seq<MasterRow>): int {
    if rows == [] then 0 else rows[0].totalQuantity + SumQuantities(rows[1..])
  }

  function SumPoints(rows: seq<MasterRow>): int {
    if rows == [] then 0 else rows[0].totalPoints + SumPoints(rows[1..])
  }

  /** `totalItems`: the quantities of the rows added up, 0 while the list is loading. */
  function TotalItems(list: Option<seq<MasterRow>>): (r: int)
    ensures list.None? || list == Some([]) ==> r == 0
  {
    match list
    case None => 0
    case Some(rows) => SumQuantities(rows)
  }

  /** `totalPoints`: the points of the rows added up, 0 while the list is loading. */
  function TotalPoints(list: Option<seq<MasterRow>>): (r: int)
    ensures list.None? || list == Some([]) ==> r == 0
  {
    match list
    case None => 0
    case Some(rows) => SumPoints(rows)
  }

  // What the totals should come to, counted selection by selection.

  /** Each snack counts once, for the item total. */
  function One(s: Snack): int { 1 }

  /** Each snack counts its points, for the points total. */
  function PointsOf(s: Snack): int { s.points }

  /** What one selection adds: nothing unless its quantity is positive and its snack exists. */
  function Contribution(sel: Selection, ss: seq<Snack>, w: Snack -> int): int {
    if sel.quantity <= 0 then 0
    else match FindSnack(ss, sel.snackId)
      case Some(s) => sel.quantity * w(s)
      case None => 0
  }

  function OrderedTotal(sels: seq<Selection>, ss: seq<Snack>, w: Snack -> int): int {
    if sels == [] then 0 else Contribution(sels[0], ss, w) + OrderedTotal(sels[1..], ss, w)
  }

  /** The same sum taken snack by snack, as the grouped query does. */
  function SnackSum(ss: seq<Snack>, sels: seq<Selection>, w: Snack -> int): int {
    if ss == [] then 0 else PositivePoints(sels, ss[0].id, w(ss[0])) + SnackSum(ss[1..], sels, w)
  }

  /** What one selection adds to the snack-by-snack sum. */
  function HeadSum(ss: seq<Snack>, sel: Selection, w: Snack -> int): int {
    if ss == [] then 0
    else (if Counted(sel, ss[0].id) then sel.quantity * w(ss[0]) else 0) + HeadSum(ss[1..], sel, w)
  }

  lemma UniqueSnackTail(ss: seq<Snack>)
    requires ss != [] && UniqueSnackIds(ss)
    ensures UniqueSnackIds(ss[1..])
    ensures forall s :: s in ss[1..] ==> s.id != ss[0].id
  {
    forall i, j | 0 <= i < j < |ss[1..]| ensures ss[1..][i].id != ss[1..][j].id {
      assert ss[1..][i] == ss[i + 1] && ss[1..][j] == ss[j + 1];
    }
    forall s | s in ss[1..] ensures s.id != ss[0].id {
      var i :| 0 <= i < |ss[1..]| && ss[1..][i] == s;
      assert ss[i + 1] == s;
    }
  }

  lemma {:induction false} SnackSumNoSelections(ss: seq<Snack>, w: Snack -> int)
    ensures SnackSum(ss, [], w) == 0
    decreases |ss|
  {
    if ss != [] {
      SnackSumNoSelections(ss[1..], w);
    }
  }

  lemma {:induction false} SnackSumSplit(ss: seq<Snack>, sels: seq<Selection>, w: Snack -> int)
    requires sels != []
    ensures SnackSum(ss, sels, w) == HeadSum(ss, sels[0], w) + SnackSum(ss, sels[1..], w)
    decreases |ss|
  {
    if ss != [] {
      SnackSumSplit(ss[1..], sels, w);
    }
  }

  lemma {:induction false} HeadSumAbsent(ss: seq<Snack>, sel: Selection, w: Snack -> int)
    requires forall s :: s in ss ==> s.id != sel.snackId
    ensures HeadSum(ss, sel, w) == 0
    decreases |ss|
  {
    if ss != [] {
      assert ss[0] in ss;
      assert forall s :: s in ss[1..] ==> s in ss;
      HeadSumAbsent(ss[1..], sel, w);
    }
  }

  /** With unique ids a selection reaches at most one snack. */
  lemma {:induction false} HeadSumValue(ss: seq<Snack>, sel: Selection, w: Snack -> int)
    requires UniqueSnackIds(ss)
    ensures HeadSum(ss, sel, w) == Contribution(sel, ss, w)
    decreases |ss|
  {
    if ss != [] {
      UniqueSnackTail(ss);
      if ss[0].id == sel.snackId {
        HeadSumAbsent(ss[1..], sel, w);
      } else {
        HeadSumValue(ss[1..], sel, w);
      }
    }
  }

  /** Adding snack by snack and adding selection by selection agree. */
  lemma {:induction false} SwapSums(ss: seq<Snack>, sels: seq<Selection>, w: Snack -> int)
    requires UniqueSnackIds(ss)
    ensures SnackSum(ss, sels, w) == OrderedTotal(sels, ss, w)
    decreases |sels|
  {
    if sels == [] {
      SnackSumNoSelections(ss, w);
    } else {
      SnackSumSplit(ss, sels, w);
      HeadSumValue(ss, sels[0], w);
      SwapSums(ss, sels[1..], w);
    }
  }

  lemma {:induction false} RowsQuantity(sorted: seq<Snack>, sels: seq<Selection>)
    ensures SumQuantities(GroupRows(sorted, sels)) == SnackSum(sorted, sels, One)
    decreases |sorted|
  {
    if sorted != [] {
      var s := sorted[0];
      var rest := GroupRows(sorted[1..], sels);
      RowsQuantity(sorted[1..], sels);
      PositiveQuantitySign(sels, s.id);
      PositivePointsFactor(sels, s.id, 1);
      if HasPositive(sels, s.id) {
        assert ([MasterRowOf(s, sels)] + rest)[1..] == rest;
      } else {
        assert [] + rest == rest;
      }
    }
  }

  lemma {:induction false} RowsPoints(sorted: seq<Snack>, sels: seq<Selection>)
    ensures SumPoints(GroupRows(sorted, sels)) == SnackSum(sorted, sels, PointsOf)
    decreases |sorted|
  {
    if sorted != [] {
      var s := sorted[0];
      var rest := GroupRows(sorted[1..], sels);
      RowsPoints(sorted[1..], sels);
      PositiveQuantitySign(sels, s.id);
      PositivePointsFactor(sels, s.id, s.points);
      if HasPositive(sels, s.id) {
        assert ([MasterRowOf(s, sels)] + rest)[1..] == rest;
      } else {
        assert [] + rest == rest;
      }
    }
  }

  /** Reordering the snacks does not change which snack an id finds. */
  lemma FindSnackSameElements(a: seq<Snack>, b: seq<Snack>, id: int)
    requires UniqueSnackIds(a) && UniqueSnackIds(b)
    requires forall s :: s in a <==> s in b
    ensures FindSnack(a, id) == FindSnack(b, id)
  {
    match FindSnack(a, id)
    case Some(s) => FindSnackUnique(b, s);
    case None =>
  }

  lemma {:induction false} OrderedTotalSameElements(sels: seq<Selection>, a: seq<Snack>, b: seq<Snack>, w: Snack -> int)
    requires UniqueSnackIds(a) && UniqueSnackIds(b)
    requires forall s :: s in a <==> s in b
    ensures OrderedTotal(sels, a, w) == OrderedTotal(sels, b, w)
    decreases |sels|
  {
    if sels != [] {
      FindSnackSameElements(a, b, sels[0].snackId);
      OrderedTotalSameElements(sels[1..], a, b, w);
    }
  }

  lemma SortedSnacks(ss: seq<Snack>)
    requires UniqueSnackIds(ss)
    ensures UniqueSnackIds(SortBy(ss, SnackName))
    ensures forall s :: s in SortBy(ss, SnackName) <==> s in ss
  {
    SortKeepsUniqueSnackIds(ss, SortBy(ss, SnackName));
    SortedSameElements(ss);
  }

  /**
   * The item total is the sum of every positive quantity whose snack
   * exists: each such selection is counted once, under its snack's row.
   */
  lemma MasterTotalItems(ss: seq<Snack>, sels: seq<Selection>)
    requires UniqueSnackIds(ss)
    ensures TotalItems(Some(MasterListRows(ss, sels))) == OrderedTotal(sels, ss, One)
  {
    var sorted := SortBy(ss, SnackName);
    SortedSnacks(ss);
    RowsQuantity(sorted, sels);
    SwapSums(sorted, sels, One);
    OrderedTotalSameElements(sels, sorted, ss, One);
  }

  /** The positive quantities of the selections, added up. */
  function PositiveSum(sels: seq<Selection>): int {
    if sels == [] then 0 else (if sels[0].quantity > 0 then sels[0].quantity else 0) + PositiveSum(sels[1..])
  }

  lemma {:induction false} OrderedItemsArePositive(sels: seq<Selection>, ss: seq<Snack>)
    requires forall sel :: sel in sels ==> HasSnack(ss, sel.snackId)
    ensures OrderedTotal(sels, ss, One) == PositiveSum(sels)
    decreases |sels|
  {
    if sels != [] {
      assert sels[0] in sels;
      assert forall sel :: sel in sels[1..] ==> sel in sels;
      OrderedItemsArePositive(sels[1..], ss);
    }
  }

  /**
   * With every selection naming an existing snack, as the foreign key
   * guarantees, the item total is the sum of all positive quantities across
   * the families.
   */
  lemma MasterTotalItemsAllFamilies(ss: seq<Snack>, sels: seq<Selection>)
    requires UniqueSnackIds(ss)
    requires forall sel :: sel in sels ==> HasSnack(ss, sel.snackId)
    ensures TotalItems(Some(MasterListRows(ss, sels))) == PositiveSum(sels)
  {
    MasterTotalItems(ss, sels);
    OrderedItemsArePositive(sels, ss);
  }

  /** The points total is the sum of quantity × points over the same selections. */
  lemma MasterTotalPoints(ss: seq<Snack>, sels: seq<Selection>)
    requires UniqueSnackIds(ss)
    ensures TotalPoints(Some(MasterListRows(ss, sels))) == OrderedTotal(sels, ss, PointsOf)
  {
    var sorted := SortBy(ss, SnackName);
    SortedSnacks(ss);
    RowsPoints(sorted, sels);
    SwapSums(sorted, sels, PointsOf);
    OrderedTotalSameElements(sels, sorted, ss, PointsOf);
  }

  // The points total against the families' own totals.

  /** The points used of every family, added up. */
  function FamiliesSum(fs: seq<Family>, sels: seq<Selection>, ss: seq<Snack>): int {
    if fs == [] then 0 else FamilyPoints(sels, ss, fs[0].id) + FamiliesSum(fs[1..], sels, ss)
  }

  /** What one selection adds to the points of the family `familyId`. */
  function FamilyShare(sel: Selection, ss: seq<Snack>, familyId: int): int {
    if sel.familyId != familyId then 0
    else match FindSnack(ss, sel.snackId)
      case Some(s) => sel.quantity * s.points
      case None => 0
  }

  function FamiliesHead(fs: seq<Family>, sel: Selection, ss: seq<Snack>): int {
    if fs == [] then 0 else FamilyShare(sel, ss, fs[0].id) + FamiliesHead(fs[1..], sel, ss)
  }

  lemma {:induction false} FamiliesSumNoSelections(fs: seq<Family>, ss: seq<Snack>)
    ensures FamiliesSum(fs, [], ss) == 0
    decreases |fs|
  {
    if fs != [] {
      FamiliesSumNoSelections(fs[1..], ss);
    }
  }

  lemma {:induction false} FamiliesSumSplit(fs: seq<Family>, sels: seq<Selection>, ss: seq<Snack>)
    requires sels != []
    ensures FamiliesSum(fs, sels, ss) == FamiliesHead(fs, sels[0], ss) + FamiliesSum(fs, sels[1..], ss)
    decreases |fs|
  {
    if fs != [] {
      FamiliesSumSplit(fs[1..], sels, ss);
    }
  }

  lemma {:induction false} FamiliesHeadAbsent(fs: seq<Family>, sel: Selection, ss: seq<Snack>)
    requires forall f :: f in fs ==> f.id != sel.familyId
    ensures FamiliesHead(fs, sel, ss) == 0
    decreases |fs|
  {
    if fs != [] {
      assert fs[0] in fs;
      assert forall f :: f in fs[1..] ==> f in fs;
      FamiliesHeadAbsent(fs[1..], sel, ss);
    }
  }

  /** A selection of an existing family counts once, for that family. */
  lemma {:induction false} FamiliesHeadValue(fs: seq<Family>, sel: Selection, ss: seq<Snack>)
    requires UniqueFamilyIds(fs) && HasFamily(fs, sel.familyId)
    ensures FamiliesHead(fs, sel, ss) == FamilyShare(sel, ss, sel.familyId)
    decreases |fs|
  {
    assert fs != [];
    var f0 := fs[0];
    forall f | f in fs[1..] ensures f.id != f0.id {
      var i :| 0 <= i < |fs[1..]| && fs[1..][i] == f;
      assert fs[i + 1] == f;
    }
    if f0.id == sel.familyId {
      FamiliesHeadAbsent(fs[1..], sel, ss);
    } else {
      forall i, j | 0 <= i < j < |fs[1..]| ensures fs[1..][i].id != fs[1..][j].id {
        assert fs[1..][i] == fs[i + 1] && fs[1..][j] == fs[j + 1];
      }
      var f :| f in fs && f.id == sel.familyId;
      assert f in fs[1..] by {
        assert fs == [f0] + fs[1..];
      }
      FamiliesHeadValue(fs[1..], sel, ss);
    }
  }

  /**
   * When every selection belongs to an existing family and no quantity is
   * negative, the master list's points total is the sum of the points every
   * family has used.
   */
  lemma {:induction false} MasterPointsAreFamilyPoints(fs: seq<Family>, ss: seq<Snack>, sels: seq<Selection>)
    requires UniqueFamilyIds(fs) && UniqueSnackIds(ss)
    requires forall sel :: sel in sels ==> HasFamily(fs, sel.familyId) && sel.quantity >= 0
    ensures OrderedTotal(sels, ss, PointsOf) == FamiliesSum(fs, sels, ss)
    decreases |sels|
  {
    if sels == [] {
      FamiliesSumNoSelections(fs, ss);
    } else {
      assert sels[0] in sels;
      assert forall sel :: sel in sels[1..] ==> sel in sels;
      FamiliesSumSplit(fs, sels, ss);
      FamiliesHeadValue(fs, sels[0], ss);
      MasterPointsAreFamilyPoints(fs, ss, sels[1..]);
    }
  }
}
