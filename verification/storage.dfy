/**
 * The store: the four tables held in place, with serial counters for the ids
 * the database assigns. Writes are methods that change the tables; reads are
 * functions of the current table contents. Every write keeps the schema's
 * constraints (`Valid`), and a write the database would refuse leaves the
 * tables as they were and reports which constraint it broke.
 */
module Storage {
  import opened Common
  import opened Text
  import opened Order
  import opened Schema
  import opened TableWrites
  import opened Queries

  /** Why the database refused a write. */
  datatype Violation = UniqueViolation | ForeignKeyViolation

  /** Position of the row with primary key `id`, if any. */
  function SnackIndex(ss: seq<Snack>, id: int): (r: Option<nat>)
    ensures r.Some? ==> r.value < |ss| && ss[r.value].id == id
    ensures r.None? <==> !HasSnack(ss, id)
  {
    if ss == [] then None
    else if ss[0].id == id then Some(0)
    else match SnackIndex(ss[1..], id)
      case Some(k) => Some(k + 1)
      case None => None
  }

  /** The family rows `seed` creates: the names in order, each with 800 points. */
  predicate SeededFamilies(fs: seq<Family>, names: seq<String>) {
    && |fs| <= |names|
    && forall i :: 0 <= i < |fs| ==> fs[i].name == names[i] && fs[i].pointsAllowed == 800
  }

  predicate DistinctNames(names: seq<String>) {
    forall i, j :: 0 <= i < j < |names| ==> names[i] != names[j]
  }

  /** The snack rows `seed` creates: one per insert, in order, with the inserts' columns. */
  predicate SeededSnacks(ss: seq<Snack>, rows: seq<InsertSnack>) {
    && |ss| <= |rows|
    && forall i :: 0 <= i < |ss| ==> ss[i] == SnackRow(ss[i].id, rows[i])
  }

  /** With distinct names, the next name to seed is not taken yet. */
  lemma SeededNameFresh(fs: seq<Family>, names: seq<String>)
    requires SeededFamilies(fs, names) && |fs| < |names| && DistinctNames(names)
    ensures !HasFamilyName(fs, names[|fs|])
  {
    forall f | f in fs ensures f.name != names[|fs|] {
      var k :| 0 <= k < |fs| && fs[k] == f;
    }
  }

  class SnackStore {
    var categories: seq<Category>
    var families: seq<Family>
    var snacks: seq<Snack>
    var selections: seq<Selection>
    /** The next value of each table's `serial` id column. */
    var nextFamilyId: int
    var nextSnackId: int
    var nextSelectionId: int

    /** The schema's constraints hold, and every id in use is below its serial counter. */
    ghost predicate Valid()
      reads this
    {
      && Consistent(categories, families, snacks, selections)
      && (forall f :: f in families ==> f.id < nextFamilyId)
      && (forall s :: s in snacks ==> s.id < nextSnackId)
      && (forall sel :: sel in selections ==> sel.id < nextSelectionId)
    }

    /**
     * An empty store over a given categories table (category CRUD belongs to
     * a store version that is not part of this model; the table is here for
     * the snacks' foreign key).
     */
    constructor (categories: seq<Category>)
      requires UniqueCategoryIds(categories) && UniqueCategoryNames(categories)
      ensures Valid()
      ensures this.categories == categories
      ensures families == [] && snacks == [] && selections == []
      ensures nextFamilyId == 1 && nextSnackId == 1 && nextSelectionId == 1
    {
      this.categories := categories;
      families := [];
      snacks := [];
      selections := [];
      nextFamilyId := 1;
      nextSnackId := 1;
      nextSelectionId := 1;
    }

    // Reads

    /**
     * `getFamilies`: every family once, ordered by name, with the points its
     * selections use; a family without selections has used 0.
     */
    function GetFamilies(): (r: seq<FamilyWithTotal>)
      reads this
      ensures |r| == |families|
      ensures multiset(Bases(r)) == multiset(families)
      ensures forall i, j :: 0 <= i < j < |r| ==> LexLe(r[i].name, r[j].name)
      ensures forall i :: 0 <= i < |r| ==> r[i].totalPointsUsed == FamilyPoints(selections, snacks, r[i].id)
      ensures forall i :: 0 <= i < |r| && (forall sel :: sel in selections ==> sel.familyId != r[i].id) ==>
        r[i].totalPointsUsed == 0
    {
      var r := FamiliesWithTotals(families, selections, snacks);
      assert forall i :: 0 <= i < |r| && (forall sel :: sel in selections ==> sel.familyId != r[i].id) ==>
        r[i].totalPointsUsed == 0 by {
        forall i | 0 <= i < |r| && (forall sel :: sel in selections ==> sel.familyId != r[i].id)
          ensures r[i].totalPointsUsed == 0
        {
          FamilyPointsNoSelections(selections, snacks, r[i].id);
        }
      }
      r
    }

    /** `getFamily(id)`: the family with that id, or nothing. */
    function GetFamily(id: int): (r: Option<Family>)
      reads this
      ensures r.Some? ==> r.value in families && r.value.id == id
      ensures r.None? <==> !HasFamily(families, id)
    {
      FindFamily(families, id)
    }

    /** `getSnacks`: the snacks table, ordered by name. */
    function GetSnacks(): (r: seq<Snack>)
      reads this
      ensures SortedBy(r, SnackName)
      ensures multiset(r) == multiset(snacks)
    {
      SortBy(snacks, SnackName)
    }

    /** `getSnack(id)`: the snack with that id, or nothing. */
    function GetSnack(id: int): (r: Option<Snack>)
      reads this
      ensures r.Some? ==> r.value in snacks && r.value.id == id
      ensures r.None? <==> !HasSnack(snacks, id)
    {
      FindSnack(snacks, id)
    }

    /**
     * `getSelections(familyId)`: exactly the family's selection rows, each
     * with the snack it names.
     */
    function GetSelections(familyId: int): (r: seq<SelectionWithSnack>)
      requires Valid()
      reads this
      ensures forall x :: x in r ==> x.snack in snacks && x.snack.id == x.selection.snackId
      ensures forall sel :: sel in selections && sel.familyId == familyId <==>
        exists x :: x in r && x.selection == sel
      ensures RowsOf(r) == OfFamily(selections, familyId)
    {
      JoinedRowsUnderForeignKey(selections, snacks, familyId);
      SelectionsOf(selections, snacks, familyId)
    }

    /**
     * `getMasterList`: one row per snack with a positive selection, none for
     * any other snack, ordered by name, each with its summed quantity and
     * points.
     */
    function GetMasterList(): (r: seq<MasterRow>)
      requires Valid()
      reads this
      ensures forall i, j :: 0 <= i < j < |r| ==> LexLe(r[i].snackName, r[j].snackName)
      ensures DistinctRows(r)
      ensures forall row :: row in r ==> exists s :: s in snacks && RowFor(row, s, selections)
      ensures forall s :: s in snacks && HasPositive(selections, s.id) ==>
        exists row :: row in r && RowFor(row, s, selections)
      ensures forall s, row :: s in snacks && !HasPositive(selections, s.id) && row in r ==> row.snackId != s.id
    {
      MasterListOrdered(snacks, selections);
      MasterListRowsSound(snacks, selections);
      MasterListComplete(snacks, selections);
      MasterListExact(snacks, selections);
      MasterListRows(snacks, selections)
    }

    // Writes

    /**
     * `createFamily`: a new row with a fresh id and `pointsAllowed`
     * defaulting to 0; refused when the name is taken.
     */
    method CreateFamily(ins: InsertFamily) returns (r: Result<Family, Violation>)
      requires Valid()
      modifies this
      ensures Valid()
      ensures HasFamilyName(old(families), ins.name) ==> r == Err(UniqueViolation) && unchanged(this)
      ensures !HasFamilyName(old(families), ins.name) ==>
        && r == Ok(FamilyRow(old(nextFamilyId), ins))
        && families == old(families) + [r.value]
        && nextFamilyId == old(nextFamilyId) + 1
      ensures categories == old(categories) && snacks == old(snacks) && selections == old(selections)
      ensures nextSnackId == old(nextSnackId) && nextSelectionId == old(nextSelectionId)
    {
      if HasFamilyName(families, ins.name) {
        return Err(UniqueViolation);
      }
      var row := FamilyRow(nextFamilyId, ins);
      families := families + [row];
      nextFamilyId := nextFamilyId + 1;
      r := Ok(row);
    }

    /**
     * `createSnack`: a new row with a fresh id and `points` defaulting to 0;
     * refused when its category does not exist.
     */
    method CreateSnack(ins: InsertSnack) returns (r: Result<Snack, Violation>)
      requires Valid()
      modifies this
      ensures Valid()
      ensures !CategoryRefOk(categories, ins.categoryId) ==> r == Err(ForeignKeyViolation) && unchanged(this)
      ensures CategoryRefOk(categories, ins.categoryId) ==>
        && r == Ok(SnackRow(old(nextSnackId), ins))
        && snacks == old(snacks) + [r.value]
        && nextSnackId == old(nextSnackId) + 1
      ensures categories == old(categories) && families == old(families) && selections == old(selections)
      ensures nextFamilyId == old(nextFamilyId) && nextSelectionId == old(nextSelectionId)
    {
      if !CategoryRefOk(categories, ins.categoryId) {
        return Err(ForeignKeyViolation);
      }
      var row := SnackRow(nextSnackId, ins);
      assert forall sel :: sel in selections ==> HasSnack(snacks + [row], sel.snackId) by {
        forall sel | sel in selections ensures HasSnack(snacks + [row], sel.snackId) {
          var s :| s in snacks && s.id == sel.snackId;
          assert s in snacks + [row];
        }
      }
      snacks := snacks + [row];
      nextSnackId := nextSnackId + 1;
      r := Ok(row);
    }

    /**
     * `updateSnack(id, patch)`: the row with that id gets the supplied
     * columns and keeps the rest; nothing when no row has that id (and then
     * nothing is checked); refused when the new category does not exist.
     */
    method UpdateSnack(id: int, patch: SnackPatch) returns (r: Result<Option<Snack>, Violation>)
      requires Valid()
      modifies this
      ensures Valid()
      ensures !HasSnack(old(snacks), id) ==> r == Ok(None) && unchanged(this)
      ensures HasSnack(old(snacks), id) && !CategoryRefOk(categories, Patched(FindSnack(old(snacks), id).value, patch).categoryId) ==>
        r == Err(ForeignKeyViolation) && unchanged(this)
      ensures r.Ok? && r.value.Some? ==>
        && r.value.value == Patched(FindSnack(old(snacks), id).value, patch)
        && snacks == old(snacks)[SnackIndex(old(snacks), id).value := r.value.value]
        && |snacks| == |old(snacks)|
        && forall i :: 0 <= i < |snacks| ==>
             snacks[i] == if old(snacks)[i].id == id then r.value.value else old(snacks)[i]
      ensures HasSnack(old(snacks), id) && CategoryRefOk(categories, Patched(FindSnack(old(snacks), id).value, patch).categoryId) ==>
        r.Ok? && r.value.Some?
      ensures categories == old(categories) && families == old(families) && selections == old(selections)
      ensures nextFamilyId == old(nextFamilyId) && nextSnackId == old(nextSnackId)
      ensures nextSelectionId == old(nextSelectionId)
    {
      match SnackIndex(snacks, id)
      case None =>
        r := Ok(None);
      case Some(k) =>
        FindSnackUnique(snacks, snacks[k]);
        var row := Patched(snacks[k], patch);
        if !CategoryRefOk(categories, row.categoryId) {
          return Err(ForeignKeyViolation);
        }
        ReplaceSnackKeepsConsistent(categories, families, snacks, selections, k, row);
        snacks := snacks[k := row];
        r := Ok(Some(row));
    }

    /**
     * `deleteSnack(id)`: first every selection of the snack, then the snack
     * itself. Deleting an id that does not exist changes nothing.
     */
    method DeleteSnack(id: int)
      requires Valid()
      modifies this
      ensures Valid()
      ensures selections == DeleteSelectionsOfSnack(old(selections), id)
      ensures snacks == DeleteSnackRow(old(snacks), id)
      ensures forall sel :: sel in selections ==> sel.snackId != id
      ensures !HasSnack(snacks, id)
      ensures categories == old(categories) && families == old(families)
      ensures nextFamilyId == old(nextFamilyId) && nextSnackId == old(nextSnackId)
      ensures nextSelectionId == old(nextSelectionId)
    {
      CascadeKeepsConsistent(categories, families, snacks, selections, id);
      selections := DeleteSelectionsOfSnack(selections, id);
      snacks := DeleteSnackRow(snacks, id);
    }

    /**
     * `updateSelection(ins)`: the upsert. An existing row for the pair gets
     * the new quantity; otherwise a row is inserted, which the foreign keys
     * may refuse. Quantity 0 is written like any other.
     */
    method UpdateSelection(ins: InsertSelection) returns (r: Result<Selection, Violation>)
      requires Valid()
      modifies this
      ensures Valid()
      ensures r.Ok? ==>
        && selections == Upsert(old(selections), old(nextSelectionId), ins)
        && r.value in selections
        && r.value.familyId == ins.familyId && r.value.snackId == ins.snackId && r.value.quantity == ins.quantity
        && PairCount(selections, ins.familyId, ins.snackId) == 1
      ensures r.Err? <==>
        FindPair(old(selections), ins.familyId, ins.snackId).None? &&
        !(HasFamily(families, ins.familyId) && HasSnack(snacks, ins.snackId))
      ensures r.Err? ==> r.error == ForeignKeyViolation && unchanged(this)
      ensures FindPair(old(selections), ins.familyId, ins.snackId).Some? ==>
        r.Ok? && r.value.id == old(selections)[FindPair(old(selections), ins.familyId, ins.snackId).value].id
      ensures categories == old(categories) && families == old(families) && snacks == old(snacks)
      ensures nextFamilyId == old(nextFamilyId) && nextSnackId == old(nextSnackId)
      ensures FindPair(old(selections), ins.familyId, ins.snackId).Some? ==> nextSelectionId == old(nextSelectionId)
      ensures FindPair(old(selections), ins.familyId, ins.snackId).None? && r.Ok? ==>
        nextSelectionId == old(nextSelectionId) + 1
    {
      UpsertKeepsPairsUnique(selections, nextSelectionId, ins);
      UpsertKeepsIdsUnique(selections, nextSelectionId, ins);
      UpsertLeavesOneRow(selections, nextSelectionId, ins);
      match FindPair(selections, ins.familyId, ins.snackId)
      case Some(i) =>
        var updated := selections[i].(quantity := ins.quantity);
        ghost var before := selections;
        selections := selections[i := updated];
        assert forall sel :: sel in selections ==> sel in before || sel == updated;
        r := Ok(updated);
      case None =>
        if !(HasFamily(families, ins.familyId) && HasSnack(snacks, ins.snackId)) {
          return Err(ForeignKeyViolation);
        }
        var created := SelectionRow(nextSelectionId, ins);
        selections := selections + [created];
        nextSelectionId := nextSelectionId + 1;
        r := Ok(created);
    }

    /**
     * `seed`: when the families table is empty, one family per name with 800
     * points; then, when the snacks table is empty, one snack per insert. The
     * first refused insert ends the seeding.
     */
    method Seed(familyNames: seq<String>, seedSnacks: seq<InsertSnack>) returns (r: Result<(), Violation>)
      requires Valid()
      modifies this
      ensures Valid()
      ensures categories == old(categories) && selections == old(selections)
      ensures old(families) != [] ==> families == old(families)
      ensures old(families) == [] ==> SeededFamilies(families, familyNames)
      ensures old(families) == [] && DistinctNames(familyNames) ==> |families| == |familyNames|
      ensures old(families) == [] && |families| < |familyNames| ==> r.Err? && snacks == old(snacks)
      ensures old(snacks) != [] ==> snacks == old(snacks)
      ensures old(snacks) == [] ==> SeededSnacks(snacks, seedSnacks)
      ensures r.Ok? && old(snacks) == [] ==> |snacks| == |seedSnacks|
    {
      r := Ok(());
      var existingFamilies := GetFamilies();
      if |existingFamilies| == 0 {
        r := SeedFamilies(familyNames);
        if r.Err? {
          return;
        }
      }
      var existingSnacks := GetSnacks();
      if |existingSnacks| == 0 {
        r := SeedSnacks(seedSnacks);
      }
    }

    /** The family half of `seed`, on an empty families table. */
    method SeedFamilies(familyNames: seq<String>) returns (r: Result<(), Violation>)
      requires Valid() && families == []
      modifies this
      ensures Valid()
      ensures categories == old(categories) && selections == old(selections) && snacks == old(snacks)
      ensures SeededFamilies(families, familyNames)
      ensures r.Ok? <==> |families| == |familyNames|
      ensures DistinctNames(familyNames) ==> r.Ok?
    {
      var i := 0;
      while i < |familyNames|
        invariant 0 <= i <= |familyNames|
        invariant Valid()
        invariant categories == old(categories) && selections == old(selections) && snacks == old(snacks)
        invariant |families| == i
        invariant SeededFamilies(families, familyNames)
      {
        if DistinctNames(familyNames) {
          SeededNameFresh(families, familyNames);
        }
        var created := CreateFamily(InsertFamily(familyNames[i], Some(800)));
        if created.Err? {
          return Err(created.error);
        }
        i := i + 1;
      }
      r := Ok(());
    }

    /** The snack half of `seed`, on an empty snacks table. */
    method SeedSnacks(seedSnacks: seq<InsertSnack>) returns (r: Result<(), Violation>)
      requires Valid() && snacks == []
      modifies this
      ensures Valid()
      ensures categories == old(categories) && selections == old(selections) && families == old(families)
      ensures SeededSnacks(snacks, seedSnacks)
      ensures r.Ok? <==> |snacks| == |seedSnacks|
    {
      var j := 0;
      while j < |seedSnacks|
        invariant 0 <= j <= |seedSnacks|
        invariant Valid()
        invariant categories == old(categories) && selections == old(selections) && families == old(families)
        invariant |snacks| == j
        invariant SeededSnacks(snacks, seedSnacks)
      {
        var created := CreateSnack(seedSnacks[j]);
        if created.Err? {
          return Err(created.error);
        }
        j := j + 1;
      }
      r := Ok(());
    }
  }
}
