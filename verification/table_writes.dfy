/**
 * The effect of the store's writes on table contents, as functions from the
 * old table to the new one: the selection upsert and the two deletes of the
 * manual snack cascade. The store's methods are proved to perform exactly
 * these; the lemmas here say what they mean.
 */
module TableWrites {
  import opened Common
  import opened Schema

  predicate IsPair(sel: Selection, familyId: int, snackId: int) {
    sel.familyId == familyId && sel.snackId == snackId
  }

  /** Index of the first row for (familyId, snackId) at or after `from`. */
  function FindPairFrom(sels: seq<Selection>, familyId: int, snackId: int, from: nat): (r: Option<nat>)
    ensures r.Some? ==> from <= r.value < |sels| && IsPair(sels[r.value], familyId, snackId)
    ensures forall j :: from <= j < |sels| && (r.None? || j < r.value) ==> !IsPair(sels[j], familyId, snackId)
    decreases |sels| - from
  {
    if from >= |sels| then None
    else if IsPair(sels[from], familyId, snackId) then Some(from)
    else FindPairFrom(sels, familyId, snackId, from + 1)
  }

  /** The existence check of the upsert: the index of `existing[0]`, if any. */
  function FindPair(sels: seq<Selection>, familyId: int, snackId: int): Option<nat> {
    FindPairFrom(sels, familyId, snackId, 0)
  }

  /** The first row for the pair is the one `FindPair` finds. */
  lemma FindPairIs(sels: seq<Selection>, familyId: int, snackId: int, k: nat)
    requires k < |sels| && IsPair(sels[k], familyId, snackId)
    requires forall j :: 0 <= j < k ==> !IsPair(sels[j], familyId, snackId)
    ensures FindPair(sels, familyId, snackId) == Some(k)
  {
    var r := FindPair(sels, familyId, snackId);
    assert r.Some?;
    assert !(r.value < k);
  }

  /** How many rows the table holds for (familyId, snackId). */
  function PairCount(sels: seq<Selection>, familyId: int, snackId: int): nat {
    if sels == [] then 0
    else (if IsPair(sels[0], familyId, snackId) then 1 else 0) + PairCount(sels[1..], familyId, snackId)
  }

  /** The quantity a read of the pair returns (first matching row), if a row exists. */
  function QuantityOf(sels: seq<Selection>, familyId: int, snackId: int): Option<int> {
    match FindPair(sels, familyId, snackId)
    case Some(i) => Some(sels[i].quantity)
    case None => None
  }

  /**
   * `updateSelection(ins)`: overwrite the quantity of the existing row, keeping
   * its id, or else append a new row with id `newId`. Quantity 0 is treated
   * like any other: it overwrites or inserts, it never deletes.
   */
  function Upsert(sels: seq<Selection>, newId: int, ins: InsertSelection): seq<Selection> {
    match FindPair(sels, ins.familyId, ins.snackId)
    case Some(i) => sels[i := sels[i].(quantity := ins.quantity)]
    case None => sels + [SelectionRow(newId, ins)]
  }

  lemma {:induction false} PairCountNone(sels: seq<Selection>, familyId: int, snackId: int)
    requires forall j :: 0 <= j < |sels| ==> !IsPair(sels[j], familyId, snackId)
    ensures PairCount(sels, familyId, snackId) == 0
  {
    if sels != [] {
      PairCountNone(sels[1..], familyId, snackId);
    }
  }

  lemma {:induction false} PairCountOne(sels: seq<Selection>, familyId: int, snackId: int, k: nat)
    requires k < |sels| && IsPair(sels[k], familyId, snackId)
    requires forall j :: 0 <= j < |sels| && j != k ==> !IsPair(sels[j], familyId, snackId)
    ensures PairCount(sels, familyId, snackId) == 1
  {
    if k == 0 {
      PairCountNone(sels[1..], familyId, snackId);
    } else {
      PairCountOne(sels[1..], familyId, snackId, k - 1);
    }
  }

  /** Reading the pair right after the upsert gives the quantity written, whatever it was. */
  lemma UpsertReadBack(sels: seq<Selection>, newId: int, ins: InsertSelection)
    ensures QuantityOf(Upsert(sels, newId, ins), ins.familyId, ins.snackId) == Some(ins.quantity)
  {
    var r := Upsert(sels, newId, ins);
    var f, s := ins.familyId, ins.snackId;
    match FindPair(sels, f, s)
    case Some(i) =>
      FindPairIs(r, f, s, i);
    case None =>
      FindPairIs(r, f, s, |sels|);
  }

  /**
   * With the pair constraint in force, after the upsert there is exactly one
   * row for the pair and it holds the quantity written.
   */
  lemma UpsertLeavesOneRow(sels: seq<Selection>, newId: int, ins: InsertSelection)
    requires UniquePairs(sels)
    ensures PairCount(Upsert(sels, newId, ins), ins.familyId, ins.snackId) == 1
    ensures QuantityOf(Upsert(sels, newId, ins), ins.familyId, ins.snackId) == Some(ins.quantity)
  {
    var r := Upsert(sels, newId, ins);
    var f, s := ins.familyId, ins.snackId;
    UpsertReadBack(sels, newId, ins);
    match FindPair(sels, f, s)
    case Some(i) =>
      PairCountOne(r, f, s, i);
    case None =>
      PairCountOne(r, f, s, |sels|);
  }

  /**
   * The shape of the change: an existing row keeps its id and position and
   * only its quantity changes, and no row is added; otherwise exactly one row
   * is appended. Every other row stays as it was.
   */
  lemma UpsertShape(sels: seq<Selection>, newId: int, ins: InsertSelection)
    ensures var r := Upsert(sels, newId, ins);
      && |sels| <= |r| <= |sels| + 1
      && (forall j :: 0 <= j < |sels| && !IsPair(sels[j], ins.familyId, ins.snackId) ==> r[j] == sels[j])
      && (forall j :: 0 <= j < |sels| ==> r[j].id == sels[j].id && IsPair(r[j], sels[j].familyId, sels[j].snackId))
      && (|r| == |sels| <==> exists j :: 0 <= j < |sels| && IsPair(sels[j], ins.familyId, ins.snackId))
      && (|r| == |sels| + 1 ==> r[|sels|] == Selection(newId, ins.familyId, ins.snackId, ins.quantity))
  {
  }

  /** The pair constraint holds after the upsert. */
  lemma UpsertKeepsPairsUnique(sels: seq<Selection>, newId: int, ins: InsertSelection)
    requires UniquePairs(sels)
    ensures UniquePairs(Upsert(sels, newId, ins))
  {
  }

  /** The new row's id is fresh, so primary keys stay unique. */
  lemma UpsertKeepsIdsUnique(sels: seq<Selection>, newId: int, ins: InsertSelection)
    requires UniqueSelectionIds(sels)
    requires forall sel :: sel in sels ==> sel.id < newId
    ensures UniqueSelectionIds(Upsert(sels, newId, ins))
  {
    var r := Upsert(sels, newId, ins);
    if FindPair(sels, ins.familyId, ins.snackId).None? {
      forall i, j | 0 <= i < j < |r| ensures r[i].id != r[j].id {
        if j == |sels| {
          assert sels[i] in sels;
        }
      }
    }
  }

  /** Setting the same quantity twice is the same as setting it once. */
  lemma UpsertIdempotent(sels: seq<Selection>, newId: int, newId2: int, ins: InsertSelection)
    ensures Upsert(Upsert(sels, newId, ins), newId2, ins) == Upsert(sels, newId, ins)
  {
    var r := Upsert(sels, newId, ins);
    var f, s := ins.familyId, ins.snackId;
    match FindPair(sels, f, s)
    case Some(i) =>
      FindPairIs(r, f, s, i);
    case None =>
      FindPairIs(r, f, s, |sels|);
  }

  /** Two writes to one pair leave the second quantity: last write wins, nothing adds up. */
  lemma LastWriteWins(sels: seq<Selection>, id1: int, id2: int, familyId: int, snackId: int, q1: int, q2: int)
    ensures QuantityOf(Upsert(Upsert(sels, id1, InsertSelection(familyId, snackId, q1)), id2,
                              InsertSelection(familyId, snackId, q2)), familyId, snackId) == Some(q2)
  {
    UpsertReadBack(Upsert(sels, id1, InsertSelection(familyId, snackId, q1)), id2,
                   InsertSelection(familyId, snackId, q2));
  }

  /** The upsert does not change what any other pair reads. */
  lemma UpsertOtherPairs(sels: seq<Selection>, newId: int, ins: InsertSelection, familyId: int, snackId: int)
    requires familyId != ins.familyId || snackId != ins.snackId
    ensures QuantityOf(Upsert(sels, newId, ins), familyId, snackId) == QuantityOf(sels, familyId, snackId)
  {
    var r := Upsert(sels, newId, ins);
    match FindPair(sels, familyId, snackId)
    case Some(i) =>
      assert forall j :: 0 <= j <= i ==> IsPair(r[j], familyId, snackId) == IsPair(sels[j], familyId, snackId);
      assert FindPair(r, familyId, snackId) == Some(i);
    case None =>
      assert forall j :: 0 <= j < |r| ==> !IsPair(r[j], familyId, snackId);
  }

  // updateSnack

  /**
   * Replacing one snack row by a row with the same id and an existing (or no)
   * category keeps every schema constraint, and with unique ids it is the
   * only row whose id matches.
   */
  lemma ReplaceSnackKeepsConsistent(cs: seq<Category>, fs: seq<Family>, ss: seq<Snack>, sels: seq<Selection>, k: nat, row: Snack)
    requires Consistent(cs, fs, ss, sels)
    requires k < |ss| && row.id == ss[k].id && CategoryRefOk(cs, row.categoryId)
    ensures Consistent(cs, fs, ss[k := row], sels)
    ensures forall i :: 0 <= i < |ss| ==> ss[k := row][i] == if ss[i].id == row.id then row else ss[i]
  {
    var ss' := ss[k := row];
    forall i | 0 <= i < |ss| ensures ss'[i] == if ss[i].id == row.id then row else ss[i] {
      if i != k {
        assert ss[i].id != ss[k].id;
      }
    }
    forall sel | sel in sels ensures HasSnack(ss', sel.snackId) {
      var s :| s in ss && s.id == sel.snackId;
      var j :| 0 <= j < |ss| && ss[j] == s;
      assert ss'[j].id == s.id;
    }
  }

  // The manual cascade of deleteSnack

  /** `DELETE FROM selections WHERE snackId = id` */
  function DeleteSelectionsOfSnack(sels: seq<Selection>, snackId: int): (r: seq<Selection>)
    ensures forall sel :: sel in r <==> sel in sels && sel.snackId != snackId
    ensures |r| <= |sels|
  {
    if sels == [] then []
    else if sels[0].snackId == snackId then DeleteSelectionsOfSnack(sels[1..], snackId)
    else [sels[0]] + DeleteSelectionsOfSnack(sels[1..], snackId)
  }

  /** `DELETE FROM snacks WHERE id = id` */
  function DeleteSnackRow(snacks: seq<Snack>, id: int): (r: seq<Snack>)
    ensures forall s :: s in r <==> s in snacks && s.id != id
    ensures |r| <= |snacks|
  {
    if snacks == [] then []
    else if snacks[0].id == id then DeleteSnackRow(snacks[1..], id)
    else [snacks[0]] + DeleteSnackRow(snacks[1..], id)
  }

  lemma {:induction false} DeleteSelectionsKeepsUnique(sels: seq<Selection>, snackId: int)
    requires UniqueSelectionIds(sels) && UniquePairs(sels)
    ensures UniqueSelectionIds(DeleteSelectionsOfSnack(sels, snackId))
    ensures UniquePairs(DeleteSelectionsOfSnack(sels, snackId))
  {
    if sels != [] {
      DeleteSelectionsKeepsUnique(sels[1..], snackId);
      var rest := DeleteSelectionsOfSnack(sels[1..], snackId);
      if sels[0].snackId != snackId {
        var r := [sels[0]] + rest;
        forall j | 0 < j < |r|
          ensures r[0].id != r[j].id
          ensures r[0].familyId != r[j].familyId || r[0].snackId != r[j].snackId
        {
          assert r[j] in sels[1..];
          var k :| 0 <= k < |sels[1..]| && sels[1..][k] == r[j];
          assert sels[k + 1] == r[j];
        }
      }
    }
  }

  lemma {:induction false} DeleteSnackKeepsUnique(snacks: seq<Snack>, id: int)
    requires UniqueSnackIds(snacks)
    ensures UniqueSnackIds(DeleteSnackRow(snacks, id))
  {
    if snacks != [] {
      DeleteSnackKeepsUnique(snacks[1..], id);
      var rest := DeleteSnackRow(snacks[1..], id);
      if snacks[0].id != id {
        var r := [snacks[0]] + rest;
        forall j | 0 < j < |r| ensures r[0].id != r[j].id {
          assert r[j] in snacks[1..];
          var k :| 0 <= k < |snacks[1..]| && snacks[1..][k] == r[j];
          assert snacks[k + 1] == r[j];
        }
      }
    }
  }

  /**
   * Deleting the selections first and then the snack keeps every schema
   * constraint, and afterwards no selection refers to the deleted snack.
   */
  lemma CascadeKeepsConsistent(cs: seq<Category>, fs: seq<Family>, ss: seq<Snack>, sels: seq<Selection>, id: int)
    requires Consistent(cs, fs, ss, sels)
    ensures Consistent(cs, fs, DeleteSnackRow(ss, id), DeleteSelectionsOfSnack(sels, id))
    ensures forall sel :: sel in DeleteSelectionsOfSnack(sels, id) ==> sel.snackId != id
  {
    DeleteSelectionsKeepsUnique(sels, id);
    DeleteSnackKeepsUnique(ss, id);
    var ss' := DeleteSnackRow(ss, id);
    forall sel | sel in DeleteSelectionsOfSnack(sels, id) ensures HasSnack(ss', sel.snackId) {
      var s :| s in ss && s.id == sel.snackId;
      assert s in ss';
    }
  }

  /**
   * The order of the two deletes matters: deleting the snack while a
   * selection still refers to it would leave a dangling foreign key.
   */
  lemma SnackFirstWouldDangle(fs: seq<Family>, ss: seq<Snack>, sels: seq<Selection>, id: int)
    requires exists sel :: sel in sels && sel.snackId == id
    ensures !SelectionRefsValid(sels, fs, DeleteSnackRow(ss, id))
  {
    var sel :| sel in sels && sel.snackId == id;
    assert !HasSnack(DeleteSnackRow(ss, id), id);
  }
}
