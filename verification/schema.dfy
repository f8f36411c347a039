/**
 * The four tables (categories, families, snacks, selections), the insert
 * shapes the API accepts (no id: the store assigns it), the column defaults
 * and the uniqueness and foreign-key constraints.
 */
module Schema {
  import opened Common
  import opened Text

  datatype Category = Category(id: int, name: String)

  /** A household; `name` is its acronym. */
  datatype Family = Family(id: int, name: String, pointsAllowed: int)

  datatype Snack = Snack(
    id: int,
    name: String,
    store: Option<String>,
    link: Option<String>,
    points: int,
    imageUrl: Option<String>,
    categoryId: Option<int>)

  /** One cell of the sparse family × snack quantity table. */
  datatype Selection = Selection(id: int, familyId: int, snackId: int, quantity: int)

  /** Insert shapes: every column but `id`; `None` = omitted (or NULL for a nullable column). */
  datatype InsertCategory = InsertCategory(name: String)
  datatype InsertFamily = InsertFamily(name: String, pointsAllowed: Option<int>)
  datatype InsertSnack = InsertSnack(
    name: String,
    store: Option<String>,
    link: Option<String>,
    points: Option<int>,
    imageUrl: Option<String>,
    categoryId: Option<int>)
  datatype InsertSelection = InsertSelection(familyId: int, snackId: int, quantity: int)

  /**
   * `Partial<InsertSnack>`: `None` leaves the column as it is; for a nullable
   * column `Some(None)` sets it to NULL.
   */
  datatype SnackPatch = SnackPatch(
    name: Option<String>,
    store: Option<Option<String>>,
    link: Option<Option<String>>,
    points: Option<int>,
    imageUrl: Option<Option<String>>,
    categoryId: Option<Option<int>>)

  /** The row an INSERT creates: the given id, the supplied columns, defaults for the rest. */
  function FamilyRow(id: int, ins: InsertFamily): Family {
    Family(id, ins.name, ins.pointsAllowed.GetOr(0))
  }

  function SnackRow(id: int, ins: InsertSnack): Snack {
    Snack(id, ins.name, ins.store, ins.link, ins.points.GetOr(0), ins.imageUrl, ins.categoryId)
  }

  function SelectionRow(id: int, ins: InsertSelection): Selection {
    Selection(id, ins.familyId, ins.snackId, ins.quantity)
  }

  /**
   * An insert takes its id from the store, never from the caller, and an
   * omitted `pointsAllowed` or `points` becomes 0.
   */
  lemma RowDefaults(id: int, f: InsertFamily, s: InsertSnack, sel: InsertSelection)
    ensures FamilyRow(id, f).id == id && SnackRow(id, s).id == id && SelectionRow(id, sel).id == id
    ensures FamilyRow(id, f).name == f.name && SnackRow(id, s).name == s.name
    ensures f.pointsAllowed.None? ==> FamilyRow(id, f).pointsAllowed == 0
    ensures f.pointsAllowed.Some? ==> FamilyRow(id, f).pointsAllowed == f.pointsAllowed.value
    ensures s.points.None? ==> SnackRow(id, s).points == 0
    ensures s.points.Some? ==> SnackRow(id, s).points == s.points.value
    ensures SnackRow(id, s).store == s.store && SnackRow(id, s).categoryId == s.categoryId
    ensures SelectionRow(id, sel).quantity == sel.quantity
  {
  }

  /** `UPDATE snacks SET <supplied columns>`: the row with the supplied columns replaced. */
  function Patched(s: Snack, p: SnackPatch): Snack {
    Snack(s.id,
          p.name.GetOr(s.name),
          p.store.GetOr(s.store),
          p.link.GetOr(s.link),
          p.points.GetOr(s.points),
          p.imageUrl.GetOr(s.imageUrl),
          p.categoryId.GetOr(s.categoryId))
  }

  /** A patch only touches the columns it supplies; the id never changes. */
  lemma PatchedFrame(s: Snack, p: SnackPatch)
    ensures Patched(s, p).id == s.id
    ensures p.name.None? ==> Patched(s, p).name == s.name
    ensures p.name.Some? ==> Patched(s, p).name == p.name.value
    ensures p.store.None? ==> Patched(s, p).store == s.store
    ensures p.store.Some? ==> Patched(s, p).store == p.store.value
    ensures p.link.None? ==> Patched(s, p).link == s.link
    ensures p.link.Some? ==> Patched(s, p).link == p.link.value
    ensures p.points.None? ==> Patched(s, p).points == s.points
    ensures p.points.Some? ==> Patched(s, p).points == p.points.value
    ensures p.imageUrl.None? ==> Patched(s, p).imageUrl == s.imageUrl
    ensures p.imageUrl.Some? ==> Patched(s, p).imageUrl == p.imageUrl.value
    ensures p.categoryId.None? ==> Patched(s, p).categoryId == s.categoryId
    ensures p.categoryId.Some? ==> Patched(s, p).categoryId == p.categoryId.value
    ensures p == SnackPatch(None, None, None, None, None, None) ==> Patched(s, p) == s
  {
  }

  // Primary keys

  predicate UniqueCategoryIds(cs: seq<Category>) {
    forall i, j :: 0 <= i < j < |cs| ==> cs[i].id != cs[j].id
  }

  predicate UniqueFamilyIds(fs: seq<Family>) {
    forall i, j :: 0 <= i < j < |fs| ==> fs[i].id != fs[j].id
  }

  predicate UniqueSnackIds(ss: seq<Snack>) {
    forall i, j :: 0 <= i < j < |ss| ==> ss[i].id != ss[j].id
  }

  predicate UniqueSelectionIds(sels: seq<Selection>) {
    forall i, j :: 0 <= i < j < |sels| ==> sels[i].id != sels[j].id
  }

  // UNIQUE constraints

  predicate UniqueCategoryNames(cs: seq<Category>) {
    forall i, j :: 0 <= i < j < |cs| ==> cs[i].name != cs[j].name
  }

  predicate UniqueFamilyNames(fs: seq<Family>) {
    forall i, j :: 0 <= i < j < |fs| ==> fs[i].name != fs[j].name
  }

  /** `unique().on(familyId, snackId)`: at most one row per pair. */
  predicate UniquePairs(sels: seq<Selection>) {
    forall i, j :: 0 <= i < j < |sels| ==>
      sels[i].familyId != sels[j].familyId || sels[i].snackId != sels[j].snackId
  }

  // Foreign keys

  predicate HasCategory(cs: seq<Category>, id: int) {
    exists c :: c in cs && c.id == id
  }

  predicate HasFamily(fs: seq<Family>, id: int) {
    exists f :: f in fs && f.id == id
  }

  predicate HasSnack(ss: seq<Snack>, id: int) {
    exists s :: s in ss && s.id == id
  }

  predicate HasFamilyName(fs: seq<Family>, name: String) {
    exists f :: f in fs && f.name == name
  }

  /** `categoryId` is optional; when present it names an existing category. */
  predicate CategoryRefOk(cs: seq<Category>, categoryId: Option<int>) {
    categoryId.Some? ==> HasCategory(cs, categoryId.value)
  }

  predicate SnackRefsValid(ss: seq<Snack>, cs: seq<Category>) {
    forall s :: s in ss ==> CategoryRefOk(cs, s.categoryId)
  }

  predicate SelectionRefsValid(sels: seq<Selection>, fs: seq<Family>, ss: seq<Snack>) {
    forall sel :: sel in sels ==> HasFamily(fs, sel.familyId) && HasSnack(ss, sel.snackId)
  }

  /** Every constraint the schema declares. */
  predicate Consistent(cs: seq<Category>, fs: seq<Family>, ss: seq<Snack>, sels: seq<Selection>) {
    && UniqueCategoryIds(cs) && UniqueCategoryNames(cs)
    && UniqueFamilyIds(fs) && UniqueFamilyNames(fs)
    && UniqueSnackIds(ss) && SnackRefsValid(ss, cs)
    && UniqueSelectionIds(sels) && UniquePairs(sels) && SelectionRefsValid(sels, fs, ss)
  }
}
