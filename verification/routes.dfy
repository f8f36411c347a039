/**
 * The server's route handlers: the login check and, for each write, the
 * order "validate the body, then call the store" and the status it answers
 * with. Category storage and the lookup of a family by name are not part of
 * this model; their handlers take the store's answer as a parameter.
 */
module Routes {
  import opened Common
  import opened Text
  import opened Schema
  import opened TableWrites
  import opened Queries
  import opened Storage
  import opened Api

  /** A family record as the login lookup returns it, with its access code (NULL allowed). */
  datatype Account = Account(family: Family, accessCode: Option<String>)

  datatype Payload =
    | NoContent
    | Message(message: String)
    | ValidationError(message: String, field: String)
    | AccountJson(account: Account)
    | FamilyJson(family: Family)
    | SnackJson(snack: Snack)
    | CategoryJson(category: Category)
    | SelectionJson(selection: Selection)

  /** Why a handler threw instead of answering. */
  datatype Failure = StoreRefused(violation: Violation) | IdNotANumber

  /** What a handler does: answer with a status and a body, or let an error escape. */
  datatype Outcome = Reply(status: int, payload: Payload) | Rethrown(failure: Failure)

  /** A JSON request field as the handler reads it: `None` when the field is absent. */
  type Field = Option<Json>

  // ---------------------------------------------------------------------------
  // Login

  const InvalidLogin := "Invalid acronym or code"

  /** `family.accessCode !== accessCode`, with the stored code NULL or text. */
  predicate CodeMatches(stored: Option<String>, given: Field) {
    match stored
    case Some(code) => given == Some(JStr(code))
    case None => given == Some(JNull)
  }

  /**
   * `POST /api/login`: `found` is the family the name lookup returned. No
   * such family or a different code gives 401; otherwise the record itself.
   */
  function Login(found: Option<Account>, accessCode: Field): (r: Outcome)
    ensures r.Reply?
    ensures r.status == 401 <==> found.None? || !CodeMatches(found.value.accessCode, accessCode)
    ensures r.status == 401 ==> r.payload == Message(InvalidLogin)
    ensures r.status != 401 ==> r.status == 200 && r.payload == AccountJson(found.value)
  {
    if found.None? || !CodeMatches(found.value.accessCode, accessCode) then Reply(401, Message(InvalidLogin))
    else Reply(200, AccountJson(found.value))
  }

  /** An unknown name and a wrong code cannot be told apart from the answer. */
  lemma LoginFailuresIndistinguishable(a: Account, given: Field, other: Field)
    requires !CodeMatches(a.accessCode, given)
    ensures Login(Some(a), given) == Login(None, other)
  {
  }

  /** With a text code stored, only that exact string logs in; a number with the same digits does not. */
  lemma LoginNeedsExactString(a: Account, code: String, n: int)
    requires a.accessCode == Some(code)
    ensures Login(Some(a), Some(JStr(code))) == Reply(200, AccountJson(a))
    ensures Login(Some(a), Some(JNum(n))).status == 401
    ensures Login(Some(a), None).status == 401
  {
  }

  // ---------------------------------------------------------------------------
  // Shared answers

  /** 400 with the first issue's message and field path. */
  function BadRequest(issues: seq<Issue>): (r: Outcome)
    requires issues != []
    ensures r.Reply? && r.status == 400
    ensures r.payload == ValidationError(IssueMessage(issues[0].code), issues[0].field)
  {
    Reply(400, ValidationError(IssueMessage(issues[0].code), issues[0].field))
  }

  /** A rejected selection update reports the quantity bound. */
  lemma NegativeQuantityAnswer(ins: InsertSelection)
    requires ins.quantity < 0
    ensures BadRequest(ParseSelectionUpdate(SelectionBody(ins)).issues)
      == Reply(400, ValidationError("Number must be greater than or equal to 0", "quantity"))
  {
    NegativeQuantityRejected(ins);
    assert IntToString(0) == "0";
  }

  /** `Number(req.params.id)` for a decimal id; anything else is NaN, which the database refuses. */
  function IdParam(param: String): Option<int> {
    ParseDecimal(param)
  }

  // ---------------------------------------------------------------------------
  // Categories (the store's answer is a parameter)

  /** `POST /api/categories` before the store is called: 400, or the insert to make. */
  function CreateCategoryInput(body: Body): (r: Result<InsertCategory, Outcome>)
    ensures r.Err? <==> ParseInsertCategory(body).Rejected?
    ensures r.Err? ==> r.error == BadRequest(ParseInsertCategory(body).issues)
    ensures r.Ok? ==> r.value == ParseInsertCategory(body).value
  {
    match ParseInsertCategory(body)
    case Rejected(issues) => Err(BadRequest(issues))
    case Accepted(ins) => Ok(ins)
  }

  /**
   * `POST /api/categories`: `insert` is the store's answer to an insert. A
   * bad body is 400 and the store is never asked; otherwise the store gets
   * the parsed body and its row is answered with 201, or its refusal escapes.
   */
  function CreateCategoryRoute(body: Body, insert: InsertCategory -> Result<Category, Violation>): (r: Outcome)
    ensures ParseInsertCategory(body).Rejected? ==> r == BadRequest(ParseInsertCategory(body).issues)
    ensures ParseInsertCategory(body).Accepted? && insert(ParseInsertCategory(body).value).Ok? ==>
      r == Reply(201, CategoryJson(insert(ParseInsertCategory(body).value).value))
    ensures ParseInsertCategory(body).Accepted? && insert(ParseInsertCategory(body).value).Err? ==>
      r == Rethrown(StoreRefused(insert(ParseInsertCategory(body).value).error))
    ensures r.Reply? ==> r.status in {201, 400}
  {
    match CreateCategoryInput(body)
    case Err(answer) => answer
    case Ok(ins) =>
      match insert(ins)
      case Ok(created) => Reply(201, CategoryJson(created))
      case Err(v) => Rethrown(StoreRefused(v))
  }

  /** `PUT /api/categories/:id` once the store's update returned `updated`. */
  function CategoryUpdated(updated: Option<Category>): (r: Outcome)
    ensures r.Reply?
    ensures r.status == 404 <==> updated.None?
    ensures updated.None? ==> r.payload == Message("Category not found")
    ensures updated.Some? ==> r == Reply(200, CategoryJson(updated.value))
  {
    match updated
    case None => Reply(404, Message("Category not found"))
    case Some(c) => Reply(200, CategoryJson(c))
  }

  /**
   * `PUT /api/categories/:id`: `update` is the store's answer to an update
   * (the row, none for an unknown id, or a refusal). The body is validated
   * first, so a bad body is 400 whatever the id; a non-numeric id with a
   * good body reaches the database and escapes.
   */
  function UpdateCategoryRoute(idParam: String, body: Body, update: (int, InsertCategory) -> Result<Option<Category>, Violation>): (r: Outcome)
    ensures ParseInsertCategory(body).Rejected? ==> r == BadRequest(ParseInsertCategory(body).issues)
    ensures ParseInsertCategory(body).Accepted? && IdParam(idParam).None? ==> r == Rethrown(IdNotANumber)
    ensures ParseInsertCategory(body).Accepted? && IdParam(idParam).Some? ==>
      match update(IdParam(idParam).value, ParseInsertCategory(body).value)
      case Err(v) => r == Rethrown(StoreRefused(v))
      case Ok(None) => r == Reply(404, Message("Category not found"))
      case Ok(Some(c)) => r == Reply(200, CategoryJson(c))
    ensures r.Reply? ==> r.status in {200, 400, 404}
  {
    match ParseInsertCategory(body)
    case Rejected(issues) => BadRequest(issues)
    case Accepted(ins) =>
      match IdParam(idParam)
      case None => Rethrown(IdNotANumber)
      case Some(id) =>
        match update(id, ins)
        case Err(v) => Rethrown(StoreRefused(v))
        case Ok(found) => CategoryUpdated(found)
  }

  /**
   * `DELETE /api/categories/:id`: `delete` is the store's answer to the
   * delete (a refusal, or none). A non-numeric id reaches the database and
   * escapes; otherwise 204 once the delete returned, whether or not the id
   * existed, and a refusal escapes.
   */
  function DeleteCategoryRoute(idParam: String, delete: int -> Option<Violation>): (r: Outcome)
    ensures IdParam(idParam).None? ==> r == Rethrown(IdNotANumber)
    ensures IdParam(idParam).Some? && delete(IdParam(idParam).value).None? ==> r == Reply(204, NoContent)
    ensures IdParam(idParam).Some? && delete(IdParam(idParam).value).Some? ==>
      r == Rethrown(StoreRefused(delete(IdParam(idParam).value).value))
    ensures r.Reply? ==> r.status == 204
  {
    match IdParam(idParam)
    case None => Rethrown(IdNotANumber)
    case Some(id) =>
      match delete(id)
      case None => Reply(204, NoContent)
      case Some(v) => Rethrown(StoreRefused(v))
  }

  // ---------------------------------------------------------------------------
  // Families

  /** `GET /api/families/:id` */
  function GetFamilyRoute(store: SnackStore, idParam: String): (r: Outcome)
    reads store
    ensures IdParam(idParam).None? ==> r == Rethrown(IdNotANumber)
    ensures IdParam(idParam).Some? && !HasFamily(store.families, IdParam(idParam).value) ==>
      r == Reply(404, Message("Family not found"))
    ensures IdParam(idParam).Some? && HasFamily(store.families, IdParam(idParam).value) ==>
      r.Reply? && r.status == 200 && r.payload.FamilyJson? &&
      r.payload.family in store.families && r.payload.family.id == IdParam(idParam).value
  {
    match IdParam(idParam)
    case None => Rethrown(IdNotANumber)
    case Some(id) =>
      match store.GetFamily(id)
      case None => Reply(404, Message("Family not found"))
      case Some(f) => Reply(200, FamilyJson(f))
  }

  /** `POST /api/families`: 400 before any write, 201 with the new row, or the store's refusal. */
  method CreateFamilyRoute(store: SnackStore, body: Body) returns (r: Outcome)
    requires store.Valid()
    modifies store
    ensures store.Valid()
    ensures ParseInsertFamily(body).Rejected? ==>
      r == BadRequest(ParseInsertFamily(body).issues) && unchanged(store)
    ensures ParseInsertFamily(body).Accepted? && !HasFamilyName(old(store.families), body.fields["name"].s) ==>
      r == Reply(201, FamilyJson(FamilyRow(old(store.nextFamilyId), ParseInsertFamily(body).value))) &&
      store.families == old(store.families) + [FamilyRow(old(store.nextFamilyId), ParseInsertFamily(body).value)]
    ensures ParseInsertFamily(body).Accepted? && HasFamilyName(old(store.families), body.fields["name"].s) ==>
      r == Rethrown(StoreRefused(UniqueViolation)) && unchanged(store)
    ensures store.categories == old(store.categories) && store.snacks == old(store.snacks)
    ensures store.selections == old(store.selections)
    ensures store.nextSnackId == old(store.nextSnackId) && store.nextSelectionId == old(store.nextSelectionId)
    ensures r.Reply? && r.status == 201 ==> store.nextFamilyId == old(store.nextFamilyId) + 1
  {
    match ParseInsertFamily(body)
    case Rejected(issues) =>
      r := BadRequest(issues);
    case Accepted(ins) =>
      var created := store.CreateFamily(ins);
      match created
      case Err(v) => r := Rethrown(StoreRefused(v));
      case Ok(f) => r := Reply(201, FamilyJson(f));
  }

  // ---------------------------------------------------------------------------
  // Snacks

  /** `POST /api/snacks`: 400 before any write, 201 with the new row, or the store's refusal. */
  method CreateSnackRoute(store: SnackStore, body: Body) returns (r: Outcome)
    requires store.Valid()
    modifies store
    ensures store.Valid()
    ensures ParseInsertSnack(body).Rejected? ==>
      r == BadRequest(ParseInsertSnack(body).issues) && unchanged(store)
    ensures ParseInsertSnack(body).Accepted? && CategoryRefOk(store.categories, ParseInsertSnack(body).value.categoryId) ==>
      r == Reply(201, SnackJson(SnackRow(old(store.nextSnackId), ParseInsertSnack(body).value))) &&
      store.snacks == old(store.snacks) + [SnackRow(old(store.nextSnackId), ParseInsertSnack(body).value)]
    ensures ParseInsertSnack(body).Accepted? && !CategoryRefOk(store.categories, ParseInsertSnack(body).value.categoryId) ==>
      r == Rethrown(StoreRefused(ForeignKeyViolation)) && unchanged(store)
    ensures store.categories == old(store.categories) && store.families == old(store.families)
    ensures store.selections == old(store.selections)
    ensures store.nextFamilyId == old(store.nextFamilyId) && store.nextSelectionId == old(store.nextSelectionId)
    ensures r.Reply? && r.status == 201 ==> store.nextSnackId == old(store.nextSnackId) + 1
  {
    match ParseInsertSnack(body)
    case Rejected(issues) =>
      r := BadRequest(issues);
    case Accepted(ins) =>
      var created := store.CreateSnack(ins);
      match created
      case Err(v) => r := Rethrown(StoreRefused(v));
      case Ok(s) => r := Reply(201, SnackJson(s));
  }

  /**
   * `PUT /api/snacks/:id`: a bad body is 400 with nothing written; a missing
   * snack is 404 "Snack not found"; otherwise 200 with the updated row.
   */
  method UpdateSnackRoute(store: SnackStore, idParam: String, body: Body) returns (r: Outcome)
    requires store.Valid()
    modifies store
    ensures store.Valid()
    ensures ParseSnackPatch(body).Rejected? ==>
      r == BadRequest(ParseSnackPatch(body).issues) && unchanged(store)
    ensures ParseSnackPatch(body).Accepted? && IdParam(idParam).None? ==>
      r == Rethrown(IdNotANumber) && unchanged(store)
    ensures ParseSnackPatch(body).Accepted? && IdParam(idParam).Some? && !HasSnack(old(store.snacks), IdParam(idParam).value) ==>
      r == Reply(404, Message("Snack not found")) && unchanged(store)
    ensures ParseSnackPatch(body).Accepted? && IdParam(idParam).Some? && HasSnack(old(store.snacks), IdParam(idParam).value) ==>
      var patched := Patched(FindSnack(old(store.snacks), IdParam(idParam).value).value, ParseSnackPatch(body).value);
      if CategoryRefOk(store.categories, patched.categoryId) then
        && r == Reply(200, SnackJson(patched))
        && store.snacks == old(store.snacks)[SnackIndex(old(store.snacks), IdParam(idParam).value).value := patched]
      else
        r == Rethrown(StoreRefused(ForeignKeyViolation)) && unchanged(store)
    ensures r.Reply? ==> r.status in {200, 400, 404}
    ensures store.categories == old(store.categories) && store.families == old(store.families)
    ensures store.selections == old(store.selections)
    ensures store.nextFamilyId == old(store.nextFamilyId) && store.nextSnackId == old(store.nextSnackId)
    ensures store.nextSelectionId == old(store.nextSelectionId)
  {
    var id := IdParam(idParam);
    match ParseSnackPatch(body)
    case Rejected(issues) =>
      r := BadRequest(issues);
    case Accepted(patch) =>
      if id.None? {
        return Rethrown(IdNotANumber);
      }
      var updated := store.UpdateSnack(id.value, patch);
      match updated
      case Err(v) => r := Rethrown(StoreRefused(v));
      case Ok(None) => r := Reply(404, Message("Snack not found"));
      case Ok(Some(s)) => r := Reply(200, SnackJson(s));
  }

  /** `DELETE /api/snacks/:id`: the cascade, then 204 whether or not the snack existed. */
  method DeleteSnackRoute(store: SnackStore, idParam: String) returns (r: Outcome)
    requires store.Valid()
    modifies store
    ensures store.Valid()
    ensures IdParam(idParam).None? ==> r == Rethrown(IdNotANumber) && unchanged(store)
    ensures IdParam(idParam).Some? ==>
      && r == Reply(204, NoContent)
      && store.snacks == DeleteSnackRow(old(store.snacks), IdParam(idParam).value)
      && store.selections == DeleteSelectionsOfSnack(old(store.selections), IdParam(idParam).value)
    ensures store.categories == old(store.categories) && store.families == old(store.families)
    ensures store.nextFamilyId == old(store.nextFamilyId) && store.nextSnackId == old(store.nextSnackId)
    ensures store.nextSelectionId == old(store.nextSelectionId)
  {
    var id := IdParam(idParam);
    if id.None? {
      return Rethrown(IdNotANumber);
    }
    store.DeleteSnack(id.value);
    r := Reply(204, NoContent);
  }

  // ---------------------------------------------------------------------------
  // Selections

  /**
   * `POST /api/selections`: a bad body (a negative quantity among others) is
   * 400 with nothing written; otherwise the upsert, answered with 200 and
   * the row.
   */
  method UpdateSelectionRoute(store: SnackStore, body: Body) returns (r: Outcome)
    requires store.Valid()
    modifies store
    ensures store.Valid()
    ensures ParseSelectionUpdate(body).Rejected? ==>
      r == BadRequest(ParseSelectionUpdate(body).issues) && unchanged(store)
    ensures r.Reply? && r.status == 200 ==>
      && ParseSelectionUpdate(body).Accepted?
      && store.selections == Upsert(old(store.selections), old(store.nextSelectionId), ParseSelectionUpdate(body).value)
      && r.payload.SelectionJson? && r.payload.selection.quantity == ParseSelectionUpdate(body).value.quantity
    ensures ParseSelectionUpdate(body).Accepted? ==>
      var ins := ParseSelectionUpdate(body).value;
      if FindPair(old(store.selections), ins.familyId, ins.snackId).Some?
         || (HasFamily(old(store.families), ins.familyId) && HasSnack(old(store.snacks), ins.snackId))
      then r.Reply? && r.status == 200
      else r == Rethrown(StoreRefused(ForeignKeyViolation)) && unchanged(store)
    ensures r.Rethrown? ==> r == Rethrown(StoreRefused(ForeignKeyViolation)) && unchanged(store)
    ensures r.Reply? ==> r.status in {200, 400}
    ensures forall sel :: sel in store.selections ==> sel in old(store.selections) || sel.quantity >= 0
    ensures store.categories == old(store.categories) && store.families == old(store.families)
    ensures store.snacks == old(store.snacks)
    ensures store.nextFamilyId == old(store.nextFamilyId) && store.nextSnackId == old(store.nextSnackId)
  {
    match ParseSelectionUpdate(body)
    case Rejected(issues) =>
      r := BadRequest(issues);
    case Accepted(ins) =>
      ghost var before := store.selections;
      var written := store.UpdateSelection(ins);
      match written
      case Err(v) => r := Rethrown(StoreRefused(v));
      case Ok(sel) =>
        UpsertShape(before, old(store.nextSelectionId), ins);
        r := Reply(200, SelectionJson(sel));
  }
}
