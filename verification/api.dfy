/**
 * The shared API contract: validation of request bodies against the insert
 * shapes (and the selection-update shape, whose quantity must be at least
 * 0), and `buildUrl`, which fills `:key` placeholders of a route path.
 */
module Api {
  import opened Common
  import opened Text
  import opened Schema

  // ---------------------------------------------------------------------------
  // Request bodies

  /** A JSON value as a body field holds it; numbers are integers here. */
  datatype Json = JNull | JBool(b: bool) | JNum(n: int) | JStr(s: String) | JArray | JObject

  /** A parsed JSON request body: an object, or an array (which no route accepts). */
  datatype Body = Object(fields: map<String, Json>) | ArrayBody

  datatype IssueCode =
    | Required
    | InvalidType(expected: String, received: String)
    | TooSmall(minimum: int)

  /** One validation failure; `field` is the path of the offending value ("" for the body itself). */
  datatype Issue = Issue(field: String, code: IssueCode)

  datatype Parsed<+T> = Accepted(value: T) | Rejected(issues: seq<Issue>)

  /** The message a validation failure reports. */
  function IssueMessage(code: IssueCode): String {
    match code
    case Required => "Required"
    case InvalidType(expected, received) => "Expected " + expected + ", received " + received
    case TooSmall(minimum) => "Number must be greater than or equal to " + IntToString(minimum)
  }

  function TypeName(v: Json): String {
    match v
    case JNull => "null"
    case JBool(_) => "boolean"
    case JNum(_) => "number"
    case JStr(_) => "string"
    case JArray => "array"
    case JObject => "object"
  }

  const NotAnObject := Issue("", InvalidType("object", "array"))

  predicate IsNumber(fields: map<String, Json>, name: String) {
    name in fields && fields[name].JNum?
  }

  predicate IsString(fields: map<String, Json>, name: String) {
    name in fields && fields[name].JStr?
  }

  /** A field that may be omitted holds, when present, a value of the right type. */
  predicate OptionalNumberOk(fields: map<String, Json>, name: String) {
    name !in fields || fields[name].JNum?
  }

  predicate OptionalStringOk(fields: map<String, Json>, name: String) {
    name !in fields || fields[name].JStr?
  }

  predicate NullableStringOk(fields: map<String, Json>, name: String) {
    name !in fields || fields[name].JNull? || fields[name].JStr?
  }

  predicate NullableNumberOk(fields: map<String, Json>, name: String) {
    name !in fields || fields[name].JNull? || fields[name].JNum?
  }

  /** The issues of a required number field, with an optional lower bound. */
  function NumberIssues(fields: map<String, Json>, name: String, minimum: Option<int>): (r: seq<Issue>)
    ensures |r| <= 1
    ensures r == [] <==> IsNumber(fields, name) && (minimum.Some? ==> fields[name].n >= minimum.value)
  {
    if name !in fields then [Issue(name, Required)]
    else match fields[name]
      case JNum(n) => if minimum.Some? && n < minimum.value then [Issue(name, TooSmall(minimum.value))] else []
      case v => [Issue(name, InvalidType("number", TypeName(v)))]
  }

  function StringIssues(fields: map<String, Json>, name: String): (r: seq<Issue>)
    ensures |r| <= 1
    ensures r == [] <==> IsString(fields, name)
  {
    if name !in fields then [Issue(name, Required)]
    else match fields[name]
      case JStr(_) => []
      case v => [Issue(name, InvalidType("string", TypeName(v)))]
  }

  function OptionalIssues(fields: map<String, Json>, name: String, expected: String, ok: bool): (r: seq<Issue>)
    requires ok || name in fields
    ensures r == [] <==> ok
  {
    if ok then [] else [Issue(name, InvalidType(expected, TypeName(fields[name])))]
  }

  function NumberOf(fields: map<String, Json>, name: String): int {
    if name in fields && fields[name].JNum? then fields[name].n else 0
  }

  function StringOf(fields: map<String, Json>, name: String): String {
    if name in fields && fields[name].JStr? then fields[name].s else ""
  }

  /** An omitted or null column reads as NULL. */
  function NullableStringOf(fields: map<String, Json>, name: String): Option<String> {
    if name in fields && fields[name].JStr? then Some(fields[name].s) else None
  }

  function NullableNumberOf(fields: map<String, Json>, name: String): Option<int> {
    if name in fields && fields[name].JNum? then Some(fields[name].n) else None
  }

  function OptionalNumberOf(fields: map<String, Json>, name: String): Option<int> {
    if name in fields && fields[name].JNum? then Some(fields[name].n) else None
  }

  /** For a patch: omitted leaves the column, null clears it, a string sets it. */
  function PatchStringOf(fields: map<String, Json>, name: String): Option<Option<String>> {
    if name !in fields then None
    else if fields[name].JStr? then Some(Some(fields[name].s))
    else Some(None)
  }

  function PatchNumberOf(fields: map<String, Json>, name: String): Option<Option<int>> {
    if name !in fields then None
    else if fields[name].JNum? then Some(Some(fields[name].n))
    else Some(None)
  }

  /**
   * The selection-update body: `familyId`, `snackId` and `quantity` are
   * required numbers and `quantity` is at least 0. Every field is checked;
   * the issues come in field order.
   */
  function ParseSelectionUpdate(body: Body): (r: Parsed<InsertSelection>)
    ensures r.Accepted? <==>
      && body.Object?
      && IsNumber(body.fields, "familyId") && IsNumber(body.fields, "snackId") && IsNumber(body.fields, "quantity")
      && body.fields["quantity"].n >= 0
    ensures r.Accepted? ==>
      && r.value.familyId == body.fields["familyId"].n
      && r.value.snackId == body.fields["snackId"].n
      && r.value.quantity == body.fields["quantity"].n
      && r.value.quantity >= 0
    ensures r.Rejected? ==> r.issues != []
    ensures body.Object? && IsNumber(body.fields, "quantity") && body.fields["quantity"].n < 0 ==>
      r.Rejected? && Issue("quantity", TooSmall(0)) in r.issues
  {
    match body
    case ArrayBody => Rejected([NotAnObject])
    case Object(fields) =>
      var issues := NumberIssues(fields, "familyId", None) + NumberIssues(fields, "snackId", None)
                    + NumberIssues(fields, "quantity", Some(0));
      if issues != [] then Rejected(issues)
      else Accepted(InsertSelection(NumberOf(fields, "familyId"), NumberOf(fields, "snackId"), NumberOf(fields, "quantity")))
  }

  /** The insert-family body: `name` is a required string, `pointsAllowed` an optional number. */
  function ParseInsertFamily(body: Body): (r: Parsed<InsertFamily>)
    ensures r.Accepted? <==>
      body.Object? && IsString(body.fields, "name") && OptionalNumberOk(body.fields, "pointsAllowed")
    ensures r.Accepted? ==>
      && r.value.name == body.fields["name"].s
      && r.value.pointsAllowed == (if "pointsAllowed" in body.fields then Some(body.fields["pointsAllowed"].n) else None)
    ensures r.Rejected? ==> r.issues != []
  {
    match body
    case ArrayBody => Rejected([NotAnObject])
    case Object(fields) =>
      var issues := StringIssues(fields, "name")
                    + OptionalIssues(fields, "pointsAllowed", "number", OptionalNumberOk(fields, "pointsAllowed"));
      if issues != [] then Rejected(issues)
      else Accepted(InsertFamily(StringOf(fields, "name"), OptionalNumberOf(fields, "pointsAllowed")))
  }

  /** The insert-category body: `name` is a required string. */
  function ParseInsertCategory(body: Body): (r: Parsed<InsertCategory>)
    ensures r.Accepted? <==> body.Object? && IsString(body.fields, "name")
    ensures r.Accepted? ==> r.value.name == body.fields["name"].s
    ensures r.Rejected? ==> r.issues != []
  {
    match body
    case ArrayBody => Rejected([NotAnObject])
    case Object(fields) =>
      var issues := StringIssues(fields, "name");
      if issues != [] then Rejected(issues) else Accepted(InsertCategory(StringOf(fields, "name")))
  }

  /** The columns of a snack after `name`, each optional, in table order. */
  function SnackColumnIssues(fields: map<String, Json>): (r: seq<Issue>)
    ensures r == [] <==>
      && NullableStringOk(fields, "store") && NullableStringOk(fields, "link")
      && OptionalNumberOk(fields, "points") && NullableStringOk(fields, "imageUrl")
      && NullableNumberOk(fields, "categoryId")
  {
    OptionalIssues(fields, "store", "string", NullableStringOk(fields, "store"))
    + OptionalIssues(fields, "link", "string", NullableStringOk(fields, "link"))
    + OptionalIssues(fields, "points", "number", OptionalNumberOk(fields, "points"))
    + OptionalIssues(fields, "imageUrl", "string", NullableStringOk(fields, "imageUrl"))
    + OptionalIssues(fields, "categoryId", "number", NullableNumberOk(fields, "categoryId"))
  }

  /**
   * The insert-snack body: `name` is a required string; `store`, `link`,
   * `imageUrl` and `categoryId` may be omitted or null; `points` may be
   * omitted.
   */
  function ParseInsertSnack(body: Body): (r: Parsed<InsertSnack>)
    ensures r.Accepted? <==>
      body.Object? && IsString(body.fields, "name") && SnackColumnIssues(body.fields) == []
    ensures r.Accepted? ==>
      && r.value.name == body.fields["name"].s
      && r.value.store == NullableStringOf(body.fields, "store")
      && r.value.link == NullableStringOf(body.fields, "link")
      && r.value.points == OptionalNumberOf(body.fields, "points")
      && r.value.imageUrl == NullableStringOf(body.fields, "imageUrl")
      && r.value.categoryId == NullableNumberOf(body.fields, "categoryId")
    ensures r.Rejected? ==> r.issues != []
  {
    match body
    case ArrayBody => Rejected([NotAnObject])
    case Object(fields) =>
      var issues := StringIssues(fields, "name") + SnackColumnIssues(fields);
      if issues != [] then Rejected(issues)
      else Accepted(InsertSnack(
        StringOf(fields, "name"),
        NullableStringOf(fields, "store"),
        NullableStringOf(fields, "link"),
        OptionalNumberOf(fields, "points"),
        NullableStringOf(fields, "imageUrl"),
        NullableNumberOf(fields, "categoryId")))
  }

  /**
   * What a patch says about a nullable text column, read off the body: an
   * omitted field leaves the column, null clears it, a string sets it.
   */
  predicate StringPatchFrom(fields: map<String, Json>, name: String, v: Option<Option<String>>) {
    && (name !in fields ==> v == None)
    && (name in fields && fields[name].JNull? ==> v == Some(None))
    && (name in fields && fields[name].JStr? ==> v == Some(Some(fields[name].s)))
  }

  predicate NumberPatchFrom(fields: map<String, Json>, name: String, v: Option<Option<int>>) {
    && (name !in fields ==> v == None)
    && (name in fields && fields[name].JNull? ==> v == Some(None))
    && (name in fields && fields[name].JNum? ==> v == Some(Some(fields[name].n)))
  }

  /** The update-snack body: the insert-snack shape with every field optional. */
  function ParseSnackPatch(body: Body): (r: Parsed<SnackPatch>)
    ensures r.Accepted? <==>
      body.Object? && OptionalStringOk(body.fields, "name") && SnackColumnIssues(body.fields) == []
    ensures r.Accepted? ==>
      && r.value.name == (if "name" in body.fields then Some(body.fields["name"].s) else None)
      && r.value.points == (if "points" in body.fields then Some(body.fields["points"].n) else None)
      && StringPatchFrom(body.fields, "store", r.value.store)
      && StringPatchFrom(body.fields, "link", r.value.link)
      && StringPatchFrom(body.fields, "imageUrl", r.value.imageUrl)
      && NumberPatchFrom(body.fields, "categoryId", r.value.categoryId)
    ensures r.Rejected? ==> r.issues != []
  {
    match body
    case ArrayBody => Rejected([NotAnObject])
    case Object(fields) =>
      var issues := OptionalIssues(fields, "name", "string", OptionalStringOk(fields, "name")) + SnackColumnIssues(fields);
      if issues != [] then Rejected(issues)
      else Accepted(SnackPatch(
        if "name" in fields then Some(StringOf(fields, "name")) else None,
        PatchStringOf(fields, "store"),
        PatchStringOf(fields, "link"),
        OptionalNumberOf(fields, "points"),
        PatchStringOf(fields, "imageUrl"),
        PatchNumberOf(fields, "categoryId")))
  }

  /** The body a client sends for a selection update. */
  function SelectionBody(ins: InsertSelection): Body {
    Object(map["familyId" := JNum(ins.familyId), "snackId" := JNum(ins.snackId), "quantity" := JNum(ins.quantity)])
  }

  /** A request the client builds from a non-negative quantity passes validation unchanged. */
  lemma SelectionBodyAccepted(ins: InsertSelection)
    requires ins.quantity >= 0
    ensures ParseSelectionUpdate(SelectionBody(ins)) == Accepted(ins)
  {
    var fields := SelectionBody(ins).fields;
    assert IsNumber(fields, "familyId") && IsNumber(fields, "snackId") && IsNumber(fields, "quantity");
  }

  /** A negative quantity is refused, whatever the other fields hold. */
  lemma NegativeQuantityRejected(ins: InsertSelection)
    requires ins.quantity < 0
    ensures ParseSelectionUpdate(SelectionBody(ins)).Rejected?
    ensures ParseSelectionUpdate(SelectionBody(ins)).issues == [Issue("quantity", TooSmall(0))]
  {
    var fields := SelectionBody(ins).fields;
    assert IsNumber(fields, "familyId") && IsNumber(fields, "snackId");
    assert NumberIssues(fields, "quantity", Some(0)) == [Issue("quantity", TooSmall(0))];
  }

  // ---------------------------------------------------------------------------
  // buildUrl

  /** A parameter value: a string or a number. */
  datatype ParamValue = Str(s: String) | Num(n: int)

  /** `String(value)` */
  function ParamString(v: ParamValue): String {
    match v
    case Str(s) => s
    case Num(n) => IntToString(n)
  }

  /** The `:key` placeholder of a parameter. */
  function Placeholder(key: String): String { ":" + key }

  /** One entry's effect: the first `:key` in `url`, if any, replaced by the value's text. */
  function Substitute(url: String, key: String, value: ParamValue): (r: String)
    ensures !Includes(url, Placeholder(key)) ==> r == url
  {
    if Includes(url, Placeholder(key)) then ReplaceFirst(url, Placeholder(key), ParamString(value)) else url
  }

  /** The entries applied in order, each to the result of the ones before it. */
  function SubstituteAll(url: String, entries: seq<(String, ParamValue)>): String
    decreases |entries|
  {
    if entries == [] then url
    else
      var last := entries[|entries| - 1];
      Substitute(SubstituteAll(url, entries[..|entries| - 1]), last.0, last.1)
  }

  /**
   * `buildUrl(path, params)`, with `params` given as its entries in
   * enumeration order.
   */
  method BuildUrl(path: String, params: Option<seq<(String, ParamValue)>>) returns (url: String)
    ensures params.None? ==> url == path
    ensures params.Some? ==> url == SubstituteAll(path, params.value)
  {
    url := path;
    if params.Some? {
      var entries := params.value;
      var i := 0;
      while i < |entries|
        invariant 0 <= i <= |entries|
        invariant url == SubstituteAll(path, entries[..i])
      {
        assert entries[..i + 1][..i] == entries[..i];
        var (key, value) := entries[i];
        if Includes(url, Placeholder(key)) {
          url := ReplaceFirst(url, Placeholder(key), ParamString(value));
        }
        i := i + 1;
      }
      assert entries[..i] == entries;
    }
  }

  /** Applying two lists of entries one after the other is applying their concatenation. */
  lemma {:induction false} SubstituteAllAppend(url: String, a: seq<(String, ParamValue)>, b: seq<(String, ParamValue)>)
    ensures SubstituteAll(url, a + b) == SubstituteAll(SubstituteAll(url, a), b)
    decreases |b|
  {
    if b == [] {
      assert a + b == a;
    } else {
      var b' := b[..|b| - 1];
      assert (a + b)[..|a + b| - 1] == a + b';
      SubstituteAllAppend(url, a, b');
    }
  }

  /**
   * A key whose placeholder occurs in the url has its first occurrence
   * replaced by the value's text, and the text around it kept.
   */
  lemma SubstituteFirstOccurrence(url: String, key: String, value: ParamValue, i: int)
    requires OccursAt(url, Placeholder(key), i)
    requires forall j :: 0 <= j < i ==> !OccursAt(url, Placeholder(key), j)
    ensures Substitute(url, key, value) == url[..i] + ParamString(value) + url[i + |key| + 1..]
  {
    IncludesIff(url, Placeholder(key));
    ReplaceFirstSpec(url, Placeholder(key), ParamString(value), i);
  }

  /** Entries whose placeholders occur nowhere leave the url as it is. */
  lemma {:induction false} SubstituteAllAbsent(url: String, entries: seq<(String, ParamValue)>)
    requires forall k :: 0 <= k < |entries| ==> !Includes(url, Placeholder(entries[k].0))
    ensures SubstituteAll(url, entries) == url
    decreases |entries|
  {
    if entries != [] {
      SubstituteAllAbsent(url, entries[..|entries| - 1]);
    }
  }

  /** `buildUrl("/api/snacks/:id", {id: 5})` is "/api/snacks/5". */
  lemma BuildUrlSnackExample()
    ensures SubstituteAll("/api/snacks/:id", [("id", Num(5))]) == "/api/snacks/5"
  {
    var url: String := "/api/snacks/:id";
    assert OccursAt(url, Placeholder("id"), 12);
    forall j | 0 <= j < 12 ensures !OccursAt(url, Placeholder("id"), j) {
      assert url[j] != ':';
    }
    SubstituteFirstOccurrence(url, "id", Num(5), 12);
    SubstituteAllSingle(url, "id", Num(5));
    assert IntToString(5) == "5";
  }

  lemma SubstituteAllSingle(url: String, key: String, value: ParamValue)
    ensures SubstituteAll(url, [(key, value)]) == Substitute(url, key, value)
  {
    assert [(key, value)][..0] == [];
  }

  /** A placeholder at the end of a path with no other colon is replaced by the value's text. */
  lemma SubstituteAtEnd(prefix: String, key: String, value: ParamValue)
    requires forall j :: 0 <= j < |prefix| ==> prefix[j] != ':'
    ensures Substitute(prefix + Placeholder(key), key, value) == prefix + ParamString(value)
  {
    var pat := Placeholder(key);
    var url := prefix + pat;
    var p := |prefix|;
    assert url[p..p + |pat|] == pat;
    forall j | 0 <= j < p ensures !OccursAt(url, pat, j) {
      assert url[j] == prefix[j] != pat[0];
    }
    SubstituteFirstOccurrence(url, key, value, p);
    assert url[..p] == prefix;
    assert url[p + |key| + 1..] == [];
  }

  /**
   * A number written into an `:id` path by `buildUrl` reads back as the
   * same number with `Number(req.params.id)` on the server.
   */
  lemma BuildUrlIdRoundTrip(prefix: String, n: int)
    requires forall j :: 0 <= j < |prefix| ==> prefix[j] != ':'
    ensures var u := SubstituteAll(prefix + ":id", [("id", Num(n))]);
      && u == prefix + IntToString(n)
      && |prefix| <= |u| && ParseDecimal(u[|prefix|..]) == Some(n)
  {
    assert Placeholder("id") == ":id";
    SubstituteAllSingle(prefix + ":id", "id", Num(n));
    SubstituteAtEnd(prefix, "id", Num(n));
    var r := prefix + IntToString(n);
    assert r[|prefix|..] == IntToString(n);
    IntRoundTrip(n);
  }
}
