# Netley Colony snack list — a Dafny model

The snack list is a small ordering app. Families are households named by an
acronym, and each family has a points allowance. The store keeps four tables:
categories, families, snacks, and a sparse table of selections that maps a
(family, snack) pair to a quantity.

This project models the parts of the app that hold logic:

- the storage layer: an upsert of a selection, a manual cascade when a snack
  is deleted, and the two aggregate queries (each family's points used; the
  master shopping list);
- the schema's constraints;
- the request validation and the `buildUrl` helper shared by client and
  server;
- the route handlers' status decisions;
- the arithmetic and filtering the three client pages derive from the API's
  answers.

Modules, in dependency order:

| module | file | models |
|---|---|---|
| `Common` | common.dfy | `Option` / `Result` |
| `Text` | text.dfy | lower-casing, `includes`, first-occurrence `replace`, `String(n)` and `Number(s)` on decimal integers |
| `Order` | order.dfy | the name order used by `ORDER BY name` and `localeCompare`; a stable insertion sort |
| `Schema` | schema.dfy | rows, insert shapes, defaults, unique and foreign-key constraints |
| `TableWrites` | table_writes.dfy | the selection upsert and the two deletes of the cascade, as table functions |
| `Queries` | queries.dfy | the left-join family totals, the grouped master list, a family's selections |
| `Storage` | storage.dfy | `SnackStore`, a class holding the four tables and their serial counters |
| `Api` | api.dfy | request-body validation with its messages, and `BuildUrl` |
| `Routes` | routes.dfy | login, 400/404/201/204 decisions, validation before any write |
| `Listings` | listings.dfy | a snack as the snack list returns it (with its category), and the search test |
| `ManageSnacks` | manage_snacks.dfy | the catalogue page's filter |
| `FamilyDetail` | family_detail.dfy | merge, grouping, budget and quantity change on a family's page |
| `MasterListPage` | master_list.dfy | the master list page's two totals |

`SnackStore` is a class because the store updates its tables in place. Its
`Valid()` invariant is the schema's constraints plus "every id is below its
serial counter". Each mutating method is proved against a table function in
`TableWrites`, for example `selections == Upsert(old(selections), …)`. The
properties are then proved about those functions. The queries are functions
of the tables. `BuildUrl` and `GroupedSnacks` are loops, as in the source.
Each is proved equal to a recursive specification function.

## Model

| member | source | states |
|---|---|---|
| `Order.SortByStable` | client/src/pages/FamilyDetail.tsx:43 | The name sort is stable: snacks with the same name keep their relative order, as `Array.prototype.sort` guarantees. |
| `Schema.RowDefaults` | shared/schema.ts:13-35 | An insert takes its id from the store. An omitted `pointsAllowed` or `points` becomes 0. The supplied columns are stored as given. |
| `Schema.PatchedFrame` | server/storage.ts:91-94 | A partial update never changes the id. Each supplied column, nullable ones set to NULL included, takes its new value, and each omitted column keeps its old one. An empty patch leaves the row as it was. |
| `TableWrites.FindPairFrom` | server/storage.ts:119-124 | The existence check finds the first row for (familyId, snackId), and no earlier row matches. |
| `TableWrites.FindPairIs` | server/storage.ts:119-126 | The row the upsert updates (`existing[0]`) is the first row for the pair. |
| `TableWrites.PairCountNone` | shared/schema.ts:36-38 | A table with no row for the pair counts 0 rows for it. |
| `TableWrites.PairCountOne` | shared/schema.ts:36-38 | A table with exactly one matching row counts 1 row for the pair. |
| `TableWrites.UpsertReadBack` | server/storage.ts:116-150 | After the upsert, reading the pair gives the quantity just written, 0 included. |
| `TableWrites.UpsertLeavesOneRow` | server/storage.ts:116-150 | With the pair constraint in force, the upsert leaves exactly one row for the pair, holding the new quantity. |
| `TableWrites.UpsertShape` | server/storage.ts:126-149 | An existing row keeps its id and position, and only its quantity changes; otherwise exactly one row is appended, even for quantity 0. No other row changes. |
| `TableWrites.UpsertKeepsPairsUnique` | shared/schema.ts:36-38 | The upsert preserves "at most one row per (familyId, snackId)". |
| `TableWrites.UpsertKeepsIdsUnique` | shared/schema.ts:32 | With a fresh serial id, primary keys stay unique. |
| `TableWrites.UpsertIdempotent` | server/storage.ts:116-150 | Writing the same selection twice leaves the same table as writing it once. |
| `TableWrites.LastWriteWins` | server/storage.ts:126-141 | Two writes to one pair leave the second quantity; quantities are overwritten, never added. |
| `TableWrites.UpsertOtherPairs` | server/storage.ts:130-148 | The upsert does not change what any other pair reads. |
| `TableWrites.ReplaceSnackKeepsConsistent` | server/storage.ts:91-94 | Replacing one snack row by a row with the same id and a valid category keeps every constraint. Every other row is untouched. |
| `TableWrites.DeleteSelectionsOfSnack` | server/storage.ts:97 | Exactly the selections of other snacks remain. |
| `TableWrites.DeleteSnackRow` | server/storage.ts:98 | Exactly the snacks with other ids remain. |
| `TableWrites.DeleteSelectionsKeepsUnique` | server/storage.ts:97 | Deleting selections keeps both the id and the pair uniqueness. |
| `TableWrites.DeleteSnackKeepsUnique` | server/storage.ts:98 | Deleting the snack keeps snack ids unique. |
| `TableWrites.CascadeKeepsConsistent` | server/storage.ts:96-99 | Deleting the snack's selections and then the snack keeps every constraint. No selection names the deleted snack. |
| `TableWrites.SnackFirstWouldDangle` | server/storage.ts:96-99 | Deleting the snack before its selections would break the foreign key, which is why the selections go first. |
| `Queries.FindSnack` | server/storage.ts:81-84 | The lookup finds a snack with that id, and finds none exactly when no such row exists. |
| `Queries.FindSnackUnique` | server/storage.ts:107 | With unique ids, the join finds the one snack with that id. |
| `Queries.FindFamily` | server/storage.ts:67-70 | The lookup finds a family with that id, and finds none exactly when no such row exists. |
| `Queries.FamilyPointsNoSelections` | server/storage.ts:51 | A family with no selections has used 0 points. |
| `Queries.CoalesceSum` | server/storage.ts:51 | `COALESCE(SUM(…), 0)` is the sum of the non-NULL products, or 0 when there are none. |
| `Queries.SumNonNullAppend` | server/storage.ts:51-55 | The sum of the non-NULL values is additive over a split of the joined rows. |
| `Queries.JoinedProductsSum` | server/storage.ts:51-55 | Summing the family's joined products gives quantity × points over its selections. A selection whose snack is missing adds nothing. |
| `Queries.LeftJoinTotal` | server/storage.ts:50-56 | The left join with `COALESCE` gives every family quantity × points over its selections, and 0 for a family without any. |
| `Queries.FamiliesWithTotals` | server/storage.ts:50-64 | Every family appears exactly once (same multiset), in name order, each with its points used. |
| `Queries.PositiveQuantitySign` | server/storage.ts:166-171 | A snack's summed positive quantity is > 0 exactly when it has a selection with quantity > 0, and is 0 otherwise. |
| `Queries.PositivePointsFactor` | server/storage.ts:167 | `SUM(quantity * points)` over a snack's rows is points × `SUM(quantity)`. |
| `Queries.GroupRowsFrom` | server/storage.ts:160-172 | Every master-list row is the aggregate of one listed snack that has a positive selection. |
| `Queries.GroupRowsComplete` | server/storage.ts:160-172 | Every snack with a positive selection gets its row. |
| `Queries.GroupRowsSorted` | server/storage.ts:173 | Rows built from name-sorted snacks are in name order. |
| `Queries.GroupRowsDistinct` | server/storage.ts:172 | `GROUP BY s.id` yields at most one row per snack. |
| `Queries.SortedSameElements` | server/storage.ts:173 | Sorting the snacks by name keeps exactly the same snacks. |
| `Queries.MasterListOrdered` | server/storage.ts:173 | The master list is ordered by snack name. |
| `Queries.MasterListRowsSound` | server/storage.ts:160-172 | Each row carries a snack's id, name and store, with the sums of that snack's positive quantities and points. |
| `Queries.MasterListComplete` | server/storage.ts:160-172 | Each snack with at least one positive selection has a row. |
| `Queries.MasterListExact` | server/storage.ts:160-172 | One row per snack at most, and a snack whose selections are all zero has no row. |
| `Queries.SortKeepsUniqueSnackIds` | server/storage.ts:173 | Reordering the snacks keeps ids unique. |
| `Queries.SelectionsOf` | server/storage.ts:101-113 | One result per selection of the family whose snack exists, in table order, each paired with that snack. Nothing else appears. |
| `Storage.SnackIndex` | server/storage.ts:92 | The update's `WHERE id = …` finds the row with that id, and finds none exactly when no such row exists. |
| `Storage.SeededNameFresh` | server/storage.ts:193-194 | While seeding distinct names, the next name is not taken yet. |
| `Storage.SnackStore.constructor` | shared/schema.ts:7-38 | A store holding the given categories, whose ids and names are unique, and no other rows satisfies every constraint, with serial counters at 1. |
| `Storage.SnackStore.GetFamilies` | server/storage.ts:42-65 | Every family exactly once, in name order, with quantity × points over its selections, and 0 without selections. |
| `Storage.SnackStore.GetFamily` | server/storage.ts:67-70 | The family with that id, or nothing exactly when none exists. |
| `Storage.SnackStore.GetSnacks` | server/storage.ts:77-79 | The snacks table, in name order, as a permutation. |
| `Storage.SnackStore.GetSnack` | server/storage.ts:81-84 | The snack with that id, or nothing exactly when none exists. |
| `Storage.SnackStore.GetSelections` | server/storage.ts:101-113 | Exactly the family's selection rows, one result each in table order, each with the snack its `snackId` names. The foreign key guarantees that the inner join drops none of them. |
| `Storage.SnackStore.GetMasterList` | server/storage.ts:153-181 | One row per snack with a positive selection and no other rows, ordered by name. Each row holds the sums of its positive quantities and points. |
| `Storage.SnackStore.CreateFamily` | server/storage.ts:72-75 | A new row with the next serial id and the default allowance. A duplicate name is refused and the store is unchanged. Other tables are unchanged. |
| `Storage.SnackStore.CreateSnack` | server/storage.ts:86-89 | A new row with the next serial id and the default points. A missing category is refused and the store is unchanged. |
| `Storage.SnackStore.UpdateSnack` | server/storage.ts:91-94 | Nothing for an unknown id. Otherwise the row at that id's position becomes the patched row, other rows stay, and the patched row is returned. A missing category is refused, leaving the store unchanged. |
| `Storage.SnackStore.DeleteSnack` | server/storage.ts:96-99 | The snack and exactly its selections are removed. Other rows and tables are unchanged, and the constraints still hold. |
| `Storage.SnackStore.UpdateSelection` | server/storage.ts:116-150 | The table becomes the upsert of the old table, with exactly one row for the pair. An existing row keeps its id and the selection serial counter stays. A new row takes the next serial id and advances the counter. A new row for a missing family or snack is refused, leaving the store unchanged. Other tables are unchanged. |
| `Storage.SnackStore.Seed` | server/storage.ts:183-211 | Families are seeded only into an empty families table, each with 800 points; snacks only into an empty snacks table. Non-empty tables stay as they were. |
| `Storage.SnackStore.SeedFamilies` | server/storage.ts:191-196 | Creates the families one by one, in order, each with 800 points. It stops at the first refusal and succeeds when the names are distinct. |
| `Storage.SnackStore.SeedSnacks` | server/storage.ts:198-210 | Creates the snacks one by one, in order, each row with the insert's columns. |
| `Api.NumberIssues` | shared/routes.ts:127-131 | A required number field has no issue exactly when it is a number and meets its minimum. |
| `Api.StringIssues` | shared/schema.ts:69-71 | A required string field has no issue exactly when it is a string. |
| `Api.OptionalIssues` | shared/schema.ts:69-71 | An optional field has no issue exactly when it is absent or of the right type. |
| `Api.ParseSelectionUpdate` | shared/routes.ts:127-131 | Accepted exactly when familyId, snackId and quantity are numbers and quantity ≥ 0. The accepted value carries those numbers, and a negative quantity reports the minimum 0. |
| `Api.ParseInsertFamily` | shared/schema.ts:70 | Accepted exactly when name is a string and pointsAllowed, if present, is a number. The value carries them. |
| `Api.ParseInsertCategory` | shared/schema.ts:69 | Accepted exactly when name is a string. The value carries it. |
| `Api.SnackColumnIssues` | shared/schema.ts:20-28 | The optional snack columns have no issue exactly when each is absent or of its type, with NULL allowed for nullable columns. |
| `Api.ParseInsertSnack` | shared/schema.ts:71 | Accepted exactly when name is a string and the other columns are well typed. Every column of the value is read off the body, an omitted or null nullable column becoming NULL. |
| `Api.ParseSnackPatch` | shared/routes.ts:100 | The partial shape: every field is optional. Accepted exactly when each present field is well typed. An omitted field leaves its column, null clears a nullable column, and a value sets the column to that value. |
| `Api.SelectionBodyAccepted` | shared/routes.ts:127-131 | A request built from a non-negative quantity is accepted unchanged. |
| `Api.NegativeQuantityRejected` | shared/routes.ts:130 | A negative quantity is refused, with the single issue "quantity must be ≥ 0". |
| `Api.Substitute` | shared/routes.ts:159-160 | A url without `:key` is left as it is. |
| `Api.BuildUrl` | shared/routes.ts:155-165 | Without params, the path is returned unchanged. Otherwise the entries are applied in order, each to the result of the previous ones. |
| `Api.SubstituteAllAppend` | shared/routes.ts:158-162 | Applying entries in sequence composes: two lists one after the other equal their concatenation. |
| `Api.SubstituteFirstOccurrence` | shared/routes.ts:160 | Only the first `:key` is replaced by the value's text, and the rest of the url is preserved. |
| `Api.SubstituteAllAbsent` | shared/routes.ts:159 | Entries whose placeholder occurs nowhere leave the url unchanged. |
| `Api.BuildUrlSnackExample` | shared/routes.ts:99 | `buildUrl("/api/snacks/:id", {id: 5})` is "/api/snacks/5". |
| `Api.SubstituteAllSingle` | shared/routes.ts:158-162 | A single entry applies exactly one substitution. |
| `Api.SubstituteAtEnd` | shared/routes.ts:160 | A trailing placeholder is replaced by the value's text. |
| `Api.BuildUrlIdRoundTrip` | shared/routes.ts:155-165 | An id written into a `:id` path is read back unchanged by `Number` on the server. |
| `Routes.Login` | server/routes.ts:13-20 | 401 "Invalid acronym or code" exactly when no family has the name or the code differs under `!==`. Otherwise 200 with the stored record unchanged. |
| `Routes.LoginFailuresIndistinguishable` | server/routes.ts:16-17 | An unknown name and a wrong code give the identical answer. |
| `Routes.LoginNeedsExactString` | server/routes.ts:16 | Only the exact stored string logs in. A number with the same digits, or a missing code, does not. |
| `Routes.BadRequest` | server/routes.ts:34-38 | 400 with the first issue's message and field. |
| `Routes.NegativeQuantityAnswer` | server/routes.ts:156-160 | A negative quantity gets 400 with the message "Number must be greater than or equal to 0" and field "quantity". |
| `Routes.CreateCategoryInput` | server/routes.ts:28-41 | An invalid body gives 400 with the first issue's message and field, before the store is called. Otherwise the parsed insert goes to the store. |
| `Routes.CreateCategoryRoute` | server/routes.ts:28-42 | An invalid body gives 400 with the first issue, whatever the store would answer. Otherwise the store is given the parsed body. Its row is answered with 201, or its refusal escapes. |
| `Routes.CategoryUpdated` | server/routes.ts:48-50 | 404 "Category not found" exactly when the store found nothing; otherwise 200 with the row. |
| `Routes.UpdateCategoryRoute` | server/routes.ts:44-60 | A bad body is 400 with the first issue, whatever the id. With a good body, a non-numeric id escapes. Otherwise the store updates that id with the parsed body: 404 when nothing was found, 200 with the row, or its refusal escapes. |
| `Routes.DeleteCategoryRoute` | server/routes.ts:62-66 | A non-numeric id reaches the database and escapes. Otherwise the store deletes that id and the answer is 204, whether or not it existed; a store refusal escapes. |
| `Routes.GetFamilyRoute` | server/routes.ts:74-80 | 404 "Family not found" for an unknown id, 200 with the family otherwise. A non-numeric id reaches the database and escapes as an error. |
| `Routes.CreateFamilyRoute` | server/routes.ts:82-96 | An invalid body gives 400 and leaves the store untouched. A name already taken escapes as a refusal, store unchanged. Otherwise 201 with the new row, appended with the next family id. The other tables and their counters never change. |
| `Routes.CreateSnackRoute` | server/routes.ts:104-118 | An invalid body gives 400 and leaves the store untouched. A missing category escapes as a refusal, store unchanged. Otherwise 201 with the new row, appended with the next snack id. The other tables and their counters never change. |
| `Routes.UpdateSnackRoute` | server/routes.ts:120-136 | 400 before any write, and a non-numeric id escapes. 404 "Snack not found" for an unknown id. A patched row with a missing category escapes as a refusal, store unchanged. Otherwise 200 with the patched row, which replaces the old one in place. Other tables and counters never change. |
| `Routes.DeleteSnackRoute` | server/routes.ts:138-142 | A non-numeric id escapes with the store unchanged. Otherwise the cascade runs, then 204, whether or not the snack existed. Families, categories and counters never change. |
| `Routes.UpdateSelectionRoute` | server/routes.ts:150-164 | 400 and no write for an invalid body. A valid body gets 200 and the upserted table when the pair already has a row or both its family and snack exist. Otherwise it escapes as a foreign-key refusal with the store unchanged. Families, snacks and categories never change, and through this route no row ever gets a negative quantity. |
| `Listings.EmptySearchMatches` | client/src/pages/ManageSnacks.tsx:34 | Every snack matches the empty search. |
| `ManageSnacks.FilterListings` | client/src/pages/ManageSnacks.tsx:33-36 | Keeps a snack exactly when its lowercased name, or its non-null lowercased store, includes the lowercased search. A snack without a store is kept only by its name. |
| `ManageSnacks.FilteredSnacks` | client/src/pages/ManageSnacks.tsx:33 | Undefined exactly when the snack list is undefined. Otherwise the matching snacks. |
| `ManageSnacks.FilterIsSubsequence` | client/src/pages/ManageSnacks.tsx:33 | The filtered list is a subsequence of the snack list, with order kept. |
| `ManageSnacks.EmptySearchKeepsAll` | client/src/pages/ManageSnacks.tsx:34 | An empty search keeps the whole list. |
| `FamilyDetail.FirstSelectionFrom` | client/src/pages/FamilyDetail.tsx:30 | `find` returns the first selection of the snack, and no earlier one matches. |
| `FamilyDetail.SnacksWithQuantities` | client/src/pages/FamilyDetail.tsx:27-36 | The same snacks in the same order. Each has the quantity of the first selection naming it, or 0 without one. The list is empty before the snacks load. |
| `FamilyDetail.ShownIsCatalogueFilter` | client/src/pages/FamilyDetail.tsx:46 | The page shows exactly the snacks the catalogue filter keeps; an empty search shows all. |
| `FamilyDetail.FindGroup` | client/src/pages/FamilyDetail.tsx:50 | The lookup finds a group with that name, and finds none exactly when no group has it. |
| `FamilyDetail.GroupedSnacks` | client/src/pages/FamilyDetail.tsx:39-54 | The loop's groups equal the specification `GroupAll` over the name-sorted list. |
| `FamilyDetail.GroupAllShape` | client/src/pages/FamilyDetail.tsx:45-52 | Group names are distinct and no group is empty. Each group holds exactly the shown snacks with its key, in list order, and every shown snack's key has a group. |
| `FamilyDetail.ItemsOfMembers` | client/src/pages/FamilyDetail.tsx:46-51 | A group holds a snack exactly when the snack is shown and its key is the group's. |
| `FamilyDetail.ShownInExactlyOneGroup` | client/src/pages/FamilyDetail.tsx:45-52 | Each shown snack is in a group named by its category, or "Other", and in no group of another name. |
| `FamilyDetail.HiddenInNoGroup` | client/src/pages/FamilyDetail.tsx:46-48 | A snack the search hides is in no group. |
| `FamilyDetail.EmptySearchGroupsAll` | client/src/pages/FamilyDetail.tsx:46 | With an empty search every snack is in a group. |
| `FamilyDetail.GroupsKeepNameOrder` | client/src/pages/FamilyDetail.tsx:43-51 | Within each group, snacks keep the name order of the sorted list. |
| `FamilyDetail.UncategorisedAllOther` | client/src/pages/FamilyDetail.tsx:49 | Snacks listed without a category all fall into one group, "Other". |
| `FamilyDetail.AsWrittenAgreesOrThrows` | client/src/pages/FamilyDetail.tsx:49-51 | The page as written agrees with own-key grouping unless a shown snack's category is named like an inherited object member, in which case it throws. |
| `FamilyDetail.ConstructorCategoryThrows` | client/src/pages/FamilyDetail.tsx:50-51 | A snack in a category named "constructor" makes the page as written throw. |
| `FamilyDetail.NoSelectionsUseNothing` | client/src/pages/FamilyDetail.tsx:57-61 | Without selections 0 points are used and the whole allowance remains. |
| `FamilyDetail.BudgetExample` | client/src/pages/FamilyDetail.tsx:57-66 | An allowance of 800 with 3 × 16 and 2 × 25 points: 98 used, 702 remaining, not over the limit. |
| `FamilyDetail.PageTotalIsServerTotal` | client/src/pages/FamilyDetail.tsx:57-59 | Fed the family's selections, the page's points used equals the total the family query reports for the family. |
| `FamilyDetail.OverLimitAgreesWithServer` | client/src/pages/FamilyDetail.tsx:61-66 | Fed the family's selections, the points remaining are the allowance minus the family query's total. The page warns exactly when that total exceeds the allowance. |
| `FamilyDetail.HandleQuantityChange` | client/src/pages/FamilyDetail.tsx:68-75 | No update for a negative quantity. Otherwise exactly (familyId, snackId, newQuantity) is sent. |
| `FamilyDetail.ClientAndServerAgree` | client/src/pages/FamilyDetail.tsx:68-75 | What the page sends, the server accepts unchanged. What the page holds back, the server would refuse. |
| `MasterListPage.TotalItems` | client/src/pages/MasterList.tsx:12 | 0 when the list is empty or not loaded yet. |
| `MasterListPage.TotalPoints` | client/src/pages/MasterList.tsx:13 | 0 when the list is empty or not loaded yet. |
| `MasterListPage.MasterTotalItems` | client/src/pages/MasterList.tsx:12 | Fed the master list, the item total is the sum of every positive quantity whose snack exists. |
| `MasterListPage.MasterTotalItemsAllFamilies` | client/src/pages/MasterList.tsx:12 | When every selection names an existing snack, the item total is the sum of all positive quantities across the families. |
| `MasterListPage.MasterTotalPoints` | client/src/pages/MasterList.tsx:13 | Fed the master list, the points total is quantity × points summed over the same selections. |
| `MasterListPage.MasterPointsAreFamilyPoints` | client/src/pages/MasterList.tsx:13 | With no negative quantity and every selection in an existing family, that points total is the sum of every family's points used. |

## Left out

- The SQL engine, drizzle and the database client. Tables are sequences in a class, and queries are functions over them.
- Concurrency. The upsert's read-then-write, and two requests racing, are modelled as one atomic step.
- Express wiring, `fetch`, React Query caching and `localStorage`. These are network and I/O.
- Rendering, dialogs, forms and routing.
- `progressValue`, because it uses floating-point division.
- The seed data. `Seed` takes the family names and the snack rows as parameters; only the rule "seed only into an empty table" and the 800-point allowance are modelled.
- Category CRUD bodies, `getFamilyByName` and the `accessCode` column. They are called by the route handlers, but the storage layer shown has no such functions and no such column. The handlers take the store's answer (`Option<Account>`, the created or updated category) as a parameter.
- The snack list's category. The shown `getSnacks` returns plain rows, while the route's response type and the pages expect each snack with its category. The client modules take the category as an optional field, which covers both.
- Collation. `localeCompare` and `ORDER BY name` under a non-C collation are modelled as code-point lexicographic order. That order differs even on plain ASCII: it puts "Banana" before "apple", where `localeCompare` puts "apple" first. `toLowerCase` maps ASCII letters only.
- Number formats. `String(n)` is modelled for integers in plain decimal. `Number(s)` accepts an optional `-` followed by decimal digits, and anything else is NaN (whitespace, `+`, hex, fractions).
- Non-integer and out-of-range numbers. JSON numbers are integers; fractions, and the 32-bit `integer` column overflowing, are not modelled.
- `$` patterns in `String.prototype.replace` replacement strings.
- Key order in `Object.entries`. `BuildUrl` takes the entries in the order given, and an integer-like key that JavaScript would move first is not reordered. The page's display order of groups (`Object.entries(groupedSnacks)`) is likewise not modelled; groups are kept in creation order.
- Serial values consumed by a failed insert. Postgres advances the sequence anyway, but the model only advances it on success. Ids are opaque, so no property depends on this.
- The 500 answer. An error that escapes a handler (a store refusal, a NaN id reaching the database) is the outcome `Rethrown`. The status the error middleware then sends is not part of this model.
- List endpoints that pass a query result straight through (`GET /api/families`, `/api/snacks`, `/api/selections/:familyId`, `/api/master-list`, `/api/categories`). The queries are modelled; the passing through is not.
- An update with an empty patch. drizzle refuses an empty `SET`, but the model applies it as "no column changes".
- The selection quantity default (`default(0)`). The route's input schema makes `quantity` required, so the default cannot be reached through the route.
- `Storage.SnackStore.UpdateSelection`: the source has two identical update branches (quantity 0 and otherwise) and two identical insert branches. Each pair is modelled as one branch.
- `FamilyDetail.HandleQuantityChange`: the quantity is taken as the integer the input produced. Parsing of the typed text is not modelled.

## Findings

| source | as written | input that shows it | evidently intended | confidence | as-written member | corrected member |
|---|---|---|---|---|---|---|
| client/src/pages/FamilyDetail.tsx:49-51 | The groups are a plain `{}` record, and `grouped[categoryName]` also finds inherited members such as `constructor`. That value is truthy, so no group is created, and `.push` is not a function, so the page throws. | One snack in a category named "constructor" (or "toString", "__proto__", …), with an empty search. | Group by the record's own keys only (for example `Object.create(null)`, a `Map`, or a `hasOwnProperty` check), so every category name gets its own group. | not executed | `FamilyDetail.ConstructorCategoryThrows` | `FamilyDetail.GroupedSnacks` |
