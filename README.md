# geoweb well API — a Dafny model

geoweb's backend (`back/index.js`) is an Express + PostgreSQL service. This project models the part of it that has logic of its own:

- **The identifier formatter.**
  - `fillNzeros` left-pads a value with `'0'`.
  - The create handler uses it to build the composite `well_id`: `fillNzeros(sourceField, 4) + fillNzeros(well_s, 6) + fillNzeros(well_id, 2)`.
  - A surface point is named `well_id + "_" + existence code`.
- **The well workflow.** These are the `POST`, `PUT` and `DELETE /api/wells` handlers:
  - They reject a request whose `wellId`, `altVal`, `cordX` or `cordY` is falsy.
  - Otherwise they insert, update or delete rows in six tables: `well`, `well_alias`, `well_sftr_role`, `well_surface_pt`, `p_location_1d` and `p_location_2d`.

The model has six modules.

- `Wrappers` holds `Option` and `Result`.
- `JsValues` models the JavaScript values of a parsed request body.
  - `Truthy` is the `!x` test.
  - `Nullish` is `x ?? d`.
  - `ToStr` is `"" + x`.
  - `Decimal` is the text of a non-negative integer.
- `Formatter` models `fillNzeros` and the two ids built from it.
  - `FillNZeros` is the function.
  - `FillNZerosLoop` is the method that builds the zeros in a loop as the source does, proved equal to it.
  - `PadLeft` is the usual left pad, which `fillNzeros` is compared against.
- `Tables` models the six tables. Each is a map from serial key to row, and `Db` adds the serial counter `next`.
  - Each SQL statement the handlers issue is one function. An `INSERT` takes key `next`; an `UPDATE` or `DELETE` acts on the rows its `WHERE` clause selects.
  - `Db.WellFormed` says every key and every reference lies below `next`, so the next key is fresh.
- `WellWorkflow` models the three handlers.
  - Each is a function from the database before the request to the database after it and the first response sent: `CreateSpec`, `UpdateSpec`, `DeleteSpec`.
  - The class `WellStore` holds the six tables as fields.
    - It has one method per SQL statement.
    - It has one method per handler (`Create`, `Update`, `Delete`). Each issues the statements in the source's order and is proved to produce exactly what its function describes.
    - `Update` saves the tables at `BEGIN` and restores them (`Restore`) on failure.
  - Failures of the database are a parameter: `faults` is the set of statements the database rejects for this request. A rejected statement changes nothing and throws at its `await`.
- `WellProperties` holds the properties of the three handlers:
  - what create adds, and what it leaves behind when a step fails;
  - that update commits everything or nothing;
  - what delete removes, and that it never removes a `p_location_1d` row.

Some behaviours of the code are easy to misread; the model keeps them:

- `fillNzeros` leaves a string one character shorter than the width unpadded, so its result can be shorter than the width (`FillLongUnchanged`, `FillNZerosVersusPadLeft`).
- `fillNzeros` does not check the width: a negative width returns the string unchanged (`FillLongUnchanged`).
- The composite id is the padded field, the padded serial, then `"0" + well_id`, whatever the length of `well_id` (`CompositeWellIdLayout`, `WellIdLayout`).
  - For a source field of at most 2 characters and a key below 10000, the id has 11 + |well_id| characters. So it has 12 exactly when `well_id` has one character.
  - Under the same conditions, characters 4-9 hold the key, padded, and read back as the key (`WellIdKeyReadback`).
  - Longer fields or keys fall into the unpadded case, and two wells can then share an id (`CompositeWellIdCollision`).
- A number is falsy when it is 0, so the required-field check rejects `wellId: 0`, although the insert would store it as "0" (`ZeroWellIdRejected`).

## Model

| member | source | states |
|---|---|---|
| Formatter.FillNZeros | back/index.js:32-38 | the result is the input preceded only by '0' characters |
| Formatter.FillNZerosLoop | back/index.js:32-38 | the loop that pushes the zeros returns exactly `FillNZeros(str, n)` |
| Formatter.FillWidthTwo | back/index.js:33 | width 2 always gives "0" + str, one character longer than str, whatever its length |
| Formatter.FillLongUnchanged | back/index.js:34 | for a width other than 2, a string of length at least width - 1 comes back unchanged, including the length width - 1 case |
| Formatter.FillShortPadded | back/index.js:35-37 | for a width other than 2, a string shorter than width - 1 gets width - length zeros in front, so the result has exactly the width |
| Formatter.FillNZerosVersusPadLeft | back/index.js:32-38 | fillNzeros equals the usual left pad if and only if (width 2 and length 1) or (width not 2 and length not width - 1) |
| Formatter.FillNZerosJs | back/index.js:32-38 | on any request value: a TypeError exactly when the width is not 2 and the value is undefined or null; on a string it is `FillNZeros` |
| Formatter.FillNumberUnpadded | back/index.js:34-37 | a number at a width other than 2 comes back as its text, unpadded |
| Formatter.CompositeWellId | back/index.js:235-237 | the composite id fails exactly when the source field or the serial is undefined or null |
| Formatter.CompositeWellIdLayout | back/index.js:235-237 | with a field of at most 2 characters and a serial of at most 4, the id has length 11 + length of well_id; characters 0-3 are the padded field, 4-9 the padded serial, and the rest "0" + well_id |
| Formatter.CompositeWellIdCollision | back/index.js:235-237 | two different (field, serial) pairs, ("12", "34567") and ("001", "234567"), give the same composite id |
| Formatter.CompositeWellIdExample | back/index.js:235-237 | field "22", serial "7" and well id "1" give the composite id "002200000701" |
| Formatter.ZerosKeepValue | back/index.js:35-37 | the zeros `fillNzeros` prepends to a string of digits do not change the number it denotes |
| Formatter.PadLeftKeepsValue | back/index.js:35-37 | left-padding a string of digits with zeros keeps it a string of digits denoting the same number |
| Formatter.SurfacePointId | back/index.js:262-265 | the point id has length of well id + 1 + length of existence code, and splits back at '_' into its two parts |
| JsValues.Nullish | back/index.js:275 | `v ?? d` is d exactly when v is undefined or null (or already d), else v |
| JsValues.Truthy | back/index.js:213-219 | `!x` is true exactly for undefined, null, false, 0 and the empty string |
| JsValues.ToStr | back/index.js:262-265 | `"" + v` is the string itself for a string; for an integer, a decimal text (with '-' when negative) that reads back as the number; never empty for a non-string |
| Tables.Column | back/index.js:224-230 | a bound parameter is SQL NULL exactly when the value is undefined or null, else its text; a string is stored as sent, and a truthy value as a non-empty text |
| Tables.PointOf | back/index.js:312-315 | rows[0] of the surface-point select: a point of the well, with no smaller key belonging to the well; none exactly when the well has no surface point |
| Tables.AddWell | back/index.js:223-231 | the well insert keeps the database well-formed |
| Tables.AddAlias | back/index.js:241-246 | the alias insert keeps the database well-formed when the key it references is below `next` |
| Tables.AddRole | back/index.js:248-256 | the role insert keeps the database well-formed when the key it references is below `next` |
| Tables.AddPoint | back/index.js:258-267 | the surface-point insert keeps the database well-formed when the key it references is below `next` |
| Tables.AddLoc1d | back/index.js:268-277 | the 1-D location insert keeps the database well-formed when the key it references is below `next` |
| Tables.AddLoc2d | back/index.js:279-290 | the 2-D location insert keeps the database well-formed when the key it references is below `next` |
| Tables.SetWell | back/index.js:359-368 | the well update keeps the database well-formed |
| Tables.SetAliasesOf | back/index.js:369-374 | the alias update keeps the database well-formed |
| Tables.SetRolesOf | back/index.js:376-379 | the role update keeps the database well-formed |
| Tables.SetLoc2dOf | back/index.js:387-398 | the 2-D location update keeps the database well-formed |
| Tables.SetLoc1dOf | back/index.js:400-409 | the 1-D location update keeps the database well-formed |
| Tables.SetPointId | back/index.js:411-414 | the point id update keeps the database well-formed |
| Tables.RemoveLoc2dOf | back/index.js:318-321 | the 2-D location delete keeps the database well-formed |
| Tables.RemovePoint | back/index.js:327-331 | the surface-point delete keeps the database well-formed |
| Tables.RemoveAliasesOf | back/index.js:334 | the alias delete keeps the database well-formed |
| Tables.RemoveRolesOf | back/index.js:335 | the role delete keeps the database well-formed |
| Tables.RemoveWell | back/index.js:336 | the well delete keeps the database well-formed |
| Tables.RemoveLoc2dTwice | back/index.js:318-326 | the second 2-D location delete of the same point removes nothing more |
| WellWorkflow.CreateSpec | back/index.js:210-307 | POST /api/wells keeps the database well-formed |
| WellWorkflow.CreateDependents | back/index.js:241-301 | the inserts after the composite id answer 200 or 500; on 200 the well key is returned and an alias key exactly when an alias was sent |
| WellWorkflow.CreatePlacement | back/index.js:248-301 | the role, point and location inserts answer 200 or 500; on 200 they return the well and alias keys they were given |
| WellWorkflow.UpdateTransaction | back/index.js:357-415 | the statements between BEGIN and COMMIT keep the database well-formed |
| WellWorkflow.UpdatePlacement | back/index.js:387-415 | on commit, the surface point updated is the one that was selected |
| WellWorkflow.UpdateSpec | back/index.js:344-424 | PUT /api/wells/:id keeps the database well-formed |
| WellWorkflow.DeleteSpec | back/index.js:309-342 | DELETE /api/wells/:id keeps the database well-formed |
| WellWorkflow.RemovePlacement | back/index.js:318-332 | the location and point deletes keep the database well-formed |
| WellWorkflow.RemoveRegistration | back/index.js:332-341 | the response is 450 if the location delete was rejected, else 200 when the alias, role and well deletes all succeed, else 500 |
| WellWorkflow.Response.Status | back/index.js:210-424 | the status sent is 200 exactly for the three successes and 500 exactly for a server error; every other answer is 450 |
| WellWorkflow.WellIdFor | back/index.js:232-240 | computing the composite id of a new well throws exactly when the source field is undefined or null |
| WellWorkflow.NewWellRow | back/index.js:223-231 | the inserted well row stores well_id as NULL exactly when it is undefined or null, and a string well_id or existence code as sent |
| WellWorkflow.UpdatedWellRow | back/index.js:359-368 | the row the update writes, with `wellSpudDate ?? null`, is the row create inserted before its composite id |
| WellWorkflow.PreferredFlag | back/index.js:275 | `altPrefFlag ?? 0` is never NULL: the text "0" or the text of the flag sent |
| WellWorkflow.AliasRow | back/index.js:241-246 | the alias row references the given well, and a truthy alias is stored as a non-empty identifier |
| WellWorkflow.RoleRow | back/index.js:248-256 | the role row references the given well, has feature type "field", and stores a string source field as sent |
| WellWorkflow.Loc1dRow | back/index.js:268-277 | the elevation row references the given point and has a non-NULL preferred flag; it holds a value when the required fields are present |
| WellWorkflow.Loc2dRow | back/index.js:279-290 | the coordinate row references the given point, holds both coordinates when the required fields are present, and has the same preferred flag as the elevation row |
| WellWorkflow.WellStore.InsertWellRow | back/index.js:223-231 | the store becomes `AddWell` of its old content, and the new key is the old counter |
| WellWorkflow.WellStore.InsertAliasRow | back/index.js:241-246 | the store becomes `AddAlias` of its old content, and the new key is the old counter |
| WellWorkflow.WellStore.InsertRoleRow | back/index.js:248-256 | the store becomes `AddRole` of its old content, and the new key is the old counter |
| WellWorkflow.WellStore.InsertPointRow | back/index.js:258-267 | the store becomes `AddPoint` of its old content, and the new key is the old counter |
| WellWorkflow.WellStore.InsertLoc1dRow | back/index.js:268-277 | the store becomes `AddLoc1d` of its old content, and the new key is the old counter |
| WellWorkflow.WellStore.InsertLoc2dRow | back/index.js:279-290 | the store becomes `AddLoc2d` of its old content, and the new key is the old counter |
| WellWorkflow.WellStore.UpdateWellRow | back/index.js:232-240 | the store becomes `SetWell` of its old content (used for the composite id and the update) |
| WellWorkflow.WellStore.UpdateAliasRows | back/index.js:369-374 | the store becomes `SetAliasesOf` of its old content |
| WellWorkflow.WellStore.UpdateRoleRows | back/index.js:376-379 | the store becomes `SetRolesOf` of its old content |
| WellWorkflow.WellStore.UpdateLoc2dRows | back/index.js:387-398 | the store becomes `SetLoc2dOf` of its old content |
| WellWorkflow.WellStore.UpdateLoc1dRows | back/index.js:400-409 | the store becomes `SetLoc1dOf` of its old content |
| WellWorkflow.WellStore.UpdatePointRow | back/index.js:411-414 | the store becomes `SetPointId` of its old content |
| WellWorkflow.WellStore.SelectPointOf | back/index.js:381-385 | returns the well's first surface point, `PointOf`, and changes nothing |
| WellWorkflow.WellStore.DeleteLoc2dRows | back/index.js:318-326 | the store becomes `RemoveLoc2dOf` of its old content |
| WellWorkflow.WellStore.DeletePointRow | back/index.js:327-331 | the store becomes `RemovePoint` of its old content |
| WellWorkflow.WellStore.DeleteAliasRows | back/index.js:334 | the store becomes `RemoveAliasesOf` of its old content |
| WellWorkflow.WellStore.DeleteRoleRows | back/index.js:335 | the store becomes `RemoveRolesOf` of its old content |
| WellWorkflow.WellStore.DeleteWellRow | back/index.js:336 | the store becomes `RemoveWell` of its old content |
| WellWorkflow.WellStore.Restore | back/index.js:417-419 | ROLLBACK: every table and the counter equal the content saved at BEGIN |
| WellWorkflow.WellStore.Create | back/index.js:210-307 | the new tables and the response are exactly `CreateSpec` of the old tables; well-formedness is kept |
| WellWorkflow.WellStore.InsertDependents | back/index.js:241-301 | the new tables and the response are exactly `CreateDependents` of the old tables |
| WellWorkflow.WellStore.InsertPlacement | back/index.js:248-301 | the new tables and the response are exactly `CreatePlacement` of the old tables |
| WellWorkflow.WellStore.Update | back/index.js:344-424 | the new tables and the response are exactly `UpdateSpec` of the old tables; well-formedness is kept |
| WellWorkflow.WellStore.Transaction | back/index.js:357-415 | the tables at COMMIT and the point key are exactly `UpdateTransaction` of the old tables, or it reports failure exactly when that is None |
| WellWorkflow.WellStore.UpdatePlacementRows | back/index.js:387-415 | reports success exactly when `UpdatePlacement` of the old tables commits, and the tables are then its result |
| WellWorkflow.WellStore.Delete | back/index.js:309-342 | the new tables and the response are exactly `DeleteSpec` of the old tables; well-formedness is kept |
| WellWorkflow.WellStore.DeletePlacementRows | back/index.js:318-332 | the store becomes `RemovePlacement` of its old content |
| WellWorkflow.WellStore.DeleteRegistrationRows | back/index.js:332-341 | the new tables and the response are exactly `RemoveRegistration` of the old tables |
| WellProperties.CreateRejectsMissingFields | back/index.js:213-219 | create answers 450 if and only if a required field is falsy, and then writes nothing; otherwise it answers 200 or 500 |
| WellProperties.UpdateRejectsMissingFields | back/index.js:347-353 | update answers 450 for a missing field if and only if a required field is falsy, and then writes nothing |
| WellProperties.RequiredFieldsStored | back/index.js:213-231 | a request that passes the required-field check stores a non-empty text as well_id, as the elevation and as both coordinates |
| WellProperties.ZeroWellIdRejected | back/index.js:213-231 | a well_id sent as the number 0 fails the required-field check, although the insert would store it as the text "0" |
| WellProperties.PreferredFlagDefault | back/index.js:275 | both location rows store "0" as the preferred flag when altPrefFlag is missing or null, else its text |
| WellProperties.CreatePlacementGrows | back/index.js:248-290 | the role, point and location inserts change and remove no existing row |
| WellProperties.CreateDependentsGrow | back/index.js:241-290 | the inserts after the composite id change and remove no existing row |
| WellProperties.CreateGrows | back/index.js:210-307 | create, whatever fails, changes and removes no existing row and never lowers the counter |
| WellProperties.CreateLeavesWellOnFailure | back/index.js:222-306 | without a transaction, a create that gets past the well insert either succeeds or answers 500 with the new well row left in place |
| WellProperties.CreateSucceedsIff | back/index.js:210-307 | create answers 200 if and only if the required fields and the source field are present, and none of the well, composite-id, role, point and location statements fails, nor the alias insert when an alias was sent |
| WellProperties.CreatePlacementRows | back/index.js:248-290 | on success: exactly one new role row, one point row and one row in each location table, both locations referencing the new point, under increasing fresh keys |
| WellProperties.CreateDependentsRows | back/index.js:241-290 | on success: the alias row is added exactly when one was returned, plus the placement rows, under increasing fresh keys |
| WellProperties.CreateRows | back/index.js:222-301 | on success: the new well row holds the composite id; the alias row exists iff alias is truthy; the role row has feature sourceField and type "field"; the point row is named composite id + "_" + existence; both location rows reference that point; no other row changes |
| WellProperties.CreateOwnsOneOfEach | back/index.js:241-290 | on success the new well has exactly one role row and one surface point, that point has exactly one 1-D and one 2-D location row, and the well has one alias row if alias was sent, else none |
| WellProperties.CreateKeysDistinct | back/index.js:223-231 | two successive successful creates give their wells different keys |
| WellProperties.WellIdLayout | back/index.js:235-237 | for a field of at most 2 characters and a key below 10000, the stored well_id is padded field (4) + padded key (6) + "0" + well_id |
| WellProperties.WellIdEndsWithOriginal | back/index.js:232-240 | whatever the field and key, the stored id ends with "0" followed by the well_id the insert stored |
| WellProperties.WellIdKeyReadback | back/index.js:232-240 | for a field of at most 2 characters and a key below 10000, characters 4-9 of the stored id are digits that read back as the well's key |
| WellProperties.WellIdExample | back/index.js:235-237 | source field "22", well id "1" and key 7 give "002200000701" |
| WellProperties.CreateIdExample | back/index.js:232-240 | the same request, created when the counter is 7, stores "002200000701" as the well's id |
| WellProperties.UpdateAtomic | back/index.js:355-420 | unless update answers 200, every table and the counter equal their state before the request |
| WellProperties.UpdateNeedsPoint | back/index.js:381-385 | a well with no surface point cannot be updated, and the database is left as it was |
| WellProperties.UpdateSucceedsIff | back/index.js:344-424 | update answers 200 if and only if the required fields are present, the well has a surface point, and no statement from BEGIN to COMMIT fails (the alias update only counts when an alias was sent) |
| WellProperties.UpdatePlacementRows | back/index.js:387-415 | the point-level updates change no key; they rewrite every location row of the point and the point's id, and nothing else |
| WellProperties.UpdateRows | back/index.js:357-416 | on success the well's first point was updated; no key appears or disappears; the well row holds the raw request fields; the point id is the raw wellId + "_" + wellExistence; the location rows of that point hold the request values |
| WellProperties.UpdateRenames | back/index.js:369-379 | on success every role row of the well is rebound to relation and sourceField, and every alias row is renamed exactly when alias is truthy; other rows are untouched |
| WellProperties.UpdateDropsCompositeId | back/index.js:359-368 | updating a created well replaces its composite id with the raw wellId of the update |
| WellProperties.RemovePlacementShrinks | back/index.js:318-332 | the location and point deletes only remove rows and never touch p_location_1d |
| WellProperties.RemoveRegistrationShrinks | back/index.js:334-336 | the alias, role and well deletes only remove rows and never touch p_location_1d |
| WellProperties.DeleteShrinks | back/index.js:309-342 | delete, whatever fails, only removes rows, keeps the counter, and never touches p_location_1d |
| WellProperties.DeleteSucceedsIff | back/index.js:309-342 | delete answers 200 if and only if the well has a surface point and the select, the first location delete and the alias, role and well deletes succeed; the two `.then` deletes may fail unseen |
| WellProperties.DeleteNeedsPoint | back/index.js:312-320 | for a well with no surface point delete answers 500 and changes nothing |
| WellProperties.DeleteRows | back/index.js:309-342 | when nothing fails: 200; the well row, its first surface point, that point's 2-D location rows and the well's alias and role rows are removed; nothing else is |
| WellProperties.DeleteOrphansLoc1d | back/index.js:318-336 | a successful delete leaves the point's 1-D location rows behind, referencing a point that no longer exists |
| WellProperties.DeleteContinuesAfterRejection | back/index.js:318-337 | when the first location delete fails, the answer is 450, the point and its locations stay, yet the alias, role and well rows are still removed |

## Left out

- Authentication (`authMiddleware`, login, logout, the check-auth route): these are thin wrappers over `jsonwebtoken` and `bcrypt`, which are not part of this model. The handlers are modelled as if the token were valid.
- The read-only GET routes, server setup, CORS, cookie and JSON parsing, `listen`, logging, and the `createUser` script. They are I/O and contain no logic to state.
- Response bodies: a response is modelled by its kind and the keys it reports, not by the JSON rows or the error object it carries.
- Request values:
  - Fractional numbers, objects and arrays in the request body are not modelled; `JsValue` has undefined, null, booleans, integers and strings.
  - String lengths are counted in characters, not UTF-16 code units.
- JsValues.ToStr: a request number is taken as an exact integer printed in plain decimal. JavaScript numbers are IEEE doubles, so an integer beyond 2^53 is rounded when the body is parsed, and one of 10^21 or more prints in exponent form ("1e+21"); neither is modelled.
- WellWorkflow.WellIdFor: `well_s` is passed to `fillNzeros` as its decimal text, so it is padded to 6. If the driver returns the serial as a JavaScript number, `fillNzeros` returns it unpadded (`FillNumberUnpadded` states that case). The model does not follow that path.
- The database:
  - All serial keys come from one counter, `next`, where PostgreSQL has one sequence per table.
  - Every column is nullable text.
  - Foreign-key and type constraints are not modelled. A statement that fails for such a reason is expressed through `faults`.
  - `rows[0]` of a select with several rows is taken to be the row with the least key (`PointOf`). PostgreSQL does not promise that order without `ORDER BY`.
- Delete ordering:
  - The two deletes in the `.then` callbacks are not awaited. They are modelled as running, in order, before the alias delete.
  - When one of them fails, the handler still answers as the model does, but Node reports the rejected promise as unhandled, which by default ends the process. The model does not capture that.
  - When the first location delete fails, its `.catch` sends 450 and the handler goes on to send 200 or 500 as well. The model reports only the first response (`DeleteRejected`); the second send, which Express rejects, is not modelled.
- Connection failures:
  - A failing `client.connect()` in update is modelled as a failing `Begin`, which answers 450. In the source the `ROLLBACK` in the `catch` block then rejects too, on a client that never connected, so no 450 is sent and the error escapes the handler. The model does not capture that.
  - A failing `client.end()` in the `finally` block is not modelled.
- Route parameter `:id`: it is modelled as a key. A non-numeric id, which PostgreSQL would reject, is not modelled.
