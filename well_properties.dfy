/**
 * What the three `/api/wells` handlers of back/index.js do to the database,
 * stated over `CreateSpec`, `UpdateSpec` and `DeleteSpec`: which rows each
 * request adds, changes or removes, what it leaves behind when a statement
 * fails, and which response it sends.
 */
module WellProperties {
  import opened Wrappers
  import opened JsValues
  import opened Formatter
  import opened Tables
  import opened WellWorkflow

  /** Every row of `m` is still in `m'`, under the same key and unchanged. */
  ghost predicate MapGrows<V>(m: map<Key, V>, m': map<Key, V>) {
    forall k :: k in m ==> k in m' && m'[k] == m[k]
  }

  /** Every row of `db` is still in `db'`, unchanged, and no key is handed out twice. */
  ghost predicate Grows(db: Db, db': Db) {
    && db.next <= db'.next
    && MapGrows(db.wells, db'.wells) && MapGrows(db.aliases, db'.aliases) && MapGrows(db.roles, db'.roles)
    && MapGrows(db.points, db'.points) && MapGrows(db.loc1d, db'.loc1d) && MapGrows(db.loc2d, db'.loc2d)
  }

  /** Every row of `db'` was already in `db`, unchanged, and no key was handed out. */
  ghost predicate Shrinks(db: Db, db': Db) {
    && db'.next == db.next
    && MapGrows(db'.wells, db.wells) && MapGrows(db'.aliases, db.aliases) && MapGrows(db'.roles, db.roles)
    && MapGrows(db'.points, db.points) && MapGrows(db'.loc1d, db.loc1d) && MapGrows(db'.loc2d, db.loc2d)
  }

  /** `m` and `m'` hold rows under the same keys. */
  ghost predicate SameDomain<V>(m: map<Key, V>, m': map<Key, V>) {
    forall k :: k in m <==> k in m'
  }

  /** The same keys in every table and the same counter; only cell values may differ. */
  ghost predicate SameKeys(db: Db, db': Db) {
    && db'.next == db.next
    && SameDomain(db.wells, db'.wells) && SameDomain(db.aliases, db'.aliases) && SameDomain(db.roles, db'.roles)
    && SameDomain(db.points, db'.points) && SameDomain(db.loc1d, db'.loc1d) && SameDomain(db.loc2d, db'.loc2d)
  }

  // ---------------------------------------------------------------- validation

  /**
   * Create answers 450 exactly when one of the four required fields is falsy,
   * and then writes nothing; otherwise it answers 500 or 200.
   */
  lemma CreateRejectsMissingFields(db: Db, req: WellRequest, faults: set<Stmt>)
    ensures CreateSpec(db, req, faults).resp == MissingFields <==> !HasRequiredFields(req)
    ensures !HasRequiredFields(req) ==> CreateSpec(db, req, faults).db == db
    ensures HasRequiredFields(req) ==> CreateSpec(db, req, faults).resp.Created? || CreateSpec(db, req, faults).resp == ServerError
  {
  }

  /** Update answers 450 for a falsy required field before it opens the transaction. */
  lemma UpdateRejectsMissingFields(db: Db, id: Key, req: WellRequest, faults: set<Stmt>)
    ensures UpdateSpec(db, id, req, faults).resp == MissingFields <==> !HasRequiredFields(req)
    ensures !HasRequiredFields(req) ==> UpdateSpec(db, id, req, faults).db == db
  {
  }

  /**
   * A request that passes the check stores a non-empty text as well_id, as the
   * elevation and as both coordinates.
   */
  lemma RequiredFieldsStored(req: WellRequest, p: Key)
    requires HasRequiredFields(req)
    ensures NewWellRow(req).wellId.Some? && NewWellRow(req).wellId.value != ""
    ensures Loc1dRow(p, req).value.Some? && Loc1dRow(p, req).value.value != ""
    ensures Loc2dRow(p, req).x.Some? && Loc2dRow(p, req).x.value != ""
    ensures Loc2dRow(p, req).y.Some? && Loc2dRow(p, req).y.value != ""
  {
  }

  /** The converse fails: the number 0 is falsy, so the check rejects it, although the insert would store it as "0". */
  lemma ZeroWellIdRejected(req: WellRequest)
    requires req.wellId == Num(0)
    ensures !HasRequiredFields(req) && NewWellRow(req).wellId == Some("0")
  {
  }

  /** Both location rows get `altPrefFlag ?? 0`: the text "0" when the flag is missing. */
  lemma PreferredFlagDefault(req: WellRequest)
    ensures req.altPrefFlag.Undefined? || req.altPrefFlag.Null? ==> PreferredFlag(req) == Some("0")
    ensures !req.altPrefFlag.Undefined? && !req.altPrefFlag.Null? ==> PreferredFlag(req) == Some(ToStr(req.altPrefFlag))
  {
  }

  // ---------------------------------------------------------------- create

  lemma GrowsTransitive(a: Db, b: Db, c: Db)
    requires Grows(a, b) && Grows(b, c)
    ensures Grows(a, c)
  {
  }

  // An INSERT into a well-formed database takes a fresh key, so it keeps every row.

  lemma AddWellGrows(db: Db, row: Well)
    requires db.WellFormed()
    ensures Grows(db, AddWell(db, row))
  {
  }

  lemma AddAliasGrows(db: Db, row: Alias)
    requires db.WellFormed()
    ensures Grows(db, AddAlias(db, row))
  {
  }

  lemma AddRoleGrows(db: Db, row: Role)
    requires db.WellFormed()
    ensures Grows(db, AddRole(db, row))
  {
  }

  lemma AddPointGrows(db: Db, row: SurfacePt)
    requires db.WellFormed()
    ensures Grows(db, AddPoint(db, row))
  {
  }

  lemma AddLoc1dGrows(db: Db, row: Loc1d)
    requires db.WellFormed()
    ensures Grows(db, AddLoc1d(db, row))
  {
  }

  lemma AddLoc2dGrows(db: Db, row: Loc2d)
    requires db.WellFormed()
    ensures Grows(db, AddLoc2d(db, row))
  {
  }

  /** The role, surface point and location inserts only add rows, each under a fresh key. */
  lemma {:induction false} CreatePlacementGrows(db: Db, w: Key, alias: Option<Key>, pointId: string, req: WellRequest, faults: set<Stmt>)
    requires db.WellFormed() && w < db.next
    ensures Grows(db, CreatePlacement(db, w, alias, pointId, req, faults).db)
  {
    if InsertRole in faults {
      return;
    }
    var db4 := AddRole(db, RoleRow(w, req));
    AddRoleGrows(db, RoleRow(w, req));
    if InsertPoint in faults {
      return;
    }
    var pt := db4.next;
    var db5 := AddPoint(db4, SurfacePt(w, Some(pointId)));
    AddPointGrows(db4, SurfacePt(w, Some(pointId)));
    GrowsTransitive(db, db4, db5);
    if InsertLoc1d in faults {
      return;
    }
    var db6 := AddLoc1d(db5, Loc1dRow(pt, req));
    AddLoc1dGrows(db5, Loc1dRow(pt, req));
    GrowsTransitive(db, db5, db6);
    if InsertLoc2d in faults {
      return;
    }
    AddLoc2dGrows(db6, Loc2dRow(pt, req));
    GrowsTransitive(db, db6, AddLoc2d(db6, Loc2dRow(pt, req)));
  }

  /** The inserts after the composite id only add rows, each under a fresh key. */
  lemma {:induction false} CreateDependentsGrow(db: Db, w: Key, pointId: string, req: WellRequest, faults: set<Stmt>)
    requires db.WellFormed() && w < db.next
    ensures Grows(db, CreateDependents(db, w, pointId, req, faults).db)
  {
    if !Truthy(req.alias) {
      CreatePlacementGrows(db, w, None, pointId, req, faults);
    } else if InsertAlias !in faults {
      var db3 := AddAlias(db, AliasRow(w, req));
      AddAliasGrows(db, AliasRow(w, req));
      CreatePlacementGrows(db3, w, Some(db.next), pointId, req, faults);
      GrowsTransitive(db, db3, CreatePlacement(db3, w, Some(db.next), pointId, req, faults).db);
    }
  }

  /** Create only adds rows: nothing already stored is changed or removed, whatever fails. */
  lemma {:induction false} CreateGrows(db: Db, req: WellRequest, faults: set<Stmt>)
    requires db.WellFormed()
    ensures Grows(db, CreateSpec(db, req, faults).db)
  {
    if HasRequiredFields(req) && InsertWell !in faults {
      var row := NewWellRow(req);
      var db1 := AddWell(db, row);
      AddWellGrows(db, row);
      var id := WellIdFor(req, db.next);
      if id.Success? && SetCompositeId !in faults {
        var well := row.(wellId := Some(id.value));
        var pointId := SurfacePointId(CellText(well.wellId), CellText(well.existence));
        var db2 := SetWell(db1, db.next, well);
        assert Grows(db, db2);
        CreateDependentsGrow(db2, db.next, pointId, req, faults);
        GrowsTransitive(db, db2, CreateDependents(db2, db.next, pointId, req, faults).db);
      }
    }
  }

  /**
   * There is no transaction: once the well row is inserted, a later failure
   * answers 500 and leaves that row in place.
   */
  lemma {:induction false} CreateLeavesWellOnFailure(db: Db, req: WellRequest, faults: set<Stmt>)
    requires db.WellFormed()
    requires HasRequiredFields(req) && InsertWell !in faults
    ensures var o := CreateSpec(db, req, faults);
      o.resp.Created? || (o.resp == ServerError && db.next !in db.wells && db.next in o.db.wells)
  {
    var row := NewWellRow(req);
    var id := WellIdFor(req, db.next);
    if id.Success? && SetCompositeId !in faults {
      var well := row.(wellId := Some(id.value));
      var pointId := SurfacePointId(CellText(well.wellId), CellText(well.existence));
      var db2 := SetWell(AddWell(db, row), db.next, well);
      CreateDependentsGrow(db2, db.next, pointId, req, faults);
    }
  }

  /** The rows a successful run of the role, point and location inserts adds, and the keys it answers with. */
  lemma CreatePlacementRows(db: Db, w: Key, alias: Option<Key>, pointId: string, req: WellRequest, faults: set<Stmt>)
    requires CreatePlacement(db, w, alias, pointId, req, faults).resp.Created?
    ensures var o := CreatePlacement(db, w, alias, pointId, req, faults); var c := o.resp;
      && o.db.wells == db.wells && o.db.aliases == db.aliases
      && o.db.roles == db.roles[c.role := RoleRow(w, req)]
      && o.db.points == db.points[c.point := SurfacePt(w, Some(pointId))]
      && o.db.loc1d == db.loc1d[c.loc1d := Loc1dRow(c.point, req)]
      && o.db.loc2d == db.loc2d[c.loc2d := Loc2dRow(c.point, req)]
      && db.next == c.role < c.point < c.loc1d < c.loc2d < o.db.next
  {
    assert InsertRole !in faults && InsertPoint !in faults && InsertLoc1d !in faults && InsertLoc2d !in faults;
    var db4 := AddRole(db, RoleRow(w, req));
    var db5 := AddPoint(db4, SurfacePt(w, Some(pointId)));
    var db6 := AddLoc1d(db5, Loc1dRow(db4.next, req));
    assert CreatePlacement(db, w, alias, pointId, req, faults)
        == Outcome(AddLoc2d(db6, Loc2dRow(db4.next, req)), Created(w, alias, db.next, db4.next, db5.next, db6.next));
  }

  /** The rows a successful run of the inserts after the composite id adds, and the keys it answers with. */
  lemma {:induction false} CreateDependentsRows(db: Db, w: Key, pointId: string, req: WellRequest, faults: set<Stmt>)
    requires CreateDependents(db, w, pointId, req, faults).resp.Created?
    ensures var o := CreateDependents(db, w, pointId, req, faults); var c := o.resp;
      && o.db.wells == db.wells
      && o.db.aliases == (if c.alias.Some? then db.aliases[c.alias.value := AliasRow(w, req)] else db.aliases)
      && o.db.roles == db.roles[c.role := RoleRow(w, req)]
      && o.db.points == db.points[c.point := SurfacePt(w, Some(pointId))]
      && o.db.loc1d == db.loc1d[c.loc1d := Loc1dRow(c.point, req)]
      && o.db.loc2d == db.loc2d[c.loc2d := Loc2dRow(c.point, req)]
      && (c.alias.Some? ==> db.next == c.alias.value < c.role)
      && db.next <= c.role < c.point < c.loc1d < c.loc2d < o.db.next
  {
    if Truthy(req.alias) {
      CreatePlacementRows(AddAlias(db, AliasRow(w, req)), w, Some(db.next), pointId, req, faults);
    } else {
      CreatePlacementRows(db, w, None, pointId, req, faults);
    }
  }

  /** A successful create inserts the well, names it with its composite id, then runs the dependent inserts. */
  lemma {:induction false} CreateUnfolds(db: Db, req: WellRequest, faults: set<Stmt>)
    requires CreateSpec(db, req, faults).resp.Created?
    ensures HasRequiredFields(req) && WellIdFor(req, db.next).Success?
    ensures var well := NewWellRow(req).(wellId := Some(WellIdFor(req, db.next).value));
      CreateSpec(db, req, faults)
      == CreateDependents(SetWell(AddWell(db, NewWellRow(req)), db.next, well), db.next,
                          SurfacePointId(WellIdFor(req, db.next).value, CellText(Column(req.wellExistence))), req, faults)
  {
  }

  /** Inserting a well and then rewriting its row is one insert of the rewritten row. */
  lemma InsertThenName(db: Db, row: Well, well: Well)
    ensures SetWell(AddWell(db, row), db.next, well).wells == db.wells[db.next := well]
  {
  }

  /**
   * A successful create adds one well under the next key, whose well_id is the
   * composite id, and its role binding (feature type "field"), surface point
   * and two location rows that reference the point; the alias row exists
   * exactly when an alias was sent. The surface point id is the composite id,
   * '_', and the existence text.
   */
  lemma {:induction false} CreateRows(db: Db, req: WellRequest, faults: set<Stmt>)
    requires CreateSpec(db, req, faults).resp.Created?
    ensures var o := CreateSpec(db, req, faults); var c := o.resp; var id := WellIdFor(req, db.next);
      && HasRequiredFields(req) && id.Success?
      && c.well == db.next
      && o.db.wells == db.wells[c.well := NewWellRow(req).(wellId := Some(id.value))]
      && (c.alias.Some? <==> Truthy(req.alias))
      && o.db.aliases == (if c.alias.Some? then db.aliases[c.alias.value := AliasRow(c.well, req)] else db.aliases)
      && o.db.roles == db.roles[c.role := Role(c.well, Column(req.relation), Column(req.sourceField), Some("field"))]
      && o.db.points == db.points[c.point := SurfacePt(c.well, Some(SurfacePointId(id.value, CellText(Column(req.wellExistence)))))]
      && o.db.loc1d == db.loc1d[c.loc1d := Loc1dRow(c.point, req)]
      && o.db.loc2d == db.loc2d[c.loc2d := Loc2dRow(c.point, req)]
      && db.next < c.role < c.point < c.loc1d < c.loc2d < o.db.next
  {
    CreateUnfolds(db, req, faults);
    var row := NewWellRow(req);
    var id := WellIdFor(req, db.next);
    var well := row.(wellId := Some(id.value));
    var db2 := SetWell(AddWell(db, row), db.next, well);
    InsertThenName(db, row, well);
    CreateDependentsRows(db2, db.next, SurfacePointId(id.value, CellText(Column(req.wellExistence))), req, faults);
  }

  /**
   * After a successful create the new well has exactly one role binding and
   * one surface point, the point has exactly one row in each location table,
   * and the well has an alias row exactly when an alias was sent.
   */
  lemma {:induction false} CreateOwnsOneOfEach(db: Db, req: WellRequest, faults: set<Stmt>)
    requires db.WellFormed()
    requires CreateSpec(db, req, faults).resp.Created?
    ensures var o := CreateSpec(db, req, faults); var c := o.resp;
      && RolesOf(o.db, c.well) == {c.role}
      && PointsOf(o.db, c.well) == {c.point}
      && Loc1dOf(o.db, c.point) == {c.loc1d}
      && Loc2dOf(o.db, c.point) == {c.loc2d}
      && AliasesOf(o.db, c.well) == (if Truthy(req.alias) then {c.alias.value} else {})
  {
    CreateRows(db, req, faults);
    var o := CreateSpec(db, req, faults);
    var c := o.resp;
    OnlyNewRole(db.roles, o.db, c.role, c.well, RoleRow(c.well, req));
    OnlyNewPoint(db.points, o.db, c.point, c.well, o.db.points[c.point]);
    OnlyNewLoc1d(db.loc1d, o.db, c.loc1d, c.point, Loc1dRow(c.point, req));
    OnlyNewLoc2d(db.loc2d, o.db, c.loc2d, c.point, Loc2dRow(c.point, req));
    if Truthy(req.alias) {
      OnlyNewAlias(db.aliases, o.db, c.alias.value, c.well, AliasRow(c.well, req));
    }
  }

  // One table each: a row inserted for an owner that no older row references
  // is the owner's only row.

  lemma OnlyNewRole(before: map<Key, Role>, db': Db, k: Key, w: Key, row: Role)
    requires forall j :: j in before ==> before[j].wellS < w
    requires db'.roles == before[k := row] && row.wellS == w
    ensures RolesOf(db', w) == {k}
  {
  }

  lemma OnlyNewPoint(before: map<Key, SurfacePt>, db': Db, k: Key, w: Key, row: SurfacePt)
    requires forall j :: j in before ==> before[j].wellS < w
    requires db'.points == before[k := row] && row.wellS == w
    ensures PointsOf(db', w) == {k}
  {
  }

  lemma OnlyNewLoc1d(before: map<Key, Loc1d>, db': Db, k: Key, p: Key, row: Loc1d)
    requires forall j :: j in before ==> before[j].pointS < p
    requires db'.loc1d == before[k := row] && row.pointS == p
    ensures Loc1dOf(db', p) == {k}
  {
  }

  lemma OnlyNewLoc2d(before: map<Key, Loc2d>, db': Db, k: Key, p: Key, row: Loc2d)
    requires forall j :: j in before ==> before[j].pointS < p
    requires db'.loc2d == before[k := row] && row.pointS == p
    ensures Loc2dOf(db', p) == {k}
  {
  }

  lemma OnlyNewAlias(before: map<Key, Alias>, db': Db, k: Key, w: Key, row: Alias)
    requires forall j :: j in before ==> before[j].wellS < w
    requires db'.aliases == before[k := row] && row.wellS == w
    ensures AliasesOf(db', w) == {k}
  {
  }

  /**
   * Create answers 200 exactly when every field it needs is there and no
   * statement it issues fails: the alias insert counts only when an alias was
   * sent, and a missing source field makes the composite id throw.
   */
  lemma CreateSucceedsIff(db: Db, req: WellRequest, faults: set<Stmt>)
    ensures CreateSpec(db, req, faults).resp.Created? <==>
      && HasRequiredFields(req)
      && !req.sourceField.Undefined? && !req.sourceField.Null?
      && InsertWell !in faults && SetCompositeId !in faults
      && (Truthy(req.alias) ==> InsertAlias !in faults)
      && InsertRole !in faults && InsertPoint !in faults && InsertLoc1d !in faults && InsertLoc2d !in faults
  {
  }

  /** Two successful creates, one after the other, give their wells different keys. */
  lemma CreateKeysDistinct(db: Db, r1: WellRequest, f1: set<Stmt>, r2: WellRequest, f2: set<Stmt>)
    requires CreateSpec(db, r1, f1).resp.Created?
    requires CreateSpec(CreateSpec(db, r1, f1).db, r2, f2).resp.Created?
    ensures CreateSpec(db, r1, f1).resp.well < CreateSpec(CreateSpec(db, r1, f1).db, r2, f2).resp.well
  {
    CreateRows(db, r1, f1);
    CreateRows(CreateSpec(db, r1, f1).db, r2, f2);
  }

  /**
   * With a source field of at most two characters, a string well id and a key
   * below 10000, the composite id is the field padded to four, the key padded
   * to six, then '0' and the given well id.
   */
  lemma WellIdLayout(req: WellRequest, w: Key, field: string, wellId: string)
    requires req.sourceField == Str(field) && |field| <= 2
    requires req.wellId == Str(wellId) && w < 10000
    ensures WellIdFor(req, w) == Success(PadLeft(field, 4) + PadLeft(Decimal(w), 6) + "0" + wellId)
  {
    assert Pow10(4) == 10000;
    DecimalLength(w, 4);
    CompositeWellIdLayout(field, Decimal(w), wellId);
    assert WellIdFor(req, w) == CompositeWellId(Str(field), Str(Decimal(w)), Str(wellId));
    var c := CompositeWellId(Str(field), Str(Decimal(w)), Str(wellId)).value;
    assert c == c[..4] + c[4..10] + c[10..];
    assert c == PadLeft(field, 4) + PadLeft(Decimal(w), 6) + "0" + wellId;
  }

  /**
   * Whatever the field code and the key, the stored id ends with '0' and the
   * well id the insert stored (the text "null" when none was sent).
   */
  lemma WellIdEndsWithOriginal(req: WellRequest, w: Key)
    requires WellIdFor(req, w).Success?
    ensures var c := WellIdFor(req, w).value; var tail := "0" + CellText(Column(req.wellId));
      |tail| <= |c| && c[|c| - |tail|..] == tail
  {
  }

  /**
   * Round trip: under the same conditions, characters 4 to 9 of the stored id
   * are digits that read back as the well's key.
   */
  lemma WellIdKeyReadback(req: WellRequest, w: Key, field: string, wellId: string)
    requires req.sourceField == Str(field) && |field| <= 2
    requires req.wellId == Str(wellId) && w < 10000
    ensures var c := WellIdFor(req, w).value;
      |c| >= 10 && IsDigits(c[4..10]) && DecimalValue(c[4..10]) == w
  {
    WellIdLayout(req, w, field, wellId);
    var c := WellIdFor(req, w).value;
    var key := PadLeft(Decimal(w), 6);
    DecimalLength(w, 4);
    assert c[4..10] == key;
    PadLeftKeepsValue(Decimal(w), 6);
    DecimalRoundTrip(w);
  }

  /** The well id "1" from source field "22" under key 7 becomes "002200000701". */
  lemma WellIdExample(req: WellRequest)
    requires req.sourceField == Str("22") && req.wellId == Str("1")
    ensures WellIdFor(req, 7) == Success("002200000701")
  {
    assert Decimal(7) == "7";
    assert CellValue(Column(req.wellId)) == Str("1");
    CompositeWellIdExample();
  }

  /** So a create with that request, when 7 is the next key, stores well_id "002200000701". */
  lemma CreateIdExample(db: Db, req: WellRequest, faults: set<Stmt>)
    requires CreateSpec(db, req, faults).resp.Created?
    requires req.sourceField == Str("22") && req.wellId == Str("1") && db.next == 7
    ensures 7 in CreateSpec(db, req, faults).db.wells
    ensures CreateSpec(db, req, faults).db.wells[7].wellId == Some("002200000701")
  {
    CreateRows(db, req, faults);
    WellIdExample(req);
  }

  // ---------------------------------------------------------------- update

  /** The update is atomic: unless it answers 200, the database is as it was. */
  lemma UpdateAtomic(db: Db, id: Key, req: WellRequest, faults: set<Stmt>)
    ensures var o := UpdateSpec(db, id, req, faults);
      o.resp.Updated? || ((o.resp == MissingFields || o.resp == UpdateFailed) && o.db == db)
  {
  }

  /** The surface point a lookup picks depends only on the surface point table and the counter. */
  lemma PointOfIgnoresOtherTables(db: Db, db': Db, w: Key)
    requires db'.points == db.points && db'.next == db.next
    ensures PointOf(db', w) == PointOf(db, w)
  {
  }

  /** The well, alias and role updates leave the surface point lookup of the transaction unchanged. */
  lemma PointOfAfterRegistration(db: Db, id: Key, req: WellRequest)
    ensures var db1 := SetWell(db, id, UpdatedWellRow(req));
      var db2 := if Truthy(req.alias) then SetAliasesOf(db1, id, Column(req.alias), Column(req.aliasSys)) else db1;
      PointOf(SetRolesOf(db2, id, Column(req.relation), Column(req.sourceField)), id) == PointOf(db, id)
  {
    var db1 := SetWell(db, id, UpdatedWellRow(req));
    var db2 := if Truthy(req.alias) then SetAliasesOf(db1, id, Column(req.alias), Column(req.aliasSys)) else db1;
    PointOfIgnoresOtherTables(db, SetRolesOf(db2, id, Column(req.relation), Column(req.sourceField)), id);
  }

  /** A well with no surface point cannot be updated: reading `rows[0]` throws and the transaction rolls back. */
  lemma UpdateNeedsPoint(db: Db, id: Key, req: WellRequest, faults: set<Stmt>)
    requires PointOf(db, id).None?
    ensures !UpdateSpec(db, id, req, faults).resp.Updated?
    ensures UpdateSpec(db, id, req, faults).db == db
  {
    PointOfAfterRegistration(db, id, req);
  }

  /**
   * Update answers 200 exactly when the required fields are there, the well
   * has a surface point, and no statement of the transaction fails (the alias
   * update counts only when an alias was sent).
   */
  lemma UpdateSucceedsIff(db: Db, id: Key, req: WellRequest, faults: set<Stmt>)
    ensures UpdateSpec(db, id, req, faults).resp.Updated? <==>
      && HasRequiredFields(req)
      && PointOf(db, id).Some?
      && Begin !in faults && UpdateWell !in faults
      && (Truthy(req.alias) ==> UpdateAlias !in faults)
      && UpdateRole !in faults && SelectPoint !in faults && UpdateLoc2d !in faults
      && UpdateLoc1d !in faults && UpdatePointId !in faults && Commit !in faults
  {
    PointOfAfterRegistration(db, id, req);
  }

  /**
   * The statements after the surface point lookup overwrite every location row
   * of point `p` and rename `p`, and change nothing else.
   */
  lemma UpdatePlacementRows(db: Db, p: Key, pointId: string, req: WellRequest, faults: set<Stmt>)
    requires UpdatePlacement(db, p, pointId, req, faults).Some?
    ensures var db' := UpdatePlacement(db, p, pointId, req, faults).value.0;
      && SameKeys(db, db')
      && db'.wells == db.wells && db'.aliases == db.aliases && db'.roles == db.roles
      && db'.points == (if p in db.points then db.points[p := db.points[p].(pointId := Some(pointId))] else db.points)
      && (forall k :: k in db'.loc2d ==> db'.loc2d[k] == if db.loc2d[k].pointS == p then Loc2dRow(p, req) else db.loc2d[k])
      && (forall k :: k in db'.loc1d ==> db'.loc1d[k] == if db.loc1d[k].pointS == p then Loc1dRow(p, req) else db.loc1d[k])
  {
  }

  lemma SameKeysTransitive(a: Db, b: Db, c: Db)
    requires SameKeys(a, b) && SameKeys(b, c)
    ensures SameKeys(a, c)
  {
  }

  /** `UPDATE well ... WHERE well_s = w` rewrites the row of `w`, if there is one. */
  lemma SetWellRows(db: Db, w: Key, row: Well)
    ensures var r := SetWell(db, w, row);
      && r == db.(wells := r.wells)
      && SameKeys(db, r)
      && r.wells == if w in db.wells then db.wells[w := row] else db.wells
  {
  }

  /** `UPDATE well_alias ... WHERE well_s = w` renames exactly the aliases of `w`. */
  lemma SetAliasesOfRows(db: Db, w: Key, identifier: Cell, system: Cell)
    ensures var r := SetAliasesOf(db, w, identifier, system);
      && r == db.(aliases := r.aliases)
      && SameKeys(db, r)
      && forall k :: k in r.aliases ==>
           (r.aliases[k] == if db.aliases[k].wellS == w then db.aliases[k].(identifier := identifier, namingSystem := system)
                            else db.aliases[k])
  {
  }

  /** `UPDATE well_sftr_role ... WHERE well_s = w` rebinds exactly the role rows of `w`. */
  lemma SetRolesOfRows(db: Db, w: Key, relation: Cell, feature: Cell)
    ensures var r := SetRolesOf(db, w, relation, feature);
      && r == db.(roles := r.roles)
      && SameKeys(db, r)
      && forall k :: k in r.roles ==>
           (r.roles[k] == if db.roles[k].wellS == w then db.roles[k].(relation := relation, featureS := feature)
                          else db.roles[k])
  {
  }

  /** The well row, alias and role updates before the surface point lookup, in order. */
  function RegistrationUpdate(db: Db, id: Key, row: Well, renameAliases: bool,
                              identifier: Cell, system: Cell, relation: Cell, feature: Cell): Db
  {
    var db1 := SetWell(db, id, row);
    SetRolesOf(if renameAliases then SetAliasesOf(db1, id, identifier, system) else db1, id, relation, feature)
  }

  /**
   * The statements before the surface point lookup rewrite the well row and
   * touch no other table than the aliases and role bindings; no row is added
   * or removed.
   */
  lemma RegistrationUpdateKeys(db: Db, id: Key, row: Well, renameAliases: bool,
                               identifier: Cell, system: Cell, relation: Cell, feature: Cell)
    ensures var db3 := RegistrationUpdate(db, id, row, renameAliases, identifier, system, relation, feature);
      && SameKeys(db, db3)
      && db3.points == db.points && db3.loc1d == db.loc1d && db3.loc2d == db.loc2d
      && db3.wells == (if id in db.wells then db.wells[id := row] else db.wells)
  {
    var db1 := SetWell(db, id, row);
    var db2 := if renameAliases then SetAliasesOf(db1, id, identifier, system) else db1;
    SetWellRows(db, id, row);
    SetAliasesOfRows(db1, id, identifier, system);
    SetRolesOfRows(db2, id, relation, feature);
    SameKeysTransitive(db, db1, db2);
    SameKeysTransitive(db, db2, SetRolesOf(db2, id, relation, feature));
  }

  /** They rebind every role row of the well and no other. */
  lemma RegistrationUpdateRoles(db: Db, id: Key, row: Well, renameAliases: bool,
                                identifier: Cell, system: Cell, relation: Cell, feature: Cell)
    ensures var db3 := RegistrationUpdate(db, id, row, renameAliases, identifier, system, relation, feature);
      forall k :: k in db3.roles ==>
        (db3.roles[k] == if db.roles[k].wellS == id then db.roles[k].(relation := relation, featureS := feature)
                         else db.roles[k])
  {
    var db1 := SetWell(db, id, row);
    SetRolesOfRows(if renameAliases then SetAliasesOf(db1, id, identifier, system) else db1, id, relation, feature);
  }

  /** They rename every alias of the well when `renameAliases`, and no alias otherwise. */
  lemma RegistrationUpdateAliases(db: Db, id: Key, row: Well, renameAliases: bool,
                                  identifier: Cell, system: Cell, relation: Cell, feature: Cell)
    ensures var db3 := RegistrationUpdate(db, id, row, renameAliases, identifier, system, relation, feature);
      forall k :: k in db3.aliases ==>
        (db3.aliases[k] == if db.aliases[k].wellS == id && renameAliases
                           then db.aliases[k].(identifier := identifier, namingSystem := system)
                           else db.aliases[k])
  {
    var db1 := SetWell(db, id, row);
    SetAliasesOfRows(db1, id, identifier, system);
    SetRolesOfRows(if renameAliases then SetAliasesOf(db1, id, identifier, system) else db1, id, relation, feature);
  }

  /**
   * A committed update rewrites the well row with the raw request values (the
   * composite well_id is not rebuilt), overwrites every location row of the
   * well's first surface point, and renames that point to the raw well id,
   * '_', and the existence text. It adds and removes no row.
   */
  lemma {:induction false} UpdateRows(db: Db, id: Key, req: WellRequest, faults: set<Stmt>)
    requires UpdateSpec(db, id, req, faults).resp.Updated?
    ensures var o := UpdateSpec(db, id, req, faults); var p := o.resp.point;
      && HasRequiredFields(req)
      && PointOf(db, id) == Some(p) && o.resp.well == id
      && SameKeys(db, o.db)
      && o.db.wells == (if id in db.wells then db.wells[id := UpdatedWellRow(req)] else db.wells)
      && o.db.points == db.points[p := SurfacePt(id, Some(SurfacePointId(ToStr(req.wellId), ToStr(req.wellExistence))))]
      && (forall k :: k in o.db.loc2d ==> o.db.loc2d[k] == if db.loc2d[k].pointS == p then Loc2dRow(p, req) else db.loc2d[k])
      && (forall k :: k in o.db.loc1d ==> o.db.loc1d[k] == if db.loc1d[k].pointS == p then Loc1dRow(p, req) else db.loc1d[k])
  {
    var db1 := SetWell(db, id, UpdatedWellRow(req));
    var db2 := if Truthy(req.alias) then SetAliasesOf(db1, id, Column(req.alias), Column(req.aliasSys)) else db1;
    var db3 := SetRolesOf(db2, id, Column(req.relation), Column(req.sourceField));
    RegistrationUpdateKeys(db, id, UpdatedWellRow(req), Truthy(req.alias),
                           Column(req.alias), Column(req.aliasSys), Column(req.relation), Column(req.sourceField));
    PointOfIgnoresOtherTables(db, db3, id);
    var p := PointOf(db, id).value;
    var pointId := SurfacePointId(ToStr(req.wellId), ToStr(req.wellExistence));
    assert UpdateTransaction(db, id, req, faults) == UpdatePlacement(db3, p, pointId, req, faults);
    UpdatePlacementRows(db3, p, pointId, req, faults);
  }

  /**
   * A committed update renames every role binding of the well and, only when
   * an alias was sent, every alias of the well; no alias is created.
   */
  lemma {:induction false} UpdateRenames(db: Db, id: Key, req: WellRequest, faults: set<Stmt>)
    requires UpdateSpec(db, id, req, faults).resp.Updated?
    ensures var o := UpdateSpec(db, id, req, faults);
      && SameDomain(db.roles, o.db.roles) && SameDomain(db.aliases, o.db.aliases)
      && (forall k :: k in o.db.roles ==>
            (o.db.roles[k] == if db.roles[k].wellS == id
                              then db.roles[k].(relation := Column(req.relation), featureS := Column(req.sourceField))
                              else db.roles[k]))
      && (forall k :: k in o.db.aliases ==>
            (o.db.aliases[k] == if db.aliases[k].wellS == id && Truthy(req.alias)
                                then db.aliases[k].(identifier := Column(req.alias), namingSystem := Column(req.aliasSys))
                                else db.aliases[k]))
  {
    var db1 := SetWell(db, id, UpdatedWellRow(req));
    var db2 := if Truthy(req.alias) then SetAliasesOf(db1, id, Column(req.alias), Column(req.aliasSys)) else db1;
    var db3 := SetRolesOf(db2, id, Column(req.relation), Column(req.sourceField));
    RegistrationUpdateKeys(db, id, UpdatedWellRow(req), Truthy(req.alias),
                           Column(req.alias), Column(req.aliasSys), Column(req.relation), Column(req.sourceField));
    RegistrationUpdateRoles(db, id, UpdatedWellRow(req), Truthy(req.alias),
                            Column(req.alias), Column(req.aliasSys), Column(req.relation), Column(req.sourceField));
    RegistrationUpdateAliases(db, id, UpdatedWellRow(req), Truthy(req.alias),
                              Column(req.alias), Column(req.aliasSys), Column(req.relation), Column(req.sourceField));
    PointOfIgnoresOtherTables(db, db3, id);
    var p := PointOf(db, id).value;
    var pointId := SurfacePointId(ToStr(req.wellId), ToStr(req.wellExistence));
    assert UpdateTransaction(db, id, req, faults) == UpdatePlacement(db3, p, pointId, req, faults);
    UpdatePlacementRows(db3, p, pointId, req, faults);
  }

  /** Updating a well right after creating it replaces its composite well_id with the raw one sent. */
  lemma UpdateDropsCompositeId(db: Db, req: WellRequest, faults: set<Stmt>, req2: WellRequest, faults2: set<Stmt>)
    requires CreateSpec(db, req, faults).resp.Created?
    requires UpdateSpec(CreateSpec(db, req, faults).db, db.next, req2, faults2).resp.Updated?
    ensures var o := UpdateSpec(CreateSpec(db, req, faults).db, db.next, req2, faults2);
      db.next in o.db.wells && o.db.wells[db.next].wellId == Column(req2.wellId)
  {
    CreateRows(db, req, faults);
    UpdateRows(CreateSpec(db, req, faults).db, db.next, req2, faults2);
  }

  // ---------------------------------------------------------------- delete

  lemma ShrinksTransitive(a: Db, b: Db, c: Db)
    requires Shrinks(a, b) && Shrinks(b, c)
    ensures Shrinks(a, c)
  {
  }

  /** The coordinate and surface point deletes only remove rows. */
  lemma RemovePlacementShrinks(db: Db, p: Key, faults: set<Stmt>)
    ensures Shrinks(db, RemovePlacement(db, p, faults))
    ensures RemovePlacement(db, p, faults).loc1d == db.loc1d
  {
    if DeleteLoc2d !in faults {
      var db1 := RemoveLoc2dOf(db, p);
      var db2 := if DeleteLoc2dAgain in faults then db1 else RemoveLoc2dOf(db1, p);
      assert Shrinks(db, db1);
      assert Shrinks(db1, db2);
      ShrinksTransitive(db, db1, db2);
      if DeletePoint !in faults {
        assert Shrinks(db2, RemovePoint(db2, p));
        ShrinksTransitive(db, db2, RemovePoint(db2, p));
      }
    }
  }

  // A DELETE removes rows and changes none of the rows it keeps.

  lemma RemoveAliasesShrinks(db: Db, id: Key)
    ensures Shrinks(db, RemoveAliasesOf(db, id))
  {
  }

  lemma RemoveRolesShrinks(db: Db, id: Key)
    ensures Shrinks(db, RemoveRolesOf(db, id))
  {
  }

  lemma RemoveWellShrinks(db: Db, id: Key)
    ensures Shrinks(db, RemoveWell(db, id))
  {
  }

  /** The alias, role and well deletes only remove rows. */
  lemma RemoveRegistrationShrinks(db: Db, id: Key, rejected: bool, faults: set<Stmt>)
    ensures Shrinks(db, RemoveRegistration(db, id, rejected, faults).db)
    ensures RemoveRegistration(db, id, rejected, faults).db.loc1d == db.loc1d
  {
    if DeleteAlias !in faults {
      var db4 := RemoveAliasesOf(db, id);
      RemoveAliasesShrinks(db, id);
      if DeleteRole !in faults {
        var db5 := RemoveRolesOf(db4, id);
        RemoveRolesShrinks(db4, id);
        ShrinksTransitive(db, db4, db5);
        if DeleteWell !in faults {
          RemoveWellShrinks(db5, id);
          ShrinksTransitive(db, db5, RemoveWell(db5, id));
        }
      }
    }
  }

  /** Delete only removes rows, whatever fails; the elevation rows (p_location_1d) are never touched. */
  lemma DeleteShrinks(db: Db, id: Key, faults: set<Stmt>)
    ensures Shrinks(db, DeleteSpec(db, id, faults).db)
    ensures DeleteSpec(db, id, faults).db.loc1d == db.loc1d
  {
    if SelectPoint !in faults && PointOf(db, id).Some? {
      var db3 := RemovePlacement(db, PointOf(db, id).value, faults);
      RemovePlacementShrinks(db, PointOf(db, id).value, faults);
      RemoveRegistrationShrinks(db3, id, DeleteLoc2d in faults, faults);
      ShrinksTransitive(db, db3, RemoveRegistration(db3, id, DeleteLoc2d in faults, faults).db);
    }
  }

  /**
   * Delete answers 200 exactly when the well has a surface point and the
   * lookup, the first location delete, and the alias, role and well deletes
   * all succeed; the failures of the two `.then` deletes are never seen.
   */
  lemma DeleteSucceedsIff(db: Db, id: Key, faults: set<Stmt>)
    ensures DeleteSpec(db, id, faults).resp == Deleted <==>
      && SelectPoint !in faults && PointOf(db, id).Some?
      && DeleteLoc2d !in faults && DeleteAlias !in faults && DeleteRole !in faults && DeleteWell !in faults
  {
  }

  /** With no surface point for the well, reading `rows[0]` throws: 500 and nothing deleted. */
  lemma DeleteNeedsPoint(db: Db, id: Key, faults: set<Stmt>)
    requires PointOf(db, id).None?
    ensures DeleteSpec(db, id, faults) == Outcome(db, ServerError)
  {
  }

  /**
   * When no statement fails, delete answers 200 and removes the well, its
   * aliases and role bindings, its first surface point and that point's
   * coordinate rows; any other surface point of the well stays.
   */
  lemma DeleteRows(db: Db, id: Key, faults: set<Stmt>)
    requires SelectPoint !in faults && DeleteLoc2d !in faults && DeleteLoc2dAgain !in faults && DeletePoint !in faults
    requires DeleteAlias !in faults && DeleteRole !in faults && DeleteWell !in faults
    requires PointOf(db, id).Some?
    ensures var o := DeleteSpec(db, id, faults); var p := PointOf(db, id).value;
      && o.resp == Deleted
      && o.db.wells == db.wells - {id}
      && o.db.points == db.points - {p}
      && o.db.loc1d == db.loc1d
      && (forall k :: k in o.db.aliases <==> k in db.aliases && db.aliases[k].wellS != id)
      && (forall k :: k in o.db.roles <==> k in db.roles && db.roles[k].wellS != id)
      && (forall k :: k in o.db.loc2d <==> k in db.loc2d && db.loc2d[k].pointS != p)
  {
  }

  /** A successful delete leaves the elevation rows of the removed surface point referencing no point. */
  lemma DeleteOrphansLoc1d(db: Db, id: Key, faults: set<Stmt>)
    requires SelectPoint !in faults && DeleteLoc2d !in faults && DeleteLoc2dAgain !in faults && DeletePoint !in faults
    requires DeleteAlias !in faults && DeleteRole !in faults && DeleteWell !in faults
    requires PointOf(db, id).Some?
    ensures var o := DeleteSpec(db, id, faults);
      forall k :: k in Loc1dOf(db, PointOf(db, id).value) ==> k in o.db.loc1d && o.db.loc1d[k].pointS !in o.db.points
  {
    DeleteRows(db, id, faults);
  }

  /**
   * A rejected coordinate delete answers 450 but does not stop the handler:
   * the surface point and its rows stay, while the aliases, role bindings
   * and the well itself are still deleted.
   */
  lemma DeleteContinuesAfterRejection(db: Db, id: Key, faults: set<Stmt>)
    requires DeleteLoc2d in faults
    requires SelectPoint !in faults && DeleteAlias !in faults && DeleteRole !in faults && DeleteWell !in faults
    requires PointOf(db, id).Some?
    ensures var o := DeleteSpec(db, id, faults);
      && o.resp == DeleteRejected && o.resp.Status() == 450
      && o.db.wells == db.wells - {id}
      && o.db.points == db.points
      && o.db.loc2d == db.loc2d
      && (forall k :: k in o.db.aliases ==> o.db.aliases[k].wellS != id)
      && (forall k :: k in o.db.roles ==> o.db.roles[k].wellS != id)
  {
  }
}
