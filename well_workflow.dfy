/**
 * The POST, PUT and DELETE `/api/wells` handlers of back/index.js.
 *
 * Each handler is specified by a function from the database content before
 * the request to the content after it and the response sent (`CreateSpec`,
 * `UpdateSpec`, `DeleteSpec`). `WellStore` holds the six tables as fields and
 * runs each handler as the source does, one statement at a time; each of its
 * methods is proved to produce exactly what its function describes.
 *
 * The database's own failures are a parameter, `faults`: the set of statements
 * it rejects for this request. A statement in `faults` changes nothing and
 * makes the awaited query throw.
 */
module WellWorkflow {
  import opened Wrappers
  import opened JsValues
  import opened Formatter
  import opened Tables

  /** The request body fields the handlers read. */
  datatype WellRequest = WellRequest(
    wellId: JsValue,
    wellExistence: JsValue,
    wellNamingSystem: JsValue,
    wellSpudDate: JsValue,
    sourceField: JsValue,
    relation: JsValue,
    alias: JsValue,
    aliasSys: JsValue,
    altVal: JsValue,
    altValU: JsValue,
    altSys: JsValue,
    altPrefFlag: JsValue,
    cordX: JsValue,
    cordXU: JsValue,
    cordY: JsValue,
    cordYU: JsValue,
    cordSystem: JsValue)

  /** The statements a handler issues; a member of `faults` is rejected by the database. */
  datatype Stmt =
    // create
    | InsertWell | SetCompositeId | InsertAlias | InsertRole | InsertPoint | InsertLoc1d | InsertLoc2d
    // update, inside BEGIN ... COMMIT
    | Begin | UpdateWell | UpdateAlias | UpdateRole | SelectPoint | UpdateLoc2d | UpdateLoc1d | UpdatePointId | Commit
    // delete (it also issues SelectPoint)
    | DeleteLoc2d | DeleteLoc2dAgain | DeletePoint | DeleteAlias | DeleteRole | DeleteWell

  /** The first response a handler sends. */
  datatype Response =
    | MissingFields
    | ServerError
    | Created(well: Key, alias: Option<Key>, role: Key, point: Key, loc1d: Key, loc2d: Key)
    | Updated(well: Key, point: Key)
    | UpdateFailed
    | Deleted
    | DeleteRejected
  {
    /** The HTTP status: 200 for the three successes, 450 or 500 for the failures. */
    function Status(): (code: nat)
      ensures code == 200 <==> Created? || Updated? || Deleted?
      ensures code == 500 <==> this == ServerError
      ensures code == 200 || code == 450 || code == 500
    {
      match this
      case MissingFields => 450
      case ServerError => 500
      case Created(_, _, _, _, _, _) => 200
      case Updated(_, _) => 200
      case UpdateFailed => 450
      case Deleted => 200
      case DeleteRejected => 450
    }
  }

  datatype Outcome = Outcome(db: Db, resp: Response)

  /**
   * The check both create and update make before touching the database. A
   * request that passes it stores a non-empty text in each of the four columns.
   */
  predicate HasRequiredFields(req: WellRequest)
  {
    Truthy(req.wellId) && Truthy(req.altVal) && Truthy(req.cordX) && Truthy(req.cordY)
  }

  /** The row `INSERT INTO well(...)` adds: a missing field becomes NULL, a string is stored as sent. */
  function NewWellRow(req: WellRequest): (r: Well)
    ensures r.wellId.None? <==> req.wellId.Undefined? || req.wellId.Null?
    ensures req.wellId.Str? ==> r.wellId == Some(req.wellId.s)
    ensures req.wellExistence.Str? ==> r.existence == Some(req.wellExistence.s)
    ensures HasRequiredFields(req) ==> r.wellId.Some?
  {
    Well(Column(req.wellId), Column(req.wellExistence), Column(req.wellNamingSystem), Column(req.wellSpudDate))
  }

  /**
   * The row the update writes over the well: the raw well id, and
   * `wellSpudDate ?? null`, which stores the same NULL the insert stores, so
   * the row is the one create inserted before its composite id.
   */
  function UpdatedWellRow(req: WellRequest): (r: Well)
    ensures r == NewWellRow(req)
  {
    Well(Column(req.wellId), Column(req.wellExistence), Column(req.wellNamingSystem),
         Column(Nullish(req.wellSpudDate, Null)))
  }

  /** `altPrefFlag ?? 0`, the preferred flag of both location rows: never NULL. */
  function PreferredFlag(req: WellRequest): (c: Cell)
    ensures c.Some?
    ensures c == Some("0") || c == Column(req.altPrefFlag)
  {
    Column(Nullish(req.altPrefFlag, Num(0)))
  }

  /** The alias row of well `w`. */
  function AliasRow(w: Key, req: WellRequest): (r: Alias)
    ensures r.wellS == w
    ensures Truthy(req.alias) ==> r.identifier.Some? && r.identifier.value != ""
  {
    Alias(w, Column(req.alias), Column(req.aliasSys))
  }

  /** The role binding of well `w` to the field named by `sourceField`. */
  function RoleRow(w: Key, req: WellRequest): (r: Role)
    ensures r.wellS == w && r.featureT == Some("field")
    ensures req.sourceField.Str? ==> r.featureS == Some(req.sourceField.s)
  {
    Role(w, Column(req.relation), Column(req.sourceField), Some("field"))
  }

  /** The elevation row of surface point `p`. */
  function Loc1dRow(p: Key, req: WellRequest): (r: Loc1d)
    ensures r.pointS == p && r.preferred.Some?
    ensures HasRequiredFields(req) ==> r.value.Some?
  {
    Loc1d(p, Column(req.altVal), Column(req.altValU), Column(req.altSys), PreferredFlag(req))
  }

  /** The coordinate row of surface point `p`. */
  function Loc2dRow(p: Key, req: WellRequest): (r: Loc2d)
    ensures r.pointS == p && r.preferred.Some?
    ensures HasRequiredFields(req) ==> r.x.Some? && r.y.Some?
    ensures r.preferred == Loc1dRow(p, req).preferred
  {
    Loc2d(p, Column(req.cordX), Column(req.cordXU), Column(req.cordY), Column(req.cordYU),
          Column(req.cordSystem), PreferredFlag(req))
  }

  /**
   * The composite well_id the create handler gives the well with key `w`;
   * `well_s` reaches fillNzeros as its decimal text. It throws exactly when
   * the source field is missing.
   */
  function WellIdFor(req: WellRequest, w: Key): (r: Result<string, JsError>)
    ensures r.Failure? <==> req.sourceField.Undefined? || req.sourceField.Null?
  {
    CompositeWellId(req.sourceField, Str(Decimal(w)), CellValue(Column(req.wellId)))
  }

  /**
   * POST /api/wells. There is no transaction: a failure after the first
   * insert leaves every row inserted so far in place.
   */
  function CreateSpec(db: Db, req: WellRequest, faults: set<Stmt>): (r: Outcome)
    ensures db.WellFormed() ==> r.db.WellFormed()
  {
    if !HasRequiredFields(req) then Outcome(db, MissingFields)
    else if InsertWell in faults then Outcome(db, ServerError)
    else
      var w := db.next;
      var row := NewWellRow(req);
      var db1 := AddWell(db, row);
      var id := WellIdFor(req, w);
      if id.Failure? || SetCompositeId in faults then Outcome(db1, ServerError)
      else
        var well := row.(wellId := Some(id.value));
        var pointId := SurfacePointId(CellText(well.wellId), CellText(well.existence));
        CreateDependents(SetWell(db1, w, well), w, pointId, req, faults)
  }

  /**
   * The inserts of the create handler that follow the composite id: the
   * alias, only when one was sent, then `CreatePlacement`.
   */
  function CreateDependents(db: Db, w: Key, pointId: string, req: WellRequest, faults: set<Stmt>): (r: Outcome)
    ensures r.resp.Created? || r.resp == ServerError
    ensures r.resp.Created? ==> r.resp.well == w && (r.resp.alias.Some? <==> Truthy(req.alias))
    ensures db.WellFormed() && w < db.next ==> r.db.WellFormed()
  {
    if !Truthy(req.alias) then CreatePlacement(db, w, None, pointId, req, faults)
    else if InsertAlias in faults then Outcome(db, ServerError)
    else CreatePlacement(AddAlias(db, AliasRow(w, req)), w, Some(db.next), pointId, req, faults)
  }

  /**
   * The role binding of well `w`, its surface point named `pointId`, and the
   * two location rows that reference that point, inserted in that order;
   * `alias` is the key of the alias row inserted before, if any.
   */
  function CreatePlacement(db: Db, w: Key, alias: Option<Key>, pointId: string, req: WellRequest, faults: set<Stmt>): (r: Outcome)
    ensures r.resp.Created? || r.resp == ServerError
    ensures r.resp.Created? ==> r.resp.well == w && r.resp.alias == alias
    ensures db.WellFormed() && w < db.next ==> r.db.WellFormed()
  {
    if InsertRole in faults then Outcome(db, ServerError)
    else
      var role := db.next;
      var db4 := AddRole(db, RoleRow(w, req));
      if InsertPoint in faults then Outcome(db4, ServerError)
      else
        var pt := db4.next;
        var db5 := AddPoint(db4, SurfacePt(w, Some(pointId)));
        if InsertLoc1d in faults then Outcome(db5, ServerError)
        else
          var l1 := db5.next;
          var db6 := AddLoc1d(db5, Loc1dRow(pt, req));
          if InsertLoc2d in faults then Outcome(db6, ServerError)
          else
            var l2 := db6.next;
            var db7 := AddLoc2d(db6, Loc2dRow(pt, req));
            Outcome(db7, Created(w, alias, role, pt, l1, l2))
  }

  /**
   * The statements of PUT /api/wells/:id between BEGIN and COMMIT, on the
   * transaction's view of the tables: the content at COMMIT and the surface
   * point updated, or None as soon as a statement throws. The well row, its
   * aliases (only when an alias was sent) and its role bindings come first;
   * then the first surface point of the well is looked up.
   */
  function UpdateTransaction(db: Db, id: Key, req: WellRequest, faults: set<Stmt>): (r: Option<(Db, Key)>)
    ensures db.WellFormed() && r.Some? ==> r.value.0.WellFormed()
  {
    if Begin in faults || UpdateWell in faults then None
    else
      var db1 := SetWell(db, id, UpdatedWellRow(req));
      if Truthy(req.alias) && UpdateAlias in faults then None
      else
        var db2 := if Truthy(req.alias) then SetAliasesOf(db1, id, Column(req.alias), Column(req.aliasSys)) else db1;
        if UpdateRole in faults then None
        else
          var db3 := SetRolesOf(db2, id, Column(req.relation), Column(req.sourceField));
          if SelectPoint in faults then None
          else match PointOf(db3, id)
            // with no surface point, rows[0] is undefined and reading its key throws
            case None => None
            case Some(p) => UpdatePlacement(db3, p, SurfacePointId(ToStr(req.wellId), ToStr(req.wellExistence)), req, faults)
  }

  /**
   * The rest of the update transaction, on surface point `p`: its coordinate
   * rows, its elevation rows, its id (renamed to `pointId`), then COMMIT.
   */
  function UpdatePlacement(db: Db, p: Key, pointId: string, req: WellRequest, faults: set<Stmt>): (r: Option<(Db, Key)>)
    ensures r.Some? ==> r.value.1 == p
    ensures db.WellFormed() && r.Some? ==> r.value.0.WellFormed()
  {
    if UpdateLoc2d in faults then None
    else
      var db4 := SetLoc2dOf(db, p, Loc2dRow(p, req));
      if UpdateLoc1d in faults then None
      else
        var db5 := SetLoc1dOf(db4, p, Loc1dRow(p, req));
        if UpdatePointId in faults then None
        else
          var db6 := SetPointId(db5, p, Some(pointId));
          if Commit in faults then None else Some((db6, p))
  }

  /** PUT /api/wells/:id: the transaction's content if it commits, else ROLLBACK to `db`. */
  function UpdateSpec(db: Db, id: Key, req: WellRequest, faults: set<Stmt>): (r: Outcome)
    ensures db.WellFormed() ==> r.db.WellFormed()
  {
    if !HasRequiredFields(req) then Outcome(db, MissingFields)
    else match UpdateTransaction(db, id, req, faults)
      case None => Outcome(db, UpdateFailed)
      case Some((db', p)) => Outcome(db', Updated(id, p))
  }

  /**
   * DELETE /api/wells/:id, run in order: the first surface point of the well
   * and its coordinate rows (`RemovePlacement`), then the well's aliases,
   * role bindings and the well itself (`RemoveRegistration`). The first
   * location delete is awaited; its `.catch` answers 450 and swallows the
   * error, so the statements after it still run.
   */
  function DeleteSpec(db: Db, id: Key, faults: set<Stmt>): (r: Outcome)
    ensures db.WellFormed() ==> r.db.WellFormed()
  {
    if SelectPoint in faults then Outcome(db, ServerError)
    else match PointOf(db, id)
      // with no surface point, rows[0] is undefined and reading its key throws
      case None => Outcome(db, ServerError)
      case Some(p) => RemoveRegistration(RemovePlacement(db, p, faults), id, DeleteLoc2d in faults, faults)
  }

  /**
   * The coordinate rows of surface point `p`, then, in the `.then` callbacks
   * of that delete, the same rows again and the point itself. The callbacks
   * run only if the first delete succeeded, and their own failures never
   * reach the handler.
   */
  function RemovePlacement(db: Db, p: Key, faults: set<Stmt>): (r: Db)
    ensures db.WellFormed() ==> r.WellFormed()
  {
    if DeleteLoc2d in faults then db
    else
      var db1 := RemoveLoc2dOf(db, p);
      var db2 := if DeleteLoc2dAgain in faults then db1 else RemoveLoc2dOf(db1, p);
      if DeletePoint in faults then db2 else RemovePoint(db2, p)
  }

  /**
   * The aliases, role bindings and row of well `id`. The first of them to
   * fail ends the handler with 450 if the location delete was `rejected`
   * (that answer is already sent), else with 500.
   */
  function RemoveRegistration(db: Db, id: Key, rejected: bool, faults: set<Stmt>): (r: Outcome)
    ensures r.resp == if rejected then DeleteRejected
                       else if DeleteAlias !in faults && DeleteRole !in faults && DeleteWell !in faults then Deleted
                       else ServerError
    ensures db.WellFormed() ==> r.db.WellFormed()
  {
    var failed := if rejected then DeleteRejected else ServerError;
    if DeleteAlias in faults then Outcome(db, failed)
    else
      var db4 := RemoveAliasesOf(db, id);
      if DeleteRole in faults then Outcome(db4, failed)
      else
        var db5 := RemoveRolesOf(db4, id);
        if DeleteWell in faults then Outcome(db5, failed)
        else Outcome(RemoveWell(db5, id), if rejected then DeleteRejected else Deleted)
  }

  /** The database as the handlers see it: one map per table and the serial counter. */
  class WellStore {
    var wells: map<Key, Well>
    var aliases: map<Key, Alias>
    var roles: map<Key, Role>
    var points: map<Key, SurfacePt>
    var loc1d: map<Key, Loc1d>
    var loc2d: map<Key, Loc2d>
    var next: Key

    function Value(): Db
      reads this
    {
      Db(wells, aliases, roles, points, loc1d, loc2d, next)
    }

    ghost predicate Valid()
      reads this
    {
      Value().WellFormed()
    }

    constructor ()
      ensures Valid()
      ensures Value() == Db(map[], map[], map[], map[], map[], map[], 0)
    {
      wells, aliases, roles, points, loc1d, loc2d := map[], map[], map[], map[], map[], map[];
      next := 0;
    }

    // One method per SQL statement the handlers issue.

    /** `INSERT INTO well ... RETURNING *`. */
    method InsertWellRow(row: Well) returns (k: Key)
      modifies this
      ensures k == old(next) && Value() == AddWell(old(Value()), row)
    {
      k := next;
      wells, next := wells[k := row], next + 1;
    }

    /** `INSERT INTO well_alias ... RETURNING *`. */
    method InsertAliasRow(row: Alias) returns (k: Key)
      modifies this
      ensures k == old(next) && Value() == AddAlias(old(Value()), row)
    {
      k := next;
      aliases, next := aliases[k := row], next + 1;
    }

    /** `INSERT INTO well_sftr_role ... RETURNING *`. */
    method InsertRoleRow(row: Role) returns (k: Key)
      modifies this
      ensures k == old(next) && Value() == AddRole(old(Value()), row)
    {
      k := next;
      roles, next := roles[k := row], next + 1;
    }

    /** `INSERT INTO well_surface_pt ... RETURNING *`. */
    method InsertPointRow(row: SurfacePt) returns (k: Key)
      modifies this
      ensures k == old(next) && Value() == AddPoint(old(Value()), row)
    {
      k := next;
      points, next := points[k := row], next + 1;
    }

    /** `INSERT INTO p_location_1d ... RETURNING *`. */
    method InsertLoc1dRow(row: Loc1d) returns (k: Key)
      modifies this
      ensures k == old(next) && Value() == AddLoc1d(old(Value()), row)
    {
      k := next;
      loc1d, next := loc1d[k := row], next + 1;
    }

    /** `INSERT INTO p_location_2d ... RETURNING *`. */
    method InsertLoc2dRow(row: Loc2d) returns (k: Key)
      modifies this
      ensures k == old(next) && Value() == AddLoc2d(old(Value()), row)
    {
      k := next;
      loc2d, next := loc2d[k := row], next + 1;
    }

    /** `UPDATE well SET ... WHERE well_s = w`. */
    method UpdateWellRow(w: Key, row: Well)
      modifies this
      ensures Value() == SetWell(old(Value()), w, row)
    {
      if w in wells {
        wells := wells[w := row];
      }
    }

    /** `UPDATE well_alias SET identifier, r_naming_system_kd WHERE well_s = w`. */
    method UpdateAliasRows(w: Key, identifier: Cell, system: Cell)
      modifies this
      ensures Value() == SetAliasesOf(old(Value()), w, identifier, system)
    {
      aliases := UpdateAliasesOf(aliases, w, identifier, system);
    }

    /** `UPDATE well_sftr_role SET r_well_sftr_rle_kd, esrf_feature_s WHERE well_s = w`. */
    method UpdateRoleRows(w: Key, relation: Cell, feature: Cell)
      modifies this
      ensures Value() == SetRolesOf(old(Value()), w, relation, feature)
    {
      roles := UpdateRolesOf(roles, w, relation, feature);
    }

    /** `UPDATE p_location_1d SET ... WHERE well_surface_pt_s = p`. */
    method UpdateLoc1dRows(p: Key, row: Loc1d)
      modifies this
      ensures Value() == SetLoc1dOf(old(Value()), p, row)
    {
      loc1d := UpdateLoc1dOf(loc1d, p, row);
    }

    /** `UPDATE p_location_2d SET ... WHERE well_surface_pt_s = p`. */
    method UpdateLoc2dRows(p: Key, row: Loc2d)
      modifies this
      ensures Value() == SetLoc2dOf(old(Value()), p, row)
    {
      loc2d := UpdateLoc2dOf(loc2d, p, row);
    }

    /** `UPDATE well_surface_pt SET well_surface_pt_id WHERE well_surface_pt_s = p`. */
    method UpdatePointRow(p: Key, pointId: Cell)
      modifies this
      ensures Value() == SetPointId(old(Value()), p, pointId)
    {
      if p in points {
        points := points[p := points[p].(pointId := pointId)];
      }
    }

    /** `SELECT well_surface_pt_s FROM well_surface_pt WHERE well_s = w`, then `rows[0]`. */
    method SelectPointOf(w: Key) returns (p: Option<Key>)
      ensures p == PointOf(Value(), w)
    {
      p := PointOf(Value(), w);
    }

    /** `DELETE FROM p_location_2d WHERE well_surface_pt_s = p`. */
    method DeleteLoc2dRows(p: Key)
      modifies this
      ensures Value() == RemoveLoc2dOf(old(Value()), p)
    {
      loc2d := DeleteLoc2dOf(loc2d, p);
    }

    /** `DELETE FROM well_surface_pt WHERE well_surface_pt_s = p`. */
    method DeletePointRow(p: Key)
      modifies this
      ensures Value() == RemovePoint(old(Value()), p)
    {
      points := points - {p};
    }

    /** `DELETE FROM well_alias WHERE well_s = w`. */
    method DeleteAliasRows(w: Key)
      modifies this
      ensures Value() == RemoveAliasesOf(old(Value()), w)
    {
      aliases := DeleteAliasesOf(aliases, w);
    }

    /** `DELETE FROM well_sftr_role WHERE well_s = w`. */
    method DeleteRoleRows(w: Key)
      modifies this
      ensures Value() == RemoveRolesOf(old(Value()), w)
    {
      roles := DeleteRolesOf(roles, w);
    }

    /** `DELETE FROM well WHERE well_s = w`. */
    method DeleteWellRow(w: Key)
      modifies this
      ensures Value() == RemoveWell(old(Value()), w)
    {
      wells := wells - {w};
    }

    /** ROLLBACK: every table back to the content saved at BEGIN. */
    method Restore(saved: Db)
      modifies this
      ensures Value() == saved
    {
      wells, aliases, roles, points, loc1d, loc2d := saved.wells, saved.aliases, saved.roles, saved.points, saved.loc1d, saved.loc2d;
      next := saved.next;
    }

    // The three handlers.

    /** POST /api/wells. */
    method Create(req: WellRequest, faults: set<Stmt>) returns (resp: Response)
      requires Valid()
      modifies this
      ensures Valid()
      ensures Outcome(Value(), resp) == CreateSpec(old(Value()), req, faults)
    {
      if !HasRequiredFields(req) {
        return MissingFields;
      }
      if InsertWell in faults {
        return ServerError;
      }
      var row := NewWellRow(req);
      var w := InsertWellRow(row);
      var id := WellIdFor(req, w);
      if id.Failure? || SetCompositeId in faults {
        return ServerError;
      }
      var well := row.(wellId := Some(id.value));
      UpdateWellRow(w, well);
      var pointId := SurfacePointId(CellText(well.wellId), CellText(well.existence));
      resp := InsertDependents(w, pointId, req, faults);
    }

    /** The inserts that follow the composite id, as `CreateDependents` describes them. */
    method InsertDependents(w: Key, pointId: string, req: WellRequest, faults: set<Stmt>) returns (resp: Response)
      modifies this
      ensures Outcome(Value(), resp) == CreateDependents(old(Value()), w, pointId, req, faults)
    {
      var alias := None;
      if Truthy(req.alias) {
        if InsertAlias in faults {
          return ServerError;
        }
        var a := InsertAliasRow(AliasRow(w, req));
        alias := Some(a);
      }
      resp := InsertPlacement(w, alias, pointId, req, faults);
    }

    /** The role, surface point and location inserts, as `CreatePlacement` describes them. */
    method InsertPlacement(w: Key, alias: Option<Key>, pointId: string, req: WellRequest, faults: set<Stmt>) returns (resp: Response)
      modifies this
      ensures Outcome(Value(), resp) == CreatePlacement(old(Value()), w, alias, pointId, req, faults)
    {
      if InsertRole in faults {
        return ServerError;
      }
      var role := InsertRoleRow(RoleRow(w, req));
      if InsertPoint in faults {
        return ServerError;
      }
      var pt := InsertPointRow(SurfacePt(w, Some(pointId)));
      if InsertLoc1d in faults {
        return ServerError;
      }
      var l1 := InsertLoc1dRow(Loc1dRow(pt, req));
      if InsertLoc2d in faults {
        return ServerError;
      }
      var l2 := InsertLoc2dRow(Loc2dRow(pt, req));
      resp := Created(w, alias, role, pt, l1, l2);
    }

    /** PUT /api/wells/:id: BEGIN, the statements, then COMMIT, or ROLLBACK on the first exception. */
    method Update(id: Key, req: WellRequest, faults: set<Stmt>) returns (resp: Response)
      requires Valid()
      modifies this
      ensures Valid()
      ensures Outcome(Value(), resp) == UpdateSpec(old(Value()), id, req, faults)
    {
      if !HasRequiredFields(req) {
        return MissingFields;
      }
      var saved := Value();
      var pt := Transaction(id, req, faults);
      if pt.None? {
        Restore(saved);
        return UpdateFailed;
      }
      resp := Updated(id, pt.value);
    }

    /** The statements between BEGIN and COMMIT; None as soon as one throws. */
    method Transaction(id: Key, req: WellRequest, faults: set<Stmt>) returns (pt: Option<Key>)
      modifies this
      ensures UpdateTransaction(old(Value()), id, req, faults)
           == if pt.None? then None else Some((Value(), pt.value))
    {
      if Begin in faults || UpdateWell in faults {
        return None;
      }
      UpdateWellRow(id, UpdatedWellRow(req));
      if Truthy(req.alias) {
        if UpdateAlias in faults {
          return None;
        }
        UpdateAliasRows(id, Column(req.alias), Column(req.aliasSys));
      }
      if UpdateRole in faults {
        return None;
      }
      UpdateRoleRows(id, Column(req.relation), Column(req.sourceField));
      if SelectPoint in faults {
        return None;
      }
      var first := SelectPointOf(id);
      if first.None? {
        return None;
      }
      var ok := UpdatePlacementRows(first.value, SurfacePointId(ToStr(req.wellId), ToStr(req.wellExistence)), req, faults);
      pt := if ok then first else None;
    }

    /** The statements of the transaction that follow the surface point lookup. */
    method UpdatePlacementRows(p: Key, pointId: string, req: WellRequest, faults: set<Stmt>) returns (ok: bool)
      modifies this
      ensures UpdatePlacement(old(Value()), p, pointId, req, faults) == if ok then Some((Value(), p)) else None
    {
      if UpdateLoc2d in faults {
        return false;
      }
      UpdateLoc2dRows(p, Loc2dRow(p, req));
      if UpdateLoc1d in faults {
        return false;
      }
      UpdateLoc1dRows(p, Loc1dRow(p, req));
      if UpdatePointId in faults {
        return false;
      }
      UpdatePointRow(p, Some(pointId));
      ok := Commit !in faults;
    }

    /** DELETE /api/wells/:id. */
    method Delete(id: Key, faults: set<Stmt>) returns (resp: Response)
      requires Valid()
      modifies this
      ensures Valid()
      ensures Outcome(Value(), resp) == DeleteSpec(old(Value()), id, faults)
    {
      if SelectPoint in faults {
        return ServerError;
      }
      var first := SelectPointOf(id);
      if first.None? {
        return ServerError;
      }
      DeletePlacementRows(first.value, faults);
      resp := DeleteRegistrationRows(id, DeleteLoc2d in faults, faults);
    }

    /** The location and surface point deletes, as `RemovePlacement` describes them. */
    method DeletePlacementRows(p: Key, faults: set<Stmt>)
      modifies this
      ensures Value() == RemovePlacement(old(Value()), p, faults)
    {
      if DeleteLoc2d in faults {
        return;
      }
      DeleteLoc2dRows(p);
      // the two `.then` deletes, whose failures are never observed
      if DeleteLoc2dAgain !in faults {
        DeleteLoc2dRows(p);
      }
      if DeletePoint !in faults {
        DeletePointRow(p);
      }
    }

    /** The alias, role and well deletes, as `RemoveRegistration` describes them. */
    method DeleteRegistrationRows(id: Key, rejected: bool, faults: set<Stmt>) returns (resp: Response)
      modifies this
      ensures Outcome(Value(), resp) == RemoveRegistration(old(Value()), id, rejected, faults)
    {
      var failed := if rejected then DeleteRejected else ServerError;
      if DeleteAlias in faults {
        return failed;
      }
      DeleteAliasRows(id);
      if DeleteRole in faults {
        return failed;
      }
      DeleteRoleRows(id);
      if DeleteWell in faults {
        return failed;
      }
      DeleteWellRow(id);
      resp := if rejected then DeleteRejected else Deleted;
    }
  }
}
