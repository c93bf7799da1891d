/**
 * The six PostgreSQL tables the well handlers write, as maps from a row's
 * serial key to its row, and the WHERE-clause updates and deletes the handlers
 * issue against them. Every non-key column is nullable text (`Cell`): the
 * driver sends each parameter as the text of its JavaScript value, and
 * `undefined` or `null` as NULL.
 */
module Tables {
  import opened Wrappers
  import opened JsValues

  /** A serial key (`well_s`, `well_surface_pt_s`, ...). */
  type Key = nat

  /** A nullable text column; `None` is SQL NULL. */
  type Cell = Option<string>

  /** `well`: well_id, r_existence_kd_nm, r_naming_system_kd, spud_date. */
  datatype Well = Well(wellId: Cell, existence: Cell, namingSystem: Cell, spudDate: Cell)

  /** `well_alias`: well_s, identifier, r_naming_system_kd. */
  datatype Alias = Alias(wellS: Key, identifier: Cell, namingSystem: Cell)

  /** `well_sftr_role`: well_s, r_well_sftr_rle_kd, esrf_feature_s, esrf_feature_t. */
  datatype Role = Role(wellS: Key, relation: Cell, featureS: Cell, featureT: Cell)

  /** `well_surface_pt`: well_s, well_surface_pt_id. */
  datatype SurfacePt = SurfacePt(wellS: Key, pointId: Cell)

  /** `p_location_1d`: well_surface_pt_s, data_value_1_o, data_value_1_ou, data_value_cs, preferred_flag. */
  datatype Loc1d = Loc1d(pointS: Key, value: Cell, unit: Cell, system: Cell, preferred: Cell)

  /** `p_location_2d`: well_surface_pt_s, the two values and their units, data_value_cs, preferred_flag. */
  datatype Loc2d = Loc2d(pointS: Key, x: Cell, xUnit: Cell, y: Cell, yUnit: Cell, system: Cell, preferred: Cell)

  /** The content of the database; `next` is the next serial value to hand out. */
  datatype Db = Db(
    wells: map<Key, Well>,
    aliases: map<Key, Alias>,
    roles: map<Key, Role>,
    points: map<Key, SurfacePt>,
    loc1d: map<Key, Loc1d>,
    loc2d: map<Key, Loc2d>,
    next: Key)
  {
    /** Every key and every reference handed out so far lies below `next`, so `next` is fresh. */
    ghost predicate WellFormed() {
      && (forall k :: k in wells ==> k < next)
      && (forall k :: k in aliases ==> k < next && aliases[k].wellS < next)
      && (forall k :: k in roles ==> k < next && roles[k].wellS < next)
      && (forall k :: k in points ==> k < next && points[k].wellS < next)
      && (forall k :: k in loc1d ==> k < next && loc1d[k].pointS < next)
      && (forall k :: k in loc2d ==> k < next && loc2d[k].pointS < next)
    }
  }

  /**
   * The column value a request value becomes when sent as a query parameter:
   * NULL for `undefined` and `null`, otherwise text that reads back as the
   * text of the value; a string reads back as itself.
   */
  function Column(v: JsValue): (c: Cell)
    ensures c.None? <==> v.Undefined? || v.Null?
    ensures c.Some? ==> CellValue(c) == Str(ToStr(v))
    ensures v.Str? ==> CellValue(c) == v
    ensures Truthy(v) ==> c.Some? && c.value != ""
  {
    if v.Undefined? || v.Null? then None else Some(ToStr(v))
  }

  /** A column value read back by the driver, as a JavaScript value. */
  function CellValue(c: Cell): JsValue {
    if c.None? then Null else Str(c.value)
  }

  /** `"" + c` for a column value read back from the database. */
  function CellText(c: Cell): string {
    ToStr(CellValue(c))
  }

  // The rows that belong to a well or to a surface point.

  ghost function AliasesOf(db: Db, w: Key): set<Key> {
    set k | k in db.aliases && db.aliases[k].wellS == w
  }

  ghost function RolesOf(db: Db, w: Key): set<Key> {
    set k | k in db.roles && db.roles[k].wellS == w
  }

  ghost function PointsOf(db: Db, w: Key): set<Key> {
    set k | k in db.points && db.points[k].wellS == w
  }

  ghost function Loc1dOf(db: Db, p: Key): set<Key> {
    set k | k in db.loc1d && db.loc1d[k].pointS == p
  }

  ghost function Loc2dOf(db: Db, p: Key): set<Key> {
    set k | k in db.loc2d && db.loc2d[k].pointS == p
  }

  /** The first key in [i, bound) whose surface point belongs to well `w`. */
  function FirstPointFrom(points: map<Key, SurfacePt>, w: Key, i: nat, bound: nat): (r: Option<Key>)
    decreases bound - i
    ensures r.Some? ==> i <= r.value < bound && r.value in points && points[r.value].wellS == w
    ensures r.Some? ==> forall k :: i <= k < r.value && k in points ==> points[k].wellS != w
    ensures r.None? ==> forall k :: i <= k < bound && k in points ==> points[k].wellS != w
  {
    if i >= bound then None
    else if i in points && points[i].wellS == w then Some(i)
    else FirstPointFrom(points, w, i + 1, bound)
  }

  /**
   * `SELECT well_surface_pt_s FROM well_surface_pt WHERE well_s = w` followed by
   * `rows[0]`: the surface point of `w` with the least key, or none.
   */
  function PointOf(db: Db, w: Key): (r: Option<Key>)
    ensures r.Some? ==> r.value in db.points && db.points[r.value].wellS == w
    ensures r.Some? ==> forall k :: k in db.points && k < r.value ==> db.points[k].wellS != w
    ensures db.WellFormed() ==> (r.None? <==> PointsOf(db, w) == {})
  {
    var r := FirstPointFrom(db.points, w, 0, db.next);
    assert r.Some? ==> r.value in PointsOf(db, w);
    r
  }

  // WHERE-clause updates and deletes on one table's map.

  function UpdateAliasesOf(m: map<Key, Alias>, w: Key, identifier: Cell, system: Cell): map<Key, Alias> {
    map k | k in m :: if m[k].wellS == w then m[k].(identifier := identifier, namingSystem := system) else m[k]
  }

  function UpdateRolesOf(m: map<Key, Role>, w: Key, relation: Cell, feature: Cell): map<Key, Role> {
    map k | k in m :: if m[k].wellS == w then m[k].(relation := relation, featureS := feature) else m[k]
  }

  function UpdateLoc1dOf(m: map<Key, Loc1d>, p: Key, row: Loc1d): map<Key, Loc1d> {
    map k | k in m :: if m[k].pointS == p then row else m[k]
  }

  function UpdateLoc2dOf(m: map<Key, Loc2d>, p: Key, row: Loc2d): map<Key, Loc2d> {
    map k | k in m :: if m[k].pointS == p then row else m[k]
  }

  function DeleteLoc2dOf(m: map<Key, Loc2d>, p: Key): map<Key, Loc2d> {
    map k | k in m && m[k].pointS != p :: m[k]
  }

  function DeleteAliasesOf(m: map<Key, Alias>, w: Key): map<Key, Alias> {
    map k | k in m && m[k].wellS != w :: m[k]
  }

  function DeleteRolesOf(m: map<Key, Role>, w: Key): map<Key, Role> {
    map k | k in m && m[k].wellS != w :: m[k]
  }

  // The statements the handlers issue, one function each. An INSERT takes the
  // serial key `next`; an UPDATE or DELETE touches the rows its WHERE clause
  // selects, possibly none.

  /** `INSERT INTO well`. */
  function AddWell(db: Db, row: Well): (r: Db)
    ensures db.WellFormed() ==> r.WellFormed()
  {
    db.(wells := db.wells[db.next := row], next := db.next + 1)
  }

  /** `INSERT INTO well_alias`. */
  function AddAlias(db: Db, row: Alias): (r: Db)
    ensures db.WellFormed() && row.wellS < db.next ==> r.WellFormed()
  {
    db.(aliases := db.aliases[db.next := row], next := db.next + 1)
  }

  /** `INSERT INTO well_sftr_role`. */
  function AddRole(db: Db, row: Role): (r: Db)
    ensures db.WellFormed() && row.wellS < db.next ==> r.WellFormed()
  {
    db.(roles := db.roles[db.next := row], next := db.next + 1)
  }

  /** `INSERT INTO well_surface_pt`. */
  function AddPoint(db: Db, row: SurfacePt): (r: Db)
    ensures db.WellFormed() && row.wellS < db.next ==> r.WellFormed()
  {
    db.(points := db.points[db.next := row], next := db.next + 1)
  }

  /** `INSERT INTO p_location_1d`. */
  function AddLoc1d(db: Db, row: Loc1d): (r: Db)
    ensures db.WellFormed() && row.pointS < db.next ==> r.WellFormed()
  {
    db.(loc1d := db.loc1d[db.next := row], next := db.next + 1)
  }

  /** `INSERT INTO p_location_2d`. */
  function AddLoc2d(db: Db, row: Loc2d): (r: Db)
    ensures db.WellFormed() && row.pointS < db.next ==> r.WellFormed()
  {
    db.(loc2d := db.loc2d[db.next := row], next := db.next + 1)
  }

  /** `UPDATE well SET <every column> WHERE well_s = w`. */
  function SetWell(db: Db, w: Key, row: Well): (r: Db)
    ensures db.WellFormed() ==> r.WellFormed()
  {
    if w in db.wells then db.(wells := db.wells[w := row]) else db
  }

  /** `UPDATE well_alias SET identifier, r_naming_system_kd WHERE well_s = w`. */
  function SetAliasesOf(db: Db, w: Key, identifier: Cell, system: Cell): (r: Db)
    ensures db.WellFormed() ==> r.WellFormed()
  {
    db.(aliases := UpdateAliasesOf(db.aliases, w, identifier, system))
  }

  /** `UPDATE well_sftr_role SET r_well_sftr_rle_kd, esrf_feature_s WHERE well_s = w`. */
  function SetRolesOf(db: Db, w: Key, relation: Cell, feature: Cell): (r: Db)
    ensures db.WellFormed() ==> r.WellFormed()
  {
    db.(roles := UpdateRolesOf(db.roles, w, relation, feature))
  }

  /** `UPDATE p_location_1d SET <every column but the key> WHERE well_surface_pt_s = p`. */
  function SetLoc1dOf(db: Db, p: Key, row: Loc1d): (r: Db)
    ensures db.WellFormed() && row.pointS == p ==> r.WellFormed()
  {
    db.(loc1d := UpdateLoc1dOf(db.loc1d, p, row))
  }

  /** `UPDATE p_location_2d SET <every column but the key> WHERE well_surface_pt_s = p`. */
  function SetLoc2dOf(db: Db, p: Key, row: Loc2d): (r: Db)
    ensures db.WellFormed() && row.pointS == p ==> r.WellFormed()
  {
    db.(loc2d := UpdateLoc2dOf(db.loc2d, p, row))
  }

  /** `UPDATE well_surface_pt SET well_surface_pt_id WHERE well_surface_pt_s = p`. */
  function SetPointId(db: Db, p: Key, pointId: Cell): (r: Db)
    ensures db.WellFormed() ==> r.WellFormed()
  {
    if p in db.points then db.(points := db.points[p := db.points[p].(pointId := pointId)]) else db
  }

  /** `DELETE FROM p_location_2d WHERE well_surface_pt_s = p`. */
  function RemoveLoc2dOf(db: Db, p: Key): (r: Db)
    ensures db.WellFormed() ==> r.WellFormed()
  {
    db.(loc2d := DeleteLoc2dOf(db.loc2d, p))
  }

  /** `DELETE FROM well_surface_pt WHERE well_surface_pt_s = p`. */
  function RemovePoint(db: Db, p: Key): (r: Db)
    ensures db.WellFormed() ==> r.WellFormed()
  {
    db.(points := db.points - {p})
  }

  /** `DELETE FROM well_alias WHERE well_s = w`. */
  function RemoveAliasesOf(db: Db, w: Key): (r: Db)
    ensures db.WellFormed() ==> r.WellFormed()
  {
    db.(aliases := DeleteAliasesOf(db.aliases, w))
  }

  /** `DELETE FROM well_sftr_role WHERE well_s = w`. */
  function RemoveRolesOf(db: Db, w: Key): (r: Db)
    ensures db.WellFormed() ==> r.WellFormed()
  {
    db.(roles := DeleteRolesOf(db.roles, w))
  }

  /** `DELETE FROM well WHERE well_s = w`. */
  function RemoveWell(db: Db, w: Key): (r: Db)
    ensures db.WellFormed() ==> r.WellFormed()
  {
    db.(wells := db.wells - {w})
  }

  /** Deleting by surface point twice removes nothing the first delete left. */
  lemma RemoveLoc2dTwice(db: Db, p: Key)
    ensures RemoveLoc2dOf(RemoveLoc2dOf(db, p), p) == RemoveLoc2dOf(db, p)
  {
  }
}
