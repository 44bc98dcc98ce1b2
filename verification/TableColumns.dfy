/** One table as the catalog and DuckDB see it, and the statements ALTER TABLE issues on it. */
module TableColumns {
  import opened Text
  import opened Oids

  /// Rows and columns

  /** A row of rs_column. */
  datatype ColumnRow = ColumnRow(
    name: string, typeId: int, attnum: int, typmod: int, notNull: bool, hasDef: bool, dropped: bool)

  /** A row of duckdb_columns(). */
  datatype DuckColumn = DuckColumn(name: string, duckType: string, notNull: bool, default: Option<string>)

  /** A relation's catalog rows and its DuckDB object: `rows` is rs_column ordered by attnum,
      `defaults` is rs_column_default by attnum, `phys` the DuckDB columns by position. */
  datatype Table = Table(natts: int, rows: seq<ColumnRow>, defaults: map<int, string>, phys: seq<DuckColumn>)

  /** How type texts are read: the built-in id if there is one, the DECIMAL modifier, and whether
      the text is a complex type the catalog may register. `reported` is the type DuckDB shows for a column
      created with the text the catalog prints for a type id and modifier, and `unified` the type of a column
      of a UNION ALL over columns of different types, if DuckDB has one. */
  datatype Typing = Typing(
    scalarId: string -> Option<int>, modifier: string -> int, supported: string -> bool,
    reported: (Registry, int, int) -> Option<string>, unified: seq<string> -> Option<string>)

  /** The complex types of rs_type by physical text, and the OID allocator. */
  datatype Registry = Registry(types: map<string, int>, nextOid: int)

  function TypeIdIn(ty: Typing, types: map<string, int>, duckType: string): Option<int> {
    if ty.scalarId(duckType).Some? then ty.scalarId(duckType)
    else if duckType in types then Some(types[duckType])
    else None
  }

  /** `ensure_type_id_for_duckdb_type` */
  function EnsureType(ty: Typing, reg: Registry, duckType: string): Option<Registry> {
    if ty.scalarId(duckType).Some? then Some(reg)
    else if !ty.supported(duckType) then None
    else if duckType in reg.types then Some(reg)
    else Some(Registry(reg.types[duckType := reg.nextOid], reg.nextOid + 1))
  }

  /** The registrations `load_duckdb_columns` makes on its way through a table's columns. */
  function EnsureAll(ty: Typing, reg: Registry, cols: seq<DuckColumn>): Option<Registry>
    decreases |cols|
  {
    if cols == [] then Some(reg)
    else match EnsureType(ty, reg, cols[0].duckType)
      case None => None
      case Some(next) => EnsureAll(ty, next, cols[1..])
  }

  /** The type can be filed: built in, or complex and supported. */
  predicate Loads(ty: Typing, duckType: string) { ty.scalarId(duckType).Some? || ty.supported(duckType) }

  predicate AllLoad(ty: Typing, cols: seq<DuckColumn>) { forall k :: 0 <= k < |cols| ==> Loads(ty, cols[k].duckType) }

  lemma {:induction false} EnsureAllIffLoads(ty: Typing, reg: Registry, cols: seq<DuckColumn>)
    ensures EnsureAll(ty, reg, cols).Some? <==> AllLoad(ty, cols)
    decreases |cols|
  {
    if cols != [] {
      assert cols == [cols[0]] + cols[1..];
      if EnsureType(ty, reg, cols[0].duckType).Some? {
        EnsureAllIffLoads(ty, EnsureType(ty, reg, cols[0].duckType).value, cols[1..]);
      }
    }
  }

  /// The columns of a UNION ALL

  function Unified(ty: Typing, types: seq<string>): Option<string> {
    if types != [] && forall i :: 0 <= i < |types| ==> types[i] == types[0] then Some(types[0]) else ty.unified(types)
  }

  predicate SameCount(lists: seq<seq<DuckColumn>>, n: nat) { forall i :: 0 <= i < |lists| ==> |lists[i]| == n }

  function TypesAt(lists: seq<seq<DuckColumn>>, k: nat): (r: seq<string>)
    requires forall i :: 0 <= i < |lists| ==> k < |lists[i]|
    ensures |r| == |lists| && forall i :: 0 <= i < |lists| ==> r[i] == lists[i][k].duckType
  {
    seq(|lists|, i requires 0 <= i < |lists| => lists[i][k].duckType)
  }

  /** A view shows the columns under their names, without constraints; the types are for the reader to say. */
  predicate ShowsColumns(view: seq<DuckColumn>, cols: seq<DuckColumn>) {
    |view| == |cols| && forall k :: 0 <= k < |cols| ==> view[k] == cols[k].(duckType := view[k].duckType, notNull := false, default := None)
  }

  function UnionFrom(ty: Typing, lists: seq<seq<DuckColumn>>, k: nat): (r: Option<seq<DuckColumn>>)
    requires lists != [] && SameCount(lists, |lists[0]|) && k <= |lists[0]|
    ensures r.Some? ==> ShowsColumns(r.value, lists[0][k..])
    decreases |lists[0]| - k
  {
    if k == |lists[0]| then Some([])
    else
      var head, rest := Unified(ty, TypesAt(lists, k)), UnionFrom(ty, lists, k + 1);
      if head.None? || rest.None? then None else Some([DuckColumn(lists[0][k].name, head.value, false, None)] + rest.value)
  }

  /** The columns of `SELECT * FROM ... UNION ALL SELECT * FROM ...`: matched by position and named by the first
      table; `None` when DuckDB cannot match them. */
  function UnionColumns(ty: Typing, lists: seq<seq<DuckColumn>>): (r: Option<seq<DuckColumn>>)
    ensures r.Some? ==> lists != [] && ShowsColumns(r.value, lists[0])
  {
    if lists == [] || !SameCount(lists, |lists[0]|) then None else UnionFrom(ty, lists, 0)
  }

  /** Each column has the type its parts unite to. */
  lemma {:induction false} UnionTypesAre(ty: Typing, lists: seq<seq<DuckColumn>>, k: nat, j: nat, cols: seq<DuckColumn>)
    requires lists != [] && SameCount(lists, |lists[0]|) && k <= j < |lists[0]| && UnionFrom(ty, lists, k) == Some(cols)
    ensures j - k < |cols| && Unified(ty, TypesAt(lists, j)) == Some(cols[j - k].duckType)
    decreases j - k
  {
    UnionStep(ty, lists, k, cols);
    if k < j {
      UnionTypesAre(ty, lists, k + 1, j, cols[1..]);
    }
  }

  lemma UnionStep(ty: Typing, lists: seq<seq<DuckColumn>>, k: nat, cols: seq<DuckColumn>)
    requires lists != [] && SameCount(lists, |lists[0]|) && k < |lists[0]| && UnionFrom(ty, lists, k) == Some(cols)
    ensures cols != [] && UnionFrom(ty, lists, k + 1) == Some(cols[1..]) && Unified(ty, TypesAt(lists, k)) == Some(cols[0].duckType)
  {}

  lemma {:induction false} UnionSucceedsIff(ty: Typing, lists: seq<seq<DuckColumn>>, k: nat)
    requires lists != [] && SameCount(lists, |lists[0]|) && k <= |lists[0]|
    ensures UnionFrom(ty, lists, k).Some? <==> forall j :: k <= j < |lists[0]| ==> Unified(ty, TypesAt(lists, j)).Some?
    decreases |lists[0]| - k
  {
    if k < |lists[0]| {
      UnionSucceedsIff(ty, lists, k + 1);
    }
  }

  /** A union is refused only over different numbers of columns or different types in one place. */
  lemma {:induction false} SameTypesUnite(ty: Typing, lists: seq<seq<DuckColumn>>, k: nat)
    requires lists != [] && SameCount(lists, |lists[0]|) && k <= |lists[0]|
    requires forall i, j :: 0 <= i < |lists| && 0 <= j < |lists[0]| ==> lists[i][j].duckType == lists[0][j].duckType
    ensures UnionFrom(ty, lists, k).Some?
    decreases |lists[0]| - k
  {
    if k < |lists[0]| {
      SameTypesUnite(ty, lists, k + 1);
    }
  }

  /// The common view of a column

  /** What catalog and DuckDB agree on: the name up to case, the type, the modifier and the presence of a
      default. NOT NULL is a matter of its own. */
  datatype View = View(name: string, typeId: Option<int>, typmod: int, hasDef: bool)

  function RowView(r: ColumnRow): View { View(Lower(r.name), Some(r.typeId), r.typmod, r.hasDef) }

  function DuckView(ty: Typing, types: map<string, int>, c: DuckColumn): View {
    View(Lower(c.name), TypeIdIn(ty, types, c.duckType), ty.modifier(c.duckType), c.default.Some?)
  }

  /** The active catalog columns in attnum order. */
  function Views(rows: seq<ColumnRow>): seq<View> {
    if rows == [] then []
    else (if rows[0].dropped then [] else [RowView(rows[0])]) + Views(rows[1..])
  }

  function ActiveRows(rows: seq<ColumnRow>): (r: seq<ColumnRow>)
    ensures |r| == |Views(rows)|
  {
    if rows == [] then [] else (if rows[0].dropped then [] else [rows[0]]) + ActiveRows(rows[1..])
  }

  function ActiveAttnums(rows: seq<ColumnRow>): (r: seq<int>)
    ensures |r| == |Views(rows)|
  {
    if rows == [] then []
    else (if rows[0].dropped then [] else [rows[0].attnum]) + ActiveAttnums(rows[1..])
  }

  function DuckViews(ty: Typing, types: map<string, int>, cols: seq<DuckColumn>): (r: seq<View>)
    ensures |r| == |cols|
    ensures forall i :: 0 <= i < |cols| ==> r[i] == DuckView(ty, types, cols[i])
  {
    seq(|cols|, i requires 0 <= i < |cols| => DuckView(ty, types, cols[i]))
  }

  function IndexOfName(vs: seq<View>, lower: string): (r: Option<nat>)
    ensures r.Some? ==> r.value < |vs| && vs[r.value].name == lower
    ensures r.Some? ==> forall i :: 0 <= i < r.value ==> vs[i].name != lower
    ensures r.None? ==> forall i :: 0 <= i < |vs| ==> vs[i].name != lower
  {
    if vs == [] then None
    else if vs[0].name == lower then Some(0)
    else var r := IndexOfName(vs[1..], lower); if r.None? then None else Some(r.value + 1)
  }

  ghost predicate UniqueNames(vs: seq<View>) {
    forall i, j :: 0 <= i < j < |vs| ==> vs[i].name != vs[j].name
  }

  ghost predicate Ascending(rows: seq<ColumnRow>) {
    && (forall i, j :: 0 <= i < j < |rows| ==> rows[i].attnum < rows[j].attnum)
    && (forall i :: 0 <= i < |rows| ==> 1 <= rows[i].attnum)
  }

  function MaxAttnum(rows: seq<ColumnRow>): (m: int)
    ensures forall i :: 0 <= i < |rows| ==> rows[i].attnum <= m
    ensures m == 0 || exists i :: 0 <= i < |rows| && rows[i].attnum == m
    ensures m >= 0
  {
    if rows == [] then 0
    else var m := MaxAttnum(rows[..|rows| - 1]);
         if rows[|rows| - 1].attnum > m then rows[|rows| - 1].attnum else m
  }

  ghost predicate AllTyped(ty: Typing, types: map<string, int>, cols: seq<DuckColumn>) {
    forall i :: 0 <= i < |cols| ==> TypeIdIn(ty, types, cols[i].duckType).Some?
  }

  /** Defaults are stored for exactly the columns that have one. */
  ghost predicate DefaultsOk(attnums: seq<int>, vs: seq<View>, defaults: map<int, string>)
    requires |attnums| == |vs|
  {
    && (forall k :: 0 <= k < |vs| ==> (vs[k].hasDef <==> attnums[k] in defaults))
    && (forall a <- defaults :: a in attnums)
  }

  /** The refinement every ALTER TABLE statement keeps: active catalog columns in attnum order are
      the DuckDB columns in position order, attnums ascend and names are unique up to case. */
  ghost predicate Aligned(ty: Typing, types: map<string, int>, t: Table) {
    && Ascending(t.rows)
    && Views(t.rows) == DuckViews(ty, types, t.phys)
    && AllTyped(ty, types, t.phys)
    && UniqueNames(Views(t.rows))
    && DefaultsOk(ActiveAttnums(t.rows), Views(t.rows), t.defaults)
  }

  /** Between statements the stored column count is right too. */
  ghost predicate TableOk(ty: Typing, types: map<string, int>, t: Table) {
    Aligned(ty, types, t) && t.natts == |t.phys|
  }

  /// DuckDB's own ALTER TABLE

  function PhysIndex(cols: seq<DuckColumn>, name: string): (r: Option<nat>)
    ensures r.Some? ==> r.value < |cols| && EqIgnoreCase(cols[r.value].name, name)
    ensures r.Some? ==> forall i :: 0 <= i < r.value ==> !EqIgnoreCase(cols[i].name, name)
    ensures r.None? ==> forall i :: 0 <= i < |cols| ==> !EqIgnoreCase(cols[i].name, name)
  {
    if cols == [] then None
    else if EqIgnoreCase(cols[0].name, name) then Some(0)
    else var r := PhysIndex(cols[1..], name); if r.None? then None else Some(r.value + 1)
  }

  function DuckAdd(cols: seq<DuckColumn>, col: DuckColumn): Option<seq<DuckColumn>> {
    if PhysIndex(cols, col.name).Some? then None else Some(cols + [col])
  }

  /** DuckDB refuses to drop a table's last column. */
  function DuckDrop(cols: seq<DuckColumn>, name: string): Option<seq<DuckColumn>> {
    var i := PhysIndex(cols, name);
    if i.None? || |cols| == 1 then None else Some(Remove(cols, i.value))
  }

  function DuckRename(cols: seq<DuckColumn>, old_: string, new_: string): Option<seq<DuckColumn>> {
    var i := PhysIndex(cols, old_);
    if i.None? || PhysIndex(cols, new_).Some? then None
    else Some(cols[i.value := cols[i.value].(name := new_)])
  }

  function DuckSetType(cols: seq<DuckColumn>, name: string, duckType: string): Option<seq<DuckColumn>> {
    var i := PhysIndex(cols, name);
    if i.None? then None else Some(cols[i.value := cols[i.value].(duckType := duckType)])
  }

  /// Catalog statements on one table

  /** `column_attnum`: the attnum of the active column with this name. */
  function ColumnAttnum(rows: seq<ColumnRow>, name: string): Option<int> {
    var k := IndexOfName(Views(rows), Lower(name));
    if k.None? then None else Some(ActiveAttnums(rows)[k.value])
  }

  /** The row `insert_attribute_row` writes for a column DuckDB reports. */
  function RowFor(ty: Typing, types: map<string, int>, col: DuckColumn, attnum: int): ColumnRow
    requires TypeIdIn(ty, types, col.duckType).Some?
  {
    ColumnRow(col.name, TypeIdIn(ty, types, col.duckType).value, attnum, ty.modifier(col.duckType),
              col.notNull, col.default.Some?, false)
  }

  /** INSERT into rs_column, whose key is (attrelid, attnum); the rows are kept in attnum order. */
  function InsertRow(rows: seq<ColumnRow>, row: ColumnRow): Option<seq<ColumnRow>> {
    if rows == [] then Some([row])
    else if row.attnum == rows[|rows| - 1].attnum then None
    else if row.attnum > rows[|rows| - 1].attnum then Some(rows + [row])
    else match InsertRow(rows[..|rows| - 1], row)
      case None => None
      case Some(front) => Some(front + [rows[|rows| - 1]])
  }

  /** UPDATE rs_column ... WHERE attnum = `attnum`. */
  function UpdateRow(rows: seq<ColumnRow>, attnum: int, change: ColumnRow -> ColumnRow): (r: seq<ColumnRow>)
    ensures |r| == |rows|
    ensures forall i :: 0 <= i < |rows| ==> r[i] == if rows[i].attnum == attnum then change(rows[i]) else rows[i]
  {
    seq(|rows|, i requires 0 <= i < |rows| => if rows[i].attnum == attnum then change(rows[i]) else rows[i])
  }

  const DROP: ColumnRow -> ColumnRow := (r: ColumnRow) => r.(dropped := true, hasDef := false)

  /** `mark_column_dropped` */
  function MarkDropped(t: Table, attnum: int): Table {
    t.(rows := UpdateRow(t.rows, attnum, DROP), defaults := t.defaults - {attnum})
  }

  /** `set_relnatts_to_active_attribute_count` */
  function SetRelnatts(t: Table): Table { t.(natts := |Views(t.rows)|) }

  /** The default row for a column, its oid taken from the allocator; the key is (adrelid, adnum). */
  function InsertDefault(reg: Registry, t: Table, attnum: int, default: Option<string>): Option<(Registry, Table)> {
    if default.None? then Some((reg, t))
    else if attnum in t.defaults then None
    else Some((reg.(nextOid := reg.nextOid + 1), t.(defaults := t.defaults[attnum := default.value])))
  }

  /** `insert_attribute_row` */
  function InsertAttribute(ty: Typing, reg: Registry, t: Table, col: DuckColumn, attnum: int): Option<(Registry, Table)> {
    if TypeIdIn(ty, reg.types, col.duckType).None? then None
    else match InsertRow(t.rows, RowFor(ty, reg.types, col, attnum))
      case None => None
      case Some(rows) => InsertDefault(reg, t.(rows := rows), attnum, col.default)
  }

  /** The change `sync_catalog_column` makes to one row. */
  function Synced(name: string, typeId: int, typmod: int, col: DuckColumn): ColumnRow -> ColumnRow {
    (r: ColumnRow) => r.(name := name, typeId := typeId, typmod := typmod, notNull := col.notNull, hasDef := col.default.Some?)
  }

  /** `sync_catalog_column` */
  function Sync(ty: Typing, reg: Registry, t: Table, attnum: int, col: DuckColumn, name: string): Option<(Registry, Table)> {
    match EnsureType(ty, reg, col.duckType)
    case None => None
    case Some(reg1) =>
      var id := TypeIdIn(ty, reg1.types, col.duckType);
      if id.None? then None
      else
        var rows := UpdateRow(t.rows, attnum, Synced(name, id.value, ty.modifier(col.duckType), col));
        InsertDefault(reg1, t.(rows := rows, defaults := t.defaults - {attnum}), attnum, col.default)
  }

  /// Composite steps on one table

  /** DuckDB appends the column, then the catalog row is written. */
  function AddOn(ty: Typing, reg: Registry, t: Table, col: DuckColumn, attnum: int): Option<(Registry, Table)> {
    match DuckAdd(t.phys, col)
    case None => None
    case Some(phys) =>
      match EnsureAll(ty, reg, phys)
      case None => None
      case Some(reg1) =>
        match InsertAttribute(ty, reg1, t.(phys := phys), col, attnum)
        case None => None
        case Some((reg2, t2)) => Some((reg2, SetRelnatts(t2)))
  }

  function DropOn(t: Table, name: string, attnum: int): Option<Table> {
    match DuckDrop(t.phys, name)
    case None => None
    case Some(phys) => Some(MarkDropped(t.(phys := phys), attnum))
  }

  /** After DuckDB changed a column, the catalog row is brought in line with what DuckDB reports. */
  function SyncOn(ty: Typing, reg: Registry, t: Table, name: string, attnum: int): Option<(Registry, Table)> {
    match EnsureAll(ty, reg, t.phys)
    case None => None
    case Some(reg1) =>
      var i := PhysIndex(t.phys, name);
      if i.None? then None else Sync(ty, reg1, t, attnum, t.phys[i.value], name)
  }

  function RenameOn(ty: Typing, reg: Registry, t: Table, old_: string, new_: string, attnum: int): Option<(Registry, Table)> {
    match DuckRename(t.phys, old_, new_)
    case None => None
    case Some(phys) => SyncOn(ty, reg, t.(phys := phys), new_, attnum)
  }

  function SetTypeOn(ty: Typing, reg: Registry, t: Table, name: string, duckType: string, attnum: int): Option<(Registry, Table)> {
    match DuckSetType(t.phys, name, duckType)
    case None => None
    case Some(phys) => SyncOn(ty, reg, t.(phys := phys), name, attnum)
  }

  /// The type registry only grows

  /** Registered ids are distinct, above the built-in ones and below the allocator. */
  ghost predicate RegistryOk(reg: Registry) {
    && FIRST_USER_OID <= reg.nextOid
    && (forall t <- reg.types :: FIRST_USER_OID <= reg.types[t] < reg.nextOid)
    && (forall t, u :: t in reg.types && u in reg.types && t != u ==> reg.types[t] != reg.types[u])
  }

  type SoundRegistry = reg: Registry | RegistryOk(reg) witness Registry(map[], FIRST_USER_OID)

  ghost predicate Grows(a: Registry, b: Registry) {
    a.nextOid <= b.nextOid && forall t <- a.types :: t in b.types && b.types[t] == a.types[t]
  }

  lemma EnsureTypeGrows(ty: Typing, reg: Registry, duckType: string)
    requires RegistryOk(reg) && EnsureType(ty, reg, duckType).Some?
    ensures var r := EnsureType(ty, reg, duckType).value;
            && RegistryOk(r) && Grows(reg, r) && TypeIdIn(ty, r.types, duckType).Some?
            && (r == reg || (duckType !in reg.types && r.types.Keys == reg.types.Keys + {duckType}
                             && r.types[duckType] == reg.nextOid == r.nextOid - 1))
  {}

  lemma {:induction false} EnsureAllGrows(ty: Typing, reg: Registry, cols: seq<DuckColumn>)
    requires RegistryOk(reg) && EnsureAll(ty, reg, cols).Some?
    ensures var r := EnsureAll(ty, reg, cols).value; RegistryOk(r) && Grows(reg, r) && AllTyped(ty, r.types, cols)
    decreases |cols|
  {
    if cols != [] {
      var next := EnsureType(ty, reg, cols[0].duckType).value;
      EnsureTypeGrows(ty, reg, cols[0].duckType);
      EnsureAllGrows(ty, next, cols[1..]);
      var r := EnsureAll(ty, reg, cols).value;
      forall i | 0 <= i < |cols|
        ensures TypeIdIn(ty, r.types, cols[i].duckType).Some?
      {
        if i > 0 {
          assert cols[1..][i - 1] == cols[i];
        }
      }
    }
  }

  lemma GrowthKeepsViews(ty: Typing, a: Registry, b: Registry, cols: seq<DuckColumn>)
    requires Grows(a, b) && AllTyped(ty, a.types, cols)
    ensures AllTyped(ty, b.types, cols) && DuckViews(ty, b.types, cols) == DuckViews(ty, a.types, cols)
  {
    forall i | 0 <= i < |cols|
      ensures TypeIdIn(ty, b.types, cols[i].duckType) == TypeIdIn(ty, a.types, cols[i].duckType)
    {
      assert TypeIdIn(ty, a.types, cols[i].duckType).Some?;
    }
  }

  lemma GrowthKeepsAligned(ty: Typing, a: Registry, b: Registry, t: Table)
    requires Grows(a, b) && Aligned(ty, a.types, t)
    ensures Aligned(ty, b.types, t)
  {
    GrowthKeepsViews(ty, a, b, t.phys);
  }

  /// Views of changed rows

  lemma ViewsCons(r: ColumnRow, rest: seq<ColumnRow>)
    ensures Views([r] + rest) == (if r.dropped then Views(rest) else [RowView(r)] + Views(rest))
    ensures ActiveAttnums([r] + rest) == (if r.dropped then ActiveAttnums(rest) else [r.attnum] + ActiveAttnums(rest))
  {
    assert ([r] + rest)[1..] == rest;
  }

  lemma HeadAndTail(rows: seq<ColumnRow>)
    requires rows != []
    ensures rows == [rows[0]] + rows[1..]
  {}

  lemma {:induction false} ViewsAppend(rows: seq<ColumnRow>, row: ColumnRow)
    requires !row.dropped
    ensures Views(rows + [row]) == Views(rows) + [RowView(row)]
    ensures ActiveAttnums(rows + [row]) == ActiveAttnums(rows) + [row.attnum]
  {
    if rows == [] {
      assert rows + [row] == [row] + [];
      ViewsCons(row, []);
    } else {
      var r, rest := rows[0], rows[1..];
      HeadAndTail(rows);
      assert rows + [row] == [r] + (rest + [row]);
      ViewsAppend(rest, row);
      ViewsCons(r, rest + [row]);
      ViewsCons(r, rest);
    }
  }

  lemma {:induction false} ActiveAttnumsAreRows(rows: seq<ColumnRow>, k: nat) returns (i: nat)
    requires k < |Views(rows)|
    ensures i < |rows| && !rows[i].dropped && rows[i].attnum == ActiveAttnums(rows)[k]
    ensures RowView(rows[i]) == Views(rows)[k]
  {
    if rows[0].dropped {
      i := ActiveAttnumsAreRows(rows[1..], k);
      i := i + 1;
    } else if k == 0 {
      i := 0;
    } else {
      i := ActiveAttnumsAreRows(rows[1..], k - 1);
      i := i + 1;
    }
  }

  lemma {:induction false} UpdateElsewhere(rows: seq<ColumnRow>, attnum: int, change: ColumnRow -> ColumnRow)
    requires forall i :: 0 <= i < |rows| ==> rows[i].attnum != attnum
    ensures UpdateRow(rows, attnum, change) == rows
  {}

  lemma AscendingTail(rows: seq<ColumnRow>)
    requires rows != [] && Ascending(rows)
    ensures Ascending(rows[1..])
    ensures forall i :: 0 <= i < |rows[1..]| ==> rows[0].attnum < rows[1..][i].attnum
  {
    assert forall i :: 0 <= i < |rows[1..]| ==> rows[1..][i] == rows[i + 1];
  }

  /** `change` turns the active row numbered `attnum` into one seen as `v`. */
  ghost predicate TurnsInto(rows: seq<ColumnRow>, attnum: int, change: ColumnRow -> ColumnRow, v: View) {
    forall i :: 0 <= i < |rows| && rows[i].attnum == attnum ==>
      change(rows[i]).attnum == attnum && change(rows[i]).dropped == rows[i].dropped
      && (!rows[i].dropped ==> RowView(change(rows[i])) == v)
  }

  lemma UpdateCons(r: ColumnRow, rest: seq<ColumnRow>, attnum: int, change: ColumnRow -> ColumnRow)
    ensures UpdateRow([r] + rest, attnum, change) == [if r.attnum == attnum then change(r) else r] + UpdateRow(rest, attnum, change)
  {}

  lemma TurnsIntoTail(r: ColumnRow, rest: seq<ColumnRow>, attnum: int, change: ColumnRow -> ColumnRow, v: View)
    requires TurnsInto([r] + rest, attnum, change, v)
    ensures TurnsInto(rest, attnum, change, v)
    ensures r.attnum == attnum ==> change(r).attnum == attnum && change(r).dropped == r.dropped && (!r.dropped ==> RowView(change(r)) == v)
  {
    var rows := [r] + rest;
    assert rows[0] == r;
    assert forall i :: 0 <= i < |rest| ==> rest[i] == rows[i + 1];
  }

  lemma ReplaceCons<T>(x: T, s: seq<T>, k: nat, y: T)
    requires k < |s|
    ensures ([x] + s)[k + 1 := y] == [x] + s[k := y]
  {}

  lemma ReplaceHead<T>(x: T, s: seq<T>, y: T)
    ensures ([x] + s)[0 := y] == [y] + s
  {}

  /** The attnum of an active column behind the first row is not the first row's. */
  lemma LaterActive(r: ColumnRow, rest: seq<ColumnRow>, k: nat)
    requires Ascending([r] + rest) && k < |Views(rest)|
    ensures ActiveAttnums(rest)[k] != r.attnum && Ascending(rest)
  {
    var rows := [r] + rest;
    AscendingTail(rows);
    assert rows[1..] == rest;
    var i := ActiveAttnumsAreRows(rest, k);
  }

  /** Updating the row of the `k`-th active column changes the `k`-th view only. */
  lemma {:induction false} ViewsUpdate(rows: seq<ColumnRow>, attnum: int, change: ColumnRow -> ColumnRow, k: nat, v: View)
    requires Ascending(rows) && k < |Views(rows)| && ActiveAttnums(rows)[k] == attnum
    requires TurnsInto(rows, attnum, change, v)
    ensures Views(UpdateRow(rows, attnum, change)) == Views(rows)[k := v]
    ensures ActiveAttnums(UpdateRow(rows, attnum, change)) == ActiveAttnums(rows)
  {
    var r, rest := rows[0], rows[1..];
    HeadAndTail(rows);
    AscendingTail(rows);
    ViewsCons(r, rest);
    UpdateCons(r, rest, attnum, change);
    TurnsIntoTail(r, rest, attnum, change, v);
    if !r.dropped && k == 0 {
      UpdateElsewhere(rest, attnum, change);
      ViewsCons(change(r), rest);
      ReplaceHead(RowView(r), Views(rest), v);
    } else {
      var k1 := if r.dropped then k else k - 1;
      LaterActive(r, rest, k1);
      ViewsUpdate(rest, attnum, change, k1, v);
      ViewsCons(r, UpdateRow(rest, attnum, change));
      if !r.dropped {
        ReplaceCons(RowView(r), Views(rest), k1, v);
      }
    }
  }

  /** The `k`-th active row of a sound table, seen as a row rather than as a view. */
  lemma {:induction false} ActiveRowsAreViews(rows: seq<ColumnRow>, k: nat)
    requires k < |Views(rows)|
    ensures Views(rows)[k] == RowView(ActiveRows(rows)[k]) && ActiveAttnums(rows)[k] == ActiveRows(rows)[k].attnum
  {
    if rows[0].dropped {
      ActiveRowsAreViews(rows[1..], k);
    } else if k > 0 {
      ActiveRowsAreViews(rows[1..], k - 1);
    }
  }

  function Remove<T>(s: seq<T>, k: nat): (r: seq<T>)
    requires k < |s|
    ensures |r| == |s| - 1
    ensures forall i :: 0 <= i < |r| ==> r[i] == if i < k then s[i] else s[i + 1]
  {
    s[..k] + s[k + 1..]
  }

  lemma RemoveCons<T>(x: T, s: seq<T>, k: nat)
    requires k < |s|
    ensures Remove([x] + s, k + 1) == [x] + Remove(s, k)
  {}

  /// The rows themselves

  lemma ActiveRowsCons(r: ColumnRow, rest: seq<ColumnRow>)
    ensures ActiveRows([r] + rest) == (if r.dropped then ActiveRows(rest) else [r] + ActiveRows(rest))
  {
    assert ([r] + rest)[1..] == rest;
  }

  lemma {:induction false} ActiveRowsAppend(rows: seq<ColumnRow>, row: ColumnRow)
    requires !row.dropped
    ensures ActiveRows(rows + [row]) == ActiveRows(rows) + [row]
  {
    if rows == [] {
      assert rows + [row] == [row] + [];
      ActiveRowsCons(row, []);
    } else {
      var r, rest := rows[0], rows[1..];
      HeadAndTail(rows);
      assert rows + [row] == [r] + (rest + [row]);
      ActiveRowsAppend(rest, row);
      ActiveRowsCons(r, rest + [row]);
      ActiveRowsCons(r, rest);
    }
  }

  lemma {:induction false} ActiveRowsUpdate(rows: seq<ColumnRow>, attnum: int, change: ColumnRow -> ColumnRow, k: nat)
    requires Ascending(rows) && k < |Views(rows)| && ActiveAttnums(rows)[k] == attnum
    requires forall r :: change(r).dropped == r.dropped
    ensures ActiveRows(UpdateRow(rows, attnum, change)) == ActiveRows(rows)[k := change(ActiveRows(rows)[k])]
  {
    var r, rest := rows[0], rows[1..];
    HeadAndTail(rows);
    AscendingTail(rows);
    ViewsCons(r, rest);
    ActiveRowsCons(r, rest);
    UpdateCons(r, rest, attnum, change);
    if !r.dropped && k == 0 {
      UpdateElsewhere(rest, attnum, change);
      ActiveRowsCons(change(r), rest);
      ReplaceHead(r, ActiveRows(rest), change(r));
    } else {
      var k1 := if r.dropped then k else k - 1;
      LaterActive(r, rest, k1);
      ActiveRowsUpdate(rest, attnum, change, k1);
      ActiveRowsCons(r, UpdateRow(rest, attnum, change));
      if !r.dropped {
        ReplaceCons(r, ActiveRows(rest), k1, change(ActiveRows(rest)[k1]));
      }
    }
  }

  lemma {:induction false} ActiveRowsDrop(rows: seq<ColumnRow>, attnum: int, change: ColumnRow -> ColumnRow, k: nat)
    requires Ascending(rows) && k < |Views(rows)| && ActiveAttnums(rows)[k] == attnum
    requires forall r :: change(r).dropped
    ensures ActiveRows(UpdateRow(rows, attnum, change)) == Remove(ActiveRows(rows), k)
  {
    var r, rest := rows[0], rows[1..];
    HeadAndTail(rows);
    AscendingTail(rows);
    ViewsCons(r, rest);
    ActiveRowsCons(r, rest);
    UpdateCons(r, rest, attnum, change);
    if !r.dropped && k == 0 {
      UpdateElsewhere(rest, attnum, change);
      ActiveRowsCons(change(r), rest);
    } else {
      var k1 := if r.dropped then k else k - 1;
      LaterActive(r, rest, k1);
      ActiveRowsDrop(rest, attnum, change, k1);
      RemovedBehind(r, rest, UpdateRow(rest, attnum, change), k1);
    }
  }

  lemma RemovedBehind(r: ColumnRow, rest: seq<ColumnRow>, after: seq<ColumnRow>, k: nat)
    requires k < |ActiveRows(rest)| && ActiveRows(after) == Remove(ActiveRows(rest), k)
    ensures var j := if r.dropped then k else k + 1;
            j < |ActiveRows([r] + rest)| && ActiveRows([r] + after) == Remove(ActiveRows([r] + rest), j)
  {
    ActiveRowsCons(r, rest);
    ActiveRowsCons(r, after);
    if !r.dropped {
      RemoveCons(r, ActiveRows(rest), k);
    }
  }

  /** Dropping the row of the `k`-th active column removes the `k`-th view only. */
  lemma ViewsDrop(rows: seq<ColumnRow>, attnum: int, change: ColumnRow -> ColumnRow, k: nat)
    requires Ascending(rows) && k < |Views(rows)| && ActiveAttnums(rows)[k] == attnum
    requires forall r :: change(r).dropped
    ensures Views(UpdateRow(rows, attnum, change)) == Remove(Views(rows), k)
    ensures ActiveAttnums(UpdateRow(rows, attnum, change)) == Remove(ActiveAttnums(rows), k)
  {
    ActiveRowsDrop(rows, attnum, change, k);
    RemovedViews(rows, UpdateRow(rows, attnum, change), k);
  }

  lemma RemovedViews(rows: seq<ColumnRow>, after: seq<ColumnRow>, k: nat)
    requires k < |Views(rows)| && ActiveRows(after) == Remove(ActiveRows(rows), k)
    ensures Views(after) == Remove(Views(rows), k) && ActiveAttnums(after) == Remove(ActiveAttnums(rows), k)
  {
    forall i | 0 <= i < |Views(after)|
      ensures Views(after)[i] == Remove(Views(rows), k)[i] && ActiveAttnums(after)[i] == Remove(ActiveAttnums(rows), k)[i]
    {
      ActiveRowsAreViews(after, i);
      ActiveRowsAreViews(rows, if i < k then i else i + 1);
    }
  }

  lemma {:induction false} ActiveAttnumsAscend(rows: seq<ColumnRow>)
    requires Ascending(rows)
    ensures forall i, j :: 0 <= i < j < |ActiveAttnums(rows)| ==> ActiveAttnums(rows)[i] < ActiveAttnums(rows)[j]
    ensures forall i :: 0 <= i < |ActiveAttnums(rows)| ==> 1 <= ActiveAttnums(rows)[i] <= MaxAttnum(rows)
  {
    var a := ActiveAttnums(rows);
    if rows != [] {
      AscendingTail(rows);
      ActiveAttnumsAscend(rows[1..]);
      forall j | 0 <= j < |a|
        ensures 1 <= a[j] <= MaxAttnum(rows) && (j > 0 && !rows[0].dropped ==> a[0] < a[j])
      {
        var i := ActiveAttnumsAreRows(rows, j);
        if j > 0 && !rows[0].dropped {
          var h := ActiveAttnumsAreRows(rows[1..], j - 1);
        }
      }
    }
  }

  lemma PhysIndexIsViewIndex(ty: Typing, types: map<string, int>, cols: seq<DuckColumn>, name: string)
    ensures PhysIndex(cols, name) == IndexOfName(DuckViews(ty, types, cols), Lower(name))
  {
    var i, k := PhysIndex(cols, name), IndexOfName(DuckViews(ty, types, cols), Lower(name));
    if i.Some? && k.Some? {
      assert !(i.value < k.value) && !(k.value < i.value);
    }
  }

  /// Each composite step keeps the refinement

  lemma UniqueNamesAppend(vs: seq<View>, v: View)
    requires UniqueNames(vs) && IndexOfName(vs, v.name).None?
    ensures UniqueNames(vs + [v])
  {}

  lemma AscendingAppend(rows: seq<ColumnRow>, row: ColumnRow)
    requires Ascending(rows) && MaxAttnum(rows) < row.attnum
    ensures Ascending(rows + [row])
  {}

  lemma MaxOfAppend(rows: seq<ColumnRow>, row: ColumnRow)
    requires MaxAttnum(rows) < row.attnum
    ensures MaxAttnum(rows + [row]) == row.attnum
  {
    assert (rows + [row])[..|rows|] == rows;
  }

  lemma TypedAppend(ty: Typing, types: map<string, int>, cols: seq<DuckColumn>, col: DuckColumn)
    requires AllTyped(ty, types, cols) && TypeIdIn(ty, types, col.duckType).Some?
    ensures AllTyped(ty, types, cols + [col])
    ensures DuckViews(ty, types, cols + [col]) == DuckViews(ty, types, cols) + [DuckView(ty, types, col)]
  {}

  lemma TypedRemove(ty: Typing, types: map<string, int>, cols: seq<DuckColumn>, k: nat)
    requires AllTyped(ty, types, cols) && k < |cols|
    ensures AllTyped(ty, types, Remove(cols, k))
    ensures DuckViews(ty, types, Remove(cols, k)) == Remove(DuckViews(ty, types, cols), k)
  {}

  lemma InsertAtEnd(ty: Typing, reg: Registry, t: Table, col: DuckColumn, attnum: int)
    requires RegistryOk(reg) && MaxAttnum(t.rows) < attnum && InsertAttribute(ty, reg, t, col, attnum).Some?
    ensures TypeIdIn(ty, reg.types, col.duckType).Some?
    ensures var (reg1, t1) := InsertAttribute(ty, reg, t, col, attnum).value;
            && t1.rows == t.rows + [RowFor(ty, reg.types, col, attnum)] && t1.phys == t.phys
            && t1.defaults == (if col.default.Some? then t.defaults[attnum := col.default.value] else t.defaults)
            && RegistryOk(reg1) && Grows(reg, reg1) && reg1.types == reg.types
  {}

  lemma AlignedAppend(ty: Typing, types: map<string, int>, t: Table, col: DuckColumn, attnum: int, after: map<int, string>, natts: int)
    requires Aligned(ty, types, t) && TypeIdIn(ty, types, col.duckType).Some? && PhysIndex(t.phys, col.name).None?
    requires MaxAttnum(t.rows) < attnum
    requires after == if col.default.Some? then t.defaults[attnum := col.default.value] else t.defaults
    ensures var t1 := Table(natts, t.rows + [RowFor(ty, types, col, attnum)], after, t.phys + [col]);
            Aligned(ty, types, t1) && Views(t1.rows) == Views(t.rows) + [DuckView(ty, types, col)]
  {
    var row := RowFor(ty, types, col, attnum);
    ViewsAppend(t.rows, row);
    AscendingAppend(t.rows, row);
    TypedAppend(ty, types, t.phys, col);
    assert attnum !in ActiveAttnums(t.rows) by {
      ActiveAttnumsAscend(t.rows);
    }
    assert UniqueNames(Views(t.rows) + [RowView(row)]) by {
      PhysIndexIsViewIndex(ty, types, t.phys, col.name);
      UniqueNamesAppend(Views(t.rows), DuckView(ty, types, col));
    }
    DefaultsAppend(ActiveAttnums(t.rows), Views(t.rows), t.defaults, attnum, RowView(row), after);
  }

  /** A new column whose attnum is above every attnum in use lands last on both sides. */
  lemma AddOnKeepsTable(ty: Typing, reg: Registry, t: Table, col: DuckColumn, attnum: int)
    requires RegistryOk(reg) && Aligned(ty, reg.types, t)
    requires MaxAttnum(t.rows) < attnum && AddOn(ty, reg, t, col, attnum).Some?
    ensures var (reg1, t1) := AddOn(ty, reg, t, col, attnum).value;
            && RegistryOk(reg1) && Grows(reg, reg1) && TableOk(ty, reg1.types, t1)
            && t1.phys == t.phys + [col]
            && TypeIdIn(ty, reg1.types, col.duckType).Some?
            && t1.rows == t.rows + [RowFor(ty, reg1.types, col, attnum)]
            && Views(t1.rows) == Views(t.rows) + [DuckView(ty, reg1.types, col)]
  {
    var phys := t.phys + [col];
    var reg1 := EnsureAll(ty, reg, phys).value;
    EnsureAllGrows(ty, reg, phys);
    assert phys[|t.phys|] == col;
    GrowthKeepsAligned(ty, reg, reg1, t);
    var t2 := AddOn(ty, reg, t, col, attnum).value.1;
    AlignedAppend(ty, reg1.types, t, col, attnum, t2.defaults, t2.natts);
  }

  lemma DefaultsAppend(attnums: seq<int>, vs: seq<View>, defaults: map<int, string>, attnum: int, v: View, after: map<int, string>)
    requires |attnums| == |vs| && DefaultsOk(attnums, vs, defaults) && attnum !in attnums
    requires after.Keys == if v.hasDef then defaults.Keys + {attnum} else defaults.Keys
    ensures DefaultsOk(attnums + [attnum], vs + [v], after)
  {
    var as_, ws := attnums + [attnum], vs + [v];
    assert as_[|attnums|] == attnum;
    forall k | 0 <= k < |ws|
      ensures ws[k].hasDef <==> as_[k] in after
    {
      assert as_[k] in after <==> as_[k] in after.Keys;
      if k < |vs| {
        assert as_[k] == attnums[k] && attnums[k] in attnums;
      }
    }
    forall a <- after
      ensures a in as_
    {
      assert a in after.Keys;
    }
  }

  lemma DefaultsRemove(attnums: seq<int>, vs: seq<View>, defaults: map<int, string>, k: nat)
    requires |attnums| == |vs| && DefaultsOk(attnums, vs, defaults) && k < |vs|
    requires forall i, j :: 0 <= i < j < |attnums| ==> attnums[i] < attnums[j]
    ensures DefaultsOk(Remove(attnums, k), Remove(vs, k), defaults - {attnums[k]})
  {
    var as_ := Remove(attnums, k);
    forall a <- defaults - {attnums[k]}
      ensures a in as_
    {
      var i :| 0 <= i < |attnums| && attnums[i] == a;
      assert as_[if i < k then i else i - 1] == a;
    }
  }

  lemma DefaultsReplace(attnums: seq<int>, vs: seq<View>, defaults: map<int, string>, k: nat, v: View, after: map<int, string>)
    requires |attnums| == |vs| && DefaultsOk(attnums, vs, defaults) && k < |vs|
    requires forall i, j :: 0 <= i < j < |attnums| ==> attnums[i] < attnums[j]
    requires after.Keys == if v.hasDef then defaults.Keys + {attnums[k]} else defaults.Keys - {attnums[k]}
    ensures DefaultsOk(attnums, vs[k := v], after)
  {
    forall i | 0 <= i < |vs|
      ensures vs[k := v][i].hasDef <==> attnums[i] in after
    {
      assert attnums[i] in after <==> attnums[i] in after.Keys;
    }
    forall a <- after
      ensures a in attnums
    {
      assert a in after.Keys;
    }
  }

  lemma UniqueNamesRemove(vs: seq<View>, k: nat)
    requires k < |vs| && UniqueNames(vs)
    ensures UniqueNames(Remove(vs, k))
  {}

  lemma AlignedRemove(ty: Typing, types: map<string, int>, t: Table, k: nat, t1: Table)
    requires Aligned(ty, types, t) && k < |t.phys|
    requires Ascending(t1.rows) && Views(t1.rows) == Remove(Views(t.rows), k)
    requires ActiveAttnums(t1.rows) == Remove(ActiveAttnums(t.rows), k)
    requires t1.phys == Remove(t.phys, k) && t1.defaults == t.defaults - {ActiveAttnums(t.rows)[k]}
    ensures Aligned(ty, types, t1)
  {
    assert DefaultsOk(ActiveAttnums(t1.rows), Views(t1.rows), t1.defaults) by {
      ActiveAttnumsAscend(t.rows);
      DefaultsRemove(ActiveAttnums(t.rows), Views(t.rows), t.defaults, k);
    }
    UniqueNamesRemove(Views(t.rows), k);
    TypedRemove(ty, types, t.phys, k);
  }

  lemma UpdateKeepsAscending(rows: seq<ColumnRow>, attnum: int, change: ColumnRow -> ColumnRow)
    requires Ascending(rows) && forall r :: change(r).attnum == r.attnum
    ensures Ascending(UpdateRow(rows, attnum, change))
    ensures MaxAttnum(UpdateRow(rows, attnum, change)) == MaxAttnum(rows)
  {}

  /** Dropping a column removes the same position on both sides. */
  lemma DropOnKeepsTable(ty: Typing, types: map<string, int>, t: Table, name: string, attnum: int)
    requires Aligned(ty, types, t) && ColumnAttnum(t.rows, name) == Some(attnum) && DropOn(t, name, attnum).Some?
    ensures var t1, k := DropOn(t, name, attnum).value, IndexOfName(Views(t.rows), Lower(name)).value;
            && Aligned(ty, types, t1)
            && Views(t1.rows) == Remove(Views(t.rows), k)
            && t1.rows == UpdateRow(t.rows, attnum, DROP)
  {
    var k := IndexOfName(Views(t.rows), Lower(name)).value;
    PhysIndexIsViewIndex(ty, types, t.phys, name);
    ViewsDrop(t.rows, attnum, DROP, k);
    UpdateKeepsAscending(t.rows, attnum, DROP);
    AlignedRemove(ty, types, t, k, DropOn(t, name, attnum).value);
  }

  lemma TypedReplace(ty: Typing, types: map<string, int>, cols: seq<DuckColumn>, k: nat, col: DuckColumn)
    requires k < |cols| && forall i :: 0 <= i < |cols| && i != k ==> TypeIdIn(ty, types, cols[i].duckType).Some?
    requires TypeIdIn(ty, types, col.duckType).Some?
    ensures AllTyped(ty, types, cols[k := col])
    ensures DuckViews(ty, types, cols[k := col]) == DuckViews(ty, types, cols)[k := DuckView(ty, types, col)]
  {}

  lemma UniqueNamesReplace(vs: seq<View>, k: nat, v: View)
    requires k < |vs| && UniqueNames(vs)
    requires v.name == vs[k].name || IndexOfName(vs, v.name).None?
    ensures UniqueNames(vs[k := v])
  {}

  lemma AlignedReplace(ty: Typing, types: map<string, int>, t: Table, k: nat, col: DuckColumn, t1: Table)
    requires Aligned(ty, types, t) && k < |t.phys| && TypeIdIn(ty, types, col.duckType).Some?
    requires Lower(col.name) == Views(t.rows)[k].name || IndexOfName(Views(t.rows), Lower(col.name)).None?
    requires Ascending(t1.rows) && Views(t1.rows) == Views(t.rows)[k := DuckView(ty, types, col)]
    requires ActiveAttnums(t1.rows) == ActiveAttnums(t.rows) && t1.phys == t.phys[k := col]
    requires var a := ActiveAttnums(t.rows)[k];
             t1.defaults.Keys == if col.default.Some? then t.defaults.Keys + {a} else t.defaults.Keys - {a}
    ensures Aligned(ty, types, t1)
  {
    assert DefaultsOk(ActiveAttnums(t1.rows), Views(t1.rows), t1.defaults) by {
      ActiveAttnumsAscend(t.rows);
      DefaultsReplace(ActiveAttnums(t.rows), Views(t.rows), t.defaults, k, DuckView(ty, types, col), t1.defaults);
    }
    UniqueNamesReplace(Views(t.rows), k, DuckView(ty, types, col));
    TypedReplace(ty, types, t.phys, k, col);
  }

  /** What `Sync` writes, once the type is registered. */
  lemma SyncWrites(ty: Typing, reg: Registry, t: Table, attnum: int, col: DuckColumn, name: string)
    requires RegistryOk(reg) && Sync(ty, reg, t, attnum, col, name).Some?
    ensures EnsureType(ty, reg, col.duckType).Some?
    ensures var reg1 := EnsureType(ty, reg, col.duckType).value;
            var (reg2, t2) := Sync(ty, reg, t, attnum, col, name).value;
            var id := TypeIdIn(ty, reg1.types, col.duckType);
            && RegistryOk(reg1) && Grows(reg, reg1) && id.Some? && RegistryOk(reg2) && reg2.types == reg1.types && Grows(reg, reg2)
            && t2.rows == UpdateRow(t.rows, attnum, Synced(name, id.value, ty.modifier(col.duckType), col))
            && t2.phys == t.phys && t2.natts == t.natts
            && t2.defaults == (if col.default.Some? then (t.defaults - {attnum})[attnum := col.default.value] else t.defaults - {attnum})
  {
    EnsureTypeGrows(ty, reg, col.duckType);
  }

  lemma SyncedRows(rows: seq<ColumnRow>, attnum: int, k: nat, name: string, typeId: int, typmod: int, col: DuckColumn)
    requires Ascending(rows) && k < |Views(rows)| && ActiveAttnums(rows)[k] == attnum
    ensures var after := UpdateRow(rows, attnum, Synced(name, typeId, typmod, col));
            && Ascending(after) && ActiveAttnums(after) == ActiveAttnums(rows)
            && Views(after) == Views(rows)[k := View(Lower(name), Some(typeId), typmod, col.default.Some?)]
            && (forall i :: 0 <= i < |rows| ==> after[i].attnum == rows[i].attnum && after[i].dropped == rows[i].dropped)
  {
    var change := Synced(name, typeId, typmod, col);
    ViewsUpdate(rows, attnum, change, k, View(Lower(name), Some(typeId), typmod, col.default.Some?));
    UpdateKeepsAscending(rows, attnum, change);
  }

  /** Writing what DuckDB reports for the changed column `col` into the row of the `k`-th active
      column, under a name equal up to case, restores the refinement. */
  lemma SyncKeepsTable(ty: Typing, reg: Registry, t: Table, k: nat, col: DuckColumn, name: string)
    requires RegistryOk(reg) && Aligned(ty, reg.types, t) && k < |t.phys| && EqIgnoreCase(name, col.name)
    requires Lower(name) == Views(t.rows)[k].name || IndexOfName(Views(t.rows), Lower(name)).None?
    requires Sync(ty, reg, t.(phys := t.phys[k := col]), ActiveAttnums(t.rows)[k], col, name).Some?
    ensures var (reg1, t1) := Sync(ty, reg, t.(phys := t.phys[k := col]), ActiveAttnums(t.rows)[k], col, name).value;
            && RegistryOk(reg1) && Grows(reg, reg1) && Aligned(ty, reg1.types, t1)
            && TypeIdIn(ty, reg1.types, col.duckType).Some?
            && Views(t1.rows) == Views(t.rows)[k := DuckView(ty, reg1.types, col)]
            && t1.phys == t.phys[k := col] && t1.natts == t.natts && |t1.rows| == |t.rows|
            && (forall i :: 0 <= i < |t.rows| ==> t1.rows[i].attnum == t.rows[i].attnum && t1.rows[i].dropped == t.rows[i].dropped)
  {
    var attnum := ActiveAttnums(t.rows)[k];
    SyncWrites(ty, reg, t.(phys := t.phys[k := col]), attnum, col, name);
    var reg1 := EnsureType(ty, reg, col.duckType).value;
    GrowthKeepsAligned(ty, reg, reg1, t);
    var id := TypeIdIn(ty, reg1.types, col.duckType);
    SyncedRows(t.rows, attnum, k, name, id.value, ty.modifier(col.duckType), col);
    var (reg2, t2) := Sync(ty, reg, t.(phys := t.phys[k := col]), attnum, col, name).value;
    assert t2.defaults.Keys == if col.default.Some? then t.defaults.Keys + {attnum} else t.defaults.Keys - {attnum};
    AlignedReplace(ty, reg1.types, t, k, col, t2);
  }

  /** What a step that changes one column in place leaves: the refinement, and the other columns
      and all attnums as they were. */
  ghost predicate ReplacedAt(ty: Typing, reg: Registry, t: Table, k: nat, col: DuckColumn, reg1: Registry, t1: Table)
    requires k < |t.phys| && Aligned(ty, reg.types, t)
  {
    && RegistryOk(reg1) && Grows(reg, reg1) && Aligned(ty, reg1.types, t1)
    && TypeIdIn(ty, reg1.types, col.duckType).Some?
    && Views(t1.rows) == Views(t.rows)[k := DuckView(ty, reg1.types, col)]
    && t1.phys == t.phys[k := col] && t1.natts == t.natts && |t1.rows| == |t.rows|
    && (forall i :: 0 <= i < |t.rows| ==> t1.rows[i].attnum == t.rows[i].attnum && t1.rows[i].dropped == t.rows[i].dropped)
  }

  lemma SyncOnKeepsTable(ty: Typing, reg: Registry, t: Table, k: nat, col: DuckColumn, name: string)
    requires RegistryOk(reg) && Aligned(ty, reg.types, t) && k < |t.phys| && EqIgnoreCase(name, col.name)
    requires Lower(name) == Views(t.rows)[k].name || IndexOfName(Views(t.rows), Lower(name)).None?
    requires SyncOn(ty, reg, t.(phys := t.phys[k := col]), name, ActiveAttnums(t.rows)[k]).Some?
    ensures var (reg1, t1) := SyncOn(ty, reg, t.(phys := t.phys[k := col]), name, ActiveAttnums(t.rows)[k]).value;
            ReplacedAt(ty, reg, t, k, col, reg1, t1)
  {
    var phys := t.phys[k := col];
    var reg1 := EnsureAll(ty, reg, phys).value;
    EnsureAllGrows(ty, reg, phys);
    GrowthKeepsAligned(ty, reg, reg1, t);
    FoundAt(ty, reg.types, t, k, col, name);
    SyncKeepsTable(ty, reg1, t, k, col, name);
  }

  lemma FoundAt(ty: Typing, types: map<string, int>, t: Table, k: nat, col: DuckColumn, name: string)
    requires Aligned(ty, types, t) && k < |t.phys| && EqIgnoreCase(name, col.name)
    requires Lower(name) == Views(t.rows)[k].name || IndexOfName(Views(t.rows), Lower(name)).None?
    ensures PhysIndex(t.phys[k := col], name) == Some(k)
  {
    var phys := t.phys[k := col];
    var i := PhysIndex(phys, name);
    assert phys[k] == col;
    assert forall j :: 0 <= j < |phys| && j != k ==> phys[j] == t.phys[j] && Views(t.rows)[j].name == Lower(phys[j].name);
  }

  /** Renaming keeps the column's place on both sides. */
  lemma RenameOnKeepsTable(ty: Typing, reg: Registry, t: Table, old_: string, new_: string, attnum: int)
    requires RegistryOk(reg) && Aligned(ty, reg.types, t) && ColumnAttnum(t.rows, old_) == Some(attnum)
    requires RenameOn(ty, reg, t, old_, new_, attnum).Some?
    ensures var k := IndexOfName(Views(t.rows), Lower(old_)).value;
            var (reg1, t1) := RenameOn(ty, reg, t, old_, new_, attnum).value;
            ReplacedAt(ty, reg, t, k, t.phys[k].(name := new_), reg1, t1)
  {
    var k := IndexOfName(Views(t.rows), Lower(old_)).value;
    PhysIndexIsViewIndex(ty, reg.types, t.phys, old_);
    PhysIndexIsViewIndex(ty, reg.types, t.phys, new_);
    SyncOnKeepsTable(ty, reg, t, k, t.phys[k].(name := new_), new_);
  }

  /** Changing a type keeps the column's place on both sides. */
  lemma SetTypeOnKeepsTable(ty: Typing, reg: Registry, t: Table, name: string, duckType: string, attnum: int)
    requires RegistryOk(reg) && Aligned(ty, reg.types, t) && ColumnAttnum(t.rows, name) == Some(attnum)
    requires SetTypeOn(ty, reg, t, name, duckType, attnum).Some?
    ensures var k := IndexOfName(Views(t.rows), Lower(name)).value;
            var (reg1, t1) := SetTypeOn(ty, reg, t, name, duckType, attnum).value;
            ReplacedAt(ty, reg, t, k, t.phys[k].(duckType := duckType), reg1, t1)
  {
    var k := IndexOfName(Views(t.rows), Lower(name)).value;
    PhysIndexIsViewIndex(ty, reg.types, t.phys, name);
    SyncOnKeepsTable(ty, reg, t, k, t.phys[k].(duckType := duckType), name);
  }
}
