/** One ALTER TABLE change, on one table that stores rows and on all partitions of a partitioned table. */
module TableChanges {
  import opened Text
  import opened TableColumns

  /// The tables involved

  datatype Kind = Ordinary | Partitioned | OtherKind

  /** A key list of rs_constraint (conkey or confkey) or rs_index (indkey), the table it belongs to and the
      relation it numbers, which for a foreign key's confkey is another. */
  datatype Key = Key(owner: int, relid: int, attnums: string)

  /** `tables` holds each relation's own rows and DuckDB object; for a partitioned table `phys` is
      its entrypoint view. `internal` are the relations of the reserved schema rsduck_internal, and
      `primary` has the attnums of each partitioned table's primary key. */
  datatype Db = Db(
    kinds: map<int, Kind>, tables: map<int, Table>, reg: Registry, deps: set<(int, int)>, internal: set<int>,
    keys: seq<Key>, partitions: map<int, seq<int>>, partitionKey: map<int, string>, primary: map<int, set<int>>)

  /// One change to one physical table

  /** What an ALTER does to a table that stores rows: an ordinary table, or one partition. */
  datatype Change =
    | Add(col: DuckColumn, attnum: int)
    | Drop(names: seq<string>)
    | Rename(old_: string, new_: string)
    | Retype(name: string, duckType: string)

  /** Columns are looked up by name just before each one is dropped. */
  function DropNames(t: Table, names: seq<string>): Option<Table>
    decreases |names|
  {
    if names == [] then Some(t)
    else
      var attnum := ColumnAttnum(t.rows, names[0]);
      if attnum.None? then None
      else match DropOn(t, names[0], attnum.value)
        case None => None
        case Some(t1) => DropNames(t1, names[1..])
  }

  function ChangeTable(ty: Typing, reg: Registry, t: Table, c: Change): Option<(Registry, Table)> {
    match c
    case Add(col, attnum) => AddOn(ty, reg, t, col, attnum)
    case Drop(names) =>
      var t1 := DropNames(t, names);
      if t1.None? then None else Some((reg, SetRelnatts(t1.value)))
    case Rename(old_, new_) =>
      var attnum := ColumnAttnum(t.rows, old_);
      if attnum.None? then None else RenameOn(ty, reg, t, old_, new_, attnum.value)
    case Retype(name, duckType) =>
      var attnum := ColumnAttnum(t.rows, name);
      if attnum.None? then None else SetTypeOn(ty, reg, t, name, duckType, attnum.value)
  }

  /** The change seen as an operation on the column list alone. */
  function ChangeViews(ty: Typing, types: map<string, int>, vs: seq<View>, c: Change): Option<seq<View>> {
    match c
    case Add(col, _) => Some(vs + [DuckView(ty, types, col)])
    case Drop(names) => RemoveNames(vs, names)
    case Rename(old_, new_) =>
      var k := IndexOfName(vs, Lower(old_));
      if k.None? then None else Some(vs[k.value := vs[k.value].(name := Lower(new_))])
    case Retype(name, duckType) =>
      var k := IndexOfName(vs, Lower(name));
      if k.None? then None
      else Some(vs[k.value := vs[k.value].(typeId := TypeIdIn(ty, types, duckType), typmod := ty.modifier(duckType))])
  }

  function RemoveNames(vs: seq<View>, names: seq<string>): Option<seq<View>>
    decreases |names|
  {
    if names == [] then Some(vs)
    else
      var k := IndexOfName(vs, Lower(names[0]));
      if k.None? then None else RemoveNames(Remove(vs, k.value), names[1..])
  }

  /** The type text a change introduces, if any. */
  function NewType(c: Change): Option<string> {
    match c
    case Add(col, _) => Some(col.duckType)
    case Retype(_, duckType) => Some(duckType)
    case _ => None
  }

  /** Attnums are never reused and a dropped column never comes back: existing rows keep their
      attnum and stay dropped, and new rows are numbered above all existing ones. */
  ghost predicate NumbersKept(a: seq<ColumnRow>, b: seq<ColumnRow>) {
    && |a| <= |b|
    && (forall i :: 0 <= i < |a| ==> b[i].attnum == a[i].attnum && (a[i].dropped ==> b[i].dropped))
    && (forall i, j :: 0 <= i < |a| <= j < |b| ==> a[i].attnum < b[j].attnum)
  }

  lemma NumbersKeptTrans(a: seq<ColumnRow>, b: seq<ColumnRow>, c: seq<ColumnRow>)
    requires NumbersKept(a, b) && NumbersKept(b, c)
    ensures NumbersKept(a, c)
  {
    forall i, j | 0 <= i < |a| <= j < |c|
      ensures a[i].attnum < c[j].attnum
    {
      if j < |b| {
        assert c[j].attnum == b[j].attnum;
      } else {
        assert b[i].attnum < c[j].attnum;
      }
    }
  }

  lemma DropKeepsNumbers(rows: seq<ColumnRow>, attnum: int)
    ensures var after := UpdateRow(rows, attnum, DROP);
            NumbersKept(rows, after) && |after| == |rows| && MaxAttnum(after) == MaxAttnum(rows)
  {
    SameNumbersSameMax(rows, UpdateRow(rows, attnum, DROP));
  }

  lemma SameNumbersSameMax(a: seq<ColumnRow>, b: seq<ColumnRow>)
    requires |a| == |b| && forall i :: 0 <= i < |a| ==> a[i].attnum == b[i].attnum
    ensures MaxAttnum(a) == MaxAttnum(b)
  {}

  lemma {:induction false} DropNamesKeepsTable(ty: Typing, types: map<string, int>, t: Table, names: seq<string>)
    requires Aligned(ty, types, t) && DropNames(t, names).Some?
    ensures var t1 := DropNames(t, names).value;
            && Aligned(ty, types, t1)
            && Some(Views(t1.rows)) == RemoveNames(Views(t.rows), names)
            && NumbersKept(t.rows, t1.rows) && MaxAttnum(t1.rows) == MaxAttnum(t.rows)
    decreases |names|
  {
    if names != [] {
      var attnum := ColumnAttnum(t.rows, names[0]).value;
      var t1 := DropOn(t, names[0], attnum).value;
      DropOnKeepsTable(ty, types, t, names[0], attnum);
      DropKeepsNumbers(t.rows, attnum);
      DropNamesKeepsTable(ty, types, t1, names[1..]);
      NumbersKeptTrans(t.rows, t1.rows, DropNames(t, names).value.rows);
    }
  }

  /** What every change promises. */
  ghost predicate Changed(ty: Typing, reg: Registry, t: Table, c: Change, reg1: Registry, t1: Table) {
    && RegistryOk(reg1) && Grows(reg, reg1) && TableOk(ty, reg1.types, t1)
    && Some(Views(t1.rows)) == ChangeViews(ty, reg1.types, Views(t.rows), c)
    && NumbersKept(t.rows, t1.rows)
    && MaxAttnum(t1.rows) == (if c.Add? then c.attnum else MaxAttnum(t.rows))
    && (NewType(c).Some? ==> TypeIdIn(ty, reg1.types, NewType(c).value).Some?)
    && (!c.Drop? ==> forall i :: 0 <= i < |t.rows| ==> t1.rows[i].dropped == t.rows[i].dropped)
  }

  lemma AppendKeepsNumbers(rows: seq<ColumnRow>, row: ColumnRow)
    requires MaxAttnum(rows) < row.attnum
    ensures NumbersKept(rows, rows + [row]) && MaxAttnum(rows + [row]) == row.attnum
    ensures forall i :: 0 <= i < |rows| ==> (rows + [row])[i].dropped == rows[i].dropped
  {
    MaxOfAppend(rows, row);
  }

  lemma AddChanges(ty: Typing, reg: Registry, t: Table, c: Change)
    requires RegistryOk(reg) && TableOk(ty, reg.types, t) && ChangeTable(ty, reg, t, c).Some?
    requires c.Add? && MaxAttnum(t.rows) < c.attnum
    ensures Changed(ty, reg, t, c, ChangeTable(ty, reg, t, c).value.0, ChangeTable(ty, reg, t, c).value.1)
  {
    AddOnKeepsTable(ty, reg, t, c.col, c.attnum);
    var (reg1, t1) := ChangeTable(ty, reg, t, c).value;
    AppendKeepsNumbers(t.rows, RowFor(ty, reg1.types, c.col, c.attnum));
  }

  lemma DropChanges(ty: Typing, reg: Registry, t: Table, c: Change)
    requires RegistryOk(reg) && TableOk(ty, reg.types, t) && ChangeTable(ty, reg, t, c).Some? && c.Drop?
    ensures Changed(ty, reg, t, c, ChangeTable(ty, reg, t, c).value.0, ChangeTable(ty, reg, t, c).value.1)
  {
    DropNamesKeepsTable(ty, reg.types, t, c.names);
  }

  lemma ReplacedChanges(ty: Typing, reg: Registry, t: Table, c: Change, k: nat, col: DuckColumn, reg1: Registry, t1: Table)
    requires Aligned(ty, reg.types, t) && t.natts == |t.phys| && k < |t.phys| && ReplacedAt(ty, reg, t, k, col, reg1, t1)
    requires c.Rename? || c.Retype?
    requires Some(Views(t.rows)[k := DuckView(ty, reg1.types, col)]) == ChangeViews(ty, reg1.types, Views(t.rows), c)
    requires c.Retype? ==> c.duckType == col.duckType
    ensures Changed(ty, reg, t, c, reg1, t1)
  {
    SameNumbersSameMax(t.rows, t1.rows);
  }

  lemma RenameChanges(ty: Typing, reg: Registry, t: Table, c: Change)
    requires RegistryOk(reg) && TableOk(ty, reg.types, t) && ChangeTable(ty, reg, t, c).Some? && c.Rename?
    ensures Changed(ty, reg, t, c, ChangeTable(ty, reg, t, c).value.0, ChangeTable(ty, reg, t, c).value.1)
  {
    var (reg1, t1) := ChangeTable(ty, reg, t, c).value;
    var k := IndexOfName(Views(t.rows), Lower(c.old_)).value;
    RenameOnKeepsTable(ty, reg, t, c.old_, c.new_, ColumnAttnum(t.rows, c.old_).value);
    UnchangedView(ty, reg, reg1, t, k);
    ReplacedChanges(ty, reg, t, c, k, t.phys[k].(name := c.new_), reg1, t1);
  }

  lemma RetypeChanges(ty: Typing, reg: Registry, t: Table, c: Change)
    requires RegistryOk(reg) && TableOk(ty, reg.types, t) && ChangeTable(ty, reg, t, c).Some? && c.Retype?
    ensures Changed(ty, reg, t, c, ChangeTable(ty, reg, t, c).value.0, ChangeTable(ty, reg, t, c).value.1)
  {
    var (reg1, t1) := ChangeTable(ty, reg, t, c).value;
    var k := IndexOfName(Views(t.rows), Lower(c.name)).value;
    SetTypeOnKeepsTable(ty, reg, t, c.name, c.duckType, ColumnAttnum(t.rows, c.name).value);
    UnchangedView(ty, reg, reg1, t, k);
    ReplacedChanges(ty, reg, t, c, k, t.phys[k].(duckType := c.duckType), reg1, t1);
  }

  lemma UnchangedView(ty: Typing, a: Registry, b: Registry, t: Table, k: nat)
    requires Grows(a, b) && Aligned(ty, a.types, t) && k < |t.phys|
    ensures DuckView(ty, b.types, t.phys[k]) == Views(t.rows)[k]
  {
    GrowthKeepsViews(ty, a, b, t.phys);
  }

  /** Every change to one table keeps the refinement and acts on its column list as `ChangeViews` says. */
  lemma ChangeTableKeepsTable(ty: Typing, reg: Registry, t: Table, c: Change)
    requires RegistryOk(reg) && TableOk(ty, reg.types, t) && ChangeTable(ty, reg, t, c).Some?
    requires c.Add? ==> MaxAttnum(t.rows) < c.attnum
    ensures Changed(ty, reg, t, c, ChangeTable(ty, reg, t, c).value.0, ChangeTable(ty, reg, t, c).value.1)
  {
    match c
    case Add(_, _) => AddChanges(ty, reg, t, c);
    case Drop(_) => DropChanges(ty, reg, t, c);
    case Rename(_, _) => RenameChanges(ty, reg, t, c);
    case Retype(_, _) => RetypeChanges(ty, reg, t, c);
  }

  /// The same change on every partition

  function Put(db: Db, rel: int, reg: Registry, t: Table): Db { db.(reg := reg, tables := db.tables[rel := t]) }

  function ChangeChildren(ty: Typing, db: Db, children: seq<int>, c: Change): Option<Db>
    decreases |children|
  {
    if children == [] then Some(db)
    else if children[0] !in db.tables then None
    else match ChangeTable(ty, db.reg, db.tables[children[0]], c)
      case None => None
      case Some((reg1, t1)) => ChangeChildren(ty, Put(db, children[0], reg1, t1), children[1..], c)
  }

  ghost predicate Distinct(s: seq<int>) { forall i, j :: 0 <= i < j < |s| ==> s[i] != s[j] }

  /** Only the allocator, the registry and the given relations' own rows differ. */
  ghost predicate OnlyTables(a: Db, b: Db, rels: seq<int>) {
    && b == a.(reg := b.reg, tables := b.tables)
    && b.tables.Keys == a.tables.Keys
    && (forall r <- a.tables :: r !in rels ==> b.tables[r] == a.tables[r])
  }

  ghost predicate ChildChanged(ty: Typing, a: Db, b: Db, child: int, c: Change)
    requires child in a.tables && child in b.tables
  {
    && TableOk(ty, b.reg.types, b.tables[child])
    && Some(Views(b.tables[child].rows)) == ChangeViews(ty, b.reg.types, Views(a.tables[child].rows), c)
    && NumbersKept(a.tables[child].rows, b.tables[child].rows)
    && MaxAttnum(b.tables[child].rows) == (if c.Add? then c.attnum else MaxAttnum(a.tables[child].rows))
  }

  lemma GrowthKeepsChange(ty: Typing, a: Registry, b: Registry, vs: seq<View>, c: Change)
    requires Grows(a, b) && (NewType(c).Some? ==> TypeIdIn(ty, a.types, NewType(c).value).Some?)
    ensures ChangeViews(ty, b.types, vs, c) == ChangeViews(ty, a.types, vs, c)
  {}

  ghost predicate Ready(ty: Typing, db: Db, child: int, c: Change) {
    child in db.tables ==>
      && TableOk(ty, db.reg.types, db.tables[child])
      && (c.Add? ==> MaxAttnum(db.tables[child].rows) < c.attnum)
  }

  /** After one partition changed, the others are still ready. */
  lemma OthersStayReady(ty: Typing, db: Db, head: int, reg1: Registry, t1: Table, child: int, c: Change)
    requires child != head && Ready(ty, db, child, c) && Grows(db.reg, reg1)
    ensures Ready(ty, Put(db, head, reg1, t1), child, c)
  {
    if child in db.tables {
      GrowthKeepsAligned(ty, db.reg, reg1, db.tables[child]);
    }
  }

  lemma TailChanged(ty: Typing, a: Db, mid: Db, b: Db, head: int, child: int, c: Change)
    requires child != head && child in mid.tables && child in a.tables && mid.tables[child] == a.tables[child]
    requires child in b.tables && ChildChanged(ty, mid, b, child, c)
    ensures ChildChanged(ty, a, b, child, c)
  {}

  ghost predicate AllReady(ty: Typing, db: Db, children: seq<int>, c: Change) {
    forall i :: 0 <= i < |children| ==> Ready(ty, db, children[i], c)
  }

  /** The first partition changes and the rest stay ready. */
  lemma FirstChanges(ty: Typing, db: Db, children: seq<int>, c: Change, reg1: Registry, t1: Table)
    requires children != [] && children[0] in db.tables && RegistryOk(db.reg) && Distinct(children) && AllReady(ty, db, children, c)
    requires ChangeTable(ty, db.reg, db.tables[children[0]], c) == Some((reg1, t1))
    ensures var mid := Put(db, children[0], reg1, t1);
            && RegistryOk(reg1) && Grows(db.reg, reg1) && AllReady(ty, mid, children[1..], c)
            && ChildChanged(ty, db, mid, children[0], c)
            && (NewType(c).Some? ==> TypeIdIn(ty, reg1.types, NewType(c).value).Some?)
  {
    var head, rest := children[0], children[1..];
    assert Ready(ty, db, children[0], c);
    ChangeTableKeepsTable(ty, db.reg, db.tables[head], c);
    forall i | 0 <= i < |rest|
      ensures Ready(ty, Put(db, head, reg1, t1), rest[i], c)
    {
      assert rest[i] == children[i + 1];
      OthersStayReady(ty, db, head, reg1, t1, rest[i], c);
    }
  }

  lemma {:induction false} ChangeChildrenFrame(ty: Typing, db: Db, children: seq<int>, c: Change)
    requires RegistryOk(db.reg) && Distinct(children) && ChangeChildren(ty, db, children, c).Some?
    requires AllReady(ty, db, children, c)
    ensures var db1 := ChangeChildren(ty, db, children, c).value;
            && RegistryOk(db1.reg) && Grows(db.reg, db1.reg) && OnlyTables(db, db1, children)
            && (children != [] && NewType(c).Some? ==> TypeIdIn(ty, db1.reg.types, NewType(c).value).Some?)
    decreases |children|
  {
    if children != [] {
      var (reg1, t1) := ChangeTable(ty, db.reg, db.tables[children[0]], c).value;
      FirstChanges(ty, db, children, c, reg1, t1);
      ChangeChildrenFrame(ty, Put(db, children[0], reg1, t1), children[1..], c);
    }
  }

  lemma HeadChanged(ty: Typing, db: Db, children: seq<int>, c: Change)
    requires children != [] && RegistryOk(db.reg) && Distinct(children) && ChangeChildren(ty, db, children, c).Some?
    requires AllReady(ty, db, children, c)
    ensures children[0] in db.tables && children[0] in ChangeChildren(ty, db, children, c).value.tables
    ensures ChildChanged(ty, db, ChangeChildren(ty, db, children, c).value, children[0], c)
  {
    var head, rest := children[0], children[1..];
    var (reg1, t1) := ChangeTable(ty, db.reg, db.tables[head], c).value;
    var mid := Put(db, head, reg1, t1);
    FirstChanges(ty, db, children, c, reg1, t1);
    ChangeChildrenFrame(ty, mid, rest, c);
    assert head !in rest;
    HeadStaysChanged(ty, db, mid, ChangeChildren(ty, mid, rest, c).value, head, c);
  }

  lemma {:induction false} ChangeChildrenKeeps(ty: Typing, db: Db, children: seq<int>, c: Change, child: int)
    requires RegistryOk(db.reg) && Distinct(children) && ChangeChildren(ty, db, children, c).Some?
    requires AllReady(ty, db, children, c) && child in children
    ensures child in db.tables && child in ChangeChildren(ty, db, children, c).value.tables
    ensures ChildChanged(ty, db, ChangeChildren(ty, db, children, c).value, child, c)
    decreases |children|
  {
    if child == children[0] {
      HeadChanged(ty, db, children, c);
    } else {
      var (reg1, t1) := ChangeTable(ty, db.reg, db.tables[children[0]], c).value;
      FirstChanges(ty, db, children, c, reg1, t1);
      var mid := Put(db, children[0], reg1, t1);
      ChangeChildrenKeeps(ty, mid, children[1..], c, child);
      TailChanged(ty, db, mid, ChangeChildren(ty, mid, children[1..], c).value, children[0], child, c);
    }
  }

  lemma HeadStaysChanged(ty: Typing, a: Db, mid: Db, b: Db, head: int, c: Change)
    requires head in a.tables && head in mid.tables && head in b.tables && b.tables[head] == mid.tables[head]
    requires Grows(mid.reg, b.reg) && ChildChanged(ty, a, mid, head, c)
    requires NewType(c).Some? ==> TypeIdIn(ty, mid.reg.types, NewType(c).value).Some?
    ensures ChildChanged(ty, a, b, head, c)
    ensures NewType(c).Some? ==> TypeIdIn(ty, b.reg.types, NewType(c).value).Some?
  {
    GrowthKeepsAligned(ty, mid.reg, b.reg, mid.tables[head]);
    GrowthKeepsChange(ty, mid.reg, b.reg, Views(a.tables[head].rows), c);
  }
}
