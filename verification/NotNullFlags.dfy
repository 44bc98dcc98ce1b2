/** NOT NULL in the catalog and in DuckDB. CREATE TABLE files the flag its statement spells, DuckDB adds the
    columns of the primary key, and only RENAME and SET DATA TYPE file DuckDB's answer later. */
module NotNullFlags {
  import opened Text
  import opened Oids
  import opened TableColumns
  import opened TableChanges
  import opened TableCreation
  import opened AlterTable
  import opened Consistency
  import opened AlterRuns
  import opened CatalogRuns

  /// One table

  /** The catalog demands NOT NULL only where DuckDB enforces it, and `marks` has the columns, in order, where
      DuckDB enforces it unknown to the catalog. */
  ghost predicate FlagsOk(t: Table, marks: seq<bool>) { Differ(ActiveRows(t.rows), t.phys, marks) }

  ghost predicate Differ(rows: seq<ColumnRow>, phys: seq<DuckColumn>, marks: seq<bool>) {
    && |rows| == |phys| == |marks|
    && forall k :: 0 <= k < |marks| ==> phys[k].notNull == (rows[k].notNull || marks[k]) && !(rows[k].notNull && marks[k])
  }

  lemma RemoveDiffers(rows: seq<ColumnRow>, phys: seq<DuckColumn>, marks: seq<bool>, k: nat)
    requires Differ(rows, phys, marks) && k < |marks|
    ensures Differ(Remove(rows, k), Remove(phys, k), Remove(marks, k))
  {}

  /** What a change does to the marks: a new column is unmarked, a dropped one goes, and a column that is
      renamed or retyped is filed as DuckDB has it. */
  function ChangeMarks(vs: seq<View>, marks: seq<bool>, c: Change): seq<bool> {
    match c
    case Add(_, _) => marks + [false]
    case Drop(names) => RemoveMarks(vs, marks, names)
    case Rename(old_, _) => ClearMark(vs, marks, old_)
    case Retype(name, _) => ClearMark(vs, marks, name)
  }

  function ClearMark(vs: seq<View>, marks: seq<bool>, name: string): seq<bool> {
    var k := IndexOfName(vs, Lower(name));
    if k.None? || k.value >= |marks| then marks else marks[k.value := false]
  }

  function RemoveMarks(vs: seq<View>, marks: seq<bool>, names: seq<string>): seq<bool>
    decreases |names|
  {
    if names == [] then marks
    else
      var k := IndexOfName(vs, Lower(names[0]));
      if k.None? || k.value >= |marks| then marks else RemoveMarks(Remove(vs, k.value), Remove(marks, k.value), names[1..])
  }

  lemma AppendFlags(t: Table, marks: seq<bool>, row: ColumnRow, col: DuckColumn, t1: Table)
    requires FlagsOk(t, marks) && !row.dropped && row.notNull == col.notNull
    requires t1.rows == t.rows + [row] && t1.phys == t.phys + [col]
    ensures FlagsOk(t1, marks + [false])
  {
    ActiveRowsAppend(t.rows, row);
  }

  lemma AddFlags(ty: Typing, reg: Registry, t: Table, marks: seq<bool>, c: Change)
    requires RegistryOk(reg) && Aligned(ty, reg.types, t) && FlagsOk(t, marks)
    requires c.Add? && MaxAttnum(t.rows) < c.attnum && AddOn(ty, reg, t, c.col, c.attnum).Some?
    ensures FlagsOk(AddOn(ty, reg, t, c.col, c.attnum).value.1, marks + [false])
  {
    AddOnKeepsTable(ty, reg, t, c.col, c.attnum);
    var (reg1, t1) := AddOn(ty, reg, t, c.col, c.attnum).value;
    AppendFlags(t, marks, RowFor(ty, reg1.types, c.col, c.attnum), c.col, t1);
  }

  lemma DropFlags(ty: Typing, types: map<string, int>, t: Table, marks: seq<bool>, name: string, attnum: int)
    requires Aligned(ty, types, t) && FlagsOk(t, marks)
    requires ColumnAttnum(t.rows, name) == Some(attnum) && DropOn(t, name, attnum).Some?
    ensures IndexOfName(Views(t.rows), Lower(name)).Some? && IndexOfName(Views(t.rows), Lower(name)).value < |marks|
    ensures FlagsOk(DropOn(t, name, attnum).value, Remove(marks, IndexOfName(Views(t.rows), Lower(name)).value))
  {
    var k := IndexOfName(Views(t.rows), Lower(name)).value;
    PhysIndexIsViewIndex(ty, types, t.phys, name);
    RemoveFlags(t, marks, k, DropOn(t, name, attnum).value);
  }

  lemma RemoveFlags(t: Table, marks: seq<bool>, k: nat, t1: Table)
    requires FlagsOk(t, marks) && k < |marks| && Ascending(t.rows)
    requires t1.rows == UpdateRow(t.rows, ActiveAttnums(t.rows)[k], DROP) && t1.phys == Remove(t.phys, k)
    ensures FlagsOk(t1, Remove(marks, k))
  {
    ActiveRowsDrop(t.rows, ActiveAttnums(t.rows)[k], DROP, k);
    RemoveDiffers(ActiveRows(t.rows), t.phys, marks, k);
  }

  lemma {:induction false} DropNamesFlags(ty: Typing, types: map<string, int>, t: Table, marks: seq<bool>, names: seq<string>)
    requires Aligned(ty, types, t) && FlagsOk(t, marks) && DropNames(t, names).Some?
    ensures FlagsOk(DropNames(t, names).value, RemoveMarks(Views(t.rows), marks, names))
    decreases |names|
  {
    if names != [] {
      var attnum := ColumnAttnum(t.rows, names[0]).value;
      DropFlags(ty, types, t, marks, names[0], attnum);
      DropOnKeepsTable(ty, types, t, names[0], attnum);
      var k := IndexOfName(Views(t.rows), Lower(names[0])).value;
      DropNamesFlags(ty, types, DropOn(t, names[0], attnum).value, Remove(marks, k), names[1..]);
    }
  }

  lemma ReplaceFlags(t: Table, marks: seq<bool>, k: nat, change: ColumnRow -> ColumnRow, col: DuckColumn, t1: Table)
    requires FlagsOk(t, marks) && k < |marks| && Ascending(t.rows)
    requires t1.rows == UpdateRow(t.rows, ActiveAttnums(t.rows)[k], change) && t1.phys == t.phys[k := col]
    requires forall r :: change(r).notNull == col.notNull && change(r).attnum == r.attnum && change(r).dropped == r.dropped
    ensures FlagsOk(t1, marks[k := false])
  {
    ActiveRowsUpdate(t.rows, ActiveAttnums(t.rows)[k], change, k);
  }

  lemma SyncOnFlags(ty: Typing, reg: Registry, t: Table, marks: seq<bool>, k: nat, col: DuckColumn, name: string)
    requires RegistryOk(reg) && Aligned(ty, reg.types, t) && FlagsOk(t, marks) && k < |t.phys| && EqIgnoreCase(name, col.name)
    requires Lower(name) == Views(t.rows)[k].name || IndexOfName(Views(t.rows), Lower(name)).None?
    requires SyncOn(ty, reg, t.(phys := t.phys[k := col]), name, ActiveAttnums(t.rows)[k]).Some?
    ensures FlagsOk(SyncOn(ty, reg, t.(phys := t.phys[k := col]), name, ActiveAttnums(t.rows)[k]).value.1, marks[k := false])
  {
    var phys, attnum := t.phys[k := col], ActiveAttnums(t.rows)[k];
    var reg1 := EnsureAll(ty, reg, phys).value;
    EnsureAllGrows(ty, reg, phys);
    FoundAt(ty, reg.types, t, k, col, name);
    SyncWrites(ty, reg1, t.(phys := phys), attnum, col, name);
    var reg2 := EnsureType(ty, reg1, col.duckType).value;
    var change := Synced(name, TypeIdIn(ty, reg2.types, col.duckType).value, ty.modifier(col.duckType), col);
    ReplaceFlags(t, marks, k, change, col, SyncOn(ty, reg, t.(phys := phys), name, attnum).value.1);
  }

  lemma RenameFlags(ty: Typing, reg: Registry, t: Table, marks: seq<bool>, old_: string, new_: string, attnum: int)
    requires RegistryOk(reg) && Aligned(ty, reg.types, t) && FlagsOk(t, marks) && ColumnAttnum(t.rows, old_) == Some(attnum)
    requires RenameOn(ty, reg, t, old_, new_, attnum).Some?
    ensures FlagsOk(RenameOn(ty, reg, t, old_, new_, attnum).value.1, ClearMark(Views(t.rows), marks, old_))
  {
    var k := IndexOfName(Views(t.rows), Lower(old_)).value;
    PhysIndexIsViewIndex(ty, reg.types, t.phys, old_);
    PhysIndexIsViewIndex(ty, reg.types, t.phys, new_);
    SyncOnFlags(ty, reg, t, marks, k, t.phys[k].(name := new_), new_);
  }

  lemma RetypeFlags(ty: Typing, reg: Registry, t: Table, marks: seq<bool>, name: string, duckType: string, attnum: int)
    requires RegistryOk(reg) && Aligned(ty, reg.types, t) && FlagsOk(t, marks) && ColumnAttnum(t.rows, name) == Some(attnum)
    requires SetTypeOn(ty, reg, t, name, duckType, attnum).Some?
    ensures FlagsOk(SetTypeOn(ty, reg, t, name, duckType, attnum).value.1, ClearMark(Views(t.rows), marks, name))
  {
    var k := IndexOfName(Views(t.rows), Lower(name)).value;
    PhysIndexIsViewIndex(ty, reg.types, t.phys, name);
    SyncOnFlags(ty, reg, t, marks, k, t.phys[k].(duckType := duckType), name);
  }

  /** Every change to one table moves the marks as `ChangeMarks` says. */
  lemma ChangeTableFlags(ty: Typing, reg: Registry, t: Table, marks: seq<bool>, c: Change)
    requires RegistryOk(reg) && Aligned(ty, reg.types, t) && FlagsOk(t, marks) && ChangeTable(ty, reg, t, c).Some?
    requires c.Add? ==> MaxAttnum(t.rows) < c.attnum
    ensures FlagsOk(ChangeTable(ty, reg, t, c).value.1, ChangeMarks(Views(t.rows), marks, c))
  {
    match c
    case Add(_, _) => AddFlags(ty, reg, t, marks, c);
    case Drop(names) => DropNamesFlags(ty, reg.types, t, marks, names);
    case Rename(old_, new_) => RenameFlags(ty, reg, t, marks, old_, new_, ColumnAttnum(t.rows, old_).value);
    case Retype(name, duckType) => RetypeFlags(ty, reg, t, marks, name, duckType, ColumnAttnum(t.rows, name).value);
  }

  /// New tables

  function NoMarks(n: nat): (r: seq<bool>)
    ensures |r| == n && forall k :: 0 <= k < n ==> !r[k]
  {
    seq(n, k => false)
  }

  /** Primary key columns whose NOT NULL the statement leaves to DuckDB. */
  function Undeclared(defs: seq<ColumnDef>): (r: seq<bool>)
    ensures |r| == |defs| && forall k :: 0 <= k < |r| ==> r[k] == (defs[k].primaryKey && !defs[k].notNull)
  {
    seq(|defs|, k requires 0 <= k < |defs| => defs[k].primaryKey && !defs[k].notNull)
  }

  lemma {:induction false} InsertFromFlags(ty: Typing, reg: Registry, t: Table, cols: seq<DuckColumn>, n: nat)
    requires n <= |cols| && NamesDiffer(cols) && RegistryOk(reg) && AllTyped(ty, reg.types, cols)
    requires Aligned(ty, reg.types, t.(phys := cols[..n])) && MaxAttnum(t.rows) == n
    requires FlagsOk(t.(phys := cols[..n]), NoMarks(n)) && InsertFrom(ty, reg, t, cols, n).Some?
    ensures FlagsOk(InsertFrom(ty, reg, t, cols, n).value.1, NoMarks(|cols|))
    decreases |cols| - n
  {
    if n == |cols| {
      assert cols[..n] == cols;
    } else {
      var (reg1, t1) := InsertAttribute(ty, reg, t, cols[n], n + 1).value;
      OneMoreRow(ty, reg, t, cols, n);
      OneMoreFlag(ty, reg, t, cols, n);
      InsertFromFlags(ty, reg1, t1, cols, n + 1);
    }
  }

  lemma OneMoreFlag(ty: Typing, reg: Registry, t: Table, cols: seq<DuckColumn>, n: nat)
    requires n < |cols| && RegistryOk(reg) && MaxAttnum(t.rows) == n && FlagsOk(t.(phys := cols[..n]), NoMarks(n))
    requires InsertAttribute(ty, reg, t, cols[n], n + 1).Some?
    ensures FlagsOk(InsertAttribute(ty, reg, t, cols[n], n + 1).value.1.(phys := cols[..n + 1]), NoMarks(n + 1))
  {
    var t1 := InsertAttribute(ty, reg, t, cols[n], n + 1).value.1;
    InsertAtEnd(ty, reg, t, cols[n], n + 1);
    assert cols[..n + 1] == cols[..n] + [cols[n]] && NoMarks(n + 1) == NoMarks(n) + [false];
    AppendFlags(t.(phys := cols[..n]), NoMarks(n), RowFor(ty, reg.types, cols[n], n + 1), cols[n], t1.(phys := cols[..n + 1]));
  }

  lemma CreateOnFlags(ty: Typing, reg: Registry, cols: seq<DuckColumn>)
    requires RegistryOk(reg) && CreateOn(ty, reg, cols).Some?
    ensures FlagsOk(CreateOn(ty, reg, cols).value.1, NoMarks(|cols|)) && CreateOn(ty, reg, cols).value.1.phys == cols
  {
    var reg1 := EnsureAll(ty, reg, cols).value;
    EnsureAllGrows(ty, reg, cols);
    CreateOnIsSound(ty, reg, cols);
    assert EMPTY.phys == cols[..0];
    InsertFromFlags(ty, reg1, EMPTY, cols, 0);
  }

  lemma ReportedFlags(t: Table, defs: seq<ColumnDef>)
    requires t.phys == Filed(defs) && FlagsOk(t, NoMarks(|defs|))
    ensures FlagsOk(t.(phys := Reported(defs)), Undeclared(defs))
  {}

  /// Runs

  /** The change an ALTER of `rel` makes to the table `r`, if any. */
  function ChangeTo(db: Db, rel: int, a: Alter, r: int): Option<Change> {
    if rel !in db.tables || rel !in db.kinds || (a.AddColumn? && ColumnAttnum(db.tables[rel].rows, a.col.name).Some?) then None
    else if db.kinds[rel] == Ordinary && r == rel then OrdinaryChange(db.tables[rel], a)
    else if db.kinds[rel] == Partitioned && rel in db.partitionKey && rel in db.partitions && r in db.partitions[rel] then PartitionChange(Journal(db), rel, a)
    else None
  }

  /** The marks after the change an ALTER makes to one table. */
  function AlterMarks(db: Db, rel: int, a: Alter, r: int, marks: seq<bool>): seq<bool> {
    var c := ChangeTo(db, rel, a, r);
    if c.None? || r !in db.tables then marks else ChangeMarks(Views(db.tables[r].rows), marks, c.value)
  }

  /** The marks of table `r` after one statement. */
  function StepMarks(ty: Typing, db: Db, s: Statement, r: int, marks: seq<bool>): seq<bool> {
    if Apply(ty, db, s).None? then marks
    else match s
      case CreateTable(defs) => if r == db.reg.nextOid then Undeclared(defs) else marks
      case AddPartition(parent, _) =>
        if r == db.reg.nextOid && parent in db.tables then NoMarks(|ActiveRows(db.tables[parent].rows)|) else marks
      case AlterTable(rel, a) => AlterMarks(db, rel, a, r, marks)
      case _ => marks
  }

  /** The marks of table `r` after a run: a column is marked exactly if it was created as a primary key column
      not declared NOT NULL, and has neither been renamed nor retyped since. */
  function RunMarks(ty: Typing, db: Db, ss: seq<Statement>, r: int, marks: seq<bool>): seq<bool>
    decreases |ss|
  {
    if ss == [] then marks else RunMarks(ty, Execute(ty, db, ss[0]), ss[1..], r, StepMarks(ty, db, ss[0], r, marks))
  }

  /** A table that stores rows. */
  ghost predicate IsTable(db: Db, r: int) { r in db.kinds && r in db.tables && db.kinds[r] == Ordinary }

  ghost predicate TableFlags(db: Db, r: int, marks: seq<bool>) { IsTable(db, r) ==> FlagsOk(db.tables[r], marks) }

  lemma NewRelationFlags(ty: Typing, db: Db, cols: seq<DuckColumn>, kind: Kind)
    requires DbOk(ty, db) && NewRelation(ty, db, cols, kind).Some?
    ensures var id, db1 := db.reg.nextOid, NewRelation(ty, db, cols, kind).value;
            id in db1.tables && db1.tables[id].phys == cols && FlagsOk(db1.tables[id], NoMarks(|cols|))
  {
    CreateOnFlags(ty, db.reg.(nextOid := db.reg.nextOid + 3), cols);
  }

  lemma CreateTableFlags(ty: Typing, db: Db, defs: seq<ColumnDef>, r: int, marks: seq<bool>)
    requires DbOk(ty, db) && TableFlags(db, r, marks) && NewTable(ty, db, defs).Some?
    ensures TableFlags(NewTable(ty, db, defs).value, r, if r == db.reg.nextOid then Undeclared(defs) else marks)
  {
    NewTableIsSound(ty, db, defs);
    NewRelationFlags(ty, db, Filed(defs), Ordinary);
    if r == db.reg.nextOid {
      ReportedFlags(NewRelation(ty, db, Filed(defs), Ordinary).value.tables[r], defs);
    } else {
      assert SameAt(db, NewTable(ty, db, defs).value, r);
    }
  }

  lemma CreatePartitionedFlags(ty: Typing, db: Db, defs: seq<ColumnDef>, key: string, r: int, marks: seq<bool>)
    requires DbOk(ty, db) && TableFlags(db, r, marks) && NewPartitioned(ty, db, defs, key).Some?
    ensures TableFlags(NewPartitioned(ty, db, defs, key).value, r, marks)
  {
    NewPartitionedIsOk(ty, db, defs, key);
    if r != db.reg.nextOid {
      assert SameAt(db, NewPartitioned(ty, db, defs, key).value, r);
    }
  }

  lemma AddPartitionFlags(ty: Typing, db: Db, parent: int, at: nat, r: int, marks: seq<bool>)
    requires DbOk(ty, db) && TableFlags(db, r, marks) && NewPartition(ty, db, parent, at).Some?
    ensures parent in db.tables
    ensures TableFlags(NewPartition(ty, db, parent, at).value, r,
                       if r == db.reg.nextOid then NoMarks(|ActiveRows(db.tables[parent].rows)|) else marks)
  {
    var db1 := NewPartition(ty, db, parent, at).value;
    var cols, mid := NewPartitionAttaches(ty, db, parent, at);
    AttachedIsStep(ty, db, parent, cols, at, mid, db1);
    assert RelationOk(ty, db, parent);
    if r == db.reg.nextOid {
      NewRelationFlags(ty, db, cols, Ordinary);
    } else if r == parent {
      NewRelationIsSound(ty, db, cols, Ordinary);
      assert SameAt(db, mid, r);
    } else {
      assert SameAt(db, db1, r);
    }
  }

  lemma ByChangeFlags(ty: Typing, db: Db, rel: int, a: Alter, marks: seq<bool>, db1: Db)
    requires rel in db.tables && RegistryOk(db.reg) && TableOk(ty, db.reg.types, db.tables[rel]) && FlagsOk(db.tables[rel], marks)
    requires ByChange(ty, db, rel, a, db1)
    ensures rel in db1.tables
    ensures FlagsOk(db1.tables[rel], ChangeMarks(Views(db.tables[rel].rows), marks, OrdinaryChange(db.tables[rel], a).value))
  {
    ChangeTableFlags(ty, Journal(db).reg, db.tables[rel], marks, OrdinaryChange(db.tables[rel], a).value);
  }

  lemma NothingFlags(ty: Typing, db: Db, rel: int, a: Alter, marks: seq<bool>)
    requires rel in db.tables && rel in db.kinds && db.kinds[rel] == Ordinary && FindsNothing(db.tables[rel], a)
    requires AlterOrdinary(ty, db, rel, a).Some?
    ensures AlterOrdinary(ty, db, rel, a).value.tables == db.tables && AlterMarks(db, rel, a, rel, marks) == marks
  {}

  lemma AlteredFlags(ty: Typing, db: Db, rel: int, a: Alter, marks: seq<bool>)
    requires rel in db.tables && rel in db.kinds && db.kinds[rel] == Ordinary && RegistryOk(db.reg)
    requires TableOk(ty, db.reg.types, db.tables[rel]) && FlagsOk(db.tables[rel], marks) && AlterOrdinary(ty, db, rel, a).Some?
    ensures rel in AlterOrdinary(ty, db, rel, a).value.tables
    ensures FlagsOk(AlterOrdinary(ty, db, rel, a).value.tables[rel], AlterMarks(db, rel, a, rel, marks))
  {
    if FindsNothing(db.tables[rel], a) {
      NothingFlags(ty, db, rel, a, marks);
    } else {
      AlterOrdinaryIsChange(ty, db, rel, a);
      ByChangeFlags(ty, db, rel, a, marks, AlterOrdinary(ty, db, rel, a).value);
    }
  }

  lemma OrdinaryFlags(ty: Typing, db: Db, rel: int, a: Alter, r: int, marks: seq<bool>)
    requires DbOk(ty, db) && TableFlags(db, r, marks) && rel in db.kinds && rel in db.tables && db.kinds[rel] == Ordinary
    requires rel !in db.internal && AlterOrdinary(ty, db, rel, a).Some?
    ensures TableFlags(AlterOrdinary(ty, db, rel, a).value, r, AlterMarks(db, rel, a, r, marks))
  {
    var db1 := AlterOrdinary(ty, db, rel, a).value;
    assert RelationOk(ty, db, rel);
    AlterOrdinaryKeepsRelation(ty, db, rel, a);
    if r == rel {
      AlteredFlags(ty, db, rel, a, marks);
    } else {
      OtherFlags(db, db1, rel, r, a, marks);
    }
  }

  lemma OtherFlags(db: Db, db1: Db, rel: int, r: int, a: Alter, marks: seq<bool>)
    requires TableFlags(db, r, marks) && r != rel && OnlyTables(db, db1, [rel])
    requires rel in db.kinds && db.kinds[rel] == Ordinary
    ensures TableFlags(db1, r, AlterMarks(db, rel, a, r, marks))
  {}

  /// Partitions

  /** A table the loop does not come to stays as it is. */
  lemma {:induction false} OthersStay(ty: Typing, db: Db, children: seq<int>, c: Change, r: int)
    requires ChangeChildren(ty, db, children, c).Some? && r in db.tables && r !in children
    ensures r in ChangeChildren(ty, db, children, c).value.tables && ChangeChildren(ty, db, children, c).value.tables[r] == db.tables[r]
    decreases |children|
  {
    if children != [] {
      var (reg1, t1) := ChangeTable(ty, db.reg, db.tables[children[0]], c).value;
      OthersStay(ty, Put(db, children[0], reg1, t1), children[1..], c, r);
    }
  }

  lemma HeadFlags(ty: Typing, db: Db, children: seq<int>, c: Change, marks: seq<bool>)
    requires children != [] && children[0] in db.tables && RegistryOk(db.reg) && Distinct(children)
    requires AllReady(ty, db, children, c) && FlagsOk(db.tables[children[0]], marks) && ChangeChildren(ty, db, children, c).Some?
    ensures children[0] in ChangeChildren(ty, db, children, c).value.tables
    ensures FlagsOk(ChangeChildren(ty, db, children, c).value.tables[children[0]], ChangeMarks(Views(db.tables[children[0]].rows), marks, c))
  {
    var (reg1, t1) := ChangeTable(ty, db.reg, db.tables[children[0]], c).value;
    assert Ready(ty, db, children[0], c);
    ChangeTableFlags(ty, db.reg, db.tables[children[0]], marks, c);
    OthersStay(ty, Put(db, children[0], reg1, t1), children[1..], c, children[0]);
  }

  /** Each partition changes on its own. */
  lemma {:induction false} ChangeChildrenFlags(ty: Typing, db: Db, children: seq<int>, c: Change, child: int, marks: seq<bool>)
    requires RegistryOk(db.reg) && Distinct(children) && ChangeChildren(ty, db, children, c).Some?
    requires AllReady(ty, db, children, c) && child in children && child in db.tables && FlagsOk(db.tables[child], marks)
    ensures child in ChangeChildren(ty, db, children, c).value.tables
    ensures FlagsOk(ChangeChildren(ty, db, children, c).value.tables[child], ChangeMarks(Views(db.tables[child].rows), marks, c))
    decreases |children|
  {
    if child == children[0] {
      HeadFlags(ty, db, children, c, marks);
    } else {
      var (reg1, t1) := ChangeTable(ty, db.reg, db.tables[children[0]], c).value;
      FirstChanges(ty, db, children, c, reg1, t1);
      ChangeChildrenFlags(ty, Put(db, children[0], reg1, t1), children[1..], c, child, marks);
    }
  }

  lemma ChildrenReady(ty: Typing, db: Db, p: int, c: Change)
    requires DbOk(ty, db) && p in db.partitions && p in db.tables && (c.Add? ==> c.attnum == MaxAttnum(db.tables[p].rows) + 1)
    ensures AllReady(ty, db, db.partitions[p], c) && Distinct(db.partitions[p])
  {
    PartitionsAreApart(ty, db, p);
    var children := db.partitions[p];
    forall i | 0 <= i < |children|
      ensures Ready(ty, db, children[i], c)
    {
      assert children[i] in children;
    }
  }

  lemma PartitionsFlags(ty: Typing, db: Db, p: int, a: Alter, r: int, marks: seq<bool>)
    requires DbOk(ty, db) && p in db.partitions && p in db.tables && p in db.partitionKey && AlterPartitions(ty, db, p, a).Some?
    requires r in db.partitions[p] && r in db.tables && FlagsOk(db.tables[r], marks)
    ensures r in AlterPartitions(ty, db, p, a).value.tables && PartitionChange(db, p, a).Some?
    ensures FlagsOk(AlterPartitions(ty, db, p, a).value.tables[r], ChangeMarks(Views(db.tables[r].rows), marks, PartitionChange(db, p, a).value))
  {
    var c := PartitionChange(db, p, a).value;
    PartitionsAreApart(ty, db, p);
    ChildrenReady(ty, db, p, c);
    ChangeChildrenFlags(ty, db, db.partitions[p], c, r, marks);
    var mid := ChangeChildren(ty, db, db.partitions[p], c).value;
    FinishKeepsOthers(ty, mid, p, db.partitions[p][0], db.partitionKey[p], a, r);
  }

  lemma FinishKeepsOthers(ty: Typing, mid: Db, parent: int, child: int, key: string, a: Alter, r: int)
    requires FinishParent(ty, mid, parent, child, key, a).Some? && r != parent && r in mid.tables
    ensures var db1 := FinishParent(ty, mid, parent, child, key, a).value; r in db1.tables && db1.tables[r] == mid.tables[r]
  {}

  lemma OtherTablesStay(ty: Typing, db: Db, p: int, a: Alter, r: int)
    requires DbOk(ty, db) && p in db.partitions && p in db.tables && p in db.partitionKey && AlterPartitions(ty, db, p, a).Some?
    requires r != p && r !in db.partitions[p] && r in db.tables
    ensures r in AlterPartitions(ty, db, p, a).value.tables && AlterPartitions(ty, db, p, a).value.tables[r] == db.tables[r]
  {
    var c := PartitionChange(db, p, a).value;
    OthersStay(ty, db, db.partitions[p], c, r);
    var mid := ChangeChildren(ty, db, db.partitions[p], c).value;
    FinishKeepsOthers(ty, mid, p, db.partitions[p][0], db.partitionKey[p], a, r);
  }

  /** ALTER of a partitioned table changes its partitions; `db` has the journal row already. */
  lemma PartitionedFlags(ty: Typing, db: Db, p: int, a: Alter, r: int, marks: seq<bool>)
    requires DbOk(ty, db) && p in db.partitions && p in db.tables && p in db.partitionKey && AlterPartitions(ty, db, p, a).Some?
    requires IsTable(db, r) && FlagsOk(db.tables[r], marks)
    ensures r in AlterPartitions(ty, db, p, a).value.tables && PartitionChange(db, p, a).Some?
    ensures FlagsOk(AlterPartitions(ty, db, p, a).value.tables[r],
                    if r in db.partitions[p] then ChangeMarks(Views(db.tables[r].rows), marks, PartitionChange(db, p, a).value) else marks)
  {
    assert RelationOk(ty, db, p);
    if r in db.partitions[p] {
      PartitionsFlags(ty, db, p, a, r, marks);
    } else {
      OtherTablesStay(ty, db, p, a, r);
    }
  }

  lemma {:induction false} AlterPartitionsKeepsKinds(ty: Typing, db: Db, p: int, a: Alter)
    requires DbOk(ty, db) && p in db.partitions && p in db.tables && p in db.partitionKey && AlterPartitions(ty, db, p, a).Some?
    ensures AlterPartitions(ty, db, p, a).value.kinds == db.kinds && AlterPartitions(ty, db, p, a).value.tables.Keys == db.tables.Keys
  {
    var c, mid, reg1, t1 := AlterPartitionsComesAbout(ty, db, p, a);
  }

  lemma AlterPartitionsFlags(ty: Typing, db: Db, p: int, a: Alter, r: int, marks: seq<bool>)
    requires DbOk(ty, db) && p in db.partitions && p in db.tables && p in db.partitionKey && p in db.kinds && db.kinds[p] == Partitioned
    requires TableFlags(db, r, marks) && AlterPartitions(ty, db, p, a).Some?
    ensures PartitionChange(db, p, a).Some?
    ensures TableFlags(AlterPartitions(ty, db, p, a).value, r,
                       if r in db.partitions[p] && r in db.tables then ChangeMarks(Views(db.tables[r].rows), marks, PartitionChange(db, p, a).value) else marks)
  {
    AlterPartitionsKeepsKinds(ty, db, p, a);
    assert r in AlterPartitions(ty, db, p, a).value.tables <==> r in db.tables.Keys;
    if IsTable(db, r) {
      PartitionedFlags(ty, db, p, a, r, marks);
    }
  }

  lemma NothingPartitionedFlags(ty: Typing, db: Db, p: int, a: Alter, r: int, marks: seq<bool>)
    requires TableFlags(db, r, marks) && p in db.kinds && db.kinds[p] == Partitioned
    requires p in db.partitions && p in db.tables && p in db.partitionKey && FindsNothing(db.tables[p], a)
    requires AlterPartitioned(ty, db, p, a).Some?
    ensures AlterMarks(db, p, a, r, marks) == marks && TableFlags(AlterPartitioned(ty, db, p, a).value, r, marks)
  {}

  lemma MarksOfPartition(db: Db, p: int, a: Alter, r: int, marks: seq<bool>)
    requires p in db.kinds && db.kinds[p] == Partitioned && p in db.partitions && p in db.tables && p in db.partitionKey
    requires !FindsNothing(db.tables[p], a) && PartitionChange(Journal(db), p, a).Some?
    ensures AlterMarks(db, p, a, r, marks) ==
            if r in db.partitions[p] && r in db.tables
              then ChangeMarks(Views(db.tables[r].rows), marks, PartitionChange(Journal(db), p, a).value) else marks
  {}

  lemma JournaledFlags(ty: Typing, db: Db, p: int, a: Alter, r: int, marks: seq<bool>)
    requires DbOk(ty, db) && TableFlags(db, r, marks) && p in db.kinds && db.kinds[p] == Partitioned
    requires p in db.partitions && p in db.tables && p in db.partitionKey && !FindsNothing(db.tables[p], a)
    requires AlterPartitions(ty, Journal(db), p, a).Some?
    ensures TableFlags(AlterPartitions(ty, Journal(db), p, a).value, r, AlterMarks(db, p, a, r, marks))
  {
    JournalKeepsDb(ty, db);
    AlterPartitionsFlags(ty, Journal(db), p, a, r, marks);
    MarksOfPartition(db, p, a, r, marks);
  }

  lemma AlterPartitionedFlags(ty: Typing, db: Db, p: int, a: Alter, r: int, marks: seq<bool>)
    requires DbOk(ty, db) && p in db.partitions && p in db.tables && p in db.partitionKey && p in db.kinds && db.kinds[p] == Partitioned
    requires TableFlags(db, r, marks) && AlterPartitioned(ty, db, p, a).Some?
    ensures TableFlags(AlterPartitioned(ty, db, p, a).value, r, AlterMarks(db, p, a, r, marks))
  {
    if FindsNothing(db.tables[p], a) {
      NothingPartitionedFlags(ty, db, p, a, r, marks);
    } else {
      JournaledFlags(ty, db, p, a, r, marks);
    }
  }

  lemma AlterFlags(ty: Typing, db: Db, rel: int, a: Alter, r: int, marks: seq<bool>)
    requires DbOk(ty, db) && TableFlags(db, r, marks) && AlterRelation(ty, db, rel, a).Some?
    ensures TableFlags(AlterRelation(ty, db, rel, a).value, r, AlterMarks(db, rel, a, r, marks))
  {
    assert RelationOk(ty, db, rel);
    if db.kinds[rel] == Ordinary {
      OrdinaryFlags(ty, db, rel, a, r, marks);
    } else {
      AlterPartitionedFlags(ty, db, rel, a, r, marks);
    }
  }

  /// Whole runs

  lemma StepFlags(ty: Typing, db: Db, s: Statement, r: int, marks: seq<bool>)
    requires DbOk(ty, db) && TableFlags(db, r, marks)
    ensures TableFlags(Execute(ty, db, s), r, StepMarks(ty, db, s, r, marks))
  {
    if Apply(ty, db, s).Some? {
      match s
      case CreateTable(defs) => CreateTableFlags(ty, db, defs, r, marks);
      case CreatePartitioned(defs, key) => CreatePartitionedFlags(ty, db, defs, key, r, marks);
      case AddPartition(parent, at) => AddPartitionFlags(ty, db, parent, at, r, marks);
      case CreateKey(_, _, _) =>
      case DropTable(rel) => DropIsFrame(db, rel);
      case AlterTable(rel, a) => AlterFlags(ty, db, rel, a, r, marks);
    }
  }

  lemma {:induction false} RunFlags(ty: Typing, db: Db, ss: seq<Statement>, r: int, marks: seq<bool>)
    requires DbOk(ty, db) && TableFlags(db, r, marks)
    ensures TableFlags(Run(ty, db, ss), r, RunMarks(ty, db, ss, r, marks))
    decreases |ss|
  {
    if ss != [] {
      ExecuteKeepsDb(ty, db, ss[0]);
      StepFlags(ty, db, ss[0], r, marks);
      RunFlags(ty, Execute(ty, db, ss[0]), ss[1..], r, StepMarks(ty, db, ss[0], r, marks));
    }
  }

  /** After any run, for every table that stores rows: the catalog demands NOT NULL only where DuckDB does, and
      the two differ exactly in the marked columns. */
  lemma NotNullDiffersIffMarked(ty: Typing, ss: seq<Statement>, rel: int, k: nat)
    requires var db := Run(ty, NO_RELATIONS, ss); IsTable(db, rel) && k < |db.tables[rel].phys|
    ensures var t, marks := Run(ty, NO_RELATIONS, ss).tables[rel], RunMarks(ty, NO_RELATIONS, ss, rel, []);
            && |ActiveRows(t.rows)| == |t.phys| == |marks|
            && (ActiveRows(t.rows)[k].notNull ==> t.phys[k].notNull)
            && (ActiveRows(t.rows)[k].notNull != t.phys[k].notNull <==> marks[k])
  {
    assert DbOk(ty, NO_RELATIONS);
    RunFlags(ty, NO_RELATIONS, ss, rel, []);
  }

  /// When nothing is marked

  /** Every CREATE TABLE spells NOT NULL on the columns of its primary key. */
  predicate Declares(s: Statement) {
    s.CreateTable? ==> forall k :: 0 <= k < |s.defs| ==> s.defs[k].primaryKey ==> s.defs[k].notNull
  }

  predicate Unmarked(marks: seq<bool>) { forall k :: 0 <= k < |marks| ==> !marks[k] }

  lemma {:induction false} RemoveKeepsUnmarked(vs: seq<View>, marks: seq<bool>, names: seq<string>)
    requires Unmarked(marks)
    ensures Unmarked(RemoveMarks(vs, marks, names))
    decreases |names|
  {
    if names != [] {
      var k := IndexOfName(vs, Lower(names[0]));
      if k.Some? && k.value < |marks| {
        RemoveKeepsUnmarked(Remove(vs, k.value), Remove(marks, k.value), names[1..]);
      }
    }
  }

  lemma ChangeKeepsUnmarked(vs: seq<View>, marks: seq<bool>, c: Change)
    requires Unmarked(marks)
    ensures Unmarked(ChangeMarks(vs, marks, c))
  {
    if c.Drop? {
      RemoveKeepsUnmarked(vs, marks, c.names);
    }
  }

  /** Declared primary keys are never marked. */
  lemma {:induction false} DeclaredIsUnmarked(ty: Typing, db: Db, ss: seq<Statement>, r: int, marks: seq<bool>)
    requires Unmarked(marks) && forall i :: 0 <= i < |ss| ==> Declares(ss[i])
    ensures Unmarked(RunMarks(ty, db, ss, r, marks))
    decreases |ss|
  {
    if ss != [] {
      var next := StepMarks(ty, db, ss[0], r, marks);
      assert Declares(ss[0]);
      if ss[0].AlterTable? && ChangeTo(db, ss[0].rel, ss[0].alter, r).Some? && r in db.tables {
        ChangeKeepsUnmarked(Views(db.tables[r].rows), marks, ChangeTo(db, ss[0].rel, ss[0].alter, r).value);
      }
      assert Unmarked(next);
      assert forall i :: 0 <= i < |ss[1..]| ==> ss[1..][i] == ss[i + 1];
      DeclaredIsUnmarked(ty, Execute(ty, db, ss[0]), ss[1..], r, next);
    }
  }

  /// An input where the flags differ

  lemma CreateOne(ty: Typing, reg: Registry, col: DuckColumn)
    requires ty.scalarId(col.duckType).Some? && col.default.None?
    ensures CreateOn(ty, reg, [col]).Some?
  {
    var cols := [col];
    assert cols[1..] == [];
    assert EnsureAll(ty, reg, cols) == Some(reg);
    var row := RowFor(ty, reg.types, col, 1);
    var t1 := EMPTY.(rows := [row]);
    assert InsertAttribute(ty, reg, EMPTY, col, 1) == Some((reg, t1));
    assert InsertFrom(ty, reg, t1, cols, 1).Some?;
    assert InsertFrom(ty, reg, EMPTY, cols, 0) == InsertFrom(ty, reg, t1, cols, 1);
  }

  lemma OneColumnTable(ty: Typing, def: ColumnDef)
    requires ty.scalarId(def.duckType).Some? && def.default.None?
    ensures var db := Run(ty, NO_RELATIONS, [CreateTable([def])]);
            IsTable(db, FIRST_USER_OID) && db.tables[FIRST_USER_OID].phys == Reported([def])
    ensures RunMarks(ty, NO_RELATIONS, [CreateTable([def])], FIRST_USER_OID, []) == Undeclared([def])
  {
    var create, reg := CreateTable([def]), Registry(map[], FIRST_USER_OID + 3);
    CreateOne(ty, reg, Filed([def])[0]);
    assert Filed([def]) == [Filed([def])[0]];
    assert [create][1..] == [];
    assert Run(ty, NO_RELATIONS, [create]) == Run(ty, Execute(ty, NO_RELATIONS, create), []);
    assert StepMarks(ty, NO_RELATIONS, create, FIRST_USER_OID, []) == Undeclared([def]);
  }

  /** `CREATE TABLE t (id BIGINT PRIMARY KEY)`: DuckDB enforces NOT NULL, the catalog has it as nullable. */
  lemma UndeclaredPrimaryKey(ty: Typing)
    requires ty.scalarId("BIGINT").Some?
    ensures var create := CreateTable([ColumnDef("id", "BIGINT", false, true, None)]);
            var db := Run(ty, NO_RELATIONS, [create]);
            && IsTable(db, FIRST_USER_OID) && |db.tables[FIRST_USER_OID].phys| == 1 && |ActiveRows(db.tables[FIRST_USER_OID].rows)| == 1
            && db.tables[FIRST_USER_OID].phys[0].notNull && !ActiveRows(db.tables[FIRST_USER_OID].rows)[0].notNull
  {
    var def := ColumnDef("id", "BIGINT", false, true, None);
    OneColumnTable(ty, def);
    NotNullDiffersIffMarked(ty, [CreateTable([def])], FIRST_USER_OID, 0);
  }
}
