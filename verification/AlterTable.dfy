/** ALTER TABLE on ordinary and partitioned tables: what each statement leaves in the catalog and in DuckDB. */
module AlterTable {
  import opened Text
  import opened TableColumns
  import opened TableChanges
  import opened KeyLists

  datatype Alter =
    | AddColumn(col: DuckColumn, ifNotExists: bool)
    | DropColumns(names: seq<string>, ifExists: bool)
    | RenameColumn(old_: string, new_: string)
    | SetType(name: string, duckType: string)

  /// Statement semantics; `None` is a statement that fails and is rolled back

  type Target = (string, int)

  /** `drop_column_targets`: each name with the attnum of its active column. */
  function TargetsOf(rows: seq<ColumnRow>, names: seq<string>, ifExists: bool): Option<seq<Target>> {
    if names == [] then Some([])
    else
      var attnum, rest := ColumnAttnum(rows, names[0]), TargetsOf(rows, names[1..], ifExists);
      if rest.None? || (attnum.None? && !ifExists) then None
      else if attnum.None? then rest
      else Some([(names[0], attnum.value)] + rest.value)
  }

  function TargetNames(targets: seq<Target>): (r: seq<string>)
    ensures |r| == |targets| && forall i :: 0 <= i < |r| ==> r[i] == targets[i].0
  {
    seq(|targets|, i requires 0 <= i < |targets| => targets[i].0)
  }

  /** `ensure_column_can_drop`: no key list of the relation mentions the attnum. */
  predicate CanDrop(keys: seq<Key>, rel: int, attnum: int) {
    forall i :: 0 <= i < |keys| && keys[i].relid == rel ==> !ListContains(keys[i].attnums, attnum)
  }

  predicate CanDropAll(keys: seq<Key>, rel: int, targets: seq<Target>) {
    forall i :: 0 <= i < |targets| ==> CanDrop(keys, rel, targets[i].1)
  }

  function DropTargets(t: Table, targets: seq<Target>): Option<Table>
    decreases |targets|
  {
    if targets == [] then Some(t)
    else match DropOn(t, targets[0].0, targets[0].1)
      case None => None
      case Some(t1) => DropTargets(t1, targets[1..])
  }

  function MarkAll(t: Table, targets: seq<Target>): Table
    decreases |targets|
  {
    if targets == [] then t else MarkAll(MarkDropped(t, targets[0].1), targets[1..])
  }

  /** `insert_journal` takes one id from the allocator. */
  function Journal(db: Db): Db { db.(reg := db.reg.(nextOid := db.reg.nextOid + 1)) }

  predicate HasDependents(db: Db, rel: int) { exists d <- db.deps :: d.1 == rel }

  function WithTable(db: Db, rel: int, r: Option<(Registry, Table)>): Option<Db> {
    match r
    case None => None
    case Some((reg, t)) => Some(Put(db, rel, reg, t))
  }

  /** The checks a rename makes before touching DuckDB. */
  predicate CanRename(db: Db, rel: int, old_: string, new_: string)
    requires rel in db.tables
  {
    && !EqIgnoreCase(old_, new_)
    && ColumnAttnum(db.tables[rel].rows, old_).Some?
    && ColumnAttnum(db.tables[rel].rows, new_).None?
    && !HasDependents(db, rel)
  }

  predicate CanRetype(db: Db, rel: int, name: string)
    requires rel in db.tables
  {
    ColumnAttnum(db.tables[rel].rows, name).Some? && !HasDependents(db, rel)
  }

  function AlterOrdinary(ty: Typing, db: Db, rel: int, a: Alter): Option<Db>
    requires rel in db.tables
  {
    var t := db.tables[rel];
    match a
    case AddColumn(col, ifNotExists) =>
      if ColumnAttnum(t.rows, col.name).Some? then (if ifNotExists then Some(db) else None)
      else var j := Journal(db); WithTable(j, rel, AddOn(ty, j.reg, t, col, MaxAttnum(t.rows) + 1))
    case DropColumns(names, ifExists) =>
      var j, targets := Journal(db), TargetsOf(t.rows, names, ifExists);
      if names == [] || targets.None? then None
      else if targets.value == [] then Some(j)
      else if !CanDropAll(db.keys, rel, targets.value) then None
      else
        var t1 := DropTargets(t, targets.value);
        if t1.None? then None else Some(Put(j, rel, j.reg, SetRelnatts(t1.value)))
    case RenameColumn(old_, new_) =>
      var j := Journal(db);
      if !CanRename(db, rel, old_, new_) then None
      else WithTable(j, rel, RenameOn(ty, j.reg, t, old_, new_, ColumnAttnum(t.rows, old_).value))
    case SetType(name, duckType) =>
      var j := Journal(db);
      if !CanRetype(db, rel, name) then None
      else WithTable(j, rel, SetTypeOn(ty, j.reg, t, name, duckType, ColumnAttnum(t.rows, name).value))
  }

  /** The dependency rows from a partitioned table to its partitions. */
  function Edges(parent: int, children: seq<int>): (r: set<(int, int)>)
    ensures forall a, b :: (a, b) in r <==> a == parent && b in children
  {
    set c <- children :: (parent, c)
  }

  function OtherEdges(deps: set<(int, int)>, parent: int): set<(int, int)> { set d <- deps | d.0 != parent }

  predicate AllThere(db: Db, rels: seq<int>) { forall i :: 0 <= i < |rels| ==> rels[i] in db.tables }

  function PhysOf(db: Db, rels: seq<int>): (r: seq<seq<DuckColumn>>)
    requires AllThere(db, rels)
    ensures |r| == |rels| && forall i :: 0 <= i < |r| ==> r[i] == db.tables[rels[i]].phys
  {
    seq(|rels|, i requires 0 <= i < |rels| => db.tables[rels[i]].phys)
  }

  /** The view over the partitions; `None` when there is none or DuckDB cannot unite their columns. */
  function EntryColumns(ty: Typing, db: Db, children: seq<int>): (r: Option<seq<DuckColumn>>)
    ensures r.Some? ==> children != [] && children[0] in db.tables && ShowsColumns(r.value, db.tables[children[0]].phys)
  {
    if children == [] || !AllThere(db, children) then None else UnionColumns(ty, PhysOf(db, children))
  }

  /** `refresh_partition_entrypoint`: rebuild the view, then the parent's dependency rows. */
  function Refresh(ty: Typing, db: Db, parent: int): Option<Db> {
    if parent !in db.tables || parent !in db.partitions then None
    else match EntryColumns(ty, db, db.partitions[parent])
      case None => None
      case Some(cols) =>
        Some(db.(tables := db.tables[parent := db.tables[parent].(phys := cols)],
                 deps := OtherEdges(db.deps, parent) + Edges(parent, db.partitions[parent])))
  }

  const RENAME_TO: string -> ColumnRow -> ColumnRow := (name: string) => (r: ColumnRow) => r.(name := name)

  function AddToParent(ty: Typing, reg: Registry, t: Table, col: DuckColumn): Option<(Registry, Table)> {
    var r := InsertAttribute(ty, reg, t, col, MaxAttnum(t.rows) + 1);
    if r.None? then None else Some((r.value.0, SetRelnatts(r.value.1)))
  }

  /** What the statement does to the partitioned table's own catalog rows after its partitions
      changed; `child` is the first partition. */
  function AlterParent(ty: Typing, reg: Registry, t: Table, child: Table, a: Alter): Option<(Registry, Table)> {
    match a
    case AddColumn(col, _) => AddToParent(ty, reg, t, col)
    case DropColumns(names, ifExists) =>
      var targets := TargetsOf(t.rows, names, ifExists);
      if targets.None? then None else Some((reg, SetRelnatts(MarkAll(t, targets.value))))
    case RenameColumn(old_, new_) =>
      var attnum := ColumnAttnum(t.rows, old_);
      if attnum.None? then None
      else Some((reg, t.(rows := UpdateRow(t.rows, attnum.value, RENAME_TO(new_)))))
    case SetType(name, _) =>
      var attnum, i := ColumnAttnum(t.rows, name), PhysIndex(child.phys, name);
      if attnum.None? || i.None? then None else Sync(ty, reg, t, attnum.value, child.phys[i.value], name)
  }

  /** The change the statement makes to every partition, when its checks pass. */
  function PartitionChange(db: Db, parent: int, a: Alter): Option<Change>
    requires parent in db.tables && parent in db.partitionKey
  {
    var t, key := db.tables[parent], db.partitionKey[parent];
    match a
    case AddColumn(col, _) => Some(Add(col, MaxAttnum(t.rows) + 1))
    case DropColumns(names, ifExists) =>
      var targets := TargetsOf(t.rows, names, ifExists);
      if targets.None? || !CanDropAll(db.keys, parent, targets.value) then None
      else if exists i :: 0 <= i < |targets.value| && EqIgnoreCase(targets.value[i].0, key) then None
      else Some(Drop(TargetNames(targets.value)))
    case RenameColumn(old_, new_) => if CanRename(db, parent, old_, new_) then Some(Rename(old_, new_)) else None
    case SetType(name, duckType) =>
      if CanRetype(db, parent, name) && !EqIgnoreCase(name, key) then Some(Retype(name, duckType)) else None
  }

  function NewKey(key: string, a: Alter): string {
    if a.RenameColumn? && EqIgnoreCase(a.old_, key) then a.new_ else key
  }

  /** The parent's own rows, its partition key and its entrypoint, after the partitions changed to `mid`. */
  function FinishParent(ty: Typing, mid: Db, parent: int, child: int, key: string, a: Alter): Option<Db> {
    if parent !in mid.tables || child !in mid.tables then None
    else
      var r := AlterParent(ty, mid.reg, mid.tables[parent], mid.tables[child], a);
      if r.None? then None
      else Refresh(ty, Put(mid, parent, r.value.0, r.value.1).(partitionKey := mid.partitionKey[parent := NewKey(key, a)]), parent)
  }

  function AlterPartitions(ty: Typing, db: Db, parent: int, a: Alter): Option<Db>
    requires parent in db.tables && parent in db.partitionKey && parent in db.partitions
  {
    var children, change := db.partitions[parent], PartitionChange(db, parent, a);
    if children == [] || change.None? then None
    else
      var mid := ChangeChildren(ty, db, children, change.value);
      if mid.None? then None else FinishParent(ty, mid.value, parent, children[0], db.partitionKey[parent], a)
  }

  function AlterPartitioned(ty: Typing, db: Db, parent: int, a: Alter): Option<Db>
    requires parent in db.tables && parent in db.partitionKey && parent in db.partitions
  {
    var t, j := db.tables[parent], Journal(db);
    if a.AddColumn? && ColumnAttnum(t.rows, a.col.name).Some? then (if a.ifNotExists then Some(db) else None)
    else if a.DropColumns? && a.names == [] then None
    else if a.DropColumns? && TargetsOf(t.rows, a.names, a.ifExists) == Some([]) then Some(j)
    else AlterPartitions(ty, j, parent, a)
  }

  /** `alter_table_relation` */
  function AlterRelation(ty: Typing, db: Db, rel: int, a: Alter): Option<Db> {
    if rel !in db.kinds || rel !in db.tables || rel in db.internal then None
    else match db.kinds[rel]
      case Ordinary => AlterOrdinary(ty, db, rel, a)
      case Partitioned =>
        if rel in db.partitionKey && rel in db.partitions then AlterPartitioned(ty, db, rel, a) else None
      case OtherKind => None
  }

  /// Invariants

  /** The key list is rendered from attnums of active columns. */
  ghost predicate KeyOk(rows: seq<ColumnRow>, list: string) {
    exists attnums: seq<nat> ::
      InRange(attnums) && list == JoinAttnums(attnums) && forall i :: 0 <= i < |attnums| ==> attnums[i] in ActiveAttnums(rows)
  }

  /** The entrypoint view shows the parent's columns, their names up to case. */
  ghost predicate EntryOk(cols: seq<DuckColumn>, vs: seq<View>) {
    |cols| == |vs| && forall i :: 0 <= i < |cols| ==> Lower(cols[i].name) == vs[i].name
  }

  /** The same columns in the same order, with a default in the same places. Types may differ: a partition is
      created from the type texts the catalog prints. */
  ghost predicate Alike(a: seq<View>, b: seq<View>) {
    |a| == |b| && forall i :: 0 <= i < |a| ==> a[i].name == b[i].name && a[i].hasDef == b[i].hasDef
  }

  ghost predicate ParentOk(t: Table) {
    && Ascending(t.rows) && UniqueNames(Views(t.rows)) && t.natts == |Views(t.rows)|
    && DefaultsOk(ActiveAttnums(t.rows), Views(t.rows), t.defaults)
  }

  /** A partitioned table: every partition has its columns, no partition numbers a column above the
      parent's largest attnum, and the partition key names an active column. */
  ghost predicate PartitionOk(db: Db, p: int) {
    && p in db.tables && p in db.partitions && p in db.partitionKey && p !in db.internal
    && var t, children := db.tables[p], db.partitions[p];
       && ParentOk(t)
       && IndexOfName(Views(t.rows), Lower(db.partitionKey[p])).Some?
       && EntryOk(t.phys, Views(t.rows))
       && Distinct(children)
       && (forall c <- children ::
             && c in db.internal && c in db.kinds && db.kinds[c] == Ordinary && c in db.tables
             && Alike(Views(db.tables[c].rows), Views(t.rows))
             && MaxAttnum(db.tables[c].rows) <= MaxAttnum(t.rows))
  }

  /// Drop targets stay valid while earlier targets are dropped

  /** `b` is `a` with some rows dropped. */
  ghost predicate SomeDropped(a: seq<ColumnRow>, b: seq<ColumnRow>) {
    && |a| == |b|
    && forall i :: 0 <= i < |a| ==> b[i] == a[i] || (b[i].dropped && b[i].attnum == a[i].attnum)
  }

  lemma {:induction false} ActiveRowHasView(rows: seq<ColumnRow>, i: nat) returns (k: nat)
    requires i < |rows| && !rows[i].dropped
    ensures k < |Views(rows)| && Views(rows)[k] == RowView(rows[i]) && ActiveAttnums(rows)[k] == rows[i].attnum
  {
    if i == 0 {
      k := 0;
    } else {
      k := ActiveRowHasView(rows[1..], i - 1);
      k := if rows[0].dropped then k else k + 1;
    }
  }

  lemma TargetStaysNamed(rows0: seq<ColumnRow>, rows: seq<ColumnRow>, name: string, attnum: int)
    requires SomeDropped(rows0, rows) && UniqueNames(Views(rows0)) && ColumnAttnum(rows0, name) == Some(attnum)
    requires IndexOfName(Views(rows), Lower(name)).Some?
    ensures ColumnAttnum(rows, name) == Some(attnum)
  {
    var k := IndexOfName(Views(rows), Lower(name)).value;
    var i := ActiveAttnumsAreRows(rows, k);
    var k0 := ActiveRowHasView(rows0, i);
    var j := IndexOfName(Views(rows0), Lower(name)).value;
    assert Views(rows0)[k0].name == Views(rows0)[j].name;
    assert k0 == j;
  }

  ghost predicate TargetsOn(rows: seq<ColumnRow>, targets: seq<Target>) {
    forall i :: 0 <= i < |targets| ==> ColumnAttnum(rows, targets[i].0) == Some(targets[i].1)
  }

  lemma {:induction false} TargetsOfAreOn(rows: seq<ColumnRow>, names: seq<string>, ifExists: bool)
    requires TargetsOf(rows, names, ifExists).Some?
    ensures TargetsOn(rows, TargetsOf(rows, names, ifExists).value)
  {
    if names != [] {
      TargetsOfAreOn(rows, names[1..], ifExists);
    }
  }

  lemma FirstTarget(rows: seq<ColumnRow>, targets: seq<Target>)
    requires targets != [] && TargetsOn(rows, targets)
    ensures TargetsOn(rows, targets[1..]) && ColumnAttnum(rows, targets[0].0) == Some(targets[0].1)
    ensures TargetNames(targets) != [] && TargetNames(targets)[0] == targets[0].0
    ensures TargetNames(targets)[1..] == TargetNames(targets[1..])
  {
    assert forall i :: 0 <= i < |targets[1..]| ==> targets[1..][i] == targets[i + 1];
  }

  lemma DropIsSomeDropped(rows0: seq<ColumnRow>, rows: seq<ColumnRow>, attnum: int)
    requires SomeDropped(rows0, rows)
    ensures SomeDropped(rows0, UpdateRow(rows, attnum, DROP))
  {}

  /** Dropping by the attnums looked up beforehand is dropping by name one after the other. */
  lemma {:induction false} DropTargetsIsDropNames(ty: Typing, types: map<string, int>, rows0: seq<ColumnRow>, t: Table, targets: seq<Target>)
    requires Aligned(ty, types, t) && SomeDropped(rows0, t.rows) && UniqueNames(Views(rows0)) && TargetsOn(rows0, targets)
    requires DropTargets(t, targets).Some?
    ensures DropNames(t, TargetNames(targets)) == DropTargets(t, targets)
    ensures DropTargets(t, targets).value.rows == MarkAll(t, targets).rows
    decreases |targets|
  {
    if targets != [] {
      var t1 := DropOn(t, targets[0].0, targets[0].1).value;
      FirstTarget(rows0, targets);
      FirstDrop(ty, types, rows0, t, targets[0].0, targets[0].1);
      DropTargetsIsDropNames(ty, types, rows0, t1, targets[1..]);
      MarkAllSameRows(t1, MarkDropped(t, targets[0].1), targets[1..]);
    }
  }

  lemma FirstDrop(ty: Typing, types: map<string, int>, rows0: seq<ColumnRow>, t: Table, name: string, attnum: int)
    requires Aligned(ty, types, t) && SomeDropped(rows0, t.rows) && UniqueNames(Views(rows0)) && ColumnAttnum(rows0, name) == Some(attnum)
    requires DropOn(t, name, attnum).Some?
    ensures var t1 := DropOn(t, name, attnum).value;
            && Aligned(ty, types, t1) && SomeDropped(rows0, t1.rows) && t1.rows == MarkDropped(t, attnum).rows
            && ColumnAttnum(t.rows, name) == Some(attnum)
  {
    PhysIndexIsViewIndex(ty, types, t.phys, name);
    TargetStaysNamed(rows0, t.rows, name, attnum);
    DropOnKeepsTable(ty, types, t, name, attnum);
    DropIsSomeDropped(rows0, t.rows, attnum);
  }

  lemma {:induction false} MarkAllSameRows(a: Table, b: Table, targets: seq<Target>)
    requires a.rows == b.rows
    ensures MarkAll(a, targets).rows == MarkAll(b, targets).rows
    decreases |targets|
  {
    if targets != [] {
      MarkAllSameRows(MarkDropped(a, targets[0].1), MarkDropped(b, targets[0].1), targets[1..]);
    }
  }

  /** A partitioned table's own rows, as far as drops are concerned. */
  ghost predicate Droppable(rows0: seq<ColumnRow>, t: Table) {
    && Ascending(t.rows) && SomeDropped(rows0, t.rows) && UniqueNames(Views(rows0)) && UniqueNames(Views(t.rows))
    && DefaultsOk(ActiveAttnums(t.rows), Views(t.rows), t.defaults)
  }

  lemma MarkOneRemovesName(rows0: seq<ColumnRow>, t: Table, name: string, attnum: int)
    requires Droppable(rows0, t) && ColumnAttnum(rows0, name) == Some(attnum)
    requires IndexOfName(Views(t.rows), Lower(name)).Some?
    ensures var t1 := MarkDropped(t, attnum);
            && Droppable(rows0, t1)
            && Views(t1.rows) == Remove(Views(t.rows), IndexOfName(Views(t.rows), Lower(name)).value)
            && NumbersKept(t.rows, t1.rows) && MaxAttnum(t1.rows) == MaxAttnum(t.rows)
  {
    TargetStaysNamed(rows0, t.rows, name, attnum);
    var k := IndexOfName(Views(t.rows), Lower(name)).value;
    ViewsDrop(t.rows, attnum, DROP, k);
    UniqueNamesRemove(Views(t.rows), k);
    UpdateKeepsAscending(t.rows, attnum, DROP);
    DropKeepsNumbers(t.rows, attnum);
    DropIsSomeDropped(rows0, t.rows, attnum);
    ActiveAttnumsAscend(t.rows);
    DefaultsRemove(ActiveAttnums(t.rows), Views(t.rows), t.defaults, k);
  }

  /** Marking the targets dropped removes the named columns from the column list. */
  lemma {:induction false} MarkAllRemovesNames(rows0: seq<ColumnRow>, t: Table, targets: seq<Target>)
    requires Droppable(rows0, t) && TargetsOn(rows0, targets)
    requires RemoveNames(Views(t.rows), TargetNames(targets)).Some?
    ensures var t1 := MarkAll(t, targets);
            && Droppable(rows0, t1)
            && Some(Views(t1.rows)) == RemoveNames(Views(t.rows), TargetNames(targets))
            && NumbersKept(t.rows, t1.rows) && MaxAttnum(t1.rows) == MaxAttnum(t.rows)
    decreases |targets|
  {
    if targets != [] {
      var t1 := MarkDropped(t, targets[0].1);
      FirstTarget(rows0, targets);
      MarkOneRemovesName(rows0, t, targets[0].0, targets[0].1);
      MarkAllRemovesNames(rows0, t1, targets[1..]);
      NumbersKeptTrans(t.rows, t1.rows, MarkAll(t1, targets[1..]).rows);
    }
  }

  /** Only rows whose attnum is a target become dropped. */
  lemma {:induction false} MarkAllDropsTargets(t: Table, targets: seq<Target>)
    ensures var rows := MarkAll(t, targets).rows;
            && |rows| == |t.rows|
            && forall i :: 0 <= i < |rows| ==>
                 && rows[i].attnum == t.rows[i].attnum
                 && (rows[i].dropped && !t.rows[i].dropped ==> exists k :: 0 <= k < |targets| && targets[k].1 == rows[i].attnum)
    decreases |targets|
  {
    if targets != [] {
      var t1 := MarkDropped(t, targets[0].1);
      MarkAllDropsTargets(t1, targets[1..]);
      var rows := MarkAll(t, targets).rows;
      forall i | 0 <= i < |rows| && rows[i].dropped && !t.rows[i].dropped
        ensures exists k :: 0 <= k < |targets| && targets[k].1 == rows[i].attnum
      {
        if t.rows[i].attnum == targets[0].1 {
          assert targets[0].1 == rows[i].attnum;
        } else {
          assert t1.rows[i] == t.rows[i];
          var k :| 0 <= k < |targets[1..]| && targets[1..][k].1 == rows[i].attnum;
          assert targets[k + 1].1 == rows[i].attnum;
        }
      }
    }
  }

  /// One ALTER on an ordinary table

  /** What a statement leaves of the one relation it names. */
  ghost predicate RelationAltered(ty: Typing, a: Db, b: Db, rel: int)
    requires rel in a.tables
  {
    && rel in b.tables
    && RegistryOk(b.reg) && Grows(a.reg, b.reg)
    && NumbersKept(a.tables[rel].rows, b.tables[rel].rows)
    && KeysKept(a.keys, rel, a.tables[rel].rows, b.tables[rel].rows)
  }

  lemma StillActive(a: seq<ColumnRow>, b: seq<ColumnRow>, attnum: int)
    requires |a| <= |b| && attnum in ActiveAttnums(a)
    requires forall i :: 0 <= i < |a| ==> b[i].attnum == a[i].attnum && (a[i].attnum == attnum && !a[i].dropped ==> !b[i].dropped)
    ensures attnum in ActiveAttnums(b)
  {
    var k :| 0 <= k < |ActiveAttnums(a)| && ActiveAttnums(a)[k] == attnum;
    var i := ActiveAttnumsAreRows(a, k);
    var h := ActiveRowHasView(b, i);
  }

  /** A key list keeps naming active columns when no row it names is dropped. */
  lemma KeyStaysOk(a: seq<ColumnRow>, b: seq<ColumnRow>, list: string)
    requires KeyOk(a, list) && |a| <= |b|
    requires forall i :: 0 <= i < |a| ==>
               b[i].attnum == a[i].attnum && (b[i].dropped && !a[i].dropped ==> !ListContains(list, a[i].attnum))
    ensures KeyOk(b, list)
  {
    var attnums: seq<nat> :| InRange(attnums) && list == JoinAttnums(attnums) && forall i :: 0 <= i < |attnums| ==> attnums[i] in ActiveAttnums(a);
    forall i | 0 <= i < |attnums|
      ensures attnums[i] in ActiveAttnums(b)
    {
      ContainsIffMember(attnums, attnums[i]);
      assert attnums[i] in attnums;
      StillActive(a, b, attnums[i]);
    }
  }

  /** Dropping columns that pass the key checks leaves every key list of the relation sound. */
  lemma DropKeepsKeys(t: Table, targets: seq<Target>, keys: seq<Key>, rel: int, i: nat)
    requires CanDropAll(keys, rel, targets) && i < |keys| && keys[i].relid == rel && KeyOk(t.rows, keys[i].attnums)
    ensures KeyOk(MarkAll(t, targets).rows, keys[i].attnums)
  {
    var rows := MarkAll(t, targets).rows;
    MarkAllDropsTargets(t, targets);
    forall r | 0 <= r < |rows| && rows[r].dropped && !t.rows[r].dropped
      ensures !ListContains(keys[i].attnums, t.rows[r].attnum)
    {
      var k :| 0 <= k < |targets| && targets[k].1 == rows[r].attnum;
      assert CanDrop(keys, rel, targets[k].1);
    }
    KeyStaysOk(t.rows, rows, keys[i].attnums);
  }

  lemma ChangeKeepsKeys(ty: Typing, reg: Registry, t: Table, c: Change, reg1: Registry, t1: Table, list: string)
    requires Changed(ty, reg, t, c, reg1, t1) && !c.Drop? && KeyOk(t.rows, list)
    ensures KeyOk(t1.rows, list)
  {
    KeyStaysOk(t.rows, t1.rows, list);
  }

  /** The change an ALTER makes to an ordinary table. */
  function OrdinaryChange(t: Table, a: Alter): Option<Change> {
    match a
    case AddColumn(col, _) => Some(Add(col, MaxAttnum(t.rows) + 1))
    case DropColumns(names, ifExists) =>
      var targets := TargetsOf(t.rows, names, ifExists);
      if targets.None? then None else Some(Drop(TargetNames(targets.value)))
    case RenameColumn(old_, new_) => Some(Rename(old_, new_))
    case SetType(name, duckType) => Some(Retype(name, duckType))
  }

  /** `db1` is `db` after the change, journal included. */
  ghost predicate ByChange(ty: Typing, db: Db, rel: int, a: Alter, db1: Db)
    requires rel in db.tables
  {
    var c := OrdinaryChange(db.tables[rel], a);
    c.Some? && Some(db1) == WithTable(Journal(db), rel, ChangeTable(ty, Journal(db).reg, db.tables[rel], c.value))
  }

  /** An ALTER that finds nothing to do. */
  predicate FindsNothing(t: Table, a: Alter) {
    || (a.AddColumn? && ColumnAttnum(t.rows, a.col.name).Some?)
    || (a.DropColumns? && TargetsOf(t.rows, a.names, a.ifExists) == Some([]))
  }

  lemma DropIsChange(ty: Typing, db: Db, rel: int, a: Alter)
    requires rel in db.tables && Aligned(ty, db.reg.types, db.tables[rel]) && a.DropColumns? && !FindsNothing(db.tables[rel], a)
    requires AlterOrdinary(ty, db, rel, a).Some?
    ensures ByChange(ty, db, rel, a, AlterOrdinary(ty, db, rel, a).value)
  {
    var t := db.tables[rel];
    var targets := TargetsOf(t.rows, a.names, a.ifExists).value;
    TargetsOfAreOn(t.rows, a.names, a.ifExists);
    DropTargetsIsDropNames(ty, db.reg.types, t.rows, t, targets);
  }

  lemma AddIsChange(ty: Typing, db: Db, rel: int, a: Alter)
    requires rel in db.tables && a.AddColumn? && !FindsNothing(db.tables[rel], a) && AlterOrdinary(ty, db, rel, a).Some?
    ensures ByChange(ty, db, rel, a, AlterOrdinary(ty, db, rel, a).value)
  {}

  lemma RenameIsChange(ty: Typing, db: Db, rel: int, a: Alter)
    requires rel in db.tables && a.RenameColumn? && AlterOrdinary(ty, db, rel, a).Some?
    ensures ByChange(ty, db, rel, a, AlterOrdinary(ty, db, rel, a).value)
  {}

  lemma RetypeIsChange(ty: Typing, db: Db, rel: int, a: Alter)
    requires rel in db.tables && a.SetType? && AlterOrdinary(ty, db, rel, a).Some?
    ensures ByChange(ty, db, rel, a, AlterOrdinary(ty, db, rel, a).value)
  {}

  /** A successful ALTER of an ordinary table is one change to it, unless it finds nothing to do. */
  lemma AlterOrdinaryIsChange(ty: Typing, db: Db, rel: int, a: Alter)
    requires rel in db.tables && Aligned(ty, db.reg.types, db.tables[rel]) && AlterOrdinary(ty, db, rel, a).Some?
    requires !FindsNothing(db.tables[rel], a)
    ensures ByChange(ty, db, rel, a, AlterOrdinary(ty, db, rel, a).value)
  {
    match a
    case AddColumn(_, _) => AddIsChange(ty, db, rel, a);
    case DropColumns(_, _) => DropIsChange(ty, db, rel, a);
    case RenameColumn(_, _) => RenameIsChange(ty, db, rel, a);
    case SetType(_, _) => RetypeIsChange(ty, db, rel, a);
  }

  /** Columns named by a key list survive any successful ALTER. */
  lemma AlterOrdinaryKeepsKey(ty: Typing, db: Db, rel: int, a: Alter, c: Change, i: nat)
    requires rel in db.tables && RegistryOk(db.reg) && TableOk(ty, db.reg.types, db.tables[rel])
    requires AlterOrdinary(ty, db, rel, a).Some? && OrdinaryChange(db.tables[rel], a) == Some(c)
    requires ChangeTable(ty, Journal(db).reg, db.tables[rel], c).Some?
    requires a.DropColumns? ==> TargetsOf(db.tables[rel].rows, a.names, a.ifExists) != Some([])
    requires i < |db.keys| && db.keys[i].relid == rel && KeyOk(db.tables[rel].rows, db.keys[i].attnums)
    ensures KeyOk(ChangeTable(ty, Journal(db).reg, db.tables[rel], c).value.1.rows, db.keys[i].attnums)
  {
    var t := db.tables[rel];
    var (reg1, t1) := ChangeTable(ty, Journal(db).reg, t, c).value;
    if a.DropColumns? {
      var targets := TargetsOf(t.rows, a.names, a.ifExists).value;
      TargetsOfAreOn(t.rows, a.names, a.ifExists);
      DropTargetsIsDropNames(ty, db.reg.types, t.rows, t, targets);
      DropKeepsKeys(t, targets, db.keys, rel, i);
    } else {
      ChangeTableKeepsTable(ty, Journal(db).reg, t, c);
      ChangeKeepsKeys(ty, Journal(db).reg, t, c, reg1, t1, db.keys[i].attnums);
    }
  }

  ghost predicate KeysKept(keys: seq<Key>, rel: int, a: seq<ColumnRow>, b: seq<ColumnRow>) {
    forall i :: 0 <= i < |keys| && keys[i].relid == rel && KeyOk(a, keys[i].attnums) ==> KeyOk(b, keys[i].attnums)
  }

  lemma OrdinaryChangeKeepsKeys(ty: Typing, db: Db, rel: int, a: Alter, c: Change)
    requires rel in db.tables && RegistryOk(db.reg) && TableOk(ty, db.reg.types, db.tables[rel])
    requires AlterOrdinary(ty, db, rel, a).Some? && OrdinaryChange(db.tables[rel], a) == Some(c)
    requires a.DropColumns? ==> TargetsOf(db.tables[rel].rows, a.names, a.ifExists) != Some([])
    requires ChangeTable(ty, Journal(db).reg, db.tables[rel], c).Some?
    ensures KeysKept(db.keys, rel, db.tables[rel].rows, ChangeTable(ty, Journal(db).reg, db.tables[rel], c).value.1.rows)
  {
    forall i | 0 <= i < |db.keys| && db.keys[i].relid == rel && KeyOk(db.tables[rel].rows, db.keys[i].attnums)
      ensures KeyOk(ChangeTable(ty, Journal(db).reg, db.tables[rel], c).value.1.rows, db.keys[i].attnums)
    {
      AlterOrdinaryKeepsKey(ty, db, rel, a, c, i);
    }
  }

  lemma ChangeKeepsRelation(ty: Typing, db: Db, rel: int, c: Change, db1: Db)
    requires rel in db.tables && RegistryOk(db.reg) && TableOk(ty, db.reg.types, db.tables[rel])
    requires Some(db1) == WithTable(Journal(db), rel, ChangeTable(ty, Journal(db).reg, db.tables[rel], c))
    requires c.Add? ==> c.attnum == MaxAttnum(db.tables[rel].rows) + 1
    requires KeysKept(db.keys, rel, db.tables[rel].rows, ChangeTable(ty, Journal(db).reg, db.tables[rel], c).value.1.rows)
    ensures RelationAltered(ty, db, db1, rel) && OnlyTables(db, db1, [rel]) && TableOk(ty, db1.reg.types, db1.tables[rel])
  {
    ChangeTableKeepsTable(ty, Journal(db).reg, db.tables[rel], c);
  }

  lemma AlterOrdinaryKeepsRelation(ty: Typing, db: Db, rel: int, a: Alter)
    requires rel in db.tables && RegistryOk(db.reg) && TableOk(ty, db.reg.types, db.tables[rel])
    requires AlterOrdinary(ty, db, rel, a).Some?
    ensures var db1 := AlterOrdinary(ty, db, rel, a).value;
            RelationAltered(ty, db, db1, rel) && OnlyTables(db, db1, [rel]) && TableOk(ty, db1.reg.types, db1.tables[rel])
  {
    var db1 := AlterOrdinary(ty, db, rel, a).value;
    if !FindsNothing(db.tables[rel], a) {
      AlterOrdinaryIsChange(ty, db, rel, a);
      var c := OrdinaryChange(db.tables[rel], a).value;
      OrdinaryChangeKeepsKeys(ty, db, rel, a, c);
      ChangeKeepsRelation(ty, db, rel, c, db1);
    }
  }

  /// One ALTER on a partitioned table

  /** Every partition makes the change. */
  lemma PartitionsAgree(ty: Typing, db: Db, p: int, c: Change)
    requires RegistryOk(db.reg) && PartitionOk(db, p)
    requires forall child <- db.partitions[p] :: child in db.tables && TableOk(ty, db.reg.types, db.tables[child])
    requires c.Add? ==> c.attnum == MaxAttnum(db.tables[p].rows) + 1
    requires ChangeChildren(ty, db, db.partitions[p], c).Some?
    ensures var mid := ChangeChildren(ty, db, db.partitions[p], c).value;
            && RegistryOk(mid.reg) && Grows(db.reg, mid.reg) && OnlyTables(db, mid, db.partitions[p])
            && (forall child <- db.partitions[p] ::
                  && child in mid.tables && ChildChanged(ty, db, mid, child, c)
                  && MaxAttnum(mid.tables[child].rows) <= (if c.Add? then c.attnum else MaxAttnum(db.tables[p].rows)))
            && (db.partitions[p] != [] && NewType(c).Some? ==> TypeIdIn(ty, mid.reg.types, NewType(c).value).Some?)
  {
    var children := db.partitions[p];
    assert AllReady(ty, db, children, c) by {
      forall i | 0 <= i < |children|
        ensures Ready(ty, db, children[i], c)
      {
        assert children[i] in children;
      }
    }
    ChangeChildrenFrame(ty, db, children, c);
    forall child <- children
      ensures ChildChanged(ty, db, ChangeChildren(ty, db, children, c).value, child, c)
    {
      ChangeChildrenKeeps(ty, db, children, c, child);
    }
  }

  /** What the parent's own rows must come to. */
  ghost predicate ParentFollows(reg: Registry, t: Table, c: Change, vs: seq<View>, reg1: Registry, t1: Table) {
    && RegistryOk(reg1) && Grows(reg, reg1)
    && Ascending(t1.rows) && Views(t1.rows) == vs && t1.natts == |vs|
    && DefaultsOk(ActiveAttnums(t1.rows), Views(t1.rows), t1.defaults)
    && NumbersKept(t.rows, t1.rows)
    && MaxAttnum(t1.rows) == (if c.Add? then c.attnum else MaxAttnum(t.rows))
    && (!c.Drop? ==> forall i :: 0 <= i < |t.rows| ==> t1.rows[i].dropped == t.rows[i].dropped)
  }

  lemma ParentAppended(reg: Registry, t: Table, row: ColumnRow, t1: Table, c: Change, reg1: Registry)
    requires ParentOk(t) && RegistryOk(reg1) && Grows(reg, reg1) && !row.dropped && row.attnum == MaxAttnum(t.rows) + 1
    requires t1.rows == t.rows + [row] && t1.natts == |Views(t1.rows)| && c.Add? && c.attnum == row.attnum
    requires t1.defaults.Keys == if row.hasDef then t.defaults.Keys + {row.attnum} else t.defaults.Keys
    ensures ParentFollows(reg, t, c, Views(t.rows) + [RowView(row)], reg1, t1)
  {
    AscendingAppend(t.rows, row);
    ViewsAppend(t.rows, row);
    AppendKeepsNumbers(t.rows, row);
    ActiveAttnumsAscend(t.rows);
    DefaultsAppend(ActiveAttnums(t.rows), Views(t.rows), t.defaults, row.attnum, RowView(row), t1.defaults);
  }

  lemma InsertedFollows(ty: Typing, reg: Registry, t: Table, col: DuckColumn, c: Change)
    requires RegistryOk(reg) && ParentOk(t) && c == Add(col, MaxAttnum(t.rows) + 1) && AddToParent(ty, reg, t, col).Some?
    ensures var r := AddToParent(ty, reg, t, col).value;
            ParentFollows(reg, t, c, Views(t.rows) + [DuckView(ty, reg.types, col)], r.0, r.1)
  {
    InsertAtEnd(ty, reg, t, col, c.attnum);
    var (reg1, t1) := InsertAttribute(ty, reg, t, col, c.attnum).value;
    ParentAppended(reg, t, RowFor(ty, reg.types, col, c.attnum), SetRelnatts(t1), c, reg1);
  }

  lemma ParentFollowsAdd(ty: Typing, reg: Registry, t: Table, child: Table, a: Alter, c: Change)
    requires RegistryOk(reg) && ParentOk(t) && a.AddColumn? && c == Add(a.col, MaxAttnum(t.rows) + 1)
    requires AlterParent(ty, reg, t, child, a).Some?
    ensures var (reg1, t1) := AlterParent(ty, reg, t, child, a).value;
            ParentFollows(reg, t, c, Views(t.rows) + [DuckView(ty, reg.types, a.col)], reg1, t1)
  {
    assert AlterParent(ty, reg, t, child, a) == AddToParent(ty, reg, t, a.col);
    InsertedFollows(ty, reg, t, a.col, c);
  }

  lemma ParentFollowsDrop(ty: Typing, reg: Registry, t: Table, child: Table, a: Alter, vs: seq<View>)
    requires RegistryOk(reg) && ParentOk(t) && a.DropColumns? && TargetsOf(t.rows, a.names, a.ifExists).Some?
    requires var names := TargetNames(TargetsOf(t.rows, a.names, a.ifExists).value); RemoveNames(Views(t.rows), names) == Some(vs)
    ensures var (reg1, t1) := AlterParent(ty, reg, t, child, a).value;
            ParentFollows(reg, t, Drop([]), vs, reg1, t1)
  {
    TargetsOfAreOn(t.rows, a.names, a.ifExists);
    MarkAllRemovesNames(t.rows, t, TargetsOf(t.rows, a.names, a.ifExists).value);
  }

  /** Updating the one row numbered `attnum` moves the parent to the list with its view replaced. */
  lemma ParentUpdated(reg: Registry, t: Table, attnum: int, change: ColumnRow -> ColumnRow, k: nat, v: View, c: Change, reg1: Registry, t1: Table)
    requires ParentOk(t) && RegistryOk(reg1) && Grows(reg, reg1) && !c.Add?
    requires k < |Views(t.rows)| && ActiveAttnums(t.rows)[k] == attnum && TurnsInto(t.rows, attnum, change, v)
    requires t1.rows == UpdateRow(t.rows, attnum, change) && t1.natts == t.natts
    requires t1.defaults.Keys == if v.hasDef then t.defaults.Keys + {attnum} else t.defaults.Keys - {attnum}
    ensures ParentFollows(reg, t, c, Views(t.rows)[k := v], reg1, t1)
  {
    ViewsUpdate(t.rows, attnum, change, k, v);
    ActiveAttnumsAscend(t.rows);
    DefaultsReplace(ActiveAttnums(t.rows), Views(t.rows), t.defaults, k, v, t1.defaults);
    TurnedSameNumbers(t.rows, attnum, change, v);
    SameNumbersAscend(t.rows, t1.rows);
    SameNumbersSameMax(t.rows, t1.rows);
  }

  lemma TurnedSameNumbers(rows: seq<ColumnRow>, attnum: int, change: ColumnRow -> ColumnRow, v: View)
    requires TurnsInto(rows, attnum, change, v)
    ensures var after := UpdateRow(rows, attnum, change);
            |after| == |rows|
            && forall i :: 0 <= i < |rows| ==> after[i].attnum == rows[i].attnum && after[i].dropped == rows[i].dropped
  {}

  lemma SameNumbersAscend(a: seq<ColumnRow>, b: seq<ColumnRow>)
    requires Ascending(a) && |b| == |a| && forall i :: 0 <= i < |a| ==> b[i].attnum == a[i].attnum
    ensures Ascending(b)
  {}

  /** The active row numbered by the `k`-th active attnum is the one seen as the `k`-th view. */
  lemma RowOfActive(rows: seq<ColumnRow>, k: nat, i: nat)
    requires Ascending(rows) && k < |Views(rows)| && i < |rows| && rows[i].attnum == ActiveAttnums(rows)[k]
    ensures !rows[i].dropped && RowView(rows[i]) == Views(rows)[k]
  {
    var h := ActiveAttnumsAreRows(rows, k);
    assert !(h < i) && !(i < h);
  }

  lemma RenameTurns(rows: seq<ColumnRow>, k: nat, attnum: int, new_: string)
    requires Ascending(rows) && k < |Views(rows)| && ActiveAttnums(rows)[k] == attnum
    ensures TurnsInto(rows, attnum, RENAME_TO(new_), Views(rows)[k].(name := Lower(new_)))
  {
    forall i | 0 <= i < |rows| && rows[i].attnum == attnum
      ensures RowView(RENAME_TO(new_)(rows[i])) == Views(rows)[k].(name := Lower(new_))
    {
      RowOfActive(rows, k, i);
    }
  }

  lemma ParentFollowsRename(ty: Typing, reg: Registry, t: Table, child: Table, a: Alter)
    requires RegistryOk(reg) && ParentOk(t) && a.RenameColumn? && AlterParent(ty, reg, t, child, a).Some?
    ensures var k := IndexOfName(Views(t.rows), Lower(a.old_)).value;
            var (reg1, t1) := AlterParent(ty, reg, t, child, a).value;
            ParentFollows(reg, t, Rename(a.old_, a.new_), Views(t.rows)[k := Views(t.rows)[k].(name := Lower(a.new_))], reg1, t1)
  {
    var k := IndexOfName(Views(t.rows), Lower(a.old_)).value;
    var attnum := ColumnAttnum(t.rows, a.old_).value;
    RenameTurns(t.rows, k, attnum, a.new_);
    var (reg1, t1) := AlterParent(ty, reg, t, child, a).value;
    assert Views(t.rows)[k].hasDef <==> attnum in t.defaults.Keys;
    ParentUpdated(reg, t, attnum, RENAME_TO(a.new_), k, Views(t.rows)[k].(name := Lower(a.new_)), Rename(a.old_, a.new_), reg1, t1);
  }

  lemma SyncTurns(rows: seq<ColumnRow>, attnum: int, name: string, typeId: int, typmod: int, col: DuckColumn)
    ensures TurnsInto(rows, attnum, Synced(name, typeId, typmod, col), View(Lower(name), Some(typeId), typmod, col.default.Some?))
  {}

  lemma ParentSynced(ty: Typing, reg: Registry, t: Table, k: nat, col: DuckColumn, name: string, c: Change)
    requires RegistryOk(reg) && ParentOk(t) && !c.Add? && k < |Views(t.rows)|
    requires Sync(ty, reg, t, ActiveAttnums(t.rows)[k], col, name).Some? && TypeIdIn(ty, reg.types, col.duckType).Some?
    ensures var (reg1, t1) := Sync(ty, reg, t, ActiveAttnums(t.rows)[k], col, name).value;
            ParentFollows(reg, t, c, Views(t.rows)[k := DuckView(ty, reg.types, col).(name := Lower(name))], reg1, t1)
  {
    var attnum := ActiveAttnums(t.rows)[k];
    EnsureTypeGrows(ty, reg, col.duckType);
    var id := TypeIdIn(ty, reg.types, col.duckType).value;
    var (reg1, t1) := Sync(ty, reg, t, attnum, col, name).value;
    SyncTurns(t.rows, attnum, name, id, ty.modifier(col.duckType), col);
    assert t1.defaults.Keys == if col.default.Some? then t.defaults.Keys + {attnum} else t.defaults.Keys - {attnum};
    ParentUpdated(reg, t, attnum, Synced(name, id, ty.modifier(col.duckType), col), k,
                  DuckView(ty, reg.types, col).(name := Lower(name)), c, reg1, t1);
  }

  lemma ParentFollowsRetype(ty: Typing, reg: Registry, t: Table, child: Table, a: Alter, was: seq<View>)
    requires RegistryOk(reg) && ParentOk(t) && a.SetType? && AlterParent(ty, reg, t, child, a).Some?
    requires Aligned(ty, reg.types, child) && Alike(was, Views(t.rows))
    requires ChangeViews(ty, reg.types, was, Retype(a.name, a.duckType)) == Some(Views(child.rows))
    ensures var vs := ChangeViews(ty, reg.types, Views(t.rows), Retype(a.name, a.duckType));
            var (reg1, t1) := AlterParent(ty, reg, t, child, a).value;
            vs.Some? && ParentFollows(reg, t, Retype(a.name, a.duckType), vs.value, reg1, t1)
  {
    var k := RetypedColumn(ty, reg, t, child, a, was);
    RetypedParentView(ty, reg.types, was, Views(t.rows), Views(child.rows), a.name, a.duckType, k);
    ParentSynced(ty, reg, t, k, child.phys[k], a.name, Retype(a.name, a.duckType));
  }

  /** Parent and partition find the column in the same place. */
  lemma RetypedColumn(ty: Typing, reg: Registry, t: Table, child: Table, a: Alter, was: seq<View>) returns (k: nat)
    requires a.SetType? && AlterParent(ty, reg, t, child, a).Some? && Aligned(ty, reg.types, child) && Alike(was, Views(t.rows))
    requires ChangeViews(ty, reg.types, was, Retype(a.name, a.duckType)) == Some(Views(child.rows))
    ensures k < |Views(t.rows)| == |was| == |child.phys| && IndexOfName(was, Lower(a.name)) == Some(k) == IndexOfName(Views(t.rows), Lower(a.name))
    ensures ColumnAttnum(t.rows, a.name) == Some(ActiveAttnums(t.rows)[k]) && PhysIndex(child.phys, a.name) == Some(k)
    ensures Views(child.rows)[k] == DuckView(ty, reg.types, child.phys[k]) && TypeIdIn(ty, reg.types, child.phys[k].duckType).Some?
    ensures AlterParent(ty, reg, t, child, a) == Sync(ty, reg, t, ActiveAttnums(t.rows)[k], child.phys[k], a.name)
  {
    AlikeIndex(was, Views(t.rows), Lower(a.name));
    k := IndexOfName(Views(t.rows), Lower(a.name)).value;
    PhysIndexIsViewIndex(ty, reg.types, child.phys, a.name);
    RetypeKeepsNames(ty, reg.types, was, a.name, a.duckType);
  }

  lemma AlikeIndex(a: seq<View>, b: seq<View>, name: string)
    requires Alike(a, b)
    ensures IndexOfName(a, name) == IndexOfName(b, name)
  {
    var i, j := IndexOfName(a, name), IndexOfName(b, name);
    if i.Some? && j.Some? {
      assert !(i.value < j.value) && !(j.value < i.value);
    }
  }

  /** What the parent takes over from its first partition is what the change does to its own column. */
  lemma RetypedParentView(ty: Typing, types: map<string, int>, was: seq<View>, vs: seq<View>, now: seq<View>, name: string, duckType: string, k: nat)
    requires Alike(was, vs) && ChangeViews(ty, types, was, Retype(name, duckType)) == Some(now)
    requires IndexOfName(vs, Lower(name)) == Some(k) && IndexOfName(was, Lower(name)) == Some(k)
    ensures ChangeViews(ty, types, vs, Retype(name, duckType)) == Some(vs[k := now[k].(name := Lower(name))])
  {}

  lemma RetypeKeepsNames(ty: Typing, types: map<string, int>, vs: seq<View>, name: string, duckType: string)
    requires ChangeViews(ty, types, vs, Retype(name, duckType)).Some?
    ensures var vs1 := ChangeViews(ty, types, vs, Retype(name, duckType)).value;
            IndexOfName(vs1, Lower(name)) == IndexOfName(vs, Lower(name))
  {
    var vs1 := ChangeViews(ty, types, vs, Retype(name, duckType)).value;
    assert forall i :: 0 <= i < |vs| ==> vs1[i].name == vs[i].name;
    var i, j := IndexOfName(vs, Lower(name)).value, IndexOfName(vs1, Lower(name));
    assert j.Some? && !(j.value < i) && !(i < j.value);
  }
}
