/** Whole runs of table statements, from the empty catalog on. */
module CatalogRuns {
  import opened Text
  import opened Oids
  import opened TableColumns
  import opened TableChanges
  import opened TableCreation
  import opened KeyLists
  import opened AlterTable
  import opened Consistency
  import opened AlterRuns

  /** A column of CREATE TABLE: its type as DuckDB reports it, and what the statement declares. */
  datatype ColumnDef = ColumnDef(name: string, duckType: string, notNull: bool, primaryKey: bool, default: Option<string>)

  datatype Statement =
    | CreateTable(defs: seq<ColumnDef>)
    | CreatePartitioned(defs: seq<ColumnDef>, key: string)
    | AddPartition(parent: int, at: nat)
    | CreateKey(owner: int, rel: int, names: seq<string>)
    | DropTable(rel: int)
    | AlterTable(rel: int, alter: Alter)

  /// Creating relations

  /** `create_table_columns_with_metadata`: NOT NULL and DEFAULT are filed as the statement spells them. */
  function Filed(defs: seq<ColumnDef>): (r: seq<DuckColumn>)
    ensures |r| == |defs|
    ensures forall k :: 0 <= k < |r| ==> r[k] == DuckColumn(defs[k].name, defs[k].duckType, defs[k].notNull, defs[k].default)
  {
    seq(|defs|, k requires 0 <= k < |defs| => DuckColumn(defs[k].name, defs[k].duckType, defs[k].notNull, defs[k].default))
  }

  /** What DuckDB reports: the columns of a primary key are NOT NULL, declared or not. */
  function Reported(defs: seq<ColumnDef>): (r: seq<DuckColumn>)
    ensures |r| == |defs|
    ensures forall k :: 0 <= k < |r| ==> r[k] == Filed(defs)[k].(notNull := defs[k].notNull || defs[k].primaryKey)
  {
    seq(|defs|, k requires 0 <= k < |defs| => Filed(defs)[k].(notNull := defs[k].notNull || defs[k].primaryKey))
  }

  function PrimaryAttnums(defs: seq<ColumnDef>): set<int> { set k: int | 0 <= k < |defs| && defs[k].primaryKey :: k + 1 }

  /** A relation under the next oid; its row type and the journal row take two more. */
  function NewRelation(ty: Typing, db: Db, cols: seq<DuckColumn>, kind: Kind): Option<Db> {
    var id := db.reg.nextOid;
    match CreateOn(ty, db.reg.(nextOid := id + 3), cols)
    case None => None
    case Some((reg, t)) => Some(db.(reg := reg, kinds := db.kinds[id := kind], tables := db.tables[id := t]))
  }

  function NewTable(ty: Typing, db: Db, defs: seq<ColumnDef>): Option<Db> {
    var id := db.reg.nextOid;
    match NewRelation(ty, db, Filed(defs), Ordinary)
    case None => None
    case Some(db1) => if id !in db1.tables then None else Some(db1.(tables := db1.tables[id := db1.tables[id].(phys := Reported(defs))]))
  }

  /** A partitioned table starts without partitions, behind an empty view of its columns. */
  function ViewColumns(cols: seq<DuckColumn>): (r: seq<DuckColumn>)
    ensures ShowsColumns(r, cols) && forall k :: 0 <= k < |cols| ==> r[k].duckType == cols[k].duckType
  {
    seq(|cols|, k requires 0 <= k < |cols| => cols[k].(notNull := false, default := None))
  }

  function NewPartitioned(ty: Typing, db: Db, defs: seq<ColumnDef>, key: string): Option<Db> {
    var id := db.reg.nextOid;
    match NewRelation(ty, db, Filed(defs), Partitioned)
    case None => None
    case Some(db1) =>
      if id !in db1.tables || IndexOfName(Views(db1.tables[id].rows), Lower(key)).None? then None
      else Some(db1.(tables := db1.tables[id := db1.tables[id].(phys := ViewColumns(Filed(defs)))],
                     partitions := db1.partitions[id := []], partitionKey := db1.partitionKey[id := key],
                     primary := db1.primary[id := PrimaryAttnums(defs)]))
  }

  /** `physical_partition_create_from_catalog_sql`, as DuckDB then reports the table: every column under the
      catalog's name, type text and default, NOT NULL where the catalog says so or the primary key does. */
  function PrintedColumns(ty: Typing, reg: Registry, rows: seq<ColumnRow>, defaults: map<int, string>, primary: set<int>): (r: Option<seq<DuckColumn>>)
    ensures r.Some? ==> |r.value| == |rows|
  {
    if rows == [] then Some([])
    else
      var head, rest := ty.reported(reg, rows[0].typeId, rows[0].typmod), PrintedColumns(ty, reg, rows[1..], defaults, primary);
      if head.None? || rest.None? then None
      else
        var default := if rows[0].attnum in defaults then Some(defaults[rows[0].attnum]) else None;
        Some([DuckColumn(rows[0].name, head.value, rows[0].notNull || rows[0].attnum in primary, default)] + rest.value)
  }

  function PrimaryOf(db: Db, rel: int): set<int> { if rel in db.primary then db.primary[rel] else {} }

  function PartitionColumns(ty: Typing, db: Db, parent: int): Option<seq<DuckColumn>>
    requires parent in db.tables
  {
    PrintedColumns(ty, db.reg, ActiveRows(db.tables[parent].rows), db.tables[parent].defaults, PrimaryOf(db, parent))
  }

  /** `create_range_partition`: DuckDB creates the columns the parent's catalog rows describe, and what it
      reports is filed; the new partition takes its place in the order of partition values, and the
      entrypoint is rebuilt. */
  function NewPartition(ty: Typing, db: Db, parent: int, at: nat): Option<Db> {
    var id := db.reg.nextOid;
    if parent !in db.partitions || parent !in db.tables || at > |db.partitions[parent]| then None
    else match PartitionColumns(ty, db, parent)
      case None => None
      case Some(cols) =>
        match NewRelation(ty, db, cols, Ordinary)
        case None => None
        case Some(db1) =>
          var children := db.partitions[parent];
          Refresh(ty, db1.(internal := db1.internal + {id},
                           partitions := db1.partitions[parent := children[..at] + [id] + children[at..]]), parent)
  }

  /// Key lists

  /** `index_columns_to_attnums` and `ident_columns_to_attnums`: each name's attnum, a 32-bit number;
      columns of complex types are refused. */
  function AttnumsOf(ty: Typing, t: Table, names: seq<string>): Option<seq<nat>> {
    if names == [] then Some([])
    else
      var attnum, i, rest := ColumnAttnum(t.rows, names[0]), PhysIndex(t.phys, names[0]), AttnumsOf(ty, t, names[1..]);
      if attnum.None? || i.None? || rest.None? then None
      else if ty.scalarId(t.phys[i.value].duckType).None? then None
      else if attnum.value < 0 || attnum.value >= 0x8000_0000 then None
      else Some([attnum.value as nat] + rest.value)
  }

  /** The loop that collects the numbers and joins them into the stored list. */
  method IndexColumnsToAttnums(ty: Typing, t: Table, names: seq<string>) returns (r: Option<string>)
    ensures var attnums := AttnumsOf(ty, t, names); r == if attnums.None? then None else Some(JoinAttnums(attnums.value))
  {
    var attnums: seq<nat> := [];
    ghost var whole := AttnumsOf(ty, t, names);
    CollectsFromStart(whole);
    assert names[0..] == names;
    for i := 0 to |names|
      invariant Collects(whole, attnums, AttnumsOf(ty, t, names[i..]))
    {
      SliceTail(names, i);
      var attnum, k := ColumnAttnum(t.rows, names[i]), PhysIndex(t.phys, names[i]);
      if attnum.None? || k.None? || ty.scalarId(t.phys[k.value].duckType).None? || attnum.value < 0 || attnum.value >= 0x8000_0000 {
        return None;
      }
      CollectsWith(whole, attnums, attnum.value, AttnumsOf(ty, t, names[i + 1..]));
      attnums := attnums + [attnum.value];
    }
    assert attnums + [] == attnums;
    return Some(JoinAttnums(attnums));
  }

  function NewKeyRow(ty: Typing, db: Db, owner: int, rel: int, names: seq<string>): Option<Db> {
    if owner !in db.tables || rel !in db.tables || rel in db.internal then None
    else match AttnumsOf(ty, db.tables[rel], names)
      case None => None
      case Some(attnums) => Some(Journal(db).(keys := db.keys + [Key(owner, rel, JoinAttnums(attnums))]))
  }

  /// DROP TABLE

  function GoneWith(db: Db, rel: int): set<int> {
    {rel} + if rel in db.partitions then set c <- db.partitions[rel] else {}
  }

  function KeysWithout(keys: seq<Key>, gone: set<int>): (r: seq<Key>)
    ensures forall k :: k in r <==> k in keys && k.owner !in gone && k.relid !in gone
  {
    if keys == [] then []
    else (if keys[0].owner in gone || keys[0].relid in gone then [] else [keys[0]]) + KeysWithout(keys[1..], gone)
  }

  function EdgesWithout(deps: set<(int, int)>, gone: set<int>): set<(int, int)> { set d <- deps | d.0 !in gone && d.1 !in gone }

  /** `drop_objects`: a partitioned table takes its partitions with it, a partition itself cannot be dropped, and
      the key lists of dropped tables and those that number them go. A statement refused for the sake of
      something the runs leave out, such as a view, is one statement less. */
  function Dropped(db: Db, rel: int): Option<Db> {
    if rel !in db.kinds || rel !in db.tables || rel in db.internal || db.kinds[rel] == OtherKind || HasDependents(db, rel) then None
    else
      var gone := GoneWith(db, rel);
      Some(Journal(db).(kinds := db.kinds - gone, tables := db.tables - gone, internal := db.internal - gone,
                        keys := KeysWithout(db.keys, gone), deps := EdgesWithout(db.deps, gone), partitions := db.partitions - gone,
                        partitionKey := db.partitionKey - gone, primary := db.primary - gone))
  }

  /// Runs

  function Apply(ty: Typing, db: Db, s: Statement): Option<Db> {
    match s
    case CreateTable(defs) => NewTable(ty, db, defs)
    case CreatePartitioned(defs, key) => NewPartitioned(ty, db, defs, key)
    case AddPartition(parent, at) => NewPartition(ty, db, parent, at)
    case CreateKey(owner, rel, names) => NewKeyRow(ty, db, owner, rel, names)
    case DropTable(rel) => Dropped(db, rel)
    case AlterTable(rel, alter) => AlterRelation(ty, db, rel, alter)
  }

  /** A statement that fails leaves catalog and DuckDB as they were. */
  function Execute(ty: Typing, db: Db, s: Statement): Db {
    var r := Apply(ty, db, s);
    if r.Some? then r.value else db
  }

  function Run(ty: Typing, db: Db, ss: seq<Statement>): Db
    decreases |ss|
  {
    if ss == [] then db else Run(ty, Execute(ty, db, ss[0]), ss[1..])
  }

  /// Each statement keeps the invariant

  lemma NewRelationIsStep(ty: Typing, db: Db, cols: seq<DuckColumn>, kind: Kind)
    requires RegistryOk(db.reg) && NewRelation(ty, db, cols, kind).Some?
    ensures var id, db1 := db.reg.nextOid, NewRelation(ty, db, cols, kind).value;
            && Step(db, db1, {id}) && id < db1.reg.nextOid && id in db1.tables
            && TableOk(ty, db1.reg.types, db1.tables[id]) && db1.tables[id].phys == cols
            && MaxAttnum(db1.tables[id].rows) == |cols|
  {
    CreateOnIsSound(ty, db.reg.(nextOid := db.reg.nextOid + 3), cols);
    var (reg, t) := CreateOn(ty, db.reg.(nextOid := db.reg.nextOid + 3), cols).value;
    NewIsStep(db, db.reg.nextOid, reg, kind, t);
  }

  lemma NewIsStep(db: Db, id: int, reg: Registry, kind: Kind, t: Table)
    requires RegistryOk(reg) && Grows(db.reg, reg)
    ensures Step(db, db.(reg := reg, kinds := db.kinds[id := kind], tables := db.tables[id := t]), {id})
  {
    assert db.keys[..|db.keys|] == db.keys;
  }

  lemma NewRelationIsSound(ty: Typing, db: Db, cols: seq<DuckColumn>, kind: Kind)
    requires DbOk(ty, db) && NewRelation(ty, db, cols, kind).Some?
    ensures var id, db1 := db.reg.nextOid, NewRelation(ty, db, cols, kind).value;
            && id !in db.kinds && id !in db.tables && id !in db.internal && id !in db.partitions
            && id in db1.tables && TableOk(ty, db1.reg.types, db1.tables[id]) && db1.tables[id].phys == cols
            && MaxAttnum(db1.tables[id].rows) == |cols| && id < db1.reg.nextOid
            && Step(db, db1, {id})
  {
    assert RelationOk(ty, db, db.reg.nextOid);
    NewRelationIsStep(ty, db, cols, kind);
  }

  lemma FreshIsApart(ty: Typing, db: Db, id: int)
    requires DbOk(ty, db) && id >= db.reg.nextOid
    ensures forall q <- db.partitions :: id !in db.partitions[q]
    ensures id !in db.partitions
  {
    forall q <- db.partitions
      ensures id !in db.partitions[q]
    {
      assert RelationOk(ty, db, q) && RelationOk(ty, db, id);
    }
    assert RelationOk(ty, db, id);
  }

  lemma StepKeepsNumbers(a: Db, b: Db, touched: set<int>)
    requires Step(a, b, touched) && b.deps == a.deps && forall r <- touched :: r !in a.tables && r >= a.reg.nextOid
    ensures AllNumbersKept(a, b)
  {
    SameKeysKept(a, b);
    forall r <- b.tables
      ensures if r in a.tables then NumbersKept(a.tables[r].rows, b.tables[r].rows) else a.reg.nextOid <= r
      ensures r in a.tables ==> (r in a.partitions <==> r in b.partitions)
    {
      assert r !in touched ==> SameAt(a, b, r);
    }
  }

  lemma NewKeysOkFresh(ty: Typing, a: Db, b: Db, id: int)
    requires DbOk(ty, a) && id !in a.tables && b.keys == a.keys
    ensures NewKeysOk(a, b, {id})
  {
    assert forall i :: 0 <= i < |a.keys| ==> KeyRowOk(a, a.keys[i]);
  }

  /** NOT NULL aside, DuckDB's columns are the filed ones. */
  lemma ReportedReadsAlike(ty: Typing, types: map<string, int>, t: Table, defs: seq<ColumnDef>)
    requires TableOk(ty, types, t.(phys := Filed(defs)))
    ensures TableOk(ty, types, t.(phys := Reported(defs)))
  {
    assert forall k :: 0 <= k < |defs| ==> DuckView(ty, types, Reported(defs)[k]) == DuckView(ty, types, Filed(defs)[k]);
    assert DuckViews(ty, types, Reported(defs)) == DuckViews(ty, types, Filed(defs));
  }

  lemma NewTableIsSound(ty: Typing, db: Db, defs: seq<ColumnDef>)
    requires DbOk(ty, db) && NewTable(ty, db, defs).Some?
    ensures var id, db1 := db.reg.nextOid, NewTable(ty, db, defs).value;
            && id !in db.kinds && id !in db.tables && id !in db.internal && id !in db.partitions
            && id in db1.tables && TableOk(ty, db1.reg.types, db1.tables[id]) && id < db1.reg.nextOid
            && Step(db, db1, {id})
  {
    var id, mid, db1 := db.reg.nextOid, NewRelation(ty, db, Filed(defs), Ordinary).value, NewTable(ty, db, defs).value;
    NewRelationIsSound(ty, db, Filed(defs), Ordinary);
    ReportedReadsAlike(ty, mid.reg.types, mid.tables[id], defs);
    forall r | r != id
      ensures SameAt(db, db1, r)
    {
      assert SameAt(db, mid, r);
    }
  }

  lemma CreateTableKeepsDb(ty: Typing, db: Db, defs: seq<ColumnDef>)
    requires DbOk(ty, db) && NewTable(ty, db, defs).Some?
    ensures var db1 := NewTable(ty, db, defs).value; DbOk(ty, db1) && AllNumbersKept(db, db1)
  {
    var id, db1 := db.reg.nextOid, NewTable(ty, db, defs).value;
    NewTableIsSound(ty, db, defs);
    FreshIsApart(ty, db, id);
    SamePartitionsApart(ty, db, db1);
    NewKeysOkFresh(ty, db, db1, id);
    StepKeepsDb(ty, db, db1, {id});
    StepKeepsNumbers(db, db1, {id});
  }

  lemma EmptyPartitionsApart(ty: Typing, a: Db, b: Db, id: int)
    requires DbOk(ty, a) && id !in a.partitions && b.partitions == a.partitions[id := []]
    ensures forall p, q :: Apart(b, p, q)
  {
    forall p, q
      ensures Apart(b, p, q)
    {
      assert Apart(a, p, q);
    }
  }

  lemma NewPartitionedIsOk(ty: Typing, db: Db, defs: seq<ColumnDef>, key: string)
    requires DbOk(ty, db) && NewPartitioned(ty, db, defs, key).Some?
    ensures var id, db1 := db.reg.nextOid, NewPartitioned(ty, db, defs, key).value;
            RelationOk(ty, db1, id) && Step(db, db1, {id}) && id !in db.tables
  {
    var id, db1 := db.reg.nextOid, NewPartitioned(ty, db, defs, key).value;
    NewRelationIsSound(ty, db, Filed(defs), Partitioned);
    var mid := NewRelation(ty, db, Filed(defs), Partitioned).value;
    EntryFromChild(ty, mid.reg.types, mid.tables[id], ViewColumns(Filed(defs)));
    forall r | r != id
      ensures SameAt(db, db1, r)
    {
      assert SameAt(db, mid, r);
    }
  }

  lemma CreatePartitionedKeepsDb(ty: Typing, db: Db, defs: seq<ColumnDef>, key: string)
    requires DbOk(ty, db) && NewPartitioned(ty, db, defs, key).Some?
    ensures var db1 := NewPartitioned(ty, db, defs, key).value; DbOk(ty, db1) && AllNumbersKept(db, db1)
  {
    var id, db1 := db.reg.nextOid, NewPartitioned(ty, db, defs, key).value;
    NewPartitionedIsOk(ty, db, defs, key);
    FreshIsApart(ty, db, id);
    EmptyPartitionsApart(ty, db, db1, id);
    NewKeysOkFresh(ty, db, db1, id);
    StepKeepsDb(ty, db, db1, {id});
    StepKeepsNumbers(db, db1, {id});
  }

  /// A new partition

  function Inserted(s: seq<int>, at: nat, x: int): seq<int>
    requires at <= |s|
  {
    s[..at] + [x] + s[at..]
  }

  lemma InsertedMembers(s: seq<int>, at: nat, x: int)
    requires at <= |s|
    ensures forall y :: y in Inserted(s, at, x) <==> y == x || y in s
  {
    assert s == s[..at] + s[at..];
  }

  lemma InsertedAt(s: seq<int>, at: nat, x: int)
    requires at <= |s|
    ensures var r := Inserted(s, at, x);
            |r| == |s| + 1 && r[at] == x && forall i :: 0 <= i < |r| && i != at ==> r[i] == s[if i < at then i else i - 1]
  {}

  lemma InsertedIsDistinct(s: seq<int>, at: nat, x: int)
    requires at <= |s| && Distinct(s) && forall i :: 0 <= i < |s| ==> s[i] != x
    ensures Distinct(Inserted(s, at, x))
  {
    InsertedAt(s, at, x);
  }

  /** The printed columns are the parent's, whatever becomes of their types. */
  lemma {:induction false} PrintedAt(ty: Typing, reg: Registry, rows: seq<ColumnRow>, defaults: map<int, string>, primary: set<int>, k: nat)
    requires PrintedColumns(ty, reg, rows, defaults, primary).Some? && k < |rows|
    ensures var col := PrintedColumns(ty, reg, rows, defaults, primary).value[k];
            && ty.reported(reg, rows[k].typeId, rows[k].typmod) == Some(col.duckType)
            && col.name == rows[k].name && col.notNull == (rows[k].notNull || rows[k].attnum in primary)
            && (col.default.Some? <==> rows[k].attnum in defaults)
  {
    if k > 0 {
      PrintedAt(ty, reg, rows[1..], defaults, primary, k - 1);
    }
  }

  lemma PrintedAreAlike(ty: Typing, db: Db, parent: int, types: map<string, int>)
    requires parent in db.tables && ParentOk(db.tables[parent]) && PartitionColumns(ty, db, parent).Some?
    ensures Alike(DuckViews(ty, types, PartitionColumns(ty, db, parent).value), Views(db.tables[parent].rows))
  {
    var t, cols := db.tables[parent], PartitionColumns(ty, db, parent).value;
    forall k | 0 <= k < |cols|
      ensures DuckView(ty, types, cols[k]).name == Views(t.rows)[k].name && DuckView(ty, types, cols[k]).hasDef == Views(t.rows)[k].hasDef
    {
      PrintedAt(ty, db.reg, ActiveRows(t.rows), t.defaults, PrimaryOf(db, parent), k);
      ActiveRowsAreViews(t.rows, k);
    }
  }

  /** What `NewPartition` leaves, step by step. */
  ghost predicate Attached(ty: Typing, db: Db, parent: int, cols: seq<DuckColumn>, at: nat, mid: Db, db1: Db) {
    var id := db.reg.nextOid;
    && parent in db.partitions && parent in db.tables && at <= |db.partitions[parent]| && parent != id
    && PartitionColumns(ty, db, parent) == Some(cols) && NewRelation(ty, db, cols, Ordinary) == Some(mid)
    && parent in mid.tables && mid.tables[parent] == db.tables[parent]
    && var children := Inserted(db.partitions[parent], at, id);
       && LeadsTo(db, db1, parent, children) && children[0] in mid.tables && parent in db1.tables && ShowsColumns(db1.tables[parent].phys, mid.tables[children[0]].phys)
       && db1 == mid.(internal := db.internal + {id}, partitions := db.partitions[parent := children], deps := db1.deps,
                      tables := mid.tables[parent := db.tables[parent].(phys := db1.tables[parent].phys)])
  }

  lemma NewPartitionAttaches(ty: Typing, db: Db, parent: int, at: nat) returns (cols: seq<DuckColumn>, mid: Db)
    requires DbOk(ty, db) && NewPartition(ty, db, parent, at).Some?
    ensures Attached(ty, db, parent, cols, at, mid, NewPartition(ty, db, parent, at).value)
  {
    cols := PartitionColumns(ty, db, parent).value;
    mid := NewRelation(ty, db, cols, Ordinary).value;
    NewRelationIsSound(ty, db, cols, Ordinary);
    assert parent != db.reg.nextOid;
  }

  lemma AttachedIsStep(ty: Typing, db: Db, parent: int, cols: seq<DuckColumn>, at: nat, mid: Db, db1: Db)
    requires DbOk(ty, db) && Attached(ty, db, parent, cols, at, mid, db1)
    ensures Step(db, db1, {db.reg.nextOid, parent})
  {
    NewRelationIsSound(ty, db, cols, Ordinary);
    forall r | r != db.reg.nextOid && r != parent
      ensures SameAt(db, db1, r)
    {
      assert SameAt(db, mid, r);
    }
  }

  /** Each partition, the new one included, has the parent's columns and no larger attnum. */
  lemma AttachedChildOk(ty: Typing, db: Db, parent: int, cols: seq<DuckColumn>, at: nat, mid: Db, db1: Db, child: int)
    requires DbOk(ty, db) && Attached(ty, db, parent, cols, at, mid, db1)
    requires child == db.reg.nextOid || child in db.partitions[parent]
    ensures child in db1.internal && child in db1.kinds && db1.kinds[child] == Ordinary && child in db1.tables && child in mid.tables
    ensures child != parent && db1.tables[child] == mid.tables[child]
    ensures TableOk(ty, db1.reg.types, db1.tables[child]) && Alike(Views(db1.tables[child].rows), Views(db.tables[parent].rows))
    ensures MaxAttnum(db1.tables[child].rows) <= MaxAttnum(db.tables[parent].rows)
  {
    NewRelationIsSound(ty, db, cols, Ordinary);
    assert RelationOk(ty, db, parent);
    if child == db.reg.nextOid {
      PrintedAreAlike(ty, db, parent, mid.reg.types);
      ActiveCountIsBelowMax(db.tables[parent].rows);
    } else {
      assert RelationOk(ty, db, child) && SameAt(db, mid, child);
      GrowthKeepsAligned(ty, db.reg, mid.reg, db.tables[child]);
    }
  }

  lemma AttachedParentOk(ty: Typing, db: Db, parent: int, cols: seq<DuckColumn>, at: nat, mid: Db, db1: Db)
    requires DbOk(ty, db) && Attached(ty, db, parent, cols, at, mid, db1)
    ensures PartitionOk(db1, parent)
  {
    var id, was := db.reg.nextOid, db.partitions[parent];
    FreshIsApart(ty, db, id);
    assert RelationOk(ty, db, parent);
    assert forall i :: 0 <= i < |was| ==> was[i] in was;
    InsertedIsDistinct(was, at, id);
    InsertedMembers(was, at, id);
    forall child <- db1.partitions[parent]
      ensures child in db1.internal && child in db1.kinds && db1.kinds[child] == Ordinary && child in db1.tables
      ensures Alike(Views(db1.tables[child].rows), Views(db.tables[parent].rows))
      ensures MaxAttnum(db1.tables[child].rows) <= MaxAttnum(db.tables[parent].rows)
    {
      AttachedChildOk(ty, db, parent, cols, at, mid, db1, child);
    }
    var first := db1.partitions[parent][0];
    AttachedChildOk(ty, db, parent, cols, at, mid, db1, first);
    EntryFromChild(ty, db1.reg.types, mid.tables[first], db1.tables[parent].phys);
    assert SameAt(db, mid, parent) by {
      NewRelationIsSound(ty, db, cols, Ordinary);
    }
  }

  lemma AttachedApart(ty: Typing, db: Db, parent: int, cols: seq<DuckColumn>, at: nat, mid: Db, db1: Db)
    requires DbOk(ty, db) && Attached(ty, db, parent, cols, at, mid, db1)
    ensures forall p, q :: Apart(db1, p, q)
  {
    FreshIsApart(ty, db, db.reg.nextOid);
    PartitionsAreApart(ty, db, parent);
    InsertedMembers(db.partitions[parent], at, db.reg.nextOid);
    forall p, q
      ensures Apart(db1, p, q)
    {
      assert Apart(db, p, q);
    }
  }

  lemma AttachedKeysOk(ty: Typing, db: Db, parent: int, cols: seq<DuckColumn>, at: nat, mid: Db, db1: Db)
    requires DbOk(ty, db) && Attached(ty, db, parent, cols, at, mid, db1)
    ensures NewKeysOk(db, db1, {db.reg.nextOid, parent})
  {
    NewRelationIsSound(ty, db, cols, Ordinary);
    SameKeysOk(db, parent, db1);
  }

  lemma SameKeysOk(db: Db, parent: int, db1: Db)
    requires forall i :: 0 <= i < |db.keys| ==> KeyRowOk(db, db.keys[i])
    requires db.reg.nextOid !in db.tables && db.reg.nextOid <= db1.reg.nextOid && db1.keys == db.keys
    requires parent in db.tables && parent in db1.tables && db1.tables[parent].rows == db.tables[parent].rows
    requires db1.internal == db.internal + {db.reg.nextOid}
    ensures NewKeysOk(db, db1, {db.reg.nextOid, parent})
  {
    forall i | 0 <= i < |db1.keys| && db1.keys[i].relid in {db.reg.nextOid, parent}
      ensures KeyRowOk(db1, db1.keys[i])
    {
      assert KeyRowOk(db, db.keys[i]);
    }
  }

  lemma AddPartitionKeepsDb(ty: Typing, db: Db, parent: int, at: nat)
    requires DbOk(ty, db) && NewPartition(ty, db, parent, at).Some?
    ensures var db1 := NewPartition(ty, db, parent, at).value; DbOk(ty, db1) && AllNumbersKept(db, db1)
  {
    var db1 := NewPartition(ty, db, parent, at).value;
    var cols, mid := NewPartitionAttaches(ty, db, parent, at);
    AttachedKeepsDb(ty, db, parent, cols, at, mid, db1);
  }

  lemma AttachedRelationsOk(ty: Typing, db: Db, parent: int, cols: seq<DuckColumn>, at: nat, mid: Db, db1: Db)
    requires DbOk(ty, db) && Attached(ty, db, parent, cols, at, mid, db1)
    ensures RelationOk(ty, db1, db.reg.nextOid) && RelationOk(ty, db1, parent)
  {
    NewRelationIsSound(ty, db, cols, Ordinary);
    AttachedParentOk(ty, db, parent, cols, at, mid, db1);
    AttachedChildOk(ty, db, parent, cols, at, mid, db1, db.reg.nextOid);
    assert RelationOk(ty, db, parent) && SameAt(db, mid, parent);
  }

  lemma AttachedDeps(ty: Typing, db: Db, parent: int, cols: seq<DuckColumn>, at: nat, mid: Db, db1: Db)
    requires DbOk(ty, db) && Attached(ty, db, parent, cols, at, mid, db1)
    ensures DepsOk(db1) && DepsKept(db, db1)
  {
    var id := db.reg.nextOid;
    var children := Inserted(db.partitions[parent], at, id);
    NewRelationIsSound(ty, db, cols, Ordinary);
    PartitionsAreApart(ty, db, parent);
    InsertedMembers(db.partitions[parent], at, id);
    forall r <- db.tables
      ensures r in db1.tables
    {
      assert r != id && SameAt(db, mid, r);
    }
    forall x <- children
      ensures x in db1.tables
    {
      assert x == id || x in db.partitions[parent];
    }
    LeadingKeepsDeps(db, db1, parent, children);
  }

  lemma TwoTouched(ty: Typing, a: Db, b: Db, x: int, y: int)
    requires DepsOk(b) && RelationOk(ty, b, x) && RelationOk(ty, b, y) && forall p, q :: Apart(b, p, q)
    requires forall q <- a.partitions :: q !in {x, y} ==> forall c <- a.partitions[q] :: c !in {x, y}
    ensures TouchedOk(ty, a, b, {x, y})
  {}

  lemma AttachedTouchedOk(ty: Typing, db: Db, parent: int, cols: seq<DuckColumn>, at: nat, mid: Db, db1: Db)
    requires DbOk(ty, db) && Attached(ty, db, parent, cols, at, mid, db1)
    ensures TouchedOk(ty, db, db1, {db.reg.nextOid, parent})
  {
    AttachedApart(ty, db, parent, cols, at, mid, db1);
    AttachedRelationsOk(ty, db, parent, cols, at, mid, db1);
    OthersAreApart(ty, db, parent);
    AttachedDeps(ty, db, parent, cols, at, mid, db1);
    TwoTouched(ty, db, db1, db.reg.nextOid, parent);
  }

  lemma OthersAreApart(ty: Typing, db: Db, parent: int)
    requires DbOk(ty, db) && parent in db.partitions
    ensures forall q <- db.partitions :: q !in {db.reg.nextOid, parent} ==> forall c <- db.partitions[q] :: c !in {db.reg.nextOid, parent}
  {
    FreshIsApart(ty, db, db.reg.nextOid);
    PartitionsAreApart(ty, db, parent);
  }

  lemma AttachedKeepsDb(ty: Typing, db: Db, parent: int, cols: seq<DuckColumn>, at: nat, mid: Db, db1: Db)
    requires DbOk(ty, db) && Attached(ty, db, parent, cols, at, mid, db1)
    ensures DbOk(ty, db1) && AllNumbersKept(db, db1)
  {
    var touched := {db.reg.nextOid, parent};
    AttachedIsStep(ty, db, parent, cols, at, mid, db1);
    AttachedTouchedOk(ty, db, parent, cols, at, mid, db1);
    AttachedKeysOk(ty, db, parent, cols, at, mid, db1);
    StepKeepsDb(ty, db, db1, touched);
    assert RelationOk(ty, db, db.reg.nextOid);
    SameKeysKept(db, db1);
    AttachedDeps(ty, db, parent, cols, at, mid, db1);
    forall r <- db1.tables
      ensures if r in db.tables then NumbersKept(db.tables[r].rows, db1.tables[r].rows) else db.reg.nextOid <= r
    {
      assert r !in touched ==> SameAt(db, db1, r);
    }
  }

  /// What the statements create

  lemma NewRelationFiles(ty: Typing, db: Db, cols: seq<DuckColumn>, kind: Kind)
    requires NewRelation(ty, db, cols, kind).Some?
    ensures var id, db1 := db.reg.nextOid, NewRelation(ty, db, cols, kind).value;
            && id in db1.kinds && db1.kinds[id] == kind && id in db1.tables && Files(ty, db1.reg.types, db1.tables[id], cols, |cols|)
  {
    CreateOnFiles(ty, db.reg.(nextOid := db.reg.nextOid + 3), cols);
  }

  /** CREATE TABLE files the columns it declares, with their NOT NULL and defaults as declared; in DuckDB the columns of
      the primary key are NOT NULL as well. */
  lemma CreateTableDoes(ty: Typing, db: Db, defs: seq<ColumnDef>)
    requires RegistryOk(db.reg) && NewTable(ty, db, defs).Some?
    ensures var id, db1 := db.reg.nextOid, NewTable(ty, db, defs).value;
            && id in db1.kinds && db1.kinds[id] == Ordinary && id in db1.tables && |db1.tables[id].phys| == |defs|
            && (forall k :: 0 <= k < |defs| ==>
                  db1.tables[id].phys[k] == DuckColumn(defs[k].name, defs[k].duckType, defs[k].notNull || defs[k].primaryKey, defs[k].default))
            && Files(ty, db1.reg.types, db1.tables[id], Filed(defs), |defs|)
  {
    NewRelationFiles(ty, db, Filed(defs), Ordinary);
  }

  /** A new partition takes its place among the partitions, and its rows are the columns DuckDB reports for the
      parent's printed ones. */
  lemma AddPartitionDoes(ty: Typing, db: Db, parent: int, at: nat)
    requires DbOk(ty, db) && NewPartition(ty, db, parent, at).Some?
    ensures var id, db1 := db.reg.nextOid, NewPartition(ty, db, parent, at).value;
            && parent in db.partitions && at <= |db.partitions[parent]| && parent in db1.partitions && id in db1.tables && id in db1.internal
            && db1.partitions[parent] == db.partitions[parent][..at] + [id] + db.partitions[parent][at..]
            && parent in db.tables && PartitionColumns(ty, db, parent) == Some(db1.tables[id].phys)
            && Files(ty, db1.reg.types, db1.tables[id], db1.tables[id].phys, |db1.tables[id].phys|)
  {
    var cols, mid := NewPartitionAttaches(ty, db, parent, at);
    NewRelationFiles(ty, db, cols, Ordinary);
    NewRelationIsSound(ty, db, cols, Ordinary);
  }

  lemma {:induction false} AttnumsAreNamed(ty: Typing, t: Table, names: seq<string>)
    requires AttnumsOf(ty, t, names).Some?
    ensures |AttnumsOf(ty, t, names).value| == |names|
    ensures forall i :: 0 <= i < |names| ==> ColumnAttnum(t.rows, names[i]) == Some(AttnumsOf(ty, t, names).value[i])
  {
    if names != [] {
      AttnumsAreNamed(ty, t, names[1..]);
    }
  }

  /** A key list reads as the numbers of the named columns, in order. */
  lemma CreateKeyDoes(ty: Typing, db: Db, owner: int, rel: int, names: seq<string>)
    requires DbOk(ty, db) && NewKeyRow(ty, db, owner, rel, names).Some?
    ensures var db1 := NewKeyRow(ty, db, owner, rel, names).value;
            && rel in db.tables && |db1.keys| == |db.keys| + 1 && db1.keys[..|db.keys|] == db.keys
            && var key := db1.keys[|db.keys|];
               && key.owner == owner && key.relid == rel && |ParseAttnums(key.attnums)| == |names|
               && forall i :: 0 <= i < |names| ==> ColumnAttnum(db.tables[rel].rows, names[i]) == Some(ParseAttnums(key.attnums)[i])
  {
    AttnumsAreActive(ty, db.tables[rel], names);
    AttnumsAreNamed(ty, db.tables[rel], names);
    ParseInvertsJoin(AttnumsOf(ty, db.tables[rel], names).value);
  }

  /// A new key

  lemma {:induction false} AttnumsAreActive(ty: Typing, t: Table, names: seq<string>)
    requires AttnumsOf(ty, t, names).Some?
    ensures var r := AttnumsOf(ty, t, names).value;
            InRange(r) && forall i :: 0 <= i < |r| ==> r[i] in ActiveAttnums(t.rows)
  {
    if names != [] {
      AttnumsAreActive(ty, t, names[1..]);
    }
  }

  lemma CreateKeyKeepsDb(ty: Typing, db: Db, owner: int, rel: int, names: seq<string>)
    requires DbOk(ty, db) && NewKeyRow(ty, db, owner, rel, names).Some?
    ensures var db1 := NewKeyRow(ty, db, owner, rel, names).value; DbOk(ty, db1) && AllNumbersKept(db, db1)
  {
    var db1 := NewKeyRow(ty, db, owner, rel, names).value;
    assert RelationOk(ty, db, owner);
    AttnumsAreActive(ty, db.tables[rel], names);
    assert KeyRowOk(db1, db1.keys[|db.keys|]);
    StepKeepsDb(ty, db, db1, {});
  }

  /// A dropped table

  lemma DropIsFrame(db: Db, rel: int)
    requires RegistryOk(db.reg) && Dropped(db, rel).Some?
    ensures Frame(db, Dropped(db, rel).value, GoneWith(db, rel))
  {}

  /** The partitions of other tables stay. */
  lemma GoneIsApart(ty: Typing, db: Db, rel: int, q: int)
    requires DbOk(ty, db) && rel in db.kinds && rel !in db.internal && q in db.partitions && q !in GoneWith(db, rel)
    ensures forall c <- db.partitions[q] :: c !in GoneWith(db, rel)
  {
    assert RelationOk(ty, db, q) && Apart(db, q, rel);
  }

  lemma StayingKeyIsOk(a: Db, b: Db, gone: set<int>, key: Key)
    requires Frame(a, b, gone) && KeyRowOk(a, key) && key.relid !in gone
    ensures KeyRowOk(b, key)
  {
    assert SameAt(a, b, key.relid);
  }

  lemma DropKeepsDb(ty: Typing, db: Db, rel: int)
    requires DbOk(ty, db) && Dropped(db, rel).Some?
    ensures var db1 := Dropped(db, rel).value; DbOk(ty, db1) && AllNumbersKept(db, db1)
  {
    var db1, gone := Dropped(db, rel).value, GoneWith(db, rel);
    DropIsFrame(db, rel);
    forall r
      ensures RelationOk(ty, db1, r)
    {
      assert RelationOk(ty, db, r);
      if r !in gone {
        if r in db.partitions {
          GoneIsApart(ty, db, rel, r);
        }
        OthersStayOk(ty, db, db1, gone, r);
      }
    }
    forall p, q
      ensures Apart(db1, p, q)
    {
      assert Apart(db, p, q);
    }
    DropKeepsKeyRows(ty, db, rel);
    DropKeepsDeps(ty, db, rel);
    DropKeepsNumbersAndKeys(ty, db, rel);
  }

  lemma DropKeepsKeyRows(ty: Typing, db: Db, rel: int)
    requires DbOk(ty, db) && Dropped(db, rel).Some?
    ensures var db1 := Dropped(db, rel).value; forall i :: 0 <= i < |db1.keys| ==> KeyRowOk(db1, db1.keys[i])
  {
    var db1, gone := Dropped(db, rel).value, GoneWith(db, rel);
    DropIsFrame(db, rel);
    forall i | 0 <= i < |db1.keys|
      ensures KeyRowOk(db1, db1.keys[i])
    {
      assert db1.keys[i] in db1.keys;
      var j :| 0 <= j < |db.keys| && db.keys[j] == db1.keys[i];
      StayingKeyIsOk(db, db1, gone, db.keys[j]);
    }
  }

  /** Only dependency rows of and to dropped relations go. */
  lemma DropKeepsDeps(ty: Typing, db: Db, rel: int)
    requires DbOk(ty, db) && Dropped(db, rel).Some?
    ensures var db1, gone := Dropped(db, rel).value, GoneWith(db, rel);
            && DepsOk(db1) && DepsKept(db, db1)
            && forall d: (int, int) :: d in db1.deps <==> d in db.deps && d.0 !in gone && d.1 !in gone
  {
    var db1, gone := Dropped(db, rel).value, GoneWith(db, rel);
    assert DepsOk(db) && RelationOk(ty, db, rel);
    forall p, x | p in db1.partitions
      ensures (p, x) in db1.deps <==> x in db1.partitions[p]
    {
      GoneIsApart(ty, db, rel, p);
      assert (p, x) in db.deps <==> x in db.partitions[p];
    }
  }

  lemma DropKeepsNumbersAndKeys(ty: Typing, db: Db, rel: int)
    requires DbOk(ty, db) && Dropped(db, rel).Some?
    ensures AllNumbersKept(db, Dropped(db, rel).value)
  {
    var db1, gone := Dropped(db, rel).value, GoneWith(db, rel);
    DropKeepsDeps(ty, db, rel);
    assert RelationOk(ty, db, rel);
    forall i | 0 <= i < |db.keys|
      ensures db.keys[i] in db1.keys || db.keys[i].owner !in db1.tables || db.keys[i].relid !in db1.tables
    {
      assert db.keys[i] in db.keys;
    }
  }

  lemma IdsAreOld(ty: Typing, db: Db)
    requires DbOk(ty, db)
    ensures OldIds(db)
  {
    forall r <- db.tables
      ensures r < db.reg.nextOid
    {
      assert RelationOk(ty, db, r);
    }
    forall i | 0 <= i < |db.keys|
      ensures db.keys[i].owner < db.reg.nextOid && db.keys[i].relid < db.reg.nextOid
    {
      assert KeyRowOk(db, db.keys[i]) && RelationOk(ty, db, db.keys[i].relid);
    }
  }

  /// Runs

  lemma ExecuteKeepsDb(ty: Typing, db: Db, s: Statement)
    requires DbOk(ty, db)
    ensures DbOk(ty, Execute(ty, db, s)) && AllNumbersKept(db, Execute(ty, db, s))
  {
    if Apply(ty, db, s).Some? {
      match s
      case CreateTable(defs) => CreateTableKeepsDb(ty, db, defs);
      case CreatePartitioned(defs, key) => CreatePartitionedKeepsDb(ty, db, defs, key);
      case AddPartition(parent, at) => AddPartitionKeepsDb(ty, db, parent, at);
      case CreateKey(owner, rel, names) => CreateKeyKeepsDb(ty, db, owner, rel, names);
      case DropTable(rel) => DropKeepsDb(ty, db, rel);
      case AlterTable(rel, alter) => AlterRelationKeepsDb(ty, db, rel, alter);
    }
  }

  /** Over any run, catalog and DuckDB stay in step, attnums are never reused, and dropped columns
      stay dropped. */
  lemma {:induction false} RunKeepsDb(ty: Typing, db: Db, ss: seq<Statement>)
    requires DbOk(ty, db)
    ensures DbOk(ty, Run(ty, db, ss)) && AllNumbersKept(db, Run(ty, db, ss))
    decreases |ss|
  {
    if ss != [] {
      var next := Execute(ty, db, ss[0]);
      ExecuteKeepsDb(ty, db, ss[0]);
      RunKeepsDb(ty, next, ss[1..]);
      IdsAreOld(ty, db);
      AllNumbersKeptTrans(db, next, Run(ty, next, ss[1..]));
    }
  }

  const NO_RELATIONS := Db(map[], map[], Registry(map[], FIRST_USER_OID), {}, {}, [], map[], map[], map[])

  /** Every state reached from the empty catalog is sound. */
  lemma EveryRunIsSound(ty: Typing, ss: seq<Statement>)
    ensures DbOk(ty, Run(ty, NO_RELATIONS, ss))
  {
    assert DbOk(ty, NO_RELATIONS);
    RunKeepsDb(ty, NO_RELATIONS, ss);
  }

  /** For a table that stores rows: the catalog's active columns are DuckDB's columns in the same
      order, each with the type id and modifier of its DuckDB type; names are unique up to case; the
      stored count is right. */
  lemma TablesMatchDuckdb(ty: Typing, ss: seq<Statement>, rel: int, k: nat)
    requires var db := Run(ty, NO_RELATIONS, ss);
             rel in db.kinds && db.kinds[rel] == Ordinary && rel in db.tables && k < |db.tables[rel].phys|
    ensures var db := Run(ty, NO_RELATIONS, ss); var t := db.tables[rel]; var vs := Views(t.rows);
            && t.natts == |t.phys| == |vs|
            && vs[k].name == Lower(t.phys[k].name) && vs[k].typeId == TypeIdIn(ty, db.reg.types, t.phys[k].duckType)
            && vs[k].typeId.Some? && vs[k].typmod == ty.modifier(t.phys[k].duckType)
            && (vs[k].hasDef <==> t.phys[k].default.Some?) && (vs[k].hasDef <==> ActiveAttnums(t.rows)[k] in t.defaults)
            && (forall j :: 0 <= j < |vs| && j != k ==> vs[j].name != vs[k].name)
  {
    EveryRunIsSound(ty, ss);
    assert RelationOk(ty, Run(ty, NO_RELATIONS, ss), rel);
  }

  /** For a partitioned table: every partition has its active columns, in order and with defaults in the same
      places, and no partition uses an attnum above its largest, so the shared number of the next column is
      free everywhere. */
  lemma PartitionsMatchParent(ty: Typing, ss: seq<Statement>, parent: int, child: int)
    requires var db := Run(ty, NO_RELATIONS, ss); parent in db.partitions && child in db.partitions[parent]
    ensures var db := Run(ty, NO_RELATIONS, ss);
            && parent in db.tables && child in db.tables && parent in db.partitionKey
            && Alike(Views(db.tables[child].rows), Views(db.tables[parent].rows))
            && (forall i :: 0 <= i < |db.tables[child].rows| ==> db.tables[child].rows[i].attnum < MaxAttnum(db.tables[parent].rows) + 1)
            && ColumnAttnum(db.tables[parent].rows, db.partitionKey[parent]).Some?
            && |db.tables[parent].phys| == |db.tables[child].phys|
            && forall x :: (parent, x) in db.deps <==> x in db.partitions[parent]
  {
    var db := Run(ty, NO_RELATIONS, ss);
    EveryRunIsSound(ty, ss);
    assert RelationOk(ty, db, parent) && RelationOk(ty, db, child);
  }

  /** Every number read back from a stored key list is the attnum of an active column. */
  lemma KeysNameActiveColumns(ty: Typing, ss: seq<Statement>, i: nat, j: nat)
    requires var db := Run(ty, NO_RELATIONS, ss); i < |db.keys| && j < |ParseAttnums(db.keys[i].attnums)|
    ensures var db := Run(ty, NO_RELATIONS, ss);
            db.keys[i].relid in db.tables && ParseAttnums(db.keys[i].attnums)[j] in ActiveAttnums(db.tables[db.keys[i].relid].rows)
  {
    var db := Run(ty, NO_RELATIONS, ss);
    EveryRunIsSound(ty, ss);
    var key := db.keys[i];
    assert KeyRowOk(db, key);
    var attnums: seq<nat> :| InRange(attnums) && key.attnums == JoinAttnums(attnums)
      && forall k :: 0 <= k < |attnums| ==> attnums[k] in ActiveAttnums(db.tables[key.relid].rows);
    ParseInvertsJoin(attnums);
  }
}
