/** ALTER TABLE as the connection carries it out: one statement after another on catalog and DuckDB. */
module AlterConnection {
  import opened Text
  import opened TableColumns
  import opened TableChanges
  import opened KeyLists
  import opened AlterTable
  import opened Consistency
  import opened AlterRuns
  import opened AlterOutcomes
  import opened CatalogRuns

  lemma AppendedIsFound(cols: seq<DuckColumn>, col: DuckColumn)
    requires PhysIndex(cols, col.name).None?
    ensures PhysIndex(cols + [col], col.name) == Some(|cols|)
  {
    assert (cols + [col])[|cols|] == col;
  }

  lemma {:induction false} OthersKeepTheirRows(ty: Typing, db: Db, children: seq<int>, c: Change, rel: int)
    requires rel !in children && rel in db.tables && ChangeChildren(ty, db, children, c).Some?
    ensures var db1 := ChangeChildren(ty, db, children, c).value;
            rel in db1.tables && db1.tables[rel] == db.tables[rel] && db1.partitions == db.partitions && db1.partitionKey == db.partitionKey
    decreases |children|
  {
    if children != [] {
      var (reg1, t1) := ChangeTable(ty, db.reg, db.tables[children[0]], c).value;
      OthersKeepTheirRows(ty, Put(db, children[0], reg1, t1), children[1..], c, rel);
    }
  }

  lemma EdgesOfPrefix(parent: int, children: seq<int>, i: nat)
    requires i < |children|
    ensures Edges(parent, children[..i + 1]) == Edges(parent, children[..i]) + {(parent, children[i])}
  {
    assert children[..i + 1] == children[..i] + [children[i]];
  }

  lemma PutTwice(db: Db, rel: int, reg: Registry, t: Table, t1: Table)
    ensures Put(Put(db, rel, reg, t), rel, reg, t1) == Put(db, rel, reg, t1)
  {}

  lemma PutNothing(db: Db, rel: int)
    requires rel in db.tables
    ensures Put(db, rel, db.reg, db.tables[rel]) == db
  {}

  lemma KeepingKey(keys: map<int, string>, rel: int)
    requires rel in keys
    ensures keys[rel := keys[rel]] == keys
  {}

  lemma AlterPartitionsIs(ty: Typing, db: Db, parent: int, a: Alter, c: Change)
    requires parent in db.tables && parent in db.partitionKey && parent in db.partitions && db.partitions[parent] != []
    requires PartitionChange(db, parent, a) == Some(c)
    ensures var mid := ChangeChildren(ty, db, db.partitions[parent], c);
            AlterPartitions(ty, db, parent, a)
            == if mid.None? then None else FinishParent(ty, mid.value, parent, db.partitions[parent][0], db.partitionKey[parent], a)
  {}

  ghost predicate ShownAs(cols: seq<DuckColumn>, name: string, col: DuckColumn) {
    PhysIndex(cols, name).Some? && cols[PhysIndex(cols, name).value] == col
  }

  ghost predicate Shows(db: Db, rel: int, name: string, col: DuckColumn) {
    rel in db.tables && ShownAs(db.tables[rel].phys, name, col)
  }

  lemma ParentIsValid(ty: Typing, db: Db, p: int)
    requires DbOk(ty, db) && p in db.partitions
    ensures p !in db.partitions[p] && Distinct(db.partitions[p])
  {
    PartitionsAreApart(ty, db, p);
  }

  class Connection {
    const ty: Typing
    var db: Db

    ghost predicate Valid()
      reads this
    {
      DbOk(ty, db)
    }

    constructor (ty: Typing)
      ensures this.ty == ty && db == NO_RELATIONS && Valid()
    {
      this.ty := ty;
      db := NO_RELATIONS;
      new;
      EveryRunIsSound(ty, []);
    }

    /// Statements on one relation

    /** `load_duckdb_columns`: registers the complex types it meets. */
    method LoadDuckdbColumns(rel: int) returns (r: Option<seq<DuckColumn>>)
      requires rel in db.tables
      modifies this
      ensures var reg := EnsureAll(ty, old(db.reg), old(db.tables[rel].phys));
              if reg.None? then r.None? else r == Some(old(db.tables[rel].phys)) && db == old(db).(reg := reg.value)
    {
      var cols := db.tables[rel].phys;
      for i := 0 to |cols|
        invariant db == old(db).(reg := db.reg)
        invariant EnsureAll(ty, db.reg, cols[i..]) == EnsureAll(ty, old(db.reg), cols)
      {
        SliceTail(cols, i);
        var reg := EnsureType(ty, db.reg, cols[i].duckType);
        if reg.None? {
          return None;
        }
        db := db.(reg := reg.value);
      }
      return Some(cols);
    }

    method InsertAttributeRow(rel: int, col: DuckColumn, attnum: int) returns (ok: bool)
      requires rel in db.tables
      modifies this
      ensures var r := WithTable(old(db), rel, InsertAttribute(ty, old(db.reg), old(db.tables[rel]), col, attnum));
              ok == r.Some? && (ok ==> db == r.value)
    {
      var r := InsertAttribute(ty, db.reg, db.tables[rel], col, attnum);
      if r.None? {
        return false;
      }
      db := Put(db, rel, r.value.0, r.value.1);
      return true;
    }

    method SyncCatalogColumn(rel: int, attnum: int, col: DuckColumn, name: string) returns (ok: bool)
      requires rel in db.tables
      modifies this
      ensures var r := WithTable(old(db), rel, Sync(ty, old(db.reg), old(db.tables[rel]), attnum, col, name));
              ok == r.Some? && (ok ==> db == r.value)
    {
      var reg := EnsureType(ty, db.reg, col.duckType);
      if reg.None? {
        return false;
      }
      db := db.(reg := reg.value);
      var t, id := db.tables[rel], TypeIdIn(ty, db.reg.types, col.duckType);
      if id.None? {
        return false;
      }
      t := t.(rows := UpdateRow(t.rows, attnum, Synced(name, id.value, ty.modifier(col.duckType), col)));
      t := t.(defaults := t.defaults - {attnum});
      var r := InsertDefault(db.reg, t, attnum, col.default);
      if r.None? {
        return false;
      }
      db := Put(db, rel, r.value.0, r.value.1);
      return true;
    }

    method MarkColumnDropped(rel: int, attnum: int)
      requires rel in db.tables
      modifies this
      ensures db == Put(old(db), rel, old(db.reg), MarkDropped(old(db.tables[rel]), attnum))
    {
      db := Put(db, rel, db.reg, MarkDropped(db.tables[rel], attnum));
    }

    method SetRelnattsToActiveAttributeCount(rel: int)
      requires rel in db.tables
      modifies this
      ensures db == Put(old(db), rel, old(db.reg), SetRelnatts(old(db.tables[rel])))
    {
      db := Put(db, rel, db.reg, SetRelnatts(db.tables[rel]));
    }

    method DuckdbColumn(rel: int, name: string) returns (r: Option<DuckColumn>)
      requires rel in db.tables
      modifies this
      ensures var reg, i := EnsureAll(ty, old(db.reg), old(db.tables[rel].phys)), PhysIndex(old(db.tables[rel].phys), name);
              if reg.None? || i.None? then r.None?
              else r == Some(old(db.tables[rel].phys)[i.value]) && db == old(db).(reg := reg.value)
    {
      var cols := LoadDuckdbColumns(rel);
      if cols.None? {
        return None;
      }
      var i := PhysIndex(cols.value, name);
      return if i.None? then None else Some(cols.value[i.value]);
    }

    /** DuckDB adds the column; the catalog row is written from what DuckDB then reports. */
    method AddColumnTo(rel: int, col: DuckColumn, attnum: int) returns (ok: bool)
      requires rel in db.tables
      modifies this
      ensures var r := WithTable(old(db), rel, AddOn(ty, old(db.reg), old(db.tables[rel]), col, attnum));
              ok == r.Some? && (ok ==> db == r.value)
    {
      var phys := DuckAdd(db.tables[rel].phys, col);
      if phys.None? {
        return false;
      }
      AppendedIsFound(db.tables[rel].phys, col);
      db := Put(db, rel, db.reg, db.tables[rel].(phys := phys.value));
      var column := DuckdbColumn(rel, col.name);
      if column.None? {
        return false;
      }
      ok := InsertAttributeRow(rel, column.value, attnum);
      if ok {
        SetRelnattsToActiveAttributeCount(rel);
      }
    }

    method RenameColumnOf(rel: int, old_: string, new_: string, attnum: int) returns (ok: bool)
      requires rel in db.tables
      modifies this
      ensures var r := WithTable(old(db), rel, RenameOn(ty, old(db.reg), old(db.tables[rel]), old_, new_, attnum));
              ok == r.Some? && (ok ==> db == r.value)
    {
      var phys := DuckRename(db.tables[rel].phys, old_, new_);
      if phys.None? {
        return false;
      }
      db := Put(db, rel, db.reg, db.tables[rel].(phys := phys.value));
      var column := DuckdbColumn(rel, new_);
      if column.None? {
        return false;
      }
      ok := SyncCatalogColumn(rel, attnum, column.value, new_);
    }

    /** Reports the column as DuckDB shows it afterwards. */
    method SetColumnTypeOf(rel: int, name: string, duckType: string, attnum: int) returns (r: Option<DuckColumn>)
      requires rel in db.tables
      modifies this
      ensures var after := WithTable(old(db), rel, SetTypeOn(ty, old(db.reg), old(db.tables[rel]), name, duckType, attnum));
              r.Some? == after.Some? && (r.Some? ==> db == after.value)
      ensures r.Some? ==> rel in db.tables && ShownAs(db.tables[rel].phys, name, r.value)
    {
      var phys := DuckSetType(db.tables[rel].phys, name, duckType);
      if phys.None? {
        return None;
      }
      db := Put(db, rel, db.reg, db.tables[rel].(phys := phys.value));
      r := DuckdbColumn(rel, name);
      if r.Some? {
        var ok := SyncCatalogColumn(rel, attnum, r.value, name);
        if !ok {
          return None;
        }
      }
    }

    method DropColumnOf(rel: int, name: string, attnum: int) returns (ok: bool)
      requires rel in db.tables
      modifies this
      ensures var t := DropOn(old(db.tables[rel]), name, attnum);
              ok == t.Some? && (ok ==> db == Put(old(db), rel, old(db.reg), t.value))
    {
      var phys := DuckDrop(db.tables[rel].phys, name);
      if phys.None? {
        return false;
      }
      db := Put(db, rel, db.reg, db.tables[rel].(phys := phys.value));
      MarkColumnDropped(rel, attnum);
      return true;
    }

    /// DROP COLUMN

    /** `drop_column_targets` */
    method DropColumnTargets(rel: int, names: seq<string>, ifExists: bool) returns (r: Option<seq<Target>>)
      requires rel in db.tables
      ensures r == TargetsOf(db.tables[rel].rows, names, ifExists)
    {
      var rows := db.tables[rel].rows;
      var columns: seq<Target> := [];
      CollectsFromStart(TargetsOf(rows, names, ifExists));
      assert names[0..] == names;
      for i := 0 to |names|
        invariant Collects(TargetsOf(rows, names, ifExists), columns, TargetsOf(rows, names[i..], ifExists))
      {
        SliceTail(names, i);
        var attnum := ColumnAttnum(rows, names[i]);
        if attnum.Some? {
          CollectsWith(TargetsOf(rows, names, ifExists), columns, (names[i], attnum.value), TargetsOf(rows, names[i + 1..], ifExists));
          columns := columns + [(names[i], attnum.value)];
        } else if !ifExists {
          return None;
        }
      }
      CollectsToEnd(TargetsOf(rows, names, ifExists), columns);
      return Some(columns);
    }

    /** `ensure_column_can_drop`: looks for the attnum in every key list of the relation. */
    method EnsureColumnCanDrop(rel: int, attnum: int) returns (ok: bool)
      ensures ok == CanDrop(db.keys, rel, attnum)
    {
      for i := 0 to |db.keys|
        invariant forall j :: 0 <= j < i && db.keys[j].relid == rel ==> !ListContains(db.keys[j].attnums, attnum)
      {
        if db.keys[i].relid == rel {
          var found := AnyPartEquals(db.keys[i].attnums, attnum);
          if found {
            return false;
          }
        }
      }
      return true;
    }

    method DropCheckedColumn(rel: int, name: string, attnum: int) returns (ok: bool)
      requires rel in db.tables
      modifies this
      ensures var t := DropOn(old(db.tables[rel]), name, attnum);
              && ok == (CanDrop(old(db.keys), rel, attnum) && t.Some?)
              && (ok ==> db == Put(old(db), rel, old(db.reg), t.value))
    {
      ok := EnsureColumnCanDrop(rel, attnum);
      if ok {
        ok := DropColumnOf(rel, name, attnum);
      }
    }

    method DropOrdinaryColumns(rel: int, targets: seq<Target>) returns (ok: bool)
      requires rel in db.tables
      modifies this
      ensures var t := DropTargets(old(db.tables[rel]), targets);
              && ok == (CanDropAll(old(db.keys), rel, targets) && t.Some?)
              && (ok ==> db == Put(old(db), rel, old(db.reg), SetRelnatts(t.value)))
    {
      ghost var was, t := db, db.tables[rel];
      PutNothing(db, rel);
      assert targets[0..] == targets;
      for i := 0 to |targets|
        invariant db == Put(was, rel, was.reg, t)
        invariant DropTargets(t, targets[i..]) == DropTargets(was.tables[rel], targets)
        invariant forall j :: 0 <= j < i ==> CanDrop(was.keys, rel, targets[j].1)
      {
        SliceTail(targets, i);
        var dropped := DropCheckedColumn(rel, targets[i].0, targets[i].1);
        if !dropped {
          return false;
        }
        PutTwice(was, rel, was.reg, t, DropOn(t, targets[i].0, targets[i].1).value);
        t := DropOn(t, targets[i].0, targets[i].1).value;
      }
      PutTwice(was, rel, was.reg, t, SetRelnatts(t));
      SetRelnattsToActiveAttributeCount(rel);
      return true;
    }

    /// Partitioned tables

    /** `refresh_partition_entrypoint`: the view, then the parent's dependency rows one by one. */
    method RefreshPartitionEntrypoint(parent: int) returns (ok: bool)
      modifies this
      ensures ok == Refresh(ty, old(db), parent).Some?
      ensures ok ==> db == Refresh(ty, old(db), parent).value
      ensures ok ==> parent in old(db).partitions && LeadsTo(old(db), db, parent, old(db).partitions[parent])
    {
      if parent !in db.tables || parent !in db.partitions {
        return false;
      }
      var children := db.partitions[parent];
      var cols := EntryColumns(ty, db, children);
      if cols.None? {
        return false;
      }
      var t := db.tables[parent].(phys := cols.value);
      var deps := OtherEdges(db.deps, parent);
      for i := 0 to |children|
        invariant db == old(db) && deps == OtherEdges(db.deps, parent) + Edges(parent, children[..i])
      {
        EdgesOfPrefix(parent, children, i);
        deps := deps + {(parent, children[i])};
      }
      assert children[..|children|] == children;
      db := db.(tables := db.tables[parent := t], deps := deps);
      return true;
    }

    /** The parent's partitions are other relations, each listed once. */
    ghost predicate Parent(parent: int)
      reads this
    {
      && parent in db.tables && parent in db.partitions && parent in db.partitionKey
      && parent !in db.partitions[parent] && Distinct(db.partitions[parent])
    }

    method AddColumnToPartitions(children: seq<int>, col: DuckColumn, attnum: int) returns (ok: bool)
      modifies this
      ensures var r := ChangeChildren(ty, old(db), children, Add(col, attnum)); ok == r.Some? && (ok ==> db == r.value)
    {
      assert children[0..] == children;
      for i := 0 to |children|
        invariant ChangeChildren(ty, db, children[i..], Add(col, attnum)) == ChangeChildren(ty, old(db), children, Add(col, attnum))
      {
        SliceTail(children, i);
        if children[i] !in db.tables {
          return false;
        }
        var added := AddColumnTo(children[i], col, attnum);
        if !added {
          return false;
        }
      }
      return true;
    }

    /** Columns are looked up by name in each partition: their attnums may differ from the parent's. */
    method DropNamesOf(rel: int, names: seq<string>) returns (ok: bool)
      requires rel in db.tables
      modifies this
      ensures var r := WithTable(old(db), rel, ChangeTable(ty, old(db.reg), old(db.tables[rel]), Drop(names)));
              ok == r.Some? && (ok ==> db == r.value)
    {
      ghost var was, t := db, db.tables[rel];
      PutNothing(db, rel);
      assert names[0..] == names;
      for i := 0 to |names|
        invariant db == Put(was, rel, was.reg, t)
        invariant DropNames(t, names[i..]) == DropNames(was.tables[rel], names)
      {
        SliceTail(names, i);
        var attnum := ColumnAttnum(db.tables[rel].rows, names[i]);
        if attnum.None? {
          return false;
        }
        var dropped := DropColumnOf(rel, names[i], attnum.value);
        if !dropped {
          return false;
        }
        PutTwice(was, rel, was.reg, t, DropOn(t, names[i], attnum.value).value);
        t := DropOn(t, names[i], attnum.value).value;
      }
      PutTwice(was, rel, was.reg, t, SetRelnatts(t));
      SetRelnattsToActiveAttributeCount(rel);
      return true;
    }

    method DropColumnsOfPartitions(children: seq<int>, names: seq<string>) returns (ok: bool)
      modifies this
      ensures var r := ChangeChildren(ty, old(db), children, Drop(names)); ok == r.Some? && (ok ==> db == r.value)
    {
      assert children[0..] == children;
      for i := 0 to |children|
        invariant ChangeChildren(ty, db, children[i..], Drop(names)) == ChangeChildren(ty, old(db), children, Drop(names))
      {
        SliceTail(children, i);
        if children[i] !in db.tables {
          return false;
        }
        var dropped := DropNamesOf(children[i], names);
        if !dropped {
          return false;
        }
      }
      return true;
    }

    method RenameColumnOfPartitions(children: seq<int>, old_: string, new_: string) returns (ok: bool)
      modifies this
      ensures var r := ChangeChildren(ty, old(db), children, Rename(old_, new_)); ok == r.Some? && (ok ==> db == r.value)
    {
      assert children[0..] == children;
      for i := 0 to |children|
        invariant ChangeChildren(ty, db, children[i..], Rename(old_, new_)) == ChangeChildren(ty, old(db), children, Rename(old_, new_))
      {
        SliceTail(children, i);
        if children[i] !in db.tables {
          return false;
        }
        var attnum := ColumnAttnum(db.tables[children[i]].rows, old_);
        if attnum.None? {
          return false;
        }
        var renamed := RenameColumnOf(children[i], old_, new_, attnum.value);
        if !renamed {
          return false;
        }
      }
      return true;
    }

    method SetColumnTypeOfPartition(child: int, name: string, duckType: string) returns (r: Option<DuckColumn>)
      requires child in db.tables
      modifies this
      ensures var after := WithTable(old(db), child, ChangeTable(ty, old(db.reg), old(db.tables[child]), Retype(name, duckType)));
              r.Some? == after.Some? && (r.Some? ==> db == after.value)
      ensures r.Some? ==> Shows(db, child, name, r.value)
      ensures r.Some? ==> forall rel, col :: rel != child && Shows(old(db), rel, name, col) ==> Shows(db, rel, name, col)
    {
      var attnum := ColumnAttnum(db.tables[child].rows, name);
      if attnum.None? {
        return None;
      }
      r := SetColumnTypeOf(child, name, duckType, attnum.value);
    }

    /** Reports the column as the first partition shows it. */
    method SetColumnTypeOfPartitions(children: seq<int>, name: string, duckType: string) returns (r: Option<DuckColumn>)
      requires children != [] && Distinct(children)
      modifies this
      ensures var after := ChangeChildren(ty, old(db), children, Retype(name, duckType));
              r.Some? == after.Some? && (r.Some? ==> db == after.value)
      ensures r.Some? ==> Shows(db, children[0], name, r.value)
    {
      ghost var whole := ChangeChildren(ty, db, children, Retype(name, duckType));
      r := None;
      if children[0] !in db.tables {
        return None;
      }
      r := SetColumnTypeOfPartition(children[0], name, duckType);
      if r.None? {
        return None;
      }
      for i := 1 to |children|
        invariant ChangeChildren(ty, db, children[i..], Retype(name, duckType)) == whole
        invariant Shows(db, children[0], name, r.value)
      {
        SliceTail(children, i);
        if children[i] !in db.tables {
          return None;
        }
        var column := SetColumnTypeOfPartition(children[i], name, duckType);
        if column.None? {
          return None;
        }
      }
    }

    /// The parent's own rows, after its partitions

    ghost predicate Ready(parent: int, child: int, key: string)
      reads this
    {
      parent in db.tables && child in db.tables && parent in db.partitionKey && db.partitionKey[parent] == key
    }

    method FinishAddColumn(parent: int, col: DuckColumn, ghost child: int, ghost key: string, ghost a: Alter) returns (ok: bool)
      requires Ready(parent, child, key) && a.AddColumn? && a.col == col
      modifies this
      ensures var r := FinishParent(ty, old(db), parent, child, key, a); ok == r.Some? && (ok ==> db == r.value)
    {
      var attnum := MaxAttnum(db.tables[parent].rows) + 1;
      KeepingKey(db.partitionKey, parent);
      ok := InsertAttributeRow(parent, col, attnum);
      if ok {
        SetRelnattsToActiveAttributeCount(parent);
        PutTwice(old(db), parent, db.reg, InsertAttribute(ty, old(db.reg), old(db.tables[parent]), col, attnum).value.1, db.tables[parent]);
        ok := RefreshPartitionEntrypoint(parent);
      }
    }

    method FinishDropColumns(parent: int, targets: seq<Target>, ghost child: int, ghost key: string, ghost a: Alter) returns (ok: bool)
      requires Ready(parent, child, key) && a.DropColumns? && TargetsOf(db.tables[parent].rows, a.names, a.ifExists) == Some(targets)
      modifies this
      ensures var r := FinishParent(ty, old(db), parent, child, key, a); ok == r.Some? && (ok ==> db == r.value)
    {
      KeepingKey(db.partitionKey, parent);
      MarkColumnsDropped(parent, targets);
      PutTwice(old(db), parent, db.reg, db.tables[parent], SetRelnatts(db.tables[parent]));
      SetRelnattsToActiveAttributeCount(parent);
      ok := RefreshPartitionEntrypoint(parent);
    }

    method MarkColumnsDropped(rel: int, targets: seq<Target>)
      requires rel in db.tables
      modifies this
      ensures db == Put(old(db), rel, old(db.reg), MarkAll(old(db.tables[rel]), targets))
    {
      ghost var was, t := db, db.tables[rel];
      PutNothing(db, rel);
      assert targets[0..] == targets;
      for i := 0 to |targets|
        invariant db == Put(was, rel, was.reg, t)
        invariant MarkAll(t, targets[i..]) == MarkAll(was.tables[rel], targets)
      {
        SliceTail(targets, i);
        MarkColumnDropped(rel, targets[i].1);
        PutTwice(was, rel, was.reg, t, MarkDropped(t, targets[i].1));
        t := MarkDropped(t, targets[i].1);
      }
    }

    method FinishRenameColumn(parent: int, attnum: int, old_: string, new_: string, ghost child: int, ghost a: Alter) returns (ok: bool)
      requires parent in db.partitionKey && Ready(parent, child, db.partitionKey[parent]) && a == RenameColumn(old_, new_)
      requires ColumnAttnum(db.tables[parent].rows, old_) == Some(attnum)
      modifies this
      ensures var r := FinishParent(ty, old(db), parent, child, old(db.partitionKey[parent]), a); ok == r.Some? && (ok ==> db == r.value)
    {
      KeepingKey(db.partitionKey, parent);
      var t, key := db.tables[parent], db.partitionKey[parent];
      db := Put(db, parent, db.reg, t.(rows := UpdateRow(t.rows, attnum, RENAME_TO(new_))));
      if EqIgnoreCase(old_, key) {
        db := db.(partitionKey := db.partitionKey[parent := new_]);
      }
      ok := RefreshPartitionEntrypoint(parent);
    }

    method FinishSetColumnType(parent: int, attnum: int, column: DuckColumn, name: string, ghost child: int, ghost key: string, ghost a: Alter)
      returns (ok: bool)
      requires Ready(parent, child, key) && a.SetType? && a.name == name && Shows(db, child, name, column)
      requires ColumnAttnum(db.tables[parent].rows, name) == Some(attnum)
      modifies this
      ensures var r := FinishParent(ty, old(db), parent, child, key, a); ok == r.Some? && (ok ==> db == r.value)
    {
      KeepingKey(db.partitionKey, parent);
      ok := SyncCatalogColumn(parent, attnum, column, name);
      if ok {
        ok := RefreshPartitionEntrypoint(parent);
      }
    }

    /// ALTER TABLE on a partitioned table

    /** `alter_partitioned_table_add_column` */
    method AlterPartitionedAddColumn(parent: int, col: DuckColumn, ifNotExists: bool) returns (ok: bool)
      requires Parent(parent)
      modifies this
      ensures var r := AlterPartitions(ty, old(db), parent, AddColumn(col, ifNotExists)); ok == r.Some? && (ok ==> db == r.value)
    {
      var children, attnum := db.partitions[parent], MaxAttnum(db.tables[parent].rows) + 1;
      if children == [] {
        return false;
      }
      AlterPartitionsIs(ty, db, parent, AddColumn(col, ifNotExists), Add(col, attnum));
      ok := AddColumnToPartitions(children, col, attnum);
      if !ok || children[0] !in db.tables {
        return false;
      }
      OthersKeepTheirRows(ty, old(db), children, Add(col, attnum), parent);
      ok := FinishAddColumn(parent, col, children[0], db.partitionKey[parent], AddColumn(col, ifNotExists));
    }

    /** `alter_partitioned_table_rename_column` */
    method AlterPartitionedRenameColumn(parent: int, old_: string, new_: string, attnum: int) returns (ok: bool)
      requires Parent(parent) && CanRename(db, parent, old_, new_) && ColumnAttnum(db.tables[parent].rows, old_) == Some(attnum)
      modifies this
      ensures var r := AlterPartitions(ty, old(db), parent, RenameColumn(old_, new_)); ok == r.Some? && (ok ==> db == r.value)
    {
      var children := db.partitions[parent];
      if children == [] {
        return false;
      }
      ok := RenameColumnOfPartitions(children, old_, new_);
      if !ok || children[0] !in db.tables {
        return false;
      }
      OthersKeepTheirRows(ty, old(db), children, Rename(old_, new_), parent);
      ok := FinishRenameColumn(parent, attnum, old_, new_, children[0], RenameColumn(old_, new_));
    }

    /** `alter_partitioned_table_set_column_type` */
    method AlterPartitionedSetColumnType(parent: int, name: string, duckType: string, attnum: int) returns (ok: bool)
      requires Parent(parent) && CanRetype(db, parent, name) && ColumnAttnum(db.tables[parent].rows, name) == Some(attnum)
      modifies this
      ensures var r := AlterPartitions(ty, old(db), parent, SetType(name, duckType)); ok == r.Some? && (ok ==> db == r.value)
    {
      var children := db.partitions[parent];
      if EqIgnoreCase(name, db.partitionKey[parent]) || children == [] {
        return false;
      }
      var column := SetColumnTypeOfPartitions(children, name, duckType);
      if column.None? {
        return false;
      }
      OthersKeepTheirRows(ty, old(db), children, Retype(name, duckType), parent);
      ok := FinishSetColumnType(parent, attnum, column.value, name, children[0], db.partitionKey[parent], SetType(name, duckType));
    }

    /** The partition key and every key list are checked before any partition is changed. */
    method EnsureParentColumnsCanDrop(parent: int, targets: seq<Target>) returns (ok: bool)
      requires parent in db.partitionKey
      ensures ok == (CanDropAll(db.keys, parent, targets)
                     && !exists i :: 0 <= i < |targets| && EqIgnoreCase(targets[i].0, db.partitionKey[parent]))
    {
      for i := 0 to |targets|
        invariant forall j :: 0 <= j < i ==> CanDrop(db.keys, parent, targets[j].1) && !EqIgnoreCase(targets[j].0, db.partitionKey[parent])
      {
        if EqIgnoreCase(targets[i].0, db.partitionKey[parent]) {
          return false;
        }
        var can := EnsureColumnCanDrop(parent, targets[i].1);
        if !can {
          return false;
        }
      }
      return true;
    }

    /** `alter_partitioned_table_drop_columns` */
    method AlterPartitionedDropColumns(parent: int, targets: seq<Target>, ghost a: Alter) returns (ok: bool)
      requires Parent(parent) && a.DropColumns? && TargetsOf(db.tables[parent].rows, a.names, a.ifExists) == Some(targets)
      modifies this
      ensures var r := AlterPartitions(ty, old(db), parent, a); ok == r.Some? && (ok ==> db == r.value)
    {
      ok := EnsureParentColumnsCanDrop(parent, targets);
      var children := db.partitions[parent];
      if !ok || children == [] {
        return false;
      }
      ok := DropColumnsOfPartitions(children, TargetNames(targets));
      if !ok || children[0] !in db.tables {
        return false;
      }
      OthersKeepTheirRows(ty, old(db), children, Drop(TargetNames(targets)), parent);
      ok := FinishDropColumns(parent, targets, children[0], db.partitionKey[parent], a);
    }

    /// ALTER TABLE

    method AlterOrdinaryTable(rel: int, a: Alter) returns (ok: bool)
      requires rel in db.tables
      modifies this
      ensures var r := AlterOrdinary(ty, old(db), rel, a); ok == r.Some? && (ok ==> db == r.value)
    {
      var t := db.tables[rel];
      match a
      case AddColumn(col, ifNotExists) =>
        if ColumnAttnum(t.rows, col.name).Some? {
          return ifNotExists;
        }
        db := Journal(db);
        ok := AddColumnTo(rel, col, MaxAttnum(t.rows) + 1);
      case DropColumns(names, ifExists) =>
        db := Journal(db);
        if names == [] {
          return false;
        }
        var targets := DropColumnTargets(rel, names, ifExists);
        if targets.None? {
          return false;
        }
        if targets.value == [] {
          return true;
        }
        ok := DropOrdinaryColumns(rel, targets.value);
      case RenameColumn(old_, new_) =>
        if !CanRename(db, rel, old_, new_) {
          return false;
        }
        db := Journal(db);
        ok := RenameColumnOf(rel, old_, new_, ColumnAttnum(t.rows, old_).value);
      case SetType(name, duckType) =>
        if !CanRetype(db, rel, name) {
          return false;
        }
        db := Journal(db);
        var column := SetColumnTypeOf(rel, name, duckType, ColumnAttnum(t.rows, name).value);
        ok := column.Some?;
    }

    method AlterPartitionedTable(rel: int, a: Alter) returns (ok: bool)
      requires Parent(rel)
      modifies this
      ensures var r := AlterPartitioned(ty, old(db), rel, a); ok == r.Some? && (ok ==> db == r.value)
    {
      var t := db.tables[rel];
      match a
      case AddColumn(col, ifNotExists) =>
        if ColumnAttnum(t.rows, col.name).Some? {
          return ifNotExists;
        }
        db := Journal(db);
        ok := AlterPartitionedAddColumn(rel, col, ifNotExists);
      case DropColumns(names, ifExists) =>
        db := Journal(db);
        if names == [] {
          return false;
        }
        var targets := DropColumnTargets(rel, names, ifExists);
        if targets.None? {
          return false;
        }
        if targets.value == [] {
          return true;
        }
        ok := AlterPartitionedDropColumns(rel, targets.value, a);
      case RenameColumn(old_, new_) =>
        if !CanRename(db, rel, old_, new_) {
          return false;
        }
        db := Journal(db);
        ok := AlterPartitionedRenameColumn(rel, old_, new_, ColumnAttnum(t.rows, old_).value);
      case SetType(name, duckType) =>
        if !CanRetype(db, rel, name) {
          return false;
        }
        db := Journal(db);
        ok := AlterPartitionedSetColumnType(rel, name, duckType, ColumnAttnum(t.rows, name).value);
    }

    /** `alter_table_relation`: inside one transaction, so a statement that fails changes nothing. */
    method AlterTableRelation(rel: int, a: Alter) returns (ok: bool)
      requires Valid()
      modifies this
      ensures Valid() && AllNumbersKept(old(db), db)
      ensures ok ==> Allowed(old(db), rel, a)
      ensures ok ==> forall r :: Concerned(old(db), rel, r) && r in old(db).tables ==>
                       r in db.tables && Does(ty, db.reg.types, Views(old(db).tables[r].rows), a, Views(db.tables[r].rows))
      ensures var r := AlterRelation(ty, old(db), rel, a); ok == r.Some? && db == (if ok then r.value else old(db))
    {
      var begin := db;
      if rel !in db.kinds || rel !in db.tables || rel in db.internal {
        return false;
      }
      ok := false;
      if db.kinds[rel] == Ordinary {
        ok := AlterOrdinaryTable(rel, a);
      } else if db.kinds[rel] == Partitioned && rel in db.partitions && rel in db.partitionKey {
        ParentIsValid(ty, db, rel);
        ok := AlterPartitionedTable(rel, a);
      }
      if ok {
        AlterRelationKeepsDb(ty, begin, rel, a);
        AlterIsAllowed(ty, begin, rel, a);
        forall r | Concerned(begin, rel, r) && r in begin.tables
          ensures r in db.tables && Does(ty, db.reg.types, Views(begin.tables[r].rows), a, Views(db.tables[r].rows))
        {
          AlterDoes(ty, begin, rel, a, r);
        }
      } else {
        db := begin;
      }
    }
  }
}
