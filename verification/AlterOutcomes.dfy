/** What ALTER TABLE does to the columns a statement names, and when it is refused. */
module AlterOutcomes {
  import opened Text
  import opened TableColumns
  import opened TableChanges
  import opened KeyLists
  import opened AlterTable
  import opened Consistency
  import opened AlterRuns

  /// The columns after the statement

  ghost predicate Named(v: View, name: string) { v.name == Lower(name) }

  ghost predicate HasColumn(vs: seq<View>, name: string) { exists k :: 0 <= k < |vs| && Named(vs[k], name) }

  ghost predicate IsAmong(v: View, names: seq<string>) { exists i :: 0 <= i < |names| && Named(v, names[i]) }

  /** The columns the statement does not name, in their order. */
  ghost function Others(vs: seq<View>, names: seq<string>): seq<View> {
    if vs == [] then [] else (if IsAmong(vs[0], names) then [] else [vs[0]]) + Others(vs[1..], names)
  }

  /** The list `ws` is `vs` after the statement: a column added at the end, the named ones gone, one renamed or one of
      another type, and every other column as it was and where it was. */
  ghost predicate Does(ty: Typing, types: map<string, int>, vs: seq<View>, a: Alter, ws: seq<View>) {
    match a
    case AddColumn(col, _) =>
      if HasColumn(vs, col.name) then ws == vs
      else ws == vs + [View(Lower(col.name), TypeIdIn(ty, types, col.duckType), ty.modifier(col.duckType), col.default.Some?)]
    case DropColumns(names, _) => ws == Others(vs, names)
    case RenameColumn(old_, new_) =>
      && !HasColumn(vs, new_)
      && exists k :: 0 <= k < |vs| && Named(vs[k], old_) && ws == vs[k := vs[k].(name := Lower(new_))]
    case SetType(name, duckType) =>
      exists k :: 0 <= k < |vs| && Named(vs[k], name)
               && ws == vs[k := vs[k].(typeId := TypeIdIn(ty, types, duckType), typmod := ty.modifier(duckType))]
  }

  lemma FoundIffHas(vs: seq<View>, name: string)
    ensures IndexOfName(vs, Lower(name)).Some? <==> HasColumn(vs, name)
  {
    var k := IndexOfName(vs, Lower(name));
    if k.Some? {
      assert Named(vs[k.value], name);
    }
  }

  lemma {:induction false} OthersOfNone(vs: seq<View>)
    ensures Others(vs, []) == vs
  {
    if vs != [] {
      OthersOfNone(vs[1..]);
    }
  }

  /** Two lists of names that name the same columns. */
  lemma {:induction false} SameOthers(vs: seq<View>, a: seq<string>, b: seq<string>)
    requires forall k :: 0 <= k < |vs| ==> (IsAmong(vs[k], a) <==> IsAmong(vs[k], b))
    ensures Others(vs, a) == Others(vs, b)
  {
    if vs != [] {
      assert forall k :: 0 <= k < |vs[1..]| ==> vs[1..][k] == vs[k + 1];
      SameOthers(vs[1..], a, b);
    }
  }

  lemma OthersCons(v: View, vs: seq<View>, names: seq<string>)
    ensures Others([v] + vs, names) == (if IsAmong(v, names) then [] else [v]) + Others(vs, names)
  {
    assert ([v] + vs)[1..] == vs;
  }

  /** Removing the one column a name finds first changes nothing for what is left. */
  lemma {:induction false} OthersWithout(vs: seq<View>, k: nat, names: seq<string>)
    requires k < |vs| && IsAmong(vs[k], names)
    ensures Others(Remove(vs, k), names) == Others(vs, names)
  {
    if k == 0 {
      assert Remove(vs, 0) == vs[1..];
    } else {
      OthersWithout(vs[1..], k - 1, names);
      OthersCons(vs[0], Remove(vs[1..], k - 1), names);
      assert Remove(vs, k) == [vs[0]] + Remove(vs[1..], k - 1);
    }
  }

  lemma AmongTail(v: View, names: seq<string>)
    requires names != []
    ensures IsAmong(v, names) <==> Named(v, names[0]) || IsAmong(v, names[1..])
  {
    if IsAmong(v, names) {
      var i :| 0 <= i < |names| && Named(v, names[i]);
      if i > 0 {
        assert Named(v, names[1..][i - 1]);
      }
    }
    if IsAmong(v, names[1..]) {
      var i :| 0 <= i < |names[1..]| && Named(v, names[1..][i]);
      assert Named(v, names[i + 1]);
    }
  }

  lemma RemovedIsOnly(vs: seq<View>, k: nat, name: string)
    requires UniqueNames(vs) && k < |vs| && Named(vs[k], name)
    ensures UniqueNames(Remove(vs, k)) && forall i :: 0 <= i < |Remove(vs, k)| ==> !Named(Remove(vs, k)[i], name)
  {}

  /** Removing columns by name one after the other leaves the others. */
  lemma {:induction false} RemoveNamesLeaves(vs: seq<View>, names: seq<string>)
    requires UniqueNames(vs) && RemoveNames(vs, names).Some?
    ensures RemoveNames(vs, names) == Some(Others(vs, names))
    decreases |names|
  {
    if names == [] {
      OthersOfNone(vs);
    } else {
      var k := IndexOfName(vs, Lower(names[0])).value;
      var rest := Remove(vs, k);
      RemovedIsOnly(vs, k, names[0]);
      RemoveNamesLeaves(rest, names[1..]);
      forall i | 0 <= i < |rest|
        ensures IsAmong(rest[i], names[1..]) <==> IsAmong(rest[i], names)
      {
        AmongTail(rest[i], names);
      }
      SameOthers(rest, names[1..], names);
      AmongTail(vs[k], names);
      OthersWithout(vs, k, names);
    }
  }

  /** Only names that find no column are passed over. */
  lemma {:induction false} TargetsAreNamed(rows: seq<ColumnRow>, names: seq<string>, ifExists: bool, v: View)
    requires TargetsOf(rows, names, ifExists).Some? && HasView(rows, v)
    ensures IsAmong(v, TargetNames(TargetsOf(rows, names, ifExists).value)) <==> IsAmong(v, names)
  {
    if names != [] {
      var targets, rest := TargetsOf(rows, names, ifExists).value, TargetsOf(rows, names[1..], ifExists).value;
      TargetsAreNamed(rows, names[1..], ifExists, v);
      AmongTail(v, names);
      if ColumnAttnum(rows, names[0]).Some? {
        assert TargetNames(targets)[0] == names[0] && TargetNames(targets)[1..] == TargetNames(rest);
        AmongTail(v, TargetNames(targets));
      } else {
        NotNamed(rows, v, names[0]);
      }
    }
  }

  ghost predicate HasView(rows: seq<ColumnRow>, v: View) { exists k :: 0 <= k < |Views(rows)| && Views(rows)[k].name == v.name }

  lemma NotNamed(rows: seq<ColumnRow>, v: View, name: string)
    requires HasView(rows, v) && IndexOfName(Views(rows), Lower(name)).None?
    ensures !Named(v, name)
  {}

  /** The same names in the same order. */
  ghost predicate SameNames(rows: seq<ColumnRow>, vs: seq<View>) {
    |Views(rows)| == |vs| && forall k :: 0 <= k < |vs| ==> Views(rows)[k].name == vs[k].name
  }

  lemma SameColumns(rows: seq<ColumnRow>, vs: seq<View>, name: string)
    requires SameNames(rows, vs)
    ensures HasColumn(vs, name) <==> HasColumn(Views(rows), name)
  {
    if HasColumn(vs, name) {
      var k :| 0 <= k < |vs| && Named(vs[k], name);
      assert Named(Views(rows)[k], name);
    }
    if HasColumn(Views(rows), name) {
      var k :| 0 <= k < |Views(rows)| && Named(Views(rows)[k], name);
      assert Named(vs[k], name);
    }
  }

  lemma DropDoes(ty: Typing, types: map<string, int>, rows: seq<ColumnRow>, vs: seq<View>, a: Alter, ws: seq<View>)
    requires a.DropColumns? && TargetsOf(rows, a.names, a.ifExists).Some? && SameNames(rows, vs) && UniqueNames(vs)
    requires RemoveNames(vs, TargetNames(TargetsOf(rows, a.names, a.ifExists).value)) == Some(ws)
    ensures Does(ty, types, vs, a, ws)
  {
    var named := TargetNames(TargetsOf(rows, a.names, a.ifExists).value);
    RemoveNamesLeaves(vs, named);
    forall k | 0 <= k < |vs|
      ensures IsAmong(vs[k], named) <==> IsAmong(vs[k], a.names)
    {
      assert Views(rows)[k].name == vs[k].name;
      TargetsAreNamed(rows, a.names, a.ifExists, vs[k]);
    }
    SameOthers(vs, named, a.names);
  }

  /** The change `c` a statement makes to one column list, given the rows it was checked against. */
  ghost predicate Makes(rows: seq<ColumnRow>, a: Alter, c: Change) {
    match a
    case AddColumn(col, _) => c.Add? && c.col == col && ColumnAttnum(rows, col.name).None?
    case DropColumns(names, ifExists) => TargetsOf(rows, names, ifExists).Some? && c == Drop(TargetNames(TargetsOf(rows, names, ifExists).value))
    case RenameColumn(old_, new_) => c == Rename(old_, new_) && ColumnAttnum(rows, new_).None?
    case SetType(name, duckType) => c == Retype(name, duckType)
  }

  lemma ChangeDoes(ty: Typing, types: map<string, int>, rows: seq<ColumnRow>, vs: seq<View>, a: Alter, c: Change, ws: seq<View>)
    requires Makes(rows, a, c) && SameNames(rows, vs) && UniqueNames(vs) && ChangeViews(ty, types, vs, c) == Some(ws)
    ensures Does(ty, types, vs, a, ws)
  {
    match a
    case AddColumn(col, _) => {
      FoundIffHas(Views(rows), col.name);
      SameColumns(rows, vs, col.name);
    }
    case DropColumns(_, _) => DropDoes(ty, types, rows, vs, a, ws);
    case RenameColumn(old_, new_) => {
      FoundIffHas(Views(rows), new_);
      SameColumns(rows, vs, new_);
      assert Named(vs[IndexOfName(vs, Lower(old_)).value], old_);
    }
    case SetType(name, _) => assert Named(vs[IndexOfName(vs, Lower(name)).value], name);
  }

  lemma NothingDoes(ty: Typing, types: map<string, int>, rows: seq<ColumnRow>, vs: seq<View>, a: Alter)
    requires SameNames(rows, vs) && UniqueNames(vs)
    requires (a.AddColumn? && ColumnAttnum(rows, a.col.name).Some?) || (a.DropColumns? && TargetsOf(rows, a.names, a.ifExists) == Some([]))
    ensures Does(ty, types, vs, a, vs)
  {
    if a.AddColumn? {
      FoundIffHas(Views(rows), a.col.name);
      SameColumns(rows, vs, a.col.name);
    } else {
      assert TargetNames([]) == [];
      DropDoes(ty, types, rows, vs, a, vs);
    }
  }

  /// The whole statement

  /** The tables that store rows, and the partitioned table itself. */
  ghost predicate Concerned(db: Db, rel: int, r: int) { r == rel || (rel in db.partitions && r in db.partitions[rel]) }

  lemma OrdinaryMakes(db: Db, rel: int, a: Alter)
    requires rel in db.tables && OrdinaryChange(db.tables[rel], a).Some? && !FindsNothing(db.tables[rel], a)
    requires a.RenameColumn? ==> ColumnAttnum(db.tables[rel].rows, a.new_).None?
    ensures Makes(db.tables[rel].rows, a, OrdinaryChange(db.tables[rel], a).value)
  {}

  lemma ByChangeDoes(ty: Typing, db: Db, rel: int, a: Alter, db1: Db)
    requires rel in db.tables && RegistryOk(db.reg) && TableOk(ty, db.reg.types, db.tables[rel]) && ByChange(ty, db, rel, a, db1)
    requires !FindsNothing(db.tables[rel], a) && (a.RenameColumn? ==> ColumnAttnum(db.tables[rel].rows, a.new_).None?)
    ensures rel in db1.tables && Does(ty, db1.reg.types, Views(db.tables[rel].rows), a, Views(db1.tables[rel].rows))
  {
    var t, c := db.tables[rel], OrdinaryChange(db.tables[rel], a).value;
    OrdinaryMakes(db, rel, a);
    ChangeTableKeepsTable(ty, Journal(db).reg, t, c);
    var (reg1, t1) := ChangeTable(ty, Journal(db).reg, t, c).value;
    ChangeDoes(ty, reg1.types, t.rows, Views(t.rows), a, c, Views(t1.rows));
  }

  lemma NothingToDo(ty: Typing, db: Db, rel: int, a: Alter)
    requires rel in db.tables && AlterOrdinary(ty, db, rel, a).Some? && FindsNothing(db.tables[rel], a) && UniqueNames(Views(db.tables[rel].rows))
    ensures var db1 := AlterOrdinary(ty, db, rel, a).value;
            db1.tables == db.tables && Does(ty, db1.reg.types, Views(db.tables[rel].rows), a, Views(db.tables[rel].rows))
  {
    NothingDoes(ty, AlterOrdinary(ty, db, rel, a).value.reg.types, db.tables[rel].rows, Views(db.tables[rel].rows), a);
  }

  lemma OrdinaryDoes(ty: Typing, db: Db, rel: int, a: Alter)
    requires DbOk(ty, db) && rel in db.kinds && rel in db.tables && db.kinds[rel] == Ordinary && AlterOrdinary(ty, db, rel, a).Some?
    ensures var db1 := AlterOrdinary(ty, db, rel, a).value;
            rel in db1.tables && Does(ty, db1.reg.types, Views(db.tables[rel].rows), a, Views(db1.tables[rel].rows))
  {
    assert RelationOk(ty, db, rel);
    if FindsNothing(db.tables[rel], a) {
      NothingToDo(ty, db, rel, a);
    } else {
      AlterOrdinaryIsChange(ty, db, rel, a);
      ByChangeDoes(ty, db, rel, a, AlterOrdinary(ty, db, rel, a).value);
    }
  }

  lemma PartitionMakes(db: Db, p: int, a: Alter)
    requires p in db.tables && p in db.partitionKey && PartitionChange(db, p, a).Some? && !FindsNothing(db.tables[p], a)
    ensures Makes(db.tables[p].rows, a, PartitionChange(db, p, a).value)
  {}

  lemma AlikeHasSameNames(rows: seq<ColumnRow>, vs: seq<View>)
    requires Alike(vs, Views(rows)) && UniqueNames(Views(rows))
    ensures SameNames(rows, vs) && UniqueNames(vs)
  {}

  lemma PartitionsDo(ty: Typing, db: Db, p: int, a: Alter, r: int)
    requires DbOk(ty, db) && p in db.partitions && p in db.tables && p in db.partitionKey && AlterPartitions(ty, db, p, a).Some?
    requires !FindsNothing(db.tables[p], a) && Concerned(db, p, r) && r in db.tables
    ensures var db1 := AlterPartitions(ty, db, p, a).value;
            r in db1.tables && Does(ty, db1.reg.types, Views(db.tables[r].rows), a, Views(db1.tables[r].rows))
  {
    var c, mid, reg1, t1 := AlterPartitionsComesAbout(ty, db, p, a);
    var db1 := AlterPartitions(ty, db, p, a).value;
    PartitionsAreApart(ty, db, p);
    PartitionMakes(db, p, a);
    if r == p {
      ParentDoes(ty, db, p, a, c, mid, reg1, t1, db1);
    } else {
      ChildDoes(ty, db, p, a, c, mid, reg1, t1, db1, r);
    }
  }

  lemma ParentDoes(ty: Typing, db: Db, p: int, a: Alter, c: Change, mid: Db, reg1: Registry, t1: Table, db1: Db)
    requires PartitionOk(db, p) && Altered(ty, db, p, a, c, mid, reg1, t1, db1) && Makes(db.tables[p].rows, a, c)
    ensures Does(ty, db1.reg.types, Views(db.tables[p].rows), a, Views(db1.tables[p].rows))
  {
    var rows := db.tables[p].rows;
    GrowthKeepsChange(ty, mid.reg, reg1, Views(rows), c);
    AlikeHasSameNames(rows, Views(rows));
    ChangeDoes(ty, reg1.types, rows, Views(rows), a, c, Views(t1.rows));
  }

  lemma ChildDoes(ty: Typing, db: Db, p: int, a: Alter, c: Change, mid: Db, reg1: Registry, t1: Table, db1: Db, r: int)
    requires PartitionOk(db, p) && Altered(ty, db, p, a, c, mid, reg1, t1, db1) && Makes(db.tables[p].rows, a, c) && r in db.partitions[p] && r in db.tables
    ensures r in db1.tables && Does(ty, db1.reg.types, Views(db.tables[r].rows), a, Views(db1.tables[r].rows))
  {
    var rows, vs := db.tables[p].rows, Views(db.tables[r].rows);
    assert PartitionChanged(ty, db, p, c, mid, r);
    GrowthKeepsChange(ty, mid.reg, reg1, vs, c);
    AlikeHasSameNames(rows, vs);
    ChangeDoes(ty, reg1.types, rows, vs, a, c, Views(mid.tables[r].rows));
  }

  lemma PartitionedDoes(ty: Typing, db: Db, p: int, a: Alter, r: int)
    requires DbOk(ty, db) && p in db.partitions && p in db.tables && p in db.partitionKey && AlterPartitioned(ty, db, p, a).Some?
    requires Concerned(db, p, r) && r in db.tables
    ensures var db1 := AlterPartitioned(ty, db, p, a).value;
            r in db1.tables && Does(ty, db1.reg.types, Views(db.tables[r].rows), a, Views(db1.tables[r].rows))
  {
    if FindsNothing(db.tables[p], a) {
      PartitionsAreApart(ty, db, p);
      AlikeHasSameNames(db.tables[p].rows, Views(db.tables[r].rows));
      NothingDoes(ty, AlterPartitioned(ty, db, p, a).value.reg.types, db.tables[p].rows, Views(db.tables[r].rows), a);
    } else {
      JournalKeepsDb(ty, db);
      PartitionsDo(ty, Journal(db), p, a, r);
    }
  }

  /** A successful ALTER does to the table it names, and to every partition of it, exactly what it says. */
  lemma AlterDoes(ty: Typing, db: Db, rel: int, a: Alter, r: int)
    requires DbOk(ty, db) && AlterRelation(ty, db, rel, a).Some? && Concerned(db, rel, r) && r in db.tables
    ensures var db1 := AlterRelation(ty, db, rel, a).value;
            r in db1.tables && Does(ty, db1.reg.types, Views(db.tables[r].rows), a, Views(db1.tables[r].rows))
  {
    assert RelationOk(ty, db, rel);
    if db.kinds[rel] == Ordinary {
      OrdinaryDoes(ty, db, rel, a);
    } else {
      PartitionedDoes(ty, db, rel, a, r);
    }
  }

  lemma OrdinaryNumber(ty: Typing, db: Db, rel: int, a: Alter)
    requires rel in db.tables && RegistryOk(db.reg) && TableOk(ty, db.reg.types, db.tables[rel]) && AlterOrdinary(ty, db, rel, a).Some?
    requires a.AddColumn? && !FindsNothing(db.tables[rel], a)
    ensures var db1 := AlterOrdinary(ty, db, rel, a).value;
            rel in db1.tables && MaxAttnum(db1.tables[rel].rows) == MaxAttnum(db.tables[rel].rows) + 1
  {
    AlterOrdinaryIsChange(ty, db, rel, a);
    ChangeTableKeepsTable(ty, Journal(db).reg, db.tables[rel], OrdinaryChange(db.tables[rel], a).value);
  }

  lemma PartitionedNumber(ty: Typing, db: Db, p: int, a: Alter, r: int)
    requires DbOk(ty, db) && p in db.partitions && p in db.tables && p in db.partitionKey && AlterPartitions(ty, db, p, a).Some?
    requires a.AddColumn? && Concerned(db, p, r) && r in db.tables
    ensures var db1 := AlterPartitions(ty, db, p, a).value;
            r in db1.tables && MaxAttnum(db1.tables[r].rows) == MaxAttnum(db.tables[p].rows) + 1
  {
    var c, mid, reg1, t1 := AlterPartitionsComesAbout(ty, db, p, a);
    if r != p {
      assert PartitionChanged(ty, db, p, c, mid, r);
    }
  }

  /** A column that is added takes the number after the largest one its relation ever had, in all partitions alike. */
  lemma AddedColumnIsNumbered(ty: Typing, db: Db, rel: int, a: Alter, r: int)
    requires DbOk(ty, db) && AlterRelation(ty, db, rel, a).Some? && Concerned(db, rel, r) && r in db.tables
    requires a.AddColumn? && !HasColumn(Views(db.tables[rel].rows), a.col.name)
    ensures var db1 := AlterRelation(ty, db, rel, a).value;
            r in db1.tables && MaxAttnum(db1.tables[r].rows) == MaxAttnum(db.tables[rel].rows) + 1
  {
    FoundIffHas(Views(db.tables[rel].rows), a.col.name);
    assert RelationOk(ty, db, rel);
    if db.kinds[rel] == Ordinary {
      OrdinaryNumber(ty, db, rel, a);
    } else {
      JournalKeepsDb(ty, db);
      PartitionedNumber(ty, Journal(db), rel, a, r);
    }
  }

  /// What is refused

  /** A column of the relation that the statement names is in one of its key lists. */
  ghost predicate NamesKeyColumn(db: Db, rel: int, names: seq<string>)
    requires rel in db.tables
  {
    exists i, n :: 0 <= i < |db.keys| && db.keys[i].relid == rel && 0 <= n < |names| && InKeyList(db.tables[rel].rows, db.keys[i].attnums, names[n])
  }

  ghost predicate InKeyList(rows: seq<ColumnRow>, list: string, name: string) {
    exists k :: 0 <= k < |Views(rows)| && Named(Views(rows)[k], name) && ActiveAttnums(rows)[k] in ParseAttnums(list)
  }

  /** Another relation depends on this one. */
  ghost predicate DependedOn(db: Db, rel: int) { exists d <- db.deps :: d.1 == rel }

  /** What every ALTER that succeeds has met, whatever DuckDB makes of it. */
  ghost predicate Allowed(db: Db, rel: int, a: Alter) {
    && rel in db.tables && rel in db.kinds && rel !in db.internal && db.kinds[rel] != OtherKind
    && var vs := Views(db.tables[rel].rows);
       var partitioned := db.kinds[rel] == Partitioned && rel in db.partitionKey;
       match a
       case AddColumn(col, ifNotExists) => HasColumn(vs, col.name) ==> ifNotExists
       case DropColumns(names, ifExists) =>
         && names != [] && (!ifExists ==> forall i :: 0 <= i < |names| ==> HasColumn(vs, names[i]))
         && !NamesKeyColumn(db, rel, names)
         && (partitioned ==> forall i :: 0 <= i < |names| ==> !EqIgnoreCase(names[i], db.partitionKey[rel]))
       case RenameColumn(old_, new_) => HasColumn(vs, old_) && !HasColumn(vs, new_) && !EqIgnoreCase(old_, new_) && !DependedOn(db, rel)
       case SetType(name, _) => HasColumn(vs, name) && !DependedOn(db, rel) && (partitioned ==> !EqIgnoreCase(name, db.partitionKey[rel]))
  }

  lemma {:induction false} TargetIsNamed(rows: seq<ColumnRow>, names: seq<string>, ifExists: bool, i: nat) returns (n: nat)
    requires TargetsOf(rows, names, ifExists).Some? && i < |TargetsOf(rows, names, ifExists).value|
    ensures n < |names| && TargetsOf(rows, names, ifExists).value[i].0 == names[n]
    ensures ColumnAttnum(rows, names[n]) == Some(TargetsOf(rows, names, ifExists).value[i].1)
  {
    if ColumnAttnum(rows, names[0]).None? {
      n := TargetIsNamed(rows, names[1..], ifExists, i);
      n := n + 1;
    } else if i == 0 {
      n := 0;
    } else {
      n := TargetIsNamed(rows, names[1..], ifExists, i - 1);
      n := n + 1;
    }
  }

  lemma {:induction false} NamedIsTarget(rows: seq<ColumnRow>, names: seq<string>, ifExists: bool, n: nat) returns (i: nat)
    requires TargetsOf(rows, names, ifExists).Some? && n < |names| && ColumnAttnum(rows, names[n]).Some?
    ensures i < |TargetsOf(rows, names, ifExists).value|
    ensures TargetsOf(rows, names, ifExists).value[i] == (names[n], ColumnAttnum(rows, names[n]).value)
  {
    if n == 0 {
      i := 0;
    } else {
      i := NamedIsTarget(rows, names[1..], ifExists, n - 1);
      i := if ColumnAttnum(rows, names[0]).Some? then i + 1 else i;
    }
  }

  /** The key search finds exactly the lists with the column's number. */
  lemma SearchFindsKey(rows: seq<ColumnRow>, list: string, name: string)
    requires UniqueNames(Views(rows)) && KeyOk(rows, list)
    ensures InKeyList(rows, list, name) <==>
            ColumnAttnum(rows, name).Some? && ListContains(list, ColumnAttnum(rows, name).value)
  {
    var attnums: seq<nat> :| InRange(attnums) && list == JoinAttnums(attnums) && forall i :: 0 <= i < |attnums| ==> attnums[i] in ActiveAttnums(rows);
    ParseInvertsJoin(attnums);
    var k := IndexOfName(Views(rows), Lower(name));
    if k.Some? {
      ContainsIffMember(attnums, ActiveAttnums(rows)[k.value]);
      assert Named(Views(rows)[k.value], name);
    }
    if InKeyList(rows, list, name) {
      var j :| 0 <= j < |Views(rows)| && Named(Views(rows)[j], name) && ActiveAttnums(rows)[j] in ParseAttnums(list);
      assert k.Some? && k.value == j;
    }
  }

  lemma KeysBlockIff(ty: Typing, db: Db, rel: int, names: seq<string>, ifExists: bool)
    requires DbOk(ty, db) && rel in db.tables && UniqueNames(Views(db.tables[rel].rows)) && TargetsOf(db.tables[rel].rows, names, ifExists).Some?
    ensures CanDropAll(db.keys, rel, TargetsOf(db.tables[rel].rows, names, ifExists).value) <==> !NamesKeyColumn(db, rel, names)
  {
    var rows := db.tables[rel].rows;
    var targets := TargetsOf(rows, names, ifExists).value;
    if NamesKeyColumn(db, rel, names) {
      var i, n :| 0 <= i < |db.keys| && db.keys[i].relid == rel && 0 <= n < |names| && InKeyList(rows, db.keys[i].attnums, names[n]);
      assert KeyRowOk(db, db.keys[i]);
      SearchFindsKey(rows, db.keys[i].attnums, names[n]);
      var t := NamedIsTarget(rows, names, ifExists, n);
      assert !CanDrop(db.keys, rel, targets[t].1);
    } else {
      forall t, i | 0 <= t < |targets| && 0 <= i < |db.keys| && db.keys[i].relid == rel
        ensures !ListContains(db.keys[i].attnums, targets[t].1)
      {
        var n := TargetIsNamed(rows, names, ifExists, t);
        assert KeyRowOk(db, db.keys[i]);
        SearchFindsKey(rows, db.keys[i].attnums, names[n]);
        assert !InKeyList(rows, db.keys[i].attnums, names[n]);
      }
    }
  }

  lemma NamesAreUnique(ty: Typing, db: Db, rel: int)
    requires DbOk(ty, db) && rel in db.kinds && db.kinds[rel] != OtherKind
    ensures rel in db.tables && UniqueNames(Views(db.tables[rel].rows))
  {
    assert RelationOk(ty, db, rel);
  }

  lemma KeyColumnIsTarget(ty: Typing, db: Db, rel: int, names: seq<string>, ifExists: bool, n: nat)
    requires DbOk(ty, db) && rel in db.kinds && db.kinds[rel] == Partitioned && rel in db.partitionKey && rel in db.tables
    requires TargetsOf(db.tables[rel].rows, names, ifExists).Some? && n < |names| && EqIgnoreCase(names[n], db.partitionKey[rel])
    ensures exists i :: 0 <= i < |TargetsOf(db.tables[rel].rows, names, ifExists).value|
                     && EqIgnoreCase(TargetsOf(db.tables[rel].rows, names, ifExists).value[i].0, db.partitionKey[rel])
  {
    assert RelationOk(ty, db, rel);
    var i := NamedIsTarget(db.tables[rel].rows, names, ifExists, n);
  }

  lemma DropIsAllowed(ty: Typing, db: Db, rel: int, a: Alter)
    requires DbOk(ty, db) && rel in db.tables && rel in db.kinds && rel !in db.internal && db.kinds[rel] != OtherKind && a.DropColumns? && a.names != []
    requires TargetsOf(db.tables[rel].rows, a.names, a.ifExists).Some?
    requires CanDropAll(db.keys, rel, TargetsOf(db.tables[rel].rows, a.names, a.ifExists).value)
    requires db.kinds[rel] == Partitioned && rel in db.partitionKey ==>
               forall i :: 0 <= i < |TargetsOf(db.tables[rel].rows, a.names, a.ifExists).value| ==>
                 !EqIgnoreCase(TargetsOf(db.tables[rel].rows, a.names, a.ifExists).value[i].0, db.partitionKey[rel])
    ensures Allowed(db, rel, a)
  {
    NamesAreUnique(ty, db, rel);
    KeysBlockIff(ty, db, rel, a.names, a.ifExists);
    forall i | 0 <= i < |a.names|
      ensures !a.ifExists ==> HasColumn(Views(db.tables[rel].rows), a.names[i])
      ensures db.kinds[rel] == Partitioned && rel in db.partitionKey ==> !EqIgnoreCase(a.names[i], db.partitionKey[rel])
    {
      if !a.ifExists {
        AllNamesFound(db.tables[rel].rows, a.names, i);
      }
      if db.kinds[rel] == Partitioned && rel in db.partitionKey && EqIgnoreCase(a.names[i], db.partitionKey[rel]) {
        KeyColumnIsTarget(ty, db, rel, a.names, a.ifExists, i);
      }
    }
  }

  lemma {:induction false} AllNamesFound(rows: seq<ColumnRow>, names: seq<string>, i: nat)
    requires TargetsOf(rows, names, false).Some? && i < |names|
    ensures HasColumn(Views(rows), names[i])
  {
    FoundIffHas(Views(rows), names[0]);
    if i > 0 {
      AllNamesFound(rows, names[1..], i - 1);
    }
  }

  lemma OrdinaryIsAllowed(ty: Typing, db: Db, rel: int, a: Alter)
    requires DbOk(ty, db) && rel in db.tables && rel in db.kinds && rel !in db.internal && db.kinds[rel] == Ordinary && AlterOrdinary(ty, db, rel, a).Some?
    ensures Allowed(db, rel, a)
  {
    var vs := Views(db.tables[rel].rows);
    match a
    case AddColumn(col, _) => FoundIffHas(vs, col.name);
    case DropColumns(_, _) => DropIsAllowed(ty, db, rel, a);
    case RenameColumn(old_, new_) => FoundIffHas(vs, old_); FoundIffHas(vs, new_);
    case SetType(name, _) => FoundIffHas(vs, name);
  }

  lemma PartitionedIsAllowed(ty: Typing, db: Db, rel: int, a: Alter)
    requires DbOk(ty, db) && rel in db.tables && rel in db.kinds && rel !in db.internal && db.kinds[rel] == Partitioned
    requires rel in db.partitionKey && rel in db.partitions && AlterPartitioned(ty, db, rel, a).Some?
    ensures Allowed(db, rel, a)
  {
    var vs := Views(db.tables[rel].rows);
    match a
    case AddColumn(col, _) => FoundIffHas(vs, col.name);
    case DropColumns(_, _) => DropIsAllowed(ty, db, rel, a);
    case RenameColumn(old_, new_) => FoundIffHas(vs, old_); FoundIffHas(vs, new_);
    case SetType(name, _) => FoundIffHas(vs, name);
  }

  /** No ALTER gets past these checks; adding a column that is there succeeds only under IF NOT EXISTS, and then
      changes nothing. */
  lemma AlterIsAllowed(ty: Typing, db: Db, rel: int, a: Alter)
    requires DbOk(ty, db) && AlterRelation(ty, db, rel, a).Some?
    ensures Allowed(db, rel, a)
    ensures a.AddColumn? && HasColumn(Views(db.tables[rel].rows), a.col.name) ==> AlterRelation(ty, db, rel, a) == Some(db)
  {
    if a.AddColumn? {
      FoundIffHas(Views(db.tables[rel].rows), a.col.name);
    }
    if db.kinds[rel] == Ordinary {
      OrdinaryIsAllowed(ty, db, rel, a);
    } else {
      PartitionedIsAllowed(ty, db, rel, a);
    }
  }

  /// When DuckDB and the types allow it

  /** No column is named twice. */
  ghost predicate NamedOnce(vs: seq<View>, names: seq<string>) {
    forall i, j :: 0 <= i < j < |names| && HasColumn(vs, names[i]) ==> !EqIgnoreCase(names[i], names[j])
  }

  /** What is left to DuckDB and to the types: all columns of the changed table load, no column is dropped twice, and
      one stays. */
  ghost predicate Possible(ty: Typing, t: Table, a: Alter) {
    var vs := Views(t.rows);
    match a
    case AddColumn(col, _) => HasColumn(vs, col.name) || AllLoad(ty, t.phys + [col])
    case DropColumns(names, _) => NamedOnce(vs, names) && ((exists i :: 0 <= i < |names| && HasColumn(vs, names[i])) ==> Others(vs, names) != [])
    case RenameColumn(_, _) => AllLoad(ty, t.phys)
    case SetType(name, duckType) =>
      forall k :: 0 <= k < |t.phys| ==> Loads(ty, if EqIgnoreCase(t.phys[k].name, name) then duckType else t.phys[k].duckType)
  }

  lemma AppendsRow(rows: seq<ColumnRow>, row: ColumnRow)
    requires MaxAttnum(rows) < row.attnum
    ensures InsertRow(rows, row) == Some(rows + [row])
  {
    if rows == [] {
      assert rows + [row] == [row];
    } else {
      assert rows[|rows| - 1].attnum <= MaxAttnum(rows);
    }
  }

  lemma NewNumberHasNoDefault(ty: Typing, types: map<string, int>, t: Table, attnum: int)
    requires Aligned(ty, types, t) && MaxAttnum(t.rows) < attnum
    ensures attnum !in t.defaults
  {
    forall a <- t.defaults
      ensures a < attnum
    {
      ActiveIsAtMostMax(t.rows, a);
    }
  }

  lemma ActiveIsAtMostMax(rows: seq<ColumnRow>, attnum: int)
    requires Ascending(rows) && attnum in ActiveAttnums(rows)
    ensures attnum <= MaxAttnum(rows)
  {
    ActiveAttnumsAscend(rows);
  }

  lemma AddSucceedsIff(ty: Typing, reg: Registry, t: Table, col: DuckColumn, attnum: int)
    requires RegistryOk(reg) && Aligned(ty, reg.types, t) && MaxAttnum(t.rows) < attnum
    ensures AddOn(ty, reg, t, col, attnum).Some? <==> ColumnAttnum(t.rows, col.name).None? && AllLoad(ty, t.phys + [col])
  {
    var phys := t.phys + [col];
    PhysIndexIsViewIndex(ty, reg.types, t.phys, col.name);
    EnsureAllIffLoads(ty, reg, phys);
    NewNumberHasNoDefault(ty, reg.types, t, attnum);
    if EnsureAll(ty, reg, phys).Some? {
      var reg1 := EnsureAll(ty, reg, phys).value;
      EnsureAllGrows(ty, reg, phys);
      assert phys[|t.phys|] == col;
      AppendsRow(t.rows, RowFor(ty, reg1.types, col, attnum));
    }
  }

  lemma SyncSucceedsIff(ty: Typing, reg: Registry, t: Table, name: string, attnum: int)
    requires RegistryOk(reg)
    ensures SyncOn(ty, reg, t, name, attnum).Some? <==> AllLoad(ty, t.phys) && PhysIndex(t.phys, name).Some?
  {
    EnsureAllIffLoads(ty, reg, t.phys);
    if EnsureAll(ty, reg, t.phys).Some? && PhysIndex(t.phys, name).Some? {
      var reg1 := EnsureAll(ty, reg, t.phys).value;
      var col := t.phys[PhysIndex(t.phys, name).value];
      EnsureAllGrows(ty, reg, t.phys);
      EnsureTypeGrows(ty, reg1, col.duckType);
    }
  }

  lemma RenameSucceedsIff(ty: Typing, reg: Registry, t: Table, old_: string, new_: string, attnum: int)
    requires RegistryOk(reg) && Aligned(ty, reg.types, t) && ColumnAttnum(t.rows, old_).Some? && ColumnAttnum(t.rows, new_).None?
    ensures RenameOn(ty, reg, t, old_, new_, attnum).Some? <==> AllLoad(ty, t.phys)
  {
    PhysIndexIsViewIndex(ty, reg.types, t.phys, old_);
    PhysIndexIsViewIndex(ty, reg.types, t.phys, new_);
    var k := PhysIndex(t.phys, old_).value;
    var phys := t.phys[k := t.phys[k].(name := new_)];
    SyncSucceedsIff(ty, reg, t.(phys := phys), new_, attnum);
    assert EqIgnoreCase(phys[k].name, new_);
    assert AllLoad(ty, phys) <==> AllLoad(ty, t.phys) by {
      assert forall i :: 0 <= i < |phys| ==> phys[i].duckType == t.phys[i].duckType;
    }
  }

  lemma RetypeSucceedsIff(ty: Typing, reg: Registry, t: Table, name: string, duckType: string, attnum: int)
    requires RegistryOk(reg) && Aligned(ty, reg.types, t) && ColumnAttnum(t.rows, name).Some?
    ensures SetTypeOn(ty, reg, t, name, duckType, attnum).Some? <==> Possible(ty, t, SetType(name, duckType))
  {
    PhysIndexIsViewIndex(ty, reg.types, t.phys, name);
    var k := PhysIndex(t.phys, name).value;
    var phys := t.phys[k := t.phys[k].(duckType := duckType)];
    SyncSucceedsIff(ty, reg, t.(phys := phys), name, attnum);
    assert EqIgnoreCase(phys[k].name, name);
    RetypedLoads(ty, reg.types, t, name, duckType, k);
  }

  lemma RetypedLoads(ty: Typing, types: map<string, int>, t: Table, name: string, duckType: string, k: nat)
    requires Aligned(ty, types, t) && k < |t.phys| && EqIgnoreCase(t.phys[k].name, name)
    ensures AllLoad(ty, t.phys[k := t.phys[k].(duckType := duckType)]) <==> Possible(ty, t, SetType(name, duckType))
  {
    var phys := t.phys[k := t.phys[k].(duckType := duckType)];
    forall i | 0 <= i < |phys|
      ensures phys[i].duckType == if EqIgnoreCase(t.phys[i].name, name) then duckType else t.phys[i].duckType
    {
      if EqIgnoreCase(t.phys[i].name, name) {
        OnlyOneOfName(ty, types, t, k, i);
      }
    }
  }

  lemma OnlyOneOfName(ty: Typing, types: map<string, int>, t: Table, k: nat, i: nat)
    requires Aligned(ty, types, t) && k < |t.phys| && i < |t.phys| && EqIgnoreCase(t.phys[k].name, t.phys[i].name)
    ensures k == i
  {
    assert Views(t.rows)[k].name == Views(t.rows)[i].name;
  }

  lemma FirstDropIff(ty: Typing, types: map<string, int>, t: Table, name: string, attnum: int)
    requires Aligned(ty, types, t)
    ensures DropOn(t, name, attnum).Some? <==> IndexOfName(Views(t.rows), Lower(name)).Some? && |Views(t.rows)| != 1
  {
    PhysIndexIsViewIndex(ty, types, t.phys, name);
  }

  /** The drops succeed exactly when every name is there in turn and a column stays. */
  lemma {:induction false} DropTargetsSucceedIff(ty: Typing, types: map<string, int>, rows0: seq<ColumnRow>, t: Table, targets: seq<Target>)
    requires Aligned(ty, types, t) && SomeDropped(rows0, t.rows) && UniqueNames(Views(rows0)) && TargetsOn(rows0, targets)
    ensures DropTargets(t, targets).Some? <==>
            RemoveNames(Views(t.rows), TargetNames(targets)).Some? && (targets == [] || |targets| < |Views(t.rows)|)
    decreases |targets|
  {
    if targets != [] {
      var (name, attnum) := targets[0];
      FirstTarget(rows0, targets);
      FirstDropIff(ty, types, t, name, attnum);
      if DropOn(t, name, attnum).Some? {
        var t1 := DropOn(t, name, attnum).value;
        FirstDrop(ty, types, rows0, t, name, attnum);
        DropOnKeepsTable(ty, types, t, name, attnum);
        DropTargetsSucceedIff(ty, types, rows0, t1, targets[1..]);
      } else if IndexOfName(Views(t.rows), Lower(name)).Some? {
        assert |Views(t.rows)| == 1 <= |targets|;
      }
    }
  }

  lemma {:induction false} RemoveNamesCounts(vs: seq<View>, names: seq<string>)
    requires RemoveNames(vs, names).Some?
    ensures |RemoveNames(vs, names).value| == |vs| - |names|
    decreases |names|
  {
    if names != [] {
      RemoveNamesCounts(Remove(vs, IndexOfName(vs, Lower(names[0])).value), names[1..]);
    }
  }

  ghost predicate AllThere(vs: seq<View>, names: seq<string>) { forall i :: 0 <= i < |names| ==> HasColumn(vs, names[i]) }

  ghost predicate Once(names: seq<string>) { forall i, j :: 0 <= i < j < |names| ==> !EqIgnoreCase(names[i], names[j]) }

  ghost predicate Again(name: string, names: seq<string>) { exists i :: 0 <= i < |names| && EqIgnoreCase(names[i], name) }

  lemma OnceCons(names: seq<string>)
    requires names != []
    ensures Once(names) <==> !Again(names[0], names[1..]) && Once(names[1..])
  {
    if Once(names) {
      assert forall i :: 0 <= i < |names[1..]| ==> names[1..][i] == names[i + 1];
    } else {
      var i, j :| 0 <= i < j < |names| && EqIgnoreCase(names[i], names[j]);
      assert names[j] == names[1..][j - 1];
      if i > 0 {
        assert names[i] == names[1..][i - 1];
      }
    }
  }

  lemma ThereAfterRemoval(vs: seq<View>, k: nat, name: string, names: seq<string>)
    requires UniqueNames(vs) && k < |vs| && Named(vs[k], name)
    ensures AllThere(Remove(vs, k), names) <==> AllThere(vs, names) && !Again(name, names)
  {
    forall i | 0 <= i < |names|
      ensures HasColumn(Remove(vs, k), names[i]) <==> HasColumn(vs, names[i]) && !EqIgnoreCase(names[i], name)
    {
      HasAfterRemoval(vs, k, name, names[i]);
    }
  }

  lemma HasAfterRemoval(vs: seq<View>, k: nat, name: string, other: string)
    requires UniqueNames(vs) && k < |vs| && Named(vs[k], name)
    ensures HasColumn(Remove(vs, k), other) <==> HasColumn(vs, other) && !EqIgnoreCase(other, name)
  {
    var ws := Remove(vs, k);
    if HasColumn(ws, other) {
      var j :| 0 <= j < |ws| && Named(ws[j], other);
      assert ws[j] == vs[if j < k then j else j + 1];
      assert Named(vs[if j < k then j else j + 1], other);
    }
    if HasColumn(vs, other) && !EqIgnoreCase(other, name) {
      var j :| 0 <= j < |vs| && Named(vs[j], other);
      assert j != k;
      assert Named(ws[if j < k then j else j - 1], other);
    }
  }

  lemma {:induction false} RemoveNamesSucceedsIff(vs: seq<View>, names: seq<string>)
    requires UniqueNames(vs)
    ensures RemoveNames(vs, names).Some? <==> AllThere(vs, names) && Once(names)
    decreases |names|
  {
    if names != [] {
      FoundIffHas(vs, names[0]);
      OnceCons(names);
      AllThereCons(vs, names);
      var k := IndexOfName(vs, Lower(names[0]));
      if k.Some? {
        RemovedIsOnly(vs, k.value, names[0]);
        RemoveNamesSucceedsIff(Remove(vs, k.value), names[1..]);
        ThereAfterRemoval(vs, k.value, names[0], names[1..]);
      }
    }
  }

  lemma AllThereCons(vs: seq<View>, names: seq<string>)
    requires names != []
    ensures AllThere(vs, names) <==> HasColumn(vs, names[0]) && AllThere(vs, names[1..])
  {
    if HasColumn(vs, names[0]) && AllThere(vs, names[1..]) {
      forall i | 0 <= i < |names|
        ensures HasColumn(vs, names[i])
      {
        assert i > 0 ==> names[i] == names[1..][i - 1];
      }
    }
    if AllThere(vs, names) {
      assert forall i :: 0 <= i < |names[1..]| ==> names[1..][i] == names[i + 1];
    }
  }

  lemma NamedOnceCons(vs: seq<View>, names: seq<string>)
    requires names != []
    ensures NamedOnce(vs, names) <==> (HasColumn(vs, names[0]) ==> !Again(names[0], names[1..])) && NamedOnce(vs, names[1..])
  {
    var rest := names[1..];
    if NamedOnce(vs, names) {
      assert forall i :: 0 <= i < |rest| ==> rest[i] == names[i + 1];
    } else {
      var i, j :| 0 <= i < j < |names| && HasColumn(vs, names[i]) && EqIgnoreCase(names[i], names[j]);
      assert names[j] == rest[j - 1];
      if i > 0 {
        assert names[i] == rest[i - 1];
      }
    }
  }

  /** The targets are the names that are there, one for one. */
  lemma {:induction false} TargetsOnceIff(rows: seq<ColumnRow>, names: seq<string>, ifExists: bool)
    requires TargetsOf(rows, names, ifExists).Some?
    ensures Once(TargetNames(TargetsOf(rows, names, ifExists).value)) <==> NamedOnce(Views(rows), names)
    ensures AllThere(Views(rows), TargetNames(TargetsOf(rows, names, ifExists).value))
  {
    if names != [] {
      var targets, rest := TargetsOf(rows, names, ifExists).value, TargetsOf(rows, names[1..], ifExists).value;
      TargetsOnceIff(rows, names[1..], ifExists);
      NamedOnceCons(Views(rows), names);
      FoundIffHas(Views(rows), names[0]);
      if ColumnAttnum(rows, names[0]).Some? {
        var named := TargetNames(targets);
        assert named[0] == names[0] && named[1..] == TargetNames(rest);
        OnceCons(named);
        AllThereCons(Views(rows), named);
        AgainIsTarget(rows, names[1..], ifExists, names[0]);
      }
    }
  }

  lemma {:induction false} NoTargetsIff(rows: seq<ColumnRow>, names: seq<string>, ifExists: bool)
    requires TargetsOf(rows, names, ifExists).Some?
    ensures TargetsOf(rows, names, ifExists).value == [] <==> forall i :: 0 <= i < |names| ==> !HasColumn(Views(rows), names[i])
  {
    if names != [] {
      NoTargetsIff(rows, names[1..], ifExists);
      FoundIffHas(Views(rows), names[0]);
      assert forall i :: 1 <= i < |names| ==> names[i] == names[1..][i - 1];
    }
  }

  lemma AgainIsTarget(rows: seq<ColumnRow>, names: seq<string>, ifExists: bool, name: string)
    requires TargetsOf(rows, names, ifExists).Some? && ColumnAttnum(rows, name).Some?
    ensures Again(name, TargetNames(TargetsOf(rows, names, ifExists).value)) <==> Again(name, names)
  {
    var named := TargetNames(TargetsOf(rows, names, ifExists).value);
    if Again(name, names) {
      var n :| 0 <= n < |names| && EqIgnoreCase(names[n], name);
      var i := NamedIsTarget(rows, names, ifExists, n);
      assert named[i] == names[n];
    }
    if Again(name, named) {
      var i :| 0 <= i < |named| && EqIgnoreCase(named[i], name);
      var n := TargetIsNamed(rows, names, ifExists, i);
      assert names[n] == named[i];
    }
  }

  lemma DropPossibleIff(ty: Typing, types: map<string, int>, t: Table, names: seq<string>, ifExists: bool)
    requires Aligned(ty, types, t) && TargetsOf(t.rows, names, ifExists).Some?
    ensures DropTargets(t, TargetsOf(t.rows, names, ifExists).value).Some? <==> Possible(ty, t, DropColumns(names, ifExists))
  {
    var vs, targets := Views(t.rows), TargetsOf(t.rows, names, ifExists).value;
    var named := TargetNames(targets);
    TargetsOfAreOn(t.rows, names, ifExists);
    DropTargetsSucceedIff(ty, types, t.rows, t, targets);
    TargetsOnceIff(t.rows, names, ifExists);
    NoTargetsIff(t.rows, names, ifExists);
    RemoveNamesSucceedsIff(vs, named);
    if Once(named) {
      OthersCount(t.rows, names, ifExists);
    }
  }

  lemma OthersCount(rows: seq<ColumnRow>, names: seq<string>, ifExists: bool)
    requires TargetsOf(rows, names, ifExists).Some? && UniqueNames(Views(rows))
    requires RemoveNames(Views(rows), TargetNames(TargetsOf(rows, names, ifExists).value)).Some?
    ensures |Others(Views(rows), names)| == |Views(rows)| - |TargetsOf(rows, names, ifExists).value|
  {
    var vs, named := Views(rows), TargetNames(TargetsOf(rows, names, ifExists).value);
    RemoveNamesLeaves(vs, named);
    RemoveNamesCounts(vs, named);
    forall k | 0 <= k < |vs|
      ensures IsAmong(vs[k], named) <==> IsAmong(vs[k], names)
    {
      TargetsAreNamed(rows, names, ifExists, vs[k]);
    }
    SameOthers(vs, named, names);
  }

  lemma {:induction false} TargetsFoundIff(rows: seq<ColumnRow>, names: seq<string>, ifExists: bool)
    ensures TargetsOf(rows, names, ifExists).Some? <==> ifExists || AllThere(Views(rows), names)
  {
    if names != [] {
      TargetsFoundIff(rows, names[1..], ifExists);
      FoundIffHas(Views(rows), names[0]);
      AllThereCons(Views(rows), names);
    }
  }

  lemma DropSucceedsIff(ty: Typing, db: Db, rel: int, a: Alter)
    requires DbOk(ty, db) && rel in db.kinds && rel in db.tables && rel !in db.internal && db.kinds[rel] == Ordinary && a.DropColumns?
    ensures AlterOrdinary(ty, db, rel, a).Some? <==> Allowed(db, rel, a) && Possible(ty, db.tables[rel], a)
  {
    var t := db.tables[rel];
    assert RelationOk(ty, db, rel);
    TargetsFoundIff(t.rows, a.names, a.ifExists);
    if TargetsOf(t.rows, a.names, a.ifExists).Some? {
      KeysBlockIff(ty, db, rel, a.names, a.ifExists);
      DropPossibleIff(ty, db.reg.types, t, a.names, a.ifExists);
      assert DropTargets(t, []) == Some(t);
    }
  }

  lemma AddColumnSucceedsIff(ty: Typing, db: Db, rel: int, a: Alter)
    requires DbOk(ty, db) && rel in db.kinds && rel in db.tables && rel !in db.internal && db.kinds[rel] == Ordinary && a.AddColumn?
    ensures AlterOrdinary(ty, db, rel, a).Some? <==> Allowed(db, rel, a) && Possible(ty, db.tables[rel], a)
  {
    var t := db.tables[rel];
    assert RelationOk(ty, db, rel);
    FoundIffHas(Views(t.rows), a.col.name);
    AddSucceedsIff(ty, Journal(db).reg, t, a.col, MaxAttnum(t.rows) + 1);
    AddColumnIs(ty, db, rel, a);
  }

  lemma AddColumnIs(ty: Typing, db: Db, rel: int, a: Alter)
    requires rel in db.tables && a.AddColumn?
    ensures AlterOrdinary(ty, db, rel, a).Some? <==>
            if ColumnAttnum(db.tables[rel].rows, a.col.name).Some? then a.ifNotExists
            else AddOn(ty, Journal(db).reg, db.tables[rel], a.col, MaxAttnum(db.tables[rel].rows) + 1).Some?
  {}

  lemma RenameColumnSucceedsIff(ty: Typing, db: Db, rel: int, a: Alter)
    requires DbOk(ty, db) && rel in db.kinds && rel in db.tables && rel !in db.internal && db.kinds[rel] == Ordinary && a.RenameColumn?
    ensures AlterOrdinary(ty, db, rel, a).Some? <==> Allowed(db, rel, a) && Possible(ty, db.tables[rel], a)
  {
    var t := db.tables[rel];
    assert RelationOk(ty, db, rel);
    FoundIffHas(Views(t.rows), a.old_);
    FoundIffHas(Views(t.rows), a.new_);
    if CanRename(db, rel, a.old_, a.new_) {
      RenameSucceedsIff(ty, Journal(db).reg, t, a.old_, a.new_, ColumnAttnum(t.rows, a.old_).value);
    }
  }

  lemma SetTypeSucceedsIff(ty: Typing, db: Db, rel: int, a: Alter)
    requires DbOk(ty, db) && rel in db.kinds && rel in db.tables && rel !in db.internal && db.kinds[rel] == Ordinary && a.SetType?
    ensures AlterOrdinary(ty, db, rel, a).Some? <==> Allowed(db, rel, a) && Possible(ty, db.tables[rel], a)
  {
    var t := db.tables[rel];
    assert RelationOk(ty, db, rel);
    FoundIffHas(Views(t.rows), a.name);
    if CanRetype(db, rel, a.name) {
      RetypeSucceedsIff(ty, Journal(db).reg, t, a.name, a.duckType, ColumnAttnum(t.rows, a.name).value);
    }
  }

  /** An ALTER of an ordinary table succeeds exactly when it is allowed and possible. */
  lemma OrdinarySucceedsIff(ty: Typing, db: Db, rel: int, a: Alter)
    requires DbOk(ty, db) && rel in db.kinds && rel in db.tables && rel !in db.internal && db.kinds[rel] == Ordinary
    ensures AlterRelation(ty, db, rel, a).Some? <==> Allowed(db, rel, a) && Possible(ty, db.tables[rel], a)
  {
    match a
    case AddColumn(_, _) => AddColumnSucceedsIff(ty, db, rel, a);
    case DropColumns(_, _) => DropSucceedsIff(ty, db, rel, a);
    case RenameColumn(_, _) => RenameColumnSucceedsIff(ty, db, rel, a);
    case SetType(_, _) => SetTypeSucceedsIff(ty, db, rel, a);
  }
}
