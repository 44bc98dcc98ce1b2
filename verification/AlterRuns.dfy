/** ALTER TABLE keeps the whole catalog in step with DuckDB. */
module AlterRuns {
  import opened Text
  import opened TableColumns
  import opened TableChanges
  import opened AlterTable
  import opened Consistency

  /// ALTER TABLE on an ordinary table

  lemma OrdinaryIsApart(ty: Typing, db: Db, rel: int)
    requires DbOk(ty, db) && rel !in db.internal
    ensures forall q <- db.partitions :: forall c <- db.partitions[q] :: c != rel
  {
    assert forall q <- db.partitions :: RelationOk(ty, db, q);
  }

  lemma OrdinaryKeysOk(ty: Typing, db: Db, db1: Db, rel: int)
    requires DbOk(ty, db) && rel in db.tables && RelationAltered(ty, db, db1, rel) && OnlyTables(db, db1, [rel])
    ensures NewKeysOk(db, db1, {rel})
  {
    forall i | 0 <= i < |db1.keys| && db1.keys[i].relid == rel
      ensures KeyRowOk(db1, db1.keys[i])
    {
      assert KeyRowOk(db, db.keys[i]);
    }
  }

  lemma AlterOrdinaryKeepsDb(ty: Typing, db: Db, rel: int, a: Alter)
    requires DbOk(ty, db) && rel in db.kinds && rel in db.tables && db.kinds[rel] == Ordinary && rel !in db.internal
    requires AlterOrdinary(ty, db, rel, a).Some?
    ensures var db1 := AlterOrdinary(ty, db, rel, a).value; DbOk(ty, db1) && AllNumbersKept(db, db1)
  {
    var db1 := AlterOrdinary(ty, db, rel, a).value;
    assert RelationOk(ty, db, rel);
    AlterOrdinaryKeepsRelation(ty, db, rel, a);
    OrdinaryKeepsDb(ty, db, db1, rel);
  }

  lemma OrdinaryKeepsDb(ty: Typing, db: Db, db1: Db, rel: int)
    requires DbOk(ty, db) && rel in db.kinds && rel in db.tables && db.kinds[rel] == Ordinary && rel !in db.internal
    requires RelationAltered(ty, db, db1, rel) && OnlyTables(db, db1, [rel]) && TableOk(ty, db1.reg.types, db1.tables[rel])
    ensures DbOk(ty, db1) && AllNumbersKept(db, db1)
  {
    OrdinaryIsApart(ty, db, rel);
    OrdinaryKeysOk(ty, db, db1, rel);
    SamePartitionsApart(ty, db, db1);
    TablesChangeIsStep(db, db1, {rel});
    assert RelationOk(ty, db1, rel) by {
      assert RelationOk(ty, db, rel);
    }
    StepKeepsDb(ty, db, db1, {rel});
  }

  /// ALTER TABLE on a partitioned table

  /** The entrypoint rebuilt from a partition shows that partition's columns. */
  lemma EntryFromChild(ty: Typing, types: map<string, int>, child: Table, view: seq<DuckColumn>)
    requires Aligned(ty, types, child) && ShowsColumns(view, child.phys)
    ensures EntryOk(view, Views(child.rows))
  {}

  /** Every column has one type over all partitions. */
  ghost predicate SameTypes(db: Db, p: int)
    requires p in db.partitions && AllThere(db, db.partitions[p])
  {
    var lists := PhysOf(db, db.partitions[p]);
    forall i, k :: 0 <= i < |lists| && 0 <= k < |lists[i]| && k < |lists[0]| ==> lists[i][k].duckType == lists[0][k].duckType
  }

  lemma PartitionCount(ty: Typing, db: Db, p: int, child: int)
    requires DbOk(ty, db) && p in db.partitions && child in db.partitions[p]
    ensures p in db.tables && child in db.tables && |db.tables[child].phys| == |Views(db.tables[p].rows)|
  {
    PartitionsAreApart(ty, db, p);
  }

  lemma PartitionsHaveSameCount(ty: Typing, db: Db, p: int)
    requires DbOk(ty, db) && p in db.partitions
    ensures p in db.tables && AllThere(db, db.partitions[p])
    ensures SameCount(PhysOf(db, db.partitions[p]), |Views(db.tables[p].rows)|)
  {
    PartitionsAreApart(ty, db, p);
    var children := db.partitions[p];
    forall i | 0 <= i < |children|
      ensures children[i] in db.tables && |db.tables[children[i]].phys| == |Views(db.tables[p].rows)|
    {
      PartitionCount(ty, db, p, children[i]);
    }
  }

  /** The view has the names of the first partition, and each column the type the partitions' columns unite to. */
  ghost predicate ViewUnites(ty: Typing, db: Db, p: int, db1: Db)
    requires p in db.tables && p in db.partitions && AllThere(db, db.partitions[p])
  {
    var lists := PhysOf(db, db.partitions[p]);
    && lists != [] && SameCount(lists, |lists[0]|) && p in db1.tables && ShowsColumns(db1.tables[p].phys, lists[0])
    && forall k :: 0 <= k < |lists[0]| ==> Unified(ty, TypesAt(lists, k)) == Some(db1.tables[p].phys[k].duckType)
  }

  lemma RefreshedUnites(ty: Typing, db: Db, p: int)
    requires p in db.tables && p in db.partitions && AllThere(db, db.partitions[p]) && Refresh(ty, db, p).Some?
    ensures ViewUnites(ty, db, p, Refresh(ty, db, p).value)
  {
    var lists, cols := PhysOf(db, db.partitions[p]), EntryColumns(ty, db, db.partitions[p]).value;
    forall k | 0 <= k < |lists[0]|
      ensures Unified(ty, TypesAt(lists, k)) == Some(cols[k].duckType)
    {
      UnionTypesAre(ty, lists, 0, k, cols);
    }
  }

  /** In every state runs reach, rebuilding the entrypoint of a table with partitions is up to the types alone:
      DuckDB must unite them in every column, which it does where all partitions have the same one. */
  lemma RefreshSucceedsIff(ty: Typing, db: Db, p: int)
    requires DbOk(ty, db) && p in db.partitions && db.partitions[p] != []
    ensures p in db.tables && AllThere(db, db.partitions[p])
    ensures SameCount(PhysOf(db, db.partitions[p]), |Views(db.tables[p].rows)|)
    ensures Refresh(ty, db, p).Some? <==>
            forall k :: 0 <= k < |Views(db.tables[p].rows)| ==> Unified(ty, TypesAt(PhysOf(db, db.partitions[p]), k)).Some?
    ensures SameTypes(db, p) ==> Refresh(ty, db, p).Some?
    ensures Refresh(ty, db, p).Some? ==> ViewUnites(ty, db, p, Refresh(ty, db, p).value)
  {
    PartitionsHaveSameCount(ty, db, p);
    var lists := PhysOf(db, db.partitions[p]);
    UnionSucceedsIff(ty, lists, 0);
    if SameTypes(db, p) {
      SameTypesUnite(ty, lists, 0);
    }
    if Refresh(ty, db, p).Some? {
      RefreshedUnites(ty, db, p);
    }
  }

  /// Alike column lists stay alike

  lemma AlikeRemove(a: seq<View>, b: seq<View>, k: nat)
    requires Alike(a, b) && k < |a|
    ensures Alike(Remove(a, k), Remove(b, k))
  {}

  lemma {:induction false} AlikeRemoveNames(a: seq<View>, b: seq<View>, names: seq<string>)
    requires Alike(a, b)
    ensures RemoveNames(a, names).Some? <==> RemoveNames(b, names).Some?
    ensures RemoveNames(a, names).Some? ==> Alike(RemoveNames(a, names).value, RemoveNames(b, names).value)
    decreases |names|
  {
    if names != [] {
      AlikeIndex(a, b, Lower(names[0]));
      var k := IndexOfName(a, Lower(names[0]));
      if k.Some? {
        AlikeRemove(a, b, k.value);
        AlikeRemoveNames(Remove(a, k.value), Remove(b, k.value), names[1..]);
      }
    }
  }

  lemma AlikeReplace(a: seq<View>, b: seq<View>, k: nat, v: View, w: View)
    requires Alike(a, b) && k < |a| && v.name == w.name && v.hasDef == w.hasDef
    ensures Alike(a[k := v], b[k := w])
  {}

  /** The same change keeps column lists alike. */
  lemma AlikeChange(ty: Typing, types: map<string, int>, a: seq<View>, b: seq<View>, c: Change)
    requires Alike(a, b)
    ensures ChangeViews(ty, types, a, c).Some? <==> ChangeViews(ty, types, b, c).Some?
    ensures ChangeViews(ty, types, a, c).Some? ==> Alike(ChangeViews(ty, types, a, c).value, ChangeViews(ty, types, b, c).value)
  {
    match c
    case Add(_, _) =>
    case Drop(names) => AlikeRemoveNames(a, b, names);
    case Rename(old_, new_) =>
      AlikeIndex(a, b, Lower(old_));
      var k := IndexOfName(a, Lower(old_));
      if k.Some? {
        AlikeReplace(a, b, k.value, a[k.value].(name := Lower(new_)), b[k.value].(name := Lower(new_)));
      }
    case Retype(name, _) => AlikeIndex(a, b, Lower(name));
  }

  lemma {:induction false} RemoveKeepsName(vs: seq<View>, names: seq<string>, key: string)
    requires RemoveNames(vs, names).Some? && IndexOfName(vs, key).Some?
    requires forall i :: 0 <= i < |names| ==> Lower(names[i]) != key
    ensures IndexOfName(RemoveNames(vs, names).value, key).Some?
    decreases |names|
  {
    if names != [] {
      var k, h := IndexOfName(vs, Lower(names[0])).value, IndexOfName(vs, key).value;
      assert Remove(vs, k)[if h < k then h else h - 1].name == key;
      RemoveKeepsName(Remove(vs, k), names[1..], key);
    }
  }

  /** The partition key is still a column after the change, under its new name if it was renamed. */
  lemma PartitionKeyStays(ty: Typing, db: Db, p: int, a: Alter, c: Change, types: map<string, int>, vs: seq<View>)
    requires p in db.tables && p in db.partitionKey && PartitionChange(db, p, a) == Some(c)
    requires ChangeViews(ty, types, Views(db.tables[p].rows), c) == Some(vs)
    requires IndexOfName(Views(db.tables[p].rows), Lower(db.partitionKey[p])).Some?
    ensures IndexOfName(vs, Lower(NewKey(db.partitionKey[p], a))).Some?
  {
    var was, key := Views(db.tables[p].rows), db.partitionKey[p];
    var h := IndexOfName(was, Lower(key)).value;
    match a
    case AddColumn(_, _) => assert vs[h].name == Lower(key);
    case DropColumns(names, ifExists) =>
      var targets := TargetsOf(db.tables[p].rows, names, ifExists).value;
      assert forall i :: 0 <= i < |targets| ==> !EqIgnoreCase(targets[i].0, key);
      RemoveKeepsName(was, TargetNames(targets), Lower(key));
    case RenameColumn(old_, new_) =>
      var k := IndexOfName(was, Lower(old_)).value;
      assert vs[k].name == Lower(new_);
      assert h != k ==> vs[h].name == Lower(key);
    case SetType(name, _) => assert vs[h].name == Lower(key);
  }

  /** The parent's own rows make the change that its first partition made. */
  lemma ParentFollowsChange(ty: Typing, db: Db, p: int, a: Alter, c: Change, reg: Registry, child: Table, was: seq<View>)
    requires p in db.tables && p in db.partitionKey && PartitionChange(db, p, a) == Some(c)
    requires RegistryOk(reg) && ParentOk(db.tables[p]) && Aligned(ty, reg.types, child) && Alike(was, Views(db.tables[p].rows))
    requires ChangeViews(ty, reg.types, was, c) == Some(Views(child.rows))
    requires AlterParent(ty, reg, db.tables[p], child, a).Some?
    ensures var vs := ChangeViews(ty, reg.types, Views(db.tables[p].rows), c);
            var (reg1, t1) := AlterParent(ty, reg, db.tables[p], child, a).value;
            vs.Some? && ParentFollows(reg, db.tables[p], c, vs.value, reg1, t1)
  {
    var t := db.tables[p];
    AlikeChange(ty, reg.types, was, Views(t.rows), c);
    match a
    case AddColumn(_, _) => ParentFollowsAdd(ty, reg, t, child, a, c);
    case DropColumns(_, _) => ParentFollowsDrop(ty, reg, t, child, a, ChangeViews(ty, reg.types, Views(t.rows), c).value);
    case RenameColumn(_, _) => ParentFollowsRename(ty, reg, t, child, a);
    case SetType(_, _) => ParentFollowsRetype(ty, reg, t, child, a, was);
  }

  /** Key lists of the parent survive: its checks are made before any partition changes. */
  lemma ParentKeepsKey(ty: Typing, db: Db, p: int, a: Alter, c: Change, reg: Registry, child: Table, i: nat)
    requires p in db.tables && p in db.partitionKey && PartitionChange(db, p, a) == Some(c)
    requires AlterParent(ty, reg, db.tables[p], child, a).Some?
    requires var (reg1, t1) := AlterParent(ty, reg, db.tables[p], child, a).value;
             exists vs :: ParentFollows(reg, db.tables[p], c, vs, reg1, t1)
    requires i < |db.keys| && db.keys[i].relid == p && KeyOk(db.tables[p].rows, db.keys[i].attnums)
    ensures KeyOk(AlterParent(ty, reg, db.tables[p], child, a).value.1.rows, db.keys[i].attnums)
  {
    var t, t1 := db.tables[p], AlterParent(ty, reg, db.tables[p], child, a).value.1;
    if a.DropColumns? {
      DropKeepsKeys(t, TargetsOf(t.rows, a.names, a.ifExists).value, db.keys, p, i);
    } else {
      KeyStaysOk(t.rows, t1.rows, db.keys[i].attnums);
    }
  }

  ghost predicate PartitionChanged(ty: Typing, db: Db, p: int, c: Change, mid: Db, child: int)
    requires p in db.tables && child in db.tables
  {
    && child in mid.tables && ChildChanged(ty, db, mid, child, c)
    && MaxAttnum(mid.tables[child].rows) <= (if c.Add? then c.attnum else MaxAttnum(db.tables[p].rows))
    && var vs := ChangeViews(ty, mid.reg.types, Views(db.tables[p].rows), c);
       vs.Some? && Alike(Views(mid.tables[child].rows), vs.value)
  }

  /** The partitions have all changed, and nothing else has. */
  ghost predicate PartitionsChanged(ty: Typing, db: Db, p: int, c: Change, mid: Db) {
    && p in db.tables && p in db.partitions && db.partitions[p] != [] && p !in db.partitions[p]
    && RegistryOk(mid.reg) && Grows(db.reg, mid.reg) && OnlyTables(db, mid, db.partitions[p])
    && (NewType(c).Some? ==> TypeIdIn(ty, mid.reg.types, NewType(c).value).Some?)
    && (forall child <- db.partitions[p] :: child in db.tables && PartitionChanged(ty, db, p, c, mid, child))
  }

  /** How a successful statement came about: the partitions changed to `mid`, then the parent's own
      rows to `t1`, then its entrypoint. */
  ghost predicate Altered(ty: Typing, db: Db, p: int, a: Alter, c: Change, mid: Db, reg1: Registry, t1: Table, db1: Db) {
    && PartitionsChanged(ty, db, p, c, mid) && p in db.partitionKey
    && PartitionChange(db, p, a) == Some(c)
    && db.partitions[p][0] in mid.tables
    && var first := mid.tables[db.partitions[p][0]];
       && AlterParent(ty, mid.reg, db.tables[p], first, a) == Some((reg1, t1))
       && var vs := ChangeViews(ty, mid.reg.types, Views(db.tables[p].rows), c);
       && vs.Some? && ParentFollows(mid.reg, db.tables[p], c, vs.value, reg1, t1)
       && p in db1.tables && ShowsColumns(db1.tables[p].phys, first.phys) && LeadsTo(db, db1, p, db.partitions[p])
       && db1 == mid.(reg := reg1, tables := mid.tables[p := t1.(phys := db1.tables[p].phys)], deps := db1.deps,
                      partitionKey := db.partitionKey[p := NewKey(db.partitionKey[p], a)])
  }

  lemma PartitionsAreApart(ty: Typing, db: Db, p: int)
    requires DbOk(ty, db) && p in db.partitions
    ensures PartitionOk(db, p) && p !in db.partitions[p]
    ensures forall child <- db.partitions[p] :: child in db.tables && TableOk(ty, db.reg.types, db.tables[child]) && child !in db.partitions
    ensures forall q <- db.partitions :: q != p ==> forall c <- db.partitions[q] :: c != p && c !in db.partitions[p]
  {
    assert RelationOk(ty, db, p);
    forall child <- db.partitions[p]
      ensures child in db.tables && TableOk(ty, db.reg.types, db.tables[child]) && child !in db.partitions
    {
      assert RelationOk(ty, db, child);
    }
    forall q <- db.partitions | q != p
      ensures forall c <- db.partitions[q] :: c != p && c !in db.partitions[p]
    {
      assert RelationOk(ty, db, q) && Apart(db, q, p);
    }
  }

  lemma PartitionsDoChange(ty: Typing, db: Db, p: int, c: Change)
    requires DbOk(ty, db) && p in db.partitions && db.partitions[p] != []
    requires c.Add? ==> p in db.tables && c.attnum == MaxAttnum(db.tables[p].rows) + 1
    requires ChangeChildren(ty, db, db.partitions[p], c).Some?
    ensures PartitionsChanged(ty, db, p, c, ChangeChildren(ty, db, db.partitions[p], c).value)
  {
    PartitionsAreApart(ty, db, p);
    PartitionsAgree(ty, db, p, c);
    var mid := ChangeChildren(ty, db, db.partitions[p], c).value;
    forall child <- db.partitions[p]
      ensures child in db.tables && PartitionChanged(ty, db, p, c, mid, child)
    {
      AlikeChange(ty, mid.reg.types, Views(db.tables[child].rows), Views(db.tables[p].rows), c);
    }
  }

  /** The last two steps, once the partitions have changed. */
  lemma ParentAlters(ty: Typing, db: Db, p: int, a: Alter, c: Change, mid: Db, reg1: Registry, t1: Table)
    requires PartitionsChanged(ty, db, p, c, mid) && p in db.partitionKey && PartitionChange(db, p, a) == Some(c)
    requires PartitionOk(db, p) && db.partitions[p][0] in mid.tables
    requires AlterParent(ty, mid.reg, db.tables[p], mid.tables[db.partitions[p][0]], a) == Some((reg1, t1))
    ensures var vs := ChangeViews(ty, mid.reg.types, Views(db.tables[p].rows), c);
            vs.Some? && ParentFollows(mid.reg, db.tables[p], c, vs.value, reg1, t1)
  {
    var first := db.partitions[p][0];
    assert PartitionChanged(ty, db, p, c, mid, first);
    ParentFollowsChange(ty, db, p, a, c, mid.reg, mid.tables[first], Views(db.tables[first].rows));
  }

  lemma FinishParentIs(ty: Typing, mid: Db, p: int, child: int, key: string, a: Alter, reg1: Registry, t1: Table)
    requires p in mid.tables && child in mid.tables && child != p && FinishParent(ty, mid, p, child, key, a).Some?
    requires p in mid.partitions && mid.partitions[p] != [] && mid.partitions[p][0] == child
    requires AlterParent(ty, mid.reg, mid.tables[p], mid.tables[child], a) == Some((reg1, t1))
    ensures var db1 := FinishParent(ty, mid, p, child, key, a).value;
            && p in db1.tables && ShowsColumns(db1.tables[p].phys, mid.tables[child].phys) && LeadsTo(mid, db1, p, mid.partitions[p])
            && db1 == mid.(reg := reg1, tables := mid.tables[p := t1.(phys := db1.tables[p].phys)], deps := db1.deps,
                           partitionKey := mid.partitionKey[p := NewKey(key, a)])
  {
    var db1 := FinishParent(ty, mid, p, child, key, a).value;
    assert db1.tables == mid.tables[p := t1.(phys := db1.tables[p].phys)];
  }

  lemma ParentFinishes(ty: Typing, db: Db, p: int, a: Alter, c: Change, mid: Db, reg1: Registry, t1: Table)
    requires PartitionsChanged(ty, db, p, c, mid) && p in db.partitionKey && PartitionChange(db, p, a) == Some(c)
    requires PartitionOk(db, p) && db.partitions[p][0] in mid.tables
    requires AlterParent(ty, mid.reg, db.tables[p], mid.tables[db.partitions[p][0]], a) == Some((reg1, t1))
    requires FinishParent(ty, mid, p, db.partitions[p][0], db.partitionKey[p], a).Some?
    ensures Altered(ty, db, p, a, c, mid, reg1, t1, FinishParent(ty, mid, p, db.partitions[p][0], db.partitionKey[p], a).value)
  {
    ParentAlters(ty, db, p, a, c, mid, reg1, t1);
    assert db.partitions[p][0] in db.partitions[p];
    FinishParentIs(ty, mid, p, db.partitions[p][0], db.partitionKey[p], a, reg1, t1);
  }

  lemma AlterPartitionsComesAbout(ty: Typing, db: Db, p: int, a: Alter)
    returns (c: Change, mid: Db, reg1: Registry, t1: Table)
    requires DbOk(ty, db) && p in db.partitions && p in db.tables && p in db.partitionKey
    requires AlterPartitions(ty, db, p, a).Some?
    ensures Altered(ty, db, p, a, c, mid, reg1, t1, AlterPartitions(ty, db, p, a).value)
  {
    c := PartitionChange(db, p, a).value;
    mid := ChangeChildren(ty, db, db.partitions[p], c).value;
    PartitionsDoChange(ty, db, p, c);
    assert PartitionOk(db, p) by {
      PartitionsAreApart(ty, db, p);
    }
    var r := AlterParent(ty, mid.reg, mid.tables[p], mid.tables[db.partitions[p][0]], a).value;
    reg1, t1 := r.0, r.1;
    ParentFinishes(ty, db, p, a, c, mid, reg1, t1);
  }

  function Touched(db: Db, p: int): set<int>
    requires p in db.partitions
  {
    {p} + set c <- db.partitions[p]
  }

  lemma PutIsTablesChange(db: Db, mid: Db, p: int, t: Table, db1: Db, key: string)
    requires p in db.partitions && p in db.tables && p in db.partitionKey && OnlyTables(db, mid, db.partitions[p])
    requires RegistryOk(db1.reg) && Grows(db.reg, db1.reg) && LeadsTo(db, db1, p, db.partitions[p])
    requires db1 == mid.(reg := db1.reg, tables := mid.tables[p := t], deps := db1.deps, partitionKey := db.partitionKey[p := key])
    ensures TablesChange(db, db1, Touched(db, p))
  {
    assert forall r <- db.tables :: r !in Touched(db, p) ==> r !in db.partitions[p];
  }

  lemma AlteredIsStep(ty: Typing, db: Db, p: int, a: Alter, c: Change, mid: Db, reg1: Registry, t1: Table, db1: Db)
    requires Altered(ty, db, p, a, c, mid, reg1, t1, db1)
    ensures TablesChange(db, db1, Touched(db, p))
  {
    PutIsTablesChange(db, mid, p, t1.(phys := db1.tables[p].phys), db1, NewKey(db.partitionKey[p], a));
  }

  lemma AlteredKeepsNumbers(ty: Typing, db: Db, p: int, a: Alter, c: Change, mid: Db, reg1: Registry, t1: Table, db1: Db)
    requires Altered(ty, db, p, a, c, mid, reg1, t1, db1)
    ensures AllNumbersKept(db, db1)
  {
    forall r <- db.tables
      ensures r in db1.tables && NumbersKept(db.tables[r].rows, db1.tables[r].rows)
    {
      if r in db.partitions[p] {
        assert PartitionChanged(ty, db, p, c, mid, r);
      }
    }
  }

  /** Each partition is still sound, has the parent's new columns and no larger attnum. */
  lemma AlteredChildOk(ty: Typing, db: Db, p: int, a: Alter, c: Change, mid: Db, reg1: Registry, t1: Table, db1: Db, child: int)
    requires Altered(ty, db, p, a, c, mid, reg1, t1, db1) && child in db.partitions[p]
    ensures child in db1.tables && TableOk(ty, db1.reg.types, db1.tables[child])
    ensures Alike(Views(db1.tables[child].rows), Views(db1.tables[p].rows))
    ensures MaxAttnum(db1.tables[child].rows) <= MaxAttnum(db1.tables[p].rows)
  {
    assert PartitionChanged(ty, db, p, c, mid, child);
    assert PartitionChanged(ty, db, p, c, mid, db.partitions[p][0]);
    GrowthKeepsAligned(ty, mid.reg, reg1, mid.tables[child]);
  }

  lemma AlikeShowsNames(cols: seq<DuckColumn>, a: seq<View>, b: seq<View>)
    requires Alike(a, b) && EntryOk(cols, a) && UniqueNames(a)
    ensures EntryOk(cols, b) && UniqueNames(b)
  {}

  lemma AlteredEntryOk(ty: Typing, db: Db, p: int, a: Alter, c: Change, mid: Db, reg1: Registry, t1: Table, db1: Db)
    requires PartitionOk(db, p) && Altered(ty, db, p, a, c, mid, reg1, t1, db1)
    ensures ParentOk(db1.tables[p])
    ensures EntryOk(db1.tables[p].phys, Views(db1.tables[p].rows))
    ensures IndexOfName(Views(db1.tables[p].rows), Lower(db1.partitionKey[p])).Some?
  {
    var first := mid.tables[db.partitions[p][0]];
    assert PartitionChanged(ty, db, p, c, mid, db.partitions[p][0]);
    EntryFromChild(ty, mid.reg.types, first, db1.tables[p].phys);
    AlikeShowsNames(db1.tables[p].phys, Views(first.rows), Views(t1.rows));
    PartitionKeyStays(ty, db, p, a, c, mid.reg.types, Views(t1.rows));
  }

  lemma AlteredParentOk(ty: Typing, db: Db, p: int, a: Alter, c: Change, mid: Db, reg1: Registry, t1: Table, db1: Db)
    requires PartitionOk(db, p) && Altered(ty, db, p, a, c, mid, reg1, t1, db1)
    ensures PartitionOk(db1, p)
  {
    AlteredEntryOk(ty, db, p, a, c, mid, reg1, t1, db1);
    forall child <- db1.partitions[p]
      ensures Alike(Views(db1.tables[child].rows), Views(db1.tables[p].rows))
      ensures MaxAttnum(db1.tables[child].rows) <= MaxAttnum(db1.tables[p].rows)
    {
      AlteredChildOk(ty, db, p, a, c, mid, reg1, t1, db1, child);
    }
  }

  lemma AlteredKeyOk(ty: Typing, db: Db, p: int, a: Alter, c: Change, mid: Db, reg1: Registry, t1: Table, db1: Db, i: nat)
    requires Altered(ty, db, p, a, c, mid, reg1, t1, db1)
    requires i < |db.keys| && db.keys[i].relid == p && KeyRowOk(db, db.keys[i])
    ensures KeyRowOk(db1, db.keys[i])
  {
    ParentKeepsKey(ty, db, p, a, c, mid.reg, mid.tables[db.partitions[p][0]], i);
  }

  lemma TouchedKeyIsParents(ty: Typing, db: Db, p: int, i: nat)
    requires DbOk(ty, db) && p in db.partitions && i < |db.keys| && db.keys[i].relid in Touched(db, p)
    ensures db.keys[i].relid == p && KeyRowOk(db, db.keys[i])
  {
    assert KeyRowOk(db, db.keys[i]);
    assert RelationOk(ty, db, p);
  }

  lemma TouchedKeysOk(ty: Typing, db: Db, p: int, a: Alter, c: Change, mid: Db, reg1: Registry, t1: Table, db1: Db)
    requires DbOk(ty, db) && p in db.partitions && Altered(ty, db, p, a, c, mid, reg1, t1, db1)
    ensures NewKeysOk(db, db1, Touched(db, p))
  {
    forall i | 0 <= i < |db1.keys| && db1.keys[i].relid in Touched(db, p)
      ensures KeyRowOk(db1, db1.keys[i])
    {
      TouchedKeyIsParents(ty, db, p, i);
      AlteredKeyOk(ty, db, p, a, c, mid, reg1, t1, db1, i);
    }
  }

  lemma AlteredParentRelationOk(ty: Typing, db: Db, p: int, a: Alter, c: Change, mid: Db, reg1: Registry, t1: Table, db1: Db)
    requires DbOk(ty, db) && p in db.partitions && Altered(ty, db, p, a, c, mid, reg1, t1, db1)
    ensures RelationOk(ty, db1, p)
  {
    assert RelationOk(ty, db, p);
    AlteredParentOk(ty, db, p, a, c, mid, reg1, t1, db1);
  }

  lemma AlteredChildRelationOk(ty: Typing, db: Db, p: int, a: Alter, c: Change, mid: Db, reg1: Registry, t1: Table, db1: Db, child: int)
    requires DbOk(ty, db) && p in db.partitions && Altered(ty, db, p, a, c, mid, reg1, t1, db1) && child in db.partitions[p]
    ensures RelationOk(ty, db1, child)
  {
    assert RelationOk(ty, db, child) && RelationOk(ty, db, p);
    AlteredChildOk(ty, db, p, a, c, mid, reg1, t1, db1, child);
  }

  lemma TouchedRelationsOk(ty: Typing, db: Db, p: int, a: Alter, c: Change, mid: Db, reg1: Registry, t1: Table, db1: Db)
    requires DbOk(ty, db) && p in db.partitions && Altered(ty, db, p, a, c, mid, reg1, t1, db1)
    ensures forall r <- Touched(db, p) :: RelationOk(ty, db1, r)
  {
    forall r <- Touched(db, p)
      ensures RelationOk(ty, db1, r)
    {
      if r == p {
        AlteredParentRelationOk(ty, db, p, a, c, mid, reg1, t1, db1);
      } else {
        AlteredChildRelationOk(ty, db, p, a, c, mid, reg1, t1, db1, r);
      }
    }
  }

  lemma AlterPartitionsKeepsDb(ty: Typing, db: Db, p: int, a: Alter)
    requires DbOk(ty, db) && p in db.partitions && p in db.tables && p in db.partitionKey
    requires AlterPartitions(ty, db, p, a).Some?
    ensures var db1 := AlterPartitions(ty, db, p, a).value; DbOk(ty, db1) && AllNumbersKept(db, db1)
  {
    var c, mid, reg1, t1 := AlterPartitionsComesAbout(ty, db, p, a);
    AlteredKeepsDb(ty, db, p, a, c, mid, reg1, t1, AlterPartitions(ty, db, p, a).value);
  }

  lemma TouchedIsOk(ty: Typing, db: Db, db1: Db, p: int)
    requires DbOk(ty, db) && p in db.partitions && db1.partitions == db.partitions && db1.tables.Keys == db.tables.Keys
    requires LeadsTo(db, db1, p, db.partitions[p]) && forall r <- Touched(db, p) :: RelationOk(ty, db1, r)
    ensures TouchedOk(ty, db, db1, Touched(db, p))
  {
    PartitionsAreApart(ty, db, p);
    assert forall r :: r in db1.tables <==> r in db.tables.Keys;
    LeadingKeepsDeps(db, db1, p, db.partitions[p]);
    SamePartitionsApart(ty, db, db1);
  }

  lemma AlteredTouchedOk(ty: Typing, db: Db, p: int, a: Alter, c: Change, mid: Db, reg1: Registry, t1: Table, db1: Db)
    requires DbOk(ty, db) && Altered(ty, db, p, a, c, mid, reg1, t1, db1)
    ensures p in db.partitions && Step(db, db1, Touched(db, p)) && TouchedOk(ty, db, db1, Touched(db, p))
  {
    AlteredIsStep(ty, db, p, a, c, mid, reg1, t1, db1);
    TouchedRelationsOk(ty, db, p, a, c, mid, reg1, t1, db1);
    TouchedIsOk(ty, db, db1, p);
    TablesChangeIsStep(db, db1, Touched(db, p));
  }

  lemma AlteredKeepsDb(ty: Typing, db: Db, p: int, a: Alter, c: Change, mid: Db, reg1: Registry, t1: Table, db1: Db)
    requires DbOk(ty, db) && Altered(ty, db, p, a, c, mid, reg1, t1, db1)
    ensures DbOk(ty, db1) && AllNumbersKept(db, db1)
  {
    AlteredTouchedOk(ty, db, p, a, c, mid, reg1, t1, db1);
    AlteredKeepsNumbers(ty, db, p, a, c, mid, reg1, t1, db1);
    TouchedKeysOk(ty, db, p, a, c, mid, reg1, t1, db1);
    StepKeepsDb(ty, db, db1, Touched(db, p));
  }

  lemma AlterPartitionedKeepsDb(ty: Typing, db: Db, p: int, a: Alter)
    requires DbOk(ty, db) && p in db.partitions && p in db.tables && p in db.partitionKey
    requires AlterPartitioned(ty, db, p, a).Some?
    ensures var db1 := AlterPartitioned(ty, db, p, a).value; DbOk(ty, db1) && AllNumbersKept(db, db1)
  {
    JournalKeepsDb(ty, db);
    var db1 := AlterPartitioned(ty, db, p, a).value;
    if db1 != db && db1 != Journal(db) {
      AlterPartitionsKeepsDb(ty, Journal(db), p, a);
    }
  }

  /** ALTER TABLE keeps the whole catalog in step with DuckDB, whatever relation it names. */
  lemma AlterRelationKeepsDb(ty: Typing, db: Db, rel: int, a: Alter)
    requires DbOk(ty, db) && AlterRelation(ty, db, rel, a).Some?
    ensures var db1 := AlterRelation(ty, db, rel, a).value; DbOk(ty, db1) && AllNumbersKept(db, db1)
  {
    if db.kinds[rel] == Ordinary {
      AlterOrdinaryKeepsDb(ty, db, rel, a);
    } else {
      AlterPartitionedKeepsDb(ty, db, rel, a);
    }
  }
}
