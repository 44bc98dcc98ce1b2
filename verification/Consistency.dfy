/** The invariant of the whole catalog, and what statements that touch few relations leave of it. */
module Consistency {
  import opened TableColumns
  import opened TableChanges
  import opened AlterTable

  /// The invariant

  ghost predicate RelationOk(ty: Typing, db: Db, r: int) {
    && (r in db.kinds <==> r in db.tables)
    && (r in db.internal || r in db.partitions ==> r in db.kinds)
    && (r in db.kinds ==>
          && r < db.reg.nextOid && (r in db.partitions ==> db.kinds[r] == Partitioned)
          && (db.kinds[r] == Ordinary ==> TableOk(ty, db.reg.types, db.tables[r]))
          && (db.kinds[r] == Partitioned ==> PartitionOk(db, r)))
  }

  /** A key list numbers a visible relation and names active columns of it. */
  ghost predicate KeyRowOk(db: Db, key: Key) {
    && key.owner < db.reg.nextOid && key.relid !in db.internal && key.relid in db.tables
    && KeyOk(db.tables[key.relid].rows, key.attnums)
  }

  ghost predicate Apart(db: Db, p: int, q: int) {
    p in db.partitions && q in db.partitions && p != q ==> forall c <- db.partitions[p] :: c !in db.partitions[q]
  }

  /** Dependency rows join relations that exist, and those of a partitioned table lead exactly to its partitions. */
  ghost predicate DepsOk(db: Db) {
    && (forall d <- db.deps :: d.0 in db.tables && d.1 in db.tables)
    && (forall p, x :: p in db.partitions ==> ((p, x) in db.deps <==> x in db.partitions[p]))
  }

  ghost predicate DbOk(ty: Typing, db: Db) {
    && RegistryOk(db.reg) && DepsOk(db)
    && (forall r :: RelationOk(ty, db, r))
    && (forall p, q :: Apart(db, p, q))
    && (forall i :: 0 <= i < |db.keys| ==> KeyRowOk(db, db.keys[i]))
  }

  /** Between relations that stay, a dependency row goes or comes only if it is a partitioned table's own. */
  ghost predicate DepsKept(a: Db, b: Db) {
    && (forall d <- a.deps :: d in b.deps || d.0 in a.partitions || d.0 !in b.tables || d.1 !in b.tables)
    && (forall d <- b.deps :: d in a.deps || d.0 in b.partitions)
    && (forall r :: r in a.tables && r in b.tables ==> (r in a.partitions <==> r in b.partitions))
  }

  /** A relation that stays keeps its rows' numbers and its dropped columns dropped, one that is new has a new
      id, and key lists and dependency rows go only with a relation they concern. */
  ghost predicate AllNumbersKept(a: Db, b: Db) {
    && DepsKept(a, b)
    && a.reg.nextOid <= b.reg.nextOid
    && (forall r <- b.tables :: if r in a.tables then NumbersKept(a.tables[r].rows, b.tables[r].rows) else a.reg.nextOid <= r)
    && (forall i :: 0 <= i < |a.keys| ==> a.keys[i] in b.keys || a.keys[i].owner !in b.tables || a.keys[i].relid !in b.tables)
  }

  /** Ids of relations, and of the owners of keys, come from the allocator. */
  ghost predicate OldIds(db: Db) {
    && (forall r <- db.tables :: r < db.reg.nextOid)
    && (forall i :: 0 <= i < |db.keys| ==> db.keys[i].owner < db.reg.nextOid && db.keys[i].relid < db.reg.nextOid)
  }

  lemma StaysPartitioned(a: Db, b: Db, r: int)
    requires DepsKept(a, b)
    ensures r in a.tables && r in b.tables ==> (r in a.partitions <==> r in b.partitions)
  {}

  lemma DepsKeptTrans(a: Db, b: Db, c: Db)
    requires AllNumbersKept(a, b) && AllNumbersKept(b, c) && OldIds(a) && DepsOk(a) && DepsOk(b) && DepsOk(c)
    ensures DepsKept(a, c)
  {
    forall d <- a.deps
      ensures d in c.deps || d.0 in a.partitions || d.0 !in c.tables || d.1 !in c.tables
    {
      assert d.0 in a.tables && d.1 in a.tables && d.0 < a.reg.nextOid && d.1 < a.reg.nextOid;
    }
    forall d <- c.deps
      ensures d in a.deps || d.0 in c.partitions
    {
      assert d.0 in c.tables && (d in b.deps ==> d.0 in b.tables);
      StaysPartitioned(b, c, d.0);
    }
  }

  lemma AllNumbersKeptTrans(a: Db, b: Db, c: Db)
    requires AllNumbersKept(a, b) && AllNumbersKept(b, c) && OldIds(a) && DepsOk(a) && DepsOk(b) && DepsOk(c)
    ensures AllNumbersKept(a, c)
  {
    DepsKeptTrans(a, b, c);
    forall r <- c.tables
      ensures if r in a.tables then NumbersKept(a.tables[r].rows, c.tables[r].rows) else a.reg.nextOid <= r
    {
      if r in a.tables {
        NumbersKeptTrans(a.tables[r].rows, b.tables[r].rows, c.tables[r].rows);
      }
    }
    forall i | 0 <= i < |a.keys|
      ensures a.keys[i] in c.keys || a.keys[i].owner !in c.tables || a.keys[i].relid !in c.tables
    {
      assert a.keys[i] in b.keys ==> exists j :: 0 <= j < |b.keys| && b.keys[j] == a.keys[i];
    }
  }

  lemma SameKeysKept(a: Db, b: Db)
    requires |a.keys| <= |b.keys| && b.keys[..|a.keys|] == a.keys
    ensures forall i :: 0 <= i < |a.keys| ==> a.keys[i] in b.keys
  {
    assert forall i :: 0 <= i < |a.keys| ==> a.keys[i] == b.keys[i];
  }

  /// Frames

  /** Nothing is different about relation `r` itself. */
  ghost predicate SameAt(a: Db, b: Db, r: int) {
    && (r in b.kinds <==> r in a.kinds) && (r in a.kinds ==> b.kinds[r] == a.kinds[r])
    && (r in b.tables <==> r in a.tables) && (r in a.tables ==> b.tables[r] == a.tables[r])
    && (r in b.internal <==> r in a.internal)
    && (r in b.partitions <==> r in a.partitions) && (r in a.partitions ==> b.partitions[r] == a.partitions[r])
    && (r in b.partitionKey <==> r in a.partitionKey) && (r in a.partitionKey ==> b.partitionKey[r] == a.partitionKey[r])
  }

  /** Among relations only those in `touched` may differ. */
  ghost predicate Frame(a: Db, b: Db, touched: set<int>) {
    && RegistryOk(b.reg) && Grows(a.reg, b.reg)
    && (forall r :: r !in touched ==> SameAt(a, b, r))
  }

  /** The dependency rows of other relations are as they were. */
  ghost predicate DepsFrame(a: Db, b: Db, touched: set<int>) { forall d: (int, int) :: d.0 !in touched ==> (d in b.deps <==> d in a.deps) }

  /** The dependency rows of `p` lead to the given relations, all others are as they were. */
  ghost predicate LeadsTo(a: Db, b: Db, p: int, rels: seq<int>) {
    forall d: (int, int) :: d in b.deps <==> if d.0 == p then d.1 in rels else d in a.deps
  }

  lemma LeadingKeepsDeps(a: Db, b: Db, p: int, rels: seq<int>)
    requires LeadsTo(a, b, p, rels) && DepsOk(a) && p in b.partitions && b.partitions[p] == rels && p in b.tables && p in a.partitions
    requires (forall r <- a.tables :: r in b.tables) && (forall x <- rels :: x in b.tables)
    requires b.partitions.Keys == a.partitions.Keys && forall q <- a.partitions :: q != p ==> b.partitions[q] == a.partitions[q]
    ensures DepsOk(b) && DepsKept(a, b)
  {
    assert forall q :: q in b.partitions <==> q in a.partitions.Keys;
    forall d <- b.deps
      ensures d.0 in b.tables && d.1 in b.tables
    {
      if d.0 == p {
        LedToExists(b, rels, d.1);
      } else {
        assert d in a.deps && d.0 in a.tables && d.1 in a.tables;
        StaysThere(a, b, d.0);
        StaysThere(a, b, d.1);
      }
    }
  }

  lemma StaysThere(a: Db, b: Db, x: int)
    requires x in a.tables && forall r <- a.tables :: r in b.tables
    ensures x in b.tables
  {}

  lemma LedToExists(b: Db, rels: seq<int>, x: int)
    requires x in rels && forall y <- rels :: y in b.tables
    ensures x in b.tables
  {}

  /** Keys may be added. */
  ghost predicate Step(a: Db, b: Db, touched: set<int>) {
    && Frame(a, b, touched) && DepsFrame(a, b, touched)
    && |a.keys| <= |b.keys| && b.keys[..|a.keys|] == a.keys
  }

  /** A statement that changes rows and DuckDB objects only. */
  ghost predicate TablesChange(a: Db, b: Db, touched: set<int>) {
    && RegistryOk(b.reg) && Grows(a.reg, b.reg)
    && b.kinds == a.kinds && b.internal == a.internal && b.keys == a.keys && b.partitions == a.partitions
    && DepsFrame(a, b, touched)
    && b.tables.Keys == a.tables.Keys && b.partitionKey.Keys == a.partitionKey.Keys
    && (forall r <- a.tables :: r !in touched ==> b.tables[r] == a.tables[r])
    && (forall r <- a.partitionKey :: r !in touched ==> b.partitionKey[r] == a.partitionKey[r])
  }

  lemma TablesChangeIsStep(a: Db, b: Db, touched: set<int>)
    requires TablesChange(a, b, touched)
    ensures Step(a, b, touched)
  {
    assert b.keys[..|a.keys|] == a.keys;
    assert a.kinds.Keys == b.kinds.Keys && a.partitions.Keys == b.partitions.Keys;
    forall r | r !in touched
      ensures SameAt(a, b, r)
    {
      assert r in b.tables <==> r in b.tables.Keys;
      assert r in b.partitionKey <==> r in b.partitionKey.Keys;
    }
  }

  lemma OtherParentStaysOk(a: Db, b: Db, touched: set<int>, r: int)
    requires Frame(a, b, touched) && PartitionOk(a, r) && r !in touched
    requires forall c <- a.partitions[r] :: c !in touched
    ensures PartitionOk(b, r)
  {
    assert SameAt(a, b, r);
    assert forall c <- a.partitions[r] :: SameAt(a, b, c);
  }

  lemma OthersStayOk(ty: Typing, a: Db, b: Db, touched: set<int>, r: int)
    requires Frame(a, b, touched) && RelationOk(ty, a, r) && r !in touched
    requires r in a.partitions ==> forall c <- a.partitions[r] :: c !in touched
    ensures RelationOk(ty, b, r)
  {
    assert SameAt(a, b, r);
    if r in a.kinds && a.kinds[r] == Ordinary {
      GrowthKeepsAligned(ty, a.reg, b.reg, a.tables[r]);
    } else if r in a.kinds && a.kinds[r] == Partitioned {
      OtherParentStaysOk(a, b, touched, r);
    }
  }

  ghost predicate NewKeysOk(a: Db, b: Db, touched: set<int>) {
    forall i :: 0 <= i < |b.keys| && (i >= |a.keys| || b.keys[i].relid in touched) ==> KeyRowOk(b, b.keys[i])
  }

  ghost predicate TouchedOk(ty: Typing, a: Db, b: Db, touched: set<int>) {
    && DepsOk(b) && (forall r <- touched :: RelationOk(ty, b, r))
    && (forall q <- a.partitions :: q !in touched ==> forall c <- a.partitions[q] :: c !in touched)
    && (forall p, q :: p in touched || q in touched ==> Apart(b, p, q))
  }

  /** Relations that share nothing with the touched ones need no look. */
  lemma StepKeepsDb(ty: Typing, a: Db, b: Db, touched: set<int>)
    requires DbOk(ty, a) && Step(a, b, touched) && TouchedOk(ty, a, b, touched) && NewKeysOk(a, b, touched)
    ensures DbOk(ty, b)
  {
    forall r
      ensures RelationOk(ty, b, r)
    {
      assert RelationOk(ty, a, r);
      if r !in touched {
        OthersStayOk(ty, a, b, touched, r);
      }
    }
    forall p, q
      ensures Apart(b, p, q)
    {
      if p !in touched && q !in touched {
        assert Apart(a, p, q) && SameAt(a, b, p) && SameAt(a, b, q);
      }
    }
    forall i | 0 <= i < |b.keys|
      ensures KeyRowOk(b, b.keys[i])
    {
      if i < |a.keys| && b.keys[i].relid !in touched {
        assert b.keys[i] == a.keys[i] && KeyRowOk(a, a.keys[i]) && SameAt(a, b, a.keys[i].relid);
      }
    }
  }

  /** When no partition lists change, partitions stay apart. */
  lemma SamePartitionsApart(ty: Typing, a: Db, b: Db)
    requires DbOk(ty, a) && b.partitions == a.partitions
    ensures forall p, q :: Apart(b, p, q)
  {
    forall p, q
      ensures Apart(b, p, q)
    {
      assert Apart(a, p, q);
    }
  }

  lemma JournalKeepsDb(ty: Typing, db: Db)
    requires DbOk(ty, db)
    ensures DbOk(ty, Journal(db)) && Step(db, Journal(db), {}) && AllNumbersKept(db, Journal(db))
  {
    StepKeepsDb(ty, db, Journal(db), {});
  }
}
