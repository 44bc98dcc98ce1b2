/** A successful start reaches a fixpoint. */
module StartupFixpoint {
  import opened Text
  import opened TableColumns
  import opened TypeMapping
  import opened PrintedTypes
  import opened Snapshot
  import opened CatalogTables
  import opened Recovery
  import opened EntrypointSql
  import opened StartupChecks

  /// What is settled

  ghost predicate ObjectOk(ty: Typing, s: State, rel: int, view: bool) {
    CheckObject(ty, s, rel, view) == (s.cat.reg, true)
  }

  /** A vector index that is present is in no transient state and, if active, was built by the loaded extension. */
  ghost predicate VectorSettled(env: Env, s: State, index: int) {
    index in s.cat.vectors ==>
      var v := s.cat.vectors[index];
      !Transient(v.status) && (v.status == ActiveIndex ==> env.vss == Some(v.extension))
  }

  /** An active table, view or index matches its DuckDB object. */
  ghost predicate RelationSettled(env: Env, s: State, rel: int) {
    rel in s.cat.relations && s.cat.relations[rel].status == Active ==>
      match s.cat.relations[rel].kind
      case OrdinaryTable => ObjectOk(env.ty, s, rel, false)
      case ViewRelation => ObjectOk(env.ty, s, rel, true)
      case Index => IndexPresent(s, rel) && VectorSettled(env, s, rel)
      case _ => true
  }

  ghost predicate ChildSettled(env: Env, s: State, c: int) {
    c in s.cat.relations && s.cat.relations[c].status == Active && ObjectOk(env.ty, s, c, false)
  }

  /** The parent's dependency rows are exactly those to its partitions. */
  ghost predicate EdgesSettled(s: State, p: int, children: seq<int>) {
    forall x :: Edge(RelationClass, p, RelationClass, x) in s.cat.deps <==> x in children
  }

  /** A partitioned table has only active, matching partitions and the expected entrypoint. */
  ghost predicate ParentSettled(env: Env, s: State, p: int)
    requires p in s.cat.relations
  {
    var children := Children(s, p);
    && (forall i :: 0 <= i < |children| ==> ChildSettled(env, s, children[i]))
    && p in s.cat.entrypoints && Trim(s.cat.entrypoints[p]) == EntrySql(s.cat, p, children)
    && ObjectOk(env.ty, s, p, true)
    && EdgesSettled(s, p, children)
  }

  ghost predicate ActiveParentSettled(env: Env, s: State, p: int) {
    p in s.cat.relations && s.cat.relations[p].status == Active && s.cat.relations[p].kind == PartitionedTable ==> ParentSettled(env, s, p)
  }

  ghost predicate Settled(env: Env, s: State) {
    && PendingRow !in s.journal && Integrity(s.cat) && s.stored == env.digest(s.cat, s.journal)
    && (forall rel :: RelationSettled(env, s, rel))
    && (forall p :: ActiveParentSettled(env, s, p))
  }

  /** The catalog's own operations store column types of `rs_type` and partitions that are tables. */
  ghost predicate WellFormed(s: State) {
    && (forall r, i :: r in s.cat.columns && 0 <= i < |s.cat.columns[r]| ==> s.cat.columns[r][i].typeId in TextsOf(s.cat.reg))
    && (forall i :: 0 <= i < |s.cat.partitions| ==>
          var c := s.cat.partitions[i].child; c in s.cat.relations ==> s.cat.relations[c].kind == OrdinaryTable)
  }

  /// What startup may change

  ghost predicate StatusOnly(a: Relation, b: Relation) { b == a.(status := b.status) && (b.status == a.status || b.status == Unavailable) }

  ghost predicate VectorOnly(a: VectorIndex, b: VectorIndex) {
    b == a.(status := b.status) && (b.status == a.status || b.status == UnavailableIndex || b.status == Stale)
  }

  ghost predicate PartitionOnly(a: PartitionRow, b: PartitionRow) {
    b == a.(status := b.status) && (b.status == a.status || b.status == FailedPartition)
  }

  ghost predicate RelationsLater(a: map<int, Relation>, b: map<int, Relation>) {
    b.Keys == a.Keys && forall r <- a :: StatusOnly(a[r], b[r])
  }

  ghost predicate VectorsLater(a: map<int, VectorIndex>, b: map<int, VectorIndex>) {
    b.Keys == a.Keys && forall v <- a :: VectorOnly(a[v], b[v])
  }

  ghost predicate PartitionsLater(a: seq<PartitionRow>, b: seq<PartitionRow>) {
    |b| == |a| && forall i :: 0 <= i < |a| ==> PartitionOnly(a[i], b[i])
  }

  /** New dependency rows join relations, and only those of partitioned tables go. */
  ghost predicate EdgeLater(c: Catalog, d: Catalog, e: Edge) {
    && (e in d.deps ==> e in c.deps || (e.class_ == RelationClass && e.refClass == RelationClass && e.obj in c.relations && e.ref in c.relations))
    && (e in c.deps ==> e in d.deps || (e.class_ == RelationClass && e.refClass == RelationClass && e.obj in c.relations
                                        && c.relations[e.obj].kind == PartitionedTable))
  }

  /** Only the entrypoint views of partitioned tables may be replaced. */
  ghost predicate ObjectLater(s: State, t: State, r: int) {
    r in s.cat.relations && s.cat.relations[r].kind != PartitionedTable ==>
      (r in t.objects <==> r in s.objects) && (r in s.objects ==> t.objects[r] == s.objects[r])
  }

  ghost predicate CatalogLater(c: Catalog, d: Catalog) {
    && Grows(c.reg, d.reg)
    && d == c.(reg := d.reg, relations := d.relations, vectors := d.vectors, deps := d.deps, partitions := d.partitions, entrypoints := d.entrypoints)
    && RelationsLater(c.relations, d.relations) && VectorsLater(c.vectors, d.vectors) && PartitionsLater(c.partitions, d.partitions)
    && (forall e :: EdgeLater(c, d, e))
  }

  ghost predicate Later(s: State, t: State) {
    && t.journal == s.journal && t.duckIndexes == s.duckIndexes
    && CatalogLater(s.cat, t.cat) && (forall r :: ObjectLater(s, t, r))
  }

  lemma CatalogLaterTrans(a: Catalog, b: Catalog, c: Catalog)
    requires CatalogLater(a, b) && CatalogLater(b, c)
    ensures CatalogLater(a, c)
  {
    forall r <- a.relations
      ensures StatusOnly(a.relations[r], c.relations[r])
    {
      assert StatusOnly(a.relations[r], b.relations[r]) && StatusOnly(b.relations[r], c.relations[r]);
    }
    forall v <- a.vectors
      ensures VectorOnly(a.vectors[v], c.vectors[v])
    {
      assert VectorOnly(a.vectors[v], b.vectors[v]) && VectorOnly(b.vectors[v], c.vectors[v]);
    }
    forall i | 0 <= i < |a.partitions|
      ensures PartitionOnly(a.partitions[i], c.partitions[i])
    {
      assert PartitionOnly(a.partitions[i], b.partitions[i]) && PartitionOnly(b.partitions[i], c.partitions[i]);
    }
    forall e
      ensures EdgeLater(a, c, e)
    {
      assert EdgeLater(a, b, e) && EdgeLater(b, c, e);
      assert e.obj in a.relations ==> StatusOnly(a.relations[e.obj], b.relations[e.obj]);
    }
  }

  lemma LaterTrans(s: State, t: State, u: State)
    requires Later(s, t) && Later(t, u)
    ensures Later(s, u)
  {
    CatalogLaterTrans(s.cat, t.cat, u.cat);
    forall r
      ensures ObjectLater(s, u, r)
    {
      assert ObjectLater(s, t, r) && ObjectLater(t, u, r);
      assert r in s.cat.relations ==> StatusOnly(s.cat.relations[r], t.cat.relations[r]);
    }
  }

  lemma TextsGrow(a: SoundRegistry, b: SoundRegistry)
    requires Grows(a, b)
    ensures forall id <- TextsOf(a) :: id in TextsOf(b) && TextsOf(b)[id] == TextsOf(a)[id]
  {
    forall id <- TextsOf(a)
      ensures id in TextsOf(b) && TextsOf(b)[id] == TextsOf(a)[id]
    {
      TextStays(a, b, id);
    }
  }

  lemma TextStays(a: SoundRegistry, b: SoundRegistry, id: int)
    requires Grows(a, b) && id in TextsOf(a)
    ensures id in TextsOf(b) && TextsOf(b)[id] == TextsOf(a)[id]
  {
    if t :| t in a.types && a.types[t] == id {
      TextOfRegistered(a, t);
      TextOfRegistered(b, t);
    } else {
      assert TYPE_BOOL <= id <= TYPE_NUMERIC;
      TextOfBuiltin(a, id);
      TextOfBuiltin(b, id);
    }
  }

  lemma LaterKeepsWellFormed(s: State, t: State)
    requires WellFormed(s) && Later(s, t)
    ensures WellFormed(t)
  {
    TextsGrow(s.cat.reg, t.cat.reg);
    forall i | 0 <= i < |t.cat.partitions| && t.cat.partitions[i].child in t.cat.relations
      ensures t.cat.relations[t.cat.partitions[i].child].kind == OrdinaryTable
    {
      assert PartitionOnly(s.cat.partitions[i], t.cat.partitions[i]);
      assert StatusOnly(s.cat.relations[t.cat.partitions[i].child], t.cat.relations[t.cat.partitions[i].child]);
    }
  }

  lemma TypesStillExist(c: Catalog, d: Catalog)
    requires ColumnsHaveTypes(c) && CatalogLater(c, d)
    ensures ColumnsHaveTypes(d)
  {
    forall r <- d.columns
      ensures RowsTyped(d.reg, d.rowTypes, d.columns[r])
    {
      assert RowsTyped(c.reg, c.rowTypes, c.columns[r]);
      forall i | 0 <= i < |d.columns[r]|
        ensures TypeExists(d.reg, d.rowTypes, d.columns[r][i].typeId)
      {
        if t :| t in c.reg.types && c.reg.types[t] == d.columns[r][i].typeId {
          assert t in d.reg.types && d.reg.types[t] == d.columns[r][i].typeId;
        }
      }
    }
  }

  lemma NamesStillUnique(c: Catalog, d: Catalog)
    requires ActiveNamesUnique(c) && RelationsLater(c.relations, d.relations)
    ensures ActiveNamesUnique(d)
  {
    forall a <- d.relations, b <- d.relations | a != b
      ensures !SameName(d.relations[a], d.relations[b])
    {
      assert !SameName(c.relations[a], c.relations[b]) && StatusOnly(c.relations[a], d.relations[a]) && StatusOnly(c.relations[b], d.relations[b]);
    }
  }

  /** Nothing startup changes can break integrity. */
  lemma LaterKeepsIntegrity(c: Catalog, d: Catalog)
    requires Integrity(c) && CatalogLater(c, d)
    ensures Integrity(d)
  {
    TypesStillExist(c, d);
    NamesStillUnique(c, d);
    assert SchemasExist(d) by {
      assert forall r <- d.relations :: StatusOnly(c.relations[r], d.relations[r]);
    }
    assert VectorsOk(d) by {
      assert forall v <- d.vectors :: VectorOnly(c.vectors[v], d.vectors[v]) && VectorOk(c.vectors[v]);
    }
    forall e <- d.deps
      ensures EdgeOk(d, e)
    {
      assert EdgeLater(c, d, e);
      assert e in c.deps ==> EdgeOk(c, e);
    }
  }

  /// Checks stay passed

  lemma {:induction false} LoadedStays(ty: Typing, reg: SoundRegistry, cols: seq<DuckColumn>, more: SoundRegistry)
    requires LoadTypes(ty, reg, cols).1 && Grows(LoadTypes(ty, reg, cols).0, more)
    ensures LoadTypes(ty, more, cols) == (more, true)
    decreases |cols|
  {
    if cols != [] {
      EnsureTypeGrows(ty, reg, cols[0].duckType);
      var next: SoundRegistry := EnsureType(ty, reg, cols[0].duckType).value;
      LoadedStays(ty, next, cols[1..], more);
    }
  }

  lemma MatchesStays(ty: Typing, a: SoundRegistry, b: SoundRegistry, rows: seq<ColumnRow>, cols: seq<DuckColumn>)
    requires Grows(a, b) && CatalogMatches(ty, a, TextsOf(a), rows, cols)
    ensures CatalogMatches(ty, b, TextsOf(b), rows, cols)
  {
    TextsGrow(a, b);
    forall k | 0 <= k < |cols|
      ensures ColumnMatches(ty, b, TextsOf(b), ActiveRows(rows)[k], cols[k])
    {
      assert ColumnMatches(ty, a, TextsOf(a), ActiveRows(rows)[k], cols[k]);
    }
  }

  /** A check that passed passes again, registering nothing, in any state with the same object and
      columns and no fewer types. */
  lemma CheckStaysPassed(ty: Typing, s: State, rel: int, view: bool, t: State)
    requires CheckObject(ty, s, rel, view).1 && Grows(CheckObject(ty, s, rel, view).0, t.cat.reg)
    requires rel in t.objects && t.objects[rel] == s.objects[rel] && ColumnsOf(t.cat, rel) == ColumnsOf(s.cat, rel)
    ensures ObjectOk(ty, t, rel, view)
  {
    var cols := s.objects[rel].cols;
    LoadedStays(ty, s.cat.reg, cols, t.cat.reg);
    MatchesStays(ty, CheckObject(ty, s, rel, view).0, t.cat.reg, ColumnsOf(s.cat, rel), cols);
  }

  lemma ObjectStaysOk(ty: Typing, s: State, rel: int, view: bool, t: State)
    requires Later(s, t) && ObjectOk(ty, s, rel, view) && rel in s.cat.relations && s.cat.relations[rel].kind != PartitionedTable
    ensures ObjectOk(ty, t, rel, view)
  {
    assert ObjectLater(s, t, rel);
    CheckStaysPassed(ty, s, rel, view, t);
  }

  lemma PartitionsLaterTail(a: seq<PartitionRow>, b: seq<PartitionRow>)
    requires a != [] && PartitionsLater(a, b)
    ensures PartitionsLater(a[1..], b[1..])
  {
    forall i | 0 <= i < |a[1..]|
      ensures PartitionOnly(a[1..][i], b[1..][i])
    {
      assert PartitionOnly(a[i + 1], b[i + 1]);
    }
  }

  lemma RowLater(c: Catalog, d: Catalog, r: int)
    requires CatalogLater(c, d)
    ensures r in d.relations <==> r in c.relations
    ensures r in c.relations ==> StatusOnly(c.relations[r], d.relations[r])
  {}

  /** Partitions only leave the list of active ones. */
  lemma {:induction false} ActiveChildrenShrink(c: Catalog, d: Catalog, a: seq<PartitionRow>, b: seq<PartitionRow>, p: int, x: int)
    requires PartitionsLater(a, b) && d.relations.Keys == c.relations.Keys && x in ActiveChildren(d, b, p)
    ensures x in ActiveChildren(c, a, p)
    decreases |a|
  {
    if a != [] {
      assert PartitionOnly(a[0], b[0]);
      PartitionsLaterTail(a, b);
      if x in ActiveChildren(d, b[1..], p) {
        ActiveChildrenShrink(c, d, a[1..], b[1..], p, x);
      }
    }
  }

  lemma IndexStaysPresent(s: State, t: State, index: int)
    requires Later(s, t) && IndexPresent(s, index)
    ensures IndexPresent(t, index)
  {
    var c, d := s.cat, t.cat;
    if index in c.indexes {
      RowLater(c, d, c.indexes[index]);
    }
    if OfPartitionedTable(d, index) {
      var p := d.indexes[index];
      forall x <- Children(t, p)
        ensures (index, x) in t.duckIndexes
      {
        ActiveChildrenShrink(c, d, c.partitions, d.partitions, p, x);
      }
    }
  }

  /** A settled relation stays settled as long as nobody touches its vector index. */
  lemma RelationStaysSettled(env: Env, s: State, t: State, rel: int)
    requires Later(s, t) && RelationSettled(env, s, rel)
    requires rel in s.cat.vectors ==> t.cat.vectors[rel] == s.cat.vectors[rel]
    ensures RelationSettled(env, t, rel)
  {
    if rel in t.cat.relations && t.cat.relations[rel].status == Active {
      assert StatusOnly(s.cat.relations[rel], t.cat.relations[rel]);
      match s.cat.relations[rel].kind {
        case OrdinaryTable => ObjectStaysOk(env.ty, s, rel, false, t);
        case ViewRelation => ObjectStaysOk(env.ty, s, rel, true, t);
        case Index => IndexStaysPresent(s, t, rel);
        case _ =>
      }
    }
  }

  ghost predicate AllRelations(c: Catalog, xs: seq<int>) { forall i :: 0 <= i < |xs| ==> xs[i] in c.relations }

  /// Each update is a later state

  lemma WithRegLater(s: State, reg: SoundRegistry)
    requires Grows(s.cat.reg, reg)
    ensures Later(s, WithReg(s, reg))
  {}

  lemma MarkUnavailableLater(s: State, rel: int)
    ensures Later(s, MarkUnavailable(s, rel))
  {}

  lemma MarkVectorLater(s: State, index: int, status: BuildStatus)
    requires status == UnavailableIndex || status == Stale
    ensures Later(s, MarkVector(s, index, status))
  {}

  lemma MarkPartitionFailedLater(s: State, parent: int, child: int)
    ensures Later(s, MarkPartitionFailed(s, parent, child))
  {
    var t := MarkPartitionFailed(s, parent, child);
    assert PartitionsLater(s.cat.partitions, t.cat.partitions);
  }

  lemma SyncDepsLater(s: State, parent: int, children: seq<int>)
    requires IsParent(s, parent) && AllRelations(s.cat, children)
    ensures Later(s, SyncDeps(s, parent, children))
  {
    var t := SyncDeps(s, parent, children);
    forall e
      ensures EdgeLater(s.cat, t.cat, e)
    {
    }
  }

  lemma RebuildLater(env: Env, s: State, parent: int, children: seq<int>, sql: string)
    requires parent in s.cat.relations && s.cat.relations[parent].kind == PartitionedTable
    requires Rebuild(env, s, parent, children, sql).Some?
    ensures Later(s, Rebuild(env, s, parent, children, sql).value)
  {}

  /// Phase one: tables, views and indexes

  lemma CheckTableSettles(env: Env, s: State, rel: int, view: bool)
    requires rel in s.cat.relations
    ensures var t := CheckTable(env, s, rel, view);
            && Later(s, t) && t.cat.vectors == s.cat.vectors
            && (t.cat.relations[rel].status == Active ==> ObjectOk(env.ty, t, rel, view))
  {
    var (reg, ok) := CheckObject(env.ty, s, rel, view);
    WithRegLater(s, reg);
    if ok {
      CheckStaysPassed(env.ty, s, rel, view, WithReg(s, reg));
    } else {
      MarkUnavailableLater(WithReg(s, reg), rel);
      LaterTrans(s, WithReg(s, reg), MarkUnavailable(WithReg(s, reg), rel));
    }
  }

  /** The vector indexes of other relations are left alone. */
  ghost predicate VectorsKept(s: State, t: State, rels: seq<int>) {
    forall v :: v in s.cat.vectors && v !in rels ==> v in t.cat.vectors && t.cat.vectors[v] == s.cat.vectors[v]
  }

  lemma ReconcileSettles(env: Env, s: State, rel: int)
    requires Reconcile(env, s, rel).Some?
    ensures var t := Reconcile(env, s, rel).value;
            Later(s, t) && VectorSettled(env, t, rel) && VectorsKept(s, t, [rel]) && t.cat.relations == s.cat.relations
  {
    MarkVectorLater(s, rel, UnavailableIndex);
    MarkVectorLater(s, rel, Stale);
  }

  lemma CheckIndexSettles(env: Env, s: State, rel: int)
    requires rel in s.cat.relations && s.cat.relations[rel].kind == Index && CheckIndex(env, s, rel).Some?
    ensures var t := CheckIndex(env, s, rel).value; Later(s, t) && RelationSettled(env, t, rel) && VectorsKept(s, t, [rel])
  {
    if IndexPresent(s, rel) {
      ReconcileSettles(env, s, rel);
      IndexStaysPresent(s, CheckIndex(env, s, rel).value, rel);
    } else {
      var m := MarkUnavailable(s, rel);
      MarkUnavailableLater(s, rel);
      MarkVectorLater(m, rel, UnavailableIndex);
      LaterTrans(s, m, MarkVector(m, rel, UnavailableIndex));
    }
  }

  lemma CheckRelationSettles(env: Env, s: State, rel: int)
    requires CheckRelation(env, s, rel).Some?
    ensures var t := CheckRelation(env, s, rel).value; Later(s, t) && RelationSettled(env, t, rel) && VectorsKept(s, t, [rel])
  {
    if rel in s.cat.relations {
      match s.cat.relations[rel].kind {
        case OrdinaryTable => CheckTableSettles(env, s, rel, false);
        case ViewRelation => CheckTableSettles(env, s, rel, true);
        case Index => CheckIndexSettles(env, s, rel);
        case _ =>
      }
    }
  }

  lemma {:induction false} CheckRelationsSettle(env: Env, s: State, rels: seq<int>)
    requires CheckRelations(env, s, rels).Some?
    ensures var t := CheckRelations(env, s, rels).value;
            Later(s, t) && VectorsKept(s, t, rels) && forall rel <- rels :: RelationSettled(env, t, rel)
    decreases |rels|
  {
    if rels != [] {
      var next := CheckRelation(env, s, rels[0]).value;
      CheckRelationSettles(env, s, rels[0]);
      CheckRelationsSettle(env, next, rels[1..]);
      var t := CheckRelations(env, s, rels).value;
      LaterTrans(s, next, t);
      assert rels == [rels[0]] + rels[1..];
      if rels[0] !in rels[1..] {
        RelationStaysSettled(env, next, t, rels[0]);
      }
    }
  }

  /// Phase two: one partitioned table

  /** What checking partitioned table `p` leaves alone: other tables' partition lists, entrypoints and
      edges, every vector index, and relations whose check passes. */
  ghost predicate OthersKept(env: Env, s: State, t: State, p: int) {
    && t.cat.vectors == s.cat.vectors
    && (forall i :: 0 <= i < |s.cat.partitions| && s.cat.partitions[i].parent != p ==>
          |t.cat.partitions| == |s.cat.partitions| && t.cat.partitions[i] == s.cat.partitions[i])
    && (forall q :: q != p ==> EntryKept(s, t, q))
    && (forall q, x :: q != p ==> EdgeKept(s, t, q, x))
    && (forall r :: r != p ==> StatusKept(env, s, t, r))
  }

  ghost predicate EntryKept(s: State, t: State, q: int) {
    && (q in t.objects <==> q in s.objects) && (q in s.objects ==> t.objects[q] == s.objects[q])
    && (q in t.cat.entrypoints <==> q in s.cat.entrypoints) && (q in s.cat.entrypoints ==> t.cat.entrypoints[q] == s.cat.entrypoints[q])
  }

  ghost predicate EdgeKept(s: State, t: State, q: int, x: int) {
    Edge(RelationClass, q, RelationClass, x) in t.cat.deps <==> Edge(RelationClass, q, RelationClass, x) in s.cat.deps
  }

  ghost predicate StatusKept(env: Env, s: State, t: State, r: int) {
    r in s.cat.relations && s.cat.relations[r].kind == OrdinaryTable && ObjectOk(env.ty, s, r, false)
    ==> r in t.cat.relations && t.cat.relations[r].status == s.cat.relations[r].status
  }

  lemma StatusKeptTrans(env: Env, s: State, t: State, u: State, r: int)
    requires Later(s, t) && StatusKept(env, s, t, r) && StatusKept(env, t, u, r)
    ensures StatusKept(env, s, u, r)
  {
    if r in s.cat.relations && s.cat.relations[r].kind == OrdinaryTable && ObjectOk(env.ty, s, r, false) {
      ObjectStaysOk(env.ty, s, r, false, t);
      RowLater(s.cat, t.cat, r);
    }
  }

  lemma OthersKeptTrans(env: Env, s: State, t: State, u: State, p: int)
    requires Later(s, t) && Later(t, u) && OthersKept(env, s, t, p) && OthersKept(env, t, u, p)
    ensures OthersKept(env, s, u, p)
  {
    forall i | 0 <= i < |s.cat.partitions| && s.cat.partitions[i].parent != p
      ensures |u.cat.partitions| == |s.cat.partitions| && u.cat.partitions[i] == s.cat.partitions[i]
    {
      assert t.cat.partitions[i] == s.cat.partitions[i];
    }
    forall q | q != p
      ensures EntryKept(s, u, q)
    {
      assert EntryKept(s, t, q) && EntryKept(t, u, q);
    }
    forall q, x | q != p
      ensures EdgeKept(s, u, q, x)
    {
      assert EdgeKept(s, t, q, x) && EdgeKept(t, u, q, x);
    }
    forall r | r != p
      ensures StatusKept(env, s, u, r)
    {
      StatusKeptTrans(env, s, t, u, r);
    }
  }

  lemma WithRegKeepsOthers(env: Env, s: State, reg: SoundRegistry, p: int)
    ensures OthersKept(env, s, WithReg(s, reg), p)
  {}

  lemma {:induction false} ActiveChildrenAreRelations(c: Catalog, rows: seq<PartitionRow>, p: int)
    ensures forall x <- ActiveChildren(c, rows, p) :: x in c.relations && exists row <- rows :: row.parent == p && row.child == x
  {
    if rows != [] {
      ActiveChildrenAreRelations(c, rows[1..], p);
      assert rows == [rows[0]] + rows[1..];
      forall x <- ActiveChildren(c, rows, p)
        ensures x in c.relations && exists row <- rows :: row.parent == p && row.child == x
      {
        if x in ActiveChildren(c, rows[1..], p) {
          var row :| row in rows[1..] && row.parent == p && row.child == x;
          assert row in rows;
        } else {
          assert rows[0] in rows && rows[0].child == x;
        }
      }
    }
  }

  lemma CheckChildFails(env: Env, s: State, p: int, c: int, reg: SoundRegistry)
    requires p in s.cat.relations && s.cat.relations[p].kind == PartitionedTable && c in s.cat.relations && c != p
    requires Grows(s.cat.reg, reg) && !ObjectOk(env.ty, s, c, false)
    ensures var t := MarkPartitionFailed(MarkUnavailable(WithReg(s, reg), c), p, c); Later(s, t) && OthersKept(env, s, t, p)
  {
    var s1 := WithReg(s, reg);
    var s2 := MarkUnavailable(s1, c);
    WithRegLater(s, reg);
    MarkUnavailableLater(s1, c);
    MarkPartitionFailedLater(s2, p, c);
    LaterTrans(s, s1, s2);
    LaterTrans(s, s2, MarkPartitionFailed(s2, p, c));
  }

  lemma FailKeepsOthers(env: Env, s: State, p: int, c: int)
    ensures Later(s, MarkPartitionFailed(s, p, c)) && OthersKept(env, s, MarkPartitionFailed(s, p, c), p)
  {
    MarkPartitionFailedLater(s, p, c);
  }

  ghost predicate IsParent(s: State, p: int) { p in s.cat.relations && s.cat.relations[p].kind == PartitionedTable }

  /** After the partitions passed, only types may have been registered, and all of them match. */
  /** The first partition that does not pass: it is not active any more, its row is marked failed, and no other
      row is. */
  ghost predicate Blamed(s: State, t: State, p: int, c: int) {
    && (c in t.cat.relations ==> t.cat.relations[c].status != Active)
    && |t.cat.partitions| == |s.cat.partitions|
    && forall i :: 0 <= i < |s.cat.partitions| ==>
         var row := s.cat.partitions[i];
         t.cat.partitions[i] == if row.parent == p && row.child == c then PartitionRow(p, c, FailedPartition) else row
  }

  lemma MarkingBlames(s: State, reg: SoundRegistry, p: int, c: int)
    ensures Blamed(s, MarkPartitionFailed(MarkUnavailable(WithReg(s, reg), c), p, c), p, c)
    ensures (c in s.cat.relations ==> s.cat.relations[c].status != Active) ==> Blamed(s, MarkPartitionFailed(s, p, c), p, c)
  {}

  ghost predicate FirstPasses(env: Env, s: State, children: seq<int>)
    requires children != []
  {
    children[0] in s.cat.relations && s.cat.relations[children[0]].status == Active && CheckObject(env.ty, s, children[0], false).1
  }

  ghost function AfterFirst(env: Env, s: State, children: seq<int>): State
    requires children != []
  {
    WithReg(s, CheckObject(env.ty, s, children[0], false).0)
  }

  lemma FirstPassed(env: Env, s: State, p: int, children: seq<int>)
    requires children != [] && FirstPasses(env, s, children)
    ensures CheckChildren(env, s, p, children) == CheckChildren(env, AfterFirst(env, s, children), p, children[1..])
  {}

  lemma FirstIsBlamed(env: Env, s: State, p: int, children: seq<int>)
    requires children != [] && !FirstPasses(env, s, children)
    ensures Blamed(s, CheckChildren(env, s, p, children).0, p, children[0])
  {
    MarkingBlames(s, CheckObject(env.ty, s, children[0], false).0, p, children[0]);
  }

  lemma BlamedDespiteTypes(env: Env, s: State, children: seq<int>, t: State, p: int, c: int)
    requires children != [] && Blamed(AfterFirst(env, s, children), t, p, c)
    ensures Blamed(s, t, p, c)
  {}

  lemma NoneFails(env: Env, s: State, p: int, children: seq<int>, t: State)
    requires CheckChildren(env, s, p, children) == (t, false)
    ensures children != []
  {}

  lemma {:induction false} FailedChildIsBlamed(env: Env, s: State, p: int, children: seq<int>, t: State) returns (k: nat)
    requires CheckChildren(env, s, p, children) == (t, false)
    ensures k < |children| && Blamed(s, t, p, children[k])
    decreases |children|
  {
    NoneFails(env, s, p, children, t);
    k := 0;
    if FirstPasses(env, s, children) {
      FirstPassed(env, s, p, children);
      var j := FailedChildIsBlamed(env, AfterFirst(env, s, children), p, children[1..], t);
      BlamedDespiteTypes(env, s, children, t, p, children[j + 1]);
      k := j + 1;
    } else {
      FirstIsBlamed(env, s, p, children);
    }
  }

  lemma {:induction false} CheckChildrenSettles(env: Env, s: State, p: int, children: seq<int>)
    requires IsParent(s, p) && p !in children
    ensures var (t, ok) := CheckChildren(env, s, p, children);
            && Later(s, t) && OthersKept(env, s, t, p)
            && (ok ==> t == WithReg(s, t.cat.reg) && forall i :: 0 <= i < |children| ==> ChildSettled(env, t, children[i]))
    decreases |children|
  {
    if children != [] {
      var c := children[0];
      if c !in s.cat.relations || s.cat.relations[c].status != Active {
        FailKeepsOthers(env, s, p, c);
      } else {
        var (reg, ok) := CheckObject(env.ty, s, c, false);
        var next := WithReg(s, reg);
        WithRegLater(s, reg);
        if ok {
          WithRegKeepsOthers(env, s, reg, p);
          CheckChildrenSettles(env, next, p, children[1..]);
          ChildrenContinue(env, s, next, p, children);
        } else {
          CheckChildFails(env, s, p, c, reg);
        }
      }
    }
  }

  /** What holds after the first partition passed and the others were checked. */
  lemma ChildrenContinue(env: Env, s: State, next: State, p: int, children: seq<int>)
    requires children != [] && children[0] in s.cat.relations && s.cat.relations[children[0]].status == Active
    requires CheckObject(env.ty, s, children[0], false).1 && next == WithReg(s, CheckObject(env.ty, s, children[0], false).0)
    requires Later(s, next) && OthersKept(env, s, next, p)
    requires var (t, ok) := CheckChildren(env, next, p, children[1..]);
             && Later(next, t) && OthersKept(env, next, t, p)
             && (ok ==> t == WithReg(next, t.cat.reg) && forall i :: 0 <= i < |children[1..]| ==> ChildSettled(env, t, children[1..][i]))
    ensures var (t, ok) := CheckChildren(env, next, p, children[1..]);
            && Later(s, t) && OthersKept(env, s, t, p)
            && (ok ==> t == WithReg(s, t.cat.reg) && forall i :: 0 <= i < |children| ==> ChildSettled(env, t, children[i]))
  {
    var (t, ok) := CheckChildren(env, next, p, children[1..]);
    LaterTrans(s, next, t);
    OthersKeptTrans(env, s, next, t, p);
    if ok {
      FirstChildSettled(env, s, children[0], next, t);
      FirstAndRestSettled(env, t, children);
    }
  }

  lemma FirstAndRestSettled(env: Env, t: State, children: seq<int>)
    requires children != [] && ChildSettled(env, t, children[0])
    requires forall i :: 0 <= i < |children[1..]| ==> ChildSettled(env, t, children[1..][i])
    ensures forall i :: 0 <= i < |children| ==> ChildSettled(env, t, children[i])
  {
    forall i | 0 <= i < |children|
      ensures ChildSettled(env, t, children[i])
    {
      assert i > 0 ==> children[i] == children[1..][i - 1];
    }
  }

  lemma FirstChildSettled(env: Env, s: State, c: int, next: State, t: State)
    requires c in s.cat.relations && s.cat.relations[c].status == Active && CheckObject(env.ty, s, c, false).1
    requires next == WithReg(s, CheckObject(env.ty, s, c, false).0)
    ensures Grows(next.cat.reg, t.cat.reg) && t == WithReg(next, t.cat.reg) ==> ChildSettled(env, t, c)
  {
    if Grows(next.cat.reg, t.cat.reg) && t == WithReg(next, t.cat.reg) {
      CheckStaysPassed(env.ty, s, c, false, t);
    }
  }

  /// The entrypoint

  lemma EntrySqlIsTrimmed(c: Catalog, parent: int, children: seq<int>)
    requires parent in c.relations && AllRelations(c, children)
    ensures Trim(EntrySql(c, parent, children)) == EntrySql(c, parent, children)
  {
    var sql := EntrySql(c, parent, children);
    assert sql[0] == 'C';
    if children != [] {
      UnionSqlEnds(c, children);
      assert sql[|sql| - 1] == '"';
    } else {
      assert sql[|sql| - 1] == 'E';
    }
    TrimFixed(sql);
  }

  lemma {:induction false} UnionSqlEnds(c: Catalog, children: seq<int>)
    requires children != [] && AllRelations(c, children)
    ensures var sql := UnionSql(c, children); sql != "" && sql[|sql| - 1] == '"'
  {
    var q := Qualified(c.relations[children[0]]);
    assert q[|q| - 1] == '"';
    if |children| > 1 {
      UnionSqlEnds(c, children[1..]);
    } else {
      assert UnionSql(c, children) == "SELECT * FROM " + q;
    }
  }

  lemma StatusLater(a: map<int, Relation>, b: map<int, Relation>, r: int)
    requires RelationsLater(a, b)
    ensures r in b <==> r in a
    ensures r in a ==> StatusOnly(a[r], b[r])
  {}

  lemma {:induction false} UnionSqlStays(c: Catalog, d: Catalog, children: seq<int>)
    requires RelationsLater(c.relations, d.relations)
    ensures UnionSql(d, children) == UnionSql(c, children)
  {
    if children != [] {
      StatusLater(c.relations, d.relations, children[0]);
      UnionSqlStays(c, d, children[1..]);
    }
  }

  lemma {:induction false} EmptySqlStays(a: map<int, string>, b: map<int, string>, rows: seq<ColumnRow>)
    requires forall id <- a :: id in b && b[id] == a[id]
    requires forall i :: 0 <= i < |rows| ==> rows[i].typeId in a
    ensures EmptySql(b, rows) == EmptySql(a, rows)
  {
    if rows != [] {
      EmptySqlStays(a, b, rows[1..]);
    }
  }

  lemma {:induction false} ActiveRowsAreRows(rows: seq<ColumnRow>)
    ensures forall r <- ActiveRows(rows) :: r in rows
  {
    if rows != [] {
      ActiveRowsAreRows(rows[1..]);
      assert rows == [rows[0]] + rows[1..];
    }
  }

  /** The expected SQL depends on names and columns only, which startup does not change. */
  lemma EntrySqlStays(s: State, t: State, parent: int, children: seq<int>)
    requires WellFormed(s) && Later(s, t) && parent in s.cat.relations
    ensures EntrySql(t.cat, parent, children) == EntrySql(s.cat, parent, children)
  {
    RowLater(s.cat, t.cat, parent);
    UnionSqlStays(s.cat, t.cat, children);
    TextsGrow(s.cat.reg, t.cat.reg);
    var rows := ActiveRows(ColumnsOf(s.cat, parent));
    ActiveRowsAreRows(ColumnsOf(s.cat, parent));
    forall i | 0 <= i < |rows|
      ensures rows[i].typeId in TextsOf(s.cat.reg)
    {
      assert rows[i] in ColumnsOf(s.cat, parent);
    }
    EmptySqlStays(TextsOf(s.cat.reg), TextsOf(t.cat.reg), rows);
  }

  lemma RebuildKeepsOthers(env: Env, s: State, p: int, children: seq<int>, sql: string)
    requires Rebuild(env, s, p, children, sql).Some?
    ensures OthersKept(env, s, Rebuild(env, s, p, children, sql).value, p)
  {}

  lemma RebuildSettles(env: Env, s: State, mid: State, p: int, children: seq<int>, sql: string)
    requires IsParent(s, p) && Later(s, mid) && OthersKept(env, s, mid, p) && mid.cat.relations == s.cat.relations
    requires Rebuild(env, mid, p, children, sql).Some?
    ensures var t := Rebuild(env, mid, p, children, sql).value;
            Later(s, t) && OthersKept(env, s, t, p) && p in t.cat.entrypoints && t.cat.entrypoints[p] == sql
            && t.cat.partitions == mid.cat.partitions && t.cat.relations == s.cat.relations
  {
    var t := Rebuild(env, mid, p, children, sql).value;
    RebuildLater(env, mid, p, children, sql);
    RebuildKeepsOthers(env, mid, p, children, sql);
    LaterTrans(s, mid, t);
    OthersKeptTrans(env, s, mid, t, p);
  }

  lemma NothingKeepsOthers(env: Env, s: State, p: int)
    ensures Later(s, s) && OthersKept(env, s, s, p)
  {}

  /** After the entrypoint check its SQL is the expected one. */
  lemma CheckEntrySettles(env: Env, s: State, p: int, children: seq<int>)
    requires IsParent(s, p) && AllRelations(s.cat, children)
    ensures var (t, ok) := CheckEntry(env, s, p, children);
            && Later(s, t) && OthersKept(env, s, t, p)
            && t.cat.partitions == s.cat.partitions && t.cat.relations == s.cat.relations
            && (ok ==> p in t.cat.entrypoints && Trim(t.cat.entrypoints[p]) == EntrySql(s.cat, p, children))
  {
    NothingKeepsOthers(env, s, p);
    if p in s.cat.entrypoints {
      var sql := EntrySql(s.cat, p, children);
      var (reg, ok) := CheckObject(env.ty, s, p, true);
      WithRegLater(s, reg);
      WithRegKeepsOthers(env, s, reg, p);
      var keep := Trim(s.cat.entrypoints[p]) == sql;
      var mid := if keep then WithReg(s, reg) else s;
      if !(keep && ok) && Rebuild(env, mid, p, children, sql).Some? {
        EntrySqlIsTrimmed(s.cat, p, children);
        RebuildSettles(env, s, mid, p, children, sql);
      }
    }
  }

  lemma SyncDepsKeepsOthers(env: Env, s: State, p: int, children: seq<int>)
    ensures OthersKept(env, s, SyncDeps(s, p, children), p) && EdgesSettled(SyncDeps(s, p, children), p, children)
  {}

  lemma FinishParentSettles(env: Env, s: State, p: int, children: seq<int>)
    requires IsParent(s, p) && AllRelations(s.cat, children)
    ensures var (t, ok) := FinishParent(env, s, p, children);
            && Later(s, t) && OthersKept(env, s, t, p)
            && t.cat.partitions == s.cat.partitions && t.cat.relations == s.cat.relations && t.cat.entrypoints == s.cat.entrypoints
            && (ok ==> ObjectOk(env.ty, t, p, true) && EdgesSettled(t, p, children))
  {
    var (reg, ok) := CheckObject(env.ty, s, p, true);
    var s1 := WithReg(s, reg);
    WithRegLater(s, reg);
    WithRegKeepsOthers(env, s, reg, p);
    if ok {
      var t := SyncDeps(s1, p, children);
      SyncDepsLater(s1, p, children);
      SyncDepsKeepsOthers(env, s1, p, children);
      LaterTrans(s, s1, t);
      OthersKeptTrans(env, s, s1, t, p);
      CheckStaysPassed(env.ty, s, p, true, t);
    }
  }

  /// One partitioned table, whole

  lemma {:induction false} ActiveChildrenSame(c: Catalog, d: Catalog, a: seq<PartitionRow>, b: seq<PartitionRow>, p: int)
    requires d.relations.Keys == c.relations.Keys && |a| == |b|
    requires forall i :: 0 <= i < |a| && a[i].parent == p ==> b[i] == a[i]
    requires forall i :: 0 <= i < |a| ==> b[i].parent == a[i].parent
    ensures ActiveChildren(d, b, p) == ActiveChildren(c, a, p)
    decreases |a|
  {
    if a != [] {
      ActiveChildrenSame(c, d, a[1..], b[1..], p);
      assert a[0].child in c.relations <==> a[0].child in c.relations.Keys;
      assert a[0].child in d.relations <==> a[0].child in d.relations.Keys;
    }
  }

  lemma ChildrenAreTables(s: State, p: int, i: nat)
    requires WellFormed(s) && i < |Children(s, p)|
    ensures var x := Children(s, p)[i]; x in s.cat.relations && s.cat.relations[x].kind == OrdinaryTable
  {
    var x := Children(s, p)[i];
    ActiveChildrenAreRelations(s.cat, s.cat.partitions, p);
    assert x in Children(s, p);
    ChildIsTable(s, p, x);
  }

  lemma ChildIsTable(s: State, p: int, x: int)
    requires WellFormed(s) && x in Children(s, p)
    ensures x in s.cat.relations && s.cat.relations[x].kind == OrdinaryTable
  {
    ActiveChildrenAreRelations(s.cat, s.cat.partitions, p);
    var row :| row in s.cat.partitions && row.parent == p && row.child == x;
    var j :| 0 <= j < |s.cat.partitions| && s.cat.partitions[j] == row;
    assert s.cat.partitions[j].child == x;
  }

  lemma ParentIsNoChild(s: State, p: int)
    requires WellFormed(s) && IsParent(s, p)
    ensures p !in Children(s, p) && AllRelations(s.cat, Children(s, p))
  {
    if p in Children(s, p) {
      ChildIsTable(s, p, p);
    }
    forall i | 0 <= i < |Children(s, p)|
      ensures Children(s, p)[i] in s.cat.relations
    {
      ChildrenAreTables(s, p, i);
    }
  }

  /** The three parts of a passed check together. */
  lemma PartsSettleParent(env: Env, s: State, s1: State, t: State, p: int)
    requires WellFormed(s) && IsParent(s, p) && Later(s, s1) && Later(s1, t)
    requires s1 == WithReg(s, s1.cat.reg) && t.cat.partitions == s1.cat.partitions && t.cat.relations == s1.cat.relations
    requires forall i :: 0 <= i < |Children(s, p)| ==> ChildSettled(env, s1, Children(s, p)[i])
    requires p in t.cat.entrypoints && Trim(t.cat.entrypoints[p]) == EntrySql(s1.cat, p, Children(s, p))
    requires ObjectOk(env.ty, t, p, true) && EdgesSettled(t, p, Children(s, p))
    ensures ParentSettled(env, t, p)
  {
    var children := Children(s, p);
    ActiveChildrenSame(s.cat, t.cat, s.cat.partitions, t.cat.partitions, p);
    LaterKeepsWellFormed(s, s1);
    EntrySqlStays(s1, t, p, children);
    forall i | 0 <= i < |children|
      ensures ChildSettled(env, t, children[i])
    {
      assert ChildSettled(env, s1, children[i]);
      ChildrenAreTables(s, p, i);
      ObjectStaysOk(env.ty, s1, children[i], false, t);
    }
  }

  lemma TwoStepsKeep(env: Env, s: State, t: State, u: State, p: int)
    requires Later(s, t) && OthersKept(env, s, t, p) && Later(t, u) && OthersKept(env, t, u, p)
    ensures Later(s, u) && OthersKept(env, s, u, p)
  {
    LaterTrans(s, t, u);
    OthersKeptTrans(env, s, t, u, p);
  }

  lemma CheckParentSettles(env: Env, s: State, p: int)
    requires WellFormed(s) && IsParent(s, p)
    ensures var (t, ok) := CheckParent(env, s, p);
            Later(s, t) && OthersKept(env, s, t, p) && (ok ==> ParentSettled(env, t, p))
  {
    var children := Children(s, p);
    ParentIsNoChild(s, p);
    CheckChildrenSettles(env, s, p, children);
    var (s1, ok1) := CheckChildren(env, s, p, children);
    if ok1 {
      CheckEntrySettles(env, s1, p, children);
      var (s2, ok2) := CheckEntry(env, s1, p, children);
      TwoStepsKeep(env, s, s1, s2, p);
      if ok2 {
        FinishParentSettles(env, s2, p, children);
        var (t, ok) := FinishParent(env, s2, p, children);
        TwoStepsKeep(env, s, s2, t, p);
        TwoStepsKeep(env, s1, s2, t, p);
        if ok {
          PartsSettleParent(env, s, s1, t, p);
        }
      }
    }
  }

  ghost predicate SettledAndRead(env: Env, s: State, p: int) {
    && p in s.cat.relations && ParentSettled(env, s, p)
    && p in s.cat.entrypoints && NamesActivePartitions(s.cat, p, Trim(s.cat.entrypoints[p]))
  }

  /** A parent that passes has sound partitions and an entrypoint that names exactly the active ones. */
  lemma PassingParentReads(env: Env, s: State, p: int)
    requires p in s.cat.relations
    ensures var (t, ok) := CheckParent(env, s, p);
            ok && WellFormed(s) && IsParent(s, p) ==> SettledAndRead(env, t, p)
  {
    if WellFormed(s) && IsParent(s, p) {
      CheckParentSettles(env, s, p);
      var (t, ok) := CheckParent(env, s, p);
      if ok {
        PrintedNamesPartitions(t.cat, p);
      }
    }
  }

  lemma MarkParentKeepsOthers(env: Env, s: State, p: int)
    ensures Later(s, MarkUnavailable(s, p)) && OthersKept(env, s, MarkUnavailable(s, p), p)
  {
    MarkUnavailableLater(s, p);
  }

  lemma ValidateParentSettles(env: Env, s: State, p: int)
    requires WellFormed(s) && IsParent(s, p)
    ensures var t := ValidateParent(env, s, p); Later(s, t) && OthersKept(env, s, t, p) && ActiveParentSettled(env, t, p)
  {
    CheckParentSettles(env, s, p);
    var (s1, ok) := CheckParent(env, s, p);
    if !ok {
      var t := MarkUnavailable(s1, p);
      MarkParentKeepsOthers(env, s1, p);
      TwoStepsKeep(env, s, s1, t, p);
      RowLater(s.cat, s1.cat, p);
    }
  }

  /** Another partitioned table's check leaves a settled one settled: its partitions pass, so nobody
      marks them. */
  lemma ParentStaysSettled(env: Env, s: State, t: State, q: int, p: int)
    requires WellFormed(s) && Later(s, t) && OthersKept(env, s, t, p) && q != p && IsParent(s, p) && IsParent(s, q)
    requires ActiveParentSettled(env, s, q)
    ensures ActiveParentSettled(env, t, q)
  {
    RowLater(s.cat, t.cat, q);
    if t.cat.relations[q].status == Active {
      var children := Children(s, q);
      assert ParentSettled(env, s, q);
      assert forall i :: 0 <= i < |s.cat.partitions| ==> PartitionOnly(s.cat.partitions[i], t.cat.partitions[i]);
      ActiveChildrenSame(s.cat, t.cat, s.cat.partitions, t.cat.partitions, q);
      forall i | 0 <= i < |children|
        ensures ChildSettled(env, t, children[i])
      {
        ChildStaysSettled(env, s, t, q, p, i);
      }
      EntrySqlStays(s, t, q, children);
      assert EntryKept(s, t, q);
      CheckStaysPassed(env.ty, s, q, true, t);
      forall x
        ensures Edge(RelationClass, q, RelationClass, x) in t.cat.deps <==> x in children
      {
        assert EdgeKept(s, t, q, x);
      }
    }
  }

  lemma ChildStaysSettled(env: Env, s: State, t: State, q: int, p: int, i: nat)
    requires WellFormed(s) && Later(s, t) && OthersKept(env, s, t, p) && IsParent(s, p)
    requires i < |Children(s, q)| && ChildSettled(env, s, Children(s, q)[i])
    ensures ChildSettled(env, t, Children(s, q)[i])
  {
    var c := Children(s, q)[i];
    ChildrenAreTables(s, q, i);
    assert c != p && StatusKept(env, s, t, c);
    ObjectStaysOk(env.ty, s, c, false, t);
  }

  lemma {:induction false} CheckParentsSettle(env: Env, s: State, parents: seq<int>)
    requires WellFormed(s) && forall i :: 0 <= i < |parents| ==> IsParent(s, parents[i])
    ensures var t := CheckParents(env, s, parents);
            && Later(s, t) && t.cat.vectors == s.cat.vectors
            && (forall q :: IsParent(s, q) && ActiveParentSettled(env, s, q) ==> ActiveParentSettled(env, t, q))
            && forall i :: 0 <= i < |parents| ==> ActiveParentSettled(env, t, parents[i])
    decreases |parents|
  {
    if parents == [] {
      NothingKeepsOthers(env, s, 0);
    } else {
      var p, rest := parents[0], parents[1..];
      var next := ValidateParent(env, s, p);
      ValidateParentSettles(env, s, p);
      LaterKeepsWellFormed(s, next);
      forall q
        ensures IsParent(s, q) ==> IsParent(next, q)
        ensures IsParent(s, q) && ActiveParentSettled(env, s, q) ==> ActiveParentSettled(env, next, q)
      {
        RowLater(s.cat, next.cat, q);
        if q != p && IsParent(s, q) && ActiveParentSettled(env, s, q) {
          ParentStaysSettled(env, s, next, q, p);
        }
      }
      assert forall i :: 0 <= i < |rest| ==> rest[i] == parents[i + 1];
      CheckParentsSettle(env, next, rest);
      LaterTrans(s, next, CheckParents(env, next, rest));
    }
  }

  /// A successful start settles everything

  lemma AllRelationsSettle(env: Env, s: State)
    requires EnvOk(env) && CheckRelations(env, s, env.listed(ActiveRelations(s.cat))).Some?
    ensures var t := CheckRelations(env, s, env.listed(ActiveRelations(s.cat))).value;
            Later(s, t) && forall rel :: RelationSettled(env, t, rel)
  {
    var rels := env.listed(ActiveRelations(s.cat));
    var t := CheckRelations(env, s, rels).value;
    CheckRelationsSettle(env, s, rels);
    forall rel
      ensures RelationSettled(env, t, rel)
    {
      RowLater(s.cat, t.cat, rel);
      if rel in ActiveRelations(s.cat) {
        assert rel in rels;
      }
    }
  }

  lemma AllParentsSettle(env: Env, s: State)
    requires EnvOk(env) && WellFormed(s) && forall rel :: RelationSettled(env, s, rel)
    ensures var t := CheckParents(env, s, env.listed(ActiveParents(s.cat)));
            Later(s, t) && (forall rel :: RelationSettled(env, t, rel)) && forall p :: ActiveParentSettled(env, t, p)
  {
    var parents := env.listed(ActiveParents(s.cat));
    var t := CheckParents(env, s, parents);
    forall i | 0 <= i < |parents|
      ensures IsParent(s, parents[i])
    {
      assert parents[i] in ActiveParents(s.cat);
    }
    CheckParentsSettle(env, s, parents);
    forall rel
      ensures RelationSettled(env, t, rel)
    {
      RelationStaysSettled(env, s, t, rel);
    }
    forall p
      ensures ActiveParentSettled(env, t, p)
    {
      RowLater(s.cat, t.cat, p);
      if p in ActiveParents(s.cat) {
        assert p in parents;
        ListedParentSettled(env, t, parents, p);
      }
    }
  }

  lemma ListedParentSettled(env: Env, t: State, parents: seq<int>, p: int)
    requires p in parents && forall i :: 0 <= i < |parents| ==> ActiveParentSettled(env, t, parents[i])
    ensures ActiveParentSettled(env, t, p)
  {
    var i :| 0 <= i < |parents| && parents[i] == p;
  }

  lemma RefreshKeepsSettled(env: Env, s: State, rel: int)
    ensures RelationSettled(env, s, rel) ==> RelationSettled(env, Refresh(env, s), rel)
    ensures ActiveParentSettled(env, s, rel) ==> ActiveParentSettled(env, Refresh(env, s), rel)
  {}

  /** Whenever startup succeeds: no journal row is pending, integrity holds, the stored checksum is current,
      every active table, view and index matches DuckDB, no vector index of an active index is in a
      transient state, and every active partitioned table has only sound partitions and the expected
      entrypoint: its SQL, read back, names exactly the active partitions. */
  lemma StartupSettles(env: Env, h: Header, s: State)
    requires EnvOk(env) && WellFormed(s) && Startup(env, h, s).Some?
    ensures HeaderOk(h) && Settled(env, Startup(env, h, s).value)
    ensures forall p :: EntrypointReads(Startup(env, h, s).value, p)
  {
    StartupIsSettled(env, h, s);
    forall p
      ensures EntrypointReads(Startup(env, h, s).value, p)
    {
      SettledReads(env, Startup(env, h, s).value, p);
    }
  }

  /** Read back, the SQL on file for an active partitioned table names exactly its active partitions. */
  ghost predicate EntrypointReads(s: State, p: int) {
    p in s.cat.relations && s.cat.relations[p].status == Active && s.cat.relations[p].kind == PartitionedTable ==>
      p in s.cat.entrypoints && NamesActivePartitions(s.cat, p, Trim(s.cat.entrypoints[p]))
  }

  lemma SettledReads(env: Env, s: State, p: int)
    requires ActiveParentSettled(env, s, p)
    ensures EntrypointReads(s, p)
  {
    if p in s.cat.relations {
      PrintedNamesPartitions(s.cat, p);
    }
  }

  lemma StartupIsSettled(env: Env, h: Header, s: State)
    requires EnvOk(env) && WellFormed(s) && Startup(env, h, s).Some?
    ensures HeaderOk(h) && Settled(env, Startup(env, h, s).value)
  {
    var s1 := RecoverJournal(env, s);
    var s2 := CheckRelations(env, s1, env.listed(ActiveRelations(s1.cat))).value;
    AllRelationsSettle(env, s1);
    LaterKeepsWellFormed(s1, s2);
    AllParentsSettle(env, s2);
    var s3 := CheckParents(env, s2, env.listed(ActiveParents(s2.cat)));
    LaterTrans(s1, s2, s3);
    LaterKeepsIntegrity(s1.cat, s3.cat);
    forall rel
      ensures RelationSettled(env, Refresh(env, s3), rel) && ActiveParentSettled(env, Refresh(env, s3), rel)
    {
      RefreshKeepsSettled(env, s3, rel);
    }
  }

  /// A settled state is a fixpoint

  lemma SettledRelationIsKept(env: Env, s: State, rel: int)
    requires RelationSettled(env, s, rel) && rel in s.cat.relations && s.cat.relations[rel].status == Active
    ensures CheckRelation(env, s, rel) == Some(s)
  {}

  lemma {:induction false} SettledRelationsAreKept(env: Env, s: State, rels: seq<int>)
    requires forall i :: 0 <= i < |rels| ==> CheckRelation(env, s, rels[i]) == Some(s)
    ensures CheckRelations(env, s, rels) == Some(s)
    decreases |rels|
  {
    if rels != [] {
      assert forall i :: 0 <= i < |rels[1..]| ==> rels[1..][i] == rels[i + 1];
      SettledRelationsAreKept(env, s, rels[1..]);
    }
  }

  lemma {:induction false} SettledChildrenAreKept(env: Env, s: State, p: int, children: seq<int>)
    requires forall i :: 0 <= i < |children| ==> ChildSettled(env, s, children[i])
    ensures CheckChildren(env, s, p, children) == (s, true)
    decreases |children|
  {
    if children != [] {
      assert ChildSettled(env, s, children[0]);
      assert forall i :: 0 <= i < |children[1..]| ==> children[1..][i] == children[i + 1];
      SettledChildrenAreKept(env, s, p, children[1..]);
    }
  }

  lemma SettledEdgesAreKept(s: State, p: int, children: seq<int>)
    requires EdgesSettled(s, p, children)
    ensures SyncDeps(s, p, children) == s
  {
    forall e
      ensures e in SyncEdges(s.cat.deps, p, children) <==> e in s.cat.deps
    {
      if e.class_ == RelationClass && e.obj == p && e.refClass == RelationClass {
        assert e == Edge(RelationClass, p, RelationClass, e.ref);
      }
    }
    assert SyncEdges(s.cat.deps, p, children) == s.cat.deps;
  }

  lemma SettledParentIsKept(env: Env, s: State, p: int)
    requires p in s.cat.relations && ParentSettled(env, s, p)
    ensures ValidateParent(env, s, p) == s
  {
    var children := Children(s, p);
    SettledChildrenAreKept(env, s, p, children);
    SettledEdgesAreKept(s, p, children);
    assert CheckEntry(env, s, p, children) == (s, true);
    assert FinishParent(env, s, p, children) == (s, true);
  }

  lemma {:induction false} SettledParentsAreKept(env: Env, s: State, parents: seq<int>)
    requires forall i :: 0 <= i < |parents| ==> ValidateParent(env, s, parents[i]) == s
    ensures CheckParents(env, s, parents) == s
    decreases |parents|
  {
    if parents != [] {
      assert forall i :: 0 <= i < |parents[1..]| ==> parents[1..][i] == parents[i + 1];
      SettledParentsAreKept(env, s, parents[1..]);
    }
  }

  /** Starting on a settled state succeeds and changes nothing. */
  lemma SettledIsFixpoint(env: Env, h: Header, s: State)
    requires EnvOk(env) && HeaderOk(h) && Settled(env, s)
    ensures Startup(env, h, s) == Some(s)
  {
    var rels, parents := env.listed(ActiveRelations(s.cat)), env.listed(ActiveParents(s.cat));
    forall i | 0 <= i < |rels|
      ensures CheckRelation(env, s, rels[i]) == Some(s)
    {
      assert rels[i] in ActiveRelations(s.cat);
      KeptRelation(env, s, rels[i]);
    }
    SettledRelationsAreKept(env, s, rels);
    forall i | 0 <= i < |parents|
      ensures ValidateParent(env, s, parents[i]) == s
    {
      assert parents[i] in ActiveParents(s.cat);
      KeptParent(env, s, parents[i]);
    }
    SettledParentsAreKept(env, s, parents);
  }

  lemma KeptRelation(env: Env, s: State, rel: int)
    requires Settled(env, s) && rel in ActiveRelations(s.cat)
    ensures CheckRelation(env, s, rel) == Some(s)
  {
    SettledRelationIsKept(env, s, rel);
  }

  lemma KeptParent(env: Env, s: State, p: int)
    requires Settled(env, s) && p in ActiveParents(s.cat)
    ensures ValidateParent(env, s, p) == s
  {
    assert ActiveParentSettled(env, s, p);
    SettledParentIsKept(env, s, p);
  }

  /** A second start after a successful one succeeds and changes nothing. */
  lemma StartupIsIdempotent(env: Env, h: Header, s: State)
    requires EnvOk(env) && WellFormed(s) && Startup(env, h, s).Some?
    ensures Startup(env, h, Startup(env, h, s).value) == Startup(env, h, s)
  {
    StartupSettles(env, h, s);
    SettledIsFixpoint(env, h, Startup(env, h, s).value);
  }

  /// What startup notices

  /** The extension is needed for an active vector index whose physical index is there. */
  ghost predicate NeedsExtension(s: State, rel: int) {
    && rel in s.cat.relations && s.cat.relations[rel].kind == Index && IndexPresent(s, rel)
    && rel in s.cat.vectors && s.cat.vectors[rel].status == ActiveIndex
  }

  lemma OnlyNeedingFails(env: Env, s: State, rel: int)
    ensures CheckRelation(env, s, rel).None? <==> env.vss.None? && NeedsExtension(s, rel)
  {}

  /** Nothing an index check reads is changed. */
  ghost predicate SameIndexes(s: State, t: State) {
    && t.duckIndexes == s.duckIndexes && t.cat.indexes == s.cat.indexes && t.cat.partitions == s.cat.partitions
    && t.cat.relations.Keys == s.cat.relations.Keys
    && forall r <- s.cat.relations :: t.cat.relations[r].kind == s.cat.relations[r].kind
  }

  /** Nor does a vector index become active. */
  ghost predicate Tame(s: State, t: State) {
    && SameIndexes(s, t) && t.cat.vectors.Keys == s.cat.vectors.Keys
    && forall v <- s.cat.vectors :: t.cat.vectors[v].status == ActiveIndex ==> s.cat.vectors[v].status == ActiveIndex
  }

  lemma TameTrans(s: State, t: State, u: State)
    requires Tame(s, t) && Tame(t, u)
    ensures Tame(s, u)
  {}

  lemma MarksAreTame(s: State, rel: int, reg: SoundRegistry, status: BuildStatus)
    requires status != ActiveIndex
    ensures Tame(s, WithReg(s, reg)) && Tame(s, MarkUnavailable(s, rel)) && Tame(s, MarkVector(s, rel, status))
  {}

  lemma CheckTableIsTame(env: Env, s: State, rel: int, view: bool)
    ensures Tame(s, CheckTable(env, s, rel, view))
  {
    var reg := CheckObject(env.ty, s, rel, view).0;
    MarksAreTame(s, rel, reg, Stale);
    MarksAreTame(WithReg(s, reg), rel, reg, Stale);
    TameTrans(s, WithReg(s, reg), MarkUnavailable(WithReg(s, reg), rel));
  }

  lemma CheckIndexIsTame(env: Env, s: State, rel: int)
    requires CheckIndex(env, s, rel).Some?
    ensures Tame(s, CheckIndex(env, s, rel).value)
  {
    MarksAreTame(s, rel, s.cat.reg, Stale);
    MarksAreTame(s, rel, s.cat.reg, UnavailableIndex);
    MarksAreTame(MarkUnavailable(s, rel), rel, s.cat.reg, UnavailableIndex);
    TameTrans(s, MarkUnavailable(s, rel), MarkVector(MarkUnavailable(s, rel), rel, UnavailableIndex));
  }

  lemma CheckRelationIsTame(env: Env, s: State, rel: int)
    requires CheckRelation(env, s, rel).Some?
    ensures Tame(s, CheckRelation(env, s, rel).value)
  {
    if rel in s.cat.relations {
      match s.cat.relations[rel].kind {
        case OrdinaryTable => CheckTableIsTame(env, s, rel, false);
        case ViewRelation => CheckTableIsTame(env, s, rel, true);
        case Index => CheckIndexIsTame(env, s, rel);
        case _ =>
      }
    }
  }

  lemma {:induction false} SameActiveChildren(c: Catalog, d: Catalog, rows: seq<PartitionRow>, parent: int)
    requires d.relations.Keys == c.relations.Keys
    ensures ActiveChildren(d, rows, parent) == ActiveChildren(c, rows, parent)
  {
    if rows != [] {
      SameActiveChildren(c, d, rows[1..], parent);
    }
  }

  lemma SameIndexPresent(s: State, t: State, index: int)
    requires SameIndexes(s, t)
    ensures IndexPresent(t, index) <==> IndexPresent(s, index)
  {
    if index in s.cat.indexes {
      SameActiveChildren(s.cat, t.cat, s.cat.partitions, s.cat.indexes[index]);
    }
  }

  lemma NeedIsSame(s: State, t: State, other: int)
    requires Tame(s, t) && (other in s.cat.vectors ==> t.cat.vectors[other] == s.cat.vectors[other])
    ensures NeedsExtension(t, other) <==> NeedsExtension(s, other)
  {
    SameIndexPresent(s, t, other);
  }

  lemma NoNeedStays(s: State, t: State, rel: int)
    requires Tame(s, t) && !NeedsExtension(s, rel)
    ensures !NeedsExtension(t, rel)
  {
    SameIndexPresent(s, t, rel);
  }

  /** Checking one relation changes no other's need for the extension, nor its own when it passes. */
  lemma NeedStays(env: Env, s: State, rel: int, other: int)
    requires env.vss.None? && CheckRelation(env, s, rel).Some?
    ensures NeedsExtension(CheckRelation(env, s, rel).value, other) <==> NeedsExtension(s, other)
  {
    var t := CheckRelation(env, s, rel).value;
    CheckRelationIsTame(env, s, rel);
    if other == rel {
      OnlyNeedingFails(env, s, rel);
      NoNeedStays(s, t, rel);
    } else {
      CheckRelationSettles(env, s, rel);
      NeedIsSame(s, t, other);
    }
  }

  lemma {:induction false} CheckRelationsFailIff(env: Env, s: State, rels: seq<int>)
    ensures CheckRelations(env, s, rels).None? <==> env.vss.None? && exists i :: 0 <= i < |rels| && NeedsExtension(s, rels[i])
    decreases |rels|
  {
    if rels != [] {
      OnlyNeedingFails(env, s, rels[0]);
      if CheckRelation(env, s, rels[0]).Some? {
        var t := CheckRelation(env, s, rels[0]).value;
        CheckRelationsFailIff(env, t, rels[1..]);
        if env.vss.None? {
          RestNeeds(env, s, rels, t);
        }
      }
    }
  }

  lemma RestNeeds(env: Env, s: State, rels: seq<int>, t: State)
    requires env.vss.None? && rels != [] && CheckRelation(env, s, rels[0]) == Some(t)
    ensures (exists i :: 0 <= i < |rels[1..]| && NeedsExtension(t, rels[1..][i])) <==> (exists i :: 0 <= i < |rels| && NeedsExtension(s, rels[i]))
  {
    var rest := rels[1..];
    OnlyNeedingFails(env, s, rels[0]);
    if i :| 0 <= i < |rels| && NeedsExtension(s, rels[i]) {
      NeedStays(env, s, rels[0], rels[i]);
      assert rest[i - 1] == rels[i];
    }
    if i :| 0 <= i < |rest| && NeedsExtension(t, rest[i]) {
      assert rest[i] == rels[i + 1];
      NeedStays(env, s, rels[0], rels[i + 1]);
    }
  }

  /** Exactly why a start fails: its header, integrity, a stale checksum while no journal row is pending
      (recovering pending rows takes the checksum anew before it is compared), or an active vector index
      that is there without the extension being loaded. Everything else is repaired or marked unavailable. */
  lemma StartupFailsIff(env: Env, h: Header, s: State)
    requires EnvOk(env)
    ensures Startup(env, h, s).None? <==>
            || h != Header(2, 3, "ready") || Broken(s.cat)
            || (PendingRow !in s.journal && s.stored != env.digest(s.cat, s.journal))
            || (env.vss.None? && exists rel :: NeedsExtension(s, rel) && s.cat.relations[rel].status == Active)
  {
    IntegrityFailsIff(s.cat);
    var s1 := RecoverJournal(env, s);
    var rels := env.listed(ActiveRelations(s1.cat));
    CheckRelationsFailIff(env, s1, rels);
    forall rel
      ensures NeedsExtension(s1, rel) <==> NeedsExtension(s, rel)
    {
      NeedIsOfCatalog(s, s1, rel);
    }
    if i :| 0 <= i < |rels| && NeedsExtension(s1, rels[i]) {
      assert rels[i] in ActiveRelations(s1.cat);
      assert NeedsExtension(s, rels[i]);
    }
    if rel :| NeedsExtension(s, rel) && s.cat.relations[rel].status == Active {
      assert rel in ActiveRelations(s1.cat);
      assert rel in rels;
      ListedNeeds(s1, rels, rel);
    }
  }

  lemma NeedIsOfCatalog(s: State, t: State, rel: int)
    requires t.cat == s.cat && t.duckIndexes == s.duckIndexes
    ensures NeedsExtension(t, rel) <==> NeedsExtension(s, rel)
  {}

  lemma ListedNeeds(s: State, rels: seq<int>, rel: int)
    requires rel in rels && NeedsExtension(s, rel)
    ensures exists i :: 0 <= i < |rels| && NeedsExtension(s, rels[i])
  {
    var i :| 0 <= i < |rels| && rels[i] == rel;
  }
}
