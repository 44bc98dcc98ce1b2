/** Dropping relations: which catalog rows and DuckDB objects go, and what is left of the catalog's integrity. */
module DropRelation {
  import opened Text
  import opened Oids
  import opened TableColumns
  import opened TypeMapping
  import opened CatalogTables

  /// Deleting one relation's rows

  predicate EdgeTouches(e: Edge, id: int) { e.obj == id || e.ref == id }

  function EdgesWithout(deps: set<Edge>, id: int): set<Edge> { set e | e in deps && !EdgeTouches(e, id) :: e }

  function ConstraintsWithout(cons: map<int, Constraint>, id: int): map<int, Constraint> {
    map k | k in cons && cons[k].conrelid != id :: cons[k]
  }

  /** Vector rows go with their index, found through `rs_index` while its rows are still there. */
  function VectorsWithout(vectors: map<int, VectorIndex>, indexes: map<int, int>, id: int): map<int, VectorIndex> {
    map v | v in vectors && v != id && !(v in indexes && indexes[v] == id) :: vectors[v]
  }

  function IndexesWithout(indexes: map<int, int>, id: int): map<int, int> {
    map i | i in indexes && i != id && indexes[i] != id :: indexes[i]
  }

  function RowTypesWithout(rowTypes: map<int, int>, rowType: int, id: int): map<int, int> {
    map t | t in rowTypes && t != rowType && rowTypes[t] != id :: rowTypes[t]
  }

  function PartitionsWithout(rows: seq<PartitionRow>, id: int): seq<PartitionRow> {
    if rows == [] then []
    else (if rows[0].parent == id || rows[0].child == id then [] else [rows[0]]) + PartitionsWithout(rows[1..], id)
  }

  predicate HasIndex(indexes: map<int, int>, table: int) { exists i <- indexes :: indexes[i] == table }

  /** After an index went, its table's flag is counted again. */
  function Recounted(relations: map<int, Relation>, indexes: map<int, int>, table: Option<int>): map<int, Relation> {
    if table.Some? && table.value in relations
    then relations[table.value := relations[table.value].(hasIndex := HasIndex(indexes, table.value))]
    else relations
  }

  /** The table of an index relation that is about to go. */
  function TableOfIndex(c: Catalog, id: int): Option<int> {
    if id in c.relations && c.relations[id].kind == Index && id in c.indexes then Some(c.indexes[id]) else None
  }

  /** `delete_relation_catalog` */
  function DeleteRelation(c: Catalog, id: int): Catalog
    requires id in c.relations
  {
    var indexes := IndexesWithout(c.indexes, id);
    c.(deps := EdgesWithout(c.deps, id),
       columns := c.columns - {id},
       constraints := ConstraintsWithout(c.constraints, id),
       vectors := VectorsWithout(c.vectors, c.indexes, id),
       indexes := indexes,
       entrypoints := c.entrypoints - {id},
       partitions := PartitionsWithout(c.partitions, id),
       rowTypes := RowTypesWithout(c.rowTypes, c.relations[id].rowType, id),
       relations := Recounted(c.relations - {id}, indexes, TableOfIndex(c, id)))
  }

  /** Relations that are already gone are passed over. */
  function DeleteRelations(c: Catalog, ids: seq<int>): Catalog
    decreases |ids|
  {
    if ids == [] then c else DeleteRelations(if ids[0] in c.relations then DeleteRelation(c, ids[0]) else c, ids[1..])
  }

  /// Deleting constraints

  predicate EdgeOfConstraint(e: Edge, con: int) {
    (e.class_ == ConstraintClass && e.obj == con) || (e.refClass == ConstraintClass && e.ref == con)
  }

  /** `delete_constraint_catalog` */
  function DeleteConstraint(c: Catalog, con: int): Catalog {
    c.(deps := set e | e in c.deps && !EdgeOfConstraint(e, con) :: e).(constraints := c.constraints - {con})
  }

  function DeleteConstraints(c: Catalog, cons: seq<int>): Catalog
    decreases |cons|
  {
    if cons == [] then c else DeleteConstraints(DeleteConstraint(c, cons[0]), cons[1..])
  }

  /// DROP

  /** A row of `dependent_relation_oids` */
  predicate DependsOn(c: Catalog, r: int, id: int) { Edge(RelationClass, r, RelationClass, id) in c.deps }

  /** A row of `dependent_constraint_oids`: a constraint of another table that refers to this one. */
  predicate ConstraintDependsOn(c: Catalog, con: int, id: int) {
    Edge(ConstraintClass, con, RelationClass, id) in c.deps && con in c.constraints && c.constraints[con].conrelid != id
  }

  /** `partition_child_metas`, whatever the partitions' status. */
  function ChildrenOf(relations: set<int>, rows: seq<PartitionRow>, id: int): seq<int> {
    if rows == [] then []
    else (if rows[0].parent == id && rows[0].child in relations then [rows[0].child] else []) + ChildrenOf(relations, rows[1..], id)
  }

  /** The relations that go after the dependent ones: the partitions of a partitioned table, then itself. */
  function OwnRelations(c: Catalog, id: int): seq<int> {
    (if id in c.relations && c.relations[id].kind == PartitionedTable then ChildrenOf(c.relations.Keys, c.partitions, id) else []) + [id]
  }

  /** The catalog side of DROP, given the dependent objects in the order they were read. */
  function DropGiven(c: Catalog, id: int, cons: seq<int>, dependents: seq<int>): Catalog {
    var rest := DeleteRelations(DeleteConstraints(c, cons), dependents);
    DeleteRelations(rest, OwnRelations(rest, id))
  }

  /** The lists hold exactly the dependent constraints and relations. */
  ghost predicate Dependents(c: Catalog, id: int, cons: seq<int>, dependents: seq<int>) {
    (forall k :: k in cons <==> ConstraintDependsOn(c, k, id)) && (forall r :: r in dependents <==> DependsOn(c, r, id))
  }

  /// What the catalog's own operations keep true

  predicate BaseType(reg: Registry, id: int) { TYPE_BOOL <= id <= TYPE_NUMERIC || exists t <- reg.types :: reg.types[t] == id }

  predicate BaseTyped(reg: Registry, rows: seq<ColumnRow>) { forall i :: 0 <= i < |rows| ==> BaseType(reg, rows[i].typeId) }

  /** `insert_constraint_dependencies`: a constraint's edges go to its own table and the table it refers to. */
  predicate ConstraintEdgeOk(c: Catalog, e: Edge) {
    && e.refClass != ConstraintClass
    && (e.class_ == ConstraintClass ==>
          && e.refClass == RelationClass && e.obj in c.constraints
          && (e.ref == c.constraints[e.obj].conrelid || e.ref == c.constraints[e.obj].confrelid))
  }

  predicate ConstraintOk(c: Catalog, con: int)
    requires con in c.constraints
  {
    && con !in c.relations
    && (c.constraints[con].confrelid > 0 ==> Edge(ConstraintClass, con, RelationClass, c.constraints[con].confrelid) in c.deps)
  }

  /** The primary key of rs_partition. */
  predicate PartitionsKeyed(rows: seq<PartitionRow>) {
    forall i, j :: 0 <= i < j < |rows| ==> rows[i].parent != rows[j].parent || rows[i].child != rows[j].child
  }

  predicate Shaped(c: Catalog) {
    && PartitionsKeyed(c.partitions)
    && (forall r <- c.columns :: BaseTyped(c.reg, c.columns[r]))
    && (forall e <- c.deps :: ConstraintEdgeOk(c, e) && (e.class_ == RelationClass && e.refClass == RelationClass ==> e.obj != e.ref))
    && (forall con <- c.constraints :: ConstraintOk(c, con))
    && (forall r <- c.relations :: r > 0)
  }

  /// Everything but constraint edges survives unconditionally

  predicate RelationEndOk(c: Catalog, class_: ObjectClass, id: int) {
    (class_ == RelationClass ==> id in c.relations) && (class_ == SchemaClass ==> id in c.schemas) && class_ != UnsupportedClass
  }

  /** Integrity, leaving open whether constraints named in dependency rows exist. */
  predicate IntegrityButConstraints(c: Catalog) {
    && SchemasExist(c) && ColumnsHaveRelations(c) && (forall r <- c.columns :: BaseTyped(c.reg, c.columns[r]))
    && VectorsHaveIndexes(c) && VectorsOk(c) && ActiveNamesUnique(c)
    && (forall e <- c.deps :: RelationEndOk(c, e.class_, e.obj) && RelationEndOk(c, e.refClass, e.ref))
  }

  lemma RecountedKeys(relations: map<int, Relation>, indexes: map<int, int>, table: Option<int>)
    ensures var r := Recounted(relations, indexes, table);
            r.Keys == relations.Keys && forall k <- relations :: r[k] == relations[k].(hasIndex := r[k].hasIndex)
  {}

  lemma DeleteKeepsNames(c: Catalog, id: int)
    requires id in c.relations && ActiveNamesUnique(c) && SchemasExist(c)
    ensures ActiveNamesUnique(DeleteRelation(c, id)) && SchemasExist(DeleteRelation(c, id))
  {
    var d := DeleteRelation(c, id);
    RecountedKeys(c.relations - {id}, d.indexes, TableOfIndex(c, id));
    forall a <- d.relations, b <- d.relations | a != b
      ensures !SameName(d.relations[a], d.relations[b])
    {
      assert !SameName(c.relations[a], c.relations[b]);
    }
  }

  lemma DeleteKeepsTheRest(c: Catalog, id: int)
    requires id in c.relations && IntegrityButConstraints(c)
    ensures IntegrityButConstraints(DeleteRelation(c, id))
  {
    var d := DeleteRelation(c, id);
    RecountedKeys(c.relations - {id}, d.indexes, TableOfIndex(c, id));
    DeleteKeepsNames(c, id);
    assert VectorsHaveIndexes(d) && VectorsOk(d);
    forall e <- d.deps
      ensures RelationEndOk(d, e.class_, e.obj) && RelationEndOk(d, e.refClass, e.ref)
    {
      assert RelationEndOk(c, e.class_, e.obj) && RelationEndOk(c, e.refClass, e.ref) && !EdgeTouches(e, id);
    }
  }

  /** What deletion leaves of the tables that matter for constraint edges: nothing touching the deleted
      relations, and everything else. */
  ghost predicate Leaves(c: Catalog, d: Catalog, ids: set<int>) {
    && (forall e :: e in d.deps <==> e in c.deps && e.obj !in ids && e.ref !in ids)
    && (forall k :: k in d.constraints <==> k in c.constraints && c.constraints[k].conrelid !in ids)
    && (forall k <- d.constraints :: d.constraints[k] == c.constraints[k])
    && (forall p :: p in d.partitions <==> p in c.partitions && p.parent !in ids && p.child !in ids)
    && d.relations.Keys == c.relations.Keys - ids
    && (forall r <- d.relations :: d.relations[r] == c.relations[r].(hasIndex := d.relations[r].hasIndex))
  }

  lemma {:induction false} PartitionsWithoutHas(rows: seq<PartitionRow>, id: int)
    ensures forall p :: p in PartitionsWithout(rows, id) <==> p in rows && p.parent != id && p.child != id
  {
    if rows != [] {
      PartitionsWithoutHas(rows[1..], id);
      assert rows == [rows[0]] + rows[1..];
    }
  }

  lemma DeleteLeaves(c: Catalog, id: int)
    requires id in c.relations
    ensures Leaves(c, DeleteRelation(c, id), {id})
  {
    PartitionsWithoutHas(c.partitions, id);
    RecountedKeys(c.relations - {id}, DeleteRelation(c, id).indexes, TableOfIndex(c, id));
  }

  lemma LeavesTrans(a: Catalog, b: Catalog, c: Catalog, xs: set<int>, ys: set<int>)
    requires Leaves(a, b, xs) && Leaves(b, c, ys)
    ensures Leaves(a, c, xs + ys)
  {
    assert c.relations.Keys == a.relations.Keys - (xs + ys);
    forall r <- c.relations
      ensures c.relations[r] == a.relations[r].(hasIndex := c.relations[r].hasIndex)
    {
      assert r in b.relations;
    }
  }

  function Present(c: Catalog, ids: seq<int>): set<int> { set x | x in ids && x in c.relations :: x }

  lemma {:induction false} DeleteRelationsLeaves(c: Catalog, ids: seq<int>)
    requires IntegrityButConstraints(c)
    ensures IntegrityButConstraints(DeleteRelations(c, ids)) && Leaves(c, DeleteRelations(c, ids), Present(c, ids))
    decreases |ids|
  {
    if ids != [] {
      var id, rest := ids[0], ids[1..];
      var d := if id in c.relations then DeleteRelation(c, id) else c;
      if id in c.relations {
        DeleteKeepsTheRest(c, id);
        DeleteLeaves(c, id);
      }
      var here := if id in c.relations then {id} else {};
      assert Leaves(c, d, here);
      DeleteRelationsLeaves(d, rest);
      LeavesTrans(c, d, DeleteRelations(d, rest), here, Present(d, rest));
      assert Present(c, ids) == here + Present(d, rest) by {
        assert ids == [id] + rest;
      }
    }
  }

  /// The rows of every other table

  /** The table of an index is dropped. */
  predicate OnDropped(indexes: map<int, int>, index: int, ids: set<int>) { index in indexes && indexes[index] in ids }

  ghost predicate Without<V>(a: map<int, V>, b: map<int, V>, ids: set<int>) {
    (forall k :: k in b <==> k in a && k !in ids) && forall k <- b :: b[k] == a[k]
  }

  ghost predicate IndexesLeft(a: map<int, int>, b: map<int, int>, ids: set<int>) {
    (forall i :: i in b <==> i in a && i !in ids && a[i] !in ids) && forall i <- b :: b[i] == a[i]
  }

  ghost predicate VectorsLeft(indexes: map<int, int>, a: map<int, VectorIndex>, b: map<int, VectorIndex>, ids: set<int>) {
    (forall v :: v in b <==> v in a && v !in ids && !OnDropped(indexes, v, ids)) && forall v <- b :: b[v] == a[v]
  }

  ghost predicate RowTypesLeft(c: Catalog, d: Catalog, ids: set<int>) {
    && (forall t :: t in d.rowTypes <==> t in c.rowTypes && c.rowTypes[t] !in ids && !RowTypeOf(c, t, ids))
    && (forall t <- d.rowTypes :: d.rowTypes[t] == c.rowTypes[t])
  }

  /** The rows of removed relations are gone, and exactly those: columns and entrypoints of the relations, indexes
      and vector indexes of them or on them, and their row types. Schemas and registered types stay. */
  ghost predicate RowsLeft(c: Catalog, d: Catalog, ids: set<int>) {
    && d.schemas == c.schemas && d.reg == c.reg
    && Without(c.columns, d.columns, ids) && Without(c.entrypoints, d.entrypoints, ids)
    && IndexesLeft(c.indexes, d.indexes, ids) && VectorsLeft(c.indexes, c.vectors, d.vectors, ids) && RowTypesLeft(c, d, ids)
  }

  ghost predicate RowTypeOf(c: Catalog, t: int, ids: set<int>) { exists r <- ids :: r in c.relations && c.relations[r].rowType == t }

  lemma DeleteRowsLeft(c: Catalog, id: int)
    requires id in c.relations
    ensures RowsLeft(c, DeleteRelation(c, id), {id})
  {
    forall t
      ensures RowTypeOf(c, t, {id}) <==> c.relations[id].rowType == t
    {
      assert id in {id};
    }
  }

  lemma RowTypesOfBoth(a: Catalog, b: Catalog, xs: set<int>, ys: set<int>, t: int)
    requires b.relations.Keys == a.relations.Keys - xs && ys <= b.relations.Keys
    requires forall r <- b.relations :: b.relations[r].rowType == a.relations[r].rowType
    ensures RowTypeOf(a, t, xs + ys) <==> RowTypeOf(a, t, xs) || RowTypeOf(b, t, ys)
  {
    if RowTypeOf(b, t, ys) {
      var r :| r in ys && r in b.relations && b.relations[r].rowType == t;
      assert r in b.relations.Keys && r in xs + ys;
    }
    if RowTypeOf(a, t, xs + ys) {
      var r :| r in xs + ys && r in a.relations && a.relations[r].rowType == t;
      if r in ys {
        assert r in b.relations.Keys;
      }
    }
  }

  lemma RowsLeftTrans(a: Catalog, b: Catalog, c: Catalog, xs: set<int>, ys: set<int>)
    requires RowsLeft(a, b, xs) && RowsLeft(b, c, ys) && b.relations.Keys == a.relations.Keys - xs && ys <= b.relations.Keys
    requires forall r <- b.relations :: b.relations[r].rowType == a.relations[r].rowType
    ensures RowsLeft(a, c, xs + ys)
  {
    WithoutTrans(a.columns, b.columns, c.columns, xs, ys);
    WithoutTrans(a.entrypoints, b.entrypoints, c.entrypoints, xs, ys);
    IndexesLeftTrans(a.indexes, b.indexes, c.indexes, xs, ys);
    VectorsLeftTrans(a.indexes, b.indexes, a.vectors, b.vectors, c.vectors, xs, ys);
    RowTypesLeftTrans(a, b, c, xs, ys);
  }

  lemma WithoutTrans<V>(a: map<int, V>, b: map<int, V>, c: map<int, V>, xs: set<int>, ys: set<int>)
    requires Without(a, b, xs) && Without(b, c, ys)
    ensures Without(a, c, xs + ys)
  {}

  lemma IndexesLeftTrans(a: map<int, int>, b: map<int, int>, c: map<int, int>, xs: set<int>, ys: set<int>)
    requires IndexesLeft(a, b, xs) && IndexesLeft(b, c, ys)
    ensures IndexesLeft(a, c, xs + ys)
  {}

  lemma VectorsLeftTrans(
    ai: map<int, int>, bi: map<int, int>, a: map<int, VectorIndex>, b: map<int, VectorIndex>, c: map<int, VectorIndex>, xs: set<int>, ys: set<int>)
    requires IndexesLeft(ai, bi, xs) && VectorsLeft(ai, a, b, xs) && VectorsLeft(bi, b, c, ys)
    ensures VectorsLeft(ai, a, c, xs + ys)
  {
    assert forall v :: v in b ==> (OnDropped(bi, v, ys) <==> OnDropped(ai, v, ys));
    assert forall v :: OnDropped(ai, v, xs + ys) <==> OnDropped(ai, v, xs) || OnDropped(ai, v, ys);
  }

  lemma RowTypesLeftTrans(a: Catalog, b: Catalog, c: Catalog, xs: set<int>, ys: set<int>)
    requires RowTypesLeft(a, b, xs) && RowTypesLeft(b, c, ys) && b.relations.Keys == a.relations.Keys - xs && ys <= b.relations.Keys
    requires forall r <- b.relations :: b.relations[r].rowType == a.relations[r].rowType
    ensures RowTypesLeft(a, c, xs + ys)
  {
    forall t
      ensures t in c.rowTypes <==> t in a.rowTypes && a.rowTypes[t] !in xs + ys && !RowTypeOf(a, t, xs + ys)
    {
      RowTypesOfBoth(a, b, xs, ys, t);
    }
  }

  lemma NothingIsLeftOut(c: Catalog)
    ensures RowsLeft(c, c, {})
  {}

  lemma {:induction false} DeleteRelationsRowsLeft(c: Catalog, ids: seq<int>)
    requires IntegrityButConstraints(c)
    ensures RowsLeft(c, DeleteRelations(c, ids), Present(c, ids))
    decreases |ids|
  {
    if ids == [] {
      NothingIsLeftOut(c);
      assert Present(c, ids) == {};
    } else {
      var id, rest := ids[0], ids[1..];
      PresentFirst(c, ids);
      if id in c.relations {
        var d := DeleteRelation(c, id);
        DeleteKeepsTheRest(c, id);
        DeleteLeaves(c, id);
        DeleteRowsLeft(c, id);
        DeleteRelationsRowsLeft(d, rest);
        RowsLeftTrans(c, d, DeleteRelations(d, rest), {id}, Present(d, rest));
      } else {
        DeleteRelationsRowsLeft(c, rest);
      }
    }
  }

  lemma PresentFirst(c: Catalog, ids: seq<int>)
    requires ids != []
    ensures ids[0] in c.relations ==> Present(c, ids) == {ids[0]} + Present(DeleteRelation(c, ids[0]), ids[1..])
    ensures ids[0] !in c.relations ==> Present(c, ids) == Present(c, ids[1..])
    ensures ids[0] in c.relations ==> Present(DeleteRelation(c, ids[0]), ids[1..]) <= DeleteRelation(c, ids[0]).relations.Keys
  {
    assert ids == [ids[0]] + ids[1..];
    if ids[0] in c.relations {
      DeleteLeaves(c, ids[0]);
      assert DeleteRelation(c, ids[0]).relations.Keys == c.relations.Keys - {ids[0]};
    }
  }

  /// Dependent constraints first

  lemma DeleteConstraintKeeps(c: Catalog, con: int)
    requires IntegrityButConstraints(c) && Shaped(c)
    ensures IntegrityButConstraints(DeleteConstraint(c, con)) && Shaped(DeleteConstraint(c, con))
  {
    var d := DeleteConstraint(c, con);
    assert forall e <- d.deps :: ConstraintEdgeOk(d, e) by {
      forall e <- d.deps
        ensures ConstraintEdgeOk(d, e)
      {
        assert ConstraintEdgeOk(c, e);
      }
    }
    assert forall k <- d.constraints :: ConstraintOk(c, k);
    assert SchemasExist(d) && ActiveNamesUnique(d);
  }

  lemma {:induction false} DeleteConstraintsKeeps(c: Catalog, cons: seq<int>)
    requires IntegrityButConstraints(c) && Shaped(c)
    ensures var d := DeleteConstraints(c, cons);
            && IntegrityButConstraints(d) && Shaped(d) && d.relations == c.relations && d.partitions == c.partitions
            && (forall k :: k in d.constraints <==> k in c.constraints && k !in cons)
            && (forall k <- d.constraints :: d.constraints[k] == c.constraints[k])
    decreases |cons|
  {
    if cons != [] {
      DeleteConstraintKeeps(c, cons[0]);
      DeleteConstraintsKeeps(DeleteConstraint(c, cons[0]), cons[1..]);
      assert cons == [cons[0]] + cons[1..];
    }
  }

  /// The exact condition

  /** A removed relation owns a foreign key to a relation that stays. */
  ghost predicate KeyLeftBehind(c: Catalog, gone: set<int>, con: int) {
    con in c.constraints && c.constraints[con].conrelid in gone && c.constraints[con].confrelid > 0 && c.constraints[con].confrelid !in gone
  }

  lemma EdgeLeftBehind(c: Catalog, d: Catalog, gone: set<int>, con: int)
    requires Shaped(c) && gone <= c.relations.Keys && Leaves(c, d, gone) && KeyLeftBehind(c, gone, con)
    ensures !EdgesOk(d)
  {
    assert ConstraintOk(c, con);
    var e := Edge(ConstraintClass, con, RelationClass, c.constraints[con].confrelid);
    assert e in d.deps && !EdgeOk(d, e);
  }

  lemma EdgesStayOk(c: Catalog, d: Catalog, gone: set<int>)
    requires Shaped(c) && gone <= c.relations.Keys && Leaves(c, d, gone) && IntegrityButConstraints(d)
    requires forall con <- c.constraints :: !KeyLeftBehind(c, gone, con)
    ensures EdgesOk(d)
  {
    forall e <- d.deps
      ensures EdgeOk(d, e)
    {
      assert ConstraintEdgeOk(c, e) && RelationEndOk(d, e.class_, e.obj) && RelationEndOk(d, e.refClass, e.ref);
      if e.class_ == ConstraintClass {
        assert !KeyLeftBehind(c, gone, e.obj);
        assert e.ref in d.relations && e.ref > 0;
      }
    }
  }

  lemma BaseTypesExist(c: Catalog)
    requires forall r <- c.columns :: BaseTyped(c.reg, c.columns[r])
    ensures ColumnsHaveTypes(c)
  {
    forall r <- c.columns
      ensures RowsTyped(c.reg, c.rowTypes, c.columns[r])
    {
      assert BaseTyped(c.reg, c.columns[r]);
      assert forall i :: 0 <= i < |c.columns[r]| ==> BaseType(c.reg, c.columns[r][i].typeId);
    }
  }

  /** Removing any relations, after any constraints, keeps every check of integrity at zero exactly when
      no removed relation owns a remaining foreign key to a relation that stays. */
  lemma RemovalKeepsIntegrityIff(c: Catalog, cons: seq<int>, ids: seq<int>)
    requires Integrity(c) && Shaped(c)
    ensures Integrity(DeleteRelations(DeleteConstraints(c, cons), ids)) <==>
            forall con <- c.constraints :: con !in cons ==> !KeyLeftBehind(c, Present(c, ids), con)
  {
    assert IntegrityButConstraints(c) by {
      assert forall e <- c.deps :: EdgeOk(c, e);
    }
    DeleteConstraintsKeeps(c, cons);
    var m := DeleteConstraints(c, cons);
    var d, gone := DeleteRelations(m, ids), Present(c, ids);
    DeleteRelationsLeaves(m, ids);
    assert Present(m, ids) == gone;
    BaseTypesExist(d);
    if con :| con in c.constraints && con !in cons && KeyLeftBehind(c, gone, con) {
      assert KeyLeftBehind(m, gone, con);
      EdgeLeftBehind(m, d, gone, con);
    } else {
      forall con <- m.constraints
        ensures !KeyLeftBehind(m, gone, con)
      {
        assert con in c.constraints && con !in cons;
      }
      EdgesStayOk(m, d, gone);
    }
  }

  lemma {:induction false} DeleteInTwoParts(c: Catalog, xs: seq<int>, ys: seq<int>)
    ensures DeleteRelations(DeleteRelations(c, xs), ys) == DeleteRelations(c, xs + ys)
    decreases |xs|
  {
    if xs == [] {
      assert xs + ys == ys;
    } else {
      assert (xs + ys)[1..] == xs[1..] + ys;
      DeleteInTwoParts(if xs[0] in c.relations then DeleteRelation(c, xs[0]) else c, xs[1..], ys);
    }
  }

  /// Exactly which relations go

  /** The relation, what depends on it directly, and its partitions. Nothing further: CASCADE looks one
      level deep. */
  ghost predicate Goes(c: Catalog, id: int, r: int)
    requires id in c.relations
  {
    || r == id || DependsOn(c, r, id)
    || (c.relations[id].kind == PartitionedTable && exists p <- c.partitions :: p.parent == id && p.child == r)
  }

  lemma {:induction false} ChildrenOfHas(relations: set<int>, rows: seq<PartitionRow>, id: int)
    ensures forall x :: x in ChildrenOf(relations, rows, id) <==> x in relations && exists p <- rows :: p.parent == id && p.child == x
  {
    if rows != [] {
      ChildrenOfHas(relations, rows[1..], id);
      assert rows == [rows[0]] + rows[1..];
    }
  }

  lemma IntegrityHasTheRest(c: Catalog)
    requires Integrity(c) && Shaped(c)
    ensures IntegrityButConstraints(c)
  {
    assert forall e <- c.deps :: EdgeOk(c, e);
  }

  lemma DropRemoves(c: Catalog, id: int, cons: seq<int>, dependents: seq<int>, r: int)
    requires Integrity(c) && Shaped(c) && id in c.relations && Dependents(c, id, cons, dependents) && r in c.relations
    ensures r in DropGiven(c, id, cons, dependents).relations <==> !Goes(c, id, r)
  {
    IntegrityHasTheRest(c);
    DeleteConstraintsKeeps(c, cons);
    var m := DeleteConstraints(c, cons);
    var rest := DeleteRelations(m, dependents);
    DeleteRelationsLeaves(m, dependents);
    assert !DependsOn(c, id, id);
    assert id in rest.relations;
    ChildrenOfHas(rest.relations.Keys, rest.partitions, id);
    DeleteRelationsLeaves(rest, OwnRelations(rest, id));
    assert r in DropGiven(c, id, cons, dependents).relations <==> r !in dependents && r !in OwnRelations(rest, id);
  }

  /** A foreign key that DROP leaves an edge of: its table goes, the table it refers to stays. */
  ghost predicate OwnsKeyOutside(c: Catalog, id: int, con: int)
    requires id in c.relations
  {
    && con in c.constraints && !ConstraintDependsOn(c, con, id)
    && var k := c.constraints[con];
       k.conrelid in c.relations && Goes(c, id, k.conrelid) && k.confrelid > 0 && (k.confrelid in c.relations ==> !Goes(c, id, k.confrelid))
  }

  /** DROP keeps the catalog's integrity exactly when no relation it removes owns a foreign key to a
      relation that stays. */
  lemma DropKeepsIntegrityIff(c: Catalog, id: int, cons: seq<int>, dependents: seq<int>)
    requires Integrity(c) && Shaped(c) && id in c.relations && Dependents(c, id, cons, dependents)
    ensures Integrity(DropGiven(c, id, cons, dependents)) <==> forall con <- c.constraints :: !OwnsKeyOutside(c, id, con)
  {
    var m := DeleteConstraints(c, cons);
    var own := OwnRelations(DeleteRelations(m, dependents), id);
    var ids := dependents + own;
    DeleteInTwoParts(m, dependents, own);
    IntegrityHasTheRest(c);
    DeleteConstraintsKeeps(c, cons);
    DeleteRelationsLeaves(m, ids);
    RemovalKeepsIntegrityIff(c, cons, ids);
    forall r | r in c.relations
      ensures r in Present(c, ids) <==> Goes(c, id, r)
    {
      DropRemoves(c, id, cons, dependents, r);
    }
    forall con <- c.constraints
      ensures OwnsKeyOutside(c, id, con) <==> con !in cons && KeyLeftBehind(c, Present(c, ids), con)
    {
    }
  }

  /** Dropping a table that refers to another leaves its constraint's edge to that other table behind. */
  lemma OwnedKeyBreaksIntegrity() returns (c: Catalog)
    ensures Integrity(c) && Shaped(c) && 11 in c.relations && 12 in c.relations
    ensures Dependents(c, 11, [], []) && !Integrity(DropGiven(c, 11, [], []))
  {
    var t := Relation(1, "main", "child", OrdinaryTable, Active, 21, false);
    c := Catalog({1}, map[11 := t, 12 := t.(name := "parent", rowType := 22)], map[], Registry(map[], FIRST_USER_OID), map[21 := 11, 22 := 12],
                 map[], map[], map[13 := Constraint(11, 12)],
                 {Edge(ConstraintClass, 13, RelationClass, 11), Edge(ConstraintClass, 13, RelationClass, 12)}, [], map[]);
    assert Lower("child")[0] == 'c' && Lower("parent")[0] == 'p';
    assert Dependents(c, 11, [], []);
    DropKeepsIntegrityIff(c, 11, [], []);
    assert OwnsKeyOutside(c, 11, 13);
  }

  /// What DROP leaves of every catalog table

  ghost function GoneWith(c: Catalog, id: int): (r: set<int>)
    requires id in c.relations
    ensures forall x :: x in r <==> x in c.relations && Goes(c, id, x)
  {
    set x | x in c.relations && Goes(c, id, x)
  }

  /** The rows that name none of the relations, in their order. */
  function Naming(rows: seq<PartitionRow>, ids: set<int>): seq<PartitionRow> {
    if rows == [] then []
    else (if rows[0].parent in ids || rows[0].child in ids then [] else [rows[0]]) + Naming(rows[1..], ids)
  }

  ghost predicate OfDependentConstraint(c: Catalog, e: Edge, id: int) {
    exists k <- c.constraints ::
      ConstraintDependsOn(c, k, id) && ((e.class_ == ConstraintClass && e.obj == k) || (e.refClass == ConstraintClass && e.ref == k))
  }

  /** Besides the rows of the relations that go, DROP deletes the constraints of other tables that refer to the
      relation, with their dependency rows; everything else stays as it was. */
  ghost predicate LeftByDrop(c: Catalog, d: Catalog, id: int)
    requires id in c.relations
  {
    var gone := GoneWith(c, id);
    && RowsLeft(c, d, gone)
    && d.partitions == Naming(c.partitions, gone)
    && (forall k :: k in d.constraints <==> k in c.constraints && c.constraints[k].conrelid !in gone && !ConstraintDependsOn(c, k, id))
    && (forall k <- d.constraints :: d.constraints[k] == c.constraints[k])
    && (forall e :: e in d.deps <==> e in c.deps && e.obj !in gone && e.ref !in gone && !OfDependentConstraint(c, e, id))
    && (forall r :: r in d.relations <==> r in c.relations && r !in gone)
    && (forall r <- d.relations :: d.relations[r] == c.relations[r].(hasIndex := d.relations[r].hasIndex))
  }

  lemma {:induction false} DeleteConstraintsLeaves(c: Catalog, cons: seq<int>)
    ensures var d := DeleteConstraints(c, cons);
            && d == c.(deps := d.deps, constraints := d.constraints)
            && forall e :: e in d.deps <==> e in c.deps && forall k <- cons :: !EdgeOfConstraint(e, k)
    decreases |cons|
  {
    if cons != [] {
      DeleteConstraintsLeaves(DeleteConstraint(c, cons[0]), cons[1..]);
      assert cons == [cons[0]] + cons[1..];
    }
  }

  lemma {:induction false} PartitionsWithoutIsNaming(rows: seq<PartitionRow>, id: int)
    ensures PartitionsWithout(rows, id) == Naming(rows, {id})
  {
    if rows != [] {
      PartitionsWithoutIsNaming(rows[1..], id);
    }
  }

  lemma NamingCons(p: PartitionRow, rows: seq<PartitionRow>, ids: set<int>)
    ensures Naming([p] + rows, ids) == (if p.parent in ids || p.child in ids then [] else [p]) + Naming(rows, ids)
  {
    assert ([p] + rows)[1..] == rows;
  }

  lemma {:induction false} NamingTwice(rows: seq<PartitionRow>, xs: set<int>, ys: set<int>)
    ensures Naming(Naming(rows, xs), ys) == Naming(rows, xs + ys)
  {
    if rows != [] {
      NamingTwice(rows[1..], xs, ys);
      var p := rows[0];
      if !(p.parent in xs || p.child in xs) {
        NamingCons(p, Naming(rows[1..], xs), ys);
        assert Naming(rows, xs) == [p] + Naming(rows[1..], xs);
      } else {
        assert Naming(rows, xs) == Naming(rows[1..], xs);
      }
    }
  }

  lemma {:induction false} NamingNobody(rows: seq<PartitionRow>)
    ensures Naming(rows, {}) == rows
  {
    if rows != [] {
      NamingNobody(rows[1..]);
    }
  }

  lemma {:induction false} DeleteRelationsNaming(c: Catalog, ids: seq<int>)
    ensures DeleteRelations(c, ids).partitions == Naming(c.partitions, Present(c, ids))
    decreases |ids|
  {
    if ids == [] {
      NamingNobody(c.partitions);
      assert Present(c, ids) == {};
    } else {
      PresentFirst(c, ids);
      if ids[0] in c.relations {
        PartitionsWithoutIsNaming(c.partitions, ids[0]);
        DeleteRelationsNaming(DeleteRelation(c, ids[0]), ids[1..]);
        NamingTwice(c.partitions, {ids[0]}, Present(DeleteRelation(c, ids[0]), ids[1..]));
      } else {
        DeleteRelationsNaming(c, ids[1..]);
      }
    }
  }

  lemma PresentIsGone(c: Catalog, id: int, cons: seq<int>, dependents: seq<int>)
    requires Integrity(c) && Shaped(c) && id in c.relations && Dependents(c, id, cons, dependents)
    ensures var m := DeleteConstraints(c, cons);
            var ids := dependents + OwnRelations(DeleteRelations(m, dependents), id);
            DropGiven(c, id, cons, dependents) == DeleteRelations(m, ids) && Present(m, ids) == GoneWith(c, id)
  {
    var m := DeleteConstraints(c, cons);
    var own := OwnRelations(DeleteRelations(m, dependents), id);
    var ids := dependents + own;
    DeleteInTwoParts(m, dependents, own);
    IntegrityHasTheRest(c);
    DeleteConstraintsKeeps(c, cons);
    DeleteRelationsLeaves(m, ids);
    forall r | r in c.relations
      ensures r in Present(m, ids) <==> Goes(c, id, r)
    {
      DropRemoves(c, id, cons, dependents, r);
    }
  }

  lemma EdgesOfDependents(c: Catalog, id: int, cons: seq<int>, dependents: seq<int>, e: Edge)
    requires Dependents(c, id, cons, dependents)
    ensures (forall k <- cons :: !EdgeOfConstraint(e, k)) <==> !OfDependentConstraint(c, e, id)
  {
    if OfDependentConstraint(c, e, id) {
      var k :| k in c.constraints && ConstraintDependsOn(c, k, id) && EdgeOfConstraint(e, k);
      assert k in cons;
    }
  }

  lemma DropLeaves(c: Catalog, id: int, cons: seq<int>, dependents: seq<int>)
    requires Integrity(c) && Shaped(c) && id in c.relations && Dependents(c, id, cons, dependents)
    ensures LeftByDrop(c, DropGiven(c, id, cons, dependents), id)
  {
    var m := DeleteConstraints(c, cons);
    var ids := dependents + OwnRelations(DeleteRelations(m, dependents), id);
    var d := DropGiven(c, id, cons, dependents);
    PresentIsGone(c, id, cons, dependents);
    IntegrityHasTheRest(c);
    DeleteConstraintsKeeps(c, cons);
    DeleteConstraintsLeaves(c, cons);
    DeleteRelationsLeaves(m, ids);
    DeleteRelationsRowsLeft(m, ids);
    DeleteRelationsNaming(m, ids);
    SameRowsLeft(c, m, d, GoneWith(c, id));
    forall e
      ensures e in d.deps <==> e in c.deps && e.obj !in GoneWith(c, id) && e.ref !in GoneWith(c, id) && !OfDependentConstraint(c, e, id)
    {
      EdgesOfDependents(c, id, cons, dependents, e);
    }
  }

  lemma SameRowsLeft(c: Catalog, m: Catalog, d: Catalog, ids: set<int>)
    requires m == c.(deps := m.deps, constraints := m.constraints) && RowsLeft(m, d, ids)
    ensures RowsLeft(c, d, ids)
  {
    assert forall t :: RowTypeOf(m, t, ids) <==> RowTypeOf(c, t, ids);
  }

  /// The tables and views in DuckDB

  /** What DROP removes from DuckDB once the dependent objects are gone from the catalog: the object itself, and
      behind a partitioned table's view its partitions. An index goes with its table. */
  function DuckdbDrops(c: Catalog, id: int): seq<int>
    requires id in c.relations
  {
    if c.relations[id].kind == Index then []
    else if c.relations[id].kind == PartitionedTable then [id] + ChildrenOf(c.relations.Keys, c.partitions, id)
    else [id]
  }

  ghost predicate DropsInDuckdb(c: Catalog, id: int, x: int)
    requires id in c.relations
  {
    && c.relations[id].kind != Index
    && (x == id
        || (c.relations[id].kind == PartitionedTable && x in c.relations && !DependsOn(c, x, id)
            && exists p <- c.partitions :: p.parent == id && p.child == x))
  }

  /** Tables and views are in the catalog exactly when they are in DuckDB. */
  ghost predicate Agrees(c: Catalog, objects: set<int>) {
    forall r :: r in objects <==> r in c.relations && c.relations[r].kind != Index
  }

  lemma DropsAre(c: Catalog, id: int, cons: seq<int>, dependents: seq<int>, x: int)
    requires Integrity(c) && Shaped(c) && id in c.relations && Dependents(c, id, cons, dependents)
    ensures var rest := DeleteRelations(DeleteConstraints(c, cons), dependents);
            id in rest.relations && (x in DuckdbDrops(rest, id) <==> DropsInDuckdb(c, id, x))
  {
    IntegrityHasTheRest(c);
    DeleteConstraintsKeeps(c, cons);
    var m := DeleteConstraints(c, cons);
    var rest := DeleteRelations(m, dependents);
    DeleteRelationsLeaves(m, dependents);
    assert !DependsOn(c, id, id);
    ChildrenOfHas(rest.relations.Keys, rest.partitions, id);
  }

  lemma {:induction false} ChildrenAreDistinct(relations: set<int>, rows: seq<PartitionRow>, id: int)
    requires PartitionsKeyed(rows)
    ensures forall i, j :: 0 <= i < j < |ChildrenOf(relations, rows, id)| ==> ChildrenOf(relations, rows, id)[i] != ChildrenOf(relations, rows, id)[j]
  {
    if rows != [] {
      ChildrenAreDistinct(relations, rows[1..], id);
      ChildrenOfHas(relations, rows[1..], id);
      var rest := ChildrenOf(relations, rows[1..], id);
      forall j | 0 <= j < |rest|
        ensures rows[0].parent == id ==> rest[j] != rows[0].child
      {
        assert rest[j] in rest;
      }
    }
  }

  lemma {:induction false} PartitionsWithoutKeyed(rows: seq<PartitionRow>, id: int)
    requires PartitionsKeyed(rows)
    ensures PartitionsKeyed(PartitionsWithout(rows, id))
  {
    if rows != [] {
      PartitionsWithoutKeyed(rows[1..], id);
      PartitionsWithoutHas(rows[1..], id);
      var rest := PartitionsWithout(rows[1..], id);
      forall j | 0 <= j < |rest|
        ensures rest[j].parent != rows[0].parent || rest[j].child != rows[0].child
      {
        assert rest[j] in rest;
      }
    }
  }

  lemma {:induction false} DeleteRelationsKeyed(c: Catalog, ids: seq<int>)
    requires PartitionsKeyed(c.partitions)
    ensures PartitionsKeyed(DeleteRelations(c, ids).partitions)
    decreases |ids|
  {
    if ids != [] {
      PartitionsWithoutKeyed(c.partitions, ids[0]);
      DeleteRelationsKeyed(if ids[0] in c.relations then DeleteRelation(c, ids[0]) else c, ids[1..]);
    }
  }

  /** Nothing is dropped twice. */
  lemma DropsAreDistinct(c: Catalog, id: int)
    requires id in c.relations && PartitionsKeyed(c.partitions) && !IsManaged(c, id)
    ensures forall i, j :: 0 <= i < j < |DuckdbDrops(c, id)| ==> DuckdbDrops(c, id)[i] != DuckdbDrops(c, id)[j]
  {
    var children := ChildrenOf(c.relations.Keys, c.partitions, id);
    ChildrenAreDistinct(c.relations.Keys, c.partitions, id);
    ChildrenOfHas(c.relations.Keys, c.partitions, id);
    forall j | 0 <= j < |children|
      ensures children[j] != id
    {
      assert children[j] in children;
    }
  }

  lemma DropKeepsKinds(c: Catalog, id: int, cons: seq<int>, dependents: seq<int>, r: int)
    requires Integrity(c) && Shaped(c) && id in c.relations && Dependents(c, id, cons, dependents)
    requires r in DropGiven(c, id, cons, dependents).relations
    ensures r in c.relations && DropGiven(c, id, cons, dependents).relations[r].kind == c.relations[r].kind
  {
    IntegrityHasTheRest(c);
    DeleteConstraintsKeeps(c, cons);
    var m := DeleteConstraints(c, cons);
    DeleteRelationsLeaves(m, dependents);
    var rest := DeleteRelations(m, dependents);
    DeleteRelationsLeaves(rest, OwnRelations(rest, id));
  }

  /** After DROP the catalog and DuckDB still have the same tables and views exactly when nothing but indexes
      depended on the relation: CASCADE deletes the rows of a dependent view, whose view stays in DuckDB. */
  lemma DropAgreesIff(c: Catalog, id: int, cons: seq<int>, dependents: seq<int>, was: set<int>, objects: set<int>)
    requires Integrity(c) && Shaped(c) && id in c.relations && Dependents(c, id, cons, dependents) && Agrees(c, was)
    requires forall x :: x in objects <==> x in was && !DropsInDuckdb(c, id, x)
    ensures Agrees(DropGiven(c, id, cons, dependents), objects) <==>
            forall r <- c.relations :: DependsOn(c, r, id) ==> c.relations[r].kind == Index
  {
    var d := DropGiven(c, id, cons, dependents);
    forall r
      ensures r in d.relations <==> r in c.relations && !Goes(c, id, r)
      ensures r in d.relations ==> d.relations[r].kind == c.relations[r].kind
    {
      if r in d.relations {
        DropKeepsKinds(c, id, cons, dependents, r);
      }
      if r in c.relations {
        DropRemoves(c, id, cons, dependents, r);
      }
    }
    assert !DependsOn(c, id, id);
  }

  /// The index flag

  /** `relhasindex` says whether `rs_index` has a row for the relation; index rows belong to index relations. */
  predicate IndexFlagsOk(c: Catalog) {
    && (forall r <- c.relations :: c.relations[r].hasIndex <==> HasIndex(c.indexes, r))
    && (forall i <- c.indexes :: i in c.relations ==> c.relations[i].kind == Index)
  }

  lemma DeleteKeepsIndexFlag(c: Catalog, id: int, r: int)
    requires IndexFlagsOk(c) && id in c.relations && r in c.relations && r != id
    ensures DeleteRelation(c, id).relations[r].hasIndex <==> HasIndex(DeleteRelation(c, id).indexes, r)
  {
    var d := DeleteRelation(c, id);
    if HasIndex(c.indexes, r) && !HasIndex(d.indexes, r) {
      var i :| i in c.indexes && c.indexes[i] == r;
      assert i !in d.indexes;
    } else if HasIndex(d.indexes, r) {
      var i :| i in d.indexes && d.indexes[i] == r;
      assert c.indexes[i] == r;
    }
  }

  /** Deleting relations one by one keeps the flags right, also when an index goes and its table stays. */
  lemma {:induction false} DeleteKeepsIndexFlags(c: Catalog, ids: seq<int>)
    requires IndexFlagsOk(c)
    ensures IndexFlagsOk(DeleteRelations(c, ids))
    decreases |ids|
  {
    if ids != [] {
      var d := if ids[0] in c.relations then DeleteRelation(c, ids[0]) else c;
      assert IndexFlagsOk(d) by {
        if ids[0] in c.relations {
          RecountedKeys(c.relations - {ids[0]}, d.indexes, TableOfIndex(c, ids[0]));
          forall r <- d.relations
            ensures d.relations[r].hasIndex <==> HasIndex(d.indexes, r)
          {
            DeleteKeepsIndexFlag(c, ids[0], r);
          }
        }
      }
      DeleteKeepsIndexFlags(d, ids[1..]);
    }
  }

  /// The statements

  /** `relispartition`: a partition of a partitioned table is dropped only together with it. */
  predicate IsManaged(c: Catalog, id: int) { exists i :: 0 <= i < |c.partitions| && c.partitions[i].child == id }

  /** `objects` has the relations whose table or view is in DuckDB. */
  class CatalogStore {
    var cat: Catalog
    var objects: set<int>

    ghost predicate Valid()
      reads this
    {
      Integrity(cat) && Shaped(cat) && IndexFlagsOk(cat)
    }

    method DependentRelationOids(id: int) returns (oids: seq<int>)
      ensures forall r :: r in oids <==> DependsOn(cat, r, id)
    {
      oids := [];
      var edges := cat.deps;
      while edges != {}
        invariant edges <= cat.deps
        invariant forall r :: r in oids <==> DependsOn(cat, r, id) && Edge(RelationClass, r, RelationClass, id) !in edges
        decreases |edges|
      {
        var e :| e in edges;
        if e.class_ == RelationClass && e.refClass == RelationClass && e.ref == id {
          oids := oids + [e.obj];
        }
        edges := edges - {e};
      }
    }

    method DependentConstraintOids(id: int) returns (oids: seq<int>)
      ensures forall k :: k in oids <==> ConstraintDependsOn(cat, k, id)
    {
      oids := [];
      var edges := cat.deps;
      while edges != {}
        invariant edges <= cat.deps
        invariant forall k :: k in oids <==> ConstraintDependsOn(cat, k, id) && Edge(ConstraintClass, k, RelationClass, id) !in edges
        decreases |edges|
      {
        var e :| e in edges;
        if e == Edge(ConstraintClass, e.obj, RelationClass, id) && ConstraintDependsOn(cat, e.obj, id) {
          oids := oids + [e.obj];
        }
        edges := edges - {e};
      }
    }

    /** Row deletions in the order the statements run; `rs_vector_index` is cleared while `rs_index` still
        tells which indexes belong to the table. */
    method DeleteRelationCatalog(id: int)
      requires id in cat.relations
      modifies this`cat
      ensures cat == DeleteRelation(old(cat), id) && RowsLeft(old(cat), cat, {id}) && Leaves(old(cat), cat, {id})
    {
      DeleteRowsLeft(cat, id);
      DeleteLeaves(cat, id);
      var meta, table := cat.relations[id], TableOfIndex(cat, id);
      cat := cat.(deps := EdgesWithout(cat.deps, id));
      cat := cat.(columns := cat.columns - {id});
      cat := cat.(constraints := ConstraintsWithout(cat.constraints, id));
      cat := cat.(vectors := VectorsWithout(cat.vectors, cat.indexes, id));
      cat := cat.(indexes := IndexesWithout(cat.indexes, id));
      cat := cat.(entrypoints := cat.entrypoints - {id});
      cat := cat.(partitions := PartitionsWithout(cat.partitions, id));
      cat := cat.(rowTypes := RowTypesWithout(cat.rowTypes, meta.rowType, id));
      cat := cat.(relations := cat.relations - {id});
      if table.Some? && table.value in cat.relations {
        var row := cat.relations[table.value];
        cat := cat.(relations := cat.relations[table.value := row.(hasIndex := HasIndex(cat.indexes, table.value))]);
      }
    }

    method DeleteRelationCatalogs(ids: seq<int>)
      modifies this`cat
      ensures cat == DeleteRelations(old(cat), ids)
    {
      for i := 0 to |ids|
        invariant DeleteRelations(cat, ids[i..]) == DeleteRelations(old(cat), ids)
      {
        SliceTail(ids, i);
        if ids[i] in cat.relations {
          DeleteRelationCatalog(ids[i]);
        }
      }
    }

    /** `drop_relation_dependencies` */
    method DropRelationDependencies(id: int, cascade: bool) returns (ok: bool, ghost cons: seq<int>, ghost dependents: seq<int>)
      modifies this`cat
      ensures Dependents(old(cat), id, cons, dependents)
      ensures ok <==> cascade || (cons == [] && dependents == [])
      ensures ok ==> cat == DeleteRelations(DeleteConstraints(old(cat), cons), dependents)
    {
      var relations := DependentRelationOids(id);
      var constraints := DependentConstraintOids(id);
      cons, dependents := constraints, relations;
      if (relations != [] || constraints != []) && !cascade {
        return false, cons, dependents;
      }
      for i := 0 to |constraints|
        invariant DeleteConstraints(cat, constraints[i..]) == DeleteConstraints(old(cat), constraints)
      {
        SliceTail(constraints, i);
        cat := DeleteConstraint(cat, constraints[i]);
      }
      DeleteRelationCatalogs(relations);
      return true, cons, dependents;
    }

    /** The DROP statements sent to DuckDB, which refuses to drop what it does not have or has `locked`, such as
        a table a foreign key refers to. Its CASCADE reaches no view. */
    method ExecutePhysicalDrops(ids: seq<int>, locked: set<int>) returns (ok: bool)
      requires forall i, j :: 0 <= i < j < |ids| ==> ids[i] != ids[j]
      modifies this`objects
      ensures ok <==> forall i :: 0 <= i < |ids| ==> ids[i] in old(objects) && ids[i] !in locked
      ensures ok ==> forall x :: x in objects <==> x in old(objects) && x !in ids
    {
      for i := 0 to |ids|
        invariant forall j :: 0 <= j < i ==> ids[j] in old(objects) && ids[j] !in locked
        invariant forall x :: x in objects <==> x in old(objects) && x !in ids[..i]
      {
        assert ids[i] !in ids[..i];
        if ids[i] !in objects || ids[i] in locked {
          return false;
        }
        objects := objects - {ids[i]};
        assert ids[..i + 1] == ids[..i] + [ids[i]];
      }
      assert ids[..|ids|] == ids;
      return true;
    }

    /** DROP of one relation: refused, with nothing changed, when it is a managed partition, when something
        depends on it and CASCADE is not given, or when DuckDB cannot drop its objects. Otherwise exactly the
        relation, its direct dependents and its partitions go, and from DuckDB the relation and its partitions. */
    method DropObject(id: int, cascade: bool, locked: set<int>) returns (ok: bool)
      requires Valid() && id in cat.relations
      modifies this
      ensures ok <==> !IsManaged(old(cat), id)
                      && (cascade || forall x :: !DependsOn(old(cat), x, id) && !ConstraintDependsOn(old(cat), x, id))
                      && forall x :: DropsInDuckdb(old(cat), id, x) ==> x in old(objects) && x !in locked
      ensures !ok ==> cat == old(cat) && objects == old(objects)
      ensures ok ==> LeftByDrop(old(cat), cat, id) && forall r <- old(cat.relations) :: r in cat.relations <==> !Goes(old(cat), id, r)
      ensures ok ==> (Integrity(cat) <==> forall con <- old(cat.constraints) :: !OwnsKeyOutside(old(cat), id, con))
      ensures ok ==> forall x :: x in objects <==> x in old(objects) && !DropsInDuckdb(old(cat), id, x)
      ensures ok && Agrees(old(cat), old(objects)) ==>
                (Agrees(cat, objects) <==> forall r <- old(cat.relations) :: DependsOn(old(cat), r, id) ==> old(cat).relations[r].kind == Index)
      ensures ok ==> IndexFlagsOk(cat)
    {
      if IsManaged(cat, id) {
        return false;
      }
      var was, wasObjects := cat, objects;
      ghost var cons, dependents;
      ok, cons, dependents := DropRelationDependencies(id, cascade);
      if !cascade && cons != [] {
        assert cons[0] in cons && ConstraintDependsOn(was, cons[0], id);
      } else if !cascade && dependents != [] {
        assert dependents[0] in dependents && DependsOn(was, dependents[0], id);
      }
      if !ok {
        cat := was;
        return;
      }
      DropsAreThose(was, id, cons, dependents);
      ghost var drops := DuckdbDrops(cat, id);
      ok := ExecutePhysicalDrops(DuckdbDrops(cat, id), locked);
      MembersByIndex(drops, wasObjects, locked);
      if !ok {
        cat, objects := was, wasObjects;
        return;
      }
      DeleteRelationCatalogs(OwnRelations(cat, id));
      if Agrees(was, wasObjects) {
        DropAgreesIff(was, id, cons, dependents, wasObjects, objects);
      }
      DropKeepsIntegrityIff(was, id, cons, dependents);
      DropLeaves(was, id, cons, dependents);
      DropKeepsFlags(was, id, cons, dependents);
      forall r <- was.relations
        ensures r in cat.relations <==> !Goes(was, id, r)
      {
        DropRemoves(was, id, cons, dependents, r);
      }
    }
  }

  lemma MembersByIndex(ids: seq<int>, objects: set<int>, locked: set<int>)
    ensures (forall i :: 0 <= i < |ids| ==> ids[i] in objects && ids[i] !in locked) <==>
            (forall x :: x in ids ==> x in objects && x !in locked)
  {
    if forall x :: x in ids ==> x in objects && x !in locked {
      forall i | 0 <= i < |ids|
        ensures ids[i] in objects && ids[i] !in locked
      {
        assert ids[i] in ids;
      }
    }
  }

  lemma DropsAreThose(c: Catalog, id: int, cons: seq<int>, dependents: seq<int>)
    requires Integrity(c) && Shaped(c) && id in c.relations && Dependents(c, id, cons, dependents) && !IsManaged(c, id)
    ensures var rest := DeleteRelations(DeleteConstraints(c, cons), dependents);
            && id in rest.relations
            && (forall x :: x in DuckdbDrops(rest, id) <==> DropsInDuckdb(c, id, x))
            && forall i, j :: 0 <= i < j < |DuckdbDrops(rest, id)| ==> DuckdbDrops(rest, id)[i] != DuckdbDrops(rest, id)[j]
  {
    var m := DeleteConstraints(c, cons);
    var rest := DeleteRelations(m, dependents);
    forall x
      ensures id in rest.relations && (x in DuckdbDrops(rest, id) <==> DropsInDuckdb(c, id, x))
    {
      DropsAre(c, id, cons, dependents, x);
    }
    IntegrityHasTheRest(c);
    DeleteConstraintsKeeps(c, cons);
    DeleteRelationsKeyed(m, dependents);
    DeleteRelationsLeaves(m, dependents);
    StaysUnmanaged(c, rest, id);
    DropsAreDistinct(rest, id);
  }

  lemma StaysUnmanaged(c: Catalog, d: Catalog, id: int)
    requires !IsManaged(c, id) && forall p <- d.partitions :: p in c.partitions
    ensures !IsManaged(d, id)
  {
    forall i | 0 <= i < |d.partitions|
      ensures d.partitions[i].child != id
    {
      assert d.partitions[i] in c.partitions;
    }
  }

  lemma {:induction false} DeleteConstraintsKeepsFlags(c: Catalog, cons: seq<int>)
    requires IndexFlagsOk(c)
    ensures IndexFlagsOk(DeleteConstraints(c, cons))
    decreases |cons|
  {
    if cons != [] {
      DeleteConstraintsKeepsFlags(DeleteConstraint(c, cons[0]), cons[1..]);
    }
  }

  lemma DropKeepsFlags(c: Catalog, id: int, cons: seq<int>, dependents: seq<int>)
    requires IndexFlagsOk(c)
    ensures IndexFlagsOk(DropGiven(c, id, cons, dependents))
  {
    DeleteConstraintsKeepsFlags(c, cons);
    var rest := DeleteRelations(DeleteConstraints(c, cons), dependents);
    DeleteKeepsIndexFlags(DeleteConstraints(c, cons), dependents);
    DeleteKeepsIndexFlags(rest, OwnRelations(rest, id));
  }
}
