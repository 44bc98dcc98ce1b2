/** What the checks startup makes come to, spelled out. */
module StartupChecks {
  import opened Text
  import opened TableColumns
  import opened TypeMapping
  import opened PrintedTypes
  import opened Snapshot
  import opened CatalogTables
  import opened Recovery
  import opened EntrypointSql

  /// Integrity

  /** A row that breaks the catalog: a relation without schema, columns without relation, a column without type, a
      vector index without index row, of no dimension, an unknown metric or status, two active relations of one
      name in one schema, or a dependency row with an end that does not exist. */
  ghost predicate Broken(c: Catalog) {
    || (exists r <- c.relations :: c.relations[r].namespace !in c.schemas)
    || (exists r <- c.columns :: c.columns[r] != [] && r !in c.relations)
    || (exists r, i :: r in c.columns && 0 <= i < |c.columns[r]| && Untyped(c, c.columns[r][i].typeId))
    || (exists v <- c.vectors :: v !in c.indexes)
    || (exists v <- c.vectors :: c.vectors[v].dimension <= 0 || c.vectors[v].status == UnknownStatus)
    || (exists v <- c.vectors :: c.vectors[v].metric != "cosine" && c.vectors[v].metric != "l2sq" && c.vectors[v].metric != "ip")
    || (exists a, b :: a in c.relations && b in c.relations && a != b && Clash(c.relations[a], c.relations[b]))
    || (exists e <- c.deps :: Dangling(c, e.class_, e.obj) || Dangling(c, e.refClass, e.ref))
  }

  ghost predicate Untyped(c: Catalog, id: int) {
    && !(TYPE_BOOL <= id <= TYPE_NUMERIC) && id !in c.rowTypes
    && forall t :: t in c.reg.types ==> c.reg.types[t] != id
  }

  ghost predicate Clash(a: Relation, b: Relation) {
    a.status == Active && b.status == Active && a.namespace == b.namespace && Lower(a.name) == Lower(b.name)
  }

  ghost predicate Dangling(c: Catalog, class_: ObjectClass, id: int) {
    || class_ == UnsupportedClass
    || (class_ == RelationClass && id !in c.relations)
    || (class_ == ConstraintClass && id !in c.constraints)
    || (class_ == SchemaClass && id !in c.schemas)
  }

  lemma UntypedIff(c: Catalog, id: int)
    ensures Untyped(c, id) <==> !TypeExists(c.reg, c.rowTypes, id)
  {}

  lemma ColumnsTypedIff(c: Catalog)
    ensures ColumnsHaveTypes(c) <==> !exists r, i :: r in c.columns && 0 <= i < |c.columns[r]| && Untyped(c, c.columns[r][i].typeId)
  {
    forall id
      ensures Untyped(c, id) <==> !TypeExists(c.reg, c.rowTypes, id)
    {
      UntypedIff(c, id);
    }
    if !ColumnsHaveTypes(c) {
      var r :| r in c.columns && !RowsTyped(c.reg, c.rowTypes, c.columns[r]);
      var i :| 0 <= i < |c.columns[r]| && !TypeExists(c.reg, c.rowTypes, c.columns[r][i].typeId);
      assert Untyped(c, c.columns[r][i].typeId);
    }
    if ColumnsHaveTypes(c) {
      forall r, i | r in c.columns && 0 <= i < |c.columns[r]|
        ensures !Untyped(c, c.columns[r][i].typeId)
      {
        assert RowsTyped(c.reg, c.rowTypes, c.columns[r]);
      }
    }
  }

  lemma EdgesOkIff(c: Catalog)
    ensures EdgesOk(c) <==> forall e <- c.deps :: !Dangling(c, e.class_, e.obj) && !Dangling(c, e.refClass, e.ref)
  {
    assert forall class_, id :: Dangling(c, class_, id) <==> !EndExists(c, class_, id);
    assert forall e :: EdgeOk(c, e) <==> !Dangling(c, e.class_, e.obj) && !Dangling(c, e.refClass, e.ref);
  }

  lemma NamesUniqueIff(c: Catalog)
    ensures ActiveNamesUnique(c) <==> !exists a, b :: a in c.relations && b in c.relations && a != b && Clash(c.relations[a], c.relations[b])
  {
    if !ActiveNamesUnique(c) {
      var a, b :| a in c.relations && b in c.relations && a != b && SameName(c.relations[a], c.relations[b]);
      assert Clash(c.relations[a], c.relations[b]);
    }
    if a, b :| a in c.relations && b in c.relations && a != b && Clash(c.relations[a], c.relations[b]) {
      assert SameName(c.relations[a], c.relations[b]);
    }
  }

  /** Integrity fails exactly when some row breaks the catalog. */
  lemma IntegrityFailsIff(c: Catalog)
    ensures !Integrity(c) <==> Broken(c)
  {
    ColumnsTypedIff(c);
    EdgesOkIff(c);
    NamesUniqueIff(c);
    assert VectorsOk(c) <==> forall v <- c.vectors ::
        c.vectors[v].dimension > 0 && c.vectors[v].status != UnknownStatus
        && (c.vectors[v].metric == "cosine" || c.vectors[v].metric == "l2sq" || c.vectors[v].metric == "ip");
  }

  /// One DuckDB object

  /** The columns the catalog files for the relation are those DuckDB shows, in order: names up to case, the type's id
      and its printed text up to case. */
  ghost predicate ColumnsAgree(ty: Typing, reg: SoundRegistry, rows: seq<ColumnRow>, cols: seq<DuckColumn>) {
    && |rows| == |cols|
    && forall k :: 0 <= k < |cols| ==>
         && Lower(rows[k].name) == Lower(cols[k].name)
         && TypeIdIn(ty, reg.types, cols[k].duckType) == Some(rows[k].typeId)
         && rows[k].typeId in TextsOf(reg)
         && Lower(TypeWithModifier(TextsOf(reg)[rows[k].typeId], rows[k].typmod)) == Lower(cols[k].duckType)
  }

  lemma {:induction false} LoadsAllIff(ty: Typing, reg: SoundRegistry, cols: seq<DuckColumn>)
    ensures LoadTypes(ty, reg, cols).1 <==> AllLoad(ty, cols)
    decreases |cols|
  {
    if cols != [] {
      assert cols == [cols[0]] + cols[1..];
      if EnsureType(ty, reg, cols[0].duckType).Some? {
        EnsureTypeGrows(ty, reg, cols[0].duckType);
        LoadsAllIff(ty, EnsureType(ty, reg, cols[0].duckType).value, cols[1..]);
      }
    }
  }

  /** A relation passes exactly when DuckDB has an object of the right kind, with columns whose types all load and
      which agree with the catalog. */
  lemma ObjectPassesIff(ty: Typing, s: State, rel: int, view: bool)
    ensures CheckObject(ty, s, rel, view).1 <==>
            && rel in s.objects && s.objects[rel].view == view && s.objects[rel].cols != [] && AllLoad(ty, s.objects[rel].cols)
            && ColumnsAgree(ty, CheckObject(ty, s, rel, view).0, ActiveRows(ColumnsOf(s.cat, rel)), s.objects[rel].cols)
  {
    if rel in s.objects && s.objects[rel].view == view {
      LoadsAllIff(ty, s.cat.reg, s.objects[rel].cols);
      MatchesIffAgree(ty, LoadTypes(ty, s.cat.reg, s.objects[rel].cols).0, ColumnsOf(s.cat, rel), s.objects[rel].cols);
    }
  }

  lemma MatchesIffAgree(ty: Typing, reg: SoundRegistry, rows: seq<ColumnRow>, cols: seq<DuckColumn>)
    ensures CatalogMatches(ty, reg, TextsOf(reg), rows, cols) <==> ColumnsAgree(ty, reg, ActiveRows(rows), cols)
  {}

  /// Indexes

  /** An ordinary index is in DuckDB; an index of a partitioned table is there on every active partition. */
  ghost predicate IndexInDuckdb(s: State, index: int) {
    if index in s.cat.indexes && s.cat.indexes[index] in s.cat.relations && s.cat.relations[s.cat.indexes[index]].kind == PartitionedTable
    then forall i :: 0 <= i < |s.cat.partitions| && IsActive(s.cat, s.cat.indexes[index], s.cat.partitions[i]) ==>
           (index, s.cat.partitions[i].child) in s.duckIndexes
    else (index, index) in s.duckIndexes
  }

  lemma {:induction false} ActiveChildrenHas(c: Catalog, rows: seq<PartitionRow>, parent: int, x: int)
    ensures x in ActiveChildren(c, rows, parent) <==> exists i :: 0 <= i < |rows| && IsActive(c, parent, rows[i]) && rows[i].child == x
  {
    if rows != [] {
      ActiveChildrenHas(c, rows[1..], parent, x);
      if x in ActiveChildren(c, rows[1..], parent) {
        var i :| 0 <= i < |rows[1..]| && IsActive(c, parent, rows[1..][i]) && rows[1..][i].child == x;
        assert rows[i + 1] == rows[1..][i];
      }
      if i :| 0 <= i < |rows| && IsActive(c, parent, rows[i]) && rows[i].child == x {
        assert i > 0 ==> rows[1..][i - 1] == rows[i];
      }
    }
  }

  lemma IndexPresentIff(s: State, index: int)
    ensures IndexPresent(s, index) <==> IndexInDuckdb(s, index)
  {
    if OfPartitionedTable(s.cat, index) {
      var parent := s.cat.indexes[index];
      forall x
        ensures x in Children(s, parent) <==>
                exists i :: 0 <= i < |s.cat.partitions| && IsActive(s.cat, parent, s.cat.partitions[i]) && s.cat.partitions[i].child == x
      {
        ActiveChildrenHas(s.cat, s.cat.partitions, parent, x);
      }
      if IndexPresent(s, index) {
        forall i | 0 <= i < |s.cat.partitions| && IsActive(s.cat, parent, s.cat.partitions[i])
          ensures (index, s.cat.partitions[i].child) in s.duckIndexes
        {
          assert s.cat.partitions[i].child in Children(s, parent);
        }
      }
    }
  }
}
