/** The relation-level catalog tables and the referential checks startup makes on them. */
module CatalogTables {
  import opened Text
  import opened TableColumns
  import opened TypeMapping

  /// Rows

  /** pg-style relkind letters: r, v, i, p and anything else. */
  datatype RelKind = OrdinaryTable | ViewRelation | Index | PartitionedTable | OtherRelation

  datatype Status = Active | Unavailable | OtherStatus(text: string)

  /** A row of rs_relation; `rowType` is reltype. */
  datatype Relation = Relation(
    namespace: int, schema: string, name: string, kind: RelKind, status: Status, rowType: int, hasIndex: bool)

  datatype BuildStatus = Pending | Building | ActiveIndex | Rebuilding | Compacting | Stale | Failed | UnavailableIndex | UnknownStatus

  /** A row of rs_vector_index, keyed by the index relation. */
  datatype VectorIndex = VectorIndex(dimension: int, metric: string, status: BuildStatus, extension: string)

  datatype Constraint = Constraint(conrelid: int, confrelid: int)

  datatype PartitionStatus = ActivePartition | FailedPartition | OtherPartition

  datatype PartitionRow = PartitionRow(parent: int, child: int, status: PartitionStatus)

  /** The catalog class an end of a dependency row belongs to. */
  datatype ObjectClass = RelationClass | ConstraintClass | SchemaClass | UnsupportedClass

  datatype Edge = Edge(class_: ObjectClass, obj: int, refClass: ObjectClass, ref: int)

  /** `types` are the registered complex types, `rowTypes` the row types by the relation they belong to,
      `indexes` maps an index relation to its table, `partitions` is in order of partition value, and
      `entrypoints` holds each partitioned table's generated SQL. */
  datatype Catalog = Catalog(
    schemas: set<int>, relations: map<int, Relation>, columns: map<int, seq<ColumnRow>>, reg: SoundRegistry, rowTypes: map<int, int>,
    indexes: map<int, int>, vectors: map<int, VectorIndex>, constraints: map<int, Constraint>, deps: set<Edge>,
    partitions: seq<PartitionRow>, entrypoints: map<int, string>)

  /// `validate_catalog_integrity`, check by check

  predicate SchemasExist(c: Catalog) { forall r <- c.relations :: c.relations[r].namespace in c.schemas }

  predicate ColumnsHaveRelations(c: Catalog) { forall r <- c.columns :: c.columns[r] != [] ==> r in c.relations }

  /** A type row is a built-in type, a registered one or a relation's row type. */
  predicate TypeExists(reg: Registry, rowTypes: map<int, int>, id: int) {
    TYPE_BOOL <= id <= TYPE_NUMERIC || id in rowTypes || exists t <- reg.types :: reg.types[t] == id
  }

  predicate RowsTyped(reg: Registry, rowTypes: map<int, int>, rows: seq<ColumnRow>) {
    forall i :: 0 <= i < |rows| ==> TypeExists(reg, rowTypes, rows[i].typeId)
  }

  predicate ColumnsHaveTypes(c: Catalog) { forall r <- c.columns :: RowsTyped(c.reg, c.rowTypes, c.columns[r]) }

  predicate VectorsHaveIndexes(c: Catalog) { forall v <- c.vectors :: v in c.indexes }

  predicate VectorOk(v: VectorIndex) {
    v.dimension > 0 && v.metric in ["cosine", "l2sq", "ip"] && v.status != UnknownStatus
  }

  predicate VectorsOk(c: Catalog) { forall v <- c.vectors :: VectorOk(c.vectors[v]) }

  predicate SameName(a: Relation, b: Relation) {
    a.status == Active && b.status == Active && a.namespace == b.namespace && EqIgnoreCase(a.name, b.name)
  }

  predicate ActiveNamesUnique(c: Catalog) {
    forall a <- c.relations, b <- c.relations :: a != b ==> !SameName(c.relations[a], c.relations[b])
  }

  predicate EndExists(c: Catalog, class_: ObjectClass, id: int) {
    match class_
    case RelationClass => id in c.relations
    case ConstraintClass => id in c.constraints
    case SchemaClass => id in c.schemas
    case UnsupportedClass => false
  }

  /** Both ends of a dependency row are of a known class and exist there. */
  predicate EdgeOk(c: Catalog, e: Edge) { EndExists(c, e.class_, e.obj) && EndExists(c, e.refClass, e.ref) }

  predicate EdgesOk(c: Catalog) { forall e <- c.deps :: EdgeOk(c, e) }

  predicate Integrity(c: Catalog) {
    && SchemasExist(c) && ColumnsHaveRelations(c) && ColumnsHaveTypes(c) && VectorsHaveIndexes(c) && VectorsOk(c)
    && ActiveNamesUnique(c) && EdgesOk(c)
  }
}
