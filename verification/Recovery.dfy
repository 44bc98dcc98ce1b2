/** Startup validation: src/catalog/recovery.rs. */
module Recovery {
  import opened Text
  import opened TableColumns
  import opened TypeMapping
  import opened PrintedTypes
  import opened Snapshot
  import opened CatalogTables

  /// The state at startup

  datatype JournalStatus = PendingRow | AppliedRow | RecoveredRow

  /** A DuckDB table or view. */
  datatype Object = Object(view: bool, cols: seq<DuckColumn>)

  /** `objects` are DuckDB's tables and views by relation, `duckIndexes` its indexes: a partitioned table's
      index has one on every partition, (index, partition); any other is (index, index). */
  datatype State = State(cat: Catalog, journal: seq<JournalStatus>, stored: int, objects: map<int, Object>, duckIndexes: set<(int, int)>)

  /** What startup is given: how types are read, the checksum of catalog and journal, the columns DuckDB
      gives an empty view of catalog columns, the loaded VSS version, and the order in which a query lists a
      set of relations. */
  datatype Env = Env(
    ty: Typing, digest: (Catalog, seq<JournalStatus>) -> int,
    empty: seq<ColumnRow> -> Option<seq<DuckColumn>>, vss: Option<string>, listed: set<int> -> seq<int>)

  /** A query lists exactly the relations asked for. */
  ghost predicate EnvOk(env: Env) {
    && (forall s, x :: x in s ==> x in env.listed(s))
    && (forall s, i :: 0 <= i < |env.listed(s)| ==> env.listed(s)[i] in s)
  }

  /** The version row of the catalog. */
  datatype Header = Header(schemaVersion: int, snapshotFormat: int, status: string)

  const CATALOG_VERSION := 2
  const SNAPSHOT_FORMAT_VERSION := 3

  predicate HeaderOk(h: Header) {
    h.schemaVersion == CATALOG_VERSION && h.snapshotFormat == SNAPSHOT_FORMAT_VERSION && h.status == "ready"
  }

  /// Single updates

  function WithReg(s: State, reg: SoundRegistry): State { s.(cat := s.cat.(reg := reg)) }

  /** `mark_relation_unavailable` */
  function MarkUnavailable(s: State, rel: int): State {
    if rel !in s.cat.relations then s
    else s.(cat := s.cat.(relations := s.cat.relations[rel := s.cat.relations[rel].(status := Unavailable)]))
  }

  /** `mark_vector_index_recovery_status` */
  function MarkVector(s: State, index: int, status: BuildStatus): State {
    if index !in s.cat.vectors then s
    else s.(cat := s.cat.(vectors := s.cat.vectors[index := s.cat.vectors[index].(status := status)]))
  }

  function FailedRow(p: PartitionRow, parent: int, child: int): PartitionRow {
    if p.parent == parent && p.child == child then p.(status := FailedPartition) else p
  }

  function FailedRows(rows: seq<PartitionRow>, parent: int, child: int): (r: seq<PartitionRow>)
    ensures |r| == |rows| && forall i :: 0 <= i < |rows| ==> r[i] == FailedRow(rows[i], parent, child)
  {
    seq(|rows|, i requires 0 <= i < |rows| => FailedRow(rows[i], parent, child))
  }

  /** `mark_partition_failed` */
  function MarkPartitionFailed(s: State, parent: int, child: int): State {
    s.(cat := s.cat.(partitions := FailedRows(s.cat.partitions, parent, child)))
  }

  /// Checking one DuckDB object against its catalog columns

  /** `load_duckdb_columns`: registers complex types until one is not supported. */
  function LoadTypes(ty: Typing, reg: SoundRegistry, cols: seq<DuckColumn>): (r: (SoundRegistry, bool))
    ensures Grows(reg, r.0)
    ensures r.1 ==> AllTyped(ty, r.0.types, cols)
    decreases |cols|
  {
    if cols == [] then (reg, true)
    else match EnsureType(ty, reg, cols[0].duckType)
      case None => (reg, false)
      case Some(next) =>
        EnsureTypeGrows(ty, reg, cols[0].duckType);
        var r := LoadTypes(ty, next, cols[1..]);
        assert cols == [cols[0]] + cols[1..];
        r
  }

  function ColumnsOf(c: Catalog, rel: int): seq<ColumnRow> { if rel in c.columns then c.columns[rel] else [] }

  /** `validate_table_physical` and `validate_view_physical` */
  function CheckObject(ty: Typing, s: State, rel: int, view: bool): (r: (SoundRegistry, bool))
    ensures Grows(s.cat.reg, r.0)
  {
    if rel !in s.objects || s.objects[rel].view != view then (s.cat.reg, false)
    else
      var cols := s.objects[rel].cols;
      var loaded := LoadTypes(ty, s.cat.reg, cols);
      (loaded.0, loaded.1 && cols != [] && CatalogMatches(ty, loaded.0, TextsOf(loaded.0), ColumnsOf(s.cat, rel), cols))
  }

  /// Indexes

  /** `active_partition_children`: partitions marked active, whatever the state of the child relation. */
  function ActiveChildren(c: Catalog, rows: seq<PartitionRow>, parent: int): seq<int> {
    if rows == [] then []
    else
      var p := rows[0];
      (if p.parent == parent && p.status == ActivePartition && p.child in c.relations then [p.child] else []) + ActiveChildren(c, rows[1..], parent)
  }

  function Children(s: State, parent: int): seq<int> { ActiveChildren(s.cat, s.cat.partitions, parent) }

  predicate OfPartitionedTable(c: Catalog, index: int) {
    index in c.indexes && c.indexes[index] in c.relations && c.relations[c.indexes[index]].kind == PartitionedTable
  }

  /** `validate_index_physical` */
  predicate IndexPresent(s: State, index: int) {
    if OfPartitionedTable(s.cat, index)
    then forall c <- Children(s, s.cat.indexes[index]) :: (index, c) in s.duckIndexes
    else (index, index) in s.duckIndexes
  }

  predicate Transient(b: BuildStatus) { b == Pending || b == Building || b == Rebuilding || b == Compacting }

  /** `reconcile_vector_index_runtime_status`; startup fails when an active vector index exists and the
      extension is not loaded. */
  function Reconcile(env: Env, s: State, index: int): Option<State> {
    if index !in s.cat.vectors then Some(s)
    else
      var v := s.cat.vectors[index];
      if Transient(v.status) then Some(MarkVector(s, index, UnavailableIndex))
      else if v.status != ActiveIndex then Some(s)
      else if env.vss.None? then None
      else if env.vss.value != v.extension then Some(MarkVector(s, index, Stale))
      else Some(s)
  }

  /// `validate_physical_relations`

  function CheckTable(env: Env, s: State, rel: int, view: bool): State {
    var (reg, ok) := CheckObject(env.ty, s, rel, view);
    if ok then WithReg(s, reg) else MarkUnavailable(WithReg(s, reg), rel)
  }

  function CheckIndex(env: Env, s: State, rel: int): Option<State> {
    if IndexPresent(s, rel) then Reconcile(env, s, rel)
    else Some(MarkVector(MarkUnavailable(s, rel), rel, UnavailableIndex))
  }

  function CheckRelation(env: Env, s: State, rel: int): Option<State> {
    if rel !in s.cat.relations then Some(s)
    else match s.cat.relations[rel].kind
      case OrdinaryTable => Some(CheckTable(env, s, rel, false))
      case ViewRelation => Some(CheckTable(env, s, rel, true))
      case Index => CheckIndex(env, s, rel)
      case _ => Some(s)
  }

  function CheckRelations(env: Env, s: State, rels: seq<int>): Option<State>
    decreases |rels|
  {
    if rels == [] then Some(s)
    else match CheckRelation(env, s, rels[0])
      case None => None
      case Some(next) => CheckRelations(env, next, rels[1..])
  }

  /// `validate_partitioned_relation`

  function Qualified(r: Relation): string { QuoteIdent(r.schema) + "." + QuoteIdent(r.name) }

  function UnionSql(c: Catalog, children: seq<int>): string {
    if children == [] then ""
    else
      (if children[0] in c.relations then "SELECT * FROM " + Qualified(c.relations[children[0]]) else "")
      + (if |children| == 1 then "" else " UNION ALL ") + UnionSql(c, children[1..])
  }

  function EmptySql(texts: map<int, string>, rows: seq<ColumnRow>): string {
    if rows == [] then ""
    else
      "CAST(NULL AS " + (if rows[0].typeId in texts then TypeWithModifier(texts[rows[0].typeId], rows[0].typmod) else "")
      + ") AS " + QuoteIdent(rows[0].name) + (if |rows| == 1 then "" else ", ") + EmptySql(texts, rows[1..])
  }

  /** The statement that defines a partitioned table's entrypoint view. */
  function EntrySql(c: Catalog, parent: int, children: seq<int>): string
    requires parent in c.relations
  {
    "CREATE OR REPLACE VIEW " + Qualified(c.relations[parent]) + " AS "
    + (if children != [] then UnionSql(c, children)
       else "SELECT " + EmptySql(TextsOf(c.reg), ActiveRows(ColumnsOf(c, parent))) + " WHERE FALSE")
  }

  function ColumnLists(objects: map<int, Object>, rels: seq<int>): (r: seq<seq<DuckColumn>>)
    ensures |r| == |rels| && forall i :: 0 <= i < |rels| && rels[i] in objects ==> r[i] == objects[rels[i]].cols
  {
    if rels == [] then []
    else [if rels[0] in objects then objects[rels[0]].cols else []] + ColumnLists(objects, rels[1..])
  }

  /** `rebuild_partition_entrypoint` */
  function Rebuild(env: Env, s: State, parent: int, children: seq<int>, sql: string): Option<State> {
    var cols := if children != [] then UnionColumns(env.ty, ColumnLists(s.objects, children)) else env.empty(ActiveRows(ColumnsOf(s.cat, parent)));
    if cols.None? then None
    else Some(s.(objects := s.objects[parent := Object(true, cols.value)],
                 cat := s.cat.(entrypoints := s.cat.entrypoints[parent := sql])))
  }

  /** Stops at the first bad partition. */
  function CheckChildren(env: Env, s: State, parent: int, children: seq<int>): (State, bool)
    decreases |children|
  {
    if children == [] then (s, true)
    else
      var c := children[0];
      if c !in s.cat.relations || s.cat.relations[c].status != Active then (MarkPartitionFailed(s, parent, c), false)
      else
        var (reg, ok) := CheckObject(env.ty, s, c, false);
        if ok then CheckChildren(env, WithReg(s, reg), parent, children[1..])
        else (MarkPartitionFailed(MarkUnavailable(WithReg(s, reg), c), parent, c), false)
  }

  predicate IsPartitionEdge(e: Edge, parent: int) { e.class_ == RelationClass && e.obj == parent && e.refClass == RelationClass }

  function SyncEdges(deps: set<Edge>, parent: int, children: seq<int>): (r: set<Edge>)
    ensures forall e :: e in r <==> if IsPartitionEdge(e, parent) then e.ref in children else e in deps
  {
    (set e | e in deps && !IsPartitionEdge(e, parent) :: e)
    + (set c | c in children :: Edge(RelationClass, parent, RelationClass, c))
  }

  /** `sync_partition_dependencies` */
  function SyncDeps(s: State, parent: int, children: seq<int>): State {
    s.(cat := s.cat.(deps := SyncEdges(s.cat.deps, parent, children)))
  }

  /** Rebuilds the entrypoint when its SQL or its columns are not as expected. */
  function CheckEntry(env: Env, s: State, parent: int, children: seq<int>): (State, bool)
    requires parent in s.cat.relations
  {
    if parent !in s.cat.entrypoints then (s, false)
    else
      var sql := EntrySql(s.cat, parent, children);
      var (reg, ok) := CheckObject(env.ty, s, parent, true);
      var keep := Trim(s.cat.entrypoints[parent]) == sql;
      var s1 := if keep then WithReg(s, reg) else s;
      if keep && ok then (s1, true)
      else
        var r := Rebuild(env, s1, parent, children, sql);
        if r.None? then (s1, false) else (r.value, true)
  }

  function FinishParent(env: Env, s: State, parent: int, children: seq<int>): (State, bool) {
    var (reg, ok) := CheckObject(env.ty, s, parent, true);
    var s1 := WithReg(s, reg);
    if ok then (SyncDeps(s1, parent, children), true) else (s1, false)
  }

  lemma {:induction false} CheckChildrenKeepsRelations(env: Env, s: State, parent: int, children: seq<int>)
    ensures CheckChildren(env, s, parent, children).0.cat.relations.Keys == s.cat.relations.Keys
    decreases |children|
  {
    if children != [] {
      var c := children[0];
      if c in s.cat.relations && s.cat.relations[c].status == Active {
        var (reg, ok) := CheckObject(env.ty, s, c, false);
        CheckChildrenKeepsRelations(env, WithReg(s, reg), parent, children[1..]);
      }
    }
  }

  function CheckParent(env: Env, s: State, parent: int): (State, bool)
    requires parent in s.cat.relations
  {
    var children := Children(s, parent);
    var (s1, ok1) := CheckChildren(env, s, parent, children);
    CheckChildrenKeepsRelations(env, s, parent, children);
    if !ok1 then (s1, false)
    else
      var (s2, ok2) := CheckEntry(env, s1, parent, children);
      if !ok2 then (s2, false) else FinishParent(env, s2, parent, children)
  }

  function ValidateParent(env: Env, s: State, parent: int): State {
    if parent !in s.cat.relations then s
    else
      var (s1, ok) := CheckParent(env, s, parent);
      if ok then s1 else MarkUnavailable(s1, parent)
  }

  /** `validate_partitioned_relations` */
  function CheckParents(env: Env, s: State, parents: seq<int>): State
    decreases |parents|
  {
    if parents == [] then s else CheckParents(env, ValidateParent(env, s, parents[0]), parents[1..])
  }

  /// Startup

  predicate Checked(kind: RelKind) { kind == OrdinaryTable || kind == ViewRelation || kind == Index }

  function ActiveRelations(c: Catalog): set<int> {
    set r | r in c.relations && c.relations[r].status == Active && Checked(c.relations[r].kind) :: r
  }

  function ActiveParents(c: Catalog): set<int> {
    set r | r in c.relations && c.relations[r].status == Active && c.relations[r].kind == PartitionedTable :: r
  }

  function Recovered(journal: seq<JournalStatus>): (r: seq<JournalStatus>)
    ensures |r| == |journal|
    ensures forall i :: 0 <= i < |journal| ==> r[i] == if journal[i] == PendingRow then RecoveredRow else journal[i]
  {
    seq(|journal|, i requires 0 <= i < |journal| => if journal[i] == PendingRow then RecoveredRow else journal[i])
  }

  function Refresh(env: Env, s: State): State { s.(stored := env.digest(s.cat, s.journal)) }

  /** `validate_catalog_journal_state`: pending rows become failed and the checksum is taken anew. */
  function RecoverJournal(env: Env, s: State): State {
    if PendingRow in s.journal then Refresh(env, s.(journal := Recovered(s.journal))) else s
  }

  /** The phases after the checksum was found current. */
  function Reconciled(env: Env, s: State): Option<State> {
    match CheckRelations(env, s, env.listed(ActiveRelations(s.cat)))
    case None => None
    case Some(s2) => Some(Refresh(env, CheckParents(env, s2, env.listed(ActiveParents(s2.cat)))))
  }

  /** `validate_after_start` on an existing catalog; `None` is a start that fails. */
  function Startup(env: Env, h: Header, s: State): Option<State> {
    if !HeaderOk(h) then None
    else
      var s1 := RecoverJournal(env, s);
      if !Integrity(s1.cat) || s1.stored != env.digest(s1.cat, s1.journal) then None else Reconciled(env, s1)
  }
}
