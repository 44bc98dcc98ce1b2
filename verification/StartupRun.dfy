/** Startup validation as the connection carries it out. */
module StartupRun {
  import opened Text
  import opened TableColumns
  import opened PrintedTypes
  import opened Snapshot
  import opened CatalogTables
  import opened Recovery
  import opened StartupFixpoint
  import opened StartupChecks

  /** Only the status of one vector index differs. */
  ghost predicate OnlyStatus(s: State, t: State, index: int) {
    && t == s.(cat := s.cat.(vectors := t.cat.vectors)) && t.cat.vectors.Keys == s.cat.vectors.Keys
    && t.cat.vectors - {index} == s.cat.vectors - {index}
    && (index in s.cat.vectors ==> t.cat.vectors[index] == s.cat.vectors[index].(status := t.cat.vectors[index].status))
  }

  lemma MarkVectorIs(s: State, index: int, status: BuildStatus)
    requires index in s.cat.vectors
    ensures OnlyStatus(s, MarkVector(s, index, status), index) && MarkVector(s, index, status).cat.vectors[index].status == status
  {}

  /** The effects of reconciling one vector index determine it. */
  lemma ReconcileIs(env: Env, s: State, t: State, index: int, ok: bool)
    requires !ok <==> index in s.cat.vectors && s.cat.vectors[index].status == ActiveIndex && env.vss.None?
    requires OnlyStatus(s, t, index)
    requires index in t.cat.vectors ==>
               var was := s.cat.vectors[index].status;
               t.cat.vectors[index].status ==
                 if !ok || VectorSettled(env, s, index) then was else if was == ActiveIndex then Stale else UnavailableIndex
    ensures ok == Reconcile(env, s, index).Some? && (ok ==> t == Reconcile(env, s, index).value)
  {
    if index in t.cat.vectors {
      PutBack(s.cat.vectors, t.cat.vectors, index);
    } else {
      assert t.cat.vectors == t.cat.vectors - {index} && s.cat.vectors == s.cat.vectors - {index};
    }
  }

  lemma RebuildIs(env: Env, s: State, t: State, parent: int, children: seq<int>, sql: string, ok: bool)
    requires !ok ==> t == s
    requires ok ==> parent in t.objects && t.objects[parent].view && parent in t.cat.entrypoints && t.cat.entrypoints[parent] == sql
    requires ok && children != [] ==> UnionColumns(env.ty, ColumnLists(s.objects, children)) == Some(t.objects[parent].cols)
    requires ok && children == [] ==> env.empty(ActiveRows(ColumnsOf(s.cat, parent))) == Some(t.objects[parent].cols)
    requires t == s.(objects := t.objects, cat := s.cat.(entrypoints := t.cat.entrypoints))
    requires t.objects - {parent} == s.objects - {parent} && t.cat.entrypoints - {parent} == s.cat.entrypoints - {parent}
    requires ok <==> Rebuild(env, s, parent, children, sql).Some?
    ensures t == if ok then Rebuild(env, s, parent, children, sql).value else s
  {
    if ok {
      PutBack(s.objects, t.objects, parent);
      PutBack(s.cat.entrypoints, t.cat.entrypoints, parent);
    }
  }

  lemma PutBack<V>(a: map<int, V>, b: map<int, V>, k: int)
    requires k in b && b - {k} == a - {k}
    ensures b == a[k := b[k]]
  {
    forall x | x in b
      ensures x in a[k := b[k]] && a[k := b[k]][x] == b[x]
    {
      assert x != k ==> x in b - {k};
    }
    forall x | x in a
      ensures x in b
    {
      assert x != k ==> x in a - {k};
    }
  }

  lemma RecoverJournalIs(env: Env, s: State, t: State)
    requires |t.journal| == |s.journal| && t == s.(journal := t.journal, stored := t.stored)
    requires forall i :: 0 <= i < |t.journal| ==> t.journal[i] == if s.journal[i] == PendingRow then RecoveredRow else s.journal[i]
    requires if PendingRow in s.journal then t.stored == env.digest(t.cat, t.journal) else t == s
    ensures t == RecoverJournal(env, s)
  {
    if PendingRow in s.journal {
      assert t.journal == Recovered(s.journal);
    }
  }

  class Validator {
    const env: Env
    var s: State

    constructor (env: Env, s: State)
      ensures this.env == env && this.s == s
    {
      this.env, this.s := env, s;
    }

    /** `load_duckdb_columns`: types registered before an unsupported one stay registered. */
    method LoadDuckdbColumns(rel: int) returns (ok: bool)
      requires rel in s.objects
      modifies this
      ensures var loaded := LoadTypes(env.ty, old(s.cat.reg), old(s.objects[rel].cols));
              s == WithReg(old(s), loaded.0) && ok == (loaded.1 && old(s.objects[rel].cols) != [])
    {
      var cols := s.objects[rel].cols;
      for i := 0 to |cols|
        invariant s == WithReg(old(s), s.cat.reg)
        invariant LoadTypes(env.ty, s.cat.reg, cols[i..]) == LoadTypes(env.ty, old(s.cat.reg), cols)
      {
        SliceTail(cols, i);
        var reg := EnsureType(env.ty, s.cat.reg, cols[i].duckType);
        if reg.None? {
          return false;
        }
        EnsureTypeGrows(env.ty, s.cat.reg, cols[i].duckType);
        s := WithReg(s, reg.value);
      }
      return cols != [];
    }

    /** `validate_table_physical` and `validate_view_physical` */
    method ValidatePhysical(rel: int, view: bool) returns (ok: bool)
      modifies this
      ensures s == WithReg(old(s), CheckObject(env.ty, old(s), rel, view).0) && ok == CheckObject(env.ty, old(s), rel, view).1
    {
      if rel !in s.objects || s.objects[rel].view != view {
        return false;
      }
      ok := LoadDuckdbColumns(rel);
      if ok {
        ok := ValidateCatalogColumnsMatchDuckdb(env.ty, s.cat.reg, TextsOf(s.cat.reg), ColumnsOf(s.cat, rel), s.objects[rel].cols);
      }
    }

    /** `validate_index_physical` */
    method ValidateIndexPhysical(index: int) returns (ok: bool)
      ensures ok == IndexPresent(s, index) == IndexInDuckdb(s, index)
    {
      IndexPresentIff(s, index);
      if !OfPartitionedTable(s.cat, index) {
        return (index, index) in s.duckIndexes;
      }
      var children := Children(s, s.cat.indexes[index]);
      for i := 0 to |children|
        invariant forall j :: 0 <= j < i ==> (index, children[j]) in s.duckIndexes
      {
        if (index, children[i]) !in s.duckIndexes {
          var c := children[i];
          assert c in children;
          return false;
        }
      }
      return true;
    }

    /** `reconcile_vector_index_runtime_status`: refused exactly for an active index without the extension.
        Afterwards the index is settled, and only its status was touched: work that was under way becomes
        unavailable, an index of another extension version stale. */
    method ReconcileVectorIndexRuntimeStatus(index: int) returns (ok: bool)
      modifies this
      ensures !ok <==> index in old(s.cat.vectors) && old(s.cat.vectors)[index].status == ActiveIndex && env.vss.None?
      ensures ok ==> VectorSettled(env, s, index)
      ensures ok && index in s.cat.vectors ==>
                var status := s.cat.vectors[index].status;
                && status != Pending && status != Building && status != Rebuilding && status != Compacting
                && (status == ActiveIndex ==> env.vss == Some(s.cat.vectors[index].extension))
      ensures OnlyStatus(old(s), s, index)
      ensures index in s.cat.vectors ==>
                var was := old(s.cat.vectors)[index].status;
                s.cat.vectors[index].status ==
                  if !ok || VectorSettled(env, old(s), index) then was else if was == ActiveIndex then Stale else UnavailableIndex
    {
      if index !in s.cat.vectors {
        return true;
      }
      var v := s.cat.vectors[index];
      if Transient(v.status) {
        MarkVectorIs(s, index, UnavailableIndex);
        s := MarkVector(s, index, UnavailableIndex);
      } else if v.status == ActiveIndex {
        if env.vss.None? {
          return false;
        }
        if env.vss.value != v.extension {
          MarkVectorIs(s, index, Stale);
          s := MarkVector(s, index, Stale);
        }
      }
      return true;
    }

    /** One relation of `validate_physical_relations`. */
    method ValidateOneRelation(rel: int) returns (ok: bool)
      modifies this
      ensures ok == CheckRelation(env, old(s), rel).Some? && (ok ==> s == CheckRelation(env, old(s), rel).value)
    {
      if rel !in s.cat.relations {
        return true;
      }
      var kind, valid := s.cat.relations[rel].kind, true;
      match kind {
        case OrdinaryTable => valid := ValidatePhysical(rel, false);
        case ViewRelation => valid := ValidatePhysical(rel, true);
        case Index => valid := ValidateIndexPhysical(rel);
        case _ =>
      }
      if !valid {
        s := MarkUnavailable(s, rel);
        if kind == Index {
          s := MarkVector(s, rel, UnavailableIndex);
        }
        return true;
      }
      ok := true;
      if kind == Index {
        ghost var was := s;
        ok := ReconcileVectorIndexRuntimeStatus(rel);
        ReconcileIs(env, was, s, rel, ok);
      }
    }

    /** `validate_physical_relations` */
    method ValidatePhysicalRelations() returns (ok: bool)
      modifies this
      ensures var r := CheckRelations(env, old(s), env.listed(ActiveRelations(old(s.cat)))); ok == r.Some? && (ok ==> s == r.value)
    {
      var rels := env.listed(ActiveRelations(s.cat));
      for i := 0 to |rels|
        invariant CheckRelations(env, s, rels[i..]) == CheckRelations(env, old(s), rels)
      {
        SliceTail(rels, i);
        ok := ValidateOneRelation(rels[i]);
        if !ok {
          return false;
        }
      }
      return true;
    }

    /** Stops at the first partition that is not active or does not match. */
    method ValidateChildren(parent: int, children: seq<int>) returns (ok: bool)
      modifies this
      ensures (s, ok) == CheckChildren(env, old(s), parent, children)
      ensures !ok ==> exists k :: 0 <= k < |children| && Blamed(old(s), s, parent, children[k])
    {
      ghost var whole := CheckChildren(env, s, parent, children);
      if !whole.1 {
        ghost var k := FailedChildIsBlamed(env, s, parent, children, whole.0);
      }
      for i := 0 to |children|
        invariant CheckChildren(env, s, parent, children[i..]) == CheckChildren(env, old(s), parent, children)
      {
        SliceTail(children, i);
        var c := children[i];
        if c !in s.cat.relations || s.cat.relations[c].status != Active {
          s := MarkPartitionFailed(s, parent, c);
          return false;
        }
        var valid := ValidatePhysical(c, false);
        if !valid {
          s := MarkUnavailable(s, c);
          s := MarkPartitionFailed(s, parent, c);
          return false;
        }
      }
      return true;
    }

    /** `rebuild_partition_entrypoint`: unless DuckDB rejects the statement, the view exists with the columns
        of its partitions, or of the catalog when there are none, and its SQL is on file; no other object
        and no other entrypoint changes. */
    method RebuildPartitionEntrypoint(parent: int, children: seq<int>, sql: string) returns (ok: bool)
      modifies this
      ensures !ok ==> s == old(s)
      ensures ok ==> parent in s.objects && s.objects[parent].view && parent in s.cat.entrypoints && s.cat.entrypoints[parent] == sql
      ensures ok && children != [] ==> UnionColumns(env.ty, ColumnLists(old(s.objects), children)) == Some(s.objects[parent].cols)
      ensures ok && children == [] ==> env.empty(ActiveRows(ColumnsOf(s.cat, parent))) == Some(s.objects[parent].cols)
      ensures s == old(s).(objects := s.objects, cat := old(s.cat).(entrypoints := s.cat.entrypoints))
      ensures s.objects - {parent} == old(s.objects) - {parent}
      ensures s.cat.entrypoints - {parent} == old(s.cat.entrypoints) - {parent}
      ensures ok <==> Rebuild(env, old(s), parent, children, sql).Some?
    {
      var cols := if children != [] then UnionColumns(env.ty, ColumnLists(s.objects, children)) else env.empty(ActiveRows(ColumnsOf(s.cat, parent)));
      if cols.None? {
        return false;
      }
      s := s.(objects := s.objects[parent := Object(true, cols.value)]);
      s := s.(cat := s.cat.(entrypoints := s.cat.entrypoints[parent := sql]));
      return true;
    }

    method ValidateEntrypoint(parent: int, children: seq<int>) returns (ok: bool)
      requires parent in s.cat.relations
      modifies this
      ensures (s, ok) == CheckEntry(env, old(s), parent, children)
    {
      if parent !in s.cat.entrypoints {
        return false;
      }
      var sql := EntrySql(s.cat, parent, children);
      ok := false;
      if Trim(s.cat.entrypoints[parent]) == sql {
        ok := ValidatePhysical(parent, true);
      }
      if !ok {
        ghost var was := s;
        ok := RebuildPartitionEntrypoint(parent, children, sql);
        RebuildIs(env, was, s, parent, children, sql, ok);
      }
    }

    /** `validate_partitioned_relation` */
    method ValidatePartitionedRelation(parent: int) returns (ok: bool)
      requires parent in s.cat.relations
      modifies this
      ensures (s, ok) == CheckParent(env, old(s), parent)
      ensures ok && WellFormed(old(s)) && IsParent(old(s), parent) ==> SettledAndRead(env, s, parent)
    {
      PassingParentReads(env, s, parent);
      var children := Children(s, parent);
      CheckChildrenKeepsRelations(env, s, parent, children);
      ok := ValidateChildren(parent, children);
      if ok {
        ok := ValidateEntrypoint(parent, children);
      }
      if ok {
        ok := ValidatePhysical(parent, true);
        if ok {
          s := SyncDeps(s, parent, children);
        }
      }
    }

    /** `validate_partitioned_relations` */
    method ValidatePartitionedRelations()
      modifies this
      ensures s == CheckParents(env, old(s), env.listed(ActiveParents(old(s.cat))))
    {
      var parents := env.listed(ActiveParents(s.cat));
      for i := 0 to |parents|
        invariant CheckParents(env, s, parents[i..]) == CheckParents(env, old(s), parents)
      {
        SliceTail(parents, i);
        if parents[i] in s.cat.relations {
          var ok := ValidatePartitionedRelation(parents[i]);
          if !ok {
            s := MarkUnavailable(s, parents[i]);
          }
        }
      }
    }

    /** `validate_catalog_journal_state`: no row stays pending, and if one was, the checksum is current;
        catalog and objects are left alone, as is the whole state if none was pending. */
    method ValidateCatalogJournalState()
      modifies this
      ensures PendingRow !in s.journal && |s.journal| == |old(s.journal)|
      ensures forall i :: 0 <= i < |s.journal| ==>
                s.journal[i] == if old(s.journal)[i] == PendingRow then RecoveredRow else old(s.journal)[i]
      ensures s == old(s).(journal := s.journal, stored := s.stored)
      ensures if PendingRow in old(s.journal) then s.stored == env.digest(s.cat, s.journal) else s == old(s)
    {
      if PendingRow in s.journal {
        s := s.(journal := Recovered(s.journal));
        s := Refresh(env, s);
      }
    }

    /** `validate_after_start`: a start that succeeds leaves a state the next start will not change. */
    method ValidateAfterStart(h: Header) returns (ok: bool)
      modifies this
      ensures ok == Startup(env, h, old(s)).Some? && (ok ==> s == Startup(env, h, old(s)).value)
      ensures ok && EnvOk(env) && WellFormed(old(s)) ==> Settled(env, s) && Startup(env, h, s) == Some(s)
      ensures ok && EnvOk(env) && WellFormed(old(s)) ==> forall p :: EntrypointReads(s, p)
    {
      if !HeaderOk(h) {
        return false;
      }
      ghost var was := s;
      ValidateCatalogJournalState();
      RecoverJournalIs(env, was, s);
      if !Integrity(s.cat) || s.stored != env.digest(s.cat, s.journal) {
        return false;
      }
      ok := ValidatePhysicalRelations();
      if ok {
        ValidatePartitionedRelations();
        s := Refresh(env, s);
        if EnvOk(env) && WellFormed(was) {
          StartupSettles(env, h, was);
          SettledIsFixpoint(env, h, s);
        }
      }
    }
  }
}
