/** New tables: the rows written for a table DuckDB has just created. */
module TableCreation {
  import opened Text
  import opened TableColumns

  /** DuckDB refuses two columns whose names differ only in case. */
  predicate NamesDiffer(cols: seq<DuckColumn>) {
    forall i, j :: 0 <= i < j < |cols| ==> !EqIgnoreCase(cols[i].name, cols[j].name)
  }

  /** `insert_relation_rows`: column `n` of DuckDB becomes the row with attnum `n + 1`. */
  function InsertFrom(ty: Typing, reg: Registry, t: Table, cols: seq<DuckColumn>, n: nat): Option<(Registry, Table)>
    requires n <= |cols|
    decreases |cols| - n
  {
    if n == |cols| then Some((reg, t.(natts := |cols|, phys := cols)))
    else match InsertAttribute(ty, reg, t, cols[n], n + 1)
      case None => None
      case Some((reg1, t1)) => InsertFrom(ty, reg1, t1, cols, n + 1)
  }

  const EMPTY := Table(0, [], map[], [])

  function CreateOn(ty: Typing, reg: Registry, cols: seq<DuckColumn>): Option<(Registry, Table)> {
    if cols == [] || !NamesDiffer(cols) then None
    else match EnsureAll(ty, reg, cols)
      case None => None
      case Some(reg1) => InsertFrom(ty, reg1, EMPTY, cols, 0)
  }

  lemma AlignedOneMore(ty: Typing, types: map<string, int>, t: Table, cols: seq<DuckColumn>, n: nat, t1: Table)
    requires n < |cols| && NamesDiffer(cols) && TypeIdIn(ty, types, cols[n].duckType).Some?
    requires Aligned(ty, types, t.(phys := cols[..n])) && MaxAttnum(t.rows) == n
    requires t1.rows == t.rows + [RowFor(ty, types, cols[n], n + 1)]
    requires t1.defaults == if cols[n].default.Some? then t.defaults[n + 1 := cols[n].default.value] else t.defaults
    ensures Aligned(ty, types, t1.(phys := cols[..n + 1]))
  {
    assert PhysIndex(cols[..n], cols[n].name).None?;
    AlignedAppend(ty, types, t.(phys := cols[..n]), cols[n], n + 1, t1.defaults, t1.natts);
    assert cols[..n + 1] == cols[..n] + [cols[n]];
  }

  lemma OneMoreRow(ty: Typing, reg: Registry, t: Table, cols: seq<DuckColumn>, n: nat)
    requires n < |cols| && NamesDiffer(cols) && RegistryOk(reg) && TypeIdIn(ty, reg.types, cols[n].duckType).Some?
    requires Aligned(ty, reg.types, t.(phys := cols[..n])) && MaxAttnum(t.rows) == n
    requires InsertAttribute(ty, reg, t, cols[n], n + 1).Some?
    ensures var (reg1, t1) := InsertAttribute(ty, reg, t, cols[n], n + 1).value;
            && RegistryOk(reg1) && Grows(reg, reg1) && reg1.types == reg.types
            && Aligned(ty, reg1.types, t1.(phys := cols[..n + 1])) && MaxAttnum(t1.rows) == n + 1
  {
    var (reg1, t1) := InsertAttribute(ty, reg, t, cols[n], n + 1).value;
    InsertAtEnd(ty, reg, t, cols[n], n + 1);
    AlignedOneMore(ty, reg.types, t, cols, n, t1);
    MaxOfAppend(t.rows, RowFor(ty, reg.types, cols[n], n + 1));
  }

  lemma {:induction false} InsertFromAligns(ty: Typing, reg: Registry, t: Table, cols: seq<DuckColumn>, n: nat)
    requires n <= |cols| && NamesDiffer(cols) && RegistryOk(reg) && AllTyped(ty, reg.types, cols)
    requires Aligned(ty, reg.types, t.(phys := cols[..n])) && MaxAttnum(t.rows) == n
    requires InsertFrom(ty, reg, t, cols, n).Some?
    ensures var (reg1, t1) := InsertFrom(ty, reg, t, cols, n).value;
            && RegistryOk(reg1) && Grows(reg, reg1) && TableOk(ty, reg1.types, t1) && t1.phys == cols
            && MaxAttnum(t1.rows) == |cols|
    decreases |cols| - n
  {
    if n == |cols| {
      assert cols[..n] == cols;
    } else {
      var (reg1, t1) := InsertAttribute(ty, reg, t, cols[n], n + 1).value;
      OneMoreRow(ty, reg, t, cols, n);
      InsertFromAligns(ty, reg1, t1, cols, n + 1);
    }
  }

  /** A new table is in step from the start, its columns numbered from 1 without holes. */
  lemma CreateOnIsSound(ty: Typing, reg: Registry, cols: seq<DuckColumn>)
    requires RegistryOk(reg) && CreateOn(ty, reg, cols).Some?
    ensures var (reg1, t1) := CreateOn(ty, reg, cols).value;
            && RegistryOk(reg1) && Grows(reg, reg1) && TableOk(ty, reg1.types, t1) && t1.phys == cols
            && MaxAttnum(t1.rows) == |cols|
  {
    var reg1 := EnsureAll(ty, reg, cols).value;
    EnsureAllGrows(ty, reg, cols);
    assert EMPTY.phys == cols[..0];
    InsertFromAligns(ty, reg1, EMPTY, cols, 0);
  }

  /** The first `n` columns are filed, one row each: name, type id, number, modifier, NOT NULL and default as given. */
  ghost predicate Files(ty: Typing, types: map<string, int>, t: Table, cols: seq<DuckColumn>, n: nat)
    requires n <= |cols|
  {
    && |t.rows| == n
    && (forall k :: 0 <= k < n ==>
          && TypeIdIn(ty, types, cols[k].duckType).Some?
          && t.rows[k] == ColumnRow(cols[k].name, TypeIdIn(ty, types, cols[k].duckType).value, k + 1, ty.modifier(cols[k].duckType),
                                    cols[k].notNull, cols[k].default.Some?, false))
    && (forall a :: a in t.defaults <==> 1 <= a <= n && cols[a - 1].default.Some?)
    && (forall a <- t.defaults :: Some(t.defaults[a]) == cols[a - 1].default)
  }

  lemma FilesOneMore(ty: Typing, reg: Registry, t: Table, cols: seq<DuckColumn>, n: nat)
    requires n < |cols| && Files(ty, reg.types, t, cols, n) && InsertAttribute(ty, reg, t, cols[n], n + 1).Some?
    ensures var (reg1, t1) := InsertAttribute(ty, reg, t, cols[n], n + 1).value;
            reg1.types == reg.types && Files(ty, reg1.types, t1, cols, n + 1)
  {
    if n > 0 {
      assert t.rows[n - 1].attnum == n;
    }
  }

  lemma {:induction false} InsertFromFiles(ty: Typing, reg: Registry, t: Table, cols: seq<DuckColumn>, n: nat)
    requires n <= |cols| && Files(ty, reg.types, t, cols, n) && InsertFrom(ty, reg, t, cols, n).Some?
    ensures var (reg1, t1) := InsertFrom(ty, reg, t, cols, n).value; reg1.types == reg.types && Files(ty, reg1.types, t1, cols, |cols|)
    decreases |cols| - n
  {
    if n < |cols| {
      FilesOneMore(ty, reg, t, cols, n);
      var (reg1, t1) := InsertAttribute(ty, reg, t, cols[n], n + 1).value;
      InsertFromFiles(ty, reg1, t1, cols, n + 1);
    }
  }

  /** A new table's rows are its columns, in order. */
  lemma CreateOnFiles(ty: Typing, reg: Registry, cols: seq<DuckColumn>)
    requires CreateOn(ty, reg, cols).Some?
    ensures var (reg1, t1) := CreateOn(ty, reg, cols).value; Files(ty, reg1.types, t1, cols, |cols|)
  {
    InsertFromFiles(ty, EnsureAll(ty, reg, cols).value, EMPTY, cols, 0);
  }

  /** Attnums have holes but never run behind the number of active columns. */
  lemma {:induction false} ActiveCountIsBelowMax(rows: seq<ColumnRow>)
    requires Ascending(rows)
    ensures |Views(rows)| <= MaxAttnum(rows)
  {
    ActiveAttnumsAscend(rows);
    var a := ActiveAttnums(rows);
    AscendingIsAtLeastIndex(a);
    if a != [] {
      assert a[|a| - 1] >= |a|;
    }
  }

  lemma {:induction false} AscendingIsAtLeastIndex(a: seq<int>)
    requires forall i, j :: 0 <= i < j < |a| ==> a[i] < a[j]
    requires forall i :: 0 <= i < |a| ==> 1 <= a[i]
    ensures forall i :: 0 <= i < |a| ==> a[i] >= i + 1
    decreases |a|
  {
    if a != [] {
      var front := a[..|a| - 1];
      AscendingIsAtLeastIndex(front);
      if |a| > 1 {
        assert front[|a| - 2] == a[|a| - 2];
      }
      forall i | 0 <= i < |a| - 1
        ensures a[i] >= i + 1
      {
        assert front[i] == a[i];
      }
    }
  }
}
