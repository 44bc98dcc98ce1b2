/** Saving tables to a snapshot and restoring them: src/db/snapshot.rs. */
module Snapshot {
  import opened Text
  import opened Oids
  import opened TableColumns
  import opened TypeMapping
  import opened PrintedTypes

  /// Data

  datatype Value = Null | Value(text: string)

  /** A DuckDB table: columns by position, and rows of values in the same positions. */
  datatype Physical = Physical(cols: seq<DuckColumn>, data: seq<seq<Value>>)

  /** A Parquet file: named, typed columns and rows by position. */
  datatype Parquet = Parquet(cols: seq<(string, string)>, data: seq<seq<Value>>)

  /** `cast(from, to, v)`: the conversion an INSERT makes. */
  type Cast = (string, string, Value) -> Option<Value>

  /** Values of equal types are not converted. */
  ghost predicate CastOk(cast: Cast) { forall t, v :: cast(t, t, v) == Some(v) }

  /// Save

  /** `COPY table TO file` */
  function Export(t: Physical): Parquet {
    Parquet(seq(|t.cols|, k requires 0 <= k < |t.cols| => (t.cols[k].name, t.cols[k].duckType)), t.data)
  }

  /// Restore: repairing modifiers written before DECIMAL columns had one

  predicate IsLegacy(r: ColumnRow) { !r.dropped && r.typeId == TYPE_NUMERIC && r.typmod == -1 }

  predicate AnyLegacy(rows: seq<ColumnRow>) { exists i :: 0 <= i < |rows| && IsLegacy(rows[i]) }

  /** One active column against the Parquet column in the same place. */
  function RepairColumn(r: ColumnRow, file: (string, string)): Option<ColumnRow> {
    var modifier := TypeModifier(file.1);
    if !EqIgnoreCase(r.name, file.0) then None
    else if r.typeId != TYPE_NUMERIC then Some(r)
    else if modifier < 0 then None
    else if r.typmod == -1 then Some(r.(typmod := modifier))
    else if EqIgnoreCase(TypeWithModifier("DECIMAL", r.typmod), file.1) then Some(r)
    else None
  }

  function RepairAll(rows: seq<ColumnRow>, files: seq<(string, string)>): Option<seq<ColumnRow>>
    decreases |rows|
  {
    if rows == [] then (if files == [] then Some([]) else None)
    else if rows[0].dropped then
      var rest := RepairAll(rows[1..], files);
      if rest.None? then None else Some([rows[0]] + rest.value)
    else if files == [] then None
    else
      var head, rest := RepairColumn(rows[0], files[0]), RepairAll(rows[1..], files[1..]);
      if head.None? || rest.None? then None else Some([head.value] + rest.value)
  }

  /** `repair_legacy_decimal_modifiers_from_parquet`: the file is only looked at when a legacy column exists. */
  function Repair(rows: seq<ColumnRow>, files: seq<(string, string)>): Option<seq<ColumnRow>> {
    if AnyLegacy(rows) then RepairAll(rows, files) else Some(rows)
  }

  /// Restore: table definition and data

  /** The type text `rs_type` and the modifier give for a column. */
  function CatalogType(texts: map<int, string>, r: ColumnRow): Option<string> {
    if r.typeId in texts then Some(TypeWithModifier(texts[r.typeId], r.typmod)) else None
  }

  /** One column definition of the CREATE TABLE statement: name, type, NOT NULL, and nothing else. */
  function Definition(texts: map<int, string>, r: ColumnRow): Option<DuckColumn> {
    if r.typeId !in texts || !IsValidModifier(texts[r.typeId], r.typmod) then None
    else Some(DuckColumn(r.name, TypeWithModifier(texts[r.typeId], r.typmod), r.notNull, None))
  }

  function Definitions(texts: map<int, string>, rows: seq<ColumnRow>): Option<seq<DuckColumn>> {
    if rows == [] then Some([])
    else
      var rest := Definitions(texts, rows[1..]);
      if rows[0].dropped then rest
      else
        var head := Definition(texts, rows[0]);
        if head.None? || rest.None? then None else Some([head.value] + rest.value)
  }

  function Printed(defs: seq<DuckColumn>): (r: seq<DuckColumn>)
    ensures |r| == |defs|
    ensures forall k :: 0 <= k < |defs| ==> r[k] == defs[k].(duckType := DuckReports(defs[k].duckType))
  {
    seq(|defs|, k requires 0 <= k < |defs| => defs[k].(duckType := DuckReports(defs[k].duckType)))
  }

  /** DuckDB creates the table and reports its columns. */
  function Created(defs: seq<DuckColumn>): (r: Option<seq<DuckColumn>>)
    ensures r.Some? ==> |r.value| == |defs|
  {
    if defs == [] || exists i, j :: 0 <= i < j < |defs| && EqIgnoreCase(defs[i].name, defs[j].name) then None
    else Some(Printed(defs))
  }

  /** One value on its way into one column. */
  function InsertValue(cast: Cast, from: string, col: DuckColumn, v: Value): Option<Value> {
    var w := cast(from, col.duckType, v);
    if w.None? || (col.notNull && w.value.Null?) then None else w
  }

  function InsertRowValues(cast: Cast, from: seq<(string, string)>, cols: seq<DuckColumn>, row: seq<Value>): Option<seq<Value>>
    decreases |cols|
  {
    if |row| != |cols| || |from| != |cols| then None
    else if cols == [] then Some([])
    else
      var v, rest := InsertValue(cast, from[0].1, cols[0], row[0]), InsertRowValues(cast, from[1..], cols[1..], row[1..]);
      if v.None? || rest.None? then None else Some([v.value] + rest.value)
  }

  /** `INSERT INTO table SELECT * FROM read_parquet(file)`: by position. */
  function InsertAll(cast: Cast, from: seq<(string, string)>, cols: seq<DuckColumn>, data: seq<seq<Value>>): Option<seq<seq<Value>>> {
    if data == [] then (if |from| == |cols| then Some([]) else None)
    else
      var row, rest := InsertRowValues(cast, from, cols, data[0]), InsertAll(cast, from, cols, data[1..]);
      if row.None? || rest.None? then None else Some([row.value] + rest.value)
  }

  /** `restore_snapshot_table` with the data file present: the catalog rows and the table it leaves. */
  function RestoreTable(cast: Cast, texts: map<int, string>, rows: seq<ColumnRow>, file: Parquet, rowCount: int): Option<(seq<ColumnRow>, Physical)> {
    match Repair(rows, file.cols)
    case None => None
    case Some(repaired) =>
      match Definitions(texts, repaired)
      case None => None
      case Some(defs) =>
        match Created(defs)
        case None => None
        case Some(cols) =>
          match InsertAll(cast, file.cols, cols, file.data)
          case None => None
          case Some(data) => if |data| == rowCount then Some((repaired, Physical(cols, data))) else None
  }

  /// The startup check of catalog columns against DuckDB

  /** One catalog column against the DuckDB column in the same place. */
  predicate ColumnMatches(ty: Typing, reg: Registry, texts: map<int, string>, r: ColumnRow, col: DuckColumn) {
    && EqIgnoreCase(r.name, col.name)
    && TypeIdIn(ty, reg.types, col.duckType) == Some(r.typeId)
    && CatalogType(texts, r).Some? && EqIgnoreCase(CatalogType(texts, r).value, col.duckType)
  }

  /** `validate_catalog_columns_match_duckdb`, its types registered already. */
  predicate CatalogMatches(ty: Typing, reg: Registry, texts: map<int, string>, rows: seq<ColumnRow>, cols: seq<DuckColumn>) {
    && |ActiveRows(rows)| == |cols|
    && forall k :: 0 <= k < |cols| ==> ColumnMatches(ty, reg, texts, ActiveRows(rows)[k], cols[k])
  }

  ghost predicate MatchesUpTo(ty: Typing, reg: Registry, texts: map<int, string>, catalog: seq<ColumnRow>, cols: seq<DuckColumn>, k: nat) {
    k <= |cols| == |catalog| && forall j :: 0 <= j < k ==> ColumnMatches(ty, reg, texts, catalog[j], cols[j])
  }

  lemma OneMoreMatches(ty: Typing, reg: Registry, texts: map<int, string>, catalog: seq<ColumnRow>, cols: seq<DuckColumn>, k: nat)
    requires MatchesUpTo(ty, reg, texts, catalog, cols, k) && k < |cols|
    ensures MatchesUpTo(ty, reg, texts, catalog, cols, k + 1) <==> ColumnMatches(ty, reg, texts, catalog[k], cols[k])
  {}

  /** Compares the columns one by one and stops at the first difference. */
  method ValidateCatalogColumnsMatchDuckdb(ty: Typing, reg: Registry, texts: map<int, string>, rows: seq<ColumnRow>, cols: seq<DuckColumn>)
    returns (ok: bool)
    ensures ok == CatalogMatches(ty, reg, texts, rows, cols)
  {
    var catalog := ActiveRows(rows);
    if |catalog| != |cols| {
      return false;
    }
    ok := true;
    var k := 0;
    while k < |cols| && ok
      invariant 0 <= k <= |cols|
      invariant ok ==> MatchesUpTo(ty, reg, texts, catalog, cols, k)
      invariant !ok ==> !MatchesUpTo(ty, reg, texts, catalog, cols, |cols|)
    {
      OneMoreMatches(ty, reg, texts, catalog, cols, k);
      ok := ColumnMatches(ty, reg, texts, catalog[k], cols[k]);
      k := k + 1;
    }
    assert CatalogMatches(ty, reg, texts, rows, cols) <==> MatchesUpTo(ty, reg, texts, catalog, cols, |cols|);
  }

  /// Types survive as catalog ids and modifiers

  /** The complex types of the registry and the built-in types are stored under their texts, and types
      are read as rsduck reads them. */
  ghost predicate TypesOk(ty: Typing, reg: Registry, texts: map<int, string>) {
    && RegistryOk(reg)
    && (forall t :: ty.scalarId(t) == ScalarTypeId(t))
    && (forall t :: ty.modifier(t) == TypeModifier(t))
    && (forall t: string :: ScalarTypeId(t).Some? ==>
          ScalarTypeId(t).value in texts && texts[ScalarTypeId(t).value] == BuiltinPhysicalType(ScalarTypeId(t).value))
    && (forall t <- reg.types :: reg.types[t] in texts && texts[reg.types[t]] == t)
  }

  /** The texts the catalog can give back: a built-in type under its catalog name, a `DECIMAL(p,s)`
      with its precision, or a complex type. */
  ghost predicate Faithful(duckType: string) {
    if ScalarTypeId(duckType).Some? then CanonicalScalar(duckType) && (IsDecimal(duckType) ==> IsDecimalText(duckType))
    else !IsDecimal(duckType)
  }

  /** What the catalog would print for a type it knows. */
  function PrintedText(ty: Typing, reg: Registry, texts: map<int, string>, duckType: string): Option<string> {
    var id := TypeIdIn(ty, reg.types, duckType);
    if id.None? || id.value !in texts then None else Some(TypeWithModifier(texts[id.value], TypeModifier(duckType)))
  }

  lemma KnownTypeHasText(ty: Typing, reg: Registry, texts: map<int, string>, duckType: string)
    requires TypesOk(ty, reg, texts) && TypeIdIn(ty, reg.types, duckType).Some?
    ensures var id := TypeIdIn(ty, reg.types, duckType).value;
            id in texts && texts[id] == if ScalarTypeId(duckType).Some? then BuiltinPhysicalType(ScalarTypeId(duckType).value) else duckType
  {}

  lemma FaithfulIsKept(ty: Typing, reg: Registry, texts: map<int, string>, duckType: string)
    requires TypesOk(ty, reg, texts) && TypeIdIn(ty, reg.types, duckType).Some? && Faithful(duckType)
    ensures PrintedText(ty, reg, texts, duckType) == Some(duckType)
    ensures var id := TypeIdIn(ty, reg.types, duckType).value;
            id in texts && IsValidModifier(texts[id], TypeModifier(duckType))
  {
    KnownTypeHasText(ty, reg, texts, duckType);
    if ScalarTypeId(duckType).Some? {
      SpellingIsKeptIffCanonical(duckType);
      if IsDecimalText(duckType) {
        DecimalTextIsKept(duckType);
      }
    }
  }

  /** The row's type can be printed: it is in rs_type, and a DECIMAL has a modifier. */
  predicate ValidRow(texts: map<int, string>, r: ColumnRow) {
    r.typeId in texts && IsValidModifier(texts[r.typeId], r.typmod)
  }

  /** What DuckDB reports for the column the restore creates from a row. */
  function RestoredType(texts: map<int, string>, r: ColumnRow): string
    requires r.typeId in texts
  {
    DuckReports(TypeWithModifier(texts[r.typeId], r.typmod))
  }

  /** The types a restored column has again: the faithful ones and FLOAT, which the catalog calls REAL and
      DuckDB then FLOAT. DuckDB never reports a REAL. */
  ghost predicate Restorable(duckType: string) { duckType == "FLOAT" || (Faithful(duckType) && duckType != "REAL") }

  /** A column has its type again after the restore exactly when the type is restorable. */
  lemma TypeIsRestoredIff(ty: Typing, reg: Registry, texts: map<int, string>, duckType: string, r: ColumnRow)
    requires TypesOk(ty, reg, texts) && TypeIdIn(ty, reg.types, duckType) == Some(r.typeId) && r.typmod == TypeModifier(duckType)
    ensures ValidRow(texts, r) && RestoredType(texts, r) == duckType <==> Restorable(duckType)
  {
    KnownTypeHasText(ty, reg, texts, duckType);
    if duckType == "FLOAT" {
      FloatIsRestored();
    } else if Faithful(duckType) {
      FaithfulIsKept(ty, reg, texts, duckType);
      FaithfulIsReported(duckType);
    } else {
      UnfaithfulIsLost(texts[r.typeId], duckType);
    }
  }

  lemma FloatIsRestored()
    ensures ScalarTypeId("FLOAT") == Some(TYPE_FLOAT4) && IsValidModifier(BuiltinPhysicalType(TYPE_FLOAT4), TypeModifier("FLOAT"))
    ensures DuckReports(TypeWithModifier(BuiltinPhysicalType(TYPE_FLOAT4), TypeModifier("FLOAT"))) == "FLOAT"
  {
    FloatReads();
    OnlyNumericIsDecimal(TYPE_FLOAT4);
    BuiltinReported(TYPE_FLOAT4, TypeModifier("FLOAT"));
  }

  lemma FaithfulIsReported(duckType: string)
    requires Faithful(duckType)
    ensures DuckReports(duckType) == if duckType == "REAL" then "FLOAT" else duckType
  {
    if duckType == "DECIMAL" {
      BareDecimalIsUnfaithful();
    }
  }

  lemma BareDecimalIsUnfaithful()
    ensures !Faithful("DECIMAL")
  {
    DecimalIsDecimal();
    BareDecimalIsNumeric();
    forall p: nat, s: nat
      ensures DecimalText(p, s) != "DECIMAL"
    {
      assert |DecimalText(p, s)| > 8;
    }
  }

  /** An unfaithful text is printed otherwise or not at all, and DuckDB does not make it up. */
  lemma UnfaithfulIsLost(text: string, duckType: string)
    requires text == if ScalarTypeId(duckType).Some? then BuiltinPhysicalType(ScalarTypeId(duckType).value) else duckType
    requires !Faithful(duckType) && duckType != "FLOAT"
    ensures DuckReports(TypeWithModifier(text, TypeModifier(duckType))) != duckType || !IsValidModifier(text, TypeModifier(duckType))
  {
    var modifier := TypeModifier(duckType);
    UnfaithfulIsRespelled(text, duckType);
    if DuckReports(TypeWithModifier(text, modifier)) == duckType && IsValidModifier(text, modifier) {
      assert duckType == "DECIMAL(18,3)";
      DefaultDecimalIsFaithful();
    }
  }

  lemma UnfaithfulIsRespelled(text: string, duckType: string)
    requires text == if ScalarTypeId(duckType).Some? then BuiltinPhysicalType(ScalarTypeId(duckType).value) else duckType
    requires !Faithful(duckType)
    ensures TypeWithModifier(text, TypeModifier(duckType)) != duckType || !IsValidModifier(text, TypeModifier(duckType))
  {
    if ScalarTypeId(duckType).Some? {
      SpellingIsKeptIffCanonical(duckType);
    } else if DecodeDecimal(TypeModifier(duckType)).Some? {
      var (p, s) := DecodeDecimal(TypeModifier(duckType)).value;
      DecimalTextIsNumeric(p, s);
    }
  }

  lemma DefaultDecimalIsFaithful()
    ensures Faithful("DECIMAL(18,3)")
  {
    DefaultDecimal();
    EighteenThree();
    assert ValidDecimal(18, 3) && IsDecimalText("DECIMAL(18,3)");
  }

  lemma NumericIsDecimalText(duckType: string)
    requires ScalarTypeId(duckType) == Some(TYPE_NUMERIC) && Faithful(duckType)
    ensures IsDecimalText(duckType)
  {
    if duckType == "DECIMAL" {
      DecimalIsDecimal();
    }
  }

  /// Repair finds the modifiers again

  /** `old_` is `rows` as an earlier version wrote it: some DECIMAL columns without a modifier. */
  ghost predicate LegacyOf(old_: seq<ColumnRow>, rows: seq<ColumnRow>) {
    && |old_| == |rows|
    && forall i :: 0 <= i < |rows| ==>
         old_[i] == rows[i] || (!rows[i].dropped && rows[i].typeId == TYPE_NUMERIC && old_[i] == rows[i].(typmod := -1))
  }

  function Header(cols: seq<DuckColumn>): (r: seq<(string, string)>)
    ensures |r| == |cols| && forall k :: 0 <= k < |cols| ==> r[k] == (cols[k].name, cols[k].duckType)
  {
    Export(Physical(cols, [])).cols
  }

  /** A catalog row describes a DuckDB column. */
  ghost predicate Describes(r: ColumnRow, col: DuckColumn) { EqIgnoreCase(r.name, col.name) && r.typmod == TypeModifier(col.duckType) }

  lemma ModifierIsValidOrNone(duckType: string)
    ensures TypeModifier(duckType) == -1 || TypeModifier(duckType) >= HEADER_SIZE
  {}

  /** A row whose column is no DECIMAL without precision is repaired to what it was; no row becomes another. */
  lemma RepairColumnRestores(old_: ColumnRow, r: ColumnRow, col: DuckColumn)
    requires Describes(r, col) && (old_ == r || (r.typeId == TYPE_NUMERIC && old_ == r.(typmod := -1)))
    ensures var repaired := RepairColumn(old_, (col.name, col.duckType));
            && (repaired.Some? ==> repaired == Some(r))
            && (r.typeId == TYPE_NUMERIC && r.typmod == -1 ==> repaired.None?)
            && ((r.typeId == TYPE_NUMERIC ==> IsDecimalText(col.duckType)) ==> repaired.Some?)
  {
    ModifierIsValidOrNone(col.duckType);
    if r.typeId == TYPE_NUMERIC && IsDecimalText(col.duckType) {
      DecimalTextIsKept(col.duckType);
    }
  }

  ghost predicate AllDescribed(rows: seq<ColumnRow>, cols: seq<DuckColumn>) {
    |rows| == |cols| && forall k :: 0 <= k < |cols| ==> Describes(rows[k], cols[k])
  }

  lemma AllDescribedTail(r: ColumnRow, rows: seq<ColumnRow>, cols: seq<DuckColumn>)
    requires AllDescribed([r] + rows, cols)
    ensures Describes(r, cols[0]) && AllDescribed(rows, cols[1..])
    ensures Header(cols)[0] == (cols[0].name, cols[0].duckType) && Header(cols)[1..] == Header(cols[1..])
  {
    assert ([r] + rows)[0] == r;
    assert forall k :: 0 <= k < |rows| ==> ([r] + rows)[k + 1] == rows[k];
  }

  ghost predicate SomeBareDecimal(rows: seq<ColumnRow>) { exists k :: 0 <= k < |rows| && rows[k].typeId == TYPE_NUMERIC && rows[k].typmod == -1 }

  ghost predicate DecimalsAreTexts(rows: seq<ColumnRow>, cols: seq<DuckColumn>)
    requires |rows| == |cols|
  {
    forall k :: 0 <= k < |rows| && rows[k].typeId == TYPE_NUMERIC ==> IsDecimalText(cols[k].duckType)
  }

  lemma OneMoreBare(r: ColumnRow, rows: seq<ColumnRow>)
    ensures SomeBareDecimal([r] + rows) <==> (r.typeId == TYPE_NUMERIC && r.typmod == -1) || SomeBareDecimal(rows)
  {
    var all := [r] + rows;
    assert all[0] == r && forall k :: 0 <= k < |rows| ==> all[k + 1] == rows[k];
    if k :| 0 <= k < |all| && all[k].typeId == TYPE_NUMERIC && all[k].typmod == -1 {
      assert k > 0 ==> rows[k - 1] == all[k];
    }
  }

  lemma FirstDecimalIsText(r: ColumnRow, rows: seq<ColumnRow>, cols: seq<DuckColumn>)
    requires |cols| == |rows| + 1 && DecimalsAreTexts([r] + rows, cols)
    ensures (r.typeId == TYPE_NUMERIC ==> IsDecimalText(cols[0].duckType)) && DecimalsAreTexts(rows, cols[1..])
  {
    var all := [r] + rows;
    assert all[0] == r && forall k :: 0 <= k < |rows| ==> all[k + 1] == rows[k];
  }

  lemma {:induction false} RepairAllRestores(old_: seq<ColumnRow>, rows: seq<ColumnRow>, cols: seq<DuckColumn>)
    requires LegacyOf(old_, rows) && AllDescribed(ActiveRows(rows), cols)
    ensures var repaired := RepairAll(old_, Header(cols));
            && (repaired.Some? ==> repaired == Some(rows))
            && (SomeBareDecimal(ActiveRows(rows)) ==> repaired.None?)
            && (DecimalsAreTexts(ActiveRows(rows), cols) ==> repaired.Some?)
    decreases |rows|
  {
    if rows != [] {
      assert LegacyOf(old_[1..], rows[1..]);
      assert rows == [rows[0]] + rows[1..];
      if rows[0].dropped {
        RepairAllRestores(old_[1..], rows[1..], cols);
      } else {
        AllDescribedTail(rows[0], ActiveRows(rows[1..]), cols);
        OneMoreBare(rows[0], ActiveRows(rows[1..]));
        if DecimalsAreTexts(ActiveRows(rows), cols) {
          FirstDecimalIsText(rows[0], ActiveRows(rows[1..]), cols);
        }
        RepairColumnRestores(old_[0], rows[0], cols[0]);
        RepairAllRestores(old_[1..], rows[1..], cols[1..]);
      }
    }
  }

  lemma {:induction false} BareDecimalIsLegacy(rows: seq<ColumnRow>)
    ensures SomeBareDecimal(ActiveRows(rows)) <==> AnyLegacy(rows)
  {
    if rows != [] {
      var rest := rows[1..];
      BareDecimalIsLegacy(rest);
      HeadAndTail(rows);
      ActiveRowsCons(rows[0], rest);
      assert AnyLegacy(rows) <==> IsLegacy(rows[0]) || AnyLegacy(rest) by {
        if i :| 0 <= i < |rows| && IsLegacy(rows[i]) {
          assert i > 0 ==> rest[i - 1] == rows[i];
        }
        if i :| 0 <= i < |rest| && IsLegacy(rest[i]) {
          assert rows[i + 1] == rest[i];
        }
      }
      if !rows[0].dropped {
        var more := ActiveRows(rest);
        assert SomeBareDecimal([rows[0]] + more) <==> IsLegacy(rows[0]) || SomeBareDecimal(more) by {
          OneMoreBare(rows[0], more);
        }
      }
    }
  }

  /** Missing DECIMAL modifiers come back from the file, and rows that were complete are untouched; the repair
      is refused where a column has no precision to give, and only where a DECIMAL is no `DECIMAL(p,s)`. */
  lemma RepairRestores(old_: seq<ColumnRow>, rows: seq<ColumnRow>, cols: seq<DuckColumn>)
    requires LegacyOf(old_, rows) && AllDescribed(ActiveRows(rows), cols)
    ensures Repair(old_, Header(cols)).Some? ==> Repair(old_, Header(cols)) == Some(rows)
    ensures SomeBareDecimal(ActiveRows(rows)) ==> Repair(old_, Header(cols)).None?
    ensures DecimalsAreTexts(ActiveRows(rows), cols) ==> Repair(old_, Header(cols)).Some?
    ensures old_ == rows && !SomeBareDecimal(ActiveRows(rows)) ==> Repair(old_, Header(cols)).Some?
  {
    BareDecimalIsLegacy(rows);
    if AnyLegacy(old_) {
      RepairAllRestores(old_, rows, cols);
    } else {
      NoLegacyNoChange(old_, rows);
    }
  }

  lemma NoLegacyNoChange(old_: seq<ColumnRow>, rows: seq<ColumnRow>)
    requires LegacyOf(old_, rows) && !AnyLegacy(old_)
    ensures old_ == rows
  {
    forall i | 0 <= i < |rows|
      ensures old_[i] == rows[i]
    {
      assert !IsLegacy(old_[i]);
    }
  }

  /// The table definition and the rows

  ghost predicate AllValid(texts: map<int, string>, rows: seq<ColumnRow>) { forall k :: 0 <= k < |rows| ==> ValidRow(texts, rows[k]) }

  /** The columns of the restored table: names and NOT NULL as the catalog has them, types as DuckDB reports
      them, no defaults. */
  function RestoredColumn(texts: map<int, string>, r: ColumnRow): DuckColumn
    requires r.typeId in texts
  {
    DuckColumn(r.name, RestoredType(texts, r), r.notNull, None)
  }

  ghost function RestoredColumns(texts: map<int, string>, rows: seq<ColumnRow>): (r: seq<DuckColumn>)
    requires AllValid(texts, ActiveRows(rows))
    ensures |r| == |ActiveRows(rows)|
    ensures forall k :: 0 <= k < |r| ==> ValidRow(texts, ActiveRows(rows)[k]) && r[k] == RestoredColumn(texts, ActiveRows(rows)[k])
  {
    seq(|ActiveRows(rows)|, k requires 0 <= k < |ActiveRows(rows)| && AllValid(texts, ActiveRows(rows)) => RestoredColumn(texts, ActiveRows(rows)[k]))
  }

  /** Every active row is defined, or the statement is not built. */
  lemma {:induction false} DefinitionsIff(texts: map<int, string>, rows: seq<ColumnRow>)
    ensures Definitions(texts, rows).Some? <==> AllValid(texts, ActiveRows(rows))
    ensures Definitions(texts, rows).Some? ==> |Definitions(texts, rows).value| == |ActiveRows(rows)|
    ensures Definitions(texts, rows).Some? ==>
              forall k :: 0 <= k < |ActiveRows(rows)| ==> Definition(texts, ActiveRows(rows)[k]) == Some(Definitions(texts, rows).value[k])
  {
    if rows != [] {
      var more := ActiveRows(rows[1..]);
      DefinitionsIff(texts, rows[1..]);
      HeadAndTail(rows);
      ActiveRowsCons(rows[0], rows[1..]);
      if !rows[0].dropped {
        FirstValid(texts, rows[0], more);
        if Definitions(texts, rows).Some? {
          FirstDefined(texts, rows[0], more, Definition(texts, rows[0]).value, Definitions(texts, rows[1..]).value);
        }
      }
    }
  }

  lemma FirstDefined(texts: map<int, string>, r: ColumnRow, rows: seq<ColumnRow>, d: DuckColumn, defs: seq<DuckColumn>)
    requires Definition(texts, r) == Some(d) && |defs| == |rows|
    requires forall k :: 0 <= k < |rows| ==> Definition(texts, rows[k]) == Some(defs[k])
    ensures forall k :: 0 <= k < |rows| + 1 ==> Definition(texts, ([r] + rows)[k]) == Some(([d] + defs)[k])
  {}

  lemma FirstValid(texts: map<int, string>, r: ColumnRow, rows: seq<ColumnRow>)
    ensures AllValid(texts, [r] + rows) <==> ValidRow(texts, r) && AllValid(texts, rows)
  {
    var all := [r] + rows;
    assert all[0] == r && forall k :: 0 <= k < |rows| ==> all[k + 1] == rows[k];
  }

  lemma DefinitionsRestore(texts: map<int, string>, rows: seq<ColumnRow>)
    requires AllValid(texts, ActiveRows(rows))
    ensures Definitions(texts, rows).Some? && Printed(Definitions(texts, rows).value) == RestoredColumns(texts, rows)
  {
    DefinitionsIff(texts, rows);
  }

  /** A row DuckDB holds: one value per column, none missing where the column is NOT NULL. */
  ghost predicate RowFits(cols: seq<DuckColumn>, row: seq<Value>) {
    |row| == |cols| && forall k :: 0 <= k < |cols| ==> cols[k].notNull ==> row[k] != Null
  }

  /** The catalog demands NOT NULL only where DuckDB enforces it. */
  ghost predicate Enforced(t: Table) {
    |ActiveRows(t.rows)| == |t.phys| && forall k :: 0 <= k < |t.phys| && ActiveRows(t.rows)[k].notNull ==> t.phys[k].notNull
  }

  ghost predicate DataFits(t: Physical) { forall i :: 0 <= i < |t.data| ==> RowFits(t.cols, t.data[i]) }

  /** The columns a row is read into have the types it was written with. */
  ghost predicate SameTypes(from: seq<(string, string)>, cols: seq<DuckColumn>) {
    |from| == |cols| && forall k :: 0 <= k < |cols| ==> from[k].1 == cols[k].duckType
  }

  lemma {:induction false} RowIsKept(cast: Cast, from: seq<(string, string)>, cols: seq<DuckColumn>, row: seq<Value>)
    requires SameTypes(from, cols) && RowFits(cols, row) && CastOk(cast)
    ensures InsertRowValues(cast, from, cols, row) == Some(row)
    decreases |cols|
  {
    if cols != [] {
      assert RowFits(cols[1..], row[1..]) && SameTypes(from[1..], cols[1..]);
      RowIsKept(cast, from[1..], cols[1..], row[1..]);
      assert row == [row[0]] + row[1..];
    }
  }

  lemma {:induction false} DataIsKept(cast: Cast, from: seq<(string, string)>, cols: seq<DuckColumn>, data: seq<seq<Value>>)
    requires SameTypes(from, cols) && CastOk(cast)
    requires forall i :: 0 <= i < |data| ==> RowFits(cols, data[i])
    ensures InsertAll(cast, from, cols, data) == Some(data)
  {
    if data != [] {
      RowIsKept(cast, from, cols, data[0]);
      assert forall i :: 0 <= i < |data[1..]| ==> data[1..][i] == data[i + 1];
      DataIsKept(cast, from, cols, data[1..]);
      assert data == [data[0]] + data[1..];
    }
  }

  /// The round trip

  lemma SoundColumn(ty: Typing, reg: Registry, texts: map<int, string>, t: Table, k: nat)
    requires TableOk(ty, reg.types, t) && TypesOk(ty, reg, texts) && k < |t.phys|
    ensures |ActiveRows(t.rows)| == |t.phys| && Describes(ActiveRows(t.rows)[k], t.phys[k])
    ensures TypeIdIn(ty, reg.types, t.phys[k].duckType) == Some(ActiveRows(t.rows)[k].typeId) && ActiveRows(t.rows)[k].typeId in texts
  {
    ActiveRowsAreViews(t.rows, k);
    assert RowView(ActiveRows(t.rows)[k]) == DuckView(ty, reg.types, t.phys[k]);
    KnownTypeHasText(ty, reg, texts, t.phys[k].duckType);
  }

  lemma RestoredAreCreated(ty: Typing, reg: Registry, texts: map<int, string>, t: Table)
    requires TableOk(ty, reg.types, t) && t.phys != [] && AllValid(texts, ActiveRows(t.rows))
    ensures Definitions(texts, t.rows).Some? && Created(Definitions(texts, t.rows).value) == Some(RestoredColumns(texts, t.rows))
  {
    DefinitionsRestore(texts, t.rows);
    DefinitionsIff(texts, t.rows);
    var defs := Definitions(texts, t.rows).value;
    forall i, j | 0 <= i < j < |defs|
      ensures !EqIgnoreCase(defs[i].name, defs[j].name)
    {
      ActiveRowsAreViews(t.rows, i);
      ActiveRowsAreViews(t.rows, j);
      assert Views(t.rows)[i].name != Views(t.rows)[j].name;
    }
  }

  /** The table as created, once the file is read into it. */
  ghost function Loaded(cast: Cast, texts: map<int, string>, t: Table, data: seq<seq<Value>>): Option<(seq<ColumnRow>, Physical)>
    requires AllValid(texts, ActiveRows(t.rows))
  {
    var cols := RestoredColumns(texts, t.rows);
    match InsertAll(cast, Header(t.phys), cols, data)
    case None => None
    case Some(d) => Some((t.rows, Physical(cols, d)))
  }

  lemma {:induction false} InsertAllCounts(cast: Cast, from: seq<(string, string)>, cols: seq<DuckColumn>, data: seq<seq<Value>>)
    ensures InsertAll(cast, from, cols, data).Some? ==> |InsertAll(cast, from, cols, data).value| == |data|
  {
    if data != [] {
      InsertAllCounts(cast, from, cols, data[1..]);
    }
  }

  lemma AfterRepair(cast: Cast, ty: Typing, reg: Registry, texts: map<int, string>, t: Table, old_: seq<ColumnRow>, data: seq<seq<Value>>)
    requires TableOk(ty, reg.types, t) && t.phys != [] && Repair(old_, Header(t.phys)) == Some(t.rows)
    ensures RestoreTable(cast, texts, old_, Export(Physical(t.phys, data)), |data|)
         == if AllValid(texts, ActiveRows(t.rows)) then Loaded(cast, texts, t, data) else None
  {
    assert Export(Physical(t.phys, data)).cols == Header(t.phys);
    DefinitionsIff(texts, t.rows);
    if AllValid(texts, ActiveRows(t.rows)) {
      RestoredAreCreated(ty, reg, texts, t);
      InsertAllCounts(cast, Header(t.phys), RestoredColumns(texts, t.rows), data);
    }
  }

  /** A text filed as a DECIMAL, or printed as one. */
  predicate NeedsPrecision(duckType: string) {
    match ScalarTypeId(duckType)
    case Some(id) => id == TYPE_NUMERIC
    case None => IsDecimal(duckType)
  }

  lemma ValidIffPrecise(ty: Typing, reg: Registry, texts: map<int, string>, duckType: string, r: ColumnRow)
    requires TypesOk(ty, reg, texts) && TypeIdIn(ty, reg.types, duckType) == Some(r.typeId) && r.typmod == TypeModifier(duckType)
    ensures ValidRow(texts, r) <==> (NeedsPrecision(duckType) ==> r.typmod != -1)
  {
    KnownTypeHasText(ty, reg, texts, duckType);
    ModifierDecodesIff(duckType);
    match ScalarTypeId(duckType)
    case None =>
    case Some(id) => {
      SpellingIdsAreBuiltin();
      MatchedIdIsBuiltin(Lower(duckType), SPELLINGS);
      OnlyNumericIsDecimal(id);
      NumericHasText(ty, reg, texts);
      if id != TYPE_NUMERIC {
        NamesDiffer(id);
      }
    }
  }

  lemma ModifierDecodesIff(duckType: string)
    ensures DecodeDecimal(TypeModifier(duckType)).Some? <==> TypeModifier(duckType) != -1
  {
    match DecimalPrecisionAndScale(duckType)
    case Some((p, s)) => DecodeInvertsEncode(p, s);
    case None =>
  }

  lemma NamesDiffer(id: int)
    requires TYPE_BOOL <= id < TYPE_NUMERIC
    ensures BuiltinPhysicalType(id) != "DECIMAL"
  {
    assert |BuiltinPhysicalType(id)| == 7 ==> BuiltinPhysicalType(id)[0] != 'D';
  }

  /** The CREATE TABLE of a restore can be written exactly when no column needs a precision it has not. */
  lemma RowsAreValidIff(ty: Typing, reg: Registry, texts: map<int, string>, t: Table)
    requires TableOk(ty, reg.types, t) && TypesOk(ty, reg, texts)
    ensures AllValid(texts, ActiveRows(t.rows)) <==>
            forall k :: 0 <= k < |t.phys| && NeedsPrecision(t.phys[k].duckType) ==> TypeModifier(t.phys[k].duckType) != -1
  {
    assert |ActiveRows(t.rows)| == |t.phys|;
    forall k | 0 <= k < |t.phys|
      ensures ValidRow(texts, ActiveRows(t.rows)[k]) <==>
              (NeedsPrecision(t.phys[k].duckType) ==> TypeModifier(t.phys[k].duckType) != -1)
    {
      SoundColumn(ty, reg, texts, t, k);
      ValidIffPrecise(ty, reg, texts, t.phys[k].duckType, ActiveRows(t.rows)[k]);
    }
  }

  lemma InvalidHere(ty: Typing, reg: Registry, texts: map<int, string>, t: Table)
    requires TableOk(ty, reg.types, t) && TypesOk(ty, reg, texts) && SomeBareDecimal(ActiveRows(t.rows))
    ensures !AllValid(texts, ActiveRows(t.rows))
  {
    var rows := ActiveRows(t.rows);
    var k :| 0 <= k < |rows| && rows[k].typeId == TYPE_NUMERIC && rows[k].typmod == -1;
    SoundColumn(ty, reg, texts, t, k);
    NumericHasText(ty, reg, texts);
    assert !ValidRow(texts, rows[k]);
  }

  lemma NumericHasText(ty: Typing, reg: Registry, texts: map<int, string>)
    requires TypesOk(ty, reg, texts)
    ensures TYPE_NUMERIC in texts && texts[TYPE_NUMERIC] == "DECIMAL" && IsDecimal("DECIMAL")
  {
    BareDecimalIsNumeric();
    assert BuiltinPhysicalType(TYPE_NUMERIC) == "DECIMAL";
    DecimalIsDecimal();
  }

  /** What a restore comes to, for every table in step with its catalog rows, whatever its data, also when some
      DECIMAL modifiers were never stored. It is refused where a row cannot be printed. Otherwise, if no
      modifier is missing or every DECIMAL is a `DECIMAL(p,s)`, the table is created with the columns of the
      catalog as DuckDB reports them, and the file is read into it; the catalog rows are complete again. */
  lemma RestoreIs(cast: Cast, ty: Typing, reg: Registry, texts: map<int, string>, t: Table, old_: seq<ColumnRow>, data: seq<seq<Value>>)
    requires TableOk(ty, reg.types, t) && TypesOk(ty, reg, texts) && t.phys != [] && LegacyOf(old_, t.rows)
    ensures var restored := RestoreTable(cast, texts, old_, Export(Physical(t.phys, data)), |data|);
            && |ActiveRows(t.rows)| == |t.phys|
            && (!AllValid(texts, ActiveRows(t.rows)) ==> restored.None?)
            && (restored.Some? ==> AllValid(texts, ActiveRows(t.rows)) && restored == Loaded(cast, texts, t, data))
            && (AllValid(texts, ActiveRows(t.rows)) && (old_ == t.rows || DecimalsAreTexts(ActiveRows(t.rows), t.phys)) ==>
                  restored == Loaded(cast, texts, t, data))
  {
    forall k | 0 <= k < |t.phys|
      ensures Describes(ActiveRows(t.rows)[k], t.phys[k])
    {
      SoundColumn(ty, reg, texts, t, k);
    }
    assert Export(Physical(t.phys, data)).cols == Header(t.phys);
    RepairRestores(old_, t.rows, t.phys);
    if Repair(old_, Header(t.phys)).Some? {
      AfterRepair(cast, ty, reg, texts, t, old_, data);
    }
    if SomeBareDecimal(ActiveRows(t.rows)) {
      InvalidHere(ty, reg, texts, t);
    }
  }

  lemma RestoredRowFits(texts: map<int, string>, t: Table, row: seq<Value>)
    requires Enforced(t) && RowFits(t.phys, row) && AllValid(texts, ActiveRows(t.rows))
    ensures RowFits(RestoredColumns(texts, t.rows), row)
  {}

  /** The same catalog rows, types and data. */
  ghost predicate GivesBack(restored: Option<(seq<ColumnRow>, Physical)>, t: Table, data: seq<seq<Value>>) {
    && restored.Some? && restored.value.0 == t.rows && restored.value.1.data == data && |restored.value.1.cols| == |t.phys|
    && forall k :: 0 <= k < |t.phys| ==> restored.value.1.cols[k].duckType == t.phys[k].duckType
  }

  ghost predicate AllRestorable(cols: seq<DuckColumn>) { forall k :: 0 <= k < |cols| ==> Restorable(cols[k].duckType) }

  lemma RestorableIsDecimalText(ty: Typing, reg: Registry, texts: map<int, string>, t: Table)
    requires TableOk(ty, reg.types, t) && TypesOk(ty, reg, texts) && AllRestorable(t.phys) && |ActiveRows(t.rows)| == |t.phys|
    ensures DecimalsAreTexts(ActiveRows(t.rows), t.phys)
  {
    forall k | 0 <= k < |t.phys| && ActiveRows(t.rows)[k].typeId == TYPE_NUMERIC
      ensures IsDecimalText(t.phys[k].duckType)
    {
      SoundColumn(ty, reg, texts, t, k);
      OnlyScalarsAreNumeric(ty, reg, t.phys[k].duckType);
      FloatReads();
      assert Restorable(t.phys[k].duckType);
      NumericIsDecimalText(t.phys[k].duckType);
    }
  }

  lemma OnlyScalarsAreNumeric(ty: Typing, reg: Registry, duckType: string)
    requires RegistryOk(reg) && (forall t :: ty.scalarId(t) == ScalarTypeId(t)) && TypeIdIn(ty, reg.types, duckType) == Some(TYPE_NUMERIC)
    ensures ScalarTypeId(duckType) == Some(TYPE_NUMERIC)
  {
    assert duckType in reg.types ==> FIRST_USER_OID <= reg.types[duckType];
  }

  lemma RestorableGivesBack(cast: Cast, ty: Typing, reg: Registry, texts: map<int, string>, t: Table, old_: seq<ColumnRow>, data: seq<seq<Value>>)
    requires Enforced(t) && TableOk(ty, reg.types, t) && TypesOk(ty, reg, texts) && CastOk(cast) && t.phys != []
    requires DataFits(Physical(t.phys, data)) && LegacyOf(old_, t.rows) && AllRestorable(t.phys)
    ensures GivesBack(RestoreTable(cast, texts, old_, Export(Physical(t.phys, data)), |data|), t, data)
  {
    forall k | 0 <= k < |t.phys|
      ensures ValidRow(texts, ActiveRows(t.rows)[k]) && RestoredType(texts, ActiveRows(t.rows)[k]) == t.phys[k].duckType
    {
      SoundColumn(ty, reg, texts, t, k);
      TypeIsRestoredIff(ty, reg, texts, t.phys[k].duckType, ActiveRows(t.rows)[k]);
    }
    RestorableIsDecimalText(ty, reg, texts, t);
    RestoreIs(cast, ty, reg, texts, t, old_, data);
    forall i | 0 <= i < |data|
      ensures RowFits(RestoredColumns(texts, t.rows), data[i])
    {
      assert RowFits(t.phys, data[i]);
      RestoredRowFits(texts, t, data[i]);
    }
    DataIsKept(cast, Header(t.phys), RestoredColumns(texts, t.rows), data);
  }

  /** A file that does not hold as many rows as the manifest says is refused, and one that does is judged by the rest. */
  lemma RowsAreCounted(cast: Cast, texts: map<int, string>, rows: seq<ColumnRow>, file: Parquet, rowCount: int)
    ensures rowCount != |file.data| ==> RestoreTable(cast, texts, rows, file, rowCount).None?
    ensures RestoreTable(cast, texts, rows, file, rowCount).Some? ==> |RestoreTable(cast, texts, rows, file, rowCount).value.1.data| == rowCount
  {
    match Repair(rows, file.cols)
    case None =>
    case Some(repaired) =>
      match Definitions(texts, repaired)
      case None =>
      case Some(defs) =>
        match Created(defs)
        case None =>
        case Some(cols) =>
          if InsertAll(cast, file.cols, cols, file.data).Some? {
            InsertAllCounts(cast, file.cols, cols, file.data);
          }
  }

  /** Save and restore give a table back, with its types and its rows in the same columns although they are
      inserted by position, exactly when every type is restorable. */
  lemma RestoreInvertsSaveIff(cast: Cast, ty: Typing, reg: Registry, texts: map<int, string>, t: Table, old_: seq<ColumnRow>, data: seq<seq<Value>>)
    requires Enforced(t) && TableOk(ty, reg.types, t) && TypesOk(ty, reg, texts) && CastOk(cast) && t.phys != []
    requires DataFits(Physical(t.phys, data)) && LegacyOf(old_, t.rows)
    ensures GivesBack(RestoreTable(cast, texts, old_, Export(Physical(t.phys, data)), |data|), t, data) <==> AllRestorable(t.phys)
  {
    var restored := RestoreTable(cast, texts, old_, Export(Physical(t.phys, data)), |data|);
    RestoreIs(cast, ty, reg, texts, t, old_, data);
    if AllRestorable(t.phys) {
      RestorableGivesBack(cast, ty, reg, texts, t, old_, data);
    } else if GivesBack(restored, t, data) {
      forall k | 0 <= k < |t.phys|
        ensures Restorable(t.phys[k].duckType)
      {
        SoundColumn(ty, reg, texts, t, k);
        assert restored.value.1.cols[k] == RestoredColumn(texts, ActiveRows(t.rows)[k]);
        TypeIsRestoredIff(ty, reg, texts, t.phys[k].duckType, ActiveRows(t.rows)[k]);
      }
    }
  }

  /** The check at startup passes exactly when the catalog's spelling of every type is DuckDB's own,
      up to case. */
  lemma CheckPassesIffSpelled(ty: Typing, reg: Registry, texts: map<int, string>, t: Table)
    requires TableOk(ty, reg.types, t) && TypesOk(ty, reg, texts)
    ensures CatalogMatches(ty, reg, texts, t.rows, t.phys) <==>
            forall k :: 0 <= k < |t.phys| ==>
              PrintedText(ty, reg, texts, t.phys[k].duckType).Some?
              && EqIgnoreCase(PrintedText(ty, reg, texts, t.phys[k].duckType).value, t.phys[k].duckType)
  {
    forall k | 0 <= k < |t.phys|
      ensures CatalogType(texts, ActiveRows(t.rows)[k]) == PrintedText(ty, reg, texts, t.phys[k].duckType)
      ensures EqIgnoreCase(ActiveRows(t.rows)[k].name, t.phys[k].name)
      ensures TypeIdIn(ty, reg.types, t.phys[k].duckType) == Some(ActiveRows(t.rows)[k].typeId)
    {
      ActiveRowsAreViews(t.rows, k);
      assert RowView(ActiveRows(t.rows)[k]) == DuckView(ty, reg.types, t.phys[k]);
    }
  }

  /** A table with a FLOAT column never passes: the catalog calls the type REAL. */
  lemma FloatFailsTheCheck(ty: Typing, reg: Registry, texts: map<int, string>, t: Table, k: nat)
    requires TableOk(ty, reg.types, t) && TypesOk(ty, reg, texts) && k < |t.phys| && t.phys[k].duckType == "FLOAT"
    ensures !CatalogMatches(ty, reg, texts, t.rows, t.phys)
  {
    CheckPassesIffSpelled(ty, reg, texts, t);
    FloatIsRespelled();
    KnownTypeHasText(ty, reg, texts, "FLOAT");
    assert PrintedText(ty, reg, texts, t.phys[k].duckType) == Some("REAL");
    assert Lower("REAL")[0] == 'r' && Lower("FLOAT")[0] == 'f';
  }

  /** The restored columns of this type pass the check: they are not REAL, which DuckDB calls FLOAT, nor TEXT,
      which is printed as VARCHAR, nor complex types that look like a DECIMAL. */
  predicate PassesWhenRestored(duckType: string) {
    match ScalarTypeId(duckType)
    case Some(id) => id != TYPE_FLOAT4 && id != TYPE_TEXT
    case None => !IsDecimal(duckType)
  }

  ghost predicate RestoredMatches(ty: Typing, reg: Registry, texts: map<int, string>, id: int, text: string) {
    TypeIdIn(ty, reg.types, DuckReports(text)) == Some(id) && EqIgnoreCase(text, DuckReports(text))
  }

  lemma NumericPassesWhenRestored(ty: Typing, reg: Registry, texts: map<int, string>, modifier: int)
    requires TypesOk(ty, reg, texts) && DecodeDecimal(modifier).Some?
    ensures RestoredMatches(ty, reg, texts, TYPE_NUMERIC, TypeWithModifier("DECIMAL", modifier))
  {
    var (p, s) := DecodeDecimal(modifier).value;
    DecimalIsDecimal();
    DecimalTextIsNumeric(p, s);
    assert |DecimalText(p, s)| > 8;
  }

  lemma ScalarPassesWhenRestored(ty: Typing, reg: Registry, texts: map<int, string>, id: int, modifier: int)
    requires TypesOk(ty, reg, texts) && TYPE_BOOL <= id < TYPE_NUMERIC
    ensures RestoredMatches(ty, reg, texts, id, TypeWithModifier(BuiltinPhysicalType(id), modifier)) <==> id != TYPE_FLOAT4 && id != TYPE_TEXT
  {
    OnlyNumericIsDecimal(id);
    BuiltinReported(id, modifier);
    BuiltinIsRead(id);
    FloatReads();
    assert Lower("REAL")[0] == 'r' && Lower("FLOAT")[0] == 'f';
  }

  lemma ComplexPassesWhenRestored(ty: Typing, reg: Registry, texts: map<int, string>, duckType: string, modifier: int)
    requires TypesOk(ty, reg, texts) && ScalarTypeId(duckType).None? && duckType in reg.types && IsValidModifier(duckType, modifier)
    ensures RestoredMatches(ty, reg, texts, reg.types[duckType], TypeWithModifier(duckType, modifier)) <==> !IsDecimal(duckType)
  {
    if IsDecimal(duckType) {
      var (p, s) := DecodeDecimal(modifier).value;
      DecimalTextIsNumeric(p, s);
      assert |DecimalText(p, s)| > 8;
    } else {
      ComplexIsReportedAsIs(duckType);
    }
  }

  lemma ColumnPassesWhenRestoredIff(ty: Typing, reg: Registry, texts: map<int, string>, duckType: string, r: ColumnRow)
    requires TypesOk(ty, reg, texts) && TypeIdIn(ty, reg.types, duckType) == Some(r.typeId) && ValidRow(texts, r)
    ensures ColumnMatches(ty, reg, texts, r, RestoredColumn(texts, r)) <==> PassesWhenRestored(duckType)
  {
    KnownTypeHasText(ty, reg, texts, duckType);
    assert ColumnMatches(ty, reg, texts, r, RestoredColumn(texts, r)) <==>
           RestoredMatches(ty, reg, texts, r.typeId, TypeWithModifier(texts[r.typeId], r.typmod));
    match ScalarTypeId(duckType)
    case None => ComplexPassesWhenRestored(ty, reg, texts, duckType, r.typmod);
    case Some(id) => {
      SpellingIdsAreBuiltin();
      MatchedIdIsBuiltin(Lower(duckType), SPELLINGS);
      if id == TYPE_NUMERIC {
        NumericHasText(ty, reg, texts);
        NumericPassesWhenRestored(ty, reg, texts, r.typmod);
      } else {
        ScalarPassesWhenRestored(ty, reg, texts, id, r.typmod);
      }
    }
  }

  /** A table that could be restored, whether or not its types changed on the way, passes the check exactly
      when none of its columns is of these types. */
  lemma RestoredPassesTheCheckIff(ty: Typing, reg: Registry, texts: map<int, string>, t: Table)
    requires TableOk(ty, reg.types, t) && TypesOk(ty, reg, texts) && AllValid(texts, ActiveRows(t.rows))
    ensures CatalogMatches(ty, reg, texts, t.rows, RestoredColumns(texts, t.rows)) <==>
            forall k :: 0 <= k < |t.phys| ==> PassesWhenRestored(t.phys[k].duckType)
  {
    assert |ActiveRows(t.rows)| == |t.phys|;
    forall k | 0 <= k < |t.phys|
      ensures ColumnMatches(ty, reg, texts, ActiveRows(t.rows)[k], RestoredColumns(texts, t.rows)[k]) <==> PassesWhenRestored(t.phys[k].duckType)
    {
      SoundColumn(ty, reg, texts, t, k);
      ColumnPassesWhenRestoredIff(ty, reg, texts, t.phys[k].duckType, ActiveRows(t.rows)[k]);
    }
  }

  /** Given back and accepted at startup are exactly the types the catalog spells as DuckDB reports them. */
  lemma RestorableAndPassesIff(duckType: string)
    ensures Restorable(duckType) && PassesWhenRestored(duckType) <==> Faithful(duckType) && duckType != "REAL"
  {
    if duckType == "FLOAT" {
      FloatReads();
      FloatIsUnfaithful();
    } else if Faithful(duckType) && duckType != "REAL" && ScalarTypeId(duckType).Some? {
      CanonicalIsOwnName(duckType);
    }
  }

  lemma FloatIsUnfaithful()
    ensures !Faithful("FLOAT")
  {
    FloatIsRespelled();
    SpellingIsKeptIffCanonical("FLOAT");
  }

  lemma CanonicalIsOwnName(duckType: string)
    requires ScalarTypeId(duckType).Some? && CanonicalScalar(duckType) && duckType != "REAL"
    ensures ScalarTypeId(duckType).value != TYPE_FLOAT4 && ScalarTypeId(duckType).value != TYPE_TEXT
  {
    VarcharIsRead();
    if IsDecimalText(duckType) {
      DecimalTextIsKept(duckType);
    }
  }

  lemma RestoredView(ty: Typing, reg: Registry, texts: map<int, string>, t: Table, k: nat)
    requires TableOk(ty, reg.types, t) && TypesOk(ty, reg, texts) && k < |t.phys| && Restorable(t.phys[k].duckType)
    ensures |ActiveRows(t.rows)| == |t.phys| && ValidRow(texts, ActiveRows(t.rows)[k])
    ensures DuckView(ty, reg.types, RestoredColumn(texts, ActiveRows(t.rows)[k])) == Views(t.rows)[k].(hasDef := false)
    ensures Views(t.rows)[k].hasDef == t.phys[k].default.Some?
  {
    SoundColumn(ty, reg, texts, t, k);
    TypeIsRestoredIff(ty, reg, texts, t.phys[k].duckType, ActiveRows(t.rows)[k]);
    ActiveRowsAreViews(t.rows, k);
    assert RowView(ActiveRows(t.rows)[k]) == DuckView(ty, reg.types, t.phys[k]);
  }

  /** Column defaults are not restored: catalog and DuckDB agree on a table given back exactly when no column
      had one. */
  lemma RestoredIsAlignedIffNoDefaults(ty: Typing, reg: Registry, texts: map<int, string>, t: Table)
    requires TableOk(ty, reg.types, t) && TypesOk(ty, reg, texts) && AllRestorable(t.phys)
    ensures AllValid(texts, ActiveRows(t.rows))
    ensures TableOk(ty, reg.types, t.(phys := RestoredColumns(texts, t.rows))) <==>
            forall k :: 0 <= k < |t.phys| ==> t.phys[k].default.None?
  {
    assert |ActiveRows(t.rows)| == |t.phys|;
    forall k | 0 <= k < |t.phys|
      ensures ValidRow(texts, ActiveRows(t.rows)[k])
      ensures DuckView(ty, reg.types, RestoredColumn(texts, ActiveRows(t.rows)[k])) == Views(t.rows)[k].(hasDef := false)
      ensures Views(t.rows)[k].hasDef == t.phys[k].default.Some?
    {
      RestoredView(ty, reg, texts, t, k);
    }
    var cols := RestoredColumns(texts, t.rows);
    if forall k :: 0 <= k < |t.phys| ==> t.phys[k].default.None? {
      assert Views(t.rows) == DuckViews(ty, reg.types, cols);
    } else {
      var k :| 0 <= k < |t.phys| && t.phys[k].default.Some?;
      assert DuckViews(ty, reg.types, cols)[k] != Views(t.rows)[k];
    }
  }

  lemma TextsOfAreOk(ty: Typing, reg: Registry)
    requires RegistryOk(reg) && (forall t :: ty.scalarId(t) == ScalarTypeId(t)) && (forall t :: ty.modifier(t) == TypeModifier(t))
    ensures TypesOk(ty, reg, TextsOf(reg))
  {
    forall t: string | ScalarTypeId(t).Some?
      ensures ScalarTypeId(t).value in TextsOf(reg) && TextsOf(reg)[ScalarTypeId(t).value] == BuiltinPhysicalType(ScalarTypeId(t).value)
    {
      SpellingIdsAreBuiltin();
      MatchedIdIsBuiltin(Lower(t), SPELLINGS);
    }
  }
}
