/** The restore of one relation step by step, and the round trip over whole runs. */
module SnapshotRestore {
  import opened Text
  import opened Oids
  import opened TableColumns
  import opened Consistency
  import opened CatalogRuns
  import opened NotNullFlags
  import opened TypeMapping
  import opened PrintedTypes
  import opened Snapshot
  import TypeTrees

  /// Updating by attnum

  function SetModifier(modifier: int): ColumnRow -> ColumnRow {
    (r: ColumnRow) => if r.typmod == -1 then r.(typmod := modifier) else r
  }

  /** Attnums are the key of a relation's rows, so an update by attnum changes one row. */
  lemma UpdateIsReplace(rows: seq<ColumnRow>, i: nat, change: ColumnRow -> ColumnRow)
    requires i < |rows| && forall j :: 0 <= j < |rows| && j != i ==> rows[j].attnum != rows[i].attnum
    ensures UpdateRow(rows, rows[i].attnum, change) == rows[i := change(rows[i])]
  {}

  lemma {:induction false} RepairAllCounts(rows: seq<ColumnRow>, files: seq<(string, string)>)
    ensures RepairAll(rows, files).Some? ==> |ActiveRows(rows)| == |files|
    decreases |rows|
  {
    if rows != [] {
      if rows[0].dropped {
        RepairAllCounts(rows[1..], files);
      } else if files != [] {
        RepairAllCounts(rows[1..], files[1..]);
      }
    }
  }

  lemma Halves<T>(s: seq<T>, i: nat)
    requires i < |s|
    ensures s[i..] == [s[i]] + s[i + 1..] && s[..i + 1] == s[..i] + [s[i]]
  {}

  lemma HalvesOfReplaced<T>(s: seq<T>, i: nat, x: T)
    requires i < |s|
    ensures s[i := x][..i + 1] == s[..i] + [x] && s[i := x][i + 1..] == s[i + 1..]
  {}

  /** The next column of the file is for row `i`, if that row is active. */
  lemma NextRow(rows: seq<ColumnRow>, i: nat, files: seq<(string, string)>, k: nat)
    requires i < |rows| && k <= |files| && |ActiveRows(rows[i..])| == |files| - k
    ensures rows[i].dropped ==> |ActiveRows(rows[i + 1..])| == |files| - k
    ensures !rows[i].dropped ==> k < |files| && |ActiveRows(rows[i + 1..])| == |files| - (k + 1)
    ensures var rest := if rows[i].dropped then RepairAll(rows[i + 1..], files[k..])
                        else if k < |files| then RepairAll(rows[i + 1..], files[k + 1..]) else None;
            var head := if rows[i].dropped then Some(rows[i]) else if k < |files| then RepairColumn(rows[i], files[k]) else None;
            RepairAll(rows[i..], files[k..]) == if head.None? || rest.None? then None else Some([head.value] + rest.value)
  {
    Halves(rows, i);
    if k < |files| {
      Halves(files, k);
    }
  }

  class Restore {
    const cast: Cast
    const texts: map<int, string>
    var rows: seq<ColumnRow>
    var table: Option<Physical>
    var available: bool

    /** The relation's catalog rows have been imported and its table does not exist yet. */
    constructor (cast: Cast, texts: map<int, string>, rows: seq<ColumnRow>)
      ensures this.cast == cast && this.texts == texts && this.rows == rows && table == None && available
    {
      this.cast, this.texts, this.rows := cast, texts, rows;
      table, available := None, true;
    }

    /** Compares one active row with its Parquet column and fills in a missing modifier. */
    method RepairOne(i: nat, file: (string, string)) returns (ok: bool)
      requires Ascending(rows) && i < |rows|
      modifies this`rows
      ensures ok == RepairColumn(old(rows[i]), file).Some?
      ensures ok ==> rows == old(rows)[i := RepairColumn(old(rows[i]), file).value] && Ascending(rows)
    {
      var r, modifier := rows[i], TypeModifier(file.1);
      if !EqIgnoreCase(r.name, file.0) {
        return false;
      }
      if r.typeId == TYPE_NUMERIC {
        if modifier < 0 {
          return false;
        }
        if r.typmod != -1 {
          if !EqIgnoreCase(TypeWithModifier("DECIMAL", r.typmod), file.1) {
            return false;
          }
        } else {
          UpdateIsReplace(rows, i, SetModifier(modifier));
          rows := UpdateRow(rows, r.attnum, SetModifier(modifier));
        }
      }
      assert rows == old(rows)[i := RepairColumn(r, file).value];
      return true;
    }

    method RepairRows(files: seq<(string, string)>) returns (ok: bool)
      requires Ascending(rows) && |ActiveRows(rows)| == |files|
      modifies this`rows
      ensures ok == RepairAll(old(rows), files).Some? && (ok ==> rows == RepairAll(old(rows), files).value)
    {
      ghost var was, whole := rows, RepairAll(rows, files);
      CollectsFromStart(whole);
      assert rows[0..] == rows && files[0..] == files && rows[..0] == [];
      var k := 0;
      for i := 0 to |rows|
        invariant |rows| == |was| && rows[i..] == was[i..] && k <= |files| && Ascending(rows)
        invariant |ActiveRows(was[i..])| == |files| - k
        invariant Collects(whole, rows[..i], RepairAll(was[i..], files[k..]))
      {
        NextRow(was, i, files, k);
        assert rows[i] == was[i] && rows[i + 1..] == was[i + 1..];
        if rows[i].dropped {
          CollectsWith(whole, rows[..i], was[i], RepairAll(was[i + 1..], files[k..]));
          Halves(rows, i);
        } else {
          var before := rows;
          var repaired := RepairOne(i, files[k]);
          if !repaired {
            return false;
          }
          CollectsWith(whole, before[..i], rows[i], RepairAll(was[i + 1..], files[k + 1..]));
          HalvesOfReplaced(before, i, rows[i]);
          k := k + 1;
        }
      }
      assert was[|rows|..] == [] && rows[..|rows|] == rows;
      CollectsToEnd(whole, rows);
      return true;
    }

    /** `repair_legacy_decimal_modifiers_from_parquet` */
    method RepairLegacyDecimalModifiersFromParquet(files: seq<(string, string)>) returns (ok: bool)
      requires Ascending(rows)
      modifies this`rows
      ensures ok == Repair(old(rows), files).Some? && (ok ==> rows == Repair(old(rows), files).value)
    {
      if !AnyLegacy(rows) {
        return true;
      }
      RepairAllCounts(rows, files);
      if |ActiveRows(rows)| != |files| {
        return false;
      }
      ok := RepairRows(files);
    }

    /** `restore_snapshot_table`: without its data file the relation is only marked unavailable. */
    method RestoreSnapshotTable(file: Option<Parquet>, rowCount: int) returns (ok: bool)
      requires Ascending(rows) && table.None?
      modifies this
      ensures file.None? ==> ok && !available && table.None? && rows == old(rows)
      ensures file.Some? ==> ok == RestoreTable(cast, texts, old(rows), file.value, rowCount).Some?
      ensures file.Some? && ok ==>
                && table.Some? && available == old(available)
                && Some((rows, table.value)) == RestoreTable(cast, texts, old(rows), file.value, rowCount)
    {
      if file.None? {
        available := false;
        return true;
      }
      ok := RepairLegacyDecimalModifiersFromParquet(file.value.cols);
      if !ok {
        return false;
      }
      var defs := Definitions(texts, rows);
      if defs.None? {
        return false;
      }
      var cols := Created(defs.value);
      if cols.None? {
        return false;
      }
      table := Some(Physical(cols.value, []));
      var data := InsertAll(cast, file.value.cols, cols.value, file.value.data);
      if data.None? {
        return false;
      }
      table := Some(Physical(cols.value, data.value));
      return |data.value| == rowCount;
    }
  }

  /// Whole runs

  /** What a run leaves of a table that stores rows, as the lemmas on snapshots take it. */
  lemma RunTable(duck: DuckTypes, ss: seq<Statement>, rel: int)
    requires IsTable(Run(Rsduck(duck), NO_RELATIONS, ss), rel)
    ensures var db := Run(Rsduck(duck), NO_RELATIONS, ss);
            && RegistryOk(db.reg) && TableOk(Rsduck(duck), db.reg.types, db.tables[rel])
            && TypesOk(Rsduck(duck), db.reg, TextsOf(db.reg))
            && FlagsOk(db.tables[rel], RunMarks(Rsduck(duck), NO_RELATIONS, ss, rel, []))
  {
    var ty := Rsduck(duck);
    var db := Run(ty, NO_RELATIONS, ss);
    EveryRunIsSound(ty, ss);
    assert RelationOk(ty, db, rel);
    TextsOfAreOk(ty, db.reg);
    RunFlags(ty, NO_RELATIONS, ss, rel, []);
  }

  /** After any run of table statements, save and restore give a table back, with its types and with its rows in
      the same columns, also when DECIMAL modifiers were missing, exactly when every type is restorable; and
      it then passes the check at startup exactly when every type is spelled by the catalog as DuckDB
      reports it, so when none is FLOAT. */
  lemma TableSurvivesASnapshotIff(
    cast: Cast, duck: DuckTypes, ss: seq<Statement>, rel: int, old_: seq<ColumnRow>, data: seq<seq<Value>>)
    requires IsTable(Run(Rsduck(duck), NO_RELATIONS, ss), rel) && CastOk(cast)
    requires var t := Run(Rsduck(duck), NO_RELATIONS, ss).tables[rel];
             t.phys != [] && DataFits(Physical(t.phys, data)) && LegacyOf(old_, t.rows)
    ensures RegistryOk(Run(Rsduck(duck), NO_RELATIONS, ss).reg)
    ensures var ty, db := Rsduck(duck), Run(Rsduck(duck), NO_RELATIONS, ss);
            var t := db.tables[rel];
            var restored := RestoreTable(cast, TextsOf(db.reg), old_, Export(Physical(t.phys, data)), |data|);
            && (GivesBack(restored, t, data) <==> AllRestorable(t.phys))
            && (GivesBack(restored, t, data) && CatalogMatches(ty, db.reg, TextsOf(db.reg), t.rows, restored.value.1.cols) <==>
                forall k :: 0 <= k < |t.phys| ==> Faithful(t.phys[k].duckType) && t.phys[k].duckType != "REAL")
  {
    var db := Run(Rsduck(duck), NO_RELATIONS, ss);
    RunTable(duck, ss, rel);
    EnforcedByFlags(db.tables[rel], RunMarks(Rsduck(duck), NO_RELATIONS, ss, rel, []));
    SurvivesIff(cast, Rsduck(duck), db.reg, TextsOf(db.reg), db.tables[rel], old_, data);
  }

  lemma EnforcedByFlags(t: Table, marks: seq<bool>)
    requires FlagsOk(t, marks)
    ensures Enforced(t)
  {}

  lemma SurvivesIff(cast: Cast, ty: Typing, reg: Registry, texts: map<int, string>, t: Table, old_: seq<ColumnRow>, data: seq<seq<Value>>)
    requires Enforced(t) && TableOk(ty, reg.types, t) && TypesOk(ty, reg, texts) && CastOk(cast) && t.phys != []
    requires DataFits(Physical(t.phys, data)) && LegacyOf(old_, t.rows)
    ensures var restored := RestoreTable(cast, texts, old_, Export(Physical(t.phys, data)), |data|);
            && (GivesBack(restored, t, data) <==> AllRestorable(t.phys))
            && (GivesBack(restored, t, data) && CatalogMatches(ty, reg, texts, t.rows, restored.value.1.cols) <==>
                forall k :: 0 <= k < |t.phys| ==> Faithful(t.phys[k].duckType) && t.phys[k].duckType != "REAL")
  {
    var restored := RestoreTable(cast, texts, old_, Export(Physical(t.phys, data)), |data|);
    RestoreInvertsSaveIff(cast, ty, reg, texts, t, old_, data);
    RestoreIs(cast, ty, reg, texts, t, old_, data);
    forall k | 0 <= k < |t.phys|
      ensures Restorable(t.phys[k].duckType) && PassesWhenRestored(t.phys[k].duckType) <==>
              Faithful(t.phys[k].duckType) && t.phys[k].duckType != "REAL"
    {
      RestorableAndPassesIff(t.phys[k].duckType);
    }
    if restored.Some? {
      RestoredPassesTheCheckIff(ty, reg, texts, t);
    }
  }

  /** Whatever a restore makes of the data, the columns of the table it leaves are those of the catalog: names up
      to case, types as DuckDB reports what the catalog prints, and NOT NULL as in DuckDB before exactly on the
      columns that are not marked. Undeclared primary key columns, not renamed or retyped since, come back
      nullable. */
  lemma RestoredTableIs(
    cast: Cast, duck: DuckTypes, ss: seq<Statement>, rel: int, old_: seq<ColumnRow>, data: seq<seq<Value>>, k: nat)
    requires IsTable(Run(Rsduck(duck), NO_RELATIONS, ss), rel)
    requires var t := Run(Rsduck(duck), NO_RELATIONS, ss).tables[rel]; k < |t.phys| && LegacyOf(old_, t.rows)
    ensures RegistryOk(Run(Rsduck(duck), NO_RELATIONS, ss).reg)
    ensures var ty, db := Rsduck(duck), Run(Rsduck(duck), NO_RELATIONS, ss);
            var t := db.tables[rel];
            var restored := RestoreTable(cast, TextsOf(db.reg), old_, Export(Physical(t.phys, data)), |data|);
            var marks := RunMarks(ty, NO_RELATIONS, ss, rel, []);
            restored.Some? ==>
              && restored.value.0 == t.rows && |restored.value.1.cols| == |t.phys| == |marks|
              && var col, spelling := restored.value.1.cols[k], PrintedText(ty, db.reg, TextsOf(db.reg), t.phys[k].duckType);
                 && EqIgnoreCase(col.name, t.phys[k].name) && spelling.Some? && col.duckType == DuckReports(spelling.value)
                 && (col.notNull == t.phys[k].notNull <==> !marks[k])
  {
    var db := Run(Rsduck(duck), NO_RELATIONS, ss);
    RunTable(duck, ss, rel);
    var marks := RunMarks(Rsduck(duck), NO_RELATIONS, ss, rel, []);
    RestoredColumnIs(cast, Rsduck(duck), db.reg, TextsOf(db.reg), db.tables[rel], marks, old_, data, k);
  }

  lemma RestoredColumnIs(
    cast: Cast, ty: Typing, reg: Registry, texts: map<int, string>, t: Table, marks: seq<bool>, old_: seq<ColumnRow>,
    data: seq<seq<Value>>, k: nat)
    requires TableOk(ty, reg.types, t) && TypesOk(ty, reg, texts) && FlagsOk(t, marks) && k < |t.phys| && LegacyOf(old_, t.rows)
    ensures var restored := RestoreTable(cast, texts, old_, Export(Physical(t.phys, data)), |data|);
            restored.Some? ==>
              && restored.value.0 == t.rows && |restored.value.1.cols| == |t.phys| == |marks|
              && var col, spelling := restored.value.1.cols[k], PrintedText(ty, reg, texts, t.phys[k].duckType);
                 && EqIgnoreCase(col.name, t.phys[k].name) && spelling.Some? && col.duckType == DuckReports(spelling.value)
                 && (col.notNull == t.phys[k].notNull <==> !marks[k])
  {
    RestoreIs(cast, ty, reg, texts, t, old_, data);
    SoundColumn(ty, reg, texts, t, k);
  }

  /** A restore, and with it the start, is refused whatever the data if some column is filed as a DECIMAL whose
      precision is not known; with all modifiers stored it is refused otherwise only if a value does not
      convert. */
  lemma RestoreIsRefused(
    cast: Cast, duck: DuckTypes, ss: seq<Statement>, rel: int, old_: seq<ColumnRow>, data: seq<seq<Value>>)
    requires IsTable(Run(Rsduck(duck), NO_RELATIONS, ss), rel)
    requires var t := Run(Rsduck(duck), NO_RELATIONS, ss).tables[rel]; t.phys != [] && LegacyOf(old_, t.rows)
    ensures RegistryOk(Run(Rsduck(duck), NO_RELATIONS, ss).reg)
    ensures var db := Run(Rsduck(duck), NO_RELATIONS, ss);
            var t := db.tables[rel];
            var restored := RestoreTable(cast, TextsOf(db.reg), old_, Export(Physical(t.phys, data)), |data|);
            if exists k :: 0 <= k < |t.phys| && NeedsPrecision(t.phys[k].duckType) && TypeModifier(t.phys[k].duckType) == -1
            then restored.None?
            else AllValid(TextsOf(db.reg), ActiveRows(t.rows)) && (old_ == t.rows ==> restored == Loaded(cast, TextsOf(db.reg), t, data))
  {
    var ty, db := Rsduck(duck), Run(Rsduck(duck), NO_RELATIONS, ss);
    RunTable(duck, ss, rel);
    RestoreIs(cast, ty, db.reg, TextsOf(db.reg), db.tables[rel], old_, data);
    RowsAreValidIff(ty, db.reg, TextsOf(db.reg), db.tables[rel]);
  }

  /** `CREATE TABLE t (tags DECIMAL(10,2)[])`: no snapshot of it can be restored. */
  lemma DecimalListIsRefused(cast: Cast, duck: DuckTypes, data: seq<seq<Value>>)
    ensures var create := CreateTable([ColumnDef("tags", "DECIMAL(10,2)[]", false, false, None)]);
            var db := Run(Rsduck(duck), NO_RELATIONS, [create]);
            && IsTable(db, FIRST_USER_OID) && RegistryOk(db.reg)
            && var t := db.tables[FIRST_USER_OID];
               && |t.phys| == 1 && t.phys[0].duckType == "DECIMAL(10,2)[]"
               && RestoreTable(cast, TextsOf(db.reg), t.rows, Export(Physical(t.phys, data)), |data|).None?
  {
    var def := ColumnDef("tags", "DECIMAL(10,2)[]", false, false, None);
    TypeTrees.DecimalListText();
    OneColumnTable(Rsduck(duck), def);
    RunTable(duck, [CreateTable([def])], FIRST_USER_OID);
    RestoreIsRefused(cast, duck, [CreateTable([def])], FIRST_USER_OID, Run(Rsduck(duck), NO_RELATIONS, [CreateTable([def])]).tables[FIRST_USER_OID].rows, data);
  }
}
