/** Table statements as bodies of catalog transactions. */
module StatementRuns {
  import opened Text
  import opened Oids
  import opened CatalogChecksum
  import opened CatalogKernel
  import opened CatalogMutations
  import opened ColumnCells
  import TableColumns
  import TableChanges
  import Consistency
  import CatalogRuns

  type Tables = TableChanges.Db

  type Encoding = Tables -> OtherTables

  /** A statement on tables is refused, finds nothing to do, or journals the tables it leaves. */
  function TableStep(ty: TableColumns.Typing): (Tables, CatalogRuns.Statement) -> Outcome<Tables> {
    (d: Tables, s: CatalogRuns.Statement) =>
      match CatalogRuns.Apply(ty, d, s)
      case None => Refuse
      case Some(next) =>
        if next == d then Skip
        else Change(if next.reg.nextOid > d.reg.nextOid then next.reg.nextOid - d.reg.nextOid - 1 else 0, [], 0, [], next)
  }

  /** One statement in `run_catalog_tx`. */
  function Execute(ty: TableColumns.Typing, encode: Encoding, db: Db<Tables>, s: CatalogRuns.Statement): Db<Tables> {
    Transact(db, Body(PartsOf(encode, TableStep(ty), db.physical, [s])))
  }

  function Run(ty: TableColumns.Typing, encode: Encoding, db: Db<Tables>, ss: seq<CatalogRuns.Statement>): Db<Tables>
    decreases |ss|
  {
    if ss == [] then db else Run(ty, encode, Execute(ty, encode, db, ss[0]), ss[1..])
  }

  lemma FoldOfOne(ty: TableColumns.Typing, d: Tables, s: CatalogRuns.Statement)
    ensures var r := Fold(TableStep(ty), d, [s]);
            CatalogRuns.Execute(ty, d, s) == if r.Some? then r.value else d
  {
    assert [s][1..] == [];
  }

  /** Failing or not, a statement leaves a clean catalog whose rows are those of the tables `CatalogRuns`
      describes. */
  lemma ExecuteIs(ty: TableColumns.Typing, encode: Encoding, db: Db<Tables>, s: CatalogRuns.Statement)
    requires Clean(db) && Encoded(encode, db)
    ensures var db1 := Execute(ty, encode, db, s);
            Clean(db1) && Encoded(encode, db1) && db1.physical == CatalogRuns.Execute(ty, db.physical, s)
  {
    StatementIsAllOrNothing(encode, TableStep(ty), db, [s]);
    FoldOfOne(ty, db.physical, s);
  }

  lemma {:induction false} RunIs(ty: TableColumns.Typing, encode: Encoding, db: Db<Tables>, ss: seq<CatalogRuns.Statement>)
    requires Clean(db) && Encoded(encode, db)
    ensures var db1 := Run(ty, encode, db, ss);
            Clean(db1) && Encoded(encode, db1) && db1.physical == CatalogRuns.Run(ty, db.physical, ss)
    decreases |ss|
  {
    if ss != [] {
      ExecuteIs(ty, encode, db, ss[0]);
      RunIs(ty, encode, Execute(ty, encode, db, ss[0]), ss[1..]);
    }
  }

  /** From bootstrap on, whichever statements fail: between statements the journal is in order, the checksum
      is current and covers the rows of the tables, and catalog and DuckDB are in step. */
  lemma RunsAreCleanAndSound(ty: TableColumns.Typing, encode: Encoding, ss: seq<CatalogRuns.Statement>)
    ensures Bootstrap(encode(CatalogRuns.NO_RELATIONS), CatalogRuns.NO_RELATIONS).Some?
    ensures var db := Run(ty, encode, Bootstrap(encode(CatalogRuns.NO_RELATIONS), CatalogRuns.NO_RELATIONS).value, ss);
            && Clean(db) && Encoded(encode, db) && Consistency.DbOk(ty, db.physical)
            && db.physical == CatalogRuns.Run(ty, CatalogRuns.NO_RELATIONS, ss)
  {
    var empty := CatalogRuns.NO_RELATIONS;
    BootstrapIsClean(encode(empty), empty);
    BootstrapKeepsTables(encode(empty), empty);
    RunIs(ty, encode, Bootstrap(encode(empty), empty).value, ss);
    CatalogRuns.EveryRunIsSound(ty, ss);
  }

  /// What the checksum says about the catalog

  lemma StatusInjective(a: Status, b: Status)
    requires StatusCell(a) == StatusCell(b)
    ensures a == b
  {
    assert |Ascii("failed")| == 6 && |Ascii("pending")| == 7 && |Ascii("applied")| == 7;
    assert Ascii("pending")[0] == 'p' as byte && Ascii("applied")[0] == 'a' as byte;
  }

  lemma JournalCellsInjective(r: JournalRow, q: JournalRow)
    requires JournalCells(r) == JournalCells(q)
    ensures r == q
  {
    var x, y := JournalCells(r), JournalCells(q);
    assert x[0] == y[0] && x[1] == y[1] && x[2] == y[2] && x[3] == y[3] && x[4] == y[4] && x[5] == y[5] && x[6] == y[6];
    CellInjective(r.id, q.id);
    CellInjective(r.epoch, q.epoch);
    CellInjective(r.target, q.target);
    StatusInjective(r.status, q.status);
  }

  lemma SameJournal(p: seq<JournalRow>, q: seq<JournalRow>)
    requires JournalTable(p) == JournalTable(q)
    ensures p == q
  {
    assert |p| == |JournalTable(p)| == |JournalTable(q)| == |q|;
    forall i | 0 <= i < |p|
      ensures p[i] == q[i]
    {
      assert JournalTable(p)[i] == JournalCells(p[i]) && JournalTable(q)[i] == JournalCells(q[i]);
      JournalCellsInjective(p[i], q[i]);
    }
  }

  lemma SameTables<P>(a: Db<P>, b: Db<P>)
    requires CatalogKernel.Tables(a) == CatalogKernel.Tables(b)
    ensures a.epoch == b.epoch && a.nextOid == b.nextOid && a.journal == b.journal && a.others == b.others
  {
    var x, y := CatalogKernel.Tables(a), CatalogKernel.Tables(b);
    assert x[0][0][3] == Cell(a.epoch) && y[0][0][3] == Cell(b.epoch) && x[1][0][1] == Cell(a.nextOid) && y[1][0][1] == Cell(b.nextOid);
    assert x[2] == JournalTable(a.journal) && y[2] == JournalTable(b.journal) && x[3..] == a.others && y[3..] == b.others;
    CellInjective(a.epoch, b.epoch);
    CellInjective(a.nextOid, b.nextOid);
    SameJournal(a.journal, b.journal);
  }

  /** The hashed bytes hold the epoch, the next id, every row of the journal and the cells of the other tables, and
      nothing else: not DuckDB's own objects, and not the stored checksum. */
  lemma HashedBytesAreTheCatalog<P>(a: Db<P>, b: Db<P>)
    ensures Stream(CatalogKernel.Tables(a)) == Stream(CatalogKernel.Tables(b)) <==>
            a.epoch == b.epoch && a.nextOid == b.nextOid && a.journal == b.journal && a.others == b.others
  {
    StreamDeterminesCatalog(CatalogKernel.Tables(a), CatalogKernel.Tables(b));
    if CatalogKernel.Tables(a) == CatalogKernel.Tables(b) {
      SameTables(a, b);
    }
  }

  const COLUMNS := 3

  function WithColumns(others: OtherTables, utf8: string -> Bytes, d: Tables): OtherTables {
    assert OTHER_QUERIES[COLUMNS] == Query("rs_column", 11);
    ColumnRowsHaveElevenCells(utf8, d.tables, FIRST_USER_OID, d.reg.nextOid);
    ReplaceKeepsShape(others, COLUMNS, ColumnTable(utf8, d));
    others[COLUMNS := ColumnTable(utf8, d)]
  }

  /** The rows filed for rs_column are those of the tables; those of other catalog tables are left open. */
  function FilingColumns(utf8: string -> Bytes, others: Encoding): Encoding {
    (d: Tables) => WithColumns(others(d), utf8, d)
  }

  lemma RunIdsAreUserIds(ty: TableColumns.Typing, ss: seq<CatalogRuns.Statement>)
    ensures var d := CatalogRuns.Run(ty, CatalogRuns.NO_RELATIONS, ss); forall r <- d.tables :: FIRST_USER_OID <= r < d.reg.nextOid
  {
    assert Consistency.DbOk(ty, CatalogRuns.NO_RELATIONS);
    CatalogRuns.RunKeepsDb(ty, CatalogRuns.NO_RELATIONS, ss);
    CatalogRuns.IdsAreOld(ty, CatalogRuns.Run(ty, CatalogRuns.NO_RELATIONS, ss));
  }

  /** States of two runs whose checksums are taken of the same bytes have the same columns filed for every
      relation, down to each name, type, modifier and flag. */
  lemma HashedBytesDetermineColumns(
    ty: TableColumns.Typing, others: Encoding, utf8: string -> Bytes, a: Db<Tables>, b: Db<Tables>,
    ss: seq<CatalogRuns.Statement>, tt: seq<CatalogRuns.Statement>, rel: int)
    requires OneToOne(utf8)
    requires var empty, encode := CatalogRuns.NO_RELATIONS, FilingColumns(utf8, others);
             && Bootstrap(encode(empty), empty).Some?
             && a == Run(ty, encode, Bootstrap(encode(empty), empty).value, ss)
             && b == Run(ty, encode, Bootstrap(encode(empty), empty).value, tt)
    requires Stream(CatalogKernel.Tables(a)) == Stream(CatalogKernel.Tables(b))
    ensures RowsAt(a.physical.tables, rel) == RowsAt(b.physical.tables, rel)
  {
    var encode := FilingColumns(utf8, others);
    RunsAreCleanAndSound(ty, encode, ss);
    RunsAreCleanAndSound(ty, encode, tt);
    StreamDeterminesCatalog(CatalogKernel.Tables(a), CatalogKernel.Tables(b));
    assert CatalogKernel.Tables(a)[COLUMNS + 3] == a.others[COLUMNS] && CatalogKernel.Tables(b)[COLUMNS + 3] == b.others[COLUMNS];
    RunIdsAreUserIds(ty, ss);
    RunIdsAreUserIds(ty, tt);
    ColumnTableDeterminesRows(utf8, a.physical, b.physical, rel);
  }

  lemma BootstrapKeepsTables<P>(others: OtherTables, physical: P)
    ensures Bootstrap(others, physical).Some?
    ensures Bootstrap(others, physical).value.others == others && Bootstrap(others, physical).value.physical == physical
  {
    var rows := Db(FIRST_USER_OID, 0, "", [], others, physical);
    var b: seq<Action<P>> := Allocs(5) + [Rehash];
    ExecAllocates(Tx(rows, None), b, 5);
    assert b[5..] == [Rehash];
    var r: Action<P> := Rehash;
    assert [r][1..] == [];
  }
}
