/** The rows of rs_column as the checksum query selects them, and what they say about the tables. */
module ColumnCells {
  import opened Text
  import opened Oids
  import opened CatalogChecksum
  import CatalogKernel
  import TableColumns
  import TableChanges

  type ColumnRow = TableColumns.ColumnRow
  type Relations = map<int, TableColumns.Table>

  /** Different names have different bytes. */
  ghost predicate OneToOne(utf8: string -> Bytes) { forall a, b :: utf8(a) == utf8(b) ==> a == b }

  function Flag(b: bool): Bytes { if b then Ascii("true") else Ascii("false") }

  /** attrelid, attname, atttypid, attnum, atttypmod, attnotnull, atthasdef, attisdropped, and the three texts
      that stay empty. */
  function Cells(utf8: string -> Bytes, rel: int, r: ColumnRow): (cells: Row)
    ensures |cells| == 11
  {
    [CatalogKernel.Cell(rel), utf8(r.name), CatalogKernel.Cell(r.typeId), CatalogKernel.Cell(r.attnum), CatalogKernel.Cell(r.typmod),
     Flag(r.notNull), Flag(r.hasDef), Flag(r.dropped), [], [], []]
  }

  function RowsOf(utf8: string -> Bytes, rel: int, rows: seq<ColumnRow>): (t: Table)
    ensures |t| == |rows| && forall i :: 0 <= i < |t| ==> t[i] == Cells(utf8, rel, rows[i])
  {
    seq(|rows|, i requires 0 <= i < |rows| => Cells(utf8, rel, rows[i]))
  }

  function RowsAt(tables: Relations, rel: int): seq<ColumnRow> { if rel in tables then tables[rel].rows else [] }

  /** The rows of the relations `i` to `n - 1`, by attrelid and within a relation by attnum. */
  function ColumnsFrom(utf8: string -> Bytes, tables: Relations, i: int, n: int): Table
    decreases n - i
  {
    if i >= n then [] else RowsOf(utf8, i, RowsAt(tables, i)) + ColumnsFrom(utf8, tables, i + 1, n)
  }

  lemma {:induction false} ColumnRowsHaveElevenCells(utf8: string -> Bytes, tables: Relations, i: int, n: int)
    ensures forall k :: 0 <= k < |ColumnsFrom(utf8, tables, i, n)| ==> |ColumnsFrom(utf8, tables, i, n)[k]| == 11
    decreases n - i
  {
    if i < n {
      ColumnRowsHaveElevenCells(utf8, tables, i + 1, n);
    }
  }

  /** The rows of every relation a statement created. */
  function ColumnTable(utf8: string -> Bytes, db: TableChanges.Db): Table {
    ColumnsFrom(utf8, db.tables, FIRST_USER_OID, db.reg.nextOid)
  }

  /// Cells determine what they show

  lemma NumberCellsDiffer(a: nat, b: nat)
    requires CatalogKernel.LengthDigits(a) == CatalogKernel.LengthDigits(b)
    ensures a == b
  {
    DecIsAscii(a);
    DecIsAscii(b);
    AsciiInjective(Dec(a), Dec(b));
    DecInjective(a, b);
  }

  lemma DigitsHaveNoSign(n: nat)
    ensures CatalogKernel.LengthDigits(n) != [] && CatalogKernel.LengthDigits(n)[0] != 45
  {
    DecIsAscii(n);
    var d := Dec(n);
    assert IsDigit(d[0]);
  }

  lemma CellInjective(a: int, b: int)
    requires CatalogKernel.Cell(a) == CatalogKernel.Cell(b)
    ensures a == b
  {
    if a < 0 && b < 0 {
      var x, y := CatalogKernel.Cell(a), CatalogKernel.Cell(b);
      assert x[1..] == CatalogKernel.LengthDigits(-a) && y[1..] == CatalogKernel.LengthDigits(-b);
      NumberCellsDiffer(-a, -b);
    } else if a < 0 {
      DigitsHaveNoSign(b);
    } else if b < 0 {
      DigitsHaveNoSign(a);
    } else {
      NumberCellsDiffer(a, b);
    }
  }

  lemma FlagInjective(a: bool, b: bool)
    requires Flag(a) == Flag(b)
    ensures a == b
  {
    assert |Ascii("true")| == 4 && |Ascii("false")| == 5;
  }

  lemma CellsInjective(utf8: string -> Bytes, rel: int, r: ColumnRow, q: ColumnRow)
    requires OneToOne(utf8) && Cells(utf8, rel, r) == Cells(utf8, rel, q)
    ensures r == q
  {
    var x, y := Cells(utf8, rel, r), Cells(utf8, rel, q);
    assert x[1] == y[1] && x[2] == y[2] && x[3] == y[3] && x[4] == y[4] && x[5] == y[5] && x[6] == y[6] && x[7] == y[7];
    CellInjective(r.typeId, q.typeId);
    CellInjective(r.attnum, q.attnum);
    CellInjective(r.typmod, q.typmod);
    FlagInjective(r.notNull, q.notNull);
    FlagInjective(r.hasDef, q.hasDef);
    FlagInjective(r.dropped, q.dropped);
  }

  /// The table determines every relation's rows

  lemma {:induction false} LaterRowsAreOthers(utf8: string -> Bytes, tables: Relations, i: int, n: int, rel: int, k: nat)
    requires rel < i && k < |ColumnsFrom(utf8, tables, i, n)|
    ensures |ColumnsFrom(utf8, tables, i, n)[k]| == 11 && ColumnsFrom(utf8, tables, i, n)[k][0] != CatalogKernel.Cell(rel)
    decreases n - i
  {
    var own := RowsOf(utf8, i, RowsAt(tables, i));
    if k < |own| {
      if CatalogKernel.Cell(i) == CatalogKernel.Cell(rel) {
        CellInjective(i, rel);
      }
    } else {
      LaterRowsAreOthers(utf8, tables, i + 1, n, rel, k - |own|);
    }
  }

  /** Where the rows of relation `i` end is determined. */
  lemma OwnRowsEnd(utf8: string -> Bytes, a: Relations, b: Relations, i: int, n: int)
    requires i < n && ColumnsFrom(utf8, a, i, n) == ColumnsFrom(utf8, b, i, n)
    ensures |RowsAt(b, i)| <= |RowsAt(a, i)|
  {
    var x, y := RowsOf(utf8, i, RowsAt(a, i)), RowsOf(utf8, i, RowsAt(b, i));
    var s := ColumnsFrom(utf8, a, i, n);
    if |x| < |y| {
      assert s[|x|] == y[|x|] && s[|x|][0] == CatalogKernel.Cell(i);
      assert s[|x|] == ColumnsFrom(utf8, a, i + 1, n)[0];
      LaterRowsAreOthers(utf8, a, i + 1, n, i, 0);
    }
  }

  lemma SameRows(utf8: string -> Bytes, rel: int, p: seq<ColumnRow>, q: seq<ColumnRow>)
    requires OneToOne(utf8) && RowsOf(utf8, rel, p) == RowsOf(utf8, rel, q)
    ensures p == q
  {
    assert |p| == |RowsOf(utf8, rel, p)| == |RowsOf(utf8, rel, q)| == |q|;
    forall k | 0 <= k < |p|
      ensures p[k] == q[k]
    {
      assert RowsOf(utf8, rel, p)[k] == RowsOf(utf8, rel, q)[k];
      CellsInjective(utf8, rel, p[k], q[k]);
    }
  }

  lemma {:induction false} ColumnsDetermineRows(utf8: string -> Bytes, a: Relations, b: Relations, i: int, n: int, rel: int)
    requires OneToOne(utf8) && i <= rel < n && ColumnsFrom(utf8, a, i, n) == ColumnsFrom(utf8, b, i, n)
    ensures RowsAt(a, rel) == RowsAt(b, rel)
    decreases n - i
  {
    OwnRowsEnd(utf8, a, b, i, n);
    OwnRowsEnd(utf8, b, a, i, n);
    var x, y, s, t := RowsOf(utf8, i, RowsAt(a, i)), RowsOf(utf8, i, RowsAt(b, i)), ColumnsFrom(utf8, a, i + 1, n), ColumnsFrom(utf8, b, i + 1, n);
    assert x == (x + s)[..|x|] == (y + t)[..|x|] == y;
    assert s == (x + s)[|x|..] == (y + t)[|x|..] == t;
    if rel == i {
      SameRows(utf8, i, RowsAt(a, i), RowsAt(b, i));
    } else {
      ColumnsDetermineRows(utf8, a, b, i + 1, n, rel);
    }
  }

  lemma {:induction false} NothingAbove(utf8: string -> Bytes, tables: Relations, i: int, n: int, m: int)
    requires n <= m && forall r <- tables :: r < n
    ensures ColumnsFrom(utf8, tables, i, n) == ColumnsFrom(utf8, tables, i, m)
    decreases m - i
  {
    if i < m {
      NothingAbove(utf8, tables, i + 1, n, m);
    }
  }

  /** Equal rs_column tables file the same columns for every relation. */
  lemma ColumnTableDeterminesRows(utf8: string -> Bytes, a: TableChanges.Db, b: TableChanges.Db, rel: int)
    requires OneToOne(utf8) && ColumnTable(utf8, a) == ColumnTable(utf8, b)
    requires (forall r <- a.tables :: FIRST_USER_OID <= r < a.reg.nextOid) && forall r <- b.tables :: FIRST_USER_OID <= r < b.reg.nextOid
    ensures RowsAt(a.tables, rel) == RowsAt(b.tables, rel)
  {
    var n := if a.reg.nextOid < b.reg.nextOid then b.reg.nextOid else a.reg.nextOid;
    NothingAbove(utf8, a.tables, FIRST_USER_OID, a.reg.nextOid, n);
    NothingAbove(utf8, b.tables, FIRST_USER_OID, b.reg.nextOid, n);
    if FIRST_USER_OID <= rel < n {
      ColumnsDetermineRows(utf8, a.tables, b.tables, FIRST_USER_OID, n, rel);
    }
  }
}
