/** The catalog checksum: every hashed table is fed to FNV-1a as length-prefixed parts. */
module CatalogChecksum {
  import opened Text
  import opened Fnv

  type Bytes = seq<byte>

  predicate IsAscii(s: string) { forall i :: 0 <= i < |s| ==> s[i] < 128 as char }

  function Ascii(s: string): (b: Bytes)
    requires IsAscii(s)
    ensures |b| == |s| && forall i :: 0 <= i < |s| ==> b[i] == s[i] as int
  {
    seq(|s|, i requires 0 <= i < |s| => s[i] as int as byte)
  }

  lemma AsciiInjective(s: string, t: string)
    requires IsAscii(s) && IsAscii(t) && Ascii(s) == Ascii(t)
    ensures s == t
  {
    forall i | 0 <= i < |s|
      ensures s[i] == t[i]
    {
      assert Ascii(s)[i] == Ascii(t)[i];
    }
  }

  lemma DecIsAscii(n: nat)
    ensures IsAscii(Dec(n))
  {
    var d := Dec(n);
    assert forall i :: 0 <= i < |d| ==> IsDigit(d[i]);
  }

  function LengthText(v: Bytes): Bytes {
    DecIsAscii(|v|);
    Ascii(Dec(|v|))
  }

  const COLON: byte := 58
  const SEMICOLON: byte := 59

  /// Framing

  /** `len:bytes;` */
  function Part(v: Bytes): Bytes { LengthText(v) + [COLON] + v + [SEMICOLON] }

  function Frames(parts: seq<Bytes>): Bytes {
    if parts == [] then [] else Part(parts[0]) + Frames(parts[1..])
  }

  /** The three bytes of "row" are framed as "3:row;". */
  lemma FrameOfRow(v: Bytes)
    requires v == [114, 111, 119]
    ensures Part(v) == [51, 58, 114, 111, 119, 59]
  {
    assert Dec(3) == ['3'];
    assert LengthText(v) == [51];
  }

  lemma LengthTextHasNoColon(v: Bytes)
    ensures COLON !in LengthText(v)
  {
    var d := Dec(|v|);
    assert forall i :: 0 <= i < |d| ==> IsDigit(d[i]);
  }

  /** The text before the first separator is determined. */
  lemma SplitAtColon(a: Bytes, x: Bytes, b: Bytes, y: Bytes)
    requires COLON !in a && COLON !in b
    requires a + [COLON] + x == b + [COLON] + y
    ensures a == b && x == y
  {
    var s, t := a + [COLON] + x, b + [COLON] + y;
    assert s[|a|] == COLON && t[|b|] == COLON;
    assert forall i :: 0 <= i < |a| ==> s[i] == a[i];
    assert forall i :: 0 <= i < |b| ==> t[i] == b[i];
    assert a == s[..|a|] == t[..|b|] == b;
    assert x == s[|a| + 1..] == t[|b| + 1..] == y;
  }

  lemma PartIsSelfDelimiting(v: Bytes, x: Bytes, w: Bytes, y: Bytes)
    requires Part(v) + x == Part(w) + y
    ensures v == w && x == y
  {
    LengthTextHasNoColon(v);
    LengthTextHasNoColon(w);
    var p, q := v + [SEMICOLON] + x, w + [SEMICOLON] + y;
    assert Part(v) + x == LengthText(v) + [COLON] + p;
    assert Part(w) + y == LengthText(w) + [COLON] + q;
    SplitAtColon(LengthText(v), p, LengthText(w), q);
    DecIsAscii(|v|);
    DecIsAscii(|w|);
    AsciiInjective(Dec(|v|), Dec(|w|));
    DecInjective(|v|, |w|);
    assert v == p[..|v|] == q[..|w|] == w;
    assert x == p[|v| + 1..] == q[|w| + 1..] == y;
  }

  /** The framing is uniquely decodable. */
  lemma {:induction false} FramesAreInjective(ps: seq<Bytes>, qs: seq<Bytes>)
    requires Frames(ps) == Frames(qs)
    ensures ps == qs
  {
    if ps != [] && qs != [] {
      PartIsSelfDelimiting(ps[0], Frames(ps[1..]), qs[0], Frames(qs[1..]));
      FramesAreInjective(ps[1..], qs[1..]);
      assert ps == [ps[0]] + ps[1..] && qs == [qs[0]] + qs[1..];
    }
  }

  lemma {:induction false} FramesAppend(a: seq<Bytes>, b: seq<Bytes>)
    ensures Frames(a + b) == Frames(a) + Frames(b)
  {
    if a == [] {
      assert a + b == b;
    } else {
      assert (a + b)[1..] == a[1..] + b;
      FramesAppend(a[1..], b);
    }
  }

  /// The hashed tables

  /** One row: its cells as text, in the order the query selects them. */
  type Row = seq<Bytes>

  /** The rows one checksum query returns, in its ORDER BY order. */
  type Table = seq<Row>

  /** A checksum query: its label and the number of columns it selects. */
  datatype Query = Query(name: string, columns: nat)

  const QUERIES: seq<Query> := [
    Query("rs_catalog_version", 5), Query("rs_oid_alloc", 2), Query("rs_catalog_journal", 7),
    Query("rs_schema", 4), Query("rs_type", 13), Query("rs_relation", 15), Query("rs_column", 11),
    Query("rs_column_default", 4), Query("rs_constraint", 11), Query("rs_index", 10),
    Query("rs_vector_index", 16), Query("rs_dependency", 7), Query("rs_comment", 4),
    Query("rs_relation_ext", 10), Query("rs_partition", 13), Query("rs_user", 8), Query("rs_role", 4),
    Query("rs_user_role", 3), Query("rs_privilege", 7)
  ]

  const ROW_MARK: Bytes := [114, 111, 119] // "row"

  ghost predicate LabelsAreTables(qs: seq<Query>) {
    forall i :: 0 <= i < |qs| ==> IsAscii(qs[i].name) && Ascii(qs[i].name) != ROW_MARK
  }

  lemma QueryLabelsAreTables()
    ensures LabelsAreTables(QUERIES)
  {
    forall i | 0 <= i < |QUERIES|
      ensures IsAscii(QUERIES[i].name) && |QUERIES[i].name| > 3
    {}
  }

  ghost predicate Shaped(qs: seq<Query>, tables: seq<Table>) {
    && |tables| == |qs|
    && forall i, r :: 0 <= i < |qs| && 0 <= r < |tables[i]| ==> |tables[i][r]| == qs[i].columns
  }

  function RowParts(rows: Table): seq<Bytes> {
    if rows == [] then [] else [ROW_MARK] + rows[0] + RowParts(rows[1..])
  }

  function CatalogParts(qs: seq<Query>, tables: seq<Table>): seq<Bytes>
    requires LabelsAreTables(qs) && |tables| == |qs|
  {
    if qs == [] then []
    else
      assert forall i :: 0 <= i < |qs[1..]| ==> qs[1..][i] == qs[i + 1];
      [Ascii(qs[0].name)] + RowParts(tables[0]) + CatalogParts(qs[1..], tables[1..])
  }

  /** A row marker cannot be taken for a label, so the rows before `rest` are determined. */
  lemma {:induction false} RowsAreDetermined(a: Table, x: seq<Bytes>, b: Table, y: seq<Bytes>, n: nat)
    requires forall r :: 0 <= r < |a| ==> |a[r]| == n
    requires forall r :: 0 <= r < |b| ==> |b[r]| == n
    requires (x != [] ==> x[0] != ROW_MARK) && (y != [] ==> y[0] != ROW_MARK)
    requires RowParts(a) + x == RowParts(b) + y
    ensures a == b && x == y
  {
    var s, t := RowParts(a) + x, RowParts(b) + y;
    assert (if a == [] then s == x else s[0] == ROW_MARK) && (if b == [] then t == y else t[0] == ROW_MARK);
    if a != [] && b != [] {
      var s1, t1 := RowParts(a[1..]) + x, RowParts(b[1..]) + y;
      assert s == [ROW_MARK] + a[0] + s1 && t == [ROW_MARK] + b[0] + t1;
      assert a[0] == s[1..n + 1] == t[1..n + 1] == b[0];
      assert s1 == s[n + 1..] == t[n + 1..] == t1;
      RowsAreDetermined(a[1..], x, b[1..], y, n);
      assert a == [a[0]] + a[1..] && b == [b[0]] + b[1..];
    }
  }

  lemma LabelsTail(qs: seq<Query>)
    requires qs != [] && LabelsAreTables(qs)
    ensures LabelsAreTables(qs[1..])
  {
    assert forall i :: 0 <= i < |qs[1..]| ==> qs[1..][i] == qs[i + 1];
  }

  /** The parts of a non-empty catalog after its first label. */
  lemma PartsAfterLabel(qs: seq<Query>, a: seq<Table>)
    requires qs != [] && LabelsAreTables(qs) && LabelsAreTables(qs[1..]) && |a| == |qs|
    ensures CatalogParts(qs, a) != [] && CatalogParts(qs, a)[1..] == RowParts(a[0]) + CatalogParts(qs[1..], a[1..])
    ensures CatalogParts(qs, a)[0] != ROW_MARK
  {
    assert CatalogParts(qs, a) == [Ascii(qs[0].name)] + (RowParts(a[0]) + CatalogParts(qs[1..], a[1..]));
  }

  lemma {:induction false} PartsDetermineTables(qs: seq<Query>, a: seq<Table>, b: seq<Table>)
    requires LabelsAreTables(qs) && Shaped(qs, a) && Shaped(qs, b)
    requires CatalogParts(qs, a) == CatalogParts(qs, b)
    ensures a == b
  {
    if qs != [] {
      var tail := qs[1..];
      LabelsTail(qs);
      PartsAfterLabel(qs, a);
      PartsAfterLabel(qs, b);
      if tail != [] {
        LabelsTail(tail);
        PartsAfterLabel(tail, a[1..]);
        PartsAfterLabel(tail, b[1..]);
      }
      RowsAreDetermined(a[0], CatalogParts(tail, a[1..]), b[0], CatalogParts(tail, b[1..]), qs[0].columns);
      PartsDetermineTables(tail, a[1..], b[1..]);
      assert a == [a[0]] + a[1..] && b == [b[0]] + b[1..];
    }
  }

  /** The byte stream fed to the checksum. */
  function Stream(tables: seq<Table>): Bytes
    requires |tables| == |QUERIES|
  {
    QueryLabelsAreTables();
    Frames(CatalogParts(QUERIES, tables))
  }

  /** The stream determines every table's rows and every cell. */
  lemma StreamDeterminesCatalog(a: seq<Table>, b: seq<Table>)
    requires Shaped(QUERIES, a) && Shaped(QUERIES, b)
    ensures Stream(a) == Stream(b) <==> a == b
  {
    QueryLabelsAreTables();
    if Stream(a) == Stream(b) {
      FramesAreInjective(CatalogParts(QUERIES, a), CatalogParts(QUERIES, b));
      PartsDetermineTables(QUERIES, a, b);
    }
  }

  /// Computing the checksum

  /** `{state:016x}` for `digits == 16`: fixed width, zero padded. */
  function HexWidth(n: nat, digits: nat): (s: string)
    ensures |s| == digits
  {
    if digits == 0 then "" else HexWidth(n / 16, digits - 1) + [HexDigit(n % 16)]
  }

  lemma {:induction false} HexWidthInjective(a: nat, b: nat, digits: nat)
    requires HexWidth(a, digits) == HexWidth(b, digits)
    requires a < Pow2(4 * digits) && b < Pow2(4 * digits)
    ensures a == b
  {
    if digits > 0 {
      var x, y := HexWidth(a, digits), HexWidth(b, digits);
      assert x[..digits - 1] == HexWidth(a / 16, digits - 1) && y[..digits - 1] == HexWidth(b / 16, digits - 1);
      assert HexDigit(a % 16) == x[digits - 1] == y[digits - 1] == HexDigit(b % 16);
      assert Pow2(4 * digits) == 16 * Pow2(4 * (digits - 1)) by {
        Pow2Adds(4, 4 * (digits - 1));
        assert Pow2(4) == 16;
      }
      HexWidthInjective(a / 16, b / 16, digits - 1);
      assert a % 16 == b % 16;
    }
  }

  /** The number a text of hexadecimal digits stands for, the last digit counting once. */
  function HexNumber(s: string): Option<nat> {
    if s == "" then Some(0)
    else
      var last, rest := HexValue(s[|s| - 1]), HexNumber(s[..|s| - 1]);
      if last.None? || rest.None? then None else Some(16 * rest.value + last.value)
  }

  lemma {:induction false} HexWidthReads(n: nat, digits: nat)
    requires n < Pow2(4 * digits)
    ensures HexNumber(HexWidth(n, digits)) == Some(n)
  {
    if digits > 0 {
      var s := HexWidth(n, digits);
      assert Pow2(4 * digits) == 16 * Pow2(4 * (digits - 1)) by {
        Pow2Adds(4, 4 * (digits - 1));
        assert Pow2(4) == 16;
      }
      HexWidthReads(n / 16, digits - 1);
      HexDigitReads(n % 16);
      assert s[..digits - 1] == HexWidth(n / 16, digits - 1) && s[digits - 1] == HexDigit(n % 16);
    }
  }

  /** The printed checksum is its prefix and the sixteen digits of the state. */
  lemma ChecksumTextReads(state: u64)
    ensures var s := ChecksumText(state); |s| == 24 && s[..8] == "fnv1a64:" && HexNumber(s[8..]) == Some(state)
  {
    Pow2Of64();
    HexWidthReads(state, 16);
    assert ChecksumText(state)[8..] == HexWidth(state, 16);
  }

  function ChecksumText(state: u64): string { "fnv1a64:" + HexWidth(state, 16) }

  lemma ChecksumTextInjective(a: u64, b: u64)
    requires ChecksumText(a) == ChecksumText(b)
    ensures a == b
  {
    assert HexWidth(a, 16) == ChecksumText(a)[8..] && HexWidth(b, 16) == ChecksumText(b)[8..];
    Pow2Of64();
    HexWidthInjective(a, b, 16);
  }

  /** What `calculate_catalog_checksum` returns. */
  function Checksum(tables: seq<Table>): string
    requires |tables| == |QUERIES|
  {
    ChecksumText(Fnv1a(OFFSET, Stream(tables)))
  }

  /** The running `u64` the source passes by mutable reference. */
  class Hasher {
    var state: u64

    constructor ()
      ensures state == OFFSET
    {
      state := OFFSET;
    }

    method HashBytes(bytes: Bytes)
      modifies this
      ensures state == Fnv1a(old(state), bytes)
    {
      for i := 0 to |bytes|
        invariant state == Fnv1a(old(state), bytes[..i])
      {
        assert bytes[..i + 1] == bytes[..i] + [bytes[i]];
        Fnv1aAppend(old(state), bytes[..i], [bytes[i]]);
        state := HashByte(state, bytes[i]);
      }
      assert bytes[..|bytes|] == bytes;
    }

    method HashPart(value: Bytes)
      modifies this
      ensures state == Fnv1a(old(state), Part(value))
    {
      HashBytes(LengthText(value));
      HashBytes([COLON]);
      HashBytes(value);
      HashBytes([SEMICOLON]);
      Fnv1aAppend(old(state), LengthText(value), [COLON]);
      Fnv1aAppend(old(state), LengthText(value) + [COLON], value);
      Fnv1aAppend(old(state), LengthText(value) + [COLON] + value, [SEMICOLON]);
    }

    method HashRow(row: Row)
      modifies this
      ensures state == Fnv1a(old(state), Frames([ROW_MARK] + row))
    {
      HashPart(ROW_MARK);
      assert Frames([ROW_MARK]) == Part(ROW_MARK);
      for idx := 0 to |row|
        invariant state == Fnv1a(old(state), Frames([ROW_MARK] + row[..idx]))
      {
        FramesExtend(old(state), [ROW_MARK] + row[..idx], row[idx]);
        assert [ROW_MARK] + row[..idx + 1] == [ROW_MARK] + row[..idx] + [row[idx]];
        HashPart(row[idx]);
      }
      assert row[..|row|] == row;
    }

    method HashQueryRows(rows: Table, columnCount: nat)
      requires forall r :: 0 <= r < |rows| ==> |rows[r]| == columnCount
      modifies this
      ensures state == Fnv1a(old(state), Frames(RowParts(rows)))
    {
      for r := 0 to |rows|
        invariant Fnv1a(state, Frames(RowParts(rows[r..]))) == Fnv1a(old(state), Frames(RowParts(rows)))
      {
        RowPartsStep(state, rows[r..]);
        HashRow(rows[r]);
      }
    }
  }

  lemma RowPartsStep(state: u64, rows: Table)
    requires rows != []
    ensures Fnv1a(state, Frames(RowParts(rows))) ==
            Fnv1a(Fnv1a(state, Frames([ROW_MARK] + rows[0])), Frames(RowParts(rows[1..])))
  {
    FramesAppend([ROW_MARK] + rows[0], RowParts(rows[1..]));
    Fnv1aAppend(state, Frames([ROW_MARK] + rows[0]), Frames(RowParts(rows[1..])));
  }

  lemma FramesExtend(state: u64, done: seq<Bytes>, v: Bytes)
    ensures Fnv1a(state, Frames(done + [v])) == Fnv1a(Fnv1a(state, Frames(done)), Part(v))
  {
    FramesAppend(done, [v]);
    assert Frames([v]) == Part(v);
    Fnv1aAppend(state, Frames(done), Part(v));
  }

  method CalculateCatalogChecksum(tables: seq<Table>) returns (checksum: string)
    requires Shaped(QUERIES, tables)
    ensures checksum == Checksum(tables)
  {
    QueryLabelsAreTables();
    var hasher := new Hasher();
    for i := 0 to |QUERIES|
      invariant LabelsAreTables(QUERIES[i..])
      invariant Fnv1a(hasher.state, Frames(CatalogParts(QUERIES[i..], tables[i..]))) == Fnv1a(OFFSET, Stream(tables))
    {
      ghost var s0 := hasher.state;
      hasher.HashPart(Ascii(QUERIES[i].name));
      hasher.HashQueryRows(tables[i], QUERIES[i].columns);
      TableParts(s0, QUERIES[i..], tables[i..]);
    }
    return ChecksumText(hasher.state);
  }

  lemma TableParts(state: u64, qs: seq<Query>, tables: seq<Table>)
    requires qs != [] && LabelsAreTables(qs) && |tables| == |qs|
    ensures LabelsAreTables(qs[1..])
    ensures var s1 := Fnv1a(state, Part(Ascii(qs[0].name)));
            var s2 := Fnv1a(s1, Frames(RowParts(tables[0])));
            Fnv1a(state, Frames(CatalogParts(qs, tables))) == Fnv1a(s2, Frames(CatalogParts(qs[1..], tables[1..])))
  {
    assert forall i :: 0 <= i < |qs[1..]| ==> qs[1..][i] == qs[i + 1];
    var head, rows, rest := [Ascii(qs[0].name)], RowParts(tables[0]), CatalogParts(qs[1..], tables[1..]);
    FramesAppend(head + rows, rest);
    FramesAppend(head, rows);
    assert Frames(head) == Part(head[0]);
    Fnv1aAppend(state, Frames(head) + Frames(rows), Frames(rest));
    Fnv1aAppend(state, Frames(head), Frames(rows));
  }

  /// What a changed catalog does to the checksum

  /** `b` is `a` with the bytes of one cell replaced. */
  ghost predicate OneCellDiffers(a: seq<Table>, b: seq<Table>, t: nat, r: nat, k: nat, v: Bytes) {
    && t < |a| && r < |a[t]| && k < |a[t][r]|
    && b == a[t := a[t][r := a[t][r][k := v]]]
  }

  lemma {:induction false} RowPartsUpdate(rows: Table, r: nat, k: nat, v: Bytes) returns (j: nat)
    requires r < |rows| && k < |rows[r]|
    ensures j < |RowParts(rows)| && RowParts(rows)[j] == rows[r][k]
    ensures RowParts(rows[r := rows[r][k := v]]) == RowParts(rows)[j := v]
  {
    var new_ := rows[r := rows[r][k := v]];
    if r == 0 {
      j := k + 1;
      assert new_[1..] == rows[1..];
    } else {
      var j1 := RowPartsUpdate(rows[1..], r - 1, k, v);
      assert new_[1..] == rows[1..][r - 1 := rows[r][k := v]];
      j := 1 + |rows[0]| + j1;
    }
  }

  lemma {:induction false} CatalogPartsUpdate(qs: seq<Query>, a: seq<Table>, b: seq<Table>, t: nat, r: nat, k: nat, v: Bytes) returns (j: nat)
    requires LabelsAreTables(qs) && |a| == |qs| && OneCellDiffers(a, b, t, r, k, v)
    ensures j < |CatalogParts(qs, a)| && CatalogParts(qs, a)[j] == a[t][r][k]
    ensures CatalogParts(qs, b) == CatalogParts(qs, a)[j := v]
  {
    assert forall i :: 0 <= i < |qs[1..]| ==> qs[1..][i] == qs[i + 1];
    if t == 0 {
      var j1 := RowPartsUpdate(a[0], r, k, v);
      assert b[1..] == a[1..];
      j := 1 + j1;
    } else {
      assert OneCellDiffers(a[1..], b[1..], t - 1, r, k, v);
      var j1 := CatalogPartsUpdate(qs[1..], a[1..], b[1..], t - 1, r, k, v);
      assert b[0] == a[0];
      j := 1 + |RowParts(a[0])| + j1;
    }
  }

  lemma {:induction false} FramesSplit(parts: seq<Bytes>, j: nat)
    requires j < |parts|
    ensures Frames(parts) == Frames(parts[..j]) + Part(parts[j]) + Frames(parts[j + 1..])
  {
    assert parts == parts[..j] + ([parts[j]] + parts[j + 1..]);
    FramesAppend(parts[..j], [parts[j]] + parts[j + 1..]);
  }

  lemma FramesAround(parts: seq<Bytes>, j: nat)
    requires j < |parts|
    ensures Frames(parts) == (Frames(parts[..j]) + LengthText(parts[j]) + [COLON]) + parts[j] + ([SEMICOLON] + Frames(parts[j + 1..]))
  {
    FramesSplit(parts, j);
    var v := parts[j];
    Regroup(Frames(parts[..j]), LengthText(v), [COLON], v, [SEMICOLON], Frames(parts[j + 1..]));
  }

  lemma Regroup(a: Bytes, b: Bytes, c: Bytes, d: Bytes, e: Bytes, f: Bytes)
    ensures a + (b + c + d + e) + f == (a + b + c) + d + (e + f)
  {}

  lemma UpdateInTheMiddle(pre: Bytes, mid: Bytes, post: Bytes, i: nat, x: byte)
    requires i < |mid|
    ensures pre + mid[i := x] + post == (pre + mid + post)[|pre| + i := x]
  {}

  /** One byte of one part is one byte of the stream. */
  lemma FramesOneByte(parts: seq<Bytes>, j: nat, i: nat, x: byte) returns (n: nat)
    requires j < |parts| && i < |parts[j]|
    ensures n < |Frames(parts)| && Frames(parts)[n] == parts[j][i]
    ensures var v: Bytes := parts[j][i := x]; Frames(parts[j := v]) == Frames(parts)[n := x]
  {
    var v: Bytes := parts[j][i := x];
    var edited := parts[j := v];
    FramesAround(parts, j);
    FramesAround(edited, j);
    assert edited[..j] == parts[..j] && edited[j + 1..] == parts[j + 1..] && edited[j] == v;
    assert LengthText(v) == LengthText(parts[j]);
    var pre := Frames(parts[..j]) + LengthText(v) + [COLON];
    UpdateInTheMiddle(pre, parts[j], [SEMICOLON] + Frames(parts[j + 1..]), i, x);
    n := |pre| + i;
  }

  /** Changing exactly one byte of one cell changes the stored checksum. */
  lemma OneByteOfOneCellIsDetected(a: seq<Table>, b: seq<Table>, t: nat, r: nat, k: nat, i: nat, x: byte)
    requires |a| == |QUERIES| && t < |a| && r < |a[t]| && k < |a[t][r]| && i < |a[t][r][k]|
    requires a[t][r][k][i] != x && OneCellDiffers(a, b, t, r, k, a[t][r][k][i := x])
    ensures Checksum(a) != Checksum(b)
  {
    QueryLabelsAreTables();
    var j := CatalogPartsUpdate(QUERIES, a, b, t, r, k, a[t][r][k][i := x]);
    var n := FramesOneByte(CatalogParts(QUERIES, a), j, i, x);
    OneByteChangeIsDetected(OFFSET, Stream(a), n, x);
    if Checksum(a) == Checksum(b) {
      ChecksumTextInjective(Fnv1a(OFFSET, Stream(a)), Fnv1a(OFFSET, Stream(b)));
    }
  }
}
