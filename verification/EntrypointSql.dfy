/** Reading the statement that defines a partitioned table's entrypoint view, apart from what prints it. */
module EntrypointSql {
  import opened Text
  import opened TableColumns
  import opened TypeMapping
  import opened PrintedTypes
  import opened CatalogTables
  import opened Recovery

  /// A reader of such statements

  datatype Name = Name(schema: string, relation: string)

  /** What the view shows: the rows of tables one after the other, or no row under given types and names. */
  datatype Body = OfTables(tables: seq<Name>) | OfColumns(columns: seq<(string, string)>)

  datatype Entry = Entry(view: Name, body: Body)

  /** The rest of a text that begins in a given way. */
  function Past(prefix: string, s: string): Option<string> { if StartsWith(s, prefix) then Some(s[|prefix|..]) else None }

  /** An identifier after its opening quote, and what follows the closing one; a doubled quote stands for one. */
  function ReadQuoted(s: string): (r: Option<(string, string)>)
    ensures r.Some? ==> |r.value.1| < |s|
  {
    if s == "" then None
    else if s[0] != '"' then
      var r := ReadQuoted(s[1..]);
      if r.None? then None else Some(([s[0]] + r.value.0, r.value.1))
    else if |s| > 1 && s[1] == '"' then
      var r := ReadQuoted(s[2..]);
      if r.None? then None else Some((['"'] + r.value.0, r.value.1))
    else Some(("", s[1..]))
  }

  function ReadIdent(s: string): (r: Option<(string, string)>)
    ensures r.Some? ==> |r.value.1| < |s|
  {
    if s != "" && s[0] == '"' then ReadQuoted(s[1..]) else None
  }

  /** Schema and relation with a dot between. */
  function ReadName(s: string): (r: Option<(Name, string)>)
    ensures r.Some? ==> |r.value.1| < |s|
  {
    var schema := ReadIdent(s);
    if schema.None? || schema.value.1 == "" || schema.value.1[0] != '.' then None
    else
      var relation := ReadIdent(schema.value.1[1..]);
      if relation.None? then None else Some((Name(schema.value.0, relation.value.0), relation.value.1))
  }

  /** Tables joined by UNION ALL. */
  function ReadTables(s: string): Option<seq<Name>>
    decreases |s|
  {
    match Past("SELECT * FROM ", s)
    case None => None
    case Some(after) =>
      match ReadName(after)
      case None => None
      case Some((name, rest)) =>
        if rest == "" then Some([name])
        else match Past(" UNION ALL ", rest)
          case None => None
          case Some(more) =>
            var tables := ReadTables(more);
            if tables.None? then None else Some([name] + tables.value)
  }

  /** Where the bracket closes that was open before the text: the first `)` that matches none in it, outside quotes. */
  function Closing(s: string, depth: nat, quoted: bool): (r: Option<nat>)
    ensures r.Some? ==> r.value < |s|
  {
    if s == "" then None
    else if !quoted && s[0] == ')' && depth == 0 then Some(0)
    else
      var deeper := if quoted then depth else if s[0] == '(' then depth + 1 else if s[0] == ')' then depth - 1 else depth;
      var r := Closing(s[1..], deeper, if s[0] == '"' then !quoted else quoted);
      if r.None? then None else Some(r.value + 1)
  }

  /** Columns of NULLs cast to a type, the last one followed by a condition that is never true. */
  function ReadColumns(s: string): Option<seq<(string, string)>>
    decreases |s|
  {
    match Past("CAST(NULL AS ", s)
    case None => None
    case Some(after) =>
      match Closing(after, 0, false)
      case None => None
      case Some(n) =>
        match Past(") AS ", after[n..])
        case None => None
        case Some(more) =>
          match ReadIdent(more)
          case None => None
          case Some((name, rest)) =>
            if rest == " WHERE FALSE" then Some([(after[..n], name)])
            else match Past(", ", rest)
              case None => None
              case Some(others) =>
                var columns := ReadColumns(others);
                if columns.None? then None else Some([(after[..n], name)] + columns.value)
  }

  function ReadBody(s: string): Option<Body> {
    if StartsWith(s, "SELECT * FROM ") then
      var tables := ReadTables(s);
      if tables.None? then None else Some(OfTables(tables.value))
    else match Past("SELECT ", s)
      case None => None
      case Some(after) =>
        var columns := ReadColumns(after);
        if columns.None? then None else Some(OfColumns(columns.value))
  }

  function ReadEntry(s: string): Option<Entry> {
    match Past("CREATE OR REPLACE VIEW ", s)
    case None => None
    case Some(after) =>
      match ReadName(after)
      case None => None
      case Some((view, rest)) =>
        match Past(" AS ", rest)
        case None => None
        case Some(text) =>
          var body := ReadBody(text);
          if body.None? then None else Some(Entry(view, body.value))
  }

  /// Reading inverts printing

  lemma PastPrefix(prefix: string, rest: string)
    ensures Past(prefix, prefix + rest) == Some(rest)
  {}

  predicate NoQuoteNext(rest: string) { rest != "" ==> rest[0] != '"' }

  lemma {:induction false} QuotedReads(v: string, rest: string)
    requires NoQuoteNext(rest)
    ensures ReadQuoted(QuoteBody(v) + "\"" + rest) == Some((v, rest))
  {
    var s := QuoteBody(v) + "\"" + rest;
    if v == "" {
      assert s == "\"" + rest && s[1..] == rest;
    } else {
      var n := if v[0] == '"' then 2 else 1;
      QuotedReads(v[1..], rest);
      assert s[n..] == QuoteBody(v[1..]) + "\"" + rest;
      assert [v[0]] + v[1..] == v;
    }
  }

  lemma IdentReads(v: string, rest: string)
    requires NoQuoteNext(rest)
    ensures ReadIdent(QuoteIdent(v) + rest) == Some((v, rest))
  {
    QuotedReads(v, rest);
    var s := QuoteIdent(v) + rest;
    assert s[0] == '"' && s[1..] == QuoteBody(v) + "\"" + rest;
  }

  function NameOf(r: Relation): Name { Name(r.schema, r.name) }

  lemma NameReads(r: Relation, rest: string)
    requires NoQuoteNext(rest)
    ensures ReadName(Qualified(r) + rest) == Some((NameOf(r), rest))
  {
    var tail := "." + (QuoteIdent(r.name) + rest);
    IdentReads(r.schema, tail);
    IdentReads(r.name, rest);
    assert Qualified(r) + rest == QuoteIdent(r.schema) + tail;
    assert tail[1..] == QuoteIdent(r.name) + rest;
  }

  function NamesOf(c: Catalog, rels: seq<int>): (r: seq<Name>)
    requires forall i :: 0 <= i < |rels| ==> rels[i] in c.relations
    ensures |r| == |rels| && forall i :: 0 <= i < |r| ==> r[i] == Name(c.relations[rels[i]].schema, c.relations[rels[i]].name)
  {
    seq(|rels|, i requires 0 <= i < |rels| => NameOf(c.relations[rels[i]]))
  }

  lemma LastTable(r: Relation)
    ensures ReadTables("SELECT * FROM " + Qualified(r)) == Some([NameOf(r)])
  {
    NameReads(r, "");
    PastPrefix("SELECT * FROM ", Qualified(r));
    assert Qualified(r) + "" == Qualified(r);
  }

  lemma TableInFront(r: Relation, text: string, tables: seq<Name>)
    requires ReadTables(text) == Some(tables)
    ensures ReadTables("SELECT * FROM " + Qualified(r) + " UNION ALL " + text) == Some([NameOf(r)] + tables)
  {
    assert "SELECT * FROM " + Qualified(r) + " UNION ALL " + text == "SELECT * FROM " + (Qualified(r) + (" UNION ALL " + text));
    NameReads(r, " UNION ALL " + text);
    PastPrefix("SELECT * FROM ", Qualified(r) + (" UNION ALL " + text));
    PastPrefix(" UNION ALL ", text);
  }

  lemma NamesInFront(c: Catalog, children: seq<int>)
    requires children != [] && forall i :: 0 <= i < |children| ==> children[i] in c.relations
    ensures NamesOf(c, children) == [NameOf(c.relations[children[0]])] + NamesOf(c, children[1..])
  {}

  lemma UnionSqlOf(c: Catalog, children: seq<int>)
    requires children != [] && children[0] in c.relations
    ensures |children| == 1 ==> UnionSql(c, children) == "SELECT * FROM " + Qualified(c.relations[children[0]])
    ensures |children| > 1 ==> UnionSql(c, children) == "SELECT * FROM " + Qualified(c.relations[children[0]]) + " UNION ALL " + UnionSql(c, children[1..])
  {
    if |children| == 1 {
      assert children[1..] == [];
    }
  }

  lemma {:induction false} TablesRead(c: Catalog, children: seq<int>)
    requires children != [] && forall i :: 0 <= i < |children| ==> children[i] in c.relations
    ensures ReadTables(UnionSql(c, children)) == Some(NamesOf(c, children))
    decreases |children|
  {
    var r := c.relations[children[0]];
    UnionSqlOf(c, children);
    if |children| == 1 {
      LastTable(r);
      assert NamesOf(c, children) == [NameOf(r)];
    } else {
      var text := UnionSql(c, children[1..]);
      TablesRead(c, children[1..]);
      TableInFront(r, text, NamesOf(c, children[1..]));
      NamesInFront(c, children);
    }
  }

  /** A type text whose brackets match outside quotes. */
  predicate Matched(text: string) { Closing(text + ")", 0, false) == Some(|text|) }

  lemma {:induction false} ClosingStays(s: string, rest: string, depth: nat, quoted: bool)
    requires Closing(s, depth, quoted).Some?
    ensures Closing(s + rest, depth, quoted) == Closing(s, depth, quoted)
  {
    assert (s + rest)[0] == s[0] && (s + rest)[1..] == s[1..] + rest;
    if !(!quoted && s[0] == ')' && depth == 0) {
      var deeper := if quoted then depth else if s[0] == '(' then depth + 1 else if s[0] == ')' then depth - 1 else depth;
      ClosingStays(s[1..], rest, deeper, if s[0] == '"' then !quoted else quoted);
    }
  }

  lemma TypeReads(text: string, rest: string)
    requires Matched(text)
    ensures var s := text + (")" + rest); Closing(s, 0, false) == Some(|text|) && s[..|text|] == text && s[|text|..] == ")" + rest
  {
    ClosingStays(text + ")", rest, 0, false);
    assert (text + ")") + rest == text + (")" + rest);
  }

  /** The type text printed for a catalog row. */
  function TypeText(texts: map<int, string>, r: ColumnRow): string {
    if r.typeId in texts then TypeWithModifier(texts[r.typeId], r.typmod) else ""
  }

  ghost predicate AllMatched(texts: map<int, string>, rows: seq<ColumnRow>) { forall i :: 0 <= i < |rows| ==> Matched(TypeText(texts, rows[i])) }

  function ColumnsShown(texts: map<int, string>, rows: seq<ColumnRow>): (r: seq<(string, string)>)
    ensures |r| == |rows| && forall i :: 0 <= i < |r| ==> r[i] == (TypeText(texts, rows[i]), rows[i].name)
  {
    seq(|rows|, i requires 0 <= i < |rows| => (TypeText(texts, rows[i]), rows[i].name))
  }

  lemma FirstColumn(text: string, name: string, rest: string) returns (s: string, after: string)
    requires Matched(text) && NoQuoteNext(rest)
    ensures s == "CAST(NULL AS " + text + ") AS " + QuoteIdent(name) + rest && Past("CAST(NULL AS ", s) == Some(after)
    ensures Closing(after, 0, false) == Some(|text|) && after[..|text|] == text
    ensures Past(") AS ", after[|text|..]) == Some(QuoteIdent(name) + rest) && ReadIdent(QuoteIdent(name) + rest) == Some((name, rest))
  {
    var more := QuoteIdent(name) + rest;
    after := text + (")" + (" AS " + more));
    s := "CAST(NULL AS " + after;
    assert s == "CAST(NULL AS " + text + ") AS " + QuoteIdent(name) + rest;
    PastPrefix("CAST(NULL AS ", after);
    TypeReads(text, " AS " + more);
    PastPrefix(") AS ", more);
    assert ")" + (" AS " + more) == ") AS " + more;
    IdentReads(name, rest);
  }

  lemma LastColumn(text: string, name: string)
    requires Matched(text)
    ensures ReadColumns("CAST(NULL AS " + text + ") AS " + QuoteIdent(name) + " WHERE FALSE") == Some([(text, name)])
  {
    var s, after := FirstColumn(text, name, " WHERE FALSE");
  }

  lemma ColumnInFront(text: string, name: string, tail: string, columns: seq<(string, string)>)
    requires Matched(text) && ReadColumns(tail) == Some(columns)
    ensures ReadColumns("CAST(NULL AS " + text + ") AS " + QuoteIdent(name) + (", " + tail)) == Some([(text, name)] + columns)
  {
    var s, after := FirstColumn(text, name, ", " + tail);
    PastPrefix(", ", tail);
    assert (", " + tail)[0] == ',';
  }

  lemma ShownInFront(texts: map<int, string>, rows: seq<ColumnRow>)
    requires rows != []
    ensures ColumnsShown(texts, rows) == [(TypeText(texts, rows[0]), rows[0].name)] + ColumnsShown(texts, rows[1..])
  {}

  lemma JoinedColumns(first: string, others: string)
    ensures first + ", " + others + " WHERE FALSE" == first + (", " + (others + " WHERE FALSE"))
  {}

  lemma EmptySqlOf(texts: map<int, string>, rows: seq<ColumnRow>)
    requires rows != []
    ensures var first := "CAST(NULL AS " + TypeText(texts, rows[0]) + ") AS " + QuoteIdent(rows[0].name);
            EmptySql(texts, rows) == if |rows| == 1 then first else first + ", " + EmptySql(texts, rows[1..])
  {
    if |rows| == 1 {
      assert rows[1..] == [];
    }
  }

  lemma {:induction false} ColumnsRead(texts: map<int, string>, rows: seq<ColumnRow>)
    requires rows != [] && AllMatched(texts, rows)
    ensures ReadColumns(EmptySql(texts, rows) + " WHERE FALSE") == Some(ColumnsShown(texts, rows))
    decreases |rows|
  {
    var text, name := TypeText(texts, rows[0]), rows[0].name;
    EmptySqlOf(texts, rows);
    if |rows| == 1 {
      LastColumn(text, name);
      assert ColumnsShown(texts, rows) == [(text, name)];
    } else {
      var tail := EmptySql(texts, rows[1..]) + " WHERE FALSE";
      ColumnsRead(texts, rows[1..]);
      ColumnInFront(text, name, tail, ColumnsShown(texts, rows[1..]));
      JoinedColumns("CAST(NULL AS " + text + ") AS " + QuoteIdent(name), EmptySql(texts, rows[1..]));
      ShownInFront(texts, rows);
    }
  }

  lemma StatementRegroups(a: string, b: string, c: string, d: string)
    ensures a + b + c + d == a + (b + (c + d))
  {}

  lemma BodyReads(r: Relation, text: string)
    ensures Past("CREATE OR REPLACE VIEW ", "CREATE OR REPLACE VIEW " + Qualified(r) + " AS " + text) == Some(Qualified(r) + (" AS " + text))
    ensures ReadName(Qualified(r) + (" AS " + text)) == Some((NameOf(r), " AS " + text)) && Past(" AS ", " AS " + text) == Some(text)
  {
    NameReads(r, " AS " + text);
    PastPrefix(" AS ", text);
    StatementRegroups("CREATE OR REPLACE VIEW ", Qualified(r), " AS ", text);
    PastPrefix("CREATE OR REPLACE VIEW ", Qualified(r) + (" AS " + text));
  }

  lemma UnionSqlStarts(c: Catalog, children: seq<int>)
    requires children != [] && children[0] in c.relations
    ensures StartsWith(UnionSql(c, children), "SELECT * FROM ")
  {}

  /** The statement for a table with partitions reads as its view over exactly these tables, in order. */
  lemma UnionEntryReads(c: Catalog, parent: int, children: seq<int>)
    requires parent in c.relations && children != [] && forall i :: 0 <= i < |children| ==> children[i] in c.relations
    ensures ReadEntry(EntrySql(c, parent, children)) == Some(Entry(NameOf(c.relations[parent]), OfTables(NamesOf(c, children))))
  {
    UnionSqlStarts(c, children);
    TablesRead(c, children);
    EntryReads(c.relations[parent], UnionSql(c, children), OfTables(NamesOf(c, children)));
  }

  lemma DiffersAt(s: string, prefix: string, i: nat)
    requires i < |s| && i < |prefix| && s[i] != prefix[i]
    ensures !StartsWith(s, prefix)
  {}

  lemma SelectReads(columns: string, shown: seq<(string, string)>)
    requires ReadColumns(columns) == Some(shown)
    ensures ReadBody("SELECT " + columns) == Some(OfColumns(shown))
  {
    var text := "SELECT " + columns;
    PastPrefix("SELECT ", columns);
    assert text[7] == columns[0] == 'C';
    DiffersAt(text, "SELECT * FROM ", 7);
  }

  lemma EntryReads(r: Relation, text: string, body: Body)
    requires ReadBody(text) == Some(body)
    ensures ReadEntry("CREATE OR REPLACE VIEW " + Qualified(r) + " AS " + text) == Some(Entry(NameOf(r), body))
  {
    BodyReads(r, text);
  }

  /** And without partitions as its view over the catalog's columns, in order. */
  lemma EmptyEntryReads(c: Catalog, parent: int)
    requires parent in c.relations && ActiveRows(ColumnsOf(c, parent)) != [] && AllMatched(TextsOf(c.reg), ActiveRows(ColumnsOf(c, parent)))
    ensures ReadEntry(EntrySql(c, parent, [])) ==
            Some(Entry(NameOf(c.relations[parent]), OfColumns(ColumnsShown(TextsOf(c.reg), ActiveRows(ColumnsOf(c, parent))))))
  {
    var texts, rows := TextsOf(c.reg), ActiveRows(ColumnsOf(c, parent));
    var columns := EmptySql(texts, rows) + " WHERE FALSE";
    ColumnsRead(texts, rows);
    SelectReads(columns, ColumnsShown(texts, rows));
    EntryReads(c.relations[parent], "SELECT " + columns, OfColumns(ColumnsShown(texts, rows)));
    assert "SELECT " + EmptySql(texts, rows) + " WHERE FALSE" == "SELECT " + columns;
    TextRegroups("CREATE OR REPLACE VIEW " + Qualified(c.relations[parent]) + " AS ", "SELECT " + EmptySql(texts, rows), " WHERE FALSE");
  }

  lemma TextRegroups(a: string, b: string, c: string)
    ensures a + b + c == a + (b + c)
  {}

  /// Which partitions a statement names

  /** The row makes a relation that exists an active partition of the parent. */
  predicate IsActive(c: Catalog, parent: int, p: PartitionRow) {
    p.parent == parent && p.status == ActivePartition && p.child in c.relations
  }

  /** Positions from `i` on of the rows that do, all of them and in order. */
  ghost predicate ActiveFrom(c: Catalog, rows: seq<PartitionRow>, parent: int, i: nat, at: seq<nat>) {
    && (forall j :: 0 <= j < |at| ==> i <= at[j] < |rows| && IsActive(c, parent, rows[at[j]]))
    && (forall j, k :: 0 <= j < k < |at| ==> at[j] < at[k])
    && (forall n :: i <= n < |rows| && IsActive(c, parent, rows[n]) ==> n in at)
  }

  ghost predicate ActiveAt(c: Catalog, rows: seq<PartitionRow>, parent: int, at: seq<nat>) { ActiveFrom(c, rows, parent, 0, at) }

  lemma OneMoreActive(c: Catalog, rows: seq<PartitionRow>, parent: int, i: nat, rest: seq<nat>)
    requires i < |rows| && ActiveFrom(c, rows, parent, i + 1, rest) && IsActive(c, parent, rows[i])
    ensures ActiveFrom(c, rows, parent, i, [i] + rest)
  {
    var at := [i] + rest;
    forall n | i <= n < |rows| && IsActive(c, parent, rows[n])
      ensures n in at
    {
      if n == i {
        assert at[0] == n;
      } else {
        assert n in rest;
      }
    }
  }

  lemma OneMoreInactive(c: Catalog, rows: seq<PartitionRow>, parent: int, i: nat, rest: seq<nat>)
    requires i < |rows| && ActiveFrom(c, rows, parent, i + 1, rest) && !IsActive(c, parent, rows[i])
    ensures ActiveFrom(c, rows, parent, i, rest)
  {}

  /** The children have these positions. */
  ghost predicate ChildrenAt(rows: seq<PartitionRow>, at: seq<nat>, children: seq<int>)
    requires forall j :: 0 <= j < |at| ==> at[j] < |rows|
  {
    |at| == |children| && forall j :: 0 <= j < |at| ==> children[j] == rows[at[j]].child
  }

  lemma FirstChildAt(rows: seq<PartitionRow>, i: nat, rest: seq<nat>, children: seq<int>)
    requires i < |rows| && (forall j :: 0 <= j < |rest| ==> rest[j] < |rows|) && ChildrenAt(rows, rest, children)
    ensures ChildrenAt(rows, [i] + rest, [rows[i].child] + children)
  {}

  lemma ActiveChildrenStep(c: Catalog, rows: seq<PartitionRow>, parent: int, i: nat)
    requires i < |rows|
    ensures var rest := ActiveChildren(c, rows[i + 1..], parent);
            ActiveChildren(c, rows[i..], parent) == if IsActive(c, parent, rows[i]) then [rows[i].child] + rest else rest
  {
    assert rows[i..][0] == rows[i] && rows[i..][1..] == rows[i + 1..];
  }

  lemma {:induction false} ActiveChildrenAt(c: Catalog, rows: seq<PartitionRow>, parent: int, i: nat) returns (at: seq<nat>)
    requires i <= |rows|
    ensures ActiveFrom(c, rows, parent, i, at) && ChildrenAt(rows, at, ActiveChildren(c, rows[i..], parent))
    decreases |rows| - i
  {
    if i == |rows| {
      at := [];
    } else {
      var rest := ActiveChildrenAt(c, rows, parent, i + 1);
      ActiveChildrenStep(c, rows, parent, i);
      if IsActive(c, parent, rows[i]) {
        OneMoreActive(c, rows, parent, i, rest);
        FirstChildAt(rows, i, rest, ActiveChildren(c, rows[i + 1..], parent));
        at := [i] + rest;
      } else {
        OneMoreInactive(c, rows, parent, i, rest);
        at := rest;
      }
    }
  }

  /** The stored statement, read back: the parent's view over exactly its active partitions, in their order, or over
      the catalog's columns when there is none. */
  ghost predicate NamesActivePartitions(c: Catalog, parent: int, sql: string)
    requires parent in c.relations
  {
    var entry, view := ReadEntry(sql), Name(c.relations[parent].schema, c.relations[parent].name);
    exists at :: ActiveAt(c, c.partitions, parent, at)
      && if at != []
         then entry.Some? && entry.value.view == view && entry.value.body.OfTables? && NamesAt(c, at, entry.value.body.tables)
         else
           var texts, rows := TextsOf(c.reg), ActiveRows(ColumnsOf(c, parent));
           rows != [] && AllMatched(texts, rows) ==> entry == Some(Entry(view, OfColumns(ColumnsShown(texts, rows))))
  }

  ghost predicate NamesAt(c: Catalog, at: seq<nat>, tables: seq<Name>)
    requires forall j :: 0 <= j < |at| ==> at[j] < |c.partitions| && c.partitions[at[j]].child in c.relations
  {
    |tables| == |at| && forall j :: 0 <= j < |at| ==>
      var r := c.relations[c.partitions[at[j]].child]; tables[j] == Name(r.schema, r.name)
  }

  lemma NamesAreAt(c: Catalog, at: seq<nat>, children: seq<int>)
    requires forall j :: 0 <= j < |at| ==> at[j] < |c.partitions| && c.partitions[at[j]].child in c.relations
    requires ChildrenAt(c.partitions, at, children) && forall i :: 0 <= i < |children| ==> children[i] in c.relations
    ensures NamesAt(c, at, NamesOf(c, children))
  {}

  /** What is printed names the active partitions. */
  lemma PrintedNamesPartitions(c: Catalog, parent: int)
    requires parent in c.relations
    ensures NamesActivePartitions(c, parent, EntrySql(c, parent, ActiveChildren(c, c.partitions, parent)))
  {
    var children := ActiveChildren(c, c.partitions, parent);
    var at := ActiveChildrenAt(c, c.partitions, parent, 0);
    assert c.partitions[0..] == c.partitions && ActiveAt(c, c.partitions, parent, at);
    if at == [] {
      assert children == [];
      if ActiveRows(ColumnsOf(c, parent)) != [] && AllMatched(TextsOf(c.reg), ActiveRows(ColumnsOf(c, parent))) {
        EmptyEntryReads(c, parent);
      }
    } else {
      UnionEntryReads(c, parent, children);
      NamesAreAt(c, at, children);
    }
  }
}
