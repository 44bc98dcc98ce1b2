/** Types as trees: validation accepts exactly the shallow ones. */
module TypeTrees {
  import opened Text
  import opened TypeMapping
  import opened TypeGrammar

  /// Trees and their texts

  datatype Tree =
    | Scalar(text: string)
    | ListOf(element: Tree)
    | ArrayOf(element: Tree, size: nat)
    | StructOf(fields: seq<Field>)
    | MapOf(key: Tree, value: Tree)

  datatype Field = Field(name: string, ty: Tree)

  /** The text DuckDB prints, field names without quotes. */
  function Print(t: Tree): string
    decreases t
  {
    match t
    case Scalar(text) => text
    case ListOf(e) => Print(e) + "[]"
    case ArrayOf(e, n) => Print(e) + "[" + Dec(n) + "]"
    case StructOf(fields) => "STRUCT(" + PrintFields(fields) + ")"
    case MapOf(k, v) => "MAP(" + (Print(k) + ", " + Print(v)) + ")"
  }

  function PrintField(f: Field): string
    decreases f
  {
    f.name + " " + Print(f.ty)
  }

  function PrintFields(fields: seq<Field>): string
    decreases fields
  {
    if fields == [] then ""
    else if |fields| == 1 then PrintField(fields[0])
    else PrintField(fields[0]) + ", " + PrintFields(fields[1..])
  }

  /** One level of nesting, over scalars. */
  predicate Shallow(t: Tree) {
    match t
    case Scalar(_) => false
    case ListOf(e) => e.Scalar?
    case ArrayOf(e, n) => e.Scalar? && ScalarTypeId(e.text) == Some(TYPE_FLOAT4) && 0 < n < 0x1_0000_0000_0000_0000
    case StructOf(fields) => fields != [] && forall i :: 0 <= i < |fields| ==> fields[i].ty.Scalar?
    case MapOf(k, v) => k.Scalar? && v.Scalar?
  }

  /// Brackets

  /** The bracket depth after `s`, starting at `d`; `None` where a quote, an unmatched bracket or a comma
      outside all brackets is met. */
  function Depth(s: string, d: nat): Option<nat> {
    if s == "" then Some(d)
    else if IsQuote(s[0]) || (s[0] == ',' && d == 0) || (Closes(s[0]) && d == 0) then None
    else Depth(s[1..], if Opens(s[0]) then d + 1 else if Closes(s[0]) then d - 1 else d)
  }

  /** Balanced, without a top-level comma. */
  predicate Whole(s: string) { Depth(s, 0) == Some(0) }

  lemma {:induction false} DepthConcat(a: string, b: string, d: nat)
    requires Depth(a, d).Some?
    ensures Depth(a + b, d) == Depth(b, Depth(a, d).value)
  {
    if a == "" {
      assert a + b == b;
    } else {
      assert (a + b)[1..] == a[1..] + b;
      DepthConcat(a[1..], b, if Opens(a[0]) then d + 1 else if Closes(a[0]) then d - 1 else d);
    }
  }

  /** Inside more brackets the same text is balanced too. */
  lemma {:induction false} DepthDeeper(s: string, d: nat, k: nat)
    requires Depth(s, d).Some?
    ensures Depth(s, d + k) == Some(Depth(s, d).value + k)
  {
    if s != "" {
      DepthDeeper(s[1..], if Opens(s[0]) then d + 1 else if Closes(s[0]) then d - 1 else d, k);
    }
  }

  lemma WholeInside(s: string, d: nat)
    requires Whole(s)
    ensures Depth(s, d) == Some(d)
  {
    DepthDeeper(s, 0, d);
  }

  lemma WholeConcat(a: string, b: string)
    requires Whole(a) && Whole(b)
    ensures Whole(a + b)
  {
    DepthConcat(a, b, 0);
  }

  /** Reading a balanced text changes nothing but the part being read. */
  lemma {:induction false} SplitReads(a: string, b: string, cur: string, d: nat)
    requires Depth(a, d).Some?
    ensures SplitRest(a + b, cur, d, None) == SplitRest(b, cur + a, Depth(a, d).value, None)
  {
    if a == "" {
      assert a + b == b && cur + a == cur;
    } else {
      var next := if Opens(a[0]) then d + 1 else if Closes(a[0]) then d - 1 else d;
      assert (a + b)[0] == a[0] && (a + b)[1..] == a[1..] + b;
      assert cur + [a[0]] + a[1..] == cur + a;
      SplitReads(a[1..], b, cur + [a[0]], next);
    }
  }

  /// Joined parts

  function Joined(parts: seq<string>): string {
    if parts == [] then "" else if |parts| == 1 then parts[0] else parts[0] + ", " + Joined(parts[1..])
  }

  /** A part that the splitter gives back as it is. */
  predicate Part(s: string) { Whole(s) && s != "" && Trimmed(s) }

  predicate Trimmed(s: string) { s == "" || (!IsSpace(s[0]) && !IsSpace(s[|s| - 1])) }

  lemma TrimOfPart(ws: string, s: string)
    requires Part(s) && (ws == "" || ws == " ")
    ensures Trim(ws + s) == s
  {
    if ws == "" {
      assert ws + s == s;
      TrimFixed(s);
    } else {
      assert (ws + s)[1..] == s;
      assert TrimStart(ws + s) == TrimStart(s);
      TrimFixed(s);
    }
  }

  /** Reading one part up to the comma, then the blank after it. */
  lemma SplitOne(head: string, rest: string, ws: string)
    requires Part(head) && (ws == "" || ws == " ")
    ensures SplitRest(head + (", " + rest), ws, 0, None) == Cons(head, SplitRest(rest, " ", 0, None))
  {
    TrimOfPart(ws, head);
    SplitReads(head, ", " + rest, ws, 0);
    assert (", " + rest)[1..] == " " + rest;
    assert (" " + rest)[1..] == rest && "" + " " == " ";
  }

  lemma SplitLast(head: string, ws: string)
    requires Part(head) && (ws == "" || ws == " ")
    ensures SplitRest(head, ws, 0, None) == Some([head])
  {
    TrimOfPart(ws, head);
    assert head == head + "";
    SplitReads(head, "", ws, 0);
  }

  /** Splitting joined parts gives back the parts: commas inside brackets do not split. */
  lemma {:induction false} SplitInvertsJoin(parts: seq<string>, ws: string)
    requires (forall i :: 0 <= i < |parts| ==> Part(parts[i])) && (ws == "" || ws == " ")
    requires parts != []
    ensures SplitRest(Joined(parts), ws, 0, None) == Some(parts)
    decreases |parts|
  {
    if |parts| == 1 {
      SplitLast(parts[0], ws);
      assert parts == [parts[0]];
    } else {
      var head, rest := parts[0], Joined(parts[1..]);
      assert Joined(parts) == head + (", " + rest);
      SplitOne(head, rest, ws);
      SplitInvertsJoin(parts[1..], " ");
      assert [head] + parts[1..] == parts;
    }
  }

  /// Texts of well-named trees

  predicate IdentChar(c: char) { 'a' <= c <= 'z' || 'A' <= c <= 'Z' || IsDigit(c) || c == '_' }

  predicate Ident(s: string) { s != "" && forall i :: 0 <= i < |s| ==> IdentChar(s[i]) }

  /** A scalar type text: known to the catalog, balanced, trimmed, and without square brackets. */
  predicate ScalarText(s: string) { Part(s) && ScalarTypeId(s).Some? && '[' !in s && ']' !in s }

  predicate WellNamed(t: Tree)
    decreases t
  {
    match t
    case Scalar(text) => ScalarText(text)
    case ListOf(e) => WellNamed(e)
    case ArrayOf(e, _) => WellNamed(e)
    case StructOf(fields) => forall i :: 0 <= i < |fields| ==> Ident(fields[i].name) && WellNamed(fields[i].ty)
    case MapOf(k, v) => WellNamed(k) && WellNamed(v)
  }

  lemma {:induction false} IdentIsWhole(s: string)
    requires forall i :: 0 <= i < |s| ==> IdentChar(s[i])
    ensures Whole(s)
  {
    if s != "" {
      assert IdentChar(s[0]);
      IdentIsWhole(s[1..]);
    }
  }

  lemma {:induction false} PlainIsWhole(s: string, d: nat)
    requires forall i :: 0 <= i < |s| ==> IsDigit(s[i]) || s[i] == '[' || s[i] == ']'
    ensures Depth(s, d) == Some(d)
  {
    if s != "" {
      PlainIsWhole(s[1..], d);
    }
  }

  lemma SuffixedIsPart(s: string, suffix: string)
    requires Part(s) && suffix != "" && forall i :: 0 <= i < |suffix| ==> IsDigit(suffix[i]) || suffix[i] == '[' || suffix[i] == ']'
    ensures Part(s + suffix)
  {
    PlainIsWhole(suffix, 0);
    WholeConcat(s, suffix);
  }

  /** A balanced text in brackets after a keyword. */
  lemma BracketedIsPart(keyword: string, inner: string)
    requires keyword == "STRUCT(" || keyword == "MAP("
    requires Depth(inner, 1) == Some(1)
    ensures Part(keyword + inner + ")")
  {
    KeywordOpens(keyword);
    assert keyword + inner + ")" == keyword + (inner + ")");
    DepthConcat(keyword, inner + ")", 0);
    DepthConcat(inner, ")", 1);
    assert Depth(")", 1) == Depth("", 0);
    assert (keyword + inner + ")")[0] == keyword[0];
  }

  lemma KeywordOpens(keyword: string)
    requires keyword == "STRUCT(" || keyword == "MAP("
    ensures Depth(keyword, 0) == Some(1)
  {
    var word := keyword[..|keyword| - 1];
    assert keyword == word + "(";
    IdentIsWhole(word);
    DepthConcat(word, "(", 0);
    assert Depth("(", 0) == Depth("", 1);
  }

  function FieldTexts(fields: seq<Field>): (r: seq<string>)
    ensures |r| == |fields| && forall i :: 0 <= i < |fields| ==> r[i] == PrintField(fields[i])
  {
    if fields == [] then [] else [PrintField(fields[0])] + FieldTexts(fields[1..])
  }

  lemma {:induction false} FieldsAreJoined(fields: seq<Field>)
    ensures PrintFields(fields) == Joined(FieldTexts(fields))
  {
    if |fields| > 1 {
      FieldsAreJoined(fields[1..]);
      assert FieldTexts(fields)[1..] == FieldTexts(fields[1..]);
    }
  }

  lemma {:induction false} JoinedInside(parts: seq<string>)
    requires forall i :: 0 <= i < |parts| ==> Part(parts[i])
    ensures Depth(Joined(parts), 1) == Some(1)
    decreases |parts|
  {
    if parts != [] {
      WholeInside(parts[0], 1);
      if |parts| > 1 {
        var rest := Joined(parts[1..]);
        JoinedInside(parts[1..]);
        assert Joined(parts) == parts[0] + (", " + rest);
        DepthConcat(parts[0], ", " + rest, 1);
        assert (", " + rest)[1..] == " " + rest && (" " + rest)[1..] == rest;
      }
    }
  }

  lemma FieldIsPart(f: Field)
    requires Ident(f.name) && Part(Print(f.ty))
    ensures Part(PrintField(f))
  {
    var p := Print(f.ty);
    IdentIsWhole(f.name);
    assert PrintField(f) == f.name + (" " + p);
    DepthConcat(f.name, " " + p, 0);
    assert (" " + p)[1..] == p;
    assert IdentChar(f.name[0]);
  }

  /** Every printed type is one part, however deeply nested. */
  lemma {:induction false} PrintedIsPart(t: Tree)
    requires WellNamed(t)
    ensures Part(Print(t))
    decreases t
  {
    match t
    case Scalar(_) =>
    case ListOf(e) =>
      PrintedIsPart(e);
      SuffixedIsPart(Print(e), "[]");
    case ArrayOf(e, n) =>
      PrintedIsPart(e);
      assert Print(t) == Print(e) + ("[" + Dec(n) + "]");
      SuffixedIsPart(Print(e), "[" + Dec(n) + "]");
    case StructOf(fields) =>
      forall i | 0 <= i < |fields|
        ensures Part(FieldTexts(fields)[i])
      {
        PrintedIsPart(fields[i].ty);
        FieldIsPart(fields[i]);
      }
      FieldsAreJoined(fields);
      JoinedInside(FieldTexts(fields));
      BracketedIsPart("STRUCT(", PrintFields(fields));
    case MapOf(k, v) =>
      PrintedIsPart(k);
      PrintedIsPart(v);
      var parts := [Print(k), Print(v)];
      assert Joined(parts) == Print(k) + ", " + Print(v);
      JoinedInside(parts);
      assert Print(t) == "MAP(" + Joined(parts) + ")";
      BracketedIsPart("MAP(", Joined(parts));
  }

  /// Complex texts are marked, scalar ones are not

  /** No spelling of a scalar begins like a complex type or with anything but a letter. */
  predicate PlainSpelling(s: Spelling) {
    s.text != "" && 'a' <= s.text[0] <= 'z' && |s.text| > 3 - (if s.text == "int" then 1 else 0) && s.text[0] != 'm' && s.text[0] != 'l' && (s.text[0] == 's' ==> s.Exact? && s.text[3] != 'u')
  }

  lemma SpellingsArePlain()
    ensures forall i :: 0 <= i < |SPELLINGS| ==> PlainSpelling(SPELLINGS[i])
  {}

  lemma {:induction false} MatchedIsPlain(lower: string, spellings: seq<Spelling>)
    requires FirstMatch(lower, spellings).Some? && forall i :: 0 <= i < |spellings| ==> PlainSpelling(spellings[i])
    ensures lower != "" && 'a' <= lower[0] <= 'z'
    ensures lower[0] != 'm' && lower[0] != 'l' && (lower[0] == 's' ==> |lower| > 3 && lower[3] != 'u')
  {
    if !Matches(lower, spellings[0]) {
      MatchedIsPlain(lower, spellings[1..]);
    } else {
      assert PlainSpelling(spellings[0]);
    }
  }

  lemma ScalarStartsPlain(text: string)
    requires ScalarTypeId(text).Some?
    ensures var lower := Lower(text);
            && !StartsWith(lower, "struct(") && !StartsWith(lower, "map(")
            && !StartsWith(lower, "list(") && !StartsWith(lower, "list<")
  {
    SpellingsArePlain();
    MatchedIsPlain(Lower(text), SPELLINGS);
    assert "struct("[3] == 'u';
  }

  lemma ScalarIsUnmarked(text: string)
    requires ScalarText(text)
    ensures !Marked(text) && IsScalarPart(text)
  {
    TrimFixed(text);
    ScalarStartsPlain(text);
    var lower := Lower(text);
    assert text[|text| - 1] != ']' && LowerChar(text[|text| - 1]) != ']';
    assert lower[|lower| - 1] != ']';
  }

  lemma LowerOfKeyword(keyword: string, lower: string, rest: string)
    requires Lower(keyword) == lower && keyword != ""
    ensures StartsWith(Lower(keyword + rest), lower)
  {
    assert Lower(keyword + rest)[..|keyword|] == lower;
  }

  lemma LowerOfKeywords()
    ensures Lower("STRUCT(") == "struct(" && Lower("MAP(") == "map("
  {}

  lemma LastOfLower(s: string)
    requires s != ""
    ensures Lower(s)[|s| - 1] == LowerChar(s[|s| - 1])
  {}

  /** The text of a STRUCT or MAP begins with its keyword. */
  lemma KeywordStarts(t: Tree)
    requires t.StructOf? || t.MapOf?
    ensures StartsWith(Lower(Print(t)), if t.StructOf? then "struct(" else "map(")
  {
    LowerOfKeywords();
    if t.StructOf? {
      assert Print(t) == "STRUCT(" + (PrintFields(t.fields) + ")");
      LowerOfKeyword("STRUCT(", "struct(", PrintFields(t.fields) + ")");
    } else {
      var rest := (Print(t.key) + ", " + Print(t.value)) + ")";
      assert Print(t) == "MAP(" + rest;
      LowerOfKeyword("MAP(", "map(", rest);
    }
  }

  lemma SuffixIsMarked(s: string)
    requires Trimmed(s) && s != "" && s[|s| - 1] == ']' && '[' in s
    ensures Marked(s)
  {
    TrimFixed(s);
    LastOfLower(s);
    var k :| 0 <= k < |s| && s[k] == '[';
    assert Lower(s)[k] == '[';
  }

  lemma ComplexIsMarked(t: Tree)
    requires WellNamed(t) && !t.Scalar?
    ensures Marked(Print(t))
  {
    PrintedIsPart(t);
    var s := Print(t);
    match t
    case ListOf(e) =>
      assert s[|Print(e)|] == '[';
      SuffixIsMarked(s);
    case ArrayOf(e, n) =>
      assert s[|Print(e)|] == '[';
      SuffixIsMarked(s);
    case StructOf(fields) =>
      TrimFixed(s);
      KeywordStarts(t);
    case MapOf(key, value) =>
      TrimFixed(s);
      KeywordStarts(t);
  }

  /** A printed part is accepted inside a complex type exactly when it is a scalar. */
  lemma PartIsSupportedIff(t: Tree)
    requires WellNamed(t)
    ensures PartSupported(Print(t)) <==> t.Scalar?
  {
    if t.Scalar? {
      ScalarIsUnmarked(t.text);
    } else {
      ComplexIsMarked(t);
    }
  }

  /// Fields

  lemma {:induction false} TrimStartOne(s: string)
    requires s != "" && !IsSpace(s[0])
    ensures TrimStart(" " + s) == s
  {
    assert (" " + s)[1..] == s;
  }

  /** An unquoted name and the type after it are told apart at the first space. */
  lemma FieldPartsInvert(f: Field)
    requires Ident(f.name) && Part(Print(f.ty))
    ensures FieldParts(PrintField(f)) == Some((f.name, Print(f.ty)))
  {
    var p, s, k := Print(f.ty), PrintField(f), |f.name|;
    FieldIsPart(f);
    TrimFixed(s);
    assert IdentChar(f.name[0]) && IdentChar(f.name[k - 1]);
    assert forall i :: 0 <= i < k ==> s[i] == f.name[i] && IdentChar(f.name[i]);
    assert s[k] == ' ';
    FirstSpaceIs(s, k);
    assert s[..k] == f.name && s[k..] == " " + p;
    TrimFixed(f.name);
    TrimStartOne(p);
    TrimFixed(p);
  }

  lemma FieldSupportedIff(f: Field)
    requires Ident(f.name) && WellNamed(f.ty)
    ensures FieldSupported(PrintField(f)) <==> f.ty.Scalar?
  {
    PrintedIsPart(f.ty);
    FieldPartsInvert(f);
    PartIsSupportedIff(f.ty);
  }

  /// The theorem, constructor by constructor

  lemma EndsInBrackets(s: string)
    ensures EndsWith(s, "[]") ==> |s| >= 2 && s[|s| - 2] == '[' && s[|s| - 1] == ']'
  {
    if EndsWith(s, "[]") {
      assert s[|s| - 2..][0] == '[' && s[|s| - 2..][1] == ']';
    }
  }

  lemma ListIff(e: Tree)
    requires WellNamed(e)
    ensures Supported(Print(ListOf(e))) <==> e.Scalar?
  {
    var p, s := Print(e), Print(ListOf(e));
    PrintedIsPart(ListOf(e));
    TrimFixed(s);
    assert s[|s| - 2..] == "[]" && s[..|s| - 2] == p;
    PartIsSupportedIff(e);
    EndsInBrackets(p);
    assert e.Scalar? && p != "" ==> p[|p| - 1] != ']';
  }

  lemma {:induction false} RFindIs(s: string, c: char, k: nat)
    requires k < |s| && s[k] == c && forall i :: k < i < |s| ==> s[i] != c
    ensures RFind(s, c) == Some(k)
  {
    if k < |s| - 1 {
      RFindIs(s[..|s| - 1], c, k);
    }
  }

  /** The element text and the digits are found again in an array type. */
  lemma ArrayParts(p: string, n: nat)
    requires Part(p)
    ensures var s := p + "[" + Dec(n) + "]";
            && RFind(s, '[') == Some(|p|) && s[..|p|] == p && s[|p| + 1..|s| - 1] == Dec(n)
            && Trim(p) == p && Trim(Dec(n)) == Dec(n)
  {
    var d, s := Dec(n), p + "[" + Dec(n) + "]";
    assert forall i :: |p| < i < |s| - 1 ==> s[i] == d[i - |p| - 1] && IsDigit(d[i - |p| - 1]);
    RFindIs(s, '[', |p|);
    TrimFixed(p);
    assert IsDigit(d[0]) && IsDigit(d[|d| - 1]);
    TrimFixed(d);
  }

  lemma ComplexHasNoScalarId(e: Tree)
    requires e.StructOf? || e.MapOf?
    ensures ScalarTypeId(Print(e)).None?
  {
    KeywordStarts(e);
    if ScalarTypeId(Print(e)).Some? {
      ScalarStartsPlain(Print(e));
    }
  }

  lemma ElementIff(e: Tree)
    requires WellNamed(e)
    ensures var p := Print(e);
            ('[' !in p && ']' !in p && ScalarTypeId(p) == Some(TYPE_FLOAT4))
            <==> e.Scalar? && ScalarTypeId(e.text) == Some(TYPE_FLOAT4)
  {
    var p := Print(e);
    match e
    case Scalar(_) =>
    case ListOf(x) => assert p[|p| - 1] == ']';
    case ArrayOf(x, n) => assert p[|p| - 1] == ']';
    case StructOf(_) => ComplexHasNoScalarId(e);
    case MapOf(_, _) => ComplexHasNoScalarId(e);
  }

  lemma ArrayIff(e: Tree, n: nat)
    requires WellNamed(e)
    ensures Supported(Print(ArrayOf(e, n))) <==> Shallow(ArrayOf(e, n))
  {
    var p, s := Print(e), Print(ArrayOf(e, n));
    PrintedIsPart(e);
    PrintedIsPart(ArrayOf(e, n));
    TrimFixed(s);
    ArrayParts(p, n);
    ElementIff(e);
    DecRoundTrip(n);
    var d := Dec(n);
    assert s[|s| - 2] == d[|d| - 1] && IsDigit(d[|d| - 1]);
    EndsInBrackets(s);
  }

  lemma StructIff(fields: seq<Field>)
    requires WellNamed(StructOf(fields))
    ensures Supported(Print(StructOf(fields))) <==> Shallow(StructOf(fields))
  {
    var s, inner := Print(StructOf(fields)), PrintFields(fields);
    PrintedIsPart(StructOf(fields));
    TrimFixed(s);
    EndsInBrackets(s);
    KeywordStarts(StructOf(fields));
    InnerText("STRUCT(", inner);
    StructInnerIff(fields);
  }

  lemma StructInnerIff(fields: seq<Field>)
    requires WellNamed(StructOf(fields))
    ensures StructSupported(PrintFields(fields)) <==> Shallow(StructOf(fields))
  {
    var texts := FieldTexts(fields);
    FieldsAreJoined(fields);
    forall i | 0 <= i < |fields|
      ensures Part(texts[i]) && (FieldSupported(texts[i]) <==> fields[i].ty.Scalar?)
    {
      PrintedIsPart(fields[i].ty);
      FieldIsPart(fields[i]);
      FieldSupportedIff(fields[i]);
    }
    if fields == [] {
      assert SplitRest("", "", 0, None) == Some([]);
    } else {
      SplitInvertsJoin(texts, "");
    }
  }

  lemma InnerText(keyword: string, inner: string)
    ensures var s := keyword + inner + ")"; s[|keyword|..|s| - 1] == inner
  {}

  lemma MapTextIff(s: string)
    requires Trimmed(s) && |s| > 4 && s[|s| - 1] == ')' && StartsWith(Lower(s), "map(")
    ensures Supported(s) <==> MapSupported(s[4..|s| - 1])
  {
    TrimFixed(s);
    EndsInBrackets(s);
    assert Lower(s)[0] == 'm';
  }

  lemma MapIff(key: Tree, value: Tree)
    requires WellNamed(MapOf(key, value))
    ensures Supported(Print(MapOf(key, value))) <==> key.Scalar? && value.Scalar?
  {
    var s, inner := Print(MapOf(key, value)), Print(key) + ", " + Print(value);
    PrintedIsPart(MapOf(key, value));
    KeywordStarts(MapOf(key, value));
    MapTextIff(s);
    InnerText("MAP(", inner);
    MapInnerIff(key, value);
  }

  lemma MapInnerIff(key: Tree, value: Tree)
    requires WellNamed(key) && WellNamed(value)
    ensures MapSupported(Print(key) + ", " + Print(value)) <==> key.Scalar? && value.Scalar?
  {
    var parts := [Print(key), Print(value)];
    assert parts[1..] == [Print(value)];
    assert Joined(parts) == Print(key) + ", " + Print(value);
    PrintedIsPart(key);
    PrintedIsPart(value);
    SplitInvertsJoin(parts, "");
    PartIsSupportedIff(key);
    PartIsSupportedIff(value);
  }

  /** Of the types printed with unquoted field names, validation accepts exactly the shallow ones. */
  lemma SupportedIffShallow(t: Tree)
    requires WellNamed(t)
    ensures Supported(Print(t)) <==> Shallow(t)
  {
    match t
    case Scalar(text) => ScalarIsNotComplex(text);
    case ListOf(e) => ListIff(e);
    case ArrayOf(e, n) => ArrayIff(e, n);
    case StructOf(fields) => StructIff(fields);
    case MapOf(key, value) => MapIff(key, value);
  }

  lemma ScalarIsNotComplex(text: string)
    requires ScalarText(text)
    ensures !Supported(text)
  {
    TrimFixed(text);
    ScalarStartsPlain(text);
    assert text[|text| - 1] != ']';
    EndsInBrackets(text);
  }

  /// What the scalar check takes for a scalar

  /** The element type under all lists and arrays. */
  function Core(t: Tree): Tree
    decreases t
  {
    match t
    case ListOf(e) => Core(e)
    case ArrayOf(e, _) => Core(e)
    case _ => t
  }

  /** The beginnings the scalar check accepts whatever follows. */
  predicate StartsLikeScalar(lower: string) {
    || StartsWith(lower, "decimal") || StartsWith(lower, "numeric") || StartsWith(lower, "varchar(")
    || StartsWith(lower, "time(") || StartsWith(lower, "timestamp")
  }

  /** A list or array, of any depth, over a scalar whose text begins so. */
  predicate TakenForScalar(t: Tree) { !t.Scalar? && Core(t).Scalar? && StartsLikeScalar(Lower(Core(t).text)) }

  /** The brackets that stand behind the element type. */
  function Brackets(t: Tree): string
    decreases t
  {
    match t
    case ListOf(e) => Brackets(e) + "[]"
    case ArrayOf(e, n) => Brackets(e) + ("[" + Dec(n) + "]")
    case _ => ""
  }

  lemma {:induction false} PrintIsCoreAndBrackets(t: Tree)
    ensures Print(t) == Print(Core(t)) + Brackets(t)
    ensures t.ListOf? || t.ArrayOf? ==> Brackets(t) != "" && Brackets(t)[0] == '[' && Brackets(t)[|Brackets(t)| - 1] == ']'
    ensures !Core(t).ListOf? && !Core(t).ArrayOf?
    decreases t
  {
    match t
    case ListOf(e) =>
      PrintIsCoreAndBrackets(e);
      assert Print(t) == Print(Core(e)) + (Brackets(e) + "[]");
    case ArrayOf(e, n) =>
      PrintIsCoreAndBrackets(e);
      assert Print(t) == Print(Core(e)) + (Brackets(e) + ("[" + Dec(n) + "]"));
    case _ => assert Print(t) + "" == Print(t);
  }

  /** Some spelling that is a mere beginning matches. */
  predicate PrefixMatches(lower: string, spellings: seq<Spelling>) {
    exists k :: 0 <= k < |spellings| && spellings[k].Prefix? && StartsWith(lower, spellings[k].text)
  }

  /** A text that ends in a bracket is never a whole spelling. */
  lemma {:induction false} BracketedMatchesByPrefix(lower: string, spellings: seq<Spelling>)
    requires lower != "" && lower[|lower| - 1] == ']'
    requires forall k :: 0 <= k < |spellings| ==> spellings[k].text != "" && spellings[k].text[|spellings[k].text| - 1] != ']'
    ensures FirstMatch(lower, spellings).Some? <==> PrefixMatches(lower, spellings)
  {
    if spellings != [] {
      var rest := spellings[1..];
      BracketedMatchesByPrefix(lower, rest);
      if PrefixMatches(lower, rest) {
        var k :| 0 <= k < |rest| && rest[k].Prefix? && StartsWith(lower, rest[k].text);
        assert spellings[k + 1].Prefix? && StartsWith(lower, spellings[k + 1].text);
      }
      if PrefixMatches(lower, spellings) && !Matches(lower, spellings[0]) {
        var k :| 0 <= k < |spellings| && spellings[k].Prefix? && StartsWith(lower, spellings[k].text);
        assert rest[k - 1].Prefix? && StartsWith(lower, rest[k - 1].text);
      }
    }
  }

  lemma SpellingsEndInNoBracket()
    ensures forall k :: 0 <= k < |SPELLINGS| ==> SPELLINGS[k].text != "" && SPELLINGS[k].text[|SPELLINGS[k].text| - 1] != ']'
  {}

  lemma PrefixSpellings()
    ensures forall k :: 0 <= k < |SPELLINGS| ==> (SPELLINGS[k].Prefix? <==> k in {15, 16, 18, 23, 24})
    ensures SPELLINGS[15].text == "decimal" && SPELLINGS[16].text == "numeric" && SPELLINGS[18].text == "varchar("
    ensures SPELLINGS[23].text == "time(" && SPELLINGS[24].text == "timestamp"
  {}

  lemma PrefixMatchesIff(lower: string)
    ensures PrefixMatches(lower, SPELLINGS) <==> StartsLikeScalar(lower)
  {
    PrefixSpellings();
    if StartsLikeScalar(lower) {
      var k := if StartsWith(lower, "decimal") then 15 else if StartsWith(lower, "numeric") then 16
               else if StartsWith(lower, "varchar(") then 18 else if StartsWith(lower, "time(") then 23 else 24;
      assert SPELLINGS[k].Prefix? && StartsWith(lower, SPELLINGS[k].text);
    }
  }

  /** Brackets behind a text do not change how it begins. */
  lemma BeginsBeforeBrackets(x: string, brackets: string, prefix: string)
    requires brackets != "" && brackets[0] == '[' && '[' !in prefix
    ensures StartsWith(x + brackets, prefix) <==> StartsWith(x, prefix)
  {
    assert (x + brackets)[|x|] == '[';
    assert |prefix| > |x| ==> prefix[|x|] in prefix;
  }

  lemma BeginsAlike(x: string, brackets: string)
    requires brackets != "" && brackets[0] == '['
    ensures StartsLikeScalar(Lower(x + brackets)) <==> StartsLikeScalar(Lower(x))
  {
    var l := Lower(brackets);
    assert Lower(x + brackets) == Lower(x) + l && l[0] == '[';
    BeginsBeforeBrackets(Lower(x), l, "decimal");
    BeginsBeforeBrackets(Lower(x), l, "numeric");
    BeginsBeforeBrackets(Lower(x), l, "varchar(");
    BeginsBeforeBrackets(Lower(x), l, "time(");
    BeginsBeforeBrackets(Lower(x), l, "timestamp");
  }

  /** A list or array is taken for a scalar by the beginning of its element type alone. */
  lemma BracketedIsScalarIff(x: string, brackets: string)
    requires brackets != "" && brackets[0] == '[' && brackets[|brackets| - 1] == ']'
    ensures ScalarTypeId(x + brackets).Some? <==> StartsLikeScalar(Lower(x))
  {
    var text := x + brackets;
    LastOfLower(text);
    SpellingsEndInNoBracket();
    BracketedMatchesByPrefix(Lower(text), SPELLINGS);
    PrefixMatchesIff(Lower(text));
    BeginsAlike(x, brackets);
  }

  lemma KeywordBeginsNoScalar(t: Tree)
    requires t.StructOf? || t.MapOf?
    ensures !StartsLikeScalar(Lower(Print(t)))
  {
    KeywordStarts(t);
    assert Lower(Print(t))[0] == 's' || Lower(Print(t))[0] == 'm';
  }

  /** The types that are no scalars and are taken for one: exactly the lists and arrays whose innermost
      element begins like a DECIMAL, VARCHAR, TIME or TIMESTAMP that may be followed by anything. */
  lemma TakenForScalarIff(t: Tree)
    requires WellNamed(t) && !t.Scalar?
    ensures ScalarTypeId(Print(t)).Some? <==> TakenForScalar(t)
  {
    var core := Core(t);
    PrintIsCoreAndBrackets(t);
    if t.ListOf? || t.ArrayOf? {
      BracketedIsScalarIff(Print(core), Brackets(t));
      if core.StructOf? || core.MapOf? {
        KeywordBeginsNoScalar(core);
      }
    } else {
      ComplexHasNoScalarId(t);
    }
  }

  /// `validate_supported_column_type`: the scalar check comes first

  predicate ColumnTypeSupported(duckType: string) { ScalarTypeId(duckType).Some? || Supported(duckType) }

  /** The types a column may be declared with: scalars, shallow complex types, and every list or array
      that is taken for a scalar. */
  lemma ColumnTypeSupportedIff(t: Tree)
    requires WellNamed(t)
    ensures ColumnTypeSupported(Print(t)) <==> t.Scalar? || Shallow(t) || TakenForScalar(t)
  {
    SupportedIffShallow(t);
    if !t.Scalar? {
      TakenForScalarIff(t);
    }
  }

  /** A list of DECIMAL is filed as a DECIMAL without precision. */
  lemma DecimalListIsTakenForScalar(precision: nat, scale: nat)
    requires ValidDecimal(precision, scale)
    ensures var text := Print(ListOf(Scalar(DecimalText(precision, scale))));
            ScalarTypeId(text) == Some(TYPE_NUMERIC) && TypeModifier(text) == -1
  {
    DecimalBeginsNumeric(Dec(precision) + "," + Dec(scale) + ")[]");
    BracketsBehindDecimal(Dec(precision), Dec(scale));
    assert DecimalText(precision, scale) + "[]" == "DECIMAL(" + Dec(precision) + "," + Dec(scale) + ")[]";
    assert DecimalText(precision, scale) + "[]" == "DECIMAL(" + (Dec(precision) + "," + Dec(scale) + ")[]");
  }

  lemma ListText(text: string)
    ensures Print(ListOf(Scalar(text))) == text + "[]"
  {}

  lemma TenTwo()
    ensures DecimalText(10, 2) == "DECIMAL(10,2)"
  {
    assert Dec(10) == "10" && Dec(2) == "2";
  }

  lemma DecimalListText()
    ensures ScalarTypeId("DECIMAL(10,2)[]") == Some(TYPE_NUMERIC) && TypeModifier("DECIMAL(10,2)[]") == -1
  {
    DecimalListIsTakenForScalar(10, 2);
    TenTwo();
    ListText(DecimalText(10, 2));
    assert "DECIMAL(10,2)" + "[]" == "DECIMAL(10,2)[]";
  }

  lemma DecimalBeginsNumeric(rest: string)
    ensures ScalarTypeId("DECIMAL(" + rest) == Some(TYPE_NUMERIC)
  {
    var text := "DECIMAL(" + rest;
    assert text[..8] == "DECIMAL(";
    LowerStartsDecimal(text);
    StartsWithDecimal(Lower(text));
  }

  lemma BracketsBehindDecimal(p: string, s: string)
    requires AllDigits(p) && AllDigits(s)
    ensures TypeModifier("DECIMAL(" + p + "," + s + ")[]") == -1
  {
    var text, n := "DECIMAL(" + p + "," + s + ")[]", |p| + |s| + 9;
    assert text[0] == 'D' && text[|text| - 1] == ']';
    TrimFixed(text);
    assert text[n] == ')' && text[n + 1..] == "[]";
    RFindIs(text, ')', n);
    TrimFixed("[]");
  }

  /// Quoted field names

  lemma {:induction false} PlainQuoteBody(raw: string)
    requires '"' !in raw
    ensures QuoteBody(raw) == raw
  {
    if raw != "" {
      PlainQuoteBody(raw[1..]);
    }
  }

  /** Up to its first quote a name is copied, and there the quote is doubled. */
  lemma {:induction false} FirstQuoteIsDoubled(raw: string, k: nat)
    requires k < |raw| && raw[k] == '"' && '"' !in raw[..k]
    ensures var body := QuoteBody(raw); |body| > k + 1 && body[..k] == raw[..k] && body[k] == '"' && body[k + 1] == '"'
  {
    if k > 0 {
      assert raw[0] == raw[..k][0] && raw[1..][..k - 1] == raw[..k][1..];
      FirstQuoteIsDoubled(raw[1..], k - 1);
      assert QuoteBody(raw) == [raw[0]] + QuoteBody(raw[1..]);
    }
  }

  function QuotedField(raw: string, type_: string): string { QuoteIdent(raw) + " " + type_ }

  lemma QuotedFieldIsTrimmed(raw: string, type_: string)
    requires Part(type_)
    ensures Trim(QuotedField(raw, type_)) == QuotedField(raw, type_) && QuotedField(raw, type_)[0] == '"'
  {
    var f := QuotedField(raw, type_);
    assert f[0] == '"' && f[|f| - 1] == type_[|type_| - 1];
    TrimFixed(f);
  }

  lemma PlainQuotedName(raw: string, type_: string)
    requires Part(type_) && '"' !in raw
    ensures FieldParts(QuotedField(raw, type_)) == Some((QuoteIdent(raw), type_))
  {
    var f := QuotedField(raw, type_);
    QuotedFieldIsTrimmed(raw, type_);
    PlainQuoteBody(raw);
    assert f == "\"" + raw + "\"" + " " + type_;
    assert f[1..] == raw + "\"" + " " + type_;
    FindIs(f[1..], '"', |raw|);
    assert f[..|raw| + 2] == QuoteIdent(raw) && f[|raw| + 2..] == " " + type_;
    TrimOfPart(" ", type_);
  }

  /** A quoted name that contains a quote is cut there; what remains begins with the other half. */
  lemma CutQuotedName(raw: string, type_: string, k: nat)
    requires Part(type_) && k < |raw| && raw[k] == '"' && '"' !in raw[..k]
    ensures var f := QuotedField(raw, type_); |f| > k + 3 && FieldParts(f) == Some((f[..k + 2], f[k + 2..])) && f[k + 2] == '"'
    ensures k + 2 < |QuoteIdent(raw)|
  {
    var f, body := QuotedField(raw, type_), QuoteBody(raw);
    QuotedFieldIsTrimmed(raw, type_);
    FirstQuoteIsDoubled(raw, k);
    assert f[1..] == body + "\"" + " " + type_;
    assert forall i :: 0 <= i < k ==> f[1..][i] == body[..k][i] == raw[..k][i];
    FindIs(f[1..], '"', k);
    var rest := f[k + 2..];
    assert rest[0] == body[k + 1] && rest[|rest| - 1] == type_[|type_| - 1];
    TrimFixed(rest);
  }

  lemma {:induction false} FirstQuote(raw: string) returns (k: nat)
    requires '"' in raw
    ensures k < |raw| && raw[k] == '"' && '"' !in raw[..k]
  {
    if raw[0] == '"' {
      k := 0;
    } else {
      k := FirstQuote(raw[1..]);
      assert raw[..k + 1] == [raw[0]] + raw[1..][..k];
      k := k + 1;
    }
  }

  /** A field with a quoted name splits into that name and its type exactly when the name contains no
      quote. */
  lemma QuotedNameSplitsIff(raw: string, type_: string)
    requires Part(type_)
    ensures FieldParts(QuotedField(raw, type_)) == Some((QuoteIdent(raw), type_)) <==> '"' !in raw
  {
    if '"' in raw {
      var k := FirstQuote(raw);
      CutQuotedName(raw, type_, k);
      assert |QuotedField(raw, type_)[..k + 2]| == k + 2;
    } else {
      PlainQuotedName(raw, type_);
    }
  }

  lemma QuoteBeginsNoScalar(text: string)
    requires text != "" && text[0] == '"' && !IsSpace(text[|text| - 1])
    ensures !IsScalarPart(text)
  {
    TrimFixed(text);
    SpellingsArePlain();
    if ScalarTypeId(text).Some? {
      MatchedIsPlain(Lower(text), SPELLINGS);
    }
  }

  lemma CutFieldIsRefused(raw: string, type_: string)
    requires Part(type_) && '"' in raw
    ensures !FieldSupported(QuotedField(raw, type_))
  {
    var k := FirstQuote(raw);
    var f := QuotedField(raw, type_);
    CutQuotedName(raw, type_, k);
    assert f[k + 2..][|f| - k - 3] == type_[|type_| - 1];
    QuoteBeginsNoScalar(f[k + 2..]);
  }

  /** Such a field is accepted exactly when the name contains no quote and the type is a scalar. */
  lemma QuotedFieldSupportedIff(raw: string, ty: Tree)
    requires WellNamed(ty)
    ensures FieldSupported(QuotedField(raw, Print(ty))) <==> '"' !in raw && ty.Scalar?
  {
    PrintedIsPart(ty);
    if '"' in raw {
      CutFieldIsRefused(raw, Print(ty));
    } else {
      PlainQuotedName(raw, Print(ty));
      PartIsSupportedIff(ty);
    }
  }
}
