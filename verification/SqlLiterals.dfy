/** What the literals of bound parameters mean: a reader of SQL values, apart from the printer. */
module SqlLiterals {
  import opened Text
  import opened SqlParams

  /// Reading values

  datatype Value =
    | NullValue
    | BoolValue(flag: bool)
    | NumberValue(numeral: string)
    | TextValue(text: string)
    | FloatsValue(numerals: seq<string>)

  const FLOAT_CAST := "]::FLOAT[]"

  /** The parts between commas. */
  function Fields(s: string): (r: seq<string>)
    ensures r != []
  {
    if s == "" then [""]
    else
      var rest := Fields(s[1..]);
      if s[0] == ',' then [""] + rest else [[s[0]] + rest[0]] + rest[1..]
  }

  predicate IsNumeral(s: string) {
    s != "" && (s[0] == '-' ==> |s| > 1) && forall i :: 0 <= i < |s| ==> IsDigit(s[i]) || s[i] == '.' || (i == 0 && s[i] == '-')
  }

  function ReadValue(s: string): Option<Value> {
    if s == "NULL" then Some(NullValue)
    else if s == "true" then Some(BoolValue(true))
    else if s == "false" then Some(BoolValue(false))
    else if StartsIn(s, "'") then
      var body := Unquote(s[1..]);
      if body.None? then None else Some(TextValue(body.value))
    else if StartsIn(s, "[") && |s| > |FLOAT_CAST| && EndsWith(s, FLOAT_CAST) then
      Some(FloatsValue(Fields(s[1..|s| - |FLOAT_CAST|])))
    else if IsNumeral(s) then Some(NumberValue(s))
    else None
  }

  /** The integer a numeral stands for. */
  function IntegerOf(s: string): Option<int> {
    if s != "" && AllDigits(s) then Some(DecValue(s))
    else if |s| > 1 && s[0] == '-' && AllDigits(s[1..]) then var n: int := DecValue(s[1..]); Some(-n)
    else None
  }

  /** Pairs of hexadecimal digits, the high half of each byte first. */
  function HexBytes(s: string): Option<seq<byte>> {
    if s == "" then Some([])
    else if |s| == 1 then None
    else
      var high, low, rest := HexValue(s[0]), HexValue(s[1]), HexBytes(s[2..]);
      if high.None? || low.None? || rest.None? || high.value >= 16 || low.value >= 16 then None
      else Some([16 * high.value + low.value] + rest.value)
  }

  /** A text that stands for bytes. */
  function BytesOf(s: string): Option<seq<byte>> {
    if StartsWith(s, "\\x") then HexBytes(s[2..]) else None
  }

  /** Reading the text gives the parameter. */
  ghost predicate Gives(s: string, p: SqlParam) {
    var v := ReadValue(s);
    && v.Some?
    && match p
       case Null => v.value.NullValue?
       case Bool(b) => v.value == BoolValue(b)
       case Integer(i) => v.value.NumberValue? && IntegerOf(v.value.numeral) == Some(i)
       case FloatParam(f) => f.Finite? && v.value == NumberValue(f.text)
       case FloatArray(fs) =>
         v.value.FloatsValue? && |v.value.numerals| == |fs| && forall i :: 0 <= i < |fs| ==> fs[i].Finite? && v.value.numerals[i] == fs[i].text
       case TextParam(text) => v.value == TextValue(text)
       case Bytes(bs) => v.value.TextValue? && BytesOf(v.value.text) == Some(bs)
  }

  /// Reading inverts printing

  lemma FieldsCons(c: char, s: string)
    requires c != ','
    ensures Fields([c] + s) == [[c] + Fields(s)[0]] + Fields(s)[1..]
  {
    assert ([c] + s)[1..] == s;
  }

  /** Text without a comma in front belongs to the first field. */
  lemma {:induction false} FirstField(head: string, s: string)
    requires forall i :: 0 <= i < |head| ==> head[i] != ','
    ensures Fields(head + s) == [head + Fields(s)[0]] + Fields(s)[1..]
  {
    if head == "" {
      assert head + s == s && head + Fields(s)[0] == Fields(s)[0];
    } else {
      FirstField(head[1..], s);
      assert head + s == [head[0]] + (head[1..] + s);
      FieldsCons(head[0], head[1..] + s);
      assert [head[0]] + (head[1..] + Fields(s)[0]) == head + Fields(s)[0];
    }
  }

  lemma {:induction false} FieldsOfFloats(fs: seq<Float>)
    requires fs != [] && forall f <- fs :: f.Finite?
    ensures |Fields(JoinFloats(fs))| == |fs| && forall i :: 0 <= i < |fs| ==> Fields(JoinFloats(fs))[i] == fs[i].text
  {
    var head := fs[0].text;
    assert forall i :: 0 <= i < |head| ==> head[i] != ',';
    if |fs| == 1 {
      FirstField(head, "");
      assert head + "" == head;
    } else {
      var rest := JoinFloats(fs[1..]);
      FieldsOfFloats(fs[1..]);
      FirstField(head, "," + rest);
      assert ("," + rest)[1..] == rest && head + "" == head;
      assert JoinFloats(fs) == head + ("," + rest);
    }
  }

  lemma {:induction false} HexBytesInvertHexText(bs: seq<byte>)
    ensures HexBytes(HexText(bs)) == Some(bs)
  {
    if bs != [] {
      HexBytesInvertHexText(bs[1..]);
      HexDigitReads(bs[0] / 16);
      HexDigitReads(bs[0] % 16);
      var h := HexText(bs);
      assert h[2..] == HexText(bs[1..]) && h[0] == HexDigit(bs[0] / 16) && h[1] == HexDigit(bs[0] % 16);
      assert bs == [bs[0]] + bs[1..];
    }
  }

  lemma QuotedReads(text: string)
    ensures ReadValue(SqlStringLiteral(text)) == Some(TextValue(text))
  {
    UnquoteEscaped(text, "");
    assert SqlStringLiteral(text)[1..] == Escape(text) + "'" + "";
  }

  lemma IntegerReads(i: int)
    ensures Gives(IntText(i), Integer(i))
  {
    if i < 0 {
      DecRoundTrip(-i);
      MinusReads(Dec(-i));
    } else {
      DecRoundTrip(i);
      DigitsRead(Dec(i));
    }
  }

  lemma DigitsRead(d: string)
    requires d != "" && AllDigits(d)
    ensures ReadValue(d) == Some(NumberValue(d)) && IntegerOf(d) == Some(DecValue(d))
  {
    assert IsDigit(d[0]);
  }

  lemma MinusReads(d: string)
    requires d != "" && AllDigits(d)
    ensures var n: int := DecValue(d); ReadValue("-" + d) == Some(NumberValue("-" + d)) && IntegerOf("-" + d) == Some(-n)
  {
    var s := "-" + d;
    assert s[0] == '-' && s[1..] == d;
    assert !IsDigit(s[0]);
  }

  lemma FloatReads(f: FloatText)
    ensures ReadValue(f) == Some(NumberValue(f))
  {
    assert IsDigit(f[0]) || f[0] == '-';
  }

  lemma FloatsRead(fs: seq<Float>)
    requires Literal(FloatArray(fs)).Ok?
    ensures Gives(Literal(FloatArray(fs)).value, FloatArray(fs))
  {
    var s := Literal(FloatArray(fs)).value;
    FieldsOfFloats(fs);
    assert s == "[" + JoinFloats(fs) + FLOAT_CAST;
    assert s[1..|s| - |FLOAT_CAST|] == JoinFloats(fs) && s[|s| - |FLOAT_CAST|..] == FLOAT_CAST;
    assert s[0] == '[';
  }

  lemma BytesRead(bs: seq<byte>)
    ensures Gives(Literal(Bytes(bs)).value, Bytes(bs))
  {
    BytesLiteral(bs);
    QuotedReads("\\x" + HexText(bs));
    HexBytesInvertHexText(bs);
    assert ("\\x" + HexText(bs))[2..] == HexText(bs);
  }

  /** Every literal the binder prints reads back as its parameter. */
  lemma ReadingInvertsLiteral(p: SqlParam)
    requires Literal(p).Ok?
    ensures Gives(Literal(p).value, p)
  {
    match p
    case Null =>
    case Bool(_) =>
    case Integer(i) => IntegerReads(i);
    case FloatParam(f) => FloatReads(f.text);
    case FloatArray(fs) => FloatsRead(fs);
    case TextParam(text) => QuotedReads(text);
    case Bytes(bs) => BytesRead(bs);
  }

  /** Only numbers that are not finite and empty arrays have no literal. */
  lemma LiteralFailsIff(p: SqlParam)
    ensures Literal(p) == Err(NonFiniteFloat) <==>
            (p.FloatParam? && p.float.NonFinite?) || (p.FloatArray? && exists i :: 0 <= i < |p.floats| && p.floats[i].NonFinite?)
    ensures Literal(p) == Err(EmptyFloatArray) <==> p == FloatArray([])
    ensures Literal(p).Err? ==> Literal(p) == Err(NonFiniteFloat) || Literal(p) == Err(EmptyFloatArray)
  {
    if p.FloatArray? && Literal(p).Ok? {
      assert forall i :: 0 <= i < |p.floats| ==> p.floats[i] in p.floats;
    }
  }

  /** The text and what it is bound to, cut at step `i`. */
  ghost predicate CutsAt(ts: seq<Token>, params: seq<SqlParam>, i: nat)
    requires i < |ts| && ts[i].Hole? && AllUsable(ts, params)
  {
    && AllUsable(ts[..i], params) && AllUsable(ts[i + 1..], params)
    && Render(ts) == Render(ts[..i]) + "$" + ts[i].digits + Render(ts[i + 1..])
    && BoundSql(ts, params) == BoundSql(ts[..i], params) + BoundText(ts[i], params) + BoundSql(ts[i + 1..], params)
  }

  /** What stands in place of the placeholder `$n`, between what the steps before and after it are bound to, reads
      as parameter n. */
  ghost predicate ReadsInPlace(ts: seq<Token>, params: seq<SqlParam>, i: nat)
    requires i < |ts| && ts[i].Hole? && AllUsable(ts, params)
  {
    && CutsAt(ts, params, i)
    && 1 <= DecValue(ts[i].digits) <= |params| && Gives(BoundText(ts[i], params), params[DecValue(ts[i].digits) - 1])
  }

  lemma UsableReads(t: Token, params: seq<SqlParam>)
    requires t.Hole? && Usable(t, params)
    ensures 1 <= DecValue(t.digits) <= |params| && Gives(BoundText(t, params), params[DecValue(t.digits) - 1])
  {
    ReadingInvertsLiteral(params[Number(t) - 1]);
  }

  lemma UsableReadInPlace(ts: seq<Token>, params: seq<SqlParam>, i: nat)
    requires i < |ts| && ts[i].Hole? && AllUsable(ts, params)
    ensures ReadsInPlace(ts, params, i)
  {
    UsableReads(ts[i], params);
    SplitAround(ts, params, i);
  }

  /** A successful binding of a text reads so at each of its placeholders. */
  lemma PlaceholderReads(sql: string, params: seq<SqlParam>, i: nat)
    requires ScanSpec(sql, Some(params)).Ok? && i < |Lex(Normal, sql)| && Lex(Normal, sql)[i].Hole?
    ensures var ts := Lex(Normal, sql);
            && Render(ts) == sql && AllUsable(ts, params) && ScanSpec(sql, Some(params)).value.0 == BoundSql(ts, params)
            && ReadsInPlace(ts, params, i)
  {
    BindSucceeds(sql, params);
    LexRenders(Normal, sql);
    UsableReadInPlace(Lex(Normal, sql), params, i);
  }

  lemma {:induction false} BoundSqlAppend(a: seq<Token>, b: seq<Token>, params: seq<SqlParam>)
    requires AllUsable(a, params) && AllUsable(b, params)
    ensures AllUsable(a + b, params) && BoundSql(a + b, params) == BoundSql(a, params) + BoundSql(b, params)
  {
    if a == [] {
      assert a + b == b;
    } else {
      BoundSqlAppend(a[1..], b, params);
      assert (a + b)[0] == a[0] && (a + b)[1..] == a[1..] + b;
    }
  }

  lemma StepInFront(t: Token, b: seq<Token>, params: seq<SqlParam>)
    requires t.Hole? && Usable(t, params) && AllUsable(b, params)
    ensures AllUsable([t] + b, params) && BoundSql([t] + b, params) == BoundText(t, params) + BoundSql(b, params)
    ensures Render([t] + b) == "$" + t.digits + Render(b)
  {
    assert ([t] + b)[1..] == b;
  }

  lemma Regroup(a: string, b: string, c: string)
    ensures a + (b + c) == a + b + c
  {}

  lemma SplitAround(ts: seq<Token>, params: seq<SqlParam>, i: nat)
    requires i < |ts| && ts[i].Hole? && AllUsable(ts, params)
    ensures CutsAt(ts, params, i)
  {
    var t, a, b := ts[i], ts[..i], ts[i + 1..];
    assert ts == a + ([t] + b);
    StepInFront(t, b, params);
    BoundSqlAppend(a, [t] + b, params);
    RenderAppend(a, [t] + b);
    Regroup(BoundSql(a, params), BoundText(t, params), BoundSql(b, params));
    Regroup(Render(a), "$" + t.digits, Render(b));
    Regroup(Render(a), "$", t.digits);
  }
}
