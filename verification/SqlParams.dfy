/** The SQL parameter binder: a five-state scanner that substitutes literals for `$n`. */
module SqlParams {
  import opened Text

  /// Parameters and their literals

  /** What Rust prints for a finite float: an optional minus, then digits and dots. */
  ghost predicate IsFloatText(s: string) {
    && s != ""
    && (IsDigit(s[0]) || (s[0] == '-' && |s| > 1))
    && forall i :: 1 <= i < |s| ==> IsDigit(s[i]) || s[i] == '.'
  }

  type FloatText = s: string | IsFloatText(s) witness "0"

  datatype Float = Finite(text: FloatText) | NonFinite

  datatype SqlParam =
    | Null
    | TextParam(text: string)
    | Bool(flag: bool)
    | Integer(value: int)
    | FloatParam(float: Float)
    | FloatArray(floats: seq<Float>)
    | Bytes(bytes: seq<byte>)

  datatype ScanError =
    | InvalidParameter(digits: string)
    | ZeroParameter
    | MissingParameter(number: nat)
    | NonFiniteFloat
    | EmptyFloatArray
    | TooManyParameters(got: nat, used: nat)

  function Escape(v: string): (r: string) {
    if v == "" then ""
    else (if v[0] == '\'' then "''" else [v[0]]) + Escape(v[1..])
  }

  function SqlStringLiteral(v: string): string { "'" + Escape(v) + "'" }

  /** Two lower-case hexadecimal digits a byte. */
  function HexText(bytes: seq<byte>): string {
    if bytes == [] then ""
    else [HexDigit(bytes[0] / 16), HexDigit(bytes[0] % 16)] + HexText(bytes[1..])
  }

  method HexEncode(bytes: seq<byte>) returns (output: string)
    ensures output == HexText(bytes)
  {
    output := "";
    for i := 0 to |bytes|
      invariant output + HexText(bytes[i..]) == HexText(bytes)
    {
      output := output + [HexDigit(bytes[i] / 16), HexDigit(bytes[i] % 16)];
    }
  }

  function JoinFloats(fs: seq<Float>): string
    requires forall f <- fs :: f.Finite?
  {
    if fs == [] then ""
    else if |fs| == 1 then fs[0].text
    else fs[0].text + "," + JoinFloats(fs[1..])
  }

  function Literal(p: SqlParam): Result<string, ScanError> {
    match p
    case Null => Ok("NULL")
    case TextParam(v) => Ok(SqlStringLiteral(v))
    case Bool(b) => Ok(if b then "true" else "false")
    case Integer(i) => Ok(IntText(i))
    case FloatParam(f) => if f.Finite? then Ok(f.text) else Err(NonFiniteFloat)
    case FloatArray(fs) =>
      if fs == [] then Err(EmptyFloatArray)
      else if exists f <- fs :: f.NonFinite? then Err(NonFiniteFloat)
      else Ok("[" + JoinFloats(fs) + "]::FLOAT[]")
    case Bytes(bs) => Ok("'\\x" + HexText(bs) + "'")
  }

  /// Lexical structure

  datatype Mode = Normal | SingleQuote | DoubleQuote | LineComment | BlockComment

  /** One scanner step: text copied in one mode, leaving the scanner in the next, or a placeholder `$digits`. */
  datatype Token = Lexeme(mode: Mode, text: string, after: Mode) | Hole(digits: Digits)

  type Digits = s: string | AllDigits(s)

  function Source(t: Token): string {
    match t
    case Lexeme(_, text, _) => text
    case Hole(digits) => "$" + digits
  }

  /** The mode the scanner is in after a step. */
  function After(t: Token): Mode { if t.Hole? then Normal else t.after }

  predicate At(s: string, i: nat, c: char) { i < |s| && s[i] == c }

  /** The longest prefix of digits. */
  function DigitRun(s: string): (r: Digits)
    ensures r <= s
    ensures |r| < |s| ==> !IsDigit(s[|r|])
  {
    if s != "" && IsDigit(s[0]) then [s[0]] + DigitRun(s[1..]) else ""
  }

  function Step(mode: Mode, s: string): (t: Token)
    requires s != ""
    ensures Source(t) != "" && Source(t) <= s
  {
    match mode
    case Normal =>
      if s[0] == '\'' then Lexeme(mode, s[..1], SingleQuote)
      else if s[0] == '"' then Lexeme(mode, s[..1], DoubleQuote)
      else if s[0] == '-' && At(s, 1, '-') then Lexeme(mode, s[..2], LineComment)
      else if s[0] == '/' && At(s, 1, '*') then Lexeme(mode, s[..2], BlockComment)
      else if s[0] == '$' && 1 < |s| && IsDigit(s[1]) then Hole(DigitRun(s[1..]))
      else Lexeme(mode, s[..1], Normal)
    case SingleQuote =>
      if s[0] != '\'' then Lexeme(mode, s[..1], SingleQuote)
      else if At(s, 1, '\'') then Lexeme(mode, s[..2], SingleQuote)
      else Lexeme(mode, s[..1], Normal)
    case DoubleQuote =>
      if s[0] != '"' then Lexeme(mode, s[..1], DoubleQuote)
      else if At(s, 1, '"') then Lexeme(mode, s[..2], DoubleQuote)
      else Lexeme(mode, s[..1], Normal)
    case LineComment => Lexeme(mode, s[..1], if s[0] == '\n' then Normal else LineComment)
    case BlockComment =>
      if s[0] == '*' && At(s, 1, '/') then Lexeme(mode, s[..2], Normal)
      else Lexeme(mode, s[..1], BlockComment)
  }

  function Lex(mode: Mode, s: string): seq<Token>
    decreases |s|
  {
    if s == "" then []
    else
      var t := Step(mode, s);
      [t] + Lex(After(t), s[|Source(t)|..])
  }

  function Render(ts: seq<Token>): string {
    if ts == [] then "" else Source(ts[0]) + Render(ts[1..])
  }

  function EndMode(mode: Mode, ts: seq<Token>): Mode
    decreases |ts|
  {
    if ts == [] then mode else EndMode(After(ts[0]), ts[1..])
  }

  /** `t` is the step the scanner takes on `t`'s own text followed by `rest`. */
  predicate Fits(mode: Mode, t: Token, rest: string) {
    Source(t) != "" && Step(mode, Source(t) + rest) == t
  }

  predicate Chained(mode: Mode, ts: seq<Token>)
    decreases |ts|
  {
    ts != [] ==> Fits(mode, ts[0], Render(ts[1..])) && Chained(After(ts[0]), ts[1..])
  }

  lemma {:induction false} LexRenders(mode: Mode, s: string)
    ensures Render(Lex(mode, s)) == s
    ensures Chained(mode, Lex(mode, s))
    decreases |s|
  {
    if s != "" {
      var t := Step(mode, s);
      var tail := s[|Source(t)|..];
      LexRenders(After(t), tail);
      assert Lex(mode, s)[1..] == Lex(After(t), tail);
      assert Source(t) + tail == s;
    }
  }

  lemma LexStep(mode: Mode, t: Token, rest: string)
    requires Fits(mode, t, rest)
    ensures Lex(mode, Source(t) + rest) == [t] + Lex(After(t), rest)
  {
    var s := Source(t) + rest;
    assert s[|Source(t)|..] == rest;
  }

  lemma {:induction false} ChainedIsLex(mode: Mode, ts: seq<Token>)
    requires Chained(mode, ts)
    ensures Lex(mode, Render(ts)) == ts
    decreases |ts|
  {
    if ts != [] {
      ChainedIsLex(After(ts[0]), ts[1..]);
      LexStep(mode, ts[0], Render(ts[1..]));
      assert ts == [ts[0]] + ts[1..];
    }
  }

  /** The scanner splits its whole input, and `Chained` says exactly which split it makes. */
  lemma LexIsTheChainedSplit(mode: Mode, s: string, ts: seq<Token>)
    ensures ts == Lex(mode, s) <==> Render(ts) == s && Chained(mode, ts)
  {
    LexRenders(mode, s);
    if Render(ts) == s && Chained(mode, ts) {
      ChainedIsLex(mode, ts);
    }
  }

  function ModeOf(t: Token): Mode { if t.Hole? then Normal else t.mode }

  lemma DigitRunStops(d: string, rest: string)
    ensures DigitRun(d + rest) == d <==> AllDigits(d) && (rest == "" || !IsDigit(rest[0]))
  {
    var s, r := d + rest, DigitRun(d + rest);
    assert s[..|d|] == d;
    if r == d && rest != "" {
      assert s[|r|] == rest[0];
    }
    if AllDigits(d) && (rest == "" || !IsDigit(rest[0])) {
      assert |r| == |d|;
    }
  }

  /** The scanner looks one character ahead: only the first character of what follows matters. */
  lemma FitsLooksOneAhead(mode: Mode, t: Token, r1: string, r2: string)
    requires r1 == "" <==> r2 == ""
    requires r1 != "" ==> r1[0] == r2[0]
    ensures Fits(mode, t, r1) == Fits(mode, t, r2)
  {
    if Source(t) != "" {
      var s1, s2 := Source(t) + r1, Source(t) + r2;
      if t.Hole? {
        HoleFits(mode, t.digits, r1);
        HoleFits(mode, t.digits, r2);
      } else {
        assert s1[0] == s2[0] && (|s1| > 1 <==> |s2| > 1) && (|s1| > 1 ==> s1[1] == s2[1]);
        assert s1[..1] == s2[..1] && (|s1| > 1 ==> s1[..2] == s2[..2]);
      }
    }
  }

  lemma HoleFits(mode: Mode, d: Digits, rest: string)
    ensures Fits(mode, Hole(d), rest) <==>
            mode.Normal? && d != "" && (rest == "" || !IsDigit(rest[0]))
  {
    var s := "$" + d + rest;
    assert s[1..] == d + rest;
    DigitRunStops(d, rest);
    if d == "" && rest != "" && IsDigit(rest[0]) {
      assert DigitRun(s[1..]) != "";
    }
  }

  lemma RenderStarts(a: seq<Token>, b: seq<Token>)
    requires a != [] && Source(a[0]) != ""
    ensures Render(a) != "" && Render(a + b) != "" && Render(a + b)[0] == Render(a)[0]
  {
    assert (a + b)[0] == a[0];
  }

  /** `Chained` for any notion of fitting. */
  ghost predicate ChainedBy(fits: (Mode, Token, string) -> bool, mode: Mode, ts: seq<Token>)
    decreases |ts|
  {
    ts != [] ==> fits(mode, ts[0], Render(ts[1..])) && ChainedBy(fits, After(ts[0]), ts[1..])
  }

  lemma {:induction false} ChainedIsByFits(mode: Mode, ts: seq<Token>)
    ensures Chained(mode, ts) <==> ChainedBy(Fits, mode, ts)
    decreases |ts|
  {
    if ts != [] {
      ChainedIsByFits(After(ts[0]), ts[1..]);
    }
  }

  /** Fitting looks one character ahead, and only texts that are not empty fit, in their own mode. */
  ghost predicate LooksOneAhead(fits: (Mode, Token, string) -> bool) {
    && (forall m, t, r, s :: r != "" && s != "" && r[0] == s[0] ==> (fits(m, t, r) <==> fits(m, t, s)))
    && (forall m, t, r :: fits(m, t, r) ==> Source(t) != "" && ModeOf(t) == m)
  }

  lemma {:induction false} ChainedByAppend(fits: (Mode, Token, string) -> bool, mode: Mode, a: seq<Token>, b: seq<Token>)
    requires LooksOneAhead(fits) && a != [] && ChainedBy(fits, mode, a)
    ensures ChainedBy(fits, mode, a + b) <==>
            fits(ModeOf(a[|a| - 1]), a[|a| - 1], Render(b)) && ChainedBy(fits, EndMode(mode, a), b)
    decreases |a|
  {
    var t, rest := a[0], a[1..];
    assert (a + b)[0] == t && (a + b)[1..] == rest + b;
    if rest == [] {
      assert rest + b == b;
    } else {
      ChainedByAppend(fits, After(t), rest, b);
      RenderStarts(rest, b);
    }
  }

  lemma FitsIsLookahead()
    ensures LooksOneAhead(Fits)
  {
    forall m, t, r, s | r != "" && s != "" && r[0] == s[0]
      ensures Fits(m, t, r) <==> Fits(m, t, s)
    {
      FitsLooksOneAhead(m, t, r, s);
    }
    forall m, t, r | Fits(m, t, r)
      ensures Source(t) != "" && ModeOf(t) == m
    {
      FitsMode(m, t, r);
    }
  }

  lemma ChainedAppend(mode: Mode, a: seq<Token>, b: seq<Token>)
    requires a != [] && Chained(mode, a)
    ensures Chained(mode, a + b) <==>
            Fits(ModeOf(a[|a| - 1]), a[|a| - 1], Render(b)) && Chained(EndMode(mode, a), b)
  {
    FitsIsLookahead();
    ChainedIsByFits(mode, a);
    ChainedIsByFits(mode, a + b);
    ChainedIsByFits(EndMode(mode, a), b);
    ChainedByAppend(Fits, mode, a, b);
  }

  lemma FitsMode(mode: Mode, t: Token, rest: string)
    requires Fits(mode, t, rest)
    ensures ModeOf(t) == mode
  {}

  lemma {:induction false} RenderAppend(a: seq<Token>, b: seq<Token>)
    ensures Render(a + b) == Render(a) + Render(b)
  {
    if a == [] {
      assert a + b == b;
    } else {
      assert (a + b)[1..] == a[1..] + b;
      RenderAppend(a[1..], b);
    }
  }

  /// Literals are lexically self-contained

  function InnerTokens(v: string): seq<Token> {
    if v == "" then [Lexeme(SingleQuote, "'", Normal)]
    else [Lexeme(SingleQuote, if v[0] == '\'' then "''" else [v[0]], SingleQuote)] + InnerTokens(v[1..])
  }

  function InnerToken(c: char): Token { Lexeme(SingleQuote, if c == '\'' then "''" else [c], SingleQuote) }

  lemma InnerFits(c: char, rest: string)
    ensures Fits(SingleQuote, InnerToken(c), rest)
  {
    var s := Source(InnerToken(c)) + rest;
    assert s[..|Source(InnerToken(c))|] == Source(InnerToken(c));
  }

  lemma {:induction false} InnerTokensChained(v: string)
    ensures Render(InnerTokens(v)) == Escape(v) + "'"
    ensures Chained(SingleQuote, InnerTokens(v)) && EndMode(SingleQuote, InnerTokens(v)) == Normal
    ensures InnerTokens(v)[|InnerTokens(v)| - 1] == Lexeme(SingleQuote, "'", Normal)
  {
    if v != "" {
      var rest := InnerTokens(v[1..]);
      InnerTokensChained(v[1..]);
      assert InnerTokens(v) == [InnerToken(v[0])] + rest && InnerTokens(v)[1..] == rest;
      InnerFits(v[0], Render(rest));
    }
  }

  /** The characters that can start a region, a placeholder or a comment. */
  predicate Special(c: char) { c == '\'' || c == '"' || c == '$' || c == '/' }

  predicate PlainAt(s: string, i: nat)
    requires i < |s|
  {
    !Special(s[i]) && (s[i] == '-' ==> i + 1 < |s| && s[i + 1] != '-')
  }

  /** Such a string is copied one character a step, in Normal mode. */
  ghost predicate IsPlain(s: string) { forall i :: 0 <= i < |s| ==> PlainAt(s, i) }

  lemma PlainAppend(a: string, b: string)
    requires IsPlain(a) && IsPlain(b)
    ensures IsPlain(a + b)
  {
    forall i | 0 <= i < |a + b|
      ensures PlainAt(a + b, i)
    {
      assert if i < |a| then PlainAt(a, i) else PlainAt(b, i - |a|);
    }
  }

  function PlainTokens(s: string): seq<Token> {
    if s == "" then [] else [Lexeme(Normal, [s[0]], Normal)] + PlainTokens(s[1..])
  }

  lemma PlainStep(s: string)
    requires s != "" && PlainAt(s, 0)
    ensures Step(Normal, s) == Lexeme(Normal, [s[0]], Normal)
  {}

  lemma PlainTail(s: string)
    requires s != "" && IsPlain(s)
    ensures IsPlain(s[1..])
  {
    forall i | 0 <= i < |s[1..]|
      ensures PlainAt(s[1..], i)
    {
      assert PlainAt(s, i + 1);
    }
  }

  lemma {:induction false} PlainTokensChained(s: string)
    requires IsPlain(s)
    ensures Render(PlainTokens(s)) == s
    ensures Chained(Normal, PlainTokens(s)) && EndMode(Normal, PlainTokens(s)) == Normal
    ensures |PlainTokens(s)| == |s|
    ensures s != "" ==> PlainTokens(s)[|s| - 1] == Lexeme(Normal, [s[|s| - 1]], Normal)
  {
    if s != "" {
      var t := Lexeme(Normal, [s[0]], Normal);
      PlainTail(s);
      assert PlainAt(s, 0);
      PlainTokensChained(s[1..]);
      assert PlainTokens(s)[1..] == PlainTokens(s[1..]);
      assert [s[0]] + s[1..] == s;
      PlainStep(s);
    }
  }

  /** The last step of a literal: a closing quote, or a character no look-ahead can change. */
  predicate IsClosing(t: Token, last: char) {
    if last == '\'' then t == Lexeme(SingleQuote, "'", Normal)
    else !Special(last) && last != '-' && t == Lexeme(Normal, [last], Normal)
  }

  /** Lexed on its own, `text` opens and closes every region it starts and holds no placeholder. */
  ghost predicate SelfContained(text: string) {
    && text != ""
    && text[0] !in "\"*"
    && var ts := Lex(Normal, text);
       && EndMode(Normal, ts) == Normal
       && (forall t <- ts :: t.Lexeme?)
       && IsClosing(ts[|ts| - 1], text[|text| - 1])
  }

  lemma QuotedIsSelfContained(v: string)
    ensures SelfContained(SqlStringLiteral(v))
    ensures Lex(Normal, SqlStringLiteral(v)) == [Lexeme(Normal, "'", SingleQuote)] + InnerTokens(v)
  {
    var ts := [Lexeme(Normal, "'", SingleQuote)] + InnerTokens(v);
    InnerTokensChained(v);
    assert ts[1..] == InnerTokens(v);
    ChainedIsLex(Normal, ts);
    assert Render(ts) == SqlStringLiteral(v);
    InnerTokensAreLexemes(v);
  }

  lemma InnerTokensAreLexemes(v: string)
    ensures forall t <- InnerTokens(v) :: t.Lexeme?
  {}

  lemma PlainIsSelfContained(s: string)
    requires s != "" && IsPlain(s) && s[0] != '*'
    ensures SelfContained(s)
  {
    assert PlainAt(s, |s| - 1);
    PlainTokensChained(s);
    ChainedIsLex(Normal, PlainTokens(s));
    PlainTokensAreLexemes(s);
  }

  lemma PlainTokensAreLexemes(s: string)
    ensures forall t <- PlainTokens(s) :: t.Lexeme?
  {}

  lemma FloatTextIsPlain(s: FloatText)
    ensures IsPlain(s)
  {
    forall i | 0 <= i < |s|
      ensures PlainAt(s, i)
    {
      assert i + 1 < |s| ==> IsDigit(s[i + 1]) || s[i + 1] == '.';
    }
  }

  lemma {:induction false} JoinFloatsIsPlain(fs: seq<Float>)
    requires fs != [] && forall f <- fs :: f.Finite?
    ensures IsPlain(JoinFloats(fs))
  {
    FloatTextIsPlain(fs[0].text);
    if |fs| > 1 {
      JoinFloatsIsPlain(fs[1..]);
      PlainAppend(",", JoinFloats(fs[1..]));
      PlainAppend(fs[0].text, "," + JoinFloats(fs[1..]));
      assert JoinFloats(fs) == fs[0].text + ("," + JoinFloats(fs[1..]));
    }
  }

  lemma HexTextHasNoQuote(bs: seq<byte>)
    ensures Escape(HexText(bs)) == HexText(bs)
  {
    if bs != [] {
      var h := HexText(bs);
      assert h[1..][1..] == HexText(bs[1..]);
      assert Escape(h) == [h[0]] + ([h[1]] + Escape(h[1..][1..]));
    }
  }

  lemma EscapePlainHead(c: char, rest: string)
    requires c != '\''
    ensures Escape([c] + rest) == [c] + Escape(rest)
  {
    assert ([c] + rest)[1..] == rest;
  }

  lemma EscapedBytes(h: string)
    requires Escape(h) == h
    ensures Escape("\\x" + h) == "\\x" + h
  {
    EscapePlainHead('x', h);
    EscapePlainHead('\\', "x" + h);
    assert "\\x" + h == ['\\'] + ("x" + h) && "x" + h == ['x'] + h;
  }

  lemma BytesLiteral(bs: seq<byte>)
    ensures Literal(Bytes(bs)) == Ok(SqlStringLiteral("\\x" + HexText(bs)))
  {
    HexTextHasNoQuote(bs);
    EscapedBytes(HexText(bs));
    assert "'\\x" + HexText(bs) + "'" == "'" + ("\\x" + HexText(bs)) + "'";
  }

  lemma FloatArrayLiteral(fs: seq<Float>)
    requires Literal(FloatArray(fs)).Ok?
    ensures SelfContained(Literal(FloatArray(fs)).value)
  {
    JoinFloatsIsPlain(fs);
    PlainAppend("[", JoinFloats(fs));
    PlainAppend("[" + JoinFloats(fs), "]::FLOAT[]");
    PlainIsSelfContained("[" + JoinFloats(fs) + "]::FLOAT[]");
  }

  /** Every literal the binder can insert is self-contained. */
  lemma LiteralIsSelfContained(p: SqlParam)
    requires Literal(p).Ok?
    ensures SelfContained(Literal(p).value)
  {
    match p
    case TextParam(v) => QuotedIsSelfContained(v);
    case Bytes(bs) => BytesLiteral(bs); QuotedIsSelfContained("\\x" + HexText(bs));
    case FloatArray(fs) => FloatArrayLiteral(fs);
    case Null => PlainIsSelfContained("NULL");
    case Bool(b) => PlainIsSelfContained(if b then "true" else "false");
    case Integer(i) => PlainIsSelfContained(IntText(i));
    case FloatParam(f) => PlainIsSelfContained(f.text);
  }

  /// Substitution

  function Number(t: Token): nat
    requires t.Hole?
  {
    DecValue(t.digits)
  }

  const USIZE_LIMIT: nat := 0x1_0000_0000_0000_0000

  /** What the scanner writes for one step, and the parameter number it uses (0 for none). */
  function BindToken(t: Token, params: Option<seq<SqlParam>>): Result<(string, nat), ScanError>
  {
    if t.Lexeme? then Ok((t.text, 0))
    else if Number(t) >= USIZE_LIMIT then Err(InvalidParameter(t.digits))
    else if Number(t) == 0 then Err(ZeroParameter)
    else if params.None? then Ok((Source(t), Number(t)))
    else if Number(t) > |params.value| then Err(MissingParameter(Number(t)))
    else match Literal(params.value[Number(t) - 1])
      case Err(e) => Err(e)
      case Ok(text) => Ok((text, Number(t)))
  }

  function Max(a: nat, b: nat): nat { if a < b then b else a }

  /** The scanner as a left fold over its steps; the first failing step decides the error. */
  function FoldTokens(ts: seq<Token>, params: Option<seq<SqlParam>>, out: string, max: nat): Result<(string, nat), ScanError>
    decreases |ts|
  {
    if ts == [] then Ok((out, max))
    else match BindToken(ts[0], params)
      case Err(e) => Err(e)
      case Ok((text, number)) => FoldTokens(ts[1..], params, out + text, Max(max, number))
  }

  function ScanSpec(sql: string, params: Option<seq<SqlParam>>): Result<(string, nat), ScanError> {
    CheckCount(FoldTokens(Lex(Normal, sql), params, "", 0), params)
  }

  /** No parameter may be left over. */
  function CheckCount(r: Result<(string, nat), ScanError>, params: Option<seq<SqlParam>>): Result<(string, nat), ScanError> {
    match r
    case Err(e) => Err(e)
    case Ok((out, max)) =>
      if params.Some? && |params.value| > max then Err(TooManyParameters(|params.value|, max))
      else Ok((out, max))
  }

  lemma {:induction false} FoldCons(t: Token, rest: seq<Token>, params: Option<seq<SqlParam>>, out: string, max: nat)
    ensures var bound := BindToken(t, params);
            FoldTokens([t] + rest, params, out, max) ==
            if bound.Err? then Err(bound.error)
            else FoldTokens(rest, params, out + bound.value.0, Max(max, bound.value.1))
  {
    var ts := [t] + rest;
    assert ts[1..] == rest;
  }

  lemma {:induction false} LexAt(mode: Mode, sql: string, idx: nat, t: Token, end: nat)
    requires idx < |sql| && t == Step(mode, sql[idx..]) && end == idx + |Source(t)|
    ensures end <= |sql|
    ensures Lex(mode, sql[idx..]) == [t] + Lex(After(t), sql[end..])
  {
    assert sql[idx..][|Source(t)|..] == sql[end..];
  }

  /** One turn of the scanning loop, on the specification side. */
  lemma {:induction false} FoldUnfolds(mode: Mode, sql: string, idx: nat, t: Token, end: nat, params: Option<seq<SqlParam>>, out: string, max: nat)
    requires idx < |sql| && t == Step(mode, sql[idx..]) && end == idx + |Source(t)|
    ensures var bound := BindToken(t, params);
            && end <= |sql|
            && FoldTokens(Lex(mode, sql[idx..]), params, out, max) ==
               if bound.Err? then Err(bound.error)
               else FoldTokens(Lex(After(t), sql[end..]), params, out + bound.value.0, Max(max, bound.value.1))
  {
    LexAt(mode, sql, idx, t, end);
    FoldCons(t, Lex(After(t), sql[end..]), params, out, max);
  }

  /** A turn that copies text. */
  lemma TextUnfolds(mode: Mode, sql: string, idx: nat, next: nat, after: Mode, params: Option<seq<SqlParam>>, out: string, max: nat)
    requires idx < next <= |sql| && Step(mode, sql[idx..]) == Lexeme(mode, sql[idx..next], after)
    ensures FoldTokens(Lex(mode, sql[idx..]), params, out, max) == FoldTokens(Lex(after, sql[next..]), params, out + sql[idx..next], max)
  {
    FoldUnfolds(mode, sql, idx, Lexeme(mode, sql[idx..next], after), next, params, out, max);
  }

  method ScanDigits(sql: string, start: nat) returns (end: nat)
    requires start <= |sql|
    ensures start <= end <= |sql|
    ensures sql[start..end] == DigitRun(sql[start..])
  {
    end := start;
    while end < |sql| && IsDigit(sql[end])
      invariant start <= end <= |sql|
      invariant AllDigits(sql[start..end])
    {
      assert sql[start..end + 1] == sql[start..end] + [sql[end]];
      end := end + 1;
    }
    assert sql[start..] == sql[start..end] + sql[end..];
    DigitRunStops(sql[start..end], sql[end..]);
  }

  /** The placeholder branch of the loop: what replaces `$digits`, its number, and where it ends. */
  method BindPlaceholder(sql: string, idx: nat, params: Option<seq<SqlParam>>)
    returns (r: Result<(string, nat), ScanError>, end: nat)
    requires idx + 1 < |sql| && sql[idx] == '$' && IsDigit(sql[idx + 1])
    ensures idx + 1 < end <= |sql|
    ensures AllDigits(sql[idx + 1..end]) && Step(Normal, sql[idx..]) == Hole(sql[idx + 1..end])
    ensures r == BindToken(Hole(sql[idx + 1..end]), params)
  {
    end := ScanDigits(sql, idx + 1);
    var digits := sql[idx + 1..end];
    assert sql[idx..][1..] == sql[idx + 1..];
    var paramNumber := DecValue(digits);
    if paramNumber >= USIZE_LIMIT {
      return Err(InvalidParameter(digits)), end;
    }
    if paramNumber == 0 {
      return Err(ZeroParameter), end;
    }
    if params.Some? {
      if paramNumber > |params.value| {
        return Err(MissingParameter(paramNumber)), end;
      }
      var literal := Literal(params.value[paramNumber - 1]);
      if literal.Err? {
        return Err(literal.error), end;
      }
      return Ok((literal.value, paramNumber)), end;
    }
    assert sql[idx..end] == "$" + digits;
    return Ok((sql[idx..end], paramNumber)), end;
  }

  predicate AtPlaceholder(state: Mode, sql: string, idx: nat) {
    state.Normal? && At(sql, idx, '$') && idx + 1 < |sql| && IsDigit(sql[idx + 1])
  }

  /** The copying branches of the loop: how far the copied text reaches, and the mode after it. */
  method CopyStep(state: Mode, sql: string, idx: nat) returns (next: nat, after: Mode)
    requires idx < |sql| && !AtPlaceholder(state, sql, idx)
    ensures idx < next <= |sql|
    ensures Step(state, sql[idx..]) == Lexeme(state, sql[idx..next], after)
  {
    next, after := idx + 1, state;
    match state {
      case Normal =>
        if sql[idx] == '\'' {
          after := SingleQuote;
        } else if sql[idx] == '"' {
          after := DoubleQuote;
        } else if sql[idx] == '-' && At(sql, idx + 1, '-') {
          next, after := idx + 2, LineComment;
        } else if sql[idx] == '/' && At(sql, idx + 1, '*') {
          next, after := idx + 2, BlockComment;
        }
      case SingleQuote =>
        if sql[idx] == '\'' {
          if At(sql, idx + 1, '\'') {
            next := idx + 2;
          } else {
            after := Normal;
          }
        }
      case DoubleQuote =>
        if sql[idx] == '"' {
          if At(sql, idx + 1, '"') {
            next := idx + 2;
          } else {
            after := Normal;
          }
        }
      case LineComment =>
        if sql[idx] == '\n' {
          after := Normal;
        }
      case BlockComment =>
        if sql[idx] == '*' && At(sql, idx + 1, '/') {
          next, after := idx + 2, Normal;
        }
    }
    assert sql[idx..next] == sql[idx..][..next - idx];
  }

  /** The scanning loop. */
  method ScanSqlParams(sql: string, params: Option<seq<SqlParam>>) returns (r: Result<(string, nat), ScanError>)
    ensures r == ScanSpec(sql, params)
  {
    var out, idx, state := "", 0, Normal;
    var maxParam: nat := 0;
    ghost var fold := FoldTokens(Lex(Normal, sql), params, "", 0);
    assert sql[0..] == sql;
    while idx < |sql|
      invariant 0 <= idx <= |sql|
      invariant fold == FoldTokens(Lex(state, sql[idx..]), params, out, maxParam)
    {
      if AtPlaceholder(state, sql, idx) {
        var bound, end := BindPlaceholder(sql, idx, params);
        FoldUnfolds(Normal, sql, idx, Hole(sql[idx + 1..end]), end, params, out, maxParam);
        if bound.Err? {
          return Err(bound.error);
        }
        out, maxParam, idx := out + bound.value.0, Max(maxParam, bound.value.1), end;
      } else {
        var next, after := CopyStep(state, sql, idx);
        TextUnfolds(state, sql, idx, next, after, params, out, maxParam);
        out, idx, state := out + sql[idx..next], next, after;
      }
    }
    assert sql[idx..] == "";
    if params.Some? && |params.value| > maxParam {
      return Err(TooManyParameters(|params.value|, maxParam));
    }
    return Ok((out, maxParam));
  }

  /// Results of a successful binding

  /** A placeholder some parameter list can fill: a number in `1..|params|` with a literal. */
  ghost predicate Usable(t: Token, params: seq<SqlParam>) {
    t.Hole? ==>
      && 1 <= Number(t) <= |params|
      && Number(t) < USIZE_LIMIT
      && Literal(params[Number(t) - 1]).Ok?
  }

  ghost predicate AllUsable(ts: seq<Token>, params: seq<SqlParam>) {
    forall i :: 0 <= i < |ts| ==> Usable(ts[i], params)
  }

  function BoundText(t: Token, params: seq<SqlParam>): string
    requires Usable(t, params)
  {
    if t.Hole? then Literal(params[Number(t) - 1]).value else t.text
  }

  function BoundSql(ts: seq<Token>, params: seq<SqlParam>): string
    requires AllUsable(ts, params)
  {
    if ts == [] then "" else BoundText(ts[0], params) + BoundSql(ts[1..], params)
  }

  function Highest(ts: seq<Token>): nat
  {
    if ts == [] then 0
    else Max(if ts[0].Hole? then Number(ts[0]) else 0, Highest(ts[1..]))
  }

  lemma {:induction false} FoldSucceeds(ts: seq<Token>, params: seq<SqlParam>, out: string, max: nat)
    ensures FoldTokens(ts, Some(params), out, max).Ok? <==> AllUsable(ts, params)
    ensures AllUsable(ts, params) ==>
              FoldTokens(ts, Some(params), out, max) == Ok((out + BoundSql(ts, params), Max(max, Highest(ts))))
    decreases |ts|
  {
    if ts != [] {
      var t := ts[0];
      assert AllUsable(ts, params) <==> Usable(t, params) && AllUsable(ts[1..], params) by {
        assert ts == [t] + ts[1..];
      }
      if Usable(t, params) {
        var n := if t.Hole? then Number(t) else 0;
        FoldSucceeds(ts[1..], params, out + BoundText(t, params), Max(max, n));
        if AllUsable(ts, params) {
          assert out + BoundText(t, params) + BoundSql(ts[1..], params) == out + BoundSql(ts, params);
        }
      }
    } else {
      assert out + "" == out;
    }
  }

  /** A text whose placeholders the parameters fill, with no parameter left over. */
  ghost predicate Bindable(sql: string, params: seq<SqlParam>) {
    var ts := Lex(Normal, sql);
    AllUsable(ts, params) && |params| <= Highest(ts)
  }

  lemma CountSucceeds(ts: seq<Token>, params: seq<SqlParam>)
    ensures var r := CheckCount(FoldTokens(ts, Some(params), "", 0), Some(params));
            && (r.Ok? <==> AllUsable(ts, params) && |params| <= Highest(ts))
            && (r.Ok? ==> AllUsable(ts, params) && r == Ok((BoundSql(ts, params), |params|)))
  {
    FoldSucceeds(ts, params, "", 0);
    if AllUsable(ts, params) {
      HighestIsUsed(ts, params);
      assert "" + BoundSql(ts, params) == BoundSql(ts, params);
    }
  }

  /** Binding succeeds exactly when every placeholder can be filled and no parameter beyond the
      highest number used is left over; the result is the text with each one replaced. */
  lemma BindSucceeds(sql: string, params: seq<SqlParam>)
    ensures ScanSpec(sql, Some(params)).Ok? <==> Bindable(sql, params)
    ensures Bindable(sql, params) ==>
              ScanSpec(sql, Some(params)) == Ok((BoundSql(Lex(Normal, sql), params), |params|))
  {
    CountSucceeds(Lex(Normal, sql), params);
  }

  lemma {:induction false} HighestIsUsed(ts: seq<Token>, params: seq<SqlParam>)
    requires AllUsable(ts, params)
    ensures Highest(ts) <= |params|
  {
    if ts != [] {
      assert Usable(ts[0], params);
      HighestIsUsed(ts[1..], params);
    }
  }

  /// Binding preserves lexical structure

  /** The steps of `sql`, each placeholder replaced by the steps of its own literal. */
  function Substitute(ts: seq<Token>, params: seq<SqlParam>): seq<Token>
    requires AllUsable(ts, params)
  {
    if ts == [] then []
    else (if ts[0].Hole? then Lex(Normal, BoundText(ts[0], params)) else [ts[0]]) + Substitute(ts[1..], params)
  }

  /** Two texts whose touching ends the scanner would read as one step. */
  predicate Fuses(left: string, right: string) {
    && left != "" && right != ""
    && var p, q := left[|left| - 1], right[0];
       || (p == '\'' && q == '\'')
       || (p == '-' && q == '-')
       || (p == '$' && IsDigit(q))
  }

  /** No inserted literal fuses with what stands before or after it. */
  ghost predicate NoFusion(ts: seq<Token>, params: seq<SqlParam>)
    requires AllUsable(ts, params)
  {
    forall i :: 0 <= i < |ts| - 1 && (ts[i].Hole? || ts[i + 1].Hole?) ==>
      !Fuses(BoundText(ts[i], params), BoundText(ts[i + 1], params))
  }

  lemma {:induction false} SubstituteRenders(ts: seq<Token>, params: seq<SqlParam>)
    requires AllUsable(ts, params)
    ensures Render(Substitute(ts, params)) == BoundSql(ts, params)
  {
    if ts != [] {
      SubstituteRenders(ts[1..], params);
      var head := if ts[0].Hole? then Lex(Normal, BoundText(ts[0], params)) else [ts[0]];
      RenderAppend(head, Substitute(ts[1..], params));
      if ts[0].Hole? {
        LexRenders(Normal, BoundText(ts[0], params));
      } else {
        assert Render(head) == ts[0].text;
      }
    }
  }

  /** What follows a self-contained literal is scanned as if it stood alone, unless two quotes touch. */
  lemma LiteralJoins(text: string, b: seq<Token>)
    requires SelfContained(text)
    ensures Chained(Normal, Lex(Normal, text) + b) <==> !Fuses(text, Render(b)) && Chained(Normal, b)
  {
    var a := Lex(Normal, text);
    LexRenders(Normal, text);
    ChainedAppend(Normal, a, b);
    ClosingFits(a[|a| - 1], text, Render(b));
  }

  lemma ClosingFits(t: Token, text: string, rest: string)
    requires text != "" && IsClosing(t, text[|text| - 1])
    ensures Fits(ModeOf(t), t, rest) <==> !Fuses(text, rest)
  {
    var s := t.text + rest;
    assert s[0] == t.text[0] && s[..1] == t.text;
    if rest != "" {
      assert s[1] == rest[0];
    }
  }

  /** A step that stood before a placeholder still ends where it did, unless it fuses. */
  lemma LexemeBeforeLiteral(t: Token, hole: string, bound: string)
    requires t.Lexeme? && t.after == Normal
    requires hole != "" && hole[0] == '$' && Fits(t.mode, t, hole)
    requires bound != "" && bound[0] !in "\"*"
    ensures Fits(t.mode, t, bound) <==> !Fuses(t.text, bound)
  {
    var s1, s2 := t.text + hole, t.text + bound;
    assert |t.text| == 1 || |t.text| == 2;
    assert s1[0] == s2[0] == t.text[0];
    assert s1[..1] == s2[..1] == t.text[..1];
    if |t.text| == 1 {
      assert s1[1] == '$' && s2[1] == bound[0];
    } else {
      assert s1[1] == s2[1] == t.text[1];
      assert s1[..2] == s2[..2] == t.text;
    }
  }

  lemma NoFusionCons(ts: seq<Token>, params: seq<SqlParam>)
    requires ts != [] && AllUsable(ts, params)
    ensures AllUsable(ts[1..], params)
    ensures NoFusion(ts, params) <==>
            && NoFusion(ts[1..], params)
            && (|ts| > 1 && (ts[0].Hole? || ts[1].Hole?) ==> !Fuses(BoundText(ts[0], params), BoundText(ts[1], params)))
  {
    assert AllUsable(ts[1..], params);
    var rest := ts[1..];
    if NoFusion(ts, params) {
      forall i | 0 <= i < |rest| - 1 && (rest[i].Hole? || rest[i + 1].Hole?)
        ensures !Fuses(BoundText(rest[i], params), BoundText(rest[i + 1], params))
      {
        assert rest[i] == ts[i + 1] && rest[i + 1] == ts[i + 1 + 1];
      }
    }
    if NoFusion(rest, params) {
      forall i | 1 <= i < |ts| - 1 && (ts[i].Hole? || ts[i + 1].Hole?)
        ensures !Fuses(BoundText(ts[i], params), BoundText(ts[i + 1], params))
      {
        assert ts[i] == rest[i - 1] && ts[i + 1] == rest[i - 1 + 1];
      }
    }
  }

  /** The text bound for a non-empty step list starts as its first step's bound text does. */
  lemma BoundSqlStarts(mode: Mode, ts: seq<Token>, params: seq<SqlParam>)
    requires ts != [] && AllUsable(ts, params) && Chained(mode, ts)
    ensures BoundText(ts[0], params) != "" && BoundSql(ts, params) != ""
    ensures BoundSql(ts, params)[0] == BoundText(ts[0], params)[0]
    ensures ts[0].Lexeme? ==> Render(ts) != "" && Render(ts)[0] == BoundSql(ts, params)[0]
    ensures ts[0].Hole? ==> SelfContained(BoundText(ts[0], params)) && mode == Normal && Render(ts)[0] == '$'
  {
    assert Usable(ts[0], params);
    if ts[0].Hole? {
      LiteralIsSelfContained(params[Number(ts[0]) - 1]);
      HoleFits(mode, ts[0].digits, Render(ts[1..]));
    }
  }

  lemma LexemeBeforeLexeme(mode: Mode, t: Token, rest: seq<Token>, params: seq<SqlParam>)
    requires rest != [] && rest[0].Lexeme? && AllUsable(rest, params) && Chained(After(t), rest) && Fits(mode, t, Render(rest))
    ensures Fits(mode, t, BoundSql(rest, params))
  {
    BoundSqlStarts(After(t), rest, params);
    FitsLooksOneAhead(mode, t, Render(rest), BoundSql(rest, params));
  }

  lemma LexemeBeforeHole(mode: Mode, t: Token, rest: seq<Token>, params: seq<SqlParam>)
    requires rest != [] && rest[0].Hole? && AllUsable(rest, params) && Chained(After(t), rest) && Fits(mode, t, Render(rest)) && t.Lexeme?
    ensures Fits(mode, t, BoundSql(rest, params)) <==> !Fuses(t.text, BoundText(rest[0], params))
  {
    BoundSqlStarts(After(t), rest, params);
    assert t.mode == mode && t.after == Normal;
    LexemeBeforeLiteral(t, Render(rest), BoundSql(rest, params));
  }

  lemma LexemeStaysChained(mode: Mode, ts: seq<Token>, params: seq<SqlParam>)
    requires |ts| > 1 && AllUsable(ts, params) && Chained(mode, ts) && ts[0].Lexeme?
    ensures Fits(mode, ts[0], BoundSql(ts[1..], params)) <==>
            (ts[1].Hole? ==> !Fuses(BoundText(ts[0], params), BoundText(ts[1], params)))
  {
    if ts[1].Hole? {
      LexemeBeforeHole(mode, ts[0], ts[1..], params);
    } else {
      LexemeBeforeLexeme(mode, ts[0], ts[1..], params);
    }
  }

  lemma FirstHoleStaysChained(mode: Mode, ts: seq<Token>, params: seq<SqlParam>)
    requires ts != [] && ts[0].Hole? && AllUsable(ts, params) && Chained(mode, ts)
    requires Chained(After(ts[0]), Substitute(ts[1..], params)) <==> NoFusion(ts[1..], params)
    ensures Chained(mode, Substitute(ts, params)) <==> NoFusion(ts, params)
  {
    var t, rest := ts[0], ts[1..];
    NoFusionCons(ts, params);
    SubstituteRenders(rest, params);
    BoundSqlStarts(mode, ts, params);
    if rest != [] {
      BoundSqlStarts(After(t), rest, params);
    }
    LiteralJoins(BoundText(t, params), Substitute(rest, params));
  }

  /** A first step is chained to the rest exactly when it does not fuse with it. */
  lemma FirstStaysChained(mode: Mode, ts: seq<Token>, params: seq<SqlParam>)
    requires ts != [] && AllUsable(ts, params) && Chained(mode, ts)
    requires Chained(After(ts[0]), Substitute(ts[1..], params)) <==> NoFusion(ts[1..], params)
    ensures Chained(mode, Substitute(ts, params)) <==> NoFusion(ts, params)
  {
    var t, rest := ts[0], ts[1..];
    if t.Hole? {
      FirstHoleStaysChained(mode, ts, params);
    } else {
      NoFusionCons(ts, params);
      SubstituteRenders(rest, params);
      var whole := [t] + Substitute(rest, params);
      assert whole[1..] == Substitute(rest, params);
      if rest != [] {
        LexemeStaysChained(mode, ts, params);
      }
    }
  }

  lemma {:induction false} SubstituteChained(mode: Mode, ts: seq<Token>, params: seq<SqlParam>)
    requires AllUsable(ts, params) && Chained(mode, ts)
    ensures Chained(mode, Substitute(ts, params)) <==> NoFusion(ts, params)
    decreases |ts|
  {
    if ts != [] {
      SubstituteChained(After(ts[0]), ts[1..], params);
      FirstStaysChained(mode, ts, params);
    }
  }

  /** Binding keeps the lexical structure of the text exactly when no literal fuses with its
      surroundings: the scanner then splits the result into the same steps, each placeholder
      replaced by the steps of its literal. */
  lemma BindingPreservesStructure(sql: string, params: seq<SqlParam>)
    requires Bindable(sql, params)
    ensures var ts, bound := Lex(Normal, sql), ScanSpec(sql, Some(params));
            && bound.Ok?
            && (Lex(Normal, bound.value.0) == Substitute(ts, params) <==> NoFusion(ts, params))
  {
    var ts := Lex(Normal, sql);
    BindSucceeds(sql, params);
    LexRenders(Normal, sql);
    SubstituteRenders(ts, params);
    SubstituteChained(Normal, ts, params);
    LexIsTheChainedSplit(Normal, BoundSql(ts, params), Substitute(ts, params));
  }

  lemma {:induction false} SubstituteHasNoHole(ts: seq<Token>, params: seq<SqlParam>)
    requires AllUsable(ts, params)
    ensures forall t <- Substitute(ts, params) :: t.Lexeme?
  {
    if ts != [] {
      SubstituteHasNoHole(ts[1..], params);
      assert Usable(ts[0], params);
      if ts[0].Hole? {
        LiteralIsSelfContained(params[Number(ts[0]) - 1]);
      }
    }
  }

  lemma {:induction false} FoldWithoutHoles(ts: seq<Token>, params: Option<seq<SqlParam>>, out: string, max: nat)
    requires forall t <- ts :: t.Lexeme?
    ensures FoldTokens(ts, params, out, max) == Ok((out + Render(ts), max))
    decreases |ts|
  {
    if ts == [] {
      assert out + "" == out;
    } else {
      assert ts[0] in ts;
      FoldWithoutHoles(ts[1..], params, out + ts[0].text, max);
      LexemeBindsToItself(ts[0], params);
      TextRegroups(out, ts[0].text, Render(ts[1..]));
    }
  }

  lemma LexemeBindsToItself(t: Token, params: Option<seq<SqlParam>>)
    requires t.Lexeme?
    ensures BindToken(t, params) == Ok((t.text, 0)) && Source(t) == t.text
  {}

  lemma TextRegroups(a: string, b: string, c: string)
    ensures a + b + c == a + (b + c)
  {}

  /** Scanning the bound text again finds no placeholder and changes nothing. */
  lemma RescanFindsNoPlaceholder(sql: string, params: seq<SqlParam>)
    requires Bindable(sql, params) && NoFusion(Lex(Normal, sql), params)
    ensures var out := BoundSql(Lex(Normal, sql), params);
            ScanSpec(out, None) == Ok((out, 0)) && ScanSpec(out, Some([])) == Ok((out, 0))
  {
    var ts := Lex(Normal, sql);
    var out := BoundSql(ts, params);
    BindSucceeds(sql, params);
    BindingPreservesStructure(sql, params);
    SubstituteHasNoHole(ts, params);
    LexRenders(Normal, out);
    FoldWithoutHoles(Lex(Normal, out), None, "", 0);
    FoldWithoutHoles(Lex(Normal, out), Some([]), "", 0);
    assert "" + out == out;
  }

  /// Which texts are safe for every parameter list

  predicate EndsIn(s: string, cs: string) { s != "" && s[|s| - 1] in cs }

  predicate StartsIn(s: string, cs: string) { s != "" && s[0] in cs }

  predicate TooClose(t: Token, u: Token) {
    (t.Hole? && (u.Hole? || StartsIn(Source(u), "'"))) || (u.Hole? && EndsIn(Source(t), "'-$"))
  }

  /** No placeholder touches another one, follows `'`, `-` or `$`, or stands before `'`. */
  ghost predicate Separated(ts: seq<Token>) { forall i :: 0 <= i < |ts| - 1 ==> !TooClose(ts[i], ts[i + 1]) }

  ghost predicate Numbered(ts: seq<Token>) {
    forall i :: 0 <= i < |ts| && ts[i].Hole? ==> 1 <= Number(ts[i]) < USIZE_LIMIT
  }

  lemma {:induction false} HighestBounds(ts: seq<Token>, i: nat)
    requires i < |ts| && ts[i].Hole?
    ensures Number(ts[i]) <= Highest(ts)
  {
    if i > 0 {
      HighestBounds(ts[1..], i - 1);
    }
  }

  function Repeat(p: SqlParam, n: nat): (r: seq<SqlParam>)
    ensures |r| == n && forall i :: 0 <= i < n ==> r[i] == p
  {
    seq(n, _ => p)
  }

  lemma RepeatFills(sql: string, p: SqlParam)
    requires Numbered(Lex(Normal, sql)) && Literal(p).Ok?
    ensures Bindable(sql, Repeat(p, Highest(Lex(Normal, sql))))
  {
    var ts := Lex(Normal, sql);
    forall i | 0 <= i < |ts|
      ensures Usable(ts[i], Repeat(p, Highest(ts)))
    {
      if ts[i].Hole? {
        HighestBounds(ts, i);
      }
    }
  }

  /** No literal ends in a character that could open a comment or a placeholder. */
  lemma LiteralEdges(p: SqlParam)
    requires Literal(p).Ok?
    ensures var text := Literal(p).value; text != "" && text[|text| - 1] != '-' && text[|text| - 1] != '$'
  {
    LiteralIsSelfContained(p);
  }

  lemma PairNeverFuses(t: Token, u: Token, params: seq<SqlParam>)
    requires Usable(t, params) && Usable(u, params) && (t.Hole? || u.Hole?) && !TooClose(t, u)
    ensures !Fuses(BoundText(t, params), BoundText(u, params))
  {
    if t.Hole? {
      LiteralEdges(params[Number(t) - 1]);
      assert BoundText(u, params) == Source(u);
    } else {
      assert BoundText(t, params) == Source(t);
    }
  }

  lemma SeparatedNeverFuses(sql: string, params: seq<SqlParam>)
    requires Bindable(sql, params) && Separated(Lex(Normal, sql))
    ensures NoFusion(Lex(Normal, sql), params)
  {
    var ts := Lex(Normal, sql);
    forall i | 0 <= i < |ts| - 1 && (ts[i].Hole? || ts[i + 1].Hole?)
      ensures !Fuses(BoundText(ts[i], params), BoundText(ts[i + 1], params))
    {
      assert Usable(ts[i], params) && Usable(ts[i + 1], params);
      PairNeverFuses(ts[i], ts[i + 1], params);
    }
  }

  /** A parameter that fuses when it fills the placeholders of the two steps. */
  function Fusing(t: Token): SqlParam {
    if t.Hole? then TextParam("")
    else if EndsIn(Source(t), "-") then Integer(-1)
    else if EndsIn(Source(t), "$") then Integer(0)
    else TextParam("")
  }

  lemma FusingLiterals()
    ensures Literal(TextParam("")) == Ok("''") && Literal(Integer(0)) == Ok("0")
    ensures Literal(Integer(-1)).Ok? && Literal(Integer(-1)).value != "" && Literal(Integer(-1)).value[0] == '-'
  {
    assert SqlStringLiteral("") == "''" && IntText(0) == "0" && IntText(-1)[0] == '-';
  }

  lemma FusingFuses(t: Token, u: Token, params: seq<SqlParam>)
    requires TooClose(t, u) && Usable(t, params) && Usable(u, params)
    requires forall i :: 0 <= i < |params| ==> params[i] == Fusing(t)
    ensures Fuses(BoundText(t, params), BoundText(u, params))
  {
    FusingLiterals();
    var left, right := BoundText(t, params), BoundText(u, params);
    if t.Hole? {
      assert left == "''" && left[|left| - 1] == '\'' && right[0] == '\'';
    } else {
      assert left == Source(t) && right == Literal(Fusing(t)).value;
      var last := left[|left| - 1];
      assert last == '-' || last == '$' || last == '\'';
      if last == '$' {
        assert right == "0" && IsDigit(right[0]);
      } else {
        assert right[0] == last;
      }
    }
  }

  /** A pair of steps that `Separated` forbids fuses for some parameter value. */
  lemma UnseparatedFuses(sql: string, i: nat) returns (p: SqlParam)
    requires var ts := Lex(Normal, sql); Numbered(ts) && i + 1 < |ts| && TooClose(ts[i], ts[i + 1])
    ensures var params := Repeat(p, Highest(Lex(Normal, sql)));
            Bindable(sql, params) && !NoFusion(Lex(Normal, sql), params)
  {
    var ts := Lex(Normal, sql);
    p := Fusing(ts[i]);
    FusingLiterals();
    RepeatFills(sql, p);
    var params := Repeat(p, Highest(ts));
    assert Usable(ts[i], params) && Usable(ts[i + 1], params);
    FusingFuses(ts[i], ts[i + 1], params);
  }

  /** Some parameters fuse in a text that is not separated. */
  lemma UnseparatedIsUnsafe(sql: string)
    requires Numbered(Lex(Normal, sql)) && !Separated(Lex(Normal, sql))
    ensures exists params: seq<SqlParam> :: Bindable(sql, params) && !NoFusion(Lex(Normal, sql), params)
  {
    var ts := Lex(Normal, sql);
    var i :| 0 <= i < |ts| - 1 && TooClose(ts[i], ts[i + 1]);
    var p := UnseparatedFuses(sql, i);
    assert Bindable(sql, Repeat(p, Highest(ts)));
  }

  /** `Separated` is exactly the condition under which no parameter list can break the structure. */
  lemma SeparatedIsSafeForAllParameters(sql: string)
    requires Numbered(Lex(Normal, sql))
    ensures Separated(Lex(Normal, sql)) <==>
            forall params: seq<SqlParam> :: Bindable(sql, params) ==> NoFusion(Lex(Normal, sql), params)
  {
    if Separated(Lex(Normal, sql)) {
      forall params: seq<SqlParam> | Bindable(sql, params)
        ensures NoFusion(Lex(Normal, sql), params)
      {
        SeparatedNeverFuses(sql, params);
      }
    } else {
      UnseparatedIsUnsafe(sql);
    }
  }

  /// Reading a string literal back

  predicate AllSpace(s: string) { forall i :: 0 <= i < |s| ==> IsSpace(s[i]) }

  /** The value of a quoted literal after its opening quote; only blanks may follow the closing one. */
  function Unquote(s: string): Option<string> {
    if s == "" then None
    else if s[0] == '\'' && At(s, 1, '\'') then Prepend('\'', Unquote(s[2..]))
    else if s[0] == '\'' then (if AllSpace(s[1..]) then Some("") else None)
    else Prepend(s[0], Unquote(s[1..]))
  }

  function Prepend(c: char, r: Option<string>): Option<string> {
    if r.None? then None else Some([c] + r.value)
  }

  method ParseSingleQuotedLiteral(input: string) returns (r: Option<string>)
    ensures r == if StartsIn(input, "'") then Unquote(input[1..]) else None
  {
    if input == "" || input[0] != '\'' {
      return None;
    }
    var out, idx := "", 1;
    ghost var whole := Unquote(input[1..]);
    assert whole.Some? ==> "" + whole.value == whole.value;
    while idx < |input|
      invariant 1 <= idx <= |input|
      invariant whole == Append(out, Unquote(input[idx..]))
    {
      ghost var rest := input[idx..];
      if input[idx] == '\'' && At(input, idx + 1, '\'') {
        assert rest[2..] == input[idx + 2..];
        AppendPrepend(out, '\'', Unquote(input[idx + 2..]));
        out, idx := out + "'", idx + 2;
      } else if input[idx] == '\'' {
        assert rest[1..] == input[idx + 1..];
        if AllSpace(input[idx + 1..]) {
          assert out + "" == out;
          return Some(out);
        }
        return None;
      } else {
        assert rest[1..] == input[idx + 1..];
        AppendPrepend(out, input[idx], Unquote(input[idx + 1..]));
        out, idx := out + [input[idx]], idx + 1;
      }
    }
    assert input[idx..] == "";
    return None;
  }

  ghost function Append(out: string, r: Option<string>): Option<string> {
    if r.None? then None else Some(out + r.value)
  }

  lemma AppendPrepend(out: string, c: char, r: Option<string>)
    ensures Append(out, Prepend(c, r)) == Append(out + [c], r)
  {
    if r.Some? {
      assert out + ([c] + r.value) == out + [c] + r.value;
    }
  }

  lemma {:induction false} UnquoteEscaped(v: string, blanks: string)
    requires AllSpace(blanks)
    ensures Unquote(Escape(v) + "'" + blanks) == Some(v)
  {
    var s := Escape(v) + "'" + blanks;
    if v == "" {
      assert s[1..] == blanks;
    } else {
      var n := if v[0] == '\'' then 2 else 1;
      UnquoteEscaped(v[1..], blanks);
      assert s[n..] == Escape(v[1..]) + "'" + blanks;
      assert v == [v[0]] + v[1..];
    }
  }

  lemma EscapeCons(c: char, v: string)
    ensures Escape([c] + v) == (if c == '\'' then "''" else [c]) + Escape(v)
  {
    assert ([c] + v)[1..] == v;
  }

  /** A prefix of the rest, with what stands before it, is a prefix of the whole. */
  lemma PrefixBehind(s: string, n: nat, e: string)
    requires n <= |s| && e <= s[n..]
    ensures s[..n] + e <= s && s[|s[..n] + e|..] == s[n..][|e|..]
  {
    assert s == s[..n] + s[n..];
  }

  /** One more character in front of a value, as escaped text. */
  lemma EscapedHead(s: string, n: nat, v: string)
    requires s != "" && n == (if s[0] == '\'' then 2 else 1) && n <= |s| && (n == 2 ==> s[1] == '\'')
    requires var e := Escape(v) + "'"; e <= s[n..] && AllSpace(s[n..][|e|..])
    ensures var e := Escape([s[0]] + v) + "'"; e <= s && AllSpace(s[|e|..])
  {
    var e1 := Escape(v) + "'";
    EscapeCons(s[0], v);
    assert s[..n] == if s[0] == '\'' then "''" else [s[0]];
    assert Escape([s[0]] + v) + "'" == s[..n] + e1;
    PrefixBehind(s, n, e1);
  }

  lemma {:induction false} UnquoteReads(s: string)
    requires Unquote(s).Some?
    ensures var e := Escape(Unquote(s).value) + "'"; e <= s && AllSpace(s[|e|..])
    decreases |s|
  {
    if s[0] == '\'' && !At(s, 1, '\'') {
      assert Escape("") + "'" == "'" && s[..1] == "'";
    } else {
      var n := if s[0] == '\'' then 2 else 1;
      UnquoteReads(s[n..]);
      EscapedHead(s, n, Unquote(s[n..]).value);
    }
  }

  /** Parsing returns `v` exactly on the literal printed for `v`, trailing blanks allowed. */
  lemma ParsingInvertsLiteral(input: string, v: string)
    ensures (StartsIn(input, "'") && Unquote(input[1..]) == Some(v)) <==>
            var l := SqlStringLiteral(v); l <= input && AllSpace(input[|l|..])
  {
    var l := SqlStringLiteral(v);
    if StartsIn(input, "'") && Unquote(input[1..]) == Some(v) {
      UnquoteReads(input[1..]);
      assert input == "'" + input[1..];
      assert input[1..][|l| - 1..] == input[|l|..];
    }
    if l <= input && AllSpace(input[|l|..]) {
      UnquoteEscaped(v, input[|l|..]);
      assert input[1..] == Escape(v) + "'" + input[|l|..];
    }
  }
}
