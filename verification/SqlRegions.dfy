/** SQL text as its regions, written down independently of the scanner, and what binding does to each. */
module SqlRegions {
  import opened Text
  import opened SqlParams

  /// Regions

  datatype Kind = Quotes | DoubleQuotes | LineNote | BlockNote

  /** A character outside quotes and comments, a placeholder, or a quoted text, quoted name or comment. The last
      region of a text may lack its end. */
  datatype Region = Other(c: char) | Placeholder(digits: Digits) | Enclosed(kind: Kind, text: string, closed: bool)

  function Start(k: Kind): string {
    match k
    case Quotes => "'"
    case DoubleQuotes => "\""
    case LineNote => "--"
    case BlockNote => "/*"
  }

  function End(k: Kind): string {
    match k
    case Quotes => "'"
    case DoubleQuotes => "\""
    case LineNote => "\n"
    case BlockNote => "*/"
  }

  /** Inside quotes a quote is written twice. */
  function Written(k: Kind, c: char): string {
    if (k.Quotes? && c == '\'') || (k.DoubleQuotes? && c == '"') then [c, c] else [c]
  }

  function WrittenAll(k: Kind, text: string): string {
    if text == "" then "" else Written(k, text[0]) + WrittenAll(k, text[1..])
  }

  function Show(r: Region): string {
    match r
    case Other(c) => [c]
    case Placeholder(digits) => "$" + digits
    case Enclosed(k, text, closed) => Start(k) + (WrittenAll(k, text) + if closed then End(k) else "")
  }

  function ShowAll(rs: seq<Region>): string {
    if rs == [] then "" else Show(rs[0]) + ShowAll(rs[1..])
  }

  /** A comment does not end inside its text: no newline in the one kind, no end mark in the other. */
  predicate NoEnd(k: Kind, text: string) {
    match k
    case LineNote => forall i :: 0 <= i < |text| ==> text[i] != '\n'
    case BlockNote => forall i :: 0 <= i < |text| - 1 ==> !(text[i] == '*' && text[i + 1] == '/')
    case _ => true
  }

  /** The region is what it looks like when `rest` follows it. */
  predicate Proper(r: Region, rest: string) {
    match r
    case Other(c) =>
      && c != '\'' && c != '"'
      && !(c == '-' && At(rest, 0, '-'))
      && !(c == '/' && At(rest, 0, '*'))
      && !(c == '$' && rest != "" && IsDigit(rest[0]))
    case Placeholder(digits) => digits != "" && (rest == "" || !IsDigit(rest[0]))
    case Enclosed(k, text, closed) =>
      && NoEnd(k, text)
      && (if !closed then rest == "" else (k.Quotes? ==> !At(rest, 0, '\'')) && (k.DoubleQuotes? ==> !At(rest, 0, '"')))
  }

  predicate AllProper(rs: seq<Region>) { rs != [] ==> Proper(rs[0], ShowAll(rs[1..])) && AllProper(rs[1..]) }

  /// The scanner's steps through the regions

  function Inside(k: Kind): Mode {
    match k
    case Quotes => SingleQuote
    case DoubleQuotes => DoubleQuote
    case LineNote => LineComment
    case BlockNote => BlockComment
  }

  function BodySteps(k: Kind, text: string): seq<Token> {
    if text == "" then [] else [Lexeme(Inside(k), Written(k, text[0]), Inside(k))] + BodySteps(k, text[1..])
  }

  function EndSteps(k: Kind, closed: bool): seq<Token> {
    if closed then [Lexeme(Inside(k), End(k), Normal)] else []
  }

  function Steps(r: Region): seq<Token> {
    match r
    case Other(c) => [Lexeme(Normal, [c], Normal)]
    case Placeholder(digits) => [Hole(digits)]
    case Enclosed(k, text, closed) => [Lexeme(Normal, Start(k), Inside(k))] + (BodySteps(k, text) + EndSteps(k, closed))
  }

  function AllSteps(rs: seq<Region>): seq<Token> {
    if rs == [] then [] else Steps(rs[0]) + AllSteps(rs[1..])
  }

  lemma StepFits(mode: Mode, t: Token, rest: string)
    requires t.Lexeme? && t.text != "" && Step(mode, t.text + rest) == Lexeme(mode, (t.text + rest)[..|t.text|], t.after) && t.mode == mode
    ensures Fits(mode, t, rest)
  {
    assert (t.text + rest)[..|t.text|] == t.text;
  }

  lemma StartFits(k: Kind, rest: string)
    ensures Fits(Normal, Lexeme(Normal, Start(k), Inside(k)), rest)
  {
    StepFits(Normal, Lexeme(Normal, Start(k), Inside(k)), rest);
  }

  lemma EndFits(k: Kind, rest: string)
    requires (k.Quotes? ==> !At(rest, 0, '\'')) && (k.DoubleQuotes? ==> !At(rest, 0, '"'))
    ensures Fits(Inside(k), Lexeme(Inside(k), End(k), Normal), rest)
  {
    assert !k.BlockNote? ==> (At(End(k) + rest, 1, '\'') <==> At(rest, 0, '\'')) && (At(End(k) + rest, 1, '"') <==> At(rest, 0, '"'));
    StepFits(Inside(k), Lexeme(Inside(k), End(k), Normal), rest);
  }

  /** A character of a region's text that does not end it. */
  lemma BodyFits(k: Kind, c: char, rest: string)
    requires (k.LineNote? ==> c != '\n') && (k.BlockNote? ==> !(c == '*' && At(rest, 0, '/')))
    ensures Fits(Inside(k), Lexeme(Inside(k), Written(k, c), Inside(k)), rest)
  {
    assert |Written(k, c)| == 1 ==> (At(Written(k, c) + rest, 1, '/') <==> At(rest, 0, '/'));
    StepFits(Inside(k), Lexeme(Inside(k), Written(k, c), Inside(k)), rest);
  }

  /** One step taken through the text of a region. */
  lemma BodyStep(mode: Mode, t: Token, s: string, more: seq<Token>, last: seq<Token>)
    requires Fits(mode, t, s) && After(t) == mode && Lex(mode, s) == more + last
    ensures Lex(mode, Source(t) + s) == [t] + more + last
  {
    LexStep(mode, t, s);
    assert [t] + (more + last) == [t] + more + last;
  }

  lemma Regroup(a: string, b: string, c: string)
    ensures a + b + c == a + (b + c)
  {}

  lemma NoEndTail(k: Kind, text: string)
    requires text != "" && NoEnd(k, text)
    ensures NoEnd(k, text[1..])
    ensures k.BlockNote? && text[0] == '*' ==> !At(text[1..], 0, '/')
  {
    var tail := text[1..];
    assert forall i :: 0 <= i < |tail| ==> tail[i] == text[i + 1];
  }

  lemma {:induction false} BodyLexes(k: Kind, text: string, rest: string)
    requires NoEnd(k, text) && (k.BlockNote? ==> !At(rest, 0, '/'))
    ensures Lex(Inside(k), WrittenAll(k, text) + rest) == BodySteps(k, text) + Lex(Inside(k), rest)
    decreases |text|
  {
    if text == "" {
      assert WrittenAll(k, text) + rest == rest;
    } else {
      var t, tail := Lexeme(Inside(k), Written(k, text[0]), Inside(k)), WrittenAll(k, text[1..]);
      NoEndTail(k, text);
      BodyLexes(k, text[1..], rest);
      TailStarts(k, text[1..], rest);
      BodyFits(k, text[0], tail + rest);
      BodyStep(Inside(k), t, tail + rest, BodySteps(k, text[1..]), Lex(Inside(k), rest));
      Regroup(Source(t), tail, rest);
    }
  }

  lemma TailStarts(k: Kind, text: string, rest: string)
    requires k.BlockNote? ==> !At(rest, 0, '/')
    ensures k.BlockNote? && !At(text, 0, '/') ==> !At(WrittenAll(k, text) + rest, 0, '/')
  {}

  /** What follows the text of a region: its end and the rest, or nothing. */
  lemma EndLexes(k: Kind, closed: bool, rest: string)
    requires Proper(Enclosed(k, "", closed), rest)
    ensures Lex(Inside(k), (if closed then End(k) else "") + rest) == EndSteps(k, closed) + Lex(Normal, rest)
  {
    if closed {
      EndFits(k, rest);
      LexStep(Inside(k), Lexeme(Inside(k), End(k), Normal), rest);
    }
  }

  lemma TokensRegroup(t: Token, a: seq<Token>, b: seq<Token>, c: seq<Token>)
    ensures [t] + (a + b) + c == [t] + (a + (b + c))
  {}

  lemma EnclosedLexes(k: Kind, text: string, closed: bool, rest: string)
    requires Proper(Enclosed(k, text, closed), rest)
    ensures Lex(Normal, Show(Enclosed(k, text, closed)) + rest) == Steps(Enclosed(k, text, closed)) + Lex(Normal, rest)
  {
    var body, end := WrittenAll(k, text), if closed then End(k) else "";
    var inner := body + (end + rest);
    EndLexes(k, closed, rest);
    BodyLexes(k, text, end + rest);
    StartFits(k, inner);
    LexStep(Normal, Lexeme(Normal, Start(k), Inside(k)), inner);
    Regroup(body, end, rest);
    Regroup(Start(k), body + end, rest);
    TokensRegroup(Lexeme(Normal, Start(k), Inside(k)), BodySteps(k, text), EndSteps(k, closed), Lex(Normal, rest));
  }

  lemma RegionLexes(r: Region, rest: string)
    requires Proper(r, rest)
    ensures Lex(Normal, Show(r) + rest) == Steps(r) + Lex(Normal, rest)
  {
    match r
    case Other(c) =>
      StepFits(Normal, Lexeme(Normal, [c], Normal), rest);
      LexStep(Normal, Lexeme(Normal, [c], Normal), rest);
    case Placeholder(digits) =>
      HoleFits(Normal, digits, rest);
      LexStep(Normal, Hole(digits), rest);
    case Enclosed(k, text, closed) =>
      EnclosedLexes(k, text, closed, rest);
  }

  lemma {:induction false} RegionsLex(rs: seq<Region>)
    requires AllProper(rs)
    ensures Lex(Normal, ShowAll(rs)) == AllSteps(rs)
  {
    if rs != [] {
      RegionLexes(rs[0], ShowAll(rs[1..]));
      RegionsLex(rs[1..]);
    }
  }

  /// Every text has regions

  ghost predicate Reads(k: Kind, s: string, text: string, closed: bool, rest: string) {
    s == WrittenAll(k, text) + (if closed then End(k) else "") + rest && Proper(Enclosed(k, text, closed), rest)
  }

  lemma {:induction false} ReadBody(k: Kind, s: string) returns (text: string, closed: bool, rest: string)
    ensures Reads(k, s, text, closed, rest)
    decreases |s|
  {
    if s == "" {
      return "", false, "";
    } else if End(k) <= s && (k.Quotes? || k.DoubleQuotes? ==> !At(s, 1, s[0])) {
      text, closed, rest := "", true, s[|End(k)|..];
      assert s == End(k) + rest;
    } else {
      var n := |Written(k, s[0])|;
      text, closed, rest := ReadBody(k, s[n..]);
      assert s == Written(k, s[0]) + s[n..];
      ReadCons(k, s[0], s[n..], text, closed, rest);
      text := [s[0]] + text;
    }
  }

  lemma ReadCons(k: Kind, c: char, s: string, text: string, closed: bool, rest: string)
    requires Reads(k, s, text, closed, rest)
    requires (k.LineNote? ==> c != '\n') && (k.BlockNote? ==> !(c == '*' && At(s, 0, '/')))
    ensures Reads(k, Written(k, c) + s, [c] + text, closed, rest)
  {
    assert ([c] + text)[1..] == text;
    var end := if closed then End(k) else "";
    assert WrittenAll(k, [c] + text) + end + rest == Written(k, c) + (WrittenAll(k, text) + end + rest);
    if k.BlockNote? && text != "" {
      assert s[0] == text[0];
    }
  }

  lemma EnclosedFirst(k: Kind, s: string) returns (r: Region, rest: string)
    requires Start(k) <= s
    ensures s == Show(r) + rest && Proper(r, rest) && |rest| < |s|
  {
    var text, closed;
    text, closed, rest := ReadBody(k, s[|Start(k)|..]);
    r := Enclosed(k, text, closed);
    assert s == Start(k) + s[|Start(k)|..];
  }

  lemma PlaceholderFirst(s: string) returns (r: Region, rest: string)
    requires |s| > 1 && s[0] == '$' && IsDigit(s[1])
    ensures s == Show(r) + rest && Proper(r, rest) && |rest| < |s|
  {
    var digits := DigitRun(s[1..]);
    r, rest := Placeholder(digits), s[1 + |digits|..];
  }

  lemma FirstRegion(s: string) returns (r: Region, rest: string)
    requires s != ""
    ensures s == Show(r) + rest && Proper(r, rest) && |rest| < |s|
  {
    if s[0] == '$' && |s| > 1 && IsDigit(s[1]) {
      r, rest := PlaceholderFirst(s);
    } else if Start(Quotes) <= s {
      r, rest := EnclosedFirst(Quotes, s);
    } else if Start(DoubleQuotes) <= s {
      r, rest := EnclosedFirst(DoubleQuotes, s);
    } else if Start(LineNote) <= s {
      r, rest := EnclosedFirst(LineNote, s);
    } else if Start(BlockNote) <= s {
      r, rest := EnclosedFirst(BlockNote, s);
    } else {
      r, rest := Other(s[0]), s[1..];
    }
  }

  /** Every text is made of regions, so what is proved of regions holds of every text. */
  lemma {:induction false} EveryTextHasRegions(s: string) returns (rs: seq<Region>)
    ensures AllProper(rs) && ShowAll(rs) == s
    decreases |s|
  {
    if s == "" {
      rs := [];
    } else {
      var r, rest := FirstRegion(s);
      var more := EveryTextHasRegions(rest);
      rs := [r] + more;
      assert rs[1..] == more;
    }
  }

  /// Binding, region by region

  /** A parameter is there for it, and has a literal. */
  predicate Fills(r: Region, params: seq<SqlParam>) {
    r.Placeholder? ==>
      var n := DecValue(r.digits);
      1 <= n <= |params| && n < USIZE_LIMIT && Literal(params[n - 1]).Ok?
  }

  predicate AllFill(rs: seq<Region>, params: seq<SqlParam>) { forall i :: 0 <= i < |rs| ==> Fills(rs[i], params) }

  /** A placeholder gives way to its parameter's literal; everything else is copied. */
  function Bound(r: Region, params: seq<SqlParam>): string
    requires Fills(r, params)
  {
    if r.Placeholder? then Literal(params[DecValue(r.digits) - 1]).value else Show(r)
  }

  function BoundAll(rs: seq<Region>, params: seq<SqlParam>): string
    requires AllFill(rs, params)
  {
    if rs == [] then "" else Bound(rs[0], params) + BoundAll(rs[1..], params)
  }

  ghost predicate Uses(rs: seq<Region>, n: nat) { exists i :: 0 <= i < |rs| && rs[i].Placeholder? && DecValue(rs[i].digits) == n }

  ghost predicate Below(rs: seq<Region>, n: nat) { forall i :: 0 <= i < |rs| && rs[i].Placeholder? ==> DecValue(rs[i].digits) <= n }

  /** The highest number a placeholder uses, 0 if there is none. */
  ghost predicate IsHighest(rs: seq<Region>, n: nat) { Below(rs, n) && (n == 0 || Uses(rs, n)) }

  /** Why a placeholder cannot be filled. */
  predicate Complains(r: Region, params: seq<SqlParam>, e: ScanError) {
    && r.Placeholder?
    && var n := DecValue(r.digits);
       match e
       case InvalidParameter(digits) => n >= USIZE_LIMIT && digits == r.digits
       case ZeroParameter => n == 0
       case MissingParameter(number) => |params| < n < USIZE_LIMIT && number == n
       case TooManyParameters(_, _) => false
       case _ => 1 <= n <= |params| && n < USIZE_LIMIT && Literal(params[n - 1]) == Err(e)
  }

  /** The first placeholder that cannot be filled is to blame. */
  ghost predicate Blames(rs: seq<Region>, params: seq<SqlParam>, e: ScanError) {
    exists i :: 0 <= i < |rs| && Complains(rs[i], params, e) && AllFill(rs[..i], params)
  }

  /** Binding is refused for a placeholder, or for a parameter no placeholder uses. */
  ghost predicate Refuses(rs: seq<Region>, params: seq<SqlParam>, e: ScanError) {
    || Blames(rs, params, e)
    || (AllFill(rs, params) && e.TooManyParameters? && e.got == |params| > e.used && IsHighest(rs, e.used))
  }

  lemma {:induction false} FoldCopies(a: seq<Token>, b: seq<Token>, params: seq<SqlParam>, out: string, max: nat)
    requires forall t <- a :: t.Lexeme?
    ensures FoldTokens(a + b, Some(params), out, max) == FoldTokens(b, Some(params), out + Render(a), max)
    decreases |a|
  {
    if a == [] {
      assert a + b == b && out + "" == out;
    } else {
      FoldCons(a[0], a[1..] + b, Some(params), out, max);
      assert a + b == [a[0]] + (a[1..] + b);
      FoldCopies(a[1..], b, params, out + a[0].text, max);
      Regroup(out, a[0].text, Render(a[1..]));
    }
  }

  lemma {:induction false} BodyRenders(k: Kind, text: string)
    ensures Render(BodySteps(k, text)) == WrittenAll(k, text) && forall t <- BodySteps(k, text) :: t.Lexeme?
  {
    if text != "" {
      BodyRenders(k, text[1..]);
      assert BodySteps(k, text)[1..] == BodySteps(k, text[1..]);
    }
  }

  lemma StepsRender(r: Region)
    ensures Render(Steps(r)) == Show(r) && (!r.Placeholder? ==> forall t <- Steps(r) :: t.Lexeme?)
  {
    match r
    case Other(_) =>
    case Placeholder(_) =>
    case Enclosed(k, text, closed) =>
      BodyRenders(k, text);
      RenderAppend(BodySteps(k, text), EndSteps(k, closed));
      assert Steps(r)[1..] == BodySteps(k, text) + EndSteps(k, closed);
  }

  function Top(rs: seq<Region>): nat {
    if rs == [] then 0 else Max(if rs[0].Placeholder? then DecValue(rs[0].digits) else 0, Top(rs[1..]))
  }

  lemma {:induction false} TopIsHighest(rs: seq<Region>)
    ensures IsHighest(rs, Top(rs))
  {
    if rs != [] {
      var rest := rs[1..];
      TopIsHighest(rest);
      assert rs == [rs[0]] + rest;
      if Uses(rest, Top(rest)) {
        var i :| 0 <= i < |rest| && rest[i].Placeholder? && DecValue(rest[i].digits) == Top(rest);
        assert rs[i + 1] == rest[i];
        assert Uses(rs, Top(rest));
      }
    }
  }

  /** One region in front of others. */
  lemma FoldRegion(r: Region, rest: seq<Token>, params: seq<SqlParam>, out: string, max: nat)
    ensures Fills(r, params) ==>
              FoldTokens(Steps(r) + rest, Some(params), out, max) ==
              FoldTokens(rest, Some(params), out + Bound(r, params), if r.Placeholder? then Max(max, DecValue(r.digits)) else max)
    ensures forall e :: Complains(r, params, e) ==> FoldTokens(Steps(r) + rest, Some(params), out, max) == Err(e)
  {
    StepsRender(r);
    if r.Placeholder? {
      FoldCons(Hole(r.digits), rest, Some(params), out, max);
    } else {
      FoldCopies(Steps(r), rest, params, out, max);
    }
  }

  lemma {:induction false} FoldFills(rs: seq<Region>, params: seq<SqlParam>, out: string, max: nat)
    requires AllFill(rs, params)
    ensures FoldTokens(AllSteps(rs), Some(params), out, max) == Ok((out + BoundAll(rs, params), Max(max, Top(rs))))
    decreases |rs|
  {
    if rs == [] {
      assert out + "" == out;
    } else {
      var n := if rs[0].Placeholder? then Max(max, DecValue(rs[0].digits)) else max;
      FoldRegion(rs[0], AllSteps(rs[1..]), params, out, max);
      FoldFills(rs[1..], params, out + Bound(rs[0], params), n);
      Regroup(out, Bound(rs[0], params), BoundAll(rs[1..], params));
    }
  }

  lemma {:induction false} FoldComplains(rs: seq<Region>, params: seq<SqlParam>, out: string, max: nat, i: nat, e: ScanError)
    requires i < |rs| && Complains(rs[i], params, e) && AllFill(rs[..i], params)
    ensures FoldTokens(AllSteps(rs), Some(params), out, max) == Err(e)
    decreases i
  {
    FoldRegion(rs[0], AllSteps(rs[1..]), params, out, max);
    if i > 0 {
      assert rs[..i][0] == rs[0];
      assert rs[1..][..i - 1] == rs[..i][1..];
      FoldComplains(rs[1..], params, out + Bound(rs[0], params), if rs[0].Placeholder? then Max(max, DecValue(rs[0].digits)) else max, i - 1, e);
    }
  }

  lemma SomeComplaint(r: Region, params: seq<SqlParam>) returns (e: ScanError)
    requires !Fills(r, params)
    ensures Complains(r, params, e)
  {
    var n := DecValue(r.digits);
    e := if n >= USIZE_LIMIT then InvalidParameter(r.digits) else if n == 0 then ZeroParameter
         else if n > |params| then MissingParameter(n) else Literal(params[n - 1]).error;
  }

  lemma {:induction false} FirstComplaint(rs: seq<Region>, params: seq<SqlParam>) returns (i: nat, e: ScanError)
    requires !AllFill(rs, params)
    ensures i < |rs| && Complains(rs[i], params, e) && AllFill(rs[..i], params)
  {
    if AllFill(rs[..|rs| - 1], params) {
      i := |rs| - 1;
      e := SomeComplaint(rs[i], params);
    } else {
      i, e := FirstComplaint(rs[..|rs| - 1], params);
      assert rs[..|rs| - 1][..i] == rs[..i];
    }
  }

  /** Binding a text of these regions: each placeholder gives way to its parameter's literal and everything else is
      copied, unless the first placeholder that cannot be filled or a parameter left over is reported. */
  lemma BindsRegionByRegion(rs: seq<Region>, params: seq<SqlParam>)
    requires AllProper(rs)
    ensures var r := ScanSpec(ShowAll(rs), Some(params));
            && (r.Ok? <==> AllFill(rs, params) && (params == [] || Uses(rs, |params|)))
            && (r.Ok? ==> r.value.0 == BoundAll(rs, params))
            && (r.Err? ==> Refuses(rs, params, r.error))
  {
    RegionsLex(rs);
    TopIsHighest(rs);
    if AllFill(rs, params) {
      FoldFills(rs, params, "", 0);
      assert "" + BoundAll(rs, params) == BoundAll(rs, params);
    } else {
      var i, e := FirstComplaint(rs, params);
      FoldComplains(rs, params, "", 0, i, e);
    }
  }
}
