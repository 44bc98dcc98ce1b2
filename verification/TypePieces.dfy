/** Type texts as pieces, described without the splitter, and what the splitter makes of them. */
module TypePieces {
  import opened Text
  import opened TypeGrammar

  /// Pieces

  /** A character, a quotation with its quotes doubled inside, or a group in brackets of either kind. */
  datatype Piece = Char(c: char) | Quotation(mark: char, text: string) | Group(open: char, inner: seq<Piece>, close: char)

  function Doubled(mark: char, text: string): string {
    if text == "" then "" else Written(mark, text[0]) + Doubled(mark, text[1..])
  }

  function Show(p: Piece): string
    decreases p
  {
    match p
    case Char(c) => [c]
    case Quotation(mark, text) => [mark] + (Doubled(mark, text) + [mark])
    case Group(open, inner, close) => [open] + (ShowAll(inner) + [close])
  }

  function ShowAll(ps: seq<Piece>): string
    decreases ps
  {
    if ps == [] then "" else Show(ps[0]) + ShowAll(ps[1..])
  }

  /** The pieces are what they look like when `rest` follows; a comma belongs to them only inside a group. */
  predicate Proper(ps: seq<Piece>, rest: string, grouped: bool)
    decreases ps
  {
    ps != [] ==>
      && (match ps[0]
          case Char(c) => c !in "'\"`()<>" && (c == ',' ==> grouped)
          case Quotation(mark, _) =>
            mark in "'\"`" && (ShowAll(ps[1..]) + rest == "" || (ShowAll(ps[1..]) + rest)[0] != mark)
          case Group(open, inner, close) => open in "(<" && close in ")>" && Proper(inner, [close], true))
      && Proper(ps[1..], rest, grouped)
  }

  /// Reading pieces

  lemma Regroup(a: string, b: string, c: string)
    ensures a + b + c == a + (b + c)
  {}

  lemma Front(c: char, s: string)
    ensures ([c] + s)[0] == c && ([c] + s)[1..] == s
  {}

  function Written(mark: char, c: char): string { if c == mark then [mark, mark] else [c] }

  lemma QuotedCharIsRead(mark: char, c: char, tail: string, cur: string, d: nat)
    ensures SplitRest(Written(mark, c) + tail, cur, d, Some(mark)) == SplitRest(tail, cur + Written(mark, c), d, Some(mark))
  {
    var s := Written(mark, c) + tail;
    assert s[|Written(mark, c)|..] == tail;
  }

  lemma {:induction false} QuotedIsRead(mark: char, text: string, rest: string, cur: string, d: nat)
    requires rest == "" || rest[0] != mark
    ensures SplitRest(Doubled(mark, text) + ([mark] + rest), cur, d, Some(mark)) ==
            SplitRest(rest, cur + Doubled(mark, text) + [mark], d, None)
    decreases |text|
  {
    if text == "" {
      Front(mark, rest);
      assert Doubled(mark, text) + ([mark] + rest) == [mark] + rest;
      assert cur + Doubled(mark, text) + [mark] == cur + [mark];
    } else {
      var w, more := Written(mark, text[0]), Doubled(mark, text[1..]);
      Regroup(w, more, [mark] + rest);
      QuotedCharIsRead(mark, text[0], more + ([mark] + rest), cur, d);
      QuotedIsRead(mark, text[1..], rest, cur + w, d);
      Regroup(cur, w, more);
    }
  }

  /** Pieces are read as a whole, at any depth. */
  lemma {:induction false} PiecesAreRead(ps: seq<Piece>, rest: string, cur: string, d: nat)
    requires Proper(ps, rest, d > 0)
    ensures SplitRest(ShowAll(ps) + rest, cur, d, None) == SplitRest(rest, cur + ShowAll(ps), d, None)
    decreases ps, 0
  {
    if ps == [] {
      assert ShowAll(ps) + rest == rest && cur + ShowAll(ps) == cur;
    } else {
      var p, more := ps[0], ShowAll(ps[1..]);
      Regroup(Show(p), more, rest);
      Regroup(cur, Show(p), more);
      PieceIsRead(p, more + rest, cur, d);
      PiecesAreRead(ps[1..], rest, cur + Show(p), d);
    }
  }

  lemma {:induction false} PieceIsRead(p: Piece, rest: string, cur: string, d: nat)
    requires match p
             case Char(c) => c !in "'\"`()<>" && (c == ',' ==> d > 0)
             case Quotation(mark, _) => mark in "'\"`" && (rest == "" || rest[0] != mark)
             case Group(open, inner, close) => open in "(<" && close in ")>" && Proper(inner, [close], true)
    ensures SplitRest(Show(p) + rest, cur, d, None) == SplitRest(rest, cur + Show(p), d, None)
    decreases p
  {
    match p
    case Char(c) =>
      Front(c, rest);
    case Quotation(mark, text) =>
      var body := Doubled(mark, text);
      Regroup(body, [mark], rest);
      Regroup([mark], body + [mark], rest);
      Front(mark, body + ([mark] + rest));
      QuotedIsRead(mark, text, rest, cur + [mark], d);
      assert cur + [mark] + body + [mark] == cur + Show(p);
    case Group(open, inner, close) =>
      GroupIsRead(open, inner, close, rest, cur, d);
  }

  lemma {:induction false} GroupIsRead(open: char, inner: seq<Piece>, close: char, rest: string, cur: string, d: nat)
    requires open in "(<" && close in ")>" && Proper(inner, [close], true)
    ensures SplitRest(Show(Group(open, inner, close)) + rest, cur, d, None) == SplitRest(rest, cur + Show(Group(open, inner, close)), d, None)
    decreases inner, 1
  {
    var body := ShowAll(inner);
    Regroup(body, [close], rest);
    Regroup([open], body + [close], rest);
    Front(open, body + ([close] + rest));
    ProperLooksOneAhead(inner, [close], [close] + rest, true);
    PiecesAreRead(inner, [close] + rest, cur + [open], d + 1);
    Front(close, rest);
    assert cur + [open] + body + [close] == cur + Show(Group(open, inner, close));
  }

  /** Only the first character of what follows matters. */
  lemma {:induction false} ProperLooksOneAhead(ps: seq<Piece>, r: string, s: string, grouped: bool)
    requires r != "" && s != "" && r[0] == s[0] && Proper(ps, r, grouped)
    ensures Proper(ps, s, grouped)
    decreases |ps|
  {
    if ps != [] {
      ProperLooksOneAhead(ps[1..], r, s, grouped);
      var more := ShowAll(ps[1..]);
      assert (more + r)[0] == (more + s)[0] && more + r != "" && more + s != "";
    }
  }

  /// Where a text stops being pieces

  /** A quotation or a group that is never closed, with what was read inside. */
  datatype Fault = OpenQuotation(mark: char, text: string) | OpenGroup(open: char, inner: seq<Piece>, more: Option<Fault>)

  function ShowFault(f: Fault): string
    decreases f
  {
    match f
    case OpenQuotation(mark, text) => [mark] + Doubled(mark, text)
    case OpenGroup(open, inner, more) => [open] + (ShowAll(inner) + if more.Some? then ShowFault(more.value) else "")
  }

  predicate ProperFault(f: Fault)
    decreases f
  {
    match f
    case OpenQuotation(mark, _) => mark in "'\"`"
    case OpenGroup(open, inner, more) =>
      && open in "(<" && Proper(inner, if more.Some? then ShowFault(more.value) else "", true)
      && (more.Some? ==> ProperFault(more.value))
  }

  lemma {:induction false} OpenQuotationIsRefused(mark: char, text: string, cur: string, d: nat)
    ensures SplitRest(Doubled(mark, text), cur, d, Some(mark)).None?
    decreases |text|
  {
    if text != "" {
      QuotedCharIsRead(mark, text[0], Doubled(mark, text[1..]), cur, d);
      OpenQuotationIsRefused(mark, text[1..], cur + Written(mark, text[0]), d);
    }
  }

  lemma {:induction false} FaultIsRefused(f: Fault, cur: string, d: nat)
    requires ProperFault(f)
    ensures SplitRest(ShowFault(f), cur, d, None).None?
    decreases f
  {
    match f
    case OpenQuotation(mark, text) =>
      Front(mark, Doubled(mark, text));
      OpenQuotationIsRefused(mark, text, cur + [mark], d);
    case OpenGroup(open, inner, more) =>
      var tail := if more.Some? then ShowFault(more.value) else "";
      Front(open, ShowAll(inner) + tail);
      PiecesAreRead(inner, tail, cur + [open], d + 1);
      if more.Some? {
        FaultIsRefused(more.value, cur + [open] + ShowAll(inner), d + 1);
      }
  }

  /// Parts between commas

  /** The texts the splitter cuts out: trimmed, without an empty last one. */
  function Parts(parts: seq<string>): seq<string> {
    if parts == [] then [] else if |parts| == 1 then (if Trim(parts[0]) == "" then [] else [Trim(parts[0])]) else [Trim(parts[0])] + Parts(parts[1..])
  }

  /** A text: parts, each made of pieces, with commas between them, and how it ends. */
  datatype End = Ends | Stray(close: char, rest: string) | Broken(fault: Fault)

  function ShowEnd(e: End): string {
    match e
    case Ends => ""
    case Stray(close, rest) => [close] + rest
    case Broken(f) => ShowFault(f)
  }

  function Whole(parts: seq<seq<Piece>>, e: End): string
    requires parts != []
  {
    if |parts| == 1 then ShowAll(parts[0]) + ShowEnd(e) else ShowAll(parts[0]) + ("," + Whole(parts[1..], e))
  }

  predicate ProperText(parts: seq<seq<Piece>>, e: End)
    requires parts != []
  {
    if |parts| == 1 then Proper(parts[0], ShowEnd(e), false) && (e.Stray? ==> e.close in ")>") && (e.Broken? ==> ProperFault(e.fault))
    else Proper(parts[0], "," + Whole(parts[1..], e), false) && ProperText(parts[1..], e)
  }

  function Shown(parts: seq<seq<Piece>>): seq<string> { if parts == [] then [] else [ShowAll(parts[0])] + Shown(parts[1..]) }

  /** The last part, and how the text ends. */
  lemma LastPart(ps: seq<Piece>, e: End)
    requires ProperText([ps], e)
    ensures SplitRest(ShowAll(ps) + ShowEnd(e), "", 0, None) == if e.Ends? then Some(Parts([ShowAll(ps)])) else None
  {
    var last := ShowAll(ps);
    PiecesAreRead(ps, ShowEnd(e), "", 0);
    assert "" + last == last;
    if e.Stray? {
      Front(e.close, e.rest);
    } else if e.Broken? {
      FaultIsRefused(e.fault, last, 0);
    }
  }

  lemma FirstPart(ps: seq<Piece>, rest: string)
    requires Proper(ps, "," + rest, false)
    ensures SplitRest(ShowAll(ps) + ("," + rest), "", 0, None) == Cons(Trim(ShowAll(ps)), SplitRest(rest, "", 0, None))
  {
    PiecesAreRead(ps, "," + rest, "", 0);
    assert "" + ShowAll(ps) == ShowAll(ps);
    Front(',', rest);
  }

  /** The splitter gives the trimmed parts, cut at the commas outside groups and quotations; a bracket that closes
      nothing and a group or quotation that is not closed are refused. */
  lemma {:induction false} SplitsAtCommas(parts: seq<seq<Piece>>, e: End)
    requires parts != [] && ProperText(parts, e)
    ensures SplitRest(Whole(parts, e), "", 0, None) == if e.Ends? then Some(Parts(Shown(parts))) else None
    decreases |parts|
  {
    if |parts| == 1 {
      LastPart(parts[0], e);
      assert parts == [parts[0]] && Shown(parts) == [ShowAll(parts[0])];
    } else {
      FirstPart(parts[0], Whole(parts[1..], e));
      SplitsAtCommas(parts[1..], e);
      assert Shown(parts)[1..] == Shown(parts[1..]);
    }
  }

  /// Every text has such parts

  lemma {:induction false} ReadQuotation(mark: char, s: string) returns (text: string, closed: bool, rest: string)
    ensures s == Doubled(mark, text) + if closed then [mark] + rest else ""
    ensures closed ==> |rest| < |s| && (rest == "" || rest[0] != mark)
    decreases |s|
  {
    if s == "" {
      return "", false, "";
    } else if s[0] == mark && (|s| == 1 || s[1] != mark) {
      text, closed, rest := "", true, s[1..];
      assert s == [mark] + rest;
    } else {
      var w := Written(mark, s[0]);
      text, closed, rest := ReadQuotation(mark, s[|w|..]);
      Regroup(w, Doubled(mark, text), if closed then [mark] + rest else "");
      assert s == w + s[|w|..];
      assert ([s[0]] + text)[1..] == text;
      text := [s[0]] + text;
    }
  }

  /** Where reading pieces stops: at the end, at a comma outside groups or at a bracket that closes, or at a fault. */
  ghost predicate Stop(e: End, rest: string, grouped: bool) {
    match e
    case Ends => rest == "" || rest[0] in ")>" || (rest[0] == ',' && !grouped)
    case Stray(_, _) => false
    case Broken(f) => rest == ShowFault(f) && ProperFault(f)
  }

  ghost predicate Read(s: string, grouped: bool, ps: seq<Piece>, e: End, rest: string) {
    s == ShowAll(ps) + rest && Proper(ps, rest, grouped) && Stop(e, rest, grouped)
  }

  /** One piece in front. */
  lemma ReadCons(p: Piece, s: string, grouped: bool, ps: seq<Piece>, e: End, rest: string)
    requires Read(s, grouped, ps, e, rest) && Proper([p], s, grouped)
    ensures Read(Show(p) + s, grouped, [p] + ps, e, rest)
  {
    assert ([p] + ps)[1..] == ps && [p][1..] == [];
    assert ShowAll([]) + s == s;
    Regroup(Show(p), ShowAll(ps), rest);
  }

  lemma {:induction false} ReadPieces(s: string, grouped: bool) returns (ps: seq<Piece>, e: End, rest: string)
    ensures Read(s, grouped, ps, e, rest)
    decreases |s|
  {
    if s == "" || s[0] in ")>" || (s[0] == ',' && !grouped) {
      ps, e, rest := [], Ends, s;
      assert "" + s == s;
    } else if s[0] in "'\"`" {
      ps, e, rest := ReadFromQuote(s, grouped);
    } else if s[0] in "(<" {
      ps, e, rest := ReadFromBracket(s, grouped);
    } else {
      ps, e, rest := ReadPieces(s[1..], grouped);
      ReadCons(Char(s[0]), s[1..], grouped, ps, e, rest);
      assert s == [s[0]] + s[1..];
      ps := [Char(s[0])] + ps;
    }
  }

  lemma {:induction false} ReadFromQuote(s: string, grouped: bool) returns (ps: seq<Piece>, e: End, rest: string)
    requires s != "" && s[0] in "'\"`"
    ensures Read(s, grouped, ps, e, rest)
    decreases |s|, 0
  {
    var text, closed, tail := ReadQuotation(s[0], s[1..]);
    assert s == [s[0]] + s[1..];
    if closed {
      ps, e, rest := ReadPieces(tail, grouped);
      var p := Quotation(s[0], text);
      assert ShowAll([]) + tail == tail && [p][1..] == [];
      ReadCons(p, tail, grouped, ps, e, rest);
      Regroup(Doubled(s[0], text), [s[0]], tail);
      Regroup([s[0]], Doubled(s[0], text) + [s[0]], tail);
      ps := [p] + ps;
    } else {
      ps, e, rest := [], Broken(OpenQuotation(s[0], text)), s;
      assert Doubled(s[0], text) + "" == Doubled(s[0], text) && "" + s == s;
    }
  }

  lemma {:induction false} ReadFromBracket(s: string, grouped: bool) returns (ps: seq<Piece>, e: End, rest: string)
    requires s != "" && s[0] in "(<"
    ensures Read(s, grouped, ps, e, rest)
    decreases |s|, 0
  {
    var inner, end, tail := ReadPieces(s[1..], true);
    assert s == [s[0]] + s[1..];
    if end.Broken? || tail == "" {
      ps, e, rest := [], Broken(OpenGroup(s[0], inner, if end.Broken? then Some(end.fault) else None)), s;
      assert "" + s == s;
    } else {
      var close, after := tail[0], tail[1..];
      assert tail == [close] + after;
      var p := Group(s[0], inner, close);
      assert |after| < |s| by {
        assert |s[1..]| == |ShowAll(inner)| + |tail|;
      }
      ps, e, rest := ReadPieces(after, grouped);
      ProperLooksOneAhead(inner, tail, [close], true);
      assert [p][1..] == [];
      ReadCons(p, after, grouped, ps, e, rest);
      Regroup(ShowAll(inner), [close], after);
      Regroup([s[0]], ShowAll(inner) + [close], after);
      ps := [p] + ps;
    }
  }

  /** So `SplitsAtCommas` speaks of every text. */
  lemma {:induction false} EveryTextHasParts(s: string) returns (parts: seq<seq<Piece>>, e: End)
    ensures parts != [] && ProperText(parts, e) && Whole(parts, e) == s
    decreases |s|
  {
    var ps, end, rest := ReadPieces(s, false);
    if end.Ends? && rest != "" && rest[0] == ',' {
      var more;
      more, e := EveryTextHasParts(rest[1..]);
      parts := [ps] + more;
      assert parts[1..] == more && rest == "," + rest[1..];
    } else {
      parts := [ps];
      e := if end.Broken? || rest == "" then end else Stray(rest[0], rest[1..]);
      assert ShowEnd(e) == rest;
    }
  }
}
