/** Shared vocabulary: results, ASCII text and decimal numerals. */
module Text {

  datatype Option<+T> = None | Some(value: T)

  datatype Result<+T, +E> = Ok(value: T) | Err(error: E)

  /// Characters

  predicate IsDigit(c: char) { '0' <= c <= '9' }

  predicate IsSpace(c: char) { c == ' ' || '\t' <= c <= '\r' }

  function LowerChar(c: char): char {
    if 'A' <= c <= 'Z' then c + 32 as char else c
  }

  function Lower(s: string): (r: string)
    ensures |r| == |s|
    ensures forall i :: 0 <= i < |s| ==> r[i] == LowerChar(s[i])
  {
    seq(|s|, i requires 0 <= i < |s| => LowerChar(s[i]))
  }

  /** `eq_ignore_ascii_case`, and SQL's `lower(a) = lower(b)` on ASCII names. */
  predicate EqIgnoreCase(a: string, b: string) { Lower(a) == Lower(b) }

  /** Equality, decided by length and first character where they differ. */
  predicate Same(a: string, b: string) { |a| == |b| && (a != "" ==> a[0] == b[0]) && a == b }

  predicate StartsWith(s: string, prefix: string) {
    |prefix| <= |s| && (prefix != "" ==> s[0] == prefix[0]) && prefix <= s
  }

  predicate EndsWith(s: string, suffix: string) {
    |suffix| <= |s| && s[|s| - |suffix|..] == suffix
  }

  function TrimStart(s: string): string {
    if s != "" && IsSpace(s[0]) then TrimStart(s[1..]) else s
  }

  function TrimEnd(s: string): string {
    if s != "" && IsSpace(s[|s| - 1]) then TrimEnd(s[..|s| - 1]) else s
  }

  function Trim(s: string): string { TrimEnd(TrimStart(s)) }

  /// Quoted identifiers

  function QuoteBody(s: string): string {
    if s == "" then "" else (if s[0] == '"' then "\"\"" else [s[0]]) + QuoteBody(s[1..])
  }

  /** `quote_ident`: quotes inside are doubled. */
  function QuoteIdent(s: string): string { "\"" + QuoteBody(s) + "\"" }

  /// Decimal numerals

  predicate AllDigits(s: string) { forall i :: 0 <= i < |s| ==> IsDigit(s[i]) }

  function Digit(n: nat): (c: char)
    requires n < 10
    ensures IsDigit(c)
  {
    '0' + n as char
  }

  /** The numeral Rust's `to_string` prints for a natural number. */
  function Dec(n: nat): (s: string)
    ensures s != "" && AllDigits(s)
  {
    if n < 10 then [Digit(n)] else Dec(n / 10) + [Digit(n % 10)]
  }

  /** The value of a string of digits, leading zeros allowed. */
  function DecValue(s: string): nat
    requires AllDigits(s)
  {
    if s == "" then 0
    else assert IsDigit(s[|s| - 1]); 10 * DecValue(s[..|s| - 1]) + (s[|s| - 1] as int - '0' as int)
  }

  lemma {:induction false} DecRoundTrip(n: nat)
    ensures DecValue(Dec(n)) == n
  {
    if n >= 10 {
      DecRoundTrip(n / 10);
      assert Dec(n)[..|Dec(n)| - 1] == Dec(n / 10);
    }
  }

  lemma DecInjective(a: nat, b: nat)
    requires Dec(a) == Dec(b)
    ensures a == b
  {
    DecRoundTrip(a);
    DecRoundTrip(b);
  }

  /** Rust's `to_string` on a signed integer. */
  function IntText(i: int): (s: string)
    ensures s != ""
  {
    if i < 0 then "-" + Dec(-i) else Dec(i)
  }

  /// Slices

  lemma SliceTail<T>(s: seq<T>, i: nat)
    requires i < |s|
    ensures s[i..] != [] && s[i..][0] == s[i] && s[i..][1..] == s[i + 1..]
  {}

  /// Bytes

  type byte = b: int | 0 <= b < 256

  /** A lower-case hexadecimal digit. */
  function HexDigit(n: nat): (c: char)
    requires n < 16
    ensures c != '\''
  {
    "0123456789abcdef"[n]
  }

  /** The value of a hexadecimal digit. */
  function HexValue(c: char): Option<nat> {
    if '0' <= c <= '9' then Some(c as int - '0' as int)
    else if 'a' <= c <= 'f' then Some(c as int - 'a' as int + 10)
    else None
  }

  lemma HexDigitReads(n: nat)
    requires n < 16
    ensures HexValue(HexDigit(n)) == Some(n)
  {}

  /// Loops that collect a list or fail

  /** `whole` is what was collected so far followed by the rest, if the rest succeeds. */
  ghost predicate Collects<T>(whole: Option<seq<T>>, done: seq<T>, rest: Option<seq<T>>) {
    if rest.None? then whole.None? else whole == Some(done + rest.value)
  }

  lemma CollectsFromStart<T>(whole: Option<seq<T>>)
    ensures Collects(whole, [], whole)
  {
    if whole.Some? {
      assert [] + whole.value == whole.value;
    }
  }

  lemma CollectsWith<T>(whole: Option<seq<T>>, done: seq<T>, x: T, rest: Option<seq<T>>)
    requires Collects(whole, done, if rest.None? then None else Some([x] + rest.value))
    ensures Collects(whole, done + [x], rest)
  {
    if rest.Some? {
      assert done + ([x] + rest.value) == (done + [x]) + rest.value;
    }
  }

  lemma CollectsToEnd<T>(whole: Option<seq<T>>, done: seq<T>)
    requires Collects(whole, done, Some([]))
    ensures whole == Some(done)
  {
    assert done + [] == done;
  }
}
