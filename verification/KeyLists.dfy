/** Comma-separated attnum lists: conkey, confkey and indkey. */
module KeyLists {
  import opened Text

  /** `attnums.join(",")` */
  function JoinAttnums(attnums: seq<nat>): string {
    if attnums == [] then ""
    else if |attnums| == 1 then Dec(attnums[0])
    else Dec(attnums[0]) + "," + JoinAttnums(attnums[1..])
  }

  /** `value.split(',')`: at least one part, possibly empty. */
  function SplitComma(s: string): (parts: seq<string>)
    ensures |parts| > 0
  {
    if s == "" then [""]
    else if s[0] == ',' then [""] + SplitComma(s[1..])
    else
      var rest := SplitComma(s[1..]);
      [[s[0]] + rest[0]] + rest[1..]
  }

  /** Rust's `parse::<i32>`: an optional sign, digits, and a value that fits in 32 bits. */
  function ParseI32(s: string): Option<int> {
    var negative := StartsWith(s, "-");
    var digits := if negative || StartsWith(s, "+") then s[1..] else s;
    if digits == "" || !AllDigits(digits) then None
    else
      var value: int := if negative then 0 - DecValue(digits) else DecValue(digits);
      if -0x8000_0000 <= value < 0x8000_0000 then Some(value) else None
  }

  function ParseParts(parts: seq<string>): seq<int> {
    if parts == [] then []
    else
      var head := ParseI32(Trim(parts[0]));
      (if head.Some? then [head.value] else []) + ParseParts(parts[1..])
  }

  /** `parse_attnums`: parts that are not numbers are skipped. */
  function ParseAttnums(s: string): seq<int> { ParseParts(SplitComma(s)) }

  /** The string search `column_attnum_list_contains` makes in one list. */
  predicate ListContains(s: string, attnum: int) {
    exists i :: 0 <= i < |SplitComma(s)| && Trim(SplitComma(s)[i]) == IntText(attnum)
  }

  method AnyPartEquals(s: string, attnum: int) returns (found: bool)
    ensures found == ListContains(s, attnum)
  {
    var parts, text := SplitComma(s), IntText(attnum);
    for i := 0 to |parts|
      invariant forall j :: 0 <= j < i ==> Trim(parts[j]) != text
    {
      if Trim(parts[i]) == text {
        return true;
      }
    }
    return false;
  }

  ghost predicate InRange(attnums: seq<nat>) { forall i :: 0 <= i < |attnums| ==> attnums[i] < 0x8000_0000 }

  function Numerals(attnums: seq<nat>): (r: seq<string>)
    ensures |r| == |attnums| && forall i :: 0 <= i < |r| ==> r[i] == Dec(attnums[i])
  {
    seq(|attnums|, i requires 0 <= i < |attnums| => Dec(attnums[i]))
  }

  lemma {:induction false} SplitOneDigitRun(d: string, rest: string)
    requires AllDigits(d)
    ensures SplitComma(d + rest) == [d + SplitComma(rest)[0]] + SplitComma(rest)[1..]
  {
    if d == "" {
      var parts := SplitComma(rest);
      assert d + rest == rest && d + parts[0] == parts[0];
      assert parts == [parts[0]] + parts[1..];
    } else {
      assert (d + rest)[1..] == d[1..] + rest;
      SplitOneDigitRun(d[1..], rest);
      assert IsDigit(d[0]);
      assert d == [d[0]] + d[1..];
      assert [d[0]] + (d[1..] + SplitComma(rest)[0]) == d + SplitComma(rest)[0];
    }
  }

  /** Splitting a rendered list gives back its numerals. */
  lemma {:induction false} SplitJoined(attnums: seq<nat>)
    requires attnums != []
    ensures SplitComma(JoinAttnums(attnums)) == Numerals(attnums)
  {
    var d := Dec(attnums[0]);
    if |attnums| == 1 {
      SplitOneDigitRun(d, "");
      assert d + "" == d;
    } else {
      var tail := JoinAttnums(attnums[1..]);
      SplitJoined(attnums[1..]);
      SplitOneDigitRun(d, "," + tail);
      assert d + "," + tail == d + ("," + tail);
      assert ("," + tail)[1..] == tail;
      assert d + "" == d;
    }
  }

  lemma DecIsTrimmed(n: nat)
    ensures Trim(Dec(n)) == Dec(n)
  {
    var d := Dec(n);
    assert IsDigit(d[0]) && IsDigit(d[|d| - 1]);
  }

  lemma ParseI32OfDec(n: nat)
    requires n < 0x8000_0000
    ensures ParseI32(Trim(Dec(n))) == Some(n)
  {
    DecIsTrimmed(n);
    DecRoundTrip(n);
    assert IsDigit(Dec(n)[0]);
  }

  /** Every signed numeral is read, and those that do not fit in 32 bits are refused. */
  lemma SignedNumberReads(i: int)
    ensures ParseI32(IntText(i)) == if -0x8000_0000 <= i < 0x8000_0000 then Some(i) else None
  {
    var d := Dec(if i < 0 then -i else i);
    DecRoundTrip(if i < 0 then -i else i);
    assert IsDigit(d[0]);
    if i < 0 {
      assert ("-" + d)[1..] == d;
    }
  }

  lemma {:induction false} ParseNumerals(attnums: seq<nat>)
    requires InRange(attnums)
    ensures ParseParts(Numerals(attnums)) == attnums
  {
    if attnums != [] {
      ParseI32OfDec(attnums[0]);
      assert Numerals(attnums)[1..] == Numerals(attnums[1..]);
      ParseNumerals(attnums[1..]);
    }
  }

  /** Rendering an attnum list and parsing it back is the identity. */
  lemma ParseInvertsJoin(attnums: seq<nat>)
    requires InRange(attnums)
    ensures ParseAttnums(JoinAttnums(attnums)) == attnums
  {
    if attnums == [] {
      assert SplitComma("") == [""];
      assert ParseParts([""]) == [];
    } else {
      SplitJoined(attnums);
      ParseNumerals(attnums);
    }
  }

  lemma IntTextOfNat(a: int, n: nat)
    requires IntText(a) == Dec(n)
    ensures a == n
  {
    assert IsDigit(Dec(n)[0]);
    if a >= 0 {
      DecInjective(a, n);
    }
  }

  /** The string search finds an attnum exactly when it is in the list: 1 is not 12. */
  lemma ContainsIffMember(attnums: seq<nat>, a: int)
    ensures ListContains(JoinAttnums(attnums), a) <==> a in attnums
  {
    if attnums == [] {
      assert SplitComma("") == [""];
    } else {
      SplitJoined(attnums);
      var parts := SplitComma(JoinAttnums(attnums));
      forall i | 0 <= i < |attnums|
        ensures Trim(parts[i]) == IntText(a) <==> attnums[i] == a
      {
        DecIsTrimmed(attnums[i]);
        if IntText(a) == Dec(attnums[i]) {
          IntTextOfNat(a, attnums[i]);
        }
      }
    }
  }
}
