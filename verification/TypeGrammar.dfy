/** Complex type texts: the splitters and the validation in src/catalog/type_mapping.rs. */
module TypeGrammar {
  import opened Text
  import opened TypeMapping

  /// Splitting at top level

  predicate IsQuote(c: char) { c == '\'' || c == '"' || c == '`' }

  predicate Opens(c: char) { c == '(' || c == '<' }

  predicate Closes(c: char) { c == ')' || c == '>' }

  function Cons(part: string, rest: Option<seq<string>>): Option<seq<string>> {
    if rest.None? then None else Some([part] + rest.value)
  }

  /** The parts of `cur + s`, where `cur` is the part being read, `depth` the open brackets and `quote` the
      open quote. An empty last part is dropped; unbalanced brackets or quotes are an error. */
  function SplitRest(s: string, cur: string, depth: nat, quote: Option<char>): Option<seq<string>>
    decreases |s|
  {
    if s == "" then
      if depth != 0 || quote.Some? then None
      else if Trim(cur) == "" then Some([]) else Some([Trim(cur)])
    else
      var c := s[0];
      if quote.Some? then
        if c != quote.value then SplitRest(s[1..], cur + [c], depth, quote)
        else if |s| > 1 && s[1] == c then SplitRest(s[2..], cur + [c, c], depth, quote)
        else SplitRest(s[1..], cur + [c], depth, None)
      else if IsQuote(c) then SplitRest(s[1..], cur + [c], depth, Some(c))
      else if Opens(c) then SplitRest(s[1..], cur + [c], depth + 1, None)
      else if Closes(c) then (if depth == 0 then None else SplitRest(s[1..], cur + [c], depth - 1, None))
      else if c == ',' && depth == 0 then Cons(Trim(cur), SplitRest(s[1..], "", 0, None))
      else SplitRest(s[1..], cur + [c], depth, None)
  }

  function Append(parts: seq<string>, rest: Option<seq<string>>): Option<seq<string>> {
    if rest.None? then None else Some(parts + rest.value)
  }

  lemma AppendCons(parts: seq<string>, part: string, rest: Option<seq<string>>)
    ensures Append(parts, Cons(part, rest)) == Append(parts + [part], rest)
  {
    if rest.Some? {
      assert parts + ([part] + rest.value) == (parts + [part]) + rest.value;
    }
  }

  lemma AppendToNothing(rest: Option<seq<string>>)
    ensures Append([], rest) == rest
  {
    if rest.Some? {
      assert [] + rest.value == rest.value;
    }
  }

  lemma NextChar(s: string, start: nat, i: nat)
    requires start <= i < |s|
    ensures s[i..][0] == s[i] && s[i..][1..] == s[i + 1..] && s[start..i] + [s[i]] == s[start..i + 1]
    ensures i + 1 < |s| ==> s[i..][1] == s[i + 1] && s[i..][2..] == s[i + 2..] && s[start..i] + [s[i], s[i + 1]] == s[start..i + 2]
  {}

  /** `split_top_level` with a comma */
  method SplitTopLevel(input: string) returns (r: Option<seq<string>>)
    ensures r == SplitRest(input, "", 0, None)
  {
    var parts: seq<string> := [];
    var start, i: nat := 0, 0;
    var depth := 0;
    var quote: Option<char> := None;
    assert input[0..] == input && input[0..0] == "";
    AppendToNothing(SplitRest(input, "", 0, None));
    while i < |input|
      invariant start <= i <= |input| && depth >= 0
      invariant Append(parts, SplitRest(input[i..], input[start..i], depth, quote)) == SplitRest(input, "", 0, None)
    {
      NextChar(input, start, i);
      var c := input[i];
      if quote.Some? {
        if c == quote.value {
          if i + 1 < |input| && input[i + 1] == c {
            i := i + 1;
          } else {
            quote := None;
          }
        }
        i := i + 1;
        continue;
      }
      if IsQuote(c) {
        quote := Some(c);
      } else if Opens(c) {
        depth := depth + 1;
      } else if Closes(c) {
        depth := depth - 1;
      } else if c == ',' && depth == 0 {
        AppendCons(parts, Trim(input[start..i]), SplitRest(input[i + 1..], "", 0, None));
        parts := parts + [Trim(input[start..i])];
        start := i + 1;
        assert input[start..i + 1] == "";
      }
      if depth < 0 {
        return None;
      }
      i := i + 1;
    }
    assert input[i..] == "";
    if depth != 0 || quote.Some? {
      return None;
    }
    var tail := Trim(input[start..]);
    assert input[start..i] == input[start..];
    if tail != "" {
      AppendCons(parts, tail, Some([]));
      parts := parts + [tail];
    }
    assert parts + [] == parts;
    return Some(parts);
  }

  /// One STRUCT field

  function FirstSpace(s: string): (r: Option<nat>)
    ensures r.Some? ==> r.value < |s| && IsSpace(s[r.value]) && forall i :: 0 <= i < r.value ==> !IsSpace(s[i])
    ensures r.None? ==> forall i :: 0 <= i < |s| ==> !IsSpace(s[i])
  {
    if s == "" then None
    else if IsSpace(s[0]) then Some(0)
    else var r := FirstSpace(s[1..]); if r.None? then None else Some(r.value + 1)
  }

  /** Name and type of a field. A quoted name ends at the next quote of its kind: the flag meant for
      doubled quotes is never set when it is looked at. */
  function FieldParts(text: string): Option<(string, string)> {
    var field := Trim(text);
    if field == "" then None
    else if field[0] == '"' || field[0] == '`' then
      var close := Find(field[1..], field[0]);
      if close.None? then None
      else
        var rest := Trim(field[close.value + 2..]);
        if rest == "" then None else Some((field[..close.value + 2], rest))
    else
      var space := FirstSpace(field);
      if space.None? then None
      else
        var name, ty := Trim(field[..space.value]), Trim(field[space.value..]);
        if name == "" || ty == "" then None else Some((name, ty))
  }

  lemma {:induction false} FindIs(s: string, c: char, k: nat)
    requires k < |s| && s[k] == c && forall i :: 0 <= i < k ==> s[i] != c
    ensures Find(s, c) == Some(k)
  {
    if k > 0 {
      FindIs(s[1..], c, k - 1);
    }
  }

  lemma {:induction false} FirstSpaceIs(s: string, k: nat)
    requires k < |s| && IsSpace(s[k]) && forall i :: 0 <= i < k ==> !IsSpace(s[i])
    ensures FirstSpace(s) == Some(k)
  {}

  /** `split_struct_field` */
  method SplitStructField(text: string) returns (r: Option<(string, string)>)
    ensures r == FieldParts(text)
  {
    var field := Trim(text);
    if field == "" {
      return None;
    }
    if field[0] == '"' || field[0] == '`' {
      var quote, escaped := field[0], false;
      var body := field[1..];
      for idx := 0 to |body|
        invariant !escaped && forall i :: 0 <= i < idx ==> body[i] != quote
      {
        var ch := body[idx];
        if ch == quote {
          if escaped {
            escaped := false;
            continue;
          }
          FindIs(body, quote, idx);
          var rest := Trim(field[idx + 2..]);
          return if rest == "" then None else Some((field[..idx + 2], rest));
        }
        escaped := ch == quote;
      }
      return None;
    }
    for idx := 0 to |field|
      invariant forall i :: 0 <= i < idx ==> !IsSpace(field[i])
    {
      if IsSpace(field[idx]) {
        FirstSpaceIs(field, idx);
        var name, ty := Trim(field[..idx]), Trim(field[idx..]);
        return if name == "" || ty == "" then None else Some((name, ty));
      }
    }
    return None;
  }

  /// Validation

  /** `contains_complex_type_marker` */
  predicate Marked(text: string) {
    var lower := Lower(Trim(text));
    || EndsWith(lower, "[]") || (lower != "" && lower[|lower| - 1] == ']' && '[' in lower)
    || StartsWith(lower, "struct(") || StartsWith(lower, "map(") || StartsWith(lower, "list(") || StartsWith(lower, "list<")
  }

  predicate IsScalarPart(text: string) { ScalarTypeId(Trim(text)).Some? }

  /** `fixed_float_array_dimension` on a text that ends with a bracket. */
  function ArrayDimension(text: string): Option<nat>
    requires text != ""
  {
    var open := RFind(text, '[');
    if open.None? || open.value + 1 > |text| - 1 then None
    else
      var element, digits := Trim(text[..open.value]), Trim(text[open.value + 1..|text| - 1]);
      if element == "" || '[' in element || ']' in element || digits == "" || !AllDigits(digits) then None
      else if ScalarTypeId(element) != Some(TYPE_FLOAT4) then None
      else if DecValue(digits) == 0 || DecValue(digits) >= 0x1_0000_0000_0000_0000 then None
      else Some(DecValue(digits))
  }

  predicate FieldSupported(field: string) {
    var parts := FieldParts(field);
    parts.Some? && !Marked(parts.value.1) && IsScalarPart(parts.value.1)
  }

  predicate ListSupported(element: string) { !EndsWith(element, "[]") && !Marked(element) && IsScalarPart(element) }

  predicate StructSupported(inner: string) {
    var fields := SplitRest(inner, "", 0, None);
    fields.Some? && fields.value != [] && forall i :: 0 <= i < |fields.value| ==> FieldSupported(fields.value[i])
  }

  predicate PartSupported(part: string) { !Marked(part) && IsScalarPart(part) }

  predicate MapSupported(inner: string) {
    var parts := SplitRest(inner, "", 0, None);
    parts.Some? && |parts.value| == 2 && forall i :: 0 <= i < |parts.value| ==> PartSupported(parts.value[i])
  }

  /** `validate_supported_complex_type` on a trimmed text. */
  predicate SupportedTrimmed(t: string) {
    if EndsWith(t, "[]") then ListSupported(t[..|t| - 2])
    else if t != "" && t[|t| - 1] == ']' then ArrayDimension(t).Some?
    else if StartsWith(Lower(t), "struct(") && t[|t| - 1] == ')' then StructSupported(t[7..|t| - 1])
    else if StartsWith(Lower(t), "map(") && t[|t| - 1] == ')' then MapSupported(t[4..|t| - 1])
    else false
  }

  predicate Supported(duckType: string) { SupportedTrimmed(Trim(duckType)) }

  method ValidateField(field: string) returns (ok: bool)
    ensures ok == FieldSupported(field)
  {
    var parts := SplitStructField(field);
    return parts.Some? && !Marked(parts.value.1) && IsScalarPart(parts.value.1);
  }

  method ValidateStruct(inner: string) returns (ok: bool)
    ensures ok == StructSupported(inner)
  {
    var fields := SplitTopLevel(inner);
    if fields.None? || fields.value == [] {
      return false;
    }
    for i := 0 to |fields.value|
      invariant forall j :: 0 <= j < i ==> FieldSupported(fields.value[j])
    {
      var supported := ValidateField(fields.value[i]);
      if !supported {
        return false;
      }
    }
    return true;
  }

  method ValidateMap(inner: string) returns (ok: bool)
    ensures ok == MapSupported(inner)
  {
    var parts := SplitTopLevel(inner);
    if parts.None? || |parts.value| != 2 {
      return false;
    }
    for i := 0 to |parts.value|
      invariant forall j :: 0 <= j < i ==> PartSupported(parts.value[j])
    {
      if Marked(parts.value[i]) || !IsScalarPart(parts.value[i]) {
        return false;
      }
    }
    return true;
  }

  method ValidateSupportedComplexType(duckType: string) returns (ok: bool)
    ensures ok == Supported(duckType)
  {
    var t := Trim(duckType);
    if EndsWith(t, "[]") {
      ok := ListSupported(t[..|t| - 2]);
    } else if t != "" && t[|t| - 1] == ']' {
      ok := ArrayDimension(t).Some?;
    } else if StartsWith(Lower(t), "struct(") && t[|t| - 1] == ')' {
      ok := ValidateStruct(t[7..|t| - 1]);
    } else if StartsWith(Lower(t), "map(") && t[|t| - 1] == ')' {
      ok := ValidateMap(t[4..|t| - 1]);
    } else {
      ok := false;
    }
  }
}
