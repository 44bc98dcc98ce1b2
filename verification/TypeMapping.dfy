/** How DuckDB type texts map to catalog type ids and DECIMAL modifiers. */
module TypeMapping {
  import opened Text

  /// Built-in scalar types (the rows bootstrap writes to rs_type)

  const TYPE_BOOL := 1001
  const TYPE_INT8 := 1002
  const TYPE_INT2 := 1003
  const TYPE_INT4 := 1004
  const TYPE_TEXT := 1005
  const TYPE_FLOAT4 := 1006
  const TYPE_FLOAT8 := 1007
  const TYPE_VARCHAR := 1008
  const TYPE_DATE := 1009
  const TYPE_TIME := 1010
  const TYPE_TIMESTAMP := 1011
  const TYPE_NUMERIC := 1012

  /** A spelling the catalog accepts: the whole lower-case text, or its beginning. */
  datatype Spelling = Exact(text: string, id: int) | Prefix(text: string, id: int)

  const SPELLINGS: seq<Spelling> := [
    Exact("boolean", TYPE_BOOL), Exact("bool", TYPE_BOOL),
    Exact("smallint", TYPE_INT2), Exact("int2", TYPE_INT2),
    Exact("integer", TYPE_INT4), Exact("int", TYPE_INT4), Exact("int4", TYPE_INT4),
    Exact("bigint", TYPE_INT8), Exact("int8", TYPE_INT8),
    Exact("real", TYPE_FLOAT4), Exact("float", TYPE_FLOAT4), Exact("float4", TYPE_FLOAT4),
    Exact("double", TYPE_FLOAT8), Exact("double precision", TYPE_FLOAT8), Exact("float8", TYPE_FLOAT8),
    Prefix("decimal", TYPE_NUMERIC), Prefix("numeric", TYPE_NUMERIC),
    Exact("varchar", TYPE_VARCHAR), Prefix("varchar(", TYPE_VARCHAR),
    Exact("text", TYPE_TEXT), Exact("string", TYPE_TEXT),
    Exact("date", TYPE_DATE),
    Exact("time", TYPE_TIME), Prefix("time(", TYPE_TIME),
    Prefix("timestamp", TYPE_TIMESTAMP), Exact("datetime", TYPE_TIMESTAMP)
  ]

  predicate Matches(lower: string, s: Spelling) {
    if s.Exact? then Same(lower, s.text) else StartsWith(lower, s.text)
  }

  function FirstMatch(lower: string, spellings: seq<Spelling>): Option<int> {
    if spellings == [] then None
    else if Matches(lower, spellings[0]) then Some(spellings[0].id)
    else FirstMatch(lower, spellings[1..])
  }

  /** `scalar_type_id_for_duckdb_type`: the first accepted spelling decides. */
  function ScalarTypeId(duckType: string): Option<int> { FirstMatch(Lower(duckType), SPELLINGS) }

  lemma {:induction false} FirstMatchIs(lower: string, spellings: seq<Spelling>, k: nat)
    requires k < |spellings| && Matches(lower, spellings[k])
    requires forall i :: 0 <= i < k ==> !Matches(lower, spellings[i])
    ensures FirstMatch(lower, spellings) == Some(spellings[k].id)
  {
    if k > 0 {
      FirstMatchIs(lower, spellings[1..], k - 1);
    }
  }

  /** `rsduck_physical_type` of a built-in type id. */
  function BuiltinPhysicalType(id: int): string {
    if id == TYPE_BOOL then "BOOLEAN"
    else if id == TYPE_INT8 then "BIGINT"
    else if id == TYPE_INT2 then "SMALLINT"
    else if id == TYPE_INT4 then "INTEGER"
    else if id == TYPE_TEXT then "VARCHAR"
    else if id == TYPE_FLOAT4 then "REAL"
    else if id == TYPE_FLOAT8 then "DOUBLE"
    else if id == TYPE_VARCHAR then "VARCHAR"
    else if id == TYPE_DATE then "DATE"
    else if id == TYPE_TIME then "TIME"
    else if id == TYPE_TIMESTAMP then "TIMESTAMP"
    else "DECIMAL"
  }

  /// DECIMAL precision and scale

  predicate IsDecimal(duckType: string) {
    var lower := Lower(Trim(duckType));
    lower == "decimal" || lower == "numeric" || StartsWith(lower, "decimal(") || StartsWith(lower, "numeric(")
  }

  function Find(s: string, c: char): (r: Option<nat>)
    ensures r.Some? ==> r.value < |s| && s[r.value] == c
  {
    if s == "" then None
    else if s[0] == c then Some(0)
    else var r := Find(s[1..], c); if r.Some? then Some(r.value + 1) else None
  }

  function RFind(s: string, c: char): (r: Option<nat>)
    ensures r.Some? ==> r.value < |s| && s[r.value] == c
  {
    if s == "" then None
    else if s[|s| - 1] == c then Some(|s| - 1)
    else RFind(s[..|s| - 1], c)
  }

  /** Rust's `parse::<u8>`: digits, a leading `+` allowed, at most 255. */
  function ParseU8(s: string): (r: Option<nat>)
    ensures r.Some? ==> r.value < 256
  {
    var digits := if StartsWith(s, "+") then s[1..] else s;
    if digits == "" || !AllDigits(digits) || DecValue(digits) > 255 then None else Some(DecValue(digits))
  }

  predicate ValidDecimal(precision: nat, scale: nat) { 1 <= precision <= 38 && scale <= precision }

  function DecimalPrecisionAndScale(duckType: string): (r: Option<(nat, nat)>)
    ensures r.Some? ==> ValidDecimal(r.value.0, r.value.1)
  {
    var trimmed := Trim(duckType);
    var open, close := Find(trimmed, '('), RFind(trimmed, ')');
    if !IsDecimal(trimmed) || open.None? || close.None? then None
    else if close.value <= open.value + 1 || Trim(trimmed[close.value + 1..]) != "" then None
    else
      var inner := trimmed[open.value + 1..close.value];
      var comma := Find(inner, ',');
      if comma.None? then None
      else
        var precision, scale := ParseU8(Trim(inner[..comma.value])), ParseU8(Trim(inner[comma.value + 1..]));
        if precision.None? || scale.None? || !ValidDecimal(precision.value, scale.value) then None
        else Some((precision.value, scale.value))
  }

  const HEADER_SIZE := 4

  function EncodeDecimal(precision: nat, scale: nat): int { precision * 0x1_0000 + scale + HEADER_SIZE }

  /** `type_modifier_for_duckdb_type` */
  function TypeModifier(duckType: string): int {
    match DecimalPrecisionAndScale(duckType)
    case Some((precision, scale)) => EncodeDecimal(precision, scale)
    case None => -1
  }

  /** `decimal_precision_and_scale_from_modifier`: each half is cut to eight bits. */
  function DecodeDecimal(modifier: int): (r: Option<(nat, nat)>)
    ensures r.Some? ==> ValidDecimal(r.value.0, r.value.1)
  {
    if modifier < HEADER_SIZE then None
    else
      var encoded := modifier - HEADER_SIZE;
      var precision, scale := (encoded / 0x1_0000) % 0x1_0000 % 256, encoded % 0x1_0000 % 256;
      if ValidDecimal(precision, scale) then Some((precision, scale)) else None
  }

  function DecimalText(precision: nat, scale: nat): string {
    "DECIMAL(" + Dec(precision) + "," + Dec(scale) + ")"
  }

  /** `duckdb_type_with_modifier` */
  function TypeWithModifier(physicalType: string, modifier: int): string {
    if !IsDecimal(physicalType) then physicalType
    else match DecodeDecimal(modifier)
      case Some((precision, scale)) => DecimalText(precision, scale)
      case None => physicalType
  }

  predicate IsValidModifier(physicalType: string, modifier: int) {
    !IsDecimal(physicalType) || DecodeDecimal(modifier).Some?
  }

  /// The modifier decodes to what was encoded

  lemma DecodeInvertsEncode(precision: nat, scale: nat)
    requires ValidDecimal(precision, scale)
    ensures DecodeDecimal(EncodeDecimal(precision, scale)) == Some((precision, scale))
  {
    var encoded := precision * 0x1_0000 + scale;
    assert encoded / 0x1_0000 == precision && encoded % 0x1_0000 == scale;
  }

  /** Decoding is lossy: it returns the encoded pair exactly when both sixteen-bit halves fit in
      eight bits and nothing stands above them. */
  lemma EncodeInvertsDecode(modifier: int)
    requires DecodeDecimal(modifier).Some?
    ensures var (precision, scale) := DecodeDecimal(modifier).value;
            EncodeDecimal(precision, scale) == modifier <==>
            (modifier - HEADER_SIZE) / 0x1_0000 < 256 && (modifier - HEADER_SIZE) % 0x1_0000 < 256
  {
    var encoded := modifier - HEADER_SIZE;
    var high, low := encoded / 0x1_0000, encoded % 0x1_0000;
    assert encoded == high * 0x1_0000 + low;
  }

  /** A modifier no type produces can still decode to a valid pair. */
  lemma DecodeIsLossy()
    ensures DecodeDecimal(EncodeDecimal(266, 2)) == Some((10, 2)) == DecodeDecimal(EncodeDecimal(10, 2))
  {}

  lemma TrimFixed(s: string)
    requires s == "" || (!IsSpace(s[0]) && !IsSpace(s[|s| - 1]))
    ensures Trim(s) == s
  {}

  lemma {:induction false} FindFirst(pre: string, c: char, post: string)
    requires c !in pre
    ensures Find(pre + [c] + post, c) == Some(|pre|)
  {
    if pre != "" {
      assert (pre + [c] + post)[1..] == pre[1..] + [c] + post;
      FindFirst(pre[1..], c, post);
    }
  }

  lemma DigitsHaveNo(s: string, c: char)
    requires AllDigits(s) && !IsDigit(c)
    ensures c !in s
  {}

  lemma DecimalParts(p: string, s: string)
    requires AllDigits(p)
    ensures var inner := p + "," + s; Find(inner, ',') == Some(|p|) && inner[..|p|] == p && inner[|p| + 1..] == s
  {
    DigitsHaveNo(p, ',');
    assert p + "," + s == p + [','] + s;
    FindFirst(p, ',', s);
  }

  lemma LowerStartsDecimal(t: string)
    requires |t| >= 8 && t[..8] == "DECIMAL("
    ensures StartsWith(Lower(t), "decimal(")
  {
    assert Lower(t)[..8] == "decimal(";
  }

  lemma DecimalIsDecimal()
    ensures IsDecimal("DECIMAL") && Lower("DECIMAL") == "decimal"
  {
    TrimFixed("DECIMAL");
    assert Lower("DECIMAL") == "decimal";
  }

  /** The two words for exact numbers, in any case. */
  predicate DecimalWord(word: string) { Lower(word) == "decimal" || Lower(word) == "numeric" }

  lemma WordHasNo(word: string, c: char)
    requires DecimalWord(word) && (c == '(' || c == ' ')
    ensures |word| == 7 && c !in word && !IsSpace(word[0])
  {
    forall i | 0 <= i < |word|
      ensures word[i] != c
    {
      assert Lower(word)[i] == LowerChar(word[i]);
    }
    assert Lower(word)[0] == LowerChar(word[0]);
  }

  lemma WordIsDecimal(word: string, rest: string)
    requires DecimalWord(word) && (rest == "" || (rest[0] == '(' && rest[|rest| - 1] == ')'))
    ensures Trim(word + rest) == word + rest && IsDecimal(word + rest)
  {
    var t := word + rest;
    WordHasNo(word, ' ');
    assert Lower(word)[6] == LowerChar(word[6]);
    TrimFixed(t);
    if rest == "" {
      assert t == word;
    } else {
      assert Lower(t)[..8] == Lower(word) + "(";
    }
  }

  lemma WordBrackets(word: string, p: string, s: string)
    requires DecimalWord(word)
    ensures var t := word + ("(" + (p + "," + s) + ")");
            Find(t, '(') == Some(7) && RFind(t, ')') == Some(|t| - 1) && t[8..|t| - 1] == p + "," + s && t[|t|..] == ""
  {
    var inner := p + "," + s;
    var t := word + ("(" + inner + ")");
    WordHasNo(word, '(');
    assert t == word + ['('] + (inner + ")");
    FindFirst(word, '(', inner + ")");
    assert t[|t| - 1] == ')';
  }

  lemma ParseU8Limits(n: nat)
    ensures ParseU8(Trim(Dec(n))) == if n < 256 then Some(n) else None
  {
    DecRoundTrip(n);
    var d := Dec(n);
    assert IsDigit(d[0]) && IsDigit(d[|d| - 1]);
    TrimFixed(d);
  }

  lemma WordParses(word: string, p: nat, s: nat)
    requires DecimalWord(word)
    ensures DecimalPrecisionAndScale(word + ("(" + (Dec(p) + "," + Dec(s)) + ")")) == if ValidDecimal(p, s) then Some((p, s)) else None
  {
    var rest := "(" + (Dec(p) + "," + Dec(s)) + ")";
    WordIsDecimal(word, rest);
    WordBrackets(word, Dec(p), Dec(s));
    DecimalParts(Dec(p), Dec(s));
    ParseU8Limits(p);
    ParseU8Limits(s);
  }

  lemma WordAlone(word: string)
    requires DecimalWord(word)
    ensures IsDecimal(word) && TypeModifier(word) == -1
  {
    WordIsDecimal(word, "");
    assert word + "" == word;
    WordHasNo(word, '(');
    FindNothing(word, '(');
  }

  /** Either word, in any case, gives the modifier of its precision and scale exactly if they are valid, and none
      without them. */
  lemma ModifierOfWord(word: string, p: nat, s: nat)
    requires DecimalWord(word)
    ensures TypeModifier(word) == -1 && IsDecimal(word)
    ensures TypeModifier(word + ("(" + (Dec(p) + "," + Dec(s)) + ")")) == if 1 <= p <= 38 && s <= p then p * 65536 + s + 4 else -1
  {
    WordAlone(word);
    WordParses(word, p, s);
  }

  lemma OpenedWord(word: string, open: string, a: string, b: string)
    requires open == word + "("
    ensures open + a + "," + b + ")" == word + ("(" + (a + "," + b) + ")")
  {}

  lemma DecimalTextParses(precision: nat, scale: nat)
    requires ValidDecimal(precision, scale)
    ensures DecimalPrecisionAndScale(DecimalText(precision, scale)) == Some((precision, scale))
  {
    DecimalIsDecimal();
    WordParses("DECIMAL", precision, scale);
    OpenedWord("DECIMAL", "DECIMAL(", Dec(precision), Dec(scale));
  }

  /** A DECIMAL column's type text survives being stored as a modifier and printed back. */
  lemma DecimalTextRoundTrip(precision: nat, scale: nat)
    requires ValidDecimal(precision, scale)
    ensures TypeModifier(DecimalText(precision, scale)) == EncodeDecimal(precision, scale)
    ensures TypeWithModifier("DECIMAL", EncodeDecimal(precision, scale)) == DecimalText(precision, scale)
    ensures IsValidModifier("DECIMAL", EncodeDecimal(precision, scale))
  {
    DecimalTextParses(precision, scale);
    DecodeInvertsEncode(precision, scale);
    DecimalIsDecimal();
  }

  /// Which DuckDB type texts the catalog can spell back

  /** The type text `catalog_columns` prints for a column DuckDB reports with type `duckType`. */
  function CatalogSpelling(duckType: string): string
    requires ScalarTypeId(duckType).Some?
  {
    TypeWithModifier(BuiltinPhysicalType(ScalarTypeId(duckType).value), TypeModifier(duckType))
  }

  /** `DECIMAL(p,s)` as DuckDB prints it. */
  ghost predicate IsDecimalText(duckType: string) {
    exists precision: nat, scale: nat :: ValidDecimal(precision, scale) && duckType == DecimalText(precision, scale)
  }

  /** The text is the catalog's own name of its type, or a `DECIMAL(p,s)`. */
  ghost predicate CanonicalScalar(duckType: string)
    requires ScalarTypeId(duckType).Some?
  {
    duckType == BuiltinPhysicalType(ScalarTypeId(duckType).value) || IsDecimalText(duckType)
  }

  lemma OtherwiseSpelled(s: string)
    requires Trim(s) == s && |s| >= 2 && LowerChar(s[0]) != 'n' && (LowerChar(s[0]) != 'd' || LowerChar(s[1]) != 'e')
    ensures !IsDecimal(s)
  {
    assert Lower(s)[0] == LowerChar(s[0]) && Lower(s)[1] == LowerChar(s[1]);
  }

  lemma OnlyNumericIsDecimal(id: int)
    ensures IsDecimal(BuiltinPhysicalType(id)) <==> BuiltinPhysicalType(id) == "DECIMAL"
  {
    var s := BuiltinPhysicalType(id);
    if s == "DECIMAL" {
      DecimalIsDecimal();
    } else {
      TrimFixed(s);
      OtherwiseSpelled(s);
    }
  }
  lemma BareDecimalHasNoModifier()
    ensures TypeModifier("DECIMAL") == -1
  {
    DecimalIsDecimal();
    WordAlone("DECIMAL");
  }
  lemma FindNothing(s: string, c: char)
    requires c !in s
    ensures Find(s, c).None?
  {}

  lemma DecimalTextIsNumeric(precision: nat, scale: nat)
    ensures ScalarTypeId(DecimalText(precision, scale)) == Some(TYPE_NUMERIC)
  {
    var lower := Lower(DecimalText(precision, scale));
    LowerStartsDecimal(DecimalText(precision, scale));
    StartsWithDecimal(lower);
  }

  lemma StartsWithDecimal(lower: string)
    requires StartsWith(lower, "decimal(")
    ensures FirstMatch(lower, SPELLINGS) == Some(TYPE_NUMERIC)
  {
    assert lower[..8] == "decimal(";
    assert lower[..7] == "decimal";
    assert lower[0] == 'd' && lower[1] == 'e';
    FirstMatchIs(lower, SPELLINGS, 15);
  }

  lemma SpellingsAre(id: int, modifier: int)
    ensures var t := TypeWithModifier(BuiltinPhysicalType(id), modifier);
            t == BuiltinPhysicalType(id) || IsDecimalText(t)
  {}

  lemma BuiltinIsKept(id: int)
    ensures TypeWithModifier(BuiltinPhysicalType(id), TypeModifier(BuiltinPhysicalType(id))) == BuiltinPhysicalType(id)
  {
    OnlyNumericIsDecimal(id);
    BareDecimalHasNoModifier();
  }

  lemma DecimalTextIsKept(duckType: string)
    requires IsDecimalText(duckType)
    ensures ScalarTypeId(duckType) == Some(TYPE_NUMERIC)
    ensures TypeWithModifier("DECIMAL", TypeModifier(duckType)) == duckType
    ensures DecodeDecimal(TypeModifier(duckType)).Some?
  {
    var p: nat, s: nat :| ValidDecimal(p, s) && duckType == DecimalText(p, s);
    DecimalTextIsNumeric(p, s);
    DecimalTextRoundTrip(p, s);
    DecodeInvertsEncode(p, s);
  }

  lemma SpellingCases(duckType: string, id: int, modifier: int)
    requires IsDecimalText(duckType) ==> id == TYPE_NUMERIC && TypeWithModifier("DECIMAL", modifier) == duckType
    requires duckType == BuiltinPhysicalType(id) ==> TypeWithModifier(BuiltinPhysicalType(id), modifier) == duckType
    ensures TypeWithModifier(BuiltinPhysicalType(id), modifier) == duckType <==>
            duckType == BuiltinPhysicalType(id) || IsDecimalText(duckType)
  {
    SpellingsAre(id, modifier);
  }

  /** The catalog spells a built-in type back exactly when its text is canonical; every other
      accepted spelling comes back changed. */
  lemma SpellingIsKeptIffCanonical(duckType: string)
    requires ScalarTypeId(duckType).Some?
    ensures CatalogSpelling(duckType) == duckType <==> CanonicalScalar(duckType)
  {
    var id, modifier := ScalarTypeId(duckType).value, TypeModifier(duckType);
    if IsDecimalText(duckType) {
      DecimalTextIsKept(duckType);
    }
    BuiltinIsKept(id);
    SpellingCases(duckType, id, modifier);
  }

  lemma LowerGives(s: string, lower: string, id: int)
    requires |s| == |lower| && (forall i :: 0 <= i < |s| ==> LowerChar(s[i]) == lower[i])
    requires FirstMatch(lower, SPELLINGS) == Some(id)
    ensures ScalarTypeId(s) == Some(id)
  {
    assert Lower(s) == lower;
  }

  lemma FloatIsFloat4()
    ensures FirstMatch("float", SPELLINGS) == Some(TYPE_FLOAT4)
  {
    assert Matches("float", SPELLINGS[10]);
    FirstMatchIs("float", SPELLINGS, 10);
  }

  lemma RealIsKept(modifier: int)
    ensures TypeWithModifier(BuiltinPhysicalType(TYPE_FLOAT4), modifier) == "REAL"
  {
    OnlyNumericIsDecimal(TYPE_FLOAT4);
  }

  /** DuckDB reports single-precision columns as FLOAT; the catalog spells them REAL. */
  lemma FloatIsRespelled()
    ensures ScalarTypeId("FLOAT").Some? && CatalogSpelling("FLOAT") == "REAL"
  {
    FloatIsFloat4();
    LowerGives("FLOAT", "float", TYPE_FLOAT4);
    RealIsKept(TypeModifier("FLOAT"));
  }

  lemma StartsWithTimestamp(lower: string)
    requires StartsWith(lower, "timestamp")
    ensures FirstMatch(lower, SPELLINGS) == Some(TYPE_TIMESTAMP)
  {
    assert lower[..9] == "timestamp";
    assert lower[0] == 't' && lower[1] == 'i' && lower[4] == 's';
    FirstMatchIs(lower, SPELLINGS, 24);
  }

  lemma TimestampHasNoModifier(modifier: int)
    ensures TypeWithModifier("TIMESTAMP", modifier) == "TIMESTAMP"
  {
    OnlyNumericIsDecimal(TYPE_TIMESTAMP);
  }

  /** Every text that starts with TIMESTAMP, lists and zoned timestamps included, is filed under
      the scalar TIMESTAMP and comes back as one. */
  lemma TimestampPrefixIsRespelled(duckType: string)
    requires StartsWith(Lower(duckType), "timestamp")
    ensures ScalarTypeId(duckType).Some? && CatalogSpelling(duckType) == "TIMESTAMP"
  {
    StartsWithTimestamp(Lower(duckType));
    TimestampHasNoModifier(TypeModifier(duckType));
  }
}
