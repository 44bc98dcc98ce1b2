/** Types on their way through the catalog: the texts it prints, and what DuckDB makes of them. */
module PrintedTypes {
  import opened Text
  import opened TableColumns
  import opened TypeMapping

  /// rs_type as a run leaves it

  const BUILTIN_TEXTS: map<int, string> := map id | TYPE_BOOL <= id <= TYPE_NUMERIC :: BuiltinPhysicalType(id)

  /** `rsduck_physical_type` by type id: the built-in types and the registered ones. */
  function TextsOf(reg: SoundRegistry): map<int, string>
  {
    BUILTIN_TEXTS + map t <- reg.types :: reg.types[t] := t
  }

  lemma TextOfBuiltin(reg: Registry, id: int)
    requires RegistryOk(reg) && TYPE_BOOL <= id <= TYPE_NUMERIC
    ensures id in TextsOf(reg) && TextsOf(reg)[id] == BuiltinPhysicalType(id)
  {}

  lemma TextOfRegistered(reg: Registry, t: string)
    requires RegistryOk(reg) && t in reg.types
    ensures reg.types[t] in TextsOf(reg) && TextsOf(reg)[reg.types[t]] == t && !(TYPE_BOOL <= reg.types[t] <= TYPE_NUMERIC)
  {}

  lemma TextOfNone(reg: Registry, id: int)
    requires RegistryOk(reg) && !(TYPE_BOOL <= id <= TYPE_NUMERIC) && forall t :: t in reg.types ==> reg.types[t] != id
    ensures id !in TextsOf(reg)
  {}

  lemma {:induction false} MatchedIdIsBuiltin(lower: string, spellings: seq<Spelling>)
    requires forall k :: 0 <= k < |spellings| ==> TYPE_BOOL <= spellings[k].id <= TYPE_NUMERIC
    ensures FirstMatch(lower, spellings).Some? ==> TYPE_BOOL <= FirstMatch(lower, spellings).value <= TYPE_NUMERIC
  {
    if spellings != [] {
      MatchedIdIsBuiltin(lower, spellings[1..]);
    }
  }

  lemma SpellingIdsAreBuiltin()
    ensures forall k :: 0 <= k < |SPELLINGS| ==> TYPE_BOOL <= SPELLINGS[k].id <= TYPE_NUMERIC
  {}

  /// Printing a type and reading it back

  /** How DuckDB reports a column created with a type text of the catalog. */
  function DuckReports(text: string): string {
    if Same(text, "REAL") then "FLOAT" else if Same(text, "DECIMAL") then "DECIMAL(18,3)" else text
  }

  ghost function PrintedType(reg: Registry, id: int, modifier: int): Option<string> {
    if !RegistryOk(reg) || id !in TextsOf(reg) then None else Some(DuckReports(TypeWithModifier(TextsOf(reg)[id], modifier)))
  }

  /** What is left open: the complex types rsduck accepts, and what DuckDB makes of a UNION ALL over different types. */
  datatype DuckTypes = DuckTypes(supported: string -> bool, unified: seq<string> -> Option<string>)

  /** rsduck's own reading and printing of types. */
  ghost function Rsduck(duck: DuckTypes): Typing {
    Typing((t: string) => ScalarTypeId(t), (t: string) => TypeModifier(t), duck.supported,
           (reg: Registry, id: int, modifier: int) => PrintedType(reg, id, modifier), duck.unified)
  }

  /** DuckDB shows the printed text as a type that is filed under the same id and modifier. */
  ghost predicate Reprints(types: map<string, int>, text: string, id: int, modifier: int) {
    && (if ScalarTypeId(text).Some? then ScalarTypeId(text) == Some(id) else text in types && types[text] == id)
    && TypeModifier(text) == modifier
  }

  predicate IsDecimalModifier(modifier: int) {
    match DecodeDecimal(modifier)
    case Some((precision, scale)) => EncodeDecimal(precision, scale) == modifier
    case None => false
  }

  predicate KeepsItsText(t: string, modifier: int) {
    ScalarTypeId(t).None? && TypeWithModifier(t, modifier) == t && TypeModifier(t) == modifier
  }

  /** The condition in terms of the row: a DECIMAL needs a modifier the catalog could have written, TEXT is
      printed as VARCHAR, and a registered type must not be one DuckDB's text makes scalar or a DECIMAL. */
  ghost predicate Printable(reg: Registry, id: int, modifier: int) {
    if id == TYPE_NUMERIC then IsDecimalModifier(modifier)
    else if TYPE_BOOL <= id <= TYPE_NUMERIC then id != TYPE_TEXT && modifier == -1
    else exists t :: t in reg.types && reg.types[t] == id && KeepsItsText(t, modifier)
  }

  /** Told apart by length or first character. */
  predicate FarFrom(lower: string, s: Spelling) {
    s.text != "" && lower != "" && (|s.text| > |lower| || (s.Exact? && |s.text| < |lower|) || s.text[0] != lower[0])
  }

  lemma SpelledAt(s: string, lower: string, k: nat)
    requires |s| == |lower| && (forall i :: 0 <= i < |s| ==> LowerChar(s[i]) == lower[i])
    requires k < |SPELLINGS| && SPELLINGS[k] == Exact(lower, SPELLINGS[k].id) && forall i :: 0 <= i < k ==> FarFrom(lower, SPELLINGS[i])
    ensures ScalarTypeId(s) == Some(SPELLINGS[k].id)
  {
    FirstMatchIs(lower, SPELLINGS, k);
    LowerGives(s, lower, SPELLINGS[k].id);
  }

  lemma BooleanIsRead()
    ensures ScalarTypeId("BOOLEAN") == Some(TYPE_BOOL)
  {
    SpelledAt("BOOLEAN", "boolean", 0);
  }

  lemma SmallintIsRead()
    ensures ScalarTypeId("SMALLINT") == Some(TYPE_INT2)
  {
    SpelledAt("SMALLINT", "smallint", 2);
  }

  lemma IntegerIsRead()
    ensures ScalarTypeId("INTEGER") == Some(TYPE_INT4)
  {
    SpelledAt("INTEGER", "integer", 4);
  }

  lemma BigintIsRead()
    ensures ScalarTypeId("BIGINT") == Some(TYPE_INT8)
  {
    SpelledAt("BIGINT", "bigint", 7);
  }

  lemma RealIsRead()
    ensures ScalarTypeId("REAL") == Some(TYPE_FLOAT4)
  {
    SpelledAt("REAL", "real", 9);
  }

  lemma DoubleIsRead()
    ensures ScalarTypeId("DOUBLE") == Some(TYPE_FLOAT8)
  {
    SpelledAt("DOUBLE", "double", 12);
  }

  lemma VarcharIsRead()
    ensures ScalarTypeId("VARCHAR") == Some(TYPE_VARCHAR)
  {
    SpelledAt("VARCHAR", "varchar", 17);
  }

  lemma DateIsRead()
    ensures ScalarTypeId("DATE") == Some(TYPE_DATE)
  {
    SpelledAt("DATE", "date", 21);
  }

  lemma TimeIsRead()
    ensures ScalarTypeId("TIME") == Some(TYPE_TIME)
  {
    assert "time"[1] != "text"[1];
    FirstMatchIs("time", SPELLINGS, 22);
    LowerGives("TIME", "time", TYPE_TIME);
  }

  lemma TimestampIsRead()
    ensures ScalarTypeId("TIMESTAMP") == Some(TYPE_TIMESTAMP)
  {
    StartsWithTimestamp("timestamp");
    LowerGives("TIMESTAMP", "timestamp", TYPE_TIMESTAMP);
  }

  /** The catalog's own names read back as the types they name; TEXT shares the name of VARCHAR. */
  lemma BuiltinIsRead(id: int)
    requires TYPE_BOOL <= id < TYPE_NUMERIC
    ensures ScalarTypeId(BuiltinPhysicalType(id)) == Some(if id == TYPE_TEXT then TYPE_VARCHAR else id)
  {
    BooleanIsRead();
    SmallintIsRead();
    IntegerIsRead();
    BigintIsRead();
    RealIsRead();
    DoubleIsRead();
    VarcharIsRead();
    DateIsRead();
    TimeIsRead();
    TimestampIsRead();
  }

  lemma NoDecimalNoModifier(text: string)
    requires Trim(text) == text && !IsDecimal(text)
    ensures TypeModifier(text) == -1
  {}

  lemma BuiltinHasNoModifier(id: int)
    requires TYPE_BOOL <= id < TYPE_NUMERIC
    ensures TypeModifier(BuiltinPhysicalType(id)) == -1
  {
    var text := BuiltinPhysicalType(id);
    OnlyNumericIsDecimal(id);
    TrimFixed(text);
    assert |text| == 7 ==> text[0] != 'D';
    NoDecimalNoModifier(text);
  }

  lemma FloatHasNoModifier()
    ensures TypeModifier("FLOAT") == -1
  {
    TrimFixed("FLOAT");
    assert Lower("FLOAT")[0] == 'f';
    NoDecimalNoModifier("FLOAT");
  }

  lemma DecimalReprints(types: map<string, int>, modifier: int)
    ensures Reprints(types, DuckReports(TypeWithModifier("DECIMAL", modifier)), TYPE_NUMERIC, modifier) <==> IsDecimalModifier(modifier)
  {
    DecimalIsDecimal();
    match DecodeDecimal(modifier)
    case Some((p, s)) => {
      DecimalTextIsNumeric(p, s);
      DecimalTextRoundTrip(p, s);
      assert |DecimalText(p, s)| > 8;
    }
    case None => {
      DefaultDecimal();
      DecodeInvertsEncode(18, 3);
    }
  }

  lemma EighteenThree()
    ensures DecimalText(18, 3) == "DECIMAL(18,3)"
  {
    assert Dec(18) == "18" && Dec(3) == "3";
  }

  lemma DefaultDecimal()
    ensures ScalarTypeId("DECIMAL(18,3)") == Some(TYPE_NUMERIC) && TypeModifier("DECIMAL(18,3)") == EncodeDecimal(18, 3)
  {
    EighteenThree();
    DecimalTextIsNumeric(18, 3);
    DecimalTextRoundTrip(18, 3);
  }

  lemma FloatReads()
    ensures ScalarTypeId("FLOAT") == Some(TYPE_FLOAT4)
  {
    FloatIsFloat4();
    LowerGives("FLOAT", "float", TYPE_FLOAT4);
  }

  /** What DuckDB reports for a built-in type but DECIMAL: single precision is the one it calls otherwise. */
  lemma BuiltinReported(id: int, modifier: int)
    requires TYPE_BOOL <= id < TYPE_NUMERIC
    ensures DuckReports(TypeWithModifier(BuiltinPhysicalType(id), modifier)) == if id == TYPE_FLOAT4 then "FLOAT" else BuiltinPhysicalType(id)
  {
    OnlyNumericIsDecimal(id);
    assert id != TYPE_FLOAT4 ==> BuiltinPhysicalType(id)[0] != 'R';
    assert |BuiltinPhysicalType(id)| == 7 ==> BuiltinPhysicalType(id)[0] != 'D';
  }

  lemma BuiltinReprints(types: map<string, int>, id: int, modifier: int)
    requires TYPE_BOOL <= id < TYPE_NUMERIC
    ensures Reprints(types, DuckReports(TypeWithModifier(BuiltinPhysicalType(id), modifier)), id, modifier)
       <==> id != TYPE_TEXT && modifier == -1
  {
    var text := if id == TYPE_FLOAT4 then "FLOAT" else BuiltinPhysicalType(id);
    BuiltinReported(id, modifier);
    BuiltinIsRead(id);
    FloatReads();
    FloatHasNoModifier();
    BuiltinHasNoModifier(id);
  }

  /** A scalar text, printed and reported, is still scalar, hence not a registered type. */
  lemma ScalarStaysScalar(t: string, modifier: int)
    requires ScalarTypeId(t).Some?
    ensures ScalarTypeId(DuckReports(TypeWithModifier(t, modifier))).Some?
    ensures TYPE_BOOL <= ScalarTypeId(DuckReports(TypeWithModifier(t, modifier))).value <= TYPE_NUMERIC
  {
    var text := TypeWithModifier(t, modifier);
    if text != t {
      var (p, s) := DecodeDecimal(modifier).value;
      DecimalTextIsNumeric(p, s);
    }
    FloatReads();
    DefaultDecimal();
    SpellingIdsAreBuiltin();
    MatchedIdIsBuiltin(Lower(DuckReports(text)), SPELLINGS);
  }

  lemma ComplexIsReportedAsIs(t: string)
    requires ScalarTypeId(t).None?
    ensures DuckReports(t) == t
  {
    RealIsRead();
    BareDecimalIsNumeric();
  }

  lemma BareDecimalIsNumeric()
    ensures ScalarTypeId("DECIMAL") == Some(TYPE_NUMERIC)
  {
    assert "decimal"[..7] == "decimal";
    FirstMatchIs("decimal", SPELLINGS, 15);
    LowerGives("DECIMAL", "decimal", TYPE_NUMERIC);
  }

  lemma RegisteredReprints(reg: Registry, reg1: Registry, t: string, modifier: int)
    requires RegistryOk(reg) && Grows(reg, reg1) && t in reg.types
    ensures Reprints(reg1.types, DuckReports(TypeWithModifier(t, modifier)), reg.types[t], modifier) <==> KeepsItsText(t, modifier)
  {
    var text := TypeWithModifier(t, modifier);
    if ScalarTypeId(t).Some? {
      ScalarStaysScalar(t, modifier);
    } else {
      ComplexIsReportedAsIs(t);
      if text != t {
        var (p, s) := DecodeDecimal(modifier).value;
        DecimalTextIsNumeric(p, s);
        assert DuckReports(text) == text;
      }
    }
  }

  /** The type DuckDB reports for the printed row is filed like the row. */
  ghost predicate ComesBack(reg: Registry, reg1: Registry, id: int, modifier: int) {
    PrintedType(reg, id, modifier).Some? && Reprints(reg1.types, PrintedType(reg, id, modifier).value, id, modifier)
  }

  lemma NumericPrinted(reg: Registry, modifier: int)
    requires RegistryOk(reg)
    ensures PrintedType(reg, TYPE_NUMERIC, modifier) == Some(DuckReports(TypeWithModifier("DECIMAL", modifier)))
  {
    TextOfBuiltin(reg, TYPE_NUMERIC);
    assert BuiltinPhysicalType(TYPE_NUMERIC) == "DECIMAL";
  }

  lemma NumericComesBackIff(reg: Registry, reg1: Registry, modifier: int)
    requires RegistryOk(reg) && Grows(reg, reg1)
    ensures ComesBack(reg, reg1, TYPE_NUMERIC, modifier) <==> Printable(reg, TYPE_NUMERIC, modifier)
  {
    NumericPrinted(reg, modifier);
    DecimalReprints(reg1.types, modifier);
  }

  lemma BuiltinComesBackIff(reg: Registry, reg1: Registry, id: int, modifier: int)
    requires RegistryOk(reg) && Grows(reg, reg1) && TYPE_BOOL <= id < TYPE_NUMERIC
    ensures ComesBack(reg, reg1, id, modifier) <==> Printable(reg, id, modifier)
  {
    TextOfBuiltin(reg, id);
    BuiltinReprints(reg1.types, id, modifier);
  }

  lemma RegisteredComesBackIff(reg: Registry, reg1: Registry, t: string, modifier: int)
    requires RegistryOk(reg) && Grows(reg, reg1) && t in reg.types
    ensures ComesBack(reg, reg1, reg.types[t], modifier) <==> Printable(reg, reg.types[t], modifier)
  {
    TextOfRegistered(reg, t);
    RegisteredReprints(reg, reg1, t, modifier);
    OnlyOneText(reg, t, modifier);
  }

  lemma OnlyOneText(reg: Registry, t: string, modifier: int)
    requires RegistryOk(reg) && t in reg.types
    ensures (exists u :: u in reg.types && reg.types[u] == reg.types[t] && KeepsItsText(u, modifier)) <==> KeepsItsText(t, modifier)
  {}

  lemma UnknownNeverComesBack(reg: Registry, reg1: Registry, id: int, modifier: int)
    requires RegistryOk(reg) && !(TYPE_BOOL <= id <= TYPE_NUMERIC) && forall t :: t in reg.types ==> reg.types[t] != id
    ensures !ComesBack(reg, reg1, id, modifier) && !Printable(reg, id, modifier)
  {
    TextOfNone(reg, id);
  }

  /** A row's type and modifier come back from a column created with their text exactly if they are printable. */
  lemma ComesBackIffPrintable(reg: Registry, reg1: Registry, id: int, modifier: int)
    requires RegistryOk(reg) && Grows(reg, reg1)
    ensures ComesBack(reg, reg1, id, modifier) <==> Printable(reg, id, modifier)
  {
    if id == TYPE_NUMERIC {
      NumericComesBackIff(reg, reg1, modifier);
    } else if TYPE_BOOL <= id <= TYPE_NUMERIC {
      BuiltinComesBackIff(reg, reg1, id, modifier);
    } else if t :| t in reg.types && reg.types[t] == id {
      RegisteredComesBackIff(reg, reg1, t, modifier);
    } else {
      UnknownNeverComesBack(reg, reg1, id, modifier);
    }
  }
}
