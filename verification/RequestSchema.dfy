/**
 * The parameter contract between the two languages.  `generate_openapi.py` writes an operation's
 * parameters into a JSON schema; `api_client.rs` and `sql_type.rs` read them out again.
 */
module RequestSchema {
  import opened Wrappers
  import opened Digits
  import opened Text
  import opened JsonValues
  import opened Sorting
  import opened SqlStatement
  import opened ApiClient

  // ----- the writer

  /** One row of the parameter dump. */
  datatype SqlParam = SqlParam(
    parameterName: Option<string>,
    ordinal: nat,
    isOutput: bool,
    dataType: string,
    maxLength: Option<int>,
    precision: Option<nat>,
    scale: Option<nat>,
    defaultValue: Option<Json>,
    hasDefault: bool)

  function LowerChar(c: char): char {
    if 'A' <= c <= 'Z' then (c as int - 'A' as int + 'a' as int) as char else c
  }

  function Lower(s: string): (r: string)
    ensures |r| == |s| && forall i :: 0 <= i < |s| ==> r[i] == LowerChar(s[i])
  {
    seq(|s|, i requires 0 <= i < |s| => LowerChar(s[i]))
  }

  /** ASCII capitals move up by 32 code points, and nothing else moves. */
  lemma LowerByCode(c: char)
    ensures LowerChar(c) as int == c as int + if 65 <= c as int < 91 then 32 else 0
  {}

  function IntText(n: int): string {
    if n < 0 then "-" + ToDecimal(-n) else ToDecimal(n)
  }

  const PRECISION_SCALE_TYPES := {"decimal", "numeric"}
  const SCALE_ONLY_TYPES := {"time", "datetime2", "datetimeoffset"}
  const UNICODE_STRING_TYPES := {"nvarchar", "nchar", "ntext"}
  const BYTE_LENGTH_STRING_TYPES := {"varchar", "char", "varbinary", "binary", "text", "image"}

  function FormatSqlType(dataType: string, maxLength: Option<int>, precision: Option<nat>, scale: Option<nat>): string {
    var dt := Lower(dataType);
    var digits := match scale case Some(n) => n case None => 0;
    if dt in PRECISION_SCALE_TYPES && precision.Some? then
      dataType + "(" + ToDecimal(precision.value) + "," + ToDecimal(digits) + ")"
    else if dt in SCALE_ONLY_TYPES && digits != 0 then dataType + "(" + ToDecimal(digits) + ")"
    else if dt in UNICODE_STRING_TYPES + BYTE_LENGTH_STRING_TYPES && maxLength.Some? then
      if maxLength.value == -1 then dataType + "(max)"
      else dataType + "(" + IntText(if dt in UNICODE_STRING_TYPES then maxLength.value / 2 else maxLength.value) + ")"
    else dataType
  }

  /** `SQL_TO_OPENAPI`, with its fallback. */
  function OpenApiType(dt: string): (string, Option<string>) {
    if dt in {"int", "smallint", "tinyint"} then ("integer", Some("int32"))
    else if dt == "bigint" then ("integer", Some("int64"))
    else if dt == "bit" then ("boolean", None)
    else if dt in {"decimal", "numeric", "float", "money", "smallmoney"} then ("number", Some("double"))
    else if dt == "real" then ("number", Some("float"))
    else if dt in {"datetime", "datetime2", "smalldatetime", "datetimeoffset"} then ("string", Some("date-time"))
    else if dt == "date" then ("string", Some("date"))
    else if dt == "uniqueidentifier" then ("string", Some("uuid"))
    else if dt in {"varbinary", "binary", "image"} then ("string", Some("byte"))
    else if dt == "table type" then ("array", None)
    else ("string", None)
  }

  /** `sql_type_to_schema`, then the default and the ordinal. */
  function PropertySchema(p: SqlParam): Json {
    var (oapiType, format) := OpenApiType(Lower(p.dataType));
    var schema := map["type" := Str(oapiType)]
      + (if format.Some? then map["format" := Str(format.value)] else map[])
      + (if oapiType == "array" then map["items" := Object(map["type" := Str("object")])] else map[])
      + map["x-sql-type" := Str(FormatSqlType(p.dataType, p.maxLength, p.precision, p.scale))]
      + (if p.defaultValue.Some? then map["default" := p.defaultValue.value] else map[]);
    Object(schema["x-sql-ordinal" := Number(p.ordinal)])
  }

  /** A property carries its type, its format if it has one, its default if there is one, and its ordinal. */
  lemma PropertySays(p: SqlParam)
    ensures var (oapiType, format) := OpenApiType(Lower(p.dataType));
            && Get(PropertySchema(p), "type") == Some(Str(oapiType))
            && Get(PropertySchema(p), "format") == (if format.Some? then Some(Str(format.value)) else None)
            && Get(PropertySchema(p), "default") == p.defaultValue
            && Get(PropertySchema(p), "items")
                 == (if oapiType == "array" then Some(Object(map["type" := Str("object")])) else None)
            && Get(PropertySchema(p), "x-sql-ordinal") == Some(Number(p.ordinal))
            && Get(PropertySchema(p), "x-sql-type")
                 == Some(Str(FormatSqlType(p.dataType, p.maxLength, p.precision, p.scale)))
  {
    hide OpenApiType, FormatSqlType;
    PropertyKeysDiffer();
  }

  lemma PropertyKeysDiffer()
    ensures "type" != "format" && "type" != "items" && "format" != "items" && "default" != "type"
    ensures "default" != "format" && "default" != "items"
    ensures "x-sql-type" !in {"type", "format", "items", "default"}
    ensures "x-sql-ordinal" !in {"type", "format", "items", "default", "x-sql-type"}
  {
    assert |"type"| == 4 && |"format"| == 6 && |"items"| == 5 && |"default"| == 7;
    assert |"x-sql-type"| == 10 && |"x-sql-ordinal"| == 13;
  }

  /** `lstrip("@")`. */
  function StripAt(s: string): string {
    if s != "" && s[0] == '@' then StripAt(s[1..]) else s
  }

  function EffectiveName(p: SqlParam): string {
    if p.parameterName.Some? && p.parameterName.value != "" then StripAt(p.parameterName.value)
    else "param" + ToDecimal(p.ordinal)
  }

  function Inputs(params: seq<SqlParam>): seq<SqlParam> {
    if params == [] then []
    else
      var last := params[|params| - 1];
      Inputs(params[..|params| - 1]) + if last.isOutput then [] else [last]
  }

  predicate ByOrdinal(a: SqlParam, b: SqlParam) {
    a.ordinal <= b.ordinal
  }

  function SortedInputs(params: seq<SqlParam>): seq<SqlParam> {
    Sort(Inputs(params), ByOrdinal)
  }

  /** The dict after writing the parameters one by one; a repeated name overwrites. */
  function Properties(inputs: seq<SqlParam>): map<string, Json> {
    if inputs == [] then map[]
    else
      var last := inputs[|inputs| - 1];
      Properties(inputs[..|inputs| - 1])[EffectiveName(last) := PropertySchema(last)]
  }

  function Required(inputs: seq<SqlParam>): seq<Json> {
    if inputs == [] then []
    else
      var last := inputs[|inputs| - 1];
      Required(inputs[..|inputs| - 1]) + if last.hasDefault then [] else [Str(EffectiveName(last))]
  }

  function ExecutionDatabaseSchema(foundIn: seq<string>): Json {
    Object(map[
      "type" := Str("string"),
      "description" := Str("Optional execution context; found in: " + Join(foundIn, ", ")),
      "x-sql-synthetic" := Bool(true)])
  }

  /** The reserved property is a string, marked as synthetic, and its description names the databases. */
  lemma DatabasePropertySays(foundIn: seq<string>)
    ensures var schema := ExecutionDatabaseSchema(foundIn);
            && Get(schema, "type") == Some(Str("string")) && Get(schema, "x-sql-synthetic") == Some(Bool(true))
            && exists before, after :: Get(schema, "description") == Some(Str(before + Join(foundIn, ", ") + after))
  {
    hide Join;
    assert |"type"| == 4 && |"description"| == 11 && |"x-sql-synthetic"| == 15;
    var before, names := "Optional execution context; found in: ", Join(foundIn, ", ");
    assert before + names == before + names + "";
  }

  /** And it is always there. */
  lemma DatabasePropertyIsWritten(params: seq<SqlParam>, foundIn: seq<string>)
    ensures EXECUTION_DATABASE_PARAM in Fields(params, foundIn)
    ensures Fields(params, foundIn)[EXECUTION_DATABASE_PARAM] == ExecutionDatabaseSchema(foundIn)
  {
    hide ExecutionDatabaseSchema, Properties;
  }

  /** The properties `build_request_schema` writes. */
  function Fields(params: seq<SqlParam>, foundIn: seq<string>): map<string, Json> {
    Properties(SortedInputs(params))[EXECUTION_DATABASE_PARAM := ExecutionDatabaseSchema(foundIn)]
  }

  function RequestBody(params: seq<SqlParam>, foundIn: seq<string>): Json {
    var inputs := SortedInputs(params);
    var body := map[
      "type" := Str("object"),
      "properties" := Object(Fields(params, foundIn))];
    Object(if Required(inputs) != [] then body["required" := Array(Required(inputs))] else body)
  }

  /** `build_request_schema`: the loop that fills the two collections. */
  method BuildRequestSchema(params: seq<SqlParam>, foundIn: seq<string>) returns (schema: Json)
    ensures schema == RequestBody(params, foundIn)
  {
    var inputs := SortedInputs(params);
    var properties: map<string, Json> := map[];
    var required: seq<Json> := [];
    for i := 0 to |inputs|
      invariant properties == Properties(inputs[..i])
      invariant required == Required(inputs[..i])
    {
      assert inputs[..i + 1][..i] == inputs[..i];
      var name := EffectiveName(inputs[i]);
      properties := properties[name := PropertySchema(inputs[i])];
      if !inputs[i].hasDefault {
        required := required + [Str(name)];
      }
    }
    assert inputs[..|inputs|] == inputs;
    properties := properties[EXECUTION_DATABASE_PARAM := ExecutionDatabaseSchema(foundIn)];
    var body := map["type" := Str("object"), "properties" := Object(properties)];
    if required != [] {
      body := body["required" := Array(required)];
    }
    schema := Object(body);
  }

  /** A dumped name loses its leading `@`s, and an unnamed parameter goes by its ordinal. */
  lemma {:induction false} EffectiveNameDropsAts(p: SqlParam, ats: string, name: string)
    requires p.parameterName == Some(ats + name)
    requires (forall i :: 0 <= i < |ats| ==> ats[i] == '@') && name != "" && name[0] != '@'
    ensures EffectiveName(p) == name
    decreases |ats|
  {
    if ats == "" {
      assert ats + name == name;
    } else {
      assert (ats + name)[1..] == ats[1..] + name;
      EffectiveNameDropsAts(p.(parameterName := Some(ats[1..] + name)), ats[1..], name);
    }
  }

  lemma UnnamedGoesByOrdinal(p: SqlParam)
    requires p.parameterName == None || p.parameterName == Some("")
    ensures EffectiveName(p) == "param" + ToDecimal(p.ordinal)
  {}

  function MandatoryAt(inputs: seq<SqlParam>): nat -> bool {
    (i: nat) => i < |inputs| && !inputs[i].hasDefault
  }

  lemma RequiredNext(inputs: seq<SqlParam>, n: nat)
    requires n < |inputs|
    ensures Required(inputs[..n + 1])
         == Required(inputs[..n]) + if inputs[n].hasDefault then [] else [Str(EffectiveName(inputs[n]))]
  {
    hide EffectiveName;
    assert inputs[..n + 1][..n] == inputs[..n];
  }

  /** The required names are those of the inputs without a default, in order. */
  lemma {:induction false} RequiredAreMandatory(inputs: seq<SqlParam>, n: nat) returns (at: seq<nat>)
    requires n <= |inputs|
    ensures Picks(at, n, MandatoryAt(inputs)) && |Required(inputs[..n])| == |at|
    ensures forall k :: 0 <= k < |at| ==>
      at[k] < |inputs| && Required(inputs[..n])[k] == Str(EffectiveName(inputs[at[k]]))
  {
    hide EffectiveName, Picks;
    at := [];
    if n == 0 {
      assert Picks(at, 0, MandatoryAt(inputs)) by { PicksNothing(MandatoryAt(inputs)); }
    } else {
      at := RequiredAreMandatory(inputs, n - 1);
      RequiredNext(inputs, n - 1);
      PicksNext(at, n - 1, MandatoryAt(inputs));
      at := if inputs[n - 1].hasDefault then at else at + [n - 1];
    }
  }

  /** The schema lists them, and has no list when there are none. */
  lemma RequiredIsListed(params: seq<SqlParam>, foundIn: seq<string>)
    ensures Get(RequestBody(params, foundIn), "required")
         == if Required(SortedInputs(params)) == [] then None else Some(Array(Required(SortedInputs(params))))
  {
    hide Fields, Required;
    assert |"type"| == 4 && |"required"| == 8 && |"properties"| == 10;
  }

  /** Lengths are printed in characters: half the bytes for the types that start with `n`, `max` for -1. */
  lemma LengthsAreCharacters(dataType: string, length: nat, precision: Option<nat>, scale: Option<nat>)
    ensures Lower(dataType) in {"nvarchar", "nchar", "ntext"} ==>
      && FormatSqlType(dataType, Some(2 * length), precision, scale) == dataType + "(" + ToDecimal(length) + ")"
      && FormatSqlType(dataType, Some(2 * length + 1), precision, scale) == dataType + "(" + ToDecimal(length) + ")"
    ensures Lower(dataType) in {"varchar", "char", "varbinary", "binary", "text", "image"} ==>
      FormatSqlType(dataType, Some(length), precision, scale) == dataType + "(" + ToDecimal(length) + ")"
    ensures Lower(dataType) in {"nvarchar", "nchar", "ntext", "varchar", "char", "varbinary", "binary", "text"} ==>
      && FormatSqlType(dataType, Some(-1), precision, scale) == dataType + "(max)"
      && FormatSqlType(dataType, None, precision, scale) == dataType
  {
    hide ToDecimal;
  }

  /** Only a scale above 0 is printed for the time types, and nothing for any type not named so far. */
  lemma OtherSuffixes(dataType: string, maxLength: Option<int>, precision: Option<nat>, scale: nat)
    ensures Lower(dataType) in {"time", "datetime2", "datetimeoffset"} ==>
      FormatSqlType(dataType, maxLength, precision, Some(scale))
        == if scale == 0 then dataType else dataType + "(" + ToDecimal(scale) + ")"
    ensures Lower(dataType) in {"int", "bigint", "bit", "money", "date", "datetime", "xml", "uniqueidentifier"} ==>
      FormatSqlType(dataType, maxLength, precision, Some(scale)) == dataType
  {}

  // ----- the reader

  const DEFS_PREFIX := "#/$defs/"

  function RequestProperties(inputSchema: Json): Option<map<string, Json>> {
    var properties :- Get(inputSchema, "properties");
    var bodySchema :- Get(properties, "body");
    var resolved :- ResolveRef(inputSchema, bodySchema);
    var result :- Get(resolved, "properties");
    if result.Object? then Some(result.fields) else None
  }

  function ResolveRef(inputSchema: Json, bodySchema: Json): Option<Json> {
    match Get(bodySchema, "$ref")
    case Some(Str(reference)) =>
      var name :- StripPrefix(reference, DEFS_PREFIX);
      var defs :- Get(inputSchema, "$defs");
      Get(defs, name)
    case _ => Some(bodySchema)
  }

  function ReadParam(name: string, schema: Json): Param {
    var ordinal := match Get(schema, "x-sql-ordinal") case Some(v) => AsU64(v) case None => None;
    var xSqlType := match Get(schema, "x-sql-type") case Some(v) => AsStr(v) case None => None;
    Param(
      name,
      match ordinal case Some(n) => n case None => 0,
      match xSqlType case Some(t) => t case None => "nvarchar(max)")
  }

  /** A property without annotations reads as ordinal 0 and the widest text type. */
  lemma UnannotatedReadsAsText(name: string, schema: Json)
    requires Get(schema, "x-sql-ordinal") == None && Get(schema, "x-sql-type") == None
    ensures ReadParam(name, schema) == Param(name, 0, "nvarchar(max)")
  {}

  /** A schema with no body has no parameters, and neither has one whose `$ref` leads nowhere. */
  lemma NoBodyNoParams(inputSchema: Json)
    requires match Get(inputSchema, "properties")
             case None => true
             case Some(properties) =>
               match Get(properties, "body")
               case None => true
               case Some(body) =>
                 exists reference :: Get(body, "$ref") == Some(Str(reference))
                   && (Get(inputSchema, "$defs") == None || !(DEFS_PREFIX <= reference))
    ensures RequestProperties(inputSchema) == None && OrderedParams(inputSchema, []) == []
  {}

  /** An order in which a JSON object may list its properties. */
  ghost predicate Enumerates(order: seq<string>, fields: map<string, Json>) {
    && (forall key :: key in order <==> key in fields)
    && (forall i, j :: 0 <= i < j < |order| ==> order[i] != order[j])
  }

  /** The filtered and mapped iteration over the properties. */
  function Collect(fields: map<string, Json>, order: seq<string>): seq<Param>
    requires forall i :: 0 <= i < |order| ==> order[i] in fields
  {
    if order == [] then []
    else
      var last := order[|order| - 1];
      Collect(fields, order[..|order| - 1])
      + if last == EXECUTION_DATABASE_PARAM then [] else [ReadParam(last, fields[last])]
  }

  predicate ByParamOrdinal(a: Param, b: Param) {
    a.ordinal <= b.ordinal
  }

  /** `ordered_params` on a schema whose properties are listed in the order `order`. */
  function OrderedParams(inputSchema: Json, order: seq<string>): seq<Param>
    requires match RequestProperties(inputSchema)
             case None => true
             case Some(fields) => Enumerates(order, fields)
  {
    match RequestProperties(inputSchema)
    case None => []
    case Some(fields) => Sort(Collect(fields, order), ByParamOrdinal)
  }

  // ----- how a request body reaches the reader

  function InlineSchema(body: Json): Json {
    Object(map["properties" := Object(map["body" := body])])
  }

  function RefSchema(name: string, body: Json): Json {
    Object(map[
      "properties" := Object(map["body" := Object(map["$ref" := Str(DEFS_PREFIX + name)])]),
      "$defs" := Object(map[name := body])])
  }

  /** Keys that must not be mistaken for one another. */
  lemma KeysDiffer()
    ensures "properties" != "$defs" && "properties" != "type" && "properties" != "required"
    ensures "$ref" != "properties" && "$ref" != "type" && "$ref" != "required"
  {
    assert |"properties"| == 10 && |"$defs"| == 5 && |"type"| == 4 && |"required"| == 8 && |"$ref"| == 4;
    assert "$ref"[0] != "type"[0];
  }

  lemma BodyShape(params: seq<SqlParam>, foundIn: seq<string>)
    ensures var body := RequestBody(params, foundIn);
            Get(body, "$ref") == None && Get(body, "properties") == Some(Object(Fields(params, foundIn)))
  {
    KeysDiffer();
  }

  lemma InlineBodyIsFound(body: Json, fields: map<string, Json>)
    requires Get(body, "$ref") == None && Get(body, "properties") == Some(Object(fields))
    ensures RequestProperties(InlineSchema(body)) == Some(fields)
  {}

  lemma ReferencedBodyIsFound(body: Json, name: string, fields: map<string, Json>)
    requires Get(body, "properties") == Some(Object(fields))
    ensures RequestProperties(RefSchema(name, body)) == Some(fields)
  {
    KeysDiffer();
    StripPrefixConcat(DEFS_PREFIX, name);
    assert ResolveRef(RefSchema(name, body), Object(map["$ref" := Str(DEFS_PREFIX + name)])) == Some(body);
  }

  // ----- the contract

  /** What the reader must get: the input parameters in ordinal order. */
  function Contract(inputs: seq<SqlParam>): (r: seq<Param>)
    ensures |r| == |inputs|
    ensures forall i :: 0 <= i < |r| ==> r[i] == ParamOf(inputs[i])
  {
    seq(|inputs|, i requires 0 <= i < |inputs| => ParamOf(inputs[i]))
  }

  function ParamOf(p: SqlParam): Param {
    Param(EffectiveName(p), p.ordinal, FormatSqlType(p.dataType, p.maxLength, p.precision, p.scale))
  }

  /** Input parameters that a reader can tell apart: names and ordinals distinct, the reserved name unused. */
  predicate Distinguishable(inputs: seq<SqlParam>) {
    && (forall i :: 0 <= i < |inputs| ==>
          EffectiveName(inputs[i]) != EXECUTION_DATABASE_PARAM && inputs[i].ordinal < 0x1_0000_0000_0000_0000)
    && (forall i, j :: 0 <= i < j < |inputs| ==>
          EffectiveName(inputs[i]) != EffectiveName(inputs[j]) && inputs[i].ordinal != inputs[j].ordinal)
  }

  lemma ReadParamOfSchema(p: SqlParam)
    requires p.ordinal < 0x1_0000_0000_0000_0000
    ensures ReadParam(EffectiveName(p), PropertySchema(p)) == ParamOf(p)
  {}

  lemma {:induction false} PropertyOfInput(inputs: seq<SqlParam>, i: nat)
    requires Distinguishable(inputs) && i < |inputs|
    ensures EffectiveName(inputs[i]) in Properties(inputs)
    ensures Properties(inputs)[EffectiveName(inputs[i])] == PropertySchema(inputs[i])
  {
    if i < |inputs| - 1 {
      PropertyOfInput(inputs[..|inputs| - 1], i);
      assert EffectiveName(inputs[i]) != EffectiveName(inputs[|inputs| - 1]);
    }
  }

  lemma {:induction false} InputOfProperty(inputs: seq<SqlParam>, name: string) returns (i: nat)
    requires name in Properties(inputs)
    ensures i < |inputs| && EffectiveName(inputs[i]) == name
  {
    hide EffectiveName, PropertySchema;
    if name == EffectiveName(inputs[|inputs| - 1]) {
      i := |inputs| - 1;
    } else {
      i := InputOfProperty(inputs[..|inputs| - 1], name);
    }
  }

  lemma {:induction false} CollectedFrom(fields: map<string, Json>, order: seq<string>, p: Param) returns (i: nat)
    requires forall i :: 0 <= i < |order| ==> order[i] in fields
    requires p in Collect(fields, order)
    ensures i < |order| && order[i] != EXECUTION_DATABASE_PARAM && p == ReadParam(order[i], fields[order[i]])
  {
    var init, last := order[..|order| - 1], order[|order| - 1];
    if p in Collect(fields, init) {
      i := CollectedFrom(fields, init, p);
    } else {
      i := |order| - 1;
    }
  }

  lemma {:induction false} IsCollected(fields: map<string, Json>, order: seq<string>, i: nat)
    requires forall i :: 0 <= i < |order| ==> order[i] in fields
    requires i < |order| && order[i] != EXECUTION_DATABASE_PARAM
    ensures ReadParam(order[i], fields[order[i]]) in Collect(fields, order)
  {
    if i < |order| - 1 {
      IsCollected(fields, order[..|order| - 1], i);
    }
  }

  predicate NamesDiffer(s: seq<Param>) {
    forall i, j :: 0 <= i < j < |s| ==> s[i].name != s[j].name
  }

  lemma {:induction false} CollectedNamesDiffer(fields: map<string, Json>, order: seq<string>)
    requires forall i :: 0 <= i < |order| ==> order[i] in fields
    requires forall i, j :: 0 <= i < j < |order| ==> order[i] != order[j]
    ensures NamesDiffer(Collect(fields, order))
  {
    if order != [] {
      var init, last := order[..|order| - 1], order[|order| - 1];
      CollectedNamesDiffer(fields, init);
      var r := Collect(fields, init);
      forall i | 0 <= i < |r| ensures r[i].name != last {
        var k := CollectedFrom(fields, init, r[i]);
        assert init[k] == order[k];
      }
      assert Collect(fields, order)
          == r + if last == EXECUTION_DATABASE_PARAM then [] else [ReadParam(last, fields[last])];
    }
  }

  lemma {:induction false} InputsAreParams(params: seq<SqlParam>)
    ensures forall i :: 0 <= i < |Inputs(params)| ==> Inputs(params)[i] in params && !Inputs(params)[i].isOutput
    ensures forall p :: p in params && !p.isOutput ==> p in Inputs(params)
  {
    if params != [] {
      var init := params[..|params| - 1];
      assert params == init + [params[|params| - 1]];
      InputsAreParams(init);
    }
  }

  lemma DifferentOrdinalsDifferentNames(inputs: seq<SqlParam>, a: SqlParam, b: SqlParam)
    requires Distinguishable(inputs) && a in inputs && b in inputs && a.ordinal != b.ordinal
    ensures EffectiveName(a) != EffectiveName(b)
  {
    var k :| 0 <= k < |inputs| && inputs[k] == a;
    var l :| 0 <= l < |inputs| && inputs[l] == b;
    assert k < l || l < k;
  }

  /** Sorting keeps the inputs distinguishable and puts their ordinals in strictly increasing order. */
  lemma SortedInputsAreDistinguishable(params: seq<SqlParam>)
    requires Distinguishable(Inputs(params))
    ensures Distinguishable(SortedInputs(params)) && StrictlySorted(SortedInputs(params), ByOrdinal)
  {
    var inputs, sorted := Inputs(params), SortedInputs(params);
    SortIsStrict(inputs, ByOrdinal);
    SortPermutes(inputs, ByOrdinal);
    forall i | 0 <= i < |sorted|
      ensures EffectiveName(sorted[i]) != EXECUTION_DATABASE_PARAM && sorted[i].ordinal < 0x1_0000_0000_0000_0000
    {
      assert sorted[i] in inputs;
    }
    forall i, j | 0 <= i < j < |sorted|
      ensures EffectiveName(sorted[i]) != EffectiveName(sorted[j]) && sorted[i].ordinal != sorted[j].ordinal
    {
      assert ByOrdinal(sorted[i], sorted[j]) && !ByOrdinal(sorted[j], sorted[i]);
      DifferentOrdinalsDifferentNames(inputs, sorted[i], sorted[j]);
    }
  }

  /** Everything collected is one of the contract's parameters. */
  lemma CollectedIsContracted(inputs: seq<SqlParam>, fields: map<string, Json>, order: seq<string>, p: Param)
    returns (k: nat)
    requires Distinguishable(inputs) && Enumerates(order, fields)
    requires forall name :: name != EXECUTION_DATABASE_PARAM && name in fields ==>
      name in Properties(inputs) && fields[name] == Properties(inputs)[name]
    requires p in Collect(fields, order)
    ensures k < |inputs| && p == Contract(inputs)[k]
  {
    var i := CollectedFrom(fields, order, p);
    assert order[i] in order;
    k := InputOfProperty(inputs, order[i]);
    PropertyOfInput(inputs, k);
    ReadParamOfSchema(inputs[k]);
  }

  /** Every one of the contract's parameters is collected, whatever the order of the properties. */
  lemma ContractedIsCollected(inputs: seq<SqlParam>, fields: map<string, Json>, order: seq<string>, k: nat)
    requires Distinguishable(inputs) && Enumerates(order, fields) && k < |inputs|
    requires forall name :: name != EXECUTION_DATABASE_PARAM && name in Properties(inputs) ==>
      name in fields && fields[name] == Properties(inputs)[name]
    ensures Contract(inputs)[k] in Collect(fields, order)
  {
    PropertyOfInput(inputs, k);
    ReadParamOfSchema(inputs[k]);
    var name := EffectiveName(inputs[k]);
    assert name in order;
    var i :| 0 <= i < |order| && order[i] == name;
    IsCollected(fields, order, i);
  }

  lemma ContractIsStrict(inputs: seq<SqlParam>)
    requires StrictlySorted(inputs, ByOrdinal)
    ensures StrictlySorted(Contract(inputs), ByParamOrdinal)
  {
    forall i, j | 0 <= i < j < |inputs|
      ensures Contract(inputs)[i].ordinal < Contract(inputs)[j].ordinal
    {
      assert ByOrdinal(inputs[i], inputs[j]) && !ByOrdinal(inputs[j], inputs[i]);
    }
  }

  lemma CollectedRanksDiffer(inputs: seq<SqlParam>, fields: map<string, Json>, order: seq<string>)
    requires Distinguishable(inputs) && Enumerates(order, fields)
    requires forall name :: name != EXECUTION_DATABASE_PARAM && name in fields ==>
      name in Properties(inputs) && fields[name] == Properties(inputs)[name]
    ensures RanksDiffer(Collect(fields, order), ByParamOrdinal)
  {
    var r := Collect(fields, order);
    CollectedNamesDiffer(fields, order);
    forall i, j | 0 <= i < j < |r| ensures r[i].ordinal != r[j].ordinal {
      var k := CollectedIsContracted(inputs, fields, order, r[i]);
      var l := CollectedIsContracted(inputs, fields, order, r[j]);
      assert k != l;
    }
  }

  lemma ReaderFindsContract(inputs: seq<SqlParam>, fields: map<string, Json>, order: seq<string>)
    requires Distinguishable(inputs) && StrictlySorted(inputs, ByOrdinal) && Enumerates(order, fields)
    requires forall name :: name != EXECUTION_DATABASE_PARAM ==>
      (name in fields <==> name in Properties(inputs))
      && (name in fields ==> fields[name] == Properties(inputs)[name])
    ensures Sort(Collect(fields, order), ByParamOrdinal) == Contract(inputs)
  {
    var r := Collect(fields, order);
    CollectedRanksDiffer(inputs, fields, order);
    SortIsStrict(r, ByParamOrdinal);
    SortPermutes(r, ByParamOrdinal);
    ContractIsStrict(inputs);
    forall p ensures p in Sort(r, ByParamOrdinal) <==> p in Contract(inputs) {
      if p in r {
        var k := CollectedIsContracted(inputs, fields, order, p);
      }
      if p in Contract(inputs) {
        var k :| 0 <= k < |inputs| && Contract(inputs)[k] == p;
        ContractedIsCollected(inputs, fields, order, k);
      }
    }
    StrictOrderIsUnique(Sort(r, ByParamOrdinal), Contract(inputs), ByParamOrdinal);
  }

  /**
   * Reading back what `build_request_schema` wrote, inline or behind a `$ref`, with the properties in any
   * order, gives exactly the input parameters, in ordinal order, with their types.
   */
  lemma ContractSurvivesTheSchema(params: seq<SqlParam>, foundIn: seq<string>, name: string, order: seq<string>)
    requires Distinguishable(Inputs(params))
    requires Enumerates(order, Fields(params, foundIn))
    ensures var body, inputs := RequestBody(params, foundIn), SortedInputs(params);
            && RequestProperties(InlineSchema(body)).Some? && RequestProperties(RefSchema(name, body)).Some?
            && Enumerates(order, RequestProperties(InlineSchema(body)).value)
            && Enumerates(order, RequestProperties(RefSchema(name, body)).value)
            && OrderedParams(InlineSchema(body), order) == Contract(inputs)
            && OrderedParams(RefSchema(name, body), order) == Contract(inputs)
    ensures multiset(SortedInputs(params)) == multiset(Inputs(params))
    ensures StrictlySorted(SortedInputs(params), ByOrdinal)
  {
    var fields := Fields(params, foundIn);
    BodyShape(params, foundIn);
    InlineBodyIsFound(RequestBody(params, foundIn), fields);
    ReferencedBodyIsFound(RequestBody(params, foundIn), name, fields);
    SortPermutes(Inputs(params), ByOrdinal);
    SortedInputsAreDistinguishable(params);
    ReaderFindsContract(SortedInputs(params), fields, order);
  }

  // ----- the condition is exact

  /** What the reader makes of the written schema when its properties arrive in `order`. */
  function WrittenAndRead(params: seq<SqlParam>, foundIn: seq<string>, order: seq<string>): seq<Param>
    requires Enumerates(order, Fields(params, foundIn))
  {
    BodyShape(params, foundIn);
    InlineBodyIsFound(RequestBody(params, foundIn), Fields(params, foundIn));
    OrderedParams(InlineSchema(RequestBody(params, foundIn)), order)
  }

  /** Whatever order the properties arrive in, the reader gets the inputs in ordinal order. */
  ghost predicate AlwaysReadsBack(params: seq<SqlParam>, foundIn: seq<string>) {
    forall order :: Enumerates(order, Fields(params, foundIn)) ==>
      WrittenAndRead(params, foundIn, order) == Contract(SortedInputs(params))
  }

  lemma {:induction false} EnumerateSet(keys: set<string>) returns (order: seq<string>)
    ensures (forall key :: key in order <==> key in keys)
    ensures (forall i, j :: 0 <= i < j < |order| ==> order[i] != order[j])
    decreases keys
  {
    order := [];
    if keys != {} {
      var key :| key in keys;
      var rest := EnumerateSet(keys - {key});
      order := [key] + rest;
    }
  }

  /** Some order of the properties begins with any one of them. */
  lemma OrderFrom(fields: map<string, Json>, first: string) returns (order: seq<string>)
    requires first in fields
    ensures Enumerates(order, fields) && order[0] == first
  {
    var rest := EnumerateSet(fields.Keys - {first});
    order := [first] + rest;
  }

  /** What is read first also comes first among the parameters of its ordinal. */
  lemma {:induction false} FirstReadLeads(fields: map<string, Json>, order: seq<string>)
    requires order != [] && order[0] != EXECUTION_DATABASE_PARAM
    requires forall i :: 0 <= i < |order| ==> order[i] in fields
    ensures var first := ReadParam(order[0], fields[order[0]]);
            [first] <= OfRank(Collect(fields, order), first, ByParamOrdinal)
  {
    hide ReadParam;
    var first, init, last := ReadParam(order[0], fields[order[0]]), order[..|order| - 1], order[|order| - 1];
    var collected := Collect(fields, init);
    if init == [] {
      OfRankAppend(collected, first, first, ByParamOrdinal);
    } else {
      assert init[0] == order[0];
      FirstReadLeads(fields, init);
      if last == EXECUTION_DATABASE_PARAM {
        assert collected + [] == collected;
      } else {
        OfRankAppend(collected, ReadParam(last, fields[last]), first, ByParamOrdinal);
      }
    }
  }

  /** Distinct names, not the reserved one, ordinals of 64 bits, each parameter read from its own property. */
  predicate SoundlyRead(r: seq<Param>, fields: map<string, Json>) {
    && (forall i :: 0 <= i < |r| ==>
          && r[i].name != EXECUTION_DATABASE_PARAM && r[i].ordinal < 0x1_0000_0000_0000_0000
          && r[i].name in fields && r[i] == ReadParam(r[i].name, fields[r[i].name]))
    && NamesDiffer(r)
  }

  lemma DifferentNamesDifferentParams(s: seq<Param>)
    requires NamesDiffer(s)
    ensures forall i, j :: 0 <= i < j < |s| ==> s[i] != s[j]
  {}

  lemma ReadParamsAreSound(fields: map<string, Json>, order: seq<string>)
    requires Enumerates(order, fields)
    ensures SoundlyRead(Sort(Collect(fields, order), ByParamOrdinal), fields)
  {
    hide Collect, Sort, Count;
    var collected := Collect(fields, order);
    var r := Sort(collected, ByParamOrdinal);
    SortPermutes(collected, ByParamOrdinal);
    CollectedNamesDiffer(fields, order);
    forall i | 0 <= i < |r|
      ensures r[i].name != EXECUTION_DATABASE_PARAM && r[i].ordinal < 0x1_0000_0000_0000_0000
      ensures r[i].name in fields && r[i] == ReadParam(r[i].name, fields[r[i].name])
    {
      assert r[i] in r;
      var k := CollectedFrom(fields, order, r[i]);
    }
    DifferentNamesDifferentParams(collected);
    forall i, j | 0 <= i < j < |r| ensures r[i].name != r[j].name {
      CountOfDistinct(collected, r[i]);
      SortCounts(collected, ByParamOrdinal, r[i]);
      if r[i] == r[j] {
        CountOfRepeated(r, i, j);
      }
      assert r[i] in r && r[j] in r;
    }
  }

  /** If every order reads as `contract`, each parameter leads its ordinal there, as it does in some order. */
  lemma EveryParamLeads(fields: map<string, Json>, contract: seq<Param>, p: Param)
    requires p.name in fields && p.name != EXECUTION_DATABASE_PARAM && p == ReadParam(p.name, fields[p.name])
    requires forall order :: Enumerates(order, fields) ==> Sort(Collect(fields, order), ByParamOrdinal) == contract
    ensures [p] <= OfRank(contract, p, ByParamOrdinal)
  {
    hide ReadParam, Collect, Sort, OfRank;
    var order := OrderFrom(fields, p.name);
    FirstReadLeads(fields, order);
    SortIsStable(Collect(fields, order), p, ByParamOrdinal);
  }

  /** So no two parameters can have one ordinal. */
  lemma TiesFollowTheReader(fields: map<string, Json>, contract: seq<Param>, p: Param, q: Param)
    requires p.name in fields && p.name != EXECUTION_DATABASE_PARAM && p == ReadParam(p.name, fields[p.name])
    requires q.name in fields && q.name != EXECUTION_DATABASE_PARAM && q == ReadParam(q.name, fields[q.name])
    requires forall order :: Enumerates(order, fields) ==> Sort(Collect(fields, order), ByParamOrdinal) == contract
    requires p.ordinal == q.ordinal
    ensures p == q
  {
    hide ReadParam, Collect, Sort, OfRank;
    EveryParamLeads(fields, contract, p);
    EveryParamLeads(fields, contract, q);
    SameOrdinalSameRank(contract, p, q);
    assert OfRank(contract, p, ByParamOrdinal)[0] == p && OfRank(contract, q, ByParamOrdinal)[0] == q;
  }

  lemma {:induction false} SameOrdinalSameRank(s: seq<Param>, x: Param, y: Param)
    requires x.ordinal == y.ordinal
    ensures OfRank(s, x, ByParamOrdinal) == OfRank(s, y, ByParamOrdinal)
  {
    if s != [] {
      SameOrdinalSameRank(s[..|s| - 1], x, y);
    }
  }

  /** Sorted inputs can be told apart only if the inputs could. */
  lemma UnsortedAreDistinguishable(params: seq<SqlParam>)
    requires Distinguishable(SortedInputs(params))
    ensures Distinguishable(Inputs(params))
  {
    hide EffectiveName, Inputs, Sort;
    var inputs, sorted := Inputs(params), SortedInputs(params);
    SortPermutes(inputs, ByOrdinal);
    forall i | 0 <= i < |inputs|
      ensures EffectiveName(inputs[i]) != EXECUTION_DATABASE_PARAM && inputs[i].ordinal < 0x1_0000_0000_0000_0000
    {
      assert inputs[i] in sorted;
    }
    forall i, j | 0 <= i < j < |inputs|
      ensures EffectiveName(inputs[i]) != EffectiveName(inputs[j]) && inputs[i].ordinal != inputs[j].ordinal
    {
      CountOfDistinct(sorted, inputs[i]);
      SortCounts(inputs, ByOrdinal, inputs[i]);
      if inputs[i] == inputs[j] {
        CountOfRepeated(inputs, i, j);
      }
      assert inputs[i] in sorted && inputs[j] in sorted;
      var k :| 0 <= k < |sorted| && sorted[k] == inputs[i];
      var l :| 0 <= l < |sorted| && sorted[l] == inputs[j];
      assert k < l || l < k;
    }
  }

  lemma WrittenAndReadIsSorted(params: seq<SqlParam>, foundIn: seq<string>, order: seq<string>)
    requires Enumerates(order, Fields(params, foundIn))
    ensures WrittenAndRead(params, foundIn, order)
         == Sort(Collect(Fields(params, foundIn), order), ByParamOrdinal)
  {
    BodyShape(params, foundIn);
    InlineBodyIsFound(RequestBody(params, foundIn), Fields(params, foundIn));
  }

  lemma OnlyDistinguishableReadBack(params: seq<SqlParam>, foundIn: seq<string>)
    requires AlwaysReadsBack(params, foundIn)
    ensures Distinguishable(SortedInputs(params))
  {
    hide Fields, WrittenAndRead, ReadParam, Collect, Sort, SortedInputs, EffectiveName, FormatSqlType;
    var fields, contract := Fields(params, foundIn), Contract(SortedInputs(params));
    forall order | Enumerates(order, fields) ensures Sort(Collect(fields, order), ByParamOrdinal) == contract {
      WrittenAndReadIsSorted(params, foundIn, order);
    }
    ReadContractIsDistinguishable(SortedInputs(params), fields);
  }

  lemma ReadContractIsDistinguishable(inputs: seq<SqlParam>, fields: map<string, Json>)
    requires forall order :: Enumerates(order, fields) ==>
      Sort(Collect(fields, order), ByParamOrdinal) == Contract(inputs)
    ensures Distinguishable(inputs)
  {
    hide ReadParam, Collect, Sort, EffectiveName, FormatSqlType;
    var contract: seq<Param> := Contract(inputs);
    var order := EnumerateSet(fields.Keys);
    assert Enumerates(order, fields);
    ReadParamsAreSound(fields, order);
    assert SoundlyRead(contract, fields);
    forall i | 0 <= i < |inputs|
      ensures EffectiveName(inputs[i]) != EXECUTION_DATABASE_PARAM && inputs[i].ordinal < 0x1_0000_0000_0000_0000
    {
      assert contract[i] == ParamOf(inputs[i]);
    }
    forall i, j | 0 <= i < j < |inputs|
      ensures EffectiveName(inputs[i]) != EffectiveName(inputs[j]) && inputs[i].ordinal != inputs[j].ordinal
    {
      assert contract[i] == ParamOf(inputs[i]) && contract[j] == ParamOf(inputs[j]);
      if contract[i].ordinal == contract[j].ordinal {
        TiesFollowTheReader(fields, contract, contract[i], contract[j]);
      }
    }
  }

  /**
   * The parameters survive every order of the properties if and only if the inputs' names and ordinals
   * are distinct, the reserved name is unused and the ordinals fit 64 bits.
   */
  lemma ReadsBackIffDistinguishable(params: seq<SqlParam>, foundIn: seq<string>)
    ensures AlwaysReadsBack(params, foundIn) <==> Distinguishable(Inputs(params))
  {
    if Distinguishable(Inputs(params)) {
      forall order | Enumerates(order, Fields(params, foundIn))
        ensures WrittenAndRead(params, foundIn, order) == Contract(SortedInputs(params))
      {
        ContractSurvivesTheSchema(params, foundIn, "", order);
      }
    }
    if AlwaysReadsBack(params, foundIn) {
      OnlyDistinguishableReadBack(params, foundIn);
      UnsortedAreDistinguishable(params);
    }
  }

  /**
   * From the parameter dump to the call: for every object that is not a view, the k-th placeholder is the
   * k-th input parameter in ordinal order, named as dumped for EXEC, and bound to the caller's value for it
   * under its dumped type.
   */
  method CallGenerated<B(!new)>(
      params: seq<SqlParam>, foundIn: seq<string>, order: seq<string>,
      config: Config, endpoint: Endpoint, args: Json, bind: (Json, string) -> Option<B>)
    returns (result: Result<(string, seq<B>), CallError>)
    requires Distinguishable(Inputs(params))
    requires Enumerates(order, Fields(params, foundIn))
    ensures result.Ok? ==>
      var (sql, bound) := result.value;
      var inputs := SortedInputs(params);
      && |bound| == |inputs|
      && (forall k :: 0 <= k < |inputs| ==>
            bind(Passed(args, EffectiveName(inputs[k])),
                 FormatSqlType(inputs[k].dataType, inputs[k].maxLength, inputs[k].precision, inputs[k].scale))
              == Some(bound[k]))
      && ReadStatement(sql).Some?
      && match ReadStatement(sql).value.form
         case View => endpoint.description == Some("VIEW")
         case FunctionCall(n) => n == |inputs|
         case Exec(arguments) =>
           |arguments| == |inputs| && forall k :: 0 <= k < |inputs| ==> arguments[k] == EffectiveName(inputs[k])
  {
    var contract := WriteAndRead(params, foundIn, order);
    result := Prepare(config, endpoint, Some(contract), args, bind);
    if result.Ok? {
      FormOfContract(endpoint.description, SortedInputs(params));
      BoundToContract(SortedInputs(params), args, bind, result.value.1);
    }
  }

  method WriteAndRead(params: seq<SqlParam>, foundIn: seq<string>, order: seq<string>) returns (contract: seq<Param>)
    requires Distinguishable(Inputs(params))
    requires Enumerates(order, Fields(params, foundIn))
    ensures contract == Contract(SortedInputs(params))
  {
    var body := BuildRequestSchema(params, foundIn);
    ContractSurvivesTheSchema(params, foundIn, "", order);
    contract := OrderedParams(InlineSchema(body), order);
  }

  lemma FormOfContract(kind: Option<string>, inputs: seq<SqlParam>)
    ensures match FormOf(kind, Contract(inputs))
            case View => kind == Some("VIEW")
            case FunctionCall(n) => n == |inputs|
            case Exec(arguments) =>
              |arguments| == |inputs| && forall k :: 0 <= k < |inputs| ==> arguments[k] == EffectiveName(inputs[k])
  {}

  lemma BoundToContract<B(!new)>(
      inputs: seq<SqlParam>, args: Json, bind: (Json, string) -> Option<B>, bound: seq<B>)
    requires |bound| == |inputs|
    requires forall k :: 0 <= k < |inputs| ==>
      bind(Passed(args, Contract(inputs)[k].name), Contract(inputs)[k].xSqlType) == Some(bound[k])
    ensures forall k :: 0 <= k < |inputs| ==>
      bind(Passed(args, EffectiveName(inputs[k])),
           FormatSqlType(inputs[k].dataType, inputs[k].maxLength, inputs[k].precision, inputs[k].scale))
        == Some(bound[k])
  {
    forall k | 0 <= k < |inputs|
      ensures bind(Passed(args, EffectiveName(inputs[k])),
                   FormatSqlType(inputs[k].dataType, inputs[k].maxLength, inputs[k].precision, inputs[k].scale))
                == Some(bound[k])
    {
      assert Contract(inputs)[k] == ParamOf(inputs[k]);
    }
  }

  // ----- types

  function BaseType(xSqlType: string): string {
    var head := match SplitOnce(xSqlType, '(') case Some((before, _)) => before case None => xSqlType;
    Lower(Trim(head))
  }

  /** `str::parse::<u8>`. */
  function ParseU8(s: string): Option<nat> {
    var digits := if s != "" && s[0] == '+' then s[1..] else s;
    if digits != "" && AllDigits(digits) && Value(digits) < 256 then Some(Value(digits)) else None
  }

  function OrElse(parsed: Option<nat>, default: nat): nat {
    match parsed case Some(n) => n case None => default
  }

  /** The text before the first comma and the text between the first and the second. */
  function FirstTwo(inner: string): (string, Option<string>) {
    match SplitOnce(inner, ',')
    case None => (inner, None)
    case Some((first, rest)) =>
      match SplitOnce(rest, ',')
      case None => (first, Some(rest))
      case Some((second, _)) => (first, Some(second))
  }

  function PrecisionScale(xSqlType: string): (nat, nat) {
    match SplitOnce(xSqlType, '(')
    case None => (18, 0)
    case Some((_, rest)) =>
      if !EndsWith(rest, ")") then (18, 0)
      else
        var (first, second) := FirstTwo(rest[..|rest| - 1]);
        (OrElse(ParseU8(Trim(first)), 18),
         if second.None? then 0 else OrElse(ParseU8(Trim(second.value)), 0))
  }

  lemma {:induction false} TrimOfSolid(s: string)
    requires forall i :: 0 <= i < |s| ==> !IsWhitespace(s[i])
    ensures Trim(s) == s
  {}

  lemma ParseU8OfDecimal(n: nat)
    ensures ParseU8(Trim(ToDecimal(n))) == if n < 256 then Some(n) else None
  {
    ValueOfDecimal(n);
    TrimOfSolid(ToDecimal(n));
    assert IsDigit(ToDecimal(n)[0]);
  }

  /** A name that lower-cases to a precision type consists of letters. */
  lemma PrecisionTypeIsLetters(dataType: string)
    requires Lower(dataType) in PRECISION_SCALE_TYPES
    ensures '(' !in dataType && forall i :: 0 <= i < |dataType| ==> !IsWhitespace(dataType[i])
  {
    forall i | 0 <= i < |dataType| ensures dataType[i] != '(' && !IsWhitespace(dataType[i]) {
      assert Lower(dataType)[i] == LowerChar(dataType[i]);
      assert 'a' <= Lower(dataType)[i] <= 'z';
    }
  }

  lemma SplitsAtParenthesis(dataType: string, inner: string)
    requires '(' !in dataType
    ensures SplitOnce(dataType + "(" + inner + ")", '(') == Some((dataType, inner + ")"))
    ensures EndsWith(inner + ")", ")") && (inner + ")")[..|inner + ")"| - 1] == inner
  {
    assert dataType + "(" + inner + ")" == dataType + ['('] + (inner + ")");
    SplitOnceFindsFirst(dataType, '(', inner + ")");
  }

  lemma FirstTwoOfPair(first: string, second: string)
    requires ',' !in first && ',' !in second
    ensures FirstTwo(first + "," + second) == (first, Some(second))
  {
    assert first + "," + second == first + [','] + second;
    SplitOnceFindsFirst(first, ',', second);
    SplitOnceFindsNone(second, ',');
  }

  /** A formatted type is its name, possibly with a parenthesis after it; a name that gets one has none of its own. */
  lemma FormattedShape(dataType: string, maxLength: Option<int>, precision: Option<nat>, scale: Option<nat>)
    returns (suffix: string)
    ensures FormatSqlType(dataType, maxLength, precision, scale) == dataType + suffix
    ensures suffix == "" || (suffix[0] == '(' && '(' !in dataType)
  {
    var text := FormatSqlType(dataType, maxLength, precision, scale);
    suffix := text[|dataType|..];
    if text == dataType {
      assert dataType + "" == dataType;
    } else {
      SuffixedTypeIsLetters(dataType);
    }
  }

  lemma SuffixedTypeIsLetters(dataType: string)
    requires Lower(dataType)
          in PRECISION_SCALE_TYPES + SCALE_ONLY_TYPES + UNICODE_STRING_TYPES + BYTE_LENGTH_STRING_TYPES
    ensures '(' !in dataType
  {
    forall i | 0 <= i < |dataType| ensures dataType[i] != '(' {
      assert Lower(dataType)[i] == LowerChar(dataType[i]);
      assert Lower(dataType)[i] != '(';
    }
  }

  /**
   * Whatever lengths, precisions and scales are printed after it, the reader recovers the type's name in
   * lower case if and only if the name has no parenthesis and no surrounding white space.
   */
  lemma BaseTypeReadsBackIff(dataType: string, maxLength: Option<int>, precision: Option<nat>, scale: Option<nat>)
    ensures BaseType(FormatSqlType(dataType, maxLength, precision, scale)) == Lower(dataType)
       <==> '(' !in dataType && Trim(dataType) == dataType
  {
    hide FormatSqlType, Trim;
    var suffix := FormattedShape(dataType, maxLength, precision, scale);
    if '(' in dataType {
      SplitOnceWithin(dataType, suffix, '(');
      TrimShortens(SplitOnce(dataType + suffix, '(').value.0);
    } else {
      TrimShortens(dataType);
      if suffix == "" {
        assert dataType + suffix == dataType;
        SplitOnceFindsNone(dataType, '(');
      } else {
        assert dataType + suffix == dataType + ['('] + suffix[1..];
        SplitOnceFindsFirst(dataType, '(', suffix[1..]);
      }
    }
  }

  // ----- the declared JSON type and what the binding takes

  /** The JSON shapes that `json_to_param` reads for a base type, before it looks at ranges and formats. */
  predicate TakesShape(base: string, value: Json) {
    if base == "bit" then value.Null? || value.Bool?
    else if base in {"tinyint", "smallint", "int", "bigint", "real", "float"} then value.Null? || value.Number?
    else if base in {"decimal", "numeric", "money", "smallmoney"} then value.Null? || value.Str? || value.Number?
    else if base in {"uniqueidentifier", "date", "time", "datetime", "datetime2", "smalldatetime", "datetimeoffset",
                     "binary", "varbinary", "image", "rowversion", "timestamp"} then value.Null? || value.Str?
    else true
  }

  /** Values of an OpenAPI type. */
  predicate IsOfType(value: Json, oapiType: string) {
    match value
    case Null => false
    case Bool(_) => oapiType == "boolean"
    case Number(_) => oapiType == "integer" || oapiType == "number"
    case Str(_) => oapiType == "string"
    case Array(_) => oapiType == "array"
    case Object(_) => oapiType == "object"
  }

  /**
   * For every type whose name can be read back, the binding takes any value of the type that the schema
   * declares; where it is choosy, it takes nothing else, but null, and text for the exact decimals.
   */
  lemma DeclaredShapesAreTaken(p: SqlParam, value: Json)
    requires '(' !in p.dataType && Trim(p.dataType) == p.dataType
    ensures var declared := OpenApiType(Lower(p.dataType)).0;
            var base := BaseType(FormatSqlType(p.dataType, p.maxLength, p.precision, p.scale));
            && (IsOfType(value, declared) ==> TakesShape(base, value))
            && (TakesShape(base, value) && (exists v :: !TakesShape(base, v)) ==>
                  value.Null? || IsOfType(value, declared) || (value.Str? && declared == "number"))
  {
    hide FormatSqlType, BaseType, Trim;
    BaseTypeReadsBackIff(p.dataType, p.maxLength, p.precision, p.scale);
  }

  /** The formats that go with the declared types. */
  lemma FormatsFollowTypes(dt: string)
    ensures var (oapiType, format) := OpenApiType(dt);
            && (oapiType == "integer" ==> format == Some(if dt == "bigint" then "int64" else "int32"))
            && (oapiType == "number" ==> format == Some(if dt == "real" then "float" else "double"))
            && (oapiType == "boolean" || oapiType == "array" ==> format == None)
            && (format == Some("date-time") <==> dt in {"datetime", "datetime2", "smalldatetime", "datetimeoffset"})
            && (format == Some("date") <==> dt == "date") && (format == Some("uuid") <==> dt == "uniqueidentifier")
            && (format == Some("byte") <==> dt in {"varbinary", "binary", "image"})
  {}

  /**
   * For decimal and numeric, in any case of letters, the reader recovers the base type, and the precision
   * and scale if and only if both fit a byte.
   */
  lemma TypeTextReadsBack(dataType: string, maxLength: Option<int>, precision: nat, scale: nat)
    requires Lower(dataType) in PRECISION_SCALE_TYPES
    ensures var text := FormatSqlType(dataType, maxLength, Some(precision), Some(scale));
            && BaseType(text) == Lower(dataType)
            && (PrecisionScale(text) == (precision, scale) <==> precision < 256 && scale < 256)
  {
    var inner := ToDecimal(precision) + "," + ToDecimal(scale);
    assert FormatSqlType(dataType, maxLength, Some(precision), Some(scale)) == dataType + "(" + inner + ")";
    PrecisionTypeIsLetters(dataType);
    TrimOfSolid(dataType);
    SplitsAtParenthesis(dataType, inner);
    FirstTwoOfPair(ToDecimal(precision), ToDecimal(scale));
    ParseU8OfDecimal(precision);
    ParseU8OfDecimal(scale);
  }

  /** A precision alone means scale 0, and without a closing parenthesis nothing is read. */
  lemma PrecisionAlone(dataType: string, precision: nat, inner: string)
    requires '(' !in dataType
    ensures PrecisionScale(dataType + "(" + ToDecimal(precision) + ")")
         == (if precision < 256 then precision else 18, 0)
    ensures !EndsWith(inner, ")") ==> PrecisionScale(dataType + "(" + inner) == (18, 0)
  {
    hide ToDecimal, Trim, ParseU8;
    var digits := ToDecimal(precision);
    SplitsAtParenthesis(dataType, digits);
    NoCommaInDigits(digits);
    SplitOnceFindsNone(digits, ',');
    ParseU8OfDecimal(precision);
    assert dataType + "(" + inner == dataType + ['('] + inner;
    SplitOnceFindsFirst(dataType, '(', inner);
  }

  lemma NoCommaInDigits(digits: string)
    requires AllDigits(digits)
    ensures ',' !in digits
  {}

  /** Without a declared precision both sides fall back to SQL Server's default. */
  lemma BareTypeReadsBack(dataType: string, maxLength: Option<int>, scale: Option<nat>)
    requires Lower(dataType) in PRECISION_SCALE_TYPES
    ensures var text := FormatSqlType(dataType, maxLength, None, scale);
            BaseType(text) == Lower(dataType) && PrecisionScale(text) == (18, 0)
  {
    hide Trim, SplitOnce, Lower;
    PrecisionTypeIsLetters(dataType);
    TrimOfSolid(dataType);
    SplitOnceFindsNone(dataType, '(');
  }
}
