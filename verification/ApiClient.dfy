/** `services/api_client.rs` up to the query: the read-only gate, the path, the database and the statement. */
module ApiClient {
  import opened Wrappers
  import opened Text
  import opened JsonValues
  import opened SqlStatement

  const EXECUTION_DATABASE_PARAM := "execution_database"

  datatype Param = Param(name: string, ordinal: nat, xSqlType: string)

  datatype Config = Config(readOnly: bool, defaultDatabase: Option<string>)

  /** The stored operation; `description` carries the object's kind. */
  datatype Endpoint = Endpoint(path: string, description: Option<string>)

  datatype CallError =
    | ReadOnly
    | BadPath
    | NoSchema
    | BadIdentifier(ident: string)
    | DatabaseNotAString
    | BadValue(index: nat)

  function ValidateIdent(ident: string): Result<string, CallError> {
    if ValidIdent(ident) then Ok(ident) else Err(BadIdentifier(ident))
  }

  /** `trim_start_matches('/')`. */
  function TrimSlashes(path: string): string {
    if path != "" && path[0] == '/' then TrimSlashes(path[1..]) else path
  }

  function ParsePath(path: string): Result<(string, string), CallError> {
    match SplitOnce(TrimSlashes(path), '/')
    case None => Err(BadPath)
    case Some((schema, name)) =>
      if schema == "" || name == "" then Err(BadPath)
      else
        var validSchema :- ValidateIdent(schema);
        var validName :- ValidateIdent(name);
        Ok((validSchema, validName))
  }

  function ResolveExecutionDatabase(body: map<string, Json>, config: Config): Result<Option<string>, CallError> {
    if EXECUTION_DATABASE_PARAM in body then
      match AsStr(body[EXECUTION_DATABASE_PARAM])
      case None => Err(DatabaseNotAString)
      case Some(requested) =>
        var database :- ValidateIdent(requested);
        Ok(Some(database))
    else
      match config.defaultDatabase
      case None => Ok(None)
      case Some(fallback) =>
        var database :- ValidateIdent(fallback);
        Ok(Some(database))
  }

  /** The argument bound for a parameter: the caller's value, or null. */
  function Argument(body: map<string, Json>, name: string): Json {
    if name in body then body[name] else Null
  }

  function Names(params: seq<Param>): (names: seq<string>)
    ensures |names| == |params| && forall i :: 0 <= i < |params| ==> names[i] == params[i].name
  {
    seq(|params|, i requires 0 <= i < |params| => params[i].name)
  }

  /** What the text is to say for an object of this kind. */
  function FormOf(kind: Option<string>, params: seq<Param>): Form {
    match kind
    case None => Exec(Names(params))
    case Some(k) =>
      if k == "VIEW" then View
      else if IsFunctionKind(k) then FunctionCall(|params|)
      else Exec(Names(params))
  }

  /** Every argument converts, and `bound` lists the converted values in parameter order. */
  ghost predicate BindsInOrder<B(!new)>(
      params: seq<Param>, body: map<string, Json>, bind: (Json, string) -> Option<B>, bound: seq<B>)
  {
    |bound| <= |params| && forall k :: 0 <= k < |bound| ==>
      bind(Argument(body, params[k].name), params[k].xSqlType) == Some(bound[k])
  }

  // ----- what the caller passes, for specification

  /** The property `name` of the object that is the arguments' `body`. */
  ghost function Property(args: Json, name: string): Option<Json> {
    if args.Object? && "body" in args.fields && args.fields["body"].Object? && name in args.fields["body"].fields
    then Some(args.fields["body"].fields[name])
    else None
  }

  /** The caller's value for `name`, null when it passes none. */
  ghost function Passed(args: Json, name: string): Json {
    match Property(args, name) case Some(value) => value case None => Null
  }

  /**
   * `bind` stands for `json_to_param`.  A statement comes with exactly one bound value for each
   * parameter, in order, so placeholder `@P<k>` is bound to the k-th parameter's argument; it fails on
   * the first argument that does not convert, then on the first unsafe EXEC argument name.
   */
  method BuildStatement<B(!new)>(
      schema: string, name: string, kind: Option<string>, params: seq<Param>, body: map<string, Json>,
      database: Option<string>, bind: (Json, string) -> Option<B>)
    returns (result: Result<(string, seq<B>), CallError>)
    ensures match result
      case Ok((sql, bound)) =>
        && |bound| == |params|
        && (forall k :: 0 <= k < |params| ==>
              bind(if params[k].name in body then body[params[k].name] else Null, params[k].xSqlType)
                == Some(bound[k]))
        && Statement(database, schema, name, FormOf(kind, params)).WellFormed()
        && sql == StatementText(Statement(database, schema, name, FormOf(kind, params)))
      case Err(BadValue(k)) =>
        && k < |params|
        && bind(if params[k].name in body then body[params[k].name] else Null, params[k].xSqlType) == None
        && forall j :: 0 <= j < k ==>
             bind(if params[j].name in body then body[params[j].name] else Null, params[j].xSqlType) != None
      case Err(BadIdentifier(ident)) =>
        && IsWritableKind(kind)
        && (exists k :: 0 <= k < |params| && ident == params[k].name && !ValidIdent(ident)
              && forall j :: 0 <= j < k ==> ValidIdent(params[j].name))
        && forall j :: 0 <= j < |params| ==>
             bind(if params[j].name in body then body[params[j].name] else Null, params[j].xSqlType) != None
      case Err(_) => false
  {
    var qualified := QualifiedText(database, schema, name);
    var bound: seq<B> := [];
    for i := 0 to |params|
      invariant |bound| == i && BindsInOrder(params, body, bind, bound)
    {
      match bind(Argument(body, params[i].name), params[i].xSqlType)
      case None => return Err(BadValue(i));
      case Some(value) => bound := bound + [value];
    }
    if kind == Some("VIEW") {
      return Ok(("SELECT * FROM " + qualified, bound));
    }
    if kind.Some? && IsFunctionKind(kind.value) {
      var placeholders := Placeholders(1, |bound|);
      return Ok(("SELECT * FROM " + qualified + "(" + Join(placeholders, ", ") + ")", bound));
    }
    if bound == [] {
      return Ok(("EXEC " + qualified, bound));
    }
    var assignments: seq<string> := [];
    for i := 0 to |params|
      invariant |assignments| == i
      invariant forall j :: 0 <= j < i ==>
        ValidIdent(params[j].name) && assignments[j] == Assignment(params[j].name, j + 1)
    {
      if !ValidIdent(params[i].name) {
        return Err(BadIdentifier(params[i].name));
      }
      assignments := assignments + ["@" + params[i].name + " = " + Placeholder(i + 1)];
    }
    assert assignments == Assignments(Names(params), 1);
    return Ok(("EXEC " + qualified + " " + Join(assignments, ", "), bound));
  }

  /** Every passed value converts, and an EXEC's argument names are safe. */
  ghost predicate Callable<B(!new)>(
      kind: Option<string>, params: seq<Param>, args: Json, bind: (Json, string) -> Option<B>)
  {
    && (forall k :: 0 <= k < |params| ==> bind(Passed(args, params[k].name), params[k].xSqlType) != None)
    && (IsWritableKind(kind) ==> forall k :: 0 <= k < |params| ==> ValidIdent(params[k].name))
  }

  // ----- what the text gives away

  /** Read back from its text, a statement is an EXEC exactly when the object's kind counts as writable. */
  lemma ExecIffWritable(
      database: Option<string>, schema: string, name: string, kind: Option<string>, params: seq<Param>)
    requires Statement(database, schema, name, FormOf(kind, params)).WellFormed()
    ensures var text := StatementText(Statement(database, schema, name, FormOf(kind, params)));
            ReadStatement(text).Some? && (ReadStatement(text).value.form.Exec? <==> IsWritableKind(kind))
  {
    ReaderInvertsText(Statement(database, schema, name, FormOf(kind, params)));
  }

  /** The placeholders a form prints. */
  function PlaceholderCount(form: Form): nat {
    match form
    case View => 0
    case FunctionCall(n) => n
    case Exec(arguments) => |arguments|
  }

  /** The text has a placeholder for every bound value unless it is a view's that binds any. */
  lemma PlaceholdersMatchIffNotBoundView(
      database: Option<string>, schema: string, name: string, kind: Option<string>, params: seq<Param>)
    requires Statement(database, schema, name, FormOf(kind, params)).WellFormed()
    ensures var s := ReadStatement(StatementText(Statement(database, schema, name, FormOf(kind, params))));
            s.Some? && (PlaceholderCount(s.value.form) == |params| <==> kind != Some("VIEW") || params == [])
  {
    ReaderInvertsText(Statement(database, schema, name, FormOf(kind, params)));
  }

  /**
   * A bare EXEC is printed for a procedure that declares no parameters, and not for one whose parameters
   * the caller merely leaves out.
   */
  lemma BareExecIffNothingDeclared(
      database: Option<string>, schema: string, name: string, kind: Option<string>, params: seq<Param>)
    requires Statement(database, schema, name, FormOf(kind, params)).WellFormed()
    ensures var s := ReadStatement(StatementText(Statement(database, schema, name, FormOf(kind, params))));
            s.Some? && (s.value.form == Exec([]) <==> IsWritableKind(kind) && params == [])
  {
    ReaderInvertsText(Statement(database, schema, name, FormOf(kind, params)));
  }

  /** A kind that is not writable, scalar functions included, is always selected from. */
  lemma SelectsFromIffNotWritable(
      database: Option<string>, schema: string, name: string, kind: Option<string>, params: seq<Param>)
    ensures var text := StatementText(Statement(database, schema, name, FormOf(kind, params)));
            "SELECT * FROM " <= text <==> !IsWritableKind(kind)
    ensures "SELECT" <= StatementText(Statement(database, schema, name, FormOf(kind, params)))
       <==> !IsWritableKind(kind)
  {
    hide QualifiedText, Join, DoubleBrackets, IsFunctionKind;
    var text := StatementText(Statement(database, schema, name, FormOf(kind, params)));
    if IsWritableKind(kind) {
      assert text[0] == 'E' && "SELECT"[0] == 'S' && "SELECT * FROM "[0] == 'S';
    } else {
      assert "SELECT * FROM " <= text;
      assert text[..6] == "SELECT * FROM "[..6] == "SELECT";
    }
  }

  /** Two calls with the same text address the same object in the same way. */
  lemma TextIsUnambiguous(a: Statement, b: Statement)
    requires a.WellFormed() && b.WellFormed() && StatementText(a) == StatementText(b)
    ensures a == b
  {
    ReaderInvertsText(a);
    ReaderInvertsText(b);
  }

  /** The path the generator writes for an object parses into its schema and name iff both are safe identifiers. */
  lemma PathRoundTripIffSafe(schema: string, name: string)
    ensures ParsePath("/" + schema + "/" + name) == Ok((schema, name)) <==> ValidIdent(schema) && ValidIdent(name)
  {
    if ValidIdent(schema) && ValidIdent(name) {
      var path, rest := "/" + schema + "/" + name, schema + ['/'] + name;
      assert path[1..] == rest && rest[0] == schema[0];
      assert IsIdentChar(schema[0]);
      assert TrimSlashes(path) == TrimSlashes(rest) == rest;
      SplitOnceFindsFirst(schema, '/', name);
    }
  }

  predicate AllSlashes(s: string) {
    forall i :: 0 <= i < |s| ==> s[i] == '/'
  }

  lemma {:induction false} TrimSlashesLeaves(path: string) returns (slashes: string)
    ensures AllSlashes(slashes) && path == slashes + TrimSlashes(path)
    ensures TrimSlashes(path) == "" || TrimSlashes(path)[0] != '/'
  {
    slashes := "";
    if path != "" && path[0] == '/' {
      slashes := TrimSlashesLeaves(path[1..]);
      slashes := "/" + slashes;
      assert path == "/" + path[1..];
    }
  }

  lemma {:induction false} TrimSlashesDrops(slashes: string, rest: string)
    requires AllSlashes(slashes) && (rest == "" || rest[0] != '/')
    ensures TrimSlashes(slashes + rest) == rest
  {
    if slashes == "" {
      assert slashes + rest == rest;
    } else {
      assert (slashes + rest)[1..] == slashes[1..] + rest;
      TrimSlashesDrops(slashes[1..], rest);
    }
  }

  /** A path is read as a schema and a name iff it is these, safe identifiers, after any number of slashes. */
  lemma ParsePathIff(path: string, schema: string, name: string)
    ensures ParsePath(path) == Ok((schema, name))
       <==> ValidIdent(schema) && ValidIdent(name)
            && exists slashes :: AllSlashes(slashes) && path == slashes + schema + "/" + name
  {
    hide IsIdentChar;
    if ParsePath(path) == Ok((schema, name)) {
      var slashes := TrimSlashesLeaves(path);
      SplitOnceJoins(TrimSlashes(path), '/');
      assert path == slashes + schema + "/" + name;
    }
    if slashes :| AllSlashes(slashes) && path == slashes + schema + "/" + name && ValidIdent(schema) && ValidIdent(name)
    {
      SlashIsNoIdentChar(schema);
      assert path == slashes + (schema + ['/'] + name);
      TrimSlashesDrops(slashes, schema + ['/'] + name);
      SplitOnceFindsFirst(schema, '/', name);
    }
  }

  /** After its first slashes the path is a schema, a slash and a name, neither of them empty. */
  predicate HasShape(path: string, slashes: string, schema: string, name: string) {
    && AllSlashes(slashes) && schema != "" && '/' !in schema && name != ""
    && path == slashes + schema + "/" + name
  }

  /** The shape is refused iff the path does not have it. */
  lemma BadPathIff(path: string)
    ensures ParsePath(path) == Err(BadPath) <==> !exists slashes, schema, name :: HasShape(path, slashes, schema, name)
  {
    hide ParsePath, TrimSlashes, SplitOnce, HasShape;
    BadPathMeans(path);
    if slashes, schema, name :| HasShape(path, slashes, schema, name) {
      ShapedPathSplits(path, slashes, schema, name);
    }
    if ParsePath(path) != Err(BadPath) {
      var (schema, name) := SplitOnce(TrimSlashes(path), '/').value;
      var slashes := SplitPathHasShape(path, schema, name);
    }
  }

  lemma BadPathMeans(path: string)
    ensures ParsePath(path) == Err(BadPath)
       <==> match SplitOnce(TrimSlashes(path), '/')
            case None => true
            case Some((schema, name)) => schema == "" || name == ""
  {
    hide TrimSlashes, SplitOnce;
  }

  lemma SplitPathHasShape(path: string, schema: string, name: string) returns (slashes: string)
    requires SplitOnce(TrimSlashes(path), '/') == Some((schema, name)) && schema != "" && name != ""
    ensures HasShape(path, slashes, schema, name)
  {
    hide TrimSlashes, SplitOnce;
    slashes := TrimSlashesLeaves(path);
    SplitOnceJoins(TrimSlashes(path), '/');
    assert slashes + (schema + ['/'] + name) == slashes + schema + "/" + name;
  }

  lemma ShapedPathSplits(path: string, slashes: string, schema: string, name: string)
    requires HasShape(path, slashes, schema, name)
    ensures SplitOnce(TrimSlashes(path), '/') == Some((schema, name)) && schema != "" && name != ""
  {
    hide TrimSlashes, SplitOnce;
    assert path == slashes + (schema + ['/'] + name);
    assert schema[0] in schema;
    TrimSlashesDrops(slashes, schema + ['/'] + name);
    SplitOnceFindsFirst(schema, '/', name);
  }

  lemma SlashIsNoIdentChar(s: string)
    requires ValidIdent(s)
    ensures '/' !in s && s[0] != '/'
  {}

  // ----- one call

  /** What is wrong with the database a call is to run on, if anything. */
  ghost function DatabaseError(args: Json, config: Config): Option<CallError> {
    match Property(args, EXECUTION_DATABASE_PARAM)
    case Some(requested) =>
      if !requested.Str? then Some(DatabaseNotAString)
      else if !ValidIdent(requested.s) then Some(BadIdentifier(requested.s))
      else None
    case None =>
      if config.defaultDatabase.Some? && !ValidIdent(config.defaultDatabase.value)
      then Some(BadIdentifier(config.defaultDatabase.value))
      else None
  }

  /** The object the call takes its arguments from holds exactly what the caller passes. */
  lemma BodyHoldsPassed(args: Json)
    ensures forall name ::
      (name in BodyOf(args) <==> Property(args, name).Some?)
      && (name in BodyOf(args) ==> BodyOf(args)[name] == Passed(args, name))
      && (name !in BodyOf(args) ==> Passed(args, name) == Null)
  {}

  /** The requested database comes first, then the configured one; either must be a safe identifier. */
  lemma ResolvesToPassed(args: Json, config: Config)
    ensures match ResolveExecutionDatabase(BodyOf(args), config)
            case Err(error) => error != ReadOnly && DatabaseError(args, config) == Some(error)
            case Ok(database) =>
              && DatabaseError(args, config) == None
              && (database.Some? ==> ValidIdent(database.value))
              && match Property(args, EXECUTION_DATABASE_PARAM)
                 case Some(requested) => requested.Str? && database == Some(requested.s)
                 case None => database == config.defaultDatabase
  {
    BodyHoldsPassed(args);
  }

  /**
   * `execute` up to the query.  `params` is what `ordered_params` found, `None` when the operation has no
   * schema.  Whatever is prepared reads back as a statement on the object of the path; while `read_only`
   * is set it is never an EXEC.
   */
  method Prepare<B(!new)>(
      config: Config, endpoint: Endpoint, params: Option<seq<Param>>, args: Json,
      bind: (Json, string) -> Option<B>)
    returns (result: Result<(string, seq<B>), CallError>)
    ensures config.readOnly && IsWritableKind(endpoint.description) <==> result == Err(ReadOnly)
    ensures result != Err(ReadOnly) ==>
      match ParsePath(endpoint.path)
      case Err(error) => result == Err(error)
      case Ok(_) =>
        if params.None? then result == Err(NoSchema)
        else match DatabaseError(args, config)
          case Some(error) => result == Err(error)
          case None => result.Ok? <==> Callable(endpoint.description, params.value, args, bind)
    ensures result.Ok? ==>
      && params.Some? && ParsePath(endpoint.path).Ok?
      && ReadStatement(result.value.0).Some?
      && var s := ReadStatement(result.value.0).value;
         && (s.schema, s.name) == ParsePath(endpoint.path).value
         && (match Property(args, EXECUTION_DATABASE_PARAM)
             case Some(requested) => requested.Str? && s.database == Some(requested.s)
             case None => s.database == config.defaultDatabase)
         && (s.database.Some? ==> ValidIdent(s.database.value))
         && s.form == FormOf(endpoint.description, params.value)
         && (config.readOnly ==> !s.form.Exec?)
    ensures result.Ok? ==>
      && |result.value.1| == |params.value|
      && forall k :: 0 <= k < |params.value| ==>
           bind(Passed(args, params.value[k].name), params.value[k].xSqlType) == Some(result.value.1[k])
  {
    hide TrimSlashes, SplitOnce, ReadStatement, StatementText;
    hide BodyOf, ResolveExecutionDatabase, DatabaseError, Property, Passed, IsFunctionKind, QualifiedText;
    BodyHoldsPassed(args);
    ResolvesToPassed(args, config);
    if config.readOnly && IsWritableKind(endpoint.description) {
      return Err(ReadOnly);
    }
    var path := ParsePath(endpoint.path);
    if path.Err? {
      return Err(path.error);
    }
    var (schema, name) := path.value;
    if params.None? {
      return Err(NoSchema);
    }
    var body := BodyOf(args);
    var database := ResolveExecutionDatabase(body, config);
    if database.Err? {
      return Err(database.error);
    }
    result := BuildStatement(schema, name, endpoint.description, params.value, body, database.value, bind);
    if result.Ok? {
      ReaderInvertsText(Statement(database.value, schema, name, FormOf(endpoint.description, params.value)));
    }
  }

  /** The `body` object of the caller's arguments, empty when there is none. */
  function BodyOf(args: Json): map<string, Json> {
    match Get(args, "body")
    case Some(Object(fields)) => fields
    case _ => map[]
  }
}
