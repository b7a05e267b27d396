/**
 * The T-SQL text of `services/api_client.rs`: identifiers, the classification of object kinds and
 * `build_statement`.  The text is compared with a lexer and parser of the statements it can print.
 */
module SqlStatement {
  import opened Wrappers
  import opened Digits
  import opened Text

  // ----- identifiers

  predicate IsIdentChar(c: char) {
    'a' <= c <= 'z' || 'A' <= c <= 'Z' || '0' <= c <= '9' || c == '_'
  }

  /** `validate_ident`. */
  predicate ValidIdent(s: string) {
    s != "" && forall i :: 0 <= i < |s| ==> IsIdentChar(s[i])
  }

  /** `replace(']', "]]")`. */
  function DoubleBrackets(s: string): string {
    if s == "" then ""
    else (if s[0] == ']' then "]]" else [s[0]]) + DoubleBrackets(s[1..])
  }

  function QuoteIdent(s: string): string {
    "[" + DoubleBrackets(s) + "]"
  }

  // ----- kinds

  predicate IsFunctionKind(kind: string) {
    EndsWith(kind, "_FUNCTION") || Contains(kind, "TABLE_VALUED_FUNCTION")
  }

  predicate IsWritableKind(kind: Option<string>) {
    match kind
    case None => true
    case Some(k) => k != "VIEW" && !IsFunctionKind(k)
  }

  /** Digits, capitals, small letters and the underscore, by their code points. */
  lemma IdentCharsByCode(c: char)
    ensures var u := c as int;
            IsIdentChar(c) <==> 48 <= u < 58 || 65 <= u < 91 || 97 <= u < 123 || u == 95
  {}

  /** A kind is a function's iff it ends in `_FUNCTION` or has `TABLE_VALUED_FUNCTION` anywhere. */
  lemma FunctionKindIff(kind: string)
    ensures IsFunctionKind(kind)
       <==> (exists stem :: kind == stem + "_FUNCTION")
            || (exists before, after :: kind == before + "TABLE_VALUED_FUNCTION" + after)
  {
    if EndsWith(kind, "_FUNCTION") {
      assert kind == kind[..|kind| - 9] + "_FUNCTION";
    }
    ContainsIff(kind, "TABLE_VALUED_FUNCTION");
    if stem :| kind == stem + "_FUNCTION" {
      assert kind[|kind| - 9..] == "_FUNCTION";
    }
  }

  lemma FunctionKindHasF(kind: string)
    requires IsFunctionKind(kind)
    ensures 'F' in kind
  {
    FunctionKindIff(kind);
    if stem :| kind == stem + "_FUNCTION" {
      assert kind[|stem| + 1] == 'F';
    } else {
      var before, after :| kind == before + "TABLE_VALUED_FUNCTION" + after;
      assert kind[|before| + 13] == 'F';
    }
  }

  /** Function kinds are read only and procedure kinds are not, whatever comes before the word. */
  lemma CatalogKinds(stem: string)
    ensures !IsWritableKind(Some("VIEW")) && !IsWritableKind(Some(stem + "_FUNCTION")) && IsWritableKind(None)
    ensures 'F' !in stem ==> IsWritableKind(Some(stem + "_STORED_PROCEDURE"))
  {
    hide IsFunctionKind;
    FunctionKindIff(stem + "_FUNCTION");
    var procedure := stem + "_STORED_PROCEDURE";
    if 'F' !in stem && IsFunctionKind(procedure) {
      FunctionKindHasF(procedure);
    }
    assert |procedure| > |"VIEW"|;
  }

  // ----- what a statement says, and its text

  datatype Form =
    | View
    | FunctionCall(placeholders: nat)
    | Exec(arguments: seq<string>)

  datatype Statement = Statement(database: Option<string>, schema: string, name: string, form: Form) {
    /** Only EXEC arguments are printed unquoted. */
    predicate WellFormed() {
      form.Exec? ==> forall i :: 0 <= i < |form.arguments| ==> ValidIdent(form.arguments[i])
    }
  }

  function Placeholder(k: nat): string {
    "@P" + ToDecimal(k)
  }

  /** `@P<first>` to `@P<first + n - 1>`. */
  function Placeholders(first: nat, n: nat): (r: seq<string>)
    ensures |r| == n
    ensures forall i :: 0 <= i < n ==> r[i] == Placeholder(first + i)
  {
    seq(n, i requires 0 <= i < n => Placeholder(first + i))
  }

  function Assignment(name: string, k: nat): string {
    "@" + name + " = " + Placeholder(k)
  }

  function Assignments(names: seq<string>, first: nat): (r: seq<string>)
    ensures |r| == |names|
    ensures forall i :: 0 <= i < |names| ==> r[i] == Assignment(names[i], first + i)
  {
    seq(|names|, i requires 0 <= i < |names| => Assignment(names[i], first + i))
  }

  function QualifiedText(database: Option<string>, schema: string, name: string): string {
    match database
    case Some(db) => QuoteIdent(db) + "." + QuoteIdent(schema) + "." + QuoteIdent(name)
    case None => QuoteIdent(schema) + "." + QuoteIdent(name)
  }

  function StatementText(s: Statement): string {
    var qualified := QualifiedText(s.database, s.schema, s.name);
    match s.form
    case View => "SELECT * FROM " + qualified
    case FunctionCall(n) => "SELECT * FROM " + qualified + "(" + Join(Placeholders(1, n), ", ") + ")"
    case Exec(arguments) =>
      if arguments == [] then "EXEC " + qualified
      else "EXEC " + qualified + " " + Join(Assignments(arguments, 1), ", ")
  }

  // ----- reading a statement

  /** The inside of a bracketed name up to its closing bracket, undoubled, and what follows it. */
  function LexBody(s: string): Option<(string, string)> {
    if s == "" then None
    else if s[0] != ']' then
      var (name, rest) :- LexBody(s[1..]);
      Some(([s[0]] + name, rest))
    else if |s| >= 2 && s[1] == ']' then
      var (name, rest) :- LexBody(s[2..]);
      Some(("]" + name, rest))
    else Some(("", s[1..]))
  }

  function LexName(s: string): Option<(string, string)> {
    var body :- StripPrefix(s, "[");
    LexBody(body)
  }

  /** Two or three bracketed names joined by points. */
  function ReadQualified(s: string): Option<(Option<string>, string, string, string)> {
    var (first, s1) :- LexName(s);
    var s2 :- StripPrefix(s1, ".");
    var (second, s3) :- LexName(s2);
    match StripPrefix(s3, ".")
    case None => Some((None, first, second, s3))
    case Some(s4) =>
      var (third, s5) :- LexName(s4);
      Some((Some(first), second, third, s5))
  }

  /** Placeholders numbered from `next`, up to a closing parenthesis that ends the text. */
  function ReadPlaceholders(s: string, next: nat): Option<nat>
    decreases |s|
  {
    var rest :- StripPrefix(s, "@P" + ToDecimal(next));
    if rest == ")" then Some(1)
    else
      var more :- StripPrefix(rest, ", ");
      var n :- ReadPlaceholders(more, next + 1);
      Some(n + 1)
  }

  function IdentRun(s: string): (n: nat)
    ensures n <= |s|
  {
    if s != "" && IsIdentChar(s[0]) then IdentRun(s[1..]) + 1 else 0
  }

  /** Named arguments bound to placeholders numbered from `next`, up to the end of the text. */
  function ReadAssignments(s: string, next: nat): Option<seq<string>>
    decreases |s|
  {
    var s1 :- StripPrefix(s, "@");
    var n := IdentRun(s1);
    var rest :- StripPrefix(s1[n..], " = @P" + ToDecimal(next));
    if n == 0 then None
    else if rest == "" then Some([s1[..n]])
    else
      var more :- StripPrefix(rest, ", ");
      var names :- ReadAssignments(more, next + 1);
      Some([s1[..n]] + names)
  }

  function ReadSelect(s: string): Option<Statement> {
    var (database, schema, name, rest) :- ReadQualified(s);
    if rest == "" then Some(Statement(database, schema, name, View))
    else if rest == "()" then Some(Statement(database, schema, name, FunctionCall(0)))
    else
      var list :- StripPrefix(rest, "(");
      var n :- ReadPlaceholders(list, 1);
      Some(Statement(database, schema, name, FunctionCall(n)))
  }

  function ReadExec(s: string): Option<Statement> {
    var (database, schema, name, rest) :- ReadQualified(s);
    if rest == "" then Some(Statement(database, schema, name, Exec([])))
    else
      var list :- StripPrefix(rest, " ");
      var arguments :- ReadAssignments(list, 1);
      Some(Statement(database, schema, name, Exec(arguments)))
  }

  function ReadStatement(s: string): Option<Statement> {
    match StripPrefix(s, "SELECT * FROM ")
    case Some(rest) => ReadSelect(rest)
    case None =>
      match StripPrefix(s, "EXEC ")
      case Some(rest) => ReadExec(rest)
      case None => None
  }

  // ----- the reader inverts the text

  predicate NoBracketAhead(rest: string) {
    rest == "" || rest[0] != ']'
  }

  lemma LexBodyStep(c: char, tail: string, name: string, rest: string)
    requires LexBody(tail) == Some((name, rest))
    ensures c != ']' ==> LexBody([c] + tail) == Some(([c] + name, rest))
    ensures LexBody("]]" + tail) == Some(("]" + name, rest))
  {
    assert ([c] + tail)[1..] == tail && ("]]" + tail)[2..] == tail;
  }

  lemma LexBodyEnds(rest: string)
    requires NoBracketAhead(rest)
    ensures LexBody("]" + rest) == Some(("", rest))
  {
    assert ("]" + rest)[1..] == rest;
  }

  lemma DoubleBracketsNext(name: string)
    ensures DoubleBrackets(name)
         == if name == "" then "" else (if name[0] == ']' then "]]" else [name[0]]) + DoubleBrackets(name[1..])
  {}

  lemma RegroupTail(a: string, b: string, c: string)
    ensures a + b + c == a + (b + c)
  {}

  lemma {:induction false} LexBodyOfQuoted(name: string, rest: string)
    requires NoBracketAhead(rest)
    ensures LexBody(DoubleBrackets(name) + ("]" + rest)) == Some((name, rest))
  {
    hide LexBody, DoubleBrackets;
    DoubleBracketsNext(name);
    if name == "" {
      assert DoubleBrackets(name) + ("]" + rest) == "]" + rest;
      LexBodyEnds(rest);
    } else {
      var c, tail := name[0], DoubleBrackets(name[1..]) + ("]" + rest);
      LexBodyOfQuoted(name[1..], rest);
      LexBodyStep(c, tail, name[1..], rest);
      assert [c] + name[1..] == name;
      RegroupTail(if c == ']' then "]]" else [c], DoubleBrackets(name[1..]), "]" + rest);
    }
  }

  /** A quoted name of any characters reads back, whatever follows but another bracket. */
  lemma LexNameOfQuoted(name: string, rest: string)
    requires NoBracketAhead(rest)
    ensures LexName(QuoteIdent(name) + rest) == Some((name, rest))
  {
    hide DoubleBrackets, LexBody;
    LexBodyOfQuoted(name, rest);
    assert QuoteIdent(name) + rest == "[" + (DoubleBrackets(name) + ("]" + rest));
    StripPrefixConcat("[", DoubleBrackets(name) + ("]" + rest));
  }

  lemma ReadTwoParts(schema: string, name: string, rest: string)
    requires NoBracketAhead(rest) && (rest == "" || rest[0] != '.')
    ensures ReadQualified(QuoteIdent(schema) + ("." + (QuoteIdent(name) + rest))) == Some((None, schema, name, rest))
  {
    LexNameOfQuoted(name, rest);
    LexNameOfQuoted(schema, "." + (QuoteIdent(name) + rest));
    StripPrefixConcat(".", QuoteIdent(name) + rest);
  }

  lemma ReadThreeParts(database: string, schema: string, name: string, rest: string)
    requires NoBracketAhead(rest)
    ensures ReadQualified(QuoteIdent(database) + ("." + (QuoteIdent(schema) + ("." + (QuoteIdent(name) + rest)))))
         == Some((Some(database), schema, name, rest))
  {
    var s2 := QuoteIdent(schema) + ("." + (QuoteIdent(name) + rest));
    LexNameOfQuoted(name, rest);
    LexNameOfQuoted(schema, "." + (QuoteIdent(name) + rest));
    LexNameOfQuoted(database, "." + s2);
    StripPrefixConcat(".", QuoteIdent(name) + rest);
    StripPrefixConcat(".", s2);
  }

  lemma ReadQualifiedText(database: Option<string>, schema: string, name: string, rest: string)
    requires NoBracketAhead(rest) && (rest == "" || rest[0] != '.')
    ensures ReadQualified(QualifiedText(database, schema, name) + rest) == Some((database, schema, name, rest))
  {
    match database
    case None =>
      Regroup2(QuoteIdent(schema), QuoteIdent(name), rest);
      ReadTwoParts(schema, name, rest);
    case Some(db) =>
      Regroup3(QuoteIdent(db), QuoteIdent(schema), QuoteIdent(name), rest);
      ReadThreeParts(db, schema, name, rest);
  }

  lemma Regroup2(a: string, b: string, rest: string)
    ensures a + "." + b + rest == a + ("." + (b + rest))
  {}

  lemma Regroup3(a: string, b: string, c: string, rest: string)
    ensures a + "." + b + "." + c + rest == a + ("." + (b + ("." + (c + rest))))
  {}

  lemma {:induction false} ReadPlaceholderList(first: nat, n: nat)
    requires n > 0
    ensures ReadPlaceholders(Join(Placeholders(first, n), ", ") + ")", first) == Some(n)
    decreases n
  {
    var parts := Placeholders(first, n);
    if n == 1 {
      StripPrefixConcat(Placeholder(first), ")");
    } else {
      assert parts[1..] == Placeholders(first + 1, n - 1);
      ReadPlaceholderList(first + 1, n - 1);
      var more := Join(parts[1..], ", ") + ")";
      assert Join(parts, ", ") + ")" == Placeholder(first) + (", " + more);
      StripPrefixConcat(Placeholder(first), ", " + more);
      StripPrefixConcat(", ", more);
    }
  }

  lemma {:induction false} IdentRunStops(name: string, rest: string)
    requires (forall i :: 0 <= i < |name| ==> IsIdentChar(name[i])) && rest != "" && !IsIdentChar(rest[0])
    ensures IdentRun(name + rest) == |name|
  {
    if name == "" {
      assert name + rest == rest;
    } else {
      assert (name + rest)[1..] == name[1..] + rest;
      IdentRunStops(name[1..], rest);
    }
  }

  lemma ReadAssignmentsUnfolds(s: string, next: nat)
    ensures ReadAssignments(s, next)
         == (var s1 :- StripPrefix(s, "@");
             var n := IdentRun(s1);
             var rest :- StripPrefix(s1[n..], " = @P" + ToDecimal(next));
             if n == 0 then None
             else if rest == "" then Some([s1[..n]])
             else
               var more :- StripPrefix(rest, ", ");
               var names :- ReadAssignments(more, next + 1);
               Some([s1[..n]] + names))
  {}

  /** One assignment is taken off the front of the list. */
  lemma ReadOneAssignment(name: string, k: nat, rest: string)
    requires ValidIdent(name)
    ensures ReadAssignments(Assignment(name, k) + rest, k)
         == if rest == "" then Some([name])
            else match StripPrefix(rest, ", ")
              case None => None
              case Some(more) =>
                match ReadAssignments(more, k + 1)
                case None => None
                case Some(names) => Some([name] + names)
  {
    hide ToDecimal, ReadAssignments, Assignment, Placeholder, StripPrefix, IdentRun;
    var binding := " = @P" + ToDecimal(k);
    AssignmentRegroups(name, k, rest);
    ReadAssignmentsUnfolds(Assignment(name, k) + rest, k);
    StripPrefixConcat("@", name + (binding + rest));
    IdentRunStops(name, binding + rest);
    assert (name + (binding + rest))[|name|..] == binding + rest && (name + (binding + rest))[..|name|] == name;
    StripPrefixConcat(binding, rest);
  }

  lemma AssignmentRegroups(name: string, k: nat, rest: string)
    ensures Assignment(name, k) + rest == "@" + (name + (" = @P" + ToDecimal(k) + rest))
  {
    hide ToDecimal;
    assert "@" + name + " = " + ("@P" + ToDecimal(k)) + rest == "@" + (name + (" = @P" + ToDecimal(k) + rest));
  }

  lemma {:induction false} ReadAssignmentList(names: seq<string>, first: nat)
    requires names != [] && forall i :: 0 <= i < |names| ==> ValidIdent(names[i])
    ensures ReadAssignments(Join(Assignments(names, first), ", "), first) == Some(names)
    decreases names
  {
    hide ReadAssignments, Assignment, StripPrefix;
    var parts := Assignments(names, first);
    if |names| == 1 {
      ReadOneAssignment(names[0], first, "");
      assert Join(parts, ", ") == Assignment(names[0], first) + "";
      assert names == [names[0]];
    } else {
      assert parts[1..] == Assignments(names[1..], first + 1);
      ReadAssignmentList(names[1..], first + 1);
      var more := Join(parts[1..], ", ");
      assert Join(parts, ", ") == Assignment(names[0], first) + (", " + more);
      ReadOneAssignment(names[0], first, ", " + more);
      StripPrefixConcat(", ", more);
      assert names == [names[0]] + names[1..];
    }
  }

  lemma PlaceholderListBegins(n: nat)
    ensures var list := Join(Placeholders(1, n), ", ");
            if n == 0 then list == "" else list != "" && list[0] == '@'
  {
    if n > 0 {
      assert Placeholders(1, n)[0][0] == '@';
    }
  }

  lemma ReadSelectText(s: Statement)
    requires !s.form.Exec?
    ensures ReadStatement(StatementText(s)) == Some(s)
  {
    hide QualifiedText, ReadQualified, ReadPlaceholders, Join;
    var qualified := QualifiedText(s.database, s.schema, s.name);
    match s.form
    case View =>
      ReadQualifiedText(s.database, s.schema, s.name, "");
      assert qualified + "" == qualified;
      StripPrefixConcat("SELECT * FROM ", qualified);
    case FunctionCall(n) =>
      var list := Join(Placeholders(1, n), ", ") + ")";
      ReadQualifiedText(s.database, s.schema, s.name, "(" + list);
      assert StatementText(s) == "SELECT * FROM " + (qualified + ("(" + list));
      StripPrefixConcat("SELECT * FROM ", qualified + ("(" + list));
      PlaceholderListBegins(n);
      if n == 0 {
        assert list == ")" && "(" + list == "()";
      } else {
        ReadPlaceholderList(1, n);
        StripPrefixConcat("(", list);
        assert ("(" + list)[1] == '@' && "()"[1] == ')';
      }
  }

  lemma ReadExecText(s: Statement)
    requires s.form.Exec? && s.WellFormed()
    ensures ReadStatement(StatementText(s)) == Some(s)
  {
    hide QualifiedText, Join, Assignments, ReadAssignments, ReadQualified;
    var qualified, arguments := QualifiedText(s.database, s.schema, s.name), s.form.arguments;
    assert StatementText(s)[0] == 'E';
    if arguments == [] {
      ReadQualifiedText(s.database, s.schema, s.name, "");
      assert qualified + "" == qualified;
      StripPrefixConcat("EXEC ", qualified);
    } else {
      var list := Join(Assignments(arguments, 1), ", ");
      ReadQualifiedText(s.database, s.schema, s.name, " " + list);
      assert StatementText(s) == "EXEC " + (qualified + (" " + list));
      StripPrefixConcat("EXEC ", qualified + (" " + list));
      ReadAssignmentList(arguments, 1);
      StripPrefixConcat(" ", list);
    }
  }

  /**
   * The text determines the statement: database, schema and name of any characters, the form, and the
   * argument names in order or their number can all be read back from it.
   */
  lemma ReaderInvertsText(s: Statement)
    requires s.WellFormed()
    ensures ReadStatement(StatementText(s)) == Some(s)
  {
    if s.form.Exec? {
      ReadExecText(s);
    } else {
      ReadSelectText(s);
    }
  }
}
