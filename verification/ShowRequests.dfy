/** The SHOW statements: the texts with parameter markers, the values bound to them, and the
    statement that each request is meant to make. */
module ShowRequests {
  import opened Placeholders
  import ArgumentList
  import Wrappers

  /** What a Show helper asks the server for. An empty pattern means no LIKE clause. */
  datatype Request =
    | Databases(pattern: string)
    | Schemas(catalog: string, pattern: string)
    | Tables(catalog: string, schema: string, pattern: string)
    | Columns(catalog: string, schema: string, table: string, pattern: string)
    | PrimaryKeys(catalog: string, schema: string, table: string)
    | ForeignKeys(catalog: string, schema: string, table: string, exported: bool)
    | TableGrants(catalog: string, schema: string, table: string)
    | ColumnGrants(catalog: string, schema: string, table: string)
    | Routines(catalog: string, schema: string, pattern: string, procedures: bool)
    | Parameters(catalog: string, schema: string, routine: string, arguments: seq<string>, pattern: string,
                 procedure: bool)

  /** The words in front of the names. */
  function Stem(r: Request): (s: string)
    ensures s != ""
  {
    match r
    case Databases(_) => "SHOW DATABASES"
    case Schemas(_, _) => "SHOW SCHEMAS from database "
    case Tables(_, _, _) => "SHOW TABLES from schema "
    case Columns(_, _, _, _) => "SHOW COLUMNS from table "
    case PrimaryKeys(_, _, _) => "SHOW CONSTRAINTS PRIMARY KEYS FROM TABLE "
    case ForeignKeys(_, _, _, exported) =>
      if exported then "SHOW CONSTRAINTS FOREIGN KEYS " + "EXPORTED " + "FROM TABLE "
      else "SHOW CONSTRAINTS FOREIGN KEYS " + "FROM TABLE "
    case TableGrants(_, _, _) => "SHOW GRANTS ON TABLE "
    case ColumnGrants(_, _, _) => "SHOW COLUMN GRANTS ON TABLE "
    case Routines(_, _, _, procedures) =>
      if procedures then "SHOW PROCEDURES from schema " else "SHOW FUNCTIONS from schema "
    case Parameters(_, _, _, _, _, procedure) =>
      if procedure then "SHOW PARAMETERS OF PROCEDURE " else "SHOW PARAMETERS OF FUNCTION "
  }

  /** The qualified name, part by part. */
  function Names(r: Request): seq<string> {
    match r
    case Databases(_) => []
    case Schemas(c, _) => [c]
    case Tables(c, s, _) => [c, s]
    case Columns(c, s, t, _) => [c, s, t]
    case PrimaryKeys(c, s, t) => [c, s, t]
    case ForeignKeys(c, s, t, _) => [c, s, t]
    case TableGrants(c, s, t) => [c, s, t]
    case ColumnGrants(c, s, t) => [c, s, t]
    case Routines(c, s, _, _) => [c, s]
    case Parameters(c, s, n, _, _, _) => [c, s, n]
  }

  function Pattern(r: Request): string {
    match r
    case Databases(p) => p
    case Schemas(_, p) => p
    case Tables(_, _, p) => p
    case Columns(_, _, _, p) => p
    case Routines(_, _, p, _) => p
    case Parameters(_, _, _, _, p, _) => p
    case _ => ""
  }

  /** `?`, `?.?`, `?.?.?`. */
  function DottedMarks(n: nat): string {
    if n == 0 then "" else if n == 1 then "?" else DottedMarks(n - 1) + "." + "?"
  }

  function Dotted(names: seq<string>): string {
    if names == [] then "" else if |names| == 1 then names[0]
    else Dotted(names[..|names| - 1]) + "." + names[|names| - 1]
  }

  // The statement texts, as the driver spells them out

  const SHOW_DATABASES := "SHOW DATABASES;"
  const SHOW_DATABASES_LIKE := "SHOW DATABASES LIKE ?;"
  const SHOW_SCHEMAS := "SHOW SCHEMAS from database ?;"
  const SHOW_SCHEMAS_LIKE := "SHOW SCHEMAS from database ? LIKE ?;"
  const SHOW_TABLES := "SHOW TABLES from schema ?.?;"
  const SHOW_TABLES_LIKE := "SHOW TABLES from schema ?.? LIKE ?;"
  const SHOW_COLUMNS := "SHOW COLUMNS from table ?.?.?;"
  const SHOW_COLUMNS_LIKE := "SHOW COLUMNS from table ?.?.? LIKE ?;"
  const SHOW_PRIMARY_KEYS := "SHOW CONSTRAINTS PRIMARY KEYS FROM TABLE ?.?.?;"
  const SHOW_FOREIGN_KEYS := "SHOW CONSTRAINTS FOREIGN KEYS FROM TABLE ?.?.?;"
  const SHOW_EXPORTED_KEYS := "SHOW CONSTRAINTS FOREIGN KEYS EXPORTED FROM TABLE ?.?.?;"
  const SHOW_TABLE_GRANTS := "SHOW GRANTS ON TABLE ?.?.?;"
  const SHOW_COLUMN_GRANTS := "SHOW COLUMN GRANTS ON TABLE ?.?.?;"
  const SHOW_PROCEDURES := "SHOW PROCEDURES from schema ?.?;"
  const SHOW_PROCEDURES_LIKE := "SHOW PROCEDURES from schema ?.? LIKE ?;"
  const SHOW_FUNCTIONS := "SHOW FUNCTIONS from schema ?.?;"
  const SHOW_FUNCTIONS_LIKE := "SHOW FUNCTIONS from schema ?.? LIKE ?;"
  const SHOW_PROCEDURE_PARAMETERS := "SHOW PARAMETERS OF PROCEDURE ?.?.?"
  const SHOW_FUNCTION_PARAMETERS := "SHOW PARAMETERS OF FUNCTION ?.?.?"

  /** The statement text that is prepared. */
  function Text(r: Request): (t: string)
    ensures t != ""
  {
    match r
    case Databases(p) => if p == "" then SHOW_DATABASES else SHOW_DATABASES_LIKE
    case Schemas(_, p) => if p == "" then SHOW_SCHEMAS else SHOW_SCHEMAS_LIKE
    case Tables(_, _, p) => if p == "" then SHOW_TABLES else SHOW_TABLES_LIKE
    case Columns(_, _, _, p) => if p == "" then SHOW_COLUMNS else SHOW_COLUMNS_LIKE
    case PrimaryKeys(_, _, _) => SHOW_PRIMARY_KEYS
    case ForeignKeys(_, _, _, exported) => if exported then SHOW_EXPORTED_KEYS else SHOW_FOREIGN_KEYS
    case TableGrants(_, _, _) => SHOW_TABLE_GRANTS
    case ColumnGrants(_, _, _) => SHOW_COLUMN_GRANTS
    case Routines(_, _, p, procedures) =>
      if p == "" then (if procedures then SHOW_PROCEDURES else SHOW_FUNCTIONS)
      else if procedures then SHOW_PROCEDURES_LIKE else SHOW_FUNCTIONS_LIKE
    case Parameters(_, _, _, arguments, p, procedure) =>
      ArgumentList.QueryText(RoutineBase(procedure), |arguments|, p)
  }

  /** The text in front of the argument list of a procedure or function. */
  function RoutineBase(procedure: bool): string {
    if procedure then SHOW_PROCEDURE_PARAMETERS else SHOW_FUNCTION_PARAMETERS
  }

  function Optional(pattern: string): seq<string> {
    if pattern == "" then [] else [pattern]
  }

  /** The values that are bound, in parameter order. */
  function Values(r: Request): seq<string> {
    Names(r) + (if r.Parameters? then r.arguments else []) + Optional(Pattern(r))
  }

  function Like(pattern: string): string {
    if pattern == "" then ";" else " LIKE " + pattern + ";"
  }

  /** The statement that the request stands for, every name in its place. */
  function Meaning(r: Request): string {
    Stem(r) + Dotted(Names(r)) + (if r.Parameters? then "(" + Join(r.arguments) + ")" else "") + Like(Pattern(r))
  }

  /** Every request binds as many values as its text has markers, and each value ends up in the place
      meant for it: the markers filled in order give the intended statement. */
  lemma BindsIntendedValues(r: Request)
    ensures Marks(Text(r)) == |Values(r)|
    ensures Substitute(Text(r), Values(r)) == Meaning(r)
  {
    StemHasNoMarks(r);
    TextIsMarked(r);
    if r.Parameters? {
      RoutineBound(Stem(r), Names(r), r.arguments, r.pattern);
      assert Stem(r) + Dotted(Names(r)) + ("(" + Join(r.arguments) + ")") + Like(r.pattern) == Meaning(r);
    } else {
      PlainBound(Stem(r), Names(r), Pattern(r));
      NoArguments(r);
    }
  }

  lemma NoArguments(r: Request)
    requires !r.Parameters?
    ensures Values(r) == Names(r) + Optional(Pattern(r))
    ensures Meaning(r) == Stem(r) + Dotted(Names(r)) + Like(Pattern(r))
  {
    assert Names(r) + [] == Names(r);
    assert Stem(r) + Dotted(Names(r)) + "" == Stem(r) + Dotted(Names(r));
  }

  /** Names and a pattern are bound where they belong. */
  lemma PlainBound(stem: string, names: seq<string>, pattern: string)
    requires NoMarks(stem)
    ensures var text := stem + DottedMarks(|names|) + ArgumentList.Suffix(pattern);
            && Marks(text) == |names + Optional(pattern)|
            && Substitute(text, names + Optional(pattern)) == stem + Dotted(names) + Like(pattern)
  {
    QualifiedName(stem, names);
    LikeClause(stem + DottedMarks(|names|), names, pattern);
  }

  /** The same with an argument list. */
  lemma RoutineBound(stem: string, names: seq<string>, arguments: seq<string>, pattern: string)
    requires NoMarks(stem)
    ensures var text := ArgumentList.QueryText(stem + DottedMarks(|names|), |arguments|, pattern);
            && Marks(text) == |names + arguments + Optional(pattern)|
            && Substitute(text, names + arguments + Optional(pattern))
               == stem + Dotted(names) + ("(" + Join(arguments) + ")") + Like(pattern)
  {
    QualifiedName(stem, names);
    var base := stem + DottedMarks(|names|);
    Arguments(base, names, arguments);
    LikeClause(base + "(" + MarkList(|arguments|) + ")", names + arguments, pattern);
    Parenthesized(stem + Dotted(names), Join(arguments));
  }

  lemma Parenthesized(before: string, inner: string)
    ensures before + ("(" + inner + ")") == before + "(" + inner + ")"
  {
  }

  /** The text of a request with a marker for each of its names; routine parameters follow later. */
  function Marked(r: Request): string {
    Stem(r) + DottedMarks(|Names(r)|)
  }

  /** Every text that is spelled out has one marker for each name, and one more exactly for a pattern. */
  lemma TextIsMarked(r: Request)
    ensures r.Parameters? ==> RoutineBase(r.procedure) == Marked(r)
    ensures !r.Parameters? ==> Text(r) == Marked(r) + ArgumentList.Suffix(Pattern(r))
  {
    FewMarks();
    match r
    case Databases(_) => DatabaseTexts();
    case Schemas(_, _) => SchemaTexts();
    case Tables(_, _, _) => TableTexts();
    case Columns(_, _, _, _) => ColumnTexts();
    case PrimaryKeys(_, _, _) => KeyTexts();
    case ForeignKeys(_, _, _, exported) => if exported { ExportedTexts(); } else { KeyTexts(); }
    case TableGrants(_, _, _) => GrantTexts();
    case ColumnGrants(_, _, _) => GrantTexts();
    case Routines(_, _, _, _) => RoutineTexts();
    case Parameters(_, _, _, _, _, _) => ParameterTexts();
  }

  lemma FewMarks()
    ensures DottedMarks(0) == "" && DottedMarks(1) == "?" && DottedMarks(2) == "?.?" && DottedMarks(3) == "?.?.?"
  {
    assert DottedMarks(2) == "?" + "." + "?" == "?.?";
    assert DottedMarks(3) == "?.?" + "." + "?" == "?.?.?";
  }

  lemma DatabaseTexts()
    ensures "SHOW DATABASES" + "" + ";" == SHOW_DATABASES
    ensures "SHOW DATABASES" + "" + " LIKE ?;" == SHOW_DATABASES_LIKE
  {
  }

  lemma SchemaTexts()
    ensures "SHOW SCHEMAS from database " + "?" + ";" == SHOW_SCHEMAS
    ensures "SHOW SCHEMAS from database " + "?" + " LIKE ?;" == SHOW_SCHEMAS_LIKE
  {
  }

  lemma TableTexts()
    ensures "SHOW TABLES from schema " + "?.?" + ";" == SHOW_TABLES
    ensures "SHOW TABLES from schema " + "?.?" + " LIKE ?;" == SHOW_TABLES_LIKE
  {
  }

  lemma ColumnTexts()
    ensures "SHOW COLUMNS from table " + "?.?.?" + ";" == SHOW_COLUMNS
    ensures "SHOW COLUMNS from table " + "?.?.?" + " LIKE ?;" == SHOW_COLUMNS_LIKE
  {
  }

  lemma KeyTexts()
    ensures "SHOW CONSTRAINTS PRIMARY KEYS FROM TABLE " + "?.?.?" + ";" == SHOW_PRIMARY_KEYS
    ensures "SHOW CONSTRAINTS FOREIGN KEYS " + "FROM TABLE " + "?.?.?" + ";" == SHOW_FOREIGN_KEYS
  {
  }

  lemma ExportedTexts()
    ensures "SHOW CONSTRAINTS FOREIGN KEYS " + "EXPORTED " + "FROM TABLE " + "?.?.?" + ";" == SHOW_EXPORTED_KEYS
  {
  }

  lemma GrantTexts()
    ensures "SHOW GRANTS ON TABLE " + "?.?.?" + ";" == SHOW_TABLE_GRANTS
    ensures "SHOW COLUMN GRANTS ON TABLE " + "?.?.?" + ";" == SHOW_COLUMN_GRANTS
  {
  }

  lemma RoutineTexts()
    ensures "SHOW PROCEDURES from schema " + "?.?" + ";" == SHOW_PROCEDURES
    ensures "SHOW PROCEDURES from schema " + "?.?" + " LIKE ?;" == SHOW_PROCEDURES_LIKE
    ensures "SHOW FUNCTIONS from schema " + "?.?" + ";" == SHOW_FUNCTIONS
    ensures "SHOW FUNCTIONS from schema " + "?.?" + " LIKE ?;" == SHOW_FUNCTIONS_LIKE
  {
  }

  lemma ParameterTexts()
    ensures "SHOW PARAMETERS OF PROCEDURE " + "?.?.?" == SHOW_PROCEDURE_PARAMETERS
    ensures "SHOW PARAMETERS OF FUNCTION " + "?.?.?" == SHOW_FUNCTION_PARAMETERS
  {
  }

  lemma StemHasNoMarks(r: Request)
    ensures NoMarks(Stem(r))
  {
    ListingWords();
    TableWords();
    RoutineWords();
  }

  lemma ListingWords()
    ensures NoMarks("SHOW DATABASES") && NoMarks("SHOW SCHEMAS from database ")
    ensures NoMarks("SHOW TABLES from schema ") && NoMarks("SHOW COLUMNS from table ")
  {
  }

  lemma TableWords()
    ensures NoMarks("SHOW CONSTRAINTS PRIMARY KEYS FROM TABLE ")
    ensures NoMarks("SHOW CONSTRAINTS FOREIGN KEYS ") && NoMarks("EXPORTED ") && NoMarks("FROM TABLE ")
    ensures NoMarks("SHOW GRANTS ON TABLE ") && NoMarks("SHOW COLUMN GRANTS ON TABLE ")
  {
  }

  lemma RoutineWords()
    ensures NoMarks("SHOW PROCEDURES from schema ") && NoMarks("SHOW FUNCTIONS from schema ")
    ensures NoMarks("SHOW PARAMETERS OF PROCEDURE ") && NoMarks("SHOW PARAMETERS OF FUNCTION ")
  {
  }

  lemma {:induction false} QualifiedName(stem: string, names: seq<string>)
    requires NoMarks(stem)
    ensures Marks(stem + DottedMarks(|names|)) == |names|
    ensures Substitute(stem + DottedMarks(|names|), names) == stem + Dotted(names)
  {
    if names == [] {
      PlainText(stem);
      assert stem + "" == stem;
    } else {
      var n := |names| - 1;
      var front, last := names[..n], names[n];
      assert front + [last] == names;
      OneMark(last);
      if n == 0 {
        PlainText(stem);
        SubstituteConcat(stem, "?", [], [last]);
      } else {
        QualifiedName(stem, front);
        PlainText(".");
        SubstituteConcat(stem + DottedMarks(n), ".", front, []);
        SubstituteConcat(stem + DottedMarks(n) + ".", "?", front, [last]);
        assert front + [] == front;
        assert stem + DottedMarks(n) + "." + "?" == stem + DottedMarks(n + 1);
        assert stem + Dotted(front) + "." + last == stem + Dotted(names);
      }
    }
  }

  lemma Arguments(text: string, names: seq<string>, arguments: seq<string>)
    requires Marks(text) == |names|
    ensures Marks(text + "(" + MarkList(|arguments|) + ")") == |names| + |arguments|
    ensures Substitute(text + "(" + MarkList(|arguments|) + ")", names + arguments)
            == Substitute(text, names) + "(" + Join(arguments) + ")"
  {
    PlainText("(");
    PlainText(")");
    MarkListSubstitutes(arguments);
    SubstituteConcat(text, "(", names, []);
    SubstituteConcat(text + "(", MarkList(|arguments|), names, arguments);
    SubstituteConcat(text + "(" + MarkList(|arguments|), ")", names + arguments, []);
    assert names + [] == names && names + arguments + [] == names + arguments;
  }

  lemma LikeClause(text: string, names: seq<string>, pattern: string)
    requires Marks(text) == |names|
    ensures Marks(text + ArgumentList.Suffix(pattern)) == |names| + |Optional(pattern)|
    ensures Substitute(text + ArgumentList.Suffix(pattern), names + Optional(pattern))
            == Substitute(text, names) + Like(pattern)
  {
    if pattern == "" {
      PlainText(";");
    } else {
      PlainText(";");
      MarkAfter(" LIKE ", pattern, ";", []);
      assert " LIKE " + "?" + ";" == " LIKE ?;" && [pattern] + [] == [pattern];
    }
    SubstituteConcat(text, ArgumentList.Suffix(pattern), names, Optional(pattern));
  }

  /** An accepted argument list reaches the server as it was given, up to one delimiter at its end. */
  lemma AcceptedListReachesServer(c: string, s: string, name: string, list: string, pattern: string, procedure: bool,
                                  query: string, args: seq<string>)
    requires ArgumentList.Parameterized(list, RoutineBase(procedure), pattern) == Wrappers.Ok((query, args))
    ensures var r := Parameters(c, s, name, args, pattern, procedure);
            && query == Text(r) && Marks(query) == |Values(r)|
            && (list == Join(args) || list == Join(args) + ", ")
            && Substitute(query, Values(r)) ==
               Stem(r) + Dotted([c, s, name]) + ("(" + Join(args) + ")") + Like(pattern)
  {
    ArgumentList.AcceptedList(list, RoutineBase(procedure), pattern, query, args);
    RoutineBinding(c, s, name, args, pattern, procedure);
  }

  lemma RoutineBinding(c: string, s: string, name: string, args: seq<string>, pattern: string, procedure: bool)
    ensures var r := Parameters(c, s, name, args, pattern, procedure);
            && Text(r) == ArgumentList.QueryText(RoutineBase(procedure), |args|, pattern)
            && Marks(Text(r)) == |Values(r)|
            && Substitute(Text(r), Values(r)) ==
               Stem(r) + Dotted([c, s, name]) + ("(" + Join(args) + ")") + Like(pattern)
  {
    BindsIntendedValues(Parameters(c, s, name, args, pattern, procedure));
  }
}
