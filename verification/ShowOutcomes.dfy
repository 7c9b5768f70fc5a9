/** What each Show helper yields when no driver call fails. */
module ShowOutcomes {
  import opened ServerModel
  import opened StatementHandle
  import opened Outcomes
  import opened ShowRequests
  import opened Sequences
  import LikeToRegex

  function Rejected<T>(): Outcome<T> {
    Outcome([], false)
  }

  /** What the one buffer of the database helper holds after these rows. */
  function NameBuffer(rows: seq<Row>): Value {
    if rows == [] then Text("")
    else
      match Get(rows[|rows| - 1], DatabaseName)
      case Null => NameBuffer(rows[..|rows| - 1])
      case Text(s) => Text(Cut(s, MAX_IDEN_LEN))
      case Num(n) => Num(n)
  }

  function TextOf(v: Value): string {
    match v case Text(s) => s case _ => ""
  }

  /** An entry of the catalog list. */
  datatype Catalog = Catalog(name: string)

  /** The database names as read through that buffer. */
  function DatabaseNames(rows: seq<Row>): seq<Catalog> {
    if rows == [] then [] else DatabaseNames(rows[..|rows| - 1]) + [Catalog(TextOf(NameBuffer(rows)))]
  }

  /** In single-database mode only the current database is reported, and only once. */
  function Restricted(names: seq<Catalog>, single: bool, current: Catalog): seq<Catalog> {
    if !single then names else if current in names then [current] else []
  }

  function CatalogsOutcome(server: Server, pattern: string, single: bool): Outcome<Catalog> {
    if server.current == "" then Rejected()
    else if single && pattern == "" then Outcome([Catalog(server.current)], true)
    else Outcome(Restricted(DatabaseNames(Answer(server, Databases(pattern))), single, Catalog(server.current)), true)
  }

  function SchemasOutcome(server: Server, c: string, pattern: string): Outcome<Row> {
    if c == "" then Rejected() else Outcome(Listing(server, Schemas(c, pattern)), true)
  }

  function TablesOutcome(server: Server, c: string, s: string, pattern: string): Outcome<Row> {
    if c == "" || s == "" then Rejected() else Outcome(Listing(server, Tables(c, s, pattern)), true)
  }

  function ColumnsOutcome(server: Server, c: string, s: string, t: string, pattern: string): Outcome<Row> {
    if c == "" || s == "" || t == "" then Rejected() else Outcome(Listing(server, Columns(c, s, t, pattern)), true)
  }

  function PrimaryKeysOutcome(server: Server, c: string, s: string, t: string): Outcome<Row> {
    if c == "" || s == "" || t == "" then Rejected() else Outcome(Listing(server, PrimaryKeys(c, s, t)), true)
  }

  function ForeignKeysOutcome(server: Server, c: string, s: string, t: string, exported: bool): Outcome<Row> {
    if c == "" || s == "" || t == "" then Rejected()
    else Outcome(Listing(server, ForeignKeys(c, s, t, exported)), true)
  }

  function TableGrantsOutcome(server: Server, c: string, s: string, t: string): Outcome<Row> {
    if c == "" || s == "" || t == "" then Rejected()
    else Outcome(server.byPrivilege(Listing(server, TableGrants(c, s, t))), true)
  }

  function ColumnMatcher(pattern: string): Row -> bool {
    (row: Row) => LikeToRegex.PatternMatches(NameOf(row, ColumnName), pattern)
  }

  function ColumnGrantsOutcome(server: Server, c: string, s: string, t: string, pattern: string): Outcome<Row> {
    if c == "" || s == "" || t == "" then Rejected()
    else Outcome(server.byPrivilege(Filter(Listing(server, ColumnGrants(c, s, t)), ColumnMatcher(pattern))), true)
  }

  const SQL_PT_PROCEDURE := 1
  const SQL_PT_FUNCTION := 2

  function RoutineKind(procedures: bool): int {
    if procedures then SQL_PT_PROCEDURE else SQL_PT_FUNCTION
  }

  /** Marks each record as a procedure or a function. */
  function Tagged(rows: seq<Row>, procedures: bool): seq<Row> {
    seq(|rows|, i requires 0 <= i < |rows| => rows[i][ObjectType := Num(RoutineKind(procedures))])
  }

  function RoutinesOutcome(server: Server, c: string, s: string, pattern: string, procedures: bool): Outcome<Row> {
    if c == "" || s == "" then Rejected()
    else Outcome(Tagged(Listing(server, Routines(c, s, pattern, procedures)), procedures), true)
  }

  function ParametersOutcome(server: Server, c: string, s: string, name: string, arguments: seq<string>,
                             pattern: string, procedure: bool): Outcome<Row> {
    if c == "" || s == "" || name == "" then Rejected()
    else Outcome(Listing(server, Parameters(c, s, name, arguments, pattern, procedure)), true)
  }
}
