/** The server as the driver sees it: a function from prepared text and bound values to result rows,
    and the connection's current database. */
module ServerModel {
  import opened Wrappers
  import opened ShowRequests

  /** Names of result columns and of the fields of the driver's result records. */
  datatype Column =
    | DatabaseName | SchemaName | TableName | TableType | Remarks | Owner | LastAlteredTime | LastModifiedTime
    | DistStyle | TableSubtype | ColumnName | OrdinalPosition | ColumnDefault | IsNullable | DataType
    | CharacterMaximumLength | NumericPrecision | NumericScale | SortKeyType | SortKey | DistKey | Encoding
    | Collation | KeySeq | PkName | PkDatabaseName | PkSchemaName | PkTableName | PkColumnName | FkDatabaseName
    | FkSchemaName | FkTableName | FkColumnName | UpdateRule | DeleteRule | FkName | Deferrability | ObjectName
    | GrantorName | IdentityName | PrivilegeType | AdminOption | ProcedureName | FunctionName | ArgumentList
    | ParameterName | ParameterType | ObjectType | RoutineName

  datatype Value = Null | Text(text: string) | Num(n: int)

  type Row = map<Column, Value>

  function Get(row: Row, c: Column): Value {
    if c in row then row[c] else Null
  }

  /** `value_or("")` of a string field. */
  function NameOf(row: Row, c: Column): string {
    match Get(row, c) case Text(s) => s case _ => ""
  }

  datatype ReturnCode = Success | SuccessWithInfo | NoData | Error | InvalidHandle {
    predicate Succeeded() {
      Success? || SuccessWithInfo?
    }
  }

  /** A result column, the record field it fills, and the size of the buffer bound to it. */
  datatype ColumnBinding = ColumnBinding(source: Column, field: Column, capacity: pos)

  type pos = n: nat | n > 0 witness 1

  ghost predicate Permutes(f: seq<Row> -> seq<Row>) {
    forall rows: seq<Row> :: multiset(f(rows)) == multiset(rows)
  }

  /** A rearrangement of rows. */
  type Rearrangement = f: seq<Row> -> seq<Row> | Permutes(f) witness (rows: seq<Row>) => rows

  /** `answer` is the complete result of executing a text with values; the two orders stand for
      `std::sort` with the two comparisons the driver uses, which leaves the order of equal elements
      open. */
  datatype Server = Server(
    current: string,
    answer: (string, seq<string>) -> seq<Row>,
    byPrivilege: Rearrangement,
    byRoutineName: Rearrangement)

  const NAMEDATALEN: pos := 128
  const MAX_IDEN_LEN: pos := 129

  function Same(c: Column, capacity: pos): ColumnBinding {
    ColumnBinding(c, c, capacity)
  }

  function Name(c: Column): ColumnBinding {
    Same(c, NAMEDATALEN)
  }

  function TableBindings(): seq<ColumnBinding> {
    [Name(DatabaseName), Name(SchemaName), Name(TableName), Name(TableType), Same(Remarks, 1024), Name(Owner),
     Name(LastAlteredTime), Name(LastModifiedTime), Name(DistStyle), Name(TableSubtype)]
  }

  function ColumnBindings(): seq<ColumnBinding> {
    [Name(DatabaseName), Name(SchemaName), Name(TableName), Name(ColumnName), Same(OrdinalPosition, 2),
     Same(ColumnDefault, 4000), Name(IsNullable), Name(DataType), Same(CharacterMaximumLength, 4),
     Same(NumericPrecision, 2), Same(NumericScale, 2), Same(Remarks, 1024), Name(SortKeyType), Same(SortKey, 4),
     Same(DistKey, 4), Name(Encoding), Name(Collation)]
  }

  function PrimaryKeyBindings(): seq<ColumnBinding> {
    [Name(DatabaseName), Name(SchemaName), Name(TableName), Name(ColumnName), Same(KeySeq, 2), Name(PkName)]
  }

  function ForeignKeyBindings(): seq<ColumnBinding> {
    [Name(PkDatabaseName), Name(PkSchemaName), Name(PkTableName), Name(PkColumnName), Name(FkDatabaseName),
     Name(FkSchemaName), Name(FkTableName), Name(FkColumnName), Same(KeySeq, 2), Same(UpdateRule, 2),
     Same(DeleteRule, 2), Name(FkName), Name(PkName), Same(Deferrability, 2)]
  }

  function ColumnGrantBindings(): seq<ColumnBinding> {
    [Name(DatabaseName), Name(SchemaName), Name(TableName), Name(ColumnName), Name(GrantorName),
     Name(IdentityName), Name(PrivilegeType), Same(AdminOption, 2)]
  }

  function TableGrantBindings(): seq<ColumnBinding> {
    [Name(DatabaseName), Name(SchemaName), ColumnBinding(ObjectName, TableName, NAMEDATALEN), Name(GrantorName),
     Name(IdentityName), Name(PrivilegeType), Same(AdminOption, 2)]
  }

  function RoutineBindings(procedures: bool): seq<ColumnBinding> {
    [Name(DatabaseName), Name(SchemaName),
     ColumnBinding(if procedures then ProcedureName else FunctionName, RoutineName, NAMEDATALEN),
     Same(ArgumentList, 4096)]
  }

  function ParameterBindings(procedure: bool): seq<ColumnBinding> {
    [Name(DatabaseName), Name(SchemaName),
     ColumnBinding(if procedure then ProcedureName else FunctionName, RoutineName, NAMEDATALEN),
     ColumnBinding(ParameterName, ColumnName, NAMEDATALEN), Name(ParameterType), Same(OrdinalPosition, 2),
     Name(DataType), Same(CharacterMaximumLength, 4), Same(NumericPrecision, 2), Same(NumericScale, 2)]
  }

  /** The columns that each Show helper binds. */
  function Bindings(r: Request): seq<ColumnBinding> {
    match r
    case Databases(_) => [Same(DatabaseName, MAX_IDEN_LEN)]
    case Schemas(_, _) => [Name(DatabaseName), Name(SchemaName)]
    case Tables(_, _, _) => TableBindings()
    case Columns(_, _, _, _) => ColumnBindings()
    case PrimaryKeys(_, _, _) => PrimaryKeyBindings()
    case ForeignKeys(_, _, _, _) => ForeignKeyBindings()
    case ColumnGrants(_, _, _) => ColumnGrantBindings()
    case TableGrants(_, _, _) => TableGrantBindings()
    case Routines(_, _, _, procedures) => RoutineBindings(procedures)
    case Parameters(_, _, _, _, _, procedure) => ParameterBindings(procedure)
  }

  /** The record built from one result row. */
  function Record(bindings: seq<ColumnBinding>, row: Row): Row {
    if bindings == [] then map[]
    else
      var n := |bindings| - 1;
      Record(bindings[..n], row)[bindings[n].field := Get(row, bindings[n].source)]
  }

  function Records(bindings: seq<ColumnBinding>, rows: seq<Row>): seq<Row> {
    seq(|rows|, i requires 0 <= i < |rows| => Record(bindings, rows[i]))
  }

  /** The rows that answer a request. */
  function Answer(server: Server, r: Request): seq<Row> {
    server.answer(ShowRequests.Text(r), Values(r))
  }

  /** The records that a Show helper builds when nothing fails. */
  function Listing(server: Server, r: Request): seq<Row> {
    Records(Bindings(r), Answer(server, r))
  }

  /** Every text of the row is shorter than the buffer it is read into. */
  predicate RowFits(bindings: seq<ColumnBinding>, row: Row) {
    forall i :: 0 <= i < |bindings| ==> |NameOf(row, bindings[i].source)| < bindings[i].capacity
  }

  predicate RowsFit(bindings: seq<ColumnBinding>, rows: seq<Row>) {
    forall i :: 0 <= i < |rows| ==> RowFits(bindings, rows[i])
  }

  /** Every text that the server answers fits the buffer that a Show helper binds for it. */
  ghost predicate AllFit(server: Server) {
    forall r: Request :: RowsFit(Bindings(r), Answer(server, r))
  }
}
