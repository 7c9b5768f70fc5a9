/** What the records of the Show helpers hold: which result column fills which field, and which texts fit. */
module ResultRecords {
  import opened ServerModel
  import opened ShowRequests

  function TableFields(): seq<Column> {
    [DatabaseName, SchemaName, TableName, TableType, Remarks, Owner, LastAlteredTime, LastModifiedTime, DistStyle,
     TableSubtype]
  }

  function ColumnFields(): seq<Column> {
    [DatabaseName, SchemaName, TableName, ColumnName, OrdinalPosition, ColumnDefault, IsNullable, DataType,
     CharacterMaximumLength, NumericPrecision, NumericScale, Remarks, SortKeyType, SortKey, DistKey, Encoding,
     Collation]
  }

  function ForeignKeyFields(): seq<Column> {
    [PkDatabaseName, PkSchemaName, PkTableName, PkColumnName, FkDatabaseName, FkSchemaName, FkTableName,
     FkColumnName, KeySeq, UpdateRule, DeleteRule, FkName, PkName, Deferrability]
  }

  function GrantFields(): seq<Column> {
    [GrantorName, IdentityName, PrivilegeType, AdminOption]
  }

  function ParameterFields(): seq<Column> {
    [DatabaseName, SchemaName, RoutineName, ColumnName, ParameterType, OrdinalPosition, DataType,
     CharacterMaximumLength, NumericPrecision, NumericScale]
  }

  /** The fields that a helper fills. */
  function FieldsOf(r: Request): seq<Column> {
    match r
    case Databases(_) => [DatabaseName]
    case Schemas(_, _) => [DatabaseName, SchemaName]
    case Tables(_, _, _) => TableFields()
    case Columns(_, _, _, _) => ColumnFields()
    case PrimaryKeys(_, _, _) => [DatabaseName, SchemaName, TableName, ColumnName, KeySeq, PkName]
    case ForeignKeys(_, _, _, _) => ForeignKeyFields()
    case ColumnGrants(_, _, _) => [DatabaseName, SchemaName, TableName, ColumnName] + GrantFields()
    case TableGrants(_, _, _) => [DatabaseName, SchemaName, TableName] + GrantFields()
    case Routines(_, _, _, _) => [DatabaseName, SchemaName, RoutineName, ArgumentList]
    case Parameters(_, _, _, _, _, _) => ParameterFields()
  }

  /** A field has the name of its result column, except for the names of objects, routines and parameters. */
  function SourceOf(r: Request, field: Column): Column {
    if r.TableGrants? && field == TableName then ObjectName
    else if r.Routines? && field == RoutineName then if r.procedures then ProcedureName else FunctionName
    else if r.Parameters? && field == RoutineName then if r.procedure then ProcedureName else FunctionName
    else if r.Parameters? && field == ColumnName then ParameterName
    else field
  }

  /** The bindings fill these fields, each from its column. */
  predicate Fill(bindings: seq<ColumnBinding>, fields: seq<Column>, r: Request) {
    && |bindings| == |fields|
    && forall i :: 0 <= i < |bindings| ==>
         bindings[i].field == fields[i] && bindings[i].source == SourceOf(r, fields[i])
  }

  lemma BindingsFill(r: Request)
    ensures Fill(Bindings(r), FieldsOf(r), r)
  {
    hide TableBindings, ColumnBindings, PrimaryKeyBindings, ForeignKeyBindings, ColumnGrantBindings, TableGrantBindings;
    hide RoutineBindings, ParameterBindings, TableFields, ColumnFields, ForeignKeyFields, GrantFields, ParameterFields;
    hide Fill;
    match r
    case Databases(_) => NamesFill(r);
    case Schemas(_, _) => NamesFill(r);
    case Tables(_, _, _) => TablesFill(r);
    case Columns(_, _, _, _) => ColumnsFill(r);
    case PrimaryKeys(_, _, _) => PrimaryKeysFill(r);
    case ForeignKeys(_, _, _, _) => ForeignKeysFill(r);
    case ColumnGrants(_, _, _) => ColumnGrantsFill(r);
    case TableGrants(_, _, _) => TableGrantsFill(r);
    case Routines(_, _, _, _) => RoutinesFill(r);
    case Parameters(_, _, _, _, _, _) => ParametersFill(r);
  }

  lemma NamesFill(r: Request)
    requires r.Databases? || r.Schemas?
    ensures Fill([Same(DatabaseName, MAX_IDEN_LEN)], [DatabaseName], r)
    ensures Fill([Name(DatabaseName), Name(SchemaName)], [DatabaseName, SchemaName], r)
  {
  }

  lemma TablesFill(r: Request)
    requires r.Tables?
    ensures Fill(TableBindings(), TableFields(), r)
  {
  }

  lemma ColumnsFill(r: Request)
    requires r.Columns?
    ensures Fill(ColumnBindings(), ColumnFields(), r)
  {
  }

  lemma PrimaryKeysFill(r: Request)
    requires r.PrimaryKeys?
    ensures Fill(PrimaryKeyBindings(), [DatabaseName, SchemaName, TableName, ColumnName, KeySeq, PkName], r)
  {
  }

  lemma ForeignKeysFill(r: Request)
    requires r.ForeignKeys?
    ensures Fill(ForeignKeyBindings(), ForeignKeyFields(), r)
  {
  }

  lemma ColumnGrantsFill(r: Request)
    requires r.ColumnGrants?
    ensures Fill(ColumnGrantBindings(), [DatabaseName, SchemaName, TableName, ColumnName] + GrantFields(), r)
  {
  }

  lemma TableGrantsFill(r: Request)
    requires r.TableGrants?
    ensures Fill(TableGrantBindings(), [DatabaseName, SchemaName, TableName] + GrantFields(), r)
  {
  }

  lemma RoutinesFill(r: Request)
    requires r.Routines?
    ensures Fill(RoutineBindings(r.procedures), [DatabaseName, SchemaName, RoutineName, ArgumentList], r)
  {
  }

  lemma ParametersFill(r: Request)
    requires r.Parameters?
    ensures Fill(ParameterBindings(r.procedure), ParameterFields(), r)
  {
  }

  /** Later bindings of a field replace earlier ones. */
  lemma {:induction false} RecordGets(bindings: seq<ColumnBinding>, row: Row, field: Column, source: Column)
    requires forall i :: 0 <= i < |bindings| && bindings[i].field == field ==> bindings[i].source == source
    ensures Get(Record(bindings, row), field)
            == if exists i :: 0 <= i < |bindings| && bindings[i].field == field then Get(row, source) else Null
  {
    if bindings != [] {
      var n := |bindings| - 1;
      RecordGets(bindings[..n], row, field, source);
      assert forall i :: 0 <= i < n ==> bindings[..n][i] == bindings[i];
    }
  }

  /** The record of a row: each field of the helper holds its result column, and no other field holds anything. */
  lemma RecordShows(r: Request, row: Row, field: Column)
    ensures Get(Record(Bindings(r), row), field)
            == if field in FieldsOf(r) then Get(row, SourceOf(r, field)) else Null
  {
    BindingsFill(r);
    hide Bindings, FieldsOf, SourceOf;
    RecordGets(Bindings(r), row, field, SourceOf(r, field));
  }

  /** How long a text may be: names, remarks, defaults and argument lists. */
  function TextLimit(column: Column): nat {
    match column
    case Remarks => 1023
    case ColumnDefault => 3999
    case ArgumentList => 4095
    case OrdinalPosition => 0
    case CharacterMaximumLength => 0
    case NumericPrecision => 0
    case NumericScale => 0
    case SortKey => 0
    case DistKey => 0
    case KeySeq => 0
    case UpdateRule => 0
    case DeleteRule => 0
    case Deferrability => 0
    case AdminOption => 0
    case _ => 127
  }

  /** Rows of names within the limit of the server, with numbers in the columns for numbers, fit every buffer. */
  lemma LimitedTextsFit(r: Request, row: Row)
    requires forall column :: |NameOf(row, column)| <= TextLimit(column)
    ensures RowFits(Bindings(r), row)
  {
    WideEnough(r);
    hide Bindings, TextLimit;
  }

  predicate Wide(bindings: seq<ColumnBinding>) {
    forall i :: 0 <= i < |bindings| ==> TextLimit(bindings[i].source) < bindings[i].capacity
  }

  lemma WideEnough(r: Request)
    ensures Wide(Bindings(r))
  {
    hide Wide;
    WideNames();
    WideTables();
    WideColumns();
    WideForeignKeys();
    WideGrants();
    WideRoutines();
    hide TableBindings, ColumnBindings, PrimaryKeyBindings, ForeignKeyBindings, ColumnGrantBindings, TableGrantBindings;
    hide RoutineBindings, ParameterBindings;
  }

  lemma WideNames()
    ensures Wide([Same(DatabaseName, MAX_IDEN_LEN)]) && Wide([Name(DatabaseName), Name(SchemaName)])
    ensures Wide(PrimaryKeyBindings())
  {
  }

  lemma WideTables()
    ensures Wide(TableBindings())
  {
  }

  lemma WideColumns()
    ensures Wide(ColumnBindings())
  {
  }

  lemma WideForeignKeys()
    ensures Wide(ForeignKeyBindings())
  {
  }

  lemma WideGrants()
    ensures Wide(ColumnGrantBindings()) && Wide(TableGrantBindings())
  {
  }

  lemma WideRoutines()
    ensures forall procedures :: Wide(RoutineBindings(procedures)) && Wide(ParameterBindings(procedures))
  {
  }
}
