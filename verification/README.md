# Redshift ODBC driver: metadata pipeline, verified model

This project models the part of the driver that answers catalog functions with SHOW commands, and four smaller
parts next to it, and proves what they promise.

* **Patterns.** `LikePattern`, `Regex` and `LikeToRegex` treat `convertSqlLikeToRegex` as a compiler: LIKE has a
  meaning by partitions, the ECMAScript subset has a parser and a matcher (section 15.10.2 of ECMA-262, 3rd
  edition), and the compiled text is proved to mean what the pattern means.
* **Requests.** `ArgumentList`, `Placeholders` and `ShowRequests` cover statement texts with markers and the
  values bound to them, including the argument lists of routines.
* **The handle.** `StatementHandle` is the state of one statement: parameters, bound columns, pending rows.
  Every driver call may fail at any moment. `ShowHelpers` holds the Show helpers that use it.
* **Enumeration.** `MetadataProxy` holds the nested loops of the metadata functions. `Outcomes`, `ShowOutcomes`
  and `SearchOutcomes` say what they yield without failures; `Refines` says how a run with failures relates to
  that. `Visits` says which paths a search visits and when it succeeds, `Comprehension` and `Selections` relate the
  visits to the server's catalogue, and `CatalogueTheorems`, `MetadataTheorems`, `KeyTheorems`, `RoutineTheorems`
  and `ParameterTheorems` prove what each metadata function yields over an abstract server (`ServerModel`), and
  `ResultRecords` what its records hold. `SampleServer` is one that meets their hypotheses.
* **Catalog filters.** `SqlConditions` has a lexer, a parser and a meaning for SQL conditions; `CatalogFilters`,
  `TableTypes` and `TableClause` build filter text in fixed character buffers, and the text is proved to read back and
  to let through the rows that were asked for; `CutFilters` says when text that was cut to its buffer still reads back.
* **Type names, info strings, descriptors.** `TypeNames`, `InfoString`, `Descriptor`.

## How the model is built

* A server is a function from statement text and parameter values to complete result rows. Faults are not part
  of the server: each driver call may return an error, and the `failures` counter records that. A theorem about
  runs without failures is a theorem about runs that leave the counter alone.
* The metadata functions repeat one nest of loops with different innermost steps. The nest is modelled once
  (`Enumerate`), with the innermost steps as data (`TableLeaf`, `SchemaLeaf`) and the scratch lists of the
  source as `Vector` objects that are cleared and used again.
* `std::sort` is an arbitrary rearrangement; where an order is claimed, `Conforms` states what `std::sort`
  promises for the comparison used.
* A row is a map from columns to values; records keep the columns that the source binds. Catalog names are
  wrapped in a datatype of their own.
* Text longer than its buffer is read a second time. When that read fails the source silently keeps the cut
  text; the `lost` counter records it, and statements about contents hold for runs that leave it alone. A server
  whose texts all fit the buffers that the helpers bind (`AllFit`) leaves it alone in every run.
* Widths are explicit where they matter: 16-bit lengths, counts and `%.*s` precisions, and the 32-bit precision
  of a type name.

## What the code does where its documentation says otherwise

* `src/odbc/rsodbc/rsMetadataServerProxy.h` calls the comparison in `matchesConstraints` case-insensitive; the
  code compares exactly, and so does the model.
* The same header gives 63 characters as the limit of a name; the code allows 128.
* A pattern that ends in an odd run of backslashes is not a LIKE pattern with an escaped nothing: its last
  backslash escapes the `$` that the code appends. `DanglingMatchesDollar` and `DecidesLikeIff` state the effect.
* In single-database mode `sqlForeignKeys` with both tables given looks for the referencing table in the current
  database only, so that it need not return what the exported keys of the referenced table say.
  `ForeignKeysFromEitherEnd` gives the exact condition and `SingleModeSeparatesEnds` an input.
* A catalog name whose escaped form has more than 991 characters is cut inside its literal.
* A pattern made of `%` only becomes `.*`, which does not match line terminators.
* Setting the count of an application descriptor to 0 is described as removing all records; the code keeps
  records numbered 0 or less.

## Model

| member | source | states |
|---|---|---|
| LikePattern.AcceptsIffInLanguage | src/odbc/rsodbc/rsMetadataAPIHelper.cpp:1073-1078 | The recognizer used for LIKE accepts a string exactly when the string can be cut into consecutive parts that fit the pattern's elements one by one (section 8.5 of ISO/IEC 9075-2, escape `\`). |
| LikeToRegex.ConvertSqlLikeToRegex | src/odbc/rsodbc/rsMetadataAPIHelper.cpp:1073-1145 | The loop over the pattern, with its look-ahead and its all-`%` exit, emits the text that the lemmas below are about. |
| LikeToRegex.PatternMatch | src/odbc/rsodbc/rsMetadataAPIHelper.cpp:1059-1071 | Matches everything for the empty pattern, and otherwise decides by the compiled pattern; the branch for a text that the regex constructor would refuse is never taken. |
| LikeToRegex.AlwaysCompiles | src/odbc/rsodbc/rsMetadataAPIHelper.cpp:1092-1144 | Whatever the pattern, the emitted text parses in the ECMAScript grammar. |
| LikeToRegex.ParsesToTokens | src/odbc/rsodbc/rsMetadataAPIHelper.cpp:1092-1144 | For a pattern that is not all `%`, the emitted text parses to one anchored sequence with one term for each LIKE element, in order, every metacharacter as a literal; only a final unpaired backslash becomes a literal `$` in place of the end anchor. |
| LikeToRegex.PatternMatchesIsLike | src/odbc/rsodbc/rsMetadataAPIHelper.cpp:1059-1145 | For every string and every non-empty pattern without a dangling backslash, the compiled pattern matches exactly the strings of the LIKE language, less the strings with line terminators when the pattern is all `%`. |
| LikeToRegex.DanglingIffOddRun | src/odbc/rsodbc/rsMetadataAPIHelper.cpp:1132-1144 | A pattern dangles exactly when the run of backslashes at its end is odd. |
| LikeToRegex.DanglingMatchesDollar | src/odbc/rsodbc/rsMetadataAPIHelper.cpp:1132-1144 | A final unpaired backslash joins with the appended `$`: the pattern matches what its part before the backslash matches, followed by a literal `$`. |
| LikeToRegex.DanglingNeverAgrees | src/odbc/rsodbc/rsMetadataAPIHelper.cpp:1132-1144 | A dangling pattern matches no string of its LIKE language. |
| LikeToRegex.DecidesLikeIff | src/odbc/rsodbc/rsMetadataAPIHelper.cpp:1080-1144 | A non-empty pattern is decided correctly on all strings if and only if the run of backslashes at its end is even and it is not made of `%` only. |
| ArgumentList.SplitArguments | src/odbc/rsodbc/rsMetadataAPIHelper.cpp:992-1009 | The splitting loop ends and yields `Split`, or the error for an empty piece. |
| ArgumentList.ValidateTypes | src/odbc/rsodbc/rsMetadataAPIHelper.cpp:959-976 | Collects the names that are not data types, in order. |
| ArgumentList.CreateParameterizedQueryString | src/odbc/rsodbc/rsMetadataAPIHelper.cpp:978-1040 | Splits, validates and rebuilds; every exception is an error result. |
| ArgumentList.SplitIffJoin | src/odbc/rsodbc/rsMetadataAPIHelper.cpp:992-1009 | Splitting yields given pieces exactly when these are non-empty and free of the delimiter and the input is their join, up to one more delimiter at the end. |
| ArgumentList.SplitFailsIff | src/odbc/rsodbc/rsMetadataAPIHelper.cpp:996-1003 | Splitting fails exactly when a delimiter stands where a piece should, behind pieces that were accepted. |
| ArgumentList.AcceptedIff | src/odbc/rsodbc/rsMetadataAPIHelper.cpp:978-1040 | A list is accepted exactly when it is a comma list of valid type names, and then each name is written out as one argument with one marker. |
| ShowRequests.BindsIntendedValues | src/odbc/rsodbc/rsMetadataAPIHelper.cpp:132-153 | The statement texts are the source's literals, and each request selects one of them and a list of values separately. For every request, and an argument list of any length, the number of markers in the text is the number of values, and filling the markers in order gives the intended statement. |
| ShowRequests.TextIsMarked | src/odbc/rsodbc/rsMetadataAPIHelper.cpp:132-153 | Every literal, and the one with a LIKE clause exactly when there is a pattern, is its statement with one marker for each of the request's names; the two texts for routine parameters stop behind the names. |
| ShowRequests.AcceptedListReachesServer | src/odbc/rsodbc/rsMetadataServerProxyHelper.cpp:1255-1285 | The text that the parameter helper prepares and the values that it binds come from different files; together they state the argument list as it was given. |
| StatementHandle.Statement.PrepareBindAndExecuteQuery | src/odbc/rsodbc/rsMetadataServerProxyHelper.cpp:55-124 | On success exactly the given values were bound, as parameters 1 to n in order, at the one execution; afterwards no parameter is bound. Any driver call may fail. |
| StatementHandle.InOrderNumbered | src/odbc/rsodbc/rsMetadataServerProxyHelper.cpp:78-103 | Numbering the values from 1 and reading them back in parameter order gives the same values. |
| StatementHandle.Statement.ReadField | src/odbc/rsodbc/rsMetadataServerProxyHelper.cpp:201-236 | A bound column reads back as the value of the current row, short or long, unless the second read of an overlong text fails; a text shorter than its buffer needs no second read. |
| ResultRecords.RecordShows | src/odbc/rsodbc/rsMetadataServerProxyHelper.cpp:335-1369 | The record of a result row holds, field by field, the result column of the same name, except for the names of objects, routines and parameters, and nothing else. |
| ResultRecords.LimitedTextsFit | src/odbc/rsodbc/rsMetadataServerProxyHelper.cpp:335-1369 | Rows of names of at most 127 characters, with the larger limits of remarks, defaults and argument lists, fit every buffer that the helpers bind. |
| ShowHelpers.BindColumns | src/odbc/rsodbc/rsMetadataServerProxyHelper.cpp:176-199 | Binds every column of the list, to new buffers of the running helper only. |
| ShowHelpers.FetchAll | src/odbc/rsodbc/rsMetadataServerProxyHelper.cpp:496-513 | Without failures, one record is appended for each pending row, in order; with a failure, which is always reported, the records appended are a prefix. Rows whose texts fit their buffers lose nothing. |
| ShowHelpers.RunRequest | src/odbc/rsodbc/rsMetadataServerProxyHelper.cpp:411-514 | One run of a helper refines the listing of its request and leaves an idle handle idle, whatever fails; on a server whose texts all fit the helpers' buffers no text is cut. |
| ShowHelpers.RunHelper | src/odbc/rsodbc/rsMetadataServerProxyHelper.cpp:250-1369 | Each of the ten helpers, with any arguments, keeps the handle: an idle handle is idle again, a failure is reported, and fitting texts are not cut. |
| ShowHelpers.RunAny | src/odbc/rsodbc/rsMetadataServerProxyHelper.cpp:20-34 | Any sequence of calls of the ten helpers on one handle, with any failures, leaves no column bound and has made only proper executions. |
| ShowHelpers.ProperMeans | src/odbc/rsodbc/rsMetadataServerProxyHelper.cpp:55-124 | A proper execution has parameters numbered 1 to n, one for each marker of its text, stands for a SHOW request and sees no bound column. |
| ShowHelpers.ShowDatabases | src/odbc/rsodbc/rsMetadataServerProxyHelper.cpp:250-324 | Yields all matching databases, or in single-database mode the current one if it is listed, with the early end of the fetch loop. |
| ShowHelpers.ShowSchemas | src/odbc/rsodbc/rsMetadataServerProxyHelper.cpp:335-403 | Refines the schemas of a catalog that match the pattern; an empty catalog name is refused before any call. |
| ShowHelpers.ShowTables | src/odbc/rsodbc/rsMetadataServerProxyHelper.cpp:411-514 | Refines the tables of a schema that match the pattern. |
| ShowHelpers.ShowColumns | src/odbc/rsodbc/rsMetadataServerProxyHelper.cpp:527-676 | Refines the columns of a table that match the pattern. |
| ShowHelpers.ShowPrimaryKeys | src/odbc/rsodbc/rsMetadataServerProxyHelper.cpp:685-766 | Refines the primary-key columns of a table. |
| ShowHelpers.ShowForeignKeys | src/odbc/rsodbc/rsMetadataServerProxyHelper.cpp:777-905 | Refines the imported or exported keys of a table. |
| ShowHelpers.ShowColumnGrants | src/odbc/rsodbc/rsMetadataServerProxyHelper.cpp:915-1025 | Appends the fetched grants that match the column pattern, sorted by privilege, also those fetched before a failing fetch. |
| ShowHelpers.ShowTableGrants | src/odbc/rsodbc/rsMetadataServerProxyHelper.cpp:1034-1133 | Appends the fetched grants sorted by privilege, also those fetched before a failing fetch. |
| ShowHelpers.ShowRoutines | src/odbc/rsodbc/rsMetadataServerProxyHelper.cpp:1143-1243 | Appends the procedures or the functions of a schema, each marked with its kind. |
| ShowHelpers.ShowParameters | src/odbc/rsodbc/rsMetadataServerProxyHelper.cpp:1255-1369 | Appends the parameters of one routine with the given argument list. |
| Outcomes.LoopStep | src/odbc/rsodbc/rsMetadataServerProxy.cpp:137-158 | One step of a nested loop: a completed part extends the loop's outcome, a failed part makes the whole a failed run whose rows are a prefix. |
| MetadataProxy.Enumerate | src/odbc/rsodbc/rsMetadataServerProxy.cpp:124-163 | The nest of loops over catalogs, schemas and tables, with its cleared scratch lists and early returns, refines one outcome that mentions neither; with a failure the output is a prefix of it. |
| MetadataProxy.SqlTables | src/odbc/rsodbc/rsMetadataServerProxy.cpp:97-164 | Refines the table search; names that are too long are refused before any call. |
| MetadataProxy.SqlColumns | src/odbc/rsodbc/rsMetadataServerProxy.cpp:168-252 | Refines the column search. |
| MetadataProxy.SqlPrimaryKeys | src/odbc/rsodbc/rsMetadataServerProxy.cpp:256-352 | Refines the search by exact names, of which `PrimaryKeysYield` says what it lists. |
| MetadataProxy.SqlSpecialColumns | src/odbc/rsodbc/rsMetadataServerProxy.cpp:537-665 | Refines the search whose innermost step is the semijoin of columns with key names; `SpecialColumnsYield` says what it lists. |
| MetadataProxy.SqlColumnPrivileges | src/odbc/rsodbc/rsMetadataServerProxy.cpp:668-766 | Refines the search whose innermost step is the column grants; `ColumnPrivilegesYield` says what it lists. |
| MetadataProxy.SqlTablePrivileges | src/odbc/rsodbc/rsMetadataServerProxy.cpp:769-847 | Refines the search whose innermost step is the table grants. |
| MetadataProxy.SqlProcedures | src/odbc/rsodbc/rsMetadataServerProxy.cpp:853-946 | Refines the search whose innermost step is the sorted block of procedures and functions; `ProceduresAreBlocks` says what it lists. |
| MetadataProxy.SqlProcedureColumns | src/odbc/rsodbc/rsMetadataServerProxy.cpp:950-1076 | Refines the search whose innermost step lists the parameters of every routine of the block; `ProcedureColumnsYield` says when it succeeds and what it lists. |
| MetadataProxy.ProcessKeysCase | src/odbc/rsodbc/rsMetadataServerProxy.cpp:453-532 | Refines the key search from one end. |
| MetadataProxy.SqlForeignKeys | src/odbc/rsodbc/rsMetadataServerProxy.cpp:357-434 | Imported keys filtered by the primary-key names, imported keys alone, or exported keys, of which `ForeignKeysOverRelation` says what they are; with a foreign-key table given, a failure leaves the output unchanged. |
| MetadataProxy.ValidateNameLengths | src/odbc/rsodbc/rsMetadataServerProxy.cpp:1078-1090 | Succeeds exactly when every name has at most 128 characters. |
| Visits.SearchOkIff | src/odbc/rsodbc/rsMetadataServerProxy.cpp:266-348 | For any mixture of given names and patterns a search succeeds exactly when its lists can be obtained and its innermost step succeeds at every visited schema, and yields the innermost rows in the order of the visits; visited are the given or listed names at each level. |
| Visits.TableSearchOkIff | src/odbc/rsodbc/rsMetadataServerProxy.cpp:266-348 | The same for searches over tables: success exactly when the catalogs can be listed and everything visited has a name. |
| Selections.SchemaSearchSelects | src/odbc/rsodbc/rsMetadataServerProxy.cpp:124-163 | On a server that honours LIKE and lists non-empty names, and where given names are listed once, a search asks exactly the catalogue's schemas in scope, patterns and given names mixed, in the order of the catalogue. |
| Selections.TableSearchSelects | src/odbc/rsodbc/rsMetadataServerProxy.cpp:198-251 | The same for the catalogue's tables in scope; such a search succeeds. |
| CatalogueTheorems.SearchOverTables | src/odbc/rsodbc/rsMetadataServerProxy.cpp:198-251 | A pattern search over tables is a comprehension over the catalogue: its innermost request at every table in scope, in server order. |
| CatalogueTheorems.TablesAreCatalogueRows | src/odbc/rsodbc/rsMetadataServerProxy.cpp:124-163 | Without failures `sqlTables` yields exactly the catalogue's tables whose names match all patterns, each once, in order. |
| CatalogueTheorems.ColumnsAreCatalogueRows | src/odbc/rsodbc/rsMetadataServerProxy.cpp:198-251 | Without failures `sqlColumns` yields exactly the catalogue's columns whose four names match, each once, in order. |
| CatalogueTheorems.SingleTables | src/odbc/rsodbc/rsMetadataServerProxy.cpp:128-158 | Single-database mode is the restriction of the all-database result to the current catalog, for tables. |
| CatalogueTheorems.SingleColumns | src/odbc/rsodbc/rsMetadataServerProxy.cpp:203-246 | The same restriction for columns. |
| CatalogueTheorems.SingleTableGrants | src/odbc/rsodbc/rsMetadataServerProxy.cpp:803-843 | The same restriction for table privileges. |
| KeyTheorems.KeysAreSelection | src/odbc/rsodbc/rsMetadataServerProxy.cpp:453-532 | When imported and exported keys are views of one relation, the enumeration from either end, with any names missing and in either mode, yields each key of the relation that ends there as often as it occurs; in single-database mode a missing catalog is the current one. |
| KeyTheorems.ForeignKeysFromEitherEnd | src/odbc/rsodbc/rsMetadataServerProxy.cpp:396-451 | With both tables given the result is the imported keys filtered in order by the primary-key names. As a multiset it is the exported keys filtered by the foreign-key names if and only if the mode hides both ends or neither of every key between the two tables; always so when the mode is off. |
| KeyTheorems.ForeignKeysOverRelation | src/odbc/rsodbc/rsMetadataServerProxy.cpp:357-434 | Every case over the relation of keys: `sqlForeignKeys` succeeds exactly when a table is given and no name has more than 128 characters. With only the primary-key table it returns the keys that reference it, with only the foreign-key table the keys that it has, with both those between the two, each as often as it occurs; a missing catalog is the current one in single-database mode. |
| SampleServer.SingleModeSeparatesEnds | src/odbc/rsodbc/rscatalog.cpp:2703-2711 | A key across two databases for which single-database mode makes the two listings differ: asked without catalogs, the imported side finds nothing and the exported side the key. |
| SampleServer.SampleIsNamed | src/odbc/rsodbc/rsMetadataServerProxy.cpp:128-158 | A server with catalogs, schemas and tables that meets the hypotheses of the catalogue theorems. |
| SampleServer.SampleHasViews | src/odbc/rsodbc/rsMetadataServerProxy.cpp:396-451 | A server with a foreign key that meets the hypotheses of the key theorems. |
| SampleServer.SampleFits | src/odbc/rsodbc/rsMetadataServerProxyHelper.cpp:201-236 | A server with rows whose texts all fit the helpers' buffers. |
| MetadataTheorems.PrimaryKeysYield | src/odbc/rsodbc/rsMetadataServerProxy.cpp:266-348 | `sqlPrimaryKeys` succeeds exactly when the catalogs can be listed and nothing visited is without a name, and yields the keys of the visited tables in order; given names are taken as they are. |
| MetadataTheorems.PrimaryKeysInCatalogue | src/odbc/rsodbc/rsMetadataServerProxy.cpp:266-348 | Where the given names are listed once, these are the keys of exactly the catalogue's tables with these names, in the order of the catalogue; without a catalog, in single-database mode, of the current one only. |
| MetadataTheorems.SpecialColumnsYield | src/odbc/rsodbc/rsMetadataServerProxy.cpp:550-664 | The whole output of `sqlSpecialColumns`, for names given or not: success exactly when the catalogs can be listed and nothing visited is without a name, and then exactly the columns, of all columns below the visited tables and in their order, whose name is the column name of some row of SHOW CONSTRAINTS PRIMARY KEYS of their table. |
| MetadataTheorems.SpecialColumnsInCatalogue | src/odbc/rsodbc/rsMetadataServerProxy.cpp:550-664 | Where the given names are listed once, the visited tables are exactly the catalogue's tables whose catalog matches the pattern and whose schema and table are the given ones, in single-database mode of the current catalog only. |
| MetadataTheorems.KeyColumnNames | src/odbc/rsodbc/rsMetadataServerProxy.cpp:620-663 | Table by table: nothing for a table without a key; the names are the column names of the key's rows that are columns, and all of them where the columns contain them. |
| MetadataTheorems.SpecialColumnsAreKeyColumns | src/odbc/rsodbc/rsMetadataServerProxy.cpp:580-663 | The ordered semijoin at one table: exactly the columns whose name is the column name of some row of the key, in column order. |
| MetadataTheorems.ColumnPrivilegesYield | src/odbc/rsodbc/rsMetadataServerProxy.cpp:680-764 | Success as above; for each visited table in order its grants whose column is in the LIKE language of the pattern, each once and sorted by privilege. |
| ParameterTheorems.TypeListIff | src/odbc/rsodbc/rsMetadataAPIHelper.cpp:978-1040 | An argument list is accepted exactly when it is the join of valid type names, up to one more delimiter. |
| DataTypeNames.ValidIff | src/odbc/rsodbc/rsMetadataAPIHelper.cpp:959-976 | A type name is valid exactly when it is one of the small-letter names of the table in letters of either case. |
| DataTypeNames.LowerIff | src/odbc/rsodbc/rsMetadataAPIHelper.cpp:959-976 | Two texts have the same small letters exactly when they agree up to the case of letters. |
| ParameterTheorems.ProcedureColumnsYield | src/odbc/rsodbc/rsMetadataServerProxy.cpp:962-1074 | `sqlProcedureColumns` succeeds exactly when the catalogs can be listed, nothing visited is without a name, and every routine listed on the way has a name and an argument list of valid types. It then yields, schema by schema in the order of the sorted blocks, for each row of SHOW PROCEDURES the answer to SHOW PARAMETERS OF PROCEDURE, and for each row of SHOW FUNCTIONS that to SHOW PARAMETERS OF FUNCTION, with the types of its argument list and the column pattern. |
| ParameterTheorems.OneAnswer | src/odbc/rsodbc/rsMetadataServerProxy.cpp:1028-1062 | There is one answer for each routine: its argument list names one sequence of types. |
| ParameterTheorems.ParametersAreListed | src/odbc/rsodbc/rsMetadataServerProxy.cpp:1028-1062 | The same at one schema: exactly the listed routines, each asked once and as what it was listed. |
| RoutineTheorems.BlockIsSorted | src/odbc/rsodbc/rsMetadataServerProxy.cpp:899-940 | The block of a schema is a permutation of its procedures and functions; their names, in letters of either case, are in the order of their characters; the sequence of lower-case names follows from what the server lists, however the sort places equal names. |
| RoutineTheorems.BlockShowsRoutines | src/odbc/rsodbc/rsMetadataServerProxy.cpp:899-940 | Whatever the sort does, the block shows exactly the rows of SHOW PROCEDURES, marked 1, and those of SHOW FUNCTIONS, marked 2, otherwise unchanged. |
| RoutineTheorems.ProceduresAreBlocks | src/odbc/rsodbc/rsMetadataServerProxy.cpp:853-946 | For every catalog argument, given or not, `sqlProcedures` succeeds exactly when the catalogs can be listed and every catalog and schema visited has a name, and yields one block for each visited schema, in order. |
| RoutineTheorems.GivenCatalogSchemas | src/odbc/rsodbc/rsMetadataServerProxy.cpp:883-896 | A given catalog is taken as it is: visited are the schemas that the server lists for it under the pattern. |
| RoutineTheorems.ProceduresInCatalogue | src/odbc/rsodbc/rsMetadataServerProxy.cpp:883-940 | On a server that honours LIKE, and where a given catalog is listed once, these are the blocks of exactly the schemas that match the pattern in the given catalog, or else in all, in single-database mode in the current one. |
| Visits.CatalogsVisitedMean | src/odbc/rsodbc/rsMetadataServerProxy.cpp:128-140 | A given catalog is visited as it is; any other search fails without a current database. In single-database mode at most the current catalog is visited, and without a pattern always; otherwise all catalogs listed for the pattern. |
| RoutineTheorems.ProcedureNamesDetermined | src/odbc/rsodbc/rsMetadataServerProxy.cpp:899-940 | Two servers with the same answers but different sorts give the same success and the same sequence of lower-case names for the whole output. |
| RoutineTheorems.PrivilegesDetermined | src/odbc/rsodbc/rsMetadataServerProxyHelper.cpp:1102-1126 | The same for the sequence of privileges of every search for grants, over tables or columns. |
| RoutineTheorems.GrantsAreSorted | src/odbc/rsodbc/rsMetadataServerProxyHelper.cpp:1102-1126 | The grants of one table are a permutation of the rows to be sorted, those without a privilege first and the others with their privileges in the order of their characters, and the sequence of privileges is that of a reference insertion sort. |
| RoutineTheorems.TableGrantsAreSorted | src/odbc/rsodbc/rsMetadataServerProxyHelper.cpp:1102-1126 | Table grants are a permutation of the rows listed, sorted by privilege, the rows without a privilege taking exactly the first places, as many as the server lists; the sequence of privileges is that of a reference insertion sort. |
| RoutineTheorems.ColumnGrantsMatchAndAreSorted | src/odbc/rsodbc/rsMetadataServerProxyHelper.cpp:988-1018 | Column grants are a permutation of exactly the listed rows whose column matches the LIKE pattern, sorted by privilege, with the sequence of privileges of a reference insertion sort. |
| RoutineTheorems.NullsFirst | src/odbc/rsodbc/rsMetadataServerProxyHelper.cpp:1009-1013 | In a list sorted by privilege a row is without a privilege exactly when its place is below the number of such rows. |
| Ordering.KeysDetermined | src/odbc/rsodbc/rsMetadataServerProxyHelper.cpp:1009-1013 | Any two sorts of rows by a comparison of keys give the same sequence of keys. |
| Ordering.SortedMeans | src/odbc/rsodbc/rsMetadataServerProxyHelper.cpp:1009-1013 | Sorted by the two comparisons means: rows without a privilege first and privileges in character order; routine names in character order of their small letters. |
| Ordering.StringLessIff | src/odbc/rsodbc/rsMetadataServerProxyHelper.cpp:1009-1013 | The comparison of texts is the lexicographic order: at the first difference the smaller one ends or has the smaller character. |
| Ordering.ConformingServer | src/odbc/rsodbc/rsMetadataServerProxyHelper.cpp:1009-1013 | Both comparisons are strict weak orders and a sort by them exists, so the assumption on `std::sort` can be met. |
| InfoString.StrInfoResponse | src/odbc/rsodbc/rsdrvinfo.cpp:1506-1552 | The destination holds a terminated prefix of length min(length, cbLen - 1). Success is reported exactly when the source is empty or the 16-bit length is below cbLen, and for cbLen above 0 this says that nothing was cut if and only if the source is shorter than 32768 characters or its 16-bit length is not below cbLen. |
| InfoString.ProbeThenFetch | src/odbc/rsodbc/rsdrvinfo.cpp:133-167 | The composition of probe and fetch recovers the source exactly when the source is shorter than 32767 characters. |
| InfoString.RecoversIffShort | src/odbc/rsodbc/rsdrvinfo.cpp:133-167 | The same for the lengths alone: 16-bit lengths wrap around at 32768, and at 32767 the buffer length does. |
| Descriptor.Descriptor.CheckAndAddDescRec | src/odbc/rsodbc/rsutil.c:8811-8856 | Finds the record with a number, or adds a fresh one at the front or at the end; records in an array are not extended. |
| Descriptor.Descriptor.AddDescriptorRec | src/odbc/rsodbc/rsutil.c:8568-8596 | Puts a record at the front or at the end of the list. |
| Descriptor.Descriptor.ReleaseDescriptorRec | src/odbc/rsodbc/rsutil.c:8604-8638 | Unlinks exactly one node of the list, wherever it stands. |
| Descriptor.Descriptor.FindHighestRecCount | src/odbc/rsodbc/rsutil.c:8707-8724 | The highest record number, at least 0. |
| Descriptor.Descriptor.SetCount | src/odbc/rsodbc/rsdesc.cpp:941-974 | On success the linked list holds `AfterCount` of its old records; on refusal nothing changes; the result code of every case. |
| Descriptor.CountKeepsAndProvides | src/odbc/rsodbc/rsdesc.cpp:941-974 | Looked up by number: records up to the count are as before, none is above it, and the record of the count is there, fresh if it was missing. |
| Descriptor.Descriptor.SetThenGetCount | src/odbc/rsodbc/rsdesc.cpp:262-269 | The count that was set is read back, also when it is 0 and recomputed from the list. |
| Descriptor.Descriptor.CopyDesc | src/odbc/rsodbc/rsdesc.cpp:50-114 | The allocation type stays. Between valid descriptors count, array size and bind type become the source's, otherwise the header stays. The records become the source's with data-at-execution cleared, in order; implementation descriptors refuse; copying a descriptor to itself empties it. |
| Descriptor.Descriptor.CopyThenGetCounts | src/odbc/rsodbc/rsdesc.cpp:50-114 | After a copy between two valid descriptors both answer the same count, also when it is recomputed from the records. |
| Descriptor.CountCodeMeans | src/odbc/rsodbc/rsdesc.cpp:941-974 | The result codes of setting the count: which descriptor refuses first, and success exactly for a positive count, or 0 for an application descriptor with a linked list. |
| Descriptor.FreshFieldsMean | src/odbc/rsodbc/rsutil.c:8820-8846 | A fresh record has the default C type exactly in application descriptors, and a direction, which is input, exactly in implementation parameter descriptors. |
| Descriptor.LookupCleared | src/odbc/rsodbc/rsdesc.cpp:88-107 | A copy answers for every record number what its source answers. |
| CatalogFilters.EscapedFilterCondition | src/odbc/rsodbc/rscatalog.cpp:5831-5851 | The pointer walk leaves the text with its quotes doubled in a zeroed buffer of twice the announced length. |
| CatalogFilters.EscapedLength | src/odbc/rsodbc/rscatalog.cpp:5831-5851 | The escaped length is the length plus the number of quotes, at most twice the length, and less exactly when some character is not a quote. |
| CatalogFilters.TerminatedIffNotAllQuotes | src/odbc/rsodbc/rscatalog.cpp:5831-5851 | The buffer keeps a terminator exactly when some character is not a quote. |
| CatalogFilters.AddLikeOrEqualFilterCondition | src/odbc/rsodbc/rscatalog.cpp:3735-3756 | Appends one condition, with `=` when the statement attribute is set and LIKE otherwise, cut to the buffer; no value and the empty value append nothing. Values that the source itself cannot escape safely are excluded, as listed below. |
| CatalogFilters.NameConditionSelects | src/odbc/rsodbc/rscatalog.cpp:3735-3756 | The text of the condition, read back as SQL, lets a row through exactly when its name equals the value with the attribute set, or is in the LIKE language of the value without; an empty value lets all rows through. |
| CatalogFilters.AddEqualFilterCondition | src/odbc/rsodbc/rscatalog.cpp:3762-3781 | The same with `=`. |
| CatalogFilters.GetCatalogFilterCondition | src/odbc/rsodbc/rscatalog.cpp:4198-4236 | The condition on the connected database, or on a column with its default name, cut to the buffer; no name and the empty name give none. |
| CatalogFilters.CatalogConditionSelects | src/odbc/rsodbc/rscatalog.cpp:4218-4232 | The text of the catalog condition, read back as SQL, lets a row through exactly when the connected database, or the column, is in the LIKE language of the name. |
| CutFilters.CatalogReadsBackIff | src/odbc/rsodbc/rscatalog.cpp:4172-4182 | The condition on the connected database, cut to its buffer of 1024 characters, reads back if and only if the escaped name has at most 991 characters. |
| CutFilters.CutReadsBackIff | src/odbc/rsodbc/rscatalog.cpp:3749-3752 | Cutting a text of conditions to a buffer keeps what it says if and only if nothing but blanks is cut. |
| SqlConditions.ReadsEscaped | src/odbc/rsodbc/rscatalog.cpp:5831-5851 | The SQL reader gets the value back from its escaped literal, for every value. |
| SqlConditions.ChainReadsBack | src/odbc/rsodbc/rscatalog.cpp:3735-3781 | A chain of conditions on columns and on `current_database()` reads back, through lexer and parser, as the same operands, operators and values. |
| TableTypes.TokensAreFields | src/odbc/rsodbc/rscatalog.cpp:3788-3855 | `strtok` delivers exactly the non-empty fields of the comma list. |
| TableTypes.ListedIffNamed | src/odbc/rsodbc/rscatalog.cpp:3788-3855 | The filter covers a type exactly when some field of the list is blanks, the name in any case and quoted or not, and blanks. |
| Blanks.SpaceIff | src/odbc/rsodbc/rsutil.c:597-620 | The blanks that are trimmed are the six of the C locale. |
| TableTypes.TypeOfIffSpells | src/odbc/rsodbc/rscatalog.cpp:3809-3849 | No token spells two types, so the order of the tests does not matter. |
| TableTypes.AddTableTypeFilterCondition | src/odbc/rsodbc/rscatalog.cpp:3788-3855 | The tokenizing loop appends the filter text of the listed types, cut to the buffer. Lists that the source copies beyond its buffer are excluded, as listed below. |
| TableTypes.CopiedIsPrefix | src/odbc/rsodbc/rscatalog.cpp:3792-3798 | The list is copied up to its terminator or the announced length, whichever comes first. |
| TableTypes.FilterReadsBack | src/odbc/rsodbc/rscatalog.cpp:3803-3854 | The text reads back as the conditions before it and one choice over the types. |
| TableTypes.FilterSelects | src/odbc/rsodbc/rscatalog.cpp:3788-3855 | A row passes the type filter exactly when the condition of some named type holds. |
| TableTypes.SelectsVersusProjected | src/odbc/rsodbc/rscatalog.cpp:85-111 | Against the projected TABLE_TYPE the filter is exact for four types, exact for temporary tables and views up to the schema prefix `pg_temp_`, and for VIEW passes exactly the views, temporary views and views in `pg_toast`. |
| TableClause.GetTableFilterClause | src/odbc/rsodbc/rscatalog.cpp:4156-4194 | The whole clause of the local query from the four arguments, cut to the buffer. Where it fits, the text in the buffer reads as conditions that let through exactly the rows asked for: schema and table in the LIKE languages of the given names, or equal to them with the statement attribute set, the connected database in the LIKE language of the catalog, and a listed type. |
| TableClause.ClauseSelects | src/odbc/rsodbc/rscatalog.cpp:4156-4194 | The conditions of the clause hold of a row exactly when it is one that was asked for; a missing or empty name passes all. |
| TableClause.TableClauseReadsBackIff | src/odbc/rsodbc/rscatalog.cpp:4156-4194 | Whatever the names are, the clause in its buffer reads back as the conditions asked for, on the connected database, the schema, the table and the types, if and only if the escaped catalog name has at most 991 characters and the clause is no longer than the buffer (then at most its last blank is cut). |
| TypeNames.RecognizedIff | src/odbc/rsodbc/rsMetadataAPIHelper.cpp:692-697 | For every name: the two regexes recognize it exactly when it begins with `time` or `interval`, has no line terminator behind that, and has a group of digits there with at least one character before it; the group ends an interval name. |
| TypeNames.PrecisionReadsBack | src/odbc/rsodbc/rsMetadataAPIHelper.cpp:625-652 | Of a recognized name, which may hold any number of precisions, the last one reads back as the number printed, all are cut out, and what is left has no blanks around it; above the 32-bit range the conversion fails. |
| TypeNames.TypesAgree | src/odbc/rsodbc/rsMetadataAPIHelper.cpp:534-620 | Concise type, verbose type and subcode go together for every name, and the date and time types are those of the application's ODBC version. |
| TypeNames.DateTimesByName | src/odbc/rsodbc/rsMetadataAPIHelper.cpp:534-568 | Which date and time type a name has, and that its internal name carries the zone exactly when the name does. |
| TypeNames.NumbersByName | src/odbc/rsodbc/rsMetadataAPIHelper.cpp:572-586 | Each numeric or truth type belongs to exactly one name of the table. |
| TypeNames.TextsByName | src/odbc/rsodbc/rsMetadataAPIHelper.cpp:572-619 | Which names are of which character or binary type. |
| TypeNames.IntervalsByName | src/odbc/rsodbc/rsMetadataAPIHelper.cpp:588-605 | Which names are intervals of years and months, and which of days and seconds. |
| TypeNames.NestedNames | src/odbc/rsodbc/rsMetadataAPIHelper.cpp:539-552 | A name that begins with `array`, `map` or `struct` on one line is a long text under its own name; any other name is found exactly when it is in a table. |
| TypeNames.UnicodeWidens | src/odbc/rsodbc/rsMetadataAPIHelper.cpp:672-685 | With Unicode the three character types become wide, and nothing else about the answer changes. |
| TypeNames.CaseOfLetters | src/odbc/rsodbc/rsMetadataAPIHelper.cpp:652-671 | A name that is not recognized keeps its spelling, and its type does not depend on the case of its letters. |
| TypeNames.PrecisionKeepsType | src/odbc/rsodbc/rsMetadataAPIHelper.cpp:625-686 | A plain name followed by a blank and a precision has the name and type of the plain name, and that precision. |
| TypeNames.TableNamesArePlain | src/odbc/rsodbc/rsMetadataAPIHelper.cpp:588-605 | Every fractional-time and interval name of the type tables is a plain name. |
| TypeNames.GluedTime | src/odbc/rsodbc/rsMetadataAPIHelper.cpp:692-697 | `time(n)` without a blank stays whole, without type and precision. |
| TypeNames.GluedRecognizedIff | src/odbc/rsodbc/rsMetadataAPIHelper.cpp:692-697 | Of the fractional-time and interval names of the tables, `time` is the only one that is not recognized with `(n)` directly behind it. |

## Left out

- CatalogFilters.AddLikeOrEqualFilterCondition: values whose escaped text leaves no terminator in its buffer (all quotes, or a length
  smaller than the text) are excluded, because the source then reads past the buffer;
  `TerminatedIffNotAllQuotes` says which these are.
- CatalogFilters.AddEqualFilterCondition: the same values are excluded.
- CatalogFilters.GetCatalogFilterCondition: the same values are excluded.
- InfoString.StrInfoResponse: a null source is not modelled, and with a buffer length of 0 the source must be
  shorter than 32768 characters, because a negative length would reach the copy.
- Descriptor.Descriptor.CopyDesc: exhausted memory is not modelled; neither are the error list and a null
  destination, which the source dereferences before its check.
- Descriptor.Descriptor.SetCount: memory freed by the source is unlinked here, not freed.
- TableTypes.AddTableTypeFilterCondition: lists of 256 characters or more, and announced lengths that are negative or
  at least 256, are excluded, because the source copies that many characters into a buffer of 256. The branch for
  external schemas (`TABLE_TYPE IN (...)`) is not modelled;
  a clause that exceeds its buffer is cut (see `TableClauseReadsBackIff`). `strtok` and
  `trim_whitespaces` work on values here, not in place.
- LikeToRegex.PatternMatch: the matcher is the ECMAScript meaning of the emitted subset over characters; bytes of
  multi-byte text, locales and the limits of `std::regex` on recursion are not modelled.
- ShowHelpers.ShowDatabases: the upper-case fallback of `getIndex` and its result -1 for a missing column are not
  modelled; column positions are names.
- StatementHandle.Statement.Unbind: unbinding succeeds, as it does in the source, where it only drops a list.
- TableClause.GetTableFilterClause: the clause of the local query; the universal and external queries pass other
  arguments and use the branch for external schemas. The same values and lists are excluded.
- TableClause.TableClauseReadsBackIff: the buffer has at least 1024 characters; the source's have 4096.
- TypeNames.PrecisionReadsBack: the text behind the last precision has no opening parenthesis.
- KeyTheorems.ForeignKeysFromEitherEnd: assumes that both listings are views of one relation and that every
  database and schema at an end of a key is listed once.
- SqlConditions.ChainReadsBack: string literals are read by the standard; a server that takes a backslash in a
  literal as an escape would read other values.
- `sqlCatalogs` and `sqlSchemas`: two loops with one request each, weaker cases of the functions modelled.
- The ODBC escape-clause parser: its source is not part of this model.
- The legacy catalog queries, the post-processing of results, column sizes, radixes and other constant tables.
- Handle checks, logging, tracing, mutexes, UTF-16 conversion, diagnostics text, libpq and the network.

