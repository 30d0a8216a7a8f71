# ruby-plsql procedure metadata and JDBC type mapping, in Dafny

This project models two parts of ruby-plsql, the Ruby library that calls
PL/SQL procedures.

**Procedure helper.** `ProcedureHelper` in `procedure_helper.dfy` models the
procedure-helper mix-in of `lib/plsql/procedure_helpers.rb`. It reads the
`all_arguments` catalog rows of a stored procedure, one row at a time. From
them it builds:

- the argument-metadata hashes of each overload (`@arguments`);
- the return-value metadata of each overload (`@return`);
- the temporary tables needed for package-local collection types (`@tmp_table_names`);
- the `overloaded?` flag.

It then orders the arguments by position, takes out the OUT arguments, and
creates the temporary tables of an overload once, on demand.

- **The row loop as a fold.** The loop is specified by a pure fold, `ArgumentMetadata.Run`.
- **Shared hashes.** The Ruby hashes are shared references: a record's hash
  is stored in `@arguments` and in the previous-level table, and later rows
  add to its `:fields`. The model keeps them in an arena `nodes: seq<Node>`.
  Node `k` is built from row `k`, and every reference is a node id.
- **Ruby Hash.** A Ruby Hash keeps insertion order. It is modelled as the
  ordered map `OrderedMaps.OMap`.
- **Methods.** The class methods are proved equal to the fold.
- **Declarative laws.** `MetadataLaws` and `RunLaws` prove what the fold
  builds, stated in terms of the rows alone. Examples: "the argument named n of
  overload o is the last top-level row of o named n" and "the element of a
  collection is the last row one level below it".

**JDBC connection.** `JdbcTypes`, `JdbcValues` and `JdbcBinds` model the
pure conversions of `lib/plsql/jdbc_pg_connection.rb`:

- the two type tables and `get_java_sql_type`;
- the bind-by-type dispatch of `set_bind_variable` and `get_bind_variable`;
- the catalog-type mapping `plsql_to_ruby_data_type`;
- the value conversions `ruby_value_to_db_value` and `db_value_to_ruby_value`,
  with `java_date`, `java_timestamp`, `java_bigdecimal` and
  `db_number_to_ruby_number`.

Ruby classes are a datatype, and dispatch goes through the class's name
(`to_s`), as in the source. A JDBC driver call is a descriptor
(`DriverCall`, `DriverRead`), not an effect. Decimal numbers are exact
(`Dec(unscaled, scale)`).

Modules:

| module | contents |
|---|---|
| `Wrappers`, `OrderedMaps`, `Text`, `Sorting` | value helpers |
| `Catalog` | catalog rows and SQL type names |
| `ArgumentMetadata` | the fold |
| `MetadataLaws`, `RunLaws` | its laws |
| `ArgumentLists` | ordering and OUT selection |
| `TmpTables` | temporary-table DDL |
| `ProcedureHelpers` | the class |
| `JdbcTypes`, `JdbcValues`, `JdbcBinds` | the JDBC connection |

Where the code and its documentation disagree, the model follows the code:

- The previous-level table (`previous_level_argument_metadata`) is not reset between overloads. A nested row can therefore attach to a composite of an earlier overload.
- A named bind index loses every `:`, not only a leading one (`gsub(':','')`).
- Two arguments with the same position do not raise. The model orders them by a stable sort, so they keep the order of the hash's keys (`Sorting.SortByStable`, `ArgumentLists.ByPositionKeepsTies`).

## Model

| member | source | states |
|---|---|---|
| `ProcedureHelpers.ProcedureHelper.GetArgumentMetadata` | lib/plsql/procedure_helpers.rb:84-194 | The error is the fold's error. On success the fields are the fold's result with the empty default overload 0 added. `@overloads` is the key list. Each overload's argument list is its keys ordered by position, and its out list is the OUT subset. `@tmp_tables_created` is empty. |
| `ProcedureHelpers.ProcedureHelper.ReadRows` | lib/plsql/procedure_helpers.rb:85-189 | After the row loop, the fields and the local previous-level table equal `Run` over all the rows. |
| `ProcedureHelpers.ProcedureHelper.Turn` | lib/plsql/procedure_helpers.rb:112-189 | One loop turn takes the state from `Run(rows, i)` to `Run(rows, i + 1)`. |
| `ProcedureHelpers.ProcedureHelper.TakeRow` | lib/plsql/procedure_helpers.rb:114-188 | Handling one row changes the fields as `Step` says, including the raise. |
| `ProcedureHelpers.ProcedureHelper.BeginRow` | lib/plsql/procedure_helpers.rb:118-123 | Sets `@overloaded`, and initialises the three per-overload hashes only where the key is absent. |
| `ProcedureHelpers.ProcedureHelper.EnterRow` | lib/plsql/procedure_helpers.rb:144-168 | Creates the row's hash as a new node, queues its temporary table and records a composite as its level's parent. |
| `ProcedureHelpers.ProcedureHelper.StoreRow` | lib/plsql/procedure_helpers.rb:170-188 | Stores the node as the return value, as a downcased top-level argument, or in its parent's fields or element. |
| `ProcedureHelpers.ProcedureHelper.CompleteMetadata` | lib/plsql/procedure_helpers.rb:190-193 | After a clean row loop, `@arguments` gains the empty overload 0 exactly when it has no key. Each overload then gets its position-ordered argument list and its out list, and no other key is present. |
| `ProcedureHelpers.ProcedureHelper.ConstructArgumentListForOverloads` | lib/plsql/procedure_helpers.rb:196-202 | `@overloads` is the overload keys. For each overload, the argument list is `ByPosition` and the out list is `OutList`. The other entries are unchanged, and both tables keep distinct keys. |
| `ProcedureHelpers.ProcedureHelper.StoreLists` | lib/plsql/procedure_helpers.rb:198-201 | The loop over the overloads leaves each of the two tables equal to `ListTable`: the previous table with every visited overload's list stored, in order. |
| `ProcedureHelpers.ProcedureHelper.EnsureTmpTablesCreated` | lib/plsql/procedure_helpers.rb:204-226 | When the map is nil or the overload is already marked created, nothing happens. Otherwise each overload's CREATE statement is executed in an autonomous block, in registration order, up to the first failure. The overload is marked created only when all succeed. |
| `ProcedureHelpers.ProcedureHelper.CreateTables` | lib/plsql/procedure_helpers.rb:206-224 | The statements executed are those of `Statements`, and the error is its error. |
| `ProcedureHelpers.ProcedureHelper.SendStatement` | lib/plsql/procedure_helpers.rb:222-223 | One statement extends the executed log exactly as `Statements` does. |
| `ProcedureHelpers.ProcedureHelper.constructor` | lib/plsql/procedure_helpers.rb:204-205 | The object before the first `get_argument_metadata` call: every hash, list and the node arena empty, `@overloaded` false, and `@tmp_tables_created` nil, so `ensure_tmp_tables_created` does nothing yet (line 205). `Valid` holds. |
| `ProcedureHelpers.ProcedureHelper.Overloaded` | lib/plsql/procedure_helpers.rb:238-240 | `overloaded?` returns the flag. |
| `ProcedureHelpers.MetadataAgrees` | lib/plsql/procedure_helpers.rb:84-194 | After a run without a raise, each part of the metadata is the declarative one. Arguments are the last top-level row per name and overload; the return is the last return row; the temporary tables are the registrations in row order; `overloaded` says some row had an overload; each node holds its row's metadata; fields and elements are the last matching child rows. All references are in range. |
| `ProcedureHelpers.RunClosed` | lib/plsql/procedure_helpers.rb:84-191 | Every node id stored in the result refers to an existing node. |
| `ProcedureHelpers.ListTableLookup` | lib/plsql/procedure_helpers.rb:198-201 | After the loop over overloads, each visited overload maps to its list and every other key is unchanged. Keys stay distinct. |
| `ProcedureHelpers.ListTableAll` | lib/plsql/procedure_helpers.rb:197-201 | Looping over all the overload keys sets exactly the keys of `@arguments`. |
| `RunLaws.RunNodes` | lib/plsql/procedure_helpers.rb:144-159 | Node k holds the metadata of row k, and its temporary-table name exactly when row k needs one. |
| `RunLaws.RunPrevious` | lib/plsql/procedure_helpers.rb:162-168 | The previous-level table after n rows is `PreviousLevelTable`, the last composite row at each level. |
| `RunLaws.RunOverloaded` | lib/plsql/procedure_helpers.rb:118 | `@overloaded` holds iff some row so far has a non-nil overload. |
| `RunLaws.RunReturn` | lib/plsql/procedure_helpers.rb:122-172 | Each seen overload has a return entry: the last unnamed level-0 OUT row, or nil. Unseen overloads have none. |
| `RunLaws.RunArguments` | lib/plsql/procedure_helpers.rb:121-178 | Keys are the seen overloads. Each name maps to the last named level-0 non-return row of that overload with that downcased name. |
| `RunLaws.RunTmp` | lib/plsql/procedure_helpers.rb:123-160 | Each seen overload has the registrations of its package-local top-level collections, in row order, under their generated names. |
| `RunLaws.RunChildren` | lib/plsql/procedure_helpers.rb:162-186 | A record node's fields map each downcased name to its last field row. A collection or cursor node's element is its last child row. Other nodes have neither. |
| `RunLaws.RunSucceeds` | lib/plsql/procedure_helpers.rb:129-183 | The row loop raises nothing iff every row is admissible. |
| `RunLaws.RunTurnError` | lib/plsql/procedure_helpers.rb:129-183 | After a clean prefix, row n-1 raises iff it is not admissible. |
| `RunLaws.RunRaisedStays` | lib/plsql/procedure_helpers.rb:112-189 | After a raise, later rows change nothing. |
| `RunLaws.RowErrorAdmissible` | lib/plsql/procedure_helpers.rb:129-183 | The state-based error test equals the row-based `Admissible`. |
| `RunLaws.ParentFromTable` | lib/plsql/procedure_helpers.rb:167-181 | A nested row's parent in the table is the last composite row one level up, with that row's data type. |
| `RunLaws.StepNodes` | lib/plsql/procedure_helpers.rb:144-159 | A clean step appends the row's node and keeps the metadata of earlier nodes. |
| `MetadataLaws.PreviousLevelTableIsLastComposite` | lib/plsql/procedure_helpers.rb:162-168 | A level is in the table iff some composite row sits at it, and it maps to the last such row. |
| `MetadataLaws.LastComposite` | lib/plsql/procedure_helpers.rb:162-168 | The result is an earlier composite row at the given level. |
| `MetadataLaws.ParentOf` | lib/plsql/procedure_helpers.rb:181-186 | A parent is an earlier composite row exactly one level up. |
| `MetadataLaws.LastReturn` | lib/plsql/procedure_helpers.rb:170-172 | The result is an earlier return row of the overload. |
| `MetadataLaws.LastTopLevel` | lib/plsql/procedure_helpers.rb:176-178 | The result is an earlier top-level argument row with that name and overload. |
| `MetadataLaws.LastChild` | lib/plsql/procedure_helpers.rb:184-185 | The result is an earlier row whose parent is `p`. |
| `MetadataLaws.LastField` | lib/plsql/procedure_helpers.rb:182-183 | The result is an earlier field row of `p` with that name. |
| `MetadataLaws.TmpRegistrations` | lib/plsql/procedure_helpers.rb:129-160 | Every registration names an earlier row of the overload that needs a table, under that row's generated name. |
| `MetadataLaws.SeenStep` | lib/plsql/procedure_helpers.rb:120-121 | Each row adds its overload key (nil counts as 0) to the seen set. |
| `MetadataLaws.ArgumentsAgreeStep` | lib/plsql/procedure_helpers.rb:121-178 | One row keeps the argument hash in agreement with the declarative definition. |
| `MetadataLaws.TmpAgreesStep` | lib/plsql/procedure_helpers.rb:123-160 | One row keeps the registrations in agreement with the declarative definition. |
| `MetadataLaws.ReturnAgreesStep` | lib/plsql/procedure_helpers.rb:122-172 | One row keeps the return table in agreement with the declarative definition. |
| `MetadataLaws.ChildrenAgreeStep` | lib/plsql/procedure_helpers.rb:165-186 | One row keeps fields and elements in agreement with the declarative definition. |
| `ArgumentLists.ByPositionSorted` | lib/plsql/procedure_helpers.rb:199 | The argument list is a permutation of the overload's keys, sorted by position. |
| `ArgumentLists.ByPositionKeepsTies` | lib/plsql/procedure_helpers.rb:199 | Arguments that share a position appear in the argument list in the order of the hash's keys. |
| `Sorting.SortByStable` | lib/plsql/procedure_helpers.rb:199 | The sort is stable: for every key, the elements with that key appear in the result in their input order. |
| `ArgumentLists.OutListSelects` | lib/plsql/procedure_helpers.rb:200 | The out list is a subsequence of the argument list, still sorted by position. It holds exactly the keys whose `in_out` contains "OUT". |
| `ArgumentLists.OutListMember` | lib/plsql/procedure_helpers.rb:200 | A name is in the out list iff it is an argument whose `in_out` matches `/OUT/`. |
| `ArgumentLists.OverloadsSorted` | lib/plsql/procedure_helpers.rb:197 | `@overloads` is a permutation of the keys, strictly increasing. |
| `TmpTables.CreateTableSqlShape` | lib/plsql/procedure_helpers.rb:207-221 | The statement fails iff the collection has no element, naming the table. Otherwise it starts with `CREATE GLOBAL TEMPORARY TABLE <name> (` and ends with the `i__ NUMBER(38)` column and `ON COMMIT PRESERVE ROWS`. |
| `TmpTables.ColumnsInPositionOrder` | lib/plsql/procedure_helpers.rb:209-219 | A non-record element gives one `element <type>` column. A record gives one `<field> <type>` column per field, in position order, joined by `,\n`. |
| `TmpTables.StatementsSent` | lib/plsql/procedure_helpers.rb:206-224 | The statements executed are a prefix of the successful creates. All of them are sent iff every create succeeds and the database accepts it. A failure is the first missing element, or the rejection of the last statement. |
| `TmpTables.StatementsStop` | lib/plsql/procedure_helpers.rb:206-224 | After the first failure, no further statement is sent. |
| `Catalog.CollectionIsComposite` | lib/plsql/procedure_helpers.rb:228-236 | Every collection type is composite. The composite non-collections are exactly records and ref cursors. |
| `Catalog.SqlTypeName` | lib/plsql/procedure_helpers.rb:125 | The name is nil iff there is no type owner. It starts with `owner.` unless the owner is PUBLIC, and ends with `.subname` when there is one. |
| `Catalog.SubprogramPart` | lib/plsql/procedure_helpers.rb:135 | The generated subprogram id is all digits. |
| `Catalog.TmpTableName` | lib/plsql/procedure_helpers.rb:136 | The table name starts with the temporary-table prefix. |
| `Catalog.TmpTableNameInjective` | lib/plsql/procedure_helpers.rb:136 | Two equal generated names have the same session, object, subprogram and position. |
| `Catalog.CompareArrays` | lib/plsql/procedure_helpers.rb:100 | `<=>` on version arrays yields -1, 0 or 1, and 0 iff they are equal. |
| `Catalog.CompareArraysLexicographic` | lib/plsql/procedure_helpers.rb:100 | After a common prefix, the first differing element decides the order, and a proper prefix comes before the longer array. |
| `Catalog.SubprogramIdColumnVersions` | lib/plsql/procedure_helpers.rb:100 | 10.2.0.2, 10.2.0.3, 10.2.0.2.1, 11 and 11.1.0.6 have the subprogram_id column; 10.2.0.1, 10.2 and 9.2.0.8 do not. |
| `Catalog.CompareArraysAntisymmetric` | lib/plsql/procedure_helpers.rb:100 | Swapping the operands negates the comparison. |
| `Text.LowerChar` | lib/plsql/procedure_helpers.rb:178 | An ASCII capital becomes the small letter 32 code points above it; every other character is kept. |
| `Text.Downcase` | lib/plsql/procedure_helpers.rb:178 | Same length; each character is `LowerChar` of the input's character at that place. |
| `Text.RemoveChar` | lib/plsql/jdbc_pg_connection.rb:99 | The result has no `c`, keeps every other character of the input, and is the input when it has no `c`. |
| `Text.RemoveCharCounts` | lib/plsql/jdbc_pg_connection.rb:99 | The result's multiset of characters is the input's with every `c` dropped, so each other character keeps its count. |
| `Text.RemoveCharConcat` | lib/plsql/jdbc_pg_connection.rb:99 | Removing from a concatenation is removing from each part, so the characters kept stay in their order. |
| `JdbcTypes.ClassNameInjective` | lib/plsql/jdbc_pg_connection.rb:100-101 | Two named classes with the same `to_s` are the same class, so name dispatch picks the class. |
| `JdbcTypes.GetJavaSqlType` | lib/plsql/jdbc_pg_connection.rb:94-96 | The code is VARCHAR or a value of the class-to-type table. |
| `JdbcTypes.GetJavaSqlTypeChoice` | lib/plsql/jdbc_pg_connection.rb:60-96 | A declared type decides over the value's class, and the table's entry is used. The result is VARCHAR iff the key is String or not in the table. |
| `JdbcTypes.SqlTypeFamilies` | lib/plsql/jdbc_pg_connection.rb:60-92 | Every read class is bindable. The text types bind back as VARCHAR, the numeric types as NUMERIC and the time types as TIMESTAMP. The fixed points are exactly VARCHAR, NUMERIC, INTEGER, DATE, TIMESTAMP, ARRAY and STRUCT. |
| `JdbcTypes.PlsqlToRubyDataTypeAsWritten` | lib/plsql/jdbc_pg_connection.rb:167-197 | As written, the mapping raises iff the data type is BLOB. |
| `JdbcTypes.BlobRaisesAsWritten` | lib/plsql/jdbc_pg_connection.rb:176-177 | As written, BLOB raises a NameError for `Java::JavaSql::Bob`. |
| `JdbcTypes.TimeWithTimeZoneAsWritten` | lib/plsql/jdbc_pg_connection.rb:186-187 | As written, TIME WITH/WITHOUT TIME ZONE falls through to String. The corrected mapping gives Time. |
| `JdbcTypes.PlsqlToRubyDataTypeLength` | lib/plsql/jdbc_pg_connection.rb:169-196 | A length is given iff the type is VARCHAR or CHAR, defaulting to 32767. Unlisted types map to String with no length. |
| `JdbcTypes.PlsqlToRubyDataTypeCorrects` | lib/plsql/jdbc_pg_connection.rb:167-197 | The corrected mapping agrees with the code on every name except BLOB and the TIME spellings. BLOB binds as BLOB. Every TIME and TIMESTAMP spelling binds as TIMESTAMP. |
| `JdbcValues.JavaTimestampFrom` | lib/plsql/jdbc_pg_connection.rb:343-345 | nil and false pass through. A truthy value succeeds iff it is a Time, and then gives that Time's `JavaTimestampOf`. A DateTime raises NoMethodError for `usec`; a Date, java.sql.Date or java.sql.Timestamp for `hour`; every other truthy value for `year`. |
| `JdbcValues.JavaBigDecimalFrom` | lib/plsql/jdbc_pg_connection.rb:347-349 | nil and false pass through. |
| `JdbcValues.TimestampRoundTrip` | lib/plsql/jdbc_pg_connection.rb:305-345 | A time survives the trip through a java timestamp. A timestamp survives the trip back iff its nanoseconds are whole microseconds. |
| `JdbcValues.DateRoundTrip` | lib/plsql/jdbc_pg_connection.rb:301-341 | A midnight time survives the trip through a java date, and so does every java date. |
| `JdbcValues.DbNumberToRubyNumber` | lib/plsql/jdbc_pg_connection.rb:351-354 | The result is an Integer iff the decimal is integral, and then it equals the decimal. Otherwise the decimal is returned. |
| `JdbcValues.TruncateExact` | lib/plsql/jdbc_pg_connection.rb:353 | `to_i` (truncation toward zero) is exact iff the decimal is integral. |
| `JdbcValues.DbValueToRubyValue` | lib/plsql/jdbc_pg_connection.rb:295-335 | Decimals are normalised and java dates and timestamps become Times. The result is `Unmodelled` exactly for LOB, array, struct and result-set objects, whose conversion (lines 310-331) reads driver contents. Every other value is returned unchanged (line 333). |
| `JdbcValues.BigDecimalCoercion` | lib/plsql/jdbc_pg_connection.rb:204-349 | Under BigDecimal, true and false become 1 and 0, integers and decimals become java decimals of the same value, and nil stays nil. |
| `JdbcValues.NumberRoundTrip` | lib/plsql/jdbc_pg_connection.rb:204-354 | Binding an Integer or BigDecimal as BigDecimal and reading it back gives the same number. An integral decimal comes back as an Integer. |
| `JdbcValues.TemporalRoundTrip` | lib/plsql/jdbc_pg_connection.rb:213-309 | A Date comes back as midnight Time, a DateTime with zero microseconds, and a Time unchanged. |
| `JdbcValues.FalsyPassThrough` | lib/plsql/jdbc_pg_connection.rb:204-349 | nil passes through all four conversions (Date, DateTime, Time, BigDecimal); false passes through the date and time ones (under BigDecimal it becomes 0, lines 208-209). Reading nil or false back returns it unchanged. |
| `JdbcBinds.BindAddressing` | lib/plsql/jdbc_pg_connection.rb:99-127 | A position binds by index. A name binds by its text with every `:` removed. The selector ends with `AtName` iff the bind is by name. |
| `JdbcBinds.SelectorSuffix` | lib/plsql/jdbc_pg_connection.rb:103-127 | The driver selector ends with `AtName` iff the target is a name. |
| `JdbcBinds.NilBinding` | lib/plsql/jdbc_pg_connection.rb:100-119 | nil always binds with `setNull`, whatever type is declared, and with that type's SQL code: NUMERIC for BigDecimal, VARCHAR when undeclared. |
| `JdbcBinds.DeclaredTypeDecides` | lib/plsql/jdbc_pg_connection.rb:100-101 | For a non-nil value, a declared type alone picks the setter. |
| `JdbcBinds.UnknownTypeRaises` | lib/plsql/jdbc_pg_connection.rb:101-129 | A bind raises iff the type symbol is none of the eighteen symbols the `when` branches list (`BindableSymbols`). The message is "Don't know how to bind variable with type " and the symbol. |
| `JdbcBinds.BooleanRaises` | lib/plsql/jdbc_pg_connection.rb:100-129 | true and false without a declared type raise with TrueClass or FalseClass. |
| `JdbcBinds.GetBindVariable` | lib/plsql/jdbc_pg_connection.rb:133-159 | There is no read iff `type.to_s` is none of the fourteen symbols the `when` branches list (`ReadableSymbols`); a read addresses the given index. The accessor of each listed class is stated by `GetterNumbers`, `GetterTexts`, `GetterTimes` and `GetterStructures`. |
| `JdbcBinds.GetterNumbers` | lib/plsql/jdbc_pg_connection.rb:135-141 | Fixnum, Bignum and Integer are read with `getInt`, Float with `getFloat`, BigDecimal with `getBigDecimal`. |
| `JdbcBinds.GetterTexts` | lib/plsql/jdbc_pg_connection.rb:142-147 | String is read with `getString`, a CLOB with `getClob`, a BLOB with `getBlob`. |
| `JdbcBinds.GetterTimes` | lib/plsql/jdbc_pg_connection.rb:148-151 | Date is read with `getDate`; DateTime and Time with `getTimestamp`. |
| `JdbcBinds.GetterStructures` | lib/plsql/jdbc_pg_connection.rb:152-157 | Arrays, structs and result sets are read with `getArray`, `getStruct` and `getCursor`. |
| `JdbcBinds.ReadBack` | lib/plsql/jdbc_pg_connection.rb:139-141 | Only a BigDecimal read of a java decimal is re-wrapped; every other value is returned as read. |
| `JdbcBinds.SetterJavaClasses` | lib/plsql/jdbc_pg_connection.rb:106-117 | java.math.BigDecimal binds with `setBigDecimal`, java.sql.Date with `setDate` and java.sql.Timestamp with `setTimestamp`, the accessors of BigDecimal, Date and Time. |
| `JdbcBinds.GetterImpliesSetter` | lib/plsql/jdbc_pg_connection.rb:101-159 | Every readable symbol is bindable with the same access. The bind-only symbols are exactly the java BigDecimal, Date and Timestamp classes and NilClass. |
| `JdbcBinds.ResultSetReads` | lib/plsql/jdbc_pg_connection.rb:161-165 | A column is read iff its SQL type is in the table; otherwise it reads as nil. NUMERIC and DOUBLE decimals are normalised. |
| `ArgumentMetadata.Run` | lib/plsql/procedure_helpers.rb:112-189 | The row loop as a fold that stops at the first raise; a clean run has one node per row. What it builds is stated by `RunLaws.RunArguments`, `RunReturn`, `RunTmp`, `RunChildren`, `RunPrevious`, `RunOverloaded` and `RunSucceeds`. |
| `ArgumentMetadata.Step` | lib/plsql/procedure_helpers.rb:112-188 | One loop turn: the prelude, then the row's raise or its admission. A clean turn adds one node. `RunLaws.RunTurnError` states when it raises. |
| `ArgumentMetadata.Prelude` | lib/plsql/procedure_helpers.rb:118-123 | The per-row bookkeeping before anything can raise. It leaves the nodes and the previous-level table alone; `MetadataLaws.SeenStep` and `RunLaws.RunOverloaded` state its effect on keys and the flag. |
| `ArgumentMetadata.RowError` | lib/plsql/procedure_helpers.rb:129-183 | The raise a row causes, if any. `RunLaws.RowErrorAdmissible` equates it with the row-based `Admissible`. |
| `ArgumentMetadata.Admit` | lib/plsql/procedure_helpers.rb:144-188 | An admitted row adds exactly one node holding its metadata and temporary-table name. Earlier nodes keep theirs, and a composite row becomes its level's parent. |
| `ArgumentMetadata.Enter` | lib/plsql/procedure_helpers.rb:144-168 | The row's hash is appended as a new node and its temporary table queued under its overload. A composite row is recorded at its level. Nothing else changes. |
| `ArgumentMetadata.Store` | lib/plsql/procedure_helpers.rb:170-187 | Storing a node changes no node's metadata, the previous-level table, the queue or the flag. `MetadataLaws.ArgumentsAgreeStep` and `ReturnAgreesStep` state where it goes. |
| `ArgumentMetadata.Attach` | lib/plsql/procedure_helpers.rb:180-186 | Only the parent node changes, and its metadata and table name stay. `MetadataLaws.ChildrenAgreeStep` states the field or element it sets. |
| `ArgumentMetadata.Finish` | lib/plsql/procedure_helpers.rb:190-191 | The empty default overload 0 for a routine without arguments. `ProcedureHelpers.ProcedureHelper.CompleteMetadata` states its effect. |
| `ArgumentLists.ByPosition` | lib/plsql/procedure_helpers.rb:199 | The keys ordered by position. `ArgumentLists.ByPositionSorted` states it is a sorted permutation of the keys. |
| `ArgumentLists.OutList` | lib/plsql/procedure_helpers.rb:200 | The OUT arguments of the argument list. `ArgumentLists.OutListSelects` and `OutListMember` state which ones and in what order. |
| `ArgumentLists.Overloads` | lib/plsql/procedure_helpers.rb:197 | The sorted overload keys. `ArgumentLists.OverloadsSorted` states it is a strictly increasing permutation of the keys. |
| `TmpTables.FieldColumns` | lib/plsql/procedure_helpers.rb:210-216 | One `<field> <type>` column per record field, in position order, as `TmpTables.ColumnsInPositionOrder` states. |
| `TmpTables.Columns` | lib/plsql/procedure_helpers.rb:209-219 | The column list of a temporary table. `TmpTables.ColumnsInPositionOrder` states its two shapes. |
| `TmpTables.CreateTableSql` | lib/plsql/procedure_helpers.rb:206-221 | The CREATE statement of one queued table, or the missing-element error. `TmpTables.CreateTableSqlShape` states both. |
| `TmpTables.Creates` | lib/plsql/procedure_helpers.rb:205-221 | The statement or error of every registration, in registration order. `TmpTables.StatementsSent` states what is sent from it. |
| `TmpTables.Statements` | lib/plsql/procedure_helpers.rb:205-224 | The statements sent for the first n registrations and the error that stopped them. `TmpTables.StatementsSent` and `StatementsStop` state its prefix and stop properties. |
| `Catalog.CompositeType` | lib/plsql/procedure_helpers.rb:228-231 | Membership in the five composite type names. `Catalog.CollectionIsComposite` relates it to `CollectionType`. |
| `Catalog.CollectionType` | lib/plsql/procedure_helpers.rb:233-236 | Membership in the three collection type names. `Catalog.CollectionIsComposite` states that each is composite. |
| `JdbcTypes.RubyClassToSqlType` | lib/plsql/jdbc_pg_connection.rb:60-76 | The class-to-type table. `JdbcTypes.GetJavaSqlTypeChoice` and `SqlTypeFamilies` state its entries' families. |
| `JdbcTypes.SqlTypeToRubyClass` | lib/plsql/jdbc_pg_connection.rb:78-92 | The type-to-class table. `JdbcTypes.SqlTypeFamilies` states that every class it reads is bindable, and into which family. |
| `JdbcTypes.PlsqlToRubyDataType` | lib/plsql/jdbc_pg_connection.rb:167-197 | The corrected mapping: it never raises, and it differs from the code only on `FixedNames` (BLOB and the TIME spellings), as `JdbcTypes.PlsqlToRubyDataTypeCorrects` states; `PlsqlToRubyDataTypeLength` states its lengths. |
| `JdbcValues.ClassOf` | lib/plsql/jdbc_pg_connection.rb:100 | `value.class`. `JdbcValues.ClassOfIdentifies` states that on representable values the class names the constructor. |
| `JdbcValues.ClassOfIdentifies` | lib/plsql/jdbc_pg_connection.rb:100 | On representable values, Fixnum or Bignum means an Integer, BigDecimal a decimal, Time a Time, and so on for every class with a constructor of its own. |
| `JdbcValues.JavaDateOf` | lib/plsql/jdbc_pg_connection.rb:339-341 | A java.sql.Date of a Time. `JdbcValues.DateRoundTrip` states that `TimeOfDate` undoes it on midnight times. |
| `JdbcValues.JavaTimestampOf` | lib/plsql/jdbc_pg_connection.rb:343-345 | A java.sql.Timestamp of a Time. `JdbcValues.TimestampRoundTrip` states that `TimeOfTimestamp` undoes it. |
| `JdbcValues.TimeOfDate` | lib/plsql/jdbc_pg_connection.rb:301-304 | The Time read from a java.sql.Date. `JdbcValues.DateRoundTrip` states that `JavaDateOf` undoes it. |
| `JdbcValues.TimeOfTimestamp` | lib/plsql/jdbc_pg_connection.rb:305-309 | The Time read from a java.sql.Timestamp. `JdbcValues.TimestampRoundTrip` states when `JavaTimestampOf` undoes it. |
| `JdbcValues.RubyValueToDbValue` | lib/plsql/jdbc_pg_connection.rb:199-293 | The value bound for a declared type or class. `JdbcValues.BigDecimalCoercion`, `FalsyPassThrough`, `NumberRoundTrip` and `TemporalRoundTrip` state its conversions. |
| `JdbcBinds.SetterFor` | lib/plsql/jdbc_pg_connection.rb:101-128 | The accessor of a type symbol; there is none iff the symbol is not in `BindableSymbols`. |
| `JdbcBinds.GetterFor` | lib/plsql/jdbc_pg_connection.rb:134-158 | The accessor of a read; there is none iff the symbol is not in `ReadableSymbols`. |
| `JdbcBinds.TypeSymbol` | lib/plsql/jdbc_pg_connection.rb:100 | The symbol dispatched on. `JdbcBinds.NilBinding` and `DeclaredTypeDecides` state that nil uses NilClass and a non-nil value the declared type. |
| `JdbcBinds.BindTarget` | lib/plsql/jdbc_pg_connection.rb:99 | The position or the name a bind addresses. `JdbcBinds.BindAddressing` states which, and that a name has no `:`. |
| `JdbcBinds.SetBindVariable` | lib/plsql/jdbc_pg_connection.rb:98-129 | The driver call of one bind. `JdbcBinds.BindAddressing`, `NilBinding`, `DeclaredTypeDecides`, `UnknownTypeRaises` and `BooleanRaises` state it. |
| `JdbcBinds.GetRubyValueFromResultSet` | lib/plsql/jdbc_pg_connection.rb:161-165 | The Ruby value of one column. `JdbcBinds.ResultSetReads` states when it reads and how numbers come back. |

## Left out

- Driver loading, connection setup, statements, commit and the other connection plumbing in `jdbc_pg_connection.rb`: these are I/O against JDBC.
- `select_all` and `execute`: the catalog rows are an input, and the database's verdict on each DDL statement is the parameter `ddlOk`.
- `Object#hash`: `object_name.hash` is the uninterpreted `Env.objectNameHash`.
- `ProcedureCommon.type_to_sql` is not part of this model. It is the parameter `typeToSql`.
- The timezone choice (`plsql.default_timezone`) and `Time.local` normalisation of out-of-range fields: a time is its civil fields.
- The 32-bit width of a Java `int` is not modelled: `setInt` receives the unbounded integer. Fixnum and Bignum are split at the 64-bit range.
- `position` and `data_level` are natural numbers. The source guards a nil position (line 145 of `procedure_helpers.rb`), and the catalog declares these columns NOT NULL, so a nil is not modelled. A NULL `data_type` or `in_out` is modelled as the empty text.
- Decimals are compared by unscaled value and scale. `java_bigdecimal` goes through `value.to_s`, which can change the scale (`BigDecimal("1.50").to_s` is "0.15E1"). So `JavaBigDecimalFrom(Num(d)) == Ok(JavaNum(d))` agrees with the source in value, not always in scale.
- `Object(cls, id)` with a class that has a constructor of its own is not a value the program holds. `Representable` excludes it; the conversions are not restricted to representable values.
- `Float` values are not modelled; only exact decimals are.
- The contents of CLOB, BLOB, Array, Struct and ResultSet objects: `DbValueToRubyValue` returns `Unmodelled` for them.
- JdbcValues.ClassOf: a driver LOB, array, struct or result-set object is `Object(c, id)` with `c` the JDBC interface (`Clob`, `Blob`, `JavaArray`, `Struct`, `ResultSet`). In JRuby its `value.class` is the driver's implementation class, never the interface; `db_value_to_ruby_value` tests the interface with `===` (lines 310-331), while `set_bind_variable` dispatches on the exact class name (line 100).
- JdbcBinds.SetBindVariable: hence binding such a driver object without a declared type raises ArgumentError in the source (line 129), naming the driver class, while the model binds it with the interface's accessor. An object of an implementation class the model names with `Other` is returned unchanged by `DbValueToRubyValue`, where the source reads it.
- JdbcValues.JavaBigDecimalFrom: a String or an arbitrary object gives `Unmodelled`, because Java's decimal parser is outside the model.
- ProcedureHelpers.ProcedureHelper.ConstructArgumentListForOverloads: the model sorts stably, while Ruby's `sort` is not stable, so arguments that share a position may come out in another order.
- TmpTables.FieldColumns: the same holds for the `sort_by` of record fields (line 212); fields that share a position may come out in another order.
- TmpTables.Columns: it inherits that order from `FieldColumns`.
- Text.Downcase: only the ASCII capitals A-Z are lowered. This is exact for Ruby before 2.4. Later Rubies (and JRuby 9.2 and later) also lower non-ASCII capitals, which Oracle allows in unquoted names, so such an argument name can get a different key at lines 178 and 183 of procedure_helpers.rb.
- Ruby classes are identified by name: a user class whose `to_s` is a built-in's name is not modelled.
- `PGProcedureHelper` is empty in the source, so there is nothing to model.
- ProcedureHelpers.ProcedureHelper.EnsureTmpTablesCreated: every CREATE statement is built before the first one is executed. The source builds each one just before sending it. The executed statements and the error are the same.

## Findings

| source | as written | input that shows it | evidently intended | confidence | as-written member | corrected member |
|---|---|---|---|---|---|---|
| lib/plsql/jdbc_pg_connection.rb:176-177 | `when "BLOB"` returns the constant `Java::JavaSql::Bob` | metadata with `data_type` "BLOB" raises NameError | `Java::JavaSql::Blob`, which binds as BLOB | not executed | `JdbcTypes.BlobRaisesAsWritten` | `JdbcTypes.PlsqlToRubyDataTypeCorrects` |
| lib/plsql/jdbc_pg_connection.rb:186-187 | `when "TIME", "TIME WITH TIME ZONE, TIME WITHOUT TIME ZONE"` is one string literal | `data_type` "TIME WITH TIME ZONE" maps to String | two literals, each mapping to Time | not executed | `JdbcTypes.TimeWithTimeZoneAsWritten` | `JdbcTypes.PlsqlToRubyDataTypeCorrects` |
