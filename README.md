# orthite-db SQL builders, modelled in Dafny

orthite-db is a small PHP database layer with two builders.

- **The query session** builds SQL text for PDO.
  - The `WhereConditions` trait appends WHERE conditions and keeps a map of named placeholders to values. Each column has its own counter: the first condition on `age` binds `:age1`, the next `:age2`.
  - The `Joins` trait collects JOIN fragments.
  - The `CrudOperations` trait turns the session into INSERT, SELECT, UPDATE and DELETE statements and their parameters.
  - A magic `__call` splits a method name such as `whereAgeGreaterThan` into a method (`whereGreaterThan`) and a column (`age`).
- **The migration schema builder** (`Schema`, with its MySQL dialect `MysqlSchema`) collects column definitions and constraints. `build()` renders `CREATE TABLE` text with placeholders for the character set and the collation.

The model has one module per part of the source:

- `WhereConditions` and `Joins` define the session's fields as one value, `Session`, with each call as a function on it.
- `SessionRuns` covers whole sequences of calls.
- `NameDispatch` is the name decomposition in `__call`.
- `CrudOperations` defines the statements and parameters as functions.
- `QueryBuilder.Builder` is the host object. It is a class with the real fields. Its methods run the source's steps and loops and are proved to follow the functions above.
- `Schema` and `MysqlSchema` do the same for the schema builder. `MysqlSchema.Builder` is the class with the fields.
- `OrderedMap` models PHP's insertion-ordered arrays. `Strings` models `implode`, `str_replace`, `trim`, `strtolower` and integer-to-string conversion.

The model follows the code as written:

- where() and whereIn() conditions render as `` `table`.`column` ``; whereBetween() renders `` `column` `` alone and ignores `$table`;
- nothing turns a leading `AND` into `WHERE`;
- an empty `whereIn` renders `IN ()`;
- `primary()` is inline only;
- the session is never reset between statements.

## Model

| member | source | states |
|---|---|---|
| WhereConditions.WhereEffect | src/WhereConditions.php:20-33 | where(): the first placeholder of a column is `:column1`. The column's counter goes up by one and no other counter changes. Exactly one condition is appended. The value is bound under the placeholder, every other binding is unchanged, and the joins are untouched. |
| WhereConditions.WhereInEffect | src/WhereConditions.php:267-287 | whereIn(): allocates \|values\| consecutive placeholders, each bound to its value in order, with every other binding unchanged. The counter goes up by \|values\|. With no values, the counters and bindings stay as they were and the text gains `IN ()`. |
| WhereConditions.WhereBetweenEffect | src/WhereConditions.php:325-342 | whereBetween(): two distinct placeholders, bound to the low and the high value, with every other binding unchanged. The counter goes up by two, and the `$table` argument has no effect on the result. |
| WhereConditions.CounterStep | src/WhereConditions.php:22-27 | A missing counter starts at 1. After i allocations from a counter that stood at start, the next placeholder takes start + i. |
| WhereConditions.WhereInStep | src/WhereConditions.php:271-282 | One pass of whereIn's loop extends the placeholder list and the bindings by the next placeholder and value. |
| WhereConditions.PlaceholderInjective | src/WhereConditions.php:26 | Two placeholders of the same column are equal exactly when their counters are. |
| WhereConditions.PlaceholdersDistinct | src/WhereConditions.php:277-278 | The placeholders of one whereIn() are pairwise distinct. |
| WhereConditions.CrossColumnCollision | src/WhereConditions.php:26 | Placeholders are not unique across columns: column `age1` at counter 1 and column `age` at counter 11 both give `:age11`. |
| WhereConditions.CrossColumnOverwrite | src/WhereConditions.php:29-30 | So two conditions share one binding: the second value replaces the first, and the bindings grow by at most one entry for both calls, by exactly one when `:age11` was not bound before. |
| WhereConditions.EmptyInv | src/WhereConditions.php:20-33 | A fresh session satisfies the invariant: bound keys are distinct, every bound key is an issued placeholder, and the join scratch string is empty. |
| WhereConditions.IssuedMonotone | src/WhereConditions.php:27 | Counters only go up, so a placeholder once issued stays issued. |
| WhereConditions.WherePreservesInv | src/WhereConditions.php:20-33 | where() keeps the session invariant. |
| WhereConditions.WhereInPreservesInv | src/WhereConditions.php:267-287 | whereIn() keeps the session invariant. |
| WhereConditions.WhereBetweenPreservesInv | src/WhereConditions.php:325-342 | whereBetween() keeps the session invariant. |
| WhereConditions.ConditionContains | src/WhereConditions.php:29 | where()'s condition text contains its placeholder. |
| WhereConditions.InConditionContains | src/WhereConditions.php:284 | whereIn()'s condition text contains every one of its placeholders. |
| WhereConditions.BetweenConditionContains | src/WhereConditions.php:337 | whereBetween()'s condition text contains both of its placeholders. |
| WhereConditions.EmptyInSync | src/WhereConditions.php:20-33 | A fresh session has every issued placeholder bound and every bound key occurring as a substring of the WHERE text (the converse half of the invariant). |
| WhereConditions.WhereInSync | src/WhereConditions.php:20-33 | where() keeps every issued placeholder bound and every bound key occurring as a substring of the WHERE text. |
| WhereConditions.WhereInInSync | src/WhereConditions.php:267-287 | whereIn() keeps every issued placeholder bound and every bound key occurring as a substring of the WHERE text. |
| WhereConditions.WhereBetweenIssuedBound | src/WhereConditions.php:325-342 | After whereBetween(), every issued placeholder is bound. |
| WhereConditions.WhereBetweenBoundWritten | src/WhereConditions.php:325-342 | After whereBetween(), every bound key occurs as a substring of the WHERE text. |
| WhereConditions.WhereBetweenInSync | src/WhereConditions.php:325-342 | whereBetween() keeps every issued placeholder bound and every bound key occurring as a substring of the WHERE text. |
| WhereConditions.EmptyConsistent | src/WhereConditions.php:20-33 | A fresh session satisfies both halves of the invariant. |
| WhereConditions.WhereConsistent | src/WhereConditions.php:20-33 | where() keeps both halves of the invariant. |
| WhereConditions.WhereInConsistent | src/WhereConditions.php:267-287 | whereIn() keeps both halves of the invariant. |
| WhereConditions.WhereBetweenConsistent | src/WhereConditions.php:325-342 | whereBetween() keeps both halves of the invariant. |
| Joins.AddJoinEffect | src/Joins.php:34-43 | addJoin() appends exactly one fragment after the earlier ones and empties the scratch string. It leaves the WHERE text, the bindings and the counters alone, and keeps both halves of the invariant. |
| Joins.DefaultRightColumn | src/Joins.php:37 | A missing right column joins on the left column's name. |
| SessionRuns.ApplyBinds | src/WhereConditions.php:30 | Each WHERE-family call binds its values, in order, under exactly the placeholders it allocates. |
| SessionRuns.ApplyCounters | src/WhereConditions.php:22-27 | A call moves only its own column's counter, by the number of placeholders it allocates. |
| SessionRuns.RunAllocations | src/WhereConditions.php:22-27 | Over any sequence of calls, a column's counter never decreases. Its placeholders are exactly the consecutive counters from where it started. |
| SessionRuns.LifetimePlaceholdersDistinct | src/WhereConditions.php:26-27 | Placeholders of one column are pairwise distinct over the object's whole lifetime. |
| SessionRuns.RunPreservesInv | src/WhereConditions.php:20-370 | Every sequence of WHERE and join calls keeps the session invariant. |
| SessionRuns.RunInSync | src/WhereConditions.php:20-370 | Every sequence of WHERE and join calls keeps every issued placeholder bound and every bound key occurring as a substring of the WHERE text. |
| SessionRuns.ReachableBindings | src/WhereConditions.php:20-370 | In every session reached from a fresh object, a key is bound exactly when it is a placeholder handed out so far, and every bound key occurs as a substring of the WHERE text. The binding count can still lag behind the number of placeholders written, because of cross-column collisions. |
| SessionRuns.RunJoins | src/Joins.php:39 | The joins are the earlier ones followed by one fragment per join call, in call order. |
| SessionRuns.ApplyClauses | src/Joins.php:34-43 | The same call on sessions with equal clauses gives sessions with equal clauses. A join call changes none of them. |
| SessionRuns.JoinsDoNotTouchClauses | src/Joins.php:34-43 | Dropping every join call from a run leaves the WHERE text, the bindings and the counters exactly as they were. |
| QueryBuilder.Builder.constructor | src/Joins.php:15-22 | A new object has no joins and an empty scratch string, as the trait declares. It also has no counters, no WHERE text and no bindings, fields the host class declares outside the modelled code. The fields satisfy `Valid`. |
| QueryBuilder.Builder.Where | src/WhereConditions.php:20-33 | The fields move exactly as the session function `Where` says. Both halves of the invariant (`Valid`) are kept. |
| QueryBuilder.Builder.And | src/WhereConditions.php:44-47 | where() with concat AND. |
| QueryBuilder.Builder.Or | src/WhereConditions.php:58-61 | where() with concat OR. |
| QueryBuilder.Builder.WhereGreaterThan | src/WhereConditions.php:71-74 | where() with comparator `>`. |
| QueryBuilder.Builder.AndGreaterThan | src/WhereConditions.php:84-87 | where() with `>` and AND. |
| QueryBuilder.Builder.OrGreaterThan | src/WhereConditions.php:97-100 | where() with `>` and OR. |
| QueryBuilder.Builder.WhereLessThan | src/WhereConditions.php:110-113 | where() with `<`. |
| QueryBuilder.Builder.AndLessThan | src/WhereConditions.php:123-126 | where() with `<` and AND. |
| QueryBuilder.Builder.OrLessThan | src/WhereConditions.php:136-139 | where() with `<` and OR. |
| QueryBuilder.Builder.WhereGreaterOrEquals | src/WhereConditions.php:149-152 | where() with `>=`. |
| QueryBuilder.Builder.AndGreaterOrEquals | src/WhereConditions.php:162-165 | where() with `>=` and AND. |
| QueryBuilder.Builder.OrGreaterOrEquals | src/WhereConditions.php:175-178 | where() with `>=` and OR. |
| QueryBuilder.Builder.WhereLessOrEquals | src/WhereConditions.php:188-191 | where() with `<=`. |
| QueryBuilder.Builder.AndLessOrEquals | src/WhereConditions.php:201-204 | where() with `<=` and AND. |
| QueryBuilder.Builder.OrLessOrEquals | src/WhereConditions.php:214-217 | where() with `<=` and OR. |
| QueryBuilder.Builder.WhereLike | src/WhereConditions.php:227-230 | where() with LIKE. |
| QueryBuilder.Builder.AndLike | src/WhereConditions.php:240-243 | where() with LIKE and AND. |
| QueryBuilder.Builder.OrLike | src/WhereConditions.php:253-256 | where() with LIKE and OR. |
| QueryBuilder.Builder.WhereIn | src/WhereConditions.php:267-287 | The foreach loop, with its invariants over the counters, placeholders and bindings, moves the fields exactly as the session function `WhereIn` says. Both halves of the invariant (`Valid`) are kept. |
| QueryBuilder.Builder.AndIn | src/WhereConditions.php:297-300 | whereIn() with AND. |
| QueryBuilder.Builder.OrIn | src/WhereConditions.php:310-313 | whereIn() with OR. |
| QueryBuilder.Builder.WhereBetween | src/WhereConditions.php:325-342 | The fields move exactly as the session function `WhereBetween` says. Both halves of the invariant (`Valid`) are kept. |
| QueryBuilder.Builder.AndBetween | src/WhereConditions.php:353-356 | whereBetween() with AND. |
| QueryBuilder.Builder.OrBetween | src/WhereConditions.php:367-370 | whereBetween() with OR. |
| QueryBuilder.Builder.AddJoin | src/Joins.php:34-43 | The fields move exactly as `Joins.AddJoin` says. Both halves of the invariant (`Valid`) are kept. |
| QueryBuilder.Builder.InnerJoin | src/Joins.php:55-58 | addJoin() with type INNER. |
| QueryBuilder.Builder.Join | src/Joins.php:70-73 | addJoin() with type INNER. |
| QueryBuilder.Builder.LeftJoin | src/Joins.php:85-88 | addJoin() with type LEFT. |
| QueryBuilder.Builder.RightJoin | src/Joins.php:100-103 | addJoin() with type RIGHT. |
| QueryBuilder.Builder.FullJoin | src/Joins.php:115-118 | addJoin() with type FULL OUTER. |
| QueryBuilder.Builder.Insert | src/CrudOperations.php:15-41 | The loop yields the INSERT text of `InsertSql` and the values of the data in iteration order as the positional parameters. |
| QueryBuilder.Builder.InsertMany | src/CrudOperations.php:51-62 | Every record is attempted. The success count is the number of successful inserts and never exceeds the number of records. |
| QueryBuilder.Builder.Select | src/CrudOperations.php:72-83 | The SELECT text over the session's WHERE text, with the WHERE bindings as parameters. |
| QueryBuilder.Builder.Update | src/CrudOperations.php:92-107 | The loop yields the UPDATE text and the SET bindings merged with the WHERE bindings. |
| QueryBuilder.Builder.Delete | src/CrudOperations.php:115-120 | The DELETE text over the WHERE text, with the WHERE bindings as parameters. |
| CrudOperations.LastStringKey | src/CrudOperations.php:21-25 | There is no last string key exactly when every key is an integer. Otherwise it is a string key with only integer keys after it. |
| CrudOperations.ColumnPartEmpty | src/CrudOperations.php:32-34 | The column list is empty exactly when no key is a string. |
| CrudOperations.ColumnPartSnoc | src/CrudOperations.php:22-25 | A string key replaces the whole column list by itself, because `$columns` is reset on every string key. An integer key leaves the list as it was. |
| CrudOperations.InsertColumnsCollapse | src/CrudOperations.php:22-34 | Inserting `name` and `email` names only the column `email`. |
| CrudOperations.InsertPlaceholderCount | src/CrudOperations.php:27-36 | The VALUES list has exactly one `?` per value. |
| CrudOperations.InsertStatementPlaceholderCount | src/CrudOperations.php:15-38 | When neither the table name nor any string key contains `?`, the whole INSERT statement has exactly one `?` per value, as many as the positional parameters. |
| CrudOperations.CountTrueBounds | src/CrudOperations.php:53-61 | The success count is at most the number of records. It equals that number exactly when every insert succeeded, and is zero exactly when none did. |
| CrudOperations.CountTrueSnoc | src/CrudOperations.php:56-58 | One more record adds one to the count exactly when its insert succeeded. |
| CrudOperations.SelectColumnsRoundTrip | src/CrudOperations.php:74-76 | An array of column names without commas can be read back from the column list. |
| CrudOperations.SelectSql | src/CrudOperations.php:72-78 | Defines select()'s statement: the column text (an array joined by `,`), the table and the WHERE text; see SelectColumnsRoundTrip and StatementsShareWhere. |
| CrudOperations.UpdateSetRoundTrip | src/CrudOperations.php:97-104 | The SET clauses of columns without commas can be read back from the UPDATE statement: the text between `UPDATE table SET ` and the space before the WHERE text splits at its commas into exactly one clause per entry, in order. |
| CrudOperations.SetListRoundTrip | src/CrudOperations.php:97-102 | The comma-joined SET list splits back into its clauses. |
| CrudOperations.UpdateSql | src/CrudOperations.php:94-104 | Defines update()'s statement: the `column=:column` clauses joined by `,`, then the WHERE text; see UpdateSetRoundTrip and StatementsShareWhere. |
| CrudOperations.UpdateParams | src/CrudOperations.php:99-106 | Defines update()'s parameters, array_merge of the column-keyed values and the WHERE bindings; see UpdateParamsLookup. |
| CrudOperations.UpdateParamsLookup | src/CrudOperations.php:97-106 | A key is bound exactly when it is a data column or a WHERE placeholder. On a clash the WHERE value wins; every other column keeps its own value. |
| CrudOperations.StatementsShareWhere | src/CrudOperations.php:78-117 | SELECT, UPDATE and DELETE all end in one space followed by the session's WHERE text. |
| CrudOperations.DeleteSql | src/CrudOperations.php:115-120 | Defines delete()'s statement over the WHERE text; see StatementsShareWhere. |
| NameDispatch.SplitBeforeUpper | src/WhereConditions.php:374 | preg_split before every capital with empty pieces dropped: the words satisfy the independent characterisation `IsUpperSplit` and the first word starts with the name's first character; see SplitBeforeUpperUnique. |
| NameDispatch.SplitBeforeUpperUnique | src/WhereConditions.php:374 | Any split of a name into non-empty words, all but the first starting with a capital and none with an inner capital, is the split the name is given. |
| NameDispatch.SplitWordPrefix | src/WhereConditions.php:374 | A word without inner capitals, in front of text that is empty or capitalised, comes out as a word of its own. |
| NameDispatch.ScanWordsSpec | src/WhereConditions.php:378-388 | The loop stops at the first operation word. Before it, prefix words stay and every other word becomes column text; from it on, every word stays. |
| NameDispatch.ScanWords | src/WhereConditions.php:376-388 | Defines the foreach loop of __call: the column text it accumulates and the words left in `$nameParts`; see ScanWordsSpec. |
| NameDispatch.OperationNotPrefix | src/WhereConditions.php:379-384 | No word is both a prefix word and an operation word. |
| NameDispatch.DecomposeShape | src/WhereConditions.php:378-388 | A name of the form prefix, column words, operation, further words keeps the prefix, the operation and the further words. The column words become the column text. |
| NameDispatch.Decompose | src/WhereConditions.php:374-392 | Defines __call's method name and column; see DecomposeShape, DecomposeName and DecomposeColumnWord. |
| NameDispatch.DecomposeName | src/WhereConditions.php:374-392 | Such a name dispatches to the method spelled by the kept words, with the column words lower-cased, joined by `_` and trimmed. |
| NameDispatch.ColumnOfWord | src/WhereConditions.php:386-390 | A capitalised word without `_` becomes its lower-cased self as the column. |
| NameDispatch.DecomposeColumnWord | src/WhereConditions.php:372-395 | A prefix, a capitalised column word and a rest starting with an operation word dispatch to the prefix plus the rest, with the lower-cased word as the column. For example, `whereAgeGreaterThan` dispatches to `whereGreaterThan` with column `age`. |
| Schema.PushColumnEffect | src/Migrations/Schema.php:87-94 | A non-empty pending column (by PHP `empty()`) adds exactly one entry, the column with its constraints joined by spaces. An empty one adds nothing. Either way the constraints are cleared and nothing else changes. |
| Schema.SetTableEffect | src/Migrations/Schema.php:78-81 | setTable() changes the table name and nothing else. |
| Schema.BuildHeader | src/Migrations/Schema.php:101-105 | The statement starts with the CREATE TABLE header of the table. |
| Schema.BuildTrailer | src/Migrations/Schema.php:109-110 | The statement ends with the character-set trailer followed by the indexes in order. |
| Schema.BuildColumns | src/Migrations/Schema.php:103-106 | The column entries in the statement are the finished ones in push order, joined by `,` and a newline, with the pending column last. |
| Schema.BuildNotIdempotent | src/Migrations/Schema.php:87-113 | build() does not clear the pending column, so a second build() pushes it again without constraints and renders a longer statement. |
| MysqlSchema.ColumnTypeEffect | src/Migrations/MysqlSchema.php:10-27 | string() and integer() push the previous column and start a new definition with no constraints. Only integer() records the column name. |
| MysqlSchema.ConstraintEffect | src/Migrations/MysqlSchema.php:36-48 | unique(), primary(), default(), unsigned() and autoIncrement() each append their own fragment and change nothing else. The default value is inserted as it is. |
| MysqlSchema.ForeignEffect | src/Migrations/MysqlSchema.php:50-55 | foreign() appends one fragment naming the recorded column and changes nothing else. |
| MysqlSchema.CheckIndexEffect | src/Migrations/MysqlSchema.php:57-72 | check() and index() change no field. |
| MysqlSchema.RunSnoc | src/Migrations/MysqlSchema.php:10-86 | Running one more call is applying it to the result so far. |
| MysqlSchema.Apply | src/Migrations/MysqlSchema.php:10-86 | Defines what each column method does to the fields; see ColumnTypeEffect, ConstraintEffect, ForeignEffect, CheckIndexEffect and NullableEffect. |
| MysqlSchema.Run | src/Migrations/MysqlSchema.php:10-86 | Defines a migration's calls applied in order; see RunSnoc, RunColumnName, ForeignReferencesLastInteger and RunKeepsTableFields. |
| MysqlSchema.RunColumnName | src/Migrations/MysqlSchema.php:24 | The recorded column name is that of the last integer() call, or the earlier one when there is none. |
| MysqlSchema.ForeignReferencesLastInteger | src/Migrations/MysqlSchema.php:50-55 | A foreign key references the most recent integer() column, or the empty name when none came before. |
| MysqlSchema.RunKeepsTableFields | src/Migrations/MysqlSchema.php:43-48 | No column method touches the table name, the statement, the primary key or the indexes. |
| MysqlSchema.PrimaryKeyStaysEmpty | src/Migrations/Schema.php:107 | A migration built from scratch renders no table-level primary key. |
| MysqlSchema.NullableEffect | src/Migrations/MysqlSchema.php:29-34 | On a column just defined, with a name without spaces, nullable() drops exactly the trailing ` NOT NULL` and keeps the constraints. |
| MysqlSchema.NullableIdempotent | src/Migrations/MysqlSchema.php:31 | On such a column, a second nullable() changes nothing. |
| MysqlSchema.NullableNotIdempotentInGeneral | src/Migrations/MysqlSchema.php:31 | When the name holds spaces, a second nullable() can remove more: `str_replace` does not rescan its output, so ` NOT N NOT NULLULL` becomes ` NOT NULL`, which a second call removes. |
| MysqlSchema.Builder.constructor | src/Migrations/Schema.php:15-71 | The fields start at their initial values. |
| MysqlSchema.Builder.SetTable | src/Migrations/Schema.php:78-81 | The fields move as `Schema.SetTable` says. |
| MysqlSchema.Builder.PushColumn | src/Migrations/Schema.php:87-94 | The fields move as `Schema.PushColumn` says. |
| MysqlSchema.Builder.Build | src/Migrations/Schema.php:101-113 | The step-by-step appends to the query give `Schema.Build`'s statement, and the method returns it. |
| MysqlSchema.Builder.String | src/Migrations/MysqlSchema.php:10-17 | The fields move as the string() call says. |
| MysqlSchema.Builder.Integer | src/Migrations/MysqlSchema.php:19-27 | The fields move as the integer() call says. |
| MysqlSchema.Builder.Nullable | src/Migrations/MysqlSchema.php:29-34 | The fields move as the nullable() call says. |
| MysqlSchema.Builder.Unique | src/Migrations/MysqlSchema.php:36-41 | The fields move as the unique() call says. |
| MysqlSchema.Builder.Primary | src/Migrations/MysqlSchema.php:43-48 | The fields move as the primary() call says. |
| MysqlSchema.Builder.Foreign | src/Migrations/MysqlSchema.php:50-55 | The fields move as the foreign() call says. |
| MysqlSchema.Builder.Check | src/Migrations/MysqlSchema.php:57-60 | No field changes. |
| MysqlSchema.Builder.Default | src/Migrations/MysqlSchema.php:62-67 | The fields move as the default() call says. |
| MysqlSchema.Builder.Index | src/Migrations/MysqlSchema.php:69-72 | No field changes. |
| MysqlSchema.Builder.Unsigned | src/Migrations/MysqlSchema.php:74-79 | The fields move as the unsigned() call says. |
| MysqlSchema.Builder.AutoIncrement | src/Migrations/MysqlSchema.php:81-86 | The fields move as the autoIncrement() call says. |
| OrderedMap.PutLookup | src/WhereConditions.php:30 | Assigning a key binds it to the new value; every other key keeps its value. |
| OrderedMap.PutKeys | src/WhereConditions.php:30 | An existing key keeps its position; a new key goes to the end. |
| OrderedMap.Put | src/WhereConditions.php:30 | Defines `$m[$k] = $v` on an insertion-ordered array; see PutLookup and PutKeys. |
| OrderedMap.PutAllLookup | src/WhereConditions.php:281 | After assigning distinct keys in order, each holds its own value and every other key keeps its value. |
| OrderedMap.MergeLookup | src/CrudOperations.php:106 | array_merge with string keys: the second array's value wins on a shared key. |
| OrderedMap.Merge | src/CrudOperations.php:106 | Defines array_merge for string keys; see MergeLookup. |
| OrderedMap.PutAllRebuilds | src/CrudOperations.php:99 | Assigning the entries of an array with distinct keys into an empty array rebuilds it. |
| Strings.SplitImplode | src/CrudOperations.php:75 | Splitting a comma-joined list of comma-free pieces gives the pieces back. |
| Strings.ReplaceAllNoMatch | src/Migrations/MysqlSchema.php:31 | str_replace changes nothing in text where the search string does not occur. |
| Strings.ReplaceAll | src/Migrations/MysqlSchema.php:31 | Defines str_replace with one search string: one left-to-right pass that does not rescan the replaced text; see ReplaceAllNoMatch and MysqlSchema.NullableNotIdempotentInGeneral. |
| Strings.Implode | src/CrudOperations.php:36 | Defines implode; see SplitImplode and ImplodeContains. |
| Strings.Trim | src/WhereConditions.php:390 | trim with one character: the result neither starts nor ends with that character, holds only characters of the input, and is the input itself when the character does not occur; see TrimSlice. |
| Strings.TrimSlice | src/WhereConditions.php:390 | trim's result is the slice of the input between its leading and its trailing run of the character, and only that character is dropped at either end. |
| Strings.ToLower | src/WhereConditions.php:386 | strtolower on ASCII letters: the length is kept, every capital becomes the letter 32 code points above it, every other character is kept, and no capital is left. |
| Strings.IntToString | src/Migrations/MysqlSchema.php:14 | Integer interpolation: a non-empty text without spaces that starts with `-` exactly for negative values; the rest is decimal digits that read back (`ParseDigits`) as the magnitude. |
| Strings.NatToStringInjective | src/WhereConditions.php:26 | Distinct counters render as distinct decimal texts. |
| Strings.ImplodeContains | src/WhereConditions.php:284 | Every piece occurs in the imploded text. |

## Left out

- Running statements is not modelled: `execute()`, the PDO driver, `fetchAll()` and the fetch style belong to the database class. Insert and InsertMany return the statement and the parameters, and InsertMany takes each insert's outcome as a parameter.
- The reflective call `$this->$method($column, ...$arguments)` in `__call` is not modelled. The model stops at the method name and the column it computes.
- The database class, the migration factory and the schema interface are not part of this model.
- Substituting the real table name for `#$MAINTABLE$#`, and the character set and collation for their placeholders, happens outside the modelled code. The placeholders are kept as plain text.
- Chaining is not modelled. The methods return nothing instead of `$this`; in the source, check() and index() return nothing, so chaining after them would fail.
- CrudOperations.UpdateParamsLookup: keys of update()'s data are modelled as strings only. PHP turns numeric-string keys into integers, which `array_merge` then renumbers.
- CrudOperations.LastStringKey: insert()'s keys are either integers or strings as given. The conversion of numeric-string keys to integers happens before the call and is not modelled.
- CrudOperations.InsertStatementPlaceholderCount: the count of `?` in the whole INSERT statement is proved only when neither the table name nor any string key contains `?`; the source interpolates both unescaped, so otherwise the statement holds more `?` than values (InsertPlaceholderCount covers the VALUES list alone).
- MysqlSchema.NullableEffect: dropping exactly the trailing ` NOT NULL` is proved only for column names without spaces. With spaces, `str_replace` can also remove text inside the name, as NullableNotIdempotentInGeneral shows.
- MysqlSchema.NullableIdempotent: proved only for column names without spaces. For other names it does not hold, as NullableNotIdempotentInGeneral shows.
- The schema interface also declares text(), binary(), double(), decimal(), bool(), date(), datetime(), timestamp(), time(), year(), increments() and timestamps(). The MySQL dialect class defines none of them, so they have no code to model. Because the class declares that it implements the interface without these methods, PHP refuses to declare the class and stops with a fatal error when the class is loaded; the model describes the methods as written and does not capture that failure.
- The PHP methods string(), integer() and default() are named String, Integer and Default in the model.
- The query builder's methods do not require `Valid`. Each one ensures that `Valid` is kept when it held before, and the constructor establishes it.
- Lengths, sizes and the per-column placeholder counters are unbounded integers rendered in decimal, with a sign for negative lengths and sizes. In PHP a counter incremented past PHP_INT_MAX becomes a float and its placeholder text changes; the model does not capture that. PHP's interpolation of non-integer arguments is not modelled.
