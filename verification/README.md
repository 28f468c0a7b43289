# Verified models of sqlgen

sqlgen compiles typed C++ queries into SQL text and moves rows in and out of databases. This
project models its query compiler, its shared-state protocols and its data path in Dafny, and
proves what each of them is for. `dafny verify dfyconfig.toml` checks everything.

**Query compiler.** `SqlTree` holds the dynamic operation and condition trees and the PostgreSQL
printer (the DuckDB printer has the same branches). `SqlMeaning` gives the trees their value on a
row of a group, in three-valued logic, leaving open what single functions compute. `SqlLexer`,
`SqlParser` and `SqlNames` are an independent reader: a lexer for SQL-92 tokens, an
operator-precedence parser after the PostgreSQL documentation, section 4.1.6, and a table of the
names of functions, operators, aggregates, date parts and types. `PrintedTokens`, `PrintedText`,
`PrinterCorrect` and `PrinterMeaning` prove that the printed text, read by that parser, has the
value of the tree, on every row and under every interpretation of the functions. `PrintedAlike`
proves which trees have the same text: those with the same normal form, in which nested date
additions are flattened, cast types are known by their names (so `Text` and `UnknownType` are the
same), and `COUNT(*)` has no DISTINCT. Everything else is read back from the text. The printer leans
partly on parentheses and partly on precedence (`a + INTERVAL ... + INTERVAL ...`,
`cast(..) - cast(..) = 1`, `a || b` inside parentheses), so the proof argues precedence where the
source does.

**Type level.** `Joins` models the right fold that makes tables of a join chain optional, against
left-to-right join semantics, and says exactly which tables a row can have null-extended together.
`Nullability` models the type rules for expressions, end to end with the joins. `TypeSafety`
compares what the rules accept with the database's own typing of the SQL. `Aggregations` models the
GROUP BY check on flattened fields.

**Shared state.** `Cache`, `Pool` and `Transactions` each hold the objects as classes and, beside
them, a state machine of atomic steps, with invariants over every interleaving. The class
`Program` in `Pool` and in `Transactions` runs the objects beside the state machine, so that what
holds of every run holds of the objects.
`ReadsInTransactions` models what reading does to the transaction a PostgreSQL connection is in.

**Data path.** `Write` (batched writes over SQLite and MySQL), `Copy` (the COPY row encoder against
PostgreSQL's CSV decoder), `CopyWrite` (batched writes over PostgreSQL's COPY), `Iterators` (three
end-of-result protocols behind one iterator), `Strings` (join, split, replace_all), `Durations`.
The databases are small models in which any call may fail. `Rows` and `Numbers` hold what several
of these share.

## Where the code falls short of what it is for

The models follow the code. These are the places where a property fails. For each there is the
exact condition under which it holds, and an input or a run where it does not.

- `in(...)` with an empty vector prints `IN ()`, which is not SQL. Exactly then a condition does not
  parse: `PrintedConditionMeans`; `EmptyInDoesNotParse`.
- `cast<T>(std::nullopt)` has the non-nullable type `T` and is always NULL; SUM, AVG, MIN and MAX
  keep the type of their argument and are NULL over no rows. Condition: `PromiseIsBroken`, and with
  COALESCE `CanBeNullIsExact`. Inputs: `NullLiteralIsNotNullable`, `SumOfNothingIsNull`.
- A type can be nullable where the value is never NULL: that of COALESCE over a full join, of COUNT
  of a nullable column inside an operation, of a cast to an optional type and of an optional literal
  that holds a value. Condition: `TightByPattern`. Inputs: `CoalesceOverFullJoin`,
  `CountPlusOneIsTooWide`, `OptionalCastIsTooWide`, `OptionalLiteralIsTooWide`.
- The product of two strings compiles, since all arithmetic is checked as `+`, and so does the
  absolute value of a bool; PostgreSQL runs neither. COUNT of a column has the column's type inside
  an operation. Condition: `CompilesExactlyIf`. Inputs: `StringsAreMultiplied`,
  `BoolHasAbsoluteValue`, `CountIsNoString`.
- The aggregation check rejects COALESCE over an ungrouped column behind an operand that is never
  NULL. Condition: `CheckIsExact`. Inputs: `CoalesceIsRejectedAnyway`,
  `CoalesceOfGroupedIsRejected`.
- The aggregation check looks at ORDER BY columns without looking at the fields, so
  `SELECT SUM(a) ... ORDER BY b` is accepted. Condition: `OrderByCheckIsAlmostExact`. Input:
  `OrderBesideSum`.
- `docs/cache.md` says that once a query's future is in the cache, other requests wait for it. The
  code runs the query again if the cached result is an error. Condition: `RunsQueryExactlyIf`.
  Run: `CachedFailureRunsAgain`.
- `docs/cache.md` says that eviction is first in, first out. The code evicts by last write, and a
  key that is written while it is in the cache moves to the end. Condition: `FifoExactlyIf`, no
  write is for a cached key other than the newest. No failure is needed: in
  `FifoBreaksWithoutFailure` two fetches of one key miss before either of them writes.
- The cache's key is the SQL alone, and all connections of a type share the cache, so a fetch can
  return what another connection has read. Condition: `ResultIsOwnExactlyIf`. Run:
  `OtherConnectionsResult`.
- `docs/transactions.md` says that a transaction succeeds as a whole or not at all. In PostgreSQL
  every read ends with END on the connection it is given, so a read inside a transaction commits
  what has been written, and a later rollback undoes nothing and reports success. Conditions:
  `RollbackUndoesExactlyIf`, `OnlyItsHandleEnds`. Run: `RolledBackInVain`.
- SQLite keeps `stmt_` if BEGIN fails, so every later write is refused until `end_write`; MySQL
  leaves the transaction open if COMMIT fails. Conditions: `Connection.Write`. Runs:
  `WriteAfterFailedBegin`, `TransactionAfterFailedCommit`.
- PostgreSQL's `write` is not all or nothing: when a row cannot be sent, `write_impl` ends the COPY
  normally and the rows before it stay. Condition: `PartlySent` with `CopyWrite.Connection.Write`.
  Run: `HalfWritten`.
- A fetch that fails while reading ends the iteration like the end of the result; MySQL also loses
  the rows of the batch being filled. Condition: `AllRowsArrive`. Inputs: `RowsGoMissing`.
- COPY gives back other rows, or fails, for fields with BEL, for unquoted line breaks, for the
  one-character field ESC, and for a lone `\.`. Condition: `CopyRoundTrip`. Inputs: `BellFails`,
  `LineBreakSplitsRow`, `EscapeBecomesNull`, `MarkerCutsOff`.
- Move assignment of a session or a transaction lets go of what the target held. Conditions:
  `AvailableIsExact`, `OpenIffUnended`. Runs: `MoveAssignmentLosesConnection`,
  `MoveAssignmentLeavesOpen`.
- `docs/connection_pool.md` says that `num_attempts` is the number of attempts. The pool does not
  store its configuration, so an `acquire` that fails has made ten. Condition:
  `FailedAcquireTriedTenTimes`, ten is what was configured. Run: `TenAttemptsInsteadOfFive`.
- SQLite does not read the text of a duration of 25 hours or more in milliseconds. Condition:
  `SqliteTextReadsBack`. Input: `TwentyFiveHoursAreNotRead`.

## Model

| member | source | states |
|---|---|---|
| `Strings.Join` | src/sqlgen/internal/strings/strings.cpp:39-49 | the accumulating loop computes the recursive join |
| `Strings.Split` | src/sqlgen/internal/strings/strings.cpp:63-74 | the erasing loop computes the pieces between the delimiters, for every non-empty delimiter |
| `Strings.ReplaceAll` | src/sqlgen/internal/strings/strings.cpp:51-61 | the in-place loop terminates and computes the recursive replacement, also when the new text contains the old one |
| `Strings.ReplaceIsJoinOfSplit` | src/sqlgen/internal/strings/strings.cpp:39-74 | replacing is joining with the new text what was split at the old one |
| `Strings.JoinUndoesSplit` | src/sqlgen/internal/strings/strings.cpp:39-74 | joining the pieces gives the string back |
| `Strings.SplitUndoesJoin` | src/sqlgen/internal/strings/strings.cpp:39-74 | splitting a joined list gives the list back if and only if no delimiter begins inside a piece |
| `SqlLexer.ScanEscaped` | src/sqlgen/postgres/to_sql.cpp:422-424 | a quoted, escaped string followed by anything but a quote is read back to exactly that string and the remaining text |
| `PrintedText.LexPrintedOperation` | src/sqlgen/postgres/to_sql.cpp:530-692 | the text of an operation lexes to the intended tokens: no two of them merge |
| `PrintedText.LexPrintedCondition` | src/sqlgen/postgres/to_sql.cpp:165-251 | the same for conditions |
| `PrinterCorrect.OperationParses` | src/sqlgen/postgres/to_sql.cpp:530-692 | the text of every operation parses under standard precedence, to the intended expression |
| `PrinterCorrect.ConditionParses` | src/sqlgen/postgres/to_sql.cpp:165-251 | the text of a condition parses, to the intended expression, if and only if no IN list in it is empty |
| `PrinterMeaning.ValueKept` | src/sqlgen/postgres/to_sql.cpp:126-163 | the text of every literal denotes the literal: strings with quotes, negative numbers, intervals, timestamps |
| `PrinterMeaning.PrintedOperationMeans` | src/sqlgen/postgres/to_sql.cpp:530-692 | printing preserves meaning: the parsed text, with every name looked up in the reader's own tables, has the operation's value on every row and group, whatever the functions compute |
| `PrinterMeaning.PrintedConditionMeans` | src/sqlgen/postgres/to_sql.cpp:165-251 | the parsed text has the condition's truth value, UNKNOWN included; it parses if and only if no IN list is empty |
| `SqlMeaning.InIsSomeEqual` | src/sqlgen/postgres/to_sql.cpp:198-204 | what IN means there: TRUE exactly if the value equals one of the list, FALSE exactly if it differs from every one, neither where a NULL stands in the way |
| `PrintedAlike.OperationBack` | src/sqlgen/postgres/to_sql.cpp:530-692 | the parsed text of every operation determines the operation up to its normal form |
| `PrintedAlike.OperationsPrintAlike` | src/sqlgen/postgres/to_sql.cpp:530-692 | two operations print alike if and only if they have the same normal form: date additions flattened, cast types by name, no DISTINCT on COUNT(*) |
| `PrintedAlike.ConditionsPrintAlike` | src/sqlgen/postgres/to_sql.cpp:165-251 | the same for conditions, also with empty IN lists |
| `PrinterMeaning.EmptyInDoesNotParse` | src/sqlgen/postgres/to_sql.cpp:198-204 | IN and NOT IN with an empty list print text that is not SQL |
| `Joins.FoldIsPositional` | include/sqlgen/transpilation/table_tuple_t.hpp:28-57 | the backward fold makes table i optional if and only if its own join is left or full or a later join is right or full |
| `Joins.NullOnlyWhereAllowed` | include/sqlgen/transpilation/table_tuple_t.hpp:36-57 | in every row of every left-to-right join chain, a null-extended entry stands only where the fold allows it |
| `Joins.OptionalityIsExact` | include/sqlgen/transpilation/table_tuple_t.hpp:36-57 | a table is optional if and only if some table contents and ON conditions null-extend it, whatever rows the tables may hold |
| `Joins.PatternsAreExact` | include/sqlgen/transpilation/table_tuple_t.hpp:36-57 | which tables can be null-extended together: exactly the patterns the recursive rule allows, each for some contents and ON conditions, whatever rows the tables may hold |
| `Joins.OptionalInSomePattern` | include/sqlgen/transpilation/table_tuple_t.hpp:36-57 | the fold makes a table optional if and only if some possible pattern null-extends it |
| `Nullability.FindTableFindsLast` | include/sqlgen/transpilation/get_table_t.hpp:36-48 | the fold over aliases finds the last table of the alias, or none |
| `Nullability.ColumnOfTable` | include/sqlgen/transpilation/wrap_in_optional_t.hpp:15-25 | a column of a join chain has the type of its table's column, nullable if that is or if the table is optional |
| `Nullability.NullIsPredicted` | include/sqlgen/transpilation/underlying_t.hpp:27-286 | on every row and group that conforms to the column types, an expression is NULL only if the static analysis says it can be |
| `Nullability.CanBeNullIsExact` | include/sqlgen/transpilation/underlying_t.hpp:49-286 | for every accepted expression, the analysis says it can be NULL if and only if some conforming row and group make it NULL |
| `Nullability.NullableWherePossible` | include/sqlgen/transpilation/underlying_t.hpp:49-286 | without null literals, and with rows to aggregate, an accepted expression that can be NULL has a nullable type |
| `Nullability.TypeIsExactIf` | include/sqlgen/transpilation/underlying_t.hpp:27-286 | for every accepted expression without null literals: the type is nullable if and only if some conforming row makes the value NULL, unless it is nullable and the analysis says the value cannot be NULL |
| `Nullability.NullableIffNullSomewhere` | include/sqlgen/transpilation/underlying_t.hpp:49-286 | that exception does not occur, COALESCE included, in expressions with no optional literal, no optional cast target and no COUNT of a column |
| `Nullability.PromiseIsBroken` | include/sqlgen/transpilation/underlying_t.hpp:27-57 | without COALESCE, a non-nullable type is wrong exactly if there is a nullopt or nullptr literal, or SUM, AVG, MIN or MAX of an empty group; with COALESCE, `CanBeNullIsExact` says when |
| `Nullability.NullLiteralIsNotNullable` | include/sqlgen/transpilation/underlying_t.hpp:49-57 | the concrete failure: a cast nullopt is typed non-nullable and always NULL |
| `Nullability.SumOfNothingIsNull` | include/sqlgen/transpilation/underlying_t.hpp:27-31 | the other one: SUM of a non-nullable column is typed non-nullable and NULL over no rows |
| `Nullability.ProducedConforms` | include/sqlgen/transpilation/table_tuple_t.hpp:23-57 | every row a join chain can produce conforms to the column types of its table tuple |
| `Nullability.NonNullableIsNeverNull` | include/sqlgen/transpilation/underlying_t.hpp:27-286 | end to end: for any join chain, contents and accepted expression, a non-nullable type means the value is NULL on no row of the result and in no non-empty group |
| `Nullability.NullOnSomeRowIsExact` | include/sqlgen/transpilation/table_tuple_t.hpp:23-57 | for every accepted expression, COALESCE included: some contents and ON conditions make it NULL on a result row if and only if some tables that can be null-extended together do |
| `Nullability.TightByPattern` | include/sqlgen/transpilation/underlying_t.hpp:27-286 | for every accepted expression without null literals: the type is exact (nullable if and only if the value is NULL on some result row) if and only if such a pattern exists whenever the type is nullable |
| `Nullability.NullableIsExact` | include/sqlgen/transpilation/underlying_t.hpp:49-286 | it always exists in expressions with no COALESCE, no optional literal, no optional cast target and no COUNT of a column: there the type is nullable if and only if some contents and ON conditions make the value NULL on a result row |
| `Nullability.CoalesceOverFullJoin` | include/sqlgen/transpilation/underlying_t.hpp:59-78 | with COALESCE it may not: over a full join the type is nullable and the value NULL on no row, for no contents and ON conditions |
| `Nullability.CountPlusOneIsTooWide` | include/sqlgen/transpilation/Aggregation.hpp:66-73 | nor for COUNT of a nullable column plus one, over every join chain |
| `Nullability.OptionalCastIsTooWide` | include/sqlgen/transpilation/underlying_t.hpp:49-57 | nor for a value cast to an optional type |
| `Nullability.OptionalLiteralIsTooWide` | include/sqlgen/transpilation/underlying_t.hpp:283-286 | nor for an optional literal that holds a value |
| `Nullability.ToDynamicMeans` | include/sqlgen/transpilation/make_field.hpp:39-385 | the dynamic tree made of a typed expression has the value the typed expression stands for, on every row and group |
| `TypeSafety.CompilesExactlyIf` | include/sqlgen/transpilation/underlying_t.hpp:27-286 | type safety: an expression compiles, and the database takes each node (`Takes`), if and only if the database can run its SQL and no node is refused (`Refused`); its values are then of the kind of its C++ type. The nodes that compile and do not run, and those that run and do not compile, are listed by their operands' types |
| `TypeSafety.StringsAreMultiplied` | include/sqlgen/transpilation/underlying_t.hpp:257-281 | concrete: the product of two string columns compiles and does not run |
| `TypeSafety.BoolHasAbsoluteValue` | include/sqlgen/transpilation/underlying_t.hpp:242-255 | concrete: so does the absolute value of a bool column |
| `TypeSafety.CountIsNoString` | include/sqlgen/transpilation/underlying_t.hpp:27-31 | concrete: length(COUNT(s)) of a string column compiles and does not run, COUNT(s) + 1 runs and does not compile |
| `Aggregations.DeterminedByLeaves` | include/sqlgen/transpilation/flatten_fields_t.hpp:34-55 | an expression whose flattened leaf columns are all grouped has the same value on all rows of a group |
| `Aggregations.PruneKeepsValue` | include/sqlgen/transpilation/flatten_fields_t.hpp:34-55 | on rows that conform to the column types, the operands of COALESCE behind the first that is never NULL make no difference |
| `Aggregations.MarksShow` | include/sqlgen/transpilation/flatten_fields_t.hpp:34-55 | under one interpretation and on two conforming rows of a group, the value differs if and only if a leaf column outside those operands is not grouped |
| `Aggregations.CheckIsExact` | include/sqlgen/transpilation/check_aggregations.hpp:19-59 | for any column types, where rows are grouped if there is a GROUP BY or some field holds an aggregation: an accepted query's fields do not depend on the conforming row that stands for the group; a query's fields do not depend on it if and only if the leaves up to those that COALESCE never looks at pass; so without COALESCE the check is exact |
| `Aggregations.CoalesceIsRejectedAnyway` | include/sqlgen/transpilation/check_aggregations.hpp:40-59 | the concrete over-rejection with COALESCE: behind a literal |
| `Aggregations.CoalesceOfGroupedIsRejected` | include/sqlgen/transpilation/check_aggregations.hpp:40-59 | and behind a grouped column that is not nullable |
| `Aggregations.OrderByCheckIsAlmostExact` | include/sqlgen/transpilation/order_by_t.hpp:35-49 | the check of ORDER BY columns is sound and complete except exactly for aggregating fields without GROUP BY |
| `Aggregations.OrderBesideSum` | include/sqlgen/transpilation/order_by_t.hpp:35-49 | the concrete exception: SUM(a) with ORDER BY b is accepted |
| `Aggregations.NestingIsBanned` | include/sqlgen/transpilation/make_field.hpp:116-154 | the recursive check accepts exactly the expressions with no aggregation inside another at any depth |
| `Cache.CacheImpl.MinElement` | include/sqlgen/cache.hpp:49-53 | the loop over the entries finds one with the smallest counter |
| `Cache.CacheImpl.WriteToCache` | include/sqlgen/cache.hpp:44-56 | the key gets the future and the next counter; if there are then too many entries the oldest is erased |
| `Cache.CacheImpl.Fetch` | include/sqlgen/cache.hpp:30-66 | a fetch without interference runs the query exactly if the key is absent or its cached result an error, returns the result of the future it ends up with, and writes to the cache only if it ran the query |
| `Cache.WrittenReflects` | include/sqlgen/cache.hpp:44-56 | one write keeps the cache equal to the most recently written keys; the key just written is never the one evicted |
| `Cache.MostRecentIsUnique` | include/sqlgen/cache.hpp:44-56 | "the n most recently written keys" determines the cache |
| `Cache.UnboundedHasLastWrites` | include/sqlgen/cache.hpp:47-47 | the reference the cache is compared with holds the last write of every key |
| `Cache.CacheHoldsMostRecent` | include/sqlgen/cache.hpp:30-66 | in every state reachable by any interleaving of fetches the cache holds exactly the max_size most recently written distinct keys, with distinct counters and each with its last future |
| `Cache.LimitIsUsed` | include/sqlgen/cache.hpp:24-25 | in every such state a cache with a limit holds as many of the keys ever written as it may, and one with the limit 0 all of them with their last futures, up to what a size_t counts |
| `Cache.FetchReturnsItsQuery` | include/sqlgen/cache.hpp:30-66 | in every interleaving a fetch returns the outcome of one query with its own SQL, and an error only of the query it ran itself |
| `Cache.CacheIsListed` | include/sqlgen/cache.hpp:30-66 | in every reachable state the cache's keys in the order of their counters are the list on which each write moves its key to the end and drops the first key if there are too many |
| `Cache.FifoExactlyIf` | include/sqlgen/cache.hpp:44-56 | the list is the first-in-first-out queue of docs/cache.md after every write if and only if no write is for a cached key other than the newest |
| `Cache.OneQueryPerFetch` | include/sqlgen/cache.hpp:58-65 | in every interleaving a fetch runs at most one query, with its own SQL; a query recorded as following a failed hit follows a query of that SQL that failed |
| `Cache.RunsQueryExactlyIf` | include/sqlgen/cache.hpp:34-65 | from every reachable state and in every interleaving: a fetch that reads the cache and has returned has run a query if and only if the key was absent when it read, or the future it found ended in an error |
| `Cache.ResultIsOwnExactlyIf` | include/sqlgen/cache.hpp:34-76 | in the same setting: the result comes from the fetch's own connection if and only if it ran the query itself, or the future it found was that of a query on its connection |
| `Cache.FetchCanFinish` | include/sqlgen/cache.hpp:58-65 | from every reachable state every fetch can be finished in at most seven steps of its own and of the query it waits for |
| `Cache.CachedFailureRunsAgain` | include/sqlgen/cache.hpp:58-65 | a run in which a query is started a second time although its future is in the cache, against docs/cache.md |
| `Cache.OtherConnectionsResult` | include/sqlgen/cache.hpp:68-76 | a run in which a fetch returns what another connection has read |
| `Cache.AnyWritesHappen` | include/sqlgen/cache.hpp:34-65 | any keys can be written in any order, also repeatedly, without any query failing or even ending |
| `Cache.FifoBreaksWithoutFailure` | include/sqlgen/cache.hpp:44-56 | such a run in which the cache evicts a key although another was inserted before it, against docs/cache.md |
| `Write.Connection.SqliteInsert` | src/sqlgen/sqlite/Connection.cpp:19-58 | inserts a prefix of the rows; Ok exactly if every row has the right width and the database lets none of its calls fail, one for each column and two for each row and one at the end, and then all rows are inserted; an Error can also come after the last row, from reset or clear_bindings |
| `Write.Connection.MySqlInsert` | src/sqlgen/mysql/Connection.cpp:22-76 | inserts a prefix of the rows; Ok exactly if every row has the right width and the database lets none of its calls fail, two for each row, and then all rows are inserted |
| `Write.Connection.StartWrite` | src/sqlgen/sqlite/Connection.cpp:151-166 | success opens a transaction and keeps the statement; failure leaves the transaction as it was, and the statement set exactly if SQLite's BEGIN was what failed |
| `Write.Connection.WriteImpl` | src/sqlgen/mysql/Connection.cpp:182-194 | success, exactly under the same condition, adds the batch to the transaction; failure rolls the whole transaction back |
| `Write.Connection.EndWrite` | src/sqlgen/sqlite/Connection.cpp:183-194 | clears the statement and commits, Ok exactly if the COMMIT succeeds, which SQLite only tries if a write has been started; SQLite rolls back if that fails, MySQL does not |
| `Write.Connection.WriteBatches` | include/sqlgen/internal/write_or_insert.hpp:13-31 | handing rows on in batches adds exactly the rows, in order, or on the first failing batch nothing; Ok exactly if the widths are right and the database lets none of the calls of all batches fail |
| `Write.Connection.WriteAndEnd` | include/sqlgen/write.hpp:32-46 | the started write is ended whether or not a batch fails; what is committed and what stays open |
| `Write.Connection.Write` | include/sqlgen/write.hpp:24-56 | all or nothing: the committed rows are the old ones, or the old and all new ones in order, the latter exactly if the connection is idle, the widths are right and the database lets none of the calls fail, whose number is given; what is left open, and exactly which failing calls leave it |
| `Write.WriteAfterFailedBegin` | src/sqlgen/sqlite/Connection.cpp:151-166 | a run: one BEGIN fails, the statement stays, and the next write is refused |
| `Write.TransactionAfterFailedCommit` | src/sqlgen/mysql/Connection.cpp:196-199 | a run: one COMMIT fails, and the transaction stays open with the rows in it |
| `Write.Connection.InsertBatch` | src/sqlgen/sqlite/Connection.cpp:86-93 | by contrast, insert keeps the rows before the failing one; Ok exactly if the widths are right and the database lets no call fail |
| `Copy.ReadSafeFields` | src/sqlgen/postgres/Connection.cpp:208-226 | the line of a safe row is split back into exactly its fields, NULLs included |
| `Copy.SafeRowsAreReadBack` | src/sqlgen/postgres/to_sql.cpp:927-935 | COPY of safe rows gives back exactly those rows |
| `Copy.DecodeCost` | src/sqlgen/postgres/to_sql.cpp:927-935 | whatever text the decoder accepts contains two quote characters for every quoted field and for every quote character in the rows |
| `Copy.MarkerCutsOff` | src/sqlgen/postgres/Connection.cpp:208-226 | a lone backslash-dot row loses itself and all rows behind it |
| `Copy.CopyRoundTrip` | src/sqlgen/postgres/Connection.cpp:208-226 | for all rows: COPY gives back exactly the rows sent if and only if no field has a BEL, none without a tab has a line break or is just ESC, and no row is a lone backslash-dot |
| `Copy.EscapeBecomesNull` | src/sqlgen/postgres/Connection.cpp:208-226 | the field ESC comes back as NULL |
| `Copy.LineBreakSplitsRow` | src/sqlgen/postgres/Connection.cpp:208-226 | a field with a line break comes back as two rows |
| `Copy.BellFails` | src/sqlgen/postgres/Connection.cpp:208-226 | a field BEL makes COPY fail |
| `CopyWrite.Connection.WriteImpl` | src/sqlgen/postgres/Connection.cpp:236-248 | sends the encoded rows in order; at the first call that fails it ends the COPY, and the rows sent so far arrive unless that fails too |
| `CopyWrite.Connection.EndWrite` | src/sqlgen/postgres/Connection.cpp:43-54 | ends the COPY: Ok exactly if there is one, the call succeeds and the server can read the text, which then arrives |
| `CopyWrite.Connection.WriteBatches` | include/sqlgen/internal/write_or_insert.hpp:13-31 | handing rows on in batches sends exactly the rows, in order, up to the first call that fails |
| `CopyWrite.Connection.Write` | include/sqlgen/write.hpp:24-56 | Ok exactly if no call fails and the server can read the text; the table gets what the server reads of the rows that were sent when the COPY was ended, nothing if it never was |
| `CopyWrite.Connection.SafeRowsAdded` | src/sqlgen/postgres/Connection.cpp:208-226 | of safe rows the table gets exactly those that were sent |
| `CopyWrite.PartlySent` | src/sqlgen/postgres/Connection.cpp:236-248 | the COPY is ended with some but not all rows exactly if a row cannot be sent and one of the two calls that end the COPY then succeeds |
| `CopyWrite.HalfWritten` | src/sqlgen/postgres/Connection.cpp:236-248 | a run: the second of two rows cannot be sent, the write fails, and the first row is in the table |
| `Iterators.Cursor.NextSqlite` | src/sqlgen/sqlite/Iterator.cpp:26-57 | the next rows in order; an error or no rows only when all that will arrive have been handed out |
| `Iterators.Cursor.NextPostgres` | src/sqlgen/postgres/Iterator.cpp:30-70 | the same with the lazy end flag and shutdown |
| `Iterators.Cursor.FetchRows` | src/sqlgen/mysql/Iterator.cpp:19-43 | the loop of fetches: an error, a short batch or a full one, and what each says about the total |
| `Iterators.Cursor.NextMySql` | src/sqlgen/mysql/Iterator.cpp:12-44 | the same with the end flag set on a short batch |
| `Iterators.Cursor.Destroy` | src/sqlgen/postgres/Iterator.cpp:84-90 | the PostgreSQL cursor is closed and its transaction ended exactly once, wherever reading stopped |
| `Iterators.AllRowsArrive` | src/sqlgen/mysql/Iterator.cpp:19-28 | for each backend exactly which failing calls make rows go missing |
| `Iterators.RowsGoMissing` | src/sqlgen/mysql/Iterator.cpp:19-28 | concrete numbers for each backend with one failing fetch |
| `Iterators.Iterator.AtEnd` | include/sqlgen/Iterator.hpp:38-40 | equal to End exactly when all rows that arrive are behind it |
| `Iterators.Iterator.Advance` | include/sqlgen/Iterator.hpp:44-52 | moves on by exactly one row, fetching a batch when needed |
| `Iterators.ReadToEnd` | include/sqlgen/Iterator.hpp:29-65 | iterating from begin to End terminates and sees exactly the rows that arrive, in order, each once |
| `Iterators.ReadAll` | include/sqlgen/Iterator.hpp:29-65 | the same for a fresh result on every backend, every batch size of at least one and every pattern of failures |
| `Pool.ConnectionPool.constructor` | include/sqlgen/ConnectionPool.hpp:29-38 | as many distinct clear flags as configured; the stored configuration is the default one |
| `Pool.ConnectionPool.Acquire` | include/sqlgen/ConnectionPool.hpp:54-67 | without interference: the first free connection, or an error if and only if none is free, after ten tests of every flag; no other flag changes |
| `Pool.ConnectionPool.Available` | include/sqlgen/ConnectionPool.hpp:70-75 | the number of clear flags |
| `Pool.Session.MoveAssign` | include/sqlgen/Session.hpp:57-65 | takes over connection and flag and forgets its own flag; self-assignment changes nothing |
| `Pool.RunKeepsInvariant` | include/sqlgen/Session.hpp:25-65 | every interleaving keeps each flag set exactly if one session, one acquire or one past move assignment holds it |
| `Pool.OwnershipIsExclusive` | include/sqlgen/ConnectionPool.hpp:54-67 | in every interleaving no two sessions own the same connection, and owned flags are set |
| `Pool.Program.Run` | include/sqlgen/Session.hpp:25-65 | the pool and session objects go through every run of the state machine, so that what is proved of runs holds of them |
| `Pool.Program.Acquire` | include/sqlgen/ConnectionPool.hpp:54-67 | an acquire of the pool object without interference is such a run: its tests one by one, and the session |
| `Pool.AvailableIsExact` | include/sqlgen/ConnectionPool.hpp:70-75 | in every interleaving the free connections are all but the owned ones, those being handed out, and one for each move assignment onto an owning session |
| `Pool.FailedAcquireTriedTenTimes` | include/sqlgen/ConnectionPool.hpp:54-67 | in every interleaving an acquire that ends without a connection has gone through all flags exactly ten times, which is as often as configured exactly if that is ten |
| `Pool.TenAttemptsInsteadOfFive` | include/sqlgen/ConnectionPool.hpp:29-38 | a run: configured for five attempts, the second of two acquires on a pool of one makes ten |
| `Pool.MoveAssignmentLosesConnection` | include/sqlgen/Session.hpp:57-65 | a run: of two sessions one is assigned the other, both are destroyed, and one connection stays taken |
| `Transactions.Transaction.Commit` | include/sqlgen/Transaction.hpp:43-51 | refused after the end; otherwise ends the transaction exactly if COMMIT succeeds, and then its rows are added to the table |
| `Transactions.Transaction.Rollback` | include/sqlgen/Transaction.hpp:82-90 | the same with ROLLBACK, and the table stays as it is |
| `Transactions.Transaction.MoveAssign` | include/sqlgen/Transaction.hpp:67-75 | takes over connection and state; the source is ended, and the target's own transaction is not |
| `Transactions.Transaction.Destroy` | include/sqlgen/Transaction.hpp:27-31 | rolls back a transaction that has not ended; the table stays as it is |
| `Transactions.BeginOn` | include/sqlgen/begin_transaction.hpp:13-19 | a Transaction object exactly if BEGIN succeeded |
| `Transactions.UnendedIsOpen` | include/sqlgen/Transaction.hpp:43-51 | whenever a live handle has not ended, its connection is in a transaction, so its COMMIT or ROLLBACK is legal |
| `Transactions.TableHasCommittedRows` | include/sqlgen/Transaction.hpp:16-90 | over every run and any number of connections: the table has exactly the rows of the committed transactions, in the order of their COMMITs, besides those inserted outside of a transaction; each connection is in a transaction exactly if its last BEGIN has not been ended, with the rows inserted since |
| `Transactions.Program.Run` | include/sqlgen/Transaction.hpp:16-90 | the transaction and connection objects go through every run of the state machine, each call succeeding exactly if its step does, so that what is proved of runs holds of them |
| `Transactions.AtMostOneUnended` | include/sqlgen/Transaction.hpp:16-51 | over every run and any number of connections: at most one live handle per connection has not ended, and every transaction begun is ended at most once |
| `Transactions.OpenIffUnended` | include/sqlgen/Transaction.hpp:16-90 | after a run the connections in a transaction are exactly those with one unended live handle, if and only if no handle with an open transaction was assigned to |
| `Transactions.MoveAssignmentLeavesOpen` | include/sqlgen/Transaction.hpp:67-75 | a run: of two transactions one object is assigned the other, both are destroyed, and one connection stays in its transaction |
| `ReadsInTransactions.Reader.constructor` | src/sqlgen/postgres/Iterator.cpp:14-18 | a read runs BEGIN, which inside a transaction changes nothing |
| `ReadsInTransactions.Reader.Shutdown` | src/sqlgen/postgres/Iterator.cpp:84-90 | a read runs END once, which commits the open transaction, whoever began it |
| `ReadsInTransactions.Read` | include/sqlgen/Transaction.hpp:77-80 | reading into a container through a connection is BEGIN and END on it |
| `ReadsInTransactions.OnlyItsHandleEnds` | include/sqlgen/Transaction.hpp:43-51 | a transaction is left for its object to end if and only if nothing on the connection ends it before, so not if anything is read |
| `ReadsInTransactions.RollbackUndoesExactlyIf` | include/sqlgen/Transaction.hpp:82-90 | for all calls between BEGIN and ROLLBACK: the table is as it was if and only if every row was inserted into an open transaction whose next end is not a commit |
| `ReadsInTransactions.RolledBackInVain` | src/sqlgen/postgres/Iterator.cpp:84-90 | a run: a row, a read, a rollback, and the row is in the table |
| `Durations.SqliteTextReadsBack` | src/sqlgen/sqlite/to_sql.cpp:116-137 | SQLite's text of a duration denotes that signed duration, minutes and seconds below 60, weeks as days; it is not read exactly if it is 25 hours or more in milliseconds |
| `Durations.TwentyFiveHoursAreNotRead` | src/sqlgen/sqlite/to_sql.cpp:118-127 | the shortest such duration |
| `Durations.FlatIsNested` | src/sqlgen/mysql/to_sql.cpp:384-403 | the flat date_add text is the recursively nested one if and only if there is at least one duration, which the builders guarantee |
| `Durations.PlusDurationAdds` | include/sqlgen/transpilation/Operation.hpp:137-156 | adding a duration to a date or to such a sum adds its value to the sum's, last |
| `Durations.SumsStayFlat` | include/sqlgen/transpilation/Operation.hpp:137-156 | however many durations are added one by one, there is one sum, of the first date, with the old and then the new durations in order |

## Left out

- PrinterMeaning.PrintedOperationMeans: assumes that column names contain no quote character, that aliases, enum and dynamic type names are plain words and aliases are not reserved words, and that doubles are finite; keywords are recognised in the spelling the library prints. Operand lists and lists of durations are not empty, which the builders guarantee.
- Nullability.NonNullableIsNeverNull: functions and operators are assumed total and NULL exactly on NULL operands; division by zero and the like are errors, not values.
- TypeSafety.CompilesExactlyIf: types are told apart by kind only (number, boolean, text, time, others by name), so that `round` and `mod` of a double, which PostgreSQL lacks, count as numbers; NULL literals, whose type PostgreSQL takes from the context, are excluded; COUNT is of number columns, `CountIsNoString` says why. Nested aggregations, refused on both sides, are the subject of `Aggregations.NestingIsBanned`.
- PrintedAlike.OperationsPrintAlike: under the same assumptions on names.
- Nullability.NullOnSomeRowIsExact: aliases are distinct, as the database requires of them.
- Aggregations.CheckIsExact: functions and operators are arbitrary, and may give NULL for any operands; an operand counts as never NULL only if no choice of them can make it so. COALESCE is a node of its own, as the builders make it, and not one of the binary functions.
- CopyWrite.Connection.Write: starts outside of a COPY; that the result of a COPY ended by `write_impl` is never fetched, and what libpq does with it later, is not modelled.
- Copy.CopyRoundTrip: assumes at least one column, and the end-of-data marker of PostgreSQL up to version 17; character encodings and NUL are not modelled.
- Durations.SqliteTextReadsBack: for values where `std::abs` and the product with seven do not overflow.
- ReadsInTransactions.RollbackUndoesExactlyIf: for one connection; calls that fail, and the aborted state PostgreSQL keeps after an error, are not modelled.
- Write.Connection.Write: ROLLBACK is assumed to succeed; that SQLite may end a transaction by itself on some errors is not modelled; MySQL's implicit commits inside an open transaction are excluded by starting outside of one; SQLite rows are at least as wide as the table, which holds for rows of one struct.
- Transactions.AtMostOneUnended: BEGIN inside a transaction is assumed to fail, as in SQLite (PostgreSQL only warns, MySQL commits), and the destructor's ROLLBACK to succeed.
- Transactions.TableHasCommittedRows: under the same assumptions; an INSERT that fails adds nothing and changes nothing, while PostgreSQL then aborts the transaction.
- Iterators.ReadAll: the conversion of rows to structs, and PostgreSQL's BEGIN and DECLARE before the first fetch, are not part of this model.
- Cache.CacheHoldsMostRecent: `std::async` is assumed to start its thread; failure to do so is an exception, which is not modelled.
- Strings.Split: an empty delimiter, with which the source loops forever, is excluded, as for `Strings.ReplaceAll`.
- Counters of `size_t` are unbounded; fewer than 2^64 cache writes are assumed.
- Statement texts around the expressions (SELECT, joins, CREATE, DROP, UPDATE, DELETE), type-name tables and the printers of SQLite and MySQL, whose operators bind differently: one-branch facts.
- Nested queries as join operands: the source does not define their optional form.
- The select-field type of a top-level cast (it ignores nullability): the theorems are about the rules of underlying_t.hpp.
- What C++ `+` yields on two types is a parameter; timestamp formats are one type.
- Database drivers, sockets, threads' memory order and time: the protocols are interleavings of atomic steps, and the drivers are small state models whose calls may fail.
- Exceptions, the DuckDB iterator (which keeps yielding an error), JSON, wrapper types and the fluent builders.
