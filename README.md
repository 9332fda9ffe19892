# common-util-py `db` package, modelled in Dafny

This project models the database helpers of the `common_util_py.db` package
and proves what they promise.

- `sql.py` holds the SQL text builders. `build_where_clause` turns a list of
  `Condition(op, field, cmp, value)` into a `(clause, params)` pair.
  `insert`, `insert_rows`, `update` and `select` assemble parameterised
  statements from a table name and a dict or list of fields.
- `database.py` holds `sanitize_identifier`, a character filter that keeps
  only alphanumerics and `_`.
- `mysql.py` holds the `Mysql` class. It opens one connection eagerly, runs
  one statement per CRUD helper, and offers two context managers, `cursor`
  and `transaction`.

Files:

| file | module | contents |
|---|---|---|
| `wrappers.dfy` | `Wrappers` | `Option`, `Result` and `Outcome` (a result with no value) |
| `values.dfy` | `Values` | the Python values a statement binds, and rows |
| `text.dfy` | `Text` | the Python string operations used: `str.join`, `str.replace` (left to right, non-overlapping), ASCII `str.upper` and `str.isalnum`, and a count of `%s` placeholders |
| `database.dfy` | `Database` | `sanitize_identifier` and its laws |
| `sql.dfy` | `Sql` | `Condition`, the where-clause builder (a loop, as in the source) with its specification function, and the statements of `insert`, `insert_rows`, `update` and `select` |
| `driver.dfy` | `Driver` | the `mysql.connector` driver as an object. It records each call in a ghost trace of events and chooses its answers freely: success or failure, liveness, autocommit mode and row counts |
| `mysql.dfy` | `MysqlClient` | the exceptions, and the class `Mysql` with its field `conn`. Each method states the calls it makes, and what it returns or raises, as functions of the driver's answers |

A Python exception is a `Failure`/`Fail` value that carries an `Error`:
its class, its message, and the exception it was raised `from`.

A `with` block over a context manager is split into two halves:

1. an `Enter` method runs the generator up to its `yield`;
2. the caller's block runs;
3. an `Exit` method receives how the block ended (`Pass`, or `Fail(err)`)
   and runs the rest.

## Model

| member | source | states |
|---|---|---|
| `Sql.BuildWhereClause` | src/common_util_py/db/sql.py:51-72 | For every input list: the clause is the joined-and-replaced text of `conditions[1:]` (`WhereClause`), and the params are the values of the non-NULL-test conditions in input order (`BoundValues`). An empty list gives exactly `("", [])`. The loop's invariant ties the fragments built so far to the first `i` conditions. |
| `Sql.WhereClause` | src/common_util_py/db/sql.py:51-70 | The clause as the source builds it: `""` for no conditions, otherwise the replacements applied to `" WHERE "` and the joined pieces of `conditions[1:]`. `WhereClausePrefix`, `SingleConditionClause`, `WhereClauseDropsFirst`, `AndThenOrField` and `WhereClausePlaceholders` state what it yields. |
| `Sql.BoundValues` | src/common_util_py/db/sql.py:58-63 | The params: the values of the conditions that are not NULL tests, in input order. `BoundValuesAppend` gives the loop's step and `NullTestFragment` gives the NULL case. |
| `Sql.Fragment` | src/common_util_py/db/sql.py:59-62 | One condition's text. `NullTestFragment`, `FragmentPlaceholders` and `FragmentHoldsCondition` state its shape: the field and comparator verbatim, then one `%s` unless it is a NULL test. |
| `Sql.IsNullTest` | src/common_util_py/db/sql.py:59 | The NULL-comparator test. `IsNullTestMeans` proves it equal to upper-casing followed by comparison; `NullTestIgnoresCase` and `OtherComparisonsBind` pin down examples on either side. |
| `Sql.DropLeadingOp` | src/common_util_py/db/sql.py:70 | The two global replacements. `FirstReplacementDropsAnd`, `FirstReplacementKeepsOr`, `SecondReplacementDropsOr`, `SecondReplacementKeepsBody` and `SecondReplacementEatsOr` state what they do to a clause. `DropLeadingOpKeepsPlaceholders` and `DropLeadingOpKeepsWhere` state what they never change. |
| `Sql.DropLeadingOpKeepsPlaceholders` | src/common_util_py/db/sql.py:70 | For every text, the replacements leave the number of `%s` unchanged. |
| `Sql.IntendedClause` | src/common_util_py/db/sql.py:65-69 | The corrected builder both findings use: every condition, the first without its operator. `IntendedClauseBindsEveryValue` and `IntendedKeepsFieldNames` state its properties. |
| `Sql.IsNullTestMeans` | src/common_util_py/db/sql.py:59 | A comparator counts as a NULL test iff its upper-cased text is `IS NULL` or `IS NOT NULL`. |
| `Sql.NullTestIgnoresCase` | src/common_util_py/db/sql.py:59 | `is null`, `Is Not Null` and `IS NULL` are all NULL tests. |
| `Sql.OtherComparisonsBind` | src/common_util_py/db/sql.py:59-63 | `=` and a bare `IS` are not NULL tests, so they emit `%s` and bind a value. |
| `Sql.NullTestFragment` | src/common_util_py/db/sql.py:59-60 | A NULL-test condition emits `field cmp` with its original comparator text, and binds no parameter. |
| `Sql.FragmentPlaceholders` | src/common_util_py/db/sql.py:59-62 | A fragment holds one `%s` when its comparator is not a NULL test and none when it is; prefixing it with its operator adds none. |
| `Sql.FragmentsAppend` | src/common_util_py/db/sql.py:58-62 | Appending a condition appends exactly its fragment to the list of fragments. |
| `Sql.BoundValuesAppend` | src/common_util_py/db/sql.py:58-63 | Appending a condition appends its value to the params iff its comparator is not a NULL test. |
| `Sql.SingleConditionClause` | src/common_util_py/db/sql.py:66-70 | A single condition yields exactly `" WHERE "`. |
| `Sql.WhereClausePrefix` | src/common_util_py/db/sql.py:66-70 | For every non-empty list, the clause starts with `" WHERE"`. |
| `Sql.WhereClauseDropsFirst` | src/common_util_py/db/sql.py:66-70 | With two or more conditions, the clause equals `" WHERE "` followed by the fragments of `conditions[1:]`, each after the first prefixed by its own operator, joined by single spaces. Conditions: no later field or comparator contains `WHERE`, and the second field does not start with `OR` while the second operator is `AND`. |
| `Sql.FirstReplacementDropsAnd` | src/common_util_py/db/sql.py:70 | The first `replace` turns a leading `WHERE AND` into `WHERE` and changes nothing else when the rest has no `WHERE`. |
| `Sql.FirstReplacementKeepsOr` | src/common_util_py/db/sql.py:70 | The first `replace` leaves a clause that starts with `WHERE OR` unchanged. |
| `Sql.SecondReplacementDropsOr` | src/common_util_py/db/sql.py:70 | The second `replace` turns a leading `WHERE OR` into `WHERE`. |
| `Sql.SecondReplacementKeepsBody` | src/common_util_py/db/sql.py:70 | The second `replace` leaves `" WHERE " + t` unchanged when `t` neither contains `WHERE` nor starts with `OR`. |
| `Sql.SecondReplacementEatsOr` | src/common_util_py/db/sql.py:70 | The second `replace` deletes the space and the leading `OR` of a body that starts with `OR` (for example a field named `ORIGIN`). |
| `Sql.WhereClausePlaceholders` | src/common_util_py/db/sql.py:58-72 | For every non-empty list whose later conditions hold no `%` text, the number of `%s` in the clause, plus one when the first condition is not a NULL test, equals `len(params)`. So whenever the first condition binds a value, the clause has one placeholder fewer than its params. This holds even where the replacements mangle a field name, since they never create or destroy a `%s` (`DropLeadingOpKeepsPlaceholders`). |
| `Sql.PrefixedPlaceholders` | src/common_util_py/db/sql.py:58-69 | The pieces `Prefixed` builds (each condition's operator, a blank and its fragment, one per condition, in order) hold exactly as many `%s` as the list binds values. |
| `Sql.IntendedClauseBindsEveryValue` | src/common_util_py/db/sql.py:58-72 | The corrected clause (all conditions, first operator dropped) has exactly one `%s` per bound value. |
| `Sql.IntendedKeepsFieldNames` | src/common_util_py/db/sql.py:66-70 | The corrected clause contains every condition's `field cmp` text verbatim, the first condition and any field starting with `OR` included, and its body begins with the first field. |
| `Sql.FirstConditionDropped` | src/common_util_py/db/sql.py:66-70 | As written: `[AND age > 18, OR city = X]` gives the clause `" WHERE city = %s"` but the params `[18, 'X']`. |
| `Sql.FirstConditionIntendedBinds` | src/common_util_py/db/sql.py:58-72 | For the same input, the corrected clause is `" WHERE age > %s OR city = %s"` and its two placeholders match the two params. |
| `Sql.AgeCityAsWritten` | src/common_util_py/db/sql.py:66-70 | The clause built as written for `[AND age > 18, OR city = X]` is `" WHERE city = %s"`. |
| `Sql.AgeCityIntended` | src/common_util_py/db/sql.py:66-70 | The corrected clause for the same input is `" WHERE age > %s OR city = %s"`. |
| `Sql.AndThenOrField` | src/common_util_py/db/sql.py:66-70 | When the second condition's operator is `AND` and its fragment starts with `OR`, the clause loses those two letters: `" WHERE"` followed by the fragment's remainder. |
| `Sql.IdOriginAsWritten` | src/common_util_py/db/sql.py:66-70 | As written: `[AND id = 1, AND ORIGIN = x]` gives `" WHEREIGIN = %s"`. |
| `Sql.IdOriginIntended` | src/common_util_py/db/sql.py:66-70 | The corrected clause for the same input is `" WHERE id = %s AND ORIGIN = %s"`. |
| `Sql.OrPrefixedFieldMangled` | src/common_util_py/db/sql.py:70 | As written, for the concrete input `[AND id = 1, AND ORIGIN = x]`: the clause is `" WHEREIGIN = %s"`, which differs from the corrected clause `" WHERE id = %s AND ORIGIN = %s"`. The general rule, which needs the second operator to be `AND`, is `Sql.AndThenOrField`. |
| `Sql.InsertBindsEveryValue` | src/common_util_py/db/sql.py:27-33 | For an `n`-item dict, the insert statement has exactly `n` placeholders and `n` params. The params are the dict values in key order; `Keys` and `ItemValues` take keys and values in the same iteration order. |
| `Sql.PlaceholderListCount` | src/common_util_py/db/sql.py:30 | `', '.join(['%s'] * n)` holds exactly `n` placeholders. |
| `Sql.Insert` | src/common_util_py/db/sql.py:27-33 | The statement `insert` executes: `INSERT INTO t (k1, ..., kn) VALUES (%s, ..., %s)` with the dict values. `InsertBindsEveryValue` states its placeholder count and param order, and `InsertRows` states that it is executed once per row. |
| `Sql.InsertRows` | src/common_util_py/db/sql.py:40-42 | Performs one insert per row, in list order: the k-th statement executed is `insert` of the k-th row. |
| `Sql.AssignmentsPlaceholders` | src/common_util_py/db/sql.py:110 | The `key = %s` pieces `Assignments` builds, one per key in order, hold exactly one `%s` per key. |
| `Sql.Update` | src/common_util_py/db/sql.py:107-114 | The statement `update` executes: `UPDATE t SET k1 = %s, ... WHERE condition` with the dict values. `UpdateBindsSetValues` states its placeholder count, param order and verbatim condition. |
| `Sql.UpdateBindsSetValues` | src/common_util_py/db/sql.py:107-114 | The update statement binds the dict values in key order, one `%s` for each, and ends with the condition text verbatim. Every placeholder inside the condition has no param of its own. |
| `Sql.Select` | src/common_util_py/db/sql.py:74-94 | With no fields and no conditions, gives `SELECT * FROM t` with empty params. Otherwise gives `SELECT f1, ..., fk FROM t` followed by the builder's clause, with the builder's params passed through unchanged. |
| `Sql.SanitizedNamesArePlain` | src/common_util_py/db/database.py:22-24 | The builders never call `sanitize_identifier`. If the caller has sanitised the table name and keys (so sanitising leaves them unchanged), they contain no `%`, and the placeholder counts above apply. |
| `Sql.NoPercentInSanitized` | src/common_util_py/db/database.py:24 | The output of `sanitize_identifier` contains no `%`; this helps only a caller who sanitises before calling a builder. |
| `Database.SanitizeIdentifier` | src/common_util_py/db/database.py:22-24 | Every character of the output is alphanumeric or `_`, and the output is no longer than the input. |
| `Database.SanitizedIsSubsequence` | src/common_util_py/db/database.py:24 | The output is a subsequence of the input, so order is preserved. |
| `Database.SanitizeKeepsAllowedCounts` | src/common_util_py/db/database.py:24 | Each allowed character occurs in the output as often as in the input; each disallowed character, never. |
| `Database.SanitizeConcat` | src/common_util_py/db/database.py:24 | Sanitising a concatenation gives the concatenation of the sanitised parts. |
| `Database.SanitizeFixedPoint` | src/common_util_py/db/database.py:24 | A string is returned unchanged iff all its characters are alphanumeric or `_`. |
| `Database.SanitizeIdempotent` | src/common_util_py/db/database.py:24 | Sanitising twice gives the same result as sanitising once. |
| `Database.SanitizeDropsDisallowed` | src/common_util_py/db/database.py:24 | A string of disallowed characters only becomes `""`. |
| `Database.SanitizeKeepsPlainName` | src/common_util_py/db/database.py:24 | `user_id2` is returned unchanged. |
| `Database.SanitizeEmptiesPunctuation` | src/common_util_py/db/database.py:24 | `-;' ` becomes `""`. |
| `Text.Upper` | src/common_util_py/db/sql.py:59 | Upper-casing keeps the length. |
| `Text.UpperEqualsMeans` | src/common_util_py/db/sql.py:59 | The character-wise comparison used for the NULL test holds iff the upper-cased text equals the target. |
| `Text.IsAlnum` | src/common_util_py/db/database.py:24 | `str.isalnum` on ASCII digits and letters only; see "## Left out". `Database.SanitizeIdentifier` and its lemmas are stated in terms of it. |
| `Text.Join` | src/common_util_py/db/sql.py:66-69 | `str.join`. `PlaceholdersJoin`, `JoinHasPart` and `JoinAvoids` state what a join keeps: placeholders, every piece, and the absence of a pattern. |
| `Text.JoinHasPart` | src/common_util_py/db/sql.py:66-69 | Every piece of a join occurs in the joined text. |
| `Text.ReplaceAbsent` | src/common_util_py/db/sql.py:70 | `str.replace` changes nothing when the pattern does not occur. |
| `Text.ReplaceOnce` | src/common_util_py/db/sql.py:70 | `str.replace` rewrites the one occurrence of the pattern and keeps the text on both sides of it. |
| `Text.ReplaceAll` | src/common_util_py/db/sql.py:70 | `str.replace`, scanning left to right without overlaps. `ReplaceAbsent`, `ReplaceOnce`, `ReplaceLiteralPrefix`, `ReplaceNearMiss` and `ReplaceKeepsPlaceholders` state its behaviour. |
| `Text.ReplaceKeepsPlaceholders` | src/common_util_py/db/sql.py:70 | Replacing a pattern by a text with the same first character, neither holding `%`, keeps the `%s` count and the first character of every text. |
| `Text.PlaceholdersJoin` | src/common_util_py/db/sql.py:30 | Joining with a separator that has no `%s`, and that cannot form one at a seam, gives as many placeholders as the parts hold. |
| `MysqlClient.ConnectionParams` | src/common_util_py/db/mysql.py:42-47 | The parameters hold `host`, `user` (taken from `username`) and `password`, plus every extra keyword argument, which wins on a clash. |
| `MysqlClient.ConnectResult` | src/common_util_py/db/mysql.py:51-56 | `connect` succeeds iff the driver does. Any exception it raises is a `ConnectionError` raised from a driver error, whose message is `Failed to connect to MySQL: ` followed by that driver error's own message (built by `ConnectFailure`). |
| `MysqlClient.CloseCalls` | src/common_util_py/db/mysql.py:58-61 | With no connection, there are no calls. Otherwise there is a liveness check, then the driver's `close` iff the connection is live. |
| `MysqlClient.WriteResult` | src/common_util_py/db/mysql.py:69-111 | A write returns `rowcount` iff its execute, and any commit it makes, succeed. Otherwise it raises the driver error unchanged. |
| `MysqlClient.ReadResult` | src/common_util_py/db/mysql.py:79-91 | `read` returns the `fetchall` rows iff execute and fetch succeed. A driver error never escapes unwrapped: every failure is a plain `Exception` raised from a driver error, whose message is `Failed to read from MySQL: ` followed by that error's own message (built by `ReadFailure`). |
| `MysqlClient.CursorEnterResult` | src/common_util_py/db/mysql.py:116-121 | On a live connection, the block always gets the new cursor. The only failure is a failed reconnect, raised as `ConnectionError` with the connect prefix before the driver's message. |
| `MysqlClient.Recovered` | src/common_util_py/db/mysql.py:144-166 | The `except` clauses raise either the original exception or a `TransactionError`. They raise the latter only when a rollback was called for and failed, and it is raised from that rollback's driver error (built by `RollbackFailure`). |
| `MysqlClient.TransactionEnterResult` | src/common_util_py/db/mysql.py:134-139 | The block runs iff `start_transaction` succeeds. |
| `MysqlClient.TransactionExitResult` | src/common_util_py/db/mysql.py:139-166 | The `with` statement completes iff the block and the commit both succeed. |
| `MysqlClient.Matches` | src/common_util_py/db/mysql.py:130-144 | Whether `except rollback_on` catches an exception kind. `MatchedFailureRollsBackOnce` and `UnmatchedUnderAutocommitPropagates` state the two outcomes. |
| `MysqlClient.RollsBack` | src/common_util_py/db/mysql.py:144-160 | Whether a rollback is attempted: the kind matches, or autocommit is off. `FailedBlockRollsBackWhen` proves the calls contain a rollback exactly then. |
| `MysqlClient.WriteCalls` | src/common_util_py/db/mysql.py:69-111 | The calls a write makes. `WriteRunsOneStatement`, `CreateCommitsOnlyWithValues` and `UpdateCommitsAfterEveryStatement` state them. |
| `MysqlClient.ReadCalls` | src/common_util_py/db/mysql.py:79-91 | The calls `read` makes. `ReadNeverCommits` and `ReadReportsDriverMessage` state them. |
| `MysqlClient.CursorEnterCalls` | src/common_util_py/db/mysql.py:116-119 | The calls `cursor()` makes before its `yield`. `LiveConnectionReused` and `DeadConnectionReplaced` give them for a live and a dead connection. |
| `MysqlClient.RecoveryCalls` | src/common_util_py/db/mysql.py:144-166 | The calls of the two `except` clauses. `FailedBlockRollsBackWhen`, `MatchedFailureRollsBackOnce` and `UnmatchedUnderAutocommitPropagates` state them. |
| `MysqlClient.TransactionEnterCalls` | src/common_util_py/db/mysql.py:134-139 | The calls before the `yield`. `FailedStartRecovered` states them when `start_transaction` fails. |
| `MysqlClient.TransactionExitCalls` | src/common_util_py/db/mysql.py:139-166 | The calls after the `yield`. `CompletedBlockCommits`, `FailedBlockNeverCommits`, `FailedBlockRollsBackWhen` and `FailedCommitRecovered` state them. |
| `MysqlClient.Mysql.Init` | src/common_util_py/db/mysql.py:42-48 | Stores the connection parameters, with `conn` unset. |
| `MysqlClient.Mysql.Open` | src/common_util_py/db/mysql.py:40-49 | The constructor makes exactly one driver call, a `connect` with the stored parameters, before returning. On success the object holds the new connection. On failure it raises `ConnectionError`. |
| `MysqlClient.Mysql.Connect` | src/common_util_py/db/mysql.py:51-56 | Makes exactly one `connect`. On success the new connection replaces `conn` wholesale. On failure `conn` is unchanged and the wrapped `ConnectionError` is returned. |
| `MysqlClient.Mysql.Close` | src/common_util_py/db/mysql.py:58-61 | Appends exactly `CloseCalls`: the driver is closed only when `conn` is set and live. |
| `MysqlClient.Mysql.Enter` | src/common_util_py/db/mysql.py:63-64 | Returns the object itself. |
| `MysqlClient.Mysql.Exit` | src/common_util_py/db/mysql.py:66-67 | Always runs `close` and lets the block's exception through. |
| `MysqlClient.Mysql.Write` | src/common_util_py/db/mysql.py:69-111 | Appends exactly `WriteCalls`: cursor, execute, and a commit when the policy calls for one. Returns exactly `WriteResult`. |
| `MysqlClient.Mysql.Create` | src/common_util_py/db/mysql.py:69-77 | A write that commits only when values were given. |
| `MysqlClient.Mysql.Update` | src/common_util_py/db/mysql.py:93-101 | A write that always commits after execute. |
| `MysqlClient.Mysql.Delete` | src/common_util_py/db/mysql.py:103-111 | A write that always commits after execute. |
| `MysqlClient.Mysql.Read` | src/common_util_py/db/mysql.py:79-91 | Appends exactly `ReadCalls`: cursor, execute, and fetch when execute succeeded. Returns exactly `ReadResult`. |
| `MysqlClient.Mysql.CursorEnter` | src/common_util_py/db/mysql.py:114-121 | Reconnects at most once, and only when `conn` is unset or not live. Opens the cursor with the given `dictionary` flag on the current connection. `conn` changes only to a new connection. |
| `MysqlClient.Mysql.CursorExit` | src/common_util_py/db/mysql.py:120-123 | Closes the cursor on every exit path, the failing block included, and lets the block's exception through. |
| `MysqlClient.Mysql.Recover` | src/common_util_py/db/mysql.py:144-166 | Appends exactly `RecoveryCalls` and raises exactly `Recovered`. |
| `MysqlClient.Mysql.TransactionEnter` | src/common_util_py/db/mysql.py:130-139 | Applies the default `rollback_on`, starts the transaction, and recovers when the start fails. |
| `MysqlClient.Mysql.TransactionExit` | src/common_util_py/db/mysql.py:139-166 | After the block: commits, recovers from a failed block or commit, and returns `TransactionExitResult`. |
| `MysqlClient.CreateCommitsOnlyWithValues` | src/common_util_py/db/mysql.py:69-77 | `create` commits iff values were given and the statement went through. |
| `MysqlClient.UpdateCommitsAfterEveryStatement` | src/common_util_py/db/mysql.py:93-111 | `update` and `delete` commit iff the statement went through. Then the calls are exactly cursor, execute, commit: one commit, right after execute. |
| `MysqlClient.WriteRunsOneStatement` | src/common_util_py/db/mysql.py:69-111 | A write makes two or three calls: a plain cursor, one execute, and possibly a commit. Values are bound iff the tuple is non-empty (`Args`). It never closes the cursor and never rolls back. |
| `MysqlClient.ReadReportsDriverMessage` | src/tests/unit/db/test_mysql.py:270-278 | A driver error `Test error` on execute makes `read` raise an `Exception` with message `Failed to read from MySQL: Test error`, from the driver error, and nothing is fetched. |
| `MysqlClient.ReadNeverCommits` | src/common_util_py/db/mysql.py:79-91 | `read` never commits. |
| `MysqlClient.LiveConnectionReused` | src/common_util_py/db/mysql.py:116-119 | On a live connection, `cursor()` makes no connect and opens the cursor on that connection. |
| `MysqlClient.DeadConnectionReplaced` | src/common_util_py/db/mysql.py:116-119 | On a dead connection, `cursor()` makes exactly one connect, with no retry. It then opens the cursor on the new connection, or raises `ConnectionError` and opens none. |
| `MysqlClient.CompletedBlockCommits` | src/common_util_py/db/mysql.py:139-142 | A block that completes, and whose commit succeeds, is followed by exactly one commit and no rollback. A failing commit is covered by `FailedCommitRecovered`. |
| `MysqlClient.FailedBlockNeverCommits` | src/common_util_py/db/mysql.py:139-166 | After a block that raised, nothing is committed. |
| `MysqlClient.FailedBlockRollsBackWhen` | src/common_util_py/db/mysql.py:144-166 | After a block that raised `err`, a rollback is attempted iff `err` matches `rollback_on` or autocommit is off. `err` is re-raised unless that rollback failed; then `TransactionError` is raised. |
| `MysqlClient.MatchedFailureRollsBackOnce` | src/common_util_py/db/mysql.py:130-154 | An exception that `rollback_on` matches gets exactly one rollback and no autocommit read, in any autocommit mode. The original exception is re-raised, or `TransactionError` if that rollback failed. The default `rollback_on`, and any that names `Exception`, matches every exception. |
| `MysqlClient.UnmatchedUnderAutocommitPropagates` | src/common_util_py/db/mysql.py:156-166 | An exception that `rollback_on` does not match, under autocommit, is re-raised unchanged with no rollback. |
| `MysqlClient.FailedCommitRecovered` | src/common_util_py/db/mysql.py:142-166 | A failed commit goes through the same `except` clauses as a failed block. |
| `MysqlClient.FailedStartRecovered` | src/common_util_py/db/mysql.py:136-166 | A failed `start_transaction` keeps the block from running and commits nothing. It rolls back iff a driver error matches or autocommit is off. |

## Left out

- Network I/O and the real drivers, `mysql.connector` and `pymysql`: the `Driver.Connector` class stands in for them. Liveness, autocommit mode, `rowcount`, fetched rows, and whether each call fails are its free answers.
- The pymysql connection and cursor objects that `sql.py` uses are not modelled. `insert`, `update` and `select` are modelled as the statement they hand to `cursor.execute`: SQL text and params.
  - The `rowcount` they return is not modelled.
  - The DictCursor fetch in `select` is not modelled.
- The pass-through helpers in `sql.py` are not modelled, because each runs caller-supplied SQL text unchanged: `create_table`, `drop_table`, `insert_statement`, `select_statement`, `delete`, `update_table` and `generic`.
- `Text.UpperChar` and `Text.IsAlnum` are ASCII only, while Python's `str.upper` and `str.isalnum` follow Unicode. So the model drops non-ASCII letters and digits that Python keeps: it gives `SanitizeIdentifier("café") == "caf"` where Python keeps the `é`. It also treats `ıs null` as a value comparison, where Python upper-cases the dotless `ı` to `I` and sees a NULL test. The `sanitize_identifier` lemmas and the NULL-test lemmas match Python only on ASCII text.
- `MysqlClient.Matches` reduces exception matching to a closed set of kinds. `Exception` matches every kind, and any other class matches only itself. `BaseException` and `GeneratorExit`, which `except Exception` does not catch, are not modelled.
- The driver's `cursor()`, `cursor.close()`, `is_connected()`, `close()` and the `autocommit` property never fail in the model. In mysql-connector, reading `autocommit` queries the server and can raise. The transaction's `except Exception` clause (mysql.py:157) would then propagate that error instead of the original one, and the model does not capture this.
- `autocommit` is read as a driver answer each time it is consulted.
- The exception message of `mysql.connector.Error` is modelled as its message text only. The exact formatting of `str(e)` is not modelled.
- `MysqlClient.Mysql.Open` is stated in terms of `ConnectionParams`, which requires that `host`, `username` and `password` are not among the extra keyword arguments, as Python does for named parameters.
- Python `contextmanager` and generator mechanics are replaced by the `Enter`/`Exit` method pairs.
- The driver's call history is ghost state, and is not visible to compiled code.
- The unit tests disagree with the code in two places; the model follows the code:
  - The tests expect a lazy connection, but the constructor connects eagerly (`mysql.py:49`).
  - The tests call `batch_insert` and `batch_update`, but neither method exists in `mysql.py`.
- The read result is a list of plain rows: `read` is annotated `list[dict]`, but it opens a plain cursor.
- The second definition of `TransactionError`, in `database.py:18-19`, is not modelled, because nothing there raises it.
- `create`, `read`, `update` and `delete` neither reconnect nor close their cursor. The model keeps this as written; `WriteRunsOneStatement` states it.

## Findings

| source | as written | input that shows it | evidently intended | confidence | as-written member | corrected member |
|---|---|---|---|---|---|---|
| src/common_util_py/db/sql.py:66-70 | The clause joins only `conditions[1:]`, so the first condition's fragment never reaches the SQL. Its value is still appended to `params`. | `[Condition('AND','age','>',18), Condition('OR','city','=','X')]` gives `(" WHERE city = %s", [18, 'X'])`: one placeholder, two params. | `" WHERE age > %s OR city = %s"`: every condition appears and the first operator is dropped, with one placeholder per param. | not executed | `Sql.FirstConditionDropped` | `Sql.IntendedClauseBindsEveryValue` |
| src/common_util_py/db/sql.py:70 | The leading operator is removed with a global `str.replace("WHERE OR", "WHERE")`, which also matches a field name that begins with `OR`. | `[Condition('AND','id','=',1), Condition('AND','ORIGIN','=','x')]` gives `" WHEREIGIN = %s"`. | `" WHERE id = %s AND ORIGIN = %s"`: field names are never rewritten. | not executed | `Sql.OrPrefixedFieldMangled` | `Sql.IntendedKeepsFieldNames` |

`Sql.IntendedClause` is the corrected builder, and the two corrected members are proved about it.

`Sql.BuildWhereClause` and `Sql.Select` keep the behaviour as written, because they model what the package executes today. `Sql.WhereClausePlaceholders` states the resulting one-placeholder shortfall for every input whose later conditions hold no `%` text, the `ORIGIN` input of the second row included. `Sql.AndThenOrField` states the general form of the second row: any second condition joined by `AND` whose fragment starts with `OR`.
