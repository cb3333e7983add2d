# app-kakebo-server in Dafny

This project models the server of a household account book (kakebo). The server keeps
its expenses in a CSV ledger. It reads the ledger through DuckDB and syncs it with a
client's collection by last-write-wins on each record's `updatedAt`. It also copies the
monthly records of the month of the latest monthly record dated up to today, one month
later (two when the day overflows), unless that month is the current one. The ledger is
rewritten through a backup-guarded batch.

The modules follow the source files:

- `Dates` (lib/dates.ts):
  - calendar fields with JavaScript's 0-based month
  - `addOneMonth` with the overflow behaviour of `setMonth`
  - `isSameMonth`
  - `formatDateForCSV`, with a reader that inverts it
- `Expenses` (lib/expenses.ts):
  - the expense record
  - the `String`/`Number`/`Boolean` coercions of `fromUserExpenses` and `fromDBExpenses`
  - `diffExpenses`, as a method with loops proved equal to a filter
  - the anchor, templates and occurrences of the monthly generator
- `Staging` (the temporary table of `mutateExpenses` in lib/db.ts):
  - upsert by primary key
  - the `ORDER BY date, category, label, amount, deleted` output order
- `Db` (lib/db.ts):
  - the column lists, value lists and statements
  - `ensureSemicolon`
  - a `FileSystem` class whose `files` map the methods update
  - the `DB` class, whose `MutateExpenses` runs backup → batch → write tmp → rename, with restore on failure
- `Utils` (lib/utils.ts): `guid`, as a method filling an eight-slot array. The two alphabets are built as the code-point ranges `A`–`Z`, `a`–`z` and `0`–`9`, which spell the literals of lib/utils.ts:1-2.
- `Server` (index.ts): the `/expenses/sync` handler, as a method over a `DB`.

The clock (`new Date()`), `Math.random()`, DuckDB's reading of a statement, and the
runtime's date printers and parsers are parameters. Each stateful method is proved equal
to a pure function of the old state: `MutateSpec`, `SyncSpec`, `Diff` and `GuidChars`. The
lemmas state the source's promises about those functions.

## Model

| member | source | states |
|---|---|---|
| Dates.DaysInMonth | lib/dates.ts:3 | The month lengths `setMonth` normalises against lie between 28 and 31. A month has 31 days exactly for January, March, May, July, August, October and December, and 30 days exactly for April, June, September and November. February has 29 days in a leap year and 28 otherwise. |
| Dates.NextMonth | lib/dates.ts:3 | `getMonth() + 1` advances the month count by exactly one, so December rolls to January of the next year. |
| Dates.AddOneMonth | lib/dates.ts:1-5 | If the day exists in the next month, the result is that month with the same day. Otherwise the day overflows into the month after, at day minus the month's length (at most 3). Time of day is kept. |
| Dates.AddOneMonthKeepsEarlyDays | lib/dates.ts:3 | A day of 28 or less is kept, and the month advances by one. |
| Dates.AddOneMonthOverflowExample | lib/dates.ts:3 | 31 January of a common year becomes 3 March. |
| Dates.AddOneMonthLeavesMonth | lib/dates.ts:1-9 | `isSameMonth(d, addOneMonth(d))` is false for every date. |
| Dates.IsSameMonth | lib/dates.ts:7-9 | The definition: two dates are in the same month when their month index and full year agree. |
| Dates.IsSameMonthEquivalence | lib/dates.ts:7-9 | `isSameMonth` is reflexive, symmetric and transitive. |
| Dates.NotAfterTotal | lib/expenses.ts:93-94 | The date order used by the filter and the sort is total and antisymmetric. |
| Dates.NotAfterTransitive | lib/expenses.ts:93-94 | The date order is transitive. |
| Dates.NotAfterWithinMonth | lib/expenses.ts:93-103 | A date between two dates of one month lies in that month. |
| Dates.TwoDigitsIsPadStart | lib/dates.ts:13-17 | `n.toString().padStart(2, '0')` is the two-digit text of n, for every field below 100. |
| Dates.FormatDateForCSV | lib/dates.ts:11-19 | For a four-digit year the text is 19 characters long. |
| Dates.FormatDateForCSVShape | lib/dates.ts:11-19 | Separators sit at positions 4, 7, 10, 13 and 16. Month (1-based), day, hour, minute and second are each exactly two digits with the date's values. |
| Dates.FormatDateForCSVRoundTrip | lib/dates.ts:11-19 | Reading the text back gives the same date, so no field is lost, for four-digit years. |
| Strings.PadStart | lib/dates.ts:13-17 | `padStart` yields the longer of the text and the width, with the text as suffix and fill characters before it. |
| Strings.NatToStringRoundTrip | lib/dates.ts:12-17 | The decimal text of a number reads back as the number. |
| Strings.ReplaceAllWithoutOccurrence | lib/db.ts:44-46 | A query without `%expenses%` passes through `replaceAll` unchanged. |
| Strings.ReplaceAllFirstOccurrence | lib/db.ts:44-46 | When no occurrence starts before a given one, `replaceAll` keeps the text before it, replaces it, and continues on the text after it. |
| Strings.ReplaceAllAfterPrefix | lib/db.ts:44-46 | When the text before a trailing occurrence contains no character equal to the pattern's first, `replaceAll` keeps that text and replaces the occurrence. |
| Sequences.FilterMembership | lib/expenses.ts:108-114 | An element is kept by `filter` exactly when it is in the input and satisfies the predicate. |
| Sequences.FilterIsSubsequence | lib/expenses.ts:62-72 | `filter` keeps input order and adds nothing: the result embeds into the input by increasing indices. |
| Expenses.ToJsString | lib/expenses.ts:30-38 | `String(v)` keeps a string, prints a number in decimal, prints a boolean as "true" or "false", and turns `undefined` into "undefined". |
| Expenses.ToJsBoolean | lib/expenses.ts:36-37 | `Boolean(v)` keeps a boolean and is false exactly for the empty string, zero, `false` and `undefined`, so the text "false" reads as true. |
| Expenses.ToJsNumber | lib/expenses.ts:32 | `Number(v)` keeps a number and maps booleans to 1 and 0. |
| Expenses.FromRecord | lib/expenses.ts:29-39 | Every record yields an expense, without validation. A missing text field reads as "undefined" (so a record without `periodicity` is never monthly), a missing flag as false, and a missing date or instant as the parse of "undefined". |
| Expenses.FromRecordIgnoresOtherKeys | lib/expenses.ts:29-39 | Keys other than the nine fields make no difference to the coerced expense. |
| Expenses.FromUserExpenses | lib/expenses.ts:28-40 | Output has the same length and order as the input, one coerced record per input record. |
| Expenses.FromDBExpenses | lib/expenses.ts:42-54 | Output has the same length and order as the rows, one coerced record per row. |
| Expenses.FromRecordOfToRecord | lib/expenses.ts:29-39 | Coercing a well-typed record gives back the expense it encodes. |
| Expenses.FromUserExpensesRoundTrip | lib/expenses.ts:28-40 | `fromUserExpenses` inverts the client's encoding, element by element. |
| Expenses.LastById | lib/expenses.ts:61-65 | The map lookup finds nothing exactly when no old record has the id. Otherwise it returns an old record with that id and no later record with it. |
| Expenses.DiffExpenses | lib/expenses.ts:60-73 | The loop over the map and the list computes exactly the filter of `news` by "absent or strictly newer". |
| Expenses.Diff | lib/expenses.ts:60-73 | The definition of the delta: the elements of `news`, in order, whose id is absent from the last-wins index of `olds` or which are strictly newer than that entry. |
| Expenses.DiffMembership | lib/expenses.ts:60-73 | A record is in the delta iff it is in `news` and either its id is absent from `olds` or it is strictly newer than the last copy with that id. |
| Expenses.DiffIsSubsequence | lib/expenses.ts:62-72 | The delta is a subsequence of `news` in its order. |
| Expenses.DiffWithItselfIsEmpty | lib/expenses.ts:61-67 | Equal `updatedAt` is not newer, so a collection with unique ids has an empty delta against itself. |
| Expenses.DiffAgainstEmpty | lib/expenses.ts:61-67 | Against an empty collection the delta is the whole input. |
| Expenses.DiffUsesLastCopy | lib/expenses.ts:61 | With duplicate ids in `olds`, only the last copy decides. |
| Expenses.WholeSeconds | lib/expenses.ts:52 | `new Date(String(d))` keeps the whole seconds of d's instant, rounded down: at most 999 ms are lost, and nothing is lost exactly on a whole second. |
| Expenses.TruncatedCopyIsResent | lib/expenses.ts:52-67 | If a ledger row with milliseconds is loaded cut to whole seconds, the client's exact copy is strictly newer: it is in the server delta, and the client delta is empty. |
| Expenses.LatestPastMonthly | lib/expenses.ts:92-95 | There is no anchor exactly when no monthly record is dated on or before today. Otherwise the anchor is such a record, and no such record is dated after it. |
| Expenses.FindRecurringExpensesToDuplicate | lib/expenses.ts:90-115 | Every template is an input record that is monthly and not deleted. |
| Expenses.FindIsEmptyIff | lib/expenses.ts:97-114 | Nothing is generated exactly when there is no anchor, or the anchor (deleted or not) is in today's month, or its month has no live monthly record. |
| Expenses.FindTemplates | lib/expenses.ts:105-114 | Otherwise the templates are exactly the non-deleted monthly records of the anchor's year and month, in input order. |
| Expenses.FindIsEmptyOnceCurrent | lib/expenses.ts:92-103 | Once some past monthly record falls in today's month, nothing is generated. |
| Expenses.GenerateNewMonthlyExpenses | lib/expenses.ts:79-88 | There is one occurrence per template, in order. Each equals its template except for four fields: the k-th fresh id, `date = addOneMonth(template.date)`, `checked = false` and `updatedAt = now`. |
| Expenses.Occurrence | lib/expenses.ts:80-86 | The definition of one occurrence: the template with the given id, its date moved by `addOneMonth`, unchecked and stamped with `now`; all other fields are the template's. |
| Expenses.GeneratedFollowAnchor | lib/expenses.ts:79-114 | Every occurrence is monthly, live and unchecked. It is dated in the month after the anchor's, or the month after that when the day overflows, never in the anchor's month. |
| Expenses.RegenerationIsEmpty | lib/expenses.ts:79-114 | On the ledger extended with its occurrences, the same day generates nothing more, but only once some occurrence is in today's month and not after today (see PendingOccurrenceIsRegenerated for the other case). |
| Expenses.PendingOccurrenceIsRegenerated | lib/expenses.ts:90-114 | As written, when the only monthly record's occurrence is dated after today, a second sync on the ledger that holds it generates the occurrence again, with a new id. |
| Expenses.PendingOccurrenceExample | lib/expenses.ts:90-114 | A record of 20 September 2026 synced on 11 October 2026 yields the 20 October occurrence on the first sync and again on the next one. |
| Expenses.SingleMonthlyRecord | lib/expenses.ts:79-114 | A ledger whose only monthly record is live and dated before today's month yields exactly one occurrence of it. |
| Utils.Alphabet1Letters | lib/utils.ts:1 | The first alphabet has 52 characters, all ASCII letters, from `A` to `z`. |
| Utils.Alphabet2Alphanumerics | lib/utils.ts:2 | The second alphabet has 62 characters, all ASCII letters or digits, with `0` to `9` at positions 52 to 61. |
| Utils.RandInt | lib/utils.ts:15-17 | `Math.floor(Math.random() * max)` is the floor of the product and lies below `max`. |
| Utils.RandIntReaches | lib/utils.ts:15-17 | Every index below `max` is drawn by some value of `Math.random()`. |
| Utils.Pick | lib/utils.ts:6-9 | Indexing an alphabet with `randInt` of its length always yields one of its characters. |
| Utils.GuidChars | lib/utils.ts:4-13 | The id has 8 characters. The first comes from the first alphabet and the other seven from the second. |
| Utils.GuidCharsAt | lib/utils.ts:5-10 | Character k of the id is drawn with the k-th value of `Math.random()`, from the first alphabet for k = 0 and from the second otherwise. |
| Utils.Guid | lib/utils.ts:4-13 | The array-filling loop produces exactly that id. |
| Utils.GuidShape | lib/utils.ts:4-13 | An id starts with an ASCII letter and continues with ASCII letters or digits. |
| Utils.GuidReachesEveryShapedString | lib/utils.ts:4-13 | Every string of that shape is the id of some sequence of draws. |
| Staging.UpsertMembership | lib/db.ts:54 | After `INSERT OR REPLACE` of e, a row is present iff it is e or it was present with another key. |
| Staging.ApplyUpsertsMembership | lib/db.ts:51-57 | After the batch, a row is present iff it is the last upsert of its key, or its key is never upserted and it was present before. |
| Staging.ApplyUpsertsKeepsUniqueIds | lib/db.ts:143 | The primary key holds: each `_id` appears at most once. |
| Staging.RowLeqTotal | lib/db.ts:69 | The output order is total. |
| Staging.RowLeqTransitive | lib/db.ts:69 | The output order is transitive. |
| Staging.SortRows | lib/db.ts:69 | The output is sorted by (date, category, label, amount, deleted) and is a permutation of the table. |
| Staging.Materialize | lib/db.ts:69-76 | The written rows are the upserted table, sorted and permuted. |
| Staging.MaterializeContents | lib/db.ts:51-76 | The written ledger holds exactly the rows that survive the upserts, one per key. |
| Db.LedgerFile | lib/db.ts:26 | `dev` selects `expenses-dev.csv`, otherwise `expenses.csv`. |
| Db.PathsAreDistinct | lib/db.ts:61-63 | The ledger, `<file>.tmp.csv` and `<file>.backup.csv` are three different paths. |
| Db.ColumnsForCSV | lib/db.ts:124-139 | The `columns=` text is `{…}` around the `'name': 'TYPE'` entries of the ten ledger columns, in order, joined by `, `. |
| Db.ColumnsForTable | lib/db.ts:141-156 | The table definition is the `name TYPE` entries of the same ten columns in the same order, joined by `, `, with `PRIMARY KEY` on `_id` only. |
| Db.ColumnTextsFollowColumns | lib/db.ts:124-156 | The two literal lists have ten entries each. Entry k of both names column k with its type, and only the first table entry carries `PRIMARY KEY`. |
| Db.ExpenseValues | lib/db.ts:158-176 | The values text joins, in column order, the property each column names in its literal form (quoted id, `DATE '<date>'`, amount, quoted category, label and periodicity, the two flags, `false`, `epoch_ms(<updatedAt>)`). It starts with the quoted id and ends with the timestamp. |
| Db.ExpenseValuesAsWritten | lib/db.ts:158-176 | The as-written values text joins the same column-by-column properties, except that `exception` is the text of `undefined`. It has the same first and last value. |
| Db.ValueOfColumn | lib/db.ts:162-173 | Value k of the template is the property that column k of the table names, in the literal form of its type. |
| Db.ValuesFollowColumns | lib/db.ts:162-173 | The whole template is the list of the ten columns' properties in column order. |
| Db.ValuesDifferOnlyInException | lib/db.ts:162-175 | The as-written and the corrected values text agree except for the ninth value, `undefined` against `false`. |
| Db.AsWrittenExceptionDoesNotFit | lib/db.ts:158-176 | As written, the value for the BOOLEAN column `exception` is `undefined`, not a boolean literal. |
| Db.ValuesFitColumns | lib/db.ts:124-176 | With `exception` written as `false`, value k is the property that column k names (so no two fields are swapped), and each value has the shape its column's type accepts. |
| Db.InsertLine | lib/db.ts:52-55 | Each statement starts with `INSERT OR REPLACE INTO Expenses VALUES (` and ends with `;`. |
| Db.UpsertStatements | lib/db.ts:51-58 | There is exactly one statement per expense, in input order. |
| Db.EnsureSemicolon | lib/db.ts:178-180 | The result ends with `;`. It is the input plus at most one character, and an already terminated statement is unchanged. |
| Db.EnsureSemicolonIdempotent | lib/db.ts:178-180 | `ensureSemicolon` is idempotent. |
| Db.MutationText | lib/db.ts:70 | The batch text of no statement is empty. Otherwise it starts with the first statement and ends with `;`. |
| Db.MutationTextOfUpserts | lib/db.ts:57-70 | The statements of `upsertExpenses` pass through `ensureSemicolon` unchanged. |
| Db.InterpretAll | lib/db.ts:70-78 | The batch yields one row per statement, or the first statement DuckDB rejects. |
| Db.Exec | lib/db.ts:66-78 | The definition of the batch: it fails on duplicate ledger keys or a failed staging `COPY`, then on the first rejected statement, then on a failed final `COPY`; otherwise it yields `Materialize` of the ledger and the rows read. |
| Db.InterpretUpserts | lib/db.ts:51-58 | If DuckDB reads each statement of the batch back as its expense, the batch rows are exactly the expenses. |
| Db.ReadsBackByLookup | lib/db.ts:51-58 | That condition can be met: looking statements up in the batch reads it back whenever distinct expenses of the batch have distinct statements. |
| Db.ExecOutcome | lib/db.ts:72-78 | The batch succeeds exactly when the ledger keys are unique, every statement is read and neither `COPY` fails. A rejected statement is reported by its index. |
| Db.Recover | lib/db.ts:80-83 | The definition of the `catch` block: the backup is copied over the ledger and the original error is rethrown; if that copy fails, its error propagates and the ledger is removed. |
| Db.MutateSpec | lib/db.ts:60-84 | The definition of `mutateExpenses` on the files: backup copy, batch, tmp file and rename, with `Recover` after a failure past the backup. |
| Db.BackupFailureKeepsLedger | lib/db.ts:61-65 | If the backup copy fails, nothing else runs and the ledger keeps its rows. A missing ledger changes no file; a copy that fails after opening the backup removes the old backup. |
| Db.FailureKeepsLedger | lib/db.ts:65-83 | After a failed rewrite the ledger holds its old rows, unless the restore copy fails as well, and then no ledger is left. Once the backup was made, it holds the old rows. |
| Db.FailureRethrowsOriginalError | lib/db.ts:78-83 | Unless the restore copy fails, the error is the one the batch or the rename raised. |
| Db.SuccessWritesBatchOutput | lib/db.ts:60-84 | The rewrite succeeds exactly when the backup, the batch and the rename do. Then the ledger holds the batch output, the backup holds the old ledger, the tmp file is gone and no other file changes. |
| Db.SuccessfulUpsertLedger | lib/db.ts:51-84 | After a successful upsert whose statements DuckDB reads back, the ledger is the old rows upserted with the expenses, sorted. |
| Db.OnlyLedgerFilesChange | lib/db.ts:60-84 | Whatever happens, only the ledger, its backup and its tmp file can change. |
| Db.SuccessfulBatchUpserts | lib/db.ts:69-76 | A successful batch had unique ledger keys. Its output is sorted, keyed by `_id`, and holds exactly the surviving rows. |
| Db.ReadCsvSource | lib/db.ts:29 | The `read_csv` source starts by naming the ledger file. |
| Db.ReadCsvSourceNamesFile | lib/db.ts:29 | Different files give different sources. |
| Db.LoadQueryText | lib/db.ts:35-46 | `loadExpenses` sends `SELECT * FROM` followed by the `read_csv` source. |
| Db.LoadResult | lib/db.ts:35-38 | Loading fails exactly when the ledger is missing, and otherwise yields one expense per row. |
| Db.LoadReadsLedger | lib/db.ts:35-38 | When the runtime reads its own date texts back, loading returns the ledger's rows. |
| Db.LoadCutsMilliseconds | lib/expenses.ts:52 | When `new Date(String(d))` keeps whole seconds, a loaded row carries its `updatedAt` cut to whole seconds, and a row with milliseconds does not read back as itself. |
| Db.FileSystem.CopyFile | lib/db.ts:65 | `copyFileSync` replaces the target with the source. A missing source fails before the target is touched and changes nothing. A copy that fails after opening the target removes the target and changes nothing else. |
| Db.FileSystem.Rename | lib/db.ts:79 | `renameSync` replaces the target and removes the source, or fails and changes nothing. |
| Db.FileSystem.WriteFile | lib/db.ts:76 | The final `COPY ... TO` replaces the target's rows and changes no other file. |
| Db.DB.constructor | lib/db.ts:24-30 | The ledger file is chosen by `dev`, and the source is `read_csv` over that file. |
| Db.QueryTextWithoutPlaceholder | lib/db.ts:44-46 | A query without `%expenses%` is sent unchanged. |
| Db.QueryTextReplacesPlaceholder | lib/db.ts:44-46 | The first `%expenses%` becomes the `read_csv` source, the text before it is kept, and the rest of the query is treated the same way. |
| Db.DB.QueryText | lib/db.ts:44-46 | The definition of the SQL `queryExpenses` sends: `replaceAll` of `%expenses%` by the `read_csv` source; the two lemmas above characterise it. |
| Db.DB.LoadExpenses | lib/db.ts:35-38 | Reads the ledger as `LoadResult` says. |
| Db.DB.MutateExpenses | lib/db.ts:60-84 | The steps yield exactly the outcome and the files `MutateSpec` gives for the old files. |
| Db.DB.UpsertExpenses | lib/db.ts:51-58 | `mutateExpenses` of one statement per expense. |
| Server.Sync | index.ts:113-143 | The handler yields exactly the reply and the files `SyncSpec` gives: load; compute both deltas and the occurrences; upsert only if there is something new; then reply. |
| Server.SyncSpec | index.ts:113-143 | The definition of one sync on the files: a failed load replies with the error; otherwise both deltas and the occurrences are computed, `MutateSpec` runs only when the server delta or the occurrences are non-empty, and its failure becomes the error reply. |
| Server.SyncLoadFailure | index.ts:117-143 | A failed load yields an error reply, no expense list and no write. |
| Server.SyncWithoutNewsDoesNotWrite | index.ts:132-139 | With no server delta and nothing generated, no file changes and the reply is the client delta. |
| Server.SyncReply | index.ts:121-139 | A successful reply is the client delta `diff(known, user)` followed by the occurrences generated from the server's ledger only. |
| Server.SyncWritesDeltaThenGenerated | index.ts:121-135 | The upserted batch is the server delta `diff(user, known)` followed by the occurrences. When DuckDB reads that batch's statements back, the ledger afterwards holds the old rows upserted with it. |
| Server.SyncFailureKeepsLedger | index.ts:135-143 | An error reply leaves the ledger's rows as they were, unless the restore copy failed too, and then no ledger is left. |
| Server.SyncOfServerCollection | index.ts:121-139 | A client sending exactly the server's ledger (unique ids) gets only the occurrences back, and only they can be written. |
| Server.SyncGeneratedIds | index.ts:129 | Every generated occurrence has an id of the `guid` shape. |

## Left out

- Floating point: `amount` is a whole number, and DOUBLE formatting and NaN (from `Number` on text) are not modelled.
- Invalid dates: the date parser passed in always returns a valid calendar date. `new Date("garbage")` has no counterpart.
- Strings.ReplaceAll: the replacement is inserted literally. JavaScript would interpret `$&`, `$1` and `$$` in it, but the `read_csv` source has no `$` for the two ledger file names, so the texts agree.
- Milliseconds of `date`: dates have seconds precision. `updatedAt` is kept as milliseconds.
- Db.LoadReadsLedger: it assumes `DatesReadBack`. For `updatedAt` that holds only on whole seconds, because `String` of a date prints no milliseconds (Db.LoadCutsMilliseconds). For a row with milliseconds the lemma says nothing. Expenses.TruncatedCopyIsResent shows the consequence: the client's exact copy is upserted again on every sync.
- Server.SyncOfServerCollection: it assumes `DatesReadBack` as well, so it covers only ledgers whose `updatedAt` values are whole seconds, for the same reason.
- Expenses.RegenerationIsEmpty: idempotence is stated only once an occurrence is in today's month and not after today. As written, an occurrence dated later in the month, or two months on after a day overflow, is no anchor (lib/expenses.ts:93). It is generated again, with a new id, on every sync until its date passes (Expenses.PendingOccurrenceIsRegenerated). The model keeps that behaviour.
- Expenses.GenerateNewMonthlyExpenses: one `now` stamps every occurrence, where the source calls `new Date()` once per occurrence.
- Db.InsertLine: it writes `false` for `exception`, the corrected value (see Findings), not the `undefined` of lib/db.ts:171. Db.DB.UpsertExpenses and Server.Sync write through it, so they write `false` too.
- Time zones and daylight saving: dates are local calendar fields, and comparing them stands for comparing instants.
- The DATE column keeps only the day: the model's ledger rows keep the whole date. The output order does use only the day.
- The contents of the CSV column `exception` are not modelled; ledger rows are expenses.
- lib/db.ts:3 imports `stringifyDate`, which lib/dates.ts does not define. The date text of the VALUES list is the parameter `dateText`.
- SQL: the text of the batch (`MutationText`) is computed, but DuckDB's reading of a statement is the parameter `interpret`. The VALUES list quotes text without escaping, so a `'` in an id, category or label changes the statement, and two expenses can print the same statement. The model does not derive when statements are distinct; Db.ReadsBack asks only that the batch's own statements read back.
- DuckDB itself (`query`, `exec`, `read_csv`, `COPY`): a batch is an abstract step that fails on duplicate ledger keys, on a rejected statement or on a chosen `Step`. When it succeeds, its output is given by `Staging.Materialize`.
- Staging.SortRows: rows equal on every sort key come out in one fixed order. DuckDB leaves their order unspecified.
- A failed final `COPY` leaves no partial tmp file in the model.
- Db.FileSystem.CopyFile: a copy that fails after opening its target is modelled as removing the target, which Node attempts. A target left cut short, when that removal fails too, is not modelled.
- Concurrency: calls are sequential and single-writer, and the Promise wrappers are not modelled.
- `loadSchema`, the `query`/`exec` wrappers, the other routes of index.ts, Express setup, lib/logger.ts and www/admin.mjs are not part of this model.
- A body whose `expenses` is not an array (where `map` throws) is not modelled. The body is a list of records.
- Expenses.LatestPastMonthly: the contract does not say which of several equally dated records is the anchor. The function picks the last in input order, as the stable sort and `.at(-1)` do, and only the anchor's date is used afterwards.
- Dates.FormatDateForCSVRoundTrip: proved for four-digit years only. Other years print with another width.
- `Math.random()` is an exact rational in [0, 1), not a double.

## Findings

| source | as written | input that shows it | evidently intended | confidence | as-written member | corrected member |
|---|---|---|---|---|---|---|
| lib/db.ts:171 | The ninth value is `${expense.exception}`. `Expense` (lib/expenses.ts:9-19) has no `exception`, so the text is `undefined` in the BOOLEAN column `exception`. | Any expense handed to `upsertExpenses`, e.g. the single new record of a sync. | A boolean literal for `exception`; the model writes `false`. | medium, not executed | Db.AsWrittenExceptionDoesNotFit | Db.ValuesFitColumns |
