# CSV-to-PostgreSQL loader, modelled in Dafny

This project models the logic of `upload_csv_to_postgres.py`, a script that loads every
`*.csv` file of a directory into its own PostgreSQL table. For each file the script:

- derives the table name from the file name;
- drops and re-creates the table. The table gets a surrogate `id SERIAL PRIMARY KEY`, then one column per CSV column. Each column name is sanitised, and a data column that sanitises to `id` is renamed `original_id`. Each column's type comes from its pandas dtype;
- inserts the rows in batches of 1000;
- commits, or rolls back on any error.

At the end it prints a summary of the successes and failures.

The model is functional. Pandas and the database connection are not part of it:

- **Parsed file.** The parsed CSV is an input (`Data.Dataset`): its headers, dtype names, and rows of possibly missing cells.
- **Database.** The database connection is a trace of events (`Database.Event`): `Execute`, `ExecuteMany`, `Commit` and `Rollback`.
- **Failures.** A database failure is an input of each file (`Data.DbFailure`). It names the call that raises and the message it raises with.

Modules, in dependency order:

| module | models |
|---|---|
| `Wrappers`, `Seqs`, `Strings` | `Option`/`Result`; flattening; substring search, `str.replace` and `str.split`/`join` |
| `Ascii` | the character classes `\w`, `\s`, `str.isdigit` and `str.lower`, below code point 128 |
| `Sanitizer` | `sanitize_column_name` |
| `TypeMapping` | `get_postgres_type` |
| `Data`, `Database` | the parsed file; the statements and the event trace |
| `Schema` | the column list of `create_table` and its DROP/CREATE statements |
| `Loader` | `insert_data`: the insert column list, null-filling and batching |
| `TableNames` | `get_table_name_from_filename` |
| `Listing` | `sorted(csv_dir.glob('*.csv'))` |
| `Orchestrator` | `load_csv_to_postgres`, the loop of `main` and its summary |
| `Scenario` | one complete run over two files |

Main results:

- **Sanitising.** Every sanitised name is a PostgreSQL-friendly identifier. Sanitising is idempotent, and its fixed points are exactly those identifiers. The three regular-expression passes of lines 49-53 equal one pass that turns each run of non-alphanumerics into one `_`.
- **Column lists.** The CREATE TABLE column names and the INSERT column list, computed independently, are always the same list, and `id` never appears in it.
- **Batching.** The insert batches concatenate to exactly the null-filled rows.
- **Transactions.** Every file ends its transaction exactly once: with a commit when it is reported a success, otherwise with a rollback. The run returns one result per matched file, in name order. The commits and rollbacks in the trace match the successes and failures in the summary.

## Model

| member | source | states |
|---|---|---|
| Sanitizer.Sanitize | upload_csv_to_postgres.py:46-66 | the result is never empty, contains only `[a-z0-9_]`, has no underscore at either end, no two underscores in a row, and does not start with a digit |
| Sanitizer.SeparatorPassesAsOne | upload_csv_to_postgres.py:49-53 | the three substitutions (specials to `_`, whitespace runs to `_`, underscore runs to `_`) equal one pass that replaces every maximal run of non-alphanumeric characters by a single `_` |
| Sanitizer.ReplaceSpecials | upload_csv_to_postgres.py:49 | every character is kept if it is a word or whitespace character and becomes `_` otherwise, position by position |
| Sanitizer.CollapseShape | upload_csv_to_postgres.py:50-53 | after a pass over whitespace, over underscores, or over non-alphanumerics, the only character of that class left is `_` and no two characters of the class are adjacent |
| Sanitizer.SeparatorPassesShape | upload_csv_to_postgres.py:49-53 | after the three substitutions a name holds only letters, digits and underscores, never two underscores in a row |
| Sanitizer.StripUnderscores | upload_csv_to_postgres.py:56 | the result has no `_` at either end and is a slice of the input with only underscores cut away before and after it |
| Sanitizer.Finish | upload_csv_to_postgres.py:59-64 | for every clean core without an underscore at either end, the result is a valid identifier, and a non-empty core that starts with a non-digit is kept |
| Sanitizer.FinishRule | upload_csv_to_postgres.py:59-64 | for every such core: one that starts with a digit gets `col_` in front, an empty one becomes `unnamed_column`, and any other is returned unchanged |
| Sanitizer.SanitizeFixesIdentifiers | upload_csv_to_postgres.py:46-66 | a label that already is a valid identifier comes back unchanged |
| Sanitizer.SanitizeFixpoints | upload_csv_to_postgres.py:46-66 | a label is left unchanged by sanitising if and only if it is a valid identifier |
| Sanitizer.SanitizeIdempotent | upload_csv_to_postgres.py:46-66 | sanitising a sanitised name changes nothing |
| Sanitizer.SanitizeKeepsAlnums | upload_csv_to_postgres.py:46-64 | the letters and digits of the lower-cased label survive, in order, and no others appear, apart from the `col_` prefix before a leading digit; a label with none of them becomes `unnamed_column` |
| Sanitizer.SanitizePatientId | upload_csv_to_postgres.py:46-66 | `Patient ID` becomes `patient_id` |
| Sanitizer.SanitizeDose | upload_csv_to_postgres.py:46-66 | `2nd-Dose (mg)` becomes `col_2nd_dose_mg` |
| Sanitizer.SanitizeEmpty | upload_csv_to_postgres.py:63-64 | the empty label becomes `unnamed_column` |
| Sanitizer.SanitizeUnderscores | upload_csv_to_postgres.py:53-64 | `___` collapses, is stripped to nothing and becomes `unnamed_column` |
| Sanitizer.SanitizeOriginalId | upload_csv_to_postgres.py:46-66 | `original id` becomes `original_id` |
| TypeMapping.PostgresType | upload_csv_to_postgres.py:79-92 | the type is the one of the first pattern among `int`, `float`, `bool`, `datetime`, `date` that occurs in the dtype name, and TEXT exactly when none occurs |
| TypeMapping.PostgresTypeName | upload_csv_to_postgres.py:79-92 | the SQL type is one of BIGINT, DOUBLE PRECISION, BOOLEAN, TIMESTAMP, DATE, TEXT, and TEXT exactly when no pattern occurs |
| TypeMapping.IntWins | upload_csv_to_postgres.py:81-82 | any dtype name containing `int` maps to BIGINT |
| TypeMapping.DatetimeIsNeverDate | upload_csv_to_postgres.py:81-90 | a `datetime` dtype never maps to DATE, and maps to TIMESTAMP unless `int`, `float` or `bool` occurs too |
| TypeMapping.DateIsNeverText | upload_csv_to_postgres.py:87-92 | a dtype name containing `date` never maps to TEXT |
| TypeMapping.PandasDtypes | upload_csv_to_postgres.py:79-92 | `int64`, `float64`, `bool`, `datetime64[ns]` and `object` map to BIGINT, DOUBLE PRECISION, BOOLEAN, TIMESTAMP and TEXT |
| Schema.ColumnName | upload_csv_to_postgres.py:105-118 | a column's final name is a valid identifier other than `id`: its sanitised label, or `original_id` when that label is `id` |
| Schema.SanitizedIsLowerCase | upload_csv_to_postgres.py:108-114 | the `.lower()` applied to sanitised names before comparing them with `id` never changes them |
| Schema.SanitizeEach | upload_csv_to_postgres.py:105 | one sanitised name per header, in header order |
| Schema.RenameClashes | upload_csv_to_postgres.py:107-118 | the names keep their number and order; entry k is `original_id` when the k-th sanitised name is `id`, and that name otherwise |
| Schema.ColumnDefs | upload_csv_to_postgres.py:105-124 | one definition per column, in column order, named by `ColumnName` and typed by `PostgresType` of its dtype; none is named `id` |
| Schema.ProvisionStatements | upload_csv_to_postgres.py:129-138 | first the cascading drop of the table, then its creation, whose column names are the columns' final names in order |
| Loader.InsertColumns | upload_csv_to_postgres.py:160-165 | the insert column list has one entry per header, entry k is `ColumnName` of header k, and none is `id` |
| Loader.CreateAndInsertAgree | upload_csv_to_postgres.py:105-165 | for every column sequence, the CREATE TABLE column names equal the INSERT column list, in the same order, and `id` is in neither |
| Loader.InsertGuardIsRedundant | upload_csv_to_postgres.py:162-165 | the element-wise rename without the `has_id_column` test gives the same list |
| Loader.RenameCanCollide | upload_csv_to_postgres.py:160-165 | a header sanitising to `original_id` next to one sanitising to `id` gives `original_id` twice: renamed names are not de-duplicated |
| Loader.OriginalIdAndIdCollide | upload_csv_to_postgres.py:160-165 | the headers `original id` and `id` both become `original_id` |
| Loader.IdThenOther | upload_csv_to_postgres.py:105-165 | a header sanitising to `id` followed by one that does not: both paths give `original_id` and the second sanitised name |
| Loader.IdAndNameColumns | upload_csv_to_postgres.py:105-165 | columns `id` and `Name` are created and inserted as `original_id` and `name` |
| Loader.Placeholders | upload_csv_to_postgres.py:176 | the placeholder list holds exactly n `%` characters, one per column |
| Loader.PlaceholdersMatchColumns | upload_csv_to_postgres.py:175-177 | the INSERT statement has as many placeholders as columns, and as many columns as headers |
| Loader.InsertStatement | upload_csv_to_postgres.py:177 | the INSERT goes into the given table, names the renamed column list and carries one placeholder per header |
| Loader.ToParam | upload_csv_to_postgres.py:172 | a parameter is NULL exactly when its cell is missing, and otherwise the cell's value |
| Loader.NullFilled | upload_csv_to_postgres.py:172 | the parameter rows have the shape of the rows, with NULL exactly where a cell is missing and the cell's value everywhere else |
| Loader.BatchesFrom | upload_csv_to_postgres.py:183-184 | the slices run together give back the sequence from the start index; each is non-empty and at most 1000 long, all but the last exactly 1000; their number is the ceiling of the remaining length over 1000 |
| Loader.InsertData | upload_csv_to_postgres.py:155-193 | an empty frame returns 0 and sends nothing; otherwise it returns the row count and sends ceil(n/1000) `executemany` calls of the INSERT statement whose batches, full except the last, run together to the null-filled rows in order |
| Loader.TwoThousandFiveHundredRows | upload_csv_to_postgres.py:180-193 | 2500 rows go out as batches of 1000, 1000 and 500 and 2500 is returned |
| TableNames.TableName | upload_csv_to_postgres.py:207 | the name splits at its non-overlapping `.csv` occurrences into pieces free of `.csv`; the table name is the pieces run together, 4 characters shorter per occurrence, and a name without `.csv` is unchanged |
| TableNames.StemKeptWhenOnlySuffix | upload_csv_to_postgres.py:207 | a stem without `.csv` followed by `.csv` gives back the stem |
| TableNames.PatientsTable | upload_csv_to_postgres.py:207 | `patients.csv` names the table `patients` |
| TableNames.DoubledExtension | upload_csv_to_postgres.py:207 | `x.csv.csv` gives `x`: every occurrence is removed |
| TableNames.InnerExtension | upload_csv_to_postgres.py:207 | `data.csv.bak` gives `data.bak`: occurrences inside the name are removed too |
| TableNames.RemovalCanLeaveExtension | upload_csv_to_postgres.py:207 | `.c.csvsv` gives `.csv`: removal is one scan, so the table name can still contain `.csv` |
| Listing.Glob | upload_csv_to_postgres.py:280 | exactly the entries whose names end in `.csv` are kept, and nothing else is added |
| Listing.Sort | upload_csv_to_postgres.py:280 | the files come back in Python string order, as a permutation of the input |
| Listing.SortedIsUnique | upload_csv_to_postgres.py:280 | two name-ordered arrangements of the same files with distinct names are equal, so the processing order is fixed by the names |
| Orchestrator.Calls | upload_csv_to_postgres.py:235-238 | the calls for a parsed file are the drop, then the create with the column definitions, then exactly the `executemany` calls of `insert_data`; none of them ends a transaction |
| Orchestrator.CallsProvision | upload_csv_to_postgres.py:129-138 | the first two calls are the two statements `create_table` provisions the table with |
| Orchestrator.Transact | upload_csv_to_postgres.py:229-252 | the trace ends with exactly one commit or rollback; when no call fails, a commit follows all calls; when a sent call fails, the calls stop after it, a rollback follows and the error is that call's message |
| Orchestrator.LoadCsv | upload_csv_to_postgres.py:223-259 | the result carries the file name and its table name; the trace has exactly one commit or rollback, at its end; success holds exactly when it is a commit; a parse error sends nothing but a rollback and reports that error; a parsed file fails exactly when one of its database calls raises |
| Orchestrator.SucceededCounts | upload_csv_to_postgres.py:238-249 | a success reports the inserted row count (0 for an empty frame) and the original column count, and its trace is drop, create, the batches, then commit |
| Orchestrator.SucceededSendsEveryRow | upload_csv_to_postgres.py:235-241 | after a commit, the rows sent between the create and the commit are exactly the null-filled rows of the file, in order |
| Orchestrator.FailedStopsAtFailingCall | upload_csv_to_postgres.py:251-259 | a parsed file that fails was stopped by the database: the calls up to the failing one were sent, then a rollback, and the reported error is the database's message |
| Orchestrator.OneTerminalPerFile | upload_csv_to_postgres.py:241-252 | each file's trace holds one commit or rollback: a commit for a success, a rollback for a failure |
| Orchestrator.LoadAll | upload_csv_to_postgres.py:305-308 | one result per file, the k-th being that file's own result; what the loop sends is each file's own trace, one after another in file order |
| Orchestrator.Partition | upload_csv_to_postgres.py:319-320 | the successes and the failures together are exactly the results, as a multiset |
| Orchestrator.Successes | upload_csv_to_postgres.py:319 | a result is kept exactly when it is among the results and succeeded |
| Orchestrator.Failures | upload_csv_to_postgres.py:320 | a result is kept exactly when it is among the results and failed |
| Orchestrator.SuccessesAppend | upload_csv_to_postgres.py:319 | filtering a concatenation filters each part, so the successes keep the results' order |
| Orchestrator.FailuresAppend | upload_csv_to_postgres.py:320 | filtering a concatenation filters each part, so the failures keep the results' order |
| Orchestrator.TotalRows | upload_csv_to_postgres.py:326 | failed results add nothing to the total, and every success's row count is at most the total |
| Orchestrator.TotalRowsAppend | upload_csv_to_postgres.py:326 | the total over a concatenation is the sum of the totals |
| Orchestrator.TotalRowsOfSuccesses | upload_csv_to_postgres.py:326 | summing the row counts of the successes alone gives the total over all results |
| Orchestrator.TraceMatchesResults | upload_csv_to_postgres.py:305-308 | the run's trace holds one transaction end per file, as many commits as successes and as many rollbacks as failures |
| Orchestrator.Summarize | upload_csv_to_postgres.py:319-326 | the successes are exactly the results that succeeded and the failures exactly those that failed, together all results; the total row count is the sum over all results, which equals the sum over the successes |
| Orchestrator.Run | upload_csv_to_postgres.py:273-326 | the run stops early exactly when the directory is missing, or when no entry matches `*.csv`; with matching files it stops on a connection error exactly when there is one; a completed run has one result per matched file in name order, its trace is each matched file's own trace in that order, its summary is the status split and row total of exactly those results, and its commits and rollbacks match that summary |
| Orchestrator.ExitStatus | upload_csv_to_postgres.py:273-302 | the exit status is 1 exactly when the directory is missing, holds no `*.csv` entry, or the connection fails, and 0 otherwise, whatever the files' outcomes |
| Scenario.EndToEnd | upload_csv_to_postgres.py:223-326 | with `a.csv` (two rows, two columns) and an unparsable `b.csv`, the run completes with table `a` loaded and `b.csv` failed, in that order, with one commit, one rollback and exit status 0 |

## Left out

- Reading the CSV (line 231) is not modelled. The parsed headers, dtype names, rows and any parse error are inputs, and pandas' dtype inference is not modelled.
- `NullFilled`: line 172 replaces NaN by None through pandas' dtype coercion. The model only maps a missing cell to a null parameter.
- The database driver is reduced to an event trace (lines 137-138, 186, 241, 252, 296-312). Commit, rollback and close are assumed not to fail. Whether PostgreSQL's transactional DDL undoes the cascading drop on rollback is a property of the database.
- Each file's database failure is an input naming the call that raises, so any call may fail. The failing call itself is kept in the trace.
- SQL text is not modelled: quoting, the unescaped table name, and the dangling comma a zero-column CREATE TABLE would have. Statements are structured values.
- `Ascii`: `\w`, `\s`, `str.isdigit` and `str.lower` are modelled on ASCII only. Characters from 128 up count as neither word nor space and are not lower-cased, whereas the script uses Python's Unicode classes.
- Not modelled: the password prompt and `DB_CONFIG` (270-271), all printed output (140, 156, 189-192, 226-227, 232, 253, 265-267, 276, 283, 286, 290-298, 301, 315-339), and the `KeyboardInterrupt` and traceback handling (342-352).
- `Schema.ColumnDefs` models the dictionary keyed by column label (lines 105-122) as a sequence in column order, because pandas gives a parsed file distinct labels.
- `Listing.Glob`: only file names are modelled. Whether the directory listing contains directories, what its own order is, and how case is matched are not modelled.
- `Listing.Sort`: puts names in code-point order, which is how `sorted` orders `Path` objects on POSIX systems; since names within one directory are distinct, it is the only order `sorted` can produce there. On Windows, `Path` objects compare case-folded, so `a.csv` sorts before `B.csv`; that ordering is not modelled.
- `Orchestrator.Summarize`: the total row count is also computed when nothing succeeded (it is 0). The script only computes it when printing the list of successes.
