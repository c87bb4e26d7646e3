# Personnel records store — a Dafny model

This project models the data layer of a desktop personnel-management
application. The application keeps one SQLite file with four tables:

- `personnel`: 19 fixed columns, plus any column an import adds;
- `talent_pool`: entries that point at personnel records, with a reason and a time;
- `operation_log`: one line per write;
- `users`: row 1 holds the digest of the administrator password.

The model covers:

- start-up: `init_db`, then `migrate_db`;
- the division list: `load_admin_data`;
- the spreadsheet import: `import_data`;
- the two exports: `export_data` and `export_talent_pool`;
- the repository writes: `save_person`, `save_and_add_to_talent_pool`, `add_to_talent_pool`, `delete_person`;
- the lock-retry wrapper: `retry_db_operation`;
- the password helpers: `check_password`, `save_password`, `validate_password`.

Layout:

- `Common`: Python's string and integer built-ins the code relies on (`str.strip`, `str.replace`, `int()`, `str()` of a cell).
- `Storage`: the tables as a `Store` class whose fields the operations reassign, with the invariants every write keeps:
  - record ids are ascending and below the next id;
  - each record has 19 fixed values;
  - every pool entry refers to a record.
- `Schema`: table creation and migration as functions of the schema.
- `Retry`: the retry loop as a method over an operation given as a function from attempt number to outcome.
- `Reconcile`: the specification of an import run, sheet by sheet and row by row.
- `Projection`: the read-only views: division lists, the export rows and the talent-pool rows.
- `Database`: the operations as methods on a `Store`, each proved against the functions above.
- `Utils`: the password helpers.

Each write runs in one transaction. When a write fails, the `Store` is
left as it was. One exception is `import_data`: a column it added before
the run's first `INSERT` stays. In its default (legacy) transaction mode,
Python's `sqlite3` module opens a transaction only before an `INSERT`,
`UPDATE`, `DELETE` or `REPLACE`. So an `ALTER TABLE` issued while no
transaction is open commits on its own. One issued after the first
`INSERT` belongs to the open transaction and is rolled back with it.

Quirks of the code that the model keeps:

- An edit made from the talent pool takes the pool reason from `data[-2]`, which is the `bio` value (database.py:290).
- The division list strips "省" from province names. It then looks up cities with the stripped name. So the cities of a record whose province is stored with the "省" suffix are not listed; cities of records stored under the short name still are (`Projection.SuffixedProvinceLosesCities`).
- The photo check compares `person[-1]` with `data[-1]`.
- An import row whose name or phone cell is empty reads as the text `nan`.
- A spreadsheet header with no synonym whose sanitised name is `id` or `photo_path` aborts the import. Those two names are left out of the known columns, so the code tries to add them again and SQLite refuses the duplicate.
- The `INSERT` of a row lists its column names without quotes (database.py:191-194). A column whose name is not a plain SQL name, such as "E-mail" or "出生日期(公历)", is added by the quoted `ALTER TABLE`, but then no row can be inserted: the import fails with a syntax error (`Reconcile.NonBareHeaderAborts`, `Reconcile.AsciiHeaderAborts`). When this happens before the first insert, the new column stays.
- A header with no synonym whose sanitised name holds a single quote breaks the quoted `ALTER TABLE` statement, and the import fails with a syntax error.

## Model

| member | source | states |
|---|---|---|
| Common.Strip | database.py:164 | `str.strip()` gives the empty text iff the text is all white space; otherwise it starts and ends with a non-space; the result is a slice of the text with only white space before and after it |
| Common.ContainsOccurs | database.py:148 | Python's `in` on strings: the substring occurs at some position |
| Common.JoinContains | database.py:208 | every item of `"\n".join(items)` occurs in the joined text |
| Common.StripUnchanged | database.py:180 | a text with no white space at its ends is unchanged by `strip()` |
| Common.RemoveAll | database.py:180 | `replace(c, "")` removes every occurrence of c and keeps every other character as often as it occurred |
| Common.RemoveAllAppend | database.py:180 | `replace(c, "")` works piecewise over a concatenation, so it keeps the order of the remaining characters |
| Common.AsciiLower | database.py:156 | SQLite's case folding of names lowers exactly the ASCII capitals, character by character |
| Common.RemoveAllAbsent | database.py:105 | `replace` of an absent character changes nothing |
| Common.ReplaceChar | database.py:153 | `replace(a, b)` of single characters changes exactly the occurrences of a |
| Common.IntToString | database.py:201 | the decimal text of an integer is non-empty |
| Common.DigitsOfNat | database.py:201 | the decimal text of a natural number reads back as that number |
| Common.ParseInt | database.py:185 | `int()` of an all-white-space text fails |
| Common.ParseIntOfIntToString | database.py:185 | `int()` reads back the decimal text of every integer |
| Common.ParseDigits | database.py:185 | `int()` of a string of digits is its decimal value |
| Common.ParseNegative | database.py:185 | `int()` of a minus sign and digits is the negated decimal value |
| Retry.RetryDbOperation | database.py:12-27 | the attempts and the outcome obey the retry rule: a lock error before the last attempt is retried, and anything else is returned or re-raised at once |
| Retry.AttemptsBounded | database.py:16 | the wrapped function runs at most `max_attempts` times, and at least once iff `max_attempts > 0` |
| Retry.ExhaustedOnlyWithoutAttempts | database.py:25 | the "超过最大重试次数" exception is raised iff `max_attempts <= 0`, because the last lock error is re-raised instead |
| Retry.OtherErrorsNotRetried | database.py:19-24 | an error other than "database is locked" is raised after one attempt |
| Retry.ReturningOperationRunsOnce | database.py:18 | a call that returns is not repeated |
| Retry.RetryThenSucceed | database.py:16-22 | after k lock errors with k < max_attempts, the (k+1)-th result is returned |
| Retry.RetryExhaustion | database.py:20-24 | when every attempt hits the lock, exactly `max_attempts` attempts run and the last lock error is raised |
| Retry.LockedTwiceThenSucceeds | database.py:12-25 | with the default of 3 attempts, two lock errors and then a success give the success on the third attempt |
| Storage.Store.constructor | database.py:29-30 | a store file that does not exist yet has no tables and no rows, and it satisfies the invariants |
| Storage.FindPerson | database.py:326-328 | `SELECT … WHERE id=?` finds a record with that id, and finds none iff no record has it |
| Storage.WithoutPerson | database.py:348 | `DELETE FROM personnel WHERE id=?` keeps exactly the records with another id |
| Storage.WithoutEntriesOf | database.py:349 | `DELETE FROM talent_pool WHERE person_id=?` keeps exactly the entries of other records |
| Storage.WithoutPersonAscending | database.py:348 | deleting a record keeps the ids ascending |
| Storage.WithoutPersonRemovesOne | database.py:348 | the delete removes exactly one row when the id exists and none otherwise |
| Storage.WithoutEntriesAscending | database.py:349 | deleting pool entries keeps the pool ids ascending |
| Storage.CascadeKeepsReferences | database.py:348-349 | after both deletes, every remaining pool entry still refers to an existing record |
| Storage.DeleteWithoutCascadeDangles | database.py:349 | without the second delete, an entry of the deleted record would refer to nothing |
| Storage.AppendAscending | database.py:280-281 | an insert with the next autoincrement id keeps the ids ascending |
| Storage.AppendEntryAscending | database.py:311 | the same holds for a pool insert |
| Storage.WithFields | database.py:285 | the `UPDATE … WHERE id=person[0]` replaces the 19 values of the matching records only, and keeps every id and added column |
| Storage.WithReason | database.py:291 | `UPDATE talent_pool SET reason=? WHERE person_id=?` changes the reason of that record's entries only |
| Storage.SameIdsKeepInvariants | database.py:285-291 | an update that keeps ids keeps them ascending and keeps every pool reference valid |
| Storage.RefsSurviveGrowth | database.py:194 | inserting records never breaks a pool reference |
| Storage.FindAfterDelete | database.py:346-348 | after a delete, the id is not found |
| Storage.FindAfterAppend | database.py:280-281 | the id handed out by an insert finds the inserted record |
| Schema.CreateIfAbsent | database.py:32-71 | `CREATE TABLE IF NOT EXISTS` adds the table with its declared columns when it is absent, and otherwise changes nothing |
| Schema.InitSchema | database.py:29-73 | after `init_db` all four tables exist, existing tables are untouched, and absent ones have their declared columns |
| Schema.MigrateSchema | database.py:78-91 | `migrate_db` adds at most `reason` to `talent_pool` and `password_enabled` to `users`; afterwards both are present |
| Schema.MigrateUsers | database.py:88-96 | an empty `users` table gets row 1 with the digest of "123456" and enabled 1; an existing digest is kept; a row that lacked the column reads enabled 1 |
| Schema.Migrate | database.py:75-98 | migration keeps every table and column and always leaves a users row |
| Schema.Startup | database.py:29-98 | a start-up (init, then migrate) leaves all tables and a users row |
| Schema.StartupTimes | database.py:29-98 | repeated start-ups never drop a table or a column |
| Schema.InitIdempotent | database.py:29-73 | `init_db` twice is the same as once |
| Schema.MigrateIdempotent | database.py:75-98 | `migrate_db` twice is the same as once |
| Schema.InitAfterMigrate | database.py:29-73 | `init_db` changes nothing on a migrated store |
| Schema.StartupIdempotent | database.py:29-98 | a second start-up changes nothing |
| Schema.StartupTimesIsOnce | database.py:29-98 | any number (at least one) of start-ups equals one start-up |
| Schema.StartupTimesFixed | database.py:29-98 | a store that a start-up leaves unchanged stays unchanged under any number of start-ups |
| Schema.StartupKeepsPassword | database.py:92-96 | start-up never overwrites a stored password digest |
| Reconcile.FirstSynonym | database.py:147-151 | the first synonym, in declaration order, that occurs in the header, or none |
| Reconcile.Sanitize | database.py:153 | the new column name is the header with each space and each slash replaced by `_`, and every other character kept |
| Reconcile.ClashIgnoresCase | database.py:156 | two names that differ only in ASCII case clash with the same columns, and an existing column clashes with itself |
| Reconcile.MapHeader | database.py:145-157 | a header maps to its synonym's column; otherwise to its sanitised name. Adding that name fails iff it is not a known column and either holds a single quote (a syntax error) or clashes case-insensitively with a column ("duplicate column name") |
| Reconcile.StartRun | database.py:119-124 | an import starts from the stored records, the next id and the table's columns, with zero counts, no reasons, and all those columns durable |
| Reconcile.AddColumn | database.py:155-157 | mapping a header adds its column to the known columns |
| Reconcile.TargetPairs | database.py:145-154 | each header is paired with the column it maps to, in header order |
| Reconcile.MapHeaders | database.py:143-157 | mapping a sheet's headers never touches the records; the known columns grow by exactly the targets of the headers |
| Reconcile.MapHeadersDurable | database.py:155-157 | a column added before the first insert of the run is durable; a column added after it is not |
| Reconcile.MapHeadersClash | database.py:145-156 | the header loop stops only at a header with no synonym whose `ALTER TABLE` fails, and the abort carries that statement's error |
| Reconcile.MapHeadersValid | database.py:143-157 | header mapping keeps the run consistent, never loses a durable column, and maps every header into a known column |
| Reconcile.Normalise | database.py:179-189 | province values are stripped and lose every "省"; city values are stripped and lose every "市"; age becomes `int()` of the text, or 0 when that fails; any other value is kept as text |
| Reconcile.MappedCellsExist | database.py:177-178 | in a sheet whose rows all have exactly its headers as keys, every mapped header is a key of each row, and its value counts iff it is not missing |
| Reconcile.InitialRowData | database.py:173-175 | a new row starts with every known column, `photo_path` and `status`; status is "在职" and the rest are empty |
| Reconcile.ApplyPairs | database.py:177-189 | filling a row only adds keys that a mapped column names |
| Reconcile.ApplyPairsLastPresent | database.py:177-189 | a column takes the value of the last header mapped to it that has a value in the row; a column with no such header keeps its initial value |
| Reconcile.NewRecord | database.py:191-194 | the inserted record has the new id, the row's values in the 19 fixed columns, and the other keys as added columns |
| Reconcile.KeyText | database.py:162-163 | the name and phone are read from the first key, then the second, then default to empty |
| Reconcile.ImportRow | database.py:161-195 | each row is either inserted or skipped |
| Reconcile.ImportRowValid | database.py:161-195 | handling a row keeps the run consistent |
| Reconcile.ImportRows | database.py:159-198 | inserted plus skipped equals the number of rows; records, ids and reasons only grow, and in step with the counts |
| Reconcile.ImportRowsValid | database.py:159-198 | handling a sheet's rows keeps the run consistent |
| Reconcile.DuplicateQueries | database.py:164-168 | with a blank phone the duplicate test is the name-only query; otherwise it is a record with that name and that exact phone |
| Reconcile.SkipReason | database.py:170 | the skip reason names the record's name and its phone, or "无" when the phone is empty |
| Reconcile.PhoneShown | database.py:170 | `phone or '无'`: a non-empty phone is shown as itself, an empty one as a non-empty placeholder |
| Reconcile.ImportRowSkipsExactlyDuplicates | database.py:164-171 | a row is skipped iff a record has its name (and its phone, when the phone is not blank); a skip appends its reason and inserts nothing; an insert appends the new record |
| Reconcile.DuplicatesPersist | database.py:164-168 | inserting more rows never removes a match |
| Reconcile.NewRecordKeyFields | database.py:191-194 | the inserted record's name and phone are the row data's `real_name` and `phone` |
| Reconcile.RowDataValue | database.py:173-189 | the row data holds the last present mapped value of each column |
| Reconcile.InsertedRowMatches | database.py:164-194 | an inserted record matches its own name and phone in later duplicate checks |
| Reconcile.SameRowTwice | database.py:159-171 | the same row twice in a sheet is inserted once and skipped once, with its reason |
| Reconcile.RowStep | database.py:161-195 | a row is skipped as a duplicate, or inserted; the insert fails with a syntax error iff some column name of the row data is not a plain SQL name, and then nothing of the row is kept |
| Reconcile.InsertOutcome | database.py:191-195 | a row that is not a duplicate is inserted when all its column names are plain, and aborts the sheet otherwise |
| Reconcile.SheetRows | database.py:159-196 | the row loop with a fallible insert: counts, records, ids and reasons only grow in step; when it does not abort it computes the same run as the infallible loop; an abort is a syntax error |
| Reconcile.SheetRowsValid | database.py:159-196 | the fallible row loop keeps the run consistent |
| Reconcile.InsertColumns | database.py:173-191 | the `INSERT` names every known column, plus at most `photo_path`, `status` and mapped columns |
| Reconcile.BareColumnsNeverFail | database.py:191-194 | while every column has a plain name, no insert fails and the row loop equals the infallible one |
| Reconcile.NonBareColumnBlocksInsert | database.py:191-194 | with a known column whose name is not plain, the sheet aborts iff it would have inserted any row |
| Reconcile.UnmappedColumnNotBare | database.py:152-157 | a header without synonym whose sanitised name is not plain leaves a known column with such a name |
| Reconcile.NonBareHeaderAborts | database.py:145-195 | a sheet with such a header and a first row that is not a duplicate aborts the import with a syntax error, keeping the columns the header loop added |
| Reconcile.AsciiHeaderAborts | database.py:145-195 | a one-column sheet with an ASCII header that is not a plain name (and no quote, no clash) adds the column and then aborts with a syntax error; the column is durable when nothing was inserted before |
| Reconcile.EmailHeader | database.py:147-153 | "E-mail" is ASCII and holds no quote |
| Reconcile.EmailSanitized | database.py:153 | "E-mail" is its own sanitised name |
| Reconcile.EmailNotBare | database.py:194 | "E-mail" is not a plain SQL name, so it breaks the unquoted column list |
| Reconcile.ImportSources | database.py:137-198 | over all files, columns, records, ids, counts and reasons only grow; a finished run accounts for every row |
| Reconcile.ImportSourcesValid | database.py:137-198 | the whole import keeps the run consistent and never loses a durable column |
| Reconcile.MapHeadersInto | database.py:145-157 | after the header loop, every mapped header points at a column the table has |
| Reconcile.ShownReasons | database.py:208 | at most five skip reasons are shown: the first ones |
| Reconcile.ImportMessage | database.py:206-208 | the message starts with "成功导入 n 条数据", and is exactly that line iff no row was skipped |
| Reconcile.MessageListsReasons | database.py:206-208 | when rows were skipped, each of the first five reasons appears in the message |
| Reconcile.ImportLogTargetInjective | database.py:200-201 | the log text "导入了…条数据，跳过了…条" determines both totals |
| Projection.NonEmptyText | database.py:104 | `IS NOT NULL AND != ''` keeps exactly the non-empty texts |
| Projection.BelowIrreflexive | database.py:105 | Python's string order is strict |
| Projection.BelowTransitive | database.py:105 | Python's string order is transitive |
| Projection.BelowTotal | database.py:105 | Python's string order is total on distinct strings |
| Projection.InsertSorted | database.py:105 | adding a name to a sorted, duplicate-free list keeps it sorted and duplicate-free, and the list holds exactly the old names and the new one |
| Projection.ProvinceNamesSpec | database.py:104-105 | the provinces listed are exactly the non-empty stored provinces with "省" removed |
| Projection.SuffixedProvinceLosesCities | database.py:104-109 | a record whose province is stored as some name plus "省" lists that name as a province with no city under it |
| Projection.SuffixedProvinceKeys | database.py:104-109 | that record's province shows without the suffix, and the city query for the shortened name does not find it |
| Projection.DefaultFilename | database.py:219-234 | the default file name for each combination of export type, province and city |
| Projection.Selected | database.py:217-236 | the rows exported are exactly the records matching the province and city filters |
| Projection.DivisionWithoutChoiceSelectsEverything | database.py:220-231 | with "全部" for both province and city, no condition is added and every record is exported |
| Projection.ConditionsCompose | database.py:221-231 | the two conditions are joined with AND: filtering by province and city equals filtering by province, then by city |
| Projection.ExportRow | database.py:241-249 | each exported row holds the 17 named columns of its record, in order |
| Projection.ExportData | database.py:214-251 | no data (with its message) iff no record is in scope; otherwise the labels, the file name, and one row per selected record |
| Projection.ExportColumnsNamed | database.py:241-248 | the export keeps exactly the 17 named columns, in the order of the mapping from `real_name` to `bio` |
| Projection.PoolColumnsNamed | database.py:258-259 | the pool export reads `real_name`, `gender`, `age`, `phone`, `province`, `city`, `position`, `status`, `bio`, in that order, before the reason and the time |
| Projection.ExportAllSelectsEverything | database.py:233-236 | the full export selects every record |
| Projection.PoolRow | database.py:257-265 | a talent-pool row has the 11 labelled columns: the record's nine selected values, then the entry's reason and time added |
| Projection.Joined | database.py:261 | the record an entry joins with is a stored record with the entry's `person_id` |
| Projection.PoolRowsJoin | database.py:257-263 | when every entry has its record, row i is the row of entry i joined with its record |
| Projection.PoolRows | database.py:257-263 | the inner join has at most one row per entry, and exactly one when every entry has its record |
| Projection.ExportTalentPool | database.py:253-266 | the pool export carries the 11 labels; when every entry has its record, one row per entry, row i being entry i joined with its record |
| Projection.PoolRowsFollowPool | database.py:257-263 | row i is entry i joined with the record it refers to |
| Database.InitDb | database.py:29-73 | the store's schema becomes the `init_db` schema; rows are untouched and the invariants hold |
| Database.MigrateDb | database.py:75-98 | schema and users row become their migrated forms; the other tables are untouched |
| Database.SortedProvinces | database.py:104-105 | a strictly ascending list of exactly the distinct provinces |
| Database.SortedCities | database.py:108-109 | a strictly ascending list of exactly the distinct cities of that stored province |
| Database.LoadAdminData | database.py:100-112 | the provinces in order, each with its sorted cities, and no other keys |
| Database.MapColumns | database.py:143-157 | the header loop computes the header mapping of the sheet |
| Database.BuildRowData | database.py:173-189 | the loop builds the specified row data |
| Database.ReconcileRow | database.py:161-195 | one row is handled as specified: skipped with its reason, inserted, or the insert fails |
| Database.InsertRow | database.py:173-195 | the row data is built and inserted, or the insert fails on a name that is not plain |
| Database.ReconcileRows | database.py:159-196 | the row loop computes the specified run over the sheet's rows, stopping at a failed insert |
| Database.ReconcileSources | database.py:137-198 | the file loop computes the specified import |
| Database.CommitImport | database.py:200-202 | the run's records, ids and columns replace the table's; one log line records the counts; the invariants hold |
| Database.ImportData | database.py:114-212 | on an abort, only durable columns remain, and "导入失败：" with the reason is returned; otherwise the run is committed and logged, and the success message is returned, or the refresh failure |
| Database.InsertPerson | database.py:280-281 | the insert appends a record with the next id and the given values, and keeps the invariants |
| Database.UpdatePerson | database.py:285-291 | the edit overwrites the target's values and, from the pool, its entries' reasons with `data[-2]`; nothing else changes |
| Database.SavePerson | database.py:271-302 | a wrong value count, or an edit without `person[0]`, writes nothing and returns the error; add inserts with the next id; edit overwrites the target and, from the pool, its reasons with `data[-2]`; one log line; a photo change is reported |
| Database.SaveAndAddToTalentPool | database.py:304-319 | a new record and a pool entry for its new id, with one log line, or nothing with the error |
| Database.AddToTalentPool | database.py:321-339 | an unknown id writes nothing and returns "人员不存在"; otherwise one entry and one log line naming the record |
| Database.DeletePerson | database.py:341-356 | an unknown id writes nothing and returns the subscript error; otherwise exactly that record and all its entries go, with one log line |
| Utils.ValidatePassword | utils.py:52-61 | accepted iff length is at least 8 and there is a letter, a digit and a special character; the message names the first rule broken |
| Utils.ValidateMessageDecides | utils.py:52-61 | the message decides the verdict |
| Utils.DefaultPasswordIsWeak | utils.py:52-54 | the seeded "123456" fails the length rule |
| Utils.StrongExample | utils.py:52-61 | "Abcdef1!" is accepted |
| Utils.CheckPassword | utils.py:26-37 | true only when table and row exist and the digests agree; on a consistent store, iff the digests agree |
| Utils.SavePassword | utils.py:39-50 | row 1 gets the new digest (updated or inserted); afterwards exactly the passwords with that digest are accepted; without a `users` table, nothing changes and the error is returned |
| Utils.StartupAcceptsDefault | database.py:92-96 | a fresh store accepts "123456" after start-up |
| Utils.StartupKeepsAccepted | database.py:92-96 | start-up does not change which passwords a store with row 1 accepts |

## Left out

- Spreadsheet reading (pandas `read_csv`/`read_excel`): a sheet is given as headers plus rows of optional texts. An unreadable file is an abort with its error text. Numeric cells (pandas floats such as `30.0`) are not modelled; cells are the text pandas would give. Pandas gives unique headers and rows keyed by exactly those headers; `Reconcile.WellFormedSheet` states this, and only `Reconcile.MappedCellsExist` relies on it.
- The "姓名"-style lookups read `row.get`. On a missing value (NaN), `str()` gives "nan"; this is kept. Other float renderings are not modelled.
- `time.sleep`, `logging`, and the clock: the time is the `now` parameter.
- SHA-256: the digest is the parameter `hash`.
- SQLite type affinity: values are stored as given (the age of an import is an integer; everything else is text).
- `lastrowid` is modelled as a counter that only grows.
- `SELECT` without `ORDER BY` returns rows in id order, and the talent-pool join returns them in entry order. SQLite guarantees neither.
- Concurrency and other connections. The "database is locked" error appears only as an outcome of the operation given to `Retry.RetryDbOperation`. The other operations do not run inside it: every decorated function except `export_data` catches every exception itself, so the wrapper never sees a lock error from them.
- Storage faults (disk full, a corrupt file) other than the error paths modelled.
- `Database.MigrateDb` requires that `init_db` has run. On a file without `talent_pool`, `migrate_db` fails at once on `ALTER TABLE talent_pool ADD COLUMN reason` (database.py:80-81). On a file with `talent_pool` but without `users`, it creates `users` with `password_enabled` and then fails on the second `ALTER TABLE users ADD COLUMN password_enabled` (database.py:85-89). Neither path is modelled.
- `Database.LoadAdminData` and the other store operations require a started store (`Storage.Store.Ready`: all four tables, the declared `personnel` columns, and the `reason` column of `talent_pool`). The application always runs `init_db` and `migrate_db` first. On a file without those tables, or a legacy `talent_pool` without `reason`, the source raises an SQLite error; that path is not modelled.
- `Reconcile.MapHeader`: the error of an `ALTER TABLE` broken by a quote is abstracted to "syntax error", as SQLite's text names the offending token. Every sanitised name holding a single quote is modelled as a failing `ALTER TABLE`. A doubled quote (SQL's escape) or a quote followed by text SQLite still accepts (a trailing comment) would not fail.
- `Reconcile.RowStep`: SQLite's exact error text is abstracted to "syntax error" (which token it reports depends on the order of the row's keys). A name SQLite still reads as one quoted name (`[x]`, `` `x` ``) is modelled as failing. A plain name that is an SQL keyword (such as `order`) is modelled as succeeding.
- `Storage.WithFields`: the edit target `person[0]` matches a record only as an integer equal to its id. SQLite's conversion of a text such as "5" to an integer is not modelled.
- `Common.ParseInt`: `int()` is modelled on texts of ASCII digits with an optional sign and surrounding white space. Python also accepts underscores between digits and non-ASCII decimal digits.
- `Reconcile.Normalise`: the age is `Common.ParseInt` of the cell text; float values from pandas are not modelled.
- `Utils.ValidatePassword`: a digit is an ASCII digit; Python's `\d` also accepts other Unicode decimal digits.
- `Projection.ExportData` and `Projection.ExportTalentPool` take the tables as values and assume the tables exist. `export_data` has no handler of its own, so a missing table raises out of it; `export_talent_pool` returns "导出失败" with the error. Neither path is modelled.
- The `admin_data` parameter of `export_data` is unused by the source and is left out.
- The GUI, photos (`upload_photo`, `delete_photo`), PDF export of a person and backups are not part of this model.
