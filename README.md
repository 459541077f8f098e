# go-mydumper: the dump and load engine, modelled in Dafny

go-mydumper copies MySQL-compatible databases to files and back.
- The **dumper** (`common/dumper.go`) chooses the databases and tables to dump. For each table it writes a schema file and a series of numbered part files. A part file is either SQL `INSERT` statements or, in Doris mode, a tab-separated text with a header line.
- The **loader** (`common/loader.go`) classifies the files of a dump by suffix and replays the database schemas and the table schemas. It then shuffles the data files and restores each one. SQL mode executes its statements; Doris mode sends an HTTP stream-load request, round-robin over the load endpoints.
- Both sides borrow database sessions from a fixed-size **connection pool** (`common/pool.go`). The pool renews a session whose ping fails.

The project is split into modules:
- `Text` (`text.dfy`): the string functions the Go code calls. These are `strings.Split`, `Join`, `Index`, `ReplaceAll`, `TrimSuffix`, `HasSuffix` and `filepath.Base`, plus `%05d` and UTF-8 byte length.
- `DumpEncoding` (`encoding.dfy`): how one row becomes text in each mode.
- `DumpChunks` (`chunks.dfy`): the buffering and part-file rotation of both table dumpers. Each is a fold over the encoded rows.
- `DumpQuery` (`projection.dfy`): the column projection and the data query.
- `Dumper` (`dumper.dfy`): the schema files, the two table dumpers as methods, and the choice of databases and tables.
- `Loader` (`loader.dfy`): file classification, name parsing, schema and data replay, the Doris request and its retry verdict, the dispatch, and the whole run as one trace of actions.
- `Shuffling` (`shuffle.dfy`): the in-place Fisher-Yates shuffle the loader applies to the data files.
- `Pool` (`pool.dfy`): the pool as a class over a queue of `Connection` objects. Each connection holds a session record that its methods update.

Calls outside the core become parameters:
- `EscapeBytes` is a function `esc`, and reading a file is a function `read`.
- A regular-expression match is a predicate `matches`.
- `rand.Intn(i + 1)` is a supplied choice `picks[i] <= i`.
- Each HTTP submission is an `Attempt` from a supplied script.
- Whether a dial, a ping or a statement succeeds is a supplied boolean, or a function of the statement.
- Driver rows are `Value`s. Each value carries the type flags the driver reports and its raw bytes, or nil for NULL.

Behaviours of the code worth noting:
- Doris text values are cut to 512 *characters*. Characters are then dropped while the value's UTF-8 form is longer than 512 *bytes*.
- `CheckRedirect` stops redirects from being followed, so a `307` answer is judged like any other non-200 answer and is retried.
- With overwrite set, schema replay issues a `DROP TABLE IF EXISTS` before every executable statement of the file, not only before the first.

## Model

| member | source | states |
|---|---|---|
| `DumpEncoding.EncodeSqlRow` | common/dumper.go:219-233 | The value loop computes `SqlRow`: `NULL` for nil, the raw text for numeric kinds, otherwise the escaped text in double quotes; joined with commas inside parentheses. |
| `DumpEncoding.SqlValueRoundTrip` | common/dumper.go:220-231 | Reading an encoded value back gives its raw value whenever `unesc` undoes `esc` and a numeric text is neither `NULL` nor quoted. |
| `DumpEncoding.SqlRowShape` | common/dumper.go:233 | Every SQL row starts with `(`, ends with `)` and so takes at least two bytes. |
| `DumpEncoding.SqlRowExample` | common/dumper_test.go:142 | The test's row (a signed 11, a quoted text, an empty text, NULL, a decimal, NULL) encodes to the expected text. |
| `DumpEncoding.FitBytes` | common/dumper.go:129-131 | The result is a prefix of the input that fits in 512 bytes. Either nothing was dropped, or keeping one more character would exceed 512 bytes. |
| `DumpEncoding.TruncatedSpec` | common/dumper.go:126-132 | A text of at most 512 characters is unchanged. A longer one becomes the longest prefix of its first 512 characters that fits in 512 bytes, which keeps between 128 and 512 characters. |
| `DumpEncoding.TruncatedShortTextKeepsBytes` | common/dumper.go:127 | The byte bound applies only to long texts: 200 three-byte characters (600 bytes) pass through unchanged. |
| `DumpEncoding.TruncateRunes` | common/dumper.go:126-133 | The rune-slice loop computes `Truncated`. |
| `DumpEncoding.CleanedHasNoDelimiters` | common/dumper.go:122-124 | After the two `ReplaceAll` calls the escaped text holds no tab and no newline; it is the escaped text with those characters removed. |
| `DumpEncoding.EncodeDorisRow` | common/dumper.go:110-137 | The value loop computes `DorisRow`: `\N` for nil, numeric and temporal values as given, otherwise cleaned and truncated text; joined with tabs. |
| `DumpEncoding.DorisTextHasNoDelimiters` | common/dumper.go:121-133 | An encoded text value never contains a tab or a newline. |
| `DumpEncoding.DorisRowSplits` | common/dumper.go:137 | Splitting a Doris row on tabs gives back exactly its per-column values, when no verbatim value holds a tab. |
| `DumpQuery.Quote` | common/dumper.go:191 | The identifier is enclosed in back quotes and otherwise unchanged. |
| `DumpQuery.KeptMembers` | common/dumper.go:185-190 | A column is kept exactly when it is a column of the table that the table's filter does not name; the kept list is no longer than the input. |
| `DumpQuery.KeptUnfiltered` | common/dumper.go:187 | A table without a filter keeps every column, in order. |
| `DumpQuery.ExtField` | common/dumper.go:192-197 | A select item ends with the quoted column. It differs from the plain quoted column exactly when a replacement is configured. |
| `DumpQuery.BuildProjection` | common/dumper.go:181-201 | The probe loop computes the quoted kept columns and their select items, pairwise. |
| `DumpQuery.ProjectionAligned` | common/dumper.go:191-197 | Header and select list have the same length. Each select item selects into the header column at its position, and differs from it only when a replacement is configured. |
| `DumpQuery.SelectQueryShape` | common/dumper.go:203-207 | The data query selects the projected items from the table. It ends with two spaces and `WHERE <cond>` when the table has a condition, and with one trailing space otherwise. |
| `DumpChunks.SqlPartsKeepRows` | common/dumper.go:236-270 | With the corrected final flush, the SQL part files read in order hold every row of the cursor exactly once, in cursor order. |
| `DumpChunks.SqlPartsShape` | common/dumper.go:243-259 | Parts are numbered 1, 2, 3, … without gaps. Every INSERT was closed by the first row that brought it to StmtSize bytes, except possibly the last INSERT of the last part, which is shorter than StmtSize. |
| `DumpChunks.SqlPartsAsWrittenRows` | common/dumper.go:250-270 | The code as written loses exactly the rows still buffered when the last rotation left chunkbytes at zero. Otherwise it agrees with the corrected version. |
| `DumpChunks.SqlLastRowLost` | common/dumper.go:261-270 | If the last row triggers a rotation without closing its INSERT, the code as written puts fewer rows in the part files than the cursor returned. |
| `DumpChunks.SqlRowLostExample` | common/dumper.go:243-270 | One row `(1)` with StmtSize 100 and ChunksizeInMB 0: as written, the only part file holds no INSERT; the corrected version keeps the row. |
| `DumpChunks.DorisPartsRows` | common/dumper.go:141-167 | The Doris parts hold the cursor's rows in order; only rows after the last rotation that take zero bytes in total are left out. |
| `DumpChunks.DorisPartsKeepRows` | common/dumper.go:146-167 | When every encoded row takes at least one byte, the Doris parts hold exactly the cursor's rows, in order. |
| `DumpChunks.DorisPartsShape` | common/dumper.go:146-157 | Parts are numbered 1, 2, 3, … and none is empty. Every part but the last was closed by the row that first took it to the chunk size; the last one was closed the same way or stays below the chunk size. |
| `Dumper.DorisSchemaRewrite` | common/dumper.go:47-54 | Without `UNIQUE KEY` only `varchar(255)` is widened to `varchar(512)`. With it, every `REPLACE` is removed first. A schema containing neither is written unchanged. |
| `Dumper.DorisSchemaWidens` | common/dumper.go:51-53 | After the Doris rewrite no `varchar(255)` is left anywhere in the schema, whatever the text around it. |
| `Dumper.DorisSchemaLength` | common/dumper.go:48-53 | The rewrite never lengthens the schema. Without `UNIQUE KEY` the length is kept. With it, the schema gets shorter exactly when it mentions `REPLACE`, because the widening keeps the length. |
| `Text.ReplaceAllFree` | common/dumper.go:52 | `strings.ReplaceAll` leaves no copy of the pattern when the replacement is at least as long, starts like the pattern and cannot form a new copy at a seam. |
| `Text.ReplaceAllLength` | common/dumper.go:49-52 | Replacing by a text of the same length keeps the length. A shorter replacement never grows the text and shrinks it when the pattern occurs. |
| `Dumper.TableSchemaPlain` | common/dumper.go:44 | Outside Doris mode the schema file is the server's CREATE statement followed by `;\n`. |
| `Dumper.DumpTable` | common/dumper.go:173-275 | dumpTable issues the projected data query and writes exactly the rendering of `SqlParts` over the encoded rows, with the final flush corrected. The counters equal the number of rows and the sum of their byte lengths. |
| `Dumper.SqlRowStep` | common/dumper.go:236-259 | One encoded row, as the loop variables see it: they move from the fold state `st` to `SqlStep(lim, st, r)`. The closed INSERTs and the written parts stay the rendering of that state. |
| `Dumper.DumpDorisTable` | common/dumper.go:65-171 | dumpDorisTable issues the projected data query and writes exactly the rendering of `DorisParts`: a header line, then one line per row. The counters equal the number of rows and the sum of their byte lengths. |
| `Dumper.DorisRowStep` | common/dumper.go:137-157 | One encoded row in Doris mode: the loop variables move from `st` to `DorisStep(lim, st, r)`. The written parts stay the rendering of that state. |
| `Dumper.FilterDatabases` | common/dumper.go:299-310 | The loop keeps, in server order, the databases whose match differs from the invert flag. |
| `Dumper.SelectedMembers` | common/dumper.go:305 | A database is selected exactly when it is on the server and its match result differs from the invert flag. |
| `Dumper.SelectedPartition` | common/dumper.go:305 | The plain and the inverted selections together hold every server database exactly as often as the server lists it. |
| `Dumper.SelectedSystemSchemasInverted` | common/dumper_test.go:938-939 | With the system-schema pattern inverted, only `test1` and `test2` are dumped. |
| `Dumper.SelectDatabasesSpec` | common/dumper.go:340-349 | A regexp selects by match, else the comma-separated list is used (splitting loses nothing and no name holds a comma), else every server database. |
| `Dumper.TablesForSpec` | common/dumper.go:355-367 | Outside Doris mode the explicit or server table list is used as it is. In Doris mode a table stays exactly when it is listed and has a Doris or InnoDB engine. |
| `Dumper.DumpTableJob` | common/dumper.go:397-407 | If SHOW CREATE TABLE fails, nothing is written. Otherwise the schema file comes first, followed by that mode's data parts. |
| `Loader.LoadFiles` | common/loader.go:45-69 | The walk loop puts each path in the list of its first matching suffix, keeping walk order. |
| `Loader.OfMembers` | common/loader.go:52-62 | A path is in a list exactly when it was walked and has that list's category. |
| `Loader.OfPartition` | common/loader.go:52-62 | The three lists and the ignored paths together are exactly the walked paths, counted with repetition. |
| `Loader.ClassifyDatabaseSchemaName` | common/loader.go:54-55 | A database schema file written by the dumper is classified as a database schema. |
| `Loader.DumpedDatabaseSchema` | common/dumper.go:33-35 | The file dumpDatabaseSchema writes is classified by the loader as a database schema. It names its database and holds the `CREATE DATABASE IF NOT EXISTS` statement that restoring it executes. |
| `Loader.ClassifyTableSchemaName` | common/loader.go:56-57 | A table schema file written by the dumper is classified as a table schema, not as data. |
| `Loader.ClassifySqlDataName` | common/loader.go:58-60 | A SQL part file written by the dumper is classified as data. |
| `Loader.ClassifyDorisDataName` | common/loader.go:59 | A Doris part file written by the dumper is classified as data. |
| `Loader.ParseSqlDataName` | common/loader.go:240-247 | The name of a SQL part parses back to its database, table and zero-padded part number. |
| `Loader.ParseDorisDataName` | common/loader.go:183-190 | The name of a Doris part parses back to its database, table and part number; `.csv` remains as a fourth piece. |
| `Loader.ParseTableSchemaName` | common/loader.go:92-95 | The name of a table schema file parses back to its database and table. |
| `Loader.ParseDatabaseSchemaName` | common/loader.go:73-74 | The name logged for a database schema file is its database. |
| `Loader.KeepExecutableSound` | common/loader.go:261-262 | Every kept piece is a piece of the file; none is empty or starts with a comment. |
| `Loader.StatementsSound` | common/loader.go:259-265 | No replayed statement is empty, a comment, or contains `;\n`. |
| `Loader.RestoreTable` | common/loader.go:237-269 | A name with fewer than two pieces panics. Otherwise the database is selected with `USE`, the kept pieces run in file order, and the byte count is the file's length. |
| `Loader.ExecutedPieces` | common/loader.go:258-265 | The loop over the `;\n` pieces runs exactly `Statements(text)`: each piece that is not empty and does not start with `/*`, in file order. |
| `Loader.ReplayDumpedPart` | common/loader.go:259-265 | Restoring a SQL part written by the dumper executes exactly its INSERT statements, in order, when no INSERT contains `;\n`. |
| `Loader.WithDropsAlternate` | common/loader.go:111-120 | Every replayed schema statement is directly preceded by its table's `DROP TABLE IF EXISTS`, and the statements keep their order. |
| `Loader.ReplaySchemaFile` | common/loader.go:100-121 | One schema file replays `USE`, then a DROP before each kept piece. |
| `Loader.RestoreTableSchema` | common/loader.go:86-124 | Without overwrite nothing is executed. Otherwise the files are replayed in turn. A name that cannot be parsed panics before its `USE`, and the statements of the earlier files stay executed. |
| `Loader.PanicSticks` | common/loader.go:94-95 | After a schema name fails to parse, nothing more is executed. |
| `Loader.SchemaReplaysPanic` | common/loader.go:90-95 | The schema replay panics exactly when some schema file's name has fewer than two dot-separated pieces. |
| `Loader.SchemaReplaysFirstBad` | common/loader.go:90-101 | A panic keeps exactly what the files before the first bad name executed. |
| `Loader.ReplayDumpedSchema` | common/loader.go:90-123 | Replaying the schema file the dumper wrote for a table executes `USE`, `DROP TABLE IF EXISTS` and the table's CREATE statement, without a panic. |
| `Loader.StatementsOfSchema` | common/loader.go:110-112 | A schema file holding one statement free of `;\n` replays just that statement. |
| `Loader.RestoreDatabaseSchema` | common/loader.go:71-84 | Each database schema file's whole text is executed once, in list order. |
| `Loader.HeaderBody` | common/loader.go:199-202 | Header and body around the first newline rebuild the file, and the header holds no newline. A file without a newline panics. |
| `Loader.HeaderBodyOfDorisText` | common/loader.go:200-202 | From a Doris part, the header and the body are the dumper's column list and its row lines. |
| `Loader.LoadRequest` | common/loader.go:126-138 | A PUT to the URL with the body, carrying a numeric Content-Length, the header line as `columns`, and `strict_mode` set to `true`. |
| `Loader.ContentLengthIsBodyBytes` | common/loader.go:132 | The announced Content-Length is the body's length in bytes. |
| `Loader.JudgeSpec` | common/loader.go:140-178 | A submission is done exactly for a 200 answer with decodable JSON. It warns exactly when the load failed or rows were filtered. Everything else, a 307 included, is retried. |
| `Loader.SubmitUntilDone` | common/loader.go:224-231 | The retry loop stops at the first attempt judged done, and every earlier attempt was retried. If none is done, all of them were retried. |
| `Loader.FirstDone` | common/loader.go:224-231 | The first attempt judged done, with every earlier one retried; none when every attempt is retried. |
| `Loader.RestoreDorisTable` | common/loader.go:180-235 | A bad name, or a file without a newline, panics. Otherwise the request for the table's stream-load endpoint carries the file's header and body. It completes at the first attempt judged done, every earlier attempt was retried, and without a completion every attempt was retried. The byte count is the file's length. |
| `Shuffling.SwappedPermutation` | common/loader.go:292 | Swapping two entries of the list keeps the same multiset of files. |
| `Shuffling.ShuffledPermutation` | common/loader.go:289-293 | The Fisher-Yates pass only reorders the data files. |
| `Shuffling.Shuffle` | common/loader.go:290-293 | The in-place swap loop computes `Shuffled` and leaves a permutation of the list. |
| `Loader.EndpointRoundRobin` | common/loader.go:315-316 | Endpoint choice repeats with the number of endpoints, and the first round uses each endpoint in order. |
| `Loader.SplitAddressesNonEmpty` | cmd/myloader/myloader.go:59 | The endpoint list comes from a split, so it is never empty and the modulo is defined. |
| `Loader.Dispatch` | common/loader.go:311-316 | Each data file is dispatched once, in order. The k-th file goes to endpoint k modulo the number of endpoints. |
| `Loader.RunJob` | common/loader.go:318-330 | One goroutine restores its file with the mode's restore function. Its actions are what that function executes or submits, and its end is the byte count, a panic, or retrying for ever. |
| `Loader.RunJobs` | common/loader.go:311-333 | The data loop restores the dispatched files in order. It stops at the first panic, keeping the actions of the files before it. |
| `Loader.CombineSticks` | common/loader.go:318-330 | Once a file's restore panics, no later file adds anything to the run. |
| `Loader.LoadBytes` | common/loader.go:329 | A finished run's total is the sum of the data files' byte lengths. |
| `Loader.LoadEnds` | common/loader.go:318-333 | The run panics exactly when some file's goroutine panics. It waits for ever exactly when none panics and some file's load is never judged done. |
| `Loader.DataStage` | common/loader.go:311-331 | Every action of the data loop belongs to the data stage. |
| `Loader.LoadData` | common/loader.go:289-331 | The data files are shuffled, each is dispatched exactly once round-robin over the endpoints, and then each is restored in dispatch order. |
| `Loader.Load` | common/loader.go:272-336 | One trace in stage order: database schemas, then table schemas, then data. A panic in the schema replay ends the run with no data file dispatched. Otherwise every walked data file is dispatched once, and the trace and the end are those of the data loop. |
| `Pool.SessionPieces` | common/pool.go:63-64 | No statements for empty variables. Otherwise the pieces joined with `;` are the variables, and no piece contains `;`. |
| `Pool.SessionPiecesTrailingEmpty` | common/pool.go:64 | Variables ending in `;` yield an empty last statement, which is sent too. |
| `Pool.FirstFailure` | common/pool.go:65-69 | Every statement before the position succeeds, and the one at the position fails. |
| `Pool.SentAll` | common/pool.go:65-69 | All statements succeed exactly when there is no failure position. Then all are sent; otherwise the last one sent is the failing one. |
| `Pool.Connection.constructor` | common/pool.go:62 | A connection holds its identifier, session, server, account and variables. |
| `Pool.Connection.Execute` | common/pool.go:40-42 | The statement is appended to the session's record, and the error reflects the server's verdict. |
| `Pool.Connection.ApplyVars` | common/pool.go:99-106 | The session-variable loop sends every statement up to and including the first failure, and succeeds exactly when none fails. |
| `Pool.AccountsCount` | common/pool.go:56 | Queued and borrowed connections together number exactly the capacity. |
| `Pool.AccountsFresh` | common/pool.go:57-72 | A new pool has every connection queued in identifier order and none borrowed. |
| `Pool.AccountsTake` | common/pool.go:86 | Taking the front connection moves its identifier from the queue to the borrowed set. |
| `Pool.AccountsGiveBack` | common/pool.go:120 | Returning a borrowed connection moves its identifier back to the queue. |
| `Pool.Pool.constructor` | common/pool.go:74-77 | An open pool over the given queue, with nothing borrowed. |
| `Pool.Pool.Get` | common/pool.go:81-110 | A closed pool gives null and changes nothing. Otherwise the front connection is dequeued and borrowed. A failed ping closes its session; a failed redial then panics, and a successful redial opens a fresh session, sends the variables, and panics exactly when one fails. The accounting is preserved. |
| `Pool.Pool.Put` | common/pool.go:113-121 | A closed pool ignores the connection. Otherwise it joins the back of the queue and is no longer borrowed; returning the borrowed connection preserves the accounting. |
| `Pool.Pool.Close` | common/pool.go:124-133 | A second close panics. The first closes the session of every queued connection and only those, empties the queue and marks the pool closed. |
| `Pool.NewPool` | common/pool.go:55-78 | Gives up exactly when some dial or variable statement fails. Otherwise the pool has `cap` fresh connections numbered 0 to cap-1, each on a new session that has received the variables, all queued and accounted. |

## Left out

- Concurrency: the worker goroutines, `sync.WaitGroup`, the pool's mutex and the atomic counters are not modelled. Each operation is one sequential step.
- Loader.Load: the data files' goroutines run concurrently in the code; the model restores them one after another in dispatch order. A panic in one goroutine ends the process while the others may be part-way through; the model stops at the first panicking file in dispatch order and keeps the complete actions of the files before it. A file whose load is retried for ever leaves `wg.Wait` blocked; the model ends that file's run after its script of attempts, lets the other files run, and ends the whole run `Stalled`.
- Loader.Load: the pool that the loader creates first (`NewPool` and its `AssertNil`) is modelled by `Pool.NewPool` on its own, not composed into the run.
- The progress ticker, elapsed times and floating-point rates are not modelled because they only produce log lines. Logging as a whole is left out.
- The MySQL driver is not modelled. Query results (column names, rows, `SHOW CREATE TABLE`, database and table lists) are given values. Driver errors caught by `AssertNil` are left out, except where the code branches on them: a failed SHOW CREATE TABLE, dial or session-variable statement.
- File I/O is not modelled: `WriteFile` becomes returned `DataFile` records, `ReadFile` is a function `read`, and `filepath.Walk` is a given list of non-directory paths in walk order.
- The regular-expression engine, `EscapeBytes`, `rand.Intn` and the JSON decoder are supplied functions or values. None of them is modelled.
- Dumper.TablesFor: in Doris mode filterDorisTable returns the rows of an `information_schema` query, in the server's order and with each table once. The model keeps the listed order and any repeated names, and the engine test is a predicate `dorisEngine`. The query's text is not modelled.
- Dumper.DumpTable: it writes the corrected final flush, `SqlParts`. The code as written flushes only when `chunkbytes > 0` (common/dumper.go:261); `DumpChunks.SqlPartsAsWritten` models that behaviour and `DumpChunks.SqlRowLostExample` shows the lost row (see Findings).
- Dumper.DumpTableJob: its SQL parts are those of `DumpTable`, so it also uses the corrected final flush.
- writeMetaData and the top-level Dumper driver are not modelled line by line. Its parts (database and table choice, the per-table job) are modelled separately.
- `Connection.Fetch` and `StreamFetch` are not modelled: their results are inputs. So is the `LIMIT 1` probe whose column names both table dumpers read; the names are the input `cols`.
- The HTTP transport, its timeouts and the 3-second sleep are not modelled. `RestoreDorisTable` follows a finite script of attempts, and a script in which no attempt succeeds stands for the loader retrying forever. `Load` then ends `Stalled`.
- DorisPartsKeepRows: requires every encoded row to take at least one byte. The code as written drops a trailing run of empty rows (only a one-column table of empty texts produces one); `DorisPartsRows` states the exact loss.
- Pool.Pool.Get: the blocking receive on an empty channel is a precondition: the queue is non-empty or the pool is closed.
- Pool.Pool.Put: the blocking send on a full channel is a precondition that the queue has room. `AccountsCount` shows that room always exists for a borrowed connection.
- Pool.Pool.Get: the closing of the old session on a renewal is recorded on the connection's session value before the new session replaces it. The old session object is not kept.
- Pool.NewPool: a negative capacity (`make` panics) is not modelled; `cap` is a `nat`.
- Unsigned 64-bit counter overflow and invalid UTF-8 (which `[]rune` would replace) are not modelled. Counters are unbounded and texts are sequences of characters.
- `common/config.go` and the command-line front ends are not part of this model. The one exception is the address split that `SplitAddressesNonEmpty` relies on.

## Findings

| source | as written | input that shows it | evidently intended | confidence | as-written member | corrected member |
|---|---|---|---|---|---|---|
| common/dumper.go:250-270 | The final flush runs only when `chunkbytes > 0`. A rotation triggered by the last row resets `chunkbytes` but keeps the rows of the unfinished INSERT, so those rows are never written. | One row `(1)`, StmtSize 100, ChunksizeInMB 0: part 1 is written with no INSERT at all, and the row is lost. | Flush whenever rows or INSERTs are still buffered, so every row reaches a part file. | not executed | `DumpChunks.SqlRowLostExample` | `DumpChunks.SqlPartsKeepRows` |
