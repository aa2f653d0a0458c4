# Uldren Loom: models and proofs

This project models, in Dafny, the parts of Uldren Loom whose correctness is not visible from one function
body, and proves what they keep over all inputs and all runs. `dafny verify dfyconfig.toml` covers the whole
project.

| part | modules |
|---|---|
| SQL sessions and batches over a `.loom`: layered store, incremental persist, locking, failures | SqlStore, SqlPersist, LoomSqlStore, LoomFile, SqlBatch, LoomSqlBatch, SqlSessions, LoomSqlSession, SqlClients |
| Hand-written JSON printers and a reader for the grammar of RFC 8259 | Json, JsonPrinters, AclJson, IdentityJson, StatusJson, ReplayJson |
| Text and value codecs | Hex, Window, Cells |
| Lanes: order keys, placement, mutation requests | StringOrder, OrderKey, Lanes, LaneObject |
| Protected refs and their audit trail | Audit |
| Granola importer: paging, transcripts, snapshots, document text | PyValues, Paging, Transcripts, Snapshots, Prose |

Code that updates things in place is modelled by classes and methods with loops, each proved against a function
of the old state; what the code promises is proved about those functions. A failing engine call is a fault
parameter or a nondeterministic choice, so every statement about runs holds wherever the failures fall. SQL is
abstract: a script is any function from what it can see to a list of storage calls.

## Where the code does less than its documentation says

Each of these is kept in the model as the code has it, with the condition under which the documented behaviour
does hold.

- `abort` is documented to discard everything not yet durable. It reloads the store but keeps the held loom, into
  which a failed commit has already flushed. `SqlBatch.AbortLeaks` is such a run; `SqlBatch.AbortExact` gives the
  exact condition on the state and `SqlBatch.TidyAborts` one a caller can follow: no abort between a failed
  commit and the next successful one.
- A session exec whose only change is `DROP TABLE` reports success and changes nothing, because dropping a table
  also clears its change logs and a clean store is not written (`SqlSessions.DropIsLost`, `SqlSessions.ExecExact`).
  For the same reason `query`, documented to reject statements that change state, accepts it
  (`SqlSessions.QueryAcceptsDrop`, `SqlSessions.QueryExact`).
- `exec_json` lacks the open-transaction refusal of `exec_bytes` and makes uncommitted work durable
  (`SqlSessions.JsonVersusBytes`, `SqlSessions.UncommittedIsPublished`).
- A `commit_vcs` whose save fails leaves its history entry in the held loom, and the next successful commit
  publishes it, an abort in between or not (`SqlBatch.HistoryExact`, `SqlBatch.AbortKeepsEntry`).
- Sessions are described as coexisting. One that loaded before another's save writes its old catalog back and
  removes the tables it does not know (`SqlClients.OvertakenSessionDropsTable`; `SqlClients.SavePublishes` says
  in general what is lost); runs without that are serial (`SqlClients.RunSerial`).
- A session reads by the id derived from its workspace name and writes by the id the name resolves to. When they
  differ it never sees its own writes (`SqlSessions.MisboundNeverSees`, `SqlSessions.ReadBackExact`).
- A lane request whose save fails is reported as failed but stored, since the put commits by itself
  (`Lanes.FailureExact`).
- `replay_json` writes strings with Rust's debug escaping, which is not JSON (`ReplayJson.ReplayReads`).
- `parse_window_bound` slices a `str` by byte ranges and can stop the process instead of returning its error
  (`Window.PanicExact`, `Window.SplitYearPanics`).
- A protected-ref change is published before it is recorded, and a ref name of more than 973 bytes is accepted,
  published and never recorded (`Audit.CallAudited`, `Audit.LongNameUnrecorded`, `Audit.StepTracks`).
- The cell mapping is reversible only with the type of every nested value, which a list or map column does not
  carry (`Cells.ColumnExact`).
- A combination of snapshots keeps listing the missing-transcript gap of a meeting whose later snapshot has spans
  (`Snapshots.StaleGap`, `Snapshots.CombineGapExact`).
- `prosemirror_text` normalises spacing except for a string that is not JSON, which it returns as it is
  (`Prose.ProseNormal`).

## Model

| member | source | states |
|---|---|---|
| SqlStore.ApplyRefines | crates/loom-sql/src/lib.rs:372-424 | Every storage call on base plus overlay does to the visible database what the same call does to a plain database |
| SqlStore.StepRefines | crates/loom-sql/src/lib.rs:559-600 | Including begin, commit and rollback, each call keeps the store well formed and agrees with a plain database that copies itself at begin and restores the copy at rollback, on success and on failure |
| SqlStore.RunRefines | crates/loom-sql/src/lib.rs:1409-1414 | Every script, stopping at its first failing call, ends in the state and with the outcome of the plain execution |
| SqlStore.StepAccepts | crates/loom-sql/src/lib.rs:372-600 | Which calls fail on the visible database, for every call: missing tables, existing or missing indexes, a begin inside and a commit or rollback outside a transaction |
| SqlStore.InsertedRows | crates/loom-sql/src/lib.rs:406-414 | After keyed puts a key shows the row of its last put, every other row of the table and every other table stays |
| SqlStore.AppendedRows | crates/loom-sql/src/lib.rs:394-405 | Appended rows show under consecutive keys from the old counter, in order, the counter advances by their number, every other row stays |
| SqlStore.DeletedRows | crates/loom-sql/src/lib.rs:415-424 | Listed keys are gone, every other row and table stays |
| SqlStore.IndexCreated | crates/loom-sql/src/lib.rs:506-533 | The index is in the schema at the end of the list, rows and other tables stay |
| SqlStore.IndexDropped | crates/loom-sql/src/lib.rs:535-548 | The index is gone, the others keep their order, rows and other tables stay |
| SqlStore.TableCreated | crates/loom-sql/src/lib.rs:373-379 | The table has the given schema and its rows of before, none if it is new; the others stay |
| SqlStore.TableDropped | crates/loom-sql/src/lib.rs:380-393 | The table is gone with its counter, the others stay with theirs |
| SqlPersist.FlushExact | crates/loom-sql/src/lib.rs:1502-1572 | The row-delta flush of one table stages exactly its visible rows if and only if the staged rows agree with the base outside the change log |
| SqlPersist.PersistExact | crates/loom-sql/src/lib.rs:1502-1572 | Persist leaves exactly a full stage of the visible database if and only if every incrementally flushed table was in sync with the tree |
| SqlPersist.DeltaEqualsFull | crates/loom-sql/src/lib.rs:1502-1572 | In sync, the incremental flush equals a from-scratch flush of any store with the same visible database, onto any tree |
| SqlPersist.PersistSettles | crates/loom-sql/src/lib.rs:1568-1572 | Clearing the change logs after a completed persist changes nothing visible and leaves store and tree in sync |
| SqlPersist.PartialSynced | crates/loom-sql/src/lib.rs:1502-1572 | A persist that fails anywhere leaves store and tree in sync, so a retry is exact |
| SqlPersist.RunSynced | crates/loom-sql/src/lib.rs:372-600 | Every script, transactions and rollbacks included, keeps the store in sync with the tree it was opened from |
| SqlPersist.OpenStage | crates/loom-sql/src/lib.rs:1581-1650 | Opening a fully staged database shows exactly that database |
| SqlPersist.OpenSynced | crates/loom-sql/src/lib.rs:1619-1650 | A freshly opened store is clean, outside any transaction and in sync |
| LoomSqlStore.SqlStoreObject.InsertSchema | crates/loom-sql/src/lib.rs:373-379 | In-place form of the call, equal to one step of the specification |
| LoomSqlStore.SqlStoreObject.DeleteSchema | crates/loom-sql/src/lib.rs:380-393 | In-place form of the call, equal to one step of the specification |
| LoomSqlStore.SqlStoreObject.AppendData | crates/loom-sql/src/lib.rs:394-405 | The minting loop writes consecutive keys under any table name, logs them and advances the counter, equal to the append of the specification |
| LoomSqlStore.SqlStoreObject.InsertData | crates/loom-sql/src/lib.rs:406-414 | The loop of keyed puts under any table name, equal to the recorded writes of the specification |
| LoomSqlStore.SqlStoreObject.DeleteData | crates/loom-sql/src/lib.rs:415-424 | The loop of tombstones under any table name, equal to the recorded writes of the specification |
| LoomSqlStore.SqlStoreObject.CreateIndex | crates/loom-sql/src/lib.rs:506-533 | In-place form, equal to one step; refused for a missing table or an existing index |
| LoomSqlStore.SqlStoreObject.DropIndex | crates/loom-sql/src/lib.rs:535-548 | In-place form, equal to one step; refused for a missing table or index |
| LoomSqlStore.SqlStoreObject.Begin | crates/loom-sql/src/lib.rs:560-575 | Takes the snapshot, refused inside a transaction |
| LoomSqlStore.SqlStoreObject.Commit | crates/loom-sql/src/lib.rs:589-600 | Drops the snapshot, refused outside a transaction |
| LoomSqlStore.SqlStoreObject.Rollback | crates/loom-sql/src/lib.rs:577-587 | Restores every field from the snapshot, refused outside a transaction |
| LoomSqlStore.SqlStoreObject.Execute | crates/loom-sql/src/lib.rs:1409-1414 | A whole script in place, equal to the run of the specification |
| LoomSqlStore.SqlStoreObject.FetchData | crates/loom-sql/src/lib.rs:288-294 | Overlay first, tombstones included, then base: the row of the visible database |
| LoomSqlStore.SqlStoreObject.ScanData | crates/loom-sql/src/lib.rs:295-368 | The merge scan yields every visible row exactly once and nothing else |
| LoomSqlStore.SqlStoreObject.Persist | crates/loom-sql/src/lib.rs:1502-1572 | The flush and unlink loops: a completed call equals the persist of the specification and clears the logs, an interrupted one leaves a partial flush and keeps them |
| LoomFile.EnsureForWrite | crates/loom-core/src/workspace.rs:258-287 | Resolving or creating keeps the registry well formed, binds the name and no other, gives the workspace the SQL facet, keeps every other name, id and facet, and fails only for a new name whose id is taken |
| SqlBatch.BeginInv | bindings/node/src/lib.rs:1284-1304 | A new batch shows exactly the durable database and satisfies the batch invariant |
| SqlBatch.BeginResolves | bindings/node/src/lib.rs:1284-1304 | Whenever a batch begins, the registry it holds binds the name to its workspace with the SQL facet and keeps every other name and facet, and the databases and the history it holds are the file's |
| SqlBatch.RegistryExact | bindings/node/src/lib.rs:1341-1370 | After any run the durable registry is the held one if some commit succeeded, and the old one otherwise |
| SqlBatch.CommitCreatesWorkspace | bindings/node/src/lib.rs:1110-1119 | After any run with a successful commit the name of a new batch is durably bound, with the SQL facet, and every other name is kept |
| SqlBatch.BatchRefines | bindings/node/src/lib.rs:1306-1385 | Every run of exec, commit, commit_vcs, abort and close, with failures at any step and retries, is a run of a plain batch: the file always shows the database of the last successful commit, every operation returns what the plain one returns, and no other database changes |
| SqlBatch.OnlyCommitsPublish | bindings/node/src/lib.rs:1306-1385 | A run none of whose commits returns without an error, refused ones included, leaves the file unchanged |
| SqlBatch.ClosedRefuses | bindings/node/src/lib.rs:1306-1310 | A closed batch and its file stay as they are under every run, and every operation but close fails |
| SqlBatch.HistoryExact | bindings/node/src/lib.rs:1341-1370 | The durable history after any run is every entry made up to the last successful commit, those of commit_vcs calls whose own save failed included, and none made after it |
| SqlBatch.EntryShowsWork | bindings/node/src/lib.rs:1356-1370 | A history entry records a full stage of what the store shows for the batch's database, and the held tree for every other one of the workspace |
| SqlBatch.AbortKeepsEntry | bindings/node/src/lib.rs:1356-1379 | commit_vcs whose save fails, abort, commit: the entry of the failed call is in the durable history |
| SqlBatch.AbortExact | bindings/node/src/lib.rs:1375-1379 | Abort and immediate commit leave the file's database as it was if and only if the held tree agrees with the file on the tables both have |
| SqlBatch.TidyAborts | bindings/node/src/lib.rs:1341-1379 | Aborts are safe in every run in which none comes between a failed commit and the next successful one |
| SqlBatch.AbortLeaks | bindings/node/src/lib.rs:1341-1379 | Delete, commit whose save fails, abort, commit: the deleted row is gone from the file |
| LoomSqlBatch.BatchObject.constructor | bindings/node/src/lib.rs:1284-1304 | The held loom, store and tree of a new batch |
| LoomSqlBatch.BeginBatch | bindings/node/src/lib.rs:1284-1304 | Resolve or create, then open: equal to the begin function, refused when it is |
| LoomSqlBatch.BatchObject.Exec | bindings/node/src/lib.rs:1323-1332 | In-place exec, equal to one operation of the batch machine |
| LoomSqlBatch.BatchObject.Commit | bindings/node/src/lib.rs:1341-1351 | Transaction refusal, persist, save in order; whatever fails is one of the faults the machine allows |
| LoomSqlBatch.BatchObject.CommitVcs | bindings/node/src/lib.rs:1356-1370 | The same with the history entry between persist and save |
| LoomSqlBatch.BatchObject.Abort | bindings/node/src/lib.rs:1375-1379 | Replaces the store only, the held loom stays |
| LoomSqlBatch.BatchObject.Close | bindings/node/src/lib.rs:1383-1385 | Drops the held state and leaves the file alone |
| SqlSessions.ExecExact | bindings/node/src/lib.rs:1159-1181 | A successful exec makes its final tables durable if and only if the store ended dirty or no table of the file was dropped |
| SqlSessions.DropIsLost | crates/loom-sql/src/lib.rs:380-393 | A script that only drops a table succeeds and leaves every file unchanged |
| SqlSessions.CleanRunOnlyDrops | crates/loom-sql/src/lib.rs:1205-1207 | A script that leaves the store clean changed nothing but, possibly, dropping tables |
| SqlSessions.QueryExact | bindings/node/src/lib.rs:1184-1206 | An accepted query ends with tables of the file, unchanged, and with all of them if and only if it dropped none |
| SqlSessions.QueryAccepts | bindings/node/src/lib.rs:1184-1206 | A query is accepted if and only if its script runs without a failing call, ends outside a transaction and leaves the store clean; it then shows the plain execution, and for a script without calls the file's database |
| SqlSessions.QueryAcceptsDrop | bindings/node/src/lib.rs:977-990 | A query that drops a table is accepted, on every file |
| SqlSessions.JsonVersusBytes | bindings/node/src/lib.rs:949-960 | The two execs agree on scripts that fail or end outside a transaction; on the others exec_bytes fails with the file unchanged and exec_json, unless its write-back fails, succeeds and publishes the open transaction's work |
| SqlSessions.UncommittedIsPublished | bindings/node/src/lib.rs:949-960 | Begin and create a table: exec_bytes refuses it and exec_json makes the table durable, on every file |
| SqlSessions.SessionRefines | bindings/node/src/lib.rs:1159-1206 | Read-your-writes: under the binding, after any sequence of execs with write-backs failing anywhere, a load shows the plain execution of the successful calls, a call fails only if its script does, leaves a transaction open or its write-back fails, and no other database changed |
| SqlSessions.SessionKeeps | bindings/node/src/lib.rs:1159-1206 | Without any condition on the scripts, a load shows the plain execution of exactly the calls that succeeded with a dirty store |
| SqlSessions.OpenBinds | bindings/node/src/lib.rs:906-924 | Opening a session binds an unbound name to its derived id, fails only when that id is taken, and changes no database |
| SqlSessions.BatchSeesSession | bindings/node/src/lib.rs:1284-1304 | Under the binding a batch and a session load the same store |
| SqlSessions.MisboundNeverSees | bindings/node/src/lib.rs:1167-1178 | With the name bound to another id, no exec of the session, failing or not, ever changes what it loads |
| SqlSessions.ReadBackExact | bindings/node/src/lib.rs:1167-1178 | A visible, dirty exec is read back if and only if the name is bound to the derived id |
| LoomSqlSession.ExecToBytes | bindings/node/src/lib.rs:1159-1181 | Load, run, refuse, reopen, persist, save as steps over the file; equal to the exec function for some failure choice |
| LoomSqlSession.ExecToJson | bindings/node/src/lib.rs:949-960 | The same steps without the transaction refusal |
| LoomSqlSession.QueryToRows | bindings/node/src/lib.rs:1184-1206 | Load, run, refuse, dirty test as steps over the file, equal to the query function |
| SqlClients.LockOwnsFile | bindings/node/src/lib.rs:1284-1304 | Any clients, any interleaving, attempts to open for write that meet a taken lock included: one event keeps the lock discipline, moves no other client, and changes the file only for the lock holder |
| SqlClients.OthersInvisible | crates/loom-store/src/lib.rs:13530-13547 | Nothing another client does, a refused open included, changes what the lock holder can see |
| SqlClients.BatchAlone | bindings/node/src/lib.rs:1284-1385 | While a batch is open, deleting all other clients' events leaves the file, the log and the batch as they were |
| SqlClients.SoloIsExec | bindings/node/src/lib.rs:1159-1181 | The events of one session that nobody interrupts, failures included, end in the file of the exec call |
| SqlClients.RunSerial | bindings/node/src/lib.rs:1159-1181 | Every run in which, when a session gets the lock, no save has reached its database since its load and its name is unbound or bound to its derived id, and in which aborts are safe, is the serial execution of its log of saves, at every database |
| SqlClients.SavePublishes | bindings/node/src/lib.rs:1159-1181 | What a save publishes over a file that moved on: the tables of its own catalog only, all its rows where it changed the schema, its changed rows elsewhere; its whole view if and only if its store is in sync with the file |
| SqlClients.OvertakenSessionDropsTable | bindings/node/src/lib.rs:1159-1181 | From any idle, unlocked file with the name bound, a run in which two sessions create different tables and one is overtaken: both calls succeed, the first table is durable and then gone, and the serial execution of the same saves has both |
| Json.JsonString | bindings/node/src/admin.rs:5-21 | The escaping loop writes the quoted form the round trip is about |
| Json.ReadQuoted | bindings/node/src/lib.rs:1050-1066 | For every string and any following text, the string rule of section 7 of RFC 8259 yields the string and leaves the rest |
| Json.ReadRender | bindings/node/src/admin.rs:307-368 | For every value built of null, booleans, strings, arrays and objects and any following text, the reader yields the value and leaves the rest |
| JsonPrinters.PushField | bindings/node/src/admin.rs:154-165 | Pushing a comma, a plain key, a colon and a value text extends the rendered object by that member |
| Json.JoinList | bindings/node/src/admin.rs:432-442 | The comma loop joins the item texts |
| JsonPrinters.ListText | bindings/node/src/admin.rs:432-442 | The joined texts of a list of records, between brackets, are the rendering of the list |
| JsonPrinters.StringList | bindings/node/src/lib.rs:717-727 | The list-of-strings loop writes the rendered array |
| AclJson.ScopeJson | bindings/node/src/admin.rs:370-382 | The printed scope is the rendering of its kind and hexadecimal prefix |
| AclJson.GrantJson | bindings/node/src/admin.rs:307-368 | The pushes of the nine fields write the rendering of the grant |
| AclJson.AclListJson | bindings/node/src/admin.rs:432-442 | The list loop writes the rendering of all grants in order |
| AclJson.SubjectBack | bindings/node/src/admin.rs:103-113 | The subject parser inverts the printed subject; no principal id reads as everyone or as a role |
| AclJson.SubjectKindBack | bindings/node/src/admin.rs:321-325 | The printed kind names the subject's own kind and no other |
| AclJson.AclListReadsBack | bindings/node/src/admin.rs:307-442 | The generic reader recovers every grant, field by field and in order, for arbitrary strings and scope prefixes |
| AclJson.AclListInjective | bindings/node/src/admin.rs:432-442 | Two grant lists with one printed text are equal |
| IdentityJson.RoleJson | bindings/node/src/admin.rs:154-165 | The pushes write the rendering of the role |
| IdentityJson.PrincipalJson | bindings/node/src/admin.rs:167-196 | The pushes and the role loop write the rendering of the principal |
| IdentityJson.AppCredentialJson | bindings/node/src/admin.rs:198-211 | The pushes write the rendering of the credential |
| IdentityJson.ExternalCredentialJson | bindings/node/src/admin.rs:213-237 | The pushes write the rendering of the credential, its digest possibly null |
| IdentityJson.PublicKeyJson | bindings/node/src/admin.rs:290-305 | The pushes write the rendering of the key, its bytes in hexadecimal |
| IdentityJson.IdentityListJson | bindings/node/src/admin.rs:239-288 | The pushes and the five list loops write the rendering of the store |
| IdentityJson.IdentityReadsBack | bindings/node/src/admin.rs:154-305 | The generic reader recovers the mode, the root and every principal, role, credential and key in order |
| IdentityJson.IdentityInjective | bindings/node/src/admin.rs:239-288 | Two identity stores with one printed text are equal |
| StatusJson.StatusToJson | bindings/node/src/lib.rs:677-735 | The four loops write the rendering of the status |
| StatusJson.StatusReadsBack | bindings/node/src/lib.rs:677-735 | The generic reader recovers the same four lists |
| ReplayJson.ReadDebug | bindings/node/src/lib.rs:746-761 | The JSON string rule recovers a debug-formatted string exactly when none of its characters is NUL or hidden from debug output, and fails otherwise |
| ReplayJson.DebugDenotes | bindings/node/src/lib.rs:746-761 | As a Rust literal the debug form denotes the string, hidden characters by their braced hexadecimal code |
| ReplayJson.ReplayReads | bindings/node/src/lib.rs:746-761 | The reader recovers the outcome exactly when all its strings are so readable; one unreadable path makes the whole text a syntax error |
| ReplayJson.NulPathFails | bindings/node/src/lib.rs:753-759 | A conflict on any path with a NUL in it prints text no JSON reader accepts |
| Hex.HexBytes | bindings/node/src/admin.rs:395-403 | The loop writes two lowercase digits per byte |
| Hex.DecodeHex | bindings/node/src/admin.rs:405-419 | Prefix strip, length refusal, then the pair loop, equal to the decode function |
| Hex.DecodeEncode | bindings/node/src/admin.rs:395-419 | Decoding printed bytes gives them back; the prefix strip never fires on printed text |
| Hex.DecodeExact | bindings/node/src/admin.rs:405-430 | Decoding succeeds exactly on an even number of hexadecimal digits after at most one prefix, and printing the result gives their lowercase |
| Hex.NibbleDigits | bindings/node/src/admin.rs:421-430 | The digits printed are 0 to 9 and a to f; the digits read are those and A to F, and no other character |
| Hex.ParseIdText | crates/loom-types/src/workspace.rs:410-446 | Parsing the printed form of a workspace id gives the id back |
| Hex.IdTextAscii | crates/loom-types/src/workspace.rs:410-446 | The printed form has 36 ASCII characters, with dashes at 8, 13, 18 and 23 and nowhere else |
| Window.TextIsUtf8 | bindings/node/src/lib.rs:504-508 | The bytes of every text satisfy the well-formedness the results below assume |
| Window.Utf8IsText | bindings/node/src/lib.rs:504-508 | Conversely, all such bytes are the bytes of a text |
| Window.TextLength | crates/loom-store/src/lib.rs:10807-10815 | The length the engine's byte limits count is the number of those bytes |
| Window.PanicExact | bindings/node/src/lib.rs:504-543 | For every UTF-8 text: the process stops exactly when the shape fits and the end of a field, all earlier ones being digits, falls inside a character |
| Window.SplitYearPanics | bindings/node/src/lib.rs:515 | A well-formed text with a two-byte character across the end of the year stops the process |
| Window.AcceptExact | bindings/node/src/lib.rs:504-543 | On ASCII the parser is total and accepts exactly the digit strings that name a valid date and time |
| Window.FormatParse | bindings/node/src/lib.rs:546-558 | Formatting an accepted text's value gives the text back |
| Window.ParseFormat | bindings/node/src/lib.rs:504-558 | Parsing a formatted value gives it back exactly when the year is not negative; otherwise it is refused |
| Window.YearText | bindings/node/src/lib.rs:546-558 | A year prints in four digits, a negative one as a sign and its amount in four places, five from -1000 down |
| Window.DayNumber | bindings/node/src/lib.rs:530-535 | The day count behind the instants is the closed form of the proleptic Gregorian calendar, for every valid date from year 0 |
| Window.YearStartIs | bindings/node/src/lib.rs:530-535 | The days before a year in closed form; 400 years have 146097 days |
| Window.NextSecond | bindings/node/src/lib.rs:530-542 | The accepted dates and times are the seconds of the calendar, none left out: each but the last is followed by one exactly a second later |
| Window.OrderIsChronological | bindings/node/src/lib.rs:502-558 | Byte order of accepted texts is the order of their instants, counted in seconds over leap years and month lengths |
| Cells.SetCell | bindings/node/src/lib.rs:1546-1591 | Writes the mapped value into one slot and changes no other |
| Cells.CellsToArray | bindings/node/src/lib.rs:1525-1531 | The fill loop writes the mapped cells in order |
| Cells.MapEntries | bindings/node/src/lib.rs:1534-1543 | The fill loop writes the key and value pairs in order |
| Cells.CellBack | bindings/node/src/lib.rs:1546-1591 | The JS value of every cell in range, nested lists and maps included, read by the cell's type is the cell |
| Cells.UuidBack | bindings/node/src/lib.rs:1579 | A UUID prints as 32 digits that denote it |
| Cells.ColumnExact | crates/loom-types/src/tabular.rs:167-197 | The JS value determines a column's cells if and only if the column type is not list or map |
| Cells.WidthIsLost | bindings/node/src/lib.rs:1550-1551 | Lists, and maps, that differ in an integer's width have one JS value |
| Cells.MapIsAList | bindings/node/src/lib.rs:1534-1543 | A map and the list of its pairs have one JS value |
| OrderKey.KeyFromBetween | crates/loom-types/src/order_key.rs:94-123 | The emitted digits lie strictly between the two remainders and end in a non-minimum digit |
| OrderKey.Midkey | crates/loom-types/src/order_key.rs:80-88 | Between any key and a larger canonical one, or none, there is a generated canonical key strictly between |
| OrderKey.KeyBetween | crates/loom-types/src/order_key.rs:94-123 | The digit loop terminates and computes that key |
| OrderKey.NoRoomWithoutCanonical | crates/loom-types/src/order_key.rs:47-62 | A bound ending in the minimum digit can leave no canonical key in between, which is why parse refuses it |
| Lanes.ValidateTickets | crates/loom-lanes/src/lib.rs:1505-1524 | The single pass over neighbours accepts exactly lists with distinct valid ids and canonical, strictly increasing keys |
| Lanes.ValidateLane | crates/loom-lanes/src/lib.rs:742-769 | The checks in order accept exactly the valid lanes: ids, text limits, kind, status, tickets and an active ticket that is in the list |
| Lanes.ValidateMembership | crates/loom-lanes/src/lib.rs:1526-1565 | The loop over the stored lanes accepts an open assignment lane exactly when no other one shares a ticket with it, and any other lane always |
| Lanes.PlaceValid | crates/loom-lanes/src/lib.rs:1080-1126 | Inserting a fresh id with a minted key at any position keeps the list valid |
| Lanes.PlacedWhere | crates/loom-lanes/src/lib.rs:1080-1126 | The new ticket stands first, last, right before or right after the anchor, as asked |
| Lanes.PlaceThenRemove | bindings/node/src/lanes.rs:204-241 | Removing a freshly placed ticket gives the list back |
| Lanes.SubmitKeepsInv | bindings/node/src/lanes.rs:6-25 | Every request, whatever fails, keeps every lane valid and no ticket in two open assignment lanes |
| Lanes.SubmitExact | bindings/node/src/lanes.rs:46-87 | Short of engine failures a request succeeds if and only if it is admissible by its arguments and the other lanes; of updates only reopening a closed assignment lane can conflict with another lane |
| Lanes.UpdateStores | bindings/node/src/lanes.rs:163-190 | An accepted update stores every given field, keeps every other, stamps who and when, and leaves all other lanes alone |
| Lanes.AddStores | bindings/node/src/lanes.rs:194-216 | An accepted addition inserts the one ticket at the end, at the front, before or behind the anchor, as its code says, and keeps everything else |
| Lanes.RemoveStores | bindings/node/src/lanes.rs:219-242 | An accepted removal takes out the named ticket and no other, and clears the active ticket exactly if it was that one |
| Lanes.FailureExact | bindings/node/src/lanes.rs:6-25 | A failed request leaves all lanes alone, except that one whose save fails is stored as if it had succeeded |
| Lanes.PlaySnoc | bindings/node/src/lanes.rs:6-25 | A run is its requests one after the other |
| Lanes.RunKeepsOrder | bindings/node/src/lanes.rs:141-242 | Over any run with failures, two tickets no request removes keep their order |
| Lanes.RunKeepsInv | crates/loom-lanes/src/lib.rs:742-769 | Over any run list order is key order, ids are distinct and the active ticket is none or in the list |
| LaneObject.LaneRecord.Update | bindings/node/src/lanes.rs:163-190 | Field-by-field assignment on the copy, equal to the update function; a bad status stops it |
| LaneObject.LaneRecord.FindTicket | crates/loom-lanes/src/lib.rs:1095-1106 | The anchor scan finds the first ticket with the id |
| LaneObject.LaneRecord.AddTicket | bindings/node/src/lanes.rs:194-216 | Placement in place, equal to the add function; a refusal changes nothing |
| LaneObject.LaneRecord.RemoveTicket | bindings/node/src/lanes.rs:219-242 | Retain in place and clearing of the active ticket, equal to the remove function |
| Audit.RunLog | bindings/node/src/admin.rs:1224-1294 | Every run with failures anywhere: the file is its log replayed, every record comes right after the saved change it describes, with its actor, every write is one a call asked for in its caller's name, and the saved changes without a record are exactly as many as the calls that failed after a write |
| Audit.StepLog | bindings/node/src/admin.rs:1275-1293 | One call saves at most once, in its caller's name, the change stays unrecorded exactly when the call fails after it, and a remove that finds nothing writes nothing |
| Audit.CallAudited | crates/loom-store/src/lib.rs:8328-8331 | Without an environment failure a published change is recorded if and only if the ref name has at most 973 bytes |
| Audit.LongNameUnrecorded | crates/loom-core/src/vcs/protected_refs.rs:104-130 | Protecting a branch whose name has 967 letters or more, without any fault, is published, reported as failed and not recorded, on every file |
| Audit.ValidateName | crates/loom-core/src/vcs/protected_refs.rs:104-130 | Splitting at the first slash and checking both parts accepts exactly the valid branch and tag names |
| Audit.TargetInjective | bindings/node/src/admin.rs:1258-1262 | An audit target names one workspace and one ref |
| Audit.StepTracks | bindings/node/src/admin.rs:1237-1263 | A call keeps the refs told by the trail equal to the protected refs if and only if it does not protect or unprotect a ref without a record |
| Audit.RunTracks | bindings/node/src/admin.rs:1224-1294 | Over any run with names of at most 973 bytes and no refused record, the trail tells the protected refs |
| Audit.ControlFile.SetPolicy | bindings/node/src/admin.rs:1224-1264 | Change, save, record in place, equal to one step |
| Audit.ControlFile.RemovePolicy | bindings/node/src/admin.rs:1266-1294 | Remove, save, record in place, equal to one step; nothing found writes nothing |
| PyValues.KeyedRecords | scripts/granola-cache-import.py:99-106 | The loop over a dictionary keeps its dictionaries in order, each with its key as default id |
| PyValues.WithIdHasId | scripts/granola-cache-import.py:103-104 | A record made from a dictionary has an id, its key unless it had one, and keeps its other entries |
| PyValues.Records | scripts/granola-cache-import.py:94-107 | The loops over a list or a dictionary yield the records of the specification, anything else none |
| PyValues.FirstOf | scripts/granola-cache-import.py:110-115 | The loop yields the value of the first name that has a value, and None exactly when none has |
| PyValues.GetExact | scripts/granola-cache-import.py:110-115 | A dictionary answers with the value first stored under the name, and None when there is none |
| PyValues.IntBack | scripts/granola-cache-import.py:155-164 | A printed integer denotes it |
| Paging.ApiDocuments | scripts/granola-cache-import.py:344-381 | For a list of any length the loop ends after length / 100 + 1 requests with every object once and in order, and fails exactly when one of those requests does |
| Transcripts.TranscriptSpans | scripts/granola-cache-import.py:148-166 | The loop builds one span per entry with text |
| Transcripts.SpanFields | scripts/granola-cache-import.py:151-164 | Every field of a span, from the first of the entry's own keys that has a value; id and locator fall back to the position |
| Transcripts.SpansKeepOrder | scripts/granola-cache-import.py:148-166 | The spans are those of the entries at the ascending positions that have text |
| Transcripts.IdsDistinct | scripts/granola-cache-import.py:155 | Span ids are pairwise distinct if and only if the supplied, truthy ids are and none is the decimal position of an entry without one |
| Snapshots.CombineSnapshots | scripts/granola-cache-import.py:526-557 | The dictionary-overwriting loops compute the combination |
| Snapshots.CombineNormal | scripts/granola-cache-import.py:534-556 | With two or more snapshots ids are strictly ascending and the union of those supplied, each item is the last supplied, gaps are the distinct gaps ascending |
| Snapshots.Regroup | scripts/granola-cache-import.py:526-557 | Combining any non-empty groups first and then their combinations gives the items and gaps of combining everything at once |
| Snapshots.BuildSnapshot | scripts/granola-cache-import.py:169-247 | The document loop fails at the first document without an id and otherwise computes items and gaps in one pass |
| Snapshots.DocumentsExact | scripts/granola-cache-import.py:170-175 | Documents, then shared documents, each in order; notes only when there are neither |
| Snapshots.ItemFields | scripts/granola-cache-import.py:185-192 | An item's id is the first of the five keys that has a value; a document's own transcript wins over the table's |
| Snapshots.SortStable | scripts/granola-cache-import.py:246 | Sorting by id ascends, loses and adds nothing, and keeps the order of items with one id |
| Snapshots.BuildCovers | scripts/granola-cache-import.py:184-194 | A built snapshot lists the missing-transcript gap of an id if and only if an item under it has no spans |
| Snapshots.CombineCovers | scripts/granola-cache-import.py:534-556 | Combining keeps the gap of every item without spans listed, whichever items win |
| Snapshots.CombineGapExact | scripts/granola-cache-import.py:534-556 | A combination of exact snapshots lists the gap of an id exactly for a winning item without spans if and only if the winner has none or no item supplied under the id lacks them |
| Snapshots.StaleGap | scripts/granola-cache-import.py:534-556 | A meeting without spans, then the same meeting with spans: the gap stays listed |
| Prose.Walk | scripts/granola-cache-import.py:428-439 | The recursive walk appends exactly the lines of the tree and fails exactly when they are an error |
| Prose.LinesArePieces | scripts/granola-cache-import.py:428-439 | What the walk appends is the text leaves of the tree in document order, with one newline at the end of each paragraph, heading and list item |
| Prose.LinesFail | scripts/granola-cache-import.py:428-439 | The walk fails if and only if some visited node has a number or True for content, or a list or dictionary for its type |
| Prose.ProsemirrorText | scripts/granola-cache-import.py:420-442 | Parse, walk, split and join, equal to the text function |
| Prose.NormalKeepsWords | scripts/granola-cache-import.py:442 | Split and join keep the words and are idempotent |
| Prose.NormalExact | scripts/granola-cache-import.py:442 | A text is left alone if and only if it has no outer separators and only single blanks inside |
| Prose.ProseNormal | scripts/granola-cache-import.py:420-442 | The result is so normalised unless the value is a string that is not JSON and is not |
| Prose.BlockWords | scripts/granola-cache-import.py:428-442 | The words of a list of paragraphs, headings and list items are the words of each, one after the other |
| Prose.ParagraphWords | scripts/granola-cache-import.py:428-442 | A block holding text nodes has the words of their texts run together |
| Prose.DocumentWords | scripts/granola-cache-import.py:428-442 | A node that only holds a list of blocks adds nothing to their words |
| Prose.DocWraps | scripts/granola-cache-import.py:428-439 | A node of type doc with a content list is such a node |

## Left out

- SqlSessions.SessionRefines: requires that no successful call has a drop as its script's only change, because the code loses such a drop (SqlSessions.DropIsLost); SqlSessions.SessionKeeps has no such requirement.
- SqlClients.RunSerial: requires that no other writer saves a session's database between its load and its lock, and that the session's name is unbound or bound to its derived id, because otherwise it is false (SqlClients.OvertakenSessionDropsTable, SqlSessions.MisboundNeverSees).
- Json.ReadRender: numbers are not modelled, because none of the printers modelled here writes one.
- Snapshots.BuildSnapshot: the title, time, owner, attendee, folder, summary and digest fields are not modelled.
- Cells.CellBack: floats are real values with infinities and one NaN, addresses are their canonical text, and the BigInt word encoding is not modelled.
- Lanes.SubmitExact: lane creation, listing, transfer and deletion are not modelled.
- The 64-bit limit of minted row ids and of audit sequence numbers.
- The index scan and the planner of the SQL store, parameter inference, and the CBOR result payloads.
- Authorization, authentication, encryption and key handling, which appear only as calls that can fail.
- The session's own history commit, and the version-control engine behind commits, merges and replays.
- ACL domains are carried by their names rather than by the engine's enumeration.
- The importer's scope, profile and digest fields, its API snapshot, archive reading and network access.
- Argument-forwarding bindings (files, documents, key-value, ledger, calendar, contacts, mail, chat, drive and others), which would add only easy members.
