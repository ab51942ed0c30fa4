# Verification of the database administration platform

A Dafny model of the platform's data paths and protocols, and proofs about it. External systems
are explicit state: tables are sequences or maps, storage is a map from keys to bytes, the queue's
repeatable entries are a set, and every `await` that can reject is a step or a flag that says so.
`dafny verify dfyconfig.toml` checks the whole project.

- **Export and import** (`Text`, `Csv`, `SqlText`, `Import`, `ImportJob`). The CSV printer and a
  character-level parser, the batched INSERT with its numbered placeholders, and a lexer and parser
  for the generated SQL. They compose into one theorem: what an import adds is the exact normal
  form of what was exported (null becomes the empty text, unquoted cells lose their blank ends,
  quoted cells are kept, one-column records with a blank cell disappear).
- **Audit chain** (`Json`, `Jsonb`, `AuditText`, `AuditChain`, `AuditRuns`). The hashed text determines every
  hashed field. Two verified chains with one end hash agree on all hashed fields, or a SHA-256
  collision is computed from them; no collision freedom is assumed. Concurrent appends are
  interleavings of read and write, with an exact verdict for each.
- **Backups** (`Jobs`, `Artifacts`, `BackupProcessor`, `Retention`, `RetentionRuns`). Attempts,
  retries, late uploads and retention passes interleave freely. Rows and storage agree in every
  state of a run exactly when none of its steps is one of two kinds; attempts and passes of the
  code are runs of that model.
- **Schedules** (`Schedules`). For each request and each failure of its queue calls: the condition
  under which table and queue still agree, in both directions, with the boot sync running beside
  the requests.
- **Credentials** (`Encoding`, `Secrets`), **token refresh** (`Refresh`), **stderr tail** (`Stderr`).

## Where the code falls short of its intent

Each of these is a theorem, with the condition under which the code does meet the intent.

- Jobs are documented as idempotent (docs/ARCHITECTURE.md:209). An import is not: one failure after
  the inserts makes the successful retry add every row again (`ImportJob.RetryDuplicates`). Each
  record is added once exactly when no attempt before the first successful one gets its first batch
  in; with a healthy database, when all of them fail before the inserts (`ImportJob.ExactlyOnce`,
  `ImportJob.ExactlyOnceHealthy`).
- A table with columns such as `a` and ` a` exports but never imports: trimmed, they are one name
  (`ImportJob.TrimmedNamesClash`; the exact condition is in `ImportJob.ExportThenImport`).
- The header of a one-column table whose name prints blank is skipped as an empty line, and the
  first row is taken for the header (`ImportJob.HeaderLostExactly`).
- A full batch with more than 131 columns exceeds the 65535 parameters of one bind message
  (`Import.FitsExactly`).
- The audit hash covers the process clock, while the row keeps the database's `createdAt`, and
  `meta` passes through JSONB, which reorders keys. A row verifies exactly when its meta has its keys
  in the database's order, the clocks print alike and no other row was written in between, up to a
  SHA-256 collision (`AuditChain.StoredWriteVerdict`, `AuditRuns.StoredRunVerdict`). The metas of
  completed imports, exports and backups are not in that order (`AuditChain.ProgramMetas`).
- A retry of a backup that already has its row overwrites the recorded object and then fails on the
  unique `jobId`; a retention pass that deletes an object and does not get to mark its row leaves the
  row available without it. Of the modelled steps these are the only ones that part rows and storage,
  and when they do is exact (`Artifacts.ArtifactsAgreeExactly`); both happen from an empty system
  (`BackupProcessor.RetrySpoils`, `BackupProcessor.PassStrands`).
- A backup that was stored and recorded is reported failed exactly when markDone or the
  notification fails and that failure is written (`BackupProcessor.Attempt`).
- encryptSecret does not wipe its key when the master key is malformed (`Secrets.EncryptSecret`).
- Boot sync adds missing entries but never removes stale ones (`Schedules.SyncRestores`), and a
  delete while it runs leaves one (`Schedules.DeleteDuringSync`).
- A delete whose row write fails after the queue entry is removed leaves an enabled schedule that no
  longer fires (`Schedules.FailedDeleteSilences`, exactly `Schedules.DeleteExact`).
- A trigger that fails after its Job row is written is run again and makes a second backup job
  (`Schedules.OneJobExactly`).
- Audit rows with equal times verify only when they are read in writing order
  (`AuditChain.PermutedView`), and an entry that continues another row than the last one does not
  verify (`AuditChain.TiedReadVerdict`).

## Assumptions

- Every `await` that can reject is a step or a flag. A database write that rejects has had no effect;
  an upload and a storage delete that reject may have had theirs; a job service call stops between
  its steps; a queue call that rejects has had no effect.
- The continuations of a settled refresh run before the next reply is handled, as promises do in the
  browser. What single-flight needs of the order is exact (`Refresh.FlightsExactly`), and without it
  two refreshes are in flight (`Refresh.TwoFlightsReachable`).

## Model

| member | source | states |
|---|---|---|
| Csv.ExportCsv | src/worker/processors/export.processor.ts:44-51 | the loop writes the header line and one line per row; field c of row r is `row[columns[c]]` when the key is present and empty otherwise, whatever order the row's keys are in |
| Csv.TableOfTwo | src/worker/processors/export.processor.ts:44-51 | the file of a two-column table, to the character, for names and values that need no quotes |
| Csv.QuotedExactly | src/worker/processors/export.processor.ts:14-19 | a text is written as it is if and only if it holds no quote, comma or line break; otherwise in quotes with its quotes doubled |
| Csv.SampleQuotes | src/worker/processors/export.processor.ts:14-19 | quoting to the character; null is the empty field |
| Csv.RunCell | src/worker/processors/export.processor.ts:14-19 | reading one printed cell yields its normal form; separators, quotes and line breaks inside it end nothing |
| Csv.RunLine | src/worker/processors/export.processor.ts:48 | reading one printed line appends exactly one record, or nothing for a one-column blank line |
| Csv.ParsePrinted | src/worker/processors/import.processor.ts:53 | for all equal-width rows of positive width, parsing the printed text gives exactly the normal rows |
| Csv.ParseRectangular | src/worker/processors/import.processor.ts:53 | whatever the text, all delivered records have the first one's width |
| Csv.MalformedRejected | src/worker/processors/import.processor.ts:53 | a quote inside an unquoted field, text after a closing quote and an unclosed quote are errors, whatever follows |
| Csv.TrimLeftExact | src/worker/processors/import.processor.ts:53 | trimming drops all blanks at the front and nothing else |
| Csv.TrimRightExact | src/worker/processors/import.processor.ts:53 | and all blanks at the end and nothing else |
| Csv.NormalExact | src/worker/processors/export.processor.ts:14-19 | a text cell comes back unchanged if and only if it is quoted, empty, or has no blank end |
| SqlText.StripQuotes | src/db/adapters/postgres.ts:149 | no quote remains, and a name without quotes is unchanged |
| SqlText.StripQuotesExactly | src/db/adapters/postgres.ts:149 | exactly the quotes are removed: quote-free text stays, a quote goes, and concatenation is respected |
| SqlText.ReadDecimal | src/db/adapters/postgres.ts:160 | reading a printed placeholder number gives the number back, whatever follows |
| SqlText.LexInsert | src/db/adapters/postgres.ts:164 | the generated text lexes to exactly the statement's tokens |
| SqlText.ParsePrinted | src/db/adapters/postgres.ts:149-164 | reading the generated text back gives the table, the column list and the placeholder matrix, for all names without quotes |
| Import.FlattenAt | src/db/adapters/postgres.ts:158-161 | cell (ri, ci) of a full-width batch sits at ri * cols + ci of the flattened values |
| Import.PlaceholderBinding | src/db/adapters/postgres.ts:160 | every placeholder is in range and its value is the cell it stands for |
| Import.PlaceholdersInOrder | src/db/adapters/postgres.ts:159-163 | row by row the placeholders are 1, 2, 3, ... up to rows times columns, each once |
| Import.FitsExactly | src/db/adapters/postgres.ts:155-167 | the first batch, of at most 500 rows, fits 65535 parameters exactly when rows times columns does; for a full batch, exactly up to 131 columns |
| Import.ExecutableExactly | src/db/adapters/postgres.ts:153-165 | the server can run a batch's statement if and only if names are non-empty, the column names it is given are distinct, every row has the columns' width and the values fit |
| Import.BatchStored | src/db/adapters/postgres.ts:157-165 | a text that reads back as the batch's statement is accepted if and only if the batch is insertable, and then stores exactly its rows |
| Import.World.Query | src/db/adapters/postgres.ts:165 | one query adds all rows of its statement or none |
| Import.BuildInsert | src/db/adapters/postgres.ts:149-164 | the row loop produces the statement's text and the flattened values |
| Import.InsertBatch | src/db/adapters/postgres.ts:157-166 | one loop turn adds the whole batch or nothing, and succeeds exactly when the query does not fail and the batch is insertable |
| Import.InsertRows | src/db/adapters/postgres.ts:146-172 | success adds all rows in order and returns their number, and happens exactly when the call is insertable and neither the connection nor a query fails; failure leaves whole batches of 500, and something is added exactly when the first batch is insertable and gets through |
| Import.Take | src/worker/processors/import.processor.ts:63-68 | a data record joins the batch, and a full batch is inserted: added and waiting rows stay consecutive, and which awaits must succeed |
| Import.FlushRest | src/worker/processors/import.processor.ts:70-71 | the last batch completes the file, or leaves what was added before |
| Import.Turn | src/worker/processors/import.processor.ts:58-69 | one turn of the record loop: what has been added, what is waiting, and what is still to come under the awaits that are left |
| Import.ThroughFacts | src/worker/processors/import.processor.ts:58-71 | the number of records that get in is a multiple of 500 or everything: nothing exactly when the first batch fails, everything when no await does |
| Import.ImportRecords | src/worker/processors/import.processor.ts:54-71 | for every failure: the loop adds exactly the stated number of data records, in order, under the first record as header, and succeeds exactly when the file is importable and no await fails |
| Import.ImportCsv | src/worker/processors/import.processor.ts:46-72 | the same for a whole file, parser errors included |
| ImportJob.ImportProcessor | src/worker/processors/import.processor.ts:15-44 | for every failure: how many data records one attempt adds, and when it succeeds; a failure after the inserts leaves them in |
| ImportJob.RunImport | src/queue/index.ts:5-10 | over any plan of attempts, up to the first successful one, the table is the initial rows and one piece per attempt, in order; the length of each piece is the stated function of its attempt's failures |
| ImportJob.ExactlyOnce | docs/ARCHITECTURE.md:209 | for a plan whose first successful attempt is the n-th, the job adds each record exactly once if and only if no earlier attempt gets its first batch in: a condition on file and plan |
| ImportJob.ExactlyOnceHealthy | docs/ARCHITECTURE.md:209 | with a healthy database and an importable file with data: each record exactly once if and only if every attempt before the first clean one fails before the inserts |
| ImportJob.RetryDuplicates | docs/ARCHITECTURE.md:209 | for every importable file, a failure after the inserts followed by a clean retry adds every row twice |
| ImportJob.ExportParses | src/worker/processors/export.processor.ts:44-51 | an exported table parses to its normal rows under the normal header, or without it; the data rows are the table's exactly when the header line is kept or no row is left |
| ImportJob.DataRowsAre | src/worker/processors/export.processor.ts:46-48 | the data rows are the surviving rows in order, each cell the normal form of the row's value in that column |
| ImportJob.SurvivorsExactly | src/worker/processors/import.processor.ts:53 | the surviving rows are, in order, exactly those that are not a one-column record whose cell prints blank |
| ImportJob.HeaderLostExactly | src/worker/processors/export.processor.ts:45 | the header line is lost if and only if the table has one column whose name needs no quotes and is nothing but characters that trim drops |
| ImportJob.ColumnsKept | src/db/adapters/postgres.ts:150 | the import's column list is the table's own if and only if no name has a quote, and each one is quoted in the file, empty, or without blank ends |
| ImportJob.TrimmedNamesClash | src/db/adapters/postgres.ts:150 | the distinct column names `a` and ` a` become one name, which no INSERT may list twice |
| ImportJob.ExportThenImport | src/worker/processors/import.processor.ts:46-72 | end to end, for every table with a column and every failure: the target gains exactly the stated number of rows, in order; with the header line kept, the k-th of them comes from the k-th surviving exported row and holds under each column the normal form of `row[column]`; when the header line is lost, the first row is the header; it succeeds, with all of them, if and only if the names are usable and distinct, a batch fits and no await fails |
| Json.UniqueString | src/audit/audit.ts:17 | an escaped string and what follows its closing quote are determined by the text |
| Json.UniqueValue | src/audit/audit.ts:17 | a printed value and what follows it are determined by the text, for nested values |
| Json.PrintInjective | src/audit/audit.ts:17-25 | the printed text is JSON for its value, and equal JSON texts come from equal values |
| Json.StringReads | src/audit/audit.ts:17 | a reader of RFC 8259 strings, written without the printer, reads an escaped string back, whatever follows |
| Json.ValueReads | src/audit/audit.ts:17 | the same reader for whole values reads every printed value back: what is printed is that value's JSON |
| AuditText.FirstBrace | src/audit/audit.ts:41 | previous hash and canonical text split uniquely at the first brace |
| AuditText.PreimageInjective | src/audit/audit.ts:16-41 | the hashed text determines tenant, actor, action, target, ordered meta, time and previous hash |
| AuditText.CanonicalText | src/audit/audit.ts:16-26 | the canonical text written out: the seven members by name, in order, with the given values |
| AuditChain.StringifySeparates | src/audit/audit.ts:41 | the program's hashed text meets the separation that the chain theorems need |
| AuditChain.VerifyAuditChain | src/audit/audit.ts:62-89 | ok if and only if the chain is valid; otherwise the id of the least row whose prefix is not valid |
| AuditChain.ChainText | src/audit/audit.ts:16-89 | for the program: a log verifies if and only if every row's prevHash is the hash before it, or GENESIS, and its hash is the SHA-256 of that and of the written-out object of its own fields |
| AuditChain.ChainPrefix | src/audit/audit.ts:67-88 | every prefix of a verified log verifies |
| AuditChain.VerdictIgnoresContact | src/audit/audit.ts:69-82 | the verdict depends only on tenantId, actorId, action, target, meta, time, prevHash and hash: not on actorEmail, ip or id |
| AuditChain.TamperEvident | src/audit/audit.ts:62-89 | two verified non-empty logs with one end hash have one length and agree row by row on tenantId, actorId, action, target, `meta ?? {}`, the ISO time, prevHash and hash, or the two texts computed from them collide |
| AuditChain.ChangedFieldBreaks | src/audit/audit.ts:68-86 | in a verified log, changing any vouched field of any row breaks it or exhibits a collision |
| AuditChain.ChangedHashBreaks | src/audit/audit.ts:83-85 | changing a row's hash or prevHash alone breaks it outright |
| AuditChain.PrepareReadsLast | src/audit/audit.ts:34-41 | with increasing times the query returns the hash of the last row written |
| AuditChain.WriteVerdict | src/audit/audit.ts:40-54 | after one write the chain verifies if the write was fresh and reads back as hashed; otherwise only through an explicit collision |
| AuditChain.FaithfulExactly | prisma/migrations/0001_init/migration.sql:206 | a row whose meta went through JSONB reads back as hashed if and only if every object in the meta already has its keys in the database's order and both clocks print alike |
| AuditChain.StoredWriteVerdict | src/audit/audit.ts:40-54 | the verdict on one write by what is known before it: verified when fresh, storable and the clocks agree, otherwise only through an explicit collision |
| AuditChain.ProgramMetas | src/worker/processors/import.processor.ts:32 | the schedules' audit metas survive the database; those of completed imports, exports and backups never do |
| Jsonb.ReadBackExactly | src/audit/audit.ts:77 | a JSON document comes back from the database as it was stored if and only if every object in it has its keys in order, without repetition |
| Jsonb.IndexOrder | src/audit/audit.ts:77 | among array-index keys the order used is the numeric one |
| Jsonb.IndexExactly | src/audit/audit.ts:77 | a key is an array index if and only if it is the printed form of a number below 2^32 - 1 |
| Jsonb.KeyOrder | src/audit/audit.ts:77 | array indices come before all other keys; those go by length in bytes, then by the first byte that differs |
| Jsonb.ReadBackMembers | src/audit/audit.ts:77 | an object read from the database has, under each key, what the last member with that key was read back as, and no other key |
| Jsonb.ReadBackSettles | src/audit/audit.ts:77 | what was read from the database once comes back unchanged a second time |
| AuditRuns.AuditTable.Audit | src/audit/audit.ts:32-59 | one call is the run of a read and a write step, or of as many as succeed; its errors are swallowed; the written row, field by field, continues a newest row or GENESIS |
| AuditRuns.RunVerdict | src/audit/audit.ts:32-54 | over every interleaving: all writes fresh and faithful gives a valid chain, any other write makes it invalid up to an explicit collision |
| AuditChain.PermutedView | src/audit/audit.ts:63-86 | a verified log read in any other order than it was written in, as equal times allow, does not verify, unless through the collision given |
| AuditChain.TiedReadVerdict | src/audit/audit.ts:34-54 | when the query returns another row of equal time than the last one, the entry written after it breaks the chain, unless through an explicit collision |
| AuditRuns.OrderedViewUnique | src/audit/audit.ts:63-66 | with increasing times the ordered query can only return the rows in writing order |
| AuditRuns.ProgramTamperEvident | src/audit/audit.ts:62-89 | the same field-by-field agreement for the text the program hashes, up to an explicit collision |
| AuditRuns.ProgramRunVerdict | src/audit/audit.ts:32-89 | the verdict on every interleaving from an empty log and every ordered answer of the query |
| AuditRuns.StoredRunVerdict | src/audit/audit.ts:32-89 | the same with every meta stored as JSONB: the chain verifies when no write falls in another's window, every meta is storable and the clocks agree, otherwise only through an explicit collision |
| Encoding.Utf8RoundTrip | src/lib/crypto.ts:61 | decoding the UTF-8 bytes of any text gives the text |
| Encoding.Utf8Table | src/lib/crypto.ts:61 | each character's bytes lie in the ranges of section 3 of RFC 3629 and carry its bits in that order |
| Encoding.FromUtf8Exact | src/lib/crypto.ts:83 | bytes that decode are the encoding of what they decode to |
| Encoding.Base64RoundTrip | src/lib/crypto.ts:51-56 | decoding the base64 text of any bytes gives the bytes |
| Encoding.SymbolTable | src/lib/crypto.ts:51 | the alphabet is Table 1 of RFC 4648, symbol by symbol |
| Encoding.GroupNumber | src/lib/crypto.ts:51 | three bytes and their four symbols are one 24-bit number, and the rest is encoded likewise |
| Encoding.TailNumber | src/lib/crypto.ts:51 | one or two last bytes are padded with zero bits and padding signs |
| Encoding.SkipsOthers | src/lib/crypto.ts:19 | a character outside the alphabet, a line break in the master key say, does not change what is read |
| Encoding.Base64HasNoColon | src/lib/crypto.ts:51-55 | base64 text never contains the joining colon |
| Secrets.WrapRoundTrip | src/lib/crypto.ts:48-57 | unwrapping a wrapped key gives the key, for every nonce |
| Secrets.SecretRoundTrip | src/lib/crypto.ts:59-87 | decrypting an encrypted secret gives it back, for every text, key and nonces, assuming only that AES-GCM decryption inverts encryption |
| Secrets.EncryptSecret | src/lib/crypto.ts:18-72 | the record part by part: ciphertext, tag and nonce under the data key, the data key wrapped under the master key as nonce:tag:cipher, the key version; success exactly when the master key decodes to 32 bytes; the key buffer is zero on return and keeps the key when the master key is malformed |
| Secrets.DecryptSecret | src/lib/crypto.ts:74-87 | the secret, or an error exactly when a key, a decryption or the text is bad: what is returned are the bytes that both authenticated decryptions gave; a buffer that held the key is zero on every exit |
| Secrets.StoreAndRead | src/lib/crypto.ts:59-87 | storing and reading a credential gives the password, with both buffers wiped |
| Jobs.Clamp | src/modules/jobs/jobService.ts:33 | the value itself inside 0..100, else the nearer end |
| Jobs.CallsKeepSound | src/modules/jobs/jobService.ts:24-52 | every call, failing at any point, keeps the row sound; updateProgress does so on rows that are not done |
| Jobs.JobService.Emit | src/modules/jobs/jobService.ts:54-72 | the event is appended before it is published, and either may be the last thing that happens |
| Jobs.JobService.Running | src/modules/jobs/jobService.ts:24-30 | status running, started and progress 0, nothing else; the event after the row; both as far as the call got |
| Jobs.JobService.Progress | src/modules/jobs/jobService.ts:32-36 | the clamped progress in row and event and no other field, as far as the call got |
| Jobs.JobService.Done | src/modules/jobs/jobService.ts:38-44 | done, progress 100 and an end time and no other field, as far as the call got |
| Jobs.JobService.Failed | src/modules/jobs/jobService.ts:46-52 | failed, an error and an end time and no other field, so progress is kept; event without progress |
| Jobs.HashingStream.Transform | src/lib/hashStream.ts:12-17 | the chunk reaches hash, counter and output |
| Jobs.Pump | src/lib/hashStream.ts:8-22 | however content is cut into chunks: same bytes out, their digest, their number |
| Artifacts.KeysDiffer | src/worker/processors/backup.processor.ts:19 | two jobs with slash-free ids never share a storage key |
| Artifacts.StepKeepsInv | src/worker/processors/backup.processor.ts:13-61 | every step of any attempt or retention pass keeps the row and artifact invariant |
| Artifacts.ArtifactAgreement | src/worker/processors/backup.processor.ts:26-43 | in every reachable state each available row's object has its digest and length, unless it is being deleted, was stranded or was written again; a job has at most one row |
| Artifacts.StepAgrees | src/worker/processors/backup.processor.ts:13-61 | from any well-formed state in which rows and storage agree, a step keeps them in agreement if and only if it neither writes different content over an available row or a waiting upload, nor leaves an available row unmarked whose object it deleted and which no other pass is deleting |
| Artifacts.ArtifactsAgreeExactly | src/scheduler/retention.ts:21-29 | over every interleaving of attempts, late writes and passes, with storage deletes that take effect unanswered and processes that end in a pass: rows and storage agree in every state if and only if no step is one of those |
| Artifacts.RetryRewrites | src/worker/processors/backup.processor.ts:19-43 | any write for a job that has its row, whole, partial or late, leaves the row as it is and its object intact exactly when digest and length are the old ones; the attempt that uploads it can only fail |
| Artifacts.FailedUpdateStrands | src/scheduler/retention.ts:23-24 | a storage delete whose status update fails, whose answer is lost, or after which the process ends keeps agreement if and only if the row was already marked deleted or another pass is deleting it |
| Artifacts.JobLifecycle | src/modules/jobs/jobService.ts:24-72 | in every reachable state: at most 3 attempts, fewer while another is to come, exactly 3 when they are used up; progress in 0..100 and equal to the log's last one while no event was lost; done means 100 and an end time; between attempts the row is done or failed unless the attempt had no adapter or could not mark it |
| Artifacts.ProgressMonotone | src/worker/processors/backup.processor.ts:16-45 | within an attempt no step lowers the progress |
| Artifacts.RowsStay | src/worker/processors/backup.processor.ts:31-43 | no step of an attempt or a pass takes a job's backup row away |
| Artifacts.StepKeepsRow | src/worker/processors/backup.processor.ts:31-43 | no step changes a backup row but the status update of a pass, which only moves it from available to deleted |
| Artifacts.HistoryExactly | src/scheduler/retention.ts:23-24 | the recorded situations are exactly these: an object written while its job has a row or an upload waiting for one, and a row left without its status update |
| Artifacts.LateUploadLands | src/worker/processors/backup.processor.ts:26-29 | an upload still open when the tool fails may put its content in place after the attempt has failed |
| Artifacts.LostExactly | src/worker/processors/backup.processor.ts:13-61 | an attempt is lost exactly from a step that gets no adapter or cannot mark the row failed, until the next attempt gets one |
| BackupProcessor.Attempt | src/worker/processors/backup.processor.ts:12-62 | for every outcome of the awaits of one attempt: its success condition, what storage and the backup rows then hold, and how the Job row ends; a backup that was created ends as a failed job if and only if markDone or the notification fails and the failure is written; a failing close leaves it done and queued again; the job's data and key stay |
| BackupProcessor.RetrySpoils | src/worker/processors/backup.processor.ts:19-43 | from an empty system: a recorded backup whose notification fails is retried with content of another length, and its available row no longer has its artifact |
| BackupProcessor.PassStrands | src/scheduler/retention.ts:23-24 | from an empty system: one successful backup and one retention pass whose status update fails leave an available row without an object |
| BackupProcessor.Prepare | src/worker/processors/backup.processor.ts:16-25 | start to second progress report: which awaits must succeed, and that storage and rows stay untouched |
| BackupProcessor.Deliver | src/worker/processors/backup.processor.ts:26-52 | upload, row, markDone and notification: which awaits must succeed, what is stored for every outcome, and the Job row's status |
| Retention.Store.Handle | src/scheduler/retention.ts:22-28 | one turn: object first, then status; the row is marked deleted exactly when both succeed, and an object goes exactly when the delete took effect, answered or not |
| Retention.Store.EnforceRetention | src/scheduler/retention.ts:9-31 | under every failure pattern: exactly which rows change and which objects go, and the result is the number of rows moved to deleted; field by field, a row that changes is an available SQL backup of the given tenant, server and database, becomes deleted and has lost its object; after a failure-free pass at most `keep` such rows are left |
| Retention.OthersUntouched | src/scheduler/retention.ts:15-18 | whatever fails: a row that differs in tenant, server or database, is not SQL or not available keeps every field, and with distinct addresses its object |
| Retention.AtMostKeep | src/scheduler/retention.ts:15-31 | after a failure-free pass the number of available SQL backups of that tenant, server and database is the smaller of `keep` and what it was, and none of them is older than a deleted one |
| Retention.FewAreKept | src/scheduler/retention.ts:19 | when there are no more than `keep` such rows, no row and no object changes |
| Retention.KeptAreNewest | src/scheduler/retention.ts:15-21 | only in-scope rows change, only to deleted; none is newer than a kept one; only objects of the tail disappear, and with distinct addresses the object of every other row survives |
| Retention.CleanPassKeepsHead | src/scheduler/retention.ts:15-30 | after a failure-free pass the query returns exactly the kept rows, at most N |
| Retention.TwoPasses | src/scheduler/retention.ts:15-30 | after a failure-free pass a second one, whatever fails in it, leaves every row and object as they are and returns 0 |
| RetentionRuns.EnforceAsEvents | src/scheduler/retention.ts:9-31 | the loop on the table and storage is a run of the interleaving model's query, delete and update events, failures included |
| Schedules.Scheduler.RegisterSchedule | src/scheduler/scheduleManager.ts:16-39 | exactly which entries are there afterwards: the entry is replaced, a failing removal is ignored, a failing add is reported |
| Schedules.Scheduler.CreateSchedule | src/api/routes/schedules.routes.ts:31-44 | the new row field by field under the caller's tenant, then its entry if enabled; every other row and entry stays; exactly when the request succeeds |
| Schedules.Scheduler.UpdateSchedule | src/api/routes/schedules.routes.ts:52-65 | cron, enabled and retention each take the given value or keep the old one, everything else in the table stays; the old entry goes and the new one is there if enabled: exactly which entries are left, for every failure; exactly when the request succeeds |
| Schedules.Scheduler.DeleteSchedule | src/api/routes/schedules.routes.ts:67-78 | entry first, then the row: exactly which entries and rows are left, so when the row's deletion fails, the entry is gone and the row stays; exactly when the request succeeds |
| Schedules.Scheduler.SyncSchedules | src/scheduler.ts:12-18 | the loop registers the enabled schedules in order and stops at the first add that throws; when none does, exactly the entries of the enabled schedules are added |
| Schedules.Scheduler.FireTrigger | src/scheduler/scheduleProcessor.ts:15-45 | one job row and one queued job, for the schedule's own tenant, server and database, only for a schedule that exists and is enabled; exactly when the trigger succeeds, lastRunAt and retention's query included |
| Schedules.Scheduler.RunTrigger | src/queue/index.ts:5-10 | the attempts of one trigger add one backup job for each of them that gets its Job row in, up to the first that goes through |
| Schedules.OneJobExactly | src/scheduler/scheduleProcessor.ts:23-43 | a trigger that succeeds at its n-th attempt makes one backup job if and only if no earlier attempt got its Job row in |
| Schedules.PatchExact | src/api/routes/schedules.routes.ts:57-61 | from agreement, a patch with any failures leaves agreement if and only if its stated condition holds |
| Schedules.DeleteExact | src/api/routes/schedules.routes.ts:71-74 | from agreement, a delete leaves agreement if and only if it is not carried out, the schedule is disabled, or removal and row deletion both succeed or both fail |
| Schedules.FailedDeleteSilences | src/api/routes/schedules.routes.ts:73-74 | a row deletion that fails after the removal leaves the schedule enabled and without its entry |
| Schedules.StepExact | src/api/routes/schedules.routes.ts:31-78 | the same for every request, server deletion, sync and trigger |
| Schedules.SyncStops | src/scheduler.ts:14-16 | a sync stopped by a failing add can lose only that schedule's entry |
| Schedules.SyncRestores | src/scheduler.ts:12-18 | a completed sync of any state adds exactly the missing entries; agreement holds if and only if there was no stale entry |
| Schedules.SerialRunsAgree | src/scheduler/scheduleManager.ts:16-39 | over every serial fault-free run without server deletion the queue equals the enabled schedules |
| Schedules.InterleavedExact | src/scheduler.ts:12-18 | with the sync's registrations interleaved with requests, table and queue agree in every state if and only if every request keeps agreement and every registered row is still wanted or its registration comes to nothing |
| Schedules.DeleteDuringSync | src/scheduler.ts:13-15 | a delete between the sync's query and its registration leaves a stale entry, nothing failing |
| Schedules.NoJobForStaleEntries | src/scheduler/scheduleProcessor.ts:18-21 | once a schedule is deleted or disabled, no run creates a job for it until it is created or enabled again, whatever entries fire and whatever fails |
| Refresh.StepKeepsInv | frontend/src/lib/api.ts:49-79 | every orderly step keeps the protocol invariant |
| Refresh.SingleFlight | frontend/src/lib/api.ts:30-79 | in every orderly run at most one refresh is in flight, all waiters wait on the same one, each request is sent at most twice and takes at most three turns |
| Refresh.StepFlights | frontend/src/lib/api.ts:56-61 | in any order: from at most one refresh in flight, a step leaves at most one if and only if it is not a first 401 handled while the shared variable is clear and a refresh is in flight |
| Refresh.FlightsExactly | frontend/src/lib/api.ts:56-61 | over every run, orderly or not: one refresh at a time in every state if and only if no step is such a reply |
| Refresh.ResumeUsesFlightToken | frontend/src/lib/api.ts:60-75 | a resumed request carries the token of the flight it waited on, or rejects when that flight failed or brought an empty token |
| Refresh.OutcomeIsFixed | frontend/src/lib/api.ts:32-47 | a settled flight never changes, so all its waiters see one outcome |
| Refresh.TurnsDecrease | frontend/src/lib/api.ts:56-68 | each interceptor turn of a request lowers its measure, and nothing else does |
| Refresh.Client.OnReply | frontend/src/lib/api.ts:51-61 | a successful reply resolves the request; a failure other than a 401, a second 401 and a 401 of an auth endpoint reject it; the first other 401 makes it wait, on the shared refresh or on a new one; nothing else changes |
| Refresh.Client.OnRefreshReply | frontend/src/lib/api.ts:32-47 | the settled refresh gives the store its token, or clears it, and no other refresh changes |
| Refresh.Client.OnResume | frontend/src/lib/api.ts:60-77 | the interceptor after its await: the shared variable is cleared, and the request is resent with the store's token or else the new one, or rejected when there is none |
| Refresh.Client.Handle | frontend/src/lib/api.ts:17-23 | a first send carries the store's token when there is one, and no token otherwise |
| Refresh.ResolvedExactly | frontend/src/lib/api.ts:49-79 | over every run, in any order: a request ends resolved if and only if a successful reply reached it while it was in the air |
| Refresh.SettledStays | frontend/src/lib/api.ts:49-79 | a resolved or rejected request stays as it is |
| Refresh.Drive | frontend/src/lib/api.ts:25-79 | the client under any orderly sequence of replies is the protocol's run: one refresh at a time, at most two sends per request |
| Refresh.OrderIsNeeded | frontend/src/lib/api.ts:59-61 | a 401 handled between two continuations of one flight ends with two refreshes in flight |
| Refresh.TwoFlightsReachable | frontend/src/lib/api.ts:59-61 | such a state is reached from the start by an orderly run of four requests |
| Stderr.LastOfLast | src/db/adapters/postgres.ts:183-184 | trimming early loses nothing of the final tail |
| Stderr.Capture.OnData | src/db/adapters/postgres.ts:182-185 | after each chunk the buffer is the last 8192 characters received so far |
| Stderr.StripDropsBlanks | src/db/adapters/postgres.ts:187 | trimming drops blanks only, and only at the two ends |
| Stderr.Captured | src/db/adapters/postgres.ts:180-189 | for every cutting into chunks the tail is the last 8192 characters of the whole output; something is reported if and only if the tool failed and the tail is not blank, and it is the first 1000 characters of the tail without its blank ends |

## Left out

- Csv.ParsePrinted: csv-parse is not part of this model; the parser is the state machine its options describe. Records end at LF, which is what the exporter's header line makes the library detect; the characters `trim` drops are parameters; text after a closing quote is an error.
- Csv.ExportCsv: the progress reports every 5000 rows, and values whose text is produced by `Date` or `String` conversions, which enter as text.
- SqlText.ParsePrinted: NUL characters and the server's truncation of long identifiers.
- Import.World.Query: whether the table exists, column types and constraints; a rejected statement is a fault and adds nothing, so a statement that commits while its reply is lost is not modelled (see Assumptions).
- Import.InsertRows: cells are text, as importCsv delivers them; the worksheet import's sparse and ragged rows are not modelled. A statement without a row count is taken to report its rows.
- ImportJob.RunImport: attempts run one after another; a stalled job running two attempts at once is outside the code's assumptions. Attempts are any finite plan, of which the queue's three are one case; the inserts of an attempt stop at the first await that fails.
- Json.PrintInjective: texts are sequences of Unicode scalar values, without lone surrogates; numbers are their printed texts; member order is given.
- AuditChain.VerifyAuditChain: SHA-256 and the ISO date text are parameters, and the rows are those of one tenant. A stored meta of JSON null hashes like an absent one, as in the code.
- AuditRuns.ProgramRunVerdict: assumes strictly increasing `createdAt` per tenant; equal times are covered one write and one reading at a time, by `AuditChain.TiedReadVerdict` and `AuditChain.PermutedView`.
- Jsonb.ReadBackExactly: numbers are kept by value and so by text; strings with NUL, which the database refuses, make the write fail like any other fault.
- Secrets.DecryptSecret: invalid UTF-8 is an error here where Node substitutes replacement characters; it cannot arise from encryptSecret. AES-256-GCM is a parameter.
- Jobs.JobService.Emit: messages, results, timestamps and the payload of the published event.
- Artifacts.ArtifactAgreement: the size is the length of the uploaded content (for empty content the code takes the size storage reports); the storage address is its key; SHA-256 is a parameter.
- BackupProcessor.Attempt: a backup row committed while its reply is lost.
- Artifacts.RowsStay: the deletion of a server, which takes its backup rows with it.
- Schedules.StepExact: a queue call that takes effect and then rejects.
- RetentionRuns.EnforceAsEvents: rows have an address, as every row of backupProcessor does.
- Artifacts.JobLifecycle: a stalled job running two attempts at once.
- Retention.Store.EnforceRetention: equal creation times may be ordered either way by the query; every order is allowed.
- Schedules.InterleavedExact: each request is one step; two simultaneous patches of one schedule are outside the code's assumptions. Requests with an id in use or a wrong query answer change nothing. The value of lastRunAt, auditing and the deletions of the retention pass after a trigger are not part of this module.
- Refresh.SingleFlight: login and logout write the token store between replies, not between the continuations of one refresh. The redirect to the login page is not modelled.
- Stderr.Captured: characters are counted as text units; cutting a multi-byte character at a chunk border is not modelled.
- The export of SQL dumps and worksheets, the worksheet import, the MySQL adapter, clone and restore: the same shapes with less arithmetic and state.
- Storage internals, permissions, request schemas, error handling, configuration, logging, the user interface and deployment.
