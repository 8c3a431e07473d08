# A verified model of db-backup's algorithms

db-backup takes scheduled backups of databases, chains incremental backups to
full ones, prunes them, compresses, encrypts and uploads them, and restores
them. This project models the algorithms inside it whose correctness cannot be
seen from one function alone, and proves what they promise for every input,
every run and every order of events. Storage, codecs, block ciphers, request
sending, regular expressions and the calendar are functions with stated laws.

| module | what it models |
|---|---|
| `Retention` | the listing a prune sees, the ancestors it protects, the tiers, what it deletes |
| `BackupChain` | runs of backups and prunes over a store, and the restore walk |
| `Compressor` | the parallel segment compressor: splitter, workers, reordering collector, Close |
| `CbcStream` | the streaming CBC writer and the reader that looks one block ahead |
| `SqlLexer`, `SqlStatements` | the statement splitter of the MySQL restore |
| `SqlEscape`, `SqlDump`, `SqlReadBack` | literals, names and INSERT batches of the MySQL dump, and reading them back |
| `SqlRoutines`, `SqlRewrite` | the DELIMITER frames of routines, and retargeting of statements |
| `KeyedMerge`, `InfluxMerge`, `InfluxTar`, `InfluxSlices` | InfluxDB physical manifests, tars and time slices |
| `ViewOrder` | ordering SQL Server views by what they need |
| `Multipart` | part arithmetic and worker pool of the S3 multipart upload |
| `AnchoredGrid` | interval schedules anchored at clock times, daily times |
| `Cron`, `CronFields` | cron validation, the two matchers, the next firing |
| `Includes`, `IncludeNesting` | configuration includes, their merging, and when nesting them matters |
| `Sequences`, `Decimals`, `Remainders` | shared vocabulary |

`dafny verify dfyconfig.toml` (Dafny 4.11) checks the whole project.

## Main results

- **No run strands a backup.** Over every sequence of full, incremental and
  differential backups and prunes, every stored increment has its base stored
  and strictly older, and hangs off the newest full backup before it
  (`BackupChain.RunsKeepInv`). With `full_every` between 1 and the walk limit,
  restoring any stored backup replays its whole chain
  (`RestoreAfterAnyRun`). The restore walk is complete exactly when the chain
  fits its limit (`RestoreIsWhole`), and for every other setting of
  `full_every` some run ends in a backup whose restore misses its full backup
  (`LongChainsLoseTheirRoot`). A prune that removes sidecars of backups it
  fails to delete keeps every backup restorable exactly when none of those is an
  increment (`TornPrune`).
- **The compressor's output is its input's.** Whatever the write sizes, the
  thread count and the order in which workers finish, a successful Close means
  the encoded segments in order; it never deadlocks, always ends, and reports
  exactly the runs in which something failed.
- **CBC streams round trip** for every chunking and every buffer size; what a
  ciphertext cut short reads as, and when that goes unnoticed, is exact
  (`CbcStream.CutShort`).
- **Dumped rows come back.** However rows are cut into batches and whatever
  their values hold, the splitter returns one statement per batch, and a reader
  of those statements finds the rows. This is false for one kind of value: an
  empty blob printed in hexadecimal goes out as `0x`, and a hexadecimal literal
  needs a digit. The rows come back exactly when there is no such blob
  (`SqlReadBack.DumpAndRead`).
- **Routine bodies come back exactly when no line of them ends a statement
  early or is taken for a DELIMITER command** (`SqlRoutines.FrameRoundTrip`). A
  comment line ending in two semicolons (`CommentCuts`) and a line that starts
  with a column called `delimiter` (`DelimiterColumnCuts`) break a body.
- **Retargeting an INSERT keeps its values** when its head is ASCII
  (`SqlRewrite.ValuesSurvive`). In general the length of the upper-cased head
  decides: no longer than the head, the values survive every edit; longer, some
  edit reaches them; longer than the whole statement, the program panics
  (`LengthDecides`). A table named by 64 letters U+0250 is such a case
  (`OneRowPanics`).
- **Merging InfluxDB backups keeps the last download of every shard**, byte for
  byte (`InfluxSlices.MergedContent`). A full backup with its slices so merges
  to a fresh full backup when each slice covers the changes before it, and
  shard by shard the exact condition is proved for whole chains
  (`ChainExactly`). A shard's bytes survive the merge of tars exactly when no
  later tar reuses its file's name (`InfluxTar.ShardFileExactly`), which the
  names backups give rule out (`NamesAreOwn`).
- **Views come in dependency order up to the cycles**: the places that are
  ordered are exactly those of views from which no cycle can be reached.
- **An accepted multipart completion lists every part** with the ETag of its
  own bytes; the pool ends under every interleaving.
- **Missed slots are the skipped slots** (`AnchoredGrid.ReportMissed`) when the
  previous run's day has today's slots, which is so exactly when moving the
  anchors from day to day lands each on the grid of one of them (`SameSlots`).
- **A circular include is reported exactly when there is a cycle to reach.**
  Expanding is merging the files flat, in reading order, exactly when no include
  carries a value past one that replaced it (`IncludeNesting.ExpandIsFlatExactly`):
  a list, a scalar and a list in three files in a row join the two lists
  (`NestingMatters`). What the expanded configuration has at every path is given
  by the values that are still live there (`ExpandedAt`).

Where the documentation and the code differ the model follows the code: a
comment line that ends in the delimiter does end a statement, because the line
comment is over before the end is looked for.

## Model

| member | source | states |
|---|---|---|
| `Retention.FindBase` | src/internal/retention/retention.go:264-270 | the search of one link finds the Base of the first entry with that name, and reports a name that is not listed |
| `Retention.ChainDependencies` | src/internal/retention/retention.go:251-277 | returns exactly the names one or more Base steps away from some non-full entry, on every listing, cyclic and dangling links included; the early break loses nothing |
| `Retention.ApplyTier` | src/supported/retention/backend/tier.go:20-36 | one tier's loop keeps what it had and exactly the picks: the first unkept entry of each period while the quota lasts |
| `Retention.TierPassPicks` | src/supported/retention/backend/tier.go:21-36 | the pass with its running set of seen periods picks the entries that a definition without running state picks |
| `Retention.TierQuota` | src/supported/retention/backend/tier.go:21-36 | a tier adds exactly the smaller of its quota and the number of periods that have an unkept entry |
| `Retention.TierPicksNewest` | src/supported/retention/backend/tier.go:21-36 | a pick is the newest unkept entry of its period, no period is picked twice, and every period more recent than a picked one is picked too |
| `Retention.KeepWindow` | src/internal/retention/retention.go:68-83 | adds exactly the entries with a timestamp inside the window |
| `Retention.KeepLast` | src/internal/retention/retention.go:85-94 | adds exactly the first `last` entries of the sorted listing |
| `Retention.KeepTiers` | src/supported/retention/backend/tier.go:38-46 | the tiers one after the other, each over what the earlier ones left |
| `Retention.ApplyRetentionAt` | src/internal/retention/retention.go:47-113 | sorts the listing in place, newest first, as a permutation, and names for deletion exactly the entries that are not survivors, in that order |
| `Retention.DeletesTheRest` | src/internal/retention/retention.go:106-113 | a name is deleted if and only if it is listed and does not survive |
| `Retention.NeverDeleted` | src/internal/retention/retention.go:47-113 | an ancestor of a listed increment, an entry in the window and an entry with fewer than `last` entries at or after it are never deleted |
| `Retention.SurvivorBound` | src/internal/retention/retention.go:47-113 | survivors are listed, and number at most the needed ones, those in the window, `last` and the quotas together |
| `BackupChain.TokenPrefix` | src/internal/scheduler/runner/chain.go:104-122 | with the default template the prefix `full-` tells full backups from the others |
| `BackupChain.LatestWithPrefix` | src/internal/scheduler/runner/chain.go:84-122 | the loop of both searches returns the newest path with the prefix that is no sidecar, or nothing when there is none |
| `BackupChain.FindLastChainParent` | src/internal/scheduler/runner/chain.go:84-102 | the newest stored backup, or nothing in an empty store |
| `BackupChain.FindLastFullBackup` | src/internal/scheduler/runner/chain.go:104-122 | the newest stored full backup, or nothing without one |
| `BackupChain.CountBack` | src/internal/scheduler/runner/chain.go:48-64 | walking back from the newest backup counts exactly the increments newer than the newest full backup |
| `BackupChain.ListOurs` | src/internal/scheduler/runner/chain.go:38-47 | collects the job's own backups in listing order, without sidecars |
| `BackupChain.ReadChainInfo` | src/internal/scheduler/runner/chain.go:32-64 | depth and time of the last full backup, as facts about the store |
| `BackupChain.PlanBackup` | src/internal/scheduler/runner/runner.go:327-381 | the strategy is full exactly when asked for, unsupported, reset or without an anchor; a differential's base is the newest full backup, an incremental's the newest backup |
| `BackupChain.BackupKeepsInv` | src/internal/scheduler/runner/runner.go:327-381 | a backup keeps the invariant: bases stored and older, every increment below the newest full backup before it, at most `full_every` increments below a full backup |
| `BackupChain.PruneKeepsBases` | src/internal/retention/retention.go:47-137 | a prune leaves the base of every stored increment in the store |
| `BackupChain.PruneKeepsInv` | src/internal/retention/retention.go:47-137 | a prune keeps the whole invariant, whichever backups it fails to delete, as long as these keep their sidecars |
| `BackupChain.TornPrune` | src/internal/retention/retention.go:119-137 | when it deletes sidecars of backups it failed to delete, every backup left can still be restored if and only if none of these is an increment |
| `BackupChain.TornParent` | src/cmd/dbb/restore.go:339-356 | an increment made on top of an increment without its sidecar restores as these two alone, which is no chain from a full backup |
| `BackupChain.NextKeepsInv` | src/internal/scheduler/runner/runner.go:327-381 | every event keeps the invariant |
| `BackupChain.RunsKeepInv` | src/internal/scheduler/runner/runner.go:327-381 | the invariant holds after every run of backups and prunes from an empty store |
| `BackupChain.ResolveUpTo` | src/cmd/dbb/restore.go:339-356 | the loop that prepends parents computes the walk of at most `limit` steps |
| `BackupChain.ResolveChain` | src/cmd/dbb/restore.go:339-356 | the same with the program's limit of 64 |
| `BackupChain.ChainFacts` | src/cmd/dbb/restore.go:339-356 | a chain starts at the full backup its last member hangs off, each member's base is the one before it, and none repeats |
| `BackupChain.ChainLength` | src/internal/scheduler/runner/chain.go:180-189 | a chain has at most one member more than there are increments below its full backup |
| `BackupChain.WalkFollowsChain` | src/cmd/dbb/restore.go:339-356 | the walk collects the newest part of the chain that its steps allow |
| `BackupChain.RestoreIsWhole` | src/cmd/dbb/restore.go:339-356 | the restore order is the whole chain, from a full backup on, if and only if the chain has at most `limit + 1` members |
| `BackupChain.RestoreAfterAnyRun` | src/cmd/dbb/restore.go:339-356 | after any run with `full_every` from 1 to the limit, restoring any stored backup replays a chain that starts at a full backup, without repeats, of at most `full_every + 1` members |
| `BackupChain.LongRun` | src/internal/scheduler/runner/runner.go:327-381 | there is a run whose backups form one chain of any length `full_every` permits |
| `BackupChain.LongChainsLoseTheirRoot` | src/cmd/dbb/restore.go:339-356 | with `full_every` unset or above the limit some run ends in a backup whose restore is not a chain from a full backup |
| `Compressor.ChunkWriter.constructor` | src/internal/compress/compress.go:331-349 | starts open and empty |
| `Compressor.ChunkWriter.Write` | src/internal/compress/compress.go:265-289 | copies the bytes into segments and submits the full ones, taking the same steps as the protocol's splitter; fails without effect after Close |
| `Compressor.ChunkWriter.Close` | src/internal/compress/compress.go:82-95 | submits what is left as a shorter last segment, so that all accepted bytes are in submitted segments; a second Close panics and submits nothing |
| `Compressor.FillKeepsSplit` | src/internal/compress/compress.go:265-289 | one turn of the write loop keeps accepted bytes equal to submitted, current and remaining ones, and uses up input |
| `Compressor.SplitStep` | src/internal/compress/compress.go:265-289 | every protocol step keeps the splitter's invariant |
| `Compressor.SegmentsUnique` | src/internal/compress/compress.go:265-289 | an input has only one cut into full segments and a shorter last one, so write sizes do not matter |
| `Compressor.SlotStep` | src/internal/compress/compress.go:351-374 | the semaphore counts the encoding workers, at most `threads`, after every step |
| `Compressor.FlightStep` | src/internal/compress/compress.go:351-374 | results under way are the encodings of their own segments, each in the channel at most once |
| `Compressor.CollectorStep` | src/internal/compress/compress.go:291-330 | what is written is the encodings of the first segments in order; what waits belongs to later ones |
| `Compressor.AccountStep` | src/internal/compress/compress.go:291-330 | until the first error no finished segment is lost: it is in the channel, waiting or written, and in one place only |
| `Compressor.FailureStep` | src/internal/compress/compress.go:291-330 | a failure is on its way to the collector or recorded, and nothing is recorded without one |
| `Compressor.CloseStep` | src/internal/compress/compress.go:82-95 | Close returns only after every worker and the collector are done, with the collector's error |
| `Compressor.StepKeepsInv` | src/internal/compress/compress.go:265-374 | every step keeps all of these |
| `Compressor.RunsKeepInv` | src/internal/compress/compress.go:265-374 | they hold in every reachable state |
| `Compressor.CloseSucceeds` | src/internal/compress/compress.go:82-95 | after a Close without error the output is the encoded segments in order, the segments make up the input, only the last may be short, and nothing waits |
| `Compressor.CloseReportsFailures` | src/internal/compress/compress.go:82-95 | Close returns an error if and only if an encoder or the writer failed; whole segments written are always an in-order prefix |
| `Compressor.OutputDependsOnInputOnly` | src/internal/compress/compress.go:265-374 | two successful runs over the same bytes, with any thread counts and interleavings, write the same output |
| `Compressor.DecodeMembers` | src/internal/compress/compress.go:58-78 | decoders that accept concatenated members (section 2.2 of RFC 1952, section 3.1 of RFC 8878) decode the concatenation of encoded segments to the concatenation of the segments |
| `Compressor.RoundTrip` | src/internal/compress/compress.go:265-374 | decoding the output of a successful Close gives back the input; empty input makes empty output |
| `Compressor.SomeStepEnabled` | src/internal/compress/compress.go:291-374 | in every reachable state between Close's start and its return some step is enabled |
| `Compressor.StepsRunOut` | src/internal/compress/compress.go:291-374 | every step in that phase decreases a measure, so Close returns |
| `CbcStream.EncryptConcat` | src/supported/encrypt/backend/openssl.go:77-90 | encrypting block runs one after the other with the chaining value carried over is encrypting them together (section 6.2 of NIST SP 800-38A) |
| `CbcStream.OpenSealed` | src/internal/encrypt/decrypt.go:132-163 | decrypting and stripping undoes padding and encrypting for every length (section 6.3 of RFC 5652) |
| `CbcStream.FragmentIgnored` | src/internal/encrypt/decrypt.go:132-163 | a trailing fragment shorter than a block does not change what is read |
| `CbcStream.CutShort` | src/internal/encrypt/decrypt.go:132-163 | a ciphertext cut short anywhere reads as the plaintext up to its last whole block, less the padding that block's last byte claims; the cut goes unnoticed if and only if no block is left or that byte is from 1 to 16 |
| `CbcStream.BlockWriter.constructor` | src/supported/encrypt/backend/openssl.go:57-75 | nothing accepted, nothing sent |
| `CbcStream.BlockWriter.Write` | src/supported/encrypt/backend/openssl.go:77-90 | in every state, after a failed write and after Close too: the whole blocks of the buffer are encrypted with the chaining value and sent, or a part of them when the output fails, and then they stay pending, encrypted; as long as nothing fails all accepted bytes are sent or pending |
| `CbcStream.BlockWriter.Close` | src/supported/encrypt/backend/openssl.go:39-53 | pads, encrypts and sends the rest, or a part of it when the output fails; if nothing failed before, the output is then the padded encryption of all accepted bytes; a second Close changes nothing |
| `CbcStream.BlockReader.constructor` | src/internal/encrypt/decrypt.go:101-113 | what is left to read is what the ciphertext opens to |
| `CbcStream.BlockReader.ReadFull` | src/internal/encrypt/decrypt.go:132-163 | a whole block, or nothing with a shorter rest used up |
| `CbcStream.BlockReader.Refill` | src/internal/encrypt/decrypt.go:132-163 | what is left to read stays the same; bad padding is reported only when that is what is left |
| `CbcStream.BlockReader.Advance` | src/internal/encrypt/decrypt.go:101-113 | refilling until there is plaintext or the end keeps what is left to read |
| `CbcStream.BlockReader.Copy` | src/internal/encrypt/decrypt.go:101-113 | hands out the next bytes and keeps the rest |
| `CbcStream.BlockReader.Read` | src/internal/encrypt/decrypt.go:101-113 | hands out the next bytes, never none for a non-empty buffer; end of file exactly at the end, an error exactly on bad padding |
| `CbcStream.SealChunks` | src/supported/encrypt/backend/openssl.go:39-90 | the ciphertext depends on the concatenation of the chunks only |
| `CbcStream.OpenAll` | src/internal/encrypt/decrypt.go:101-163 | reading to the end with any buffer sizes gives what the ciphertext opens to |
| `CbcStream.ReadAll` | src/internal/encrypt/decrypt.go:101-113 | the same from any state of the reader |
| `CbcStream.Transfer` | src/internal/encrypt/decrypt.go:101-163 | any plaintext, any chunks written, any buffers read: exactly the plaintext, then the end |
| `SqlLexer.StmtSplitter.constructor` | src/internal/database/engine/mysql/ops.go:358-360 | empty buffer, delimiter `;`, outside quotes and comments |
| `SqlLexer.StmtSplitter.ScanTurn` | src/internal/database/engine/mysql/ops.go:389-443 | one turn over the five flags, at most one of them set, is one move of a six-mode automaton |
| `SqlLexer.StmtSplitter.ScanLine` | src/internal/database/engine/mysql/ops.go:389-443 | scanning a line runs the automaton over it |
| `SqlLexer.StmtSplitter.Flush` | src/internal/database/engine/mysql/ops.go:342-352 | empties the buffer and returns it trimmed, without a final delimiter |
| `SqlLexer.StmtSplitter.Push` | src/internal/database/engine/mysql/ops.go:362-387 | a line changes the splitter and yields statements as the value-level splitter does, DELIMITER lines and blank lines included |
| `SqlStatements.FeedStatement` | src/internal/database/engine/mysql/ops.go:362-387 | lines of which only the last ends a statement, none of them a DELIMITER line outside quotes, come out as one statement and leave the splitter ready |
| `SqlStatements.FeedConcat` | src/internal/database/engine/mysql/ops.go:144-172 | feeding lines in two goes is feeding them in one |
| `SqlStatements.TracedModes` | src/internal/database/engine/mysql/ops.go:389-443 | a text whose newlines all fall inside quotes is outside quotes only at its end |
| `SqlStatements.GrowingText` | src/internal/database/engine/mysql/ops.go:331-387 | no line before the last of such a text ends a statement, whatever the quoted parts hold |
| `SqlEscape.PassesAreOneSubstitution` | src/internal/database/engine/mysql/mysql.go:372-385 | the replacement passes one after the other equal one substitution per character |
| `SqlEscape.LiteralRoundTrip` | src/internal/database/engine/mysql/mysql.go:372-385 | reading an escaped literal by the rules of section 9.1.1 of the MySQL 8.0 Reference Manual gives the value and leaves what follows |
| `SqlEscape.EscapedOnOneLine` | src/internal/database/engine/mysql/mysql.go:372-385 | an escaped value has no newline |
| `SqlEscape.TraceLiteral` | src/internal/database/engine/mysql/ops.go:389-443 | the splitter is after a literal in the mode it was in before, whatever its value |
| `SqlEscape.TraceIdent` | src/internal/database/engine/mysql/mysql.go:700-702 | so it is after a quoted name, with backticks and newlines in it or not |
| `SqlDump.FormatRow` | src/internal/database/engine/mysql/mysql.go:863-898 | the loop over the values prints the row |
| `SqlDump.AddRow` | src/internal/database/engine/mysql/mysql.go:847-898 | the buffer becomes the statement of the batch with the row added |
| `SqlDump.StreamRow` | src/internal/database/engine/mysql/mysql.go:846-904 | one turn of the loop adds the row to the buffer and writes the buffer out exactly when it has reached the limit |
| `SqlDump.StreamRows` | src/internal/database/engine/mysql/mysql.go:811-911 | the output is a sequence of INSERT batches that partition the rows in order; each batch ends with the first row that reaches the limit, and only the last may stop below it |
| `SqlDump.TraceRow` | src/internal/database/engine/mysql/mysql.go:863-898 | a printed row leaves the splitter outside quotes and comments |
| `SqlDump.TraceHead` | src/internal/database/engine/mysql/mysql.go:832-836 | so does the head of a batch, whatever the table and columns are called |
| `SqlDump.BatchGrows` | src/internal/database/engine/mysql/ops.go:331-387 | no line of a batch before the one with the semicolon ends a statement |
| `SqlDump.FeedBatch` | src/internal/database/engine/mysql/ops.go:331-443 | the splitter returns a batch as one statement, its text without the semicolon |
| `SqlDump.DumpSplits` | src/internal/database/engine/mysql/ops.go:144-172 | read line by line, any dump of any batches is exactly one statement per batch, and the splitter ends as it began |
| `SqlDump.SplitLines` | src/internal/database/engine/mysql/ops.go:144-172 | the restore loop pushes line after line, collects the statements, and at the end flushes what is left |
| `SqlDump.DumpAndSplit` | src/internal/database/engine/mysql/mysql.go:811-911 | dumping, reading lines and splitting gives one statement per batch of a partition of the rows |
| `SqlReadBack.ValueReads` | src/internal/database/engine/mysql/mysql.go:868-896 | a printed value is read back as the value, except an empty blob in hexadecimal, which cannot be read |
| `SqlReadBack.RowReads` | src/internal/database/engine/mysql/mysql.go:863-898 | a printed row is read back exactly when it has no such blob |
| `SqlReadBack.BodyReads` | src/internal/database/engine/mysql/mysql.go:846-904 | so are the rows of a statement |
| `SqlReadBack.BatchesRead` | src/internal/database/engine/mysql/mysql.go:811-911 | however the rows were batched, the statements hold exactly the rows, in order |
| `SqlReadBack.DumpAndRead` | src/internal/database/engine/mysql/mysql.go:811-911 | dump, split and read give back the rows if and only if no empty blob went out in hexadecimal |
| `SqlReadBack.EmptyBlobIsLost` | src/internal/database/engine/mysql/mysql.go:874-874 | a row that is one empty blob goes out as `(0x)` and cannot be read |
| `SqlRoutines.FrameLines` | src/internal/database/engine/mysql/mysql.go:223-280 | the lines of a DELIMITER frame are the command, the definition's lines with the delimiter, and the command back |
| `SqlRoutines.DelimiterCommand` | src/internal/database/engine/mysql/ops.go:362-372 | between statements a DELIMITER line changes the delimiter and nothing else |
| `SqlRoutines.DotlessCommand` | src/internal/database/engine/mysql/ops.go:362-372 | the command is recognised in upper case and cut by ten bytes, so written with dotless i it leaves the end of its own word in the delimiter |
| `SqlRoutines.BodyComesBack` | src/internal/database/engine/mysql/ops.go:362-387 | between the two DELIMITER commands a definition comes back whole if and only if no line but the last ends a statement, no line is a DELIMITER command outside quotes and block comments, and the end is outside them |
| `SqlRoutines.FrameRoundTrip` | src/internal/database/engine/mysql/mysql.go:336-351 | the whole frame the dumper writes for a definition, trimmed and without its last semicolon, yields that definition alone and leaves the splitter in its ordinary state if and only if the same holds of it |
| `SqlRoutines.DelimiterLineCuts` | src/internal/database/engine/mysql/ops.go:362-372 | a definition with a DELIMITER line outside quotes does not come back |
| `SqlRoutines.EndingLineCuts` | src/internal/database/engine/mysql/ops.go:331-340 | nor does one with a line that ends in two semicolons and leaves the splitter outside quotes and block comments |
| `SqlRoutines.CommentCuts` | src/internal/database/engine/mysql/ops.go:374-387 | as a comment line ending in two semicolons does |
| `SqlRoutines.DelimiterColumnCuts` | src/internal/database/engine/mysql/ops.go:362-372 | and a line that starts with a column called `delimiter` is a DELIMITER line |
| `SqlRoutines.SelectedDelimiter` | src/internal/database/engine/mysql/ops.go:362-372 | so a procedure that selects such a column does not come back |
| `SqlRoutines.CommentLine` | src/internal/database/engine/mysql/ops.go:374-387 | a comment line joins the next statement, unless it ends in a semicolon: then it is a statement of its own |
| `SqlRewrite.InsertHeaderEnd` | src/internal/database/engine/mysql/ops.go:174-189 | the first place where the upper-cased statement has VALUES as a word, or none |
| `SqlRewrite.IsInsertStmt` | src/internal/database/engine/mysql/ops.go:191-214 | the loop over blanks and comments decides whether an INSERT follows them |
| `SqlRewrite.InsertRecognised` | src/internal/database/engine/mysql/ops.go:191-214 | text starting with the word INSERT is recognised |
| `SqlRewrite.CommentSkipped` | src/internal/database/engine/mysql/ops.go:191-214 | a line comment before a statement does not change the answer |
| `SqlRewrite.RewriteStatement` | src/internal/database/engine/mysql/ops.go:251-283 | edits the head of an INSERT only and the whole of any other statement; a cut past the end of the text is a panic |
| `SqlRewrite.FoundByKeyword` | src/internal/database/engine/mysql/ops.go:174-189 | a VALUES keyword is found, at a place no greater than the length of the upper-cased head before the real one |
| `SqlRewrite.ValuesSurvive` | src/internal/database/engine/mysql/ops.go:251-283 | an INSERT with an ASCII head keeps everything from the real VALUES on, whatever the edit does and whatever the values are |
| `SqlRewrite.CutDecides` | src/internal/database/engine/mysql/ops.go:251-283 | with the cut at any place: the program panics if and only if the cut is past the end, `edit` is given exactly the text before the cut, and the values survive every `edit` if and only if the cut is in the head |
| `SqlRewrite.CutAtUpperHead` | src/internal/database/engine/mysql/ops.go:174-189 | with no VALUES earlier the cut falls where upper-casing puts the end of the head |
| `SqlRewrite.LengthDecides` | src/internal/database/engine/mysql/ops.go:251-283 | so with any head and no earlier VALUES the program panics if and only if the upper-cased head is longer than the whole statement, the values survive every `edit` if and only if it is no longer than the head, and the result is then the edited head followed by the rest |
| `SqlRewrite.TurnedUpperLaw` | src/internal/database/engine/mysql/ops.go:174-189 | upper-casing of texts made of ASCII and the letter U+0250 obeys the law assumed of upper-casing |
| `SqlRewrite.LongNamePanics` | src/internal/database/engine/mysql/ops.go:251-283 | for a table named by n such letters, which take a byte more in upper case, the program panics if and only if n is more than the number of bytes from VALUES on |
| `SqlRewrite.OneRowPanics` | src/internal/database/engine/mysql/ops.go:251-283 | so it does for one row of one number in a table whose name has 64 of them |
| `KeyedMerge.MergeLookup` | src/internal/database/engine/influx/restore_physical.go:232-272 | looking a key up in a list merge gives both items combined or whichever there is, and keys stay unique |
| `InfluxMerge.MergeShardLists` | src/internal/database/engine/influx/restore_physical.go:257-269 | the innermost loop is the list merge in which the later shard wins |
| `InfluxMerge.MergeGroupLists` | src/internal/database/engine/influx/restore_physical.go:245-270 | the middle loop is the list merge of groups |
| `InfluxMerge.MergeBucket` | src/internal/database/engine/influx/restore_physical.go:232-272 | the three nested loops are nested list merges |
| `InfluxMerge.FindIndex` | src/internal/database/engine/influx/restore_physical.go:235-240 | the search finds the first item with the key |
| `InfluxMerge.AddBucket` | src/internal/database/engine/influx/restore_physical.go:296-307 | map and order list together hold the merged bucket list after one more bucket |
| `InfluxMerge.AddManifest` | src/internal/database/engine/influx/restore_physical.go:286-308 | and after one more manifest |
| `InfluxMerge.MergeSets` | src/internal/database/engine/influx/restore_physical.go:279-321 | the merge of all manifests; an error for none, and for the first one of another version |
| `InfluxMerge.ManifestMerge` | src/internal/database/engine/influx/restore_physical.go:232-272 | merging two manifests overrides, path by path, one map of shards by the other, and unites the groups |
| `InfluxMerge.ManifestMergeGood` | src/internal/database/engine/influx/restore_physical.go:232-272 | and keeps keys unique at every level |
| `InfluxMerge.LastManifestWins` | src/internal/database/engine/influx/restore_physical.go:279-321 | for every path the merge of any number of manifests has the entry of the last one that holds it, and nothing else |
| `InfluxMerge.GroupsSurvive` | src/internal/database/engine/influx/restore_physical.go:279-321 | no group is dropped |
| `InfluxMerge.KeysTellBucketsApart` | src/internal/database/engine/influx/restore_physical.go:297-297 | bucket keys tell buckets apart when organisations have no slash in their names |
| `InfluxMerge.SharedKeys` | src/internal/database/engine/influx/restore_physical.go:297-297 | two organisations' buckets share a key if and only if one organisation's name continues past a slash into the other bucket's name |
| `InfluxTar.IndexTar` | src/internal/database/engine/influx/restore_physical.go:31-80 | after a tar its names point to it and the others where they did |
| `InfluxTar.IndexTars` | src/internal/database/engine/influx/restore_physical.go:31-80 | every name points to the last tar that has it |
| `InfluxTar.ReadFiles` | src/internal/database/engine/influx/restore_physical.go:84-100 | each name's bytes are those of its first file in that tar |
| `InfluxTar.MergeTars` | src/internal/database/engine/influx/restore_physical.go:31-105 | manifest and files of the merged tar, each name's file from the last tar that has it, or the manifest error |
| `InfluxTar.ShardFileExactly` | src/internal/database/engine/influx/restore_physical.go:31-105 | a shard's file is in the merged tar, and is the one of the last backup with the shard if and only if no later tar has a file of that name |
| `InfluxTar.ShardFilesSurvive` | src/internal/database/engine/influx/restore_physical.go:31-105 | every shard of the merged manifest names a file of the merged tar, from the last backup that has the shard |
| `InfluxTar.FileNamesTellApart` | src/internal/database/engine/influx/physical.go:506-512 | a shard's file name, compressed or not, determines the backup, the shard and the compression |
| `InfluxTar.FileMeansShard` | src/internal/database/engine/influx/physical.go:506-512 | a tar that has only its own manifest's shard files has a file named after a shard only if it has the shard |
| `InfluxTar.NamesAreOwn` | src/internal/database/engine/influx/physical.go:506-512 | so with the names backups give, each shard compressed or not, no later tar replaces the file of a shard it does not have |
| `InfluxSlices.DownloadGroup` | src/internal/database/engine/influx/physical.go:440-472 | a skipped group is recorded without shards, any other with the shards that did not return 404 |
| `InfluxSlices.DownloadPolicy` | src/internal/database/engine/influx/physical.go:428-475 | all groups of a policy, and how many were skipped |
| `InfluxSlices.DownloadBucket` | src/internal/database/engine/influx/physical.go:417-477 | all policies of a bucket |
| `InfluxSlices.BackupHolds` | src/internal/database/engine/influx/physical.go:446-472 | a backup holds a shard of the server if and only if it did not return 404 and its group is not skipped: it ends at or before since minus the overlap, or starts after the upper bound |
| `InfluxSlices.BackupGood` | src/internal/database/engine/influx/physical.go:417-477 | a backup keeps keys unique, whichever shards return 404 |
| `InfluxSlices.MergedContent` | src/internal/database/engine/influx/physical.go:417-477 | whatever the ranges and whichever shards return 404 to which backup, the merged tar has for every shard the bytes of the last backup that downloaded it, and nothing for a shard none did |
| `InfluxSlices.ChainExactly` | src/internal/database/engine/influx/physical.go:417-477 | so for a whole chain the merge is right about a shard if and only if its last download had the bytes the server has at the end; a shard that is gone by then is right if and only if no backup downloaded it |
| `InfluxSlices.OneSliceExactly` | src/internal/database/engine/influx/physical.go:446-472 | after a full backup and one slice: if and only if the bytes are unchanged or the slice downloaded the shard |
| `InfluxSlices.SlicesEqualFull` | src/internal/database/engine/influx/physical.go:417-477 | a full backup and any number of slices, each covering the changes before it, merge to the bytes of a fresh full backup |
| `InfluxSlices.MergeChain` | src/internal/database/engine/influx/restore_physical.go:31-105 | merging the tars of such a chain gives every shard the bytes the server had when the last backup was taken |
| `InfluxSlices.TimelyChangesAreCovered` | src/internal/database/engine/influx/physical.go:260-279 | a slice that starts no later than the previous backup ended covers changes that fall in its groups no earlier than the overlap before that end |
| `ViewOrder.BuildNeeds` | src/internal/database/engine/mssql/mssql.go:305-320 | the needs of a view are its dependencies among the listed views, other than itself |
| `ViewOrder.Pass` | src/internal/database/engine/mssql/mssql.go:324-341 | a pass appends only views whose needs are listed, and without progress no other view is ready |
| `ViewOrder.Rest` | src/internal/database/engine/mssql/mssql.go:342-350 | the remaining views follow |
| `ViewOrder.OrderViews` | src/internal/database/engine/mssql/mssql.go:305-353 | ends, returns a permutation, and a place is in the ordered part if and only if no cycle can be reached from its view |
| `ViewOrder.GroundedIsAcyclic` | src/internal/database/engine/mssql/mssql.go:305-353 | no cycle can be reached from a view that has all it needs before it |
| `ViewOrder.StuckReachesCycle` | src/internal/database/engine/mssql/mssql.go:305-353 | from each of a set of views that all need one another's a cycle can be reached |
| `ViewOrder.Boundary` | src/internal/database/engine/mssql/mssql.go:323-353 | where a pass makes no progress is where the cycles begin |
| `ViewOrder.AcyclicOrder` | src/internal/database/engine/mssql/mssql.go:305-353 | without cycles every view follows all it needs |
| `Multipart.PartsTile` | src/internal/storage/s3.go:756-760 | the parts are non-empty, start where the one before ended, cover the object exactly and number at most 10000 |
| `Multipart.PartsJoin` | src/internal/storage/s3.go:811-816 | the parts' bytes put together are the object |
| `Multipart.NoneLostStep` | src/internal/storage/s3.go:805-854 | until an error every fed part is queued, with a worker, or stored with its own ETag, after every step |
| `Multipart.StepKeepsInv` | src/internal/storage/s3.go:754-871 | every step of feeder, workers, cancellation and completion keeps the invariant |
| `Multipart.RunsKeepInv` | src/internal/storage/s3.go:754-871 | it holds in every reachable state |
| `Multipart.CompletedIsRight` | src/internal/storage/s3.go:350-400 | an accepted completion lists parts 1 to n in order, each with the ETag returned for its own bytes |
| `Multipart.ErrorsAbort` | src/internal/storage/s3.go:774-871 | after an error no run is completed or about to be, and one that has ended has aborted |
| `Multipart.SomeStepEnabled` | src/internal/storage/s3.go:805-871 | until completed or aborted something other than a cancellation can happen |
| `Multipart.StepsRunOut` | src/internal/storage/s3.go:805-871 | every step decreases a measure, so every run ends |
| `AnchoredGrid.AdjustedRem` | src/internal/scheduler/cron.go:186-209 | the truncated remainder, adjusted when negative, is the distance back to the last slot |
| `AnchoredGrid.NextOnGrid` | src/internal/scheduler/cron.go:186-209 | a step minus that is the distance to the next slot of the grid, with none in between |
| `AnchoredGrid.NextAnchoredDuration` | src/internal/scheduler/cron.go:186-209 | the distance, in (0, step], to the least slot of any anchor strictly after now |
| `AnchoredGrid.CountSlot` | src/internal/scheduler/cron.go:226-235 | a slot is counted once however many anchors share it, and the first three are kept |
| `AnchoredGrid.FirstSlot` | src/internal/scheduler/cron.go:220-226 | the first slot of a grid after the previous run |
| `AnchoredGrid.CountFrom` | src/internal/scheduler/cron.go:226-235 | the inner loop counts exactly one anchor's slots before the end |
| `AnchoredGrid.CountGrid` | src/internal/scheduler/cron.go:219-236 | counts exactly one anchor's slots, from the first one after the previous run on |
| `AnchoredGrid.MissedGridPoints` | src/internal/scheduler/cron.go:211-238 | the number of distinct slots strictly between previous run and end, with up to three of them |
| `AnchoredGrid.SameGrid` | src/internal/scheduler/cron.go:186-238 | for one anchor two days' grids are the same if and only if the step divides the time between the days' starts |
| `AnchoredGrid.SameSlots` | src/internal/scheduler/cron.go:186-238 | for any list of anchors two days have the same slots if and only if moving the anchors' places in the step by that time lands each on one of them |
| `AnchoredGrid.DividingStepCloses` | src/internal/scheduler/cron.go:186-238 | a step that divides the time between the days' starts qualifies for every list |
| `AnchoredGrid.EvenAnchors` | src/internal/scheduler/cron.go:186-238 | and it need not divide: 00:00 and 08:00 every sixteen hours have the same slots every day |
| `AnchoredGrid.WholeDaySteps` | src/internal/scheduler/cron.go:186-238 | a step that divides a day divides the time between any two days' starts |
| `AnchoredGrid.SameWindow` | src/internal/scheduler/cron.go:211-238 | then the previous run's day and today have the same slots in every window |
| `AnchoredGrid.ReportMissed` | src/internal/scheduler/jobs.go:202-204 | the wait is to today's next slot; when the two days share their slots the number reported is that of today's slots strictly between the previous run and the next, all of them past or due now |
| `AnchoredGrid.NextListed` | src/internal/config/schedule.go:309-321 | the least instant strictly after now at which a listed clock time comes round, or nothing for an empty list |
| `Cron.MatchersAgree` | src/internal/config/schedule.go:451-490 | the two recursive matchers, each as its own file writes it: on every field and value the scheduler's says yes if and only if the configuration's does and the field has no quote |
| `Cron.AcceptedIsMatchable` | src/internal/config/schedule.go:149-217 | every accepted field is matched by a value in range, in both matchers |
| `Cron.AcceptedAgree` | src/internal/config/schedule.go:451-490 | on accepted fields the matchers agree |
| `Cron.FirstDue` | src/internal/scheduler/cron.go:77-86 | the search loop finds the least due minute mark strictly after now, or 0 if and only if none is within the horizon |
| `Cron.NextCronAt` | src/internal/scheduler/cron.go:77-86 | the distance to the least matching minute mark strictly after now, 0 if and only if none of the next 525600 matches, and at most a week for an accepted expression with any date |
| `Cron.MinuteInWeek` | src/internal/scheduler/cron.go:16-26 | within a week there is a minute for every weekday, hour and minute of the hour |
| `Cron.FiresWithinAWeek` | src/internal/config/schedule.go:131-147 | an accepted expression with day and month free fires within seven days of any instant |
| `CronFields.AtomMeaning` | src/internal/config/schedule.go:177-217 | a written value, range or step matches exactly the numbers it stands for, and is accepted if and only if in bounds |
| `CronFields.SplitJoin` | src/internal/scheduler/cron.go:35-42 | splitting at commas undoes joining with them |
| `CronFields.FieldMeaning` | src/internal/scheduler/cron.go:28-71 | a written list matches a value, in either matcher, if and only if one of its atoms stands for it |
| `CronFields.FieldAccepted` | src/internal/config/schedule.go:149-175 | a written list is accepted if and only if every atom is in bounds |
| `Includes.MergeYAML` | src/internal/config/include.go:142-181 | in whatever order the keys come, the result is the merge of the documents |
| `Includes.MergedKey` | src/internal/config/include.go:142-181 | merging keeps every key of both documents |
| `Includes.MergedAt` | src/internal/config/include.go:142-181 | at every path the merge has both values met, lists joined and otherwise the later one, unless the later document has something other than a mapping on the way |
| `Includes.Loader.constructor` | src/internal/config/include.go:20-30 | no file is under way at first |
| `Includes.Loader.ExpandIncludes` | src/internal/config/include.go:31-79 | ends on every include graph with the expansion or a circular include, and leaves the files under way as they were |
| `Includes.ExpandedIsAcyclic` | src/internal/config/include.go:31-79 | no walk along includes from a file that expands meets a file under way or repeats one |
| `Includes.ReportedHasWalk` | src/internal/config/include.go:31-79 | a reported file has a walk to a file under way or to one the walk has been to |
| `Includes.CircularIffCycle` | src/internal/config/include.go:31-79 | a configuration is reported as circular if and only if a cycle can be reached from it |
| `Includes.SameEverywhere` | src/internal/config/include.go:31-79 | a file contributes the same document wherever it is included, so diamonds are accepted |
| `Includes.KeysKept` | src/internal/config/include.go:31-79 | the expanded document has exactly the keys of the files read, `include` aside |
| `Includes.AssociatesExactly` | src/internal/config/include.go:142-181 | merging three values in order comes to the same both ways if and only if, key by key down to what is not a mapping in all three, the last would not join the first past one between that replaces it, or the first adds nothing to it |
| `Includes.MergeAssociates` | src/internal/config/include.go:142-181 | so merging is associative on values that agree on what is a mapping, a list or a scalar |
| `IncludeNesting.TermLeaves` | src/internal/config/include.go:31-79 | the includes as nested groups hold the files' own documents in reading order |
| `IncludeNesting.TermMeaning` | src/internal/config/include.go:31-79 | merging group by group makes the expanded document |
| `IncludeNesting.SameExactly` | src/internal/config/include.go:142-181 | grouped merging gives what merging the last values one after the other gives if and only if, at every path, nothing but empty lists is carried into a list past a value that replaced it |
| `IncludeNesting.ExpandIsFlatExactly` | src/internal/config/include.go:31-79 | so expanding an include graph is merging its files flat in reading order under exactly that condition |
| `IncludeNesting.ExpandIsFlat` | src/internal/config/include.go:31-79 | in particular when no two files disagree on what is a mapping, a list or a scalar |
| `IncludeNesting.NestingMatters` | src/internal/config/include.go:31-79 | three files in a row that say a list, a scalar and a list expand to the two lists joined, where the flat merge has only the last |
| `IncludeNesting.ExpandedAt` | src/internal/config/include.go:31-79 | at every path the expanded configuration has the kind of the last live value there: that very scalar, the live lists joined, or a mapping; and nothing where nothing live is said |
| `IncludeNesting.ExpandedKey` | src/internal/config/include.go:31-79 | the same at a top-level key, where the values are all that the files say, in reading order |
| `IncludeNesting.LaterScalarWins` | src/internal/config/include.go:142-181 | a scalar that the last file to set a key has there is what the expanded configuration has, whatever the other files say |
| `IncludeNesting.ListsAreJoined` | src/internal/config/include.go:142-181 | a key at which the files read have lists only gets these joined in reading order, once for each time a file is included |

## Left out

- BackupChain.PlanBackup: does not model the `full_after` reset, because the time it compares is kept in nanoseconds and read as seconds.
- BackupChain.RunsKeepInv: assumes one name prefix, the default filename template, sidecars always written, modification times that strictly increase, and backups and prunes that do not overlap.
- BackupChain.PruneKeepsInv: does not model archive moves, which select by age alone and ignore Base links.
- BackupChain.TornPrune: says what the backups left after one prune restore to; runs do not go on from a store in which an increment has lost its sidecar.
- Retention.ApplyRetentionAt: requires distinct file names, as a storage listing has; the order of entries with equal timestamps is left to the sort.
- CbcStream.BlockReader.Read: does not model read errors other than a short last block; a fragment at the end is ignored, as in the code.
- SqlLexer.StmtSplitter.Push: scans characters, where the program scans bytes; every byte it looks for is ASCII, and the DELIMITER command is cut off by bytes as in the program.
- SqlReadBack.ValueReads: leaves the text of numbers uninterpreted.
- SqlRewrite.RewriteStatement: takes upper-casing and the regular expressions as functions; upper-casing is known only on ASCII parts.
- InfluxMerge.MergeBucket: works on values; the aliasing of nested slices in place is not captured.
- InfluxMerge.MergeSets: does not model the sorted list of file names, which orders the merged tar's entries.
- InfluxTar.MergeTars: takes a tar as one manifest and its regular files by base name.
- InfluxSlices.SlicesEqualFull: a slice does not cover a shard that goes away after an earlier backup had it, whose old bytes the merge keeps; `ChainExactly` has that case.
- ViewOrder.OrderViews: requires distinct names, without which the loop of passes need not end.
- Multipart.StepKeepsInv: starts after the upload was created and the spool opened, and assumes that a completion fails under a cancelled context.
- AnchoredGrid.NextListed: on a clock without time-zone shifts, as all of `AnchoredGrid` and `Cron`.
- Cron.NextCronAt: takes the day of the month and the month as functions of the minute, so nothing is said about expressions that name a date the calendar lacks or has only in leap years.
- Cron.FiresWithinAWeek: takes the expression already split at blanks.
- Includes.MergeYAML: works on values and does not model the origins kept for override warnings.
- Includes.Loader.ExpandIncludes: takes files as parsed, with includes resolved and readable; parse and read errors and globbing are not modelled.
- MSSQL row batching and GO splitting, and InfluxDB line-protocol escaping.
- Real codecs and cryptography, key derivation, request signing and TLS.
- HTTP retries, database drivers, logging, hooks, prompts and command-line parsing.
- License parsing, statistics, notices and version comparison: easy or dependent on outside services.
- Configuration profiles and symbolic file modes: long, branch by branch, without a deep property.
