# Verification of the automation backend

This project models the step-level logic of a database tool's server in Dafny and proves what that logic
keeps. One module stands for one source file or protocol.

| module | models |
|---|---|
| `Chars`, `Wrappers` | white space, trimming, UTF-8 lengths; `Option` and `Result` |
| `SqlSplit`, `SqlSplitTokens`, `SqlSplitTheorems`, `SqlSplitText`, `SqlSplitStability`, `SqlSplitBlocks` | the MySQL script splitter |
| `SqlDigest`, `SqlLiteral` | digest normalisation of SQL, and the string-literal printer against both lexers |
| `RowPump`, `RowPumpProgress`, `MongoCursor` | the streaming row pump and the cursor that feeds it |
| `PsDigest`, `RedisSlowlog` | collectors that turn server counters and slow logs into stored samples |
| `TxnStore` | the transaction session store, as interleaved atomic steps |
| `DdlExecutor`, `Approval` | running an approved DDL script; the approval table with its two doors to execution |
| `RateLimit` | the sliding-window limiter of the telemetry endpoint |
| `Bson` | JSON commands to BSON and back |
| `Metadata` | grouping catalogue rows into indexes and foreign keys |
| `DefaultParens` | taking the wrapping parentheses off SQL Server defaults |

Loops and updates in place are methods and classes proved against specification functions; the lemmas are
about those functions. Protocols are state machines: one function makes one atomic step, every run is any
sequence of steps, and the class methods are proved to make exactly such steps. Outside input (server
answers, failing writes, the moment a task is scheduled, steps of other tasks) comes in as parameters, so a
theorem over all runs is a theorem over all of these.

## What the proofs found

Where code and comments disagree, the model follows the code.

- Comment-only fragments are returned as statements, against lines 17 and 25 of
  `crates/automation/src/sql_split.rs` (`SqlSplitText.CommentIsReturned`). With the DDL test this refuses every
  script that opens with a comment (`DdlExecutor.CommentFirstIsRefused`).
- A delimiter outside ASCII eats script text, because its length is counted in bytes
  (`SqlSplitText.NonAsciiDelimiterEatsText`); `SqlSplitText.SplitLosesNothing` gives the exact condition.
- Nesting of BEGIN and END is real, although a test in `sql_split.rs` is named for the opposite.
- BEGIN opens a block wherever the word ends, even at the end of an identifier: only what follows it is looked at,
  against lines 120-124 of `sql_split.rs` (`SqlSplitTokens.BeginIsAWord`, `DdlExecutor.DmlRidesInAnOpenBlock`).
- `row_limit` 0 still takes one row (`RowPump.LimitIsKeptUnlessZero`).
- A digest key does not always give its schema back (`PsDigest.SchemaRecovered`), and an absent and an empty
  schema share a key (`PsDigest.KeysAreDistinct`).
- If inserts succeed and the snapshot write fails, executions are stored twice
  (`PsDigest.UnsavedSnapshotsOvercount`). `PsDigest.UnsavedOvercountsExactly` says when such a collection can do
  harm; while every collection that stores something of a key saves its snapshot, the key is never overcounted.
- A slow-log entry of Redis is stored twice when the write of the mark fails or its read does
  (`RedisSlowlog.LostMarksRepeat`). `RedisSlowlog.FetchCanBeRepeated` and `RedisSlowlog.SafeHistoriesExactly` give
  the exact conditions.
- Emitted milliseconds telescope only when no time passes without an execution (`PsDigest.CountersTelescope`).
- Rejecting an approval has no guard: a claimed one still runs and its completion overwrites the rejection
  (`Approval.RejectedMayStillRun`). `Approval.RejectedRunsExactlyWhen` gives the exact condition.
- `execute_write` of the agent tools can execute exactly the rows that were approved and unexecuted when the
  server started; a row approved through the approver's door has been executed by that approval
  (`Approval.AgentExecutesOnlyOldApprovals`).
- A block that is opened and never closed takes the rest of the script into one statement, so DML reaches the
  target behind a DDL keyword (`DdlExecutor.DmlRidesInAnOpenBlock`); without a BEGIN no terminator stands inside
  an accepted statement (`DdlExecutor.AcceptedStatementsStand`).
- An approval whose job is lost, as in a restart, stays executing for good (`Approval.LostJobIsNeverTakenUp`).
- The executor's own comment speaks of a transaction around all statements; the code sends them one by one and
  stops at the first error.
- The limiter's comment says that a poisoned lock rejects; the code goes on with the recovered map.
- `{$date: <number>}` and integers above the `i64` range come back from a round trip in another form, and
  extended scalars directly inside arrays are not decoded (`Bson.JsonRoundTrip`, `Bson.ItemRoundTrip`).
- Parentheses inside a string, a quoted or bracketed identifier or a comment can mislead the stripping of
  defaults, both ways (`DefaultParens.HiddenParensMislead`). A wrapping layer comes off exactly when what it wraps
  is balanced with these counted (`DefaultParens.LayerComesOffExactly`), and `DefaultParens.StripIsRightExactly`
  gives the exact condition over all layers.

## Model

| member | source | states |
|---|---|---|
| `SqlSplit.SplitSqlScript` | crates/automation/src/sql_split.rs:27-190 | the one-pass loop returns exactly the statements of the token-level reading, for every script |
| `SqlSplit.StepInQuote` | crates/automation/src/sql_split.rs:41-54 | one step inside quotes keeps what remains to be read |
| `SqlSplit.StepInCode` | crates/automation/src/sql_split.rs:56-181 | one step outside quotes consumes one token and keeps what remains to be read |
| `SqlSplit.ReadToken` | crates/automation/src/sql_split.rs:58-178 | the branch taken is the token the lexer defines at this place |
| `SqlSplit.ReadDirective` | crates/automation/src/sql_split.rs:96-118 | a DELIMITER line is consumed up to its end and names the trimmed rest as delimiter |
| `SqlSplit.CopyLine` | crates/automation/src/sql_split.rs:59-67 | a line comment is copied up to and without the newline |
| `SqlSplit.CopyBlockComment` | crates/automation/src/sql_split.rs:69-83 | a block comment is copied to its close, or to the end of input |
| `SqlSplit.EndClosesBlock` | crates/automation/src/sql_split.rs:161-178 | END closes a block only before a terminator on its line or at the end of input |
| `SqlSplit.BlankTracksBuffer` | crates/automation/src/sql_split.rs:96-156 | the lexer's blank flag is the test on the buffer, and an open block implies a non-blank buffer |
| `SqlSplitTokens.EndClosesExactly` | crates/automation/src/sql_split.rs:158-178 | in an open block, END in any letter case closes it if and only if only blanks on its line stand between it and the terminator or the end of input |
| `SqlSplitTokens.BeginIsAWord` | crates/automation/src/sql_split.rs:120-130 | BEGIN in any letter case opens a block if and only if the word ends there; what stands before it does not matter |
| `SqlSplitTokens.DirectiveIsAWord` | crates/automation/src/sql_split.rs:95-103 | DELIMITER is a directive if and only if only blanks were read before it and the word ends there |
| `SqlSplitTokens.DirectiveNames` | crates/automation/src/sql_split.rs:96-118 | a DELIMITER line is dropped and its trimmed rest becomes the delimiter, unless it is empty |
| `SqlSplitTokens.KeywordIsAWord` | crates/automation/src/sql_split.rs:214-235 | a keyword is recognised if and only if no letter, digit or underscore follows |
| `SqlSplitTokens.DashCommentsExactly` | crates/automation/src/sql_split.rs:195-209 | two dashes begin a comment if and only if white space or the end of input follows |
| `SqlSplitTokens.HashCommentText` | crates/automation/src/sql_split.rs:58-67 | a hash comment reaches to the end of its line |
| `SqlSplitTokens.DashCommentText` | crates/automation/src/sql_split.rs:58-67 | so does a dash comment |
| `SqlSplitTokens.BlockCommentText` | crates/automation/src/sql_split.rs:69-83 | a block comment reaches to its first end mark, or to the end of input |
| `SqlSplitTokens.QuotedText` | crates/automation/src/sql_split.rs:41-54 | a string or quoted identifier reaches to its first quote that no backslash hides |
| `SqlSplitTheorems.StatementEndsExactly` | crates/automation/src/sql_split.rs:120-178 | a statement ends exactly at a terminator of the delimiter in force, outside quotes and comments and all nesting |
| `SqlSplitTheorems.NoStatementEnds` | crates/automation/src/sql_split.rs:184-189 | without such a terminator the whole text is one last piece |
| `SqlSplitTheorems.SkipTokens` | crates/automation/src/sql_split.rs:120-178 | before its end, a statement keeps every token and its depth is BEGINs less closing ENDs |
| `SqlSplitText.SplitLosesNothing` | crates/automation/src/sql_split.rs:95-189 | segments, terminators and DELIMITER lines put together are the script if and only if every terminator has an ASCII delimiter, or is the last token and just as long as its delimiter |
| `SqlSplitText.TerminatorConsumes` | crates/automation/src/sql_split.rs:140-148 | a terminator consumes its own characters if and only if it is ASCII or ends the input |
| `SqlSplitText.AsciiScriptLosesNothing` | crates/automation/src/sql_split.rs:95-189 | scripts whose DELIMITER lines are ASCII lose nothing |
| `SqlSplitText.StatementsAreTrimmedBodies` | crates/automation/src/sql_split.rs:149-156 | statements are the trims of segments; none is empty, no non-blank segment is missing |
| `SqlSplitText.DirectivesDropBlanks` | crates/automation/src/sql_split.rs:114-117 | what a DELIMITER line clears from the buffer is blank |
| `SqlSplitText.CommentIsReturned` | crates/automation/src/sql_split.rs:58-67 | a script that is one line comment is returned as a statement |
| `SqlSplitText.NonAsciiDelimiterEatsText` | crates/automation/src/sql_split.rs:148 | a concrete script with a non-ASCII delimiter loses a character |
| `SqlSplitStability.SplitIsStable` | crates/automation/src/sql_split.rs:95-189 | without DELIMITER lines, splitting a returned statement again returns exactly that statement |
| `SqlSplitStability.InnerTerminatorsAreNested` | crates/automation/src/sql_split.rs:132-146 | a returned statement has a terminator inside if and only if one stands in an open block, and never without a BEGIN |
| `SqlSplitStability.HeadAgrees` | crates/automation/src/sql_split.rs:192-254 | trimming the tail changes no look-ahead except of a token that then takes all that is left |
| `SqlSplitStability.UncutAfterTrim` | crates/automation/src/sql_split.rs:132-156 | a trimmed segment holds no statement end |
| `SqlSplitStability.ReadBySegment` | crates/automation/src/sql_split.rs:147-156 | reading is the first segment followed by reading the rest |
| `SqlSplitBlocks.RoutineIsOneStatement` | crates/automation/src/sql_split.rs:120-178 | a routine whose inner ENDs are followed on their line by anything but the terminator, such as `END IF`, is split into exactly one statement |
| `SqlSplitBlocks.EndIfIsKept` | crates/automation/src/sql_split.rs:158-178 | a concrete routine with `END IF` and inner terminators comes back whole |
| `SqlSplitBlocks.OpenBlockTakesAll` | crates/automation/src/sql_split.rs:139-178 | an open block with no END after it takes all that follows |
| `SqlSplitBlocks.OpenBeginIsOneStatement` | crates/automation/src/sql_split.rs:139-189 | a script with a block it never closes, and no END after it, is one statement |
| `SqlDigest.NormalizeSql` | crates/automation/src/query_stats.rs:548-600 | the iterator loop computes the normalisation defined token by token |
| `SqlDigest.ReadToken` | crates/automation/src/query_stats.rs:551-598 | one turn consumes one token and appends its text |
| `SqlDigest.SkipString` | crates/automation/src/query_stats.rs:555-575 | a string literal ends at its first unescaped, undoubled quote |
| `SqlDigest.ConsumeNumberTail` | crates/automation/src/query_stats.rs:604-640 | decimal, hexadecimal and exponent tails are consumed, identifiers that begin with e are not |
| `SqlDigest.ConsumeExponent` | crates/automation/src/query_stats.rs:618-639 | an exponent is consumed only when a digit follows |
| `SqlDigest.NumberIsOnePlaceholder` | crates/automation/src/query_stats.rs:576-600 | a decimal number, with or without fraction and exponent, becomes one placeholder whatever follows that cannot belong to it |
| `SqlDigest.SignedNumberIsOnePlaceholder` | crates/automation/src/query_stats.rs:583-592 | so does a signed number, with its sign |
| `SqlDigest.HexIsOnePlaceholder` | crates/automation/src/query_stats.rs:604-615 | and a hexadecimal one, in either letter case of its mark |
| `SqlDigest.BlanksAreOneSpace` | crates/automation/src/query_stats.rs:593-597 | a run of white space becomes one space, or nothing where no space may stand |
| `SqlDigest.OthersAreKept` | crates/automation/src/query_stats.rs:598-599 | every other character is kept as it is |
| `SqlDigest.NormalizeDigest` | crates/automation/src/query_stats.rs:536-543 | the digest is the normalisation cut at 1000 characters and marked |
| `SqlDigest.NormIsNormal` | crates/automation/src/query_stats.rs:548-600 | no quote, no ASCII digit, no leading or double space, no other white space in the output |
| `SqlDigest.NormFixesExactlyNormalForms` | crates/automation/src/query_stats.rs:548-600 | normalising leaves a text unchanged if and only if it is in normal form |
| `SqlDigest.CutKeepsNormalForm` | crates/automation/src/query_stats.rs:690-698 | cutting and marking keeps the normal form |
| `SqlDigest.DigestIsNormalForm` | crates/automation/src/query_stats.rs:536-543 | a digest is in normal form, at most 1001 long, and is its own digest |
| `SqlDigest.DigestsExactly` | crates/automation/src/query_stats.rs:536-543 | exactly which texts are digests of something |
| `SqlDigest.DigestIsCutAt1000` | crates/automation/src/query_stats.rs:690-698 | a digest longer than 1000 characters is cut there and marked, a shorter one is not touched |
| `SqlLiteral.LiteralIsOnePlaceholder` | crates/automation/src/mysql_family.rs:381-383 | a printed literal is read as exactly one placeholder, whatever string it holds |
| `SqlLiteral.LiteralInContext` | crates/automation/src/mysql_family.rs:381-383 | in code, a literal adds one placeholder and leaves what is around it |
| `SqlLiteral.DigestHidesLiterals` | crates/automation/src/mysql_family.rs:381-383 | changing the string in a literal never changes the digest |
| `SqlLiteral.SplitterReadsLiteral` | crates/automation/src/sql_split.rs:41-54 | the splitter leaves its quote exactly at the literal's end |
| `SqlLiteral.LiteralHasNoBoundary` | crates/automation/src/sql_split.rs:41-54 | no statement boundary lies inside a printed literal |
| `SqlLiteral.EscapedCons` | crates/automation/src/mysql_family.rs:381-383 | the two successive replacements escape character by character |
| `SqlLiteral.LiteralMeansItsString` | crates/automation/src/mysql_family.rs:381-383 | read by the rules of MySQL strings, a printed literal means exactly the string it was printed from |
| `RowPump.StreamRows` | crates/automation/src/stream_query.rs:1130-1207 | the loop and its final flush are a run of the step machine, event for event and outcome for outcome |
| `RowPump.FlushRest` | crates/automation/src/stream_query.rs:1188-1206 | the final flush sends the pending meta and the last batch, and returns success however it ends |
| `RowPump.EveryRunIsSafe` | crates/automation/src/stream_query.rs:1130-1207 | in every schedule the data delivered is a prefix of the reference, the terminal is one and last, the buffer never exceeds a batch, and a complete flush delivers all with the right counts |
| `RowPump.EveryOutcomeIsEarned` | crates/automation/src/stream_query.rs:1147-1206 | over all schedules: Ok only when the rows reach the limit or the end of the source, an engine error only as the failure right after the rows taken, Cancelled and Timeout only by the last choice made while reading |
| `RowPump.FailuresAreReported` | crates/automation/src/stream_query.rs:1150-1180 | a failing row, a cancellation or a deadline met while reading is the outcome of the run, whatever follows |
| `RowPumpProgress.UndisturbedRunsDeliverAll` | crates/automation/src/stream_query.rs:1130-1207 | a run with no cancel, deadline or disconnect that ends has delivered all of the reference and returns Ok with its counts, or the failure among the rows asked for |
| `RowPumpProgress.EveryRunGetsThere` | crates/automation/src/stream_query.rs:1147-1205 | it does end, after at most two rounds for each item and three more, however rows and room in the channel alternate |
| `RowPumpProgress.TurnsComeCloser` | crates/automation/src/stream_query.rs:1147-1205 | no turn moves away from the end, and in every state a row or room in the channel moves towards it |
| `RowPump.ExpectedSays` | crates/automation/src/stream_query.rs:1171-1187 | the reference describes the first row's columns and types and carries the rows' own values |
| `RowPump.ChunksOf500` | crates/automation/src/stream_query.rs:42-44 | batches hold the rows in order, 500 each but for a shorter last one |
| `RowPump.RunKeeps` | crates/automation/src/stream_query.rs:1147-1205 | every choice of ready branch keeps the pump's invariant |
| `RowPump.TakenCounts` | crates/automation/src/stream_query.rs:1171-1177 | the rows taken are the first of those available, up to the limit |
| `RowPump.LimitIsKeptUnlessZero` | crates/automation/src/stream_query.rs:1171-1177 | the limit is kept for every limit but zero, which takes one row |
| `RowPump.RunStreamQuery` | crates/automation/src/stream_query.rs:165-204 | one terminal event after the data, Complete with the counts or Error with the very error returned; an engine error is a failure of the source, a cancellation or timeout one that happened |
| `RowPump.SendEager` | crates/automation/src/stream_query.rs:587-613 | the eager leg sends one meta and then the rows in batches; cancel and deadline end it with their error, and sends after a disconnect are lost |
| `RowPump.PumpRefinesEager` | crates/automation/src/stream_query.rs:1130-1207 | the pump's whole output is the eager leg's if and only if there are rows or no columns |
| `MongoCursor.CursorState.Next` | crates/automation/src/mongo.rs:457-501 | one poll yields the next item of the remaining stream, or ends it, asking the server by the live cursor id only when its buffer is empty |
| `MongoCursor.Drain` | crates/automation/src/mongo.rs:457-501 | polling to the end gives the whole stream |
| `MongoCursor.StreamIsTheWholeResult` | crates/automation/src/mongo.rs:457-501 | for every cut into batches, empty ones included, the stream is first batch and all next batches in order |
| `MongoCursor.FailureEndsTheStream` | crates/automation/src/mongo.rs:479-484 | a failing getMore is yielded once, after all documents before it, and ends the stream |
| `MongoCursor.FaultIsLast` | crates/automation/src/mongo.rs:479-484 | nothing follows an error |
| `MongoCursor.DottedCollectionIsKept` | crates/automation/src/mongo.rs:449-451 | a collection name with dots is kept whole |
| `MongoCursor.NoDotNoCollection` | crates/automation/src/mongo.rs:449-451 | a name without a dot names no collection |
| `MongoCursor.NoCollectionEndsTheStream` | crates/automation/src/mongo.rs:471-473 | without a collection the first batch is the stream |
| `MongoCursor.DocsInOrder` | crates/automation/src/mongo.rs:487-497 | the documents of a batch come in the order of its elements |
| `MongoCursor.AllDocsAreKept` | crates/automation/src/mongo.rs:487-497 | no document of a batch is dropped |
| `MongoCursor.BatchingIsInvisible` | crates/automation/src/mongo.rs:457-501 | two ways of cutting the same documents into batches give the same events, for every limit |
| `MongoCursor.CursorQueryIsEager` | crates/automation/src/mongo.rs:457-501 | the events are those of the eager leg over all documents if and only if there are any |
| `PsDigest.SchemaRecovered` | crates/automation/src/native_collector.rs:338-345 | a key gives its schema back if and only if the schema is absent or non-empty without a bar |
| `PsDigest.KeysAreDistinct` | crates/automation/src/native_collector.rs:305-307 | two keys are equal if and only if digest and schema text are |
| `PsDigest.DiffCounts` | crates/automation/src/native_collector.rs:319-354 | the difference of a key is its counter's growth when both snapshots hold it |
| `PsDigest.DiffRowsReport` | crates/automation/src/native_collector.rs:331-352 | without a reset the differences are one report for each row that grew, with count, time, text and schema, and no others |
| `PsDigest.WhatIsStored` | crates/automation/src/native_collector.rs:317-352 | nothing is stored from a first snapshot or after a reset; otherwise, with all inserts succeeding, exactly such reports |
| `PsDigest.SnapRemembers` | crates/automation/src/native_collector.rs:441-455 | the snapshot kept is exactly the rows read |
| `PsDigest.MillisecondsOf` | crates/automation/src/native_collector.rs:311-313 | times are whole milliseconds of a thousand million picoseconds |
| `PsDigest.SnapHas` | crates/automation/src/native_collector.rs:445-451 | the saved snapshot holds exactly the rows read |
| `PsDigest.PsCollector.Collect` | crates/automation/src/native_collector.rs:317-352 | when any known counter went back nothing is stored and the new snapshot is remembered; otherwise, with all inserts succeeding, exactly the rows that grew are reported, each once, with its growth |
| `PsDigest.NeverOvercounts` | crates/automation/src/native_collector.rs:319-354 | in every history of executions, resets, evictions and collections that save what they store of a key, its stored count never exceeds its executions |
| `PsDigest.HonestExactly` | crates/automation/src/native_collector.rs:319-354 | what is stored and still reportable fits in the executions if and only if no continuation with saved snapshots overcounts |
| `PsDigest.UnsavedIsHonestExactly` | crates/automation/src/native_collector.rs:421-455 | a collection whose snapshot is not saved keeps this if and only if what it stored fits in what is neither stored nor reportable |
| `PsDigest.UnsavedOvercountsExactly` | crates/automation/src/native_collector.rs:421-455 | such a collection can lead to overcounting if and only if it does not fit |
| `PsDigest.CollectIsHonest` | crates/automation/src/native_collector.rs:408-456 | one collection keeps what is stored plus what is still reportable within the executions |
| `PsDigest.UnsavedSnapshotsOvercount` | crates/automation/src/native_collector.rs:441-455 | with a failing snapshot write a history exists that overcounts |
| `PsDigest.CountersTelescope` | crates/automation/src/native_collector.rs:331-352 | without resets, counts sum to last minus first; milliseconds do if and only if none passed idle; stored milliseconds exceed the sum by at most one a row |
| `RedisSlowlog.Collector.CollectRedis` | crates/automation/src/native_collector.rs:149-207 | one fetch stores exactly the wanted new entries whose inserts succeed and advances the mark if it is written; an unreadable mark counts as none |
| `RedisSlowlog.TakenIsNew` | crates/automation/src/native_collector.rs:170-178 | what is taken lies above the mark that was read |
| `RedisSlowlog.StoredExactly` | crates/automation/src/native_collector.rs:155-202 | an entry is stored, at its place in order, if and only if its insert succeeds, it has a command other than the collector's own, and its id lies beyond the mark; its milliseconds are at least one |
| `RedisSlowlog.OwnCommandExactly` | crates/automation/src/native_collector.rs:170-178 | the collector's own command is recognised in any letter case, and nothing else is |
| `RedisSlowlog.NoEventStoredTwice` | crates/automation/src/native_collector.rs:149-207 | while marks are read, and written by fetches that store something, no entry is stored twice, whichever inserts fail |
| `RedisSlowlog.FetchCanBeRepeated` | crates/automation/src/native_collector.rs:200-205 | after a fetch that read its mark, an entry can be stored twice if and only if the fetch stored something and its mark was not written |
| `RedisSlowlog.SafeHistoriesExactly` | crates/automation/src/native_collector.rs:99-207 | whichever reads, inserts and writes fail, no repeat happens or becomes possible if and only if every fetch stores only new entries and leaves a mark not behind them |
| `RedisSlowlog.RepeatsExactlyBehindTheMark` | crates/automation/src/native_collector.rs:170-178 | a repeat is possible if and only if the mark is behind a stored entry |
| `RedisSlowlog.BlindReadRepeatsExactly` | crates/automation/src/native_collector.rs:99-109 | when the mark cannot be read, a repeat is possible if and only if anything is stored |
| `RedisSlowlog.LostMarksRepeat` | crates/automation/src/native_collector.rs:99-127 | a lost write and a failed read of the mark each store one entry twice |
| `TxnStore.EveryConnectionIsWellOrdered` | crates/automation/src/txn.rs:108-264 | in every interleaving a connection sees BEGIN, statements one at a time, at most one COMMIT or ROLLBACK, and the close; at most one finisher takes the session |
| `TxnStore.SweepTakesOnlyIdleSessions` | crates/automation/src/txn.rs:244-262 | a sweep removes a session if and only if its last success or opening is more than the time to live before the sweep's start, with no statement in flight |
| `TxnStore.TouchedAfterTheScanSurvives` | crates/automation/src/txn.rs:244-257 | a session whose statement succeeds after the sweep began survives that sweep, whatever happens in between |
| `TxnStore.TakenForGood` | crates/automation/src/txn.rs:213-227 | a taken session is never live again and never taken by another |
| `TxnStore.ControlIsTheOneAsked` | crates/automation/src/txn.rs:203-257 | in every interleaving a COMMIT or ROLLBACK on a session's connection is the one named by the step that took the session, and ROLLBACK when a sweep took it |
| `TxnStore.AvailableExactly` | crates/automation/src/txn.rs:134-227 | in every interleaving a task may begin a statement if and only if it has none in flight there, gets its turn if and only if none is on the wire, and a finisher may take the session if and only if no task has one in flight |
| `TxnStore.RefersExactly` | crates/automation/src/txn.rs:134-201 | the references into the map are exactly the statements begun and not ended |
| `TxnStore.StatementTraffic` | crates/automation/src/txn.rs:134-201 | a statement puts its start, its probe if asked for, and its end on the wire; only success refreshes the session |
| `TxnStore.ScanMarksIdleSessions` | crates/automation/src/txn.rs:237-242 | the scan marks a session if and only if it has been quiet for more than the time to live |
| `TxnStore.OnlyScannedAreRemoved` | crates/automation/src/txn.rs:243-257 | a sweep removes only sessions it has marked |
| `TxnStore.RunKeeps` | crates/automation/src/txn.rs:108-264 | every step of every task keeps the store's invariant |
| `TxnStore.DbTxnSessionStore.Begin` | crates/automation/src/txn.rs:108-128 | opening adds one live session whose connection has seen BEGIN; a failing pool or BEGIN registers nothing |
| `TxnStore.DbTxnSessionStore.ExecuteInTxn` | crates/automation/src/txn.rs:134-201 | a statement tries these atomic steps in this order, whatever other tasks do between them |
| `TxnStore.DbTxnSessionStore.Finish` | crates/automation/src/txn.rs:203-227 | the removal waits for statements in flight; the task that removes the session issues the control statement asked for and closes it, so the log ends with exactly these two, and a missing session is reported |
| `TxnStore.DbTxnSessionStore.CleanupExpired` | crates/automation/src/txn.rs:232-264 | a sweep scans all entries, then tries to remove, roll back and close each victim of the scan, and counts those it rolled back |
| `DdlExecutor.ExecuteDdlOnTarget` | crates/automation/src/db_handler.rs:1550-1645 | anything is sent if and only if the connection loads, is not ClickHouse in any letter case, is neither read-only nor source_drift, is supported, and a script with statements is all DDL; each refusal is the one of its case; what is sent is the script's statements in order up to the first failure |
| `DdlExecutor.FindNonDdl` | crates/automation/src/db_handler.rs:1605-1617 | the first statement that is not DDL is found, or there is none |
| `DdlExecutor.DdlExactly` | crates/automation/src/db_handler.rs:1514-1522 | a statement is DDL if and only if it begins, after blanks and in any letter case, with CREATE, ALTER, DROP, TRUNCATE or RENAME |
| `DdlExecutor.ClickHouseInAnyCase` | crates/automation/src/db_handler.rs:1567-1570 | the test on the kind is on its ten letters, in any case |
| `DdlExecutor.StatementsStand` | crates/automation/src/db_handler.rs:1605-1609 | trimming again and skipping empty statements changes nothing |
| `DdlExecutor.AcceptedStatementsStand` | crates/automation/src/db_handler.rs:1514-1522 | each statement of an accepted script without DELIMITER lines is, split again, that one DDL statement, and has a terminator inside only in an open block |
| `DdlExecutor.OpenBlockIsAccepted` | crates/automation/src/db_handler.rs:1605-1617 | a script that opens with a DDL keyword and a block it never closes, with no END after it, is accepted whole |
| `DdlExecutor.DmlRidesInAnOpenBlock` | crates/automation/src/db_handler.rs:1605-1617 | a concrete script sends a DELETE behind DROP, in a block opened by the end of an identifier |
| `DdlExecutor.CommentFirstIsRefused` | crates/automation/src/db_handler.rs:1514-1522 | a statement that opens with a comment makes the script refused |
| `Approval.EveryApprovalRunsAtMostOnce` | crates/automation/src/handler.rs:919-1039 | in every interleaving over both doors an approval is claimed at most once, its target is sent a prefix of its script, all DDL, and success means all of it |
| `Approval.StepKeeps` | crates/automation/src/handler.rs:919-1057 | every step of every task keeps the table's invariant |
| `Approval.ScriptIsFixed` | crates/automation/src/handler.rs:892-917 | the script of a row never changes |
| `Approval.EveryClaimWasRead` | crates/automation/src/handler.rs:919-972 | in every interleaving a claimed approval had been read before, as a pending row by an approver or as an approved row by the agent that submitted it |
| `Approval.LostJobIsNeverTakenUp` | crates/automation/src/handler.rs:974-1013 | after its job is lost no step of either door completes an approval or sends more of it |
| `Approval.AgentExecutesOnlyOldApprovals` | crates/mcp/src/write.rs:341-384 | the agent's door can execute a row if and only if it was approved and unexecuted at the start |
| `Approval.RejectedRunsExactlyWhen` | crates/automation/src/handler.rs:1041-1057 | a rejected approval has been or can be claimed if and only if it was claimed, or an agent that read it while approved can still claim it |
| `Approval.RejectedInTimeNeverRuns` | crates/automation/src/handler.rs:1041-1057 | otherwise nothing of it is ever sent |
| `Approval.RejectedMayStillRun` | crates/automation/src/handler.rs:1049-1055 | a rejection after the claim stops nothing and is overwritten |
| `Approval.ApprovalServer.SubmitApproval` | crates/automation/src/handler.rs:892-917 | a submission adds a pending row |
| `Approval.ApprovalServer.ClaimLoaded` | crates/automation/src/handler.rs:951-972 | the guarded UPDATE claims the row if and only if its own column is still pending, and otherwise changes no row |
| `Approval.ApprovalServer.ApproveApproval` | crates/automation/src/handler.rs:919-975 | each reply occurs in exactly its case, and acceptance leaves a job with the script that was read |
| `Approval.ApprovalServer.ExecuteWrite` | crates/mcp/src/write.rs:341-384 | each reply occurs in exactly its case; a lost claim only reports the state |
| `Approval.ApprovalServer.RejectApproval` | crates/automation/src/handler.rs:1041-1057 | a rejection sets the status whatever it was |
| `Approval.ApprovalServer.RunJob` | crates/automation/src/handler.rs:974-1013 | running the executor and recording its end are exactly the steps of the job; the row ends approved if and only if the executor succeeded, and failed otherwise |
| `Approval.SendsSend` | crates/automation/src/db_handler.rs:1625-1642 | the job's sending steps send what the executor's loop sends |
| `RateLimit.RateLimiter.Check` | crates/core/src/telemetry.rs:172-195 | a check accepts or rejects by the full history and keeps only its in-window part, for this install id alone |
| `RateLimit.EntriesAreTheWindow` | crates/core/src/telemetry.rs:188-189 | the pruned list is the in-window filter of all accepted calls |
| `RateLimit.AtMostMaxPerWindow` | crates/core/src/telemetry.rs:190-194 | no half-open 60-second window holds more than 60 accepted calls |
| `RateLimit.RejectedOnlyWhenFull` | crates/core/src/telemetry.rs:190-194 | a call is rejected if and only if 60 were accepted less than 60 seconds before it |
| `RateLimit.AllowedByHistory` | crates/core/src/telemetry.rs:186-194 | pruning never changes a verdict |
| `RateLimit.RecentIsExact` | crates/core/src/telemetry.rs:189 | truncation to whole seconds does not blur the window |
| `RateLimit.WindowExactly` | crates/core/src/telemetry.rs:56-57 | the window of the theorems is the calls of sixty seconds, open at its end |
| `Bson.JsonRoundTrip` | crates/automation/src/mongo.rs:242-256 | JSON to BSON to JSON is the identity if and only if integers fit `i64` and extended scalars are in printed form |
| `Bson.MemberRoundTrip` | crates/automation/src/mongo.rs:227-240 | the same for a member, where extended forms are read |
| `Bson.ScalarRoundTrip` | crates/automation/src/mongo.rs:268-315 | an extended scalar is printed back as written if and only if it was in printed form |
| `Bson.BsonRoundTrip` | crates/automation/src/mongo.rs:322-361 | BSON to JSON to BSON is the identity if and only if the value and all values in it are faithful |
| `Bson.ItemRoundTrip` | crates/automation/src/mongo.rs:252-254 | for an array item the extended scalars are lost and nothing mimics one |
| `Bson.ScalarIsRead` | crates/automation/src/mongo.rs:268-315 | each printed scalar is read back, but for a date outside RFC 3339 |
| `Bson.MimicIsRead` | crates/automation/src/mongo.rs:268-315 | a plain document is read as a scalar if and only if it has a scalar's form |
| `Bson.NumericDateIsRead` | crates/automation/src/mongo.rs:288-293 | an integer `$date` is the date of that many milliseconds if it fits `i64`, and otherwise stays a document |
| `Bson.DateSpellingsAgree` | crates/automation/src/mongo.rs:281-293 | a date given in milliseconds and the same date given in RFC 3339 are read as the same value |
| `Bson.TextScalarsAreRead` | crates/automation/src/mongo.rs:268-300 | an id, date or decimal given as text is read as exactly the value it decodes to |
| `Bson.BinaryIsRead` | crates/automation/src/mongo.rs:300-315 | a binary is read from its two texts, in any order and among other members |
| `Bson.NumbersAreRead` | crates/automation/src/mongo.rs:242-256 | an integer is an `i64` if it fits, a float otherwise |
| `Bson.ScalarsPrintTheirText` | crates/automation/src/mongo.rs:322-361 | each scalar is printed with its own text under its own key |
| `Bson.ExoticPrintsAs` | crates/automation/src/mongo.rs:322-361 | patterns, code, symbols and the floats JSON lacks are printed as stated |
| `Bson.TimestampPrintsAs` | crates/automation/src/mongo.rs:322-361 | a timestamp is printed with its time and its increment |
| `Bson.ItemsStayInPlace` | crates/automation/src/mongo.rs:252-254 | the k-th item is converted to the k-th item, both ways |
| `Bson.MembersStayInPlace` | crates/automation/src/mongo.rs:227-240 | the k-th member keeps its key and place, both ways |
| `Bson.CommandRoundTrip` | crates/automation/src/mongo.rs:220-225 | only objects are commands, and a command comes back the same if and only if its members are canonical |
| `Bson.DocumentRoundTrip` | crates/automation/src/mongo.rs:363-365 | a stored document comes back the same if and only if its values are faithful |
| `Bson.JsonMapToDoc` | crates/automation/src/mongo.rs:227-240 | the filling loop builds the document member by member in order |
| `Metadata.GroupIndexes` | crates/automation/src/metadata.rs:1134-1142 | each index is one run of rows of one name |
| `Metadata.GroupForeignKeys` | crates/automation/src/metadata.rs:1158-1176 | each foreign key is one run of rows of one name and referenced table |
| `Metadata.GroupPragmaKeys` | crates/automation/src/metadata.rs:1500-1528 | each SQLite foreign key is one run of the sorted rows |
| `Metadata.GroupsAreTheRuns` | crates/automation/src/metadata.rs:1134-1142 | runs put together are the rows, and neighbours differ in key |
| `Metadata.EachIndexTellsItsRun` | crates/automation/src/metadata.rs:1134-1142 | an index has its run's name, columns and uniqueness |
| `Metadata.EachForeignKeyTellsItsRun` | crates/automation/src/metadata.rs:1158-1176 | a foreign key has its run's name, or none if empty, its columns and what they refer to |
| `Metadata.DifferentConstraintsStayApart` | crates/automation/src/metadata.rs:1158-1176 | rows of different constraint names never share a foreign key |
| `Metadata.EachPragmaKeyTellsItsRun` | crates/automation/src/metadata.rs:1509-1528 | a SQLite foreign key has its run's table and columns, and no name |
| `Metadata.OneEntryPerKey` | crates/automation/src/metadata.rs:1134-1176 | there is one entry for each key if and only if its rows stand together |
| `Metadata.OneIndexPerName` | crates/automation/src/metadata.rs:1134-1142 | the same for indexes |
| `Metadata.OneForeignKeyPerConstraint` | crates/automation/src/metadata.rs:1158-1176 | the same for MySQL foreign keys |
| `Metadata.IndexesConserveRows` | crates/automation/src/metadata.rs:1134-1142 | the columns of all indexes are the columns of the rows, in order |
| `Metadata.ForeignKeysConserveRows` | crates/automation/src/metadata.rs:1158-1176 | column lists have equal lengths and hold the rows' pairs in order |
| `Metadata.SortIsStable` | crates/automation/src/metadata.rs:1509 | the sort orders by id and seq, permutes the rows and keeps the order of equal ones |
| `Metadata.OneForeignKeyPerId` | crates/automation/src/metadata.rs:1509-1528 | exactly one SQLite foreign key for each id, columns in seq order, all pairs kept |
| `DefaultParens.Wraps` | crates/automation/src/sqlserver.rs:246-261 | the scan finds whether the first parenthesis is closed by the last character and not before |
| `DefaultParens.StripDefaultParens` | crates/automation/src/sqlserver.rs:239-268 | the loop takes layers off until none is left; nothing left gives no default |
| `DefaultParens.StripDefaultIsSound` | crates/automation/src/sqlserver.rs:239-268 | only matched layers and blanks come off, no layer is left, stripping again changes nothing, balance is kept both ways |
| `DefaultParens.StripPeels` | crates/automation/src/sqlserver.rs:244-266 | as many opening as closing parentheses come off, with blanks only |
| `DefaultParens.StripKeepsBalance` | crates/automation/src/sqlserver.rs:244-266 | the result is balanced if and only if the input is |
| `DefaultParens.LayerComesOffExactly` | crates/automation/src/sqlserver.rs:246-261 | a wrapping layer is taken off if and only if what it wraps is balanced, hidden parentheses counted |
| `DefaultParens.StringDefaultIsStrippedExactly` | crates/automation/src/sqlserver.rs:244-266 | a default that is one string literal is unwrapped if and only if the string is balanced |
| `DefaultParens.StripIsRightExactly` | crates/automation/src/sqlserver.rs:244-266 | all layers are stripped as an SQL parser sees them if and only if the parser's answer is not mistaken for a wrapped text and, if anything comes off, is balanced |
| `DefaultParens.PlainTextIsStrippedRight` | crates/automation/src/sqlserver.rs:244-266 | with no parenthesis in a quote or comment every layer taken off is the parser's, down to the last |
| `DefaultParens.LayersAreReal` | crates/automation/src/sqlserver.rs:246-261 | the same for the outermost layer |
| `DefaultParens.HiddenParensMislead` | crates/automation/src/sqlserver.rs:246-261 | one default is torn apart, one keeps its layer, and one with parentheses in a literal is read right |

## Left out

- Drivers, pools, TLS, SSH, HTTP and SQLite calls: their answers and failures are parameters.
- Cryptography, licences, configuration and the allow-lists: one verdict each, passed in where it matters.
- Hex, RFC 3339, decimal and base64 text: `Bson` assumes that decoding undoes encoding (`Bson.Lawful`) and that
  the fallback text of a date outside RFC 3339 is no RFC 3339 date.
- The error arm for numbers out of range in `json_value_to_bson`: a JSON number always converts to a float here.
- Upper-casing outside ASCII in the DDL test: no other character has a part of a DDL keyword as its upper case.
- Unicode letter and number tables outside ASCII: a parameter; every theorem holds for every table.
- Progress of the row pump after the client disconnects: only the deadline or cancel ends that loop, so progress
  is proved for a client that stays. A final flush cut short still returns success, so `row_count` may exceed the
  rows delivered.
- The `truncated` flag of the TDengine leg, which uses `>` where the others use `>=`.
- Double counting between the slow-log source and the digest source of one connection: the digest snapshot is
  not refreshed while the slow log is read, so soundness is claimed for the digest source alone.
- The MySQL slow-log collector, and the digests of Mongo and Redis commands: easy members.
- Success of COMMIT: the store discards the control statement's result, and user SQL may hold its own COMMIT.
  `TxnStore` speaks of the statements the store issues.
- Shards of the concurrent map: `TxnStore` blocks a removal while that session is in use, not while another
  session of the same shard is.
- Two rows of one snapshot with the same digest key (`PsDigest.DistinctKeys`): the counter theorems exclude
  them, as an absent and an empty schema would have to meet under one digest.
- Redaction of error texts, the audit rows written after a job, and `resolved_at` and `executed_at` times.
- `Approval`: the agent's submission checks (risk class, one statement) are not modelled; any script may be
  submitted, so the theorems cover more.
- Dispatch on the kind of database, type decoding, command lists, error classification, report SQL.
