# Valkey: a verified model of its hardest parts

This project models six parts of the Valkey server in Dafny and proves what they
promise: atomic slot migration, the append-only log, redirects and hash slots
during resharding, the ACL rule log, the index of blocked clients, and the bit
operations. `dafny verify dfyconfig.toml` checks everything.

Code that changes state is modelled as classes and loops; each such method is
proved against a function or predicate on values, and the theorems are about
those. Time, system calls, fork, the network, hash functions and the choices of
clients are parameters or events, so every theorem holds for all of them.

| files | part |
|---|---|
| `Migration`, `MigrationRuns`, `MigrationWindow`, `MigrationLimits`, `MigrationEmpty`, `MigrationJobs` | the slot migration protocol: handlers on values, all runs of two nodes over FIFO channels, how long a pause lasts and how jobs end, exactly when the promises hold, and the jobs as objects |
| `Imports` | job list, importing flags, ownership and keys of one node |
| `AofManifest`, `AofRewrite`, `AofServer` | manifest lists, the background rewrite with a crash between any two file operations, and its handlers as they run |
| `AofBuffer`, `AofLoader`, `AofRejects`, `AofTransactions`, `AofSelect` | write buffer under write errors, encoder and loader, what the loader refuses, transactions in the loader, databases on replay |
| `Slots`, `GlobSearch`, `GlobMeaning`, `Routing`, `RoutingFacts`, `Resharding` | hash slots, the glob matcher and what patterns denote, the routing decision and when each answer is given, and runs of the ASK protocol |
| `Acl`, `AclText`, `AclMeaning`, `AclRules`, `AclSelector`, `AclSplit`, `AclQuote`, `AclUser` | rules and their replay, their spelling, what a rule says, the rule text edited in place, the bitmap, splitting text, quoting it, and the whole selector |
| `Blocked` | the two-way index of blocked clients |
| `Bits`, `Popcount`, `BitRange`, `Bitpos`, `Bitfield`, `Bitop` | BITCOUNT, BITPOS, BITFIELD INCRBY and BITOP |

## What the models assume

- Slot migration: one job, one database, no expiry or eviction, slots empty on the target at ESTABLISH, a snapshot child reaped only after its pipe is drained, one clock. A write is any deterministic effect on the slots' contents.
- Imports: the node stays primary, keeps the slots it owns, is not loading and gets no SYNCSLOTS FINISH.
- Rewrite: the log is switched on and the forced flush before the fork empties the buffer. A command is any effect on the dataset.
- Loading: commands are known to the server and have the right number of arguments.
- Resharding: MIGRATE is one atomic move; clients send ASKING only after an ASK; commands touch only the keys they name; a transaction with a shard channel names no keys; the slot is handed over once the source is empty.
- ACL: a fixed command table whose ids are below the reserved bit, and rules without blanks or quotes. First arguments are compared without regard to case.
- Slots: bytes of class ranges compare as signed characters.
- Bit operations: 64-bit little-endian words; a word load may start at any address class.

## Where the code departs from what it promises

Each of these is a lemma about the modelled code, next to the theorem that states
exactly when the promise holds.

- The snapshot waits until the client's pending-write flag is clear (`src/cluster_migrateslots.c:2046`). The flag does not cover output left behind for the write handler after a partial write. With such output, one write during the snapshot reaches the wire ahead of it (`MigrationLimits.DirtyForkBreaksOrder`), and the snapshot undoes it on the target, which may then take over without it although the pause held (`MigrationLimits.DirtyForkLosesWrite`). Without such output both promises hold in every run; the exact conditions are `MigrationLimits.OrderHoldsExactly` and `MigrationLimits.LosslessExactly`.
- A takeover after the source's pause ran out loses writes (`MigrationLimits.LapsedPauseLosesWrite`), as the server's own log message warns.
- If syncing the directory fails after the manifest was renamed (`src/aof.c:575`), the rewrite is taken as failed and the new BASE file is unlinked although the manifest on disk names it (`AofRewrite.FailedReportLosesBase`). The same failure is harmless when the new INCR file is opened.
- HISTORY files are unlinked before the manifest forgets them, so the manifest on disk may name missing HISTORY files (`AofRewrite.HistoryMayBeMissing`), exactly those that were unlinked (`AofRewrite.HistoryExistsUnlessUnlinked`). BASE and INCR files are always there.
- `openNewIncrAofForAppend` opens without O_APPEND (`src/aof.c:793`). A short write that is cut back leaves the offset past the end, and the next flush leaves a gap (`AofBuffer.CutBackThenFlushed`); `AofBuffer.Aof.Flush` states exactly when nothing is lost.
- If the forced flush leaves commands in the buffer, they go to the new INCR file without the SELECT they rely on; `AofSelect.LeftoverLosesDatabase` is such a case, and `AofSelect.Feed.BeginRewrite` states exactly when it is harmless.
- A log that ends inside a command of a transaction is cut inside the transaction, not before its MULTI; what is appended afterwards counts as part of that transaction on the next load (`AofTransactions.WhereTheCutGoes`). Without an EXEC none of it runs; with one, the left-behind part of the unfinished transaction runs along with it (`AofTransactions.AppendedAfterBadCut`).
- With a shard channel in a transaction the keys are not counted, and a migrating source serves keys it does not have (`Resharding.ShardChannelSkipsTheCount`), which puts a key on both nodes (`Resharding.ShardChannelRun`).
- A first argument with a blank or a quote is accepted and retained, and the text then no longer splits into the retained rules: the assertions before the replay fail (`AclSplit.BlankArgIsRefused`, `AclSplit.OpenQuoteDoesNotSplit`). `AclSplit.RulesSplitExactly` is the exact condition.
- The glob matcher does not match the empty string with a pattern of stars (`GlobSearch.MatcherIsExact`).

Where comments and code disagree the model follows the code: both overflow checks
return 1 under WRAP also for an underflow, where the comment at
`src/bitops.c:434-436` says -1; BITPOS has no counterpart to BITCOUNT's early reply
for two negative indexes in the wrong order; text behind a closing quote is part of
the argument (`AclQuote.ReprThen`), where the comment at `src/sds.c:1143-1145` says it
is refused.

## Model

| member | source | states |
|---|---|---|
| `MigrationRuns.TakeoverLossless` | src/cluster_migrateslots.c:648-719 | in every run whose snapshot starts with no output left for the write handler: if no slot write was executed on the source since it sent PAUSED, the target that claims the slots holds exactly the source's contents |
| `MigrationRuns.PausedTakeover` | src/cluster_migrateslots.c:847-872 | from the start of such a run: if writes stayed paused since the source sent PAUSED, the target that claims the slots holds exactly the source's contents |
| `MigrationRuns.TakeoverExact` | src/cluster_migrateslots.c:847-872 | at a takeover the source's contents are the target's followed by slot writes made after PAUSED that did not arrive; without such writes nothing is missing |
| `MigrationRuns.StreamInOrder` | src/cluster_migrateslots.c:1551-1571 | in every run whose snapshot starts with no output left for the write handler, what the target applied and what is on the wire is a prefix of: snapshot at the fork, SNAPSHOT-EOF, every slot write since the fork with PAUSED in its place |
| `MigrationRuns.GrantMeansNoWrite` | src/cluster_migrateslots.c:1498-1541 | in every run at all, the source grants the failover only if no slot write was executed since PAUSED |
| `MigrationRuns.StayedPaused` | src/networking.c:6215-6238 | a source whose pause holds from PAUSED on executes no slot write |
| `MigrationRuns.SnapshotRestores` | src/cluster_migrateslots.c:1551-1571 | the child's commands rebuild the contents at the fork, whatever the order of its walk over the keys |
| `MigrationRuns.StepKeeps` | src/cluster_migrateslots.c:1951-2141 | every event of source, target, child, socket, clock and clients, other than an unclean fork, keeps the invariant behind the theorems (FIFO transport, held-back output, stream order, contents, pause) |
| `MigrationRuns.ReceiveMoves` | src/cluster_migrateslots.c:1442-1541 | whatever request arrives, the job gives up its connection or sends at most the one message its state allows, and output in the buffer stays scheduled for writing except during the snapshot |
| `MigrationRuns.CronMoves` | src/cluster_migrateslots.c:2024-2132 | the same of one pass of the state machine, unless it forks |
| `MigrationRuns.MoveKeeps` | src/cluster_migrateslots.c:1951-2141 | any such step keeps the invariant |
| `MigrationRuns.FlushKeeps` | src/cluster_migrateslots.c:1709-1715 | output that leaves the buffer, all or part of it, never overtakes the snapshot |
| `MigrationRuns.ClientWriteKeeps` | src/cluster_migrateslots.c:1719-1757 | a write executed since the fork is in the stream exactly once and in order while the job is connected |
| `MigrationWindow.GrantRenewsPause` | src/cluster_migrateslots.c:1528-1536 | in every run, the step that grants the failover leaves writes paused for two more seconds, by the deadline of the job and by that of the pause |
| `MigrationWindow.GrantedWindow` | src/cluster_migrateslots.c:1498-1541 | for two seconds after the grant, whatever happens, a job that was not ended refuses writes and the slots hold what they held at the grant |
| `MigrationWindow.GrantedTakeover` | src/cluster_migrateslots.c:1498-1541 | so a takeover within two seconds of the grant is lossless, with no hypothesis on the pause, as long as the job has not ended |
| `MigrationWindow.PauseLasts` | src/cluster_migrateslots.c:1442-1459 | a job that pauses sends PAUSED last and holds writes back for twice the failover timeout |
| `MigrationWindow.SoberRun` | src/cluster_migrateslots.c:2304-2358 | in every run a job that has ended holds no pause, deadline, connection or output, and a pause lasts at least until the deadline of its job |
| `MigrationWindow.EndsExactly` | src/cluster_migrateslots.c:1951-2141 | a job ends exactly on: cancellation, a lost connection unless it has granted, a new owner of the slots, a failed fork or child, a refused or unexpected request, or an overdue pause; and with which result |
| `MigrationWindow.SuccessMeansHandedOver` | src/cluster_migrateslots.c:1795-1815 | in every run an export that reports success has handed the slots over to the target |
| `MigrationWindow.ImportFollows` | src/cluster_migrateslots.c:648-719 | the state of an import is what the markers it received make of it, in order; only an import that was granted the failover owns the slots; one that failed leaves no key |
| `MigrationLimits.DirtyForkBreaksOrder` | src/cluster_migrateslots.c:2046-2070 | for every reachable fork with output waiting for the write handler, one write during the snapshot reaches the wire ahead of it |
| `MigrationLimits.OrderHoldsExactly` | src/cluster_migrateslots.c:2046-2070 | after a step from any reachable state the order holds in all that can follow if and only if the step is no fork with output waiting for the write handler |
| `MigrationLimits.DirtyForkLosesWrite` | src/cluster_migrateslots.c:2046-2070 | for every such fork with an import in progress, every key and every write that changes it: a run to the grant in which the pause holds and no write follows PAUSED, and yet the target has the key's old value |
| `MigrationLimits.LosslessExactly` | src/cluster_migrateslots.c:2046-2070 | after a step from any reachable state every takeover that can follow is lossless if and only if the step is no fork with output waiting for the write handler, or the slots hold no key, or the import has failed already |
| `MigrationEmpty.StepUndisturbed` | src/cluster_migrateslots.c:2046-2070 | after an unclean fork of slots without keys every event keeps the writes and PAUSED in order and both nodes consistent with them |
| `MigrationLimits.StepHandshake` | src/cluster_migrateslots.c:1881-1937 | until the fork the nodes exchange nothing but greetings, the source takes writes, and an import that waits for its first ACK will get one |
| `MigrationLimits.DirtyForkIsReachable` | src/cluster_migrateslots.c:2046-2070 | such a fork is reachable for any contents |
| `MigrationLimits.LapsedPauseLosesWrite` | src/cluster_migrateslots.c:2093-2122 | for every reachable state with the grant at the target: once the pause has run out, a write that changes anything is lost by the takeover |
| `MigrationLimits.GrantIsReachable` | src/cluster_migrateslots.c:699-719 | for any contents a run reaches the grant with the pause intact |
| `MigrationJobs.ExportJob.TryUnpause` | src/cluster_migrateslots.c:2528-2540 | unpauses exactly when this job, the only one, holds no deadline |
| `MigrationJobs.ExportJob.Finish` | src/cluster_migrateslots.c:2304-2358 | final state, no deadline, no pause, no client |
| `MigrationJobs.ExportJob.TryDoPause` | src/cluster_migrateslots.c:1442-1459 | pauses until the deadline and sends PAUSED, or does nothing |
| `MigrationJobs.Pair.constructor` | src/cluster_migrateslots.c:1860-1876 | the two jobs and their connection as objects are at the start of a run |
| `MigrationJobs.Pair.Handle` | src/cluster_migrateslots.c:1951-2141 | any event, handled in place by the job objects: they take exactly the step of the run, and stay reachable and in order unless it is an unclean fork |
| `MigrationJobs.Pair.Takeover` | src/cluster_migrateslots.c:847-872 | the target object that claims the slots with no write since PAUSED holds what the source object holds |
| `Imports.IsSlotInRanges` | src/cluster_migrateslots.c:171-183 | the loop decides whether a range covers the slot |
| `Imports.ImportTable.SetImportingState` | src/cluster_migrateslots.c:228-251 | exactly the flags of covered slots change |
| `Imports.ImportTable.DelKeysNotOwnedByMyself` | src/cluster_migrateslots.c:213-226 | exactly the covered slots that are not owned are emptied |
| `Imports.ImportTable.IsSlotImporting` | src/cluster_migrateslots.c:494-505 | true iff an unfinished import covers the slot |
| `Imports.ImportTable.RangeIsAcceptable` | src/cluster_migrateslots.c:261-343 | the checks on one range |
| `Imports.ImportTable.Establish` | src/cluster_migrateslots.c:534-645 | accepts iff ranges are ordered, disjoint, all served by the source and not importing; then adds the job and marks its slots; keeps: unfinished imports disjoint, flag iff unfinished import, no leftover keys |
| `Imports.ImportTable.Finish` | src/cluster_migrateslots.c:2304-2343 | final state or clean-up first; the three invariants are kept |
| `Imports.ImportTable.ClaimSlots` | src/cluster_migrateslots.c:847-861 | exactly the covered slots change owner |
| `Imports.ImportTable.Proceed` | src/cluster_migrateslots.c:1968-1984 | take-over or clean-up: owners, keys and jobs afterwards; the three invariants are kept |
| `Imports.ImportTable.UpdateState` | src/cluster_migrateslots.c:2239-2248 | a job that moves on keeps the invariants |
| `Imports.ImportTable.CleanupLog` | src/cluster_migrateslots.c:2440-2452 | finished jobs go, the oldest first, until the list is short enough or has none left, and never more than needed; the invariants are kept |
| `Imports.StateChange` | src/cluster_migrateslots.c:2304-2343 | a job that goes on keeps its slots, one that finishes gives up exactly its own |
| `AofManifest.ManifestLists.MarkRewrittenIncrAsHistory` | src/aof.c:490-520 | all INCR files but the last become history, in order |
| `AofManifest.ManifestLists.DelHistory` | src/aof.c:658-680 | the history is given up; its files are unlinked in order |
| `AofServer.LogServer.OpenNewIncr` | src/aof.c:774-835 | the handler on the manifest objects is the run of its two file operations; it succeeds iff both did |
| `AofServer.LogServer.RewriteBackground` | src/aof.c:2464-2532 | the whole handler is a run of the file operations and keeps the log good; a new, empty INCR file is in use and in the manifest on disk before the child starts, which sees the dataset of all commands written |
| `AofServer.LogServer.DelHistoryFiles` | src/aof.c:658-680 | unlinking the list and replacing the manifest is a run of the file operations |
| `AofServer.LogServer.RewriteDone` | src/aof.c:2645-2763 | the whole handler is a run of the file operations and keeps the log good unless a replaced manifest is reported as not replaced; if all goes well the BASE file is what the child saw, one INCR file is left, and exactly the files this makes obsolete become history or are gone |
| `AofServer.HistoryIsSuperseded` | src/aof.c:420-520 | the history after a rewrite is exactly the old BASE file, the rewritten INCR files and the old history |
| `AofServer.LogServer.RewriteFailed` | src/aof.c:2766-2790 | a failed child leaves files, manifest and dataset as they are |
| `AofServer.LogServer.Restart` | src/aof.c:1648-1769 | reading the manifest back and loading its files restores the dataset of all commands written |
| `AofRewrite.RewriteIsCrashConsistent` | src/aof.c:2464-2532 | for any rewrites, failures, crashes and restarts, between any two file operations: the manifest on disk names existing BASE and INCR files in rising order and loading them gives the dataset of all commands written |
| `AofRewrite.StepKeeps` | src/aof.c:2645-2763 | every file operation, with every outcome but the one excluded, keeps the invariant |
| `AofRewrite.PersistOpenKeeps` | src/aof.c:774-835 | opening a new INCR file keeps it for all outcomes of replacing the manifest |
| `AofRewrite.PersistBaseKeeps` | src/aof.c:2716-2737 | so does the new BASE file when the manifest is replaced or left |
| `AofRewrite.DeleteKeeps` | src/aof.c:658-680 | deleting history never deletes a file that loading reads |
| `AofRewrite.RestartKeeps` | src/aof.c:254-382 | so does a crash followed by reading the manifest back |
| `AofRewrite.FailedReportLosesBase` | src/aof.c:523-602 | for every state before the BASE file is persisted: a manifest that is replaced but reported as failed ends up naming a missing BASE file |
| `AofRewrite.RenamedIsReachable` | src/aof.c:2645-2682 | such a state is reachable |
| `AofRewrite.HistoryMayBeMissing` | src/aof.c:658-680 | a first rewrite reaches a state where the manifest on disk names a missing HISTORY file |
| `AofRewrite.HistoryExistsUnlessUnlinked` | src/aof.c:658-680 | in every run, a HISTORY file that the manifest on disk names exists if and only if it was not unlinked before |
| `AofBuffer.Aof.Feed` | src/aof.c:1321-1357 | fed bytes are buffered |
| `AofBuffer.Aof.AofWrite` | src/aof.c:1015-1032 | retries until done or an error; writes exactly the bytes it reports, in one piece from the offset it started at |
| `AofBuffer.ProgressMeans` | src/aof.c:1015-1032 | what gets written is everything reported before the first error, up to the length; interruptions count for nothing |
| `AofBuffer.Aof.Flush` | src/aof.c:1122-1231 | for all results of write and ftruncate and from any offset: file followed by buffer is everything fed and the recorded size is the file's if and only if the file was at its end or no byte stayed in it; otherwise a gap stands in between; when the offset is past the end afterwards |
| `AofBuffer.CutBackThenFlushed` | src/aof.c:793-793 | without O_APPEND: any short write that is cut back, followed by a good flush, leaves a gap as long as the short write and the log incomplete |
| `AofLoader.CatCommand` | src/aof.c:1269-1292 | appends the encoding of the command |
| `AofLoader.LoadArguments` | src/aof.c:1509-1538 | the argument loop |
| `AofLoader.LoadNext` | src/aof.c:1488-1540 | one command or annotation, or the reason to stop, as defined byte by byte; `AofRejects` says what the definition refuses |
| `AofLoader.Load` | src/aof.c:1472-1620 | the loading loop with its transaction state runs the commands and cuts the file as defined byte by byte |
| `AofLoader.TruncatedLogLoadsExactly` | src/aof.c:1472-1620 | for every byte prefix of an encoded log of plain commands (no MULTI or EXEC): exactly the complete commands run, in order, and the file is cut at the end of the last one |
| `AofLoader.LogRoundTrip` | src/aof.c:1269-1292 | a whole log of plain commands decodes to the commands fed |
| `AofLoader.ReadWholeCommand` | src/aof.c:1488-1540 | an encoded command with arbitrary binary arguments reads back as itself |
| `AofLoader.ReadCutCommand` | src/aof.c:1509-1538 | a command cut at any byte is a short read, never a wrong command or bad format |
| `AofLoader.LoadsPrefix` | src/aof.c:1551-1620 | what a cut log of any commands runs and where it is cut |
| `AofRejects.MalformedIsRejected` | src/aof.c:1630-1637 | after any good commands, bad format makes loading fail with those commands run and the file untouched |
| `AofRejects.BadLineIsRejected` | src/aof.c:1495-1496 | a line that starts with neither star nor hash is bad format |
| `AofRejects.BadCountIsRejected` | src/aof.c:1497-1499 | so is a star followed by something that cannot begin a number |
| `AofRejects.BadArgumentIsRejected` | src/aof.c:1509-1519 | so is a command with fewer arguments than it announced, followed by a line that is no argument |
| `AofRejects.AnnotationsChangeNothing` | src/aof.c:1495-1495 | annotation lines between commands change nothing that runs, and the log is whole |
| `AofTransactions.TransactionsAreAllOrNothing` | src/aof.c:1551-1584 | wherever the log is cut, exactly the complete single commands and complete transactions run, MULTI and EXEC in any case |
| `AofTransactions.RunsPlainPrefix` | src/aof.c:1551-1584 | so what runs is a prefix of the log without MULTI and EXEC, all of it if the log is whole |
| `AofTransactions.WhereTheCutGoes` | src/aof.c:1572-1603 | the file is cut before the unfinished transaction iff the log ended between two commands or before MULTI was complete |
| `AofTransactions.AppendedAfterBadCut` | src/aof.c:1551-1561 | exactly what a log runs whose cut left an open transaction behind and that was appended to: nothing new without an EXEC; with one, the commands left behind, then what was appended up to the EXEC, then what the rest runs by itself |
| `AofTransactions.BadCutExample` | src/aof.c:1591-1620 | one byte into the first queued command is such a cut |
| `AofSelect.Feed.Append` | src/aof.c:1321-1357 | SELECT is written exactly when the database changes; every command stays in its own database on replay |
| `AofSelect.Feed.Flush` | src/aof.c:1053-1267 | moving the buffer to the file keeps this |
| `AofSelect.Feed.BeginRewrite` | src/aof.c:2475-2482 | so does a rewrite, failed or not, with an emptied buffer; with a rest left over iff the database was 0 or the rest selects before it runs |
| `AofSelect.LeftoverLosesDatabase` | src/aof.c:2475-2482 | the failing input: a command for database 1 left in the buffer when the new file is opened runs in database 0 |
| `AofSelect.ReplayRunsInOwnDatabase` | src/aof.c:1321-1357 | loading an INCR file, or any byte prefix of it, in database 0: what was fed up to the last complete command or transaction runs, each command in the database it was fed for |
| `Slots.KeyHashSlot` | src/cluster.c:57-76 | hashes the first non-empty tag if there is one, else the key |
| `Slots.KeySlotIsUnique` | src/cluster.c:57-76 | that rule determines the slot |
| `Slots.PatternHashSlot` | src/cluster.c:81-106 | a slot is returned iff nothing special comes before the first closed, non-empty tag, and then every key the pattern matches has that slot |
| `Slots.LiteralPrefix` | src/util.c:62-188 | a matched string starts with the pattern's literal prefix |
| `GlobSearch.MatcherIsExact` | src/util.c:62-193 | for patterns within the nesting limit the early-exit search matches exactly what plain backtracking matches, except that the empty string matches only the empty pattern; what that is, is in `GlobMeaning` |
| `GlobSearch.SearchStar` | src/util.c:72-99 | giving up early is right: no suffix of the string matches |
| `GlobMeaning.ClassMeans` | src/util.c:113-151 | a class holds exactly the characters of its items: plain, escaped, or a range in either order; reading goes on behind the bracket or at the end |
| `GlobMeaning.HeadMeans` | src/util.c:101-175 | what one element of a pattern accepts (any, a class, a negated or unclosed class, an escaped or plain character) and what is left of the pattern |
| `GlobMeaning.SimpleMeans` | src/util.c:72-188 | backtracking matches exactly the strings that the elements denote |
| `GlobMeaning.MatcherMeans` | src/util.c:62-193 | the early-exit matcher matches exactly the strings that the pattern denotes, the empty string only if the pattern is empty |
| `GlobMeaning.ReadBack` | src/util.c:62-193 | every pattern is the text of some elements, so this covers all patterns |
| `Routing.SlotByCommand` | src/cluster.c:981-1000 | one slot for all keys, none, or a conflict |
| `Routing.TransactionSlot` | src/cluster.c:1070-1087 | the slot of a transaction, or a conflict |
| `Routing.CheckKeys` | src/cluster.c:1148-1230 | the nested loop finds: a forbidden command, a missing key, an existing key, two different keys |
| `Routing.GetNodeByQuery` | src/cluster.c:1048-1305 | the decision equals its definition by what the request names and what the node holds; `RoutingFacts` says when each answer is given |
| `RoutingFacts.RedirectsPointOn` | src/cluster.c:1265-1305 | MOVED names the owner of the slot and never this node; ASK names the node the slot is moving to |
| `RoutingFacts.SettledRoute` | src/cluster.c:1291-1305 | with a healthy cluster and a slot at rest the owner serves, or its replica a read; every other node sends on to the owner |
| `RoutingFacts.NoSlotIsServed` | src/cluster.c:1060-1091 | a request without a slot is served here, and so is any request without redirection |
| `RoutingFacts.CrossSlotExactly` | src/cluster.c:1070-1087 | refused as cross-slot iff two commands, or the keys of one, have different slots |
| `RoutingFacts.UnboundExactly` | src/cluster.c:1093-1100 | refused as unbound iff nobody serves the slot |
| `RoutingFacts.DownExactly` | src/cluster.c:1232-1257 | refused as down iff the cluster is down and may not answer this kind of request |
| `RoutingFacts.UnstableExactly` | src/cluster.c:1184-1289 | TRYAGAIN iff the slot is moving and a command would leave its database, or some keys are here and some are not, or one of several keys is missing for an asked client |
| `RoutingFacts.AskExactly` | src/cluster.c:1265-1276 | ASK iff the slot is leaving and none of the keys is here |
| `RoutingFacts.MovedExactly` | src/cluster.c:1048-1305 | MOVED iff another node owns the slot and neither an ASK, MIGRATE nor a replica read lets this node answer |
| `RoutingFacts.CountsMeans` | src/cluster.c:1213-1227 | keys are looked up iff the commands run now and no shard channel is named |
| `RoutingFacts.DbAtLast` | src/cluster.c:1168-1175 | inside a transaction the database of the last valid SELECT is in use |
| `RoutingFacts.ForbiddenMeans` | src/cluster.c:1190-1211 | an open slot forbids exactly MOVE, and COPY into another database than the one in use |
| `Resharding.OneNodePerKey` | src/cluster.c:1102-1289 | no run of source, target and clients puts one key on both nodes |
| `Resharding.MigratingSourceNeverGains` | src/cluster.c:1265-1276 | once the slot is migrating the source never gains a key |
| `Resharding.SourceRoute` | src/cluster.c:1265-1276 | a migrating source serves only requests whose keys it has and sends on only those whose keys it lacks |
| `Resharding.TargetRoute` | src/cluster.c:1278-1289 | before it owns the slot the target serves keys only to clients that were asked |
| `Resharding.ShardChannelSkipsTheCount` | src/cluster.c:1213-1227 | every transaction with a shard channel is served by a migrating source, whatever keys it lacks |
| `Resharding.ShardChannelSplitsKey` | src/cluster.c:1213-1227 | so any key of such a transaction that was moved away comes to be on both nodes |
| `Resharding.ShardChannelRun` | src/cluster.c:1213-1227 | the run from the start that does this |
| `Resharding.EarlyHandoverSplitsKey` | src/cluster.c:1278-1305 | why the source must be empty: a target that takes the slot earlier serves any request for a key the source still has, and it is on both nodes |
| `Acl.ReplayIsExact` | src/acl.c:742-790 | after any accepted rules, replaying the retained ones from +@all or -@all as the reserved bit says rebuilds every bit and every first-argument set; ALLCOMMANDS implies all bits |
| `Acl.RetainedRulesSuffice` | src/acl.c:591-645 | dropping the rules a new rule covers makes no difference |
| `Acl.CoveredIsUndone` | src/acl.c:649-685 | whatever a covered rule did to a command, the new rule does over |
| `AclText.ParseToken` | src/acl.c:1195-1274 | a retained rule reads back as itself, so replay accepts it |
| `AclText.ParseIsSpelled` | src/acl.c:1195-1274 | an accepted rule is retained, in lower case, as it was given |
| `AclText.ReplacesMeansCovers` | src/acl.c:617-620 | the text comparison decides exactly what the rules mean |
| `AclMeaning.AcceptedExactly` | src/acl.c:1195-1274 | accepted, in any case, are exactly the four words for all commands and the signed names of categories, commands, subcommands, and first arguments of commands without subcommands |
| `AclMeaning.RuleMeans` | src/acl.c:649-685 | a rule sets the bit of exactly the commands and subcommands that its text names, by name or category, and those below; clears the first arguments of those it names; adds the first argument it names |
| `AclMeaning.ClearsMeans` | src/acl.c:577-586 | ALLCOMMANDS ends exactly if the text blocks some command |
| `AclMeaning.LastTextDecides` | src/acl.c:1096-1280 | after any texts, refused ones included, a command may be run iff one allows it and no later one blocks it |
| `AclRules.Find` | src/acl.c:605-608 | strchr and strlen |
| `AclRules.Matches` | src/acl.c:617-620 | memcmp and the bar test decide whether a retained body is replaced |
| `AclRules.MoveDown` | src/acl.c:623-623 | memmove towards the front |
| `AclRules.Step` | src/acl.c:598-629 | one rule of the walk: kept, or cut out with its space |
| `AclRules.RemoveCommandRule` | src/acl.c:591-633 | the buffer holds the single-space join of exactly the tokens not replaced, in order; the walk ends |
| `AclSelector.Bitmap.SetCommandBit` | src/acl.c:577-586 | sets one bit; clearing one ends ALLCOMMANDS |
| `AclSelector.Bitmap.ChangeCommand` | src/acl.c:649-663 | a command with its subcommands |
| `AclSelector.Bitmap.ChangeSubcommand` | src/acl.c:649-663 | a subcommand alone |
| `AclSelector.Bitmap.ChangeCategory` | src/acl.c:671-685 | the walk over the table acts on exactly the commands and subcommands of the category |
| `AclSelector.Bitmap.AddFirstArg` | src/acl.c:939-964 | adds a first argument unless it is there in some case |
| `AclSelector.Bitmap.ChangeAll` | src/acl.c:1124-1133 | +@all and -@all |
| `AclSelector.KeptAreUncovered` | src/acl.c:591-645 | filtering the text is filtering the rules |
| `AclSplit.SplitArgs` | src/sds.c:1150-1185 | the loop gives the arguments of any text, quotes and escapes included, or none if a quote is not closed |
| `AclSplit.ParseNext` | src/sds.c:1044-1131 | the loop over one argument with its three quoting modes |
| `AclSplit.JoinSplitsExactly` | src/sds.c:1044-1185 | rules joined by single spaces split into themselves if and only if none holds a blank or a quote |
| `AclQuote.CatRepr` | src/sds.c:940-972 | the two nested loops write the quoted text |
| `AclQuote.ReprThen` | src/sds.c:1063-1090 | quoted text is part of one argument whatever follows the closing quote |
| `AclQuote.ReprSplits` | src/sds.c:1133-1140 | any byte strings, quoted and joined by spaces, split into themselves |
| `AclQuote.SingleQuotesSplit` | src/sds.c:1080-1094 | a text in single quotes splits into itself, unless a backslash at its end hides the closing quote |
| `AclSplit.RulesSplitExactly` | src/acl.c:742-771 | the text of retained rules splits back into them if and only if no first argument holds a blank or a quote |
| `AclSplit.FirstArgIsAccepted` | src/acl.c:1195-1260 | a first-argument rule is accepted whatever the argument holds |
| `AclSplit.BlankArgIsRefused` | src/acl.c:763-771 | the failing input: with a blank in the argument the replay meets a rule that is refused |
| `AclSplit.OpenQuoteDoesNotSplit` | src/acl.c:763-766 | the failing input: with a quote in the argument the text does not split |
| `AclUser.CommandSelector.UpdateCommandRules` | src/acl.c:637-645 | the text is the retained rules joined by single spaces, the new one last |
| `AclUser.CommandSelector.SetRule` | src/acl.c:1096-1280 | accepts exactly the texts above; the words for all commands, in any case, set or clear every bit and leave no rule and no first argument; any other accepted text does to every bit, first argument and ALLCOMMANDS what it says; a refused one changes nothing; the selector can always be rebuilt from its text |
| `AclUser.CommandSelector.SplitRules` | src/acl.c:763-766 | the retained text always splits, into exactly the retained rules |
| `AclUser.CommandSelector.Describe` | src/acl.c:742-790 | the rebuilt bitmap always matches: the panic is unreachable; the text starts with the reserved bit's rule |
| `AclUser.CommandSelector.Recompute` | src/acl.c:690-722 | rebuilding a selector from its own text changes no bit, no first argument and no retained rule |
| `AclUser.CommandIds.GetCommandID` | src/acl.c:1622-1646 | ids are stable, different, and never the reserved one |
| `Blocked.ExactlyOnce` | src/blocked.c:434-486 | a client stands in a key's list exactly once, at its stored node, iff the key is in its own table |
| `Blocked.Blocking.constructor` | src/blocked.c:81-94 | the empty index satisfies the invariant |
| `Blocked.Blocking.BlockClient` | src/blocked.c:106-118 | the counters per kind and of regular clients stay exact |
| `Blocked.Blocking.BlockWithoutKeys` | src/blocked.c:660-694 | WAIT, postponed and shutdown clients |
| `Blocked.Blocking.AddEntry` | src/blocked.c:447-477 | one key: last in its list, stored in the client, counted if deletions matter |
| `Blocked.Blocking.BlockForKeys` | src/blocked.c:434-486 | the client stands behind the others in the list of every key it named, once; other lists are as before; the invariant is kept |
| `Blocked.Blocking.ReleaseEntry` | src/blocked.c:579-611 | the node leaves the list, an empty list goes with its count, otherwise the count is lowered |
| `Blocked.Blocking.UnblockWaitingData` | src/blocked.c:490-503 | the client leaves all its lists; other lists are as before |
| `Blocked.Blocking.UnblockClient` | src/blocked.c:217-256 | lists, counts and flags of an unblocked client; the invariant is kept |
| `Blocked.Blocking.UnblockClientOnKey` | src/blocked.c:700-713 | the same when one key is released first |
| `Blocked.Blocking.SignalKeyAsReady` | src/blocked.c:522-566 | a key is queued at most once and only if somebody waits on it; if anybody is interested it is queued and stays so until it is handled: no wake-up is lost |
| `Blocked.Blocking.ServeKey` | src/blocked.c:624-657 | exactly the eligible waiters get one turn each, in the order they came; in the list stay the others and, behind them, clients that blocked again |
| `Blocked.Blocking.TakeTurn` | src/blocked.c:700-713 | a client's turn: it leaves its lists, may signal keys and block again behind everyone else; a module's client keeps its place; every other client is as before |
| `Blocked.Blocking.ServeOne` | src/blocked.c:638-654 | one waiter gets its turn iff it is eligible; the list loses at most its node and gains at most nodes of its own at the end |
| `Blocked.EligibleMeans` | src/blocked.c:641-650 | eligible by the type of the object, with any object for a module, or always if deletions matter |
| `Blocked.Blocking.HandlePass` | src/blocked.c:396-422 | the list of ready keys is taken over and each key handled once, in order; the dictionary of ready keys is always the rest of that list plus the new one |
| `Blocked.Blocking.HandleBlockedOnKeys` | src/blocked.c:383-425 | passes until no key is ready; then every signal that somebody waited for was followed by the handling of its key |
| `Popcount.PopcountScalar` | src/bitops.c:141-191 | the number of set bits, for any length and alignment |
| `Popcount.BlockCounts` | src/bitops.c:152-186 | seven packed words add up without overflow of a byte lane |
| `Popcount.SwarNumber` | src/bitops.c:166-179 | the packed sums of a word are its bits per byte |
| `BitRange.Normalise` | src/bitops.c:980-999 | start and end clamped as the reply is defined |
| `BitRange.CountBytes` | src/bitops.c:1025-1035 | edge masks subtract each bit outside the range once |
| `BitRange.BitRangeEdges` | src/bitops.c:995-1035 | bytes of the range less both edges are the bits of the range, also when both edges are in one byte |
| `BitRange.BitCount` | src/bitops.c:944-1038 | the number of set bits in the normalised range, in bytes or bits |
| `BitRange.CountReplyMeans` | src/bitops.c:944-1038 | the reply is the number of positions that the arguments select and that hold a set bit; 0 for two negative indexes in the wrong order |
| `BitRange.BoundsMean` | src/bitops.c:980-999 | the normalised range holds exactly the positions between the two arguments, negative ones counted from the end |
| `Bitpos.ServerBitpos` | src/bitops.c:265-350 | the first bit of the wanted value; for 0 in a string of ones its length; -1 for 1 in a string of zeros |
| `Bitpos.SkipBytes` | src/bitops.c:282-306 | skips only bytes without the wanted bit |
| `Bitpos.ScanWord` | src/bitops.c:335-343 | the first wanted bit of a word, from the top |
| `Bitpos.SearchBytes` | src/bitops.c:1130-1179 | the three pieces of a range, first byte, middle, last byte, answer for the range |
| `Bitpos.BitPosCommand` | src/bitops.c:1041-1181 | the least index in the normalised range holding the bit, else -1, except 0 without an explicit end |
| `Bitpos.PosReplyMeans` | src/bitops.c:1041-1181 | in terms of the arguments: the first selected position with the bit; past the end for a 0 in ones without an explicit end; else -1 |
| `Bitfield.SetUnsignedBitfield` | src/bitops.c:373-386 | the field holds the value and no other bit changes |
| `Bitfield.GetUnsignedBitfield` | src/bitops.c:393-405 | reads the field |
| `Bitfield.GetSignedBitfield` | src/bitops.c:407-429 | reads the field in two's complement |
| `Bitfield.CheckUnsignedExact` | src/bitops.c:454-486 | overflow is reported iff the sum does not fit, with the wrapped or saturated value |
| `Bitfield.CheckSignedExact` | src/bitops.c:490-537 | the same for signed fields of up to 64 bits |
| `Bitfield.IncrResultMeans` | src/bitops.c:431-537 | the result fits the field and is the sum if that fits; else congruent to it, the nearest number that fits, or the old value |
| `Bitfield.IncrBy` | src/bitops.c:1317-1382 | rereading gives the exact sum, the modular value, the nearer bound or the old value; no bit outside the field changes |
| `Bitfield.IncrByCommand` | src/bitops.c:1312-1382 | the same on a key, with missing bytes as zero |
| `Bitfield.PaddedOutside` | src/bitops.c:1303-1382 | no bit outside the field changes when the string is seen as zero-padded |
| `Bitfield.GrownBits` | src/bitops.c:638-654 | growing the string changes no bit and adds no more bytes than needed |
| `Bitfield.GetField` | src/bitops.c:1383-1414 | GET reads the field of the zero-padded string |
| `Bitop.StoredByte` | src/bitops.c:842-890 | a word operation is the byte operation in every byte |
| `Bitop.FastPath` | src/bitops.c:834-892 | the four-word loop computes the fold over all sources for whole blocks |
| `Bitop.CombineByte` | src/bitops.c:898-920 | the early exit does not change the byte; what its bits are is `Bitop.CombinedBit` |
| `Bitop.CombinedBit` | src/bitops.c:898-920 | each bit of a result byte: set in all sources, in some, in an odd number of them, or not in the one source; bits past the end are clear |
| `Bitop.Lengths` | src/bitops.c:794-820 | longest and shortest source, or a wrong type |
| `Bitop.BitOp` | src/bitops.c:758-941 | an error, a deletion, or a string as long as the longest source in which every bit is what the operation makes of that bit of all sources |
| `Bitop.ResultIsCorrect` | src/bitops.c:758-941 | so does the definition by folding bytes |

## Left out

- Slot migration: several jobs, several databases, authentication, RDB loading of import jobs, demotion to replica, cancellation by FLUSHALL.
- `clusterHandleFlushDuringSlotMigration` and other reasons to fail a job are one event each.
- The AOF_WAIT_REWRITE state, fsync scheduling, timestamps in the log, old-style file upgrade.
- AofLoader.Load: takes no file that starts with an RDB preamble, because reading RDB is not modelled.
- A negative argument length in the log (`$-1`), for which the server would ask for too much memory, counts as bad format.
- AclQuote.CatRepr: printable characters are those of ASCII.
- AofSelect.Feed.Flush: works on whole entries; what a file cut inside an entry runs is `AofSelect.ReplayRunsInOwnDatabase`, for every byte.
- MigrationJobs.Pair.constructor: starts when ESTABLISH is to be sent; connecting and authentication are not there.
- AofBuffer.Aof.Flush: models the policies that are not `always`, where an error does not end the server.
- The four-megabyte and other buffer reuse rules, latency counters, logging.
- `getNodeByQuery` reads expiry-free key sets; redirect replies and blocked-client redirects are not modelled.
- ACL key and channel patterns, databases, passwords, selectors other than their command rules, ACL files; the packing of 1024 bits into words is a boolean per bit.
- AclUser.CommandSelector.SetRule: rules that are not command rules (keys, channels, databases), and rules with blanks or quotes, are not among its inputs; what becomes of the latter is in `AclSplit`.
- Modules: a module client on keys is offered its turn and keeps its place until the module unblocks it.
- Timeouts and disconnects of blocked clients.
- Blocked.Blocking.HandleBlockedOnKeys: takes the number of passes as a bound, since commands may keep making keys ready for ever.
- MigrationJobs.ExportJob.TryUnpause: one job, no walk over the job list.
- SIMD popcount; the 256-entry table of bit counts is a function of the byte; BITFIELD SET and several operations in one BITFIELD.
- CRC16 is a parameter.
