# Verification models of woof

Dafny models of the parts of woof that keep state and make promises over whole
runs, with proofs of those promises. Each module models one component; where the
source updates fields in place the model is a class whose methods are proved
against functions, and the promises are lemmas about those functions, over every
input, every run or every interleaving.

`dafny verify dfyconfig.toml` checks the whole project.

| component | modules |
|---|---|
| reset, epoch and capture protocol | `DataEpoch`, `MemoryGate`, `KeyLookup`, `CaptureLoop` |
| chronicle catch-up | `Calendar`, `Chronicle`, `Scheduler`, `CatchUp`, `RollupAttempts` |
| transcription queue and reconciler | `EventQueue`, `Transcription`, `Transcript` |
| chat stream | `Sse`, `SseWriter`, `Completion`, `ChatStream`, `Acceptance` |
| vector index and its file | `Identities`, `VectorIndex`, `IndexService`, `LiveIndex`, `Container`, `IndexFile` |
| restorable redaction, check digits | `Markers`, `Redaction`, `Rewriting`, `Redactor`, `Checksums` |
| visible text and recent context | `Fields`, `Accessibility`, `ContextSelector`, `RecentContext`, `VisibleText`, `ReadingOrder` |
| modifier keys, clipboard, delivery, UTF-16 editing | `Modifier`, `ModifierRuns`, `Clipboard`, `InlineSession`, `Utf16` |
| MCP frames | `McpFrames`, `FrameWriter`, `FrameHeads` |
| shared | `Wrappers`, `ByteStrings`, `Utf8Length` |

## How the models are built

- **Concurrency.** `DataEpoch`, `MemoryGate`, `KeyLookup` and `RollupAttempts` are state machines over
  the atomic steps of the programs. A schedule is any sequence of steps, chosen by an
  adversary; `Reaches` and `Trace` relate the states it leads through. Locks are primitives,
  cancellation only goes up, a biased wait polls its token and its lock in separate steps,
  and an async caller can be dropped at every await point while a blocking closure keeps
  its guards.
- **Outside world.** What a transport, a target application, a native graph or another
  program does is a parameter: a script, a set of failures, or an oracle. Hashes,
  parsers, embedders and UTF-8 are functions, with the few laws a result needs stated as
  its precondition.
- **Time** is an integer, in a zone with a fixed offset; calendars are proleptic
  Gregorian. Machine integers are written out where the source saturates, overflows or
  bounds them.
- **Regular expressions** are arbitrary ascending spans of the text each pass searches.

## Where a promise needs a condition

Each of these is proved in both directions, or with an example beside it.

- A memory run that a reset has swept never works, but it can still be admitted once the
  reset lease is gone: if and only if, while the lease was held, it had polled its token
  for the gate and not yet the gate (`MemoryGate.SweptRunNeverWorks`, `MemoryGate.SweptRunIsAdmittedIff`,
  `MemoryGate.SweptRunCanBeAdmitted`).
- The child check of a rollup is meant to avoid a permanently partial rollup. A rollup is
  partial if and only if a snapshot of its span was stored in a child without a chronicle
  after that child was checked, be it while the text is generated or later
  (`RollupAttempts.PartialIffLate`, `RollupAttempts.LastHourCanBeMissed`).
- A delete-all or prune that fails after its rows are gone, when the database file is
  compacted, does not move the data epoch. What a memory period commits is stale if and
  only if such a deletion removed its rows since the period read the epoch (`DataEpoch.NoStaleWriteCommits`,
  `DataEpoch.LostPruneLetsStaleCommit`, `RollupAttempts.LostEpochSeals`).
- Restoring redacted text gives the input back if and only if no pass touched an earlier
  marker; a labelled secret that takes the rest of a line can do that
  (`Redaction.RoundTrip`, `Redaction.SwallowedMarkerIsMissing`). Every single pass is
  safe (`Redactor.OnePassIsUndisturbed`).
- The recent context is documented to come from elements that are not editable. The
  selector does not look above the context root, so a line can come from below an
  editable ancestor of it, and only then (`RecentContext.LinesComeFromOpenElements`,
  `RecentContext.EditableAncestorIsPossible`).
- A metadata refresh keeps the index equal to a fresh build if and only if the text still
  embeds as before; `index_matches` cannot see the difference
  (`IndexService.RefreshIsExact`, `IndexService.StaleEmbeddingIsAccepted`). Only a row whose
  upsert was refused, and that nothing took in since, can be stale in an accepted index
  (`LiveIndex.AcceptedIsFreshIff`, `LiveIndex.RefusedUpsertGoesStale`).
- A backfill count of zero closes its lane for good (`CatchUp.ClosedLaneKeepsGaps`).
- Chunk boundaries show in the events of a stream if and only if an event precedes a block
  that is not UTF-8 (`Sse.ChunksMatterOnlyWhenInvalid`).
- Polls change the events of a run only by holds that are cancelled: a hold that a poll
  announces and a cancel ends is not seen without the poll (`ModifierRuns.PollsDoNotMatter`).
- The clipboard is restored unless two restores fail: the one in the call and the one on
  drop (`Clipboard.WithTemporaryText`).
- A newline frame reads back exactly when its body is one that a reader can tell from a
  header, a blank line and a line end (`FrameWriter.LineFrameReadsBackIff`).

## Model

| member | source | states |
|---|---|---|
| `DataEpoch.NoStaleWriteCommits` | apps/woof_d/src/lib.rs:1741-1788 | In every interleaving of capture loops, memory periods, delete-alls and prunes, a write that commits was made only from what was observed or read after the last committed delete-all; a memory write also only from what was read after the last prune that deleted rows. Captures always; a memory write if and only if no deletion removed rows since the period read the epoch and then failed before moving it. |
| `DataEpoch.LostPruneLetsStaleCommit` | apps/woof_d/src/lib.rs:1956-1978 | The condition can fail: a prune whose rows are gone returns the error of compacting the file before it moves the epoch, and a period then commits what it read before the prune. |
| `DataEpoch.WipeRunsAlone` | apps/woof_d/src/lib.rs:1741-1767 | While a delete-all holds the mutation lock, no capture attempt is under its lease, no persist closure is running, no period is committing and no prune or other delete-all is past its lock. |
| `DataEpoch.RunsKeepInv` | apps/woof_d/src/lib.rs:121-138 | Every run keeps the lock ownership, epoch-lag and freshness invariants together. |
| `DataEpoch.CaptureKeepsStamps` | apps/woof_d/src/lib.rs:2105-2252 | A capture attempt, from its lease to the start of its blocking closure, and an abort at any point, keep every candidate and closure as fresh as the last delete-all. |
| `DataEpoch.ClosureKeepsStamps` | apps/woof_d/src/lib.rs:2347-2379 | The blocking closure of a persist, which outlives the task that started it, writes only fresh rows. |
| `DataEpoch.PeriodKeepsStamps` | apps/woof_d/src/memory.rs:1014-1026 | Comparing the epoch under the mutation lock is enough: with an unchanged epoch nothing was destroyed since the period read it. A generation begins with its epoch read and may be dropped at any point. |
| `DataEpoch.ResetKeepsStamps` | apps/woof_d/src/lib.rs:1755-1788 | A delete-all publishes its epoch only after its rows are gone and before any lock is released; that it does delete them is DestructionDestroys. |
| `DataEpoch.PruneKeepsStamps` | apps/woof_d/src/lib.rs:1956-1978 | A retention prune takes no policy lease; it moves the epoch, under the mutation lock, when it deleted rows and did not fail after that; what its failure leaves behind is counted. |
| `DataEpoch.DestructionDestroys` | apps/woof_d/src/lib.rs:1741-1788 | In every run, a delete-all that held the mutation lock and left it by any other way than failing before its commit has deleted the rows once and has moved the epoch once or lost the move; the same for a prune that found rows. |
| `DataEpoch.FreeResetDestroys` | apps/woof_d/src/lib.rs:1741-1788 | A new delete-all that finds every lock free deletes the rows, moves the epoch and gives every lock back, with nothing else changed. |
| `DataEpoch.FreePruneDestroys` | apps/woof_d/src/lib.rs:1956-1978 | So does a new prune that finds rows. |
| `DataEpoch.FreshPeriodCommits` | apps/woof_d/src/memory.rs:1201-1213 | The protocol is not vacuous: from any state with a free mutation lock a new period can read, lock and store its chronicle. |
| `DataEpoch.FreshCaptureCommits` | apps/woof_d/src/lib.rs:2124-2200 | From any state without a policy writer and with a free mutation lock, a new capture loop can observe and store a row. |
| `MemoryGate.RunsKeepInv` | apps/woof_d/src/memory.rs:622-710 | Every schedule of the atomic steps of begin_run, begin_reset and the two drops, with the two polls of each biased wait as separate steps, keeps the ownership of the run gate and of both serial locks, the set of registered tokens, and the progress of both cancellation passes. |
| `MemoryGate.LeaseExcludesRuns` | apps/woof_d/src/memory.rs:677-691 | While a reset lease is held no run is admitted or one check away from it, every run registered at the second cancellation pass has a cancelled token, every other run is cancelled or still ahead of a check that cancels it, and no second lease exists. |
| `MemoryGate.RunsAreSerial` | apps/woof_d/src/memory.rs:648-674 | Two runs are never in progress at once. |
| `MemoryGate.WaitingResetHasCancelledRuns` | apps/woof_d/src/memory.rs:684-687 | Every run a reset still waits for at the exclusive gate has a cancelled token. |
| `MemoryGate.SweptRunNeverWorks` | apps/woof_d/src/memory.rs:752-774 | In every continuation, also after the reset lease is gone, a run found by the second pass keeps a cancelled token and never gets past the check that precedes any work; while any reset lease is held it is not even in progress. |
| `MemoryGate.SweptRunIsAdmittedIff` | apps/woof_d/src/memory.rs:662-674 | After the lease is gone such a run can still be admitted: in some continuation it is in progress if and only if it had already polled its token for the gate, but not yet the gate, under the lease. The check behind the gate reads the request flag and not the token. |
| `MemoryGate.PolledRunIsAdmitted` | apps/woof_d/src/memory.rs:662-674 | The schedule that admits such a run: the drop of the lease, then the gate and the check behind it. |
| `MemoryGate.SweptRunCanBeAdmitted` | apps/woof_d/src/memory.rs:648-691 | Such an admission is reachable from a new gate: a lone run polls its token, a whole reset sweeps it, the lease is dropped, and the run is admitted with a cancelled token. |
| `MemoryGate.DroppedResetRestoresGate` | apps/woof_d/src/memory.rs:613-620 | Dropping a half-finished reset at its await point, or its lease, never waits and gives back exactly the request flag, the serial lock and the exclusive gate it had taken. |
| `MemoryGate.DroppedRunRestoresGate` | apps/woof_d/src/memory.rs:593-599 | Dropping a run at any point of begin_run or afterwards never waits and gives back exactly what it had taken. |
| `MemoryGate.QuiescentGateIsDefault` | apps/woof_d/src/memory.rs:569-576 | When no run and no reset is left, the gate is as it was built. |
| `MemoryGate.FreeGateAdmitsRun` | apps/woof_d/src/memory.rs:623-675 | Where nobody holds the gate exclusively or the run lock and no reset is requested, a new run is admitted and works, and the lemma says what it then holds. |
| `MemoryGate.FreeGateGrantsLease` | apps/woof_d/src/memory.rs:677-705 | Where no run holds the gate and no other reset is about, a reset gets its lease after both cancellation passes, however many runs are registered. |
| `MemoryGate.PassEnds` | apps/woof_d/src/memory.rs:700-705 | A cancellation pass over any set of copied tokens ends, cancels each registered one of them and changes nothing else of a run. |
| `KeyLookup.AtMostOneNativeLookup` | apps/woof_d/src/memory.rs:318-458 | However callers of resolve_key are cancelled and restarted, at most one native lookup runs, a waiting caller waits for that one, and an operation is forgotten only when its native call is over. |
| `KeyLookup.RunsKeepInv` | apps/woof_d/src/memory.rs:318-395 | Every schedule keeps the lookup gate, the current operation and the waiting callers consistent. |
| `KeyLookup.FreeGateLooksUp` | apps/woof_d/src/memory.rs:414-458 | A caller that finds no cached key and nothing under way starts one native lookup, and what it returns is cached. |
| `Calendar.IndexContains` | apps/woof_d/src/memory.rs:1501-1545 | Every moment lies in the period whose number is computed for it, at every level. |
| `Calendar.IndexUnique` | apps/woof_d/src/memory.rs:1501-1545 | And in no other period of the level: the periods of a level tile the time line. |
| `Calendar.IndexBefore` | apps/woof_d/src/memory.rs:1501-1545 | Comparing period numbers is the same as comparing a moment with a period start. |
| `Calendar.MonthLength` | apps/woof_d/src/memory.rs:1558-1565 | Months are 28 to 31 days long; which are how long is MonthsAreGregorian. |
| `Calendar.MonthsAreGregorian` | apps/woof_d/src/memory.rs:1525-1545 | Month 12 y + m - 1 has the length of month m of year y in the Gregorian calendar, leap years included, and January 1970 begins on day 0; this fixes every month start. |
| `Calendar.ShortPeriods` | apps/woof_d/src/memory.rs:1501-1524 | Hours and days are 3600 and 86400 seconds from 1970 on, weeks are seven days and one begins on Monday, 5 January 1970. |
| `Calendar.LongPeriods` | apps/woof_d/src/memory.rs:1525-1545 | Months and years begin at midnight of their first day, a year with its January. |
| `Chronicle.ContainingIsPeriodAt` | apps/woof_d/src/memory.rs:1501-1545 | However its two ends are computed, a containing period is the period of its number, with the key of its start; Calendar says when the periods of a number begin. |
| `Chronicle.PreviousMonthIsPrevious` | apps/woof_d/src/memory.rs:1461-1468 | The month before, also across a year boundary, is the one with the preceding number. |
| `Chronicle.NextMonthIsNext` | apps/woof_d/src/memory.rs:1558-1565 | The month after, also across a year boundary, is the one with the following number. |
| `Chronicle.RecentHours` | apps/woof_d/src/memory.rs:1369-1378 | The loop over recent hours lists exactly the bounded window of finished hours, oldest first. |
| `Chronicle.RecentDays` | apps/woof_d/src/memory.rs:1380-1386 | The same for days. |
| `Chronicle.RecentWeeks` | apps/woof_d/src/memory.rs:1388-1395 | The same for weeks. |
| `Chronicle.RecentMonths` | apps/woof_d/src/memory.rs:1397-1408 | The same for months, found by stepping a first-of-month cursor back. |
| `Chronicle.RecentYears` | apps/woof_d/src/memory.rs:1410-1421 | The same for years. |
| `Chronicle.DuePeriods` | apps/woof_d/src/memory.rs:1367-1423 | The due periods are the five windows in order of their levels. |
| `Chronicle.DueIff` | apps/woof_d/src/memory.rs:1357-1423 | A period is due if and only if it ended before the current one of its level and is no further back than its configured count and the cap: 24 hours, two days, weeks and months, one year. |
| `Chronicle.DueInOrder` | apps/woof_d/src/memory.rs:1367-1423 | Due periods come level by level, children first, and within a level oldest first, so none comes twice. |
| `Chronicle.HistoricalCutoff` | apps/woof_d/src/memory.rs:1425-1435 | Stepping back one second from each start reaches exactly the first period of the recent window, so the historical range ends where the window begins. |
| `Chronicle.RecentMeetsHistorical` | apps/woof_d/src/memory.rs:838-881 | A moment before the current period is before the cutoff if and only if its period is not in the recent window: no gap and no overlap at any level. |
| `Chronicle.ChildPeriods` | apps/woof_d/src/memory.rs:1470-1490 | The children listed for a rollup are exactly the periods of the level below that meet its span, each once, weeks that straddle a month end included. |
| `Scheduler.MemoryScheduler.GenerateHour` | apps/woof_d/src/memory.rs:883-1027 | An hour attempt stores a chronicle exactly when it had none, has snapshots and its generation ends in usable text under an unmoved epoch; all other endings change nothing and are reported apart. |
| `Scheduler.MemoryScheduler.GenerateRollup` | apps/woof_d/src/memory.rs:1132-1214 | A rollup is deferred while any snapshot of its span lies in a child without a chronicle; when it is inserted over a store that nothing else changed meanwhile, every snapshot of the span had been summarized in its child. RollupAttempts states the attempt with others in between. |
| `Scheduler.MemoryScheduler.FindUnsummarized` | apps/woof_d/src/memory.rs:1157-1172 | The loop over the children finds one without a chronicle and with snapshots inside the span if and only if some snapshot of the span is not summarized. |
| `Scheduler.MemoryScheduler.HistoricalPeriods` | apps/woof_d/src/memory.rs:838-881 | For each open lane, the newest period before the cutoff with a snapshot and no chronicle, in the order of the levels. |
| `Scheduler.LanesIff` | apps/woof_d/src/memory.rs:838-881 | A period is historical work if and only if its level has a count and the newest snapshot before the recent window whose period has no chronicle lies in it. |
| `Scheduler.LanesInOrder` | apps/woof_d/src/memory.rs:838-881 | These periods come in the order of their levels, children first. |
| `Scheduler.MemoryScheduler.RunDueOnce` | apps/woof_d/src/memory.rs:752-836 | A run attempts the due and then the historical periods in order until an outcome or the token ends it, and its report counts what happened. |
| `Scheduler.AttemptMeans` | apps/woof_d/src/memory.rs:883-1027 | When the text of a period is asked for, and what each ending of the generation is reported as. |
| `Scheduler.HourMeans` | apps/woof_d/src/memory.rs:883-1027 | An hour is never deferred, and is empty if and only if no snapshot lies in its 3600 seconds. |
| `Scheduler.RollupMeans` | apps/woof_d/src/memory.rs:1132-1214 | A rollup is deferred if and only if a snapshot of its span lies in a child without a chronicle, and otherwise empty if and only if no child of its span has a chronicle. |
| `Scheduler.RunTells` | apps/woof_d/src/memory.rs:752-836 | The report of a run counts the outcomes of its attempts by kind, and the run ends at the first changed epoch, cancellation or refused key and at nothing else. |
| `CatchUp.RunOnceIsAfter` | apps/woof_d/src/memory.rs:752-836 | With a generator that always succeeds and no cancellation, the run is the plain sweep the progress results speak about. |
| `CatchUp.RecentSweepCovers` | apps/woof_d/src/memory.rs:770-834 | Where a level has no historical gap and its children are done, sweeping the recent window leaves every finished period with snapshots summarized. |
| `CatchUp.LowestGapIsReady` | apps/woof_d/src/memory.rs:838-881 | When a run comes to the historical lanes, the newest gap of the lowest level that has one has all its children summarized, straddling weeks included. |
| `CatchUp.RunLowersGaps` | apps/woof_d/src/memory.rs:752-881 | With a fixed clock, all five counts at least one and a generator that succeeds, each run leaves a strictly smaller set of historical gaps until there is none. |
| `CatchUp.RunsCatchUp` | apps/woof_d/src/memory.rs:752-881 | So as many runs as there were gaps complete the history. |
| `CatchUp.ClosedLaneKeepsGaps` | apps/woof_d/src/memory.rs:845-851 | A count of zero closes its lane for good: no run, however its generations end, removes a historical gap of that level. |
| `CatchUp.ClosedLaneNeverCatchesUp` | apps/woof_d/src/memory.rs:845-851 | Nor do any number of runs; catching up from every store therefore needs all five counts to be at least one. |
| `CatchUp.RunsKeepSealed` | apps/woof_d/src/memory.rs:1145-1175 | Over a fixed set of snapshots no run, whatever fails in it, leaves a rollup inserted before all of its span was summarized. RollupAttempts.RunsKeepWhole is the statement for snapshots that arrive and rows that are deleted at any moment. |
| `RollupAttempts.PartialIffLate` | apps/woof_d/src/memory.rs:1137-1213 | Whatever captures store and prunes or delete-alls remove between the steps of an attempt: from its begin, and as long as its rollup is stored, the rollup misses the child of a stored snapshot if and only if a snapshot of its span was stored in a child without a chronicle after that child was checked. So a partial rollup stays partial until it is deleted. No deletion may have failed after its commit. |
| `RollupAttempts.EarlySnapshotIsCovered` | apps/woof_d/src/memory.rs:1145-1172 | A snapshot of the span that was stored before its child was checked lies in a child that the inserted rollup was made from, and the chronicle of that child is still stored; this is what the epoch comparison is for. |
| `RollupAttempts.AttemptIsAtomic` | apps/woof_d/src/memory.rs:1201-1213 | An attempt whose epoch did not move answers, and changes the store, like the atomic attempt of Scheduler at its last step, if and only if no snapshot came late or it was deferred; and when it inserts, an unsummarized snapshot exists if and only if one came late. |
| `RollupAttempts.RunsKeepWhole` | apps/woof_d/src/memory.rs:1132-1214 | From an empty store, over every schedule without a late snapshot and without a deletion that failed after its commit, every stored rollup covers every stored snapshot of its span and its children are still stored. |
| `RollupAttempts.LateSnapshotSeals` | apps/woof_d/src/memory.rs:1181-1213 | Whenever a rollup waits for its text, a capture of its span in a child without a chronicle can be stored before the commit, and the inserted rollup misses it. |
| `RollupAttempts.LastHourCanBeMissed` | apps/woof_d/src/memory.rs:1157-1213 | A schedule from an empty store: a day is stored without its hour 23, because a snapshot of its last second was stored while the text was generated. |
| `RollupAttempts.LostEpochSeals` | apps/woof_d/src/lib.rs:1956-1978 | Whenever a rollup waits for its text, a prune that fails after its commit lets it be stored when none of its children has a chronicle any more. |
| `RollupAttempts.DeletionStopsAttempt` | apps/woof_d/src/lib.rs:1741-1788 | A deletion that succeeds leaves exactly the kept snapshots and no chronicle and moves the epoch, and an attempt that was ready to commit then stores nothing. |
| `CaptureLoop.CaptureController.Pause` | crates/woof-capture/src/engine.rs:90-96 | Entering a pause moves the continuity epoch; pausing again does not. |
| `CaptureLoop.CapturePipeline.Process` | crates/woof-capture/src/engine.rs:131-227 | Of a sighting, stated without its own function: skipped if and only if capture is paused or the field is secure, protected, blacklisted or blank, with the first of these as the reason; deduplicated, coalesced or stored if and only if the pending snapshot has the same context within the window and the same or another digest, or not; and what is pending next. |
| `CaptureLoop.JudgeContinuesRow` | crates/woof-capture/src/engine.rs:195-227 | Deduplicated and coalesced outcomes continue the unbroken row of the pending snapshot and tell its start, end and duration; a stored outcome starts a new row. |
| `CaptureLoop.DurationIsCovered` | crates/woof-capture/src/engine.rs:200-219 | Every moment of a row’s duration lies between two consecutive sightings at most one window apart, in one context and without a break. |
| `CaptureLoop.CaptureLoop.DoBeginAttempt` | apps/woof_d/src/lib.rs:2109-2121 | The start of an attempt forgets the sequence when capture was paused in between or still is. |
| `CaptureLoop.CaptureLoop.DoTakeLease` | apps/woof_d/src/lib.rs:2126-2156 | Under the lease a moved data epoch replaces the pipeline and forgets the active row; a pause noticed now ends the attempt. |
| `CaptureLoop.CaptureLoop.DoHandle` | apps/woof_d/src/lib.rs:2165-2264 | Storage is given an existing id exactly for deduplicated and coalesced outcomes, and it is the row of the same unbroken sequence; the row, what storage was told, and the break count after every ending are stated. |
| `CaptureLoop.CaptureLoop.HandleAnswer` | apps/woof_d/src/lib.rs:2165-2264 | An answer is taken in, and the active row then ends with it, if and only if it is a sighting of a field that is not secure, protected, blacklisted or blank and the write succeeds; otherwise no row changes. |
| `CaptureLoop.CaptureLoop.Perform` | apps/woof_d/src/lib.rs:2105-2264 | What each possible step does to phase, pause, epoch and rows. |
| `CaptureLoop.CaptureLoop.Persist` | apps/woof_d/src/lib.rs:2298-2339 | A stored candidate makes its row the active one; a failed write ends the sequence. |
| `CaptureLoop.CaptureLoop.DoPause` | apps/woof_d/src/lib.rs:1658-1665 | A pause under the exclusive lease is a break the loop notices before its next sighting. |
| `CaptureLoop.CaptureLoop.DoDeleteAll` | apps/woof_d/src/lib.rs:1741-1788 | A delete-all, failed or not, keeps the pause flag, and breaks the sequence by the continuity epoch or the data epoch. |
| `CaptureLoop.CaptureLoop.Run` | apps/woof_d/src/lib.rs:2105-2264 | Any schedule of attempts, pauses, resumes, delete-alls and prunes keeps every stored row unbroken and told truthfully; rows are only added and continued. |
| `CaptureLoop.CaptureLoop.StoredDurationIsCovered` | apps/woof_d/src/lib.rs:2310-2339 | No stored duration covers a pause, a skip, a failed read, a failed write or a gap longer than the window. |
| `CaptureLoop.CaptureLoop.StoredSightingsAreAllowed` | crates/woof-capture/src/engine.rs:131-194 | No row, in any run, has a sighting of a secure field, of protected or blacklisted content, without text, or from a pause. |
| `CaptureLoop.JudgeIsJudged` | crates/woof-capture/src/engine.rs:131-227 | The answer of the pipeline is the one that the conditions of Process describe, for every sighting. |
| `CaptureLoop.SpanIsLongest` | crates/woof-capture/src/engine.rs:195-227 | The duration told of a row is the longest time since its first sighting. |
| `EventQueue.BackendEventState.Push` | crates/woof-audio/src/session.rs:122-162 | A push coalesces with the pending event of its item, appends, evicts the oldest partial, supersedes, or reports overflow, exactly as specified. |
| `EventQueue.BackendEventState.TryReceive` | crates/woof-audio/src/session.rs:87-109 | Receiving takes the oldest event; after an overflow it only reports it. |
| `EventQueue.PushPending` | crates/woof-audio/src/session.rs:122-186 | A push keeps one pending event per item within the capacity; it never loses a final but by a reported overflow and changes another item only by evicting its partial. |
| `EventQueue.PushAnswers` | crates/woof-audio/src/session.rs:122-186 | Each of the five answers of a push, if and only if what is pending for the item, the kind of the event and the room call for it; overflow is marked exactly by that answer. |
| `EventQueue.PushPlaces` | crates/woof-audio/src/session.rs:122-186 | A merged event keeps its place, a new one goes last, after the oldest partial has gone if the queue was full, and otherwise nothing moves. |
| `Transcription.EventTranscriptState.PublishBackendEvent` | crates/woof-audio/src/session.rs:386-429 | A delta is published unless its item has a final; finals are always published; both books are stated. |
| `Transcription.RunsKeepInv` | crates/woof-audio/src/session.rs:122-186 | For every order of sends and receives: one pending event per item, the capacity kept, no delta after a final, and, unless overflow is reported, the last final of each item pending or last published. |
| `Transcription.DrainedAgreesOnFinals` | crates/woof-audio/src/session.rs:386-407 | After draining without overflow, the lossy queue has published for every item the final text a lossless queue would. |
| `Transcription.RoomyRunsAgree` | crates/woof-audio/src/session.rs:122-186 | With no more items than capacity nothing overflows, and after draining the last thing said of every item, delta or final, is what a lossless queue would say. |
| `Transcription.RoomyPush` | crates/woof-audio/src/session.rs:164-186 | With room for every item a push never evicts. |
| `Transcript.TranscriptReconciler.Register` | crates/woof-llm/src/realtime.rs:119-131 | An item is admitted if its id is valid and it is known or there is room; the books are changed by nothing else. |
| `Transcript.TranscriptReconciler.ApplyDelta` | crates/woof-llm/src/realtime.rs:133-146 | An accepted delta gives the old partial of its item followed by the delta, stores that and changes no other text. |
| `Transcript.TranscriptReconciler.Complete` | crates/woof-llm/src/realtime.rs:148-162 | A final replaces the partial and an earlier final of its item, within the limits counted without them. |
| `Transcript.FinalIsValid` | crates/woof-llm/src/realtime.rs:148-184 | The books stay bounded and an item is never both partial and final, also after a refused message. |
| `Transcript.RegisteredIff` | crates/woof-llm/src/realtime.rs:119-131 | An item is admitted if and only if its id has 1 to 512 bytes without forbidden control characters and it is known or fewer than 128 are. |
| `Transcript.DeltaExtends` | crates/woof-llm/src/realtime.rs:133-146 | A delta is accepted if and only if its item is admitted, has no final and stays within one and, over all items, four mebibytes; the new books and the answer are the old partial with the delta appended. |
| `Transcript.FinalReplaces` | crates/woof-llm/src/realtime.rs:148-162 | A final is accepted if and only if its item is admitted and the texts stay within the limits without what it replaces; it is stored and answered as it came. |
| `Transcript.EmitIsTold` | crates/woof-llm/src/realtime.rs:344-374 | Books and events are told by the messages alone: each partial sent carries all deltas of its item so far, each final its transcript, up to the first message that is refused. |
| `Transcript.SessionPublishesTranscript` | crates/woof-llm/src/realtime.rs:344-374 | Because at most 128 items are admitted, capacity 256 never overflows in any order of sends and receives, with any status events between, and after draining the session has published exactly the finals of the reconciler. |
| `Transcript.SessionPublishesMessages` | crates/woof-llm/src/realtime.rs:344-374 | In every order of sends and receives, what the session has published for an item after draining is the last final the server sent for it before the first refused message. |
| `Sse.SseDecoder.Push` | crates/woof-llm/src/chat.rs:547-569 | A push fails exactly when the chunk does not fit or a completed block is not UTF-8; otherwise it gives the events of the completed blocks and keeps the rest. |
| `Sse.EventBoundary` | crates/woof-llm/src/chat.rs:571-581 | The boundary is the first blank line of either form, with the length of that form. |
| `Sse.FitsIff` | crates/woof-llm/src/chat.rs:548-552 | A chunk is taken if and only if the buffer, what is left of earlier chunks included, stays within two mebibytes. |
| `Sse.BoundaryIsStable` | crates/woof-llm/src/chat.rs:571-581 | Bytes that arrive later never move a boundary that was found. |
| `Sse.ChunksDoNotMatter` | crates/woof-llm/src/chat.rs:547-569 | For a stream of valid blocks, any chunking within the limit gives the events and the rest of the whole stream. |
| `Sse.InvalidStreamFails` | crates/woof-llm/src/chat.rs:554-567 | With a block that is not UTF-8 every chunking fails, after a prefix of the events before it. |
| `Sse.ChunksMatterOnlyWhenInvalid` | crates/woof-llm/src/chat.rs:554-567 | All chunkings of a stream within the limit give the same events if and only if its blocks are all valid or no event precedes the first invalid one. |
| `Sse.BytewiseGivesAll` | crates/woof-llm/src/chat.rs:547-569 | Single bytes deliver every event before the first invalid block. |
| `SseWriter.WrittenIsRead` | crates/woof-llm/src/chat.rs:547-581 | Messages written in the form of section 9.2.6 of the WHATWG HTML standard, with data and other lines and either line end, decode to their data, one event for each message that has any, with nothing left over. |
| `SseWriter.JoinedSplitBack` | crates/woof-llm/src/chat.rs:557-567 | The data of an event splits back at its line feeds into the data of each line. |
| `Completion.ChunkMatches` | crates/woof-llm/src/chat.rs:632-691 | Applying a chunk keeps the assembly equal to what its deltas alone spell. |
| `Completion.FinishedMatches` | crates/woof-llm/src/chat.rs:693-714 | The finished completion has the text of the deltas and exactly the calls they name, by ascending index. |
| `Completion.ChunkBounded` | crates/woof-llm/src/chat.rs:717-723 | No chunk takes an assembly past the text, call count, id, name or argument limits. |
| `Completion.ChunkSaysWire` | crates/woof-llm/src/chat.rs:633-691 | The deltas of an accepted chunk are its contents and its parts of calls of the choices of index 0, in order; text, finish reason and usage follow from the wire data alone. |
| `Completion.PartExtendsCall` | crates/woof-llm/src/chat.rs:655-689 | A part of a call appends its id, unless the call has it already, its name and its arguments to that call and to no other. |
| `Completion.ContentAcceptedIff` | crates/woof-llm/src/chat.rs:648-654 | A content is accepted if and only if the text stays within eight mebibytes. |
| `Completion.PartAcceptedIff` | crates/woof-llm/src/chat.rs:655-689 | A part of a call is accepted if and only if there are at most 64 calls and its id, name and arguments stay within their limits. |
| `ChatStream.CompletionAssembly.ApplyChoice` | crates/woof-llm/src/chat.rs:645-690 | The fields and the deltas after a choice, and the failure when a limit is exceeded, are those of the specification, part by part; what these say of the wire data is Completion.ChunkSaysWire. |
| `ChatStream.CompletionAssembly.Apply` | crates/woof-llm/src/chat.rs:633-691 | The same for a whole chunk; ChatStream.CompletionIsWire is the result for the call. |
| `ChatStream.ChatClient.StreamChat` | crates/woof-llm/src/chat.rs:385-463 | The attempt loop gives the result and the events of its specification for every script of the transport, cancellations included. |
| `ChatStream.StreamIsFaithful` | crates/woof-llm/src/chat.rs:385-463 | All events passed to the callback come from one attempt; a completed event is last and there exactly when the call succeeds; the deltas before it spell the returned completion; earlier attempts said nothing and failed retryably. |
| `ChatStream.CompletionIsWire` | crates/woof-llm/src/chat.rs:385-463 | A completion of a call comes from an attempt with a done event before which every event is a chunk, and its text, calls, finish reason and usage, and the deltas passed on, are those of these chunks. |
| `ChatStream.AnotherAttemptIff` | crates/woof-llm/src/chat.rs:385-463 | Another attempt is made if and only if nothing was told, attempts are left and the stream ended early, the network failed for a moment or the status was 429 or from 500 to 599; otherwise the call ends as the attempt did. |
| `Acceptance.ChunkAcceptedIff` | crates/woof-llm/src/chat.rs:633-691 | A chunk is accepted if and only if the text and the calls that the wire spells up to then are within all five limits, and the calls are then exactly those. |
| `Acceptance.EventsEndIff` | crates/woof-llm/src/chat.rs:449-459 | What the events of a stream come to, told from the wire data: a completion if and only if a done event comes first, the limits are kept and every call has an id, a name and arguments that parse; a failure when a limit is passed or something is no chunk; nothing yet while there are only chunks. |
| `Acceptance.AttemptEndsIff` | crates/woof-llm/src/chat.rs:414-462 | So for every opened stream of valid blocks, in any chunks within the limit, how its attempt ends: by its events, or else by the cancellation, the transport error or the end that broke it off. |
| `Acceptance.UnopenedAttempt` | crates/woof-llm/src/chat.rs:398-413 | An attempt cancelled before or while opening ends the call as cancelled; one that the transport refuses is broken off with that error. |
| `Acceptance.BadChunkEnds` | crates/woof-llm/src/chat.rs:449-450 | A chunk that does not fit or completes a block that is not UTF-8 ends the call as an invalid stream. |
| `ChatStream.ReadIsProcessing` | crates/woof-llm/src/chat.rs:414-460 | Reading valid chunks that fit is processing the events of their concatenation. |
| `ChatStream.ChunkingKeepsTheCall` | crates/woof-llm/src/chat.rs:385-463 | Two transports that give the same bytes in different chunks within the limit give the same events and the same result, over all attempts. |
| `Identities.SortSorts` | crates/woof-search/src/index.rs:75-81 | The records of a build are put in the order of their identities, none lost or repeated. |
| `Identities.NeighboursTellAll` | crates/woof-search/src/index.rs:83-90 | Comparing neighbours of the sorted records finds a duplicate if and only if there is one. |
| `VectorIndex.VectorIndex.Upsert` | crates/woof-search/src/index.rs:197-250 | An upsert, its deletion of blank records, every native failure and the restore of the old embedding included, is its specification. |
| `VectorIndex.VectorIndex.Delete` | crates/woof-search/src/index.rs:270-287 | A delete checks the identity behind the key before it removes from graph and records. |
| `VectorIndex.VectorIndex.RefreshMetadata` | crates/woof-search/src/index.rs:255-268 | A refresh changes the time of the owning record only. |
| `VectorIndex.VectorIndex.Rebuild` | crates/woof-search/src/index.rs:60-130 | A rebuild replaces the index by a complete build or changes nothing. |
| `VectorIndex.UpsertAnswers` | crates/woof-search/src/index.rs:197-250 | Each answer of an upsert, if and only if the known record, the embedding and the native failures call for it. |
| `VectorIndex.DeleteAnswers` | crates/woof-search/src/index.rs:270-287 | The same for a delete. |
| `VectorIndex.RefreshAnswers` | crates/woof-search/src/index.rs:255-268 | A refresh succeeds if and only if its record owns the key, and then changes the time of that entry and nothing else. |
| `VectorIndex.UpsertKeeps` | crates/woof-search/src/index.rs:197-250 | A successful upsert takes the record into what the index stands for; a failed one leaves the index as it was unless the error is InvalidIndexContainer, which needs two native failures. |
| `VectorIndex.DeleteKeeps` | crates/woof-search/src/index.rs:270-287 | A successful delete removes exactly its record; a failed one changes nothing. |
| `VectorIndex.BuildRepresents` | crates/woof-search/src/index.rs:70-130 | A build succeeds only on distinct identities and then stands for exactly the records that are not blank, whatever their order. |
| `VectorIndex.BuildSucceedsIff` | crates/woof-search/src/index.rs:60-130 | A build succeeds if and only if the embedder has a signature, identities and keys are distinct, every text that is not blank embeds and the native graph refuses nothing. |
| `VectorIndex.RepresentationIsUnique` | crates/woof-search/src/index.rs:45-49 | Two indexes that stand for the same records are equal, graph and records. |
| `IndexService.RunsKeepSound` | crates/woof-search/src/index.rs:197-287 | Every run of builds, upserts, deletes and content-preserving refreshes, with any native failures short of a lost embedding, keeps graph and records on the same keys and on the current source. |
| `IndexService.RunsEqualRebuild` | apps/woof_d/src/semantic.rs:115-146 | After any such run the index equals a fresh build from the current records and index_matches accepts it. |
| `IndexService.MatchesIffSameRecords` | apps/woof_d/src/semantic.rs:232-252 | index_matches holds if and only if the signature and the records are those of a fresh build; it does not see the embeddings. |
| `IndexService.RefreshIsExact` | crates/woof-search/src/index.rs:255-268 | A refresh gives the index of the new record if and only if its text is not blank and embeds like the text before. |
| `IndexService.StaleEmbeddingIsAccepted` | apps/woof_d/src/semantic.rs:232-252 | Otherwise the graph differs from a fresh build, and index_matches accepts it all the same. |
| `LiveIndex.RunsKeepRows` | apps/woof_d/src/lib.rs:2347-2379 | Over every run of captures, refreshes, forgotten rows and builds, each row whose last embedding was not refused is held with its own text and time. |
| `LiveIndex.EventTells` | apps/woof_d/src/lib.rs:2298-2339 | Which rows there are after an event and which are noted as refused: a row by a refused upsert of its own, until an accepted one or a build. |
| `LiveIndex.AcceptedIsFreshIff` | apps/woof_d/src/semantic.rs:232-252 | After any such run from a build, an index that index_matches accepts equals a fresh build if and only if each row whose last upsert was refused, and that no later upsert or build took in, embeds as the graph has it. |
| `LiveIndex.RefusedUpsertGoesStale` | apps/woof_d/src/lib.rs:2317-2323 | It happens: a capture continues a row with a text that embeds differently, its upsert is refused and the sequence goes on, and the next capture of the same text refreshes the row; the index is then accepted and differs from a fresh build. |
| `IndexService.RefreshHeals` | apps/woof_d/src/semantic.rs:132-146 | Refreshing a row that is missing from the index, or unchanged in content, leaves the index holding it. |
| `IndexService.SemanticSearchService.Rebuild` | apps/woof_d/src/semantic.rs:95-111 | A rebuild is saved; when the save fails the older file is removed. |
| `IndexService.SemanticSearchService.UpsertPersistedSnapshot` | apps/woof_d/src/semantic.rs:115-127 | The row is upserted and the file written; a missing row is an error without effect. |
| `IndexService.SemanticSearchService.RefreshPersistedSnapshotMetadata` | apps/woof_d/src/semantic.rs:132-146 | The metadata is refreshed, or the row upserted when it is missing, and the file written. |
| `Container.EncodeContainer` | crates/woof-search/src/index.rs:399-432 | The growing buffer is the specified container; lengths beyond 64 bits are refused. |
| `Container.DecodesEncoding` | crates/woof-search/src/index.rs:399-493 | Every container with metadata within the limit and a graph that is not empty decodes to its own parts. |
| `Container.EncodesDecoding` | crates/woof-search/src/index.rs:440-493 | The container is canonical: whatever decodes is the encoding of the parts it decodes to. |
| `Container.DecodesIffEncoding` | crates/woof-search/src/index.rs:399-493 | So a byte string decodes to some parts if and only if they are storable and it is their encoding. |
| `Container.ConfiguredIffPreamble` | crates/woof-search/src/index.rs:441-462 | The nine header checks together are equality with the one header this build writes. |
| `Container.LayoutOf` | crates/woof-search/src/index.rs:399-432 | Where a container has its counts, lengths, checksum, metadata and graph; the checksum is that of everything behind the header. |
| `Container.PreambleBytes` | crates/woof-search/src/index.rs:399-432 | The 24 bytes every container begins with, written out. |
| `Container.PayloadIsChecked` | crates/woof-search/src/index.rs:473-487 | Under one header, two payloads that both decode have equal hashes. |
| `ByteStrings.LeRoundTrip` | crates/woof-search/src/index.rs:495-520 | Little-endian integers read back as written. |
| `ByteStrings.LeCanonical` | crates/woof-search/src/index.rs:495-520 | And their bytes are the only ones that read as that number. |
| `IndexFile.SavedIsLoaded` | crates/woof-search/src/index.rs:291-347 | A consistent index that is saved loads back equal. |
| `IndexFile.LoadedIsConsistent` | crates/woof-search/src/index.rs:308-347 | Whatever loads has the same keys in graph and records, each derived from its record’s identity. |
| `IndexFile.LoadsIff` | crates/woof-search/src/index.rs:308-347 | A file loads as an index if and only if it is a container whose metadata has the version, the signature and the records of that index, each once and as many as the header says, whose graph is its graph, and the index is consistent. |
| `Markers.MatchesAround` | crates/woof-capture/src/redact.rs:272-281 | A marker put between two texts adds one match of itself and neither adds nor removes a match of any other marker. |
| `Redaction.MarkersAreDistinct` | crates/woof-capture/src/redact.rs:513-530 | Markers of one redaction with different numbers differ, whatever their kinds. |
| `Redaction.MarkerTells` | crates/woof-capture/src/redact.rs:513-530 | A marker tells its kind and its number. |
| `Redaction.CutsAround` | crates/woof-capture/src/redact.rs:532-583 | Putting one untouched marker back commutes with all later cuts: sequential and simultaneous replacement agree. |
| `Redaction.LaterCutsCount` | crates/woof-capture/src/redact.rs:532-583 | A marker occurs once in the redacted text if no later pass touched it, and otherwise not at all. |
| `Redaction.RoundTrip` | crates/woof-capture/src/redact.rs:272-288 | For every input, nonce fresh for it and choice of spans, restoring the redacted text gives the input back exactly if no cut touched an earlier marker, and otherwise reports a missing placeholder. |
| `Redaction.MarkersTellIfUndisturbed` | crates/woof-capture/src/redact.rs:272-288 | A caller can tell beforehand: no cut touched an earlier marker if and only if the redacted text shows the marker of every slot once. |
| `Redaction.SwallowedMarkerIsMissing` | crates/woof-capture/src/redact.rs:441-502 | A later pass over the whole text makes the round trip fail for every input and every earlier span. |
| `Rewriting.RestoreJudgesRewrite` | crates/woof-capture/src/redact.rs:272-288 | For any rewrite that keeps, drops, repeats, moves or forges markers, restoring succeeds with every value in place exactly when each marker is kept once and none is forged, and otherwise names the first fault, provided the text around the values does not spell the prefix. |
| `Rewriting.CutSlotsAreValid` | crates/woof-capture/src/redact.rs:513-530 | The slots of every redaction meet the conditions of that result. |
| `Redactor.RestorableRedaction.ReplaceRestorable` | crates/woof-capture/src/redact.rs:532-583 | One left-to-right pass makes exactly the cuts of its spans and pushes their values in order. |
| `Redactor.RestorableRedaction.RedactRestorable` | crates/woof-capture/src/redact.rs:341-400 | All passes in their order, each on the text the last one left. |
| `Redactor.RestorableRedaction.Restore` | crates/woof-capture/src/redact.rs:272-288 | The restoring loop is its specification, error by error. |
| `Redactor.PassRewrites` | crates/woof-capture/src/redact.rs:532-583 | One pass leaves the text outside its spans as it was and puts one marker in place of each span, numbered on. |
| `Redactor.RestorableRedaction.RestoreOwnText` | crates/woof-capture/src/redact.rs:272-288 | Restoring one’s own redacted text gives the input, or reports a missing placeholder when a pass disturbed a marker. |
| `Redactor.OnePassIsUndisturbed` | crates/woof-capture/src/redact.rs:532-583 | The spans of a single pass never touch each other’s markers, so one pass always restores. |
| `Fields.NormalizeInto` | crates/woof-capture/src/model.rs:495-514 | The growing buffer, given up at the first word that does not fit, is the normalized text or none when that is too long. |
| `Fields.NormalizeIsIdempotent` | crates/woof-capture/src/model.rs:495-514 | Normalizing again changes nothing. |
| `Fields.NormalizeCollapses` | crates/woof-capture/src/model.rs:495-514 | Normalizing keeps every other character in its order, makes one space of white space between two and drops it at the ends. |
| `Fields.NormalizedIsOneLine` | crates/woof-capture/src/model.rs:495-514 | A normalized field has no line break, no white space at its ends and only plain spaces inside. |
| `Fields.LinesSplitBack` | crates/woof-capture/src/model.rs:436-449 | Joined lines split back into the same lines. |
| `Accessibility.IntersectsIffShared` | crates/woof-capture/src/model.rs:24-46 | Two rectangles intersect if and only if they share a point. |
| `Accessibility.IsAboveIff` | crates/woof-capture/src/model.rs:48-56 | A rectangle is above another if and only if it ends where that begins or higher and they have a column in common. |
| `Accessibility.AlignmentIff` | crates/woof-capture/src/model.rs:471-493 | An element is left or right if and only if its center is beyond a tenth of the composer’s width from that of the composer. |
| `Accessibility.PasswordRoleIff` | crates/woof-capture/src/model.rs:522-527 | An element is a password field if and only if its role or subrole names one, in any case of letters. |
| `Accessibility.EditableRoleIff` | crates/woof-capture/src/model.rs:529-534 | An element is editable if and only if its role or subrole is one of the five names, in any case of letters. |
| `ContextSelector.SortIsStable` | crates/woof-capture/src/model.rs:403-405 | Candidates are ordered by their bottom edge, and equal edges keep the order of traversal. |
| `ContextSelector.NewestKeepsLine` | crates/woof-capture/src/model.rs:407-416 | Dropping older duplicates keeps every line. |
| `ContextSelector.NewestHasNoRepeats` | crates/woof-capture/src/model.rs:407-416 | And leaves none twice. |
| `ReadingOrder.NewestAreLast` | crates/woof-capture/src/model.rs:407-416 | Of each line exactly the last candidate is kept, in order. |
| `ContextSelector.FindComposerPath` | crates/woof-capture/src/model.rs:280-314 | The search finds the path to the only focused editable element that no guarded one hides, and tells when there are several. |
| `ReadingOrder.ComposersAreListed` | crates/woof-capture/src/model.rs:280-314 | The paths found are exactly those to the focused editable elements that no guarded element hides, each place in the tree once and in the order of reading. |
| `ReadingOrder.OneComposerIff` | crates/woof-capture/src/model.rs:280-314 | One path is found if and only if one place in the tree has such an element, and it is the way to that place. |
| `ReadingOrder.HoldsContextIff` | crates/woof-capture/src/model.rs:58-81 | What a context root is, in terms of its role, its rectangle and that of the composer. |
| `ContextSelector.ContextRootIsNearest` | crates/woof-capture/src/model.rs:321-336 | The context root is the nearest proper ancestor, below the window, with room above the composer. |
| `ContextSelector.CollectInto` | crates/woof-capture/src/model.rs:338-392 | Collecting appends the eligible fields of the subtree in the order of traversal. |
| `ReadingOrder.CollectReadsAll` | crates/woof-capture/src/model.rs:338-392 | Collected are the candidates of every element that is neither guarded nor editable nor below such an element, and of no other, in the order of reading. |
| `ReadingOrder.WaysAreListed` | crates/woof-capture/src/model.rs:338-392 | That order lists every place reached through open elements once, a parent before its children and the children from first to last. |
| `ReadingOrder.OwnAreKept` | crates/woof-capture/src/model.rs:358-380 | An element that shows gives its title, its value and its description, each if it is not blank and not too long by itself. |
| `ReadingOrder.ShowsIff` | crates/woof-capture/src/model.rs:353-357 | An element shows if and only if it shares a point with the screen and one with the context and is above the composer. |
| `ContextSelector.StopsAtLongest` | crates/woof-capture/src/model.rs:407-435 | The walk from the bottom stops at the longest suffix that fits: every shorter one fits and no longer one does. |
| `RecentContext.RecentVisibleContextBounded` | crates/woof-capture/src/model.rs:270-452 | For every tree and bounds the output is exactly the longest suffix of the eligible candidates that fits both limits, or none where geometry is missing or ambiguous. |
| `ReadingOrder.ScopeIff` | crates/woof-capture/src/model.rs:270-336 | There is a scope if and only if the only composer is on the screen and an ancestor below the root can be the context root; the nearest one is. |
| `ReadingOrder.EligibleIff` | crates/woof-capture/src/model.rs:403-416 | A candidate is eligible if and only if it was collected and no other with the same line is lower; they are ordered by their bottom edge. |
| `RecentContext.ContextSplitsBack` | crates/woof-capture/src/model.rs:270-452 | The output is within both limits and splits back into whole normalized fields, each with the prefix of its alignment. |
| `RecentContext.LinesComeFromOpenElements` | crates/woof-capture/src/model.rs:338-392 | No line comes from a protected or password element or from below one; a line comes from below an editable element if and only if one lies above the context root on the way to the composer. |
| `RecentContext.EditableAncestorIsPossible` | crates/woof-capture/src/model.rs:321-336 | Such an editable ancestor is possible: a tree whose message line comes from below an unfocused text area. |
| `VisibleText.VisibleTextBounded` | crates/woof-capture/src/model.rs:192-254 | The text is at most the limit, made of whole normalized fields in the order of traversal that no guarded element hides, without adjacent duplicates; which fields are left out when there is no room is stated, and all are there when they fit. |
| `ReadingOrder.AddAllReadsAll` | crates/woof-capture/src/model.rs:192-254 | With room for everything the text has the fields of every element that no guarded one hides, in the order of reading. |
| `ReadingOrder.OwnFieldsAreAdded` | crates/woof-capture/src/model.rs:205-238 | Of an element the title, the value and the description are added, in this order. |
| `ReadingOrder.FitFieldsIs` | crates/woof-capture/src/model.rs:205-238 | In bounded room an element gives the first of its fields that are not too long by themselves, and is given up at the next one if and only if that does not fit. |
| `Modifier.ModifierStateMachine.HandleInput` | crates/woof-inline/src/modifier.rs:169-285 | A press or a release changes press and last tap, and says, what the specification does. |
| `Modifier.ModifierStateMachine.PollAt` | crates/woof-inline/src/modifier.rs:176-190 | A poll starts a hold when the press has lasted long enough. |
| `Modifier.ModifierStateMachine.CancelPress` | crates/woof-inline/src/modifier.rs:192-201 | A cancel clears both and ends an open hold. |
| `Modifier.HoldsAlternate` | crates/woof-inline/src/modifier.rs:169-285 | In every run hold starts strictly alternate with releases and cancels, and a hold is open exactly when the stored press has started. |
| `ModifierRuns.PollsDoNotMatter` | crates/woof-inline/src/modifier.rs:176-190 | With monotone time, removing all polls from a run changes its events only by holds that were cancelled, and its state only by a hold announced early. |
| `ModifierRuns.PollingChangesNothing` | crates/woof-inline/src/modifier.rs:176-190 | Where nothing is cancelled and no hold is open, a run with polls and the run without them give the same events and state. |
| `ModifierRuns.DoubleTapsAreApart` | crates/woof-inline/src/modifier.rs:228-285 | With distinct keys, every invocation is two short taps of the inline key within the interval, and no tap belongs to two invocations. |
| `ModifierRuns.TwoStrokesInvokeIff` | crates/woof-inline/src/modifier.rs:228-285 | Two strokes from rest invoke if and only if both are short and their releases are close. |
| `ModifierRuns.PollsInStrokeDoNotMatter` | crates/woof-inline/src/modifier.rs:169-285 | From any state, polls between a press and the release of the same key change neither what has been said after the release nor the state. |
| `ModifierRuns.StrokeHoldsIff` | crates/woof-inline/src/modifier.rs:228-285 | A stroke of the hold key, polled any number of times at monotone times, talks if and only if it lasts. |
| `ModifierRuns.StrokeMeans` | crates/woof-inline/src/modifier.rs:203-285 | From any last tap, a press and its release talk, invoke or leave a tap behind exactly as the duration, the configured keys and the other modifiers say; the shared key included. |
| `ModifierRuns.InterruptionMeans` | crates/woof-inline/src/modifier.rs:203-226 | Another key cancels an open hold and takes over if it is configured; repeats and releases of other keys are ignored. |
| `ModifierRuns.PollMeans` | crates/woof-inline/src/modifier.rs:176-190 | A poll announces a hold exactly when an eligible press of the hold key has lasted, once. |
| `ModifierRuns.SharedStrokeIff` | crates/woof-inline/src/modifier.rs:228-285 | A key for both talks if its stroke lasts, invokes at once if it is short and does nothing between, however often it is polled. |
| `Clipboard.ValidateSnapshotLimits` | crates/woof-inline/src/clipboard.rs:110-133 | The accumulating check accepts a snapshot if and only if it is within all four limits. |
| `Clipboard.LimitsIff` | crates/woof-inline/src/clipboard.rs:110-133 | A snapshot is refused if and only if it has more than 64 items, an item of more than 128 types, a type identifier of more than a kilobyte or more than 32 mebibytes of data. |
| `Clipboard.Pasteboard.Restore` | crates/woof-inline/src/macos/clipboard.rs:87-111 | The contract of a native restore: it writes only over the revision it has just checked, our own last write, and says whether it had claimed the pasteboard when it failed. Check and claim are one step here. |
| `Clipboard.ClipboardRestoration.Restore` | crates/woof-inline/src/clipboard.rs:156-163 | A restore that succeeds is not done twice; one that fails keeps the snapshot for the drop. |
| `Clipboard.WithTemporaryText` | crates/woof-inline/src/clipboard.rs:76-108 | Against arbitrary external writes: none is overwritten and the last one is what is left; without one the original contents are back at every return unless two restores failed; a success means they are back; the action sees the temporary text; undisturbed calls give exactly the result of the action or of the step that refused. |
| `Clipboard.UninterruptedMeans` | crates/woof-inline/src/clipboard.rs:76-108 | Left alone, the action runs if and only if there is a snapshot within the limits and the text can be written, and the result is then that of the action, otherwise the first of these failures. |
| `InlineSession.InlineSession.Deliver` | crates/woof-inline/src/session.rs:105-145 | Each delivery of a session adds exactly the calls of its specification and gives its result, touches the clipboard only for the fallback, and gives it back before reporting a paste; a released session adds none. |
| `InlineSession.InlineSession.Paste` | crates/woof-inline/src/session.rs:127-130 | The paste runs under the borrowed clipboard, right after one more validation, and its success means that the clipboard is as before. |
| `InlineSession.InlineSession.PasteOrType` | crates/woof-inline/src/session.rs:127-144 | A paste under the borrowed clipboard, and typing exactly after the errors that leave nothing inserted. |
| `InlineSession.DeliveryIsSafe` | crates/woof-inline/src/session.rs:105-145 | Whatever target, injector and clipboard answer, every paste and every typing directly follows a successful validation, at most one insertion is made, and a success names it. |
| `InlineSession.DeliverySucceedsIff` | crates/woof-inline/src/session.rs:105-145 | Each of the five ways of a successful delivery, if and only if the answers of target, clipboard and injector lead to it. |
| `InlineSession.RefusalIsReturned` | crates/woof-inline/src/session.rs:105-145 | A refused delivery returns the refusal that stopped it. |
| `InlineSession.InlineSession.Cleanup` | crates/woof-inline/src/session.rs:186-193 | The target is released once, however often the session is cancelled and dropped. |
| `McpFrames.Input.ReadLineLimited` | apps/woof-mcp/src/lib.rs:468-497 | The line read, the failure at the limit and what remains depend only on the bytes, not on how they are buffered. |
| `McpFrames.Input.ReadExact` | apps/woof-mcp/src/lib.rs:455-457 | A body is read whole or the end of input is reported. |
| `McpFrames.ReadHeaderLines` | apps/woof-mcp/src/lib.rs:435-454 | Header lines up to a blank one, within the line, byte and count limits, a second content length refused. |
| `McpFrames.ReadFrameFrom` | apps/woof-mcp/src/lib.rs:414-466 | Reading a frame from chunks is reading it from their concatenation, with every limit and error. |
| `FrameHeads.ParsesIff` | apps/woof-mcp/src/lib.rs:518-528 | A number parses if and only if it is digits, after a plus sign or not, and its value fits 64 bits. |
| `FrameHeads.LengthMeans` | apps/woof-mcp/src/lib.rs:518-528 | The length of a header is the number after its first colon, refused if the header is not UTF-8, the number does not parse or it is more than a mebibyte. |
| `FrameHeads.LengthHeaderIff` | apps/woof-mcp/src/lib.rs:499-503 | A line is a length header if and only if it begins with the name and its colon, in any case of letters. |
| `FrameHeads.HeadThenBody` | apps/woof-mcp/src/lib.rs:429-459 | A length header, other header lines within the limits, a blank line and a body are read as that body, whatever follows. |
| `FrameHeads.BlankLinesAreSkipped` | apps/woof-mcp/src/lib.rs:418-428 | Blank lines before a frame are skipped if and only if there are at most eight and each is within the limit of a first line. |
| `FrameHeads.SecondLengthIsRefused` | apps/woof-mcp/src/lib.rs:435-454 | A second length among the header lines is refused, as a bad length or, past the limits, as too large. |
| `FrameHeads.HeadersEndAtBlank` | apps/woof-mcp/src/lib.rs:435-454 | Other header lines up to a blank one are passed over if and only if each line, all of them and their number are within the limits. |
| `McpFrames.TrimEnding` | apps/woof-mcp/src/lib.rs:509-516 | The result is the line without one line end: what is removed is nothing, a line feed, or a carriage return and a line feed; nothing exactly when the line does not end in a line feed, and no carriage return is left before a removed line feed. |
| `FrameWriter.WriteFrame` | apps/woof-mcp/src/lib.rs:530-552 | The writes together are the frame’s header or line form. |
| `FrameWriter.HeaderParses` | apps/woof-mcp/src/lib.rs:518-528 | A header this writer makes parses to its length. |
| `FrameWriter.LengthFrameReadsBack` | apps/woof-mcp/src/lib.rs:414-466 | A length frame within the size limit is read back, whatever its body and whatever follows. |
| `FrameWriter.LineFrameReadsBackIff` | apps/woof-mcp/src/lib.rs:460-464 | A line frame is read back if and only if its body is within the limit, not blank, without line feed, trailing carriage return or content-length prefix. |
| `FrameWriter.FramesReadBack` | apps/woof-mcp/src/lib.rs:414-552 | Any list of such frames, in mixed modes, reads back as the same list, whatever follows. |
| `FrameWriter.RoundTrip` | apps/woof-mcp/src/lib.rs:414-552 | And does so from any chunks of the bytes written. |
| `Utf16.DecodesEncoding` | crates/woof-inline/src/utf16.rs:3-18 | Encoding a text in UTF-16 loses nothing. |
| `Utf16.EncodesDecoding` | crates/woof-inline/src/utf16.rs:3-18 | Only the encoding of a text decodes to it. |
| `Utf16.Chunks` | crates/woof-inline/src/utf16.rs:21-40 | Chunks join to the input, are within the limit, never empty and each a text of its own, so no surrogate pair is split; each but the last is full, or one short before a pair; they exist if and only if two units fit or no character needs two. |
| `Utf16.SliceIsChars` | crates/woof-inline/src/utf16.rs:3-7 | An accepted range is a run of whole characters, and slicing gives them. |
| `Utf16.ReplaceIsChars` | crates/woof-inline/src/utf16.rs:9-18 | An accepted replacement gives the characters around the range with the replacement between them. |
| `Utf16.FailsOnlyOnBadRange` | crates/woof-inline/src/utf16.rs:42-58 | Slicing and replacing fail if and only if the range overflows, ends outside or splits a pair. |
| `Utf16.RangeIsValidIff` | crates/woof-inline/src/utf16.rs:42-58 | A range is valid if and only if its end fits 64 bits and both ends lie between characters of the text. |
| `Utf16.ReplaceByOwnSlice` | crates/woof-inline/src/utf16.rs:3-18 | Replacing a range by its own slice is the identity. |
| `Utf16.SliceOfReplaced` | crates/woof-inline/src/utf16.rs:3-18 | Slicing the replaced range gives the replacement. |
| `Utf16.ReplaceInPlace` | crates/woof-inline/src/utf16.rs:9-18 | The splice of one vector is the specified replacement. |
| `Checksums.IsValidIban` | crates/woof-capture/src/redact.rs:741-773 | The streaming remainder equals the whole rearranged number modulo 97, and no step leaves 32 bits. |
| `Checksums.RemainderStep` | crates/woof-capture/src/redact.rs:762-772 | One character of the stream keeps the remainder, with an intermediate value far below 2^32. |
| `Checksums.OneChangeIsDetected` | crates/woof-capture/src/redact.rs:741-773 | Changing one digit to another digit or one letter to another letter of a valid IBAN, compact and in capitals, always makes it invalid. |
| `Checksums.CheckDigitsAreValid` | crates/woof-capture/src/redact.rs:741-773 | The check digits of ISO 13616, 98 less the remainder with 00 in their place, make a well-formed number valid. |
| `Checksums.ExampleIsValid` | crates/woof-capture/src/redact.rs:741-773 | The Norwegian example of the registry of ISO 13616 is valid. |
| `Checksums.WrongCharacterIsDetected` | crates/woof-capture/src/redact.rs:741-773 | Typing one digit for another or one letter for another in a candidate, in either case and with any white space around, is never accepted twice: both candidates cannot be valid. |
| `Checksums.IsValidCardNumber` | crates/woof-capture/src/redact.rs:702-728 | Adding up the weighted digits from the right decides length, repetition and the Luhn sum of the specification. |
| `Checksums.CardNumberIff` | crates/woof-capture/src/redact.rs:702-728 | A candidate is a card number if and only if it has 13 to 19 digits, not all the same, whose sum from the right, every second one doubled from the second on, is a multiple of ten. |
| `Checksums.OneDigitShows` | crates/woof-capture/src/redact.rs:708-728 | Changing one digit anywhere changes the Luhn sum modulo 10, whatever the sum was. |
| `Checksums.CardsDifferVisibly` | crates/woof-capture/src/redact.rs:702-728 | Two candidates whose digits differ in one place are never both valid. |
| `Checksums.WrongDigitIsDetected` | crates/woof-capture/src/redact.rs:702-728 | Typing one digit for another in a candidate, with any separators around it, makes a valid card number invalid. |

## Left out

- SQLite storage: a map of snapshots and chronicles with atomic operations stands for it; prompts, model output checks and the limit on snapshots of one hour are not modelled.
- Time zones and daylight saving: the offset is fixed, so a local day always has 24 hours.
- Period keys: a key is the number of its period, not the formatted string, so years whose formatting has more or fewer than four digits are not told apart from others.
- Scheduler.MemoryScheduler.RunDueOnce: begins where the gate has admitted the run and the key has been resolved; a refused key before that ends the run without effect and is not modelled.
- Scheduler.MemoryScheduler.GenerateRollup: an attempt is one step, so the catch-up results speak of runs during which nothing arrives and nothing is deleted; RollupAttempts takes the steps apart and says when an attempt still acts as one.
- CatchUp.RunsKeepSealed: snapshots do not arrive during a run, as the runs it speaks of are over a fixed set; RollupAttempts has the results with arrivals.
- RollupAttempts.PartialIffLate: attempts follow each other, as MemoryGate.RunsAreSerial shows; which snapshots an hour chronicle was made from is not recorded, so a snapshot that arrives in an hour after its snapshots were read is outside it.
- LiveIndex.AcceptedIsFreshIff: a restore of an older embedding that fails loses a vector and is reported as a broken container; runs end there. Saving the file has no part in it.
- MemoryGate.LeaseExcludesRuns: the gate and the data epoch are separate machines; DataEpoch lets a period begin at any moment, which is more than the gate allows, so its results need no assumption about the gate.
- MemoryGate.FreeGateGrantsLease: says that a free gate grants a lease; fairness of the lock queues, and so progress under contention, is not modelled. Panics and poisoned locks are left out.
- DataEpoch.NoStaleWriteCommits: for captures it speaks of delete-alls only, since a prune takes no policy lease; other users of the mutation lock write nothing observed earlier and are left out.
- CaptureLoop.CaptureLoop.Run: blacklist changes, back-off, runtime status, working memory and the semantic refresh after a persist have no part in the rows and are left out; that a pause happens only under the exclusive lease is assumed, as the handlers do it.
- CaptureLoop.CaptureLoop.DoHandle: a row that retention has pruned is still a row of the model, so freshness of an id is claimed across delete-alls only.
- The preservation of a user's resume that races a delete-all: capture_resume takes no lease.
- Transcript.SessionPublishesTranscript: the audio source, audio commands and levels, the turn counters of the realtime client and the joining of the final transcript are left out; each is settled by reading it.
- ChatStream.ChatClient.StreamChat: the lengths of retry delays, request encoding and the tool-call rounds around the stream are left out; JSON is a parser function.
- Sse.SseDecoder.Push: leading white space of a data line is removed by a function, as the decoder trims all of it while the standard removes one space.
- VectorIndex.VectorIndex.Upsert: the native graph is a map from key to embedding; approximate search, hybrid ranking and floating point are not modelled.
- IndexFile.SavedIsLoaded: the metadata JSON and the native serialization are a printer and a parser that undo each other; atomic file replacement and permissions are left out.
- Redactor.RestorableRedaction.RedactRestorable: the regular expressions, the social security check, the irreversible redaction and the loop that draws a fresh nonce are left out; freshness of the nonce is the precondition of the results.
- Zeroization of buffers: it has no effect on results.
- Clipboard.WithTemporaryText: another program writes between our pasteboard operations, not inside one of them.
- Clipboard.Pasteboard.Restore: the check of the revision and the native clear are one step; natively a write of another program between the two is overwritten, and one after the clear is noticed by the next check.
- InlineSession.InlineSession.Deliver: accessibility targets and input injection are scripts, and a paste or typing that reports failure counts as not inserted; the draft preview calls are left out.
- Checksums.IsValidIban: the regular expressions that find candidates are left out.
- Native macOS code, HTTP routing, request validation, MCP tool arguments, configuration and the desktop interface.
