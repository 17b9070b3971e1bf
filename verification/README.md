# Verified model of the talktoharnesses core

This Dafny project models how talktoharnesses keeps conversations with coding harnesses correct while several workers share one database, together with the pure algorithms the service relies on. Verify it with `dafny verify dfyconfig.toml`.

## What is modelled

**The durable command and lease protocol.** Every conversation row carries an owner, a lease expiry and a fence number. `Commands` holds the merge of stale and fresh command writes, `Processor` a worker's fence bookkeeping, `Database` the atomic transactions on conversation and command rows. `Protocol` interleaves them: any number of workers, each transaction one step, and each worker-local action between two awaits (taking the conversation lock, guard read, started write, draining test, adapter call, the read and the write of a wake, end or crash of a delivery) one step. The per-conversation lock of a worker process is derived from who stands inside it: a delivery past its wait, or the event pump around a wake. The database clock only moves forward. `Invariant` proves one inductive invariant over all steps, `Guarantees` draws the run-level results from it, `Deliveries` the life of a single delivery (which steps it took before any other, and what each of them found), `Effects` what every step does to fences, claims, pending releases and rows, and `Witnesses` gives the runs that show where the conditions of those results are needed. `AnswerDelivery` runs it side by side with the answers of `Interactions`. `Coordinator` is the phase machine of one worker: lease, heartbeat, takeover recovery, drain.

**The conversation's records.** `EventLog` covers batch, facade, import and prune commits under optimistic concurrency; `Interactions` the first-write-wins answers with crash reconciliation; `Batching` the event pump's batcher, its rebase after version conflicts, and what every batch that leaves it is; `Recovery` the classification and settlement of what a lost worker left.

**Algorithms with a simpler meaning.** `TextSearch` (token counting and ranking in Python and in SQL), `Snippets`, `Redaction` (streaming), `Sse` and `SseFields` (frame decoding, and the round trip with the frames the server writes), `Retention` (calendar cutoff, preview and cleanup), `Transcripts` (transcript and handoff), `Paging` and `Cursors`.

`Wrappers`, `Sorting` (a stable sort, and uniqueness of the result where no two keys are equal) and `Texts` (find and replace) are shared helpers.

Methods on classes follow the code that updates state in place; each is proved equal to a function of the old state, and the lemmas are about that function.

## Conventions

A worker id stands for one run of one worker process, which the code only approximates (see Left out). Integers are unbounded, as in Python. Database queries that answer with locked rows are parameters constrained by what their filter and order promise; the outcome of each commit attempt, probe or adapter call is a parameter and may be anything. The transitions of `src/talktoharnesses/domain/transitions.py` appear through what they do to event numbers, versions, commands and interactions.

## What the proofs found

These are statements about the code as it is, each with a lemma beside it.

- One adapter call per release needs three conditions: a delivery's write passes only under the fence its own claim returned, the guard finds the command in the aggregate unless its row is open, and a wake passes only under the fence that was installed when it was read. The code takes the fence installed at the time of the write (`command_processor.py:232-244`) and skips the guard for an absent command (`command_processor.py:357-394`), so each condition has a concrete run that calls twice without it alone (`ForeignFenceCallsTwice`, `AbsentCommandCallsTwice`, `StaleWakeCallsTwice`), and an exact condition: a started write is safe exactly if no call was made or is coming since the last release (`StartedWriteIsSafeExactlyWhen`), an absent guard exactly if that is so or its fence is no longer the present one (`AbsentGuardIsSafeExactlyWhen`), a wake exactly if no call is coming or it is dropped as stale (`WakeWriteIsSafeExactlyWhen`).
- The version check serializes what moves the version, no less and no more: event-bearing commits, and the interrupt and switch requests, which raise the version without an event (`service.py:1040-1057`, `service.py:1121-1138`). Commits with neither are not serialized: two of them built from one snapshot both succeed (`SecondWriterConflicts`).
- So an event-less commit built before the release of an answer can drop the answer command from the conversation state (`EventlessCommitDropsCommand`), exactly if a commit from a state without it goes through (`CommandStaysExactlyWhen`). The answer's row keeps the command, which is what protects it from a second one (`NeverASecondCommand`). Its delivery is not protected: the next guard does not find the dropped command, and a joint run delivers the answer twice (`DroppedAnswerIsCalledTwice`); while the state lists it, it is called once (`ListedAnswersAreCalledOnce`).
- A suppressed answer of a cancelled interaction gets an answer command whenever it is released, as a manual resolution does (`ResolveManual`, `SuppressedAnswerGetsCommand`); releases are all that decides (`CommandExactlyWhenReleased`).
- A rebase re-dispatches only inputs that produced events; an input with no event is lost, harmless exactly if it would do nothing on the reloaded state (`RebaseLosesExactly`).
- The branch of outcome-unknown recovery for a harness switch settles only the switch command; other ambiguous commands stay ambiguous (`SwitchLeavesTheOthers`).
- Live work is continued exactly if no delivery is ambiguous and a delivered command leads the list or recovery has no interest in any command (`LiveWorkContinuesExactlyWhen`); one old command with an unknown outcome is enough to leave it alone (`OldUnknownHidesLiveWork`).
- A service start whose worker lease is lost during the initial recovery enables claims without a lease (`StartCanClaimWithoutLease`); the comment at `worker_coordinator.py:224` leaves that to the takeover.
- SSE chunking matters exactly for streams in which some frame holds a blank line, which needs mixed line ends (`ChunkingIsIrrelevantExactlyWhen`); data with a Unicode line separator or with white space at the start of a line does not come back (`RoundTripExactlyWhen` in `SseFields`).
- The retention cutoff can move back while the clock moves forward, at clamped month ends (`CutoffCanMoveBack`), and the preview counts a waiting turn twice exactly if its own row is an expired terminal one (`PreviewPredictsCleanup`).
- Replay stops for good before an event that alone exceeds the byte limit (`ReplayIsCompleteExactlyWhen`).
- Between transcript and handoff nothing but empty turns is lost (`RoundTripExactlyWhen` in `Transcripts`); the domain model rejects documents with such turns (`domain/transcripts.py:83-86`), so every document that passes it comes back.
- Redaction keeps a pattern out, for every text, chunking and choice of other patterns, exactly if the pattern cannot share a position with the marker (`KeptOutExactlyWhen`). Sharing characters is harmless, overlapping is not: a pattern that contains the marker or a piece of it, or one of whose ends starts or ends the marker, can be put together again around a marker. With a single pattern the chunking does not matter exactly if the pattern is the marker or cannot end behind a marker it overlaps (`OneShotExactlyWhen`).

## Model

| member | source | states |
|---|---|---|
| `Commands.InFlightWritesJoin` | src/talktoharnesses/application/persistence.py:43-95 | In-flight writes are a join: after any list of them the stored status rank, attempts, started and delivered marks and lease are the least upper bound of what was stored and what was written, so nothing is lost and nothing is invented |
| `Commands.InFlightOrderIsIrrelevant` | src/talktoharnesses/application/persistence.py:62-95 | Any two orders of the same in-flight writes, repeats included, end in the same progress |
| `Commands.InFlightFieldsAreTheLast` | src/talktoharnesses/application/persistence.py:81-95 | After any list of in-flight writes over a row that is not terminal the started and delivered times, the target turn and the worker are those of the last write that carries one, else the stored ones |
| `Commands.InFlightStatusIsTheFurthest` | src/talktoharnesses/application/persistence.py:76-95 | The status is the furthest that the row or any of the writes has reached; id, conversation, kind, settled and created times and recovery attempt are those of the last write |
| `Commands.TerminalAbsorbs` | src/talktoharnesses/application/persistence.py:62-95 | A terminal row is left exactly as it is by every list of in-flight writes |
| `Commands.AttemptsNeverFall` | src/talktoharnesses/application/persistence.py:62-95 | Attempts never fall, whatever list of writes arrives, explicit releases and terminal writes included |
| `Commands.OneTerminalWriteDecides` | src/talktoharnesses/application/persistence.py:62-95 | One terminal write placed anywhere among in-flight writes fixes the whole final row; only the attempts may be higher than its own |
| `Commands.StaleReleaseIsDropped` | src/talktoharnesses/application/persistence.py:62-95 | A release to ACCEPTED copied from before the latest claim changes nothing, after whatever other writes it arrives |
| `Commands.FreshReleaseDecides` | src/talktoharnesses/application/persistence.py:68-75 | A release that is not stale starts the row anew: what was written before it no longer matters, whatever follows |
| `Commands.MarkSurvives` | src/talktoharnesses/application/persistence.py:62-95 | A delivery-started mark outlasts every list of writes that nowhere erases it explicitly |
| `Processors.HeldFenceIsNeverForgotten` | src/talktoharnesses/application/command_processor.py:214-244 | Once a conversation's fence was installed no later sequence of operations makes its writes unfenced, except for a processor that never got a worker id; exactly then they are |
| `Processors.SpawnStartsEachOnce` | src/talktoharnesses/application/command_processor.py:253-317 | Whatever one claim answer holds and whatever tasks end at the awaits of the loop: no command is started twice, and a claimed one is started exactly if no task of it runs when its row comes up, with a fence installed |
| `Processors.LastStartInstallsItsFence` | src/talktoharnesses/application/command_processor.py:253-317 | After the loop a conversation's fence is that of the last row for it that started a task, no longer lost; where no row started one, fence and lost mark are as before |
| `Processors.CommandProcessor.SetFence` | src/talktoharnesses/application/command_processor.py:218-220 | The fence is installed and the lost mark cleared; no conversation ever held is forgotten |
| `Processors.CommandProcessor.DropFence` | src/talktoharnesses/application/command_processor.py:222-224 | A conversation ever held refuses its writes from here on instead of going unfenced; one never held stays so |
| `Processors.CommandProcessor.FenceKwargs` | src/talktoharnesses/application/command_processor.py:232-244 | Refuses a lost fence, and never answers unfenced for a conversation ever held by an initialized worker |
| `Processors.CommandProcessor.BeginShutdown` | src/talktoharnesses/application/command_processor.py:214-216 | The worker drains, and every write still carries the fence it carried |
| `Processors.CommandProcessor.SpawnClaimed` | src/talktoharnesses/application/command_processor.py:253-293 | The loop over one claim answer ends in the state, the running table and the started list that `SpawnStartsEachOnce` is about |
| `Database.DjangoPersistence.AcquireConversationOwner` | src/talktoharnesses/django/persistence.py:2309-2354 | Fails, changing nothing, exactly if the row is missing or another worker holds a live lease; otherwise the worker owns the row with a fresh lease, under the same fence exactly if it held the row or had no lease on it, else under the next, and every other row is untouched |
| `Database.DjangoPersistence.ClaimCommands` | src/talktoharnesses/django/persistence.py:505-551 | For any answer of the locked query, the answer and both tables are the row-by-row claim that `ClaimAnswerIsUsable` is about |
| `Database.ClaimAnswerIsUsable` | src/talktoharnesses/django/persistence.py:505-551 | After one claim transaction every returned command is stored as claimed by the worker, one attempt up, with the new lease and otherwise as it was, under the fence the database now accepts, although later rows of the answer may share its conversation; commands outside the answer are unchanged and nothing held is lost |
| `Database.ClaimLastsExactly` | src/talktoharnesses/django/persistence.py:512-544 | A claimed command can be claimed again exactly once its lease is over, if nothing was started; from the same moment it counts as expired for a takeover, started or not |
| `Database.DjangoPersistence.UpdateCommand` | src/talktoharnesses/django/persistence.py:597-611 | Lets through exactly the calls for a stored command that are unfenced or carry worker and fence of the live owner, and says which error a refusal is; a refused call changes nothing; an in-flight one leaves a resolved command alone and otherwise stores at least the progress of both; attempts never fall |
| `Database.UpdatesAreMerges` | src/talktoharnesses/django/persistence.py:597-611 | Whatever calls of any workers arrive in whatever order, each command ends as the merge of exactly the copies that were let through, in order; so the join and terminal results on lists of writes hold of the table |
| `Guarantees.DeliveryWriteIsUpdate` | src/talktoharnesses/application/command_processor.py:485-490 | A delivery's write in the protocol is that call under the worker's present fence, and its answer decides how the delivery goes on |
| `Database.DjangoPersistence.ClaimExpiredConversations` | src/talktoharnesses/django/persistence.py:2468-2575 | For any answer of the locked query, the ownerships and the table are those of `TakeoverFencesOut` |
| `Database.TakeoverFencesOut` | src/talktoharnesses/django/persistence.py:2468-2575 | A takeover takes exactly the conversations no other worker holds live; each is held under the next fence with the new lease, so all fences granted before are refused, and all other conversations are unchanged |
| `Database.TakeoverLastsExactly` | src/talktoharnesses/django/persistence.py:2474-2500 | After a takeover another worker finds the conversation again exactly once the lease is over or one of its commands has expired, and gets it, by takeover or claim, exactly once the lease is over |
| `Database.HeldIsExclusive` | src/talktoharnesses/django/persistence.py:2275-2307 | While a worker holds a conversation a fenced write passes if and only if it carries that worker and that fence |
| `Database.DjangoPersistence.RenewOwnedConversationLeases` | src/talktoharnesses/django/persistence.py:2584-2609 | Every live lease of the worker ends the given time from now, owner and fence as before; every expired one is given up and reported with its fence, no other is reported, and other workers' rows are untouched |
| `Database.DjangoPersistence.ReleaseConversationLease` | src/talktoharnesses/django/persistence.py:2621-2638 | Succeeds exactly for the live owner at its fence and then frees only that row, keeping the fence; otherwise changes nothing and says which of the two errors it is |
| `ProtocolInvariant.InitialInv` | src/talktoharnesses/application/command_processor.py:129-216 | The invariant of the delivery protocol holds before anyone was granted anything |
| `ProtocolInvariant.StepKeepsInv` | src/talktoharnesses/application/command_processor.py:345-596 | Every enabled step of any worker, transaction or local step between two awaits, keeps the invariant: grants are exclusive, deliveries hold what they claimed, one task per worker and command, no delivery shares the conversation lock with a wake, at most one call left or made per command since its last release, and pending shutdown and wake releases are harmless under the fence they were read with |
| `ProtocolInvariant.TakeLockKeepsInv` | src/talktoharnesses/application/command_processor.py:295-347 | A delivery gets the conversation lock only while no other delivery and no wake of its worker holds it, and then tests for draining |
| `ProtocolInvariant.GuardKeepsInv` | src/talktoharnesses/application/command_processor.py:357-394 | The guard read of a delivery whose command the guard finds, or whose row is open, keeps the invariant: it passes only while no call was made or is still coming for its command |
| `ProtocolInvariant.StartedKeepsInv` | src/talktoharnesses/application/command_processor.py:485-493 | The durable started write takes the one call a command has left, and is refused for every delivery whose fence is no longer the current one |
| `ProtocolInvariant.CallKeepsInv` | src/talktoharnesses/application/command_processor.py:485-520 | An adapter call is always the first for its command since the last release |
| `ProtocolInvariant.DeliveryReleaseKeepsInv` | src/talktoharnesses/application/command_processor.py:686-720 | A failed steer that goes back to ACCEPTED after its call, and a switch deferred before its call, leave no other delivery able to call a second time |
| `ProtocolInvariant.ReadReleaseKeepsInv` | src/talktoharnesses/application/worker_coordinator.py:1023-1059 | The release read of a draining worker leaves only deliveries that the draining test will stop |
| `ProtocolInvariant.CommitReleaseKeepsInv` | src/talktoharnesses/application/worker_coordinator.py:1023-1059 | The fenced release write that follows later keeps the invariant, whatever happened in between |
| `ProtocolInvariant.ReadWakeKeepsInv` | src/talktoharnesses/application/command_processor.py:1313-1337 | The read of a wake, under the lock, finds a command that no delivery has called or will call under the fence installed then |
| `ProtocolInvariant.CommitWakeKeepsInv` | src/talktoharnesses/application/command_processor.py:1338-1346 | Its write, any number of steps later, keeps the invariant if the worker still has that fence |
| `ProtocolInvariant.FenceIsExclusive` | src/talktoharnesses/django/persistence.py:2309-2354 | Two running deliveries of one command never share a fence |
| `Guarantees.ClaimBatchIsARun` | src/talktoharnesses/django/persistence.py:505-551 | A claim transaction over many rows is a run of single-row claims with nothing in between, so what holds of all interleavings of single claims holds of batches |
| `Guarantees.AtMostOneCallPerRelease` | src/talktoharnesses/application/command_processor.py:345-596 | In every run of any number of workers whose guards find every command with a closed row, whose delivery writes pass only under their own claim's fence and whose wakes pass only under the fence they were read with, refused writes being no matter, two adapter calls for one command have a release to ACCEPTED between them |
| `Guarantees.StartedWriteIsSafeExactlyWhen` | src/talktoharnesses/application/command_processor.py:485-520 | Whatever fence an accepted started write carries and however its delivery got past the guard: it leaves at most one call exactly if no call was made or is coming since the last release; an open row is enough, and so is the own fence where every guard held |
| `Guarantees.AbsentGuardIsSafeExactlyWhen` | src/talktoharnesses/application/command_processor.py:357-404 | A guard that does not find its command keeps the invariant exactly if the delivery's fence is no longer the present one or no call was made or is coming since the last release; an open row is enough |
| `Guarantees.WakeWriteIsSafeExactlyWhen` | src/talktoharnesses/application/command_processor.py:1313-1346 | Likewise for an accepted wake, whatever fence it carries: safe exactly if it is dropped as stale or no delivery is about to call its command; the fence of its read is enough |
| `Guarantees.FencingHolds` | src/talktoharnesses/django/persistence.py:2275-2354 | In every run at all, disciplined or not: fences never fall, no (conversation, fence) pair goes to two workers, and all grants and all successful fenced writes (batches, recovery batches, command writes, releases, lease renewals and lease releases) are in fence order |
| `Guarantees.ShutdownReleaseIsFinal` | src/talktoharnesses/application/worker_coordinator.py:234-243 | In every disciplined run a command released by a draining worker is one no earlier delivery had an outstanding call for, and no delivery that existed then calls for it afterwards |
| `Deliveries.MoveLandsExactlyWhen` | src/talktoharnesses/application/command_processor.py:345-520 | A step of a delivery takes it to exactly the phase its findings say: past the lock and the second draining test only if its worker does not drain, to its end for a resolved or delivered row, to recording for an unresolved marked one, on for an open or absent one, past a write only if the fence is accepted |
| `Deliveries.ResolvedRowEndsDelivery` | src/talktoharnesses/application/command_processor.py:357-370 | In every run a guard that reads a resolved or delivered row ends its delivery: nothing but its end follows, no write and no call |
| `Deliveries.AmbiguousRowIsOnlyRecorded` | src/talktoharnesses/application/command_processor.py:371-397 | In every run a guard that reads an unresolved, undelivered row with a started mark is followed by no step of its delivery but one write of the unknown outcome and its end; if that write is accepted the row then says OUTCOME_UNKNOWN |
| `Deliveries.AmbiguousWriteFollowsItsGuard` | src/talktoharnesses/application/command_processor.py:371-397 | And an unknown outcome is written by no delivery but one whose step before was a guard that read such a row |
| `Deliveries.ReleaseFollowsGuardOrCall` | src/talktoharnesses/application/command_processor.py:686-720 | A steer fallback is written by no delivery but one whose step before was its own call, a deferral by none but one whose step before was a guard that found the row absent or open |
| `Deliveries.AmbiguousWriteDecides` | src/talktoharnesses/application/command_processor.py:378-388 | That write decides the row if its fence is accepted, touching no other row, and does nothing otherwise |
| `Deliveries.CallHasItsHistory` | src/talktoharnesses/application/command_processor.py:345-520 | In every run, disciplined or not, an adapter call comes from a delivery whose steps before it were exactly these four: the lock while its worker was not draining, a guard that found the row absent or open, a started write under an accepted fence, a draining test that passed |
| `Deliveries.UndisturbedDeliveryCalls` | src/talktoharnesses/application/command_processor.py:345-520 | And that history is open to every delivery: one that waits for a free lock, with an open row, an accepted fence and a worker that does not drain, gets to its call if nobody interferes |
| `Deliveries.ReopensExactlyWhenReleased` | src/talktoharnesses/application/command_processor.py:686-720 | A closed row is opened again by exactly the steps that are logged as a release of it, and a logged release always leaves it open |
| `Deliveries.RowReopensBetweenCalls` | src/talktoharnesses/application/command_processor.py:345-596 | So in every disciplined run, between two calls for one command, there is a moment at which the durable row itself turns from closed to open |
| `Effects.FenceChangesExactly` | src/talktoharnesses/application/command_processor.py:218-293 | Over all steps: the fence a worker's writes carry for a conversation is the one last installed by a start or a recovery; once forgotten it is refused, and nothing else changes it |
| `Effects.ClaimsComeAndGoExactly` | src/talktoharnesses/django/persistence.py:505-551 | Over all steps: a claim answer is new exactly after a claim that finds the conversation obtainable, with the attempts and the fence stored then, and is used up by its spawn |
| `Effects.WakesComeAndGoExactly` | src/talktoharnesses/application/command_processor.py:1313-1346 | Over all steps: a wake is pending exactly from its read, with the row and the fence of that moment, to its write or its loss |
| `Effects.ReleaseWritesItsCopy` | src/talktoharnesses/application/command_processor.py:1313-1346 | A wake, shutdown release, deferral or steer fallback puts the row back as it was copied if its fence is accepted and the row was not claimed again since; no other row changes, and a refused one changes nothing |
| `Witnesses.DisciplineIsAllThree` | src/talktoharnesses/application/command_processor.py:345-394 | The discipline is exactly three conditions: every guard finds its command or the row is open, every delivery write that passes carries its own claim's fence, and every wake that passes the fence of its read |
| `Witnesses.ForeignFenceCallsTwice` | src/talktoharnesses/application/command_processor.py:232-244 | Without the second condition alone it fails: a concrete run in which a worker regains a conversation and its stalled delivery writes under the new fence and calls again |
| `Witnesses.AbsentCommandCallsTwice` | src/talktoharnesses/application/command_processor.py:357-394 | Without the first alone it fails: a concrete run in which a command absent from the aggregate skips the guard and is called again |
| `Witnesses.StaleWakeCallsTwice` | src/talktoharnesses/application/command_processor.py:1313-1346 | Without the third alone it fails: a concrete run in which a wake is read, another worker starts the command, and the wake is written under a fence regained since, erasing the started mark |
| `EventLogs.AppendEvents` | src/talktoharnesses/domain/transitions.py:124-152 | The appending loop numbers its events consecutively from the header's next number and moves that number and the version on |
| `EventLogs.BuildShape` | src/talktoharnesses/domain/transitions.py:124-152 | Every chain of transitions yields consecutive events; the version rises exactly if there is an event |
| `EventLogs.ConversationLog.CheckEvents` | src/talktoharnesses/django/persistence.py:723-729 | The commit loop accepts exactly the event lists numbered consecutively from the row's next number for this conversation |
| `EventLogs.ConversationLog.CommitBatch` | src/talktoharnesses/django/persistence.py:701-796 | Owner, version and sequence checks in the order of the code: one error each and nothing changed, or the header and the events stored |
| `EventLogs.ConversationLog.CommitFacade` | src/talktoharnesses/django/persistence.py:3612-3678 | The same for a facade mutation, with its owner and soft-deletion checks |
| `EventLogs.ConversationLog.CommitImport` | src/talktoharnesses/django/persistence.py:1612-1668 | An import succeeds exactly for a new conversation with events numbered from one |
| `EventLogs.ConversationLog.Prune` | src/talktoharnesses/django/persistence.py:1941-2013 | A number is stored afterwards exactly if it was stored before or is one of the interruption and rotation events, and its turn is none or not expired; what is stored is unchanged |
| `EventLogs.RunKeepsLog` | src/talktoharnesses/django/persistence.py:700-796 | In every run of create, import, batch, facade, binding and prune transactions, event-less and version-raising ones included: issued numbers are 1..next-1, each once; each later log extends each earlier one; an event always raises the version; a pruned number is never filled again |
| `EventLogs.StoredExactlyWhenKept` | src/talktoharnesses/django/persistence.py:1941-2013 | In every run a number is stored if and only if it was issued and no pruning from the step that issued it on named the turn of its event; then the event under it is the one issued |
| `EventLogs.VersionTellsMoves` | src/talktoharnesses/django/persistence.py:3612-3678 | From any moment of a run on, the version is unchanged if and only if no step with an event or a raised version went through, read off the steps in between |
| `EventLogs.BatchAcceptedExactlyWhenFresh` | src/talktoharnesses/django/persistence.py:700-796 | A batch built from any earlier moment of any run is accepted if and only if its owner check passes and since then no step with an event or a raised version went through; otherwise it conflicts, and an event issued since is always such a step; its own events follow those it saw |
| `EventLogs.FacadeAcceptedExactlyWhenFresh` | src/talktoharnesses/django/persistence.py:3612-3678 | The same for facade mutations, version-raising ones such as an interrupt or a switch request included: apart from a soft deletion it did not see, only such a step in between makes one fail |
| `EventLogs.SecondWriterConflicts` | src/talktoharnesses/application/service.py:1040-1057 | Whatever transaction goes first, a batch built from the moment before it conflicts exactly if the first went through with an event or a raised version; commits with neither are not serialized |
| `Interactions.StepKeepsInv` | src/talktoharnesses/django/persistence.py:897-1268 | Manual and automatic resolution, interrupt cancel, recovery cancel, release, completion, pruning and every other commit, with or without events, each on any earlier snapshot, keep the answer tables and the answers of the aggregate in agreement |
| `Interactions.NeverASecondCommand` | src/talktoharnesses/django/persistence.py:1224-1268 | In every run: at most one answer command per interaction, none before its answer counts as released, and table and aggregate hold the same answer |
| `Interactions.FirstWriteWins` | src/talktoharnesses/django/persistence.py:897-1208 | In every run a stored answer is never overwritten; only pruning its turn removes it |
| `Interactions.AnswerStoredExactlyWhen` | src/talktoharnesses/django/persistence.py:897-1208 | Any step, of whatever snapshot, stores an answer for an interaction without one exactly if its owner check passes, it builds on the present version, and finds the interaction open; and then exactly the answer it carries, unreleased, without a command, suppressed exactly if a cancellation |
| `Interactions.CancelAllNumbers` | src/talktoharnesses/domain/transitions.py:897-913 | Recovery cancels exactly the open ones of its list, each under its own event number, and uses up every number it moves past |
| `Interactions.OneCommandEach` | src/talktoharnesses/django/persistence.py:1224-1268 | What the invariant says of a single state: one command row per interaction at most, and none for an unreleased answer |
| `Interactions.CommandExactlyWhenReleased` | src/talktoharnesses/django/persistence.py:1224-1268 | In every run a stored answer has its command if and only if an allowed release of it came after it was stored and before any pruning of it, suppressed or not |
| `Interactions.SuppressedAnswerGetsCommand` | src/talktoharnesses/application/interaction_broker.py:177-183 | A concrete run: an interaction is cancelled, its suppressed answer completed, and a manual resolution then gives it a command |
| `Interactions.CommandStaysExactlyWhen` | src/talktoharnesses/django/persistence.py:1262-1268 | The conversation state keeps an answer command throughout a run if and only if no commit from a state without it goes through |
| `Interactions.EventlessCommitDropsCommand` | src/talktoharnesses/application/command_processor.py:1338-1346 | A concrete run: an event-less commit built before the release goes through at the same version and drops the command from the conversation state; the answer's row keeps it |
| `AnswerDelivery.ListedAnswersAreCalledOnce` | src/talktoharnesses/application/command_processor.py:345-404 | In every joint run of brokers and workers, with guards that read the conversation state of the answers: while the state still lists an answer command whenever a guard reads it with its row closed, and writes keep to their fences, no command reaches the adapter twice without a release |
| `AnswerDelivery.DroppedAnswerIsCalledTwice` | src/talktoharnesses/application/command_processor.py:345-404 | A concrete joint run: the late commit above drops a delivered answer command from the conversation state, the next guard therefore does not find it, and the answer is delivered again |
| `Interactions.InteractionBroker.CommitAutomatic` | src/talktoharnesses/django/persistence.py:897-1132 | The automatic resolution against the row as it is now: first write, kept answer, undecided or failed, with the whole store after it |
| `Interactions.InteractionBroker.ReleaseFor` | src/talktoharnesses/application/interaction_broker.py:403-443 | Ends in the answer's one command: the one the state or the row already has, changing nothing, or a new one stored in all three places |
| `Interactions.InteractionBroker.FindAnswerCommand` | src/talktoharnesses/application/interaction_broker.py:445-455 | Finds an answer command of the interaction exactly if the conversation state holds one |
| `Interactions.InteractionBroker.ResolveManual` | src/talktoharnesses/application/interaction_broker.py:162-248 | Succeeds exactly for an interaction with a stored answer, suppressed ones included, or a valid answer to an open one, and then names its one command; no stored answer is replaced, and every refusal changes nothing |
| `Interactions.InteractionBroker.CompleteSuppressed` | src/talktoharnesses/django/persistence.py:1341-1359 | A suppressed answer is marked released without a command; any other is refused |
| `Interactions.InteractionBroker.EvaluatePolicy` | src/talktoharnesses/application/interaction_broker.py:333-373 | An interaction ends with a row exactly if it had one or is open, unanswered and met by the rules; the new row holds their answer, unsuppressed, published, released with a command; no other row, status or answer changes |
| `Interactions.InteractionBroker.ReleaseOne` | src/talktoharnesses/application/interaction_broker.py:304-331 | One unreleased answer is published and then released, with a command exactly if it is not suppressed; every other row is unchanged |
| `Interactions.InteractionBroker.ReleaseUnreleased` | src/talktoharnesses/application/interaction_broker.py:304-331 | After the loop every answer that was unreleased is published and released, all others are unchanged |
| `Interactions.InteractionBroker.ReconcileOnStartup` | src/talktoharnesses/application/interaction_broker.py:295-331 | From any crash state a fault-free reconciliation answers exactly the open interactions not evaluated before that the rules meet, each with its verdict, resolves no others, leaves no unreleased answer, changes no released one, and creates commands for exactly the unreleased answers that are not suppressed |
| `Interactions.InteractionBroker.CancelOne` | src/talktoharnesses/application/interaction_broker.py:250-293 | An open interaction ends cancelled with a suppressed, completed and published answer; any other is left alone |
| `Interactions.InteractionBroker.CancelOpenForInterrupt` | src/talktoharnesses/application/interaction_broker.py:250-293 | After the loop nothing is open; exactly the interactions that were open got a cancelled answer, and no command was created |
| `Batching.RecoveryIsExact` | src/talktoharnesses/application/command_processor.py:1070-1077 | Recovering inputs from event ids finds each input that produced events exactly once and in order |
| `Batching.RebaseLosesExactly` | src/talktoharnesses/application/command_processor.py:1070-1093 | An input that produced no event is lost by a rebase: harmless exactly if dispatching it on the rebased state does nothing at all |
| `Batching.StoredBatchIsWhole` | src/talktoharnesses/application/command_processor.py:1053-1097 | A flush stores a batch if and only if some attempt commits after conflicts whose rebases all succeed: the collected one if there was no conflict, else one whole dispatch of the source inputs on the last reloaded state, with that state's version |
| `Batching.StaleExactlyWhen` | src/talktoharnesses/application/command_processor.py:1053-1097 | It gives the batch up if and only if such a conflict finds that the runtime no longer matches the binding |
| `Batching.FlushDoesExactly` | src/talktoharnesses/application/delta_batcher.py:111-122 | By the answers it meets a flush stores its batch, loses it, or leaves everything pending; with neither an event nor a command there is nothing to commit |
| `Batching.FlushIsLawful` | src/talktoharnesses/application/command_processor.py:1039-1097 | Every flush keeps the law of the pump: each stored batch is the dispatch of all its inputs on the state it started from, or after a conflict of its event-producing inputs on the last reloaded state; the pending one is that dispatch so far |
| `Batching.QueuedIsLawful` | src/talktoharnesses/application/command_processor.py:1205-1286 | And so does queueing the result of one more dispatch on the pending state |
| `Batching.EventPump.SourceInputs` | src/talktoharnesses/application/command_processor.py:1070-1077 | The loop over pending events yields the sources without immediate repetition |
| `Batching.EventPump.Rebase` | src/talktoharnesses/application/command_processor.py:1085-1093 | The rebase loop is the dispatch of all inputs in order on the reloaded state, or the error of the first that fails |
| `Batching.EventPump.FlushBatch` | src/talktoharnesses/application/command_processor.py:1039-1097 | For every list of commit answers the retry loop stores, finds stale or raises what the specification says |
| `Batching.EventPump.DoFlush` | src/talktoharnesses/application/delta_batcher.py:111-122 | In place, exactly the flush of `FlushDoesExactly`; every input taken is in a batch that left or still pending |
| `Batching.EventPump.Discard` | src/talktoharnesses/application/delta_batcher.py:95-101 | The pending batch leaves uncommitted, nothing is taken in any more, and the law of the pump is kept |
| `Batching.EventPump.Close` | src/talktoharnesses/application/delta_batcher.py:88-93 | Nothing is taken in any more, what is pending gets exactly one flush, and the law of the pump is kept |
| `Batching.EventPump.Add` | src/talktoharnesses/application/delta_batcher.py:56-82 | A closed batcher takes nothing in; otherwise state, base version, events, commands and input join the pending batch, and a forced one is flushed at once |
| `Batching.EventPump.OnHarnessEvent` | src/talktoharnesses/application/command_processor.py:1205-1286 | For every event: nothing for a stale binding or a failed dispatch, a flush for an interaction request, otherwise the dispatched state, events and commands are queued on the pending batch, under the version it started from, and flushed if forced; the law of the pump and the conservation of all inputs are kept |
| `Batching.EventPump.Remember` | src/talktoharnesses/application/command_processor.py:1273-1276 | Every event of the input leads back to it and no earlier entry changes |
| `Recovery.ClassifyConversation` | src/talktoharnesses/application/recovery.py:263-325 | The sort, the loop and its set of seen ids give one decision per command of interest in sorted order, or the single fallback decision |
| `Recovery.SortedIsStable` | src/talktoharnesses/application/recovery.py:263-325 | The sort is a permutation in key order, and equal keys keep their order |
| `Recovery.HeadIsLeast` | src/talktoharnesses/application/recovery.py:263-325 | The first decision is about a least command of interest; there is none exactly if no command is of interest |
| `Recovery.FirstDecisionExactly` | src/talktoharnesses/application/recovery.py:95-325 | For every conversation, clock and probe answer each kind of decision has one exact condition on the head of the list, the active turn, the stream cursor and the session |
| `Recovery.LeftToClaimsExactly` | src/talktoharnesses/application/recovery.py:184-207 | What recovery leaves to the claim loop is exactly what the claim query takes, and an undelivered claim without a lease |
| `Recovery.AmbiguityDecides` | src/talktoharnesses/application/recovery.py:156-260 | If any command has an ambiguous delivery the first decision marks the oldest such command's outcome unknown, whatever the probe says and whatever else is live |
| `Recovery.ProbeMattersExactlyWhen` | src/talktoharnesses/application/recovery.py:102-153 | The probe can change the first decision exactly if live work is continued on a resumable session and no turn in flight can be reattached |
| `Recovery.LiveWorkContinuesExactlyWhen` | src/talktoharnesses/application/recovery.py:102-325 | Recovery goes on with live work if and only if there is some, no delivery is ambiguous, and either no command is of interest or a delivered one leads |
| `Recovery.HeadIsDeliveredExactlyWhen` | src/talktoharnesses/application/recovery.py:263-325 | Read off the command list: a delivered command leads exactly if none is ambiguous and the active turn's command is delivered or, where recovery has no interest in that one, some command is |
| `Recovery.OldUnknownHidesLiveWork` | src/talktoharnesses/application/recovery.py:263-325 | A concrete state: one old command of unknown outcome, and live work that is left alone because of it |
| `Recovery.OtherCommandsHideLiveWork` | src/talktoharnesses/application/recovery.py:263-325 | Any command of interest keeps live work without a delivered or ambiguous command from being continued, and leaves only what is claimable |
| `Recovery.LazyClassify` | src/talktoharnesses/application/worker_coordinator.py:510-533 | Classifying without the probe and probing only if the answers differ gives the eager decision, and probes exactly when it matters |
| `Recovery.ClearedCursorNeverReattaches` | src/talktoharnesses/application/recovery.py:95-153 | Without a stream cursor no state ever yields a reattach |
| `Recovery.ApplyDecision` | src/talktoharnesses/application/worker_coordinator.py:535-641 | Every decision comes to its own actions: claimable and idle ones to a completed attempt, unknown and broken ones to a settled loss, a resume to the session or else a handoff; a failed reattach to those of the decision on the reloaded state without its cursor, so the recursion ends and exactly the last action is final |
| `Recovery.SettleUnknownOutcome` | src/talktoharnesses/application/worker_coordinator.py:684-757 | After the branch outside a switch no command is ambiguous; a status is unknown exactly for the decided command, the active turn's own, those that were ambiguous or unknown before, and nothing else of a command changes but its owner, lease and attempt; rows are written for exactly the commands whose outcome is now unknown |
| `Recovery.MarkDecided` | src/talktoharnesses/application/worker_coordinator.py:684-710 | The transition plus the mark on the decision's own command: every command afterwards, and exactly that row listed |
| `Recovery.MarkAmbiguous` | src/talktoharnesses/application/worker_coordinator.py:712-733 | The loop marks and lists each ambiguous command once |
| `Recovery.ListFlipped` | src/talktoharnesses/application/worker_coordinator.py:735-748 | The last loop lists the commands the transition itself flipped, none twice |
| `Recovery.SwitchLeavesTheOthers` | src/talktoharnesses/application/worker_coordinator.py:663-683 | After a failed switch its command is marked and every other one as it was, so a delivery is still ambiguous exactly if some other command was ambiguous before |
| `Recovery.RowsEndUnambiguous` | src/talktoharnesses/django/persistence.py:2706-2800 | Once the recovery batch is written no row of the snapshot's commands is ambiguous in the command table either |
| `Coordinator.RunKeepsInv` | src/talktoharnesses/application/worker_coordinator.py:332-408 | Over every run of heartbeat, lease loss, recovery and shutdown steps the phase, the lease flag, the recovery task and the claims flag stay consistent |
| `Coordinator.NoClaimsWithoutLease` | src/talktoharnesses/application/worker_coordinator.py:332-408 | In every such run from the first lease on, claims are enabled only with a healthy lease and outside of draining |
| `Coordinator.EnablingIsSafeExactlyWhen` | src/talktoharnesses/application/service.py:242-263 | Enabling claims at the end of the service start is safe exactly in the running phase before any drain |
| `Coordinator.StartCanClaimWithoutLease` | src/talktoharnesses/application/service.py:242-263 | It is not always so: a start that loses its lease during initial recovery enables claims without a lease |
| `Coordinator.WorkerCoordinator.AcquireAndHeartbeat` | src/talktoharnesses/application/worker_coordinator.py:181-199 | Whatever came before, the state after it meets the invariant of the phase machine, claims off |
| `Coordinator.WorkerCoordinator.RunInitialRecovery` | src/talktoharnesses/application/worker_coordinator.py:201-232 | Keeps that invariant: only a starting worker becomes running, a lease lost meanwhile keeps its phase |
| `Coordinator.WorkerCoordinator.HeartbeatRenewed` | src/talktoharnesses/application/worker_coordinator.py:332-380 | The loop over the lost conversations drops exactly those, starts recovery only outside of draining and starting, and keeps the invariant |
| `Coordinator.WorkerCoordinator.HeartbeatLeaseUnavailable` | src/talktoharnesses/application/worker_coordinator.py:332-380 | A loss is handled once, the loop drops every fence, and the invariant is kept |
| `Coordinator.WorkerCoordinator.RecoverExpired` | src/talktoharnesses/application/worker_coordinator.py:390-408 | Claims come back only after a finished recovery from a lost lease outside of draining, and the invariant says that the lease is held then |
| `Coordinator.WorkerCoordinator.StartShutdown` | src/talktoharnesses/application/worker_coordinator.py:234-243 | Draining closes claims and keeps the invariant |
| `Coordinator.WorkerCoordinator.FinishTheShutdown` | src/talktoharnesses/application/worker_coordinator.py:304-330 | Leases are given back only after a clean drain; claims stay closed either way |
| `TextSearch.CountTokenOccurrences` | src/talktoharnesses/application/search_query.py:169-182 | The find loop counts what a left-to-right scan over the padded texts counts, for all texts |
| `TextSearch.ScanCountsWindows` | src/talktoharnesses/application/search_query.py:169-182 | On space-joined tokens that scan is the greedy count of non-overlapping windows of equal tokens |
| `TextSearch.TermCountIsExact` | src/talktoharnesses/application/search_query.py:169-182 | For a single term it is the number of tokens equal to it |
| `TextSearch.SqlCountsSpacedWindows` | src/talktoharnesses/django/persistence.py:252-257 | The LENGTH/REPLACE expression counts windows that do not share a separator |
| `TextSearch.SqlCountBounds` | src/talktoharnesses/django/persistence.py:252-257 | sql <= scan <= 2 * sql for all token lists, so both are zero together |
| `TextSearch.RankDocument` | src/talktoharnesses/application/search_query.py:185-203 | The ranking loops add up the clause points of both texts |
| `TextSearch.ClausePointsAreByTokens` | src/talktoharnesses/application/search_query.py:185-203 | What a clause scores, in tokens: 32 if it occurs in the title, 8 for up to 4 title tokens and 1 for up to 8 body tokens equal to each term, 4 for up to 4 windows of a phrase in the body |
| `TextSearch.ExcludedExactlyWhen` | src/talktoharnesses/application/search_query.py:206-210 | A document is excluded exactly if some exclusion occurs in it as consecutive tokens |
| `TextSearch.SqlRankBounds` | src/talktoharnesses/django/persistence.py:260-275 | SQL rank <= reference rank <= 2 * SQL rank for all queries and documents |
| `TextSearch.ExclusionsAgree` | src/talktoharnesses/application/search_query.py:206-210 | Exclusions reject the same documents under both counts |
| `Redaction.OutputIsFree` | src/talktoharnesses/application/redaction.py:18-57 | For every text, every chunking and every list of patterns: all output together does not contain a pattern of the list that cannot share a position with the marker, whatever the other patterns are, even when a long secret shrinks the carry below its hold size |
| `Redaction.KeptOutExactlyWhen` | src/talktoharnesses/application/redaction.py:18-57 | A pattern is kept out of the output by every redactor that holds it, for every text, chunking and choice of other patterns, if and only if it cannot share a position with the marker: neither contains the other, and no end of one starts the other |
| `Redaction.MetPatternComesOut` | src/talktoharnesses/application/redaction.py:18-57 | Any other pattern is put out, for one chunk, by the redactor that holds it and one constructed pattern of the same length |
| `Redaction.DisjointNeverMeets` | src/talktoharnesses/application/redaction.py:18-57 | A pattern that shares no character with the marker can never share a position with it, so the two results above hold for it |
| `Redaction.OutputIsOneShot` | src/talktoharnesses/application/redaction.py:18-57 | With a single pattern that is the marker itself or cannot share a position with a marker and end behind it, the output is one replacement over the whole text, however it was cut |
| `Redaction.OneShotExactlyWhen` | src/talktoharnesses/application/redaction.py:18-57 | And exactly then: for every other single pattern two chunks are constructed whose output is not the one-shot replacement |
| `Redaction.RedactedIsFree` | src/talktoharnesses/application/redaction.py:26-46 | The loop over any patterns leaves no occurrence of one that cannot share a position with the marker: no later replacement brings it back |
| `Redaction.MarkerPatternComesBack` | src/talktoharnesses/application/redaction.py:26-46 | A pattern that is a piece of the marker is put back by its own replacement, with no other pattern needed |
| `Redaction.SortedPatternsShape` | src/talktoharnesses/application/redaction.py:18-25 | The patterns held are exactly the non-empty ones given, longest first |
| `Redaction.StreamingTextRedactor.constructor` | src/talktoharnesses/application/redaction.py:18-25 | Nothing emitted or carried yet; the patterns are the non-empty ones given, and the hold size covers the longest |
| `Redaction.StreamingTextRedactor.Redact` | src/talktoharnesses/application/redaction.py:26-46 | The loop over the patterns, as one function of the text |
| `Redaction.StreamingTextRedactor.Feed` | src/talktoharnesses/application/redaction.py:26-46 | What is emitted so far and what is carried are those of the chunks fed so far |
| `Redaction.StreamingTextRedactor.Flush` | src/talktoharnesses/application/redaction.py:47-57 | After the flush the output of all feeds is free of every pattern that cannot share a position with the marker, and for a single pattern that cannot run past a marker equals one-shot replacement |
| `Sse.ChunkingIsIrrelevantExactlyWhen` | src/talktoharnesses/_sse.py:25-58 | Every chunking of a stream gives the same frames and leftover if and only if none of its frames holds a blank line; otherwise a split that shows it is constructed |
| `Sse.PlainStreamsAreClean` | src/talktoharnesses/_sse.py:48-58 | Streams without CR, and streams without a double LF, are of that kind |
| `Sse.EventsIgnoreChunks` | src/talktoharnesses/_sse.py:25-46 | So events and leftover buffer depend on the concatenated bytes alone |
| `Sse.SseDecoder.PopFrame` | src/talktoharnesses/_sse.py:48-58 | The in-place pop: block and rest, the CRLF boundary looked for first wherever it stands |
| `Sse.SseDecoder.FeedChunk` | src/talktoharnesses/_sse.py:25-46 | The feed loop with its size limit and decoding error: answer and buffer after it |
| `SseFields.ParseBlock` | src/talktoharnesses/_sse.py:60-81 | The line loop: comments, event, data and id lines; no event exactly if the block has none of the three |
| `SseFields.SplitsAtBoundaries` | src/talktoharnesses/_sse.py:60-81 | The split of a block into lines: at each boundary, CR LF being one, and a final one opens no further line |
| `SseFields.WriteFrame` | src/talktoharnesses/django/api/sse.py:40-48 | The frame the server writes: id, event, one data line per LF-separated part, blank line |
| `SseFields.RoundTripExactlyWhen` | src/talktoharnesses/_sse.py:60-81 | A written frame is read back unchanged if and only if its data has no line separator but LF and no line of it starts with white space |
| `Retention.MonthsBeforeIsExact` | src/talktoharnesses/application/retention.py:43-55 | Exactly that many months back, on a real day, the day clamped only if it has to be |
| `Retention.CutoffMovesForwardExactlyWhen` | src/talktoharnesses/application/retention.py:43-55 | A later clock has a later cutoff exactly unless clamping merges two days whose times run the other way |
| `Retention.CutoffCanMoveBack` | src/talktoharnesses/application/retention.py:43-55 | A concrete pair of clocks for which it moves back |
| `Retention.PreviewPredictsCleanup` | src/talktoharnesses/application/retention.py:143-218 | For all rows: previewed purges and cancellations are what cleanup does, and pruned turns are terminal plus waiting exactly if no waiting turn to be cancelled has an expired terminal row of its own |
| `Retention.SecondCleanupIsIdle` | src/talktoharnesses/application/retention.py:167-218 | A second cleanup at the same moment counts nothing and changes nothing |
| `Retention.CleanupKeepsTheRest` | src/talktoharnesses/django/persistence.py:1941-2013 | Cleanup deletes expired turns only and leaves exempt, unbound and busy conversations as they are |
| `Retention.CleanupDeletesExactly` | src/talktoharnesses/application/retention.py:167-218 | A cleanup deletes a conversation exactly if it was soft-deleted before the cutoff, and of the others, unless deleted, exempt, unbound or busy, exactly the turns that ended before it and the waiting one that has waited since before it |
| `Retention.PurgePrunesApart` | src/talktoharnesses/application/retention.py:167-218 | Purging everything first and pruning the rest afterwards is one pass over the rows |
| `Retention.RetentionStore.PreviewRetention` | src/talktoharnesses/django/persistence.py:1869-1912 | The loop over one owner's rows gives that owner's totals |
| `Retention.RetentionStore.PreviewCleanup` | src/talktoharnesses/application/retention.py:143-164 | The loop over distinct owners gives the totals `PreviewPredictsCleanup` is about |
| `Retention.RetentionStore.RunCleanup` | src/talktoharnesses/application/retention.py:167-218 | Rows and counts after the cleanup are those `PreviewPredictsCleanup` is about |
| `Retention.RetentionStore.PruneHistory` | src/talktoharnesses/application/retention.py:187-202 | The conversation loop, with months looked up once per owner, prunes each row under its own cutoff |
| `Retention.RetentionStore.PurgeSoftDeleted` | src/talktoharnesses/django/persistence.py:2179-2200 | Removes exactly the eligible soft-deleted rows and counts them |
| `Transcripts.TranscriptToHandoff` | src/talktoharnesses/application/transcripts.py:74-107 | The loops flatten turns and entries with their positions |
| `Transcripts.HandoffToTranscript` | src/talktoharnesses/application/transcripts.py:25-71 | Sorting and grouping with its flush, as the function the round trip is about |
| `Transcripts.RoundTripExactlyWhen` | src/talktoharnesses/application/transcripts.py:25-107 | Converting with distinct turn ids and reading the entries back in any order gives the turns without the empty ones: the same document exactly if no turn is empty |
| `Transcripts.RenderHandoff` | src/talktoharnesses/application/handoff.py:89-102 | The text is the lines of the sorted entries |
| `Transcripts.SortedByPlace` | src/talktoharnesses/application/handoff.py:89-102 | The entries stand by turn, then place in the turn, then id |
| `Transcripts.JoinedInOrder` | src/talktoharnesses/application/handoff.py:89-102 | And their lines in that order, one line break between any two |
| `Transcripts.RenderIgnoresReadOrder` | src/talktoharnesses/application/handoff.py:66-102 | Entries with distinct ids render to one text in every order they are read in |
| `Paging.Replay` | src/talktoharnesses/django/persistence.py:806-829 | The loop keeps the longest start of the rows that both limits allow |
| `Paging.FittingIsLongest` | src/talktoharnesses/django/persistence.py:806-829 | That start is within both limits, and the next event would break one |
| `Paging.ReplayIsCompleteExactlyWhen` | src/talktoharnesses/django/persistence.py:806-829 | Replaying from the last sequence received ends, and yields every later event once and in order exactly if each fits the byte limit on its own |
| `Paging.ClampLimit` | src/talktoharnesses/application/cursors.py:19-29 | An error exactly outside 1 to 200; otherwise the limit asked for, or 50 |
| `Paging.BehindIsSuffix` | src/talktoharnesses/django/projections.py:219-266 | The cursor filter selects exactly what follows its row in the ordered list, for every order |
| `Paging.PagesEnumerateOnce` | src/talktoharnesses/django/persistence.py:3135-3274 | Following next_cursor until it is absent enumerates the whole ordered result once, for every page order, the three-key search order included, and every page size; the order is newest, oldest or best-ranked first |
| `Cursors.DecodeUndoesEncode` | src/talktoharnesses/application/cursors.py:32-60 | Base64url decoding undoes encoding for all byte strings |
| `Cursors.PaddingComesBack` | src/talktoharnesses/application/cursors.py:32-60 | The length of a stripped cursor alone restores its padding |
| `Cursors.CursorRoundTrip` | src/talktoharnesses/application/cursors.py:32-60 | A cursor decodes to the payload it was made from |
| `Snippets.FindClause` | src/talktoharnesses/application/search_query.py:356-378 | Answers the start of the first window of display tokens equal to the clause, and -1 exactly if there is none |
| `Snippets.FirstWindow` | src/talktoharnesses/application/search_query.py:356-378 | The search over all windows finds the first |
| `Snippets.SnippetHoldsHit` | src/talktoharnesses/application/search_query.py:213-252 | For every text and hit the snippet, ellipses included, has at most 240 code points and is a piece of the text around the hit |
| `Snippets.WindowHoldsHit` | src/talktoharnesses/application/search_query.py:213-252 | Shifting the window at both ends of the text keeps the hit inside and leaves room for the ellipses |
| `Snippets.WindowPlace` | src/talktoharnesses/application/search_query.py:213-250 | Where the window lies exactly: 80 characters before the hit, moved only by the ends of the text, and all 240 places used |
| `Snippets.BuildSnippet` | src/talktoharnesses/application/search_query.py:213-252 | There is a snippet exactly if some clause occurs; it is around the earliest hit of any clause and within the limit |

## Left out

- AtMostOneCallPerRelease: holds for runs that meet the three conditions above; without any one of them it is false of the code, with a run for each. The version checks of the wake, deferral and fallback batches are left out, so more interleavings are covered than can occur.
- ShutdownReleaseIsFinal: is stated for the same runs; it speaks of the deliveries that existed at the release, and a later claim may of course deliver the command again.
- FencingHolds: covers fenced writes; calls without worker and fence are not checked by the code and carry no fence here.
- InitialInv: a worker id is taken to name one process run. The code builds it from host name and process id (`django/asgi.py:128-130`), which a restarted container can repeat; such a process keeps the fence of the one before it while the lease lives (`django/persistence.py:2338-2344`), so a delivery of the old process and one of the new could hold one fence, which is not modelled.
- ReadReleaseKeepsInv: the release of undelivered claims is one read and one fenced write per command; the version check of its batch is left out, so more interleavings are covered than can occur. Its deliveries that are already started are settled by ordinary terminal writes.
- SpawnClaimed: fences dropped by another task during an await of the loop are not followed there; `Protocol` has them as steps.
- ClaimExpiredConversations: the abort on a conversation without a binding, and the recovery-attempt rows it writes, are left out.
- RunInitialRecovery: the recovery rounds before its end are one boolean.
- RowsEndUnambiguous: is stated for a snapshot that shows the command rows as they are, which is how the worker snapshot is read.
- PruneHistory: the session rotation after each conversation is left out.
- RunKeepsLog: `UpdateBinding` in `EventLogs` stands for every transaction that stores the aggregate at its version; purging a whole conversation is left out there.
- ClaimCommands: the order and the limit in which the locked query answers are a parameter bounded by its filter.
- ReconcileOnStartup: is stated without faults and without interference while it runs; the interleaved steps themselves are covered by `StepKeepsInv` of `Interactions`, where any of them may be the last before a crash.
- CancelOpenForInterrupt: is stated without interference; a conflict and its retry appear as steps of `Interactions`.
- AppendEvents: event ids, origins and timestamps are not modelled.
- OnHarnessEvent: the broker's own work on an interaction request and the timer of the batcher are left out; a timed flush is an ordinary flush.
- ApplyDecision: the reattach, resume and handoff attempts are booleans that may be anything.
- MarkDecided: the conversation, turn and activity fields the transition changes are left out; only commands are followed.
- EventsIgnoreChunks: the size limit is off and the frames are valid UTF-8; with a limit the answer does depend on chunk sizes. `FeedChunk` states both error cases of one call.
- RoundTripExactlyWhen: the event name and the id hold no line separator and no white space at the start, as everything the server writes there.
- MonthsBeforeIsExact: years before 1, where Python raises, are ordinary years here.
- RunCleanup: native session rotation and its two counts, and the publishing of rotation events, are left out; owners' policies do not change while it runs.
- PreviewCleanup: the set of owners is a parameter, any order of it.
- RenderHandoff: the text of one line is a parameter, so JSON arguments and truncation inside a line are not modelled.
- TranscriptToHandoff: entry and turn ids are parameters of the conversion; tool arguments and results are opaque values.
- CursorRoundTrip: a payload is the bytes of its JSON text, and the empty one does not occur; the leniency of Python's decoder on characters outside its alphabet is left out.
- PagesEnumerateOnce: sort values are integers; rendering of date-times in a cursor is left out.
- BuildSnippet: the list of matched terms is left out; which characters are alphanumeric and how they fold is a parameter.
- SqlRankBounds: both texts and all clauses are space-joined tokens, as the index writes them; normalisation and tokenizing of the raw query are left out.
- Owner paths without worker and fence, and `save_snapshot` over an existing row.
- Pydantic and JSON encoding, the ORM and the SQL text; REPLACE is left-to-right removal without overlap.
- asyncio timers, backoff and lease keep-alive tasks; a renewed command lease is a step that may happen at any time.
- `redact_transcript`, `parse_search_query`, approval rules and sandbox policies.
- HTTP routes, adapters, Docker sandboxes, credentials, telemetry and administration.
