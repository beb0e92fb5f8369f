# Verification of the whatsrust bridge

A Dafny model of the stateful core of whatsrust, and proofs about it. The bridge pages a chat's
history backwards from the phone, stores it, embeds it for semantic search, deduplicates live
events, paces outbound sends and serves a small REST API with codecs written by hand. The model
follows `src/backfill.rs`, `src/dedup.rs`, `src/embed_drain.rs`, and parts of `src/bridge.rs`,
`src/api.rs` and `src/storage.rs`.

`dafny verify dfyconfig.toml` checks everything.

## How it is built

Each loop or method of the program that changes state is a Dafny method over mutable state, and is
proved equal to a function on values. The theorems are about those functions, over every input, run
or interleaving.

| module | what it models |
|---|---|
| `Backfill`, `BackfillStore`, `History`, `CursorWriters` | the backfill worker, the tables it shares, the two other writers of a cursor |
| `PhoneHistory` | the phone: one fixed history per chat, and what it means to answer a fetch |
| `BackfillNoGaps`, `BackfillLife` | no gaps: over one run, and over any number of worker passes and whatever happens between them |
| `BackfillTears`, `BackfillResume`, `BackfillBounds` | runs cut within a batch, resumption, termination, the stuck-anchor guard |
| `BackfillStops`, `BackfillStatus` | when a run starts and stops and why, and what a pass leaves of job status, completion times and cursors |
| `DrainConversations`, `DrainFlags` | splitting a history chunk into conversations, and what a chunk says about what remains |
| `Persist`, `PersistMedia`, `LiveSink` | storing history messages, their media references and tally, and what the sink's silence about failures costs |
| `Dedup`, `DedupSteps`, `DedupQueue` | the dedup cache with atomic operations, and its map and its queue thread by thread |
| `EmbedDrain`, `EmbedDrainSafety`, `EmbedDrainProgress`, `EmbedDrainTicks`, `EmbedDrainHealth` | the embedding worker |
| `Content`, `EmbedText`, `EmbedLabels`, `Decimal` | message labels and the text recovered from them |
| `Search`, `SearchRanking` | both merge paths of hybrid search, and the order they show |
| `SendPacer`, `PacerRefill`, `PacerOverlap` | the token bucket, for callers one after the other and for callers that overlap |
| `Bytes`, `PercentCodec`, `RequestReader`, `HeaderBlock`, `ResponseCodec`, `CliRequest` | the HTTP codecs |
| `QuerySpelling`, `TextPieces`, `Utf8`, `RequestFields`, `ResponseFields` | which bytes the codecs accept, and what they read |
| `Wrappers`, `KeyOrder` | optional values, the order of messages |

**The surroundings of a backfill job** are a sequence of `Round`s: in each turn of the loop the round
says whether the job is cancelled, whether the source is ready, what the phone answers, which rows the
sink inserted and what it then reported, and whether each write went through, was refused, or never
happened because the process died. Nothing restricts a round unless a lemma says so: `HonestRound` makes
the phone answer from one fixed history and the sink keep its word; `Reliable` makes it answer alike to the
same anchor and lets no progress write be refused, while the job may be stopped, deferred or killed.

**The surroundings of the drain worker** are a sequence of `Pass`es: what woke it, the health answer, the
embedder's answer, and which writes failed.

**Concurrency** in the dedup cache is an interleaving of the steps of any number of threads, with
`remove` possible between any two of them.

## What turned out to be false

Some properties that the documentation or the comments suggest do not hold of the code. Each is stated
with the exact condition under which it does hold, or with a run that shows it fails.

- A batch and its cursor are not written in one transaction, although ADR 0026 says so
  (`docs/adr/0026-backfill-worker-topology-and-abort-granularity.md:22`; the code stores at
  `src/backfill.rs:994-1006`, records at `src/backfill.rs:1058-1070`, and goes on when the record is refused).
  A run can be cut at any turn, with any of its writes refused, without the next run skipping a message exactly
  when the chat has a usable cursor, or the history offers no tear: two unstored messages within one answer, at
  the start or at a position the run may page down to, of which the older would become the chat's oldest row
  (`BackfillTears.CutSafeExactly`). When no cursor write is refused, only the first answer matters
  (`BackfillTears.RecordedCutSafeExactly`). The trigger writes a cursor before it queues a job
  (`src/api.rs:1494-1512`), so the failing start needs a job queued by an older version
  (`src/backfill.rs:871-873`).
- The real sink reports success whatever its inserts do (`src/bridge.rs:5309-5320`). After a batch the
  frontier is covered exactly when the insert of every storable message that had no row yet went through:
  `LiveSink.LiveSinkCoversExactly`.
- A requeued job does not always end as an uninterrupted run would. Two deaths matter to a chat with a usable
  cursor. One falls between the record of a batch that meets the target and the completion write
  (`src/backfill.rs:1058-1112`): it is harmless exactly when nothing more remains, otherwise the job fetches on
  past its target (`BackfillResume.StampDeathExactly`). The other falls between the end of the run and its status
  write (`src/backfill.rs:1281`), as does a status write that fails: again harmless exactly when nothing more
  remains, so never for a job that was parked, which fetches on past the backstop
  (`BackfillResume.LostStatusExactly`). Every other death is harmless to such a chat
  (`BackfillResume.ResumeEqualsUninterrupted`).
- "Lexical results are never lost" (ADR 0041) holds before the result is cut to the limit. All lexical rows
  survive the cut exactly when the limit leaves them their places: one for each, and one more for each
  vector-only row ranked before the last of them (`Search.LexicalSurviveExactly`). A scored row can be lost
  although no lexical row is unscored: `Search.ScoredLexicalRowLost`.
- The generation of a dedup entry does not protect an eviction whose lookup has already matched
  (`src/dedup.rs:50-53`). `DedupSteps.EvictsOwnExactlyWithoutStrike` gives the exact condition,
  `DedupSteps.NewerGenerationEvicted` a reachable state in which the wrong generation goes.
- A document's caption is recovered from its label exactly when the file name holds no `]`:
  `EmbedText.LabelRoundTrip`.
- Bisection and notify-only mode compete: failures that do not bisect a batch count towards the threshold
  that silences the worker. Ticks alone drain the rows before the first poison row of every table exactly when
  batches hold one row, or the threshold is at least twice the largest batch size less one
  (`EmbedDrainTicks.TicksDrainEveryTableExactly`); with the default batch size of 64 and threshold of 10
  (`src/bridge.rs:915-918`) there is a table, `EmbedDrainTicks.WorstTable`, that silences the worker. That table
  needs pending rows without a text. Today's writer makes none (`EmbedText.PendingRowsHaveText`); they can only
  come from the backlog that was marked pending before rows were classified
  (`docs/adr/0038-m2-drain-text-sourcing-and-failure-handling.md:63`). When every pending row has a text, and a
  poison row is in the batch but not at its head, three more than the failures counted before this batch's own is
  enough and needed (`TicksDrainExactlyAboveThreshold`), so a worker that two failed health checks left at two
  failures needs a threshold of five. Rows without a text make it more: marking them makes room in the batch, and
  the changed batch starts its count of equal failures again. In between, beyond the failures already counted,
  three and one for each pending row without a text is enough (`TicksDrainWithRoom`), and three is needed whatever
  else is pending (`TicksNeedThree`).

- The batch size grows back after a bisection by doubling, and a double above what the model advertises is
  refused, not cut (`src/embed_drain.rs:664-684`). So it gets back to its largest size exactly when the model
  advertises no less than configured, or what it advertises is the present size doubled some number of times
  (`EmbedDrainHealth.BatchRecoversExactly`); from 22 of an advertised 45 it stays at 44.

A limit of one type is no fault of the program. `SendPacer` keeps its rate bound for callers that wait one
after the other, as its two callers do (`src/bridge.rs:3101`, `src/bridge.rs:4692`). For callers that overlap the grants
can exceed the bound by what the clamp at zero forgives and no more (`PacerOverlap.OverlapBound`), which is
nothing for a sleeper whose sleep no other grant interrupts (`PacerOverlap.UndisturbedSleeperPays`), while callers
that sleep and wake together can exceed it by any margin (`PacerOverlap.OverlappingCallersUnbounded`).

Other places where the model follows the code against its comments: a completed target wins over the
backstop (`src/backfill.rs:357-381`, the comment above it says the backstop is checked first); vector recall
keeps every scoped vector, not the top 200 (`src/bridge.rs:1783`, ADR 0041); the bisection tracker compares
ordered lists of ids, not sets (`src/embed_drain.rs:239`); a row whose text the embedder rejects stays
pending for ever, it is never retired (`src/embed_drain.rs:582-593`, `EmbedDrainHealth.LonePoisonSilences`).

## Model

| member | source | states |
|---|---|---|
| History.OldestIsLeast | src/backfill.rs:600-617 | the anchor of a batch is that of one of its messages, none of its messages is older by (timestamp, id), and there is none exactly when no message has both an id and a timestamp |
| History.MillisecondsAreNearest | src/backfill.rs:606 | the anchor of a time in seconds is its milliseconds where they fit, else the nearest bound |
| History.InsertAll | src/storage.rs:1369-1401 | inserting rows if new keeps every stored row in place, and an id is stored afterwards exactly when it was or was offered |
| History.InsertAllExactly | src/storage.rs:1369-1401 | the rows in the table afterwards are exactly the old ones and, of the offered ones, the first of each id that was not stored |
| PhoneHistory.AnswerMovesAnchor | src/backfill.rs:600-617 | for a block of the phone's history in any order, the next anchor sits exactly at the block's start |
| BackfillStore.NextQueued | src/storage.rs:2400-2437 | the claimed job is the first queued one, and there is none only if no job is queued |
| BackfillStore.Store.InsertRows | src/storage.rs:1369-1401 | the loop of inserts leaves `InsertAll` of the old rows |
| BackfillStore.Store.UpsertCursor | src/storage.rs:2660-2700 | sets the chat's anchor and flags, keeps its last completion time when none is given, and touches nothing else |
| BackfillStore.Store.RecordProgress | src/storage.rs:2591-2648 | cursor and job counter together, nothing else |
| BackfillStore.Store.MarkJob | src/storage.rs:2448-2469 | sets the status unless that would overwrite a cancellation |
| BackfillStore.Store.ClaimNext | src/storage.rs:2400-2437 | claims the first queued job and sets exactly that one running |
| Backfill.StampAndFinish | src/backfill.rs:1096-1114 | the completion write refines `Complete`: anchor, flags opposed to each other, completion time, or nothing when it fails |
| Backfill.AdvanceJob | src/backfill.rs:1008-1125 | the second half of a turn (count, next anchor, guard, progress write, decision) refines `Advance` |
| Backfill.TurnJob | src/backfill.rs:942-1125 | one turn of the paging loop refines `Turn`, for every answer and every failing write |
| Backfill.ProcessJob | src/backfill.rs:883-1128 | a whole run, failing reads included, leaves the outcome and tables of `ProcessReading` |
| Backfill.RunWorkerPass | src/backfill.rs:1171-1284 | claim, run and requeue or finish refine `Work`, a failing claim or status write included |
| BackfillStops.TargetReadsBack | src/backfill.rs:270-305 | every target is read back from the columns it is written to, and nothing else is read as one, except that "all" ignores the value |
| BackfillStops.OpensExactly | src/backfill.rs:883-932 | each reason to turn a job away before its first fetch, and otherwise that it opens, by what the tables hold and which reads fail |
| BackfillStops.RunStartsAt | src/backfill.rs:918-939 | a run starts from the usable cursor, else from a stored message than which none of the chat is older, with the count recorded so far |
| BackfillStops.PageStopsExactly | src/backfill.rs:1090-1125 | a page ends the run as done exactly when its target is met, as parked exactly when it is not and a positive backstop is reached, and otherwise the run goes on unless it is cancelled |
| BackfillStops.UndecidedEndsByCause | src/backfill.rs:942-1046 | every other turn ends the run, and each end names its cause |
| BackfillStops.RunStopsExactly | src/backfill.rs:941-1127 | so for whole runs: parked and done exactly by what the last page reached; a count, or a backstop of 0, never parks |
| BackfillStops.FetchesOnlyWhileShort | src/backfill.rs:941-1127 | after its first fetch a run never fetches from an anchor at or before its cutoff, nor with its count or backstop reached |
| BackfillStatus.PassSettles | src/backfill.rs:1171-1284 | the first queued job is left finished, paused, failed or queued exactly by how its run ended, or running when the process died or the status write was lost; no other job changes |
| BackfillStatus.CancelIsFinal | src/storage.rs:2448-2469 | a cancelled job stays cancelled through every later run, pass and status write |
| BackfillStatus.RunStampsExactly | src/backfill.rs:1018-1112 | a run sets the completion time exactly when it is done and its completion write goes through, to the time of its last turn |
| BackfillStatus.CancelWritesAnchor | src/backfill.rs:943-958 | a cancel seen ahead of a fetch leaves the cursor at the loop's anchor, open for fetching, or everything as it was when its write does not go through |
| CursorWriters.TriggerFetch | src/api.rs:1472-1512 | the trigger's cursor logic: refuses an exhausted chat, refuses one with nothing to start from, re-seeds an unusable cursor from the oldest stored message, leaves a usable one alone |
| CursorWriters.SeedCursorIfNoAnchor | src/bridge.rs:3895-3925 | writes exactly when the chat is not exhausted and has no way to start |
| BackfillStatus.SeedsExactly | src/bridge.rs:3895-3925 | a chat-state sync opens a cursor at its anchor exactly for a chat that is not exhausted and has no usable cursor and no stored message |
| BackfillStatus.TriggersExactly | src/api.rs:1472-1512 | a trigger opens one at the oldest stored message exactly for a chat that is not exhausted and has stored messages but no usable cursor |
| BackfillNoGaps.AnswerCovers | src/backfill.rs:994-1006 | storing an answer extends the stored stretch down to the answer's start |
| BackfillNoGaps.TurnKeeps | src/backfill.rs:942-1125 | every turn, whatever fails or dies in it, keeps the stored stretch complete down to the cursor's anchor and to the loop's anchor |
| BackfillNoGaps.OldestTurnKeeps | src/backfill.rs:942-1125 | the same for a run from the oldest stored message, when each batch is stored whole or not at all |
| BackfillNoGaps.RunLeavesNoGap | src/backfill.rs:883-1128 | however a run ends, from a usable cursor, or from the oldest stored message with batches stored whole or not at all, everything storable between the next run's anchor and the original start is stored; `Done` under `All` means everything older than the start is, under `Since(t)` everything older than the start and newer than `t` |
| BackfillLife.LifeLeavesNoGap | src/backfill.rs:1158-1285 | on a chat with a usable cursor, over any history of runs of any jobs, triggers, seedings and live rows, no gap, and at the end of it all what every run that ended `Done` was asked for |
| BackfillLife.PassIsEvents | src/backfill.rs:1171-1284 | a pass of the worker is a claim, a run of the job unless its reads fail, and a status write unless it is lost |
| BackfillLife.PassesLeaveNoGap | src/backfill.rs:1158-1285 | so no gap, and what `Done` promised, over any number of worker passes with failing reads, claims and status writes, and whatever happens between them |
| BackfillLife.UsableCursorUntouched | src/api.rs:1490-1512 | neither outside writer touches a usable cursor |
| BackfillLife.TriggerStartsCovered | src/api.rs:1488-1512 | an accepted trigger leaves a cursor from which the no-gap statement starts |
| BackfillTears.TearSpoils | src/backfill.rs:994-1070 | without a usable cursor, a tear anywhere the run may come to is a run, with its progress writes refused on the way down and cut there, after which the next run skips a message |
| BackfillTears.CutSafeExactly | src/backfill.rs:883-1128 | every cut of a run, at any turn and with any writes refused, leaves the next run a covered start if and only if the run started from the cursor or the history offers no tear at the start or at a position the run may page down to |
| BackfillTears.RecordedCutSafeExactly | src/backfill.rs:1058-1070 | every cut of a run whose cursor writes are not refused does if and only if the run started from the cursor or the first answer offers no tear |
| BackfillResume.DrainReachesOutlook | src/backfill.rs:942-1127 | an undisturbed run reaches exactly the end that an independent description of the paging predicts from its anchor and count |
| BackfillResume.RestartIsContinue | src/backfill.rs:889-938 | starting a job over from its stored cursor and counter reaches what going on would have |
| BackfillResume.SavedIsResumable | src/backfill.rs:1048-1070 | after a recorded batch the tables hold all a later run needs |
| BackfillResume.EarlyDeathResumes | src/backfill.rs:994-1070 | killed while a batch is stored, or before it is recorded, a job with a usable cursor has the outlook it had |
| BackfillResume.StoppedIsResumable | src/backfill.rs:943-958 | so they do after a stop at the top of the loop, although it clears the exhausted flag |
| BackfillResume.PagesResume | src/backfill.rs:942-1127 | a run ends as it would have undisturbed, with nothing more to fetch or all a further run needs, or requeues with the same outlook |
| BackfillResume.ResumeEqualsUninterrupted | src/backfill.rs:1171-1284 | any number of stops, deferrals, deaths and lost status writes, each followed by a requeue, ends with the same outcome, rows, anchor, flags and count as one uninterrupted run, for every target; it leaves out the two points below where more remains, and deaths within a batch on a chat without a usable cursor |
| BackfillResume.StampDeathExactly | src/backfill.rs:1058-1112 | first point: killed between the record of a batch that meets the target and the completion write, the job ends as an uninterrupted run if and only if nothing more remains |
| BackfillResume.LostStatusExactly | src/backfill.rs:1244-1283 | second point: when the status write of a run that ended its job is lost, the job ends as it would have if and only if nothing more remains, never when it was parked |
| BackfillBounds.ContinuingCounts | src/backfill.rs:1008-1125 | going round again takes a non-empty batch and leaves the count strictly larger and below the limit |
| BackfillBounds.BoundedFetches | src/backfill.rs:941-1127 | against any source, a job with a count or a backstop fetches at most max(1, limit - fetched) times |
| BackfillBounds.FaithfulRunTerminates | src/backfill.rs:941-1127 | against the phone a run needs no backstop: at most one fetch more than there are older messages |
| BackfillBounds.CountDoneStores | src/backfill.rs:1092-1114 | `Done` under `Count(n)` means a stretch below the start is stored that holds the messages still to count or reaches the beginning, from a usable cursor, or from the oldest stored message with batches stored whole or not at all |
| BackfillBounds.StuckExactlyOnTriple | src/backfill.rs:1033-1046 | a job fails as stuck exactly at the first batch whose oldest id equals both ids before it, the starting anchor's included |
| BackfillBounds.HonestPhoneNeverStuck | src/backfill.rs:1033-1046 | against the phone the guard never fires |
| BackfillBounds.LifeKeepsFlags | src/backfill.rs:942-1114 | every writer of a cursor, in the worker and outside it, keeps `exhausted` equal to `not more_remain` |
| DrainConversations.DrainHistorySync | src/backfill.rs:652-716 | the nested loops collect the matched conversations' messages in order, OR their flags, and fall back as `Drained` says |
| DrainConversations.DrainAllConversations | src/backfill.rs:752-774 | the loop with its seen-set gives one batch per kept id in first-occurrence order |
| DrainConversations.BatchesAreExactInOrder | src/backfill.rs:752-774 | ids are distinct and in first-occurrence order, each batch is the storable part of the concatenation of all conversations with its id, `more_remain` is their OR, the phone JID is the first one's, and the single-conversation fallback never fires |
| DrainConversations.BatchesPartition | src/backfill.rs:752-774 | as multisets, the batches together are the storable messages of the kept conversations: nothing lost, nothing twice |
| DrainConversations.BatchHasAnchor | src/backfill.rs:720-727 | every batch has an anchor with a non-empty id and a positive timestamp |
| DrainFlags.NothingRemainsExactly | src/backfill.rs:670-678 | a batch says nothing remains exactly when every conversation with its id is complete by its transfer type, or else by a progress of 100 |
| DrainFlags.ChatsDrainedExactly | src/backfill.rs:752-774 | exactly the chats get a batch that have a name, are not skipped, and have a message that can be stored and fetched from |
| DrainFlags.FetchGetsExactly | src/backfill.rs:652-716 | a fetch gets the conversations asked for, else the only one there is, else nothing, with the flag each case calls for |
| DrainFlags.RetainedExactly | src/backfill.rs:720-727 | of a batch exactly the messages stay that hold a payload and that a fetch can start from |
| Persist.MessageStore.PersistMessage | src/bridge.rs:5204-5276 | one message: which of the four counts, which rows and media references |
| Persist.MessageStore.PersistMessages | src/bridge.rs:5193-5280 | the loop refines `PersistAll`, for every pattern of failing writes |
| Persist.MessageStore.PersistHistory | src/bridge.rs:5193-5280 | the same from an empty tally |
| LiveSink.RowKeepsAnchor | src/bridge.rs:5210-5250 | a stored history row resolves, as the oldest stored message, to exactly the anchor of the message it came from, if and only if the message has a timestamp |
| Persist.PersistConserves | src/bridge.rs:5156-5182 | every message is counted exactly once, new rows are the stored count, media counts stay within it, and no row or reference is lost or changed |
| Persist.PersistAppends | src/bridge.rs:5193-5280 | storing a concatenation is storing one run and then the other |
| Persist.CountsAdd | src/bridge.rs:5174-5182 | the tally of a run does not depend on the tally it starts from: counts add up |
| Persist.GoodPassStoresAll | src/bridge.rs:5193-5280 | without failed inserts everything storable is stored |
| Persist.SecondPassStoresNothing | src/bridge.rs:5245-5272 | a second pass stores nothing and leaves every row as first written |
| Persist.FailedPassLeavesOut | src/bridge.rs:5268-5271 | of distinct new messages, a failed insert leaves its message out |
| PersistMedia.RefsExactly | src/bridge.rs:5257-5266 | after a pass an id has a media reference exactly when it had one, or a newly stored message of it has media whose reference could be written; it is that message's own |
| PersistMedia.TallyExactly | src/bridge.rs:5204-5276 | each of the six numbers counts exactly the messages it names |
| PersistMedia.RefsGrowByCount | src/bridge.rs:5257-5266 | where none of the ids had a reference, the references grow by the number counted as written |
| Persist.PersistInsertsOffered | src/bridge.rs:5245-5250 | what a pass does to the rows is an insert-if-new of the rows whose inserts went through, as the worker model assumes of its sink |
| Persist.StoredPendingHasText | src/bridge.rs:5237-5248 | a row stored as pending has text for the drain worker |
| LiveSink.SinkCompleteExactly | src/bridge.rs:5303-5322 | a round with this sink meets the demand of the no-gap statements if and only if the insert of every storable message went through |
| LiveSink.SinkStoresOwnRows | src/bridge.rs:5303-5322 | it stores nothing but rows of the chat for the answer's messages, as the statements about runs without a cursor ask |
| LiveSink.LiveSinkCoversExactly | src/bridge.rs:5303-5322 | after a batch the frontier is covered if and only if the insert of every storable message that had no row yet went through |
| Dedup.AtomicDedupCache.constructor | src/dedup.rs:26-33 | an empty cache |
| Dedup.AtomicDedupCache.Admit | src/dedup.rs:37-70 | the eviction loop and the compaction in place refine `TryAdmit`; the caller wins exactly when the id was absent |
| Dedup.AtomicDedupCache.SetDone | src/dedup.rs:73-77 | changes the state of a present id and nothing else |
| Dedup.AtomicDedupCache.Forget | src/dedup.rs:81-83 | removes the entry and leaves its ticket in the queue |
| Dedup.EvictDropsOldest | src/dedup.rs:48-59 | whatever stale tickets are in the way, eviction drops exactly the oldest live items |
| Dedup.CompactKeepsLive | src/dedup.rs:60-66 | compaction keeps exactly the live tickets, in order |
| Dedup.ShortQueueIsLeft | src/dedup.rs:60-66 | a queue of at most three tickets per slot is not compacted, it keeps its end |
| Dedup.AdmitRefinesList | src/dedup.rs:37-70 | an admit is the admit of a plain list that drops its oldest element over capacity; the queue then holds at most three tickets per slot |
| Dedup.StepRefinesList | src/dedup.rs:37-83 | so is every operation the matching list operation |
| Dedup.RunRefinesList | src/dedup.rs:37-83 | over any run the cache gives the list's answers |
| Dedup.NewCacheRefinesEmptyList | src/dedup.rs:26-83 | from a new cache, without any assumption |
| DedupSteps.EveryInterleavingIsBounded | src/dedup.rs:37-70 | in every interleaving each entry's ticket is queued or carried by a thread, and the map holds at most the capacity plus the threads still admitting |
| DedupSteps.AtRestFits | src/dedup.rs:37-70 | with no call in flight the map is within capacity and every entry's ticket is queued |
| DedupSteps.EvictsOwnExactlyWithoutStrike | src/dedup.rs:50-55 | a popped ticket is matched if and only if its generation is live, and the eviction then removes that generation if and only if no `remove` of that id comes in between |
| DedupSteps.NewerGenerationEvicted | src/dedup.rs:50-55 | a reachable state in which the eviction of an old generation removes the newer one |
| DedupQueue.EveryReleaseFits | src/dedup.rs:44-66 | in every interleaving the queue holds at most three tickets per slot whenever its lock is free, and at most one more while a thread works on it |
| EmbedText.LabelRoundTrip | src/embed_drain.rs:135-169 | for text, images, videos and documents the recovered text is the embeddable text, none included, if and only if a document's file name holds no `]` |
| EmbedText.LimitTakesPrefix | src/embed_drain.rs:171-200 | a limit takes the prefix of min(length, limit) characters, and nothing is left only under a limit of 0 |
| EmbedText.PendingRowsHaveText | src/bridge.rs:547-592 | every kind classified as pending when written has text when drained, so the drain never fails such a row |
| EmbedLabels.PendingExactly | src/bridge.rs:547-592 | a row is written as pending exactly when its message holds words of somebody |
| EmbedLabels.EmbeddedAs | src/embed_drain.rs:135-169 | texts and captions are embedded bare, locations, contacts and polls as their whole label, nothing else at all |
| EmbedLabels.StoredPictureLabel | src/bridge.rs:5210-5250 | a stored picture's label shows the length its reference gives, when that is one |
| EmbedDrain.BisectionTracker.Observe | src/embed_drain.rs:238-247 | counts failures of the same ordered batch, and signals at the third |
| EmbedDrain.BisectionTracker.Reset | src/embed_drain.rs:250-260 | forgets batch and count |
| EmbedDrain.EmbeddingStore.MarkFailed | src/storage.rs:1649-1660 | every row with the id is failed and no other row changes |
| EmbedDrain.EmbeddingStore.WriteBatch | src/storage.rs:1611-1646 | writes the vectors by position to the rows with the ids |
| EmbedDrain.DrainWorker.constructor | src/embed_drain.rs:400-421 | a fresh worker, its batch size clamped to the advertised maximum |
| EmbedDrain.DrainWorker.Fail | src/embed_drain.rs:619-629 | one more failure, and notify-only mode at the threshold |
| EmbedDrain.DrainWorker.Collect | src/embed_drain.rs:527-549 | texts and ids stay aligned, textless rows are marked |
| EmbedDrain.DrainWorker.HandleEmbedError | src/embed_drain.rs:565-631 | a failing batch halves the size at the third failure, otherwise counts towards the threshold |
| EmbedDrain.DrainWorker.Drain | src/embed_drain.rs:520-685 | a fetched batch refines `OnBatch` |
| EmbedDrain.DrainWorker.OnePass | src/embed_drain.rs:423-686 | one pass of the worker loop refines `RunPass` |
| EmbedDrainSafety.PassAdvances | src/embed_drain.rs:451-685 | a pass without a delivered batch changes no row that has text; rows only ever move forward |
| EmbedDrainSafety.RunAdvances | src/embed_drain.rs:423-686 | over any run a row is as it was, or was pending and is failed for want of text, or holds the vector of its own text |
| EmbedDrainSafety.RunKeepsBounds | src/embed_drain.rs:402-413 | the batch size stays between 1 and the smaller of the configured and the advertised maximum |
| EmbedDrainSafety.FreshInBounds | src/embed_drain.rs:402-413 | and starts there |
| EmbedDrainHealth.LoadingCostsNothing | src/embed_drain.rs:479-484 | any number of passes with the sidecar still loading leave a listening worker and every row as they were |
| EmbedDrainHealth.OutageCountsOne | src/embed_drain.rs:455-515 | an unhealthy sidecar, one that loads for too long and a failed read each count one failure, and change nothing else but backoff and silence |
| EmbedDrainHealth.OutagesSilenceExactly | src/embed_drain.rs:423-515 | from a fresh worker, ticks without a healthy sidecar silence it exactly when at least max(1, threshold) of them are outages; until then each doubles the backoff up to its cap |
| EmbedDrainHealth.NotificationStartsOver | src/embed_drain.rs:437-444 | a notification wakes a silent worker with no failures and no backoff, and with the batch size and tracker it had |
| EmbedDrainHealth.DeliveryForgives | src/embed_drain.rs:633-684 | a delivered batch clears failures, backoff and tracker and lets the batch grow |
| EmbedDrainHealth.RejectionCounts | src/embed_drain.rs:565-631 | a rejected batch counts one failure and is remembered unless it is a single row; the third rejection of the same rows in a row halves the batch and clears failures, backoff and tracker |
| EmbedDrainHealth.LonePoisonSilences | src/embed_drain.rs:582-593 | a row the embedder rejects on its own stays pending for ever, and ticks silence the worker exactly when there are as many as it has failures left |
| EmbedDrainHealth.BatchRecoversExactly | src/embed_drain.rs:664-684 | deliveries bring the batch back to its largest size if and only if the model does not advertise less than configured, or advertises the present size doubled some number of times |
| EmbedDrainProgress.HealthyPassProgresses | src/embed_drain.rs:501-685 | while a row before the first poison row is pending, each healthy pass lowers (all pending rows, batch size, failures left), lexicographically |
| EmbedDrainProgress.ReachesPoison | src/embed_drain.rs:423-686 | after at most the measure's number of healthy passes none is pending |
| EmbedDrainProgress.RowsBeforePoisonDrain | src/embed_drain.rs:423-686 | each such row then holds its own text's vector, or is failed because it has no text |
| EmbedDrainTicks.TicksDrainWithRoom | src/embed_drain.rs:423-686 | whatever the table and whatever a listening worker has counted, ticks alone drain the rows before the first poison row when the threshold is at least the failures counted plus three plus the smaller of the pending rows without a text and twice the largest batch size less four |
| EmbedDrainTicks.TicksNeedThree | src/embed_drain.rs:602-631 | with a poison row in the batch behind a good one, and at most one failure of this batch so far, ticks drain only if the threshold is at least three more than the failures counted before them, whatever else is pending |
| EmbedDrainTicks.TicksDrainExactlyAboveThreshold | src/embed_drain.rs:602-631 | if no pending row lacks a text, and a poison row is in the batch but not at its head, ticks drain if and only if the threshold is at least three more than the failures counted before this batch's own |
| EmbedDrainTicks.WorstTableNeverDrains | src/embed_drain.rs:540-631 | for every batch size of two and more and every threshold below twice the size less one, a table with pending rows without a text on which a fresh worker falls silent with a good row pending |
| EmbedDrainTicks.RunStaysBelow | src/embed_drain.rs:619-629 | over any run a worker that has counted up to its threshold no longer listens |
| EmbedDrainTicks.TicksDrainEveryTableExactly | src/embed_drain.rs:423-686 | from a fresh worker, ticks drain every table against every embedder if and only if batches hold one row or the threshold is at least twice the largest batch size less one |
| Search.RerankOnly | src/bridge.rs:1736-1775 | the scan-cap path: scored rows by score, then the others, cut to the limit |
| Search.HybridSearch | src/bridge.rs:1777-1846 | the hybrid path, loop by loop, gives `Hybrid` cut to the limit |
| SearchRanking.FindScoreIsOwn | src/bridge.rs:1797-1811 | a lexical row is scored by the first scoped vector with its own id, and not at all without a comparable one |
| SearchRanking.HybridRanks | src/bridge.rs:1777-1846 | the hybrid result is ordered by each row's own similarity, lexical rows without one come behind all scored rows, and lexical rows that tie come as recalled |
| SearchRanking.RerankRanks | src/bridge.rs:1736-1775 | so is the rerank-only result, which holds the lexical rows and no others |
| Search.SortIsStable | src/bridge.rs:1838-1839 | the sort orders by score and keeps the order of equal scores |
| Search.StableSortUnique | src/bridge.rs:1838-1839 | there is only one such arrangement, so the sorting algorithm does not matter |
| Search.HybridIsAdditive | src/bridge.rs:1736-1846 | the hybrid result without its vector-only rows is the rerank-only result, when both vector lookups agree on the lexical rows |
| Search.HybridHoldsAll | src/bridge.rs:1785-1843 | before the cut, every lexical row and every vector-only row is there as often as it came in |
| Search.VectorOnlyExact | src/bridge.rs:1815-1836 | a non-lexical row is there if and only if a scoped vector of it scores at least the minimum |
| Search.HybridUnique | src/bridge.rs:1785-1843 | no id appears twice |
| Search.UnscoredSurviveExactly | src/bridge.rs:1841-1844 | the cut keeps all unscored lexical rows if and only if there are none or everything fits |
| Search.LexicalSurviveExactly | src/bridge.rs:1838-1844 | the cut keeps all lexical rows if and only if the limit leaves one place for each, and one for every vector-only row when a lexical row is unscored, otherwise for each that scores above the lowest lexical score |
| Search.ScoredLexicalRowLost | src/bridge.rs:1838-1844 | a scored lexical row, with none unscored, that the cut loses to a vector-only row |
| SendPacer.Pacer.constructor | src/bridge.rs:250-256 | a full bucket |
| SendPacer.Pacer.WaitTurn | src/bridge.rs:258-293 | a call that no other overlaps refines `Turn`; an interval of zero changes nothing |
| SendPacer.NoDebtDiscarded | src/bridge.rs:285-291 | a sleeper wakes to at least one token, so the clamp at zero discards nothing |
| SendPacer.TurnAccounts | src/bridge.rs:258-293 | tokens stay within the burst, and a call costs a whole token out of what was held and earned |
| SendPacer.RateBound | src/bridge.rs:258-293 | the grants from the i-th to the j-th number at most the burst plus the time between them over the interval |
| PacerRefill.SleepsExactly | src/bridge.rs:258-276 | a call sleeps exactly when less than one token was held and earned since |
| PacerRefill.SleeperTakesOne | src/bridge.rs:276-293 | a sleeper takes one token of what it finds on waking and leaves the rest, so what it overslept is not lost |
| PacerRefill.BurstAfterPause | src/bridge.rs:258-276 | after a pause of a burst's earning, a whole burst of calls is let through without sleep |
| PacerRefill.SustainedRate | src/bridge.rs:276-293 | callers that arrive at once and find no token are served one per interval, neither faster nor slower |
| PacerOverlap.OverlapBound | src/bridge.rs:258-293 | for arrivals and wakings in any order, the grants exceed the rate bound by no more than what the clamp at zero forgives |
| PacerOverlap.UndisturbedSleeperPays | src/bridge.rs:276-292 | a sleeper is forgiven nothing when nobody is let through while it sleeps |
| PacerOverlap.OverlappingCallersUnbounded | src/bridge.rs:276-292 | any number of callers that sleep at once are let through after one interval |
| PercentCodec.UrlEncode | src/api.rs:94-103 | the loop encodes as `Encode`, and decoding its output gives the input back |
| PercentCodec.DecodeQueryComponent | src/api.rs:115-138 | the index loop decodes as `Decode`: a valid escape, a plus, or a literal byte at a time |
| PercentCodec.EncodeThenDecode | src/api.rs:94-138 | decoding undoes encoding, for every byte string |
| PercentCodec.EncodedIsPlain | src/api.rs:94-103 | an encoded string holds unreserved bytes and percent signs only (section 2.3 of RFC 3986) |
| QuerySpelling.DecodesExactly | src/api.rs:115-138 | decoding gives exactly the bytes a string spells: escapes in either case, plus for space, and everything else as itself, stray percent signs included |
| QuerySpelling.EncodesExactly | src/api.rs:94-103 | a byte is encoded as itself exactly when it is unreserved (section 2.3 of RFC 3986), and else as an escape in capitals |
| PercentCodec.TargetReadsBack | src/api.rs:635-647 | a path and a non-empty list of encoded pairs are split back exactly; an empty query reads back as one empty pair |
| RequestReader.FindBlankIsFirst | src/api.rs:614-617 | the head ends at the first blank line |
| RequestReader.ReadRequestHead | src/api.rs:599-670 | the read loop refines `ReadLoop` and leaves the rest of the stream unread |
| RequestFields.ReadsNoFurther | src/api.rs:602-624 | the reader takes reads until they hold the end of the head or are too many, and leaves the others alone |
| RequestFields.HeadReadExactly | src/api.rs:626-634 | a head is read exactly when it is text whose first line holds two words |
| RequestFields.VerbAndTarget | src/api.rs:629-647 | verb and target are the first two words of the first line, whatever white space separates them and whatever follows |
| RequestFields.TargetSplits | src/api.rs:635-647 | a target splits at its first question mark into path and pairs, and has no query without one |
| RequestFields.PairSplits | src/api.rs:637-646 | a pair splits at its first equals sign into decoded key and value, and has an empty value without one |
| RequestFields.LengthOfHeader | src/api.rs:648-660 | the last header that names a content length gives it when it is a number, and counts as 0 when it is not |
| RequestFields.SameNameExactly | src/api.rs:655 | header names are compared up to the case of letters |
| Utf8.ValidExactly | src/api.rs:626 | the bytes accepted as text are exactly the encodings of sequences of code points (section 3 of RFC 3629) |
| RequestReader.ReadRequestBody | src/api.rs:676-704 | exactly the declared number of bytes, or nothing when too long or cut short |
| RequestFields.BodyTakenExactly | src/api.rs:676-704 | a body is taken exactly when its declared length is within the limit and that many bytes come |
| RequestReader.HeadDependsOnBytes | src/api.rs:608-624 | the result is a function of the bytes alone, except when a read ends beyond 128 KiB and before the blank line's end: exactly then, or without a blank line, nothing is read |
| RequestReader.ShortHeadIsRead | src/api.rs:608-669 | a head that ends within 128 KiB is parsed, however the bytes are cut |
| RequestReader.ChunkingIrrelevant | src/api.rs:599-704 | any two ways of cutting the same bytes give the same head and the same bytes for the body |
| HeaderBlock.BlankEndsBlock | src/api.rs:183-194 | the first blank line of a message is the one behind its header block, whatever the body holds |
| ResponseCodec.IntoBytes | src/api.rs:162-196 | the writer's bytes are `ResponseBytes` |
| ResponseFields.ResponseFieldsReadBack | src/api.rs:162-196 | the written fields are read back as the content type, the length of the body, the response's own fields in order, and the close of the connection |
| ResponseCodec.ResponseReadsBack | src/api.rs:2387-2400 | the client reads back exactly the status and the body of every response whose header fields hold no CRLF |
| ResponseFields.ResponseReadExactly | src/api.rs:2387-2400 | the client reads a response exactly when it has a blank line |
| ResponseFields.StatusReadExactly | src/api.rs:2391-2398 | the status is the number in the second word of the first line, up to 65535, and 0 without one |
| CliRequest.HeadReadsBack | src/api.rs:626-660 | the server parses the client's head back to its verb, target, headers and length |
| CliRequest.PostReachesServer | src/api.rs:2332-2337 | however the client's bytes are cut, the server gets its target and exactly its body |
| ResponseFields.TokenReachesServer | src/api.rs:2332-2337 | the server finds the client's token as a bearer credential, and none when the client has none |

## Left out

- Sockets, timeouts, SSE, the route table, JSON bodies, authentication, and the host and origin checks: I/O and dispatch.
- The WhatsApp client, media download and message extraction: a message's content arrives already extracted, and storability of a message is a fact about it.
- The history source itself (`LiveHistorySource`, the response correlator): the phone is a parameter, and messages that arrive out of band, are deleted, or lack an id or a timestamp are outside the no-gap statements.
- Requeueing after a death: nothing in the program requeues a job that a killed process left `running`; the resumption statement is about a job that was requeued.
- Store internals: SQL, indexes and transactions are taken as the row operations they perform; of equal timestamps the oldest message is the first inserted one.
- Job enqueueing, its cooldown and queue limits, per-job cancellation through the API, and the progress events.
- `HistoryBatch.progress`, which nothing reads.
- Sender and LID resolution when history is stored, the wake-up of the drain worker, and the unmatched pairing chunks' caller.
- BackfillBounds.BoundedFetches: excludes batches of 2^32 messages or more, whose length the code truncates to 32 bits.
- Writes by others between two turns of one run: a run is one event in the life of a chat, and live messages, triggers and other runs come before or after it.
- BackfillResume.ResumeEqualsUninterrupted: leaves out refused progress writes, which leave the job's recorded count behind, and deaths within a batch on a chat without a usable cursor, which may skip messages as `BackfillTears.CutSafeExactly` says.
- EmbedDrainTicks.TicksDrainExactlyAboveThreshold: leaves out a worker whose tracker has counted more failures of the batch than the worker has, as after a notification wakes it from silence; what is enough then is in `TicksDrainWithRoom`.
- BackfillLife.LifeLeavesNoGap: starts from a chat with a usable cursor, which `TriggerStartsCovered` shows the trigger creates; without one a run may store part of a batch, see `BackfillTears.CutSafeExactly`.
- BackfillStore.Store.UpsertCursor: takes an anchor that is there; the source also accepts absent fields, which only its tests pass.
- PercentCodec.DecodeQueryComponent: keeps the decoded bytes, where the source replaces those that are not UTF-8.
- EmbedDrainProgress.RowsBeforePoisonDrain: claims nothing about rows behind the first poison row, which the code blocks.
- The wrap-around of the dedup generation counter at 2^64, and the internal sharding of the concurrent map (its length is read atomically).
- `AttemptTracker` (inert), `LoadingTimer` (its verdict is part of a pass), backoff durations, jitter and clock values.
- Search dispatch: embedding the query, its budget and cooldown, the fallbacks to plain lexical search, and the SQL behind the two recalls. Scores are real numbers, so NaN is not modelled.
- SendPacer.RateBound: tokens and times are real numbers; rounding of `f64` is not modelled.
- Size labels: the conversion to `f64` is exact below 2^53 bytes and taken as exact above; coordinates of a location are a text.
- Non-ASCII white space when a request line is split or a header trimmed, and the replacement of invalid UTF-8 in a decoded query: bytes are kept as they are.
- Read receipts, outbound queue, MCP transport, group and presence handling, and the Python scripts.
