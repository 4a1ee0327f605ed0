# MiniWeb in Dafny

A model of the concurrent core and the byte-level code of MiniWeb, a kqueue HTTP server in C, with
machine-checked proofs of what that code keeps in every run and for every input.
`dafny verify dfyconfig.toml` checks the whole project.

| files | what they model |
|---|---|
| `ConnectionPool.dfy` | the connection pool: descriptors, records, free stack, generations |
| `WorkQueue.dfy` | the ring queue, and the condition-variable protocol around it with its shutdown |
| `Handoff.dfy`, `HandoffProof.dfy`, `HandoffRuns.dfy`, `HandoffExamples.dfy`, `HandoffOutcomes.dfy` | the dispatcher and the workers handing raw connection pointers to one another, as a state machine; the ownership proof; what follows for whole runs; runs that show its conditions are needed and its bounds reached; what becomes of one event and one request |
| `Receive.dfy` | the receive loop of a worker |
| `Heartbeat.dfy`, `HeartbeatProtocol.dfy`, `HeartbeatProof.dfy`, `HeartbeatShutdown.dfy` | the periodic scheduler: table and catch-up arithmetic; the threads around it; the proofs over all interleavings; what a shutdown does and that it ends |
| `FileCache.dfy`, `FileCacheRuns.dfy`, `FileCacheAges.dfy` | the static-file cache: one shard; whole runs over all shards; the limits of age and size |
| `ManCache.dfy` | the cache of rendered manual pages, its keys, and both seen from their callers |
| `Rings.dfy` | the metrics ring and the package-answer ring |
| `ResponseIo.dfy` | write and writev loops under partial writes |
| `Json.dfy`, `Query.dfy` | JSON escaping; percent-decoding and query lookup |
| `Routes.dfy` | route tables, lookup, 404/405 and the Allow list |
| `Common.dfy` | shared definitions |

How to read the models:

- Table sizes (connections, queue slots, tasks, cache slots) are parameters, so the results hold for all
  sizes; the limits that shape behaviour (64 re-arms, 240 s, 600 s, 8 inserts, 511, 255 and 191 bytes) are
  the source's constants.
- Threads are interleaved one lock-held section, one kevent(2) call or one close(2) at a time. The writes
  of `try_rearm_keepalive` to a record are one step with the kevent(2) call that follows them, and so are
  accept(2) with the allocation that follows it (and with the close(2) when that is refused), and a worker's
  read of `conn->fd` with the staleness test it feeds. A recv(2) is two steps: the call, with the length
  computed from the count at that time, and its answer with the bookkeeping, which adds to the count it
  finds.
- Request handlers, and any other threads, open and close files of their own among the same descriptor
  numbers: they get any number that is not open and close only what they opened.
- Clocks, memory allocation, recv(2), write(2), writev(2) and poll(2) are parameters of the operations:
  every answer the interface documents is possible at every call.
- C strings are sequences without their terminator, and pointers into a table are indices.
- A class carries the fields the source updates; its methods are specified by functions on values, and the
  run-long results are lemmas about those functions.

Where the code and its documentation disagree, or a natural expectation fails, the model follows the code:

- A cached file is dropped after 240 idle seconds (`include/miniweb/http/response_internal.h:13`); the
  manual says 120.
- 65 requests, not 64, can be dispatched on one connection (`SixtyFiveRequestsAreDispatched`).
- The generation in the staleness test is read from the record itself, so it never decides anything, and a
  pointer kept across a close and a new accept is accepted again (`StaleIffNotServing`,
  `RecycledPointerIsAccepted`).
- An idle sweep closes by number after it has let go of the pool lock. It may take a connection that is
  queued or held, and then two workers can share one (`SweepingAQueuedConnectionSharesIt`), and with the
  default request limit their counts add up to a write outside the request buffer
  (`SharingOverrunsTheBuffer`), after which nothing is known of the pool; or the number
  may be in use for a handler's file by then, and then a later connection can lose its registration
  (`SweepingAReopenedNumberLosesAConnection`). `SweepExactCondition` says exactly which sweeps are
  harmless: those of a number whose connection is still armed, or that is neither served nor open.
- `json_escape_string` returns the empty string for every one-byte input (`SingleByteIsLost`);
  `Json.CompleteExactly` says exactly which inputs come out whole.
- The Allow list ignores the slash counts of prefix routes, and lists at most one prefix route
  (`AllowCanMislead`); `SoundExactly` and `Routes.CompleteExactly` give the exact conditions.
- Query keys are compared without decoding (`PlainKeyFoundExactly`, `PlainLookupExactly`).
- A store under a path of 512 bytes or more counts as an offer of its 511-byte prefix when the hash routes
  both to one shard (`LongPathVouchesForItsPrefix`, `OwnOfferFirstExactly`), and a package answer with a key over 255 bytes is found under the prefix
  only (`LongKeyAnswersForItsPrefix`, `PushedIsFoundExactly`).
- A page put that runs out of memory can bring an older copy back (`FailedPutExposesOlderCopy`,
  `FailedPutExposesExactly`), and among puts of one key in the same second the order can be lost
  (`SameSecondCanReturnEarlierPage`, `OtherPutChangesAnswerExactly`).
- The write loops repeat after EINTR without a limit; everything else that keeps them from returning is
  bounded (`SucceedsUnlessGivenUp`).

## Model

| member | source | states |
|---|---|---|
| ConnectionPool.Alloc | src/net/connection_pool.c:18-43 | succeeds exactly under the guard, adds exactly that descriptor to the served ones, changes nothing on failure, and keeps the structural invariant |
| ConnectionPool.Free | src/net/connection_pool.c:46-66 | removes exactly that descriptor from the served ones, is a no-op for others, and keeps the structural invariant |
| ConnectionPool.RoomToFree | src/net/connection_pool.c:52-63 | the defensive bounds in free never fire: the record index is in range, the stack has room and the counter is positive |
| ConnectionPool.StaleIffNotServing | src/net/connection_pool.c:69-79 | a pointer is accepted if and only if its record serves the descriptor now; the generation comparison never changes the answer |
| ConnectionPool.RecycledPointerIsAccepted | src/net/connection_pool.c:30-39 | free followed by alloc of the same descriptor hands out the same record, and an old pointer to it passes the staleness test although the generation has moved on |
| ConnectionPool.ServingIsInjective | src/net/connection_pool.c:30-39 | no record serves two descriptors |
| ConnectionPool.PoolRefinesSet | src/net/connection_pool.c:18-66 | after any sequence of calls the pool serves exactly the descriptors of a plain set model, counts them, stays within the maximum, and the free stack is the complement |
| ConnectionPool.FreeStackNotExhausted | src/net/connection_pool.c:25-30 | an unserved descriptor in range always finds a free record, so the stack is never what refuses it |
| ConnectionPool.ConnectionPool.constructor | src/net/connection_pool.c:7-15 | a new pool is the initial pool: nothing served, every record free, record 0 on top |
| ConnectionPool.ConnectionPool.AllocSlot | src/net/connection_pool.c:18-43 | in place, the whole new state and the result are those of Alloc |
| ConnectionPool.ConnectionPool.FreeSlot | src/net/connection_pool.c:46-66 | in place, the whole new state is that of Free |
| ConnectionPool.ConnectionPool.CheckStale | src/net/connection_pool.c:69-79 | the answer is whether the record fails to serve the descriptor, for every state the pool can reach |
| WorkQueue.WorkQueue.Push | src/net/work_queue.c:16-30 | the ring refines a FIFO sequence: a push appends, or fails exactly when full and changes nothing |
| WorkQueue.WorkQueue.TakeHead | src/net/work_queue.c:41-49 | takes the oldest item off the sequence, or reports it empty |
| Common.WrapIsModulo | src/net/work_queue.c:25-25 | the conditional wrap used for every ring index is the source's remainder |
| WakeupProtocol.StepKeepsInv | src/net/work_queue.c:16-59 | every step of every thread keeps the wake-up invariant, under spurious wake-ups, multiple wake-ups and stealing |
| WakeupProtocol.NoLostWakeup | src/net/work_queue.c:16-50 | in every run, while a worker sleeps unsignalled there are at least as many signalled workers as queued items; what was popped is the front of what was pushed, in order |
| WakeupProtocol.QueuedItemHasATaker | src/net/work_queue.c:33-50 | in every run, while the server runs no worker leaves, and a queued item has a worker on its way to it |
| WakeupProtocol.PushOutcome | src/net/work_queue.c:16-30 | refused exactly when full; else the item is last and a sleeping worker is woken if there is one |
| WakeupProtocol.ShutdownStep | src/net/server.c:213-217 | after the broadcast every worker step makes progress towards exit and no step undoes it |
| WakeupProtocol.ShutdownTerminates | src/net/server.c:213-217 | once the flag is cleared and the broadcast done, no worker is or becomes asleep, each can move, and all together take at most two more steps each |
| Handoff.IdleFdsExactly | src/net/server.c:87-93 | a sweep chooses exactly the idle served descriptors, each once, and its array never overflows |
| Handoff.CollectIdle | src/net/server.c:87-93 | the scan loop returns that choice |
| HandoffProof.QueueHasRoom | src/net/server.c:204-207 | queued pointers are distinct records and leave room whenever the dispatcher is about to push |
| HandoffProof.SweepExactCondition | src/net/server.c:95-99 | closing a swept number keeps ownership of records and of numbers exclusive if and only if its connection is still armed, or it is neither served nor open |
| HandoffProof.DispatcherStepKeeps | src/net/server.c:46-209 | every dispatcher step, a sweep under that condition, keeps each record in exactly one place and each open number with one owner, with the links, registrations and counters of the holder |
| HandoffProof.WorkerStepKeeps | src/net/worker.c:69-166 | every worker step keeps the same |
| HandoffProof.FileStepKeeps | src/http/response_file.c:66-66 | handlers that open free numbers and close their own never disturb a connection |
| HandoffRuns.ExclusiveOwnership | src/net/server.c:183-208 | in every run whose sweeps meet that condition, whatever files handlers open and close: each record is free, armed, in the batch, queued or held, exactly once; no two workers hold the same one; the queue is never full at a push; a worker acts only on an open socket its own record serves; no staleness test rejects; no number a handler has open carries a registration or has a second owner; no write leaves a request buffer |
| HandoffRuns.ConnectionCounters | src/net/worker.c:80-139 | in those runs the count stays below the request limit; a worker inside recv(2) still holds the count its length was computed from, so the length is what is left of the limit and the terminator stays in the buffer; a record is re-armed at most 64 times and at most 65 requests are dispatched on it |
| HandoffRuns.PoolSoundInEveryRun | src/net/connection_pool.c:7-79 | in every run, whatever its sweeps, in which no answer of recv(2) and no count after it passes the request buffer, and only in those, no write leaves a buffer; the pool's structure then holds and the maximum is respected |
| HandoffOutcomes.RefusedOutcome | src/net/server.c:61-69 | a socket the pool has no record for leaves no trace |
| HandoffOutcomes.AcceptedOutcome | src/net/server.c:61-72 | otherwise it is armed with its own record |
| HandoffOutcomes.UnregisteredOutcome | src/net/server.c:72-75 | when the registration fails it is closed and its record freed again |
| HandoffOutcomes.EventOutcome | src/net/server.c:194-208 | in every state, an event whose record no longer serves its descriptor is ignored; one with EOF or a full queue ends the connection; any other is queued |
| HandoffOutcomes.DispatcherHasNoChoice | src/net/server.c:183-208 | on the way the dispatcher can take one kind of step only |
| HandoffOutcomes.PopOutcome | src/net/worker.c:99-114 | in every state, a pointer whose record serves its descriptor is received on, any other ignored |
| HandoffOutcomes.ExamineOutcome | src/net/worker.c:131-144 | a partial header goes on unless the limit is reached; a wrong one is dropped; a whole one is handled |
| HandoffOutcomes.AgainOutcome | src/net/worker.c:121-126 | no data for now: armed again, all else unchanged |
| HandoffOutcomes.PeerGoneOutcome | src/net/worker.c:127-130 | an error or the end drops the connection |
| HandoffOutcomes.FinishOutcome | src/net/worker.c:80-92 | a finished request is armed again, counted, emptied and active now, exactly with keep-alive and fewer than 64 re-arms; else it is dropped |
| HandoffOutcomes.DropOutcome | src/net/worker.c:69-77 | in every state, a dropped connection gives up its registration, its socket and its record |
| HandoffExamples.SweepingAQueuedConnectionSharesIt | src/net/server.c:80-100 | in every deployment with two workers, a run in which an unarmed sweep leads two workers to receive on the same connection |
| HandoffExamples.SharingOverrunsTheBuffer | src/net/worker.c:118-133 | such a run goes on until the count is twice the request limit less two, which is outside the buffer with the default limit |
| HandoffExamples.SweepingAReopenedNumberLosesAConnection | src/net/server.c:93-99 | in every deployment with two workers, a run in which the sweep closes a handler's file under a number it chose earlier, and the handler's own close then leaves a live connection registered nowhere |
| HandoffExamples.SixtyFiveRequestsAreDispatched | src/net/worker.c:80-92 | in every deployment, a run from the initial state that reaches the bound of 65 |
| Receive.FindHeaderEnd | src/net/worker.c:38-42 | finds CRLF CRLF if and only if it stands before any NUL |
| Receive.HeaderStaysComplete | src/net/worker.c:134-134 | more bytes never hide a complete header |
| Receive.Connection.Append | src/net/worker.c:131-133 | the buffer is the old content followed by the new bytes and a terminator |
| Receive.Connection.ReceiveRequest | src/net/worker.c:116-139 | for every pattern of partial reads: each chunk is the answer of its call, made with the room that was left, and is stored in order as it came; the loop stops at the first chunk that completes the header or fills the buffer, else at the first answer that is no data, and each outcome is returned exactly in its case; nothing is written beyond the limit |
| Heartbeat.AdvanceToNextGridPoint | src/core/heartbeat_schedule.c:30-42 | a due slot moves to the least grid point after now, and its skipped and served ticks are exactly counted, however late the call |
| Heartbeat.PickedExactly | src/core/heartbeat_schedule.c:15-65 | a collection picks each qualifying slot once and no other |
| Heartbeat.WakeAtIsEarliest | src/core/heartbeat_schedule.c:23-28 | with nothing due, the wake-up time is the minimum next run, is in the future, and is the sentinel 0 only without active slots |
| Heartbeat.RegisterExactly | src/core/heartbeat.c:56-90 | refused exactly for a zero period, a name in use or a full table, with nothing changed; else the first inactive slot becomes the new task, first due after its delay, and the rest stays |
| Heartbeat.UpdateExactly | src/core/heartbeat.c:135-164 | exactly the named task gets the new period, delay, context and next run, keeps its statistics, and the rest stays |
| Heartbeat.Unregister | src/core/heartbeat.c:101-121 | keeps the table sound, and the name is gone afterwards |
| Heartbeat.UnregisterExactly | src/core/heartbeat.c:112-116 | the slot of the named task is cleared and every other slot stays |
| Heartbeat.TaskTable.RegisterTask | src/core/heartbeat.c:56-90 | in place, the new table and the result code for every input including NULL fields, duplicates and a full table |
| Heartbeat.TaskTable.UpdateTask | src/core/heartbeat.c:135-164 | in place, the new table and the result code |
| Heartbeat.TaskTable.UnregisterTask | src/core/heartbeat.c:101-121 | in place, the new table and the result code |
| Heartbeat.TaskTable.GetStats | src/core/heartbeat.c:176-195 | answers exactly for registered names, with their statistics |
| Heartbeat.TaskTable.CollectDue | src/core/heartbeat_schedule.c:15-44 | in place, every due slot is advanced and batched in order, none is dropped, the rest is untouched, and the wake-up time is accumulated |
| Heartbeat.TaskTable.CollectAll | src/core/heartbeat_schedule.c:54-65 | in place, every active slot is counted and batched in order, none is dropped |
| HeartbeatProof.StepKeepsInv | src/core/heartbeat.c:56-322 | every step of clients and scheduler keeps the table, life-cycle, sleep, grid and call-balance invariants |
| HeartbeatProof.NoDeadlineSleptThrough | src/core/heartbeat.c:281-299 | in every run, a thread that waits unsignalled has no stop pending and wakes exactly at the earliest next run, so nothing due is slept through |
| HeartbeatProof.CollectSleeps | src/core/heartbeat_schedule.c:88-107 | the deadline computed before a wait is later than now and not later than any active next run |
| HeartbeatProof.TicksAccounted | src/core/heartbeat_schedule.c:30-42 | in every run, next run = start + period * (runs + overruns - drain runs) since the last register or update |
| HeartbeatProof.LifeCycle | src/core/heartbeat.c:204-322 | in every run the number of scheduler threads before hb_mark_stopped is the running flag; a finished shutdown left no thread, and every counted run has been called |
| HeartbeatProof.DrainCollectsEachOnce | src/core/heartbeat_schedule.c:54-65 | the final collection batches each active registration exactly once |
| HeartbeatProof.DrainCallsEachOnceMore | src/core/heartbeat.c:304-318 | over the rest of the run, whatever clients do, exactly the registrations active at the final collection are called once more each |
| HeartbeatShutdown.ShutdownDrainsExactly | src/core/heartbeat.c:246-318 | in every run between a shutdown and the end of its thread, that thread makes exactly one final collection if a drain was asked for, and none otherwise |
| HeartbeatShutdown.ShutdownCallsOnceMoreIffDrain | src/core/heartbeat.c:292-318 | from the point where the thread has seen the request and run its batch, exactly the registrations active there are called once more if a drain was asked for, and nothing else is called |
| HeartbeatShutdown.ShutdownEnds | src/core/heartbeat.c:246-318 | while the client waits the thread can move until it has ended, and takes at most 7 + 2n + its batch more steps for a table of n |
| HeartbeatShutdown.StartOutcome | src/core/heartbeat.c:204-222 | exactly one thread runs after a start that finds or creates one |
| HeartbeatShutdown.ShutdownWithoutScheduler | src/core/heartbeat.c:252-264 | returns at once and changes nothing |
| HeartbeatShutdown.JoinOutcome | src/core/heartbeat.c:261-264 | the client is back and no scheduler is left |
| FileCache.ScanSlot | src/http/response_file_cache.c:184-200 | the first candidate slot that is unused or holds the path, else one with least access time |
| FileCache.Victim | src/http/response_file_cache.c:254-265 | an empty slot if one exists, else one with least access time |
| FileCache.CacheShard.RefillBudget | src/http/response_file_cache.c:114-134 | a new second starts a new budget |
| FileCache.CacheShard.EvictStale | src/http/response_file_cache.c:144-164 | in place, exactly the entries and candidates idle for more than 240 s are cleared |
| FileCache.CacheShard.ScanCandidates | src/http/response_file_cache.c:184-200 | the first slot that is unused or holds the path, else the least recently used |
| FileCache.CacheShard.AdmitPath | src/http/response_file_cache.c:177-209 | in place, the new candidate table and the admission decision |
| FileCache.CacheShard.FindVictim | src/http/response_file_cache.c:254-265 | the scan loop returns the victim |
| FileCache.CacheShard.StoreFile | src/http/response_file_cache.c:221-285 | in place, the whole new shard, with and without memory |
| FileCache.CacheShard.LookupFile | src/http/response_file_cache.c:299-346 | in place, the whole new shard and the copy handed out |
| FileCacheRuns.OnlyShortPathsAdmitted | src/http/response_file_cache.c:177-209 | no path over 511 bytes is ever admitted |
| FileCacheRuns.CacheTransparent | src/http/response_file_cache.c:50-346 | over every run of honest stores, each hit returns the content of its path and modification time, and every entry lies in the shard its path hashes to |
| FileCacheRuns.InsertedIsFound | src/http/response_file_cache.c:267-282 | an inserted file is returned by the next lookup within the age limit |
| FileCacheRuns.HitKeepsEntryAlive | src/http/response_file_cache.c:323-342 | a hit keeps its entry, with the same bytes, for another full age limit |
| FileCacheAges.OpeningClearsExactly | src/http/response_file_cache.c:144-164 | every access first clears a used slot if and only if it has been idle for more than 240 s, and leaves every other slot |
| FileCacheAges.NothingIdleTooLong | src/http/response_file_cache.c:144-164 | after any access that passes the size test nothing in the shard has been idle for more than 240 s |
| FileCacheAges.IdleFileIsMissed | src/http/response_file_cache.c:299-346 | over every run, a lookup more than 240 s after every store and every hit of its path misses |
| FileCacheAges.OnlySmallFilesKept | src/http/response_file_cache.c:232-232 | over every run each used entry holds between one byte and 256 KiB |
| FileCacheAges.OutsizeChangesNothing | src/http/response_file_cache.c:232-233 | a store or lookup outside the size limits changes nothing |
| FileCacheAges.StoreChangesOneEntry | src/http/response_file_cache.c:244-282 | an inserting store changes the victim alone, with or without memory, and costs one of the budget; any other store changes no entry |
| FileCacheRuns.HitsBoundedByOffers | src/http/response_file_cache.c:177-209 | over every run, the hits of a path summed over all its candidate slots never exceed its offers |
| FileCacheRuns.InsertedOnlyAfterAnEarlierOffer | src/http/response_file_cache.c:239-252 | over every run, an insertion comes after an earlier store of a path that the candidate field records alike |
| FileCacheRuns.ShardSeesItsCalls | src/http/response_file_cache.c:50-63 | a shard is in the state its routed calls alone would leave it in |
| FileCacheRuns.OwnOfferFirstExactly | src/http/response_file_cache.c:177-252 | for every hash and number of shards: in every run an insertion of a path comes after an earlier store of that very path, if and only if the path is not exactly 511 bytes long or no longer path that starts with it shares its shard |
| FileCacheRuns.SecondOfferIsInserted | src/http/response_file_cache.c:177-282 | the next offer inserts if and only if budget is left and no candidate up to the path's own record has expired |
| FileCacheRuns.LongPathVouchesForItsPrefix | src/http/response_file_cache.c:203-207 | for every path of 511 bytes, one store of a longer path that starts with it and is routed to the same shard makes it insertable at its own first offer |
| FileCacheRuns.AtMostEightInsertsPerSecond | src/http/response_file_cache.c:114-134 | with a positive clock that never goes back, a shard inserts at most 8 entries in any one second |
| FileCacheRuns.BudgetLeftExactly | src/http/response_file_cache.c:114-134 | on the same clock, a store finds budget left if and only if fewer than 8 entries were inserted in its second |
| ManCache.CacheShard.GetBody | src/modules/man/man_render.c:126-161 | in place, the new table and the copy |
| ManCache.CacheShard.FindTarget | src/modules/man/man_render.c:191-218 | the slot put writes to: the key's first copy, else an unused slot before it, else the oldest |
| ManCache.CacheShard.PutBody | src/modules/man/man_render.c:175-234 | in place, the new table, with and without memory |
| ManCache.PutIsFound | src/modules/man/man_render.c:126-234 | in every reachable shard a stored page is returned by a get within 600 s |
| ManCache.HitIsNewestCopy | src/modules/man/man_render.c:126-234 | over every run, a hit is the newest stored copy of its key, really put within 600 s, and a miss with memory means every copy has expired |
| ManCache.HitIsAsRecentAsLastPut | src/modules/man/man_render.c:126-234 | unless a put ran out of memory, a hit is from the second of the last put of its key |
| ManCache.HitIsTheLastPut | src/modules/man/man_render.c:126-234 | when moreover no two puts of a key fall in the same second, a hit is the very page that was put last |
| ManCache.OtherPutChangesAnswerExactly | src/modules/man/man_render.c:194-231 | while a key answers, a put of another key makes a later get answer with different bytes if and only if it takes the slot of the first copy and the next copy is unexpired and differs; the two are then of the same second |
| ManCache.SameSecondCanReturnEarlierPage | src/modules/man/man_render.c:215-218 | for all keys and pages, shards of two slots or more and seconds after the first ten minutes, a run in which two puts in one second come back in the wrong order |
| ManCache.FailedPutExposesOlderCopy | src/modules/man/man_render.c:197-208 | for all keys and pages and shards of two slots or more, a run in which a failed put brings an older copy back |
| ManCache.FailedPutExposesExactly | src/modules/man/man_render.c:197-208 | that happens if and only if another copy is still unexpired |
| ManKey.KeyFits | src/modules/man/man_render.c:90-95 | a validated name is never cut by the key buffer |
| ManKey.KeyIsInjective | src/modules/man/man_render.c:523-624 | two validated page variants share a key only if they are the same |
| ManPages.HitIsForTheSamePage | src/modules/man/man_render.c:126-234 | over every run of callers that validate, a hit was put within 600 s for that very area, section, page and format |
| Rings.PushKeepsRing | src/modules/metrics/metrics_snapshot.c:121-130 | a push keeps the ring equal to the last pushes of its history |
| Rings.Ring.Push | src/modules/metrics/metrics_snapshot.c:121-130 | in place, the history grows by the sample |
| Rings.Ring.Last | src/modules/metrics/metrics_snapshot.c:139-156 | copies exactly the last min(n, stored) pushes in chronological order, and nothing else of the output changes |
| PackageRing.PackageRing.Push | src/modules/packages/packages_module.c:102-132 | in place, the history grows by the truncated sample, or not at all for an empty answer |
| PackageRing.PackageRing.Find | src/modules/packages/packages_module.c:141-203 | the backward scan over the buffer is the scan over the last pushes of the history |
| PackageRing.ScanFindsMostRecent | src/modules/packages/packages_module.c:154-171 | the scan finds the most recent answer for the key if it is young enough, and nothing otherwise |
| PackageRing.FindAnswersMostRecentPush | src/modules/packages/packages_module.c:141-203 | the same over the whole history of pushes |
| PackageRing.LongKeyAnswersForItsPrefix | src/modules/packages/packages_module.c:117-118 | an over-long key is found under its prefix and not under itself |
| PackageRing.PushedIsFoundExactly | src/modules/packages/packages_module.c:102-203 | a push is found again under its own names if and only if both fit their fields |
| ResponseIo.WriteAll | src/http/response_io.c:53-85 | for every kernel behaviour: the loop goes on until everything is accepted, and returns 0 then, or until an error, an empty write, a wait that ends without the descriptor writable or the seventh refusal in a row, and returns -1 then; the bytes accepted are the first ones, as many as the kernel counted |
| ResponseIo.SucceedsUnlessGivenUp | src/http/response_io.c:53-138 | given no such reason, and seven calls per byte besides the interrupted ones, it returns 0 |
| ResponseIo.Advance | src/http/response_io.c:126-134 | after a partial write the remaining buffers are exactly the remaining bytes |
| ResponseIo.WritevAll | src/http/response_io.c:98-138 | the same for header followed by body across scatter buffers |
| Hex.DigitsExactly | src/http/utils.c:107-117 | a character has a hexadecimal value if and only if it is the lower-case or upper-case digit for it, and each value has both |
| Json.UnescapeEscape | src/http/utils.c:36-72 | the escape reads back, by section 7 of RFC 8259, as the input |
| Json.EscapeString | src/http/utils.c:19-76 | never leaves its 6*len+1 bytes, is terminated, and is the escape of a prefix determined by the guard |
| Json.CompleteExactly | src/http/utils.c:32-34 | the whole input is escaped if and only if it is empty or its last byte passes the guard |
| Json.OutputReadsBack | src/http/utils.c:19-76 | the output always reads back as a prefix of the input, and as all of it when complete |
| Json.OrdinaryTextSurvives | src/http/utils.c:19-76 | two or more bytes without \u escapes round-trip whole |
| Json.SingleByteIsLost | src/http/utils.c:32-34 | every one-byte string comes out empty |
| Query.UrlDecode | src/http/utils.c:130-162 | succeeds exactly on well-formed input that fits, with the decoded bytes and a terminator |
| Query.UrlDecodeInto | src/modules/man/man_query.c:38-62 | fails only for size, else leaves the decoded bytes and a terminator |
| Query.StrictImpliesLenient | src/http/utils.c:130-162 | whatever the strict decoder accepts the lenient one decodes to the same bytes |
| Query.DecodeEncode | src/modules/man/man_query.c:38-62 | both decoders undo percent-encoding, section 2.1 of RFC 3986 |
| Query.GetQueryValue | src/modules/man/man_query.c:74-110 | for every URL and key, finds the first entry with that key or nothing, within both size limits, and ends |
| Query.QueryRoundTrip | src/modules/man/man_query.c:74-110 | for every list of pairs printed with percent-encoding, looking a key up returns the first value printed for it, decoded, or nothing |
| Query.PlainKeyFoundExactly | src/modules/man/man_query.c:98-98 | a key given undecoded finds its own printed pair if and only if it needs no encoding |
| Query.PlainLookupExactly | src/modules/man/man_query.c:74-110 | lookups of a key given undecoded are right on every printed list if and only if it needs no encoding |
| Routes.Registry.RegisterRoute | src/router/url_registry.c:110-119 | in place, the route is appended, or dropped when the table is full |
| Routes.Registry.RegisterPrefixRoute | src/router/url_registry.c:131-143 | the same for prefix routes |
| Routes.SlashCount | src/router/url_registry.c:23-32 | the loop counts the slashes |
| Routes.MatchIffAccepted | src/router/url_registry_lookup.c:17-32 | with no NULL handlers, a lookup succeeds if and only if some route accepts the method on the path |
| Routes.MatchTakesFirst | src/router/url_registry_lookup.c:17-32 | the handler is that of the first accepting route in registration order, exact routes before prefix routes |
| Routes.KnownIffSomeMethodMatches | src/router/url_registry_lookup.c:43-60 | a path is known if and only if some method has a handler on it |
| Routes.ExactRouteKeepsItsRequests | src/router/url_registry_lookup.c:19-24 | later registrations never take requests from an exact route |
| Routes.DispatchMeans | src/net/worker.c:144-157 | 404 if and only if no method would do; 405 if and only if another method would and this one does not |
| Routes.DispatchServes | src/net/worker.c:144-157 | a request is served by the handler of the first accepting route, exact routes before prefix routes |
| Routes.CoversExactly | src/router/url_registry.c:45-78 | a prefix route covers exactly the paths that continue its prefix with slashes enough |
| Routes.SlashesAreCounted | src/router/url_registry.c:23-32 | the count is the number of positions that hold a slash |
| Routes.ListedExactly | src/router/url_registry.c:90-99 | the methods collected from exact routes are distinct and exactly theirs |
| Routes.MethodSeen | src/router/url_registry.c:90-99 | the scan answers whether the method is already listed |
| Routes.AllowMethods | src/router/url_registry_reverse.c:19-59 | the count and the exact text in the buffer, including truncation, for every table, path and buffer size |
| Routes.NamesDistinct | src/router/url_registry_reverse.c:29-43 | no method is listed twice |
| Routes.ExactPathsAllowExactly | src/router/url_registry_reverse.c:29-43 | under no prefix route the list is exactly the methods route_match accepts |
| Routes.SoundExactly | src/router/url_registry_reverse.c:45-56 | every listed method is accepted if and only if the path has an exact route, is under no prefix, or some covering prefix route has the method of the first one it is under |
| Routes.CompleteExactly | src/router/url_registry_reverse.c:45-56 | every accepted method is listed if and only if each covering prefix route has its method among the exact routes of the path, or, where there are none, shares that of the first prefix route the path is under |
| Routes.SingleMethodAllowsExactly | src/router/url_registry_reverse.c:19-59 | with one method in the tables, as this server registers them, every known path is answered exactly |
| Routes.AllowCanMislead | src/router/url_registry_reverse.c:45-56 | a table for which a 405 names the refused method and not the accepted one |
| Routes.KnownPathIsAllowedSomething | src/router/url_registry_reverse.c:19-59 | a known path always has a method to list, and it is counted if and only if the first one fits (405 needs it, section 15.5.6 of RFC 9110) |
| Routes.RoomyBufferHoldsAll | src/router/url_registry_reverse.c:36-42 | with room, the whole list is written and counted |
| Routes.SplitJoin | src/router/url_registry_reverse.c:36-37 | the text splits back into the listed methods |

## Left out

- Sockets, kqueue, file and process calls beyond the answers they can give; a recv(2) or write(2) is an arbitrary admissible answer.
- HeartbeatProof.NoDeadlineSleptThrough: uses one clock, where the source turns a wall-clock difference into a monotonic deadline, so a wall clock that is set forward during a wait is not covered.
- Heartbeat.TaskTable.CollectDue: run and overrun counters and times are unbounded integers; 64-bit overflow is out of reach of real clocks.
- FileCacheRuns.CacheTransparent: is about the contract of store and lookup; `src/http/response_file.c`, which passes the send result as the length, is not part of this model.
- FileCacheRuns.SecondOfferIsInserted: supposes hit counters that are not about to wrap at 2^32.
- Query.GetQueryValue: a value that decodes to a NUL byte is delivered whole in the buffer, though C code that reads it as a string stops there.
- Hash functions of the caches are opaque; the man cache is modelled one shard at a time.
- Request-line parsing and the Connection header: small scans with nothing beyond their bodies to state; the protocol takes any outcome of them.
- The response object pool: the free-stack argument of the connection pool again, only easier.
- Statistics that only feed logs (cache hits, throttles, insert windows, ring totals), client addresses, and the callbacks' own work.
- Configuration, logging, templates, man and package commands, metrics collectors, directory listings and the browser code.
