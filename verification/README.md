# A verified model of msg2agent's stateful core

msg2agent is a relay and agent toolkit written in Go. This project models the parts of it whose
correctness is hard to see by reading one function, and proves what holds of every input, every run
and every interleaving. `dafny verify dfyconfig.toml` checks the whole project.

| part of msg2agent | files here |
|---|---|
| agent-runner scheduler: semaphores, cancellation, crash and restart | `Scheduler.dfy`, `SchedulerRuns.dfy`, `SchedulerOutcomes.dfy` |
| audit hash chain: concurrent writers, verification, tampering | `AuditWriters.dfy`, `AuditRecords.dfy`, `AuditChain.dfy` |
| base58 encoder | `Base58.dfy` |
| offline queue and the relay's batched delivery | `QueueModel.dfy`, `QueueLaws.dfy`, `QueueRuns.dfy`, `QueueHistory.dfy`, `QueueLimits.dfy`, `OfflineQueue.dfy`, `RelayDelivery.dfy` |
| A2A task store and its cursor pagination | `TaskStore.dfy`, `TaskHistory.dfy`, `TaskPages.dfy` |
| conversation store and its two indexes | `Conversation.dfy`, `ConversationPlain.dfy`, `ConversationStore.dfy` |
| admission control: quota meter, circuit breaker, token buckets, idle collection | `Meter.dfy`, `MeterOutcomes.dfy`, `CircuitBreaker.dfy`, `TokenBucket.dfy`, `IdleBuckets.dfy`, `IdleLimits.dfy` |
| shared by these | `Basics.dfy`, `Sums.dfy`, `Sorting.dfy` |

How the Go code is rendered:

- A type whose methods run under one mutex is a `class`; each method is proved against a function or
  relation over the value of its fields (`View`), and runs are sequences of those.
- What a part of the system holds is also told from the calls or actions of a run alone, without its
  state: what a task was answered, what a row carries, what a message is by now, when a task expires.
- Code that is concurrent at a finer grain (the runner's goroutines, the database writers, the
  callers of the meter) is a step system: a state, the actions enabled in it, and runs of actions.
- Where Go iterates over a map or calls `slices.SortFunc`, the model is a relation that allows every
  order the language allows.
- A clock reading, a new UUID and the outcome of an external call are parameters. There is one clock
  reading per call; the drain of a queue has one for each dequeue and one for each message it looks
  at. Integers are unbounded and `float64` token counts are reals.
- SHA-256 is any function with 64 hex characters of output. It cannot be free of collisions, so the
  tampering results exhibit two colliding texts as the alternative, instead of assuming there are none.

Some natural statements are false of the code. For these there is a lemma with the exact condition,
and one with an input for which the statement fails:

- The drain of a queue loses a message exactly when one expires between being dequeued and being
  looked at, or the channel refuses one that is not the last of its batch (`NothingLostOverIff`,
  `LapsedMessageLost`, `SecondOfTwoLost`). If nothing expires meanwhile, this is a matter of the queue
  and the channel alone (`DrainsAsAtOnce`, `NothingLostIff`).
- Accepting a message takes a store that is exactly at its global cap over it, in some order of the
  map, exactly when an oldest message is filed under the empty DID, which the eviction skips
  (`CapacityKeptIff`). A run is within the cap exactly as long as no enqueue at the cap skipped its
  eviction (`RunWithinCapacityIff`); with distinct queueing times, exactly as long as no message was
  accepted at the cap while the oldest was under the empty DID (`RunWithinIfNoneMet`). Once over,
  enqueues alone never bring a store back (`OverfullStays`), also when nothing is under the empty DID
  any more (`OverfullWithoutEmptyDid`).
- Creating or updating a thread breaks the participant index exactly when somebody new is named
  twice, or a thread with participants is created over (`CreateKeepsIndexIff`, `UpdateKeepsIndexIff`,
  `TwiceNamedOnCreate`, `TwiceNamedOnUpdate`); saving a message breaks the message index exactly when
  its id is taken (`SaveKeepsIndexIff`, `SavedTwice`).
- Pages of `ListThreads`, turned by raising the offset, show every thread once exactly when no two of
  the threads asked for were updated at the same time, since each call sorts anew and not stably
  (`PagesShowAllIff`, `TiedThreadMissed`).
- `TryConsume` never over-admits, but it may refuse a request that fits, exactly when requests that
  are about to be taken back fill the counter (`RefusedExactly`, `TransientRefusal`).
- The scheduler is stuck exactly when every task has finished or waits, not canceled, on the nil
  channel of a worker that is not configured (`StuckIff`, `StrandedTask`).
- A tenant's verified audit chain admits no unnoticed edit exactly when no event, tool name or request
  id in it contains the pipe character that separates columns in the hashed text
  (`ProtectedIffClean`, `PipeHidesEdit`, `PipedChain`). The name of the tenant does not matter, because
  verification reads the rows of one tenant. This supposes ids of the form that the code makes; the
  verifier does not look at them (`RenamedRowHidesDeletion`).
- A tampered row is reported at its own place exactly when it does not carry the hash that continues
  the rows before it (`DivergenceReported`); a row edited and rehashed is reported later
  (`RehashedRowBelieved`).

Where code and comments disagree the code is followed: `ListTasks` is commented as chronological, but
ids come from `uuid.New`, so its order is the order of the id strings and nothing more. A cursor whose
task has gone restarts the walk (`StaleCursorRestarts`).

## Model

| member | source | states |
|---|---|---|
| `Scheduler.StepKeepsInv` | cmd/agent-runner/runner.go:189-346 | Every step of submit, cancel, acquire, execute, release, persist, audit, reply, crash and restart keeps: semaphore occupancy is the number of holders, stored states fit the goroutines, no orphan while up, cancel registrations match live runs, logs are truthful |
| `Scheduler.StepAdvancesStore` | cmd/agent-runner/runner.go:276-306 | One step leaves a stored state as it is, or moves it from submitted onward or from working to a terminal state |
| `Scheduler.NewRunnerInv` | cmd/agent-runner/runner.go:64-75 | A new runner meets the invariant: every semaphore empty, nothing stored |
| `Scheduler.RunKeepsInv` | cmd/agent-runner/runner.go:189-346 | The invariant holds after every run of actions |
| `SchedulerRuns.MutualExclusion` | cmd/agent-runner/runner.go:260-300 | In every reachable state at most one task per worker and at most MaxConcurrent in all are executing, and both semaphores count exactly their holders |
| `SchedulerRuns.StoredTasksOnlyAdvance` | cmd/agent-runner/runner.go:276-346 | Along every run, with crashes, a stored task only goes submitted, working, terminal, or straight to terminal |
| `SchedulerRuns.TerminalIsFinal` | cmd/agent-runner/store.go:37-39 | From any reachable state to any later one, a terminal stored state never changes |
| `SchedulerRuns.RestartLeavesNoOrphan` | cmd/agent-runner/store.go:97-104 | After any run that ended in a crash, the repair at the next start settles every stored task for good: the unfinished ones are failed, the others are as they were, and in every later run none of them changes, is audited or gets its reply |
| `SchedulerRuns.NeverTwice` | cmd/agent-runner/runner.go:283-288 | Over all crashes and restarts, at most one audit line and one reply per task, each with the task's final stored state, and no reply without an audit line |
| `SchedulerRuns.TaskStepShrinks` | cmd/agent-runner/runner.go:260-289 | Every step of a task's goroutine decreases a measure of the work left |
| `SchedulerRuns.StepsAreBounded` | cmd/agent-runner/runner.go:260-300 | Once submissions stop, the number of task steps is at most that measure, which is never negative, whatever is canceled meanwhile |
| `SchedulerRuns.StuckIff` | cmd/agent-runner/runner.go:260-300 | In every reachable state, with a capacity of at least one, no task can step if and only if every accepted task has finished or waits, not canceled, for a worker without a semaphore |
| `SchedulerRuns.NoDeadlock` | cmd/agent-runner/runner.go:260-300 | In a reachable state no task can step if and only if every task has finished, given a capacity of at least one (which the configuration enforces) and configured workers |
| `SchedulerRuns.AllAnsweredOnce` | cmd/agent-runner/runner.go:276-288 | Without a crash, when tasks come to rest every accepted task is terminal, has exactly one audit line and one reply, and no cancel registration is left |
| `SchedulerRuns.UnknownWorkerWaits` | cmd/agent-runner/runner.go:269-275 | A task whose worker has no semaphore stays where it is through every run without its cancellation or a crash |
| `SchedulerRuns.StrandedTask` | cmd/agent-runner/runner.go:269-275 | A run after which no task can step and one has not finished |
| `SchedulerOutcomes.StoreIsHistory` | cmd/agent-runner/runner.go:189-346 | In every reachable state the store says of every task what the actions alone tell: submitted, working, what its executor returned, canceled if none ran, or failed by the repair after a crash |
| `SchedulerOutcomes.LogsAreHistory` | cmd/agent-runner/runner.go:283-288 | Audit lines and replies are one per action that writes one, in that order, each with the state stored by then |
| `SchedulerOutcomes.OutcomeIsRecorded` | cmd/agent-runner/runner.go:260-346 | Once a task is persisted, its worker is the one it was submitted to, its executor returned at most once, and store, audit line and reply say what it returned since the last crash, or canceled if nothing did |
| `SchedulerOutcomes.TakesCallsIff` | cmd/agent-runner/runner.go:189-240 | New tasks, cancels and crashes are possible exactly while the process runs, a cancel for any task ever submitted, a restart exactly while it does not |
| `SchedulerOutcomes.CancelDecides` | cmd/agent-runner/runner.go:333-346 | After a cancel an executor does not return completed, and nothing gives up waiting or returns canceled without one |
| `SchedulerOutcomes.CanceledNeverCompletes` | cmd/agent-runner/runner.go:224-240 | A cancel that reaches a task before its executor returned keeps it from ever being stored, audited or answered as completed, in every later run |
| `SchedulerOutcomes.LateCancelIgnored` | cmd/agent-runner/runner.go:260-346 | A cancel after the executor returned changes nothing: without a crash the task ends as it returned |
| `AuditChain.VerifyTenant` | pkg/billing/postgres_store.go:626-665 | The loop reports untampered and the number of rows exactly when every stored hash is the recomputed one; otherwise the count, id and time of the first row that is not |
| `AuditChain.HashedText` | pkg/billing/store.go:729-733 | What is hashed: the previous hash, then id, tenant, event, tool, request and time, with a pipe between each two |
| `AuditChain.PreimageSplits` | pkg/billing/store.go:729-733 | Hashed texts that agree have the same previous hash and the same canonical text, because an event id cannot be confused with the start of a 64-hex hash |
| `AuditChain.HeadFixesText` | pkg/billing/store.go:729-733 | Two verified chains with the same last hash have the same hashed text and stored hash row for row, or exhibit a digest collision |
| `AuditChain.UndetectedIffSameText` | pkg/billing/postgres_store.go:637-660 | Without a collision, a substitute for a verified chain that keeps the last hash verifies if and only if it leaves every hashed text and stored hash as they were |
| `AuditChain.JoinInjective` | pkg/billing/store.go:730 | Text joined with the pipe character from parts without it cannot be joined from as many other parts, whatever those contain |
| `AuditChain.UndetectedIffSameColumns` | pkg/billing/postgres_store.go:637-660 | With no pipe character in the event, tool and request columns of a verified chain, a substitute of the same tenant that keeps the last hash goes unnoticed exactly when it leaves every column but prev_hash alone, the time to the second; also one of any tenant, if there is no pipe in the tenant either |
| `AuditChain.PipeHidesEdit` | pkg/billing/store.go:730 | Every tenant's verified chain with a pipe character in an event, tool or request column has a substitute of the same tenant with other columns, the same hashed texts and the same hashes, that verifies |
| `AuditChain.ProtectedIffClean` | pkg/billing/postgres_store.go:626-660 | Among the chains that verification of a tenant could read, only the tenant's verified chain itself passes for it, if and only if no event, tool or request column of it contains the pipe character, whatever the tenant is called |
| `AuditChain.PipedChain` | pkg/billing/store.go:730 | A verified chain with a pipe character in a column |
| `AuditChain.RenamedRowHidesDeletion` | pkg/billing/postgres_store.go:637-660 | In any verified chain the first row can be deleted unnoticed if the second takes the hash of the first into its id |
| `AuditChain.MovedRowIsBad` | pkg/billing/postgres_store.go:644-660 | A row of the chain in another place than its own, as after a deletion or a reordering, is the first bad row there |
| `AuditChain.EditedRowIsBad` | pkg/billing/postgres_store.go:644-660 | A row with other columns and its old stored hash is the first bad row there |
| `AuditChain.DivergenceReported` | pkg/billing/postgres_store.go:644-660 | Any edit, reorder, insertion or deletion that keeps the last hash is reported, never before the first differing row, and at that row if and only if it does not carry the hash that continues the rows before it; so always when it kept its stored hash or is another row of the chain |
| `AuditChain.RehashedRowBelieved` | pkg/billing/postgres_store.go:644-660 | A chain whose first row was edited and rehashed, which is reported at the second row, short of a collision |
| `AuditChain.TimestampOrderBreaks` | pkg/billing/postgres_store.go:153-163 | Two rows chained against the order of their timestamps do not verify in timestamp order, short of a collision |
| `AuditWriters.CommitKeepsChains` | pkg/billing/postgres_store.go:529-555 | A commit appends to its own tenant's chain the row that continues it, and leaves the other chains valid |
| `AuditWriters.OneHolder` | pkg/billing/postgres_store.go:531-536 | Two different writers inside their critical sections never serve the same tenant |
| `AuditWriters.StepKeepsInv` | pkg/billing/postgres_store.go:514-555 | Every step of every writer keeps locks, sequence numbers, committed rows, valid chains and each writer's knowledge of the last hash consistent |
| `AuditWriters.RunKeepsInv` | pkg/billing/postgres_store.go:514-555 | The same over every interleaving |
| `AuditWriters.WritersNeverBreakChain` | pkg/billing/postgres_store.go:514-669 | After any interleaving of any writers and tenants, verification of a tenant reports untampered and exactly the number of rows committed for it, though timestamps are sampled before the lock |
| `AuditRecords.OneRowPerCommit` | pkg/billing/postgres_store.go:546-554 | The table holds exactly one row per call that committed: id, tenant, event, tool, request and time are the call's own, column by column; prev_hash is the hash of the tenant's preceding row in seq order, empty for the first; and the hash is over that and the row |
| `AuditRecords.ChainIsHistory` | pkg/billing/postgres_store.go:514-555 | After any interleaving the rows of a tenant in seq order are the calls for it that committed, in the order of their commits, column by column and each chained to the one before |
| `AuditRecords.CanCommit` | pkg/billing/postgres_store.go:525-555 | A call whose lock nobody else holds reaches its commit by its own steps, at most four |
| `AuditRecords.NeverStuck` | pkg/billing/postgres_store.go:531-536 | A call that has not ended can commit by its own steps, or the call that holds its lock can by its own |
| `AuditRecords.RollbackLeavesNothing` | pkg/billing/postgres_store.go:529 | A call can be rolled back exactly until it commits, and then leaves no row and no lock |
| `AuditWriters.ReadsOneTenant` | pkg/billing/postgres_store.go:628-632 | The rows that verification walks all have the tenant asked for |
| `AuditWriters.DistinctTenants` | pkg/billing/postgres_store.go:608-624 | Exactly the tenants that have rows, each once, in the order of the collation |
| `AuditWriters.VerifyAuditChain` | pkg/billing/postgres_store.go:599-669 | One verdict for the tenant asked for, or for each tenant that has rows, each right about that tenant's rows in seq order |
| `Base58.BufferSuffices` | pkg/identity/did.go:272-273 | 256^n <= 58^(n*138/100+1) for every n |
| `Base58.MoreBytes` | pkg/identity/did.go:272-273 | More bytes that fit in some more digits fit in a buffer that is so much longer; with eight and eleven, the step of that induction |
| `Base58.AddByte` | pkg/identity/did.go:277-282 | One inner loop turns the buffer's value v into 256*v + b, with every digit below 58 and the overflow in the carry |
| `Base58.NothingCarriedOut` | pkg/identity/did.go:276-283 | After each byte the carry left over is 0 and the buffer's base-58 value is the base-256 value of the bytes so far |
| `Base58.Accumulate` | pkg/identity/did.go:272-283 | The buffer ends with digits below 58 whose value is the value of all bytes |
| `Base58.CountZeros` | pkg/identity/did.go:262-269 | The number of leading zeros |
| `Base58.Assemble` | pkg/identity/did.go:292-300 | The result array is filled exactly: the ones, then the letter of each remaining digit |
| `Base58.EncodeBase58` | pkg/identity/did.go:256-301 | The text is the base58 encoding by repeated division defined in draft-msporny-base58, for every byte string |
| `Base58.RebaseInverse` | pkg/identity/did.go:256-301 | Changing base with leading zeros kept is undone by changing back, for any two bases |
| `Base58.RoundTrip` | pkg/identity/did.go:256-301 | Decoding an encoding gives exactly the original bytes |
| `Base58.RoundTripText` | pkg/identity/did.go:256-301 | Encoding a decoded text gives exactly that text |
| `Base58.LeadingOnes` | pkg/identity/did.go:261-269 | The text starts with exactly as many ones as the data has leading zero bytes |
| `Base58.EncodingInjective` | pkg/identity/did.go:256-301 | Different bytes have different texts |
| `QueueModel.EnqueueKeeps` | pkg/queue/memory.go:31-55 | Enqueue, with its eviction, keeps count, filing and per-recipient limit, and the global limit unless a message is filed under the empty DID |
| `QueueModel.EvictKeeps` | pkg/queue/memory.go:59-86 | Eviction keeps the invariant, grows no queue, and frees exactly one place when nothing is filed under the empty DID |
| `QueueModel.DequeueKeeps` | pkg/queue/memory.go:89-131 | Dequeue keeps the invariant and the per-recipient limit and never raises the total |
| `QueueModel.AckKeeps` | pkg/queue/memory.go:171-193 | Ack keeps the invariant and the per-recipient limit and never raises the total |
| `QueueModel.NackKeeps` | pkg/queue/memory.go:196-233 | Nack, retried or dead-lettered, keeps the invariant and the per-recipient limit and never raises the total |
| `QueueModel.CleanKeeps` | pkg/queue/memory.go:281-308 | Cleanup keeps the invariant and the per-recipient limit and never raises the total |
| `QueueLaws.EnqueueLaw` | pkg/queue/memory.go:31-55 | Closed and full, exactly when, change nothing; otherwise the message is last in its recipient's queue and nothing else changes, after an eviction exactly at the cap |
| `QueueLaws.EvictionTakesOldest` | pkg/queue/memory.go:59-86 | One copy of one message, no later than any other, leaves the place it had; every other message keeps its queue and order; or nothing happens because nothing is queued or an oldest message is under the empty DID |
| `QueueLaws.AckLaw` | pkg/queue/memory.go:171-193 | Not found exactly when no message has the id; otherwise the one message that goes has the id and was the first with it in its queue, and all others keep their queues and order |
| `QueueLaws.NackLaw` | pkg/queue/memory.go:196-233 | The first message with the id counts one more attempt, in its place; or, exactly at the limit, leaves it and becomes the last dead letter of its recipient, if those are kept; nothing else changes |
| `QueueLaws.CleanupLaw` | pkg/queue/memory.go:281-308 | Each queue keeps its messages that have not expired, in their order; a queue is gone exactly when it has none; the number returned is the number gone |
| `QueueRuns.EveryRunKeepsValid` | pkg/queue/memory.go:31-308 | At every point of every run the count is the sum of the queue lengths, no empty queue is stored, every message is under its recipient, no queue is over its limit, and with named recipients the total is within its limit |
| `QueueLimits.CapacityKeptIff` | pkg/queue/memory.go:45-86 | A store exactly at its cap stays within it on accepting a message, whatever order the map is read in, if and only if no oldest message is under the empty DID |
| `QueueLimits.AcceptedAtCapacity` | pkg/queue/memory.go:45-86 | A message accepted at or over the cap replaces a message with a named recipient, or none because an oldest one is under the empty DID |
| `QueueLimits.RunWithinCapacityIff` | pkg/queue/memory.go:31-308 | A run is within the cap up to any point if and only if no enqueue at the cap before that point skipped its eviction |
| `QueueLimits.RunWithinIfNoneMet` | pkg/queue/memory.go:45-86 | The same in terms of the states before the calls: within the cap if no message was accepted at the cap while an oldest one was under the empty DID, and only then if no two messages had the same time |
| `QueueLimits.OverfullStays` | pkg/queue/memory.go:45-52 | An enqueue never brings a store that is over its cap back within it |
| `QueueLimits.OverfullWithoutEmptyDid` | pkg/queue/memory.go:31-86 | A run whose last enqueue evicts, with nothing under the empty DID, and leaves the store over its cap |
| `QueueRuns.TakenIsPrefix` | pkg/queue/memory.go:107-121 | What a dequeue took, followed by the unexpired rest, is an oldest-first order of the unexpired queue |
| `QueueRuns.SplitTakes` | pkg/queue/memory.go:116-120 | A dequeue takes min(limit, unexpired) messages, all of them for a limit of 0 or less |
| `QueueRuns.DequeueReturnsPeek` | pkg/queue/memory.go:134-168 | With distinct queueing times, Dequeue returns what Peek with the same limit shows |
| `QueueRuns.BatchesTakeInOrder` | pkg/queue/memory.go:89-131 | Repeated limited dequeues take unexpired messages oldest first, each once, and lose none |
| `QueueRuns.BatchesMakeOneDequeue` | pkg/queue/memory.go:89-131 | With distinct times, repeated limited dequeues concatenate to one unlimited dequeue |
| `QueueRuns.NewestAreKept` | pkg/queue/memory.go:31-86 | From an empty store, enqueues with increasing times hold exactly the newest min(MaxTotalMessages, accepted) accepted messages, queue by queue in order |
| `QueueHistory.MessagesAreHistory` | pkg/queue/memory.go:31-308 | In every run that enqueues no id twice, a queued message is what was enqueued under its id with one attempt and the latest time for every Nack since, none is queued twice, and a dead letter is its message as the Nack that buried it left it |
| `QueueHistory.AttemptsWithinLimit` | pkg/queue/memory.go:204-224 | With a limit on attempts no queued message has used it up and every dead letter has exactly, on the attempt that buried it |
| `OfflineQueue.SortByQueuedAt` | pkg/queue/memory.go:103-105 | A permutation in order of queueing time |
| `OfflineQueue.MemoryStore.constructor` | pkg/queue/memory.go:22-28 | An empty valid store |
| `OfflineQueue.MemoryStore.Enqueue` | pkg/queue/memory.go:31-55 | Closed, full, or accepted at the end of the recipient's queue after evicting at capacity |
| `OfflineQueue.MemoryStore.EvictOldest` | pkg/queue/memory.go:59-86 | A message no later than any other goes, unless it is filed under the empty DID or there is none |
| `OfflineQueue.MemoryStore.Dequeue` | pkg/queue/memory.go:89-131 | Returned and retained make up the queue; the returned are unexpired, sorted, no later than any unexpired one retained, and as many as the limit allows |
| `OfflineQueue.MemoryStore.Peek` | pkg/queue/memory.go:134-168 | Shows what such a dequeue could return and changes nothing |
| `OfflineQueue.MemoryStore.Ack` | pkg/queue/memory.go:171-193 | Removes the first message with the id from a queue that has it, or reports that there is none |
| `OfflineQueue.MemoryStore.Nack` | pkg/queue/memory.go:196-233 | Counts the attempt and keeps the message, or past the limit removes it, to the dead letters if enabled; or reports that there is none |
| `OfflineQueue.MemoryStore.Cleanup` | pkg/queue/memory.go:281-308 | Every queue keeps exactly its unexpired messages in order, empty ones go, and the number removed is returned |
| `OfflineQueue.MemoryStore.Close` | pkg/queue/memory.go:311-320 | Closed, with queues and dead letters gone |
| `RelayDelivery.DeliverQueuedMessages` | cmd/relay/client.go:480-519 | The loop ends. It took messages off the queue oldest first, in batches of 100; of those it looked at it delivered, in order, the ones that had not expired by then, up to the first that the channel refused, which was enqueued again; any store, within its cap or over it |
| `RelayDelivery.Requeue` | cmd/relay/client.go:507-510 | A message just dequeued is never refused by its queue; it is enqueued again with whatever eviction that takes |
| `RelayDelivery.TakenBatch` | cmd/relay/client.go:488 | A dequeued batch continues the order of the drain, though time has passed since the batch before |
| `RelayDelivery.Offer` | cmd/relay/client.go:498-511 | The channel takes the messages of a batch that have not expired when looked at, up to the first it has no room for |
| `RelayDelivery.BatchSettles` | cmd/relay/client.go:498-517 | A full batch without a refusal lets the drain go on; one that is not full, or a refused message enqueued again, ends it |
| `RelayDelivery.DrainAccountsForAll` | cmd/relay/client.go:480-519 | Whatever clock and channel do, queue before = delivered, oldest first + expired before being looked at + the rest of the batch that was refused, at most 99 messages + what is kept |
| `RelayDelivery.PutBackFits` | cmd/relay/client.go:507-510 | In a store within its cap the refused message is back at the end of its queue at nobody's expense, and other queues are untouched |
| `RelayDelivery.NothingLostOverIff` | cmd/relay/client.go:498-511 | Delivered and still queued make up the queue if and only if no message expired on its way and a refused one was the last of its batch |
| `RelayDelivery.LapsedMessageLost` | cmd/relay/client.go:499-501 | A drain after which a message that was not expired when dequeued is neither delivered nor queued |
| `RelayDelivery.DrainsAsAtOnce` | cmd/relay/client.go:480-519 | If nothing in the queue expires meanwhile, the drain is one at an instant: it delivers a prefix of the unexpired queue, up to the first offer that the channel refuses |
| `RelayDelivery.NothingLostIff` | cmd/relay/client.go:507-511 | For any queue and channel, and a drain during which nothing expires, delivered and still queued make up the queue if and only if the channel has room for everything pending, or the first message it refuses is the last pending one or the last of a batch of 100 |
| `RelayDelivery.SecondOfTwoLost` | cmd/relay/client.go:507-511 | A drain of two messages into a full channel after which the second is neither delivered nor queued |
| `TaskPages.SortTasksByID` | adapters/a2a/server.go:362-368 | The in-place insertion sort leaves a permutation sorted by id |
| `TaskPages.ListingUnique` | adapters/a2a/server.go:302-329 | There is only one duplicate-free id-ordered listing of the matching tasks, whatever order the map is read in |
| `TaskPages.CursorAdvances` | adapters/a2a/server.go:331-358 | The cursor of a page leads to the page that starts where it ended; a page without one ends the list |
| `TaskPages.WalkVisitsAllOnce` | adapters/a2a/server.go:291-359 | Following cursors from the empty one over an unchanged store, for any filter and limit, ends and shows exactly the tasks of the session and the states asked for, each once and in strictly increasing id order; all pages but the last have the limit of tasks, 10 without one and at most 100; the total is constant |
| `TaskPages.StaleCursorRestarts` | adapters/a2a/server.go:331-340 | Going on from a cursor shows the whole listing from the start if and only if the task it names is not, or no longer, in the listing |
| `TaskStore.RemoveString` | adapters/a2a/server.go:183-190 | The first occurrence goes, or nothing if there is none; from a list without repetition, exactly that string |
| `TaskStore.CreateAgrees` | adapters/a2a/server.go:207-263 | Creation, with its eviction, keeps tasks, expiry times and session lists in agreement |
| `TaskStore.CreateKeepsNewest` | adapters/a2a/server.go:234-246 | The session lists its newest MaxTasksPerSession tasks (at least one), and exactly the tasks pushed out of the list are deleted |
| `TaskStore.CreatedIsThere` | adapters/a2a/server.go:213-231 | The new task is stored as submitted with its message, and is not the one evicted |
| `TaskStore.PurgeAgrees` | adapters/a2a/server.go:160-179 | Removing any set of tasks, and then the empty sessions, keeps the agreement |
| `TaskStore.EveryRunAgrees` | adapters/a2a/server.go:154-452 | In every run tasks and expiry have the same keys, every session list is non-empty, duplicate-free, within its limit and lists exactly the live tasks of that session, and with a limit of at least 0 no history outgrows it |
| `TaskStore.EveryStoreAgrees` | adapters/a2a/server.go:117-452 | The same for every store since it was new |
| `TaskHistory.TasksAreHistory` | adapters/a2a/server.go:207-452 | In every run a stored task says what the calls that named it tell, field by field, and expires the time to live after it was created or last given a status |
| `TaskHistory.CleanupLaw` | adapters/a2a/server.go:154-180 | After a cleanup exactly the tasks not past their expiry are there, they and their times unchanged; each session list is the old one without the others, in order; a session is gone exactly when none of its tasks is left |
| `TaskHistory.CreateSession` | adapters/a2a/server.go:233-260 | What a creation does to its session, the list aside: opened with its times, or its times of update and activity moved on; other sessions are untouched |
| `TaskHistory.GoneExactly` | adapters/a2a/server.go:154-263 | A call removes a task exactly when it is a cleanup past the time to live after its creation or latest status, or a creation in its full session of which it is the oldest |
| `TaskHistory.StaysWhile` | adapters/a2a/server.go:154-263 | From any moment of any run a task stays as long as cleanups come within its time to live and its session has room for it and the newer ones |
| `TaskHistory.NewTaskStays` | adapters/a2a/server.go:207-263 | A new task is there until it expires or its session has as many newer ones as it may hold |
| `TaskStore.HistoryIsNewest` | adapters/a2a/server.go:396-414 | However many messages are added, the history is the newest MaxHistoryLen of all, in order |
| `TaskStore.Store.constructor` | adapters/a2a/server.go:117-128 | An empty store in agreement |
| `TaskStore.Store.CreateTask` | adapters/a2a/server.go:207-263 | The task is stored as submitted with its message and expiry, listed last by its session, which is opened if new and loses its oldest task at the limit; that task is what is returned |
| `TaskStore.Store.UpdateTaskStatus` | adapters/a2a/server.go:372-392 | New state, message and time, and a renewed expiry; or not found and nothing changed |
| `TaskStore.Store.AddTaskMessage` | adapters/a2a/server.go:396-414 | The history with the message at its end, cut to the newest MaxHistoryLen; not found and nothing changed; or, with a negative limit, the slice out of range after the message was appended |
| `TaskStore.Store.AddTaskArtifact` | adapters/a2a/server.go:417-428 | The artifact at the end; or not found and nothing changed |
| `TaskStore.Store.CancelTask` | adapters/a2a/server.go:431-452 | Canceled exactly from submitted, working or input-required; otherwise the right error and nothing changed |
| `TaskStore.Store.CleanExpired` | adapters/a2a/server.go:154-180 | Exactly the tasks past their expiry are gone from all three maps, and sessions left empty are gone |
| `TaskStore.Store.ListTasks` | adapters/a2a/server.go:291-359 | Page, next cursor and total of the one id-ordered listing of the matching tasks |
| `Conversation.CreateKeepsIndexIff` | pkg/conversation/memory.go:39-57 | Creating a thread keeps the participant index exact if and only if nobody is named twice and no thread with participants is created over |
| `Conversation.UpdateKeepsIndexIff` | pkg/conversation/memory.go:80-108 | Updating keeps it exact if and only if nobody new to the thread is named twice |
| `Conversation.TwiceNamedOnCreate` | pkg/conversation/memory.go:52-54 | Creating a thread with somebody named twice breaks the index of the empty store |
| `Conversation.TwiceNamedOnUpdate` | pkg/conversation/memory.go:99-103 | Updating a thread with somebody new named twice breaks an index that was exact |
| `Conversation.DeleteKeepsThreadIndex` | pkg/conversation/memory.go:111-127 | Deleting a thread keeps it exact, repeated participants or not |
| `Conversation.SaveKeepsIndexIff` | pkg/conversation/memory.go:204-232 | Saving a message keeps the message index exact if and only if its id is not stored yet |
| `Conversation.SavedTwice` | pkg/conversation/memory.go:219-223 | Saving a new message once keeps the index exact, and saving it again breaks it |
| `Conversation.DeletesItsMessages` | pkg/conversation/memory.go:129-139 | Deleting a thread deletes exactly its messages and keeps the message index exact |
| `Conversation.DeleteMessageKeepsIndex` | pkg/conversation/memory.go:295-331 | Deleting a message keeps the message index exact |
| `Conversation.ReceiptKeyInjective` | pkg/conversation/memory.go:485-487 | A receipt key determines message and recipient, and its first 36 characters are the message id |
| `Conversation.ForgetKeepsAnchored` | pkg/conversation/memory.go:322-327 | The prefix test removes exactly the receipts of the deleted messages |
| `Conversation.StepAgrees` | pkg/conversation/memory.go:39-395 | Every careful call keeps both indexes exact, messages in stored threads, and receipts on stored messages |
| `Conversation.EveryRunAgrees` | pkg/conversation/memory.go:39-395 | The same in every reachable state, where also no receipt says read before delivered or either in the future |
| `Conversation.DeliveredOnce` | pkg/conversation/memory.go:334-395 | Through every run in which a receipt persists, its delivery time never changes and its read time never goes back |
| `ConversationPlain.RunRefines` | pkg/conversation/memory.go:39-451 | Through every run of careful calls the store holds the threads, messages and receipts of a plain one without indexes and composed keys |
| `ConversationPlain.MarkReadIsRead` | pkg/conversation/memory.go:364-395 | After MarkRead the receipt is there and read now, delivered now unless it was before, and nothing else changes |
| `ConversationPlain.MarkDeliveredIsDelivered` | pkg/conversation/memory.go:334-361 | After MarkDelivered the receipt is there and delivered, now unless it was before, and nothing else changes |
| `ConversationPlain.SavedComesFirst` | pkg/conversation/memory.go:204-232 | A message saved after every update brings its thread, with its count and times moved on, to the front of every listing that asks for it |
| `ConversationPlain.EveryStoreIsPlain` | pkg/conversation/memory.go:27-451 | The same for every store since it was new, together with its message counts if no caller overwrites one |
| `ConversationPlain.CountsAreRight` | pkg/conversation/memory.go:204-331 | If no caller overwrites a count, every thread counts exactly its messages in every run |
| `Conversation.PickIsScan` | pkg/conversation/memory.go:157-167 | Looking up a list that names each wanted id once finds exactly what a scan of the store finds |
| `Conversation.IndexedListIsScan` | pkg/conversation/memory.go:146-201 | What ListThreads may return by its index is a page of a newest-first arrangement of exactly the threads that a full scan with HasParticipant finds |
| `Conversation.IndexedMessagesAreScan` | pkg/conversation/memory.go:253-292 | What GetMessages may return by its index is a page, in sequence order, of exactly the messages of the thread that match |
| `ConversationPlain.ShowsThreadsAskedFor` | pkg/conversation/memory.go:146-201 | Without limit and offset, exactly the threads of the participant updated since the time asked for |
| `ConversationPlain.ShowsMessagesAskedFor` | pkg/conversation/memory.go:253-292 | Without limit and offset, exactly the messages of the thread in the span of time and of the kinds asked for |
| `Conversation.PagesMakeList` | pkg/conversation/memory.go:190-198 | Pages of a list, turned by raising the offset by the limit, show it from the start, once and in order |
| `Conversation.ThreadPagesMakeScan` | pkg/conversation/memory.go:146-201 | Pages of successive ListThreads calls, each sorting anew, concatenate to the scan newest first if no two threads asked for were updated at the same time |
| `Conversation.MessagePagesMakeScan` | pkg/conversation/memory.go:253-292 | Pages of successive GetMessages calls concatenate to the scan in sequence order if no two messages asked for have the same number |
| `Conversation.ScanCanBeListed` | pkg/conversation/memory.go:146-201 | Every page of every newest-first arrangement of the scan is one that ListThreads may return |
| `Conversation.TiedThreadMissed` | pkg/conversation/memory.go:179-198 | With two threads updated at the same time there are pages of one, enough of them, that miss the second |
| `Conversation.PagesShowAllIff` | pkg/conversation/memory.go:146-201 | Enough pages of any size show every thread asked for exactly once, if and only if no two of them were updated at the same time |
| `Sorting.SortBy` | pkg/conversation/memory.go:179-187 | A permutation in order of the key, with nothing said of equal keys |
| `ConversationStore.Paginate` | pkg/conversation/memory.go:190-198 | The elements from the offset on (none past the end, all for a negative offset), at most as many as a positive limit, element by element |
| `ConversationStore.RemoveFrom` | pkg/conversation/memory.go:455-463 | The first occurrence of the id goes, or the index is unchanged |
| `ConversationStore.ForgetOne` | pkg/conversation/memory.go:323-327 | Exactly the receipts whose key is longer than 36 characters and starts with the id go |
| `ConversationStore.MemoryStore.constructor` | pkg/conversation/memory.go:27-36 | An empty store in agreement |
| `ConversationStore.MemoryStore.CreateThread` | pkg/conversation/memory.go:39-57 | A closed store refuses; otherwise the thread is stored and its id appended to the list of every participant named, once per mention, and nothing else changes |
| `ConversationStore.MemoryStore.UpdateThread` | pkg/conversation/memory.go:80-108 | Closed and not found change nothing; otherwise participants dropped lose a listing, new ones gain one per mention, and the thread is replaced |
| `ConversationStore.MemoryStore.DeleteThread` | pkg/conversation/memory.go:111-143 | Closed and not found change nothing; otherwise the thread, its listings, the messages its index lists and their receipts go |
| `ConversationStore.MemoryStore.ListThreads` | pkg/conversation/memory.go:146-201 | Closed, or a page of the index lookup sorted newest first |
| `ConversationStore.MemoryStore.SaveMessage` | pkg/conversation/memory.go:204-232 | Closed and an unknown thread change nothing; otherwise the message is stored and listed last by its thread, whose count, last message and update time move on |
| `ConversationStore.MemoryStore.GetMessages` | pkg/conversation/memory.go:253-292 | Closed, or a page of the index lookup sorted by sequence number |
| `ConversationStore.MemoryStore.DeleteMessage` | pkg/conversation/memory.go:295-331 | Closed and not found change nothing; otherwise the message, its first listing and its receipts go, and its thread counts one less |
| `ConversationStore.MemoryStore.MarkDelivered` | pkg/conversation/memory.go:334-361 | Closed and an unknown message change nothing; otherwise a missing receipt or delivery time is set to now, and a delivery time already set stays |
| `ConversationStore.MemoryStore.MarkRead` | pkg/conversation/memory.go:364-395 | Closed and an unknown message change nothing; otherwise the read time is now, and the delivery time is set only if there was none |
| `ConversationStore.MemoryStore.Close` | pkg/conversation/memory.go:438-451 | Closed, with everything gone |
| `Meter.StepOneCounter` | pkg/billing/meter.go:135-149 | Every step keeps one counter per key, distinct for distinct keys, and every caller that found a counter found that one |
| `Meter.StepBalances` | pkg/billing/meter.go:151-194 | Every step keeps a counter equal to its base plus every delta that is in it |
| `Meter.NoCounterIsLost` | pkg/billing/meter.go:135-194 | Over every interleaving a key keeps its counter, and its value is base + recorded + admitted − released + what calls in the middle of TryConsume have added |
| `Meter.QuietValue` | pkg/billing/meter.go:151-194 | When no call is between its addition and its decision the counter is base + recorded + admitted − released |
| `Meter.NeverOverAdmits` | pkg/billing/meter.go:159-194 | Over every interleaving, with positive limits of at most L on a key, admitted − released never exceeds L, also together with the restored base |
| `MeterOutcomes.RefusedExactly` | pkg/billing/meter.go:159-188 | In every interleaving, a decided request was refused exactly when its limit is positive and less than the delta on top of base, recorded, admitted − released and the additions in flight at its own addition, including those about to be taken back |
| `MeterOutcomes.DecidedExactly` | pkg/billing/meter.go:168-188 | A decided request is refused exactly when its limit is positive and less than the value that its own addition gave; otherwise it is admitted, being released or released |
| `MeterOutcomes.AloneIsExact` | pkg/billing/meter.go:151-194 | A call that runs alone in any reachable state: admitted exactly if the limit is not positive or the counter plus the delta is within it, and then the counter stands at that; refused, or released, it stands where it was; Record always counts; no other counter moves |
| `MeterOutcomes.CanFinishAlone` | pkg/billing/meter.go:135-188 | Whatever others are doing, a call reaches its decision by its own steps, at most four |
| `MeterOutcomes.BaseAsStarted` | pkg/billing/meter.go:250-266 | The base of a counter is what the first restore or caller made it with |
| `Meter.DoomedExactly` | pkg/billing/meter.go:168-170 | At its addition it is settled which requests will be refused, in terms of what the counter holds |
| `Meter.TransientRefusal` | pkg/billing/meter.go:168-180 | A run in which a request that fits is refused because a larger one was in flight |
| `CircuitBreaker.StreakMeansLast` | pkg/messaging/reliability.go:172-200 | A failure streak of n means that the last n outcomes reported are failures |
| `CircuitBreaker.OpensExactly` | pkg/messaging/reliability.go:168-183 | Closed opens exactly on the failure that completes maxFailures in a row (one if the setting is less) and otherwise stays closed |
| `CircuitBreaker.HalfOpenIff` | pkg/messaging/reliability.go:148-200 | Half open exactly when some ask came more than the timeout after the latest failure of an open breaker, and since then nothing failed and fewer than halfOpenMax successes came |
| `CircuitBreaker.ClosesExactly` | pkg/messaging/reliability.go:168-200 | Half open closes exactly on the halfOpenMax-th success since it became half open or on a reset, and opens on any failure |
| `CircuitBreaker.OpenIff` | pkg/messaging/reliability.go:148-183 | Open exactly when some failure opened it and since then there was no reset and every ask came within the timeout of the then latest failure |
| `CircuitBreaker.RefusedIff` | pkg/messaging/reliability.go:148-165 | A request is refused exactly when the breaker is open in that sense and at most the timeout has passed since the latest failure, late ones included |
| `CircuitBreaker.OpenRefuses` | pkg/messaging/reliability.go:155-162 | Every ask after the opening failure in such a stretch was refused |
| `CircuitBreaker.MeaningOfModes` | pkg/messaging/reliability.go:148-200 | Open and half open, defined from the sequence of events alone, are the states of the breaker after every sequence |
| `CircuitBreaker.CircuitBreaker.constructor` | pkg/messaging/reliability.go:120-128 | The breaker of the empty sequence of events |
| `CircuitBreaker.CircuitBreaker.AllowRequest` | pkg/messaging/reliability.go:148-165 | Admits unless open and within the timeout of the last failure; the first admission after that makes the breaker half open with no successes counted |
| `CircuitBreaker.CircuitBreaker.RecordFailure` | pkg/messaging/reliability.go:168-183 | Counts the failure and its time in every state; opens at once from half open, and otherwise when the count reaches maxFailures |
| `CircuitBreaker.CircuitBreaker.RecordSuccess` | pkg/messaging/reliability.go:186-200 | Half open, counts the success and closes with no failures at halfOpenMax; otherwise forgets the failures counted |
| `CircuitBreaker.CircuitBreaker.ResetBreaker` | pkg/messaging/reliability.go:210-216 | Closed with both counts at zero; the time of the last failure stays |
| `TokenBucket.TokensInRange` | pkg/messaging/reliability.go:246-254 | In every run the tokens lie between 0 and the bucket size |
| `TokenBucket.FoundWithinWindow` | pkg/messaging/reliability.go:242-254 | The tokens a call finds never exceed what any window ending with it has left |
| `TokenBucket.SomeWindowIsTight` | pkg/messaging/reliability.go:242-254 | They equal what some window has left |
| `TokenBucket.AllowedIff` | pkg/messaging/reliability.go:238-255 | A request is allowed if and only if counting it keeps every window that ends with it within bucketSize + rate * length |
| `TokenBucket.WindowBound` | pkg/messaging/reliability.go:238-255 | In every run at most bucketSize + rate * (t − s) requests are allowed between any times s and t |
| `TokenBucket.RateLimiter.constructor` | pkg/messaging/reliability.go:228-235 | A full bucket |
| `TokenBucket.RateLimiter.Allow` | pkg/messaging/reliability.go:238-255 | Refills for the time passed up to the size, then takes one token and allows, if there is a whole one |
| `IdleBuckets.IdleIsFull` | cmd/dashboard/middleware.go:75-79 | A bucket that a collection deletes would be full, however empty it was last seen |
| `IdleBuckets.MatchingTablesAnswerAlike` | pkg/billing/auth_limiter.go:37-89 | A table that lacks only buckets that would be full gives the same answers to any operations and collections from there on |
| `IdleBuckets.SweepsAreInvisible` | cmd/dashboard/middleware.go:47-83 | For any schedule of calls and collections at times that do not go back, all answers are those of the schedule without collections, if the idle time refills a bucket |
| `IdleBuckets.BothLimitersRefill` | pkg/billing/auth_limiter.go:23-27 | The constants of both limiters leave that much idle time, so collection is invisible in both |
| `IdleBuckets.PeeksChangeNothing` | pkg/billing/auth_limiter.go:37-43 | Asking any number of times changes no later answer |
| `IdleLimits.InvisibleIff` | cmd/dashboard/middleware.go:70-83 | For any rate, capacity and idle time, collection is invisible to the callers of either limiter, with the calls that limiter offers, if and only if the idle time refills a bucket or the capacity is less than a token |
| `IdleLimits.TellCollected` | pkg/billing/auth_limiter.go:76-89 | A bucket too empty to refill in the idle time can be told from a new one after a collection, with the calls of either limiter |
| `IdleLimits.ClientsApart` | cmd/dashboard/middleware.go:47-68 | Whatever the others do, a client is answered as by a token bucket of its own made at its first call |
| `IdleBuckets.Collect` | pkg/billing/auth_limiter.go:80-88 | Exactly the buckets last seen before the cutoff are gone |
| `IdleBuckets.KeyCreateLimiter.Allow` | cmd/dashboard/middleware.go:47-68 | The bucket of the tenant, a full one if it is new, is refilled up to capacity and gives a token if it has a whole one; other buckets are untouched |
| `IdleBuckets.KeyCreateLimiter.CollectIdle` | cmd/dashboard/middleware.go:74-81 | Exactly the idle buckets are gone |
| `IdleBuckets.AuthLimiter.GetOrCreate` | pkg/billing/auth_limiter.go:56-64 | The bucket of the address, a full one if it is new, seen now |
| `IdleBuckets.AuthLimiter.Refill` | pkg/billing/auth_limiter.go:66-74 | Tokens for the time elapsed, up to the capacity |
| `IdleBuckets.AuthLimiter.Allow` | pkg/billing/auth_limiter.go:37-43 | The bucket of the address is created or refilled, and answers without giving a token; other buckets are untouched |
| `IdleBuckets.AuthLimiter.Consume` | pkg/billing/auth_limiter.go:46-54 | The bucket of the address is created or refilled, and loses a token if it has a whole one; other buckets are untouched |
| `IdleBuckets.AuthLimiter.CollectIdle` | pkg/billing/auth_limiter.go:80-88 | Exactly the idle buckets are gone |

## Left out

- SchedulerRuns.AllAnsweredOnce: store writes, the audit line and the reply succeed; the code logs their failures and goes on.
- AuditWriters.WritersNeverBreakChain: timestamps have the microseconds that the database keeps; rounding of finer ones is not modelled.
- RelayDelivery.DeliverQueuedMessages: nothing is enqueued during the drain, and the clock does not go back from one dequeue to the next.
- ConversationStore.MemoryStore.UpdateThread: sharing a participant slice between caller and store is not followed; MessageCount is the number of messages only as long as no caller's copy overwrites it.
- Meter.NeverOverAdmits: deltas and restored counts are not negative, and 64-bit wrap-around is not modelled; month rollover and ResetTenant are left out, as they set counters back.
- TokenBucket.WindowBound: rate, size and the passing of time are not negative, and `float64` rounding is not modelled.
- The scheduler, the database writers and the meter are step systems over values, not classes: their steps interleave inside the methods.
- Audit rows removed by a purge: verification always starts from the empty hash, so a purged chain does not verify.
- The SQLite audit chain: it orders by a timestamp in seconds and reads and inserts in separate statements.
- A task store in which a terminal state is final: UpdateTaskStatus has no such guard.
- GetTask's pointer into the task store, through which a caller could change a task.
- Order among equal queueing times, update times or sequence numbers: the library sort is not stable.
- CircuitBreaker.Execute as one call: it is an ask and a late report, which runs interleave freely.
- Retry, RateLimiter.Wait, retryAfterSecs, GetReceipts, GetDLQ, GetQueueSize, presence and statistics: they would add only easy members.
- The relay's client map and the registry's DID map, whose entries the code does not keep in step.
- OAuth, billing provider, e-mail, HTTP and WebSocket plumbing, SQL text, signatures, sandboxing and configuration.
