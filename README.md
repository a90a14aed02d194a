# Concurrency primitives, modelled in Dafny

The repository is a collection of C++ concurrency building blocks. This project models the sequential core of each one:

- a deadline-ordered alarm scheduler backed by a binary min-heap;
- two fixed-size thread pools;
- two event registries that defer callbacks while an event is in progress;
- a pool of reusable clients with admission control;
- a bounded blocking queue;
- a reader/writer lock;
- a bucketed hash map and a sharded map built from it;
- a round-robin string printer;
- a one-producer/one-consumer bounded buffer.

Each critical section (the code between acquiring and releasing a mutex) becomes one method of a Dafny class. That class has the C++ object's fields and an invariant `Valid()`. A condition-variable `wait(pred)` becomes the method's `requires` clause: the step can only happen once the predicate holds. Where a thread gives up the lock partway through its work, each part is its own step, so other threads' steps can come in between. Examples are the drain loops of the two event registries, which unlock around every callback, and a finished client-pool job, which returns its client and drains the pending queue in two separate critical sections.

A thread's loop becomes a step method. The step returns what the thread does next: exit, run a task, or sleep until a deadline. Callbacks and tasks are opaque identifiers (`Common.CallbackId`). What they do is not modelled; only where they go is recorded: run, queued, or handed to a pool.

One module per source file:

| module | file |
|---|---|
| `Alarms` | alarms.dfy |
| `ThreadPools` | thread_pool.dfy |
| `EventRegistries` | event_registry.dfy |
| `ClientPools` | client_pool.dfy |
| `BoundedQueues` | bounded_queue.dfy |
| `RWLocks` | rw_lock.dfy |
| `ConcurrentMaps` | concurrent_map.dfy |
| `StringPrinting` | string_printing.dfy |
| `ProducerConsumer` | producer_consumer.dfy |

`Common` (common.dfy) holds `Option` and `CallbackId`.

Three behaviours of the code that the model keeps as they are:

- **`pushEvent` after `shutdown`.** The call is accepted and the alarm is pushed, but it never fires. No error is reported.
- **`enqueue` after `stop`.** thread_pool.cpp drops the task and reports nothing. Only the variant at thread_pool.cpp:279-297 throws.
- **Exceptions from tasks.** Neither thread pool's worker catches an exception thrown by a task. Of the workers modelled here, only the improved `EventRegistry` worker catches callback exceptions. The pool at EventRegistryCallBack.cpp:187-238, which is not part of this model, also catches the exceptions of the callbacks the pool-backed registry hands to it.

## Model

| member | source | states |
|---|---|---|
| Alarms.Greater | AlarmCallbackSystem.cpp:68-70 | alarms compare by scheduled time only: two alarms due at the same instant, an alarm and itself among them, never compare greater |
| Alarms.GreaterIsStrictWeakOrder | AlarmCallbackSystem.cpp:76 | `std::greater<Alarm>` is the strict weak ordering `std::priority_queue` needs: irreflexive, asymmetric and transitive, with mutually incomparable alarms exactly those due at the same instant |
| Alarms.TopIsEarliestAt | AlarmCallbackSystem.cpp:76 | in a heap ordered by `operator>`, the top is no later than any slot |
| Alarms.TopIsEarliest | AlarmCallbackSystem.cpp:76-89 | `top()` is no later than any pending alarm |
| Alarms.HeapPush | AlarmCallbackSystem.cpp:112 | `callback_registry.push` adds exactly the one alarm (multiset) and keeps the min-heap order |
| Alarms.HeapPop | AlarmCallbackSystem.cpp:89-92 | `top` then `pop` returns the heap's top and removes exactly that alarm; the rest stays a min-heap |
| Alarms.SiftDown | AlarmCallbackSystem.cpp:92 | restoring the order after the last slot moves to the top yields a min-heap with the same alarms |
| Alarms.AlarmCallbackSystem.constructor | AlarmCallbackSystem.cpp:79-106 | starts with no pending alarm, not stopped, nothing dispatched |
| Alarms.AlarmCallbackSystem.PushEvent | AlarmCallbackSystem.cpp:108-115 | exactly one new alarm due at `now + delay`; every pending alarm stays; the heap order is kept |
| Alarms.AlarmCallbackSystem.LoopStep | AlarmCallbackSystem.cpp:83-101 | exits exactly when stopped; waits with no deadline exactly when nothing is pending; fires exactly when the earliest alarm is due; a fired alarm is due, is a minimum of the pending alarms, is removed alone and its callback is handed to the pool once; otherwise sleeps until the earliest deadline and changes nothing |
| Alarms.AlarmCallbackSystem.Shutdown | AlarmCallbackSystem.cpp:117-124 | sets `stopped`; the pending alarms stay unfired |
| Alarms.FiringKeepsOrder | AlarmCallbackSystem.cpp:89-94 | firing the top keeps the fired alarms in non-decreasing order and no later than any alarm still pending |
| Alarms.SuccessiveFiringsInOrder | AlarmCallbackSystem.cpp:83-101 | two successive firings with no push between them come in non-decreasing scheduled-time order |
| ThreadPools.ThreadPool.constructor | thread_pool.cpp:159-184 | an empty, running pool with `num_threads` workers |
| ThreadPools.ThreadPool.Enqueue | thread_pool.cpp:186-194 | appends the task at the back when running; drops it when stopped |
| ThreadPools.ThreadPool.EnqueueOrThrow | thread_pool.cpp:279-297 | the variant raises exactly when stopped, and then leaves the queue unchanged; otherwise it appends |
| ThreadPools.ThreadPool.WorkerStep | thread_pool.cpp:163-178 | enabled when tasks are queued or stop is set; exits exactly when stopped and empty, otherwise takes the front task (FIFO); every accepted task is started or queued exactly once |
| ThreadPools.ThreadPool.Stop | thread_pool.cpp:196-208 | sets `stop_`; with at least one worker, every queued task is started in order before it returns; a second call changes nothing more |
| EventRegistries.Raising | EventRegistryCallBack.cpp:158-165 | the callbacks whose exceptions the worker reports, never more than those run |
| EventRegistries.RaisingAppend | EventRegistryCallBack.cpp:154-165 | running one more callback adds it to the reported ones exactly when it raises |
| EventRegistries.EventRegistry.constructor | EventRegistryCallBack.cpp:94-104 | empty queue, no event in progress, not stopped |
| EventRegistries.EventRegistry.RegCb | EventRegistryCallBack.cpp:107-115 | during an event, queues the callback without running it; otherwise runs it at once, leaves the queue alone and lets its exception reach the caller |
| EventRegistries.EventRegistry.StartEvent | EventRegistryCallBack.cpp:118-121 | sets the in-progress flag; the queue is untouched |
| EventRegistries.EventRegistry.StopEvent | EventRegistryCallBack.cpp:124-130 | clears the in-progress flag; the queue is untouched |
| EventRegistries.EventRegistry.Shutdown | EventRegistryCallBack.cpp:133-137 | sets `stop_`; queued callbacks stay queued |
| EventRegistries.EventRegistry.WorkerWait | EventRegistryCallBack.cpp:144-151 | enabled when no event is in progress or stop is set; exits exactly when stopped, running nothing; otherwise enters the drain loop |
| EventRegistries.EventRegistry.WorkerRunNext | EventRegistryCallBack.cpp:154-166 | one pass of the drain loop: ends the drain exactly when the queue is empty; otherwise runs the front callback and reports it if it raises; it does not check whether an event has started meanwhile; every registered callback stays run or queued exactly once |
| EventRegistries.EventRegistry.RunQueued | EventRegistryCallBack.cpp:154-166 | with no other thread acting during the drain, the loop runs exactly the queued callbacks, once each and in registration order, and reports exactly the raising ones |
| EventRegistries.PooledEventRegistry.constructor | EventRegistryCallBack.cpp:244-254 | empty queue, no event in progress, not stopped |
| EventRegistries.PooledEventRegistry.RegCb | EventRegistryCallBack.cpp:256-264 | during an event, queues the callback; otherwise hands it to the pool at once and leaves the queue alone |
| EventRegistries.PooledEventRegistry.StartEvent | EventRegistryCallBack.cpp:266-269 | sets the in-progress flag; the queue is untouched |
| EventRegistries.PooledEventRegistry.StopEvent | EventRegistryCallBack.cpp:271-277 | clears the in-progress flag; the queue is untouched |
| EventRegistries.PooledEventRegistry.Shutdown | EventRegistryCallBack.cpp:279-284 | sets `stop_`; queued callbacks stay queued |
| EventRegistries.PooledEventRegistry.MonitorWait | EventRegistryCallBack.cpp:291-297 | enabled when no event is in progress or stop is set; exits exactly when stopped, dispatching nothing; otherwise enters the hand-over loop |
| EventRegistries.PooledEventRegistry.MonitorHandNext | EventRegistryCallBack.cpp:299-305 | one pass of the hand-over loop: ends it exactly when the queue is empty; otherwise hands the front callback to the pool, whether or not an event has started meanwhile |
| EventRegistries.PooledEventRegistry.DispatchQueued | EventRegistryCallBack.cpp:299-305 | with no other thread acting in between, the loop hands the whole queue to the pool in registration order |
| ClientPools.ThreadPool.constructor | BFTClientPool.cpp:16-19 | an empty, running pool |
| ClientPools.ThreadPool.Submit | BFTClientPool.cpp:23-29 | appends the job whether or not the pool is stopped |
| ClientPools.ThreadPool.WorkerStep | BFTClientPool.cpp:41-53 | enabled when stopped or jobs are queued; returns nothing exactly when stopped and empty, otherwise the front job |
| ClientPools.ThreadPool.Shutdown | BFTClientPool.cpp:31-38 | sets `stop_`; with at least one worker, every queued job is taken in order first |
| ClientPools.HandOver | BFTClientPool.cpp:92-94 | handing the front idle client to new work moves that client from idle to busy |
| ClientPools.ClientsOfRemove | BFTClientPool.cpp:109-112 | completing one piece of work frees exactly its client |
| ClientPools.ReturnClient | BFTClientPool.cpp:109-112 | giving a finished job's client back to the idle queue keeps every client exactly once idle or busy |
| ClientPools.BFTClientPool.constructor | BFTClientPool.cpp:82-86 | all `numClients` clients idle, in order; nothing pending or in flight |
| ClientPools.BFTClientPool.SendRequest | BFTClientPool.cpp:88-116 | with an idle client, submits the request on the front client at once; otherwise queues it while `pending_` has room and rejects it (false, nothing changed) exactly when it is full; keeps every client exactly once idle or busy |
| ClientPools.BFTClientPool.Complete | BFTClientPool.cpp:106-112 | a finished job (this lambda, or the same one at lines 131-137) runs its callback if any and returns its client to the back of the idle queue; the pending queue and the submitted work are untouched; every client stays exactly once idle or busy |
| ClientPools.BFTClientPool.DrainPendingQueue | BFTClientPool.cpp:119-140 | a separate step from `Complete`: when a request waits and a client is idle, the oldest request goes to the front idle client and is submitted; otherwise nothing changes; every client stays exactly once idle or busy |
| ClientPools.ClientsConserved | BFTClientPool.cpp:84-85 | idle plus busy clients always number `numClients` |
| BoundedQueues.BoundedBlockingQueue.constructor | BoundedBlockingQueue.cpp:75 | an empty queue with the given capacity, not shut down |
| BoundedQueues.BoundedBlockingQueue.Push | BoundedBlockingQueue.cpp:82-115 | enabled when there is room or shut down; appends when running, drops when shut down; never exceeds the capacity |
| BoundedQueues.BoundedBlockingQueue.Pop | BoundedBlockingQueue.cpp:117-129 | enabled when non-empty or shut down; nothing exactly when shut down and empty, otherwise the front item (FIFO) |
| BoundedQueues.BoundedBlockingQueue.Shutdown | BoundedBlockingQueue.cpp:131-138 | sets the flag and keeps the items |
| RWLocks.RWLock.constructor | ReaderWriterLock.cpp:26-27 | no reader, no writer |
| RWLocks.RWLock.LockRead | ReaderWriterLock.cpp:29-35 | enabled when no writer is active; one more reader; mutual exclusion is kept |
| RWLocks.RWLock.UnlockRead | ReaderWriterLock.cpp:37-42 | one reader fewer |
| RWLocks.RWLock.LockWrite | ReaderWriterLock.cpp:44-50 | enabled when there is neither reader nor writer; exactly one writer |
| RWLocks.RWLock.UnlockWrite | ReaderWriterLock.cpp:52-56 | one writer fewer |
| ConcurrentMaps.FindUpsertSame | ConcurrentMap.cpp:38-44 | after an insert, looking the key up in its bucket gives the new value |
| ConcurrentMaps.FindUpsertOther | ConcurrentMap.cpp:38-44 | an insert does not change any other key's value |
| ConcurrentMaps.UpsertEntries | ConcurrentMap.cpp:38-44 | an insert adds no entry other than the new one |
| ConcurrentMaps.UpsertKeepsKeysUnique | ConcurrentMap.cpp:38-44 | an insert never duplicates a key in a bucket |
| ConcurrentMaps.UpsertLength | ConcurrentMap.cpp:38-44 | a present key is overwritten in place; an absent key is appended at the end of the bucket |
| ConcurrentMaps.FindFirstMatch | ConcurrentMap.cpp:51-54 | the first entry with the key gives the value `get` returns |
| ConcurrentMaps.UpsertFirstMatch | ConcurrentMap.cpp:38-42 | the insert overwrites exactly the first entry with the key |
| ConcurrentMaps.FindNoMatch | ConcurrentMap.cpp:51-56 | a bucket without the key gives nothing |
| ConcurrentMaps.ConcurrentMap.GetHash | ConcurrentMap.cpp:24-26 | the bucket index is below `BUCKET_SIZE` |
| ConcurrentMaps.ConcurrentMap.constructor | ConcurrentMap.cpp:32 | 16 empty buckets: every key maps to nothing |
| ConcurrentMaps.ConcurrentMap.Insert | ConcurrentMap.cpp:34-45 | only the key's bucket changes; the key then maps to the value and every other key to what it mapped to before |
| ConcurrentMaps.ConcurrentMap.InsertKeepsMap | ConcurrentMap.cpp:34-45 | the insert keeps every entry in its key's bucket and keys unique, and updates exactly one key |
| ConcurrentMaps.ConcurrentMap.Get | ConcurrentMap.cpp:47-57 | returns the value stored for the key, or nothing when it is absent |
| ConcurrentMaps.ConcurrentShardMap.ShardIndex | ConcurrentMap.cpp:66-68 | the shard index is below `shards_size_` |
| ConcurrentMaps.ConcurrentShardMap.constructor | ConcurrentMap.cpp:71 | `shards` distinct, fresh, empty maps |
| ConcurrentMaps.ConcurrentShardMap.Insert | ConcurrentMap.cpp:73-76 | only the key's shard changes; the key then maps to the value and every other key is unchanged; a stored key always lives in its own shard |
| ConcurrentMaps.ConcurrentShardMap.Get | ConcurrentMap.cpp:78-81 | returns what the map holds for the key |
| StringPrinting.TurnOwner | string_printing.cpp:31-34 | the owner of the next character, block by block, is a thread in 1..noThreads |
| StringPrinting.IsTurn | string_printing.cpp:31-34 | a thread passes the window test exactly when it is the turn owner, so exactly one thread has the turn |
| StringPrinting.WaitReleasesAsWritten | string_printing.cpp:30-35 | the wait lets a thread through exactly when `done` is set or it is the turn owner |
| StringPrinting.RoundPositionIsBlock | string_printing.cpp:31-34 | the window test's position within a round, divided by `count`, is the block number modulo `noThreads` |
| StringPrinting.OwnerConstantInBlock | string_printing.cpp:31-34 | each thread prints `count` consecutive characters |
| StringPrinting.NextBlockNextThread | string_printing.cpp:31-34 | the next block goes to the next thread, cyclically |
| StringPrinting.StopReleasesThreadOutOfTurn | string_printing.cpp:30-35 | once `done` is set, the wait releases a thread whose turn it is not |
| StringPrinting.Printer.constructor | string_printing.cpp:20 | count and index 0, not done, nothing printed |
| StringPrinting.Printer.PrintCurrent | string_printing.cpp:38-44 | prints `str[n % str.size()]` at step n, adds exactly 1 to the count and keeps the index in range, wrapping to 0 |
| StringPrinting.Printer.StepAsWritten | string_printing.cpp:27-46 | as written, a released thread prints whether or not it is its turn |
| StringPrinting.Printer.Step | string_printing.cpp:27-46 | corrected: a thread woken by `done` leaves without printing; otherwise it is the turn owner and prints the next character, so every line comes from the thread whose turn it was |
| StringPrinting.Printer.Stop | string_printing.cpp:52-60 | sets `done` and keeps the output |
| ProducerConsumer.Channel.constructor | producer_consumer.cpp:82-86 | empty queue, not done |
| ProducerConsumer.Channel.Produce | producer_consumer.cpp:122-136 | enabled when `tasks.size() != MAX_SIZE`; pushes the loop counter; the queue never exceeds `MAX_SIZE` and the values go in order |
| ProducerConsumer.Channel.FinishProducing | producer_consumer.cpp:141-144 | `done` is set only after all 100 values |
| ProducerConsumer.Channel.ConsumeStep | producer_consumer.cpp:98-117 | enabled when non-empty or done; drains the queue from the front; exits exactly when done, and then has consumed 0..99 in order |

## Left out

- Threads, mutexes, condition-variable notifications, joins and destructors are not modelled. Interleavings are modelled only as the order in which step methods are called. Each critical section is one atomic method, and each wait predicate is its precondition. Code that runs unlocked next to a critical section, such as a callback body or a log line, is folded into that step.
- Wake-ups are not modelled, so neither is the choice between `notify_one` and `notify_all`.
- Real clocks are not modelled. `steady_clock::now()` is a `now` parameter of `PushEvent` and `LoopStep`. `wait_until` appears only as the `SleepUntil` outcome.
- `std::priority_queue` internals are not modelled. The heap layout is the textbook binary heap. Only the multiset of pending alarms and its order are stated.
- Tie order among equal scheduled times is not modelled.
- Callback and task bodies are not modelled, nor is console and error output. `BFTClient::sendRequest` (a log line and a 50 ms sleep) is not modelled.
- The exceptions a callback may raise are a parameter set `raises`.
- `std::hash<K>` is a function value fixed at construction. Its result is unbounded, where the original is a `size_t`.
- `Printer.constructor`: requires a non-empty string, positive `count` and positive `noThreads`. With an empty string the second print reads past its end. With zero `count` or `noThreads` the modulo has no defined result. Negative values are excluded too, although the source is defined for them: with negative `noThreads` `startPrinting` starts no thread, and with negative `count` the window's right end is negative, so no thread passes the window test and a thread prints only once `done` is set. The model does not cover these runs.
- The `done` and `currentCharCount` atomics are taken as starting at `false` and 0. That is their value-initialised state.
- `ConcurrentShardMap.Insert` and `ConcurrentShardMap.Get` require at least one shard; with zero shards the modulo has no defined result.
- `RWLocks.RWLock.UnlockRead` requires at least one active reader, and `RWLocks.RWLock.UnlockWrite` requires an active writer. ReaderWriterLock.cpp:37-41 and 52-55 decrement without a check, so an unlock by a thread that holds no lock drives the counter negative; the model admits only unlocks by a holder.
- The integer counters have no overflow: `currentCharCount`, `active_readers` and `active_writers` are unbounded integers.
- The unlocked reads of `stop_` and `done` outside a critical section are not modelled.
- The `EventRegistry.RegCb` and `PooledEventRegistry.RegCb` models do not release the lock. In the source, other threads can run between the release and the callback (EventRegistryCallBack.cpp:112-113) or the `threadPool_.enqueue` (EventRegistryCallBack.cpp:261-262).
- The `ThreadPool` at EventRegistryCallBack.cpp:187-238 is not part of this model. The pool-backed registry records the callbacks it hands to that pool.
- The `ThreadPool` that `AlarmCallbackSystem` owns is not part of this model. The scheduler records the callbacks it hands to it.
- The broken first drafts are not modelled: the first `AlarmCallbackSystem`, the first `EventRegistry` and the first `RWLock`.
- The `main` functions are not modelled.
- token_bucket.cpp (floating-point refill), BusyWaitingMutex.cpp, Singleton.cpp, basic_threads.cpp, future_promise.cpp and WorkerMultiworker.cpp are not part of this model.
- `Alarms.AlarmCallbackSystem.PushEvent`: states the pending alarms as a multiset, not their slot layout.

## Findings

| source | as written | input that shows it | evidently intended | confidence | as-written member | corrected member |
|---|---|---|---|---|---|---|
| string_printing.cpp:30-44 | after `stop` sets `done`, `cv.wait` releases every waiting thread; each one prints `str[currentIndex]` and advances the count whether or not it is its turn | `Printer("ABCDEFGHIJ", 3, 4)`: at count 0 it is thread 1's turn, yet once `done` is set thread 2 passes the wait and prints `A` | a thread released by `done` leaves the loop without printing, so every line comes from the thread whose turn it was | medium; not executed | StringPrinting.Printer.StepAsWritten, StringPrinting.StopReleasesThreadOutOfTurn | StringPrinting.Printer.Step |
