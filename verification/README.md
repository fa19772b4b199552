# Verified models of the repository's small systems

Each module models one of the repository's self-contained systems and proves what that system is for.
Code that changes objects in place is modelled by classes and loops whose contracts tie them to functions
on values; concurrent protocols are step machines whose theorems speak of every schedule. The theorems
are lemmas about those functions and schedules.

| module | system |
|---|---|
| `LockFreeQueue`, `LockFreeQueueProgress` | the compare-and-swap queue in Go: linearizability and lock-freedom; every call returns, and what a call alone answers |
| `Redlock` | the quorum lock over several nodes: mutual exclusion, exactly when it holds, and exactly when an attempt gets the lock |
| `Mvcc` | the multi-version store: what a read view sees, exactly when it keeps its snapshot, read committed |
| `MiniScheduler` | the Go timer scheduler: heap, stored slots and ID map agree; over any run of its loop tasks start when due, and removed ones never |
| `MiniTaskQueue`, `MiniTaskQueueShutdown`, `MiniTaskQueueProgress` | the Python worker pool: graceful shutdown accounts for every payload; when it can end, and when it always does |
| `EventLoop`, `EventLoopTimers` | the JavaScript event loop: how the two queues are drained; the timer heap, and which timers fire |
| `Outbox` | outbox store, worker and consumer: delivery, progress, at-most-once handling |
| `Idempotency` | the idempotency-key store under overlapping calls |
| `Saga` | the saga orchestrator: all or nothing, and what duplicate names do |
| `SlidingWindow` | the bucketed rate limiter: the span of time and the amounts for which its limit really holds |
| `CloneGraph` | the recursive clone of a cyclic graph |
| `TopologicalSort`, `GraphSearch` | Kahn's algorithm; shortest path, breadth-first and depth-first search |
| `LruCache` | the linked-list LRU cache and the Map-based one, which answer alike |
| `TreeCodec` | the level-order tree codec and tree inversion |
| `HeapOrder`, `Firings`, `Digraph`, `Sequences`, `Sets`, `Wrappers` | facts and datatypes that several modules share |

`dafny verify dfyconfig.toml` checks everything.

Some results say that the code does not do all that its names or comments suggest; the models follow the code.

* The sliding window's limit holds for spans of `windowSize - subWindow + 1` milliseconds and for no longer
  ones; a longer span can admit twice the limit, which is the most one window ever does
  (`SlidingWindow.LimitHoldsExactly`, `SlidingWindow.TwiceLimitReached`, `SlidingWindow.AtMostTwiceLimit`). It holds for amounts that are not negative and whose largest fits into
  int64 beside all that the window can hold, and for no others (`SlidingWindow.AmountsExactly`).
* The third rule in the comment on draining the event loop's queues (event-loop.js lines 376-379) is met
  exactly when no microtask is left: a nextTick runs straight after a microtask if and only if every microtask
  queued by then has run (`EventLoop.ThirdRuleExactly`; `EventLoop.NewTickWaits` is a case where one is left).
* `stop(wait=True)` of the task queue can return exactly when the workers alive outnumber the Nones ahead of each
  task and are at least as many as all Nones queued; a submitted None ends a worker just as a sentinel does, and
  otherwise stop never returns (`MiniTaskQueueShutdown.StopReturnsExactly`,
  `MiniTaskQueueShutdown.NoneEndsTheOnlyWorker`). A handler that raises puts its task behind all that is queued; so
  stop returns however threads are scheduled and whatever handlers raise exactly when the workers outnumber all the
  Nones queued as long as some task may be retried (`MiniTaskQueueProgress.StopAlwaysReturnsExactly`).
* The multi-version store does not stop a transaction from writing after it has committed. A view keeps its snapshot
  of a key exactly when every later writer of the key was another transaction active when the view was made, or had
  not begun then (`Mvcc.RepeatableExactly`; `Mvcc.LateWriterBreaksSnapshot` is a history in which it does not).
* Cancelling a scheduled task by its ID, or an interval by its number, has an effect exactly when it is queued
  at that moment; while it runs it has none, and it goes back to the queue
  (`MiniScheduler.CancelledButQueuedAgain`, `EventLoopTimers.ClearedButQueuedAgain`).
* The outbox store offers records with fewer than five retries whatever `maxRetries` is; with a smaller
  `maxRetries` a spent record is offered for ever (`Outbox.ProgressesExactly`, `Outbox.StuckReached`).
* A cleanup of idempotency keys that removes the record of a run in flight lets a second run start beside it
  (`Idempotency.CleanupSafeExactly`).
* The note that `redlock_sim.py` prints on line 76, that delays can cause false positives, does not apply to
  the code above it, which checks the time left after locking (`Redlock.Exclusion`).

## Model

| member | source | states |
|---|---|---|
| LockFreeQueue.StepInv | language/go/02-type-system/main.go:243-282 | every atomic load and CAS of either operation keeps the invariant: one chain of nodes, what each thread has read so far is still usable, and the log of effects replays to the queue |
| LockFreeQueue.RunInv | language/go/02-type-system/main.go:235-282 | the invariant holds after every schedule of any number of threads |
| LockFreeQueue.Legal | language/go/02-type-system/main.go:243-282 | in every interleaving the operations, in the order of their effects, are a legal run of a sequential FIFO queue that ends with exactly the values now in the list |
| LockFreeQueue.LinearizationAgrees | language/go/02-type-system/main.go:269-273 | dropping observations of emptiness that the operation did not return changes neither legality nor result |
| LockFreeQueue.EffectWithinInterval | language/go/02-type-system/main.go:243-282 | a returned operation took effect once, between its call and its return, with the effect it returned and its call asks for, and returned once |
| LockFreeQueue.RealTimeOrder | language/go/02-type-system/main.go:243-282 | an operation that returned before another was called is linearized before it |
| LockFreeQueue.NoUnchargedChange | language/go/02-type-system/main.go:252-253 | every enqueue or dequeue that happened is in the linearization at the place where it happened |
| LockFreeQueue.FirstInFirstOut | language/go/02-type-system/main.go:277-278 | in a legal log the values put in are those taken out, in that order, followed by those left |
| LockFreeQueue.Conservation | language/go/02-type-system/main.go:243-282 | in every interleaving nothing is lost, duplicated or reordered |
| LockFreeQueue.Shape | language/go/02-type-system/main.go:230-241 | in every reachable state tail is at or after head and at most one node short of the end, and following next from head reads exactly the contents |
| LockFreeQueue.NeverPanics | language/go/02-type-system/main.go:276 | next.value is never read through a nil next |
| LockFreeQueue.FailedIterationOverlapsCas | language/go/02-type-system/main.go:246-281 | an iteration that goes round again overlapped some successful CAS |
| LockFreeQueue.SuccessesBound | language/go/02-type-system/main.go:252-277 | successful CASes are at most two per operation called, and tail and head move at most once per append |
| LockFreeQueue.LockFree | language/go/02-type-system/main.go:246-281 | with n threads and k calls, repeated iterations are at most n per successful CAS and all steps at most 6k(1+2n), whatever the schedule |
| LockFreeQueueProgress.ReturnedOrRunning | language/go/02-type-system/main.go:243-282 | in every interleaving an operation called has returned, or exactly one thread is in the middle of it: none ends otherwise than by returning |
| LockFreeQueueProgress.SomeReturn | language/go/02-type-system/main.go:246-281 | whatever the schedule, n threads that have made more than 6(k+n)(1+2n) steps have had more than k operations return |
| LockFreeQueueProgress.AloneReturns | language/go/02-type-system/main.go:246-281 | from every reachable state a thread that runs alone returns within sixteen steps, whatever it has read and wherever the others stopped |
| LockFreeQueueProgress.CallAnswers | language/go/02-type-system/main.go:243-282 | from every reachable state a call that nothing interleaves with returns within eleven steps: Enqueue with its value behind the others and tail at the end, Dequeue with the first value, or with none exactly when there is none |
| Redlock.FakeRedis.TryLock | systems-engineering/distributed-systems/impl/dlock_lab/redlock_sim.py:15-21 | succeeds exactly when the key is free or expired, and then records owner and expiry; otherwise changes nothing |
| Redlock.FakeRedis.Unlock | systems-engineering/distributed-systems/impl/dlock_lab/redlock_sim.py:23-25 | removes the lock exactly when the owner holds it |
| Redlock.LockAll | systems-engineering/distributed-systems/impl/dlock_lab/redlock_sim.py:30-35 | the nodes locked are exactly those available when asked, and each node is as try_lock leaves it |
| Redlock.UnlockAll | systems-engineering/distributed-systems/impl/dlock_lab/redlock_sim.py:44-45 | exactly the nodes listed are unlocked |
| Redlock.AcquiredExactly | systems-engineering/distributed-systems/impl/dlock_lab/redlock_sim.py:32-35 | the list of acquired nodes has each available node once and no other |
| Redlock.RedlockAlone | systems-engineering/distributed-systems/impl/dlock_lab/redlock_sim.py:28-46 | an undisturbed attempt succeeds exactly when a quorum was available and time is left, and a failed one leaves every node without its lock |
| Redlock.StepInv | systems-engineering/distributed-systems/impl/dlock_lab/redlock_sim.py:15-46 | every step of any attempt and every advance of the clock keeps the invariant that an acquired lock stays until it expires or is given up |
| Redlock.Exclusion | systems-engineering/distributed-systems/impl/dlock_lab/redlock_sim.py:28-46 | in every interleaving two successful attempts whose quorums outnumber the nodes have disjoint times of validity |
| Redlock.ExclusionExactly | systems-engineering/distributed-systems/impl/dlock_lab/redlock_sim.py:28-46 | exclusion between two requests holds in every interleaving if and only if their quorums outnumber the nodes |
| Redlock.ClashWhenQuorumsCanMiss | systems-engineering/distributed-systems/impl/dlock_lab/redlock_sim.py:39-41 | otherwise a schedule is given in which both hold the lock at one time |
| Redlock.FailureLeavesNothing | systems-engineering/distributed-systems/impl/dlock_lab/redlock_sim.py:42-46 | in every interleaving an attempt that has failed leaves no node holding its owner |
| Redlock.AloneHoldsExactly | systems-engineering/distributed-systems/impl/dlock_lab/redlock_sim.py:15-46 | from every reachable state an attempt that no other interleaves with gets the lock if and only if a quorum of the nodes has no lock of the key or an expired one and the time it takes is less than its time to live; it locks exactly these nodes |
| Redlock.AloneGivesUp | systems-engineering/distributed-systems/impl/dlock_lab/redlock_sim.py:36-46 | otherwise it has failed after at most n + 1 steps more, and no node holds its owner |
| Redlock.ExpiredIsTaken | systems-engineering/distributed-systems/impl/dlock_lab/redlock_sim.py:17-21 | once every lock of a key has expired the next attempt gets it on all nodes, so a holder that never unlocks does not block it for ever |
| Mvcc.MVCCStore.BeginTrx | systems-engineering/database-systems/impl/mvcc_lab/mvcc.py:42-46 | issues a new, larger number and makes it active |
| Mvcc.MVCCStore.CommitTrx | systems-engineering/database-systems/impl/mvcc_lab/mvcc.py:48-49 | ends the transaction and changes nothing else |
| Mvcc.MVCCStore.WriteRow | systems-engineering/database-systems/impl/mvcc_lab/mvcc.py:59-61 | puts a version in front of the row's chain |
| Mvcc.MVCCStore.ReadWithView | systems-engineering/database-systems/impl/mvcc_lab/mvcc.py:72-78 | the walk returns the value of the newest visible version |
| Mvcc.MVCCStore.ReadRc | systems-engineering/database-systems/impl/mvcc_lab/mvcc.py:63-66 | reads with a view made at the moment |
| Mvcc.MVCCStore.ReadRr | systems-engineering/database-systems/impl/mvcc_lab/mvcc.py:68-70 | reads with the view given |
| Mvcc.ActiveOrCommitted | systems-engineering/database-systems/impl/mvcc_lab/mvcc.py:42-49 | an issued transaction is either active or committed, and no other is either |
| Mvcc.VisibleExactly | systems-engineering/database-systems/impl/mvcc_lab/mvcc.py:26-57 | after any history a view sees a transaction exactly when it had committed before the view or is the active creator, but for unissued numbers below an inactive creator's |
| Mvcc.WritersIssued | systems-engineering/database-systems/impl/mvcc_lab/mvcc.py:59-61 | when only active transactions write, all versions carry issued numbers |
| Mvcc.SnapshotKeptExactly | systems-engineering/database-systems/impl/mvcc_lab/mvcc.py:26-78 | for any view, any later history and whoever writes in it: the version the view reads of a key, with all older ones, stays the same if and only if the view sees none of the later writers of the key |
| Mvcc.ReadsLastSeen | systems-engineering/database-systems/impl/mvcc_lab/mvcc.py:59-78 | what the view reads after any later history: the value of the last later write whose writer it sees, and if there is none what it read before |
| Mvcc.RepeatableExactly | systems-engineering/database-systems/impl/mvcc_lab/mvcc.py:26-78 | for the view of an active transaction that is so if and only if each later writer of the key was another transaction active when the view was made, or had not begun then |
| Mvcc.RepeatableRead | systems-engineering/database-systems/impl/mvcc_lab/mvcc.py:51-78 | a case of it: as long as only active transactions write and the creator does not write the key, its view keeps its snapshot of the key and reads the same value |
| Mvcc.LateWriterBreaksSnapshot | systems-engineering/database-systems/impl/mvcc_lab/mvcc.py:59-61 | a history in which the snapshot is lost: a transaction writes after committing, and an older view reads its value |
| Mvcc.ReadPicks | systems-engineering/database-systems/impl/mvcc_lab/mvcc.py:72-78 | a read picks a visible version with only invisible ones before it, or there is none |
| Mvcc.ReadCommitted | systems-engineering/database-systems/impl/mvcc_lab/mvcc.py:63-78 | a read-committed read returns the newest version that is the reader's own or committed, never another active transaction's |
| MiniScheduler.TaskHeap.Swap | language/go/mini-runtime/mini_scheduler/scheduler.go:29-33 | exchanges two tasks and keeps every stored index equal to its slot |
| MiniScheduler.TaskHeap.HeapPush | language/go/mini-runtime/mini_scheduler/scheduler.go:35-40 | adds the task; order and indices hold |
| MiniScheduler.TaskHeap.HeapPop | language/go/mini-runtime/mini_scheduler/scheduler.go:42-50 | takes out the first task, whose index becomes -1; order and indices hold |
| MiniScheduler.TaskHeap.HeapRemove | language/go/mini-runtime/mini_scheduler/scheduler.go:177-191 | takes out the task of any slot; order and indices hold |
| MiniScheduler.TaskHeap.FirstIsEarliest | language/go/mini-runtime/mini_scheduler/scheduler.go:28 | in an ordered heap no task is due before the first |
| MiniScheduler.Scheduler.Schedule | language/go/mini-runtime/mini_scheduler/scheduler.go:96-109 | hands a new task to the loop |
| MiniScheduler.Scheduler.Arm | language/go/mini-runtime/mini_scheduler/scheduler.go:139-158 | the timer is set for the moment the first task is due, or for now when that has passed, or for a day ahead when there is none |
| MiniScheduler.Scheduler.HandleAdd | language/go/mini-runtime/mini_scheduler/scheduler.go:171-183 | the task received is queued under its ID, due when it says; a queued task of the same ID is cancelled and gone; the heap stays ordered, its indices right and the map exactly the heap by ID; running tasks and all other tasks stay as they are |
| MiniScheduler.Scheduler.HandleCancel | language/go/mini-runtime/mini_scheduler/scheduler.go:185-194 | the queued task of that ID is cancelled and gone from heap and map, and if there is none nothing changes; due times, running tasks and all other tasks stay as they are |
| MiniScheduler.Scheduler.HandleTimer | language/go/mini-runtime/mini_scheduler/scheduler.go:196-217 | when the timer armed goes off the earliest queued task is started, which is due by then and has not been removed, and none is started only if none is queued; no due time changes |
| MiniScheduler.Scheduler.TaskReturns | language/go/mini-runtime/mini_scheduler/scheduler.go:219-227 | a periodic task not cancelled goes back, due one interval later; any other does not |
| MiniScheduler.Scheduler.React | language/go/mini-runtime/mini_scheduler/scheduler.go:138-230 | what every event does, with the next turn to the top of the loop: a task added is queued under its ID with its due time, one cancelled leaves the queue, and a look at the timer starts the earliest task if one is due; the scheduler stays valid and the timer armed |
| MiniScheduler.Loop | language/go/mini-runtime/mini_scheduler/scheduler.go:132-230 | from New on, for any events in any order: every task handed over is queued when it is received, a cancellation takes out the task queued under its ID or changes nothing, and a task taken out while queued is not started afterwards; while the clock does not go back, a look at the timer starts a task if and only if one is due, and then the earliest |
| MiniScheduler.CancelWhileRunning | language/go/mini-runtime/mini_scheduler/scheduler.go:185-227 | a periodic task whose ID is cancelled while it runs is back in the queue afterwards |
| MiniScheduler.CancelledButQueuedAgain | language/go/mini-runtime/mini_scheduler/scheduler.go:96-227 | from New on such a state is reached and ends so: scheduled, received, started, cancelled, and queued again |
| Firings.RemovedNeverFires | language/go/mini-runtime/mini_scheduler/scheduler.go:171-217 | over any run whose steps are those of the two timer queues, what was taken out while queued is never started afterwards, and every start is due and earliest |
| MiniTaskQueue.StepInv | language/python/mini-runtime/mini_framework/mini_task_queue.py:53-88 | every step of a worker, a submitter or stop keeps the accounting of all tasks |
| MiniTaskQueue.UnfinishedCount | language/python/mini-runtime/mini_framework/mini_task_queue.py:58-88 | in every interleaving the count that join waits for is queued plus in flight, because the retry is put before task_done, and task_done is never called too often |
| MiniTaskQueue.NothingUnfinished | language/python/mini-runtime/mini_framework/mini_task_queue.py:60-61 | when join returns every task submitted so far is settled |
| MiniTaskQueue.GracefulShutdown | language/python/mini-runtime/mini_framework/mini_task_queue.py:58-88 | when stop(wait=True) returns, every payload submitted before was handled once, or dead-lettered once after max_retries+1 attempts and returned, or lost to a handler that killed its worker; exactly one of the three |
| MiniTaskQueue.EverySubmissionSettled | language/python/mini-runtime/mini_framework/mini_task_queue.py:53-88 | said of the calls: every payload submitted before stop was called is a task of that payload, and met exactly one of the three, dead-lettered after the handler raised on it max_retries+1 times and handled after fewer |
| MiniTaskQueue.FirstComeFirstServed | language/python/mini-runtime/mini_framework/mini_task_queue.py:53-84 | in every interleaving workers take new tasks in the order in which they were put |
| MiniTaskQueueShutdown.StopReturnsExactly | language/python/mini-runtime/mini_framework/mini_task_queue.py:58-88 | from every reachable state and without more submissions, some schedule lets stop return if and only if, while it has not got past join, the live workers are at least as many as the Nones queued and more than the Nones ahead of any task, or than all Nones if a task waits for its retry; otherwise no schedule does, with more submissions neither |
| MiniTaskQueueShutdown.NeedMeans | language/python/mini-runtime/mini_framework/mini_task_queue.py:70-75 | that condition, said of every place in the queue, is the same as a bound on the workers that emptying the queue takes |
| MiniTaskQueueShutdown.FewNonesReturn | language/python/mini-runtime/mini_framework/mini_task_queue.py:58-88 | with fewer Nones submitted and handlers aborted than there are workers, stop can return from every reachable state |
| MiniTaskQueueShutdown.NoWorkersNoShutdown | language/python/mini-runtime/mini_framework/mini_task_queue.py:60-75 | once no worker is alive an unfinished task keeps stop waiting for ever, whatever is submitted |
| MiniTaskQueueShutdown.NoneEndsTheOnlyWorker | language/python/mini-runtime/mini_framework/mini_task_queue.py:53-75 | a run that gets there: one worker, a None and a payload submitted, stop called |
| MiniTaskQueueProgress.StopAlwaysReturnsExactly | language/python/mini-runtime/mini_framework/mini_task_queue.py:58-88 | from every reachable state, without more submissions and handlers that end their worker: every run of steps that change the state is bounded and can be continued until none is left, and stop has returned at the end of all of them, whatever handlers raise, if and only if, while it has not got past join, the live workers suffice as above even when a task that may be retried counts as behind all Nones |
| MiniTaskQueueProgress.ChangesBounded | language/python/mini-runtime/mini_framework/mini_task_queue.py:70-88 | no run of such steps is longer than the attempts, tasks and sentinels left allow |
| MiniTaskQueueProgress.RunKeepsAlways | language/python/mini-runtime/mini_framework/mini_task_queue.py:70-88 | if the workers suffice in that sense they do after any such run |
| EventLoop.Loop.DrainMicrotasks | engineering/nodejs/runtime/event-loop-bootstrap/event-loop.js:403-413 | empties the microtask queue, running what the rule runs, and tells whether it ran anything |
| EventLoop.Loop.DrainNextTickAndMicrotask | engineering/nodejs/runtime/event-loop-bootstrap/event-loop.js:375-401 | the nested loops end with both queues empty; what they run is first in, first out in each queue, starts with a nextTick if there is one, and starts no later nextTick while a microtask waits |
| EventLoop.OnlyDrain | engineering/nodejs/runtime/event-loop-bootstrap/event-loop.js:375-413 | there is exactly one order of running callbacks that does so, and it is the one the one-line rule gives |
| EventLoop.FirstInFirstOut | engineering/nodejs/runtime/event-loop-bootstrap/event-loop.js:375-413 | of each kind a drain runs what was queued and then what was added, in that order, and leaves nothing |
| EventLoop.NothingRunsEarly | engineering/nodejs/runtime/event-loop-bootstrap/event-loop.js:385-413 | at every moment what has run of a kind had been queued before it started |
| EventLoop.EachOnce | engineering/nodejs/runtime/event-loop-bootstrap/event-loop.js:375-413 | a drain runs every callback of the queues' trees exactly once and no other |
| EventLoop.MicrotasksFirst | engineering/nodejs/runtime/event-loop-bootstrap/event-loop.js:386-395 | after the first callback of a drain no nextTick starts while a microtask is pending |
| EventLoop.ThirdRuleExactly | engineering/nodejs/runtime/event-loop-bootstrap/event-loop.js:376-398 | a nextTick runs straight after a microtask if and only if every microtask queued by then has run, which is when the comment's third rule is met |
| EventLoop.NewTickWaits | engineering/nodejs/runtime/event-loop-bootstrap/event-loop.js:376-398 | a case in which it is not: a nextTick registered by a microtask runs after the microtask pending |
| EventLoop.RunLightens | engineering/nodejs/runtime/event-loop-bootstrap/event-loop.js:385-413 | each callback run leaves one callback fewer in the trees of the queues, so a drain ends |
| EventLoopTimers.MinHeap.Add | engineering/nodejs/runtime/event-loop-bootstrap/event-loop.js:38-41 | adds the timer and keeps the heap order |
| EventLoopTimers.MinHeap.Pop | engineering/nodejs/runtime/event-loop-bootstrap/event-loop.js:47-54 | takes out the first timer and keeps the heap order |
| EventLoopTimers.MinHeap.Remove | engineering/nodejs/runtime/event-loop-bootstrap/event-loop.js:56-67 | takes out the first timer in the array that matches a predicate, which may look at the timers' fields, if one does, and keeps the heap order |
| EventLoopTimers.MinHeap.BubbleUp | engineering/nodejs/runtime/event-loop-bootstrap/event-loop.js:73-80 | restores the order when the one misplaced timer is too early for its parent, and otherwise does nothing |
| EventLoopTimers.MinHeap.BubbleDown | engineering/nodejs/runtime/event-loop-bootstrap/event-loop.js:82-94 | restores the order when the one misplaced timer is too late for its children |
| EventLoopTimers.TimerPhase.SetTimer | engineering/nodejs/runtime/event-loop-bootstrap/event-loop.js:134-172 | a new timer is live, due after its delay, negative delays counting as none |
| EventLoopTimers.TimerPhase.ClearTimeout | engineering/nodejs/runtime/event-loop-bootstrap/event-loop.js:174-184 | exactly the queued timer of that number stops being live; a timer being fired is not affected |
| EventLoopTimers.TimerPhase.TakeDue | engineering/nodejs/runtime/event-loop-bootstrap/event-loop.js:300-312 | the timer fired is live, due and the earliest of all live ones; none is fired only if no live one is due; cleared ones never are |
| EventLoopTimers.TimerPhase.Rearm | engineering/nodejs/runtime/event-loop-bootstrap/event-loop.js:321-327 | a recurring timer not cleared is live again, due after its interval; any other is not |
| EventLoopTimers.Play | engineering/nodejs/runtime/event-loop-bootstrap/event-loop.js:134-328 | from the start, for any events in any order, what every event does: a timer set is queued under the next number with its due time, clearing takes out the timer queued under its number or changes nothing, a look at the queue while no callback runs fires a timer if and only if one is due, and then the earliest, and a recurring one is queued again after its callback; a timer cleared while queued is not fired afterwards |
| EventLoopTimers.ClearInOwnCallback | engineering/nodejs/runtime/event-loop-bootstrap/event-loop.js:174-184 | an interval cleared in its own callback is queued again all the same |
| EventLoopTimers.ClearedButQueuedAgain | engineering/nodejs/runtime/event-loop-bootstrap/event-loop.js:134-327 | from the start such a state is reached and ends so: set, fired, cleared in its callback, and queued again |
| Outbox.BatchIsOldest | engineering/backend/data-consistency/outbox-pattern/impl.ts:299-304 | the batch is live records, each once, oldest first, and all of them or as many of the oldest as the limit |
| Outbox.InMemoryOutboxStore.MarkPublished | engineering/backend/data-consistency/outbox-pattern/impl.ts:306-313 | exactly the records with the ids given are marked |
| Outbox.InMemoryOutboxStore.MarkFailed | engineering/backend/data-consistency/outbox-pattern/impl.ts:315-320 | exactly the record with that id gets the count |
| Outbox.InMemoryOutboxStore.DeletePublishedBefore | engineering/backend/data-consistency/outbox-pattern/impl.ts:322-328 | what is left, and how many went |
| Outbox.KeptExactly | engineering/backend/data-consistency/outbox-pattern/impl.ts:322-328 | cleanup removes exactly the records published before the cutoff |
| Outbox.OutboxWorker.Poll | engineering/backend/data-consistency/outbox-pattern/impl.ts:212-270 | store, queue and counts after a poll, record by record, for every outcome of publishing and every point of crashing |
| Outbox.PollRecord | engineering/backend/data-consistency/outbox-pattern/impl.ts:212-268 | what one poll makes of any record: published when its publish returned, one retry more when it failed, and nothing when it was not in the batch, had no retry left, or came after the crash; an acknowledged one is not marked when the worker died |
| Outbox.PollMessages | engineering/backend/data-consistency/outbox-pattern/impl.ts:225-251 | what one poll gives the queue: in order, a message with the id and body of each such record that was not refused, up to the crash |
| Outbox.AllMarked | engineering/backend/data-consistency/outbox-pattern/impl.ts:265-268 | marking the ids collected publishes exactly the records whose publish returned |
| Outbox.OutboxWorker.Cleanup | engineering/backend/data-consistency/outbox-pattern/impl.ts:275-278 | deletes what was published before now minus the retention |
| Outbox.PublishedIsDelivered | engineering/backend/data-consistency/outbox-pattern/impl.ts:212-278 | in every run of writes, polls, crashes and cleanups, for a record marked published the queue has accepted a message with its id and body |
| Outbox.DeliveredWasWritten | engineering/backend/data-consistency/outbox-pattern/impl.ts:212-278 | in every such run all that the queue has accepted has the id and body of a record written |
| Outbox.PollProgress | engineering/backend/data-consistency/outbox-pattern/impl.ts:212-270 | an uncrashed poll lowers the backlog exactly when its batch has a record with a retry left, and otherwise changes nothing |
| Outbox.ProgressesExactly | engineering/backend/data-consistency/outbox-pattern/impl.ts:231-302 | polls that meet live records always progress if and only if maxRetries is at least 5 |
| Outbox.StuckReached | engineering/backend/data-consistency/outbox-pattern/impl.ts:212-302 | with a smaller maxRetries one write and the refused publishes of maxRetries polls lead to a live record that no further poll changes, however publishing turns out |
| Outbox.BacklogDrains | engineering/backend/data-consistency/outbox-pattern/impl.ts:212-304 | with maxRetries at least 5, as many polls as the backlog leave no live record, however publishing turns out |
| Outbox.HandledOnce | engineering/backend/data-consistency/outbox-pattern/impl.ts:366-374 | however often events are delivered, each id is handled exactly once |
| Outbox.EventConsumer.Consume | engineering/backend/data-consistency/outbox-pattern/impl.ts:359-374 | handles an event exactly when its id is new |
| Idempotency.IdempotencyKeyStore.Begin | engineering/backend/data-consistency/transaction-boundary/impl.ts:60-98 | each branch of execute up to the call of fn: cached response, conflict, wait, or a new run, also after a failure |
| Idempotency.IdempotencyKeyStore.Finish | engineering/backend/data-consistency/transaction-boundary/impl.ts:99-121 | the record, the owner and all waiters of the key get the outcome |
| Idempotency.IdempotencyKeyStore.NotifyWaiters | engineering/backend/data-consistency/transaction-boundary/impl.ts:172-179 | the key's list goes and everyone on it is told |
| Idempotency.IdempotencyKeyStore.Timeout | engineering/backend/data-consistency/transaction-boundary/impl.ts:146-170 | a waiting call whose timer goes off leaves its list and settles with the timeout |
| Idempotency.IdempotencyKeyStore.RemoveHandler | engineering/backend/data-consistency/transaction-boundary/impl.ts:181-194 | takes one handler off the list, and an empty list off the map |
| Idempotency.IdempotencyKeyStore.Cleanup | engineering/backend/data-consistency/transaction-boundary/impl.ts:127-137 | removes exactly the expired records and counts them |
| Idempotency.StepInv | engineering/backend/data-consistency/transaction-boundary/impl.ts:60-194 | every atomic step of overlapping calls keeps records, runs, waiters and promises consistent |
| Idempotency.ProcessingMeansOneRun | engineering/backend/data-consistency/transaction-boundary/impl.ts:75-97 | in every run a key's record says processing exactly when a run for it is in flight, and then exactly one is |
| Idempotency.SucceedsOnce | engineering/backend/data-consistency/transaction-boundary/impl.ts:60-121 | in every run at most one run per key succeeds until its record is cleaned up, and none is in flight meanwhile |
| Idempotency.SameValueForAll | engineering/backend/data-consistency/transaction-boundary/impl.ts:60-121 | without cleanups all calls of a key that return a value return the same one |
| Idempotency.LaterCallsAnswered | engineering/backend/data-consistency/transaction-boundary/impl.ts:68-72 | after a success a call gets that response at once and runs nothing |
| Idempotency.RejectedAtOnce | engineering/backend/data-consistency/transaction-boundary/impl.ts:74-79 | while a run of its key is in flight a call with reject gets the conflict at once; it joins no list and starts no run |
| Idempotency.WaitsForRun | engineering/backend/data-consistency/transaction-boundary/impl.ts:80-83 | and a call with wait is put last on the list of its key and starts no run |
| Idempotency.StartsOwnRun | engineering/backend/data-consistency/transaction-boundary/impl.ts:86-98 | with no record of the key, or that of a run that failed, a call starts exactly one run, its own, and the record says processing |
| Idempotency.FinishAnswers | engineering/backend/data-consistency/transaction-boundary/impl.ts:99-121 | when a run is over its owner and every call that waits for it have its outcome, success or failure, no other call is touched, and the list is gone |
| Idempotency.WaiterGetsOutcome | engineering/backend/data-consistency/transaction-boundary/impl.ts:80-121 | from every reachable state with a run in flight, a call that waits for it gets the run's outcome when it is over, whatever happens meanwhile but its timeout and a careless cleanup |
| Idempotency.EachCallSettlesOnce | engineering/backend/data-consistency/transaction-boundary/impl.ts:146-194 | over any run a call settles at most once, a waiting one by its timeout or with the outcome of the very run it waited for |
| Idempotency.CleanupKeepsExactly | engineering/backend/data-consistency/transaction-boundary/impl.ts:127-137 | a cleanup keeps the invariant if and only if it removes no record that says processing |
| Idempotency.CleanupSafeExactly | engineering/backend/data-consistency/transaction-boundary/impl.ts:127-137 | from every reachable state: after a cleanup no run with careful cleanups ever has two runs of a key in flight, if and only if it removes no record that says processing |
| Idempotency.CleanupInFlightBreaksIt | engineering/backend/data-consistency/transaction-boundary/impl.ts:60-137 | after any cleanup that removes such a record the next call of the key starts a second run beside the first |
| Saga.SagaOrchestrator.Execute | engineering/backend/data-consistency/saga-pattern/impl.ts:93-120 | lists, status, context and error after any execution, also a second one |
| Saga.SagaOrchestrator.Compensate | engineering/backend/data-consistency/saga-pattern/impl.ts:155-193 | compensation by name in reverse order, each name retried up to the limit, failures skipped |
| Saga.SagaOrchestrator.CompensateStep | engineering/backend/data-consistency/saga-pattern/impl.ts:165-183 | the compensation counts as done if and only if an attempt up to the limit works after all before it threw, each from the context that the one before left; the context is what that attempt leaves, or the last allowed one if all threw |
| Saga.AttemptsExactly | engineering/backend/data-consistency/saga-pattern/impl.ts:165-183 | the same of the retries as a function |
| Saga.ListedExactly | engineering/backend/data-consistency/saga-pattern/impl.ts:155-193 | whatever the steps and names, of the names completed, the last first, exactly those are listed as compensated for which such an attempt exists |
| Saga.ForwardExactly | engineering/backend/data-consistency/saga-pattern/impl.ts:93-112 | the steps are executed in order, each from the context that the one before left, until one throws |
| Saga.UndoRestores | engineering/backend/data-consistency/saga-pattern/impl.ts:155-183 | with distinct names and compensable steps, undoing the first n steps restores the context and lists them reversed |
| Saga.AllOrNothing | engineering/backend/data-consistency/saga-pattern/impl.ts:93-193 | with effect-free failures too, a failing saga ends failed, compensated the reverse of completed and the context restored; otherwise completed with all steps run in order |
| Saga.CallsOwnExactly | engineering/backend/data-consistency/saga-pattern/impl.ts:159-162 | each completed step has its own compensation called, last first, if and only if the completed steps' names are distinct |
| Saga.AttemptsRestore | engineering/backend/data-consistency/saga-pattern/impl.ts:165-183 | if some allowed attempt inverts the step and those before it have no effect, the retries restore the context |
| SlidingWindow.SlidingWindow.constructor | system-design/rate-limiter/implementation/local/window.go:23-34 | the limiter made for a limit and a duration |
| SlidingWindow.SlidingWindow.Allow | system-design/rate-limiter/implementation/local/window.go:45-75 | admits exactly when the buckets in the window plus the amount are within the limit, int64 wrap-around included, and what the buckets then are |
| SlidingWindow.SlidingWindow.Status | system-design/rate-limiter/implementation/local/window.go:78-96 | what is left of the limit, and the end of the current sub-window |
| SlidingWindow.StepSound | system-design/rate-limiter/implementation/local/window.go:45-75 | despite deletion of old buckets, each call leaves the buckets in agreement with the history of admissions and each admission within the limit |
| SlidingWindow.AtMostLimit | system-design/rate-limiter/implementation/local/window.go:40-75 | over any calls with a clock that does not go back and amounts neither negative nor too large for int64, a closed span of windowSize - subWindow + 1 milliseconds admits at most the limit |
| SlidingWindow.LimitHoldsExactly | system-design/rate-limiter/implementation/local/window.go:40-75 | that length is exact, for every positive limit below the largest int64: the limit holds for closed spans of a length if and only if it is no longer |
| SlidingWindow.TwiceLimitReached | system-design/rate-limiter/implementation/local/window.go:40-75 | for every longer span calls of 1 are given of which it admits twice the limit |
| SlidingWindow.AtMostTwiceLimit | system-design/rate-limiter/implementation/local/window.go:23-75 | a closed span of one window admits at most twice the limit |
| SlidingWindow.StatusPredictsAllow | system-design/rate-limiter/implementation/local/window.go:45-92 | an amount is admitted exactly when it is at most what Status reports as remaining |
| SlidingWindow.AmountsExactly | system-design/rate-limiter/implementation/local/window.go:45-75 | for spans of such a length and amounts between two bounds, the limit holds in every run if and only if the lower bound is not negative and the upper one added to the most such amounts can put into the window stays within int64; when an amount may be 1 that most is the limit |
| SlidingWindow.MostIsMost | system-design/rate-limiter/implementation/local/window.go:68-72 | no number of amounts between the bounds adds up to more than that within the limit |
| SlidingWindow.NegativeAmountMakesRoom | system-design/rate-limiter/implementation/local/window.go:68-72 | with a negative amount allowed, calls are given that exceed the limit in any window |
| SlidingWindow.HugeAmountWraps | system-design/rate-limiter/implementation/local/window.go:68-72 | with an amount that can leave int64, calls are given that fill the window and then have that amount admitted |
| CloneGraph.CloneGraph | algorithm/leetcode/problems/graph/133_CloneGraph.js:47-59 | ends on cyclic and shared graphs with fresh nodes, one for each node of the reachable part, with its value and the copies of its neighbours in order; the input is not changed |
| CloneGraph.Cloner.Dfs | algorithm/leetcode/problems/graph/133_CloneGraph.js:50-57 | returns the copy of n, completing all copies it starts |
| CloneGraph.HasReachablePart | algorithm/leetcode/problems/graph/133_CloneGraph.js:47-59 | a finite graph has a least closed part around a node |
| CloneGraph.LooksTheSame | algorithm/leetcode/problems/graph/133_CloneGraph.js:47-59 | no walk of any length can tell the copy from the original |
| TopologicalSort.TopologicalSort | language/python/standard-library/data_structures/topological_sort.py:18-46 | returns all keys and neighbours, each once, with every edge going forward, or an error exactly when the graph has a cycle; edges may be repeated |
| TopologicalSort.InDegrees | language/python/standard-library/data_structures/topological_sort.py:25-30 | the degrees count every edge, repeated ones too, and list every node once |
| TopologicalSort.Release | language/python/standard-library/data_structures/topological_sort.py:38-41 | takes the edges of one node off the degrees and enqueues exactly the neighbours that reach zero, once |
| TopologicalSort.OrderExcludesCycle | language/python/standard-library/data_structures/topological_sort.py:18-46 | a graph with such an order has no cycle |
| TopologicalSort.WalkBack | language/python/standard-library/data_structures/topological_sort.py:43-44 | nodes left over that each have a predecessor among them contain a cycle |
| TopologicalSort.LeftOver | language/python/standard-library/data_structures/topological_sort.py:43-44 | when the queue is empty and nodes are left, the graph has a cycle |
| GraphSearch.ShortestPath | language/python/standard-library/data_structures/graph_search.py:53-72 | returns a route from start to end that no other undercuts, and None exactly when there is none |
| GraphSearch.FoundShortest | language/python/standard-library/data_structures/graph_search.py:66-68 | the end found among the first entry's neighbours closes a shortest route |
| GraphSearch.ExpandedSound | language/python/standard-library/data_structures/graph_search.py:61-70 | every turn keeps the queue in layers and the paths genuine |
| GraphSearch.ExhaustedUnreachable | language/python/standard-library/data_structures/graph_search.py:72 | an empty queue means that the end cannot be reached |
| GraphSearch.Bfs | language/python/standard-library/data_structures/graph_search.py:22-34 | lists each reachable node once and no other, in the order of their distance from the start; what comes next is always the first new neighbour of the earliest node listed that has one |
| GraphSearch.SweepNext | language/python/standard-library/data_structures/graph_search.py:28-34 | every turn keeps what is listed sorted by distance, and no further than what waits |
| GraphSearch.Dfs | language/python/standard-library/data_structures/graph_search.py:37-50 | the explicit stack lists each reachable node once and no other, in the order of recursive depth-first search; what comes next is always the first new neighbour of the latest node listed that has one |
| GraphSearch.PreorderTraverses | language/python/standard-library/data_structures/graph_search.py:37-50 | recursive depth-first search lists each reachable node once and no other |
| GraphSearch.PreorderDepthFirst | language/python/standard-library/data_structures/graph_search.py:37-50 | recursive search has that order |
| GraphSearch.OneOrder | language/python/standard-library/data_structures/graph_search.py:22-50 | either rule admits one list of the reachable nodes only |
| GraphSearch.PreorderTurn | language/python/standard-library/data_structures/graph_search.py:43-50 | popping a node and pushing its unvisited neighbours leaves to be listed what recursion would list |
| LruCache.LRUCache.Get | language/python/standard-library/data_structures/lru_cache.py:42-47 | answers from the recency order and moves the pair to its front; links mirror each other, and the dictionary is exactly the list |
| LruCache.LRUCache.Put | language/python/standard-library/data_structures/lru_cache.py:49-62 | the pair goes to the front, and the last pair leaves a cache that would be too large |
| LruCache.LRUCache.AddToHead | language/python/standard-library/data_structures/lru_cache.py:76-81 | the node is linked in after the head sentinel, both ways |
| LruCache.LRUCache.Remove | language/python/standard-library/data_structures/lru_cache.py:83-86 | the node is linked out, both ways |
| LruCache.LRUCache.RemoveTail | language/python/standard-library/data_structures/lru_cache.py:92-96 | takes the node that is last in recency |
| LruCache.LRUCache.Keys | language/python/standard-library/data_structures/lru_cache.py:70-74 | iteration yields the keys in recency order |
| LruCache.LRUCache.Contains | language/python/standard-library/data_structures/lru_cache.py:64-65 | tells whether the key is cached |
| LruCache.NewCache | language/python/standard-library/data_structures/lru_cache.py:32-40 | refuses a capacity that is not positive, and otherwise makes an empty cache |
| LruCache.MapCache.Get | language/typescript/standard-library/data-structures/lruCache.ts:16-22 | answers and moves the entry to the end of the insertion order |
| LruCache.MapCache.Put | language/typescript/standard-library/data-structures/lruCache.ts:24-32 | the entry goes to the end, and at capacity the first key leaves for a new one |
| LruCache.NewMapCache | language/typescript/standard-library/data-structures/lruCache.ts:12-14 | refuses a capacity that is not positive, and otherwise makes an empty cache |
| LruCache.AgreeAfter | language/typescript/standard-library/data-structures/lruCache.ts:16-32 | every operation keeps the Map's order the reverse of the list's, with the same answer, although one evicts before and the other after inserting |
| LruCache.SameAnswers | language/typescript/standard-library/data-structures/lruCache.ts:16-40 | on every sequence of operations the two caches give the same answers |
| LruCache.RunBoth | language/typescript/standard-library/data-structures/lruCache.ts:12-40 | so do the two objects, run side by side from their creation on |
| LruCache.HoldsMostRecent | language/python/standard-library/data_structures/lru_cache.py:42-62 | after any operations the cache lists, latest use first, the keys used last, each with the value last put; a key once used is missing only from a full cache whose keys were all used later |
| LruCache.GetsLastPut | language/python/standard-library/data_structures/lru_cache.py:42-62 | a get answers with the value last put under the key if the cache still has it, and otherwise with nothing |
| TreeCodec.TreeToArray | algorithm/leetcode/problems/tree/226_InvertBinaryTree.js:46-63 | the queue-driven loop writes the level-order encoding without trailing nulls |
| TreeCodec.WritesLevels | algorithm/leetcode/problems/tree/226_InvertBinaryTree.js:46-63 | the array is the tree level by level, each from left to right, with a null for every child that a node does not have, up to the last value that is not null |
| TreeCodec.ArrayToTree | algorithm/leetcode/problems/tree/226_InvertBinaryTree.js:14-33 | the loop builds, from fresh nodes none of which occurs twice, the tree that the array decodes to |
| TreeCodec.RoundTrip | algorithm/leetcode/problems/tree/226_InvertBinaryTree.js:14-63 | decoding what was encoded gives the tree again, although null nodes write no children and trailing nulls are stripped |
| TreeCodec.RoundTripExactly | algorithm/leetcode/problems/tree/226_InvertBinaryTree.js:14-63 | it does so if and only if no value is null, but for a root that has a child |
| TreeCodec.WriteAndRead | algorithm/leetcode/problems/tree/226_InvertBinaryTree.js:14-63 | a tree of nodes written to an array and read back is a tree of fresh nodes with the same values if and only if it is such a one |
| TreeCodec.DecodeEncoded | algorithm/leetcode/problems/tree/226_InvertBinaryTree.js:19-31 | nodes waiting in the decoder's queue grow back from what the encoder writes below them |
| TreeCodec.DecodeStripped | algorithm/leetcode/problems/tree/226_InvertBinaryTree.js:60-61 | stripping trailing nulls does not change what is decoded |
| TreeCodec.InvertTree | algorithm/leetcode/problems/tree/226_InvertBinaryTree.js:36-43 | mirrors the tree in place with the same nodes |
| TreeCodec.MirrorValues | algorithm/leetcode/problems/tree/226_InvertBinaryTree.js:36-43 | the mirrored nodes carry the mirrored tree of values |
| TreeCodec.MirrorAt | algorithm/leetcode/problems/tree/226_InvertBinaryTree.js:36-43 | every path leads to what the path with left and right exchanged led to |
| HeapOrder.RootIsLeast | engineering/nodejs/runtime/event-loop-bootstrap/event-loop.js:43-45 | the first key of a heap is the least |
| HeapOrder.SwapUp | engineering/nodejs/runtime/event-loop-bootstrap/event-loop.js:73-80 | one exchange with the parent moves the only misplaced key up |
| HeapOrder.SwapDown | engineering/nodejs/runtime/event-loop-bootstrap/event-loop.js:82-94 | one exchange with the smaller child moves the only misplaced key down |

## Left out

- LockFreeQueue: the queue is modelled as values changed by atomic steps, not as a mutable object; a node's number is never reused, as garbage collection ensures while a thread holds a pointer.
- Redlock: the latency of a node is the time that passes between steps; times are reals, not floats.
- Redlock.RedlockAlone: the in-place code is proved for an attempt that nothing interleaves with; overlapping attempts are proved on the step machine, which uses the same functions for one node.
- Mvcc: threads; the store has no locking and the model is a sequence of calls.
- MiniScheduler: the bound of 128 on the channels, Stop, the panic handler, and the CancelFunc that scheduling returns; the sift loops are those of Go's container/heap, which is not part of the repository.
- MiniTaskQueue: the delay before a retry and stop(wait=False).
- EventLoop: callbacks that throw, and what callbacks do besides filling the two queues; the I/O, immediate and close phases, which call the drain after each callback.
- EventLoopTimers: that the loop of `_runTimers` ends, which it need not when callbacks set timers without delay while the clock stands still.
- Outbox: polls that overlap, other implementations of the store, the fields of an event beyond id and body; ids are distinct because the code draws them at random.
- Idempotency: the messages of errors, hashing of keys and the analysis of transaction boundaries.
- Saga: what a step that timed out does later, the pause between retries, the callbacks in the options and the dead-letter queue.
- SlidingWindow: int64 overflow other than that of total+n.
- CloneGraph: the conversions between graphs and adjacency lists in the same file.
- GraphSearch: generators; a traversal is the whole sequence it yields.
- LruCache: values of undefined in the Map version, which its get does not tell from a missing key.
- TreeCodec: undefined, which the code treats like null.
- The Raft, ZooKeeper-lock and write-ahead-log simulations, the HTTP router, the TypeScript scheduler and the token bucket are not modelled.
- User interfaces, web servers, database and queue clients, benchmarks and language-feature demonstrations: input, output and libraries that cannot be seen; and small array exercises, which would only add easy members.
