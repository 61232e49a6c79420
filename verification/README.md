# Verification of the edp event library

A Dafny model of an event-driven C library: a pool of worker threads with five priority queues
each, emitters whose events the workers run, an edge-triggered epoll layer, non-blocking sockets with a
write queue, a hash set with striped locks, and the intrusive list under all of them. The project proves
what each of these keeps over every interleaving, and, where the code does not do what its surroundings
rely on, the exact condition under which it does.

`dafny verify dfyconfig.toml` checks the whole project.

## How it is built

Two views are kept side by side.

* **Protocols** are transition systems on values. One action is one atomic access (a critical section, an
  unlocked counter read, the start or end of a handler, the result of a system call), `Exec` is any finite
  interleaving, and the main theorems quantify over all of them.
* **Code** that updates fields in place is a class or a set of heap methods with the source's fields,
  loops and branches. Its methods are proved to perform the steps of the protocol, so the theorems hold of
  them.

| files | part of the library |
|---|---|
| `Scheduler`, `SchedulerInvariants`, `SchedulerOrder`, `SchedulerFront`, `SchedulerProgress`, `SchedulerStages`, `SchedulerWitness` | one worker and its dispatchers (`src/worker.c`, `posix/edp_sys.h`) |
| `EventLists`, `Worker`, `Dispatcher` | the worker's lists on the heap, the worker and the pool as objects |
| `Emitter`, `EmitterProofs`, `EmitterStranded`, `EmitterCompletion`, `EmitterQuiescence`, `EmitterObject` | emitters over any number of workers (`src/emitter.c`, event cache of `posix/edpnet.c`) |
| `WriteQueue`, `WriteLedgers`, `Edpnet`, `ReadEdge` | the two directions of a socket (`posix/edpnet.c`) |
| `HashSet`, `HashTable`, `StripedLocks` | `src/hset.c`: the tables and the map, the linked chains, the locks |
| `FdRegistry`, `FdRaces`, `FdWatch`, `FdFrees`, `FdPatience`, `FdFailures`, `FdSequential`, `FdThreads` | the fd registry (`posix/eio-epoll.c`), one operation at a time and concurrently |
| `List` | `include/list.h` on the heap; the worker's lists and the chains of the hash set are instances of it |

## Which reading of the code

* The stage loops test `ev_type` against priority constants (`src/worker.c:153`, `:170`, `:193`). The model
  keeps that test. Conservation, wake-up, counters, NORM and IDLE order, termination, shutdown and the
  ratio need nothing more. Priority shape, preemption, CRIT order and the per-class handled counters hold
  for dispatches whose type and priority agree (`SchedulerOrder.Agrees`), and `StageFitsIff` shows that
  this is the exact condition: any other type and priority can be run by a wrong stage.
* `hset_add` passes the list arguments in the opposite order to `include/list.h`. `HashTable.Set.Add` is the
  declared order; `HashTable.Set.AddAsWritten` and `LinkedList.ListAddTailSwapped` are the call as written.
  `hs_items` is never updated after creation, so nothing rests on it.
* `ratio /= 5` truncates toward zero (`Scheduler.RatioDiv`).
* Spurious wake-ups of `pthread_cond_wait` are actions of the model.
* STOP does not signal the condition variable (`src/worker.c:401-420`). `ShutdownIff` states when a worker
  reaches its teardown all the same.
* The only live call of `sock_write_next` passes `drain == 1`, so WRITE is never cleared
  (`OnlyFirstWriteDirect`), and an EPOLLOUT event completes a current write with code 0 without sending it
  again. What is proved of writes is safety, not delivery.
* Calls of one socket are serialised on one worker, as the library's own test programs use it. The write
  side assumes it. The read side also has a second worker's handler, and `AnnouncedIff` says exactly when
  that one loses data.
* A delete that takes a record whose add is still at `epoll_ctl` can read it after the add has freed it, free
  it a second time, and unwatch a later registration. Records have names that are never reused; what a
  delete reads in a freed one is any worker. `FdFrees` and `FdWatch` have the exact conditions, up to the
  first use of a freed record, after which no claim is made. `FdPatience` has what a user does to avoid all
  of it, and that nothing less will do.
* An increment of ee_pendings that no decrement follows makes an emitter undestroyable. `EmitterStranded`
  names the two steps that leave one behind.
* A delete that `epoll_ctl` refuses has already taken the fd out of the table; its record is neither freed
  nor counted out. `FdRegistry` keeps it in `kept`.
* "Accepted before STOP" means that the enqueue came before the store of STOP.

## Model

| member | source | states |
|---|---|---|
| SchedulerInvariants.NoLostWakeup | src/worker.c:140-258 | in every interleaving, a worker asleep without a notification has only events queued whose dispatcher has not signalled yet, although signals merge into one bit |
| SchedulerInvariants.CoveredStep | posix/edp_sys.h:56-77 | each step keeps each queued event covered: signal up, queue still to be spliced before the next wait, or signal still to come |
| SchedulerInvariants.ExactlyOnce | src/worker.c:143-257 | in every run an accepted dispatch is in exactly one of queue, private list, running, finished, once; nothing else is anywhere |
| SchedulerInvariants.ConservedStep | src/worker.c:143-257 | no action loses, duplicates or invents an event, for any class of events counted |
| SchedulerInvariants.CountersExact | src/worker.c:337-340 | pending counters are the queue lengths whenever the lock is free; the handled counters sum to the finished events; events finish in the order they start |
| SchedulerInvariants.ShutdownDrain | src/worker.c:260-275 | at its teardown a worker has run every event accepted before STOP exactly once, whatever came later; with nothing after STOP, everything, and its queues are empty |
| SchedulerProgress.ShutdownIff | src/worker.c:401-420 | after a STOP the worker reaches its teardown if and only if it was not asleep without a signal |
| SchedulerProgress.StopWorks | src/worker.c:401-420 | the store of STOP takes effect whatever is queued and touches nothing else; the worker then reaches its teardown unless it is asleep |
| SchedulerProgress.WorkerProgress | src/worker.c:140-258 | each worker step decreases (events left, signal, phase, distance) lexicographically, so a pass with its backward jumps terminates |
| SchedulerProgress.Quiescence | src/worker.c:140-275 | without new dispatches the worker comes to rest with the private list empty; all queues are empty and each accepted event has run once if and only if the shutdown has not gone past an event dispatched after STOP |
| SchedulerProgress.RestReached | src/worker.c:140-275 | the worker alone always comes to the wait or its exit, keeping every invariant |
| SchedulerProgress.EmptyAtWait | src/worker.c:140-141 | in any run the private list is empty and nothing runs at every wait |
| SchedulerProgress.RatioBound | src/worker.c:213-233 | a NORM check that sees HIGH pending yields at once for high == 0; for high == 1 and ratio r >= 0 after exactly r events when it yields to HIGH and at most r otherwise; for r < 0 never, and only the rest of the private list runs |
| SchedulerProgress.RatioGrant | src/worker.c:185-189 | a HIGH stage with a batch of b events that is not preempted hands NORM the ratio b / 5, and high tells whether b was 0 |
| SchedulerStages.NormYieldsIff | src/worker.c:213-233 | exactly when NORM yields: at a check that sees HIGH pending k events after a NORM splice that left the ratio d, if and only if high was 0 or k is d + 1; entered with a ratio between -5 and 5, right after the first event |
| SchedulerStages.RatioTruncates | src/worker.c:213 | the division truncates toward zero for a ratio of either sign, and keeps high |
| SchedulerStages.NormLedgerRun | src/worker.c:214-232 | each turn of the NORM loop lowers the ratio by one and the private list by its event, whether or not HIGH is pending |
| SchedulerStages.RatioKept | src/worker.c:185-232 | no other step of the worker, and no other thread, touches ratio or high |
| SchedulerStages.IdleYields | src/worker.c:243-257 | with a HIGH (NORM) event counted pending the IDLE stage starts at most one more event in any interleaving, and none from a running handler or a read that has not passed the counter; from there the stage entered is that one or a higher |
| SchedulerStages.LeavesFor | src/worker.c:176-256 | after a handler of any stage, with q pending and nothing above it, the stage is left for exactly q, with no event started in between, in any interleaving |
| SchedulerStages.ShutdownLeavesFor | src/worker.c:264-273 | after the main loop the worker goes back to exactly the highest pending stage |
| SchedulerStages.HandledByStage | src/worker.c:157-247 | over every run each of the five handled counters is the number of handlers that returned in its own stage |
| SchedulerStages.IdleStartsEmpty | src/worker.c:214-241 | the NORM stage takes events of every type: at each splice of the IDLE queue the private list is empty |
| SchedulerStages.PriorityNumbers | include/edp.h:19-25 | the five priority numbers and their order; every other number is refused |
| SchedulerOrder.PriorityShape | src/worker.c:143-257 | in every agreeing run the private list is CRIT* EMRG* HIGH* (NORM or IDLE)*, capped by the stage, and a handler has the class of its stage |
| SchedulerOrder.HandledExact | src/worker.c:151-157 | in every agreeing run each handled counter is the number of finished events of its class |
| SchedulerOrder.FirstInFirstOut | src/worker.c:205-246 | NORM and IDLE events start in enqueue order across all preemptions, unconditionally; CRIT events do in agreeing runs |
| SchedulerOrder.FrontSpliceOrder | include/list.h:347-354 | an EMRG or HIGH splice keeps the order if and only if the leftovers or the new batch are empty |
| SchedulerFront.FrontOrderIff | src/worker.c:160-203 | over every run, for any priority: started, then private, then queued events are in enqueue order if and only if no splice of that queue in front found both a batch and leftovers; then the events start in that order |
| SchedulerOrder.PreemptionBound | src/worker.c:160-257 | with a CRIT (EMRG) event counted pending, from any program point at most one event below it starts before its stage, none while another stage's handler runs |
| SchedulerOrder.PreemptRun | src/worker.c:160-257 | the same bound read off each program point, kept along every interleaving that does not splice that queue |
| SchedulerWitness.StageFitsIff | src/worker.c:153-194 | an event is run in stages of its class in every run if and only if its type and priority agree |
| SchedulerWitness.FrontStagesReorder | src/worker.c:160-203 | EMRG and HIGH are not first-in first-out, even in agreeing runs |
| WorkerThread.Worker.constructor | src/worker.c:124-136 | a new worker is in the initial state |
| WorkerThread.Worker.StartsValid | src/worker.c:124-136 | where every invariant holds |
| WorkerThread.Worker.Accept | src/worker.c:301-340 | the locked region of a dispatch, or -ERANGE with nothing changed |
| WorkerThread.Worker.Signal | posix/edp_sys.h:56-67 | the coalescing signal by the holder of a ticket |
| WorkerThread.Worker.Dispatch | src/worker.c:301-344 | enqueue then signal; refused exactly for a priority out of range, changing nothing |
| WorkerThread.DeliveredIs | src/worker.c:337-344 | after a dispatch the event is at the back of the queue of its priority alone, the signal is up and a sleeping worker notified |
| WorkerThread.Worker.Wake | posix/edp_sys.h:69-77 | the return from the wait clears the signal and enters the CRIT stage |
| WorkerThread.Worker.SpliceQueue | src/worker.c:205-213 | one locked splice on the worker's list heads: which end of the private list, counter reset, ratio and high |
| WorkerThread.Worker.NextEvent | src/worker.c:191-196 | the head of a stage loop |
| WorkerThread.Worker.HandlerReturns | src/worker.c:196-200 | the end of a handler: counter of the stage, then the polls |
| WorkerThread.Worker.PollPending | src/worker.c:220-232 | one unlocked read of a pending counter and its jump |
| WorkerThread.Worker.PollAfterBreak | src/worker.c:264-275 | the same reads after the main loop |
| WorkerThread.Worker.Advance | src/worker.c:140-275 | the next step of the thread, keeping every invariant |
| WorkerThread.Worker.RunStage | src/worker.c:205-233 | a whole stage with its loop and jumps, other threads acting during each handler, is a run of the protocol and ends at a stage head or the loop head |
| EventLists.Lists.constructor | src/worker.c:81-93 | five empty queues and an empty private list, no node shared |
| EventLists.Lists.Append | src/worker.c:337-340 | list_add_tail links the node of the caller's event, which is in no list, at the back of its queue; the other lists keep their nodes |
| EventLists.Lists.TakeOver | src/worker.c:144-147 | list_splice_init or list_splice_tail_init: the private list is the concatenation at the stage's end, the queue is empty, the other lists are untouched |
| EventLists.Lists.First | src/worker.c:151-153 | the event at the head of the private list, through its node |
| EventLists.Lists.Pop | src/worker.c:155 | list_del of the first node leaves the rest in order; the node is the caller's again |
| WorkerThread.Worker.RunToRest | src/worker.c:140-275 | the main loop run alone terminates in the state that Quiescence describes |
| WorkerThread.Worker.Interleave | src/worker.c:124-345 | the objects' methods under any schedule produce exactly the run of that schedule |
| WorkerThread.ForeignKeeps | src/worker.c:124-133 | other threads never touch the private list, the running event, ratio or high |
| Dispatcher.EvenShares | src/worker.c:290-298 | over every run new events are spread over the workers evenly: two workers differ by at most one, and which one is ahead is known |
| Dispatcher.PickIs | src/worker.c:290-298 | an event below the round goes to the worker it has and leaves the round alone; any other goes to the next of the round, which moves on |
| Dispatcher.AffinityIff | src/worker.c:291-298 | the worker that a second dispatch is given after other new events: the same if and only if the round has not started over or has come to it again, and otherwise the one the round has come to |
| Dispatcher.Pool.Select | src/worker.c:290-300 | an event below the round keeps its worker, any other takes the round's; the event records it; the round moves only for the latter |
| Dispatcher.Pool.Dispatch | src/worker.c:280-345 | exactly the selected worker takes the event and is signalled; every other worker is unchanged; out of range nobody takes it |
| EmitterProofs.PendingsExact | src/emitter.c:103-119 | in every reachable state of any number of emitters and workers ee_pendings is calls in progress + events in flight + stranded increments, so events in flight never exceed it |
| EmitterProofs.DestroyIff | src/emitter.c:185-206 | emit_destroy succeeds if and only if no call is in progress, no event is in flight and no increment was stranded |
| EmitterProofs.FreedIsUnreferenced | src/emitter.c:185-206 | no scheduled event of any worker points to a freed emitter, then or later |
| EmitterProofs.RunningAlive | src/emitter.c:58-82 | the emitter of a handler before its decrement is not freed and counts it |
| EmitterProofs.BeginIs | src/emitter.c:87-117 | a dispatch to a live emitter adds one call and one to ee_pendings exactly for a type in range with a handler, whatever else is in flight, and otherwise gives the event back |
| EmitterProofs.DispatchArrives | src/emitter.c:87-120 | with a valid priority it is accepted, with its type, priority and emitter, at the back of one queue of the chosen worker and nowhere else, and that worker is signalled |
| EmitterStranded.StrandedStep | src/emitter.c:65-75 | a step strands an increment exactly when it is a hand-over with an invalid priority or the callback of an event without a handler; the number never falls |
| EmitterStranded.PendingsEqualIff | src/emitter.c:58-119 | over every run ee_pendings is calls in progress + events in flight + such steps of that emitter, so it equals the first two if and only if there was none |
| EmitterStranded.PendingsEqual | src/emitter.c:136-148 | equality when the users of the emitter remove no handler in flight and dispatch with valid priorities, whatever the users of others do |
| EmitterStranded.NothingStranded | src/emitter.c:65-75 | such users strand nothing: every call, scheduled event and running lookup of the emitter finds its handler |
| EmitterStranded.DestroyableIff | src/emitter.c:185-206 | after such a run emit_destroy succeeds if and only if nothing of the emitter is in progress or in flight; after any run, if and only if besides no step stranded an increment |
| EmitterCompletion.WorkersAreRuns | src/emitter.c:87-120 | composition: whatever emitters do, each worker goes through a run of the scheduler |
| EmitterCompletion.CompletedOnce | src/emitter.c:65-84 | an accepted dispatch has exactly one callback once its handler has come to it, on all three branches, and none before |
| EmitterCompletion.OnlyAcceptedCompleted | src/emitter.c:87-120 | every callback is for a dispatch that returned 0, and is its only one; a refused dispatch has none |
| EmitterCompletion.MemoryBalance | posix/edpnet.c:313-340 | mc_allocs - mc_frees is the calls in progress plus the events whose callback is still to come; with nothing scheduled every event is freed |
| EmitterQuiescence.SystemQuiescence | src/worker.c:140-275 | from any reachable state of the whole system with no call in progress and every dispatcher signalled, workers and handlers come to rest without a new dispatch; the system is settled then if and only if no shutdown had gone past an event dispatched after STOP, and settled means that every accepted dispatch has exactly one callback and allocations equal frees |
| EmitterQuiescence.SettledComplete | src/emitter.c:65-84 | however a run got there, a settled system has completed each accepted dispatch exactly once and freed every event |
| EmitterQuiescence.DriveProgress | src/worker.c:140-258 | each step of a worker or of the handler it runs decreases that worker's measure and leaves the other workers alone |
| EmitterObject.HandlerStepsDo | src/emitter.c:58-85 | the handler's atomic steps together make one callback, with -ERANGE, -ENOENT or the handler's value, and move nothing but that emitter's count |
| EmitterObject.Emit.constructor | src/emitter.c:150-183 | a new emitter has no handler and no pending event |
| EmitterObject.CheckIs | src/emitter.c:92-105 | which dispatches pass: handled type and initialised emitter, independent of ee_pendings |
| EmitterObject.Emit.Check | src/emitter.c:92-105 | -ERANGE exactly outside 0..15, -ENOENT exactly for a type in range without a handler, -EINVAL exactly for a handled one with ee_init 0, and 0 exactly otherwise |
| EmitterObject.Emit.Dispatch | src/emitter.c:87-120 | -ERANGE, -ENOENT, -EINVAL change nothing; an accepted event is with exactly one worker and counted; an invalid priority leaves the increment |
| EmitterObject.Emit.HandleEvent | src/emitter.c:58-85 | -ERANGE and -ENOENT with the count unchanged; with a handler, its own return value and one less |
| EmitterObject.Emit.AddHandler | src/emitter.c:122-134 | the type is handled afterwards exactly when it is in range |
| EmitterObject.Emit.RmvWatch | src/emitter.c:136-148 | the type is not handled afterwards |
| EmitterObject.Emit.Destroy | src/emitter.c:185-206 | -EINVAL with nothing changed while ee_pendings is not 0, freed otherwise |
| WriteQueue.WriteQueueSafety | posix/edpnet.c:169-257 | in every run, callbacks nested to any depth, submitted writes are completed, then current, then pending ones, in order; es_pendios is the queue length; no WRITE means nothing pending or current |
| WriteQueue.CompletionOrder | posix/edpnet.c:517-558 | the k-th callback is that of the k-th submitted write |
| WriteQueue.OnlyFirstWriteDirect | posix/edpnet.c:219-257 | WRITE is set from the first write on, for ever: only that write is tried by edpnet_sock_write itself |
| WriteQueue.SecondWriteStalls | posix/edpnet.c:543-555 | a later write can stay queued on a socket at rest with no event on its way |
| WriteQueue.WritableButStalled | posix/edpnet.c:236-244 | so can one queued behind a write that blocked: the EPOLLOUT event completes the blocked write and starts nothing |
| WriteQueue.StallsIff | posix/edpnet.c:169-257 | a step of any kind leaves writes behind with no EPOLLOUT event, its own or the kernel's, on its way if and only if none is scheduled and it is one of three: a write between handlers while WRITE is set, the last return of a callback with writes pending, a self-dispatch that failed with writes pending |
| WriteQueue.NeverStalledIff | posix/edpnet.c:517-558 | over every run, writes are never left behind if and only if no step is one of these |
| WriteLedgers.OneAttemptEach | posix/edpnet.c:532-544 | over every run each direct write the kernel answers, failed or successful, is followed by exactly one attempt to dispatch EPOLLOUT to the socket, after its callback has returned |
| WriteLedgers.RunTallied | posix/edpnet.c:219-311 | over every run the EPOLLOUT events on their way, CONNECT (set by EPOLLOUT, cleared by EPOLLHUP), the code of each completion and the calls of es_cbs are exactly those the steps call for |
| Edpnet.Socket.Submit | posix/edpnet.c:526-555 | current write or back of the queue |
| Edpnet.Socket.RunUser | posix/edpnet.c:517-558 | arbitrary user code, writes in it tried at once with callbacks of their own: it is a run, keeps the order of completions, and while WRITE is set only queues |
| Edpnet.Socket.SockWrite | posix/edpnet.c:517-558 | result and completions of edpnet_sock_write with the code its callback runs; an EPOLLOUT event is added exactly after a direct write that did not block, failed ones included; what it does is a run |
| Edpnet.Socket.SockWriteNext | posix/edpnet.c:169-217 | pending writes complete in order with the kernel's results until one would block or none is left; WRITE survives exactly if drain or blocked |
| Edpnet.Socket.Edge | posix/edpnet.c:342-349 | the epoll thread schedules an EPOLLOUT event at any time |
| Edpnet.Socket.EpollOut | posix/edpnet.c:219-257 | the branches with the user callback they end with: connected; current write completed with 0; pending writes completed in order with the kernel's results until one blocks or none is left |
| Edpnet.Socket.EpollHup | posix/edpnet.c:296-311 | CONNECT is cleared and the callback called; current and pending writes stay |
| Edpnet.Socket.RunCallback | posix/edpnet.c:198-203 | a user callback runs its code and returns to the frame below it |
| ReadEdge.AnnouncedIff | posix/edpnet.c:259-281 | a step of any kind, on either of two workers, keeps unread data announced if and only if it is none of three: the last edge could not be dispatched, a read failed although there is data and nothing on its way, a second worker consumed the last event between a failed read and its clearing of READ |
| ReadEdge.AlwaysAnnouncedIff | posix/edpnet.c:560-601 | over every run, EPOLLIN reports with and without new bytes, unread data is announced at every moment if and only if no step is one of these |
| ReadEdge.NoLostEdge | posix/edpnet.c:259-281 | in every such run, second worker included, unread data implies READ set or an EPOLLIN event on its way, also while a failed read is about to clear READ |
| ReadEdge.SerialisedLosesNothing | posix/edpnet.c:319-340 | one serialised worker, memory for each event and a negative read that means no data exclude all three |
| ReadEdge.ReadyCallsBounded | posix/edpnet.c:560-601 | calls of data_ready are at most one more than failed reads, in every run, end of stream and second worker included, whatever the kernel returns |
| ReadEdge.RunTallied | posix/edpnet.c:259-281 | over every run the EPOLLIN events on their way, READ, the calls of data_ready and the unread bytes are exactly those the steps make |
| ReadEdge.EdgeKeepsIff | posix/edpnet.c:325-329 | an edge that cannot be dispatched for want of memory loses data if and only if nothing else announces it |
| ReadEdge.FailedReadKeepsIff | posix/edpnet.c:588-594 | a failed read loses data if and only if data is there and no event is on its way |
| ReadEdge.HandlerElsewhereKeepsIff | posix/edpnet.c:268-274 | the handler on a second worker loses data if and only if it consumes the last event while a failed read is about to clear READ |
| ReadEdge.LostOnTwoWorkers | posix/edpnet.c:259-281 | a run in which that happens: data lies unread, unannounced |
| ReadEdge.Reader.EpollIn | posix/edpnet.c:259-281 | data_ready is called exactly when READ was clear |
| ReadEdge.Reader.SockRead | posix/edpnet.c:560-601 | with other threads between the test of READ, the kernel's answer and the clearing: the kernel is asked only with READ set; a negative result clears READ |
| ReadEdge.Reader.Elsewhere | posix/edpnet.c:259-281 | what the kernel, the epoll thread and a second worker's handler do meanwhile is the run of their actions |
| HashSet.SetRefinesMap | src/hset.c:96-172 | any sequence of add, del and get returns what a map from hash to entry would |
| HashSet.AddRefines | src/hset.c:96-122 | an absent hash is inserted, a present one refused; bucket placement and uniqueness are kept; other keys untouched |
| HashSet.DelRefines | src/hset.c:124-147 | a present hash is removed and nothing else |
| HashSet.GetRefines | src/hset.c:149-172 | the entry the map holds, if any |
| HashSet.AsWrittenIff | src/hset.c:115-118 | as written, adding an absent hash is the map's insertion if and only if its bucket was empty |
| HashSet.WrittenRunIff | src/hset.c:96-172 | over every run as written the table represents the map throughout if and only if no absent hash was added to a bucket that is not empty |
| HashSet.SecondAddLosesFirst | src/hset.c:115-118 | an input that fails: two hashes of one bucket of a new set, and get no longer finds the first |
| HashTable.Set.constructor | src/hset.c:32-67 | one empty ring per bucket; a new set represents the empty map |
| HashTable.Set.Lookup | src/hset.c:109-114 | the walk along the linked nodes of a chain finds the node of the first entry with the hash, or tells there is none |
| HashTable.Set.Add | src/hset.c:96-122 | hset_add of the caller's entry in the declared order, on the linked chains; the other chains keep their nodes |
| HashTable.Set.AddAsWritten | src/hset.c:115-118 | hset_add in the written order, on the linked chains |
| HashTable.Set.Del | src/hset.c:124-147 | hset_del unlinks the node, which is the caller's again |
| HashTable.Set.Get | src/hset.c:149-172 | hset_get on the linked chains |
| StripedLocks.StripesMatchIff | include/hset.h:17 | all hashes of each bucket share a lock if and only if 16 divides the table size |
| StripedLocks.StripedLockingIff | src/hset.c:105-108 | no run of two or more threads ever has two inside one bucket, if and only if 16 divides the table size |
| StripedLocks.FdTableExclusive | posix/eio-epoll.c:262 | operations on the fd table, of size 32, never interleave inside a bucket |
| FdRegistry.EioData.constructor | posix/eio-epoll.c:262 | an empty registry balances |
| FdRegistry.EioData.LightLoad | posix/eio-epoll.c:67-77 | workers in turn |
| FdRegistry.EioData.AddFd | posix/eio-epoll.c:80-126 | the fd is registered, watched and counted exactly when 0 is returned; every failure leaves table, counts and live records as they were |
| FdRegistry.EioData.DelFd | posix/eio-epoll.c:129-157 | the fd leaves the table in any case; its record is freed and counted out exactly when epoll_ctl succeeds |
| FdSequential.AddSucceeds | posix/eio-epoll.c:80-126 | the steps of an undisturbed add register, watch and count the fd |
| FdSequential.AddRefused | posix/eio-epoll.c:100-107 | for a registered fd they give the record back and change nothing else |
| FdSequential.AddRolledBack | posix/eio-epoll.c:112-122 | when epoll refuses they undo everything |
| FdSequential.DeleteSucceeds | posix/eio-epoll.c:129-157 | the steps of an undisturbed delete take out, unwatch, count out and free the fd's record |
| FdSequential.DeleteUndoesAdd | posix/eio-epoll.c:80-157 | a delete undoes an add: table, watches and counts are as before |
| FdRaces.CountsMatchCache | posix/eio-epoll.c:80-157 | in every interleaving with arbitrary epoll results the counts sum to mc_allocs - mc_frees at operation boundaries |
| FdRaces.AccountsRun | posix/mcache.c:68-89 | and in between they differ by exactly the records that operations in progress hold uncounted |
| FdRaces.DeletedOnce | posix/eio-epoll.c:129-157 | racing deletes of one fd take its record at most once, and deletes free it at most once |
| FdFrees.FreedOnceIff | posix/eio-epoll.c:80-157 | over every run, frees by adds and by deletes together: at operation boundaries no record was freed twice or read after its free if and only if no step was a clash or a late answer; without these it holds at every moment |
| FdFrees.SingleStepIff | posix/eio-epoll.c:108-153 | a step keeps every record at one free, done and to come, if and only if it is no clash; and reads and frees no freed record besides if and only if no delete comes to its epoll_ctl with a freed record |
| FdFrees.ClashIs | posix/eio-epoll.c:111-153 | in every reachable state a clash is exactly one of two: a delete whose record's add is or was rolled back and whose epoll_ctl succeeds, or an add whose epoll_ctl fails while a delete of its record is past its own, or done |
| FdPatience.PatientRun | posix/eio-epoll.c:80-157 | users who delete an fd only after its add is through epoll_ctl get all of it, in every interleaving with arbitrary epoll results: no record freed twice or read after its free, every registered fd watched |
| FdPatience.EarlyTakeHarms | posix/eio-epoll.c:111-147 | and nothing less will do: after any single delete that takes its record earlier, the run can go on so that the delete reads a freed record |
| FdFailures.FreedRecordUsed | posix/eio-epoll.c:120-147 | otherwise not: without any clash a delete comes to hold a freed record, reads in it the worker of a newer registration, the same or another, and takes away its watch |
| FdFailures.FreedTwice | posix/eio-epoll.c:108-157 | and that run ends with the record freed by the add and by the delete |
| FdThreads.Shared.AddFd | posix/eio-epoll.c:80-126 | eio_addfd with other threads between its steps: all together is a run, and its own steps are exactly those of what it returns |
| FdThreads.Shared.DelFd | posix/eio-epoll.c:129-157 | eio_delfd with other threads between its steps, the epoll_ctl, the count and the free included, likewise |
| FdThreads.Shared.Interleave | posix/eio-epoll.c:80-157 | the steps on the shared object, under any schedule, produce the run of that schedule |
| FdThreads.ForeignKeeps | posix/eio-epoll.c:80-92 | other threads never touch what an operation keeps in its local variables |
| FdWatch.WatchStepIff | posix/eio-epoll.c:146-150 | a step keeps every registered fd watched by its worker if and only if it is not a delete of an older record of that fd in which it reads that worker, freed records reading as any worker |
| FdWatch.AlwaysWatchedIff | posix/eio-epoll.c:80-157 | over every run each fd whose add is over is watched at every moment if and only if no step is such a delete |
| FdWatch.WatchedAtBoundary | posix/eio-epoll.c:80-157 | in every interleaving without such a delete, and without use of a freed record, each fd in the table is watched by its recorded worker at operation boundaries |
| FdFailures.RegisteredButUnwatched | posix/eio-epoll.c:108-157 | otherwise it fails: a run that ends with an fd registered, on whichever worker, and watched by nobody |
| LinkedList.InitListHead | include/list.h:53-57 | an empty list |
| LinkedList.ListEmpty | include/list.h:215-218 | tells the empty list |
| LinkedList.ListIsSingular | include/list.h:257-260 | tells the list of one entry |
| LinkedList.ListAdd | include/list.h:89-92 | the entry goes to the front |
| LinkedList.ListAddTail | include/list.h:103-106 | the entry goes to the back |
| LinkedList.ListAddTailSwapped | src/hset.c:116-117 | with the arguments exchanged the bucket is left with the new entry alone |
| LinkedList.ListDel | include/list.h:133-138 | the entry leaves, the others keep their order, its links are poisoned |
| LinkedList.ListDelInit | include/list.h:171-175 | the entry leaves and is an empty list itself |
| LinkedList.ListMove | include/list.h:182-186 | from one list to the front of another |
| LinkedList.ListMoveTail | include/list.h:193-198 | from one list to the back of another |
| LinkedList.ListMoveWithin | include/list.h:182-186 | the same to the front of its own list |
| LinkedList.ListMoveTailWithin | include/list.h:193-198 | and to its back |
| LinkedList.ListRotateLeft | include/list.h:243-251 | the first entry becomes the last |
| LinkedList.ListReplaceEntry | include/list.h:151-158 | the new entry stands where the old one stood |
| LinkedList.ListReplaceInit | include/list.h:160-165 | the entries hang on the new head, the old head is empty |
| LinkedList.ListSplice | include/list.h:321-326 | concatenation in front; the source head keeps its links |
| LinkedList.ListSpliceTail | include/list.h:333-338 | concatenation behind; the source head keeps its links |
| LinkedList.ListSpliceInit | include/list.h:347-354 | concatenation in front, the source list is empty |
| LinkedList.ListSpliceTailInit | include/list.h:364-371 | concatenation behind, the source list is empty |
| LinkedList.ListCutPosition | include/list.h:288-300 | prefix and suffix of the old list; on an empty list nothing is touched |
| LinkedList.SpliceThenCut | include/list.h:262-354 | cutting at the last spliced entry undoes a splice at the head |
| LinkedList.DrainSafe | include/list.h:426-428 | the safe traversal with deletion visits each entry once in order and empties the list |

## Left out

- Real sockets, epoll, `connect`, `accept`, `listen`, addresses and IPv6: their results are parameters or actions.
- Socket and server creation and destruction, and the accepted-socket path of `serv_worker_cb`: they add calls of what is modelled.
- The logger, the start-up order of `edp_init`, thread creation and its rollback, `worker_fini_tls` beyond its status.
- `__spi_convar_timedwait`: used at start-up only.
- Memory ordering: unlocked counter reads are sequentially consistent.
- Wrap-around of 64-bit counters, of `iod_round` and of `short` event types: integers are unbounded.
- `hlist_*` of `include/list.h`: unused by the library.
- Malloc and alignment: the event caches are their allocation counters.
- The three checks of `emit_dispatch` and its increment are one step; a destroy between them, which the library leaves to its caller, is not modelled.
- Delivery of writes and of wake-ups by the operating system: safety is proved, and termination of the worker itself.
- `worker_fini` frees the array of workers right after the store of STOP, without a join (`src/worker.c:412-416`): what is proved of the shutdown assumes that a worker's memory lasts until its teardown.
- The record that epoll hands back with an event (`ev.data.ptr`), and the epoll threads' use of it: a watch is a pair of worker and fd.
- Edpnet.Socket.Submit: the write queue is a sequence; the pointer operations behind it are `LinkedList.ListAddTail` and `LinkedList.ListDel`.
- Edpnet.Socket.RunUser: user code is a finite tree of writes with their callbacks; other calls it may make do not concern the socket.
- FdRegistry.EioData.AddFd: one operation at a time, with all its results; `FdThreads.Shared.AddFd` has other threads between its steps.
- FdRegistry.EioData.DelFd: the same; `FdThreads.Shared.DelFd` has the interleavings.
- FdRaces.DeletedOnce: counts frees made by deletes; `FdFrees.FreedOnceIff` counts all of them.
- EmitterObject.Emit.Dispatch: runs without another thread in between; `EmitterLifetime` interleaves the increment, the hand-over and the signal.
- HashTable.Set.Add: hashes are not bounded to 32 bits, which only widens the statement; the negative return is -1.
