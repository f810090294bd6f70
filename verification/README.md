# Verification of a small teaching kernel

Dafny models and proofs for the process-management core of a 32-bit x86 teaching kernel: the sleep
delta queue, the dispatcher with its ready queue, pid allocation, signals, the free-list memory
manager and blocking messages.

Each component has two layers. The code layer keeps the C code's own form: classes whose methods
update tables, list heads and headers in place, with the loops the source has. The abstract layer
is a state machine on values. Every method is proved to take the abstract state where the state
machine says, and the theorems about whole runs are proved on the state machine.

| component | abstract layer | code layer |
|---|---|---|
| sleep queue (c/sleep.c) | `DeltaQueue`, `AlarmClock`, `SleepRefinement`, `SleepTiming`, `SleepDelay`, `SleepRuns` | `Wiring`, `Dispatcher` |
| dispatcher, ready queue, kill (c/disp.c) | `KernelModel`, `KernelSafety`, `KernelProgress`, `KernelFacts`, `KernelEffects` | `Wiring`, `Dispatcher` |
| pids (c/create.c) | `Pids` | `Dispatcher` |
| signals (c/signal.c) | `Signals`, `SignalRuns` | `Dispatcher` |
| memory manager (c/mem.c) | `FreeList`, `Tiling` | `HeaderLinks`, `Coalescing`, `SecondFree`, `Allocator` |
| messages (c/msg.c) | `MessageModel`, `MessageSafety`, `MessageEffects` | `SenderQueues`, `Messenger` |

`Machine` writes out the 32-bit conversions, `Sequences` the lists of process indices. `dafny verify dfyconfig.toml` checks everything.

## Modelling decisions

- A `pcb *` is an index into the process table, so two lists threaded through one `next` field can
  collide exactly as in C; that they do not is proved (`Wiring`, `KernelSafety`). A header pointer is
  an address, and raw memory is a map from addresses to headers.
- A context switch is the arrival of the next request of the running process (`KernelModel.Request`).
  The results of calls outside the model (the stack returned by `kmalloc` in `create`, the range
  check on a signal handler's address) are parameters of the request.
- The stack pointer that a context switch saves is not a parameter of the request: along dispatcher
  runs `esp` is the one that `create`, `signal` and sigreturn set last. `Signals` allows user code to
  move it.
- Signed overflow wraps around: that a queue whose head ran out wakes again after 2^32 ticks rests on
  it.
- `sleepdiff`, the tick count and the pid counter use 32-bit arithmetic: unsigned comparison where C
  compares an `int` with an `unsigned int`, and wrap-around of the pid counter. Stack pointers, CPU
  times and message counts are unbounded integers.
- `sigmask` is the set of its bit positions that are 1. Signal frames on the user stack are a
  sequence, one record of three values each.
- The state of the running process is READY: the source never stores RUNNING.
- `next` on an empty ready queue loops forever in the source; here nobody runs from then on.

## Where the code and its intent differ

Lines kept as written, with the exact condition for the intended property:

- Sleeps of 1 to 9 ms become 0 ticks. The head of the queue then counts down from 0 and is woken
  2^32 ticks late. Who is late, exactly: `SleepDelay.OnTimeIff` for every queue,
  `SleepDelay.SleepEndsOnTimeIff` and `SleepDelay.ShortSleepHoldsUpIff` for a call of sleep,
  `SleepRefinement.RunRefinesIff` for whole runs. The condition on runs is that no tick finds the
  head's difference run out, "no tick is stuck" below; in terms of the calls that is
  `SleepTiming.NeverStuckIff`.
- The time reported for a killed sleeper sums the head and the target only:
  `SleepDelay.KillInSleepIsExactIff`.
- Signal 31 takes its target off the ready queue but leaves it READY: `KernelFacts.StepAccountedIff`,
  `KernelFacts.RunAccountedIff` and `KernelFacts.LostForever`.
- SYS_STOP releases no waiter; a wait ends by a kill only: `KernelFacts.WaitEndsIff`.
- The loop that should clear a mask bit on return from a signal starts from a negative `int`, so
  it never runs: `Signals.ReturnAsWrittenIff`. Each signal is delivered at most once:
  `Signals.MarkedIsFinal`, `Signals.FirstSendDecides`.
- A new pid of 2^32 - 1 is reported as CREATE_FAILURE: `Pids.CreateSucceedsIff`.

Lines repaired in the model, with what the line as written does:

- c/disp.c:342-345 makes a sleeping target ready without taking it off the sleep queue. The model
  takes it off first. As written, no kernel state is represented afterwards exactly when the target
  sleeps: `Dispatcher.System.UnblockAsWritten`. The branch at c/disp.c:351 is dead either way.
- c/mem.c:147 keeps the header's bytes in the remainder of a split: `Tiling.SplitAsWrittenBreaksTiling`.
- c/mem.c:142 wraps for the request 0xFFFFFFF0: `Tiling.MallocAsWrittenIff`, `Tiling.WrappedRequest`.
- c/mem.c:158, 188, 196 move `memSlot` off the lowest block: `Tiling.MemSlotAsWritten`.
- c/mem.c:241, 254, 259 and 276 (null pointer, empty list, scaled pointer sums):
  `Tiling.FreeAsWrittenIff`, `Tiling.NullWrittenIff`.
- c/msg.c:17-19 groups the test so that a stale -1 matches: `MessageSafety.SendAsWrittenIff`,
  `MessageSafety.StaleIsReached`.
- c/msg.c:75, 81, 117 leave `senderNext` set: `SenderQueues.EnqueueAsWrittenIff`,
  `SenderQueues.ResendAsWrittenIff`, `SenderQueues.StaleLinkIsReached`, `SenderQueues.StaleHeadIsReached`.
- c/msg.c:114 assigns the sender's pid to a parameter only; `RecvAny` returns it.

## Model

| member | source | states |
|---|---|---|
| `SleepRefinement.InsertTracks` | c/sleep.c:46-83 | insertion by 32-bit differences gives every sleeper its absolute due time and puts the new one behind all that are due no later |
| `SleepRefinement.RemoveTracks` | c/sleep.c:88-128 | on bounded queues, without negative differences, removal leaves the due times of all other sleepers unchanged |
| `SleepRefinement.TickTracks` | c/sleep.c:139-158 | one tick wakes exactly the sleepers due now, in the order they went to sleep, and nobody else moves |
| `SleepRefinement.RunRefines` | c/sleep.c:33-158 | over every run without a stuck tick the queue wakes the same processes at the same ticks in the same order as a plain list of alarms |
| `SleepRefinement.RunRefinesIff` | c/sleep.c:33-158 | for every run of the source, lengths of 1..9 ms included: the wakes agree with the list of alarms if and only if no tick is stuck |
| `SleepTiming.WakesWhenDue` | c/sleep.c:139-158 | a sleeper that is not removed is on the queue before its due tick and is woken at it, in every run without a stuck tick |
| `SleepTiming.SleeperWakesOnTime` | c/sleep.c:33-158 | after sleep(len), len >= 10, a process not removed is woken on exactly the (len/10)-th tick, whatever else happens, as long as no tick is stuck |
| `SleepTiming.WakeOrderIsStable` | c/sleep.c:54-77 | over every run without a stuck tick the wake log is sorted by deadline, and for equal deadlines by the order of the calls |
| `SleepTiming.ReachableQueuesAreBounded` | c/sleep.c:46-113 | in every queue reached without a stuck tick no difference is negative and no prefix sum exceeds (2^32-1)/10, so no sum leaves a signed int; the head difference is positive if and only if nobody on the queue is due already |
| `SleepDelay.WakesExactlyAt` | c/sleep.c:139-158 | on every queue of 32-bit differences, left to itself: a sleeper has been woken by the n-th tick if and only if n is at least its wake tick |
| `SleepDelay.OnTimeIff` | c/sleep.c:139-158 | the wake tick is the sum of the differences if and only if the head's has not run out and none up to the sleeper's own is negative; otherwise it is at least 2^32 later |
| `SleepDelay.InsertWakeTick` | c/sleep.c:46-83 | what one insertion does to the wake tick of the new sleeper and of every other, on every queue |
| `SleepDelay.SleepEndsOnTimeIff` | c/sleep.c:39-57 | on every queue a sleep of at least 1 ms ends after exactly len/10 ticks if and only if it is at least 10 ms and the head's difference is not 0, and 2^32 ticks later otherwise |
| `SleepDelay.ShortSleepHoldsUpIff` | c/sleep.c:39-57 | a call holds up everyone else on the queue, by 2^32 ticks, if and only if it is shorter than 10 ms and the head's difference is not 0 |
| `SleepDelay.WakesOnTimeOrTurnsLater` | c/sleep.c:33-158 | over every run of the source, stuck ticks included: a process not removed is woken on the (len/10)-th tick or a whole number of 2^32 ticks later, at least one for a sleep of 1..9 ms |
| `SleepRuns.RunIsReplay` | c/disp.c:42-90 | in every run of the dispatcher the sleep queue is the one that the sleep, kill and timer requests alone produce |
| `SleepRuns.DispatcherWakesOnTimeIff` | c/disp.c:80-90 | so the refinement, the wake order and the bounds hold of dispatcher runs |
| `SleepTiming.NeverStuckIff` | c/sleep.c:33-158 | in a run from boot no tick is stuck if and only if every process that sleeps 1..9 ms is taken off the queue again before the next tick |
| `SleepDelay.RemoveWakeTick` | c/sleep.c:88-128 | what one removal does to the wake tick of every other sleeper, on every queue: nothing, or 2^32 sooner for those behind; never later |
| `SleepDelay.KillInSleepIsExactIff` | c/sleep.c:130-137 | on every queue the reported time is the time that the target would still have slept if and only if it is on time, all differences strictly between head and target are 0 and the value fits an int; it never overstates |
| `SleepRuns.DispatcherQueues` | c/disp.c:42-90 | every sleep queue that the dispatcher reaches is one of those: no duplicates, and every difference an int |
| `Signals.NestedRun` | c/signal.c:12-37 | in every run saved levels rise strictly up the stack and stay below the current level, and bit 31 stays clear |
| `Signals.DepthBound` | h/xeroskernel.h:164-190 | at most 30 frames, hence at most 30*(24+44) bytes pushed |
| `Signals.DeliveryThenReturnRestores` | c/disp.c:110-128 | a delivery, any nested activity and the matching return restore esp, ret, level and frames exactly |
| `Signals.FramesNeverOverlap` | c/signal.c:19-37 | over every run in which handlers leave the stack pointer below the newest frame, the 68 bytes of no two frames overlap, and the stack pointer is below them all |
| `Signals.LoopNeverRuns` | c/disp.c:115-116 | the loop starts at -2^31 and leaves the mask alone |
| `Signals.ClearsHighest` | c/disp.c:115-123 | started at bit n, the loop clears exactly the highest marked bit in 1..n |
| `Signals.ReturnAsWrittenIff` | c/disp.c:115-123 | sigreturn as written leaves the mask that an unsigned loop would leave if and only if no bit above 0 is marked |
| `Signals.UnsignedLoopUnmarksIff` | c/disp.c:115-123 | the unsigned loop undoes the marking of a delivery if and only if no higher signal was marked |
| `Signals.EachClearsItsOwnIff` | c/disp.c:110-128 | over every run with an unsigned loop each return clears the bit of its own signal if and only if no return finds a higher signal marked |
| `Signals.WrongBitIsReached` | c/disp.c:110-128 | 5 interrupts 2 and 4 is marked meanwhile: the return of 2 then clears 4 |
| `Signals.MarkedIsFinal` | c/disp.c:115-123 | a marked signal stays marked and is never delivered again |
| `Signals.DeliveredAtMostOnce` | c/disp.c:332-335 | in every run each signal is delivered at most once to a slot |
| `Signals.FirstSendDecides` | c/signal.c:13-17 | the first effective kill delivers if and only if the signal's number exceeds the current level; later ones never do |
| `Signals.SentEffect` | c/signal.c:13-37 | mask, level, stack pointer and frames after a signal, with and without a handler |
| `Signals.RegisteredEffect` | c/disp.c:94-109 | registering changes one entry of the table and the answer |
| `Signals.RegisteredIsDelivered` | c/disp.c:107-107 | a registered handler is called by the next signal of its number above the level |
| `Signals.LastRegistrationCounts` | c/disp.c:105-107 | a second registration answers with the first handler and replaces it; handler 0 makes the signal ignored |
| `KernelSafety.TurnInv` | c/disp.c:42-144 | every turn of the dispatcher keeps: no process on two queues or twice on one, members carry the state of their queue, the running process is on neither, pids sit in their slots |
| `KernelSafety.TimerSettled` | c/disp.c:86-90 | a timer interrupt queues the woken processes in order and then the preempted one |
| `KernelSafety.FallAsleepSettled` | c/disp.c:80-84 | putting the running process to sleep keeps both queues duplicate-free and apart |
| `KernelProgress.ReleaseEffect` | c/disp.c:354-360 | the release loop appends exactly the waiters in slot order and changes no other process |
| `KernelProgress.KillEffect` | c/disp.c:321-364 | what a kill does to the queues, to its target's state and pid, and to every other process; the target's context is `KernelEffects.KillTarget` |
| `KernelProgress.BoundedWaiting` | c/disp.c:205-242 | a process at position i of the ready queue has the processor by the (i+1)-th later call of next, unless signal 31 evicts it |
| `KernelProgress.WaitsLessThanMaxProc` | c/disp.c:205-242 | hence within MAX_PROC - 1 calls |
| `KernelProgress.NeverHangs` | c/init.c:20-26 | with an idle process that only yields and is never sent 31, next never meets an empty queue in any run |
| `KernelProgress.SleeperCountsDown` | c/sleep.c:139-158 | in every dispatcher run without a stuck tick a sleeper's remaining time falls by one a timer interrupt and by nothing else |
| `KernelProgress.SleeperGetsTheProcessor` | c/disp.c:80-93 | if no tick is stuck, a sleeper with n ticks left is ready after exactly the n-th timer interrupt and runs within MAX_PROC - 1 further selections |
| `KernelFacts.KillReady` | c/disp.c:337-361 | exactly who is on the ready queue after a kill |
| `KernelFacts.StepAccountedIff` | c/disp.c:348-350 | every READY process stays running or queued if and only if the step is not a signal 31 to a live process other than the caller |
| `KernelFacts.RunAccountedIff` | c/disp.c:348-350 | over every run every READY process stays running or queued if and only if no step of the run loses one |
| `KernelFacts.LostForever` | c/disp.c:348-350 | a process taken off the queue by signal 31 is never given the processor again in any run, and its slot is never reused |
| `KernelFacts.TerminationReleasesWaiters` | c/disp.c:354-360 | after kill(pid, 31) nobody waits for pid, and every other waiter is unchanged |
| `KernelFacts.TerminationQueuesWaiters` | c/disp.c:348-361 | kill(pid, 31) removes the target from the ready queue and appends exactly its waiters in slot order |
| `KernelFacts.WaitEndsIff` | c/disp.c:129-144 | over every run a process waiting for a pid goes on waiting if and only if no kill strikes it or sends 31 to that pid; the awaited process stopping does not end the wait |
| `KernelFacts.RunNested` | c/disp.c:94-128 | through every dispatcher run whose sigreturns carry the newest frame, all slots stay nested and bit 31 of every mask stays clear, so kill with 31 never exits early |
| `KernelFacts.BootsIntoInvariant` | c/init.c:100-113 | the kernel boots into the invariant with the idle process, pid 1, running first |
| `KernelEffects.YieldStep` | c/disp.c:53-56 | yield changes no process, queues the caller last and hands the processor to the first in the queue |
| `KernelEffects.StopStep` | c/disp.c:57-60 | stop leaves the caller STOPPED, on neither queue and without the processor, and every other process alone |
| `KernelEffects.StopIsFinal` | c/disp.c:57-60 | over every run after it the slot stays STOPPED, and is never given the processor, until a create takes it; some slot is free for create |
| `KernelEffects.StaysStoppedIff` | c/create.c:38-45 | over every run a STOPPED slot stays so if and only if no create takes it |
| `KernelEffects.SleepStep` | c/sleep.c:33-84 | sleep queues the caller for the processor if its length is 0, else puts it on the sleep queue for a tenth of it, and nobody else changes |
| `KernelEffects.TimerStep` | c/disp.c:86-90 | a timer interrupt makes exactly the due sleepers ready with answer 0, in order and before the caller, who is charged one tick |
| `KernelEffects.WaitStep` | c/disp.c:129-142 | wait for the pid of some slot blocks the caller on that pid with answer 0; any other wait answers -1 and the caller goes on |
| `KernelEffects.WaitsUntilKill` | c/disp.c:129-142 | and that wait lasts, over every run, until a kill strikes the caller or sends 31 to the pid |
| `KernelEffects.SigHandlerStep` | c/disp.c:94-109 | registering stores the handler and answers with the one before; out of range it answers 0; nothing else of any process changes |
| `KernelEffects.SigReturnStep` | c/disp.c:110-128 | sigreturn sets stack pointer, answer and level to the values it carries and drops the newest frame |
| `KernelEffects.KillTarget` | c/disp.c:337-362 | the target of a kill: unblocked with answer -666 or its time left, and with the signal marked and, above its level, its frame pushed |
| `KernelEffects.KillQueues` | c/disp.c:337-361 | both queues after a kill, exactly |
| `KernelEffects.KillReturns` | c/disp.c:324-335 | kill returns -1 for a bad signal, -999 for an unknown pid and 0 otherwise, and changes nothing when it strikes nobody |
| `KernelEffects.KillStep` | c/disp.c:61-66 | the caller of kill goes on with that answer |
| `KernelEffects.KillIsDelivered` | c/signal.c:12-37 | a kill above the target's level puts one frame of 68 bytes with its old stack pointer, answer and level on its stack |
| `KernelEffects.CreateStep` | c/create.c:38-91 | create takes the first free slot behind the counter, queues the new process last, and tells the caller the new pid as an int |
| `KernelEffects.CreateFailsStep` | c/create.c:38-57 | without a free slot the caller is told -1 and the counter has gone once around |
| `SignalRuns.RunContexts` | c/disp.c:42-144 | along every dispatcher run with honest sigreturns the signal context of each slot is what the signal events of its requests make of it |
| `SignalRuns.DispatcherDeliversOnce` | c/disp.c:332-362 | so each signal is delivered at most once to a slot in every such run |
| `SignalRuns.RegisteredIsCalled` | c/disp.c:94-109 | a handler registered in a run and still in the table is the one that a later kill above the level calls |
| `Pids.ProbeVisitsEverySlotOnce` | c/create.c:38-45 | from any counter the 64 probes visit every slot exactly once |
| `Pids.CreateSucceedsIff` | c/create.c:38-63 | a process is made if and only if some slot is STOPPED and the stack was allocated, in such a slot; CREATE_FAILURE is returned if and only if none was made or the pid is 2^32-1 |
| `Pids.LivePidsDistinct` | c/create.c:79-91 | live processes have distinct pids, wrap-around included |
| `Pids.FindIsOneTest` | c/disp.c:244-256 | for a pid other than 0 the linear search equals one test of slot pid mod 64 |
| `Wiring.CutIsUnrepresentable` | c/disp.c:342-345 | ready on a sleeper leaves a table that represents no kernel state |
| `Dispatcher.System.constructor` | c/disp.c:198-203 | the zeroed table represents the empty kernel |
| `Dispatcher.System.Ready` | c/disp.c:205-218 | appends to the linked queue; both queues stay intact |
| `Dispatcher.System.Next` | c/disp.c:220-242 | takes the first of the linked queue |
| `Dispatcher.System.RemoveFromReady` | c/disp.c:266-308 | deletes exactly the process and keeps the order, tail included |
| `Dispatcher.System.FindSpot` | c/sleep.c:60-71 | the search stops where the abstract insertion does, with the same difference left |
| `Dispatcher.System.Sleep` | c/sleep.c:33-84 | the linked insertion is the abstract one, for every length |
| `Dispatcher.System.RemoveFromSleep` | c/sleep.c:88-128 | the linked removal is the abstract one |
| `Dispatcher.System.Tick` | c/sleep.c:139-158 | the draining loop wakes exactly whom the abstract tick wakes, in its order |
| `Dispatcher.System.FindPCB` | c/disp.c:244-256 | the first slot with the pid |
| `Dispatcher.System.KillInSleep` | c/sleep.c:130-137 | the value the source computes, in 32 bits |
| `Dispatcher.System.UnblockTarget` | c/disp.c:337-345 | a blocked target becomes ready and leaves the sleep queue |
| `Dispatcher.System.UnblockAsWritten` | c/disp.c:337-345 | the lines as written do the same if and only if the target is not asleep; otherwise no kernel state is represented |
| `Dispatcher.System.ReleaseWaiters` | c/disp.c:354-360 | the loop over the table releases exactly the abstract waiters |
| `Dispatcher.System.PushSignal` | c/signal.c:13-37 | the assignments to mask, level, stack pointer and frame are the abstract delivery |
| `Dispatcher.System.SetHandler` | c/disp.c:94-109 | guard, table and return value are the abstract registration's |
| `Dispatcher.System.ClearMask` | c/disp.c:116-123 | the loop computes the abstract one from any start value |
| `Dispatcher.System.SigReturn` | c/disp.c:110-128 | loop and assignments are the abstract return |
| `Dispatcher.System.Kill` | c/disp.c:321-364 | state and return value of every path are the abstract kill's |
| `Dispatcher.System.FindFree` | c/create.c:38-45 | the probe loop stops where the abstract probe does |
| `Dispatcher.System.Create` | c/create.c:38-91 | state and return value are the abstract create's |
| `Dispatcher.System.Start` | c/init.c:100-113 | booting reaches the abstract boot state |
| `Dispatcher.System.Dispatch` | c/disp.c:42-144 | whatever the running process asks for, the table and both linked queues go exactly where the state machine says, and stay valid |
| `Dispatcher.System.GetCPUtimes` | c/disp.c:400-411 | lists exactly the slots that are not STOPPED in slot order, each with pid, status and cpuTime * 10, and returns their number minus one |
| `Dispatcher.OnlyTheCallerRuns` | c/disp.c:404-407 | exactly one entry is reported as running, the caller's; every other has its process's state |
| `Dispatcher.InUseMembers` | c/disp.c:400-402 | the slots listed are exactly those in use, in rising order |
| `FreeList.SameBytesSameList` | c/mem.c:208-337 | a free list without touching blocks is determined by the bytes it covers |
| `FreeList.InsertFreeFacts` | c/mem.c:230-336 | freeing adds exactly the block's bytes and leaves no two free blocks touching |
| `FreeList.FreeOrderIrrelevant` | c/mem.c:230-336 | freeing two blocks in either order gives the same list |
| `FreeList.TakeAtCovers` | c/mem.c:139-200 | allocating takes exactly the granted bytes off the list |
| `FreeList.FreeUndoesAlloc` | c/mem.c:139-330 | freeing the block just taken restores the list, addresses and sizes |
| `Tiling.AlignedIsLeast` | c/mem.c:30-36 | the least multiple of 16 not below the argument, or 0 when that is 2^32 |
| `Tiling.InitialTiled` | c/mem.c:51-72 | the two initial blocks tile the two regions |
| `Tiling.MallocTiled` | c/mem.c:122-206 | kmalloc keeps the tiling |
| `Tiling.FreeTiled` | c/mem.c:209-337 | kfree of a live block keeps the tiling |
| `Tiling.RunTiled` | c/mem.c:51-337 | after any sequence of kmalloc and kfree of live blocks every byte of the two regions belongs to exactly one block, the free list is in address order and no two free blocks touch |
| `Tiling.KfreeUndoesKmalloc` | c/mem.c:122-337 | kfree right after kmalloc restores the heap |
| `Tiling.LivePointersPass` | c/mem.c:212-217 | the pointer of every live block passes the checks of kfree |
| `Tiling.RefusedIff` | c/mem.c:212-217 | a pointer is refused if and only if it is not on a 16-byte boundary or outside both regions and their ends |
| `Tiling.AddressesFit` | c/mem.c:51-72 | every block ends within 32-bit memory, so sums of addresses and sizes of blocks do not wrap |
| `Tiling.SplitTestWraps` | c/mem.c:142-142 | the 32-bit test is the integer test for every aligned request but 2^32 - 16, for which it is that the block has any room |
| `Tiling.MallocAsWrittenIff` | c/mem.c:122-206 | with the 32-bit test kmalloc is the correct one, and keeps the tiling, if and only if the aligned request is not 2^32 - 16 or no free block has any room |
| `Tiling.WrappedRequest` | c/mem.c:122-150 | right after boot, if the first region has any room, kmalloc(0xFFFFFFF0) is granted 2^32 - 16 bytes that stay on the free list, and the tiling is lost |
| `Tiling.SplitAsWrittenBreaksTiling` | c/mem.c:146-149 | with the remainder as written the tiling is kept if and only if the block is not split |
| `Tiling.MemSlotAsWritten` | c/mem.c:158-196 | memSlot as written is the lowest free block if and only if the block taken was the first, or the second and taken whole |
| `Tiling.FreeAsWrittenIff` | c/mem.c:231-336 | kfree as written files the block correctly if and only if some block is free, no write goes through a null next, and the free block below neither ends at the block nor seems to, by the scaled sum in 32 bits |
| `Tiling.KfreeAsWrittenIff` | c/mem.c:209-337 | the same for every live block of every heap |
| `Tiling.ScaledSumWraps` | c/mem.c:259-276 | five calls after which kfree as written takes a block 205 MB away for a neighbour and frees the live memory between |
| `Tiling.NullWrittenIff` | c/mem.c:240-242 | the write goes through null, with the list otherwise right, if and only if the block joins the only free block from below |
| `Coalescing.InsertFreeAt` | c/mem.c:234-330 | the eight cases are one splice around the block's position |
| `Coalescing.FiledBehindIsFreed` | c/mem.c:257-330 | the pointer assignments of cases C to H produce that splice in memory |
| `Allocator.Memory.constructor` | c/mem.c:51-72 | the two initial headers are linked and tile the regions |
| `Allocator.Memory.Kmalloc` | c/mem.c:122-206 | first fit on the linked headers is the abstract allocation, pointer included; prev and next stay inverse |
| `Allocator.Memory.FreeFront` | c/mem.c:234-252 | cases A and B |
| `Allocator.Memory.FreeBehind` | c/mem.c:257-330 | cases C to H |
| `Allocator.Memory.Kfree` | c/mem.c:209-337 | rejects what the checks reject, and otherwise is the abstract free on the linked headers; the checks let the same pointer through once more |
| `SecondFree.FreedPasses` | c/mem.c:212-225 | after kfree the header of the block is sound still, whatever it was merged with, and describes memory within one free block |
| `SecondFree.SecondFreeIff` | c/mem.c:231-337 | kfree of a block that is free already leaves memory with a sound free list if and only if the block is the lowest free one |
| `SecondFree.FreeTwiceIff` | c/mem.c:209-337 | the same for kfree called twice in a row on a live block |
| `SecondFree.SecondFreeIsReached` | c/mem.c:209-337 | one kmalloc and one kfree after boot reach a second kfree after which no list starts at memSlot |
| `MessageSafety.SendInv` | c/msg.c:12-50 | send keeps: queues are exactly the blocked senders in send order, no missed rendezvous, every message pending or delivered once, every receive open or completed once by a message it asked for, and a ready queue of unblocked processes without duplicates |
| `MessageSafety.RecvInv` | c/msg.c:60-94 | recv keeps the same |
| `MessageSafety.RecvAnyInv` | c/msg.c:104-129 | recvAny keeps the same, blocks if and only if nobody is blocked sending to it, and otherwise takes the oldest message |
| `MessageEffects.SendDelivers` | c/msg.c:20-28 | a send to a waiting receiver: buffer, counts, ready queue, and that nobody else changes |
| `MessageEffects.SendBlocks` | c/msg.c:33-48 | a send that blocks: last in the receiver's queue, buffer kept, 0 returned |
| `MessageEffects.RecvEffect` | c/msg.c:60-94 | recv takes the message of the process that it names if that one is sending to it, and blocks with 0 otherwise |
| `MessageEffects.RecvAnyTakesOldest` | c/msg.c:104-129 | recvAny takes the message of the process that has been sending to it longest, and blocks with 0 if there is none |
| `MessageEffects.EveryRunIsFair` | c/msg.c:104-129 | over every run whatever reaches a process after a message that it took from anyone was sent later |
| `MessageEffects.NextEffect` | c/disp.c:220-242 | the first leaves the ready queue, the others keep their order |
| `MessageSafety.EveryRunIsSound` | c/msg.c:12-129 | over every run all of this holds: no rendezvous is missed, each send is delivered at most once and each receive completed at most once, by a message from the process it named or from anyone, unaltered up to the shorter length |
| `MessageSafety.OnlyTheBlockedAreWoken` | c/msg.c:12-129 | a call makes ready only its caller and processes that were blocked, all that it unblocks, and changes nobody else's entry or buffer |
| `MessageSafety.BothSidesAgree` | c/msg.c:21-28 | both sides report the same count, the shorter of the two lengths, and the buffer starts with exactly those bytes |
| `MessageSafety.SendAsWrittenIff` | c/msg.c:17-28 | send with the test as C groups it keeps the invariant if and only if the receiver is not left with a stale -1 |
| `MessageSafety.StaleDeliveryQueuesTwice` | c/msg.c:17-28 | if that receiver is on the ready queue, or is the sender itself, it is then on it twice |
| `MessageSafety.StaleIsReached` | c/msg.c:17-28 | one recvAny completed by one send leaves such a receiver, and the next send breaks the invariant |
| `SenderQueues.EnqueueAsWrittenIff` | c/msg.c:38-46 | the append as written puts the sender at the end of the queue, empty or not, if and only if its own link happens to be NULL |
| `SenderQueues.DequeueAsWrittenIff` | c/msg.c:74-82 | the dequeue as written takes the sender off, and leaves its link NULL if and only if nobody was behind it |
| `SenderQueues.ResendAsWrittenIff` | c/msg.c:38-82 | a sender whose message was received can be queued again if and only if it was the last of its queue |
| `SenderQueues.StaleLinkNeverEnds` | c/msg.c:42-44 | two senders that point at each other make the walk to the tail endless |
| `SenderQueues.StaleLinkIsReached` | c/msg.c:38-82 | two sends, one receive and one more send reach that, as the code is written |
| `SenderQueues.StaleHeadIsReached` | c/msg.c:38-82 | after both messages are received, one more send makes the queue lead on to a process that is not sending |
| `Messenger.CopyCountIff` | c/msg.c:21-24 | the number of bytes that memCpy is asked for is the lesser length if and only if no length is negative, and at least 2^31 otherwise |
| `Messenger.MemCpy` | c/msg.c:133-140 | the copy loop overwrites exactly the first n bytes |
| `Messenger.Mail.Enqueue` | c/msg.c:38-46 | the sender goes to the end of its receiver's queue; all other queues stay |
| `Messenger.Mail.Dequeue` | c/msg.c:74-82 | exactly the sender leaves the queue; all other queues stay |
| `Messenger.Mail.EnqueueAsWritten` | c/msg.c:38-46 | the unrepaired lines compute the links that `SenderQueues` judges |
| `Messenger.Mail.DequeueAsWritten` | c/msg.c:74-82 | the same for the unrepaired dequeue |
| `Messenger.Mail.Next` | c/disp.c:220-242 | the head of the ready queue is taken |
| `Messenger.Mail.Send` | c/msg.c:12-50 | state and return value are the abstract send's |
| `Messenger.Mail.Recv` | c/msg.c:60-94 | state and return value are the abstract receive's |
| `Messenger.Mail.RecvAny` | c/msg.c:104-129 | state and return value are the abstract receive's, and the sender reported is the one that has been sending longest, whose message was taken |

## Left out

- Allocator.Memory.Kfree: a pointer that passes the checks must belong to a live block. A stale pointer passes them too; what follows for a block that is still free is `SecondFree.SecondFreeIff`, and for memory granted again it depends on what the new owner wrote.
- Allocator.Memory.Kmalloc: with the repairs named above for lines 142, 147, 158, 188 and 196.
- Dispatcher.System.PushSignal: the frame is kept as a record in a sequence, not at its address on the user stack, so a handler that overwrites it is not captured; where the frames lie is `Signals.FramesNeverOverlap`.
- Dispatcher.System.UnblockTarget: with the repair named above for lines 342-345.
- Dispatcher.System.GetCPUtimes: the address checks of lines 390-395 and the `entries` field, which is never written.
- Dispatcher.System.Create: the contents of the initial stack frame; only its address is kept.
- Messenger.Mail.Send: the buffers are values, so overlapping user buffers are not captured, and of negative lengths only `Messenger.CopyCountIff`. The caller is any process that is neither blocked nor on the ready queue: the SYS_SEND and SYS_RECV cases of the dispatcher are not part of the source.
- The `prev` links of process control blocks, which the source does not keep up to date.
- Requests that change no queue: SYS_PUTS, SYS_GETPID and the device calls; they leave the process table, both queues and the running process as they are.
- Device drivers (c/kbd.c, c/zerorand.c, c/di_calls.c), interrupt entry and context switch (c/ctsw.c, the trap in c/syscall.c), and the user programs (c/user.c).
- Fields that `create` does not reset (signal table, mask, level): signal properties are stated for slots, not for processes.
