# Verified model of a teaching kernel and its user programs

A Dafny model of the state machines of a small x86-64 teaching kernel: its two memory allocators,
its processes with semaphores, sleep and waitpid, its pipes, and of three user-space programs, the
dining philosophers, the shell's history buffer and the number printer and parser.

Every component has the same layout. A specification on values (`…Spec`, or the first half of a
module) says what each operation does to the state; lemmas prove what holds of it over every call,
run or interleaving; and a class does the work in place, as the program does, each method proved to
move the state exactly as the specification says.

- **Buddy allocator** (`BuddySpec`, `BuddyProofs`, `BuddyHeap`, with `Powers` and `Common`). The state maps the
  offset of every block to its order, beside the free lists. The blocks tile the heap, each at a
  multiple of its size, the free list of an order holds blocks of that order, each once, and no two
  free blocks are buddies. The class keeps headers in memory linked by address.
- **Free-list allocator** (`FreeListSpec`, `FreeListProofs`, `FreeListHeap`). Free ranges in address
  order that never touch, and live blocks; each byte of the heap belongs to exactly one of either.
- **What both allocators promise** (`Allocators`): the same abstract allocator and whole runs.
- **Processes** (`KernelSpec`, `WaitQueues`, `KernelSafety`, `KernelSteps`, `KernelRuns`). One state
  holds the process ring, the semaphores, the sleep list and the tables of waiting processes. An
  `Event` is a timer tick, a key (a Ctrl-C, the F2 key that only switches, or a post for standard
  input, whoever is running) or a kernel call of the running process. System calls and interrupts run behind interrupt gates, so an
  event is one step, including its context switch. There is one exception: the process of the
  speaker (Kernel/c/pcSpeaker.c:33-39) calls `waitSemaphore` and `sleep` directly, with interrupts
  enabled. The runs take its calls as single steps too. `KernelPreempted` treats three windows inside
  them: after the caller is queued and before it is blocked, for a tick, a post, a destroy and a
  kill; before the entry of sleep is linked, for a tick; and between reading and writing the head
  of the sleep list. `Inv` holds whenever user code runs.
  `KernelExit`, `KernelEffects`, `KernelSemaphores`, `KernelTimer`, `KernelWaitPid`, `KernelTurns`
  and `KernelFairness` prove what single calls and whole runs do; `KernelRing` and `KernelMachine` are the circular list and the
  globals in memory.
- **Pipes** (`Pipe`, `PipeOnKernel`): any number of calls of readPipe and writePipe, interleaved
  statement by statement. A killed process is one that takes no further step, wherever it stopped.
  Processes that make such calls in a run of the kernel make an allowed run of the pipe.
- **Philosophers** (`Philosophers`, `PhilosopherProgress`, `PhilosopherOrder`, `PhilosopherTable`): philosophers and the
  command process, interleaved between any two semaphore calls, with the waiting queues of the
  semaphores; and the shared variables with the functions that update them.
- **History** (`History`): the ring with its write index and read cursor, over a sequence.
- **Digits** (`Digits`): printing in a base and parsing, in 32-bit arithmetic.

Where a property does not hold of the code on every input, the exact condition is proved:
`BuddyHeap.GetOrderEnds`, `BuddyHeap.RequestHolds` and `FreeListHeap.NeededFacts` (sizes that are
too large or wrap), `KernelExit.CtrlCIsSafeExactlyWhen` (Ctrl-C on a process that was already
killed, with a run that ends in such a state, `KernelCtrlC.CtrlCBreaksQueues`),
`KernelPreempted.LoopEndsExactlyWhen`, `KernelPreempted.PostInsideWait` and
`KernelPreempted.LinksStale` (interrupts inside calls that no gate protects), `Digits.DecimalRoundTrip` and `Digits.HexRoundTrip` (numbers that 32
bits do not hold), `History.NextUndoesPrev` (the first step back from rest, and one step back too
many).

Statements about runs of the allocators and the pipe repeat that their start state satisfies the
invariant, because a run is only defined from such a state; `InitialInv` shows that it always does.

## Model

| member | source | states |
|---|---|---|
| `BuddyProofs.InitialInv` | Kernel/c/buddyMM.c:20-29 | the fresh heap, one free block of the top order, satisfies the tree invariant and has nothing live |
| `BuddyProofs.SplitKeeps` | Kernel/c/buddyMM.c:50-57 | halving a block keeps tiling, alignment, the lists and "no two free buddies", and changes no other block |
| `BuddyProofs.AllocKeeps` | Kernel/c/buddyMM.c:59-76 | malloc fails exactly when no free block is large enough; otherwise a block that was not live becomes live at the order asked for and all live blocks stay |
| `BuddyProofs.AllocTakes` | Kernel/c/buddyMM.c:59-76 | which block malloc takes: the head of the first list from the order asked for upward that is not empty; each split puts the upper half alone on its list, and no other list changes |
| `BuddySpec.BuddyIsBlock` | Kernel/c/buddyMM.c:108-117 | the tree invariant: the address of the buddy is always the start of some current block, of at most the same order |
| `BuddyHeap.BuddyHeader` | Kernel/c/buddyMM.c:108-117 | the one header that mergeBlock reads, at block plus or minus size, is a real block header, and its size and free bit say what the state says |
| `BuddyHeap.AlignmentSide` | Kernel/c/buddyMM.c:103-106 | the parity of offset / size picks the right side of the pair although the offset is measured from a start that is up to 7 bytes unaligned |
| `BuddyHeap.GetOrderEnds` | Kernel/c/buddyMM.c:40-48 | the loop over the doubled 32-bit word ends exactly for sizes up to 2^31, and then first at the smallest power of two that holds the size |
| `BuddyProofs.JoinKeeps` | Kernel/c/buddyMM.c:118-131 | joining two free buddies keeps the invariant and the live blocks |
| `BuddyProofs.MergeKeeps` | Kernel/c/buddyMM.c:108-132 | the recursive merge keeps the invariant, ends by the top order, and releases exactly the one block |
| `BuddyProofs.ReleaseKeeps` | Kernel/c/buddyMM.c:134-140 | free keeps the invariant; its block stops being live, no other live block changes |
| `BuddyProofs.FreeUndoesMalloc` | Kernel/c/buddyMM.c:59-140 | malloc followed by free of its result restores the blocks and every free list element for element |
| `BuddyProofs.FreeingAllRestoresHeap` | Kernel/c/buddyMM.c:108-140 | from any state, freeing all live blocks in any order ends with the one top-order block |
| `BuddyProofs.AllFreeIsTop` | Kernel/c/buddyMM.c:108-132 | when nothing is live there is one block: free buddies never stay apart |
| `BuddyHeap.OnlyHeadersMatter` | Kernel/c/buddyMM.c:50-140 | writes to payloads cannot disturb the allocator: whatever keeps the headers of the current blocks keeps the heap well formed |
| `BuddyHeap.RequestHolds` | Kernel/c/buddyMM.c:40-60 | a request is served, its order found and the block large enough for 16 bytes of header and the payload, exactly when the two need at most 2^31 bytes; all 64-bit sizes |
| `BuddyHeap.MallocServes` | Kernel/c/buddyMM.c:59-76 | a returned payload is 8-aligned, in a block of the order asked for that was not live before |
| `BuddyHeap.LastPair` | Kernel/c/buddyMM.c:108-132 | before the last merge the list one below the top holds exactly the other half |
| `BuddyHeap.Heap.constructor` | Kernel/c/buddyMM.c:20-29 | empty lists but for the whole heap at the aligned start |
| `BuddyHeap.Heap.GetOrder` | Kernel/c/buddyMM.c:40-48 | the doubling loop returns the order of the smallest block that holds the size |
| `BuddyHeap.Heap.SplitBlock` | Kernel/c/buddyMM.c:50-57 | the two headers after a split, and no other write |
| `BuddyHeap.Heap.Malloc` | Kernel/c/buddyMM.c:59-76 | the search over the lists and the splitting, in memory, are the specification's allocation |
| `BuddyHeap.Heap.RemoveFromFreeList` | Kernel/c/buddyMM.c:87-101 | walking and bypassing removes exactly the block from the list and touches nothing outside it |
| `BuddyHeap.Heap.MergeBlock` | Kernel/c/buddyMM.c:108-132 | the recursion over headers and links is the specification's merge |
| `BuddyHeap.Heap.Free` | Kernel/c/buddyMM.c:134-140 | NULL changes nothing; a live pointer is the specification's release |
| `FreeListSpec.CoverageDeterminesList` | Kernel/c/freeListMM.c:57-92 | two sorted lists whose ranges never touch and that cover the same bytes are equal |
| `FreeListProofs.LiveDeterminesFree` | Kernel/c/freeListMM.c:57-165 | the free list is a function of the live blocks: their maximal gaps in address order |
| `FreeListProofs.InsertKeeps` | Kernel/c/freeListMM.c:57-92 | insertion joins neighbours so that the list stays sorted without touching ranges and covers exactly the old bytes and the new block's |
| `FreeListProofs.SumInsert` | Kernel/c/freeListMM.c:57-92 | the byte count grows by the size of the block, joined or not |
| `FreeListProofs.AllocKeeps` | Kernel/c/freeListMM.c:94-144 | malloc fails exactly when no range is large enough; otherwise at least the bytes needed become live where only free bytes were, and the rest stays |
| `FreeListProofs.TakesLowestFit` | Kernel/c/freeListMM.c:106-134 | which block malloc takes: the front of the lowest-addressed range with room; exactly the bytes needed when more than 32 would be left, and else the whole range |
| `FreeListProofs.ReleaseKeeps` | Kernel/c/freeListMM.c:155-165 | free keeps the invariant and gives back exactly the bytes of its block |
| `FreeListProofs.FreeUndoesMalloc` | Kernel/c/freeListMM.c:94-165 | malloc followed by free is the identity on the list and the live blocks |
| `FreeListProofs.FreeingAllRestoresHeap` | Kernel/c/freeListMM.c:31-47 | freeing everything in any order gives back the one block of the fresh heap |
| `FreeListProofs.InitialInv` | Kernel/c/freeListMM.c:31-47 | the fresh heap satisfies the invariant |
| `FreeListHeap.NeededFacts` | Kernel/c/freeListMM.c:99-104 | the bytes taken hold the 16 of the header and the payload exactly when their sum, rounded up, does not wrap 64 bits; and then they are the next multiple of 8 |
| `FreeListHeap.NotEnough` | Kernel/c/freeListMM.c:106-141 | the early test against the byte count refuses only what no range could serve |
| `FreeListHeap.InsertLinks` | Kernel/c/freeListMM.c:57-92 | rewriting the node before and the block itself links the new list into memory and keeps all live headers |
| `FreeListHeap.HeaderAt` | Kernel/c/freeListMM.c:155-165 | the header that free reads is that of a live block exactly for live blocks; the start of a free block never reads as live |
| `FreeListHeap.Heap.constructor` | Kernel/c/freeListMM.c:31-47 | the start node, the end marker and one block between them |
| `FreeListHeap.Heap.InsertBlockIntoFreeList` | Kernel/c/freeListMM.c:57-92 | the search and the joins in memory are the specification's insertion |
| `FreeListHeap.Heap.LinkBehind` | Kernel/c/freeListMM.c:64-91 | the joins with the node before and the node after, and the links |
| `FreeListHeap.Heap.Malloc` | Kernel/c/freeListMM.c:94-144 | first fit in memory is the specification's allocation; the payload is 8-aligned and at least `size` long |
| `FreeListHeap.Heap.Take` | Kernel/c/freeListMM.c:116-134 | unlinking, splitting when more than 32 bytes remain, and the bookkeeping of the byte count |
| `FreeListHeap.Heap.Free` | Kernel/c/freeListMM.c:155-165 | a live block is released; any header that does not read as allocated, such as that of a block freed before, changes nothing |
| `Allocators.BuddyStep` | Kernel/c/buddyMM.c:59-140 | every buddy call whose size getOrder handles is a call of the abstract allocator: one region more, one less, or a refusal, and no other region moves |
| `Allocators.FreeListStep` | Kernel/c/freeListMM.c:94-165 | the same for the free list |
| `Allocators.BuddyServesRuns` | Kernel/include/memoryManager.h:30-33 | after any calls on a fresh heap the live regions are disjoint and inside it; freeing them restores the fresh heap |
| `Allocators.FreeListServesRuns` | Kernel/include/memoryManager.h:30-33 | the same, and the list is the only one the live regions allow |
| `WaitQueues.EntersQueue` | Kernel/c/semaphores.c:48-65 | a process that waited nowhere, blocked into one queue, keeps "waiting exactly when queued, once, in one queue" |
| `WaitQueues.ExitsToHand` | Kernel/c/scheduler.c:278-300 | when a process exits, exactly its waiters pass to the call that releases them |
| `KernelSafety.ReleaseKeeps` | Kernel/c/scheduler.c:278-300 | the release of waiters, with its recursion, restores the queue invariant |
| `KernelSafety.ExitKeeps` | Kernel/c/scheduler.c:278-300 | exitProcessByPCB keeps the queues safe, also for a killed process just taken off its queue |
| `KernelSafety.PostLoopKeeps` | Kernel/c/semaphores.c:125-150 | a post keeps the queues safe, and a semaphore with tokens has nobody waiting |
| `KernelSafety.DrainLoopKeeps` | Kernel/c/semaphores.c:77-95 | destroying a semaphore empties its queue and keeps the others safe |
| `KernelSafety.TickLoopKeeps` | Kernel/c/timer.c:30-51 | counting down the sleepers keeps the queues safe |
| `KernelSteps.ScheduleKeeps` | Kernel/c/scheduler.c:162-198 | a context switch takes any state inside a call to one where user code may run: at most one process running, ring well formed, no queued process freed |
| `KernelSteps.AtNotReaped` | Kernel/c/scheduler.c:176-193 | the node whose stack the scheduler is on is never freed |
| `KernelSteps.WaitSemaphoreKeeps` | Kernel/c/semaphores.c:101-116 | waitSemaphore keeps the invariant |
| `KernelSteps.WaitPidKeeps` | Kernel/c/scheduler.c:323-333 | waitPid keeps the invariant |
| `KernelSteps.KillKeeps` | Kernel/c/scheduler.c:374-380 | kill keeps the invariant, on every pid and state |
| `KernelSteps.CreateProcessKeeps` | Kernel/c/scheduler.c:93-110 | a new process gets a fresh pid, becomes the tail, and the invariant holds |
| `KernelRuns.CallKeeps` | Kernel/c/scheduler.c:278-447 | every kernel call, and every post or Ctrl-C from the keyboard whoever is running, keeps what must hold up to its context switch |
| `KernelRuns.BootInv` | Kernel/c/scheduler.c:255-265 | fresh processes and semaphores satisfy the invariant: so it holds when the first process starts, beside the process and the semaphore of the speaker |
| `KernelRuns.WaitQueueSafety` | Kernel/c/scheduler.c:278-380 | over all runs: a process is blocked or waiting to exit exactly when some queue holds it, then one queue does, once |
| `KernelRuns.ReferencesSurvive` | Kernel/c/scheduler.c:162-198 | the scheduler never frees a process that a semaphore, the sleep list or a waiting table points to, also in the switch that ends the call which queued its caller |
| `KernelRuns.QueuedIsNotCurrent` | Kernel/c/semaphores.c:125-150 | whoever a queue holds is not the running process: so the exit of a killed waiter, made with the lock held, never switches context |
| `KernelEffects.BlockEffect` | Kernel/c/scheduler.c:425-433 | blocking by the user stops exactly ready and running processes; the caller itself then has the processor no more |
| `KernelEffects.UnblockEffect` | Kernel/c/scheduler.c:435-442 | unblocking readies exactly a process blocked by the user and does nothing else |
| `KernelEffects.PriorityEffect` | Kernel/c/scheduler.c:392-398 | a priority from 1 to 9 is stored for a known process; nothing else happens, also for other values |
| `KernelEffects.YieldEffect` | Kernel/c/scheduler.c:444-447 | the processor goes to another ready process exactly if there is one, and the caller stays ready; else the caller starts a new turn |
| `KernelEffects.SwitchKeyEffect` | Kernel/asm/interruptions.asm:73-80 | the F2 key takes one tick off the turn of the running process; only when none is left, or nobody runs, does the processor go to another ready process, exactly if there is one, with a whole turn |
| `KernelEffects.CtrlCEffect` | Kernel/c/scheduler.c:386-390 | Ctrl-C on a process other than the running one ends it, and the running one goes on, with one tick less of its turn |
| `KernelEffects.WaitEffect` | Kernel/c/semaphores.c:101-116 | a wait takes a token and goes on, or blocks the caller at the end of the queue and gives up the processor; on a closed semaphore nothing happens |
| `KernelEffects.DestroyCloses` | Kernel/c/semaphores.c:77-95 | a destroyed semaphore is closed, empty, and its position free; no other semaphore changes |
| `KernelEffects.InitEffect` | Kernel/c/semaphores.c:23-37 | a new semaphore takes the position freed last, or a new one, open, with its value and nobody queued; no other semaphore changes |
| `KernelEffects.InitReusesDestroyed` | Kernel/c/semaphores.c:23-95 | so the position of a semaphore just destroyed is the next to be used |
| `KernelEffects.CreateEffect` | Kernel/c/scheduler.c:93-110 | a new process is ready, of priority 1, at the tail, with a pid that no process has |
| `KernelEffects.NothingHappens` | Kernel/c/scheduler.c:323-390 | sleeping no ticks, waiting for itself or for a process that is not there, and Ctrl-C on the first process change nothing |
| `KernelEffects.SleepStops` | Kernel/c/timer.c:65-75 | sleeping any other number of ticks blocks the caller and gives up the processor |
| `KernelExit.ExitEffect` | Kernel/c/scheduler.c:278-300 | for every target that is neither blocked nor exited, one that was killed while blocked included, and on any waiting graph, cyclic too: the target and the killed processes reachable through waiting exit, exactly the blocked waiters of those become ready, nobody else changes |
| `KernelExit.ExitCodes` | Kernel/c/scheduler.c:290-298 | the blocked waiters of the target get its exit code, those of the killed processes that exit with it get 1, the code of a kill |
| `KernelEffects.KillEffect` | Kernel/c/scheduler.c:278-380 | kill on every state and pid: pid 0 and unknown, exited or already killed processes are left alone; a blocked one is marked, its heap freed, and it stays in its queue; any other exits with the effect of an exit |
| `KernelEffects.KillCodes` | Kernel/c/scheduler.c:278-380 | the processes that a kill readies, waiting for the target or for killed ones that exit with it, get exit code 1 |
| `KernelEffects.KillDooms` | Kernel/c/scheduler.c:278-390 | after a kill or a Ctrl-C of any process but the first, or its own exit, a process is killed, exited or gone |
| `KernelEffects.NeverRunsAgain` | Kernel/c/scheduler.c:162-380 | over every run, a process once killed or exited is never ready or running again, and its pid is not used again |
| `KernelEffects.KilledSleeperExits` | Kernel/c/timer.c:46-48 | a process killed while it sleeps exits in the next tick, however long it had to sleep and wherever it stands in the list |
| `KernelExit.CtrlCIsSafeExactlyWhen` | Kernel/c/scheduler.c:386-390 | Ctrl-C keeps the queues safe exactly when its target was not already killed while blocked, or was killed in a circle of killed processes waiting for each other |
| `KernelCtrlC.CtrlCBreaksQueues` | Kernel/c/scheduler.c:386-390 | in the reachable state below, a second Ctrl-C leaves the sleep list pointing to an exited process |
| `KernelCtrlC.RunKillsSleeper` | Kernel/c/scheduler.c:323-390 | the first process creates process 2 and waits for it, which makes it the foreground process; the speaker waits for a sound; process 2 sleeps; Ctrl-C kills it, and it stays in the foreground, asleep |
| `KernelSemaphores.PostEffect` | Kernel/c/semaphores.c:125-150 | a post serves the first blocked waiter in arrival order, lets the killed ones before it exit, leaves those behind it waiting, and counts only when nobody is left |
| `KernelSemaphores.StepConserves` | Kernel/c/semaphores.c:101-150 | no event but wait and post changes a semaphore's balance of value, grants and posts |
| `KernelSemaphores.Conservation` | Kernel/c/semaphores.c:101-150 | over every run value at the start plus posts equals value at the end plus grants; with initial value 1 at most one token is out |
| `KernelSemaphores.MutualExclusion` | Kernel/c/semaphores.c:101-150 | if every post is made by a process that holds a token, tokens held and left never change; so of a semaphore created with 1 at most one process holds it, over every run |
| `KernelSemaphores.DestroyEffect` | Kernel/c/semaphores.c:77-95 | destroying a semaphore readies every blocked waiter, lets every killed one exit, and leaves nobody queued |
| `KernelWaitPid.QueueIsFifo` | Kernel/c/semaphores.c:48-150 | whatever happens, a queue only loses processes from its front, to a post that passes killed ones, and only gains at its end the caller of a wait that found no token |
| `KernelWaitPid.WaitPidStarts` | Kernel/c/scheduler.c:323-333 | waitPid for a living process blocks the caller in that process's table |
| `KernelWaitPid.StepDelivers` | Kernel/c/scheduler.c:278-333 | every event but a kill of the waiter leaves it waiting exactly as long as the awaited process has not exited, and ends the wait with that process's exit code: its own, or that of a kill, also when a post, a destroy or a tick lets a killed process go |
| `KernelWaitPid.WaitPidDelivers` | Kernel/c/scheduler.c:278-333 | over any run: the event after which the awaited process has exited, in whatever way, lets each process blocked on it go on with its exit code |
| `KernelPreempted.LoopEndsExactlyWhen` | Kernel/c/timer.c:30-51 | with one process inside an interrupted sleep, at any place in the list, the loop of incTicks ends exactly when that process is not listed yet |
| `KernelPreempted.LoopFinishes` | Kernel/c/timer.c:35-50 | with the queues in order every round of the loop moves on, and it ends in the countdown the runs use |
| `KernelPreempted.TickInsideSleep` | Kernel/c/timer.c:68-73 | a tick that interrupts sleep: its own countdown ends exactly when the entry was not linked yet |
| `KernelPreempted.LinksStale` | Kernel/c/timer.c:71-73 | sleep links its entry in front of whatever list the head it had read leads to: the queues are in order exactly when that list still holds the sleepers of the moment, each once |
| `KernelPreempted.LinksSuffix` | Kernel/c/timer.c:71-73 | while that head is still listed, it must be the head still; whoever fell asleep meanwhile is lost |
| `KernelPreempted.InterruptedLink` | Kernel/c/timer.c:71-73 | between two states of the kernel around that window: harmless exactly when the same processes sleep |
| `KernelPreempted.PostInsideWait` | Kernel/c/semaphores.c:109-114 | a post while a waiter is queued, at any place, and not blocked yet: the queues are in order once it blocks exactly when somebody before it takes the token; otherwise it is blocked in no queue |
| `KernelPreempted.DestroyInsideWait` | Kernel/c/semaphores.c:77-114 | a destroy in that window is never harmless: the waiter blocks in no queue |
| `KernelPreempted.GoesOnToBlock` | Kernel/c/semaphores.c:111-113 | whatever happened in that window, going on to block is safe exactly if the queue still holds the caller |
| `KernelPreempted.KillWhileQueued` | Kernel/c/scheduler.c:278-299 | a kill of a process that is on a semaphore queue or the sleep list and not blocked yet is never harmless: it exits at once, and the queue still points to it |
| `KernelTimer.TickReaches` | Kernel/c/timer.c:30-51 | one pass counts every sleeper down by one wherever it stands in the list, or readies and removes it |
| `KernelTimer.SleeperStep` | Kernel/c/timer.c:30-75 | no event but a tick or its own kill touches a sleeper's remaining time |
| `KernelTimer.SleepsOn` | Kernel/c/timer.c:30-75 | before the k-th tick a sleeper is still asleep, with the rest to go |
| `KernelTimer.WakesAtTick` | Kernel/c/timer.c:30-75 | the k-th tick makes it ready and takes it off the list, whatever else happened |
| `KernelTimer.SleepStarts` | Kernel/c/timer.c:65-75 | sleep puts the caller on the list with all its ticks |
| `KernelFairness.SchedulePicks` | Kernel/c/scheduler.c:162-198 | schedule, when it looks for a process, runs the first ready one in circular order, the current one last, for as many ticks as its priority; idles exactly when none is ready; frees exactly the exited processes it passed, never its own |
| `KernelTurns.TurnLasts` | Kernel/c/scheduler.c:162-173 | over every run in which the running process neither stops nor asks for a switch, and with no more ticks than it has left, it stays current, and each tick uses up exactly one |
| `KernelTurns.TurnEnds` | Kernel/c/scheduler.c:168-198 | at no ticks left, the next one gives the processor to another ready process exactly if there is one, and else a new turn to the same |
| `KernelTurns.TurnStarts` | Kernel/c/scheduler.c:176-198 | whatever event puts a process on the processor gives it a whole turn: priority - 1 ticks left |
| `KernelTurns.WholeTurn` | Kernel/c/scheduler.c:162-198 | a process of priority n that has just been dispatched is current after every t < n ticks, with n - 1 - t left, and the n-th tick passes on |
| `KernelFairness.DispatchShrinks` | Kernel/c/scheduler.c:176-198 | while p is ready, a dispatch runs p or uses up the weight of a process before it |
| `KernelFairness.BoundedWaiting` | Kernel/c/scheduler.c:162-198 | a process that stays ready sees at most len - 1 other dispatches, and at most the rest of the turn plus the priorities of those before it in ticks; when priorities change meanwhile, plus nine for each other process |
| `KernelRing.Bypass` | Kernel/c/scheduler.c:112-132 | unlinking a node through its predecessor leaves one circle of the others |
| `KernelRing.Append` | Kernel/c/scheduler.c:93-110 | linking a node behind the tail leaves one circle with it at the end |
| `KernelMachine.UnlinkCurrent` | Kernel/c/scheduler.c:112-132 | removing the current node keeps head, tail, prev and length right, whether it is the head, the tail or neither |
| `KernelMachine.Machine.constructor` | Kernel/c/scheduler.c:255-265 | the first process, and behind it in the ring the process of the speaker with its semaphore |
| `KernelMachine.Machine.AddPCB` | Kernel/c/scheduler.c:93-110 | the new node goes in behind the tail, prev follows when the head is current |
| `KernelMachine.Machine.CreateProcess` | Kernel/c/scheduler.c:93-110 | a fresh pid at the tail: exactly the event "create" |
| `KernelMachine.Machine.FreeCurrentProcess` | Kernel/c/scheduler.c:112-132 | exactly the current process leaves ring and table; its successor is current |
| `KernelMachine.Machine.NextPCB` | Kernel/c/scheduler.c:134-145 | one step along the ring, from the idle process back to the node after prev |
| `KernelMachine.Machine.Schedule` | Kernel/c/scheduler.c:162-198 | spends a quantum or scans, as specified |
| `KernelMachine.Machine.Scan` | Kernel/c/scheduler.c:176-198 | the loop that scans and reaps at once terminates and is the specified dispatch |
| `KernelMachine.Machine.GetPCBByPid` | Kernel/c/scheduler.c:312-321 | the lookup that stops at the first larger pid finds every process there is |
| `KernelMachine.Machine.LetGoOf` | Kernel/c/semaphores.c:133-140 | a dequeued process becomes ready or exits as specified, and the exit asks for no context switch |
| `KernelMachine.Machine.EnterRegion` | Kernel/asm/semaphores.asm:5-13 | the exchange: it would have to spin exactly when the lock was taken, which no caller ever meets |
| `KernelMachine.Machine.ExitProcessByPCB` | Kernel/c/scheduler.c:278-300 | the recursive exit terminates on cyclic waiting graphs and is the specified one; it asks for a context switch exactly when the current process exits, never in a nested call |
| `KernelMachine.Machine.WaitSemaphore` | Kernel/c/semaphores.c:101-116 | takes a token, or queues the caller at the end and switches to the process the scheduler picks: exactly the event "wait" of the runs; the lock is found free and given back before the switch |
| `KernelMachine.Machine.PostSemaphore` | Kernel/c/semaphores.c:125-150 | whoever is running, the dequeue loop hands the token on, lets killed waiters exit, or counts: exactly the event "post"; the lock is found free, held throughout, and no context switch happens meanwhile |
| `KernelMachine.Machine.DestroySemaphore` | Kernel/c/semaphores.c:77-95 | the dequeue loop readies or exits every waiter, then the position is free again: exactly the event "destroy"; the lock is found free |
| `KernelMachine.Machine.SemInit` | Kernel/c/semaphores.c:23-37 | a fresh semaphore, in the position freed last if there is one |
| `KernelMachine.Machine.Sleep` | Kernel/c/timer.c:65-75 | puts the caller at the front of the sleep list and switches: exactly the event "sleep" |
| `KernelMachine.Machine.WaitPid` | Kernel/c/scheduler.c:323-333 | enters the caller in the table of a living process and switches: exactly the event "waitpid" |
| `KernelMachine.Machine.Kill` | Kernel/c/scheduler.c:374-380 | exactly the event "kill", and it reports success exactly for a known process other than 0 that was not killed before |
| `KernelMachine.Machine.ExitCurrentProcess` | Kernel/c/scheduler.c:302-305 | releases the waiters and switches: exactly the event "exit" |
| `KernelMachine.Machine.KillForeground` | Kernel/c/scheduler.c:386-390 | exit without a look at the state, and a switch: exactly the event "Ctrl-C" |
| `KernelMachine.Machine.ChangePriority` | Kernel/c/scheduler.c:392-398 | exactly the event "priority"; refused outside 1 to 9 and for unknown pids |
| `KernelMachine.Machine.BlockByUser` | Kernel/c/scheduler.c:425-433 | only a ready or running process is blocked, and a switch follows when it was the caller: exactly the event "block" |
| `KernelMachine.Machine.Unblock` | Kernel/c/scheduler.c:435-442 | only a process blocked by the user becomes ready: exactly the event "unblock" |
| `KernelMachine.Machine.Yield` | Kernel/c/scheduler.c:444-447 | the caller stays ready and the scheduler picks: exactly the event "yield" |
| `KernelMachine.Machine.TimerTick` | Kernel/asm/interruptions.asm:30-44 | schedule and then the countdown of the sleepers: exactly the event "tick" |
| `KernelMachine.Machine.SwitchByKey` | Kernel/asm/interruptions.asm:73-80 | the F2 key, whoever is running: exactly the event "switch" |
| `KernelMachine.Machine.IncTicks` | Kernel/c/timer.c:30-51 | in every state of the runs the loop terminates, since every entry is blocked or killed, and is the specified countdown |
| `Pipe.StepKeeps` | Kernel/c/pipes.c:59-93 | every statement of every call keeps the pipe's invariant: slots hold the unread characters, tokens and holders add up |
| `Pipe.FifoDelivery` | Kernel/c/pipes.c:59-93 | over every interleaving the characters read are a prefix of those written, and at most 40 are under way |
| `Pipe.CallsDeliver` | Kernel/c/pipes.c:59-93 | a finished write has put in all its characters in order; a finished read returns what it took out, at least one and at most `len` characters, and fewer only if its last one left the pipe empty |
| `Pipe.StopsExactlyAtEnd` | Kernel/c/pipes.c:70-73 | a reader that has just taken a character ends, in its own next three statements, exactly if it has `len` or all that was sent has been received; otherwise it goes on |
| `Pipe.FlagMeans` | Kernel/c/pipes.c:64-70 | in every state of every run, `reachedEnd` is set exactly if some character this read took out left the pipe empty at its check |
| `Pipe.EndMeansEmpty` | Kernel/c/pipes.c:70 | readIdx equals writeIdx after a read exactly when all that was written has been read: empty, never full |
| `Pipe.NoOverwrite` | Kernel/c/pipes.c:85-88 | a writer never stores into a slot with an unread character |
| `Pipe.ReadsOldest` | Kernel/c/pipes.c:66-69 | a reader never copies an unwritten slot: it finds the oldest unread character |
| `Pipe.Alone` | Kernel/c/pipes.c:67-71 | while one call is between taking and giving back the mutex, no other is |
| `Pipe.StuckOnlyWhenItShould` | Kernel/c/pipes.c:59-93 | with no call killed: when nothing can go on, every unfinished call waits for its counter, readers on an empty pipe or writers on a full one |
| `Pipe.StuckAfterKills` | Kernel/c/pipes.c:59-93 | with any calls killed while they waited: the living ones wait for their counters, because what is left was handed to calls killed before they ran |
| `PipeOnKernel.JointStep` | Kernel/c/pipes.c:59-93 | every wait, post or computation of a pipe call by a running process, and every other event of the kernel, is allowed steps of the kernel and of the pipe, and keeps both coupled: values agree, and whoever is queued waits in a call at that statement |
| `PipeOnKernel.Projects` | Kernel/c/pipes.c:59-93 | over whole runs: the kernel's share is a run of the kernel, the calls' share a run of the pipe |
| `PipeOnKernel.FifoOnKernel` | Kernel/c/pipes.c:59-93 | whatever the kernel does, queues, switches and kills included, what was read from a fresh pipe is a prefix of what was written |
| `Pipe.Pipe.constructor` | Kernel/c/pipes.c:30-48 | an empty ring, mutex 1, no item, 40 slots |
| `Pipe.Pipe.ReadPipe` | Kernel/c/pipes.c:59-76 | the loop runs the call's statements in order until it is finished or must wait |
| `Pipe.Pipe.TakeChar` | Kernel/c/pipes.c:67-70 | the section under the mutex, statement by statement |
| `Pipe.Pipe.FreeSlot` | Kernel/c/pipes.c:71-73 | gives the mutex back, announces the slot and decides whether to go round again |
| `Pipe.Pipe.WritePipe` | Kernel/c/pipes.c:78-93 | the same for the writer |
| `Pipe.Pipe.PutChar` | Kernel/c/pipes.c:86-88 | the section under the mutex |
| `Pipe.Pipe.Announce` | Kernel/c/pipes.c:89-91 | gives the mutex back, announces the character and decides whether to go round again |
| `Philosophers.StepKeeps` | Userland/UserModule/c2/phyloTest.c:28-133 | every step of philosophers and command process keeps forks, tokens and queues consistent |
| `Philosophers.OrderedForks` | Userland/UserModule/c2/phyloTest.c:54-63 | one numbering in which every philosopher asks for the smaller fork first, for even and odd tables and across the wrap-around |
| `PhilosopherTable.GoTakes` | Userland/UserModule/c2/phyloTest.c:54-63 | an odd philosopher asks for its right fork first, an even one for its own; each is then in its hand or it waits for it |
| `PhilosopherTable.GoLeaves` | Userland/UserModule/c2/phyloTest.c:65-69 | it puts down its own fork first, then the right one |
| `Philosophers.NoDeadlock` | Userland/UserModule/c2/phyloTest.c:24-94 | for every table size and state that the invariant allows, some philosopher or the command process can step |
| `Philosophers.NeverDeadlocked` | Userland/UserModule/c2/phyloTest.c:24-133 | the same after any interleaving from a fresh table of at least two |
| `Philosophers.Chase` | Userland/UserModule/c2/phyloTest.c:54-69 | from any hungry philosopher, following holders of awaited forks ends at one that can move |
| `Philosophers.NeighboursExclude` | Userland/UserModule/c2/phyloTest.c:54-69 | a fork is in at most one hand |
| `Philosophers.NoOvertaking` | Userland/UserModule/c2/phyloTest.c:54-69 | while a philosopher waits for a fork its holder stays the same, and the waiter is the next to hold it |
| `Philosophers.Barrier` | Userland/UserModule/c2/phyloTest.c:28-32 | a command process with all tokens is alone: every fork is free and no one waits for one |
| `Philosophers.TableChangesAlone` | Userland/UserModule/c2/phyloTest.c:96-133 | the table size, and so every right fork, changes only behind the barrier; a removed philosopher holds no fork and its fork is free |
| `Philosophers.TokensCirculate` | Userland/UserModule/c2/phyloTest.c:28-43 | outside a change as many tokens circulate as there are philosophers |
| `PhilosopherOrder.TokenInOrder` | Userland/UserModule/c2/phyloTest.c:28-94 | the tokens are handed out in the order of asking, to philosophers and command process alike: every event takes from the front of the queue or adds at its end, but for striking out a removed philosopher |
| `PhilosopherOrder.PostServesFirst` | Kernel/c/semaphores.c:125-150 | a post serves the first in the queue that was not killed, keeps the order of the others, and counts exactly when there is none |
| `PhilosopherOrder.KeyStarts` | Userland/UserModule/c2/phyloTest.c:96-117 | a key starts a change exactly if the table allows it: one more at 2 to 9 philosophers, one less at 3 or more, the end always; otherwise nothing happens |
| `PhilosopherOrder.TableSize` | Userland/UserModule/c2/phyloTest.c:96-133 | over every run from a table of 2 to 10 there are never more than 10, nor fewer than 2 before the end |
| `PhilosopherProgress.DelayStep` | Userland/UserModule/c2/phyloTest.c:54-94 | no step of anyone lengthens the way of a philosopher that holds a fork, and a move at the end of its chain of holders shortens it |
| `PhilosopherProgress.BoundedHunger` | Userland/UserModule/c2/phyloTest.c:54-94 | no starvation: while a philosopher waits for a fork, the end of its chain of holders can move, and has moved fewer than eight times |
| `PhilosopherTable.Dinner.constructor` | Userland/UserModule/c2/phyloTest.c:158-179 | the table before the first freeAll: all forks free, all tokens with the command process |
| `PhilosopherTable.Dinner.TakeForks` | Userland/UserModule/c2/phyloTest.c:54-63 | in the order its number asks for, the one or two steps of the interleaving until it eats or waits |
| `PhilosopherTable.Dinner.LeaveForks` | Userland/UserModule/c2/phyloTest.c:65-69 | the two steps that hand both forks on |
| `PhilosopherTable.Dinner.BlockAll` | Userland/UserModule/c2/phyloTest.c:28-32 | the loop is a run of the command process that ends waiting, or with all tokens and every fork free |
| `PhilosopherTable.Dinner.FreeAll` | Userland/UserModule/c2/phyloTest.c:39-43 | the loop is a run of the command process that ends with every token given back |
| `PhilosopherTable.Dinner.AddPhylo` | Userland/UserModule/c2/phyloTest.c:99-111 | behind the barrier a fork and a philosopher more, or nothing when the semaphore fails; all tokens go back |
| `PhilosopherTable.Dinner.RemPhylo` | Userland/UserModule/c2/phyloTest.c:119-131 | behind the barrier the last philosopher and its fork are gone, or nothing changes when it could not be killed; all tokens left go back |
| `PhilosopherTable.Dinner.PostTo` | Kernel/c/semaphores.c:125-150 | the dequeue loop finds the first waiter that was not killed, or counts |
| `History.MoveIsDropAppendKeep` | Userland/UserModule/c2/circularHistoryBuffer.c:88-108 | moving to the front is "drop the match, append, keep the last size", and keeps texts distinct |
| `History.NoDuplicates` | Userland/UserModule/c2/circularHistoryBuffer.c:88-108 | used without plain pushes the history never holds two matching elements |
| `History.Conservation` | Userland/UserModule/c2/circularHistoryBuffer.c:37-108 | over every run each element given to the history is stored or was freed, exactly once |
| `History.NewestFirst` | Userland/UserModule/c2/circularHistoryBuffer.c:53-59 | from any cursor, k reads back return the unread elements, newest first, then nothing; from rest these are all |
| `History.OnToNewest` | Userland/UserModule/c2/circularHistoryBuffer.c:45-51 | from a cursor at element u, k calls of readNext return elements u + 1, u + 2 and so on, then nothing for ever, and the cursor ends at min(u + k, the newest); from rest the first call returns nothing and nothing moves |
| `History.PushAppendsKeeps` | Userland/UserModule/c2/circularHistoryBuffer.c:37-43 | a push appends and keeps the last `size` elements; the one that falls out, the oldest, is freed |
| `History.NextUndoesPrev` | Userland/UserModule/c2/circularHistoryBuffer.c:45-59 | readNext takes back readPrev exactly between the ends: not the first step back from rest, and not one that found nothing unless at most one element is stored |
| `History.MovedDown` | Userland/UserModule/c2/circularHistoryBuffer.c:92-95 | a match below the write index: the shifted ring reads as the history without it, with the element last |
| `History.MovedUp` | Userland/UserModule/c2/circularHistoryBuffer.c:96-103 | the same above the write index, where the write index moves on |
| `History.CursorMoves` | Userland/UserModule/c2/circularHistoryBuffer.c:133-158 | stepping the read index by one, up or down, follows the cursor across the end of the ring |
| `History.CircularHistoryBuffer.constructor` | Userland/UserModule/c2/circularHistoryBuffer.c:23-35 | an empty history |
| `History.CircularHistoryBuffer.Push` | Userland/UserModule/c2/circularHistoryBuffer.c:37-43 | appends, frees the oldest of a full ring, resets the cursor |
| `History.CircularHistoryBuffer.ReadNext` | Userland/UserModule/c2/circularHistoryBuffer.c:45-51 | the next newer element of the sequence, or nothing |
| `History.CircularHistoryBuffer.ReadPrev` | Userland/UserModule/c2/circularHistoryBuffer.c:53-59 | the next older element of the sequence, or nothing |
| `History.CircularHistoryBuffer.MoveToFrontOrPush` | Userland/UserModule/c2/circularHistoryBuffer.c:88-108 | in place, for every position of the match and full and part-full rings, the specified move; the element moved is the one in the first matching slot |
| `History.CircularHistoryBuffer.Find` | Userland/UserModule/c2/array.c:189-199 | the first matching slot, or -1 when none matches |
| `History.CircularHistoryBuffer.SetFromOwn` | Userland/UserModule/c2/array.c:80-94 | the overlapping copy within the array moves the elements down |
| `Digits.NumeralValue` | Userland/UserModule/c2/stdlib.c:67-91 | the digits produced, read most significant first, have the value printed |
| `Digits.PositionalNotation` | Userland/UserModule/c2/stdlib.c:67-80 | in every base from 2 to 36 the numeral is the positional notation of the value in 0 to 9 and A to Z, without leading zeros |
| `Digits.DecimalRoundTrip` | Userland/UserModule/c2/stdlib.c:92-99 | a printed decimal parses back exactly when 32 bits hold the number, and to its 32-bit wrap otherwise |
| `Digits.HexRoundTrip` | Userland/UserModule/c2/stdlib.c:268-293 | "0x" and the hexadecimal digits parse back exactly when the number is below 2^31 |
| `Digits.OneMoreDigit` | Userland/UserModule/c2/stdlib.c:287-291 | adding a digit from the left with 32-bit sums and weights keeps the 32-bit value of the digits read |
| `Digits.DigitReadsBack` | Userland/UserModule/c2/stdlib.c:268-273 | hexCharToDec inverts the digit that is printed |
| `Digits.HexDigits` | Userland/UserModule/c2/stdlib.c:268-273 | figures and letters of either case have their hexadecimal value, every other character -1 |
| `Digits.MeaningOfPieces` | Userland/UserModule/c2/stdlib.c:274-293 | an optional "-", an optional "0x", anything that ends in no digit, and digits: the value of these digits with that sign, in 32 bits |
| `Digits.StrToInt` | Userland/UserModule/c2/stdlib.c:274-293 | for every string: the longest run of digits at its end, in the base of its prefix, with its sign, in 32 bits |
| `Digits.UintToBase` | Userland/UserModule/c2/stdlib.c:67-91 | the numeral and a terminating NUL are in the buffer, nothing else changed |
| `Digits.ReverseInPlace` | Userland/UserModule/c2/stdlib.c:81-88 | the loop over two pointers reverses the slice |
| `Digits.IntToBase` | Userland/UserModule/c2/stdlib.c:92-99 | sign, numeral and terminating NUL are in the buffer, nothing else changed; the digits are counted without the sign |

## Left out

- Boot code, context switching in assembly, interrupt controllers, video, keyboard, speaker and clock: hardware.
- Stacks, registers, names and pipes of a process: a process is its pid, state, priority, waiting table and exit code.
- processInForeground and parentProc: which process a Ctrl-C reaches is a parameter.
- WaitQueueSafety and the other statements about runs: take the calls of the speaker's process, which no gate protects, as single steps like all others; `KernelPreempted` treats the windows named above, and an interrupt while that process allocates memory, works on its list of sounds, or holds the lock of its semaphore is not modelled.
- KernelPreempted.LinksStale: the list behind the stale head is a parameter; that its nodes may have been freed and used again is not modelled.
- Machine.EnterRegion: the loop of _enter_region that switches context and tries again is not modelled, because no call of a run reaches it; only the lock of the speaker's own semaphore can be found taken, while its process is preempted inside its unprotected waitSemaphore.
- Keys other than Ctrl-C and F2: an event `Post` to the semaphore of standard input; the character itself, and the F1 key that saves registers, are not modelled.
- Semaphore names and look-ups by name, and the wrap of a semaphore's 32-bit value.
- Queue nodes, sleep nodes and PCB nodes as allocated memory: queues and the sleep list are sequences in the order of the links, a ring node is its pid, and their allocation succeeds.
- Machine.AddPCB: a process is created with its constants; the argument checks and the stack set-up of createProcess are not part of this model.
- Machine.IncTicks: takes a killed sleeper off the list before it exits, where the program does so after; `KernelSafety.AwakenOrder` proves the order makes no difference.
- Machine.WaitPid: requires room in the waiting table of 10 entries, which the code does not check.
- Machine.KillForeground: requires a target that was not already killed; `KernelExit.CtrlCIsSafeExactlyWhen` says what happens otherwise.
- Machine.Sleep: takes ticks; the floating-point conversion from milliseconds is not modelled.
- Machine.ChangePriority: the cut of the argument to 8 bits is not modelled.
- Heap.GetOrder: requires a size of at most 2^31; `BuddyHeap.GetOrderEnds` proves that its loop ends for no other.
- Heap.Malloc, Allocators: for the buddy allocator requires size + 16 of at most 2^31, for the free list size + 23 below 2^64; `RequestHolds` and `NeededFacts` give the exact limits.
- Memory is a map from address to header; payload bytes and pointer types are not modelled.
- The process heaps (`malloc` and `free` over a heap inside a process): the same functions with other bounds.
- standard input as a pipe (its keyboard writer does not wait for a slot), destroyPipe, and the table of pipes.
- Pipe.ReadPipe: semaphores of a pipe are counters that a waiting call may take from; `PipeOnKernel` ties them to the kernel's semaphores and their queues.
- Philosophers: the kill, the destroyed fork and the new size of a removal are one step, behind the barrier where no philosopher is at the table; the displayed state and print_mutex, which guards printing only, are not modelled, and the start-up is the table it builds.
- Dinner.RemPhylo: the branch in which the fork cannot be destroyed (phyloTest.c:124-128) is not modelled; only remPhylo and endPhylos destroy forks, each once.
- Dinner.AddPhylo, Dinner.RemPhylo: start behind the barrier; the check of the position and blockAll come before, as the event `Key` and `Dinner.BlockAll`.
- Philosophers.NoDeadlock: says that some step is possible, as does `PhilosopherProgress.BoundedHunger`; that the scheduler takes it is `KernelFairness`.
- Array growth, copies out of the array and the other array functions: the history never grows its array.
- History.CircularHistoryBuffer.SetFromOwn: copies element by element, not byte by byte.
- Digits: buffers are long enough, as every caller's is; signed 32-bit overflow wraps, as it does on the target.
- CHB_getLen, CHB_has, the shell, printf, the module loader, random numbers and BMFS: easy or independent of the core.
