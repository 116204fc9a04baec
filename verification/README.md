# Models and proofs for the kernel and its boot tools

The project models the parts of the system whose correctness is not visible from one function, and
proves what they are for:

- **Buddy allocator** (`LibBit`, `LibBuddy`, `BuddyTree`, `BuddyMemoryManager`, `BuddySizes`). The heap is kept three
  ways at once: packed `alloc` bits, packed `split` bits and circular doubly linked free lists. One
  ghost tree stands for all three, and `alloc` and `free` are verified on the arrays and links
  themselves. `NSIZES` is a parameter, and so is the width of the block index (16 in the code).
- **Processes, scheduler, semaphores** (`Processes`, `ProcessTable`, `SchedulerSafety`,
  `SchedulerTurns`, `Semaphores`, `Kernel`, `KernelRuns`, `KernelKills`, `KernelFairness`, `KernelBoot`). Each kernel
  entry is a function on the tables, the classes are verified against those functions, and the
  theorems speak of runs of timer ticks, keyboard interrupts and system calls. Interrupts are off
  during a system call, so a call is one step up to the point where it enters the scheduler. `Admitted`
  in `KernelRuns` says which steps a run may take, and `Enabled` which of them leave waiters alone.
- **The synchronised counter program** (`TestSync`, `SyncOnKernel`): the whole program, for every
  number of rounds, every set of increments and every schedule, and again on every run of the kernel.
- **Pipes** (`Pipes`, `PipeRuns`, `PipeEof`, `PipeTable`, `PipeOnKernel`): the byte ring, the
  interleavings of readers and writers on it, end of file, the life of the three semaphores, and all
  of it on every run of the kernel.
- **Page allocator** (`PageManager`), **image packer and module loader** (`ModuleImage`), **BMFS file
  creation** (`Bmfs`), **shell line splitting** (`Shell`).

`Sums` holds the counting lemmas that `TestSync`, `PipeRuns` and `PipeTable` share, and `KernelClients`
what `SyncOnKernel` and `PipeOnKernel` share.

Nine properties that one would expect are false of the code. Each comes with its input and with the
exact condition under which it holds:

- Block sizes are recovered from the split bits: iff the heap fits the block index (`BuddySizes.SizesExact`,
  `BuddySizes.LargeHeapSizeWrong`). The index has 16 bits, so the heap may have 65536 bytes; the header
  documents that arena for `NSIZES` 13, but `NSIZES` is 26. The allocator is verified for every heap
  within the range of its index.
- A read that returns early has seen everything written: iff the ring was not full when end of file was
  set (`PipeEof.EofDecides`, `PipeEof.FullRingIsLost`).
- A read of an emptied pipe returns after end of file: iff fewer than ten have done so (`PipeEof.EofReadBlocks`,
  `PipeEof.ElevenReads`).
- A failed creation of a pipe leaves the semaphores as they were: iff it meets no name that is taken
  (`PipeTable.CreateExact`).
- A semaphore that has just been created can be found by its name: iff the name has fewer than 32 characters
  (`Semaphores.CreatedFound`); a longer one is stored cut.
- A semaphore's queue has room for the synchronised workers: iff there are at most eleven
  (`TestSync.RoomExact`, `TestSync.TwelfthWaits`).
- The page allocator gives enough pages: iff their number fits in 32 bits (`PageManager.CountExact`,
  `PageManager.CountTooSmall`).
- Its records stay right: iff some page is counted (`PageManager.PageAllocator.Alloc`, `PageManager.MarkedBreaks`,
  `PageManager.CountNothing`).
- The gap scan of BMFS finds the lowest place that fits: iff the condition of `Bmfs.ScanExact` on deleted
  records holds (`Bmfs.DeletedMisleads`).

## Model

| member | source | states |
|---|---|---|
| LibBit.TestFact | Kernel/libs/lib_bit.c:14-19 | with signed chars and int promotion, the masked comparison is true exactly when the bit is 1, bit 7 included |
| LibBit.SetFact | Kernel/libs/lib_bit.c:26-31 | setting bit i of a byte turns that bit on and leaves each of the other seven alone |
| LibBit.ClearFact | Kernel/libs/lib_bit.c:38-43 | clearing bit i of a byte turns that bit off and leaves each of the other seven alone |
| LibBit.IsBitSet | Kernel/libs/lib_bit.c:14-19 | reads the map from index to bool that the packed array stands for |
| LibBit.SetBit | Kernel/libs/lib_bit.c:26-31 | adds one index to that map, for every index of the array |
| LibBit.ClearBit | Kernel/libs/lib_bit.c:38-43 | takes one index out of that map, for every index of the array |
| LibBuddy.FirstPower | Kernel/libs/lib_buddy.c:11-21 | the least order whose blocks hold n bytes |
| LibBuddy.IndexExact | Kernel/libs/lib_buddy.c:24-28 | an r-bit index equals the documented offset / BLK_SIZE(k) iff the offset is below 2^r or inside the first block |
| LibBuddy.HeapIndexExact | Kernel/libs/lib_buddy.c:24-28 | the index is right at every order and offset of a heap iff the heap fits the index range |
| LibBuddy.ShippedIndexWraps | Kernel/include/lib_buddy.h:37-44 | with NSIZES 26 and 16 bits, offset 65536 gets leaf index 0 instead of 4096 |
| LibBuddy.RoundTrip | Kernel/libs/lib_buddy.c:23-35 | with an r-bit index, going from an address to its index and back rounds the address down to its order iff the address is below 2^r or in the first block |
| LibBuddy.FreeLists.Init | Kernel/libs/lib_buddy.c:41-45 | a head linked to itself is an empty ring, and the other rings are untouched |
| LibBuddy.FreeLists.Push | Kernel/libs/lib_buddy.c:53-60 | the block becomes the first element; every ring stays a ring in both directions |
| LibBuddy.FreeLists.Remove | Kernel/libs/lib_buddy.c:47-51 | an element is unlinked from the middle of its list by its own two links only |
| LibBuddy.FreeLists.Pop | Kernel/libs/lib_buddy.c:62-69 | the first element is taken off, and an empty list gives nothing |
| LibBuddy.FreeLists.Scribble | Kernel/memory_management/buddy_memory_manager.c:80-90 | a caller that writes over a block it was given does not disturb any free list |
| BuddyTree.LeavesApart | Kernel/memory_management/buddy_memory_manager.c:64-121 | live and free blocks are pairwise disjoint address ranges |
| BuddyTree.InsideHeap | Kernel/memory_management/buddy_memory_manager.c:43-58 | a block of the tree ends inside the heap |
| BuddyTree.SplitIffLiveBelow | Kernel/memory_management/buddy_memory_manager.c:83-119 | a block is split iff some live block lies strictly below it |
| BuddyTree.UnusedIsFree | Kernel/memory_management/buddy_memory_manager.c:103-120 | because merging is maximal, a tree node without live bytes is one free block |
| BuddyTree.Canonical | Kernel/memory_management/buddy_memory_manager.c:97-121 | the live blocks determine the whole tree, so the order of earlier calls leaves no trace |
| BuddyTree.AllReleased | Kernel/memory_management/buddy_memory_manager.c:97-121 | once nothing is live, in whatever order it was freed, the heap is the single root block |
| BuddyTree.Completeness | Kernel/memory_management/buddy_memory_manager.c:70-78 | a free block of the order or above exists iff some aligned block of that order is wholly unused |
| BuddyTree.Conservation | Kernel/memory_management/buddy_memory_manager.c:64-121 | live bytes plus free bytes are HEAP_SIZE |
| BuddyTree.BuddyInTree | Kernel/memory_management/buddy_memory_manager.c:107-113 | below the root a node's buddy is in the tree, and it is free iff it is neither live nor split, so the unlink of an unmarked buddy is legal |
| BuddyTree.SplitAboveLive | Kernel/memory_management/buddy_memory_manager.c:18-26 | over a live block's address, the split orders are exactly those above its own |
| BuddyMemoryManager.BlockBits.IndexOf | Kernel/libs/lib_buddy.c:24-28 | within the range, the narrowed index of any address in a block is that block's index and is inside the array |
| BuddyMemoryManager.BuddyAllocator.constructor | Kernel/memory_management/buddy_memory_manager.c:41-58 | bits, lists and tree agree on one free block, the root |
| BuddyMemoryManager.BuddyAllocator.BlockSize | Kernel/memory_management/buddy_memory_manager.c:18-26 | for every live block below the root, the order it was given is recovered; the whole heap is reported as order 0 |
| BuddyMemoryManager.BuddyAllocator.FindList | Kernel/memory_management/buddy_memory_manager.c:72-76 | the lowest non-empty list at or above the order; it exists iff a free block that large exists |
| BuddyMemoryManager.BuddyAllocator.Alloc | Kernel/memory_management/buddy_memory_manager.c:64-91 | NULL iff no aligned block of the least fitting order is wholly unused, and then nothing changes; otherwise one new live block, aligned and previously unused, and the free lists in full |
| BuddyMemoryManager.BuddyAllocator.Free | Kernel/memory_management/buddy_memory_manager.c:97-121 | exactly the given block stops being live; it has merged with every free buddy on the way up, one unlinked per order; the lists in full |
| BuddyMemoryManager.BuddyAllocator.Store | Kernel/memory_management/buddy_memory_manager.c:64-91 | the owner of a block may write anywhere in it without harm to the allocator |
| BuddyMemoryManager.LiveBytesNotListed | Kernel/memory_management/buddy_memory_manager.c:80-90 | no list element lies inside a live block |
| BuddyMemoryManager.FreeUndoesAlloc | Kernel/memory_management/buddy_memory_manager.c:64-121 | freeing what was just allocated restores the tree and every free list, element by element and in order |
| BuddyMemoryManager.AllocThenFree | Kernel/memory_management/buddy_memory_manager.c:64-121 | a caller's alloc and free, whether or not there was room, leave tree and lists as they were |
| BuddySizes.SizesExact | Kernel/memory_management/buddy_memory_manager.c:18-26 | block_size recovers the order of every live block of every tree of a heap iff the heap fits the r-bit index |
| BuddySizes.LargeHeapSizeWrong | Kernel/memory_management/buddy_memory_manager.c:18-91 | on every larger heap two calls show it: after alloc(16), alloc(2^r) hands out the block at 2^r, of order r - 4, and block_size answers 0 for it |
| BuddySizes.ShippedSizeWrong | Kernel/include/lib_buddy.h:37-44 | with NSIZES 26 and 16 bits that is the block of 65536 bytes at offset 65536 |
| Processes.GetPid | Kernel/proc.c:473-487 | the lowest RUNNING slot, and -1 iff there is none |
| Processes.FreeSlot | Kernel/proc.c:24-56 | the lowest slot that is empty or a zombie, and -1 iff there is none |
| ProcessTable.ProcessTable.Scheduling | Kernel/scheduler.c:13-84 | the whole new state is the specified one, for every table |
| ProcessTable.ProcessTable.YieldNow | Kernel/scheduler.c:86-92 | the whole new state is the specified one |
| ProcessTable.ProcessTable.BlockProcess | Kernel/proc.c:197-220 | new state and result code are the specified ones, errors included |
| ProcessTable.ProcessTable.UnblockProcess | Kernel/proc.c:222-240 | new state and result code are the specified ones, errors included |
| ProcessTable.ProcessTable.KillProcess | Kernel/proc.c:309-379 | new state and result code are the specified ones, errors included |
| ProcessTable.ProcessTable.Nice | Kernel/scheduler.c:126-156 | new state and result code are the specified ones, errors included |
| ProcessTable.ProcessTable.CreateProcess | Kernel/proc.c:20-195 | new state and pid are the specified ones, for a full table and for failed allocations too |
| SchedulerSafety.ScheduleSafe | Kernel/scheduler.c:13-84 | afterwards exactly current_index is RUNNING, get_pid finds it, and it is idle only if nothing is READY |
| SchedulerSafety.YieldSafe | Kernel/scheduler.c:86-92 | the same after a yield, also when the caller has just blocked itself and nobody is RUNNING |
| SchedulerSafety.BlockSafe | Kernel/proc.c:197-220 | blocking any process keeps the table invariant |
| SchedulerSafety.UnblockSafe | Kernel/proc.c:222-240 | unblocking any process but idle keeps the table invariant and the CPU where it is |
| SchedulerSafety.KillSafe | Kernel/proc.c:309-379 | killing any process but idle keeps the table invariant, active_processes included |
| SchedulerSafety.NiceSafe | Kernel/scheduler.c:126-156 | changing a priority keeps the table invariant and the CPU where it is |
| SchedulerSafety.CreateSafe | Kernel/proc.c:20-195 | creating a process, or failing to, keeps the table invariant |
| SchedulerSafety.BootSafe | Kernel/kernel.c:68-80 | the first process is idle, in slot 0 and BLOCKED |
| SchedulerSafety.YieldKeepsBlocked | Kernel/scheduler.c:13-92 | a BLOCKED process's record is untouched by whoever else yields |
| SchedulerTurns.DispatchNext | Kernel/scheduler.c:54-83 | the search gives the CPU to the READY process with the fewest slots between it and current_index, or to idle when nothing is READY, and changes nothing else about anybody |
| SchedulerTurns.SliceRunsOn | Kernel/scheduler.c:25-49 | before the last tick of its slice an undisturbed process keeps the CPU and only its two tick counters move |
| SchedulerTurns.SliceEnds | Kernel/scheduler.c:29-83 | on the last tick the next in turn takes over if anyone else is READY, and otherwise the process goes on; of its record exactly these change: state, used time (0 again), ticks, one of the two switch counters, and a yield that is used up unless the slice had run out; nobody else's changes |
| SchedulerTurns.YieldHandsOver | Kernel/scheduler.c:86-92 | a yield is that same hand-over at once, whatever the slice had left |
| SchedulerTurns.YieldRecord | Kernel/scheduler.c:25-92 | field by field, what a process that yielded and lost the CPU is left with; before its last tick the yield is used up, and a whole slice of max_time ticks is ahead of it |
| SchedulerTurns.SliceRecord | Kernel/scheduler.c:25-83 | and one whose slice ran out by itself: its next slice is whole too |
| SchedulerTurns.WholeSlice | Kernel/scheduler.c:25-83 | a process left alone from the start of its slice keeps the CPU for exactly max_time ticks, and loses it on the last of them iff anyone is READY |
| SchedulerTurns.NiceEffect | Kernel/scheduler.c:126-156 | level p gives a slice of 2 * 5^(4 - p) ticks and changes nothing else; an unknown pid, a level out of range, a zombie and idle are refused with their codes, and then nothing changes |
| SchedulerTurns.NiceSlice | Kernel/scheduler.c:25-156 | a process given level p at the start of its slice and left alone keeps the CPU for 2 * 5^(4 - p) ticks, and loses it on the last of them iff anyone else is READY |
| SchedulerTurns.BlockCounts | Kernel/proc.c:197-220 | the code for every case; a refused block changes nothing; otherwise the process is BLOCKED with one block more and the rest of its record as it was, and the caller hands over as by a yield, or to the next in turn or idle when it has blocked itself |
| SchedulerTurns.UnblockCounts | Kernel/proc.c:222-240 | the code for every case; an unblock takes one block off, makes the process READY iff that was the last, and touches nothing else |
| SchedulerTurns.BlocksNest | Kernel/proc.c:222-240 | a process becomes READY with exactly as many unblocks as it has blocks outstanding, not sooner |
| SchedulerTurns.KillEffect | Kernel/proc.c:309-379 | the code for every case; a refused kill changes nothing; a killed process is a zombie with the rest of its record as it was (the tick of its slice aside, if it was running), counted out, and the CPU is elsewhere |
| SchedulerTurns.CreateEffect | Kernel/proc.c:20-195 | a full table or failed memory gives its code; otherwise the first slot without a live process holds one that is READY at level 4 with 2 ticks, everything else zero, counted in, and nobody else changes |
| SchedulerTurns.CreateWaits | Kernel/proc.c:20-195 | creating a process named "wait" is that and then its creator's yield, which always loses the CPU |
| Semaphores.Find | Kernel/sem.c:14-24 | the lowest open slot with the name, and -1 iff no open slot has it |
| Semaphores.FindClosed | Kernel/sem.c:46-55 | the lowest slot not in use, and -1 iff the table is full |
| Semaphores.StoredIs | Kernel/sem.c:62-63 | the name kept is the first 31 characters |
| Semaphores.SignedIs | Kernel/sem.c:64-64 | the signed value is the unsigned one modulo 2^32 |
| Semaphores.OpenEffect | Kernel/sem.c:27-69 | one opening more on the one that exists; or the first closed slot, with nobody waiting and one opening; or no room; each with its code, and nothing else changes |
| Semaphores.CreatedFound | Kernel/sem.c:14-69 | a semaphore just created is found under its name iff the name has fewer than 32 characters |
| Semaphores.CloseEffect | Kernel/sem.c:128-147 | one opening is given back, the slot goes exactly with the last, and what does not exist is refused |
| Semaphores.Semaphore.Decrement | Kernel/sem.c:80-96 | the value goes down, and the caller joins the end of the queue iff it became negative |
| Semaphores.Semaphore.Increment | Kernel/sem.c:110-121 | the value goes up, and the head of the queue is taken off and the rest shifted iff someone waits |
| Semaphores.SemTable.OpenInit | Kernel/sem.c:27-69 | new table and result code are the specified ones: created, already there, or no room |
| Semaphores.SemTable.CloseSem | Kernel/sem.c:128-147 | new table and result code are the specified ones: released at the last opening |
| Kernel.Machine.Wait | Kernel/sem.c:71-99 | process table and semaphore table together end as specified, also when the caller blocks |
| Kernel.Machine.Post | Kernel/sem.c:101-126 | process table and semaphore table together end as specified, also when a waiter is woken |
| KernelRuns.StepKeepsBase | Kernel/scheduler.c:13-92 | every kernel entry, the keyboard interrupt while idle runs and the kill of a waiter included, keeps one RUNNING process, the exact live count, and idle off every queue |
| KernelRuns.StepKeepsInv | Kernel/sem.c:71-147 | when waiters are left to the posts that wake them, every entry also keeps each waiter BLOCKED and on one queue once, and the queues as long as the values say |
| KernelRuns.WaiterStays | Kernel/proc.c:222-240 | then a process on a queue stays BLOCKED through every step but the post that takes it off |
| KernelRuns.WaitEffect | Kernel/sem.c:71-99 | when there is one to take, the caller goes on and only the value changes; otherwise it joins the end of the queue, BLOCKED with one block more, and the CPU goes to the next in turn or to idle |
| KernelRuns.PostEffect | Kernel/sem.c:101-126 | with nobody queued only the value changes; otherwise the first in the queue leaves it with one block fewer, READY iff that was its last, and every other record is as it was |
| KernelRuns.Accounting | Kernel/sem.c:71-126 | over every run in which a semaphore stays open: value = initial + posts - waits |
| KernelRuns.WakeOrder | Kernel/sem.c:84-121 | over every run in which waiters are left to the posts that wake them: those who block on a semaphore leave its queue in the order they came, and each is unblocked once by the post that takes it off |
| KernelKills.KillInOrder | Kernel/proc.c:309-379 | a kill that closes pipes and wakes a waiting parent between marking its process and entering the scheduler ends exactly like the run in which those posts, closes and wake-ups come first |
| KernelBoot.BootInv | Kernel/kernel.c:68-80 | the tables at boot satisfy the invariant |
| KernelBoot.SafeFromBoot | Kernel/proc.c:197-240 | after any run from boot: at most one process is RUNNING, it is current_index and get_pid finds it, and there is one from the first tick on; active_processes is exact; a live process other than idle is BLOCKED iff it has blocks outstanding |
| KernelBoot.WaitersFromBoot | Kernel/sem.c:71-126 | and when waiters are left to the posts that wake them: each queue is as long as its value says, and its waiters are distinct, BLOCKED and on no other queue |
| KernelFairness.ScheduleApproaches | Kernel/scheduler.c:13-84 | one scheduler call gives a READY process the CPU or brings it strictly closer |
| KernelFairness.StepApproaches | Kernel/scheduler.c:13-92 | whatever other processes do, a READY process comes no further from the CPU, and strictly closer when the scheduler is entered |
| KernelFairness.BoundedWaiting | Kernel/scheduler.c:13-112 | on every run, a READY process that nobody blocks or kills is running within 63 * 1250 scheduler calls, whatever is created, killed, blocked, woken or typed meanwhile; and until then its record stays as it was, priority aside |
| KernelFairness.CreatedRuns | Kernel/proc.c:20-195 | a process just created, unless somebody blocks, kills or reprioritises it, is running within that bound; left alone from there it keeps the CPU for exactly 2 ticks, losing it on the second iff anyone is READY |
| KernelFairness.YieldedRuns | Kernel/scheduler.c:13-92 | a process that yielded before its last tick and lost the CPU, unless somebody blocks, kills or reprioritises it, is running within that bound, with its whole slice before it |
| KernelFairness.WokenRuns | Kernel/sem.c:101-126 | a process whose last block a post takes off, unless somebody blocks or kills it, is running within that bound |
| TestSync.MutualExclusion | Userland/userCodeModule/tests/test_sync.c:49-88 | for every schedule, and across closing and re-opening, at most one worker is between sem_wait and sem_post, and no call of a worker fails |
| TestSync.NothingLost | Userland/userCodeModule/tests/test_sync.c:13-19 | for every n, schedule and set of increments the final value is n times their sum in 64 bits; 0 when they cancel |
| TestSync.NothingLeft | Userland/userCodeModule/tests/test_sync.c:85-88 | once all workers have exited the semaphore they shared is gone from the table |
| TestSync.WrapIs | Userland/userCodeModule/tests/test_sync.c:13-19 | the final value as an int64_t: the one number of 64 bits that differs from the sum by a multiple of 2^64 |
| TestSync.MoveKeeps | Userland/userCodeModule/tests/test_sync.c:49-88 | every step of a worker keeps the program's invariant |
| TestSync.RoomExact | Kernel/include/sem.h:8-17 | on every run of the program every wait finds a place in the queue of ten iff there are at most eleven workers |
| TestSync.TwelfthWaits | Kernel/sem.c:84-90 | the run in which a twelfth worker waits when all ten places are taken |
| TestSync.NoDeadlock | Userland/userCodeModule/tests/test_sync.c:56-88 | while a worker is not done, some worker can move |
| TestSync.RaceWithoutSemaphore | Userland/userCodeModule/tests/test_sync.c:13-19 | without the semaphore there is a schedule of one +1 and one -1 worker that ends at -1 |
| SyncOnKernel.RunsOnKernel | Kernel/sem.c:27-147 | workers that are processes with any pids, acting when RUNNING, among interrupts and all other processes: their run is a legal run of the kernel, with room for every waiter |
| SyncOnKernel.RunsProgram | Kernel/sem.c:27-147 | and, with pids read as workers, a run of the program of TestSync, step by step |
| SyncOnKernel.MutualExclusion | Userland/userCodeModule/tests/test_sync.c:49-88 | so on the kernel, of two workers between sem_wait and sem_post at least one is held on the semaphore's queue, and no system call of a worker fails |
| SyncOnKernel.NothingLost | Userland/userCodeModule/tests/test_sync.c:13-19 | and once all have exited the shared variable holds n times the sum of the increments in 64 bits, 0 when they cancel |
| Pipes.PipeObject.constructor | Kernel/pipes.c:333-362 | an empty ring and the three semaphores at 1, 0 and 1024 |
| Pipes.PipeObject.PutByte | Kernel/pipes.c:235-246 | one byte written under the lock, and the reader it wakes, as specified |
| Pipes.PipeObject.TakeByte | Kernel/pipes.c:271-292 | one byte read under the lock, or the return at end of file, with the lock posted once or twice as in the code |
| Pipes.PipeObject.Write | Kernel/pipes.c:229-251 | the loop up to its return or to where it blocks ends as specified: pipe, bytes left, processes woken in order |
| Pipes.PipeObject.Read | Kernel/pipes.c:264-295 | the loop up to its return or to where it blocks ends as specified: pipe, bytes read, processes woken in order |
| Pipes.WriteWakes | Kernel/pipes.c:229-251 | the readers that a pipe_write wakes are those it takes off the queue for items, in order |
| Pipes.ReadWakes | Kernel/pipes.c:264-295 | the writers that a pipe_read wakes are those it takes off the queue for space, in order |
| PipeRuns.Fifo | Kernel/pipes.c:218-296 | for every interleaving: bytes delivered are a prefix of those deposited, the index difference is the number pending, and pending bytes, space tokens and tokens in hand add up to 1024 |
| PipeRuns.MoveKeeps | Kernel/pipes.c:173-314 | every move of any process, opening and closing included, keeps the pipe invariant |
| PipeRuns.WriteLoopIsMoves | Kernel/pipes.c:229-251 | the loop of pipe_write is the process's single moves one after another, so the run theorems are about it |
| PipeRuns.ReadLoopIsMoves | Kernel/pipes.c:264-295 | the loop of pipe_read is the process's single moves one after another |
| PipeRuns.WriteCall | Kernel/pipes.c:218-252 | a pipe_write that is not interrupted puts in a prefix of its bytes, in order, and ends iff that is all of them; otherwise it is queued with the rest |
| PipeRuns.ReadCall | Kernel/pipes.c:254-296 | a pipe_read that is not interrupted delivers what it returns, in order; it ends with all it wants, or with less only after end of file, and otherwise is queued for the rest |
| PipeRuns.LastWriterWakesAll | Kernel/pipes.c:187-198 | the last writer's close sets end of file and leaves no reader waiting |
| PipeRuns.LockNeverBlocks | Kernel/pipes.c:235-243 | on every run from a new pipe nobody ever waits for the pipe's lock |
| PipeRuns.LockCounts | Kernel/pipes.c:274-284 | what posting the lock twice does: on every run from a new pipe it stands at 1 and one more for each byte read from a full ring before end of file |
| PipeRuns.ShortRead | Kernel/pipes.c:274-281 | a read ends early iff it is end of file and the ring is empty or full; otherwise it gets the oldest pending byte |
| PipeEof.DepositedForGood | Kernel/pipes.c:187-198 | after end of file nothing goes in on any run, and the pending bytes never grow |
| PipeEof.EofDecides | Kernel/pipes.c:274-281 | whenever, on any run after end of file, a read returns early: everything ever written has been delivered iff the ring was not full when end of file was set |
| PipeEof.FullRingIsLost | Kernel/pipes.c:187-281 | on every new pipe the failing run exists: write 1024 bytes, close, read, and the read returns 0 with all of them undelivered |
| PipeEof.AtMostTenEarly | Kernel/pipes.c:187-281 | from the last writer's close on, on any run, at most ten reads return early (and if the ring was full, at most as many more as it holds) |
| PipeEof.EofReadBlocks | Kernel/pipes.c:264-281 | a read of the emptied pipe after end of file, with no other read under way, blocks iff ten reads have returned early since |
| PipeEof.Stranded | Kernel/pipes.c:264-281 | a reader queued then stays queued on every run, and the pipe is never released |
| PipeEof.ElevenReads | Kernel/pipes.c:187-281 | on every new pipe that run exists: close the writing end and read eleven times |
| PipeRuns.ReleasedAtZero | Kernel/pipes.c:205-212 | ref_count is read opens plus write opens, and the slot and its three semaphores go exactly when it reaches zero |
| PipeRuns.LifeOf | Kernel/pipes.c:173-212 | on every run from a new pipe: the slot is in use exactly while fewer ends have been closed than opened, and end of file is set exactly once the writing end has been closed as often as opened |
| PipeTable.CreateEffect | Kernel/pipes.c:333-362 | creation succeeds iff three semaphore slots are closed; then exactly those three semaphores are new, and when it fails all is rolled back |
| PipeTable.CreateExact | Kernel/pipes.c:333-362 | for every table: a creation succeeds or leaves every semaphore as it was iff it meets no name that is taken on the way; otherwise that semaphore keeps one opening more |
| PipeTable.DecimalReads | Kernel/pipes.c:92-95 | the slot number in a name is written in decimal digits that read back as it |
| PipeTable.NamesApart | Kernel/pipes.c:94-95 | no semaphore name of one pipe slot is a semaphore name of another |
| PipeTable.TwoPipes | Kernel/pipes.c:333-362 | with the pipe of one slot just created and the names of another unused, creating the second succeeds iff three semaphore slots are closed, and leaves the first one's semaphores as they are |
| PipeTable.ReleaseUndoesCreate | Kernel/pipes.c:205-212 | releasing a new pipe restores the semaphore table as seen by name |
| PipeTable.CreatePipeObject | Kernel/pipes.c:343-361 | the opens and the rollback on the semaphore table end as specified |
| PipeTable.ReleasePipeObject | Kernel/pipes.c:206-212 | the three closes on the semaphore table end as specified |
| PipeOnKernel.OpsAreTheMove | Kernel/pipes.c:205-296 | the semaphore calls of pipe_write, pipe_read and pipe_close change the pipe's three semaphores as its moves say |
| PipeOnKernel.RunsOnKernel | Kernel/pipes.c:173-296 | the pipe's processes among everything else the kernel does: their moves are legal calls on the kernel's own semaphore table |
| PipeOnKernel.RunsPipe | Kernel/pipes.c:173-296 | and, with pids read as clients, a run of the pipe of PipeRuns |
| PipeOnKernel.Fifo | Kernel/pipes.c:218-296 | so from the creation of a pipe on the kernel: bytes come out in the order they went in, and pending bytes, the tokens on the kernel's semaphore and those in hand add up to 1024 |
| PipeOnKernel.EofDecides | Kernel/pipes.c:274-281 | on every run of the kernel: a read that returns early has seen everything written iff the ring was not full when end of file was set |
| PipeOnKernel.Stranded | Kernel/pipes.c:264-281 | on every run of the kernel the eleventh reader stays BLOCKED on the kernel's semaphore |
| PipeOnKernel.ReleasedAtZero | Kernel/pipes.c:205-212 | the three semaphores leave the kernel's table exactly when the last opening of either end is closed |
| PageManager.PageAllocator.ResetFirst | Kernel/memory_management/memory_manager.c:39-50 | first_free_index becomes the lowest free page, if any page is free |
| PageManager.PageAllocator.FindRun | Kernel/memory_management/memory_manager.c:87-102 | starting late and skipping past used pages finds the same lowest start as trying every start from 0, and fails iff nothing fits |
| PageManager.PageAllocator.Alloc | Kernel/memory_management/memory_manager.c:76-126 | for every 64-bit size: NULL iff it is 0 or no run of as many free pages as counted exists; otherwise the lowest such run becomes one used run and nothing else changes. The representation survives iff the size is 0 or some page is counted, and with none counted and none free the search runs past the records |
| PageManager.CountExact | Kernel/memory_management/memory_manager.c:82-82 | for every 64-bit size, the pages counted hold the request iff the pages it takes fit in 32 bits, and then they are the fewest that do |
| PageManager.CountTooSmall | Kernel/memory_management/memory_manager.c:82-82 | a request of 2^44 bytes and a page is given one page |
| PageManager.CountNothing | Kernel/memory_management/memory_manager.c:82-82 | a request of 2^44 bytes is counted as no page |
| PageManager.MarkedBreaks | Kernel/memory_management/memory_manager.c:106-119 | what alloc then does to the lowest free page leaves it used and in no run, and the cached free count one too high |
| PageManager.PageAllocator.Free | Kernel/memory_management/memory_manager.c:132-152 | the run headed by the address's page becomes free; an address in a page that heads no run changes nothing |
| PageManager.OccupiedOk | Kernel/memory_management/memory_manager.c:106-119 | marking a free stretch keeps used pages the disjoint union of the runs, and the free count right |
| PageManager.VacatedOk | Kernel/memory_management/memory_manager.c:137-151 | so does freeing a run |
| PageManager.RunsApart | Kernel/memory_management/memory_manager.c:106-112 | no page is in two runs |
| PageManager.FreeUndoesAlloc | Kernel/memory_management/memory_manager.c:76-152 | an alloc and the free of its result restore the pages, first_free_index and the free count |
| ModuleImage.WriteFile | Toolchain/ModulePacker/main.c:109-119 | copying in 128-byte chunks until end of file appends exactly the file |
| ModuleImage.BuildImage | Toolchain/ModulePacker/main.c:52-85 | the kernel comes first, then the count, and a size and contents per module, in order |
| ModuleImage.LayoutEnds | Toolchain/ModulePacker/main.c:60-85 | the image is the kernel, then the number of modules, and ends where the last module does |
| ModuleImage.Layout | Toolchain/ModulePacker/main.c:69-82 | each module stands after its size, right behind the module before it |
| ModuleImage.ByteOrder | Toolchain/ModulePacker/main.c:66-103 | a number is written with its lowest byte first |
| ModuleImage.Memcpy | Kernel/libs/lib_mem.c:18-54 | by words or by bytes, on disjoint ranges the copy is the same and nothing else changes |
| ModuleImage.ReadUint32 | Kernel/moduleLoader.c:41-46 | the one number whose four stored bytes stand at the cursor |
| ModuleImage.LoadModules | Kernel/moduleLoader.c:12-20 | every target holds its module, and no byte outside the targets changes |
| ModuleImage.PackAndLoad | Toolchain/ModulePacker/main.c:52-85 | for every list of files: loading what the packer wrote leaves each file at its target |
| Bmfs.Disk.Format | Bootloader/BMFS/bmfs.c:258-268 | a directory without files |
| Bmfs.Disk.Create | Bootloader/BMFS/bmfs.c:608-717 | after any run of creates extents are disjoint and between the two reserved blocks; the new file gets the fewest 2 MiB blocks that hold its size, at the lowest place where they fit; refused for space iff nothing that holds it fits; on every error nothing changes |
| Bmfs.Disk.FindFile | Bootloader/BMFS/bmfs.c:203-229 | found iff some record before the end has the name, deleted records or not |
| Bmfs.Disk.CountEntries | Bootloader/BMFS/bmfs.c:633-649 | the new record's place is the first deleted record or the end, and none iff all 64 are in use; the count of a directory without an end mark is 0 |
| Bmfs.ScanExact | Bootloader/BMFS/bmfs.c:661-688 | with deleted records the scan gives the lowest place where a file fits, or 0 when it fits nowhere, iff it fits somewhere or no deleted record ends that many blocks before the last block |
| Bmfs.DeletedMisleads | Bootloader/BMFS/bmfs.c:681-682 | a directory with one deleted record in which a new file is laid over a file |
| Bmfs.SortedInOrder | Bootloader/BMFS/bmfs.c:595-606 | in the sorted copy each file ends before the next begins |
| Bmfs.GapLength | Bootloader/BMFS/bmfs.c:670-675 | gaps have no negative length, so the unsigned subtraction never wraps |
| Bmfs.NothingBefore | Bootloader/BMFS/bmfs.c:661-683 | while every earlier gap is too small, no file of this size fits earlier |
| Shell.RemoveExtraSpaces | Userland/userCodeModule/shell.c:481-508 | in place, the line becomes its words with single spaces between them |
| Shell.NormaliseKeepsWords | Userland/userCodeModule/shell.c:481-508 | that keeps the words in order and is idempotent |
| Shell.WordsCut | Userland/userCodeModule/shell.c:481-508 | the line is exactly the words, whole and in order, with blanks and nothing else around and between them |
| Shell.ParseArguments | Userland/userCodeModule/shell.c:394-423 | on a normalised line argv points to the words, at most nine, with the excess together in the last; NULL after them |
| Shell.ArgumentsAre | Userland/userCodeModule/shell.c:394-423 | there are at most nine arguments; the first eight are the first eight words, and the ninth is the ninth word if there are no more |
| Shell.ArgumentsJoin | Userland/userCodeModule/shell.c:394-423 | joining the arguments with single spaces gives the line back |

## Left out

- BuddyMemoryManager.BuddyAllocator.Free: does not cover a block that is the whole heap; block_size reports it as order 0 (Kernel/memory_management/buddy_memory_manager.c:25), so the code puts it on the wrong list.
- BuddyMemoryManager.BuddyAllocator.Alloc: assumes a request of at most 2^63 bytes, since first_power does not end beyond that, and a heap within the range of the block index and of the uint32_t product in bi_to_addr.
- BuddyMemoryManager.BuddyAllocator.constructor: create_mm runs once and the base address is not null; linearMalloc, its addresses and both versions of status_count are not modelled. The root's alloc bit is never cleared (the loop stops below it), so the invariant says nothing about it.
- ProcessTable.ProcessTable.KillProcess: the part of a kill that marks the process and gives up the CPU. Closing its pipes and waking a waiting parent are separate steps, which KernelKills.KillInOrder puts in the code's order; the child list and killing the shell are not modelled.
- ProcessTable.ProcessTable.CreateProcess: memory for the PCB, the stack and argv is a yes-or-no parameter; the stack's contents, argv, descriptors and child lists are not modelled.
- SchedulerSafety.YieldSafe: yield indexes the table with get_pid() even when that is -1, which happens after a self-block (Kernel/scheduler.c:90); the model then just enters the scheduler.
- SchedulerTurns.SliceEnds: a slice that ends by running out leaves the yielding flag as it was, as in the code, so a process that yielded on its last tick has a next slice of one tick.
- KernelRuns.Accounting: runs without killing idle or the shell, waking idle, or an eleventh waiter, which would be written past the queue (Kernel/sem.c:87); no user process is named "idle"; the spinlock of a semaphore is always free, because calls are not interrupted.
- KernelRuns.WakeOrder: runs in which nobody kills a queued process or wakes it from outside (README.md:137-144 lists this as unfinished: the killed process stays on the queue), and initial values are below 2^31.
- Semaphores.Semaphore.Decrement: requires a place in the queue of ten; the code does not check.
- TestSync.MutualExclusion: at most eleven workers, other programs do not use the name "sem" and leave a slot for it; argument parsing and the error exits are not modelled.
- SyncOnKernel.MutualExclusion: the same, on runs in which nobody kills or wakes a process that waits.
- PipeRuns.Fifo: anonymous pipes used with matched opens and closes, with no reopening of the writing end after end of file. The lock may exceed 1 once a full ring is read; the table lock is never contended and is not represented.
- PipeRuns.LastWriterWakesAll: ten posts wake ten readers, which is all that the queue has room for.
- KernelKills.KillInOrder: a kill whose own pipe posts would wake the killed process, which must then be queued on its own pipe, is left out.
- PipeTable.CreateEffect: says what a creation does whose names are not in use; CreateExact covers the others.
- PipeOnKernel.Fifo: other programs do not use the names of the pipe's semaphores, nobody kills or wakes a process that waits, and the pipe is followed until its last reference is closed.
- PipeTable.CreatePipeObject: about the semaphores only; the search for a free one of the sixteen pipe slots is not modelled.
- PageManager.PageAllocator.Alloc: the managed memory is at most 4 GiB; what the code does after its search has read past the records (no page counted, none free) is undefined, and nothing is said of it.
- PageManager.PageAllocator.Free: a null address or one inside the managed memory; an address anywhere inside a head page frees the run, as in the code.
- ModuleImage.BuildImage: files are given by their contents; the command line, checkFiles and failing file operations are not modelled.
- ModuleImage.LoadModules: targets overlap neither each other nor the payload, and modules are below 2^32 bytes; console output is not modelled.
- Bmfs.Disk.Create: a disk of 2 blocks or more and sizes of at least 1, as the command line enforces; runs of creates without deletions (Bmfs.ScanExact says what a deleted record does to the scan); qsort is trusted to return the files in order, before the deleted records; the disk image itself, initialize, list, read and write are not modelled.
- Shell.ParseArguments: on a line that was not normalised first it states only bounds; the shell normalises first. Running the commands is not modelled.
- Waiting for a child and reaping zombies: a slot can be reused before its parent resumes, so no property holds of all runs.
- Named pipes: their open counts and end-of-file flag are not reset on creation.
- Killing processes through mvar, close_all_sems, the child list and its reparenting: unfinished in the code.
- Interrupt entry, stack building, drivers, fonts, sound, clock, date and keyboard code: hardware, or easy to get right.
