# Kernel of the RISC-V operating system: a verified model

This project models four parts of the teaching operating system for 32-bit RISC-V under `code/` and proves
properties of them for all inputs and all runs.

**The two-level allocator.** `PageAllocator` is the first-fit page allocator over one flag byte per page.
`HeapSpec` gives the boundary-tag heap as a value: a sequence of blocks, with first fit, splitting, growth by
pages and coalescing. `HeapTheorems` holds what that value keeps over every run. `HeapMemory` relates it to
words of memory (a word is a size in multiples of 4 and two flag bits), and `KernelHeap` is the code itself:
headers and footers overwritten in place, the growth loop and its rollback. The class covers both versions of
the allocator; `footerOnTake` tells whether a block taken whole gets its footer rewritten.

**The software timers.** `SortedList` and `SkipList` are the two queues with their pointers; `SkipLinks` says
what the forward pointers of a skip list mean. `TimerSpec` and `TimerTheorems` give the queue as a sorted
sequence and the timer service as a state machine over creations and ticks, `CreationOrder` adds the history of
creations to it and proves the order of firing; `TimerService` is the service over each queue.

**Scheduling.** `PriorityScheduler` is the scheduler of `ex_13_1`: least priority number first, weighted round
robin among equals; `TaskTable` says what its steps write into the task table. `SleepScheduler` and `SleepManager` are
the scheduler of `ex_15_1` with sleeping and waking through the timer queue; `SleepSteps` says for each step what runs
behind it and what it writes into table and queue. `TrapCode`, `ContextSwitch` and `TrapMachine` are the context switch
of `os/11-syscall`: the instructions of `entry.S` as data, an interpreter for them, and the trap handler, system call
and round robin around them; `TrapOutcomes` says for each cause, in registers and addresses, what a trap does.

**The formatter.** `Printf` is the two-pass formatter of `ex_15_1` against the text that a format stands for, and
`PrintedText` reads that text back.

Code that changes state is a class with the same fields; each of its methods is tied to a function on values,
and the theorems are about that function. Steps of one C function that are separate methods here are named in
their comments.

Where the code does not do what its comments suggest, the model follows the code:

- `task_sleep` with 0 ticks creates no timer; the caller, preempted before its next call of the scheduler, never
  runs again (`ZeroSleepLost`); a sleep can end if and only if it is for more than 0 ticks (`SleepEndsIff`).
- `schedule` of `ex_15_1` assigns the next task in every case, so time slices have no effect (`KeepsCurrentIff`);
  what is left is a round robin of one call per candidate (`EachCandidateOnce`).
- The measuring pass of `printf` does not consume the argument of `%c`. It counts the formatted text for all suitable
  arguments if and only if no `%d`, `%u` or `%s` stands behind a `%c` (`MeasuredRightIff`; `CharMeasuredWrong` is a
  format whose text is cut).
- In a format, any character that is no conversion leaves the `%` open, so `%%` prints no percent sign and a letter
  behind it can take an argument (`PercentPrintsNothing`, `PercentTakesArgument`). The code gives the text with percent
  signs for all suitable arguments if and only if no `%` is met while a `%` is open (`PercentsRightIff`).
- `skip_list_search` with the priority 0xFFFFFFFF finds the tail when no node has that priority (`SearchInvalid`).
- Equal timeouts fire first in, first out with the list and last in, first out with the skip list (`FiringOrder`).
- `task_yield` of `ex_13_1` goes on with the task that yields while that is a candidate with slice left
  (`YieldKeepsIff`); and a task created in the slot of the task that exited last, while the kernel idles, goes on with
  that task's counter (`ReusedSlot`).
- `page_init` counts whole pages of the heap size, but aligns the start upwards; `PoolInsideHeapIff` gives the heaps
  that hold such a pool. The linker's heap does: its pool ends exactly with the memory (`LinkedPool`).

What callers owe, as preconditions: a request to `mm_malloc` does not wrap 32 bits (`NoWrap`; `AllocSizeCoversIff`
shows this is exactly when the allocated size covers the request); `mm_free` gets NULL or a live block; `page_alloc`
gets between 1 page and all pages; `page_free` gets NULL or an address in or behind the pool; the page pool ends below
address 2^32; the word below the heap is zero; neither the tick counter nor a timeout tick wraps; priorities of timers
are at most 0xFFFFFFFF, and deleting by that very value needs a node that has it; a task's pointer given to
`sys_gethid` does not point into the kernel's contexts; variable arguments suit their conversions.

`dafny verify dfyconfig.toml` verifies the whole project.

## Model

| member | source | states |
|---|---|---|
| `PageAllocator.PoolInsideHeapIff` | code/exercises/ex_8_1/page.c:73-102 | the page pool ends inside the heap if and only if the bytes lost to aligning its start fit into the heap's partial last page |
| `PageAllocator.PoolFillsHeap` | code/exercises/ex_8_1/page.c:73-102 | a heap that ends at a page boundary is filled by its pool up to its last byte |
| `PageAllocator.LinkedPool` | code/exercises/ex_8_1/os.ld:131-135 | for the heap that the linker lays out, wherever it starts, the pool ends exactly with the memory, within 32-bit addresses, and the page descriptors fit in front of it |
| `PageAllocator.Pages.constructor` | code/exercises/ex_8_1/page.c:79-102 | page_init: the pool starts at the aligned address behind the descriptors and every page is free |
| `PageAllocator.Pages.Alloc` | code/exercises/ex_8_1/page.c:108-147 | returns the lowest run of npages free pages, marked as one block, and 0 only when there is no such run, with no descriptor changed |
| `PageAllocator.Pages.MarkRun` | code/exercises/ex_8_1/page.c:130-141 | the pages of the run become TAKEN, the last one LAST, all other descriptors stay |
| `PageAllocator.Pages.Free` | code/exercises/ex_8_1/page.c:153-174 | clears exactly the pages from p up to the first LAST page; NULL and addresses behind the pool change nothing |
| `PageAllocator.Pages.ClearFrom` | code/exercises/ex_8_1/page.c:162-173 | the clearing loop clears exactly the pages of the walk |
| `PageAllocator.AllocMakesBlock` | code/exercises/ex_8_1/page.c:108-147 | after page_alloc the map is a disjoint union of runs closed by one LAST page each, and the new run is one of them |
| `PageAllocator.AllocKeepsBlocks` | code/exercises/ex_8_1/page.c:108-147 | page_alloc makes and destroys no other block |
| `PageAllocator.FreeMakesRoom` | code/exercises/ex_8_1/page.c:153-174 | freeing a block keeps the map well formed and its pages can be handed out again |
| `PageAllocator.FreeKeepsBlocks` | code/exercises/ex_8_1/page.c:153-174 | freeing a block leaves every other block as it was, adjacent ones included |
| `PageAllocator.AllocThenFree` | code/exercises/ex_8_1/page.c:108-174 | page_alloc followed by page_free restores every descriptor |
| `PageAllocator.WalkIsBlock` | code/exercises/ex_8_1/page.c:160-172 | from a block start the walk of page_free covers exactly that block |
| `PageAllocator.FreeWellFormedIff` | code/exercises/ex_8_1/page.c:153-174 | page_free leaves a well-formed map if and only if its page is free or starts a block |
| `PageAllocator.TakenPageInOneBlock` | code/exercises/ex_8_1/page.c:12-37 | every taken page lies in exactly one block |
| `HeapTheorems.AllocSizeCoversIff` | code/exercises/ex_8_1/malloc.c:41-47 | the allocated size is a multiple of 4, covers request, header and footer, and wastes less than 4 bytes, if and only if the request does not wrap |
| `HeapTheorems.MallocKeepsInv` | code/exercises/ex_8_1/malloc.c:119-226 | mm_malloc keeps the gap-free coalesced tiling; on success the live blocks gain exactly the returned one, on failure the heap is the old one |
| `HeapTheorems.MallocSucceedsIff` | code/exercises/ex_8_1/malloc.c:119-224 | mm_malloc succeeds if and only if the block is within the limit and a free block fits or the free tail and all remaining pages cover it |
| `HeapTheorems.TakeLowestFit` | code/exercises/ex_8_1/malloc.c:127-137 | when free blocks fit, the lowest of them is taken and the heap does not grow |
| `HeapTheorems.TakeGrowsLeast` | code/exercises/ex_8_1/malloc.c:138-210 | otherwise the heap grows by the fewest pages that make the free tail fit, and the block is placed at the start of that tail |
| `HeapTheorems.PagesNeededIsLeast` | code/exercises/ex_8_1/malloc.c:144-207 | the number of pages that growth stops at is the least that covers the block |
| `HeapTheorems.GrowStep` | code/exercises/ex_8_1/malloc.c:181-207 | one more page makes the last block fit exactly when that number is reached |
| `HeapTheorems.ExtendKeeps` | code/exercises/ex_8_1/malloc.c:181-199 | growth keeps tiling, coalescing and live blocks, and the free tail gains exactly the new bytes |
| `HeapTheorems.PlaceKeeps` | code/exercises/ex_8_1/malloc.c:211-224 | taking and splitting a free block keeps tiling and coalescing and adds exactly one live block |
| `HeapTheorems.FreeableIff` | code/exercises/ex_8_1/malloc.c:228-232 | an address may be freed if and only if it is NULL or that of a live block |
| `HeapTheorems.FreeKeepsInv` | code/exercises/ex_8_1/malloc.c:228-254 | mm_free keeps the invariant and the heap's extent and removes exactly the freed block from the live ones |
| `HeapTheorems.FreeAtTiles` | code/exercises/ex_8_1/malloc.c:234-253 | merging with free neighbours gives a gap-free tiling without adjacent free blocks again |
| `HeapTheorems.HeapDetermined` | code/exercises/ex_8_1/malloc.c:228-254 | extent, pages and live blocks determine the whole heap |
| `HeapTheorems.MallocFreeRoundTrip` | code/exercises/ex_8_1/malloc.c:119-254 | freeing what mm_malloc returned restores the live blocks, and the very heap when it had not grown |
| `HeapTheorems.ReturnedIsNew` | code/exercises/ex_8_1/malloc.c:119-226 | the returned block overlaps no live block |
| `HeapTheorems.FreeAllLive` | code/exercises/ex_8_1/malloc.c:228-254 | freeing a sequence of blocks removes exactly these from the live ones |
| `HeapTheorems.DistinctFreeable` | code/exercises/ex_8_1/malloc.c:228-254 | distinct live addresses may be freed in any order |
| `HeapTheorems.FreeOrderIrrelevant` | code/exercises/ex_8_1/malloc.c:228-254 | freeing the same live blocks in any two orders gives the same heap |
| `HeapTheorems.EmptyHeapIsOneBlock` | code/exercises/ex_8_1/malloc.c:228-254 | with nothing live the heap is one free block that spans it |
| `HeapTheorems.PayloadsApart` | code/exercises/ex_8_1/malloc.c:41-58 | live payloads are 4-byte aligned, inside the heap and disjoint from each other and from every header and footer |
| `HeapTheorems.EveryRunKeepsInv` | code/exercises/ex_8_1/malloc.c:82-95 | over every run of mm_init, mm_malloc and mm_free: tiling, coalescing, page accounting, and block sizes that sum to the heap's extent |
| `HeapSpec.Conservation` | code/exercises/ex_8_1/malloc.c:60-68 | the sizes of a tiling sum to its extent |
| `HeapSpec.LiveDetermines` | code/exercises/ex_8_1/malloc.c:228-254 | two coalesced tilings of the same extent with the same live blocks are equal |
| `HeapMemory.BlockAt` | code/exercises/ex_8_1/malloc.c:11-68 | in memory that holds the heap, header and footer of each block give its size and use, and lead to its neighbours |
| `HeapMemory.PlaceHolds` | code/exercises/ex_8_1/malloc.c:211-224 | the writes of placing a block turn memory holding the old heap into memory holding the new one |
| `HeapMemory.FreeHolds` | code/exercises/ex_8_1/malloc.c:233-253 | the same for mm_free, with no payload of a remaining live block written |
| `HeapMemory.GrowHolds` | code/exercises/ex_8_1/malloc.c:181-199 | the same for a growth round |
| `HeapMemory.ShrinkHolds` | code/exercises/ex_8_1/malloc.c:150-171 | the same for the rollback of any number of growth rounds |
| `KernelHeap.HeapManager.constructor` | code/exercises/ex_8_1/malloc.c:82-95 | mm_init: one free block over the first page, an end marker, and the page taken |
| `KernelHeap.HeapManager.NewPage` | code/exercises/ex_8_1/malloc.c:145-147 | while the heap holds the first k pages, page_alloc returns exactly the next one, or NULL when none is left |
| `KernelHeap.HeapManager.FindFit` | code/exercises/ex_8_1/malloc.c:127-137 | the scan over headers finds the first fitting block, or none if none fits |
| `KernelHeap.HeapManager.TakeBlock` | code/exercises/ex_8_1/malloc.c:211-224 | the writes that take and split a block refine the operation on blocks and touch no live payload |
| `KernelHeap.HeapManager.GrowPage` | code/exercises/ex_8_1/malloc.c:145-199 | one growth round refines growing by one page; the page is adjacent, so the panic about it is unreachable |
| `KernelHeap.HeapManager.Rollback` | code/exercises/ex_8_1/malloc.c:147-176 | after any number of growth rounds the failure branch restores blocks, end pointers and page descriptors; the panic about the end block is unreachable |
| `KernelHeap.HeapManager.ReleasePages` | code/exercises/ex_8_1/malloc.c:167-171 | gives back exactly the pages above the old end |
| `KernelHeap.HeapManager.GrowUntil` | code/exercises/ex_8_1/malloc.c:138-210 | success if and only if enough pages are left; then the least growth, otherwise an exact rollback; live payloads kept |
| `KernelHeap.HeapManager.Malloc` | code/exercises/ex_8_1/malloc.c:119-226 | mm_malloc on words and descriptors is exactly the operation on blocks; after a failure descriptors and end pointers are unchanged; no live payload word is written |
| `KernelHeap.HeapManager.MarkTaken` | code/exercises/ex_15_1/malloc.c:212-214 | both versions of marking a block used, with or without the footer rewritten, leave a block with the right header and size in both tags |
| `KernelHeap.HeapManager.MergeNext` | code/exercises/ex_8_1/malloc.c:233-243 | the freed block takes in the next one exactly when that is free |
| `KernelHeap.HeapManager.MergePrev` | code/exercises/ex_8_1/malloc.c:244-253 | the block before takes in the freed one exactly when it exists and is free; below the first block the zero guard word is read |
| `KernelHeap.HeapManager.Free` | code/exercises/ex_8_1/malloc.c:228-254 | mm_free on words is exactly the operation on blocks and writes no payload of another live block |
| `HeapMemory.PayloadWriteHolds` | code/exercises/ex_8_1/malloc.c:11-58 | a store into the payload of a live block leaves memory holding the same heap |
| `KernelHeap.HeapManager.Store` | code/exercises/ex_8_1/malloc.c:11-58 | the owner of a live block may store any word into its payload between calls without disturbing the heap |
| `SortedList.List.constructor` | code/exercises/ex_15_1/timer_structs/list.c:5-15 | list_init: an empty list between two sentinels |
| `SortedList.List.LinkBefore` | code/exercises/ex_15_1/timer_structs/list.c:64-80 | inserting in front of a node keeps prev and next inverse to each other and adds exactly that node there |
| `SortedList.List.PushBack` | code/exercises/ex_15_1/timer_structs/list.c:50-62 | the node becomes the last entry |
| `SortedList.List.SortInsert` | code/exercises/ex_15_1/timer_structs/list.c:64-80 | the node goes behind all entries of at most its priority: ties are first in, first out |
| `SortedList.List.Delete` | code/exercises/ex_15_1/timer_structs/list.c:107-114 | exactly the given node is unlinked |
| `SortedList.List.PopFront` | code/exercises/ex_15_1/timer_structs/list.c:36-48 | returns the first entry and leaves the rest; NULL if and only if the list is empty |
| `SortedList.List.IsEmpty` | code/exercises/ex_15_1/timer_structs/list.c:89-97 | tells whether there is no node between the sentinels |
| `SortedList.List.Destroy` | code/exercises/ex_15_1/timer_structs/list.c:17-34 | pops and frees every node of the list in order, then the sentinels, each exactly once |
| `SkipLinks.LevelIsFilter` | code/exercises/ex_15_1/timer_structs/skip_list.c:6-17 | following a level meets exactly the nodes of at least that height, in order |
| `SkipLinks.InsertKeepsLinks` | code/exercises/ex_15_1/timer_structs/skip_list.c:93-96 | with the last nodes before the position as predecessors, linking a node of any height keeps every level's links right |
| `SkipLinks.RemoveKeepsLinks` | code/exercises/ex_15_1/timer_structs/skip_list.c:144-149 | bypassing a node on its levels keeps every level's links right |
| `SkipList.List.constructor` | code/exercises/ex_15_1/timer_structs/skip_list.c:27-36 | skip_list_init: head points to tail on all levels, level 0, length 0 |
| `SkipList.List.LevelIsFiltered` | code/exercises/ex_15_1/timer_structs/skip_list.c:69-158 | every level is the level-0 sequence filtered by height, levels above list->level are empty, and list->level is tight |
| `SkipList.List.Descend` | code/exercises/ex_15_1/timer_structs/skip_list.c:73-81 | the shared search loop finds on each level the last node before the priority |
| `SkipList.List.Search` | code/exercises/ex_15_1/timer_structs/skip_list.c:52-67 | finds the first node of the priority, and NULL exactly when there is none; only the value INVALID without a node of it gives the tail instead |
| `SkipList.SearchInvalid` | code/exercises/ex_15_1/timer_structs/skip_list.c:52-67 | in an empty list the search for INVALID gives the tail |
| `SkipList.List.InsertEntry` | code/exercises/ex_15_1/timer_structs/skip_list.c:69-98 | one new node with exactly the level drawn goes in front of all entries of its priority, ties being last in, first out; all other nodes keep their levels |
| `SkipList.List.UnlinkLevels` | code/exercises/ex_15_1/timer_structs/skip_list.c:144-149 | the unlink loop may stop at the first level that differs: the node is then unlinked from all its levels |
| `SkipList.List.TrimLevel` | code/exercises/ex_15_1/timer_structs/skip_list.c:153-155 | list->level becomes the highest level in use |
| `SkipList.List.Delete` | code/exercises/ex_15_1/timer_structs/skip_list.c:128-158 | takes out exactly the first node of the priority from all its levels and tells whether there was one; all other nodes keep their levels |
| `SkipList.List.PopFront` | code/exercises/ex_15_1/timer_structs/skip_list.c:199-210 | returns the first node, which is the very node its delete-by-priority call unlinked |
| `SkipList.List.Destroy` | code/exercises/ex_15_1/timer_structs/skip_list.c:38-50 | frees every node from head to tail exactly once |
| `TimerTheorems.EveryRunInv` | code/exercises/ex_15_1/timer_structs/list_timer.c:24-53 | over every run and for both queues: no timer fires before its timeout tick, at most one fires per tick, and each created timer is queued or fired exactly once |
| `TimerTheorems.CreateGains` | code/exercises/ex_15_1/timer_structs/list_timer.c:24-53 | timer_create with a handler and a timeout queues exactly the timer asked for, due so many ticks from now; otherwise it changes nothing |
| `TimerTheorems.TickGains` | code/exercises/ex_15_1/timer_structs/list_timer.c:85-129 | a tick without a due timer only counts; otherwise the first timer fires and its callback creates exactly the timers it asks for, counted from that tick, all of them queued |
| `TimerTheorems.CallbackQueues` | code/exercises/ex_15_1/timer_structs/list_timer.c:85-129 | behind that tick the queue holds every timer the callback asked for |
| `TimerTheorems.DueTimerFires` | code/exercises/ex_15_1/timer_structs/list_timer.c:85-129 | a due timer with k timers ahead fires exactly k ticks after the next tick, whatever tasks and callbacks create meanwhile |
| `TimerTheorems.TickFires` | code/exercises/ex_15_1/timer_structs/list_timer.c:85-129 | the same counted from the tick at which the timer becomes due |
| `TimerTheorems.CreateBehindDue` | code/exercises/ex_15_1/timer_structs/list_timer.c:24-53 | a new timer never goes ahead of one already due |
| `TimerTheorems.TickFiresHead` | code/exercises/ex_15_1/timer.c:173-185 | a tick with due timers fires the first of them and moves the others up by one |
| `TimerTheorems.QueuesAgree` | code/exercises/ex_15_1/timer_structs/list_timer.c:24-129 | fed the same events, list and skip list fire the same timeouts at the same ticks |
| `CreationOrder.EveryRunOrdered` | code/exercises/ex_15_1/timer_structs/list_timer.c:24-129 | in every reachable state the list is in (timeout, creation) order and the skip list in (timeout, reverse creation) order, each creation having its own number |
| `CreationOrder.FiringOrder` | code/exercises/ex_15_1/timer_structs/list_timer.c:24-129 | of two timers queued together the smaller timeout fires first over every further run; of equal ones the first created with the list, the last created with the skip list |
| `CreationOrder.InsertInOrder` | code/exercises/ex_15_1/timer_structs/list.c:64-80 | one insertion keeps that order, the new timer behind its equals in the list and in front of them in the skip list |
| `TimerService.ListTimers.TimerCreate` | code/exercises/ex_15_1/timer_structs/list_timer.c:24-39 | list_timer_create refines the insertion into the sorted queue; a NULL handler or a zero timeout creates nothing |
| `TimerService.ListTimers.TimerCheck` | code/exercises/ex_15_1/timer_structs/list_timer.c:85-106 | list_timer_check refines popping at most one due timer and running its callback |
| `TimerService.ListTimers.TimerHandler` | code/exercises/ex_15_1/timer.c:173-179 | one tick over the list refines the tick on the sorted queue |
| `TimerService.SkipTimers.TimerCreate` | code/exercises/ex_15_1/timer_structs/list_timer.c:41-53 | skip_list_timer_create refines the insertion into the sorted queue for every random level |
| `TimerService.SkipTimers.TimerCheck` | code/exercises/ex_15_1/timer_structs/list_timer.c:108-129 | skip_list_timer_check refines popping at most one due timer and running its callback |
| `TimerService.SkipTimers.TimerHandler` | code/exercises/ex_15_1/timer.c:173-179 | one tick over the skip list refines the tick on the sorted queue |
| `PriorityScheduler.CandidateIff` | code/exercises/ex_13_1/sched.c:58-66 | the tasks the scans accept are exactly the schedulable ones of least priority number |
| `PriorityScheduler.NextTaskIff` | code/exercises/ex_13_1/sched.c:58-86 | find_next_task_id gives -1 if and only if nothing is schedulable, and a candidate otherwise |
| `PriorityScheduler.ScheduleDispatchesLeast` | code/exercises/ex_13_1/sched.c:91-116 | schedule goes idle if and only if nothing is schedulable and otherwise dispatches a schedulable task of least priority number: the old one, with its counter one up, exactly when it ties for least and has slice left, else the next one with a new slice |
| `PriorityScheduler.WeightedRoundRobin` | code/exercises/ex_13_1/sched.c:91-116 | from a switch on, as many calls as the candidates weigh dispatch each for max(1, slice) calls, contiguously, in cyclic id order, and the next call switches again |
| `PriorityScheduler.FirstTurn` | code/exercises/ex_13_1/sched.c:91-116 | in every other state with a schedulable task the current one is dispatched for exactly what is left of its slice, and then the next call switches |
| `PriorityScheduler.YieldKeepsIff` | code/exercises/ex_13_1/sched.c:155-161 | task_yield goes on with the very task that yields if and only if that is a candidate and has slice left or is the only one |
| `PriorityScheduler.ReusedSlot` | code/exercises/ex_13_1/sched.c:104-111 | a task created, while the kernel idles, in the slot of the task that exited last has a first turn of its slice less that task's counter when that is positive, of a whole slice otherwise |
| `PriorityScheduler.RoundCounts` | code/exercises/ex_13_1/sched.c:91-116 | in one such round each candidate is dispatched exactly max(1, slice) times and no other task at all |
| `PriorityScheduler.CyclicOnce` | code/exercises/ex_13_1/sched.c:67-85 | the cyclic order holds every candidate exactly once |
| `PriorityScheduler.StepKeepsInv` | code/exercises/ex_13_1/sched.c:91-173 | after every operation the running task is the current one and RUNNING; after every reschedule it has least priority number |
| `PriorityScheduler.EveryRunKeepsInv` | code/exercises/ex_13_1/sched.c:39-173 | the invariant in every reachable state, reuse of exited slots included |
| `PriorityScheduler.SchedulableAfter` | code/exercises/ex_13_1/sched.c:126-173 | creation makes exactly the lowest free slot schedulable, with the given priority and slice, and fails if and only if no slot is empty or exited; exit makes exactly the running task unschedulable; nothing else changes |
| `TaskTable.InitIdles` | code/exercises/ex_13_1/sched.c:39-56 | after sched_init every slot is EMPTY, and schedule idles and changes nothing |
| `TaskTable.TaskCreated` | code/exercises/ex_13_1/sched.c:126-148 | task_create returns -1 and changes nothing if and only if no slot is EMPTY or EXITED; otherwise it returns 0 and makes the lowest such slot READY with the priority and slice given |
| `TaskTable.StepWrites` | code/exercises/ex_13_1/sched.c:91-173 | yield marks the running task's slot READY, exit EXITED, a reschedule the dispatched one RUNNING; no other status, priority or slice changes |
| `TaskTable.CreationKeepsRunning` | code/exercises/ex_13_1/sched.c:126-148 | task_create leaves the running context, the current task and its counter alone |
| `PriorityScheduler.Scheduler.constructor` | code/exercises/ex_13_1/sched.c:39-56 | sched_init: an empty table and no current task |
| `PriorityScheduler.Scheduler.HighestPriority` | code/exercises/ex_13_1/sched.c:58-66 | the first loop computes the least priority number of the schedulable tasks |
| `PriorityScheduler.Scheduler.FindNextTaskId` | code/exercises/ex_13_1/sched.c:58-86 | the scans over the task arrays refine the next candidate in cyclic order |
| `PriorityScheduler.Scheduler.ScheduleTask` | code/exercises/ex_13_1/sched.c:91-116 | schedule on the task arrays refines the step on the table |
| `PriorityScheduler.Scheduler.TaskCreate` | code/exercises/ex_13_1/sched.c:126-148 | task_create on the task arrays refines the step on the table and returns 0 if and only if some slot is EMPTY or EXITED |
| `PriorityScheduler.Scheduler.TaskYield` | code/exercises/ex_13_1/sched.c:155-161 | the current task becomes READY, nothing else changes |
| `PriorityScheduler.Scheduler.TaskExit` | code/exercises/ex_13_1/sched.c:167-173 | the current task becomes EXITED, nothing else changes |
| `SleepScheduler.DispatchesLeast` | code/exercises/ex_15_1/sched.c:62-113 | this schedule too dispatches a schedulable task of least priority number and goes idle if and only if there is none |
| `SleepScheduler.KeepsCurrentIff` | code/exercises/ex_15_1/sched.c:98-112 | schedule keeps the current task if and only if no other task is a candidate: time slices have no effect in this version |
| `SleepScheduler.EachCandidateOnce` | code/exercises/ex_15_1/sched.c:62-113 | from any state, as many calls in a row as there are candidates dispatch each exactly once, in cyclic id order |
| `SleepScheduler.StepKeepsInv` | code/exercises/ex_15_1/sched.c:62-211 | every operation keeps: each queued wake-up is for a sleeping task that does not run, at most one per task |
| `SleepScheduler.EveryRunKeepsInv` | code/exercises/ex_15_1/sched.c:40-211 | that invariant in every reachable state |
| `SleepScheduler.SchedulableAfter` | code/exercises/ex_15_1/sched.c:152-211 | task_sleep and task_exit make exactly the running task unschedulable, task_yield none |
| `SleepSteps.StepRuns` | code/exercises/ex_15_1/sched.c:62-113 | behind every interrupt, yield, exit and sleep of more than 0 ticks the kernel idles if and only if nothing is schedulable; otherwise the current task runs, marked RUNNING, and it is the first one of least priority number behind the task current before |
| `SleepSteps.StepKeepsRunning` | code/exercises/ex_15_1/sched.c:123-211 | creations and a sleep of 0 ticks leave the running context and the current task alone |
| `SleepSteps.StepWrites` | code/exercises/ex_15_1/sched.c:62-211 | what every step writes into each slot: the running task's own status, the dispatched mark, a woken task, and the j-th task that a callback creates in the j-th EMPTY or EXITED slot |
| `SleepSteps.TasksFill` | code/exercises/ex_15_1/sched.c:123-145 | creations in a row fill the EMPTY and EXITED slots from the lowest one on, in order, and touch no other slot |
| `SleepSteps.StepTimers` | code/exercises/ex_15_1/sched.c:191-211 | every step queues exactly the timers it asks for: a creation its timer, a sleep its wake-up, a timer interrupt those of the callback of the one timer it fires |
| `SleepScheduler.StepSleeper` | code/exercises/ex_15_1/sched.c:123-211 | only the firing of its wake-up gets a sleeping task out of that status; its slot is not reused |
| `SleepScheduler.StaysAsleep` | code/exercises/ex_15_1/sched.c:62-211 | until its wake-up is due a sleeping task is never dispatched and its slot never reused, over every run |
| `SleepScheduler.SleepLasts` | code/exercises/ex_15_1/sched.c:200-211 | after task_sleep of n > 0 ticks the task sleeps through every run with fewer than n timer interrupts |
| `SleepScheduler.MovesUp` | code/exercises/ex_15_1/sched.c:191-211 | a due wake-up moves up by one per tick, and its task sleeps until it is the first |
| `SleepScheduler.WakesAt` | code/exercises/ex_15_1/sched.c:191-198 | with i due timers ahead at its wake tick the task leaves the sleep exactly i ticks later, READY or already dispatched |
| `SleepScheduler.StrandedForever` | code/exercises/ex_15_1/sched.c:200-207 | a task asleep without a queued wake-up never runs again and its slot is lost |
| `SleepScheduler.ZeroSleepLost` | code/exercises/ex_15_1/sched.c:200-207 | a sleep of 0 ticks followed by an interrupt is such a case, in every run |
| `SleepScheduler.SleepEndsIff` | code/exercises/ex_15_1/sched.c:191-211 | a preempted sleeper can be woken by some run if and only if it sleeps for more than 0 ticks |
| `SleepManager.Manager.constructor` | code/exercises/ex_15_1/sched.c:40-57 | sched_init and timer_init give the start state |
| `SleepManager.Manager.ScheduleTask` | code/exercises/ex_15_1/sched.c:62-113 | schedule on the task arrays refines the step on the table and leaves running the first task of least priority number behind the old one, or the idle context |
| `SleepManager.Manager.TaskSleep` | code/exercises/ex_15_1/sched.c:200-211 | task_sleep on task arrays and skip list refines the step; a zero timeout returns without a reschedule |
| `SleepManager.Manager.TaskLeaves` | code/exercises/ex_15_1/sched.c:152-170 | task_yield and task_exit with the reschedule they cause refine the steps |
| `SleepManager.Manager.TimerHandler` | code/exercises/ex_15_1/timer.c:173-185 | timer_handler with task_wakeup and other callbacks refines the timer interrupt step |
| `TrapCode.SaveOrder` | code/os/11-syscall/entry.S:12-44 | each of the 28 stores of reg_save goes to the register's own place in struct context |
| `TrapCode.EntrySaves` | code/os/11-syscall/entry.S:96-121 | the entry of trap_vector saves all own registers, t6 included, and the pc of the interrupted task, touches no other memory, and passes epc, cause and context on |
| `TrapCode.ExitRestores` | code/os/11-syscall/entry.S:123-132 | the end of trap_vector resumes the task of mscratch with all saved registers, at the pc in a0 |
| `TrapCode.SwitchRestores` | code/os/11-syscall/entry.S:134-148 | switch_to continues exactly the registers and pc saved in the context it is given and points mscratch to it |
| `ContextSwitch.EntryViews` | code/os/11-syscall/entry.S:96-121 | after the trap entry every task's context holds what that task sees |
| `ContextSwitch.ScheduleViews` | code/os/11-syscall/sched.c:33-43 | schedule makes the next task in turn current with mscratch at its context and changes no task's view |
| `ContextSwitch.SyscallContext` | code/os/11-syscall/syscall.c:4-29 | do_syscall changes a0 of the caller's context to the result and no other word of any context |
| `ContextSwitch.StepTransparent` | code/os/11-syscall/trap.c:32-80 | every event means for a task only its own instruction or system call |
| `ContextSwitch.StepKeepsInv` | code/os/11-syscall/sched.c:33-43 | mscratch always points to the running task's context |
| `ContextSwitch.PreemptionIsTransparent` | code/os/11-syscall/trap.c:32-80 | in any interleaving of instructions, interrupts, system calls and task creations each task is in exactly the state its own steps alone lead to |
| `ContextSwitch.NewTaskStarts` | code/os/11-syscall/sched.c:53-63 | a created task starts at its entry point with cleared registers and its own stack pointer |
| `ContextSwitch.RoundRobin` | code/os/11-syscall/sched.c:33-43 | after j calls of schedule the j-th task behind the current one runs |
| `ContextSwitch.TurnComes` | code/os/11-syscall/sched.c:33-43 | of any window of as many calls of schedule as there are tasks exactly one dispatches a given task |
| `TrapOutcomes.HandledIff` | code/os/11-syscall/trap.c:32-80 | the traps covered are all interrupts, and ecalls whose pointer, if call 1 stores through it, lies outside the contexts |
| `TrapOutcomes.InterruptPreempts` | code/os/11-syscall/trap.c:37-55 | interrupts 3 and 7 store each own register and the pc of the running task at its place in its context and continue the next task in cyclic order from its context; no other memory changes |
| `TrapOutcomes.InterruptResumes` | code/os/11-syscall/trap.c:56-63 | every other interrupt resumes the same task with the same own registers and pc |
| `TrapOutcomes.EcallReturns` | code/os/11-syscall/trap.c:64-79 | exception 8 goes on 4 bytes behind with a result in a0 and all other own registers unchanged: for call 1 and a pointer 0, with the hart id 0 stored there, else -1; nothing else in memory changes but the caller's context |
| `TrapOutcomes.TaskCreated` | code/os/11-syscall/sched.c:53-63 | task_create returns 0 and writes entry point and end of stack into the next context while fewer than ten tasks exist, else -1 and changes nothing |
| `TrapOutcomes.FirstDispatch` | code/os/11-syscall/sched.c:33-43 | the first schedule starts task 0 |
| `TrapMachine.Machine.constructor` | code/os/11-syscall/sched.c:22-28 | sched_init: mscratch 0, no task |
| `TrapMachine.Machine.ExecuteAll` | code/os/11-syscall/entry.S:96-148 | straight-line code executed on registers, CSRs and memory refines the run of its instructions |
| `TrapMachine.Machine.ScheduleTask` | code/os/11-syscall/sched.c:33-43 | schedule and switch_to on the hart refine the step |
| `TrapMachine.Machine.TaskCreate` | code/os/11-syscall/sched.c:53-63 | task_create refines the step and fails if and only if the table is full |
| `TrapMachine.Machine.SysGethid` | code/os/11-syscall/syscall.c:4-13 | -1 for a NULL pointer, otherwise 0 and the hart id stored through the pointer |
| `TrapMachine.Machine.ServeSyscall` | code/os/11-syscall/syscall.c:15-29 | do_syscall refines the step on the saved context |
| `TrapMachine.Machine.TrapVector` | code/os/11-syscall/trap.c:32-80 | a whole trap on the hart refines the step: reschedule for software and timer interrupts, resume for the others, return behind the ecall for a system call |
| `Printf.SignedDecimalReads` | code/exercises/ex_15_1/printf.c:44-65 | what %d prints reads back as the number printed |
| `Printf.DecimalReads` | code/exercises/ex_15_1/printf.c:66-80 | what %u prints reads back as the number and has no leading zero |
| `Printf.HexWordReads` | code/exercises/ex_15_1/printf.c:19-43 | the eight digits of %x and %p read back as the word printed |
| `PrintedText.StringPrinted` | code/exercises/ex_15_1/printf.c:81-93 | %s prints exactly the string |
| `PrintedText.UnsignedPrinted` | code/exercises/ex_15_1/printf.c:66-80 | %u prints decimal digits without leading zero that read as the unsigned word |
| `PrintedText.SignedPrinted` | code/exercises/ex_15_1/printf.c:44-65 | %d prints such digits of the signed word's magnitude, behind a minus sign if and only if it is negative |
| `PrintedText.HexPrinted` | code/exercises/ex_15_1/printf.c:19-43 | %x prints eight lower-case hexadecimal digits that read as the word, %p the same behind 0x |
| `PrintedText.CharPrinted` | code/exercises/ex_15_1/printf.c:94-101 | %c prints the character of the word's lowest byte |
| `PrintedText.LiteralPrinted` | code/exercises/ex_15_1/printf.c:106-113 | a character outside a conversion stands for itself |
| `PrintedText.ConversionPrinted` | code/exercises/ex_15_1/printf.c:13-105 | a conversion stands for its own text with the next argument, and what follows for the same as before |
| `PrintedText.OthersSkipped` | code/exercises/ex_15_1/printf.c:103-107 | a character behind an open % that is no conversion is skipped |
| `Printf.ScanAgrees` | code/exercises/ex_15_1/printf.c:7-121 | with no %d, %u or %s behind a %c, every pass counts the characters of the formatted text, and those there is room for are the right ones |
| `Printf.AlwaysReadable` | code/exercises/ex_15_1/printf.c:7-121 | for such formats suitable arguments are also what a pass without room reads |
| `Printf.PutHex` | code/exercises/ex_15_1/printf.c:31-39 | the digit loop by arithmetic shifts writes the eight digits, also of negative numbers, as far as they fit |
| `Printf.CountDigits` | code/exercises/ex_15_1/printf.c:68-69 | the loop of divisions counts the decimal digits |
| `Printf.PutDecimal` | code/exercises/ex_15_1/printf.c:53-61 | the digit loop from the last digit on writes the decimal number as far as it fits |
| `Printf.PutConversion` | code/exercises/ex_15_1/printf.c:19-93 | each conversion other than %c appends its text and returns the new position |
| `Printf.VsnPrintf` | code/exercises/ex_15_1/printf.c:7-121 | returns the length of the whole text the pass reads, which is the formatted text when no %d, %u or %s stands behind a %c; writes text and terminator if they fit, otherwise the truncated prefix and a terminator; nothing behind the bound |
| `Printf.BoundedIsFormat` | code/exercises/ex_15_1/printf.c:7-121 | with no %d, %u or %s behind a %c, for every bound: the length returned is that of the formatted text, and the buffer is left as that text with its terminator leaves it |
| `Printf.Vprintf` | code/exercises/ex_15_1/printf.c:125-135 | the two passes print the second pass's text cut to the length the first one measured, or report overflow |
| `Printf.MeasuredRightIff` | code/exercises/ex_15_1/printf.c:94-101 | the measuring pass counts the formatted text for all suitable arguments if and only if no %d, %u or %s stands behind a %c |
| `Printf.PrintIsFormat` | code/exercises/ex_15_1/printf.c:125-135 | for every such format printf prints the formatted text up to its first zero character and returns its length, unless it is too long for the buffer |
| `Printf.PrintIsWholeText` | code/exercises/ex_15_1/printf.c:125-135 | for every format without %c it prints the whole text |
| `Printf.CharMeasuredWrong` | code/exercises/ex_15_1/printf.c:94-101 | a %d behind a %c is measured with the wrong argument and the text is cut |
| `Printf.PercentsDropped` | code/exercises/ex_15_1/printf.c:103-107 | every format takes the arguments and gives the text of the format in which each % met while a % is open is deleted and any other conversion means the same |
| `Printf.PercentsRightIff` | code/exercises/ex_15_1/printf.c:103-107 | against formats where %% prints a percent sign, the code takes all suitable arguments and gives the same text if and only if no % is met while a % is open |
| `Printf.PrintIsStandard` | code/exercises/ex_15_1/printf.c:125-135 | for such formats without a %d, %u or %s behind a %c, printf prints the text with percent signs |
| `Printf.PercentPrintsNothing` | code/exercises/ex_15_1/printf.c:103-107 | the format 5%% prints 5, not 5% |
| `Printf.PercentTakesArgument` | code/exercises/ex_15_1/printf.c:103-107 | the format %% d, which stands for a text without arguments, takes one and prints it: behind %% the conversion is still open |

## Left out

- Hardware access: UART, PLIC, CLINT and CSR set-up, boot code, `wfi` loops; ticks, interrupts and printed text are events or results.
- Printing, tests and demos: `mm_print_blocks`, `mm_test`, `page_test`, the list and skip-list benchmarks, the tasks in `user.c`.
- `list_timer_delete`, `skip_list_timer_delete`, `skip_list_insert2`, `skip_list_delete2`: runs contain no deletions of timers; `skip_list_delete2` needs a node of the list's top level.
- `simple_timer_*` and the timer tables of the other versions: no bound on lateness to prove.
- `xoshiro256ss.c`: `random_level` is any level up to 8, so the theorems hold for every random stream.
- Memory of nodes and timers: nodes come from `new`, `mm_malloc` returning NULL for them and their `mm_free` are not modelled, nor the `free_node` flag; NULL lists are excluded by the types.
- KernelHeap.HeapManager.Malloc: memory is a map of aligned words, so accesses of bytes and unaligned words inside payloads are not modelled; the page descriptors lie in an array of their own.
- SortedList.List.Destroy: frees nodes only; the `mm_free` of each node's timer and of the list record is not modelled, as timers are values held by the nodes.
- SkipList.List.Descend: the predecessor slots above the list's level start as the head, where the C code fills them only when a new node is higher.
- PriorityScheduler.Scheduler.TaskYield: the software interrupt it raises is a separate step that follows at once; the same holds for `task_exit`, `task_sleep` and `task_wakeup`, so an interrupt between the status change and the timer's creation in `task_sleep` is not modelled.
- SleepManager.Manager.TimerHandler: callbacks other than `task_wakeup` may create timers and tasks; they do not change the status of a task in another way.
- Contexts in the two priority schedulers: stacks and entry points are left to the context-switch model; a dispatch is a task id or the idle context.
- `spin_lock` and `spin_unlock`: traps are atomic steps, as the hart clears the interrupt enable bit on entry (sections 3.1.14 and 3.3.2 of the RISC-V Privileged Architecture, version 20211203). This idealises a timer callback that calls `timer_create`: `spin_unlock` sets that bit again inside the handler, and a trap taken from there would save its context over that of the interrupted task; such nested traps are not modelled, neither in the timer runs nor in the context switch.
- ContextSwitch.PreemptionIsTransparent: covers the registers the code saves and the pc; `gp` and `tp` are not saved by design, and user memory and the stacks below `sp` are shared state outside the model; exceptions other than ecall end in `panic` and are excluded.
- Timer callbacks in `os/11-syscall`: they are part of the C code that leaves arbitrary register values.
- Printf.Vprintf: arguments that do not suit their conversions and the most negative number for `%d` have no defined behaviour in C and are excluded; an overflow ends the run in an endless loop, here the result `Overflow`.
- 32-bit wrap-around of tick counter, timeout ticks and heap addresses: excluded by the preconditions above; the length counters of the lists are unbounded.
