# Verified models of a small teaching kernel

The kernel in this repository keeps rich state in a handful of places: frame pools, page tables and the slab
allocator; the scheduler with its semaphores, locks and ring buffer; and the file system's inodes, block maps and
directories. The Dafny project here models those places function by function and proves what each operation keeps
and what whole runs of them guarantee. `dafny verify dfyconfig.toml` checks all of it.

An `ASSERT` of the kernel that fails halts the machine. Operations that can fail one return an `Outcome`
(`Done`, `Null` for NULL or -1, `Halted`) or a flag, and their contracts say for which inputs each way is taken.
Mutable C objects are classes whose methods are proved against specifications; a list or table an object owns is a
sequence or map field; pure address arithmetic is functions.

| files | what they model |
|---|---|
| `Bitmap.dfy`, `IntrusiveList.dfy` | the bit map over its real bytes (and the one byte behind it), the sentinel-headed list over its real links |
| `Threads.dfy`, `LockSafety.dfy`, `LockRuns.dfy`, `RoundRobin.dfy` | scheduler, semaphores and locks as a machine whose steps are the sections with interrupts off, with a timer tick possible between any two; invariants over all runs; waiting bounds |
| `EventLaws.dfy` | what one event leaves of every thread, list and lock; who holds a lock told from the calls made; whole acquires and releases; time slices; the order of the waiters |
| `TagLists.dfy` | families of linked lists with disjoint links, and what their elements are embedded in |
| `Kernel.dfy` | scheduler and locks on control blocks with one `general_tag` each, linked into the ready list and the waiter lists; that heap stands for a state of the machine, and every call keeps the machine's invariant |
| `IoQueue.dfy` | the ring buffer as an object, and the protocol around its two indices with any number of readers, blocking writers and the keyboard |
| `IoHistory.dfy` | what the calls on a ring buffer come to, told from the calls alone |
| `Pages.dfy`, `Memory.dfy`, `UserPages.dfy` | frame pools, page directories, `malloc_page`, `mfree_page` and `get_a_page` for the kernel and for a process |
| `SlabInv.dfy`, `SlabSteps.dfy`, `FreeLists.dfy`, `Slab.dfy` | arenas, free lists through the blocks' own elements, and live blocks; `sys_malloc` and `sys_free` |
| `Fork.dfy` | fork's page-by-page copy of an address space |
| `Disk.dfy`, `Inode.dfy`, `Partition.dfy` | sectors, little-endian words, the inode table, open inodes, the two allocators and the copies of their maps on the disk |
| `FileBlocks.dfy`, `FileGrow.dfy`, `File.dfy`, `FileRead.dfy` | a file as twelve direct blocks and a table of 128, `file_write`, `file_read`, `sys_lseek` |
| `DirSlots.dfy`, `Directory.dfy` | directory entries in slots, and the finite map they stand for |
| `Ownership.dfy`, `FileSystem.dfy` | who owns which block, and append, create, mkdir, unlink and release on a whole partition |

Where the code departs from its comments or from its evident purpose, the model follows the code:

- `bitmap_scan` asserts on a full map instead of returning -1, so `palloc` and `block_bitmap_alloc` never report
  failure to their callers: they halt. With a run longer than one bit it also looks one bit past the end;
  `ScanMeetsIntentIff` says exactly when that shows.
- The user branch of `vaddr_get` never computes the page it is after (`UserVaddrNeverRight`), so what `malloc_page`
  maps for a process are the pages of the bits it set exactly when the first page was in use and the run behind it
  free (`MallocMatchesIff`).
- `get_a_page` refuses the first page of a process by `ASSERT(bit_idx > 0)`.
- `inode_sync` puts a record where the low eight bits of the inode number say (`SyncReadsBackIff`, `SyncOverRoot`),
  and uses two sectors of the one-sector buffer `file_write` lends it exactly for records that straddle
  (`SectorBufferTooSmallIff`).
- `file_write` admits 71680 bytes in its first check and halts on exactly that size in the second; `file_read` halts
  when a read ends in block 139 or later, so a file can be longer than what can be read (`WriteTheMost`,
  `ReadTheMost`).
- A directory entry's name of sixteen bytes runs on into the inode number for `strcmp` (`MatchIff`), so such a name
  can be added twice (`AddUnlessFound`).
- `sync_dir_entry` never reads a directory's indirect table. Once the direct blocks are full every entry gets a new
  table and the one before is lost (`TableForgotten`), and `delete_dir_entry` never returns from deleting the entry
  that is there (`AddThenDelete`): the index of its counting loop does not advance.
- With two readers on one ring buffer, or a reader and a blocking writer, a reader can be left waiting while there are
  bytes and a writer while there is room (`TwoReadersStuck`, `ReaderStuck`, `WriterStuck`).
- When all inode numbers below 256 are in use, the next file or directory is stored over the record of one of them
  (`FileCreate`, `Mkdir`).

The invariants are not empty: `Heap.constructor`, `Memory.constructor` and `UserSpace.constructor` establish theirs
for fresh objects, `BlockLists.constructor` does for empty free lists, `InitialInv` for the machine, `ThreadInit` for
its linked lists, and `OnlyRoot` for a partition that holds just the root directory.

## Model

| member | source | states |
|---|---|---|
| Bitmaps.Bitmap.Init | lib/kernel/bitmap.c:9-11 | every bit of the map is clear, the byte behind it is untouched |
| Bitmaps.Bitmap.ScanTest | lib/kernel/bitmap.c:14-22 | the bit tested is the one with that number |
| Bitmaps.BitIsDigit | lib/kernel/bitmap.c:14-22 | bit i of a byte is binary digit i of the number it stands for |
| Bitmaps.Bitmap.Set | lib/kernel/bitmap.c:75-88 | setting or clearing changes that bit and no other |
| Bitmaps.Bitmap.Scan | lib/kernel/bitmap.c:25-72 | first fit: a full map halts, one bit is looked for inside the map, a longer run in a window one bit longer; the lowest start, or none exactly when there is none |
| Bitmaps.Bitmap.ScanRun | lib/kernel/bitmap.c:50-72 | the counting loop finds the lowest free run of the window or says there is none |
| Bitmaps.ScanMeetsIntentIff | lib/kernel/bitmap.c:25-72 | a scan returns what naive first fit on the map alone would, exactly when the map is not full and the bit behind it does not complete the only run |
| Bitmaps.ScanAnswer | lib/kernel/bitmap.c:25-72 | for every map and count there is one right answer to a scan |
| Bitmaps.OverrunWitness | lib/kernel/bitmap.c:50-68 | a concrete map on which the scan hands out a run that reaches past the end |
| Bitmaps.Bitmap.SetRun | kernel/memory.c:57-59 | marking a run changes exactly its bits |
| IntrusiveList.List.constructor | lib/kernel/list.c:6-11 | a fresh list is two sentinels and the empty sequence |
| IntrusiveList.List.InsertBefore | lib/kernel/list.c:14-28 | the sequence gets the element at that place, links stay mutually inverse, only the new element and its two neighbours are written |
| IntrusiveList.List.Push | lib/kernel/list.c:31-33 | the element becomes the first of the sequence |
| IntrusiveList.List.Append | lib/kernel/list.c:36-38 | the element becomes the last of the sequence |
| IntrusiveList.List.Remove | lib/kernel/list.c:41-48 | exactly that element leaves the sequence, only its neighbours are written |
| IntrusiveList.List.Pop | lib/kernel/list.c:51-55 | the first element leaves a non-empty list and is returned |
| IntrusiveList.List.Find | lib/kernel/list.c:58-68 | the walk ends and is true exactly for members |
| IntrusiveList.List.Len | lib/kernel/list.c:91-100 | the walk ends and counts the sequence |
| IntrusiveList.List.Empty | lib/kernel/list.c:103-105 | true exactly for the empty sequence |
| IntrusiveList.LinksDetermine | lib/kernel/list.c:6-28 | the links alone decide the sequence, so no two sequences describe one list |
| IntrusiveList.Untouched | lib/kernel/list.c:14-55 | a list whose elements are not written keeps its sequence and stays well-formed |
| RoundRobin.ScheduleMoves | thread/thread.c:152-183 | when somebody is ready the first ready thread runs, the others keep their order, and the thread that ran either leaves the list alone or is its new end; no waiting slice changes |
| RoundRobin.DownMoves | thread/sync.c:31-46 | one turn of the loop of sema_down: waiting gives the processor to the first ready thread and moves the others up by one, taking the semaphore moves nobody |
| RoundRobin.UpMoves | thread/sync.c:55-75 | sema_up puts the first waiter in front of the ready threads and moves nobody else |
| RoundRobin.StepMoves | thread/sync.c:78-115 | the other sections of lock_acquire and lock_release move no thread on the ready list |
| LockSafety.ScheduleKeeps | thread/thread.c:152-183 | schedule never trips an assertion and leaves exactly one running thread and a duplicate-free ready list of exactly the ready threads |
| LockSafety.UnblockKeeps | thread/thread.c:201-218 | a blocked thread goes to the front of the ready list and the scheduler's invariant is kept |
| LockSafety.QuietKeepsLocks | device/timer.c:49-62 | slices and statuses a timer tick changes are of no concern to any lock |
| LockSafety.TakeStep | thread/sync.c:45-47 | passing the loop of sema_down keeps a lock's invariant |
| LockSafety.SleepStep | thread/sync.c:31-46 | going to sleep in sema_down keeps it |
| LockSafety.UpStep | thread/sync.c:55-75 | sema_up keeps it: the owner leaves, the first waiter becomes the woken one |
| LockSafety.OwnerStep | thread/sync.c:78-115 | every other section of the owner keeps it |
| LockRuns.SleepInv | thread/thread.c:186-198 | thread_block outside the lock code keeps the machine's invariant |
| LockRuns.BlockKeeps | thread/thread.c:186-198 | so does thread_block itself, called by a thread that is on its way to sleep |
| LockRuns.YieldInv | thread/thread.c:226-234 | thread_yield keeps the machine's invariant, whoever runs next |
| LockRuns.YieldKeeps | thread/thread.c:226-234 | so does thread_yield itself |
| LockRuns.StartInv | thread/thread.c:115-134 | thread_start of a new thread keeps the machine's invariant |
| LockRuns.SemaDownInv | thread/sync.c:24-52 | a section of sema_down keeps it, whichever branch it takes |
| LockRuns.EnterInv | thread/sync.c:78-93 | the test of lock_acquire for a holder that comes again keeps it; what it decides is in `AcquireFree`, `AcquireAgain` and `HeldByCalls` |
| LockRuns.ReleaseInv | thread/sync.c:97-115 | the nested and the last lock_release keep it |
| LockRuns.UpInv | thread/sync.c:55-75 | sema_up, with and without a waiter, keeps it |
| LockRuns.TimerInv | device/timer.c:49-62 | a timer tick between any two sections keeps it |
| LockRuns.ApplyInv | thread/sync.c:24-115 | every enabled event keeps the invariant and trips no assertion |
| LockRuns.InitialInv | thread/thread.c:137-148 | the machine right after start-up satisfies it |
| LockRuns.AfterInv | thread/thread.c:152-234 | so does every state any sequence of events reaches |
| LockRuns.NoAssertionFails | thread/sync.c:24-115 | in no run does an ASSERT of the scheduler or the lock code fail |
| LockRuns.MutualExclusion | thread/sync.c:78-115 | in no reachable state are two threads between a completed sema_down and the matching sema_up |
| LockRuns.SemaphoreConservation | thread/sync.c:24-75 | in every reachable state the semaphore's value and the number of threads inside add up to one |
| LockRuns.HolderAndDepth | thread/sync.c:78-115 | for a thread outside the lock code, asleep in thread_block or not, it is the holder exactly when its nesting depth is positive, and holder_repeat_nr is that depth |
| LockRuns.NoWakeupIsLost | thread/sync.c:31-46 | when the value is one and somebody waits, some thread was already popped from that list, is not blocked, and is still in the loop |
| LockRuns.OneListPerTag | thread/thread.c:201-218 | a thread's general_tag is on at most one of the ready list and the waiter lists |
| LockRuns.SchedulerWellFormed | thread/thread.c:152-234 | exactly one thread is running; the ready list holds exactly the ready threads, each once |
| RoundRobin.PositionMoves | thread/thread.c:152-218 | one event moves a waiting thread by its schedules less its front pushes, or runs it |
| RoundRobin.DispatchBound | thread/thread.c:156-177 | a thread at position k has run by schedule number k + 1 plus the front pushes on the way |
| RoundRobin.BudgetMoves | device/timer.c:49-62 | a tick takes exactly one unit off the slices ahead of a waiting thread, a schedule exactly what was left to the thread that ran, any other event nothing; only a front push refills them |
| RoundRobin.TickBound | device/timer.c:49-62 | without front pushes a ready thread runs before more ticks pass than the slices of those ahead of it |
| RoundRobin.WaitsAtMost | device/timer.c:49-62 | the same bound in priorities, the sum of priority + 1, for any state a run reaches |
| EventLaws.ScheduleThread | thread/thread.c:152-183 | schedule gives a thread that is still running a full slice and leaves place, locks, slice and priority of every other thread alone |
| EventLaws.EventThread | thread/thread.c:115-234 | after any event and for any thread: a tick takes one off the running thread's slice or refills it at zero and nothing else touches a slice; no priority changes; the status is the one slept with, or ready, or running exactly for who has the processor; a thread that does not run keeps its place and its locks |
| EventLaws.MachineEvent | thread/thread.c:115-134 | threads come by thread_start alone, ready and with a full slice, and a lock changes only by a section of the thread that works on it |
| EventLaws.EventTurn | thread/thread.c:152-234 | the ready list and the running thread after any event, exactly: with nobody ready the thread goes on itself or the idle thread runs |
| EventLaws.TickTakesOne | device/timer.c:57-61 | a tick with some of the slice left takes one off it and changes nothing else |
| EventLaws.TickEndsSlice | device/timer.c:57-58 | a tick at the end of the slice runs the first ready thread, and the one that ran is last in line with a full slice |
| EventLaws.KeepsProcessor | device/timer.c:49-62 | a thread that does not give the processor away has it for its whole slice, each tick costing one, whatever else happens |
| EventLaws.PreemptedAtLast | device/timer.c:49-62 | the timer takes the processor from a thread with n ticks left at tick number n + 1 and not earlier |
| EventLaws.MadeMoves | thread/sync.c:78-115 | every section of the lock code leaves each thread with as many locks as it has called for |
| EventLaws.HeldByCalls | thread/sync.c:78-115 | in every reachable state a thread outside the lock code is a lock's holder exactly when it has called lock_acquire more often than lock_release, and holder_repeat_nr is by how much |
| EventLaws.OneCriticalSection | thread/sync.c:78-115 | two threads whose calls of lock_acquire have returned and were not followed by as many of lock_release are one |
| EventLaws.AcquireFree | thread/sync.c:78-93 | lock_acquire of a free lock from end to end: value 0, holder the caller, count 1, waiters left waiting, nothing else changed |
| EventLaws.AcquireAgain | thread/sync.c:89-91 | lock_acquire by the holder adds one to the count and changes nothing else |
| EventLaws.AcquireTaken | thread/sync.c:24-44 | lock_acquire of a lock another thread is in: the caller is blocked, last among the waiters, and the first ready thread runs |
| EventLaws.WokenTakes | thread/sync.c:31-47 | a woken waiter that finds the value at one has the lock three sections later |
| EventLaws.Waits | thread/sync.c:31-44 | a turn of the loop that finds the value at zero blocks the caller behind the waiters there are, also when it was woken |
| EventLaws.GoesOn | thread/thread.c:186-234 | a thread that runs again after thread_block or thread_yield goes on in its own code |
| EventLaws.ReleaseNested | thread/sync.c:102-106 | a nested lock_release takes one off the count and changes nothing else |
| EventLaws.ReleaseAlone | thread/sync.c:97-115 | the outermost lock_release of a lock nobody waits for leaves it free and changes nothing else |
| EventLaws.ReleaseHands | thread/sync.c:55-75 | the outermost lock_release of a lock somebody waits for leaves it free, the first waiter first in the ready list, and changes nothing else |
| EventLaws.AcquireRelease | thread/sync.c:78-115 | acquire and release of a free lock leave every thread, list and lock as it was |
| EventLaws.WaitersMove | thread/sync.c:31-69 | waiters join a lock's list at its end, and each sema_up takes the first of them and makes it the first ready thread |
| EventLaws.WaitersInOrder | thread/sync.c:31-69 | in every run the waiter at position i is woken by the sema_up number i + 1 of those that find somebody waiting |
| KernelCode.Kernel.ThreadUnblock | thread/thread.c:201-218 | through elem_find and list_push on the real lists: a thread asleep outside the lock code comes to the front of the ready list, a bad status or a listed tag halts, and the invariant of the runs is kept |
| KernelCode.Kernel.Schedule | thread/thread.c:152-183 | from a state in which only the running thread has left its place, the lists end in a state with the whole invariant: one running thread, a tag on one list; it halts where the machine does |
| KernelCode.Kernel.ThreadBlock | thread/thread.c:186-198 | called outside the lock code with one of the three blocked statuses it keeps the whole invariant; any other status halts |
| KernelCode.Kernel.ThreadYield | thread/thread.c:226-234 | the tag goes to the end of the ready list through its links, another thread runs, and the whole invariant is kept |
| KernelCode.Kernel.ThreadStart | thread/thread.c:115-134 | a new control block with a tag of its own is linked in at the end of the ready list, and the whole invariant is kept |
| KernelCode.Kernel.TimerInterrupt | device/timer.c:49-62 | a slice with ticks left is one shorter and nothing else changes; at its end the turn passes to the first ready thread and the slice is full again; the whole invariant is kept between any two sections |
| KernelCode.Kernel.SemaDown | thread/sync.c:24-52 | a turn of the loop by a thread in sema_down keeps the whole invariant, its tag going to the waiters through its links |
| KernelCode.Kernel.SemaUp | thread/sync.c:55-75 | unless it halts, the value is one again and the first waiter, if any, has moved from the waiters to the front of the ready list, all others staying in order |
| KernelCode.Kernel.Advance | thread/sync.c:78-115 | every section of lock_acquire and lock_release on the heap is the machine's, of which `AcquireFree` to `WaitersInOrder` hold, and keeps the whole invariant of tags, lists, locks and threads |
| KernelCode.Kernel.ThreadInit | thread/thread.c:242-258 | the main thread running with priority 32 and the idle thread ready with 10, on fresh lists, are an initial state of the machine, so all runs from there satisfy its results |
| TagLists.TagOnList | lib/kernel/list.c:58-68 | a thread or a block is on a list exactly when its own element is |
| KernelCode.Kernel.Find | thread/sync.c:34-36 | elem_find of a tag tells whether its thread is on that list |
| KernelCode.Kernel.AppendReady | thread/thread.c:126 | list_append of the tag puts the thread behind the ready ones and no list else changes |
| KernelCode.Kernel.PushReady | thread/thread.c:212 | list_push of the tag puts the thread before the ready ones and no list else changes |
| KernelCode.Kernel.PopReady | thread/thread.c:152-183 | list_pop and elem2entry give the first ready thread, and only the ready list is shorter |
| KernelCode.Kernel.AppendWaiter | thread/sync.c:42 | list_append of the tag puts the thread behind the waiters of that lock and no other |
| KernelCode.Kernel.PopWaiter | thread/sync.c:61-63 | list_pop and elem2entry give the first waiter, whose tag is then on no list |
| TagLists.Lists.Append | lib/kernel/list.c:36-38 | on a set of lists with disjoint links, appending a tag that is on none changes that one list |
| TagLists.Lists.Push | lib/kernel/list.c:31-33 | pushing a tag that is on no list changes that one list |
| TagLists.Lists.Pop | lib/kernel/list.c:51-55 | the popped tag is on none of the lists afterwards, and the other lists are as they were |
| TagLists.Lists.Remove | lib/kernel/list.c:41-48 | the element removed is on none of the lists afterwards, and the other lists are as they were |
| TagLists.Lists.Find | lib/kernel/list.c:58-68 | the walk finds a tag exactly on the list it is on |
| KernelCode.Kernel.Handle | thread/sync.c:24-115 | from a good state every event leaves a good state on the linked lists, the one the machine reaches, and panics never |
| IoQueue.Ring.Full | device/ioqueue.c:20-23 | full exactly at 63 bytes |
| IoQueue.Ring.Empty | device/ioqueue.c:26-29 | empty exactly when the contents are |
| IoQueue.Ring.Put | device/ioqueue.c:67-82 | the byte goes to the end of the contents |
| IoQueue.Ring.Get | device/ioqueue.c:46-64 | the first byte leaves the contents and is returned |
| IoQueue.PutBetween | device/ioqueue.c:67-82 | storing at head and advancing it appends one byte to what lies between the indices, also where they wrap |
| IoQueue.GetBetween | device/ioqueue.c:46-64 | what lies at tail is the first byte between the indices, and advancing tail takes just that one away |
| IoQueue.FullAndEmpty | device/ioqueue.c:20-29 | the two index tests hold exactly at 63 and at 0 bytes between the indices |
| IoQueue.HappenKeeps | device/ioqueue.c:32-82 | every event keeps: written is read plus what lies between the indices, the registered consumer or producer holds the lock, a woken one still does, and no assertion fails |
| IoQueue.ReadIsPrefixOfWritten | device/ioqueue.c:46-82 | in every interleaving of readers, blocking writers and the keyboard, over any number of wrap-arounds of the two indices, the bytes read are a prefix of the bytes written, the bytes between the indices are the rest, and no assertion fails |
| IoHistory.HappenMatches | device/ioqueue.c:46-82 | every event takes in and gives out what the calls alone say: a key or a writer that finds room brings its own character, a reader that finds one gets the oldest |
| IoHistory.FirstInFirstOut | device/ioqueue.c:46-82 | in every run what was written is the characters handed in by the keys and calls that got through, in their order, what was read is as many of the first of them as calls of ioq_getchar have returned, and a thread is in its call exactly while it has not got through |
| IoHistory.Places | device/ioqueue.c:32-82 | every event, every thread: who calls gets through, or sleeps as consumer or producer with the lock, or waits for the lock; the waiter the character is for is woken; nobody else is touched |
| IoQueue.OneThread | device/keyboard.c:183-186 | with one thread besides the keyboard, in every run a registered consumer means equal indices and a registered producer a full buffer |
| IoQueue.TwoReadersStuck | device/ioqueue.c:46-58 | a run of six events in which one of two readers stays asleep with bytes in the queue |
| IoQueue.ReaderStuck | device/ioqueue.c:46-82 | for any reader and any other writer, a run that leaves the reader asleep on a queue that is not empty |
| IoQueue.WriterStuck | device/ioqueue.c:46-82 | for any reader and any other writer, a run that leaves the writer asleep on a queue that is not full |
| IoQueue.WaitingMeansEmptyIff | device/ioqueue.c:46-58 | in all runs a registered consumer means an empty queue, exactly when nobody reads or there is one thread besides the keyboard |
| IoQueue.WaitingMeansFullIff | device/ioqueue.c:67-82 | in all runs a registered producer means a full queue, exactly when nobody writes or nobody reads or there is one thread besides the keyboard |
| Pages.PtePtrByPage | kernel/memory.c:82-86 | two addresses share a page table entry exactly when they are in one page |
| Pages.UserVaddrNeverRight | kernel/memory.c:61-77 | for no index does the user branch give the page it is after |
| Pages.Pool.Palloc | kernel/memory.c:95-104 | the lowest free frame, marked; halts exactly on a full pool |
| Pages.Pool.Release | kernel/memory.c:456-468 | exactly that frame is free again |
| Pages.PageDir.Add | kernel/memory.c:107-138 | the page is mapped to the frame and nothing else changes, with a cleared table from the kernel pool when there was none; fails exactly when the page was mapped or no frame is left for the table |
| Pages.PageDir.Remove | kernel/memory.c:471-476 | exactly that page is unmapped |
| KernelPages.Memory.VaddrGet | kernel/memory.c:49-60 | first fit of a run of virtual pages, its bits set |
| KernelPages.Memory.MapPages | kernel/memory.c:156-170 | the loop of malloc_page succeeds exactly when the pool has the frames and tables the run needs |
| KernelPages.Memory.MallocPage | kernel/memory.c:141-171 | for PF_KERNEL: distinct pages on distinct frames, each in the kernel pool and marked, each virtual bit set, nothing else changed; halts exactly for a bad count, a full virtual map, or too few frames for the run the scan picks; NULL exactly when there is no run, and then nothing changed |
| KernelPages.Memory.PageMapSound | kernel/memory.c:95-171 | different kernel pages are on different frames of the kernel pool, each marked there and in no range of the other pool, each page marked in the virtual map |
| KernelPages.Memory.Pfree | kernel/memory.c:456-468 | the frame is given back to the pool whose range holds it |
| KernelPages.Memory.MfreePage | kernel/memory.c:508-551 | for kernel pages: exactly the run is unmapped, its frames and virtual bits are free, and no assertion fails |
| KernelPages.Memory.MallocThenFree | kernel/memory.c:141-552 | mfree_page after malloc_page restores the page table, the virtual map and the frames, but for frames kept as page tables |
| UserPages.UserSpace.PageMapSound | kernel/memory.c:191-223 | different user pages are on different frames, each marked in the user pool and in no range of the kernel pool; page tables the other way round |
| UserPages.UserSpace.GetAPage | kernel/memory.c:191-223 | exactly that page is mapped to a frame that was free and its bit is set; halts exactly for the first page, a mapped page, or when the frame or the frame for its table is missing |
| UserPages.UserSpace.MapPages | kernel/memory.c:156-170 | the loop of malloc_page for user pages succeeds exactly when no page of the run is mapped and both pools have the frames it needs |
| UserPages.UserSpace.MallocPage | kernel/memory.c:141-171 | for PF_USER: the bits set are the run the scan picks, the pages mapped are those at the address vaddr_get computes, all on frames that were free; the exact halting conditions; bits and pages agree afterwards exactly when the first bit was set and the run behind it free |
| UserPages.UserSpace.MallocMatchesIff | kernel/memory.c:61-77 | when bits and pages agreed before, the pages malloc_page mapped for a process are the pages of the bits it set exactly when the first page was in use and the run behind it was free |
| UserPages.UserSpace.MfreePage | kernel/memory.c:508-533 | for user pages: exactly the run is unmapped, its frames of the user pool and its virtual bits are free, and no assertion fails |
| SlabInv.BlockLayout | kernel/memory.c:340-348 | blocks of an arena lie past its header, inside its page, apart from each other, and lead back to the arena |
| SlabInv.SizeClasses | kernel/memory.c:322-337 | the classes start at 16 bytes and double, and a page has as many blocks as fit behind the header |
| SlabInv.LiveRoom | kernel/memory.c:351-453 | a live block has room for what was asked, past the header and inside the arena's own pages |
| SlabInv.LiveDisjoint | kernel/memory.c:351-453 | different live pointers never share a byte |
| SlabInv.FreeExactly | kernel/memory.c:417-449 | a class's free list holds exactly the blocks of its arenas that are not live, each once, and an arena's counter is the number of its own |
| SlabInv.FreeInsideArenas | kernel/memory.c:581-590 | a free list refers only into arenas, so never into a page that went back, and never to a live block |
| SlabSteps.AddLargeKeeps | kernel/memory.c:383-400 | a large block keeps the allocator's invariant |
| SlabSteps.StockKeeps | kernel/memory.c:417-440 | a page turned into an arena, all its blocks free and counted, keeps the invariant |
| SlabSteps.TakeKeeps | kernel/memory.c:442-449 | a block taken from a free list and made live keeps the invariant, its arena's counter included |
| SlabSteps.GiveKeeps | kernel/memory.c:581-583 | a live block put back at the end of its free list keeps the invariant, its arena's counter included |
| SlabSteps.DropSmallKeeps | kernel/memory.c:583-591 | a page given back keeps the invariant, and no free list refers into that page |
| SlabSteps.DropLargeKeeps | kernel/memory.c:576-577 | a large block given back with its pages keeps the invariant |
| FreeLists.BlockLists.Append | kernel/memory.c:433-439 | list_append of the element in the block puts the block at the end of its class's free blocks and changes no other class |
| FreeLists.BlockLists.Pop | kernel/memory.c:442-445 | list_pop and elem2entry give the first free block of the class, and only that list is shorter |
| FreeLists.BlockLists.Remove | kernel/memory.c:584-589 | list_remove of the element in the block takes exactly that block off its class's free blocks |
| FreeLists.BlockLists.Find | kernel/memory.c:584-589 | elem_find of the element in the block tells whether the block is free in that class |
| Slab.BlockDescInit | kernel/memory.c:322-337 | seven classes from 16 to 1024 bytes with their block counts and empty lists |
| Slab.Heap.constructor | kernel/memory.c:599-605 | the allocator's invariant holds of a heap without arenas |
| Slab.Heap.FindClass | kernel/memory.c:406-414 | the smallest class with room |
| Slab.Heap.SysMalloc | kernel/memory.c:351-453 | a pointer that was not live becomes live with room for what was asked and the invariant is kept; it comes from the front of the class's list, else it is the first block of a new page whose others become the list, else it has pages of its own, as few as have room; arenas, lists, pages and the frames taken are exactly those; halts exactly where malloc_page for those pages does; NULL exactly for a bad size or when there is no run of pages, and then nothing changed |
| Slab.Heap.PagesForLeast | kernel/memory.c:384-387 | the pages of a large block have room for header and bytes, and one less would not |
| Slab.Heap.SysFree | kernel/memory.c:555-596 | exactly that pointer stops being live, no assertion fails, and its page goes back exactly when nothing else in it is live; exactly the frames of the pages unmapped are free again, and none when none is; the block is last on its class's list, or its page's blocks are off it and the rest in order |
| Slab.Heap.MallocThenFree | kernel/memory.c:351-596 | sys_free after sys_malloc leaves the same arenas, counts, pages and frames but for new page tables, and the same free blocks |
| Slab.Heap.Purge | kernel/memory.c:584-589 | every block of the page is found on the free list and taken off it, and only those |
| Slab.KeptIffLive | kernel/memory.c:583-591 | between calls there is an arena in a page exactly when something in it is live |
| Forking.Processes.CopyPage | userprog/fork.c:53-69 | one page: a fresh frame in the child with the parent's contents, the parent's directory active again |
| Forking.Processes.CopyBody | userprog/fork.c:39-76 | the loops visit exactly the set bits; halts exactly when user frames or page tables run out; frames that are neither the child's pages nor its page tables keep their bytes |
| Forking.ForkResult | userprog/fork.c:39-76 | the child has exactly the parent's pages, with the parent's contents, on frames that were free, disjoint from the parent's; the parent's contents are unchanged |
| Disks.DecodeEncode | fs/file.c:371 | a block table written as words reads back as those words |
| Disks.EncodeDecode | fs/file.c:379 | a sector read as words is those words' bytes |
| Disks.LittleEndian | fs/inode.h:8-21 | byte k of a word in memory is its digit k to the base 256 |
| InodeTable.UnpackPack | fs/inode.h:8-21 | an inode's 76 bytes read back as the inode |
| InodeTable.RecordLayout | fs/inode.h:8-21 | the offset of every field in those 76 bytes |
| InodeTable.Locate | fs/inode.c:22-45 | the record's first byte, and whether its last one is in the next sector |
| InodeTable.LocateByte | fs/inode.c:22-45 | every byte of the record is in the first sector or in the next, where inode_locate says |
| InodeTable.StoreOneSector | fs/inode.c:77-82 | writing a record inside a sector changes exactly its bytes of the table |
| InodeTable.StoreTwoSectors | fs/inode.c:66-76 | writing a record that straddles two sectors changes exactly its bytes of the table |
| InodeTable.StoredReads | fs/inode.c:48-141 | a stored record reads back, and every other record reads as before |
| InodeTable.SectorBufferTooSmallIff | fs/file.c:227-430 | inode_sync fills more than the 512 bytes file_write lends it exactly when the record starts in the last 75 bytes of a sector; inode 6 is the first |
| Partitions.SyncReadsBackIff | fs/inode.c:50-52 | what was synced reads back exactly when the inode number is below 256 or the record was the same already; other records but the one at the low eight bits are untouched |
| Partitions.SyncOverRoot | fs/inode.c:50-52 | syncing inode 256 puts its record where the root's was |
| Partitions.Partition.InodeSync | fs/inode.c:48-83 | the cleared record is stored at the low eight bits of its number, no other byte changes, the assertion holds |
| Partitions.Partition.InodeDelete | fs/inode.c:164-190 | exactly that record is zeroed |
| Partitions.Partition.ReadRecord | fs/inode.c:108-129 | the record at that number, whether or not it straddles |
| Partitions.Partition.InodeOpen | fs/inode.c:86-141 | an open inode is given again with one count more; another is read from the disk and put in front; the open inodes go on agreeing with the disk exactly as far as the record read was one inode_sync left; halts exactly for a number past the table |
| Partitions.Partition.InodeClose | fs/inode.c:144-161 | the last close takes exactly that inode out |
| Partitions.Partition.BlockAlloc | fs/file.c:64-71 | the lowest free sector, marked; halts exactly on a full map |
| Partitions.AreaSynced | fs/file.c:74-95 | writing the one sector a changed bit lies in makes the map on the disk the map in memory again |
| Partitions.Partition.BitmapSync | fs/file.c:74-95 | exactly the sector of that bit is written, in the area of the map asked for; the maps agree afterwards when that bit was all they differed in |
| Partitions.Partition.BlockTake | fs/file.c:261-271 | a sector taken and its bit on the disk: the block map on the disk stays the one in memory |
| Partitions.Partition.BlockReturn | fs/dir.c:278-280 | a sector given back and its bit on the disk: likewise |
| Partitions.Partition.InodeReturn | fs/inode.c:238-240 | an inode number given back and its bit on the disk: likewise for the inode map |
| Partitions.Partition.InodeAlloc | fs/file.c:53-61 | the lowest free inode number, marked; halts exactly on a full map |
| FileBlocks.FileFrame | fs/file.c:227-430 | what is written outside a file's sectors does not change the file |
| FileBlocks.Appended | fs/file.c:284-397 | free sectors put behind a file's blocks give a longer chain with no block twice, and taken sectors grow by exactly those |
| FileGrowth.NextBlock | fs/file.c:64-71 | each sector handed out was free, differs from those before, and is not block 0 |
| FileGrowth.SameBlocks | fs/file.c:284-292 | when no block is added, the last block in use is collected, and the assertion about the table holds |
| FileGrowth.GrowDirect | fs/file.c:297-322 | while twelve blocks are enough: the file keeps its blocks, gets exactly the ones it needs from the free ones, no sector is written; fails exactly when they run out |
| FileGrowth.GrowAcross | fs/file.c:323-371 | from direct blocks into a new table: the same, and the table sector then lists the blocks behind the twelfth |
| FileGrowth.GrowIndirect | fs/file.c:372-396 | inside the table: the same, and the table sector is rewritten with the new blocks behind the old |
| Files.FirstBlock | fs/file.c:260-272 | a first write takes one block, never block 0 |
| Files.AddBlocks | fs/file.c:281-397 | whichever way is taken, the file has exactly the blocks its new size calls for; it fails exactly when free blocks run out |
| Files.ChunkWritten | fs/file.c:404-424 | one turn of the write loop leaves the bytes before as they were and puts the chunk behind them |
| Files.WriteData | fs/file.c:399-425 | the write loop puts the buffer behind the old bytes and writes no other sector |
| Files.WrittenBytes | fs/file.c:227-430 | the content is the old content followed by the buffer and the block count law holds again |
| Files.WrittenSectors | fs/file.c:227-430 | the file's new sectors were free, taken sectors grow by exactly those, all others keep their bytes |
| Files.FileWrite | fs/file.c:227-430 | it appends exactly the buffer and syncs the inode, touching no other record and no data sector that is not its own, and the block map on the disk is again the one in memory; -1 exactly above 71680 bytes, halts exactly at 71680 or when free blocks run out |
| FileReading.CollectBlocks | fs/file.c:463-505 | in all cases the block list agrees with the file's chain over the range read |
| FileReading.ReadData | fs/file.c:507-528 | the read loop gives exactly the slice and moves the position by its length |
| FileReading.FileRead | fs/file.c:433-535 | exactly the bytes from the position on, as many as there are, for any count; -1 exactly at the end of the file; halts exactly past block 138 or before the start |
| FileReading.Lseek | fs/fs.c:432-463 | accepts exactly positions of existing bytes |
| FileReading.ReadLast | fs/fs.c:454-462 | seeking n bytes back from the end and reading n gives the last n bytes of the file |
| FileReading.SkipAndRead | fs/fs.c:450-462 | seeking k bytes on from the position, or back, and reading gives the bytes from there on |
| FileReading.ReadTwice | fs/fs.c:450-462 | seeking back by what was read and reading again gives the same bytes |
| FileReading.AppendThenRead | fs/file.c:227-535 | append, seek back, read gives back what was written |
| FileReading.WriteTheMost | fs/file.c:227-279 | writing 71680 bytes to an empty file halts, though the first check admits it |
| FileReading.ReadTheMost | fs/file.c:433-461 | 71168 bytes can be written to an empty file, and reading them from the start halts |
| DirSlots.MatchIff | fs/dir.c:73 | strcmp finds an entry's name exactly when it is the name, and for sixteen bytes only if the inode number's low byte is zero |
| DirSlots.NewEntry | fs/dir.c:104-111 | the entry's name reads back as the name |
| DirSlots.EntryRoundTrip | fs/dir.h:20-24 | an entry's 24 bytes read back as the entry |
| DirSlots.EntryLayout | fs/dir.h:20-24 | sixteen bytes of name, then the inode number, then the type |
| DirSlots.SlotWritten | fs/dir.c:198-204 | writing a slot changes that slot's entry and no other |
| DirSlots.SlotTaken | fs/dir.c:114-212 | a fresh name in a free slot is a fresh name in the map |
| DirSlots.SlotGiven | fs/dir.c:215-336 | a slot given up is exactly its name gone from the map |
| DirSlots.DirSmall | fs/dir.c:114-212 | twelve blocks hold 252 entries at most |
| Directories.SearchDirEntry | fs/dir.c:34-90 | on any directory, blocks behind the table included: found exactly when some slot's name compares equal, and it is the first such slot's entry |
| Directories.SearchName | fs/dir.c:34-90 | on a directory that stands for a map: found exactly when the map has the name (sixteen bytes as in MatchIff), and it is what the map says |
| Directories.SyncDirEntry | fs/dir.c:114-212 | the entry goes to the first slot that is not live, in a new zeroed block when that block is not there, and behind a new table when the twelve direct blocks are full; the size grows by one entry; halts exactly when it needs one or two blocks that are not free |
| Directories.EntryBehindTable | fs/dir.c:142-191 | the branch for the thirteenth block: always a new table with one block, the entry alone in it; halts exactly below two free blocks |
| Directories.TableForgotten | fs/dir.c:126-163 | the second entry behind a table takes the first one's block and table away from the directory while both stay taken |
| Directories.AddThenDelete | fs/dir.c:286-299 | an entry added to a directory with full direct blocks is found by a search and cannot be deleted: delete_dir_entry never returns |
| Directories.PlacedKeeps | fs/dir.c:114-212 | inserting a fresh name inserts it into the map and changes nothing else there |
| Directories.ScanSector | fs/dir.c:253-267 | counts the entries that are no dots, finds the one with the inode number, sees whether the block has the "." entry |
| Directories.LastIffCounted | fs/dir.c:274-275 | the test for freeing a block is true exactly for the last entry of a block that is not the first |
| Directories.RemovedKeeps | fs/dir.c:215-336 | removing a slot removes its name from the map and changes nothing else there |
| Directories.DeleteDirEntry | fs/dir.c:215-336 | on any directory: the slot in the first block that lists the inode is cleared, its block given back when nothing else is named there; false exactly when no block lists it; stops exactly at an inode listed twice in that block, a size below one entry, or a last entry behind the table |
| Directories.DeleteName | fs/dir.c:215-336 | on a directory that stands for a map: removes exactly the name that leads to the inode, frees a block exactly when that was the last entry in one that is not the first, and no assertion fails |
| Directories.AddUnlessFound | fs/fs.c:539-613 | search, then add when it was not found: two entries of one name come about exactly when the name has sixteen bytes, is there, and its inode number's low byte is not zero |
| Ownership.OwnsMore | fs/file.c:64-71 | free blocks given to one inode leave every block with one owner and exactly the owned blocks taken |
| Ownership.OwnsGone | fs/inode.c:193-252 | an inode that goes with all its blocks leaves every other block with one owner and exactly the owned blocks taken |
| Ownership.NodeChanged | fs/inode.c:48-83 | when one inode comes or changes and the others' blocks are left alone, the whole partition stays consistent and the others hold what they held |
| Ownership.NodeGone | fs/inode.c:193-252 | when one inode goes and its record is cleared, the partition stays consistent and the others hold what they held |
| Ownership.OneOwner | fs/file.c:64-71 | in a consistent partition no block belongs to two inodes |
| Ownership.NoLostBlock | fs/inode.c:193-252 | a data block is taken exactly when some inode owns it, and block 0 is the root's |
| Ownership.LinkedUnlink | fs/fs.c:466-514 | taking a name away with its file leaves every other inode exactly one name |
| Ownership.LinkedCreate | fs/file.c:97-161 | a new inode that comes with its name leaves every inode but the root with exactly one name |
| FileSystems.FreeBlocks | fs/inode.c:198-236 | the loops give back exactly the inode's blocks and table; they halt exactly when block 0 is among them |
| FileSystems.OnlyRoot | fs/fs.c:85-170 | a partition with only the root, on block 0, is consistent |
| FileSystems.FileSystem.Open | fs/inode.c:86-141 | opening an inode in use gives that inode, counted once more or first in the list with count 1, touches no other, and keeps the partition consistent |
| FileSystems.FileSystem.Close | fs/inode.c:144-161 | closing counts one less, takes the inode out exactly when that leaves zero, and keeps the partition consistent |
| FileSystems.FileSystem.CloseTimes | fs/inode.c:144-161 | an inode with count c is there after any fewer than c closes and gone after c |
| FileSystems.FileSystem.OpenAndClose | fs/inode.c:86-161 | n opens and m closes leave the inode open exactly when m is less than n, and for m = n the open inodes as they were |
| FileSystems.FileSystem.Append | fs/file.c:227-430 | this file is longer by the buffer, with the position one before its end, every other inode owns and holds what it did, every block still has one owner, the maps are on the disk; -1 and halting exactly as for file_write |
| FileSystems.FileSystem.InodeRelease | fs/inode.c:193-252 | exactly the inode's blocks and its inode bit are given back, in memory and on the disk, open or not; nobody's open count changes; halts exactly for the root; memory and disk part exactly when somebody still holds the inode open |
| FileSystems.FileSystem.FileCreate | fs/file.c:97-181 | an empty file and its name come together on the lowest free number, open with count 1, every other inode is undisturbed; without room in the file table nothing changes; without room in the process's table -1 is returned with the file made and open; with full direct blocks the entry is behind a new table; with no number below 256 free the record of the inode at the low eight bits is replaced and no view with that inode is consistent; when it halts |
| FileSystems.FileSystem.CreateAndClose | fs/file.c:97-181 | a file created where there is room and closed once is there with its name, and the open inodes are those of before |
| FileSystems.FileSystem.Mkdir | fs/fs.c:526-636 | a directory with just its dot entries and its name come together, on a block that was free; with full direct blocks the entry is behind a new table; with no number below 256 free the record of the inode at the low eight bits is replaced; when it halts |
| FileSystems.FileSystem.Unlink | fs/fs.c:466-514 | the name goes with its file and exactly that file's blocks, and one of the directory if that was its last entry; refused for directories and files in use, and then nothing changes; the open inodes and their counts stay as they are |
| FileSystems.SixteenLetters | fs/fs.c:320-345 | in a concrete directory with a file of sixteen letters the search misses the name, the create goes on, and the directory has the name twice |

## Left out

- Boot code, assembly entry and exit, `switch_to`, descriptor tables, interrupt controller and timer programming: a context switch is "the running thread becomes the next one".
- IDE port input and output, partition scanning, `disk_done`: reading and writing sectors is total.
- Console, `printk`, scan codes, shell, path tokenising, `itoa`: only the keyboard's not-full guard is modelled.
- Where `partition_format` puts the two bitmaps: their sectors are arrays of their own, apart from the inode table and the data, as formatting has them. A statement about the sectors of `disk` is not about them.
- Clearing memory on allocation (kernel/memory.c:393, 423, 446): the model of `file_write` relies on it for the unused words of a new table, the allocator's model has no contents.
- `sys_malloc` for user processes, `get_a_page` for kernel threads, and `mfree_page` on a run that mixes kernel and user frames, which no call maps.
- `mem_pool_init`, `partition_format` and mounting: pools, bitmaps and the root are taken as they are meant to be.
- Failure of `sys_malloc` inside the file system, and the rollback paths it leads to: the buffers are local values here. What `inode_sync` overwrites behind the 512-byte buffer `file_write` lends it is not part of this model, only when it does so.
- `thread_exit`, process ids, `elapsed_ticks`, `mtime_sleep`: they touch none of the state modelled. `all_list_tag` is on one list only, so thread_all_list is a map from threads to control blocks.
- The rest of `fork`: control-block fields, the plain copy of the parent's bitmap, the child's stack, and the counts of open files.
- Directories with an indirect table on a whole partition: a second entry there loses blocks and the only one cannot be deleted, so the invariant of the partition is stated for directories without one; what create and mkdir do when the direct blocks are full is stated sector by sector.
- `dir_read`, `sys_rmdir`, `sys_getcwd`: `dir_read` never returns an entry, so little would rest on them.
- Path search: unlink, mkdir and create take the open parent directory and the last name, as `search_file` would hand them over; what the shell's working directory adds is not part of this model.
- Files.FileWrite: the 32-bit sum of size and count does not wrap. It would need a buffer of over four billion bytes, more than user space has.
- FileSystems.FileSystem.Append: likewise.
- FileReading.FileRead: likewise for position and count.
- Directories.DeleteDirEntry: a loop that never ends counts as `Halted`, like a failed assertion.
- KernelPages.Memory.MfreePage: kernel pages, on frames of the kernel pool; the loop for frames of the user pool is `UserPages.UserSpace.MfreePage`.
- FileSystems.FileSystem.Unlink: the file table is given as the inode numbers in it, and every open file is assumed to be listed there, as `file_open` and `file_create` see to.
- `sys_malloc` from several kernel threads: one call at a time, under its pool's lock; the waiting for that lock is in the thread model.
