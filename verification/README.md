# VMM verification

A Dafny model of the hard cores of VMM, a small kernel that runs virtual 8086
machines: its heap, its file system, its scheduler and semaphores, its IDE
driver, its page tables with the A20 gate, its virtual interrupt controllers,
and the arithmetic of dates and printed numbers. Operations that update state
in place are methods of classes, proved against predicates and functions on
values; what the kernel relies on is proved about those.

`dafny verify dfyconfig.toml` checks everything.

## What is modelled

- **Kernel heap** (`HeapRing`, `ClusterHeap`, `FragLists`, `FragRuns`,
  `FragBlocks`, `KernelHeap`). The table `_heapinfo` is a sequence of entries.
  Its free clusters are a ring in address order with entry 0 as sentinel, and a
  ring is determined by the set of its free blocks, which is what makes the
  rollback of `realloc` restore it exactly. Fragments are listed per size; the
  free fragments of a block are a run of that list. The system break moves as
  far as there are pages for it, below the kernel's eight megabytes, and others
  may move it between calls; the table itself can move and grow. Records that share
  words in the source are different cases of a datatype; where one case is read
  as another, for allocations of no blocks, the model goes by the words.
- **File system** (`DiskBlocks`, `BufferCache`, `Devices`, `Bitmap`, `BlockTree`,
  `FileBlocks`, `FileData`, `Pruning`, `FileSystem`, `Mkfs`, `Mount`). Every block
  pointer is named by a path, so that inode pointers and three levels of
  indirect blocks are treated alike. `BufferCache` presents flat arrays of blocks;
  `Devices` is one of them with the buffers that a task holds, and every block
  that bitmaps, trees and files look at or change is taken, changed and released
  there. With two buffers sure to it a task can read and write, with four it can
  truncate, whatever the other tasks hold, who take and release buffers in steps
  of their own between its operations.
- **Tasks** (`Lists`, `RunQueue`, `Scheduler`, `Semaphores`). The list
  operations are proved word by word once; elsewhere lists are sequences.
  Semaphores are a transition system over single steps of all tasks and of the
  interrupts that complete requests.
- **IDE driver** (`IdeRequests`, `IdeDriver`), against a controller that
  transfers sector after sector and may fail at any of them. What its status
  registers say whenever they are read is given beforehand, arbitrarily, so that
  what the driver does is determined by it.
- **Virtual machines** (`PageTables`, `A20Gate`, `VirtualPic`). The interrupt
  controllers are a state machine; its theorems are about arbitrary runs.
- **Dates and numbers** (`Calendar`, `Numerals`). `Words`, `Sequences` and
  `Options` serve all modules.

## What turned out not to hold

Each of these is a lemma with the exact condition, or an if-and-only-if in a
contract. Where the failure is not plain from the condition, a run that shows it
is named after it.

- A request of more than 2^32 - 4096 bytes is rounded to zero blocks. `malloc`
  answers with a pointer that is no allocation, and breaks the ring of free
  clusters if and only if there is a free one (`KernelHeap.Allocator.Malloc`,
  `ClusterHeap.NothingBreaksRing`; `KernelHeap.HugeRequest`,
  `ClusterHeap.RingIsLost`); then the search in `free` need not end
  (`ClusterHeap.SearchAfterNothing`). `realloc` of whole blocks returns the old
  pointer, whose blocks are nobody's any more, and breaks the ring unless a free
  cluster precedes them (`KernelHeap.Allocator.ReallocBlocks`;
  `KernelHeap.HugeResize`).
- A request that takes the break round the end of the address space moves it down
  and succeeds (`ClusterHeap.BreakWraps`). A break that moves down gives no page
  back, and one that cannot move up takes all that are left
  (`ClusterHeap.Heap.Sbrk`; `ClusterHeap.PagesAreLost`).
- A seek to a position from 2^31 on is refused although it is inside the file, and
  one far beyond the end can be accepted; a read in the last block of the largest
  files goes on at the beginning (`FileSystem.Volume.SeekFile`,
  `FileSystem.Volume.ReadFile`; `FileSystem.LargestFile`).
- Truncation never gives indirect blocks back (`Pruning.IndirectBlocksLeak`).
- `mkfs` lays out a usable file system exactly from eleven unreserved blocks on,
  and its counter covers the bitmap exactly below 2^31 bits
  (`Mkfs.LayoutPartitions`, `Mkfs.CounterFits`).
- A task of higher priority that is woken or added, outside interrupts, by a task
  that has called `forbid` is not scheduled by the matching `permit`
  (`Scheduler.Scheduler.WakeTask`, `Scheduler.Scheduler.AppendTask`;
  `Scheduler.WakeupIsLost`). Killing a task that is a zombie already spoils the
  zombie count (`Scheduler.Scheduler.KillTask`; `Scheduler.ZombieIsKilled`).
- A task that is handed a semaphore between queueing and suspending itself
  sleeps for ever, and nobody else gets the semaphore again
  (`Semaphores.HandOverReaches`, `Semaphores.StuckForEver`;
  `Semaphores.WakeupCanBeLost`). A task that queues between the test and the
  clearing of `signal` sleeps although the semaphore is open
  (`Semaphores.LeftBehind`, `Semaphores.PassesWithAnother`;
  `Semaphores.WaiterCanBeLeftBehind`).
- Driver and IDE controller agree on the number of sectors exactly from 1 to 256
  (`IdeRequests.CountFits`).
- Deleting the address space of a virtual machine whose A20 gate is closed
  loses the pages that the gate had put aside (`A20Gate.DeletionIsComplete`;
  `A20Gate.PageIsLost`). A fault on a page that is not freeable maps one that
  nobody owns (`A20Gate.VirtualMemory.PageFault`).
- An end-of-interrupt command is ignored unless the controller is in its normal
  state (`VirtualPic.PortFacts`), the register that is read is the other than the
  one selected (`VirtualPic.OtherRegisterRead`), initialisation takes the wrong bits of the
  vector (`VirtualPic.BaseKept`), a masked line that is pending is delivered, or
  lost at the next request (`VirtualPic.LostWhenMasked`;
  `VirtualPic.MaskedIsDelivered`). A machine that halts with the flag set and a
  line pending sleeps until a further request (`VirtualPic.LostByHalting`,
  `VirtualPic.SleepsUntilRaised`; `VirtualPic.HaltedWhilePending`).
- The month table gives April 31 days and May 30; the formula for the day of the
  week lacks the year; in 2106 the next year begins in the past
  (`Calendar.TableIsRight`, `Calendar.WeekdayRight`, `Calendar.YearEncloses`;
  `Calendar.LastSecond`).
- Zero padding makes plain decimals octal, and padding with blanks separates a
  prefix or a sign from its digits (`Numerals.ReadBack`,
  `Numerals.SignedReadBack`).

## Model

The first 55 rows are the main results; the others are the operations and lemmas
that they rest on, module by module.

| member | source | states |
|---|---|---|
| ClusterHeap.Heap.AllocCluster | src/src/kernel/alloc/malloc.c:184-249 | an allocation disjoint from all others, the first that is large enough from the last index on; every block is accounted for; the system is asked only if nothing is large enough, and it fails only if then the system has not enough for the blocks and a bigger table; on failure nothing changes |
| ClusterHeap.Heap.RegrowCluster | src/src/kernel/alloc/realloc.c:70-98 | a new cluster with every block accounted for, or the same ring, table, break and allocations as before; the system is asked only if no so many blocks in a row are free with the old cluster's, and it fails only if the system has not enough |
| ClusterHeap.RolledBack | src/src/kernel/alloc/realloc.c:85-91 | taking the space behind, the old cluster again and freeing the space behind restores the ring |
| HeapRing.FreeBlocksDetermineRing | src/src/kernel/alloc/free.c:45-68 | two rings without touching neighbours that cover the same free blocks are the same ring |
| ClusterHeap.NothingBreaksRing | src/src/kernel/alloc/malloc.c:223-249 | after zero blocks were taken from a member of a ring, some ring is threaded through the table if and only if only the sentinel was in it, and then the table is as it was |
| FragBlocks.ReleaseKeepsLog | src/src/kernel/alloc/free.c:93-105 | releasing a block unlinks exactly its own fragments and leaves the free fragments of each other block one run |
| KernelHeap.Allocator.Malloc | src/src/kernel/alloc/malloc.c:115-252 | an allocation of the right size that was not in use, all others as before and every block accounted for; it fails only when nothing that is free would do and the system has not enough, and then changes nothing; a larger request than 2^32 - 4096 bytes is given a pointer that is no allocation and changes no allocation; the heap stays sound if and only if the request is not that large or no cluster is free |
| KernelHeap.Allocator.Free | src/src/kernel/alloc/free.c:14-135 | exactly the given allocation is no longer in use, and its blocks, if whole ones, are free; without a ring this still holds of a fragment whose block is kept |
| KernelHeap.Allocator.Realloc | src/src/kernel/alloc/realloc.c:23-122 | the allocation has the new size and its old bytes as far as both sizes go, and stays where it is if that will do; it fails only if nothing that is free, with its own blocks for whole ones, would do and the system has not enough, and then allocation, free clusters and bytes are as before; either way the heap has the blocks it had, less those given back above the break and with those the break has moved over; a larger size than 2^32 - 4096 bytes frees the allocation, returns what is no allocation, and leaves the heap sound exactly if no cluster is free or, for whole blocks, if a free one precedes them |
| KernelHeap.Allocator.ReallocBlocks | src/src/kernel/alloc/realloc.c:53-99 | in place when it fits; else moved with its bytes; it fails only if no so many blocks in a row are free with its own and the system has not enough, and then allocation, free clusters and bytes are as before; above 2^32 - 4096 bytes the old pointer is returned, its blocks are nobody's, and a ring is left exactly if a free cluster precedes them |
| ClusterHeap.SearchAfterNothing | src/src/kernel/alloc/free.c:30-43 | with the ring lost the search for the cluster before a freed one ends if and only if it was not the sentinel that was overwritten, or the freed one lies between free ones |
| KernelHeap.LiveRegionsDisjoint | src/src/kernel/alloc/malloc.c:115-252 | any two allocations in use are disjoint and below the break |
| FileSystem.Volume.GetDataBlkno | src/src/fs/inode.c:356-418 | the block of a logical block; a new one was free before, every other logical block of every file is mapped as before |
| FileSystem.Volume.ReadFile | src/src/fs/file.c:132-180 | exactly the bytes of the flat file from the position on, as many as asked for and present, except exactly when the position wraps in the last block of the largest files; two buffers suffice |
| FileSystem.Volume.WriteFile | src/src/fs/file.c:182-245 | the flat file is overwritten by as much of the buffer as there was room for; no other file changes; no file loses a block, and every block that came into use is in the file's tree; it fails only on a full device; two buffers suffice |
| FileSystem.Volume.DeleteInodeData | src/src/fs/file.c:283-331 | the file is empty with zero pointers, exactly its data blocks are freed, each once, and all other files are as before; four buffers suffice |
| FileData.BlocksInjective | src/src/fs/inode.c:358-418 | distinct mapped logical blocks, of any files, are distinct device blocks, all in use |
| BufferCache.Cache.BRead | src/src/fs/buffer.c:109-186 | a buffer with what was last written to the block: the one that has it, or the first free one, or else the least recently used that is not referenced; fails only when every buffer is referenced; buffers in use stay as they are |
| Devices.Device.Take | src/src/fs/buffer.c:109-186 | one more buffer held; within the budget it can always be had |
| Devices.SavedWhenReleased | src/src/fs/buffer.c:286-299 | when nobody holds a buffer, the device itself has every block as it was last written |
| Bitmap.BmapAlloc | src/src/fs/bitmap.c:16-47 | the lowest clear bit, which is then set, or all bits are set; one buffer is held on the way |
| Mkfs.LayoutPartitions | src/src/fs/mkfs.c:37-51 | the regions partition the device exactly when there are eleven blocks beside the reserved ones |
| Mkfs.Mkfs | src/src/fs/mkfs.c:26-166 | a sound volume on which only the root directory's block and the root inode are in use; boot code, super block and magic number, the words of the root inode and the bytes of the root directory are in their places, and the reserved blocks and the rest of the boot block as before |
| Mount.ReadNewRoot | src/src/fs/mkfs.c:26-166 | made, mounted by its magic number and read through the cache, the root directory has its two entries |
| RunQueue.RunsInTurn | src/src/kernel/tasks/sched.c:217-242 | a task of the highest priority runs after exactly as many ticks as the tasks ahead of it may use, and not before |
| RunQueue.EnqueuedStands | src/src/kernel/tasks/sched.c:52-79 | a queue in order stays as it is around the new task; before that stand just the tasks of a higher priority, and of its own priority all if it has used its time up, and else those with time left |
| RunQueue.WokenRunInOrder | src/src/kernel/tasks/sched.c:149-171 | two tasks of the highest priority with time left that are woken one after the other run in that order |
| Scheduler.Scheduler.Schedule | src/src/kernel/tasks/sched.c:185-253 | zombies are reclaimed; if the current task can run and forbids preemption, it stays with the queue as it was; else it is queued again, by `EnqueuedStands`, and the first of the queue runs, one of the highest priority |
| Scheduler.Scheduler.KillTask | src/src/kernel/tasks/task.c:218-246 | a live task is reclaimed at once, or left a zombie for the scheduler if it is the current one; the invariant survives exactly if the task was no zombie |
| Semaphores.MutualExclusion | src/src/vmm/tasks.h:163-221 | over all interleavings, also from a blocked semaphore, owners and open semaphore are at most one together, and hand-over is in the order of queueing |
| Semaphores.HandOverReaches | src/src/kernel/tasks/sched.c:287-299 | after a hand-over some continuation takes the new owner, or anybody, out of `wait` if and only if it had suspended itself by then |
| Semaphores.LeftBehind | src/src/vmm/tasks.h:172-179 | a task is left in the list of an open semaphore if and only if one queued between the test and the clearing |
| Semaphores.PassesWithAnother | src/src/vmm/tasks.h:172-179 | it can pass if and only if somebody else still calls `wait` |
| Semaphores.CompletionLetsThrough | src/src/vmm/blkdev.h:58-69 | the first task that waits for a completion can pass, wherever it is in `wait` |
| IdeDriver.Driver.Interrupt | src/src/drivers/physical/hd/ide.c:234-250 | an awaited interrupt decreases the measure; only the sector being written can change; the order of requests is kept; a transfer fails exactly if the controller says so or the sector does not exist, and the fourth failure at a sector, and every fourth after it, and the last, ends in a recalibration of the request's drive |
| IdeDriver.Driver.DoReadIntr | src/src/drivers/physical/hd/ide.c:163-194 | the sector goes to its place in the buffer and the request moves on with its retries from zero, all else as it was, or is completed with all its sectors; a fourth failure ends in a recalibration |
| IdeDriver.Driver.DoRequest | src/src/drivers/physical/hd/ide.c:333-448 | driver and controller agree afterwards, and every open request is under way or queued behind something that is, in the order of submission; with a request under way the new one is queued; else a pending reset comes first, and of the drives that are to be recalibrated the first is, with nothing else started; else the first request is given to the controller, sector by sector, or fails, exactly as the controller answers |
| IdeDriver.Driver.Fail | src/src/drivers/physical/hd/ide.c:450-485 | the fourth, eighth, twelfth, sixteenth and seventeenth failure at a sector reset the controller every other time and start a recalibration of that drive, with the request back at the front of the queue or, the last time, completed as failed; after all others the same request is given to the controller at once |
| IdeRequests.NothingForgotten | src/src/drivers/physical/hd/ide.c:371-383 | at rest every request was completed exactly once |
| A20Gate.GateRoundTrip | src/src/drivers/virtual/vm/vmach.c:386-414 | closing and opening the gate restores every entry |
| A20Gate.VirtualMemory.SetGateA20 | src/src/drivers/virtual/vm/vmach.c:381-414 | closed, the bottom 64K shows at one megabyte without being owned there; opened, what was put aside is back |
| A20Gate.VirtualMemory.DeletePageDir | src/src/kernel/mm/page.c:153-171 | the directory, its tables and the pages they own are free, each once, and nothing else is |
| A20Gate.DeletionIsComplete | src/src/kernel/mm/page.c:158-188 | deletion frees every owned page exactly if the gate has put none aside, and none of those it has |
| A20Gate.TouchNewMemory | src/src/drivers/virtual/vm/fault.c:667-692 | once touched, a page of a new machine can be read by its code exactly if it is memory or the read-only page, and written exactly if it is ordinary memory |
| VirtualPic.RunKeepsSound | src/src/drivers/virtual/vpic/vpic.c:72-304 | in every run a pending interrupt that could be delivered has its hook, and each controller serves one line at most |
| VirtualPic.DeliveriesAreSeparated | src/src/drivers/virtual/vpic/vpic.c:72-108 | over any run there is no more than one delivery for each effective end-of-interrupt command, and for each instruction that sets the flag, and one for the beginning |
| VirtualPic.DeliveriesInOrder | src/src/drivers/virtual/vpic/vpic.c:83-104 | whatever any step of a run delivers has the highest priority of what is pending then, slave lines ranking where the slave is connected, and is not pending afterwards |
| VirtualPic.RequestsAreConserved | src/src/drivers/virtual/vpic/vpic.c:171-207 | a line that stays unmasked is delivered exactly as often as it was requested, but for what is pending |
| VirtualPic.LostByHalting | src/src/drivers/virtual/vm/fault.c:338-356 | what is pending with the flag set finds the machine awake, and a step loses that if and only if it is a `HLT`, alone or behind `STI`, with the flag set and something pending afterwards |
| VirtualPic.SleepsUntilRaised | src/src/kernel/traps/entry.S:87-104 | nothing is delivered to a sleeping machine, and nothing but a further request wakes it |
| VirtualPic.EverythingIsServed | src/src/drivers/virtual/vpic/vpic.c:72-121 | from a state in which the machine runs and the master can be served, rounds of return, any end-of-interrupt command and `STI` deliver each pending unmasked line once, and then nothing is pending |
| Calendar.MkTimeCounts | src/src/kernel/misc/time.c:118-132 | `mktime` gives the seconds since 1970, in 32 bits |
| Calendar.YearEncloses | src/src/kernel/misc/time.c:328-337 | the moment lies between the beginnings of the year found and the next, by `mktime`, as long as the next begins within 32 bits |
| Numerals.ReadBack | src/src/kernel/misc/printf.c:181-315 | for every width and all flags, the numbers that `strtoul` reads back |
| Numerals.SignedReadBack | src/src/kernel/misc/printf.c:181-315 | what %d prints is its argument as a signed number, read by sign and digits, exactly if no blanks separate the two |
| HeapRing.ClustersApart | src/src/kernel/alloc/malloc.c:189-248 | clusters of a ring are pairwise disjoint |
| HeapRing.FreeAfterInsert | src/src/kernel/alloc/free.c:51-56 | linking a cluster in frees its blocks and no others |
| HeapRing.FreeAfterRemove | src/src/kernel/alloc/malloc.c:241-244 | unlinking a cluster takes its blocks and no others |
| ClusterHeap.SoundInsert | src/src/kernel/alloc/free.c:50-57 | linking a freed cluster in keeps ring, table and allocations apart and consistent |
| ClusterHeap.SoundGrow | src/src/kernel/alloc/free.c:46-49 | joining a freed cluster to its predecessor keeps the heap sound |
| ClusterHeap.SoundMerge | src/src/kernel/alloc/free.c:62-68 | joining two touching clusters keeps the heap sound |
| ClusterHeap.SoundTake | src/src/kernel/alloc/malloc.c:225-248 | cutting an allocation off a cluster keeps the heap sound |
| ClusterHeap.SoundMoveTable | src/src/kernel/alloc/malloc.c:99-105 | moving the table to fresh blocks and making its old place an allocation keeps the heap sound |
| ClusterHeap.Heap.constructor | src/src/kernel/alloc/malloc.c:60-74 | the initial heap is sound and has nothing free or allocated |
| ClusterHeap.Initialize | src/src/kernel/alloc/malloc.c:60-74 | a heap exactly if the system has what the first table needs |
| ClusterHeap.Heap.FindPred | src/src/kernel/alloc/free.c:31-43 | the walk from the last index in either direction ends, at the true predecessor of the freed block: a free entry below it whose `next` is beyond it or the sentinel |
| ClusterHeap.Heap.WalkDown | src/src/kernel/alloc/free.c:35-37 | down the ring to the last cluster not above the block |
| ClusterHeap.Heap.WalkUp | src/src/kernel/alloc/free.c:38-43 | up the ring to the first cluster above the block, and one back |
| ClusterHeap.Heap.JoinPred | src/src/kernel/alloc/free.c:45-57 | the freed cluster is joined to its predecessor or linked in behind it |
| ClusterHeap.Heap.JoinSucc | src/src/kernel/alloc/free.c:59-68 | afterwards no two neighbours touch |
| ClusterHeap.Heap.TrimEnd | src/src/kernel/alloc/free.c:70-81 | a last cluster of at least eight blocks goes back to the system, and nothing else |
| ClusterHeap.Heap.FreeCluster | src/src/kernel/alloc/free.c:30-85 | the cluster's blocks are free; the break moves down exactly if the last eight blocks of the heap and all from the freed ones on are free then, and nobody else has moved it; no other allocation changes; the index is on the ring |
| ClusterHeap.Heap.Sbrk | src/src/kernel/mm/sbrk.c:13-41 | the blocks behind the break exactly if they are below the limit and there are pages for them; a refusal changes nothing but may use up all pages |
| ClusterHeap.BreakWraps | src/src/kernel/mm/sbrk.c:20-32 | asked for more, the kernel takes memory back and reports success if and only if the sum wraps |
| ClusterHeap.PagesAreLost | src/src/kernel/mm/sbrk.c:16-39 | taking and freeing eight blocks again and again ends with an empty heap and a kernel without pages |
| ClusterHeap.Heap.BreakMoved | src/src/kernel/alloc/malloc.c:197-201 | others may move the break between two calls: the heap stays sound and touches nothing of theirs |
| ClusterHeap.Heap.AllocBehindOthers | src/src/kernel/alloc/malloc.c:209-219 | what others took from the system is never free, allocated or the table's |
| ClusterHeap.ContiguityIsNeeded | src/src/kernel/alloc/malloc.c:197-206 | the last cluster may be made longer instead of linking fresh blocks in exactly if nothing lies between |
| ClusterHeap.Heap.TakeNothing | src/src/kernel/alloc/malloc.c:223-249 | a request for zero blocks is given the entry that the search begins at, which is no allocation, changes no allocation, and leaves a heap exactly if nothing was free |
| ClusterHeap.RingIsLost | src/src/kernel/alloc/malloc.c:223-249 | a sound heap with one free cluster, in which such a request leaves no ring |
| ClusterHeap.Heap.ShrinkToNothing | src/src/kernel/alloc/realloc.c:54-65 | shrinking to zero blocks leaves all the blocks to nobody; the list of free clusters is as before behind a free cluster, and else has an empty one more and is no ring |
| ClusterHeap.EmptyBreaksRing | src/src/kernel/alloc/free.c:50-57 | a list with an empty cluster in it is no ring, and there is no other in the table |
| ClusterHeap.BalancedTwice | src/src/kernel/alloc/realloc.c:74-80 | accounting for every block of the heap carries over from call to call |
| ClusterHeap.Heap.MoreCore | src/src/kernel/alloc/malloc.c:78-112 | fresh blocks that nobody holds, with the table grown if it was too small; or nothing changed, since the system has not enough |
| ClusterHeap.Heap.Doubled | src/src/kernel/alloc/malloc.c:91-93 | the first doubling that covers the need |
| ClusterHeap.Heap.MoveTable | src/src/kernel/alloc/malloc.c:99-105 | a longer table at the new place, the old place an allocation |
| ClusterHeap.Heap.GrowTable | src/src/kernel/alloc/malloc.c:89-108 | the table moves, covers the new blocks, and its old place becomes free; or nothing changes, since the system has not enough for one of twice the need |
| ClusterHeap.Heap.ReplaceTable | src/src/kernel/alloc/malloc.c:99-107 | the longer table behind the fresh blocks, its old place free, all allocations as before |
| ClusterHeap.Heap.FindFit | src/src/kernel/alloc/malloc.c:190-193 | the search once round from the last index finds the first cluster that fits, or none fits |
| ClusterHeap.Heap.TakeFrom | src/src/kernel/alloc/malloc.c:223-248 | the first blocks of the cluster are allocated, the rest stays free in its place; the next search begins there, or at the next cluster |
| ClusterHeap.Heap.Extend | src/src/kernel/alloc/malloc.c:194-208 | a last cluster at the end of the heap is lengthened by what is missing; else nothing changes but the pages left |
| ClusterHeap.Heap.GrowLast | src/src/kernel/alloc/malloc.c:202-206 | the last cluster takes in the fresh blocks, also if the old table has joined it |
| ClusterHeap.Heap.AllocFresh | src/src/kernel/alloc/malloc.c:209-219 | an allocation straight from the system, unless that has not enough for it and a bigger table |
| ClusterHeap.Heap.ShrinkCluster | src/src/kernel/alloc/realloc.c:55-65 | exactly the excess blocks become free |
| ClusterHeap.ConservedAfterFree | src/src/kernel/alloc/realloc.c:74-80 | freeing and allocating together account for every block |
| ClusterHeap.Heap.TakeBack | src/src/kernel/alloc/realloc.c:81-91 | a freed cluster is taken back at its old place and the ring is as before it was freed |
| ClusterHeap.Heap.TakeBackBehind | src/src/kernel/alloc/realloc.c:87-91 | so too when there is free space in front of it, which is taken and freed again |
| FragLists.ListAfterLinkIn | src/src/kernel/alloc/free.c:110-115 | linking a fragment in between two neighbours |
| FragLists.ListAfterLinkOut | src/src/kernel/alloc/free.c:98-102 | unlinking a stretch of fragments |
| FragBlocks.PopKeepsLog | src/src/kernel/alloc/malloc.c:144-156 | taking the first fragment keeps the free fragments of each block a run that starts at `first` and has `nfree` members |
| FragBlocks.PushKeepsLog | src/src/kernel/alloc/free.c:117-131 | so does freeing the first fragment of a block |
| FragBlocks.JoinKeepsLog | src/src/kernel/alloc/free.c:106-116 | so does freeing a further fragment |
| FragBlocks.NewBlockKeepsLog | src/src/kernel/alloc/malloc.c:157-183 | so does cutting a new block |
| FragBlocks.OnlyOneLeft | src/src/kernel/alloc/free.c:93-97 | a block with all fragments but one free is the only one of its size when it is not released |
| KernelHeap.BlockifyCovers | src/src/kernel/alloc/malloc.c:189 | the number of blocks covers the request exactly up to 2^32 - 4096 bytes, beyond that it is zero |
| KernelHeap.RequestFits | src/src/kernel/alloc/malloc.c:131-189 | an allocation has as many bytes as were asked for, and less than twice as many or a page more |
| KernelHeap.Allocator.constructor | src/src/kernel/alloc/malloc.c:60-74 | nothing is in use at first |
| KernelHeap.Allocator.FragLog | src/src/kernel/alloc/malloc.c:138-140 | the least power of two that holds the request |
| KernelHeap.Allocator.PopFragment | src/src/kernel/alloc/malloc.c:144-156 | a fragment of the size that was free, and only that one, is in use |
| KernelHeap.Allocator.CutBlock | src/src/kernel/alloc/malloc.c:157-183 | the first fragment of a new block is in use, the others are free; it fails only when no block is free and the system has not enough |
| KernelHeap.Allocator.ThreadBlock | src/src/kernel/alloc/malloc.c:168-176 | all fragments of the block but the first, as one run |
| KernelHeap.Allocator.PushFragment | src/src/kernel/alloc/free.c:117-131 | the fragment, and only it, is no longer in use |
| KernelHeap.Allocator.JoinFragment | src/src/kernel/alloc/free.c:106-116 | the fragment, and only it, is no longer in use |
| KernelHeap.Allocator.ReleaseBlock | src/src/kernel/alloc/free.c:93-105 | the fragment, and only it, is no longer in use, and the block is free |
| KernelHeap.Allocator.WalkRun | src/src/kernel/alloc/free.c:97-99 | counting nodes ends behind the run of the block |
| KernelHeap.HugeRequest | src/src/kernel/alloc/malloc.c:189-249 | a new heap, on which such a request returns block 0 and changes nothing |
| KernelHeap.HugeResize | src/src/kernel/alloc/realloc.c:54-65 | a new heap, on which such a resize returns the old pointer, no allocation any more, and loses its block |
| KernelHeap.Allocator.MallocNothing | src/src/kernel/alloc/malloc.c:189-249 | the pointer is no allocation, all allocations are as before, and the heap is sound exactly if nothing was free |
| KernelHeap.BalancedByFree | src/src/kernel/alloc/free.c:14-135 | `free` loses no block but those it gives back above the break |
| KernelHeap.Allocator.CopyBytes | src/src/kernel/alloc/realloc.c:95-96 | the bytes arrive even where the places overlap, and no other byte changes |
| KernelHeap.Allocator.ReallocCopy | src/src/kernel/alloc/realloc.c:42-51 | allocate, copy, free, for a small fragment or from one; it fails as `malloc` does |
| DiskBlocks.BitAfterSet | src/src/vmm/bits.h:9-25 | setting or clearing a bit changes that bit alone |
| DiskBlocks.FindZeroBit | src/src/vmm/bits.h:29-53 | the first clear bit up to the end of the last word, or none |
| DiskBlocks.WordAfterSet | src/src/fs/inode.c:306-331 | storing a block number changes that word alone |
| Bitmap.BitAtAfterSet | src/src/fs/bitmap.c:34-36 | setting or clearing a bit of a bitmap of several blocks changes that bit alone |
| Bitmap.FoundBelowLength | src/src/fs/bitmap.c:31-41 | a bit found in the last word is below the length, since the bits beyond are set |
| Bitmap.BmapFree | src/src/fs/bitmap.c:49-74 | the bit is cleared, and a bit that was clear already is noticed |
| BlockTree.PtrAfterEntered | src/src/fs/inode.c:261-353 | entering a block at an empty slot changes no other slot of any file |
| BlockTree.TreeAfterEntered | src/src/fs/inode.c:261-353 | it keeps every block in a tree used and in one place |
| BlockTree.GrewByEntering | src/src/fs/inode.c:261-353 | and it keeps all other data blocks where they are, with their contents |
| BlockTree.NoneLostTwice | src/src/fs/inode.c:261-353 | no file losing a block, and nothing coming into use outside a file's tree, carries over from step to step |
| FileBlocks.LeafPathInjective | src/src/fs/inode.c:358-418 | distinct logical blocks have distinct paths through the indirect blocks |
| FileBlocks.ReachedFurther | src/src/fs/inode.c:305-353 | one more level of the walk, found or made |
| FileData.TreeAfterWrite | src/src/fs/file.c:197-221 | writing a data block disturbs no tree |
| FileData.ByteAfterChunk | src/src/fs/file.c:197-221 | a write into one block changes the bytes it covers and no other byte of any file |
| FileData.ContentsWritten | src/src/fs/file.c:230-236 | the flat contents after a write: the old ones overwritten from the position on |
| FileSystem.Volume.AllocBlock | src/src/fs/bitmap.c:77-85 | a data block that was free and is now in use, or none was free |
| FileSystem.Volume.GetInodeBlkno | src/src/fs/inode.c:261-303 | the block at a pointer of the inode, made if asked for; nothing else moves |
| FileSystem.Volume.ClearBlock | src/src/fs/inode.c:296-301 | a new indirect block is all zeros |
| FileSystem.Volume.GetIndirectBlkno | src/src/fs/inode.c:305-353 | the same for a word of an indirect block, whose buffer is released; a new indirect block is cleared |
| FileSystem.Volume.Descend | src/src/fs/inode.c:305-353 | one level further down, if there is a block to go through |
| FileSystem.Volume.WalkDouble | src/src/fs/inode.c:378-389 | two levels |
| FileSystem.Volume.WalkTriple | src/src/fs/inode.c:390-413 | three levels |
| FileSystem.Volume.SeekFile | src/src/fs/file.c:94-130 | the position moves to the place asked for if and only if that is inside the file, except exactly when the target is a position from 2^31 on or wraps round into the file |
| FileSystem.LargestFile | src/src/fs/file.c:94-180 | a file of 2^32 - 1 bytes: seeking to its end is refused, and too many bytes are read |
| FileSystem.Volume.ReadChunk | src/src/fs/file.c:148-171 | the part in one block; a hole reads as zeros |
| FileSystem.Volume.WriteChunk | src/src/fs/file.c:195-221 | the part in one block is written and nothing else |
| FileSystem.Volume.SizeUpdate | src/src/fs/file.c:230-236 | the size becomes the larger of itself and the position |
| FileSystem.Volume.FreeBlock | src/src/fs/bitmap.c:87-92 | the block is no longer in use; freeing a free block is noticed |
| FileSystem.Volume.DeleteIndirectBlocks | src/src/fs/file.c:246-281 | all data blocks below an indirect block are freed, each once, through up to three levels |
| FileSystem.Volume.DeletePointer | src/src/fs/file.c:297-323 | one pointer of the inode and all below it |
| Pruning.PtrAfterRemoved | src/src/fs/file.c:262-276 | emptying a slot changes no other slot of any file |
| Pruning.PrunedTwice | src/src/fs/file.c:260-278 | freeing one part of a tree after another frees both, and nothing twice |
| Pruning.TruncatedWhenPruned | src/src/fs/file.c:283-331 | emptying all slots is truncation as a caller sees it |
| Pruning.LeafPathOnto | src/src/fs/inode.c:358-418 | every data slot belongs to a logical block |
| Pruning.IndirectBlocksLeak | src/src/fs/file.c:306-323 | the indirect blocks of a truncated file stay marked although no file has them |
| Mkfs.WriteBitmap | src/src/fs/mkfs.c:55-88 | the first bit and the bits beyond the length are set in the blocks that are searched, all others clear |
| Mkfs.PadBlock | src/src/fs/mkfs.c:77-81 | the bits from the length on are set |
| Mkfs.WriteInodes | src/src/fs/mkfs.c:90-109 | the root inode first, then zeros |
| Mkfs.SuperRoundTrip | src/src/fs/mkfs.c:154-157 | the super block reads back as written |
| Mkfs.BootBlockIs | src/src/fs/mkfs.c:154-160 | boot code, super block and magic number have their own places in the boot block, and the rest is as it was |
| Mkfs.RootRoundTrip | src/src/fs/mkfs.c:96-101 | the root inode reads back as written, and is so word by word |
| Mkfs.CounterFits | src/src/fs/mkfs.c:111-139 | the signed counter covers the bitmap exactly below 2^31 bits |
| Mount.Mounted | src/src/fs/dev.c:146-166 | a volume is mounted exactly if it has one of the two magic numbers; the file operations work on it, through an empty cache |
| Mount.ReadMetaData | src/src/fs/dev.c:146-166 | the super block by its words, exactly for the two magic numbers |
| BufferCache.UnreferencedIsSaved | src/src/fs/buffer.c:270-299 | a buffer that nobody holds equals its disk block |
| BufferCache.NothingHeldNothingUnsaved | src/src/fs/buffer.c:286-299 | with no buffer held the devices have everything that was written |
| BufferCache.Cache.constructor | src/src/fs/buffer.c:23-33 | all buffers are free, readers see the devices |
| BufferCache.Cache.FindBuffer | src/src/fs/buffer.c:49-62 | the valid buffer of a block, or there is none |
| BufferCache.Cache.MakeFreeBuffer | src/src/fs/buffer.c:64-107 | of the first bucket in turn that has an unreferenced buffer, the least recently used one becomes free; or all buffers are referenced |
| BufferCache.Cache.FindOrMakeFree | src/src/fs/buffer.c:120-151 | the search of both callers, tried again after the least recently used unreferenced buffer was made free |
| BufferCache.Cache.Reference | src/src/fs/buffer.c:133-137 | one holder more, at the head of its list |
| BufferCache.Cache.WriteOut | src/src/fs/buffer.c:288-296 | the block has the buffer's contents, which count as saved |
| BufferCache.Cache.Invalidate | src/src/fs/buffer.c:312-321 | one buffer is worthless, its announced changes written |
| BufferCache.Cache.Modify | src/src/fs/buffer.c:249-251 | a holder's change is seen by all readers at once |
| BufferCache.Cache.BDirty | src/src/fs/buffer.c:249-268 | the change is announced, or written at once |
| BufferCache.Cache.BRelse | src/src/fs/buffer.c:270-299 | one holder less; a dirty buffer is written; readers see no difference; the invariant survives exactly if the last holder has announced his changes |
| BufferCache.Cache.Fill | src/src/fs/buffer.c:198-243 | the block's buffer has the new contents |
| BufferCache.Cache.BWrite | src/src/fs/buffer.c:188-247 | readers and device have the new contents of the block, and no other block changes |
| Devices.Device.constructor | src/src/fs/buffer.c:23-33 | a device on an idle cache shows its blocks, nothing held, with any number of buffers sure to the task |
| Devices.Device.Data | src/src/fs/buffer.c:109-186 | a held buffer has the block's contents of now, whatever happened since it was taken |
| Devices.Device.Change | src/src/fs/buffer.c:249-268 | a change of a held buffer, announced or written, changes that block of the device alone |
| Devices.Device.Drop | src/src/fs/buffer.c:270-299 | one buffer less held, every block as before |
| Devices.Device.Write | src/src/fs/buffer.c:188-247 | one block has new contents, what is held stays held |
| Devices.Device.OtherTakes | src/src/fs/buffer.c:109-186 | another task comes to hold a buffer: the device shows what it did and the task holds what it held |
| Devices.Device.OtherDrops | src/src/fs/buffer.c:270-299 | another task gives a buffer up, likewise |
| Devices.NotExhausted | src/src/fs/buffer.c:109-186 | with fewer holds than there are buffers one is unreferenced |
| BufferCache.Cache.FlushDeviceCache | src/src/fs/buffer.c:301-324 | all buffers of the device are invalid and nothing announced is lost |
| Lists.InitList | src/src/vmm/lists.h:38-45 | an empty list |
| Lists.AppendNode | src/src/vmm/lists.h:47-58 | the list with the node at its end, no other word changed |
| Lists.PrependNode | src/src/vmm/lists.h:60-69 | the list with the node at its front, no other word changed |
| Lists.InsertNode | src/src/vmm/lists.h:71-91 | the list with the node behind the given one, also behind the last sentinel |
| Lists.RemoveNode | src/src/vmm/lists.h:93-101 | the list without the node, no other word changed |
| Lists.ListEmptyP | src/src/vmm/lists.h:103-108 | true just for the empty list |
| Lists.OtherListKept | src/src/vmm/lists.h:38-101 | a list that shares no word with the one changed is as before |
| RunQueue.EnqueuedKeepsOrder | src/src/kernel/tasks/sched.c:52-79 | the new queue is in order, the current task left out, wherever that one stands |
| RunQueue.EnqueuedBehindStretch | src/src/kernel/tasks/sched.c:52-79 | in a queue that the current task keeps out of order, the new task goes behind the longest stretch of tasks that may stand before it |
| RunQueue.RequeuedBehindEquals | src/src/kernel/tasks/sched.c:217-224 | a current task that is queued again with time left goes behind all others of its priority that have time left |
| RunQueue.FrontRunsFirst | src/src/kernel/tasks/sched.c:217-242 | of two tasks of the highest priority the one nearer to the front of the queue runs first |
| RunQueue.EnqueuedKeepsPriority | src/src/kernel/tasks/sched.c:52-79 | queueing keeps the queue sorted by priority |
| RunQueue.TickBringsNearer | src/src/kernel/misc/time.c:191-194 | with nothing else happening each tick takes one from the time that tasks ahead may use |
| Scheduler.HomesRequeued | src/src/kernel/tasks/sched.c:218-224 | requeueing the current task loses nobody and puts the whole queue in order |
| Scheduler.HomesSwitched | src/src/kernel/tasks/sched.c:230-242 | after a switch every task is on the list of its state |
| Scheduler.HomesKilled | src/src/kernel/tasks/task.c:218-246 | a killed task is on no list but, later, that of the zombies |
| Scheduler.NumberedReclaimed | src/src/kernel/tasks/task.c:192-215 | reclaiming a process accounts for it once and for all |
| Scheduler.Scheduler.constructor | src/src/kernel/tasks/task.c:70-106 | the idle task alone |
| Scheduler.Scheduler.ReclaimTask | src/src/kernel/tasks/task.c:192-215 | a dead task's number is reclaimed for the first and only time, no slot has it any more, and lists, order and counts are consistent again |
| Scheduler.Scheduler.ReapZombies | src/src/kernel/tasks/sched.c:198-205 | every zombie is reclaimed, once, none of them the current task |
| Scheduler.Scheduler.Reschedule | src/src/kernel/tasks/sched.c:215-249 | a task of the highest priority is current, with time left |
| Scheduler.Scheduler.SuspendTask | src/src/kernel/tasks/sched.c:119-136 | a running task is moved to the end of the suspended list |
| Scheduler.Scheduler.SuspendCurrentTask | src/src/kernel/tasks/sched.c:138-147 | the current task sleeps and another runs |
| Scheduler.Scheduler.WakeTask | src/src/kernel/tasks/sched.c:149-171 | a task that sleeps and is neither frozen nor a zombie is queued, by `EnqueuedStands`, and nothing happens to any other; the processor will be offered to a task of the highest priority except in one case, stated exactly |
| Scheduler.Scheduler.Preempt | src/src/kernel/tasks/sched.c:92-99 | a task of higher priority than the current one gets the processor, now or after the interrupt |
| Scheduler.Scheduler.Forbid | src/src/vmm/tasks.h:136-148 | one more reason against preemption |
| Scheduler.Scheduler.Permit | src/src/vmm/tasks.h:150-160 | with the last reason gone a task of the highest priority is current |
| Scheduler.Scheduler.TimerInterrupt | src/src/kernel/misc/time.c:191-194 | one tick of the run queue; an exhausted task gives way |
| Scheduler.Scheduler.Tick | src/src/kernel/misc/time.c:191-194 | one tick less for the current task, and a request when none is left |
| Scheduler.Scheduler.RemoveTask | src/src/kernel/tasks/sched.c:106-117 | the current task goes on as a zombie with the invariant intact; any other one is on no list, and nothing but its slot is left to free |
| Scheduler.Scheduler.AllocTask | src/src/kernel/tasks/task.c:47-65 | the first unused slot, or there is none |
| Scheduler.Scheduler.AddTask | src/src/kernel/tasks/task.c:147-189 | a task with a new process number in the first unused slot, whenever there is one and memory; counted only after it was offered the processor |
| Scheduler.Scheduler.AppendTask | src/src/kernel/tasks/sched.c:81-103 | the new task waits on the list of its state; it may take over at once; it is overlooked exactly in the case that a wakeup is lost |
| Scheduler.WakeupIsLost | src/src/kernel/tasks/sched.c:149-171 | a run of four calls after which a ready task of higher priority waits and nothing asks for it |
| Scheduler.ZombieIsKilled | src/src/kernel/tasks/task.c:218-246 | a run of three calls after which the zombies are miscounted |
| Semaphores.StepKeepsSound | src/src/vmm/tasks.h:172-205 | every atomic step of every task and of a completing interrupt keeps at most one owner and the list in order |
| Semaphores.Handing | src/src/kernel/tasks/sched.c:323-342 | the task that has waited longest becomes the owner |
| Semaphores.StuckForEver | src/src/kernel/tasks/sched.c:287-299 | otherwise, in every continuation, nobody else owns the semaphore and whoever waits goes on waiting |
| Semaphores.WakeupCanBeLost | src/src/kernel/tasks/sched.c:287-299 | a run of six steps in which that happens |
| Semaphores.WaiterCanBeLeftBehind | src/src/vmm/tasks.h:172-179 | a run of six steps in which that happens |
| Semaphores.CompletesOnce | src/src/vmm/blkdev.h:35-51 | a semaphore initialised blocked is signalled by its completion at most once, one initialised open never |
| Semaphores.NobodyPassesBeforeCompletion | src/src/vmm/blkdev.h:58-69 | whoever has got past `wait` on a blocked semaphore was preceded by its completion |
| Semaphores.Semaphore.constructor | src/src/vmm/tasks.h:207-221 | open or blocked, nobody waiting |
| Semaphores.Semaphore.ExchangeBlocked | src/src/vmm/tasks.h:193-197 | whoever finds the semaphore open owns it |
| Semaphores.Semaphore.AddTaskList | src/src/kernel/tasks/sched.c:258-271 | the task is last in the list |
| Semaphores.Semaphore.NobodyWaiting | src/src/vmm/tasks.h:175 | the step of `signal` that decides between opening and handing over |
| Semaphores.Semaphore.ClearBlocked | src/src/vmm/tasks.h:176 | the semaphore is open and nobody owns it |
| Semaphores.Semaphore.WakeUpFirstTask | src/src/kernel/tasks/sched.c:323-342 | the first of the list owns the semaphore and has left the list |
| Semaphores.Semaphore.SignalCompletion | src/src/vmm/blkdev.h:35-51 | the semaphore is open, or the first of the list owns it |
| IdeRequests.AddressRoundTrip | src/src/drivers/physical/hd/ide.c:398-413 | the registers name the block that was asked for |
| IdeRequests.CountFits | src/src/drivers/physical/hd/ide.c:178-192 | driver and controller agree on the number of sectors exactly from 1 to 256; for none 255 are left over, for more the driver waits in vain |
| IdeRequests.Retried | src/src/drivers/physical/hd/ide.c:464-473 | a failed request goes to the front of the queue with its progress |
| IdeRequests.Ended | src/src/vmm/blkdev.h:35-51 | a completed request is in the log, once, and nowhere else |
| IdeRequests.MeasureIsBound | src/src/drivers/physical/hd/ide.c:450-485 | the measure that interrupts decrease is never negative |
| IdeDriver.Driver.EndRequest | src/src/vmm/blkdev.h:35-51 | the current request is completed with its result |
| IdeDriver.Driver.HandleError | src/src/drivers/physical/hd/ide.c:450-485 | sixteen more attempts at a sector, then failure; the drive is to be recalibrated exactly after every fourth failure and after the last, the controller reset after every eighth and the last |
| IdeDriver.Driver.FlagRecalibration | src/src/drivers/physical/hd/ide.c:468-469 | the drive is to be recalibrated |
| IdeDriver.Driver.RecalibrateDrive | src/src/drivers/physical/hd/ide.c:265-281 | the controller recalibrates that drive, whose flag alone is cleared, and the driver waits for it |
| IdeDriver.Driver.ResetController | src/src/drivers/physical/hd/ide.c:283-331 | the controller is reset, and no reset is pending |
| IdeDriver.Driver.RecalibrateFirst | src/src/drivers/physical/hd/ide.c:360-369 | a new request is queued and the drive is recalibrated, with nothing else started |
| IdeDriver.Driver.StartNext | src/src/drivers/physical/hd/ide.c:371-447 | the first request becomes current: accepted, it is under way and all else as it was; impossible, it is completed as failed; else an attempt is used up |
| IdeDriver.Driver.GiveCommand | src/src/drivers/physical/hd/ide.c:398-424 | the controller is told to transfer just the sectors that the request has left |
| IdeDriver.EveryFourth | src/src/drivers/physical/hd/ide.c:464-484 | recalibration and reset are due after every fourth and every eighth failure and after the last |
| IdeDriver.Driver.Append | src/src/drivers/physical/hd/ide.c:351-356 | the request is last in the queue |
| IdeDriver.Driver.Start | src/src/drivers/physical/hd/ide.c:371-384 | the given request, or the first of the queue, is current |
| IdeDriver.Driver.Refuse | src/src/drivers/physical/hd/ide.c:390-397 | a request that cannot be executed fails and the next one starts |
| IdeDriver.Driver.Issue | src/src/drivers/physical/hd/ide.c:384-447 | the controller works on the current sector exactly if it answers so; a request that is impossible is completed as failed; else an attempt is used up, and a fourth one ends in a recalibration |
| IdeDriver.Driver.DoWriteIntr | src/src/drivers/physical/hd/ide.c:196-232 | the sector of the buffer is on the disk and the request moves on, all else as it was, or is completed with all its sectors; a fourth failure ends in a recalibration |
| IdeDriver.Driver.PutOutNext | src/src/drivers/physical/hd/ide.c:212-231 | the next sector is put out to the controller, or the request is completed |
| IdeDriver.Driver.Advance | src/src/drivers/physical/hd/ide.c:180-186 | the next sector, with its own sixteen retries |
| IdeDriver.Driver.Finish | src/src/drivers/physical/hd/ide.c:188-192 | the request is completed with all its sectors, and the next one starts |
| IdeDriver.Driver.DoRecalIntr | src/src/drivers/physical/hd/ide.c:252-263 | the driver goes on with its queue, after the recalibration of the other drive if that is due |
| IdeDriver.Driver.Submit | src/src/vmm/blkdev.h:58-69 | a new request, given to the controller at once if that accepts it and nothing is under way, and else queued or refused |
| PageTables.EntryWritten | src/src/kernel/mm/page.c:219-245 | writing an entry changes the mapping of one page |
| PageTables.TableMade | src/src/kernel/mm/page.c:229-236 | so does making a table for it, which is open as the entry is |
| PageTables.StillOwnedOnce | src/src/kernel/mm/page.c:190-217 | no page is owned twice and no owned page is free |
| PageTables.PutAside | src/src/drivers/virtual/vm/vmach.c:406-411 | the gate takes over the ownership of what it hides |
| PageTables.TakenBack | src/src/drivers/virtual/vm/vmach.c:397-400 | and gives it back |
| A20Gate.PageIsLost | src/src/kernel/mm/page.c:158-188 | a run of five calls after which a page that was free at first is lost |
| A20Gate.VirtualMemory.constructor | src/src/kernel/mm/page.c:345-357 | a directory that maps no user page |
| A20Gate.VirtualMemory.GetPte | src/src/kernel/mm/page.c:260-274 | the entry of a page, none if there is no table |
| A20Gate.VirtualMemory.AllocPage | src/src/kernel/mm/page.c:18-43 | the first free page, or none |
| A20Gate.VirtualMemory.FreePage | src/src/kernel/mm/page.c:97-111 | the page is free, and the list names no page twice exactly if it was not free already |
| A20Gate.VirtualMemory.SetPte | src/src/kernel/mm/page.c:219-245 | exactly one entry is replaced; a table that had to be made is open to users and to writing as the entry is |
| A20Gate.VirtualMemory.MapPage | src/src/kernel/mm/page.c:190-217 | exactly one entry is replaced, and a freeable page it had goes back to the free list |
| A20Gate.VirtualMemory.Close | src/src/drivers/virtual/vm/vmach.c:402-412 | sixteen entries are put aside and replaced by aliases that own nothing |
| A20Gate.VirtualMemory.Open | src/src/drivers/virtual/vm/vmach.c:393-401 | sixteen entries come back |
| A20Gate.VirtualMemory.PageFault | src/src/drivers/virtual/vm/fault.c:667-692 | the faulting entry is as before but for a fresh page that is present, with its alias while the gate is closed; tables that had to be made are open as the entry is; nothing else changes; the page is lost exactly if the entry was not freeable |
| A20Gate.VirtualMemory.MapFaulted | src/src/drivers/virtual/vm/fault.c:681-691 | the page is mapped by an entry of just those bits, and above one megabyte as well while the gate is closed |
| A20Gate.VirtualMemory.FillVmPageDir | src/src/drivers/virtual/vm/vmach.c:153-180 | memory to be allocated on demand, with one shared page in the upper 384K, in tables that users can read and write |
| A20Gate.VirtualMemory.FillRange | src/src/drivers/virtual/vm/vmach.c:158-178 | a range of like entries, with the tables for it |
| A20Gate.VirtualMemory.DeletePageTable | src/src/kernel/mm/page.c:173-188 | the table and the pages it owns are free, each once |
| VirtualPic.DeliveryIsAllowed | src/src/drivers/virtual/vpic/vpic.c:78-82 | what delivers is a return to the machine with the flag set, nothing in service and something pending, and nothing else |
| VirtualPic.LostWhenMasked | src/src/drivers/virtual/vpic/vpic.c:186-192 | a pending line is lost at a request exactly if it is masked by then on a controller that the request touches |
| VirtualPic.RaisedIsPending | src/src/drivers/virtual/vpic/vpic.c:186-203 | a request is pending exactly if its line is not masked, and is noticed when the flag is set |
| VirtualPic.HaltedWhilePending | src/src/drivers/virtual/vm/fault.c:424-431 | a run at whose end a machine sleeps with the flag set and a line pending |
| VirtualPic.MaskedIsDelivered | src/src/drivers/virtual/vpic/vpic.c:78-104 | a run in which a masked line is delivered |
| VirtualPic.PortFacts | src/src/drivers/virtual/vpic/vpic.c:222-301 | what is in service ends exactly with an end-of-interrupt command in the normal state; nothing that is written touches what is pending |
| VirtualPic.CommandByValue | src/src/drivers/virtual/vpic/vpic.c:222-263 | a command byte ends what is in service exactly if it is one of 20 to 27 or 60 to 67, hexadecimal; every other byte by its value |
| VirtualPic.OtherRegisterRead | src/src/drivers/virtual/vpic/vpic.c:255-263 | the register selected to be read is the other than by the 8259A data sheet; what is read is right exactly if both are equal |
| VirtualPic.LinesByValue | src/src/drivers/virtual/vpic/vpic.c:270-274 | each bit of a mask stands for its line |
| VirtualPic.MaskAfter | src/src/drivers/virtual/vpic/vpic.c:149-168 | a line is masked by `set_mask` and by what is written to the mask register, and by nothing else |
| VirtualPic.FlagAfter | src/src/drivers/virtual/vm/fault.c:332-390 | the flag is what the last instruction about it has made it, but off after an interrupt |
| VirtualPic.Initialised | src/src/drivers/virtual/vpic/vpic.c:226-296 | three or four writes set vectors and connection and nothing else |
| VirtualPic.BaseKept | src/src/drivers/virtual/vpic/vpic.c:279-283 | the vector base is what was asked for only if that is zero |
| VirtualPic.CascadeStep | src/src/drivers/virtual/vpic/vpic.c:91-99 | the line of the slave stays pending on the master exactly while the slave has something pending |
| VirtualPic.Machine.constructor | src/src/drivers/virtual/vpic/vpic.c:40-65 | all lines masked, nothing pending |
| VirtualPic.Machine.ReturnHook | src/src/drivers/virtual/vpic/vpic.c:70-108 | one `Hook` step: the state machine's invariant and theorems hold of what the method leaves |
| VirtualPic.Machine.LowestLine | src/src/drivers/virtual/vpic/vpic.c:85 | the lowest line of a register |
| VirtualPic.Machine.SimulateIrq | src/src/drivers/virtual/vpic/vpic.c:171-207 | one `Raise` step, likewise |
| VirtualPic.Machine.PortWrite | src/src/drivers/virtual/vpic/vpic.c:210-304 | one `Out` step, likewise, with the commands by value in `CommandByValue` |
| VirtualPic.Machine.PortRead | src/src/drivers/virtual/vpic/vpic.c:306-344 | one `In` step, with the register that was asked for |
| VirtualPic.Machine.Clear | src/src/drivers/virtual/vm/fault.c:332-336 | one `Cli` step |
| VirtualPic.Machine.Set | src/src/drivers/virtual/vm/fault.c:338-356 | one `Sti` step |
| VirtualPic.Machine.Pop | src/src/drivers/virtual/vm/fault.c:373-390 | one `PopFlags` step |
| Calendar.ClosedFormCounts | src/src/kernel/misc/time.c:118-132 | the closed form counts the days by the rule for leap years |
| Calendar.ExpandTime | src/src/kernel/misc/time.c:313-358 | the year and the time of day of the moment; month and day by the table |
| Calendar.LastSecond | src/src/kernel/misc/time.c:328-337 | the last second of the 32 bits, and the next year that begins before it |
| Calendar.YearRecovered | src/src/kernel/misc/time.c:328-337 | the year found is the year of the date |
| Calendar.TableIsRight | src/src/kernel/misc/time.c:280-283 | month and day are right exactly outside May |
| Calendar.WeekdayRight | src/src/kernel/misc/time.c:353-358 | the day of the week is right exactly if the year counted from March is a multiple of seven |
| Numerals.ScratchDigits | src/src/kernel/misc/printf.c:267-281 | the digits, last first, never more than 32 of the 40 places |
| Numerals.FormatNumber | src/src/kernel/misc/printf.c:181-315 | prefix, sign, padding and digits of a number |
| Numerals.FieldFills | src/src/kernel/misc/printf.c:284-315 | the field is exactly as wide as it is to be, or as what it has to hold |
| Numerals.Strtoul | src/src/kernel/misc/lib.c:7-59 | the number that a string denotes by its prefix |
| Numerals.FindBase | src/src/kernel/misc/lib.c:16-39 | the base that the prefix announces |
| Numerals.DigitsReadBack | src/src/kernel/misc/lib.c:40-55 | digits read in the same or a smaller base |
| Numerals.PaddedIsOctal | src/src/kernel/misc/printf.c:301-308 | a decimal padded with zeros is read back exactly if it has one digit |
| Numerals.ReadBackPlain | src/src/kernel/misc/printf.c:181-315 | %u, %#x, %#X and %#b are read back always, %d and %#o exactly below 2^31 |

## Left out

- KernelHeap.Allocator.Realloc: a size above 2^32 - 4096 bytes for the only fragment in use of a block, while there are free clusters and other blocks of such fragments: `free` then gives the block back to a table without a ring, where its search need not end (`ClusterHeap.SearchAfterNothing` says when it does) and what it links is not modelled.
- KernelHeap.Allocator.Malloc: requests so close to 2^32 bytes that the break wraps (`ClusterHeap.BreakWraps`), after which the source writes outside its table. `Realloc`, `ClusterHeap.Heap.AllocCluster` and `ClusterHeap.Heap.Sbrk` likewise.
- The heap: nodes of free fragments are kept beside the bytes of the heap, not in them; that no node inside a fragment in use is written is part of the contracts of `Malloc` and `Free`.
- ClusterHeap.Heap.Sbrk: the pages for page tables of the kernel's own map.
- The heap: a break that others leave in the middle of a block, and others moving it during a call, which `forbid` prevents.
- FileSystem.Volume.WriteFile: files with holes and positions beyond the end, because new data blocks are not cleared and a partial write would show old contents; sizes of 2^32 bytes and more.
- FileSystem.Volume.ReadFile: device errors and changed media; error codes and error tests disagree in sign.
- The file system: use counts of buffers are not bounded by 16 bits; locking between tasks that read the same block is not modelled; between two levels of indirect blocks the cleared buffer is released and taken again, where the source goes on with it.
- BufferCache.Cache.FlushDeviceCache: dropping changes without writing them.
- Directories, path names, inode allocation and links, `set_file_size`, the LAZY_WRITES build.
- Mkfs.Mkfs: devices whose data bitmap has 2^31 bits and more, for which the source writes in front of a buffer in memory.
- Scheduler.Scheduler.TimerInterrupt: the date and timer requests.
- Scheduler.Scheduler.AddTask: pages for stacks and page directory, which are a parameter, and wrap-around of process numbers.
- The scheduler: statistics (`cpu_time`, `sched_count`), the context switch itself, and task slots in the descriptor table.
- Semaphores.MutualExclusion: signals by tasks that have not waited, other than the one completion of a blocked semaphore; waiting tasks that are killed; tasks that wait while they forbid preemption.
- IdeDriver.Driver.Submit: numbers of blocks outside 1 to 256, about which `IdeRequests.CountFits` says how driver and controller disagree.
- IdeDriver.Driver.RecalibrateDrive: a drive that cannot be selected, for which the driver calls itself again until it can.
- IdeDriver.Driver.DoRequest: interrupts between its instructions.
- A20Gate.VirtualMemory.PageFault: running out of pages, which the source does not check for (`MapPage`, `SetPte`, `FillVmPageDir` likewise), and addresses above the first 64K of the second megabyte while the gate is closed, which 8086 code cannot form.
- A20Gate.VirtualMemory.FillVmPageDir: base memory of more than 640K, which callers exclude (vmach.c:78), or none.
- A20Gate: `put_pd_val`, which maps pages without keeping the alias, and the contents of pages.
- VirtualPic.RequestsAreConserved: lines while the slave is not connected to an unmasked line of the master, or while that line is raised directly or a masked line of the slave is; `Sound` and the separation of deliveries hold of those runs too.
- VirtualPic: non-maskable interrupts, priorities other than fixed, level triggering.
- Numerals.FormatNumber: the precision, `%n`, `%p`, characters and strings; Numerals.Strtoul: bases given by the caller and the end pointer.
- The port and disk emulations, floppy driver, shell, loader, syslog and video drivers.
