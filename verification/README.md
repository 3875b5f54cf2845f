# A verified model of the kernel's data structures and protocols

This project models the parts of a small x86-64 kernel (and of its disk-filesystem tool) that carry a
whole-state invariant: the red-black tree, the address-space tree built on it, page-table population and
the slot walk, the buddy allocator, the range allocator for temporary mappings, the boot allocator, the
slab cache, intrusive lists, threads with mutexes and conditions, sparse memory files, and insertion into
a packed B+ leaf. Code that changes objects in place is modelled by classes and methods that do the same;
each method is proved against a value-level specification, and the laws are proved about that.

| file | models | main results |
|---|---|---|
| `Common.dfy` | notions shared by the modules | |
| `RbTree.dfy` | rbtree.c, rbtree.h | insertion and erasure restore every red-black invariant and keep the in-order sequence exactly |
| `Vma.dfy` | mm.c, the VMA tree | the tree refines a map from address to permission |
| `PageTables.dfy` | paging.c, populate and release | success exactly when there are frames enough; failure at any depth changes nothing; the exact effect of any release, and when it keeps the tables right |
| `PageWalk.dfy` | paging.c, the slot iterator; mm.c, mapping loops | the walk advances by exactly one slot; mapping and unmapping are exact and undo each other; when their assertion fires |
| `Mapped.dfy` | the two together | what populate has made is what the walk finds, on paths that share no table of level 0 |
| `Space.dfy` | mm.c, areas, page tables and entries together | a page has page tables exactly when an area maps it; __mmap does both or neither; when __munmap hangs and when it loses step |
| `Teardown.dfy` | mm.c, release of an address space | nothing is left mapped, every table frame is free once, every use of a page is given back |
| `Buddy.dfy` | memory.c | the free lists are a function of the set of free pages |
| `List.dfy` | list.c | the links realise sequences; removed cells keep stale links |
| `Queues.dfy`, `Index.dfy` | linked queues; red-black trees by key | the structures that threads and files are kept in |
| `Kmap.dfy` | paging.c, boundary-tag ranges | ranges tile the array, no two free ranges touch, allocation fails only when it must |
| `Threads.dfy` | threads.c, locking.c, locking.h, scheduler.c as a transition system | safety of every run, order of service, no lost wakeup, thread lifetime |
| `Kernel.dfy` | the same code over its structures: the thread table, the linked queues, the pid tree | each section takes exactly its step of the transition system |
| `Mem.dfy` | string.c, memmove | both copy directions are right |
| `Balloc.dfy` | balloc.c | insertion is union, deletion is difference, a set has one pool, allocation finds the least address |
| `Slab.dfy` | kmem_cache.c, small objects | objects are never handed out twice and never overlap; which caches work |
| `Ramfs.dfy` | ramfs.c, initramfs.c, exec.c loops | files refine flat strings; what is written is read back; when memory is enough |
| `Leaf.dfy` | hwfs/btree.c | insertion into a packed block, down to the bytes |

Where the code does not keep what its callers may expect, the model keeps the code and proves when it does:

- `__munmap` takes one count per page of its range from every table there is, mapped or not, and absent
  entries are skipped (paging.c:142, 198 and 274). With pages 0 and 2 mapped, unmapping [0, 8192) frees the
  table of page 2 (`HoleFreesTable`, `HoleUnmapped`). A page without a table of level 0 hangs at mm.c:421.
- `__mmap` aligns both ends of its range (mm.c:222-223) and `__munmap` does not, although exec.c:151 and 164 pass
  it what they passed to `__mmap`. A begin inside a page hangs at mm.c:413. An end inside a page truncates the
  page count (mm.c:261), rounds the release up (paging.c:359) and leaves an area without page tables
  (`StrandedPage`). `Munmap` states the exact condition for areas and tables to stay in step.
- `kmem_cache_alloc` moves a slab from the free to the partial list without testing its count. That is right
  exactly when two objects fit on a page, which for every small cache means an alignment of at most 1024
  (`SmallFits`); with the alignment 2048 the second allocation follows a null pointer (`OneObject`).

How the model relates to the C code:

- The C code writes each tree case twice with left and right exchanged; the model writes it once for a `Side`.
- A node's position, interval and black height in `RbTree.dfy` are ghost: they are proof devices, and
  `PathBlacks`, `InOrderExact` and `SuccessorIndex` say what they mean for paths and for the in-order sequence.
- Some large invariants are wrapped as `forall b :: Inside(part, b) ==> body`. This means the same as the body;
  it only keeps the body out of proofs that pass the invariant on (`Common.dfy`).
- `CONTAINER_OF` becomes a map from tree node to the record around it. Integers are unbounded; the code's
  callers stay below 64-bit wrap-around, and where a value is stored in 16 bits the model bounds it.
- Addresses are page numbers in `PageTables.dfy` and `PageWalk.dfy` and bytes in `Space.dfy`. The three functions
  per direction for the levels 2 to 4 of the page tables (section 4.5 of the Intel 64 and IA-32 SDM, Volume 3A)
  differ only in constants and are one method indexed by level. Frames come from an arbitrary finite supply;
  frame 0 stands for an absent entry.
- A failed DBG_ASSERT loops forever. The model returns `Hangs` or `Stuck`, or false, and says exactly when.
- The walk loops demand that the end of the range does not wrap around.
- `__memory_free_region` compares `pfn + (1 << order)` with the number of pages and not with the end of the
  region. The model keeps that comparison: it only makes blocks smaller, and the result is the same set of lists.
- The kernel runs on one processor: a section with preemption disabled is one atomic step. No interrupt
  handler of this kernel wakes a thread, the bootstrap thread never blocks, and a mutex is unlocked by its owner.
  The owner of a mutex, the holders of references and the places in the code are bookkeeping of the model.
- In `Kernel.dfy` a thread is a number below an arbitrary bound: the index of its structure in the table and of its
  links in the lists. `Wired` says that the structures hang together, `View` is the abstract state they stand for,
  `Took` that a section has taken its step, and `Safe` that the invariants of `Threads.dfy` hold. The sections
  can be put together into runs on the structures; `CreateKthread` and `TwoThreads` are such runs.
- After `rb_erase_fix` has settled, the source blackens the root once more; at that point it is black already.

## Model

| member | source | states |
|---|---|---|
| `RbTree.Tree.Rotate` | rbtree.c:32-72 | a rotation keeps the links, the order and the colour rules away from the two nodes, which change places |
| `RbTree.Tree.PushRedUp` | rbtree.c:130-180 | the recolour step moves the one red-red edge up two levels |
| `RbTree.Tree.Straighten` | rbtree.c:130-180 | the inner rotation turns an inner red grandchild into an outer one |
| `RbTree.Tree.RotateOuter` | rbtree.c:130-180 | the outer rotation and the colour exchange after it remove the last red-red edge |
| `RbTree.Tree.InsertFix` | rbtree.c:130-180 | from any pending red leaf the loop ends in a valid tree over the same nodes and positions |
| `RbTree.Tree.Insert` | rbtree.c:130-180 | rb_insert gives a valid tree with exactly the same in-order sequence |
| `RbTree.Tree.Link` | rbtree.h:20-26 | rb_link puts the node into the in-order sequence at the place of the null link it fills |
| `RbTree.Tree.Add` | rbtree.c:130-180 | rb_link and rb_insert together insert at that place and keep the tree valid |
| `RbTree.Tree.RaiseRedSibling` | rbtree.c:182-249 | the red-sibling case leaves the short side with a black sibling |
| `RbTree.Tree.PushBlackUp` | rbtree.c:182-249 | the black-nephews case moves the missing black one level up |
| `RbTree.Tree.StraightenNephew` | rbtree.c:182-249 | the near-nephew case makes the far nephew red |
| `RbTree.Tree.Borrow` | rbtree.c:182-249 | the far-nephew case pays the missing black back |
| `RbTree.Tree.EraseFix` | rbtree.c:182-249 | from any tree short of one black on one side the loop ends in a valid tree |
| `RbTree.Tree.SpliceNode` | rbtree.c:251-296 | the in-place splice of the successor keeps order, colours and heights, up to the one missing black |
| `RbTree.Tree.DropNode` | rbtree.c:251-296 | the unlinking of a node with at most one child, likewise |
| `RbTree.Tree.Erase` | rbtree.c:251-296 | rb_erase gives a valid tree whose in-order sequence is the old one without the node |
| `RbTree.Tree.Next` | rbtree.c:94-110 | the least node after the given one, or null for the last |
| `RbTree.Tree.SuccessorIndex` | rbtree.c:94-110 | being the successor is the same as being next in the in-order sequence |
| `RbTree.Tree.InOrderExact` | rbtree.c:84-110 | the traversal lists every node of the tree, in ascending position |
| `RbTree.Tree.PathBlacks` | rbtree.c:130-249 | every path from a node down to a null link has the same number of black nodes |
| `RbTree.Tree.DepthsAgree` | rbtree.c:130-249 | no path from the root is more than twice as long as another |
| `Vma.Mm.Lookup` | mm.c:150-177 | __lookup_vma finds an overlapping area if there is one, for empty ranges too, else the order-preserving link |
| `Vma.Mm.LookupVma` | mm.c:179-186 | lookup_vma finds the area of the first byte of the page around an address exactly when that byte is mapped |
| `Vma.Mm.MapFree` | mm.c:240-250 | a free range becomes one area; every other address keeps its permission and every other area is unchanged |
| `Vma.Mm.Clear` | mm.c:264-290 | one round of the unmap loop strictly shrinks the covered part of the range and touches nothing else |
| `Vma.Mm.Munmap` | mm.c:257-291 | __munmap unmaps exactly the range, keeps permissions on both sides, and terminates; areas get no bounds but old ones and those of the range, and an area that is just the range is all that goes |
| `Vma.Mm.NextVma` | mm.c:380-381 | rb_next gives the first of the areas that begin after this one, or null after the last |
| `PageTables.PageTables.Retain` | paging.c:157-186 | a child table counts the pages once more and is made when it was missing; fails exactly when it is missing and no frame is left, changing nothing |
| `PageTables.PageTables.Populate` | paging.c:157-339 | exactly the tables on the paths of the range are added and every table below counts the range once more; or nothing changed and the frames were too few for those tables |
| `PageTables.PageTables.RollBack` | paging.c:215-262 | the rollback of the range before a failure restores the counts |
| `PageTables.PageTables.RollBackChild` | paging.c:215-262 | the same when the failure was further down: the half-made child goes too |
| `PageTables.PageTables.Release` | paging.c:132-289 | for any range, populated or not: each existing table below counts its share of the range less, goes away exactly when that leaves nothing, and takes with it what hangs under it |
| `PageTables.PageTables.PopulateRange` | paging.c:341-351 | succeeds exactly when there are frames for the missing tables; then refcounts are sums of page counts and tables exist exactly where that is positive; on failure all is as before |
| `PageTables.PageTables.ReleaseRange` | paging.c:353-362 | the exact loss of every table, for any range of pages |
| `PageTables.ReleaseExact` | paging.c:353-362 | after a release the tables are right for the remaining pages if and only if every page was populated or lies in the span of no table of level 3 |
| `PageTables.HoleFreesTable` | paging.c:132-155 | with pages 0 and 2 populated, releasing [0, 2) frees the table in which page 2 is still counted |
| `PageTables.PageTables.Undo` | paging.c:132-362 | releasing what was populated restores every table, entry and count |
| `PageTables.PageTables.PopulateFor` | mm.c:228-239 | populate, and release again when the vma cannot be allocated: both or nothing, and when which |
| `PageTables.Sizes` | paging.h:23-33 | a table of level 1 to 4 covers 512, 512^2, 512^3 or 512^4 pages, and the number of the table around a page is the quotient |
| `Space.Space.Mmap` | mm.c:218-250 | for the range [b, e) of whole pages around the given one, less than a page larger on each side: busy exactly when an area overlaps it, that is, when an address of it is mapped or an empty range lies inside an area; stuck in an assertion exactly when it is free and empty; out of memory exactly when it is free and frames or vma are lacking; in all these cases nothing changed; otherwise every address asked for has the permission, exactly [b, e) got it, and exactly its tables are added |
| `Space.Space.LookupVma` | mm.c:179-186 | in an address space of whole pages, the area of an address is found exactly when the address is mapped |
| `Space.Space.MmapPages` | mm.c:386-409 | the pages hold the given frames, every other page what it held; hangs exactly when a page has no table of level 0 |
| `Space.Space.Munmap` | mm.c:257-291 | on byte addresses: hangs exactly on an empty range, a begin inside a page, or a page without a table of level 0; otherwise exactly the range loses its permission and the entries and tables of its pages go; areas and tables are in step afterwards if and only if every whole page was mapped and the end is at a page, or nothing is mapped in the 512 GiB around it |
| `Space.Space.MappedWalks` | mm.c:411-437 | in a range of mapped pages the level assertion cannot fire, and unmapping it leaves areas and tables in step |
| `Space.Space.MapThenUnmap` | mm.c:218-291 | busy, out of memory or done exactly as __mmap says of the pages around the range, and in every case every permission and every table is as before |
| `Space.StrandedPage` | mm.c:257-291 | mapping [0, 8192) and unmapping [0, 4097) leaves address 5000 mapped without a page table |
| `Space.HoleUnmapped` | mm.c:257-291 | mapping pages 0 and 2 and unmapping [0, 8192) leaves page 2 mapped without a page table |
| `Teardown.UnmapAll` | mm.c:374-384 | unmapping every area, with the next one looked up before each is erased, never hangs; no area and no table but the root is left, every other frame is free once; if only mapped pages had entries, every use of a page by an entry is given back and a page is freed exactly with its last use |
| `Teardown.ReleaseMm` | mm.c:439-444 | in the end every frame of the tables is free, exactly once |
| `Teardown.UnmapVma` | mm.c:374-384 | __munmap of just one area returns, removes that area and nothing else, and gives back the uses of its entries |
| `Teardown.MmapPagesKeeps` | mm.c:386-409 | after __mmap_pages only mapped pages have entries if and only if all its pages were mapped |
| `Teardown.MmapKeeps` | mm.c:218-250 | after __mmap only mapped pages have entries, whatever it returns |
| `PageWalk.DigitsLinear` | paging.h:52-62 | the indices of a page determine its linear address and are determined by it |
| `PageWalk.CanonicalRoundTrip` | paging.h:108-118 | canonical gives the one address of a page that lies in the lower or upper half of the address space, and linear gives the page back |
| `PageWalk.SlotAddresses` | paging.c:24-63 | inside a slot canonical addresses run on like pages: the gap between the halves never lies inside |
| `PageWalk.PtIter.Set` | paging.c:34-63 | the iterator stands on the slot around the page that the address stands for, with the right table at every level; its address is canonical, and a canonical address lies in the slot that begins there |
| `PageWalk.PtIter.Next` | paging.c:65-97 | the address stays canonical and advances by the span of the slot left, or over the gap from the lower to the upper half; the path stays consistent, null exactly at the end |
| `PageWalk.AddressSpace.MapPages` | mm.c:386-409 | page j of the range maps to pages[j], every other page keeps its entry, uses are counted; the level assertion fires exactly when a page has no table of level 0 |
| `PageWalk.AddressSpace.UnmapPages` | mm.c:411-437 | the range loses its entries, uses are given back, a page is freed with its last use; the level assertion fires exactly when a page has no table of level 0 |
| `PageWalk.AddressSpace.MapThenUnmap` | mm.c:386-437 | unmapping restores entries and use counts |
| `Mapped.PathExists` | paging.c:34-63 | the walk reaches a level exactly when populate has made the table there |
| `Mapped.TablesFormTree` | paging.c:132-339 | in populated tables no two paths share a table of level 0 |
| `Mapped.ClearExactly` | mm.c:411-437 | the walk over a range trips over its assertion exactly when populate has not made a table of level 0 for each page |
| `Buddy.MemoryNode.BuddyTest` | memory.c:303-339 | not busy and same order holds exactly when the buddy is one whole free block, stale flags or not |
| `Buddy.MemoryNode.Scribble` | memory.h:83-87 | the owner of pages that are not free may overwrite the order field, which shares its storage with a counter and a pointer: no invariant is lost |
| `Buddy.AlignedExact` | memory.c:237-238 | the recursive notion of alignment is divisibility by the size of the block |
| `Buddy.BuddyExact` | memory.c:237-238 | the buddy has the bit of the order added or taken away |
| `Buddy.MemoryNode.Split` | memory.c:240-271 | splitting hands the upper halves to the lists and keeps the invariant |
| `Buddy.MemoryNode.FindList` | memory.c:242-251 | the first list from the order on that is not empty, or none exactly when no aligned run of that many pages is free |
| `Buddy.MemoryNode.Alloc` | memory.c:240-271 | null exactly when no such run exists; otherwise an aligned free block leaves the free pages, cut from the first block of the first list that has any, so that no larger block is split |
| `Buddy.MemoryNode.MergeAll` | memory.c:303-339 | merging ends at a block whose buddy is not free as a whole |
| `Buddy.MemoryNode.Free` | memory.c:303-339 | the pages become free and the lists are again the maximal decomposition |
| `Buddy.MemoryNode.FreeRegion` | memory.c:101-130 | exactly the pages of the region become free, however it is cut |
| `Buddy.MemoryNode.AllocThenFree` | memory.c:240-339 | freeing what was allocated restores every free list |
| `Buddy.MemoryNode.FreePageListed` | memory.c:240-339 | each free page lies in exactly one listed block |
| `Buddy.SameFreeSameLists` | memory.c:240-339 | two nodes with the same free pages have the same free lists |
| `List.Lists.Insert` | list.c:6-13 | the new cell stands between the two and all other lists are unchanged |
| `List.Lists.Add` | list.c:15-16 | the cell becomes the first member |
| `List.Lists.AddTail` | list.c:18-19 | the cell becomes the last member |
| `List.Lists.Del` | list.c:21-28 | the member leaves its list and keeps its own links |
| `List.Lists.Size` | list.c:56-64 | the number of members |
| `Index.Index.Find` | ramfs.c:320-348 | found exactly when the key is in the tree, with its node; otherwise the link where it belongs |
| `Index.Index.Take` | rbtree.c:251-296 | exactly the key of the node leaves the index |
| `Queues.Queues.Push` | list.c:18-19 | a cell on no queue becomes the last of one, and the other queues are unchanged |
| `Queues.Queues.Pop` | scheduler.c:51-64 | the first member leaves its queue, and the other queues are unchanged |
| `Kmap.Kmap.FindFree` | paging.c:423-436 | a range of the class that is long enough, or there is none |
| `Kmap.OrderExact` | paging.c:406-407 | the class of a range is the highest bit of its length, up to the last class |
| `Kmap.Kmap.FreeRange` | paging.c:438-461 | exactly the elements of the range become free; tiling, tags, classes and spacing hold again |
| `Kmap.Kmap.Alloc` | paging.c:463-483 | null exactly when no run of that many free elements exists; otherwise just that run is taken |
| `Kmap.Kmap.Release` | paging.c:510-530 | the length read from the first element is that of the allocated range |
| `Kmap.Kmap.InOneRange` | paging.c:398-461 | each element lies in one range with matching head and tail lengths, flagged free exactly when free, with no free range after a free one |
| `Kmap.Kmap.RunMeansRange` | paging.c:463-483 | a free run exists exactly when one free range is long enough |
| `Threads.EveryRunIsSafe` | threads.c:359-485 | the invariants hold in every state that any interleaving reaches |
| `Threads.EveryThreadInItsPlace` | threads.c:402-485 | in every run a thread is on the run queue once exactly when active and not current; a blocked one is newborn or once on one wait queue |
| `Threads.StepKeeps` | threads.c:359-485 | every step keeps all invariants |
| `Threads.ScheduleDispatches` | threads.c:452-485 | after schedule the current thread is runnable and the run queue holds the others once each |
| `Threads.MutualExclusion` | locking.c:42-63 | in every run a mutex has at most one owner and then is locked |
| `Threads.WakeupServed` | locking.c:42-63 | a free mutex with sleepers has a woken thread, on the processor or dispatched after a known number of calls |
| `Threads.Fifo` | scheduler.c:51-80 | the thread at place k is dispatched by the (k+1)-th call of rr_next_thread, whatever is appended |
| `Threads.QueueLaw` | locking.h:71-90 | every event leaves every wait queue as it was, without its first waiter if the event notifies it, and with the current thread last if that thread waits: nothing overtakes |
| `Threads.NotifyWakes` | locking.c:5-22 | the unlock of a mutex, and a notification, appends the first waiter to the run queue |
| `Threads.WaiterKeepsPlace` | locking.c:16-22 | until its turn a waiter of a mutex or a condition moves up by one place per notification of that queue and by nothing else |
| `Threads.NotifiedInOrder` | locking.c:56-86 | the waiter at place k of a mutex or a condition is made runnable by the (k+1)-th notification of its queue |
| `Threads.ReleasedSafely` | threads.c:367-450 | a thread is reaped and released at most once, and never while current, queued, held or in the pid tree |
| `Threads.MarkReapedOnce` | threads.c:367-384 | only one caller goes on to reap a thread |
| `Threads.ErasedFromTree` | threads.c:377-380 | rb_erase is called only for a thread that is in the pid tree |
| `Kernel.Kernel.Preempt` | threads.c:466-485 | schedule over the linked run queue: the links and structures take exactly the step of the transition system and all invariants hold; the first thread of the queue is current |
| `Kernel.Kernel.SleepNow` | threads.c:466-485 | schedule called by a thread on a wait queue: the links and structures take exactly the step of the transition system and all invariants hold |
| `Kernel.Kernel.TryLock` | locking.h:71-90 | the section of WAIT_EVENT takes the mutex exactly when it is free and else links the thread last into the wait queue; the links and structures take exactly the step of the transition system and all invariants hold |
| `Kernel.Kernel.MutexUnlock` | locking.c:56-63 | the mutex is free, and the first waiter has moved from its queue to the run queue while the others keep their order; the links and structures take exactly the step of the transition system and all invariants hold |
| `Kernel.Kernel.ConditionJoin` | locking.c:65-81 | the waiter is last in the queue of the condition, the mutex is free and its first waiter is on the run queue; the links and structures take exactly the step of the transition system and all invariants hold |
| `Kernel.Kernel.ConditionNotify` | locking.c:83-86 | the first waiter has moved from the queue of the condition to the run queue while the others keep their order; the links and structures take exactly the step of the transition system and all invariants hold |
| `Kernel.Kernel.ExitThread` | threads.c:415-421 | the caller is dead and not current; the links and structures take exactly the step of the transition system and all invariants hold |
| `Kernel.Kernel.Register` | threads.c:190-242 | nothing happens without memory; otherwise a new thread gets the first pid from next_pid on that no node of the tree has, and a new node of its own is in the tree; the links and structures take exactly the step of the transition system and all invariants hold |
| `Kernel.Kernel.CreateKthread` | threads.c:281-295 | without interruption the assertion that the new thread is found holds, and the net effect is that the thread is created and activated: the reference taken between is gone again |
| `Kernel.Kernel.LookupThread` | threads.c:149-188 | the descent finds the thread exactly when its pid is registered, and takes a reference; the links and structures take exactly the step of the transition system and all invariants hold |
| `Kernel.Kernel.WakeThread` | threads.c:402-413 | a newborn thread is linked into the run queue once; the links and structures take exactly the step of the transition system and all invariants hold |
| `Kernel.Kernel.PutThread` | threads.c:441-450 | the thread is released exactly by its last reference; the links and structures take exactly the step of the transition system and all invariants hold |
| `Kernel.Kernel.SeeDead` | threads.c:359-365 | the test tells whether the thread is dead; the waiter that saw it dead goes on to reap it, the other stays where it is; the links and structures take exactly the step of the transition system and all invariants hold |
| `Kernel.Kernel.MarkAsReaped` | threads.c:367-376 | the caller wins exactly when the thread was still marked dead; the links and structures take exactly the step of the transition system and all invariants hold |
| `Kernel.Kernel.EraseEntry` | threads.c:377-380 | the node of the thread leaves the red-black tree and no other does; the links and structures take exactly the step of the transition system and all invariants hold |
| `Kernel.Kernel.PutBaseReference` | threads.c:381-383 | the winner drops the reference the thread was created with; the links and structures take exactly the step of the transition system and all invariants hold |
| `Kernel.TwoThreads` | threads.c:466-485 | a run on the structures: two threads are made, the bootstrap thread gives up the processor, the first runs and the second is queued |
| `Mem.Move` | string.c:25-26 | the destination ends up with what the source held, nothing else changes |
| `Balloc.Pool.FindLower` | balloc.c:28-45 | the first area that does not end before the address |
| `Balloc.Pool.FindUpper` | balloc.c:47-64 | the first area that begins after the address |
| `Balloc.Pool.Insert` | balloc.c:66-92 | the pool becomes the union with the range, sorted and strictly separated; a free slot is needed only when no area touches the range |
| `Balloc.Pool.Delete` | balloc.c:94-123 | the pool becomes the difference with the range, sorted and strictly separated; a free slot is needed only when an area is split |
| `Balloc.Pool.Alloc` | balloc.c:125-180 | the least aligned range of the window that is all free, or -1 exactly when there is none |
| `Balloc.MultipleExact` | balloc.c:125-180 | the recursive notion of alignment is divisibility by the power of two |
| `Balloc.Pool.AllocThenFree` | balloc.c:66-185 | giving back what was allocated restores the very same areas |
| `Balloc.OnePool` | balloc.c:66-123 | a set of addresses has only one pool |
| `Slab.Cache.Thread` | kmem_cache.c:211-237 | the chain of a new slab holds every object that fits, as many as the padded size goes into 4032 bytes |
| `Slab.EveryPlace` | kmem_cache.c:211-237 | the objects of a slab are all the places at multiples of the padded size below the slab structure |
| `Slab.Cache.Grow` | kmem_cache.c:46-73 | a new slab is all free and on the free list, or no page was left; the lists are right exactly when an object fits |
| `Slab.Cache.Alloc` | kmem_cache.c:97-135 | null exactly when no slab has a free object and no page is left, and then every place of every page is in use; a fault exactly when no object fits on a page; otherwise the object freed last on the first partial slab, else on the first free slab, else on a new page, and never one in use; the lists are right afterwards if and only if the result is null or two objects fit on a page |
| `Slab.Cache.Free` | kmem_cache.c:144-164 | the object is free again, the next to be handed out of its slab, which is on the list its count asks for |
| `Slab.Cache.LiveApart` | kmem_cache.c:211-237 | objects in use never overlap |
| `Slab.LayoutHolds` | kmem_cache.c:245-261 | objects of a new cache hold their size, are aligned and have room for the tag, with the least padding that does so |
| `Slab.SmallFits` | kmem_cache.c:245-261 | for every size up to an eighth of a page, two objects fit on a page if and only if the alignment is at most 1024 |
| `Slab.OneObject` | kmem_cache.c:123-131 | with the alignment 2048 the first allocation leaves a slab without a free object on the partial list, with a null chain |
| `Slab.TwoObjectsNeeded` | kmem_cache.c:123-131 | the move to the partial list is right exactly when the slab has at least two objects |
| `Ramfs.File.AddPage` | ramfs.c:235-252 | a page of zeros changes no byte of the file |
| `Ramfs.File.Write` | ramfs.c:350-386 | fails exactly when the page is missing and no memory is left; otherwise writes as much as the page takes, overwriting the flat string, with zeros filled in before |
| `Ramfs.File.Read` | ramfs.c:388-419 | the next bytes of the flat string: the least of what the page holds, what is asked for and what is left, none exactly at the end |
| `Ramfs.File.WriteFile` | initramfs.c:56-70 | succeeds exactly when the pages that the range lacks can be had; all of the data is written, or a prefix of it |
| `Ramfs.File.ReadBuf` | exec.c:67-85 | exactly the next n bytes, or an error exactly when the file is too short |
| `Ramfs.File.WriteThenRead` | initramfs.c:56-70 | succeeds exactly when the lacking pages can be had, and then seeking back and reading returns the same bytes |
| `Ramfs.File.ReadTail` | vfs.c:396-410 | seeking n bytes back from the end and reading gives exactly the last n bytes, or an error exactly when the file is shorter |
| `Leaf.KeyRoundTrip` | hwfs/hwfs.h:38-52 | a key read from disk is the key that was written |
| `Leaf.KeyBytes` | hwfs/hwfs.h:38-52 | a key on disk is the id, the kind and the offset, byte k of a number having the weight 256^k |
| `Leaf.KeyOrder` | hwfs/btree.c:60-78 | the comparison is negative, zero or positive exactly as the key is less, equal or greater by id, then kind, then offset |
| `Leaf.LowerBound` | hwfs/btree.c:18-37 | the first record whose key is not less, by id, then kind, then offset |
| `Leaf.UpperBound` | hwfs/btree.c:39-58 | the first record whose key is greater, by id, then kind, then offset |
| `Leaf.MakeGap` | hwfs/btree.c:251-268 | both moves and the loop over the offsets open exactly the gap for the new record |
| `Leaf.Insert` | hwfs/btree.c:236-285 | fails exactly when there is no room, changing nothing; otherwise insertion that keeps the records sorted by id, then kind, then offset, with every old byte kept |
| `Leaf.HeaderBytes` | hwfs/hwfs.h:80-107 | the header of a record holds its key, the place of its data and the size in these bytes, low bytes first |
| `Leaf.RecordData` | hwfs/btree.c:236-285 | the data of each record can be read back |
| `Leaf.OneContent` | hwfs/btree.c:236-285 | a block holds one sequence of records only |

## Left out

- Multi-level growth of the B+ tree (hwfs/btree.c:169-234, 287-417): as written the new root points at its own block and the counts of inner nodes are not kept, so the intended invariant does not hold.
- Eviction in the block cache of the disk tool, and its file input and output.
- wait_queue_notify_all and condition_notify_all, which follow links of threads already woken; list_splice, which they, the cache reaper and the set-up of memory nodes use.
- The failing path of fork, which drops an unregistered thread; copying an address space, page faults and copy-on-write.
- Termination of wait with several waiters: the loop waits for DEAD only, so only safety is proved.
- Termination and fairness of the transition system as a whole: Fifo says when a thread is dispatched, given that schedule is called.
- Reuse of thread structures: a new thread is always one that was not there before.
- Slabs of large objects, kmem_cache_reap, and the table of caches behind kmem_alloc.
- Large-page mappings, flags other than the ones of __mmap, TLB flushes and CR3.
- Directories, names and mounts of the file systems; several open files on one node.
- Hardware set-up, interrupts, console output, string formatting: input and output without an invariant.
- balloc_add_region and balloc_for_each_region: thin wrappers around the pool operations.
- Balloc.Pool.Delete: demands a range inside the pool and room for the piece when an area is split, as the source does without checking.
- Ramfs.File.ReadTail: offsets are unbounded, so the 32-bit int of vfs_seek_default does not overflow.
- Index.Index.Find: a key k is the area [k, k + 1) of the search tree in Vma.dfy, so the comparison of keys is that of areas.
- Space.Space.MmapPages: entries hold the frame only, without flags, and a page is never frame 0.
- Kernel.Kernel.TryLock: one section of WAIT_EVENT; the loop around it is the sequence of Lock and Sleep events of the thread in Threads.dfy.
- Kernel.Kernel.PutThread: what release_thread frees (address space, stack, structure) is recorded, not modelled.
