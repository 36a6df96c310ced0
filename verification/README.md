# xv6-riscv with a buddy and a slab allocator: a model with proofs

This project models the parts of the xv6-riscv kernel, extended with a buddy allocator and
slab caches, that keep state other code relies on, and proves what they promise. It is
written in Dafny 4.11; `dafny verify dfyconfig.toml` checks all of it.

Code that changes things in place is a class or a method here, proved against functions and
predicates on values; what the source promises is then proved about those. Sections that run
under a lock are single steps. Where processes interleave, the steps are explicit and the
results are about every interleaving.

| files | what they model |
|---|---|
| `BuddyIndex`, `BuddyTree`, `BuddyRuns`, `BuddyBoot`, `BuddyAllocator` | the buddy page allocator: the tree of slots, its search, allocation and free at any order, boot, addresses and packed bits |
| `LogDisk`, `LogRuns`, `LogHistory`, `LogFull`, `LogDevice` | the redo log: crashes at any write, runs of concurrent operations, what they keep and lose, the code |
| `ProcWait` | fork, exit, wait, sleep and wakeup, as interleaved steps with explicit locks |
| `HeapList`, `HeapRuns`, `HeapDevice` | the user-level heap: the free list as values, runs, headers in memory |
| `VmTables`, `VmPages`, `VmFree`, `VmDevice` | Sv39 page tables in physical memory, and the flat map they represent |
| `FsDisk`, `FsBlocks`, `FsContent`, `FsTrunc`, `FsSteps`, `FsDevice`, `FsRuns`, `FsCrash` | the block bitmap, inode block maps, file contents, what a write logs, runs, and a file write with crashes |
| `BioList`, `BioCache`, `BioRuns` | the buffer cache and its linked list |
| `VirtioDisk`, `VirtioDriver`, `VirtioRuns` | the virtio block driver with the device that shares its rings |
| `SlabModel`, `SlabCache`, `SlabRuns` | slab caches |
| `Counting` | facts about finite sequences and sets |

Some terms of the model. A buddy tree is *canonical* for a set of outstanding blocks when the
slot of every node follows from them. A *page table* is known by the frame of its root; its
meaning is the flat map `Pte` from virtual page to leaf entry. *Taken* frames and *widened*
tables account for every frame that leaves the free ones. An inode's *places* are its direct
slots, its indirect pointer and the slots of its indirect block. A request to the disk is
*offered*, *taken*, *finished* and *reported*. The modules whose names end in `Runs` for the
file system, the buffer cache, the disk and the slabs have a relation `Next` between a call, its
answer and the abstract state before and after it; a run is a sequence of them.

Some promises turn out to be false as they stand; for each there is a counterexample and the
exact condition.

- Freeing in the buddy tree can merge a subtree too early, because `update_upstairs_free` looks
  only at the child off the path (`BuddyTree.FreeExact`, `BuddyRuns.MixedRuns`,
  `BuddyBoot.EarlyMergeExample`); runs of single pages are safe all the same
  (`BuddyRuns.SinglePageRuns`).
- The guard of `buddy_kfree` admits PHYSTOP, which is in no block (`BuddyAllocator.GuardExact`,
  `BuddyAllocator.TopAddress`).
- An operation that keeps to its share of the log can meet the full-log panic, because
  `log_write` tests for a full log before it looks for an entry to absorb into
  (`LogFull.FullLogStopsAbsorption`, `LogRuns.LogWriteExact`); every append fits
  (`LogRuns.AppendsAlwaysFit`).
- A cache with slabs of one slot panics when it allocates while an object is out, because a new
  slab goes on the list of partial slabs though it is full (`SlabRuns.OneSlotPanics`); exactly then
  (`SlabCache.Cache.CacheAlloc`).

Inputs of the model stand for what lies outside it: the answers of `sbrk` and of the page
allocator below the slab caches, which bytes of a user buffer cannot be copied, the order in
which the device works, and the interleaving of processes.

## Model

| member | source | states |
|---|---|---|
| `BuddyIndex.LevelExact` | kernel/buddy_kalloc.c:86-88 | the level of a node is the position of its leading bit |
| `BuddyIndex.Nested` | kernel/buddy_kalloc.c:94-96 | two blocks that hold one node are nested: blocks overlap only by containment |
| `BuddyIndex.PagesAreAnInterval` | kernel/buddy_kalloc.c:98-105 | the pages below a node are exactly one interval of page numbers |
| `BuddyTree.Search` | kernel/buddy_kalloc.c:165-224 | what the search settles on is an EMPTY node at the wanted depth below its start |
| `BuddyTree.SearchSound` | kernel/buddy_kalloc.c:165-224 | in a canonical tree the node found lies in no outstanding block |
| `BuddyTree.SearchComplete` | kernel/buddy_kalloc.c:165-224 | in a canonical tree a node is found whenever an EMPTY one of that level lies in no outstanding block |
| `BuddyTree.AvailableExact` | kernel/buddy_kalloc.c:165-248 | in a canonical tree the blocks that share no page with an outstanding block are exactly the EMPTY nodes that lie in none |
| `BuddyTree.ApartIsDisjoint` | kernel/buddy_kalloc.c:98-111 | blocks share no page if and only if neither contains the other |
| `BuddyTree.UpAllocRestores` | kernel/buddy_kalloc.c:127-143 | the upward pass of an allocation repairs every ancestor |
| `BuddyTree.AllocKeepsCanonical` | kernel/buddy_kalloc.c:226-248 | taking an EMPTY node outside the outstanding blocks gives the canonical tree for the blocks with it added |
| `BuddyTree.AllocExact` | kernel/buddy_kalloc.c:165-248 | from a canonical tree and for every level below the root, allocation succeeds if and only if a block of that level shares no page with an outstanding one; it takes such a block and leaves the canonical tree |
| `BuddyTree.MergeFromEmpty` | kernel/buddy_kalloc.c:145-163 | above an EMPTY node whose parent is SPLIT every merge is right |
| `BuddyTree.MergeFromFull` | kernel/buddy_kalloc.c:145-163 | above a FULL parent the upward pass is right if and only if the lowest SPLIT ancestor has no EMPTY child off the path |
| `BuddyTree.FreeExact` | kernel/buddy_kalloc.c:250-271 | freeing an outstanding block at its own order gives the canonical tree for the rest if and only if it is not the case that its parent was FULL and its lowest SPLIT ancestor has an EMPTY child off the path |
| `BuddyRuns.SearchFindsPage` | kernel/buddy_kalloc.c:165-224 | under the page invariant the search for one page finds a page that is not out below every node that is not FULL, and none below a FULL one |
| `BuddyRuns.FullMeansAllOut` | kernel/buddy_kalloc.c:127-271 | a node is FULL if and only if every page below it is out |
| `BuddyRuns.TakeIsSafe` | kernel/buddy_kalloc.c:226-248 | an order-0 allocation returns 0 if and only if every page is out, otherwise a page that is not, and keeps the page invariant |
| `BuddyRuns.ReleaseIsSafe` | kernel/buddy_kalloc.c:250-271 | an order-0 free of a page that is out keeps the page invariant, early merges included |
| `BuddyRuns.SinglePageRuns` | kernel/buddy_kalloc.c:127-271 | after every sequence of order-0 calls from the all-FULL start an inner node is FULL if and only if both children are and an EMPTY one has no FULL child; the next allocation returns no page that is out and fails exactly when all are |
| `BuddyRuns.MixedRuns` | kernel/buddy_kalloc.c:127-271 | a run of allocations and frees of any order is canonical throughout if and only if none of its frees merges early |
| `BuddyBoot.BootStep` | kernel/buddy_kalloc.c:285-287 | one iteration of the boot loop takes the closed form of the tree for m pages to the one for m + 1 |
| `BuddyBoot.BootEndsCanonical` | kernel/buddy_kalloc.c:273-290 | boot ends with the canonical tree for the kernel's pages, for every kernel size and tree depth |
| `BuddyBoot.EarlyMergeExample` | kernel/buddy_kalloc.c:145-163 | the counterexample, on a run: whether the kernel fills no page of four or one, a few order-0 calls from boot reach a canonical tree with pages 0 and 1 out, and freeing page 1 leaves an EMPTY root above page 0 |
| `BuddyAllocator.Clz` | kernel/buddy_kalloc.c:50-60 | the leading zeros of a 64-bit word, hence the level of a node |
| `BuddyAllocator.Widen` | kernel/buddy_kalloc.c:53-58 | one halving step of the count of leading zeros loses no bit |
| `BuddyAllocator.GetLevel` | kernel/buddy_kalloc.c:86-88 | the level of a node |
| `BuddyAllocator.GetAdrExact` | kernel/buddy_kalloc.c:98-105 | the block of a node is the address range of its pages |
| `BuddyAllocator.GetVindexExact` | kernel/buddy_kalloc.c:107-111 | an address leads to the node of the given level whose pages hold it |
| `BuddyAllocator.GuardExact` | kernel/buddy_kalloc.c:250-258 | for every address and order that the guard of `buddy_kfree` admits, the node lies in the tree at the level of the order and its block holds the address if and only if the address is not PHYSTOP |
| `BuddyAllocator.TopAddress` | kernel/buddy_kalloc.c:107-111 | the counterexamples: the node of PHYSTOP lies behind the tree at order 0; at every higher order it is a node one level too far down, whose block starts at the first page of memory |
| `BuddyAllocator.TopFreesKernel` | kernel/buddy_kalloc.c:250-271 | after boot, at any order from 1 on with a kernel that fills half a block of that order, freeing PHYSTOP finds a block of the kernel FULL |
| `BuddyAllocator.AddressRoundTrip` | kernel/buddy_kalloc.c:98-111 | `get_vindex` at a node's level inverts `get_adr` |
| `BuddyAllocator.DisjointAddresses` | kernel/buddy_kalloc.c:98-111 | blocks that share no page are disjoint address ranges |
| `BuddyAllocator.WriteThenRead` | kernel/buddy_kalloc.c:72-84 | writing one two-bit slot of a byte changes that slot and no other |
| `BuddyAllocator.Allocator.GetState` | kernel/buddy_kalloc.c:72-77 | reads the slot of a node from the packed bytes |
| `BuddyAllocator.Allocator.SetState` | kernel/buddy_kalloc.c:79-84 | replaces the slot of one node and no other |
| `BuddyAllocator.Allocator.UpdateUpstairsAlloc` | kernel/buddy_kalloc.c:127-143 | the loop computes the upward pass of an allocation |
| `BuddyAllocator.Allocator.UpdateUpstairsFree` | kernel/buddy_kalloc.c:145-163 | the loop computes the upward pass of a free, with its early return |
| `BuddyAllocator.Allocator.NextChild` | kernel/buddy_kalloc.c:186-210 | the child chosen is one below which the search for this node ends as the depth-first search does, or the branch is dead |
| `BuddyAllocator.Allocator.GoDown` | kernel/buddy_kalloc.c:174-211 | going down keeps what is left to search, and the stack never overflows |
| `BuddyAllocator.Allocator.LocateFreeBlock` | kernel/buddy_kalloc.c:165-224 | the search with a stack terminates and finds the node that a depth-first search finds, for every tree |
| `BuddyAllocator.Allocator.Kalloc` | kernel/buddy_kalloc.c:226-248 | takes the block the search names, at its address, or returns 0 and changes nothing; panics exactly on an order above the tree |
| `BuddyAllocator.Allocator.Kfree` | kernel/buddy_kalloc.c:250-271 | on every address and order: panics exactly when the guard fails; otherwise frees the node of the address if and only if its slot is FULL and changes nothing else; for PHYSTOP at order 0 that slot and its sibling are in the byte behind the array, and the upward pass goes on from there |
| `BuddyAllocator.Allocator.FreeBehind` | kernel/buddy_kalloc.c:250-271 | the free of the node behind the tree is a free in the tree extended by the four slots of the next byte |
| `BuddyAllocator.Allocator.Fill` | kernel/buddy_kalloc.c:277-279 | every slot becomes FULL |
| `BuddyAllocator.Allocator.Init` | kernel/buddy_kalloc.c:273-290 | boots to the canonical tree for the kernel's pages |
| `LogDisk.CommitTraceExact` | kernel/log.c:195-204 | the disks that a commit goes through, write by write |
| `LogDisk.InstallingAt` | kernel/log.c:67-84 | block by block, what the disk holds after the first k installs |
| `LogDisk.RecoverKeepsView` | kernel/log.c:118-124 | after any number of its writes, recovery has not changed the file system that a recovery would restore; complete, it leaves an empty header |
| `LogDisk.LoggingKeepsView` | kernel/log.c:180-192 | until the header is written, a commit changes nothing that recovery sees |
| `LogDisk.CommittedView` | kernel/log.c:104-115 | with the header written, the disk means the old file system with every logged block replaced |
| `LogDisk.CommitView` | kernel/log.c:178-204 | a commit cut off after any write means the old file system up to the header write and the new one from then on |
| `LogDisk.CrashAtomicity` | kernel/log.c:65-124 | a crash after any write of a commit, any number of crashed recoveries and one complete one leave every home block old, or every logged block replaced; the latter if and only if the header had been written |
| `LogRuns.LoggedUpdate` | kernel/log.c:216-236 | logging a block, absorbed or appended, adds exactly its contents to what the transaction will install |
| `LogRuns.StepKeepsInv` | kernel/log.c:126-236 | every step of operations, commits, crashes and recovery keeps the log's invariant |
| `LogRuns.NoPanicInEndOp` | kernel/log.c:148-176 | in every run, committing implies that no operation is outstanding, so the panic of `end_op` is unreachable |
| `LogRuns.AppendsAlwaysFit` | kernel/log.c:216-236 | in every run whose operations keep to their bound, a `log_write` that appends finds a free slot |
| `LogRuns.LogWriteExact` | kernel/log.c:216-236 | in every run, an operation within its bound meets the full-log panic if and only if it logs again a block that a full log holds already |
| `LogRuns.PinnedIsLatest` | kernel/log.c:216-236 | in every run, what a pinned block holds is the latest update of it |
| `LogFull.FullLogStopsAbsorption` | kernel/log.c:221-222 | the counterexample that limits the bound to appends, for every bound and a log of three times that size: three operations log as many blocks as the bound allows, the log is full, and logging one of those blocks again meets the panic |
| `LogHistory.OperationAtomicity` | kernel/log.c:126-176 | in every run, recovering now restores the effect of the groups on disk, whole and in order; of every operation either no group has any update, or it is over and exactly one group has updates of it, which are all that it ever logged, in order |
| `LogHistory.Durability` | kernel/log.c:148-204 | over any stretch of a run no group on disk is taken back, and without a crash the groups and the current one hold, in order, what they held and then every update logged meanwhile |
| `LogHistory.LostExactly` | kernel/log.c:126-236 | in every run, of an operation that logged something nothing is left if and only if some crash met it before the header of its group was written |
| `LogHistory.QuietMeansCommitted` | kernel/log.c:148-176 | in every run that ends with nothing under way, an operation that logged something is in one group with all its updates if and only if no crash met it before the header of its group was written |
| `LogDevice.Log.InstallTrans` | kernel/log.c:67-84 | the loop writes the disks of the install sequence, in order |
| `LogDevice.Log.Bwrite` | kernel/bio.c:107-112 | one atomic write, recorded in the trace of disks |
| `LogDevice.Log.InstallAndClear` | kernel/log.c:67-124 | installs and then erases the transaction, going through the disks of a recovery |
| `LogDevice.Log.WriteTransaction` | kernel/log.c:195-200 | the log blocks and then the header: up to the commit point |
| `LogDevice.Log.Record` | kernel/log.c:226-234 | an entry absorbed or appended, with its contents pinned |
| `LogDevice.Log.Find` | kernel/log.c:226-229 | the scan finds the entry of the block, or the end |
| `LogDevice.Log.Enter` | kernel/log.c:230-234 | the header gains the block at the end exactly when it was not there |
| `LogDevice.Log.ReadHead` | kernel/log.c:88-98 | the in-memory header becomes the one on disk |
| `LogDevice.Log.WriteHead` | kernel/log.c:104-115 | one write, of the header block with count and entries replaced |
| `LogDevice.Log.RecoverFromLog` | kernel/log.c:118-124 | goes through exactly the disks that crash atomicity speaks of and ends recovered |
| `LogDevice.Log.BeginOp` | kernel/log.c:131-142 | one round of the loop admits the operation if and only if nothing commits and the blocks of every operation admitted still fit, and changes nothing otherwise |
| `LogDevice.Log.EndOp` | kernel/log.c:148-176 | the last operation out commits the group; another leaves the log as it is; panics exactly while committing |
| `LogDevice.Log.WriteLog` | kernel/log.c:180-192 | the loop writes the pinned blocks to the log, in header order |
| `LogDevice.Log.Commit` | kernel/log.c:195-204 | goes through exactly the disks that crash atomicity speaks of and ends with an empty header |
| `LogDevice.Log.LogWrite` | kernel/log.c:216-236 | absorbs the block or appends and pins it; panics exactly on a full log or outside an operation |
| `ProcWait.StepKeepsInv` | kernel/proc.c:310-415 | every step of fork, exit, wait, sleep, wakeup, kill, reparent and allocation, interleaved in any way, keeps the invariant over locks, states and parents |
| `ProcWait.StepIsLocal` | kernel/proc.c:542-611 | every step meets, at the two slots it touches, the local conditions from which each part of the invariant follows |
| `ProcWait.RunInv` | kernel/proc.c:297-415 | the invariant holds at every moment of every interleaving from boot |
| `ProcWait.NoLostWakeup` | kernel/proc.c:327-415 | at every moment of every interleaving, while `wait_lock` is free no process with a ZOMBIE child sleeps in `kwait` or is in `sleep` on the way there |
| `ProcWait.ParentsAreLive` | kernel/proc.c:297-321 | at every moment of every interleaving the parent of a process is neither ZOMBIE nor UNUSED |
| `ProcWait.WaitDecidesRightly` | kernel/proc.c:379-413 | when `kwait` decides, its scan is still right: a child it has was seen and is no zombie |
| `HeapList.FreedSorted` | user/umalloc.c:25-44 | freeing keeps the free list in address order with no two blocks touching |
| `HeapList.FreedUnits` | user/umalloc.c:25-44 | freeing adds exactly the units of the block: merging loses and duplicates nothing |
| `HeapList.TakenSorted` | user/umalloc.c:75-83 | allocating keeps the list in order with no two blocks touching |
| `HeapList.TakenUnits` | user/umalloc.c:75-83 | allocating removes exactly the units of the block returned |
| `HeapList.FirstFitFinds` | user/umalloc.c:74-89 | a whole turn finds a block whenever one is large enough |
| `HeapList.TakeThenFree` | user/umalloc.c:25-90 | freeing a block right after it was taken restores the free list exactly |
| `HeapRuns.GrownFits` | user/umalloc.c:86-88 | after one `morecore` the search that resumes succeeds |
| `HeapRuns.StepKeepsInv` | user/umalloc.c:24-90 | every call keeps the heap invariant |
| `HeapRuns.HeapRun` | user/umalloc.c:24-90 | after every run of `malloc` and valid `free` the list is sorted with no two blocks touching, and the free and outstanding blocks partition exactly the units got from `sbrk` |
| `HeapRuns.MallocExact` | user/umalloc.c:64-90 | in every run, the block returned has the units asked for and meets no outstanding block; `malloc` fails only when no free block is large enough and `sbrk` refuses |
| `HeapDevice.StopsAtPosition` | user/umalloc.c:30-32 | the two tests of the search of `free` succeed at the predecessor of the block and nowhere else |
| `HeapDevice.Heap.FindPlace` | user/umalloc.c:30-32 | the search around the circle terminates at that predecessor |
| `HeapDevice.Heap.Link` | user/umalloc.c:33-43 | the two header updates link or merge the block in the circle and touch no other header |
| `HeapDevice.Heap.Free` | user/umalloc.c:25-44 | the headers represent the list with the block put back |
| `HeapDevice.Heap.Morecore` | user/umalloc.c:47-61 | a granted region, of at least 4096 units, becomes a free block |
| `HeapDevice.Heap.Turn` | user/umalloc.c:74-89 | one turn of the search finds the first fit after `freep`, if there is one |
| `HeapDevice.Heap.Carve` | user/umalloc.c:75-84 | unlinks the block or cuts its upper end off |
| `HeapDevice.Heap.Setup` | user/umalloc.c:70-73 | the first call makes a circle of `base` alone |
| `HeapDevice.Heap.Finish` | user/umalloc.c:75-84 | the block found becomes outstanding |
| `HeapDevice.Heap.Malloc` | user/umalloc.c:64-90 | returns 0 if and only if no block fits and `sbrk` refuses; asks `sbrk` at most once and only when no block fits; otherwise exactly the block returned becomes outstanding |
| `VmTables.EntryExact` | kernel/vm.c:105-111 | frame and flags are read back from an entry as they were put in, and a pointer is no leaf |
| `VmTables.LeafElsewhere` | kernel/vm.c:97-115 | distinct virtual pages have their leaf entries in distinct places |
| `VmTables.StoreLeaf` | kernel/vm.c:145-212 | storing a leaf entry changes the flat map at that page of that table and nowhere else |
| `VmTables.HangPage` | kernel/vm.c:103-113 | hanging a zeroed table page changes no mapping of any table |
| `VmPages.MapNext` | kernel/vm.c:162-172 | one more page mapped extends the mapping by the next frame |
| `VmPages.UnmapNext` | kernel/vm.c:201-211 | one more page unmapped clears its entry and, when asked, frees a frame that was not free yet |
| `VmPages.TakeNext` | kernel/vm.c:226-238 | a page taken maps to a frame of its own; earlier pages and frames in use keep their contents |
| `VmPages.TakeBack` | kernel/vm.c:233-237 | the frame of a page that could not be mapped goes back |
| `VmPages.TakeUndone` | kernel/vm.c:226-240 | unmapping all pages taken undoes the taking, empty table pages apart |
| `VmFree.ReachesTables` | kernel/vm.c:262-278 | with no page mapped, what `freewalk` reaches through memory is exactly the table pages of the table, each once |
| `VmFree.DropTables` | kernel/vm.c:262-288 | without the pages of one page table the others are as they were |
| `VmDevice.Vm.Kalloc` | kernel/kalloc.c:66-81 | some free frame, if and only if there is one |
| `VmDevice.Vm.Kfree` | kernel/kalloc.c:43-61 | a frame in use becomes free; its caller never frees a free one |
| `VmDevice.Vm.Down` | kernel/vm.c:103-113 | one level of the walk reaches the page below, or hangs an empty one there |
| `VmDevice.Vm.Retreat` | kernel/vm.c:227-231 | giving back the pages taken restores every mapping |
| `VmDevice.Vm.Abandon` | kernel/vm.c:321-323 | the same for a copy that failed |
| `VmDevice.Vm.Walk` | kernel/vm.c:97-115 | finds the page with the leaf entry; may add empty table pages of this table, changes no mapping of any table; without `alloc` changes nothing and fails exactly when the page is missing; with it fails only with no frame free |
| `VmDevice.Vm.Mappages` | kernel/vm.c:145-174 | maps exactly the range to consecutive frames with the flags, or stops with a prefix mapped when no frame is free; every frame stays accounted for |
| `VmDevice.Vm.Uvmcreate` | kernel/vm.c:178-187 | a new page table with nothing mapped, or no change when no frame is free |
| `VmDevice.Vm.Uvmunmap` | kernel/vm.c:192-212 | unmaps exactly the range and, when asked, frees exactly its frames, each once |
| `VmDevice.Vm.Uvmalloc` | kernel/vm.c:216-240 | maps exactly the new pages to zeroed frames of their own, or returns 0 with every mapping and every data frame as before; it fails only when memory is exhausted |
| `VmDevice.Vm.Uvmdealloc` | kernel/vm.c:246-258 | unmaps and frees exactly the whole pages between the sizes |
| `VmDevice.Vm.Freewalk` | kernel/vm.c:262-278 | frees exactly the frames reached, each once; the panic at a leaf is unreachable |
| `VmDevice.Vm.Uvmfree` | kernel/vm.c:282-288 | frees exactly the frames of the mapped pages and of the table pages, each once, and leaves the other page tables as they were |
| `VmDevice.Vm.Uvmcopy` | kernel/vm.c:296-324 | the child maps the same pages with the same flags to frames of its own with the same contents, or every mapping and every data frame is as before; it fails only when memory is exhausted |
| `VmDevice.Vm.ForkAndFree` | kernel/proc.c:272-277 | creating, copying and freeing an address space restores the free frames, the tables and every mapping, whether or not the copy succeeded |
| `FsDisk.PokeBit` | kernel/fs.c:76-103 | setting or clearing a bit in its byte changes the bit of that block and no other |
| `FsDisk.PutGet` | kernel/fs.c:431-436 | a block number stored in an indirect block is read back, and the others are unchanged |
| `FsBlocks.AllocStep` | kernel/fs.c:77-82 | a block whose bit was clear is referred to by nothing; marked and zeroed it is in use and still loose |
| `FsBlocks.SetDirect` | kernel/fs.c:412-417 | a loose block put in a direct slot keeps ownership and every other reference |
| `FsBlocks.SetPtr` | kernel/fs.c:424-428 | a zeroed block put in as indirect block keeps ownership and refers to nothing |
| `FsBlocks.SetSlot` | kernel/fs.c:430-437 | a loose block put in a slot of the indirect block keeps ownership and every other reference |
| `FsContent.CopyIn` | kernel/fs.c:543-549 | copying into a block of a file changes those bytes of that file and no byte of another |
| `FsContent.WriteContent` | kernel/fs.c:528-562 | what was stored, with the size raised, is the old content with the bytes laid over it; no other file has changed and every byte below a size is allocated |
| `FsContent.OverlayTwice` | kernel/file.c:149-173 | two writes one after the other are one write |
| `FsTrunc.SlotInUse` | kernel/fs.c:465-468 | the next block of the indirect block is still marked when it is freed |
| `FsTrunc.TruncDone` | kernel/fs.c:449-476 | freeing the direct blocks, the slots and the indirect block clears exactly the bits of the blocks the inode referred to |
| `FsTrunc.TruncContent` | kernel/fs.c:449-476 | truncation leaves the other files' contents |
| `FsSteps.BmapSlot` | kernel/fs.c:430-440 | a block allocated for an indirect slot keeps ownership and every block of every file |
| `FsSteps.ExtendedSlot` | kernel/fs.c:430-440 | an allocation for an indirect slot changes this file only, refers to a block that was free, and changes no block of the disk that is not logged |
| `FsSteps.ExtendedTrans` | kernel/fs.c:405-562 | steps that take free blocks for one file and log what they change compose |
| `FsSteps.TouchedNext` | kernel/fs.c:539-544 | each chunk of a write touches one block more |
| `FsSteps.ChargedFew` | kernel/file.c:149-173 | at most four data blocks, three bitmap blocks, the indirect block, its bitmap block and the inode block: ten in all |
| `FsDevice.Fs.Balloc` | kernel/fs.c:66-89 | marks and zeroes the first block whose bit is clear, logging both blocks; 0 if and only if every bit is set |
| `FsDevice.Fs.Bfree` | kernel/fs.c:92-106 | clears the bit of the block and no other |
| `FsDevice.Fs.Bmap` | kernel/fs.c:405-444 | gives the block of the file, allocating where there was none; every block that a file had stays in place with its contents, each block is referred to once; 0 only when the disk is full; changes nothing when the block was there; takes free blocks for this file only, logs every block it changes and bounds what it logs |
| `FsDevice.Fs.BmapIndirect` | kernel/fs.c:430-440 | the same for a slot of the indirect block |
| `FsDevice.Fs.FreeIndirect` | kernel/fs.c:462-472 | frees the blocks of the indirect block and itself; exactly those bits are cleared |
| `FsDevice.Fs.ReadBlocks` | kernel/fs.c:505-517 | the loop reads the slice block by block and never allocates |
| `FsDevice.Fs.WriteBlocks` | kernel/fs.c:539-551 | the loop lays the bytes over the file block by block and accounts for every block it logs |
| `FsDevice.Fs.LogWrite` | kernel/log.c:216-236 | a block logged again counts once |
| `FsDevice.Fs.Itrunc` | kernel/fs.c:448-476 | clears exactly the bits of the blocks the inode referred to; the panic of `bfree` is unreachable; the file is empty and the other files are as they were; everything changed was logged |
| `FsDevice.Fs.Readi` | kernel/fs.c:494-519 | returns exactly the slice asked for, clipped to the size, or -1 when the copy out fails; allocates and logs nothing |
| `FsDevice.Fs.Writei` | kernel/fs.c:528-562 | -1 exactly for an offset past the end or past the largest file; otherwise the file is the old content with the first bytes laid over it, none of them one that cannot be copied, no other file has changed, and fewer bytes than asked means a full disk or a failed copy in the next block; everything changed was logged; a chunk of three blocks logs ten blocks at most |
| `FsDevice.Fs.WriteThenRead` | kernel/fs.c:494-562 | what was written is what is read |
| `FsDevice.Fs.WriteChunk` | kernel/file.c:160-165 | one chunk is one transaction, in which everything changed was logged, of at most MAXOPBLOCKS distinct blocks |
| `FsDevice.Fs.Filewrite` | kernel/file.c:149-173 | the file is the old content with the bytes up to the new offset laid over it; the result is the length if and only if all was written; the transactions lead one after the other from the old state to the new, one for each chunk of three blocks up to the end or the chunk that failed; in each everything changed was logged, in at most MAXOPBLOCKS distinct blocks |
| `FsRuns.Step` | kernel/fs.c:448-562 | a read, write or truncation answers and acts as on byte sequences; a write moves blocks from the free ones to its file, a truncation frees exactly the blocks of its file |
| `FsRuns.Run` | kernel/fs.c:405-562 | in every run each call gives the answer, and leaves the files and the free blocks, that the relation between calls and byte sequences allows after the calls before it; the disk represents the last of them |
| `FsRuns.GrewTakes` | kernel/fs.c:405-444 | the blocks that a file gains are exactly those that are no longer free |
| `FsRuns.TruncFrees` | kernel/fs.c:448-476 | the blocks that become free are exactly those of the file |
| `FsRuns.TakesFew` | kernel/fs.c:528-562 | a write takes no more free blocks than it touches, and an indirect block |
| `FsRuns.ValidApart` | kernel/fs.c:66-106 | no block is in two files, or in a file and free |
| `FsRuns.BlocksConserved` | kernel/fs.c:66-476 | in every run the same blocks are free or in a file at all times, each in one place only |
| `FsRuns.ReadsTheLastWrite` | kernel/fs.c:494-562 | in every run a read of a part of what a write stored gives those bytes when nothing but reads touches the file in between |
| `FsCrash.ImageKept` | kernel/fs.c:226-242 | a block that a transaction does not log, of data or of inodes, is on disk as it was |
| `FsCrash.CarriedEffect` | kernel/log.c:216-236 | the updates that a transaction logs take its disk before to its disk after |
| `FsCrash.WholeChunksSurvive` | kernel/file.c:149-173 | in every run in which one process writes a file through the log and the machine commits, crashes and recovers at any moment, recovery gives the disk of a state in which the file has a number of whole chunks of what was written and nothing else has changed; at most the last transaction begun is missing, and none when nothing is under way and no crash came |
| `FsCrash.WriterNotStopped` | kernel/log.c:216-236 | in every such run the log has room for each block that the writer logs |
| `FsCrash.WriteFile` | kernel/file.c:149-173 | the transactions of `filewrite` are of the kind that this speaks of, and within the bound of the log |
| `BioList.Unlink` | kernel/bio.c:128-129 | taking a buffer out of the circle leaves the others linked both ways in order |
| `BioList.LinkFront` | kernel/bio.c:130-133 | putting a buffer in behind the head keeps the circle |
| `BioCache.Recycle` | kernel/bio.c:78-82 | an unreferenced buffer that takes on a block no buffer has leaves every block cached once; of the block it had, what was not on the disk is gone, and nothing else |
| `BioCache.Fill` | kernel/bio.c:98-101 | an invalid buffer filled from the disk has the latest contents |
| `BioCache.OneActive` | kernel/bio.c:36-89 | of two buffers that name one block, one is neither referenced nor filled |
| `BioCache.MovedSingle` | kernel/bio.c:125-134 | moving a buffer in use to the front keeps it the first of its block |
| `BioCache.Change` | kernel/bio.c:8-14 | storing into a buffer makes the contents the latest of its block and of no other |
| `BioCache.Bcache.constructor` | kernel/bio.c:36-53 | the circle holds every buffer once |
| `BioCache.Bcache.Lookup` | kernel/bio.c:66-73 | finds the buffer with the block if there is one |
| `BioCache.Bcache.FindVictim` | kernel/bio.c:77-78 | finds the unreferenced buffer nearest to the tail if there is one |
| `BioCache.Bcache.Bget` | kernel/bio.c:58-89 | for every block of every device: references the buffer that has the block, the first of it in list order, or else the unreferenced one nearest to the tail takes it on, and exactly what that one held and was not on the disk is forgotten; every other buffer keeps its identity; fails exactly when all are referenced and none has the block |
| `BioCache.Bcache.LockAndFill` | kernel/bio.c:92-103 | the buffer has the contents last stored in its block, across evictions |
| `BioCache.Bcache.Bwrite` | kernel/bio.c:106-112 | the disk has the contents of the buffer |
| `BioCache.Bcache.Store` | kernel/bio.c:8-14 | what the holder stores becomes the latest contents of the block |
| `BioCache.Bcache.Brelse` | kernel/bio.c:116-137 | drops one reference, of a buffer written or not; with the last one the buffer moves to the front and the order of the others stays; what is in the buffer stays the latest of its block |
| `BioCache.Bcache.ToFront` | kernel/bio.c:128-133 | the pointer surgery moves one buffer to the front of the circle |
| `BioCache.Bcache.Bpin` | kernel/bio.c:139-144 | adds a reference that keeps the identity of the buffer; the cache stays sound unless nobody ever got the buffer |
| `BioCache.Bcache.Bunpin` | kernel/bio.c:146-151 | drops a reference, wrapping at 0; the cache stays sound for a buffer that has a pin |
| `BioRuns.Step` | kernel/bio.c:36-151 | any call of a client answers and acts on the view of the cache: what a reader of each block gets, what is on the disk, and the buffers in use |
| `BioRuns.Run` | kernel/bio.c:36-151 | in every run each call gives the answer, and leaves the view, that the relation between calls and views allows after the calls before it; the cache represents the last view |
| `BioRuns.Transparent` | kernel/bio.c:8-14 | in every run in which whoever gives up the last reference to a buffer has written it, each read gives what was last stored in the block, across all recycling |
| `BioRuns.ForgetsUnwritten` | kernel/bio.c:8-14 | that rule is needed: in a cache of one buffer, what is stored and not written is gone after another block was read |
| `VirtioDisk.WrapExact` | kernel/virtio_disk.c:272-277 | a sixteen-bit index leads to the right place of the ring at every position if and only if the ring size divides 65536 |
| `VirtioDisk.RingPush` | kernel/virtio_disk.c:272-277 | an entry put at a sixteen-bit index is behind the others in the ring, across wraparound |
| `VirtioDisk.RingPop` | kernel/virtio_disk.c:312-323 | the entry at the other index is the oldest in the ring, across wraparound |
| `VirtioDisk.RingEmpty` | kernel/virtio_disk.c:312-312 | equal sixteen-bit indices mean an empty ring |
| `VirtioDisk.Enlist` | kernel/virtio_disk.c:229-265 | three free descriptors written as a chain keep the partition of the table |
| `VirtioDisk.Discharge` | kernel/virtio_disk.c:186-197 | none of the descriptors of a chain is free, and freeing them keeps the partition |
| `VirtioDisk.TrackedReport` | kernel/virtio_disk.c:314-320 | a finished request has the status that the device gave it and its buffer still waits |
| `VirtioDriver.Disk.AllocDesc` | kernel/virtio_disk.c:156-166 | takes the lowest free descriptor, or reports that none is free |
| `VirtioDriver.Disk.FreeDesc` | kernel/virtio_disk.c:169-182 | clears one descriptor and marks it free |
| `VirtioDriver.Disk.Alloc3Desc` | kernel/virtio_disk.c:201-213 | takes the three lowest free descriptors if and only if there are three, otherwise gives back what it took |
| `VirtioDriver.Disk.FreeChain` | kernel/virtio_disk.c:185-197 | follows the chain and frees exactly its three descriptors; no panic of `free_desc` is reachable |
| `VirtioDriver.Disk.Submit` | kernel/virtio_disk.c:216-281 | with three free descriptors the request is queued for its buffer and block and the buffer waits; otherwise nothing changes |
| `VirtioDriver.Disk.Format` | kernel/virtio_disk.c:238-269 | the three descriptors form the chain of the request |
| `VirtioDriver.Disk.Finish` | kernel/virtio_disk.c:284-291 | gives back exactly the descriptors of the request |
| `VirtioDriver.Disk.DeviceTakes` | kernel/virtio_disk.c:272-281 | the device takes the oldest request offered |
| `VirtioDriver.Disk.DeviceCompletes` | kernel/virtio_disk.c:247-265 | whatever request the device completes, with whatever status, the chain leads it to the block and the buffer of the process that submitted it |
| `VirtioDriver.Disk.Report` | kernel/virtio_disk.c:312-323 | one completion clears the flag of exactly the submitting buffer, which was up; the panic is met exactly at a status other than 0 |
| `VirtioDriver.Disk.Intr` | kernel/virtio_disk.c:294-327 | the completions in the ring are reported in order, up to the first that failed, and no other |
| `VirtioRuns.Step` | kernel/virtio_disk.c:155-327 | any step of a process, the handler or the device answers and acts on the view of the driver: the requests in flight, the queues to and from the device, and what buffers and disk hold |
| `VirtioRuns.Run` | kernel/virtio_disk.c:155-327 | in every interleaving and completion order each step gives the answer, and leaves the view, that the relation between steps and views allows after the steps before it; driver and device represent the last view; the one panic reached is that of a failed request |
| `VirtioRuns.FreeCount` | kernel/virtio_disk.c:201-231 | free descriptors and three for each request in flight make up the table, so a call sleeps exactly when three more do not fit |
| `VirtioRuns.InTurn` | kernel/virtio_disk.c:216-327 | a request is accepted, taken, done, cleared and freed in this order, and nothing else moves it |
| `VirtioRuns.CarriedOutOnce` | kernel/virtio_disk.c:216-291 | in every run from boot, when a process comes back its request was accepted, taken, completed without an error and reported, each once and in this order; a write put on the disk what the buffer held at the call, a read left in the buffer what the disk held at the completion, and the process still finds it there |
| `SlabModel.OneSlab` | kernel/slab_allocator.c:248-266 | a slot belongs to one slab |
| `SlabModel.TakeSlot` | kernel/slab_allocator.c:119-128 | the slot taken was free; the free list stays duplicate-free with length `free_count` over the slab's slots |
| `SlabModel.GiveSlot` | kernel/slab_allocator.c:268-273 | the same when a slot that was out is given back |
| `SlabModel.GiveSlotExact` | kernel/slab_allocator.c:268-273 | the free list of a slab with a slot pushed on it ends if and only if the slot was not on it |
| `SlabModel.TakeLive` | kernel/slab_allocator.c:119-128 | exactly the slot taken is handed out besides what was, and it was not out |
| `SlabModel.MovedPlaced` | kernel/slab_allocator.c:130-145 | a slab moved to the list of its class restores the classification |
| `SlabModel.RoomFor` | kernel/slab_allocator.c:97-117 | distinct slots of a slab are no more than its total |
| `SlabCache.GetOrderFromSize` | kernel/slab_allocator.c:75-95 | the smallest order whose block holds the wanted objects behind the header |
| `SlabCache.FitsSound` | kernel/slab_allocator.c:75-117 | a slab holds one object at least, for sizes up to 32768 two, inside its block |
| `SlabCache.OneSlotSizes` | kernel/slab_allocator.c:18-18 | the caches for 65536 and 131072 bytes have slabs of one slot |
| `SlabCache.LinksApart` | kernel/slab_allocator.c:24-27 | the 12 bytes of link and guard word of each slot lie in the block and apart from those of other slots if and only if objects have 12 bytes at least |
| `SlabCache.ObjectInside` | kernel/slab_allocator.c:97-128 | an object that is out lies in the block of a slab, behind the header |
| `SlabCache.ObjectsApart` | kernel/slab_allocator.c:97-128 | two objects that are out share no byte |
| `SlabCache.Cache.SlabInit` | kernel/slab_allocator.c:97-117 | links all slots of the block, in order, and touches no other slab's slots |
| `SlabCache.Cache.SlabAlloc` | kernel/slab_allocator.c:119-128 | hands out exactly one free slot; the panics are unreachable |
| `SlabCache.Cache.SlabFree` | kernel/slab_allocator.c:268-273 | takes back exactly a slot that was out; of one that was free already it leaves a list that does not end |
| `SlabCache.Cache.MoveSlab` | kernel/slab_allocator.c:130-145 | moves the slab to the front of the other list and keeps the order of the rest; the panics are unreachable |
| `SlabCache.Cache.constructor` | kernel/slab_allocator.c:147-168 | a new cache has no slab, nothing handed out and nothing given back |
| `SlabCache.Cache.Reclass` | kernel/slab_allocator.c:130-145 | a slab whose count has changed ends on the list of its class |
| `SlabCache.Cache.AllocFrom` | kernel/slab_allocator.c:221-235 | hands out one object from the first slab of the list and reclassifies it |
| `SlabCache.Cache.AllocNew` | kernel/slab_allocator.c:206-220 | a new slab at the order of the size, in a block with any words in it, hands out its first slot |
| `SlabCache.Cache.FreeIn` | kernel/slab_allocator.c:287-302 | takes an object that was out back in its slab and reclassifies it; of a slot that was free already it leaves a list that does not end |
| `SlabCache.Cache.FindObj` | kernel/slab_allocator.c:248-266 | finds the slab of the list that has the object as a slot if and only if there is one |
| `SlabCache.Cache.CacheAlloc` | kernel/slab_allocator.c:200-246 | hands out exactly one object that was not out; takes a new slab exactly when no slab has a free slot; panics exactly when then the buddy allocator has no block, or when slabs have one slot and an object is out; every slab is on the list for its free count |
| `SlabCache.Cache.CacheFree` | kernel/slab_allocator.c:275-306 | takes back exactly the object that was out; an object given back before is always reported as a double free; neither that nor a foreign object changes anything; the cache stays sound unless the address is a free slot of a slab with objects out that does not carry the magic number, and then a free list no longer ends |
| `SlabCache.Cache.CacheShrink` | kernel/slab_allocator.c:188-198 | gives back exactly the empty slabs, each once and at the order it was taken with; what is handed out stays |
| `SlabCache.Cache.FreeFirst` | kernel/slab_allocator.c:170-186 | one empty slab goes back at the order of its size |
| `SlabCache.Cache.ClientWrite` | kernel/slab_allocator.c:200-246 | whatever an owner stores in its object, the magic number apart, leaves every list sound |
| `SlabRuns.Step` | kernel/slab_allocator.c:188-306 | any call answers and acts on the pool: where the slabs are, what clients hold, and what was given back |
| `SlabRuns.Run` | kernel/slab_allocator.c:75-306 | in every run each call gives the answer, and leaves the pool, that the relation between calls and pools allows after the calls before it; the cache represents the last pool |
| `SlabRuns.CountTells` | kernel/slab_allocator.c:119-128 | the count in a slab header tells exactly whether a slot is free and whether an object is out |
| `SlabRuns.NeverTwice` | kernel/slab_allocator.c:200-306 | in every run, between two allocations that return one object it was freed |
| `SlabRuns.OneSlotPanics` | kernel/slab_allocator.c:204-220 | the counterexample for slabs of one slot: a new cache for 65536 or 131072 bytes hands out one object and panics at the next allocation, though there is memory |

## Left out

- BuddyAllocator.Allocator.constructor: the tree has at most 51 levels, so that node numbers and addresses fit in 64 bits; the source has 15.
- BuddyAllocator.Allocator.Kalloc: that mixed-order runs never overlap is not claimed; the code does not establish it.
- LogRuns.AppendsAlwaysFit: about appends only, for the reason given above.
- LogDevice.Log.BeginOp: one round of the loop around `sleep`; that an operation is admitted in the end is not claimed.
- VmDevice.Vm.Kalloc: which free frame the page allocator gives is left open, instead of being the buddy allocator's choice.
- VmDevice.Vm.Kfree: the free frames are a set here; the buddy tree behind it is modelled on its own.
- VmDevice.Vm.Mappages: the panics for unaligned addresses, an empty range and a page mapped already are demands on the caller.
- VmDevice.Vm.Uvmalloc: sizes stay within the user address space, as `growproc` and `exec` see to.
- FsDevice.Fs.Itrunc: how many blocks a truncation logs is not bounded.
- FsDevice.Fs.Bmap: inodes are the ones in memory; the inode cache is not modelled, `iupdate` counts as a logged block.
- FsCrash.WholeChunksSurvive: one process writes; how inodes are laid out in their blocks is left open.
- FsDevice.Fs.Writei: a chunk is copied whole or not at all.
- FsDevice.Fs.LogWrite: the blocks logged are a set here; the order of the log, absorption and its panics are in `LogRuns` and `LogDevice`.
- BioCache.Bcache.Bget: that some buffer is unreferenced is not claimed; a full log can pin every buffer.
- VirtioDriver.Disk.Intr: the device stands still during the loop; `VirtioRuns.Run` lets it move between any two rounds.
- VirtioDriver.Disk.Submit: the buffer has no request in flight, as its lock sees to.
- SlabCache.Cache.constructor: object sizes below 12 bytes are excluded; `SlabCache.LinksApart` shows that the links of free slots then overlap.
- HeapDevice.Heap.Morecore: the size asked of `sbrk` fits its signed argument, and each new region lies above and apart from earlier ones.
- Scheduling, fairness and every other liveness property.
- Assembly, traps, interrupt controllers, the console and boot code; TLB flushes and weak memory.
- `copyin`, `copyout`, lazy allocation on a page fault, and the kernel's own page table.
- Directories, path names, `exec`, pipes, the inode cache with its reference counts, and orphan reclamation at boot.
- Slab constructors and destructors, `cache_destroy`, `cache_info`, the size-N caches and the system calls around them.
- User programs other than the heap.
