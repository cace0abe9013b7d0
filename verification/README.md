# Dragoon: a verified model of the kernel's stateful core

Dragoon is an ARM64 microkernel. This project models the parts of it whose correctness rests on state kept
consistent across many calls, in Dafny 4.11, and proves what they promise for every input and every run.
`dafny verify dfyconfig.toml` checks all of it.

* **Pages** (`Bits`, `Bitmaps`, `PageAllocator`, `AllocatorRuns`): the packed bitmap of `kernel/mm.c` is a
  finite set of page numbers; allocation is first-fit and complete; live blocks stay disjoint in every run.
* **Page tables and address spaces** (`PageTables`, `TableForest`, `Mapping`, `Ownership`, `AddressSpaces`,
  `VmRuns`, `Boot`, `Vm`): memory holds a forest of 4-level tables whose roots share the kernel's subtree.
  Its meaning is the VMSAv8-64 walk with a 4 KB granule (chapter D8 of the Arm Architecture Reference Manual).
  `mm_map_page` is an update of the map from virtual pages to descriptors, `vm_destroy` frees what an address
  space owns and nothing else, and all of this holds in every run of creating, mapping and destroying.
* **Waiting** (`WaitPool`, `WaitQueues`, `WaitRuns`, `WaitOrder`, `Futex`, `FutexCalls`): lists threaded by index
  through one pool are a family of FIFO sequences, and the futex table is a map from addresses to FIFO sequences of
  waiters. When a call blocks, and whom it wakes, is said for every state that can be reached.
* **Virtqueues** (`Virtqueue`, `RingWrap`, `VirtioInput`): a split virtqueue (section 2.6 of VIRTIO 1.1) driven by driver
  steps interleaved with those of a conforming device.
* **Processors** (`Scheduler`, `TicketLock`): transition systems over any number of processors.
* **Screen** (`Gpu`, `WindowManager`, `Compositor`, `WindowEffects`, `Highlight`, `Windows`, `Screen`): clipped drawing
  into a frame buffer, the z-order of the windows, the agreement of the click hit test with what was painted last,
  and what clicks, drags and the taskbar do in terms of what is drawn.
* **Tetris** (`Tetris`, `Falling`): the game's board, its line clearing, the invariant of every game, and how long a
  piece falls.

Code that works in place is a class (`Mm`, `VmManager`, `WaitQueueTable`, `FutexTable`, `VirtqDriver`,
`TaskTable`, `SpinLock`, `Target`, `WindowTable`, `TetrisGame`); each of its methods is proved to compute a
function of the abstract state, and the lemmas are about those functions.

Four promises turn out to hold only under a condition, which is proved to be exact:

* a timed wait expires at tick `start + n`, and not before, exactly when the 64-bit sum does not wrap or the
  tick counter itself wraps at the very next tick and n is at least 2 (`WaitRuns.TimedWaitExactIff`);
* every run of a virtqueue keeps its unread ring elements as the 16-bit indices wrap exactly when the queue size
  divides 65536 (`RingWrap.RingsHoldIff`);
* the click hit test agrees with the screen for every placement of the windows exactly when each window is
  large enough for its title and its close button (`Compositor.MatchesIff`);
* a press on the drawn close button of a window closes it exactly when it is not in the bottom row of the cross,
  which is drawn one row below the button's box and starts a drag (`WindowEffects.CloseButtonIff`).

The ticket lock is exclusive exactly for at most 2^32 processors (`TicketLock.ExclusiveIff`, for any modulus).

Steps are critical sections. Three steps are coarser than the code, which releases its lock in between: marking
the current task blocked or dead together with the following `schedule()`, with or without a wake-up of that task
in between, and with the context switch (`kernel/waitqueue.c:116-120`, `kernel/sched.c:91-93`), checking a
futex word together with enqueuing (`kernel/futex.c:83-84`), and all wake-ups of one `futex_wake`
(`kernel/futex.c:130-138`). These windows are assumed away, not proved harmless.

Two places where the code and its comments disagree: the device range is mapped by 2 MB blocks 64 to 81, that
is up to `0x0A400000`, while the comment at `kernel/mm.c:220` ends it at `0x0A000000`; the model follows the
code. `vm_destroy` takes every valid level-0 entry for a table without looking at the table bit
(`kernel/vm.c:92-94`); in a well-formed forest the two agree.

## Model

| member | source | states |
|---|---|---|
| `Bitmaps.SetBitAdds` | kernel/mm.c:27-30 | or-ing one bit into its word adds that element to the set the words stand for, and no other |
| `Bitmaps.ClearBitRemoves` | kernel/mm.c:32-35 | and-ing with the complement removes that element and no other |
| `Bitmaps.TestBitReads` | kernel/mm.c:37-40 | shift and mask read membership |
| `Bitmaps.SetDeterminesWords` | kernel/mm.c:18-40 | equal sets mean equal words, bit for bit |
| `PageAllocator.PageAddrRoundTrip` | kernel/mm.c:72-123 | page number to address and back is the identity |
| `PageAllocator.RunFrom` | kernel/mm.c:93-113 | the result starts the lowest run of n free pages at or above s, or there is none |
| `PageAllocator.FirstRunUnique` | kernel/mm.c:93-113 | a free run with no free run before it is the first-fit answer |
| `PageAllocator.NoRun` | kernel/mm.c:114-115 | the answer is "none" when no position starts a free run |
| `PageAllocator.PagesAtRun` | kernel/mm.c:132-147 | the addresses pages_free visits are exactly the pages of the run |
| `PageAllocator.Mm.constructor` | kernel/mm.c:42-62 | afterwards exactly the kernel's pages are allocated and the counter is their number |
| `PageAllocator.Mm.BitmapSet` | kernel/mm.c:27-30 | adds one page to the allocated set |
| `PageAllocator.Mm.BitmapClear` | kernel/mm.c:32-35 | removes one page from the allocated set |
| `PageAllocator.Mm.BitmapTest` | kernel/mm.c:37-40 | answers membership in the allocated set |
| `PageAllocator.Mm.ZeroPage` | kernel/mm.c:74-76 | zeroes one page and leaves all other memory |
| `PageAllocator.Mm.PageAlloc` | kernel/mm.c:64-82 | takes and zeroes the lowest free page, NULL exactly when there is none; counter and bitmap agree |
| `PageAllocator.Mm.FindPage` | kernel/mm.c:67-79 | the search loop stops at the lowest free page |
| `PageAllocator.Mm.PagesAlloc` | kernel/mm.c:84-116 | first-fit and complete: NULL exactly for a bad n or when no run of n free pages exists, else the lowest run, marked, zeroed, and nothing else |
| `PageAllocator.Mm.FindRun` | kernel/mm.c:89-113 | the single pass with a running length finds the first free run |
| `PageAllocator.Mm.MarkRun` | kernel/mm.c:99-102 | marks the run, keeping the counter equal to the number of set bits |
| `PageAllocator.Mm.PageFree` | kernel/mm.c:118-130 | frees the page an address lies in; addresses outside RAM and free pages change nothing |
| `PageAllocator.Mm.PagesFree` | kernel/mm.c:132-147 | frees exactly the visited pages that lie in RAM, counting each once |
| `PageAllocator.Mm.AllocThenFree` | kernel/mm.c:84-147 | allocating n pages and freeing them restores every bitmap word and the counter |
| `AllocatorRuns.AllocKeeps` | kernel/mm.c:84-116 | allocation keeps live blocks disjoint and the allocated set their union with the kernel image |
| `AllocatorRuns.FreeKeeps` | kernel/mm.c:132-147 | freeing a live block keeps the same |
| `AllocatorRuns.RunKeeps` | kernel/mm.c:64-147 | so does every run |
| `AllocatorRuns.BlocksDisjoint` | kernel/mm.c:42-147 | after any run from mm_init live blocks are pairwise disjoint, miss the kernel image, and with it make up the allocated set |
| `AllocatorRuns.AlwaysServes` | kernel/mm.c:84-147 | after any run a request is served exactly when enough adjacent pages are free, with the lowest of them as a new block; giving a block back frees its pages and no others |
| `PageTables.TableDescFacts` | kernel/mm.c:301-303 | a table descriptor is valid, has the table bit, and masks back to its page |
| `PageTables.MaskRoundsDown` | kernel/mm.c:303-329 | the mask of an entry rounds it down to a page boundary |
| `PageTables.SplitIff` | kernel/mm.c:291-294 | two addresses have the same four indices exactly when they agree in bits 12 to 47 |
| `PageTables.IdentityBlock` | kernel/mm.c:220-232 | the block descriptor of a RAM or device address translates it to itself |
| `PageTables.LeafMeans` | kernel/mm.c:329-329 | the level-3 descriptor means the page of the rounded address if the flags carry bits 0 and 1, a fault otherwise |
| `PageTables.AllocPageLowest` | kernel/mm.c:64-82 | page_alloc takes and zeroes the lowest free page and nothing else; it fails exactly when every page is used |
| `TableForest.AttachWellFormed` | kernel/mm.c:298-301 | hanging a fresh zeroed table into an invalid entry keeps the forest well formed |
| `TableForest.AttachWalk` | kernel/mm.c:298-322 | and changes no walk from any root |
| `TableForest.LeafWellFormed` | kernel/mm.c:329-329 | writing any level-3 entry keeps the forest well formed |
| `TableForest.PathLevels` | kernel/mm.c:296-326 | each table met on the way down is a child of the one before, one level deeper |
| `TableForest.UniquePath` | kernel/mm.c:289-330 | a level-3 table is reached by one index path only, and from two roots only through the shared entry 0 |
| `TableForest.SharedRegion` | kernel/vm.c:71-74 | all roots agree on every walk with level-0 index 0 |
| `Mapping.DescendKeeps` | kernel/mm.c:306-315 | one level of find-or-create keeps the forest and extends it by exactly the page it took |
| `Mapping.DescendWalks` | kernel/mm.c:306-315 | and changes no walk, whether it finds, creates or fails |
| `Mapping.PrepareKeeps` | kernel/mm.c:296-326 | three levels of it reach the level-3 table of the page, or return early with all walks unchanged |
| `Mapping.LeafWalk` | kernel/mm.c:329-329 | the leaf write changes the walk of that page from that root (from all roots in the shared region) and no other |
| `Mapping.MapPageRefines` | kernel/mm.c:289-330 | mm_map_page is a map update: if it installs, the walk of the page gives the new descriptor, every other walk from every root is unchanged; if it returns early all walks are unchanged; the new tables are the pages it took |
| `Mapping.MapPageTranslates` | kernel/mm.c:289-330 | in addresses: after an install every address of the page of vaddr translates into the page of paddr at the same offset (or faults, by the flags), in that address space, in all of them for the shared region; every other translation stays |
| `Mapping.MapPageInstallsIff` | kernel/mm.c:298-326 | it installs exactly when no block lies on the path and as many pages are free as tables are missing; otherwise it changes nothing (block) or uses up all pages |
| `Mapping.ExhaustedIffFull` | kernel/mm.c:64-82 | page_alloc fails exactly when all pages are in use |
| `Ownership.FreeFromLists` | kernel/vm.c:45-58 | the recursive free visits each table below the remaining entries once |
| `Ownership.FreeListLists` | kernel/vm.c:45-62 | vm_free_subtree lists each table of the subtree exactly once, and no leaf page |
| `Ownership.DestroyListsOwned` | kernel/vm.c:84-98 | vm_destroy lists each table its root owns exactly once, and no table of the kernel |
| `Ownership.OwnedDisjoint` | kernel/vm.c:89-96 | different roots own disjoint tables |
| `Ownership.OwnedByParent` | kernel/vm.c:45-62 | a table belongs to a root exactly when its parent does or it hangs below a non-zero root entry |
| `Ownership.DestroyWellFormed` | kernel/vm.c:84-102 | what remains after freeing the owned tables is a well-formed forest |
| `Ownership.MapOwned` | kernel/mm.c:289-330 | the tables mm_map_page makes become owned by the mapped root if its level-0 index is not 0, by no root otherwise |
| `AddressSpaces.NewRootWellFormed` | kernel/vm.c:64-76 | a new root with the kernel's entry 0 keeps the forest well formed |
| `AddressSpaces.NewRootWalk` | kernel/vm.c:71-76 | the new root sees the kernel's region and faults elsewhere |
| `AddressSpaces.PlantOwned` | kernel/vm.c:64-76 | it owns just its own page and takes nothing from others |
| `AddressSpaces.PruneOwned` | kernel/vm.c:84-98 | destroying one root leaves what the others own |
| `AddressSpaces.FrameWalks` | kernel/mm.c:64-82 | allocations and writes outside the tables change no walk |
| `VmRuns.AsidFrom` | kernel/vm.c:20-32 | the lowest free identifier, 0 exactly on exhaustion |
| `VmRuns.CreateKeeps` | kernel/vm.c:64-82 | vm_create keeps the invariant of tables, owners, accounts and ASIDs |
| `VmRuns.MapUserKeeps` | kernel/mm.c:289-330 | so does mapping in an address space, failed calls included |
| `VmRuns.MapKernelKeeps` | kernel/mm.c:289-330 | and mapping in the kernel's own table |
| `VmRuns.DestroyKeeps` | kernel/vm.c:84-102 | and vm_destroy |
| `VmRuns.CreateWalks` | kernel/vm.c:64-82 | vm_create changes no walk of any other root |
| `VmRuns.ClientKeeps` | kernel/mm.c:64-147 | other users may take runs of pages, give them back and write to them: the invariant and the tables stay |
| `VmRuns.StepKeeps` | kernel/vm.c:20-102 | every step keeps it: live spaces own disjoint tables and hold pairwise distinct non-zero ASIDs, or 0 after exhaustion |
| `VmRuns.Run` | kernel/vm.c:64-102 | and so does every run |
| `VmRuns.DestroyFreesAccount` | kernel/vm.c:84-102 | vm_destroy frees exactly the pages taken for the space since vm_create, each once, and leaves memory alone |
| `VmRuns.StepWalks` | kernel/mm.c:289-330 | a step changes the walk of a surviving root only where a map installs |
| `VmRuns.BlocksPersist` | kernel/mm.c:313-324 | no step splits or replaces a block |
| `VmRuns.RunKeepsIdentity` | kernel/mm.c:201-235 | no run disturbs the identity blocks in any root |
| `VmRuns.RunTranslatesIdentity` | kernel/mm.c:201-235 | after any run every root translates RAM and device addresses to themselves |
| `VmRuns.RunSharesRegion` | kernel/vm.c:71-74 | after any run all roots agree on the whole region of level-0 index 0, maps made there included |
| `VmRuns.RunConserves` | kernel/vm.c:64-102 | the allocated set depends only on the accounts |
| `VmRuns.CreateMapDestroy` | kernel/vm.c:64-102 | create, any private maps (failed ones included), destroy: the allocated pages, the spaces and the ASIDs are as before |
| `VmRuns.FallbackOnlyWhenExhausted` | kernel/vm.c:20-32 | a created space has ASID 0 exactly when all others are taken |
| `VmRuns.CreateSucceedsIff` | kernel/vm.c:64-82 | vm_create succeeds exactly when a page is free, takes the lowest one and the lowest free ASID, and leaves the other spaces alone |
| `Boot.BootWellFormed` | kernel/mm.c:201-232 | the tables built at boot form a well-formed forest |
| `Boot.BootIdentity` | kernel/mm.c:220-232 | their walks give the identity blocks |
| `Boot.BootInv` | kernel/mm.c:201-235 | the state after boot meets the invariant of all runs |
| `Boot.AlwaysIdentity` | kernel/mm.c:201-330 | from boot on, in every run, every root translates RAM and device addresses to themselves |
| `Boot.AlwaysAttributes` | kernel/mm.c:173-232 | from boot on, in every run and every root: RAM is reached through level-2 blocks of memory type 0, inner shareable, the devices through type 1, outer shareable; access flag set, privileged only |
| `Vm.VmManager.CreatePageTables` | kernel/mm.c:201-235 | the loops write exactly the boot tables and no other page |
| `Vm.VmManager.FillDevices` | kernel/mm.c:222-225 | entries 64 to 81 become device blocks |
| `Vm.VmManager.FillRam` | kernel/mm.c:229-232 | entries 0 to 63 become RAM blocks |
| `Vm.VmManager.DescendTable` | kernel/mm.c:306-315 | one level in place is the find-or-create function, for levels 0, 1 and 2 |
| `Vm.VmManager.MapPageAt` | kernel/mm.c:289-330 | the whole call in place is the function that MapPageRefines is about |
| `Vm.VmManager.FreeSubtree` | kernel/vm.c:45-62 | the recursion with its loop frees the listed tables and writes no memory |
| `Vm.VmManager.AsidAlloc` | kernel/vm.c:20-32 | takes the lowest free ASID from the packed bytes |
| `Vm.VmManager.AsidFree` | kernel/vm.c:34-41 | gives back a valid ASID, ignores 0 and out-of-range ones |
| `Vm.VmManager.VmCreate` | kernel/vm.c:64-82 | on success the new state is the planted root with its ASID; on failure nothing but the pgd field changes |
| `Vm.VmManager.VmDestroy` | kernel/vm.c:84-102 | frees the destroy list and the ASID, clears the fields, and does nothing for a null pgd |
| `WaitPool.ChainsDisjoint` | kernel/waitqueue.c:64-93 | no entry lies on the chains of two queues |
| `WaitPool.DropOne` | kernel/waitqueue.c:78-93 | dropping one element is cutting it out of the sequence |
| `WaitPool.AppendLinked` | kernel/waitqueue.c:64-75 | relinking the tail appends to that chain and keeps all chains linked |
| `WaitPool.UnlinkShape` | kernel/waitqueue.c:78-93 | unlinking from any position and freeing keeps the shape: in use exactly when on the owner's chain |
| `WaitPool.EnqueueShape` | kernel/waitqueue.c:101-111 | taking an entry and appending it keeps the shape |
| `WaitQueues.WaitQueueTable.constructor` | kernel/waitqueue.c:29-36 | no queues, a free pool and dead tasks: the state that runs start from |
| `WaitQueues.WaitQueueTable.PoolAlloc` | kernel/waitqueue.c:43-53 | takes the lowest free entry, -1 exactly when none is free |
| `WaitQueues.WaitQueueTable.QueueAppend` | kernel/waitqueue.c:64-75 | the walk ends because chains are acyclic, and appends at the end |
| `WaitQueues.WaitQueueTable.QueueRemove` | kernel/waitqueue.c:78-93 | the walk ends at the predecessor and cuts the entry out; an entry that is not on the queue changes nothing |
| `WaitQueues.WaitQueueTable.WqWait` | kernel/waitqueue.c:95-118 | appends the caller to the FIFO and blocks it; on a full pool or without a task nothing changes |
| `WaitQueues.WaitQueueTable.WqWaitTimeout` | kernel/waitqueue.c:123-146 | the same with an expiry tick computed modulo 2^64 |
| `WaitQueues.WaitQueueTable.WqWakeOne` | kernel/waitqueue.c:156-176 | removes the longest waiter and makes it ready with reason 0 |
| `WaitQueues.WaitQueueTable.WqWakeAll` | kernel/waitqueue.c:182-199 | empties the queue and makes all its waiters ready |
| `WaitQueues.WaitQueueTable.WqTick` | kernel/waitqueue.c:205-229 | one sweep over the pool removes exactly the expired entries from all queues, keeping order |
| `WaitQueues.WaitQueueTable.TimerTick` | kernel/timer.c:27-30 | counts and sweeps |
| `WaitRuns.StepKeeps` | kernel/waitqueue.c:95-229 | every step keeps: chains disjoint and duplicate-free, blocked tasks have exactly one entry, others none |
| `WaitRuns.RunKeeps` | kernel/waitqueue.c:95-229 | so does every run |
| `WaitRuns.InitInv` | kernel/waitqueue.c:29-36 | it holds after wq_pool_init and task_init |
| `WaitRuns.Reached` | kernel/waitqueue.c:29-229 | so it holds in every state reached from there |
| `WaitRuns.AlwaysOneEntry` | kernel/waitqueue.c:29-229 | in every run from the start a task is blocked exactly when it has an entry, and has one at most; entries in use are exactly those on a chain, each on one chain once |
| `WaitRuns.AlwaysWaitsIff` | kernel/waitqueue.c:95-146 | in every run from the start a running task that waits is blocked afterwards exactly when the pool has room, and then stands last in the queue with reason 0 and its expiry tick; otherwise nothing happens |
| `WaitRuns.StepWaiting` | kernel/waitqueue.c:156-229 | a waiter leaves in a step exactly by a waker (reason 0) or by expiry (reason -1), otherwise it keeps waiting |
| `WaitRuns.RunWaiting` | kernel/waitqueue.c:205-229 | undisturbed and unexpired, it is still waiting after any run |
| `WaitRuns.ExactIff` | kernel/waitqueue.c:137-213 | the 64-bit comparison fires first at tick start + n exactly under the stated condition |
| `WaitRuns.ExpiryDue` | kernel/waitqueue.c:205-213 | in any run where nobody wakes it, a wait of n ticks goes on, and the next tick ends it exactly when it is the n-th |
| `WaitRuns.TimedWaitExpires` | kernel/waitqueue.c:123-154 | in any run where nobody wakes it, a wait of n ticks is released by the n-th tick, with -1, and not before |
| `WaitRuns.TimedWaitExactIff` | kernel/sleep.c:19-23 | it expires at tick start + n and not before if and only if the sum does not wrap, or the counter wraps next |
| `WaitRuns.WaitForever` | kernel/waitqueue.c:137-212 | a wait whose sum is exactly 2^64 stores 0 and no tick ever ends it |
| `WaitRuns.SleepsForever` | kernel/sleep.c:19-23 | for example a task that waits at tick 1 for 2^64 - 1 ticks |
| `WaitOrder.RunOrder` | kernel/waitqueue.c:64-93 | in every run: if entry i stands before j, no waker takes j while i waits, and while both wait they keep their order |
| `WaitOrder.FirstComeFirstServed` | kernel/waitqueue.c:95-180 | a task that starts to wait behind entry i is not woken by a waker as long as i waits |
| `WaitOrder.ReasonKept` | kernel/waitqueue.c:150-153 | through every run the reason a task was woken with stays until it reads it |
| `WaitOrder.TimedWaitResult` | kernel/waitqueue.c:123-154 | what wq_wait_timeout returns in every run: 0 if a waker ended the wait, -1 if the n-th tick did, and it waits until one of them does |
| `Futex.ActiveFrom` | kernel/futex.c:37-42 | the first active slot of the address, or none |
| `Futex.FindSlotKeeps` | kernel/futex.c:34-50 | find-or-create changes nobody's waiters, keeps addresses distinct and idle slots empty, and fails exactly when the address has no slot and none is free |
| `Futex.CleanKeeps` | kernel/futex.c:53-57 | late clean-up changes nobody's waiters |
| `Futex.EnterRefines` | kernel/futex.c:59-84 | a wait that queues appends to the waiters of its address and of no other; a mismatch or a full table queues nobody |
| `Futex.EnterQueuesIff` | kernel/futex.c:59-84 | a call goes on to the wait if and only if both reads found the expected value and the address has a slot or some slot is idle |
| `Futex.CleanFrees` | kernel/futex.c:53-57 | clean-up gives the slot back exactly when nobody waits on it, and leaves the other slots alone |
| `Futex.WakeUpRefines` | kernel/futex.c:122-142 | wakes min(count, waiters), removes exactly that prefix of that address, and returns the number |
| `Futex.WakeUpTasks` | kernel/futex.c:132-136 | the tasks made ready are exactly those of that prefix |
| `Futex.TickRefines` | kernel/waitqueue.c:205-229 | a tick removes exactly the expired waiters of every address |
| `Futex.OtherRefines` | kernel/futex.c:59-142 | other waiting and waking leaves every address's waiters alone |
| `Futex.FStepKeeps` | kernel/futex.c:34-142 | every interleaving of waits, wakes, ticks and clean-ups keeps the table: distinct active addresses, idle slots without waiters |
| `Futex.FRun` | kernel/futex.c:34-142 | and so does every run |
| `Futex.FInitInv` | kernel/futex.c:23-31 | after futex_init the table is in order and no address has waiters |
| `Futex.FReached` | kernel/futex.c:23-142 | so it is in every state reached from there |
| `Futex.AlwaysWakesFirst` | kernel/futex.c:23-142 | in every run from futex_init: active addresses are distinct, idle slots have no waiters, and futex_wake removes and readies exactly the first min(count, waiters) of that address |
| `FutexCalls.EnterEffect` | kernel/futex.c:59-114 | for a running task: if the call goes on and the pool has room the task is blocked with reason 0 and is the last waiter of its address with its timeout, and nothing else changes; otherwise nobody is touched |
| `FutexCalls.AlwaysBlocksIff` | kernel/futex.c:23-114 | the same as a theorem on runs from futex_init, timed or not: blocked afterwards if and only if both reads match, a slot is there and the pool has room |
| `FutexCalls.WakeFreesSlot` | kernel/futex.c:122-142 | after futex_wake the address still has a slot exactly when waiters remain |
| `Futex.FutexTable.constructor` | kernel/futex.c:23-31 | sixteen idle slots with empty queues, the state that futex runs start from |
| `Futex.FutexTable.Find` | kernel/futex.c:34-50 | the single loop finds the slot of the address, or activates the lowest free one |
| `Futex.FutexTable.MaybeFree` | kernel/futex.c:53-57 | deactivates the slot exactly when its queue is empty |
| `Futex.FutexTable.WaitUntilBlocked` | kernel/futex.c:59-84 | queues the caller if and only if both reads match and a slot is found, and computes the entering function of which EnterEffect says what it does, timed or not |
| `Futex.FutexTable.Wake` | kernel/futex.c:122-142 | the counting loop ends and computes the waking function |
| `RingWrap.RingsHoldIff` | kernel/virtio.c:305-357 | every run from a fresh queue keeps all unread elements of both rings, across every wrap, if and only if the size divides 65536 |
| `RingWrap.LosesElement` | kernel/virtio.c:319-322 | for any other size: the run that brings the indices to the last multiple of the size and pushes across the wrap overwrites an unread element |
| `Virtqueue.RingSafeIff` | kernel/virtio.c:319-343 | the index arithmetic behind it: indices less than num apart have different places if and only if num divides 65536 |
| `Virtqueue.HoldsAppend` | kernel/virtio.c:319-322 | writing the next slot keeps all unread slots |
| `Virtqueue.PushRefines` | kernel/virtio.c:305-324 | push moves the head of the free list to the end of the available sequence, or does nothing when it is empty |
| `Virtqueue.PushWrites` | kernel/virtio.c:305-324 | the descriptor that becomes last in the available sequence has exactly the address, length and flags passed; every other descriptor, the device's memory and the used ring are unchanged |
| `Virtqueue.HasUsedIff` | kernel/virtio.c:332-336 | the 16-bit index comparison is true exactly when a completion is unread |
| `Virtqueue.PopRefines` | kernel/virtio.c:338-357 | pop yields the oldest completion and puts its descriptor on the free list |
| `Virtqueue.TakeRefines` | kernel/virtio.c:319-323 | the device finds the oldest available descriptor in its slot |
| `Virtqueue.CompleteRefines` | kernel/virtio.c:335-347 | a completion goes to an unoccupied used slot |
| `Virtqueue.FreshRepresents` | kernel/virtio.c:137-156 | the initial free list holds every descriptor and ends in 0xFFFF |
| `Virtqueue.CensusSize` | kernel/virtio.c:305-357 | free, available, held and used descriptors together number num |
| `Virtqueue.StepKeeps` | kernel/virtio.c:305-357 | every step keeps each descriptor in exactly one of the four places, the free list acyclic, and both rings faithful |
| `Virtqueue.Run` | kernel/virtio.c:305-357 | and so does every interleaving |
| `Virtqueue.LegacyLayout` | kernel/virtio.c:118-124 | the used ring starts page-aligned after the available ring and ends within the allocated pages |
| `VirtioInput.InputStepKeeps` | kernel/virtio_input.c:193-233 | every step keeps each in-flight descriptor d pointing at bufs[d] with length EVENT_SIZE and the device-writable flag, and each unread buffer holding what the device wrote |
| `VirtioInput.InputRun` | kernel/virtio_input.c:205-233 | in every run the events delivered are a prefix of those completed, in order and with the device's data |
| `VirtioInput.PoppedBufferKept` | kernel/virtio_input.c:217-222 | between the pop and the handler's read the device cannot change the popped buffer |
| `VirtioInput.LongEnoughIs` | kernel/virtio_input.c:216-219 | the completions handled are those of at least EVENT_SIZE bytes, as often as they occur, and no others |
| `VirtioInput.VirtqDriver.constructor` | kernel/virtio.c:137-158 | sets up the free list of all descriptors for any size; the queue is in order if the size divides 65536 |
| `VirtioInput.VirtqDriver.VirtqPushBuf` | kernel/virtio.c:305-324 | the stores compute the push function and give the head descriptor exactly the address, length and flags passed, no other descriptor changing them |
| `VirtioInput.VirtqDriver.VirtqHasUsed` | kernel/virtio.c:332-336 | answers whether a completion is unread |
| `VirtioInput.VirtqDriver.VirtqPopUsed` | kernel/virtio.c:338-357 | the stores compute the pop function; -1 and no change when nothing is unread |
| `VirtioInput.VirtqDriver.RefillEventQueue` | kernel/virtio_input.c:193-203 | establishes the pairing, with the first min(16, num) descriptors available, each with its own buffer of EVENT_SIZE bytes that the device may write |
| `VirtioInput.VirtqDriver.DrainEvents` | kernel/virtio_input.c:205-233 | with a device working before each test, each read and each push: leaves no completion unread, handles exactly the long enough ones in order, keeps the pairing |
| `VirtioInput.VirtqDriver.DrainOne` | kernel/virtio_input.c:216-228 | one round delivers the oldest completion with the data the device wrote, whatever the device does meanwhile |
| `Scheduler.NextIsFirst` | kernel/sched.c:34-42 | the search yields the ready task nearest in cyclic order, and none only if none is ready |
| `Scheduler.PicksItselfIff` | kernel/sched.c:72-77 | the search yields the task it comes from exactly when a waker has made that task ready and no other is ready |
| `Scheduler.NextChoice` | kernel/sched.c:34-42 | the search yields a ready task with no ready one nearer, and -1 exactly if none is ready |
| `Scheduler.ScheduleSwitches` | kernel/sched.c:25-94 | the processor goes on with the nearest ready task, which runs, or idles if there is none; the task it leaves is ready if it was running and otherwise as it was; no other task and no other processor changes |
| `Scheduler.YieldEffect` | kernel/sched.c:25-94 | after a yield the former task is ready and the processor has another one or idles |
| `Scheduler.BlockEffect` | kernel/sched.c:25-94 | after a task blocks itself it is blocked, and the processor goes on without it |
| `Scheduler.BlockWokenEffect` | kernel/sched.c:72-94 | a task woken before it schedules is running if the processor picks it again and ready if not |
| `Scheduler.ExitEffect` | kernel/task.c:26-37 | after an exit the former task is dead and no longer counted |
| `Scheduler.WakeAndCreateEffect` | kernel/task.c:59-133 | a wake-up makes that task ready if it was blocked, a creation the lowest dead slot if there is one and memory suffices; all other tasks and all processors stay |
| `Scheduler.StepKeepsBlocked` | kernel/sched.c:25-94 | a blocked task stays blocked in every step but its own wake-up |
| `Scheduler.BlockedUntilWoken` | kernel/sched.c:25-94 | in every run a task that blocked itself is still blocked as long as it is not woken |
| `Scheduler.ScheduleKeeps` | kernel/sched.c:25-94 | after leaving by yield, block, block with an early wake-up, or exit, running tasks are again exactly the current ones, one processor each |
| `Scheduler.CreateKeeps` | kernel/task.c:59-133 | a dead slot that is reused is current on no processor |
| `Scheduler.StepKeeps` | kernel/sched.c:25-94 | every step on any processor keeps: running exactly when current somewhere, no task current twice, the counter equal to the live tasks |
| `Scheduler.Run` | kernel/sched.c:25-94 | so does every interleaving on any number of processors |
| `Scheduler.InitInv` | kernel/task.c:39-57 | it holds after task_init |
| `Scheduler.ScheduleCloser` | kernel/sched.c:27-42 | a schedule call that passes over a ready task moves strictly closer to it round the table |
| `Scheduler.GapShrinks` | kernel/sched.c:60-81 | whatever other processors do, the calls of one processor are bounded by that distance |
| `Scheduler.BoundedBypass` | kernel/sched.c:27-42 | a task that stays ready is passed over by one processor fewer than MAX_TASKS times |
| `Scheduler.TaskTable.FindReady` | kernel/sched.c:34-42 | the loop finds the first ready task round the table |
| `Scheduler.TaskTable.ScheduleOn` | kernel/sched.c:25-94 | schedule() in place computes the schedule function, and switches to the nearest ready task as ScheduleSwitches says |
| `Scheduler.TaskTable.TaskExit` | kernel/task.c:26-37 | marks dead, counts down, schedules, keeps the invariant |
| `Scheduler.TaskTable.TaskCreate` | kernel/task.c:59-133 | takes a dead slot that is current nowhere; without slot or memory nothing changes |
| `TicketLock.StepKeeps` | kernel/spinlock.h:25-50 | outstanding tickets are owner..next-1 modulo 2^32 in arrival order; only the first may be inside |
| `TicketLock.Run` | kernel/spinlock.h:25-50 | in every interleaving, across wrap-around |
| `TicketLock.MutualExclusion` | kernel/spinlock.h:25-50 | at most one processor is inside |
| `TicketLock.TicketsDistinct` | kernel/spinlock.h:29-39 | outstanding tickets differ |
| `TicketLock.MovesUp` | kernel/spinlock.h:46-50 | each release moves every waiter up by one, nothing else does |
| `TicketLock.ServedIffFirst` | kernel/spinlock.h:41-43 | the spin ends exactly for the first in line |
| `TicketLock.WaitingTime` | kernel/spinlock.h:41-50 | a waiter may enter after exactly (ticket - owner) mod 2^32 releases |
| `TicketLock.TooManyProcessors` | kernel/spinlock.h:12-15 | with more processors than tickets two get in |
| `TicketLock.ExclusiveIff` | kernel/spinlock.h:25-50 | every run is exclusive if and only if there are at most as many processors as tickets |
| `TicketLock.SpinLock.FetchTicket` | kernel/spinlock.h:29-39 | hands out next and increments it modulo 2^32 |
| `TicketLock.SpinLock.Served` | kernel/spinlock.h:41-43 | the test succeeds exactly for the first in line |
| `TicketLock.SpinLock.Release` | kernel/spinlock.h:46-50 | increments owner modulo 2^32 |
| `Tetris.LockOverwritesNothing` | games/tetris.c:69-79 | locking a piece that fits never overwrites a filled cell |
| `Tetris.ClearedOk` | games/tetris.c:81-101 | after clearing no row is full |
| `Tetris.ClearedCells` | games/tetris.c:81-101 | clearing removes exactly ten cells per full row |
| `Falling.ClearedRow` | games/tetris.c:81-101 | a row that is not full moves down by the number of full rows below it |
| `Tetris.LockFillsAtMostFour` | games/tetris.c:69-79 | locking fills at most four rows, so the score index is in range |
| `Tetris.DropTo` | games/tetris.c:146-149 | a hard drop ends at the first height below which the piece does not fit |
| `Tetris.KeyKeeps` | games/tetris.c:132-150 | keys keep the game invariant and the board |
| `Tetris.KeyCases` | games/tetris.c:132-150 | each arrow key moves or turns the piece by one if it fits there, space drops it, every other key and every key after the end does nothing |
| `Tetris.PieceBitIs` | games/tetris.c:48-52 | cell (r, c) of a piece is bit 15 - 4r - c of its mask |
| `Tetris.DrawDistinct` | games/tetris.c:33-38 | the random generator never takes two states to one |
| `Tetris.TickKeeps` | games/tetris.c:152-176 | a tick keeps it: no full row, the piece fits unless the game is over, the piece no higher than the row above the board, counters agree |
| `Tetris.Run` | games/tetris.c:132-176 | so does every sequence of keys and ticks |
| `Tetris.InitKeeps` | games/tetris.c:114-130 | it holds after tetris_init |
| `Falling.InitEffect` | games/tetris.c:114-130 | a new game has an empty board, zero score, level 1, interval 50 and a first piece that fits |
| `Falling.CellsFilled` | games/tetris.c:69-101 | the count of cells is the size of the set of filled positions |
| `Falling.LockAdds` | games/tetris.c:69-79 | locking a piece that fits adds exactly its cells on the board to the filled ones, none of which was filled |
| `Falling.TickEffect` | games/tetris.c:152-176 | a tick does something exactly when the game is on and the interval is over; then the piece goes down one row and nothing else changes, exactly when it fits there, or it is locked: cells are the old ones plus the piece's minus ten per full row, lines, score, level, interval, next piece and end of game follow |
| `Falling.ElapsedIff` | games/tetris.c:156-157 | the truncated difference of the clocks is the time elapsed exactly below 2^31 ticks |
| `Falling.PieceLands` | games/tetris.c:132-176 | a piece left alone falls one row per effective tick to where the space key would have put it, at most BOARD_H rows, and the next effective tick locks it there |
| `Falling.LandsWithin` | games/tetris.c:152-176 | any run with more effective ticks than that has locked it, at the tick given |
| `Tetris.TetrisGame.FitsAt` | games/tetris.c:54-67 | the loops decide whether every cell of the piece is free |
| `Tetris.TetrisGame.LockPiece` | games/tetris.c:69-79 | the loops colour exactly the covered cells on the board |
| `Tetris.TetrisGame.ClearLines` | games/tetris.c:81-101 | ends although it re-examines rows, returns the number of full rows, and leaves the others in order below empty rows |
| `Tetris.TetrisGame.SpawnPiece` | games/tetris.c:103-112 | brings the next piece, game over exactly when it does not fit |
| `Tetris.TetrisGame.PressKey` | games/tetris.c:132-150 | computes the key function and keeps the invariant |
| `Tetris.TetrisGame.Tick` | games/tetris.c:152-176 | computes the tick function, of which TickEffect says what it does, and keeps the invariant |
| `Tetris.TetrisGame.constructor` | games/tetris.c:114-130 | starts a game that meets the invariant |
| `Gpu.RenderBelow` | kernel/gpu.c:85-191 | where calls paint, what was below does not matter; where they do not, it stays |
| `Gpu.DrawAllPixel` | kernel/gpu.c:85-191 | a buffer element after a list of calls is the pixel that the calls render at its coordinates |
| `Gpu.IndexUnique` | kernel/gpu.c:79-83 | y * width + x names one pixel and stays inside the buffer |
| `Gpu.TextPainted` | kernel/gpu.c:143-150 | a string paints one box, 8 by 16 pixels per character |
| `Gpu.TextPixel` | kernel/gpu.c:127-150 | pixel (i, j) of the k-th character is bit 7 - i of row j of its glyph; characters outside 32 to 126 show the glyph of the space |
| `Gpu.PixelOf` | kernel/gpu.c:127-191 | a character shows its glyph, the highest bit leftmost, and a blit its source, in their box and nowhere else |
| `Gpu.Target.Pixel` | kernel/gpu.c:79-83 | sets one pixel if it is on the target, and nothing else |
| `Gpu.Target.FillRect` | kernel/gpu.c:85-98 | the clipped loops change exactly the pixels of the rectangle that are on the target |
| `Gpu.Target.HLine` | kernel/gpu.c:108-116 | equals a filled rectangle one pixel high |
| `Gpu.Target.VLine` | kernel/gpu.c:118-125 | equals a filled rectangle one pixel wide |
| `Gpu.Target.Clear` | kernel/gpu.c:73-77 | equals filling the whole target |
| `Gpu.Target.DrawChar` | kernel/gpu.c:127-141 | draws the glyph's foreground and background in its 8 by 16 box, clipped |
| `Gpu.Target.DrawString` | kernel/gpu.c:143-150 | draws the glyphs side by side |
| `Gpu.Target.BlitFrom` | kernel/gpu.c:178-191 | copies source pixels to their places, clipped |
| `WindowManager.TopAt` | kernel/wm.c:340-349 | the front-most visible window containing the point, or none |
| `WindowManager.RoomInOrder` | kernel/wm.c:91-93 | with a free slot, z_order has room for one more |
| `WindowManager.FocusKeeps` | kernel/wm.c:163-187 | focusing keeps the invariant, puts the window on top and the others stay in order |
| `WindowManager.CreateKeeps` | kernel/wm.c:46-101 | creation keeps the invariant, puts the window on top, and fails exactly without slot or memory |
| `WindowManager.DestroyKeeps` | kernel/wm.c:103-135 | destruction keeps the invariant and takes the window out of the z-order |
| `WindowManager.DragKeeps` | kernel/wm.c:300-314 | dragging keeps the invariant and the title bar between the top edge and the taskbar |
| `WindowManager.MouseKeeps` | kernel/wm.c:293-374 | mouse input keeps the invariant |
| `WindowManager.StepKeeps` | kernel/wm.c:46-374 | every call keeps: z-order a duplicate-free list of exactly the visible windows, the sole focused one last, at most one dragged |
| `WindowManager.Run` | kernel/wm.c:36-374 | so does every run |
| `Compositor.WindowPainted` | kernel/wm.c:207-235 | the pixels draw_window writes, part by part |
| `Compositor.PaintsItsRectangleIff` | kernel/wm.c:207-235 | a window paints exactly its hit rectangle if and only if title and close button fit |
| `Compositor.PanesWriter` | kernel/wm.c:282-287 | among the windows the last writer is the one the hit test finds |
| `Compositor.TaskbarPainted` | kernel/wm.c:239-270 | the taskbar paints exactly the rows from 456 on |
| `Compositor.ClickHitsLastWriter` | kernel/wm.c:272-371 | for every pixel the last write is the taskbar's in its rows, above it that of the window a click selects, else the desktop's |
| `Compositor.ScreenShowsHitWindow` | kernel/wm.c:272-371 | the pixel shown there is the one that window draws on its own |
| `Compositor.ClientPixel` | kernel/wm.c:229-234 | in the client area that is the content buffer |
| `Compositor.ClickedWindowIsSeen` | kernel/wm.c:340-371 | a click that reports a window shows that window under the mouse, and raises it without reordering the others |
| `Compositor.FrontWindowWrites` | kernel/wm.c:282-287 | whatever the front window paints above the taskbar is seen, inside its rectangle or not |
| `Compositor.NarrowWindowMisses` | kernel/wm.c:221-225 | a window of content width 1 paints its close button where a click finds the desktop |
| `Compositor.MatchesIff` | kernel/wm.c:207-371 | clicks select what the screen shows in every arrangement of the windows if and only if every visible window fits its title and close button |
| `WindowEffects.FocusEffect` | kernel/wm.c:163-187 | focusing a shown window focuses it alone and moves it to the front; nothing else changes |
| `WindowEffects.WithoutOrder` | kernel/wm.c:176-186 | taking a window out of the z-order keeps the order of any two others |
| `WindowEffects.CreateEffect` | kernel/wm.c:46-101 | a new window takes the lowest free slot, with the place and size asked for, 31 characters of the title and a black content, focused in front; a failed call shows nothing and leaves the shown windows alone |
| `WindowEffects.DestroyEffect` | kernel/wm.c:103-135 | a destroyed window is hidden and without content; the others keep their order and the front-most is focused |
| `WindowEffects.WindowClick` | kernel/wm.c:339-371 | a press above the taskbar that hits window id brings it to the front and returns -(id+100) exactly on the box drawn for the close button; elsewhere in the title rows -1 with id alone held at that point, below them id |
| `WindowEffects.CloseButtonIff` | kernel/wm.c:222-226 | of the pixels drawn for the close button exactly the bottom row of the cross does not close the window but starts a drag |
| `WindowEffects.DrawnPartClicked` | kernel/wm.c:217-234 | a press on the drawn content reports the window, one on the drawn title bar outside the box holds it |
| `WindowEffects.DesktopClick` | kernel/wm.c:373-373 | a press above the taskbar that hits no window does nothing |
| `WindowEffects.IdleMouse` | kernel/wm.c:316-317 | without a press and without a drag only the buttons are noted |
| `WindowEffects.DragEffect` | kernel/wm.c:299-314 | a held window follows the mouse up to the clamp while the button is down and stays when it is released; nothing else changes |
| `WindowEffects.AlwaysHeld` | kernel/wm.c:293-374 | in every run from wm_init a window is held only while the left button is down |
| `WindowEffects.DragRun` | kernel/wm.c:299-314 | after any moves with the button down the window is where the last one put it, whatever came between |
| `WindowEffects.DragGesture` | kernel/wm.c:293-374 | a whole drag, from press to release: the window has moved by as much as the mouse up to the clamp, is in front and not held; the others stay |
| `WindowEffects.ButtonsDrawn` | kernel/wm.c:249-266 | the taskbar buttons cover exactly the columns given by the widths of the titles, four pixels apart, on twenty rows |
| `WindowEffects.ButtonFound` | kernel/wm.c:322-335 | the walk finds the window in whose button the column lies, and none beside the buttons |
| `WindowEffects.TaskbarClick` | kernel/wm.c:319-337 | a press on the taskbar brings the window to the front whose button is drawn over that column and moves no other; -2 on the start button; nothing beside the buttons |
| `Highlight.TitleShowsFocus` | kernel/wm.c:217-219 | on the screen the second row of a title bar has the focus colour if the window is the front-most, the other colour if not |
| `Highlight.ButtonShowsFocus` | kernel/wm.c:260-261 | the same for the taskbar buttons |
| `Windows.WindowTable.constructor` | kernel/wm.c:36-44 | no windows |
| `Windows.WindowTable.FocusWindow` | kernel/wm.c:163-187 | the loops over windows and z_order compute the focus function |
| `Windows.WindowTable.Raise` | kernel/wm.c:182-186 | the shifting loop moves one element to the end |
| `Windows.WindowTable.CreateWindow` | kernel/wm.c:46-101 | computes the creation function and keeps the invariant |
| `Windows.WindowTable.Unlist` | kernel/wm.c:121-129 | the shifting loop removes the window from z_order |
| `Windows.WindowTable.DestroyWindow` | kernel/wm.c:103-135 | computes the destruction function |
| `Windows.WindowTable.FindHit` | kernel/wm.c:340-349 | the search from the front computes the hit test |
| `Windows.WindowTable.FindButton` | kernel/wm.c:321-336 | the walk along the taskbar finds the button under the column |
| `Windows.WindowTable.HandleMouse` | kernel/wm.c:293-374 | computes the mouse function, of which WindowClick, DragEffect and TaskbarClick say what it does, and keeps the invariant |
| `Screen.DrawRect` | kernel/gpu.c:100-106 | draws the four edges |
| `Screen.DrawWindow` | kernel/wm.c:207-235 | the calls make the picture of the window |
| `Screen.DrawTaskbar` | kernel/wm.c:239-270 | the calls make the picture of the taskbar |
| `Screen.WmComposite` | kernel/wm.c:272-291 | afterwards the frame buffer is the composite's list of calls rendered over what was there |
| `Screen.FrameShowsContent` | kernel/wm.c:229-371 | in that frame buffer a client pixel of the window a click selects holds that window's content |

## Left out

- Hardware: boot code, exception vectors, MMU and TLB registers, barriers, WFE and SEV, starting processors; `context_switch` only changes which task is current.
- Weak memory: critical sections and single atomic operations are steps; the lock's assembly loop is one atomic fetch-and-increment.
- The window between releasing a lock and the next critical section in `schedule`, `futex_wait` and `futex_wake`, as said above, and in `page_alloc` between unlocking and zeroing (kernel/mm.c:71-76).
- Interrupt handling, console and frame-buffer plumbing, device probing and feature negotiation, `virtq_setup_modern`, and devices that do not conform to the specification.
- VirtioInput.VirtqDriver.constructor: takes sizes from 1 to 65535; the code would truncate a larger one to 16 bits (kernel/virtio.c:154).
- `virtq_kick` and the key ring and mouse state behind the input handlers.
- Task teardown by `task_destroy` and by the exit system call (kernel/syscall.c:79-87); exiting is `task_exit_handler`. Names, stacks and contexts of tasks.
- Message passing and capabilities (kernel/ipc.c, kernel/cap.c): only small facts are left there.
- Linux shims, drivers, the other games, formatted printing and the desktop around the window manager: lookups, drawing and single-branch code whose properties would repeat their bodies.
- C integer overflow of scores, window coordinates and sizes; wrap-around is modelled for ticks, tickets, ring indices, descriptors and the random generator.
- Window content buffers are values: whether `pages_alloc` succeeds for them is a parameter, and their pages are not tied to the allocator's set. The mouse cursor, `gpu_flip` and the drawing of games are not modelled.
- Pointers to queues, futex words and tables are numbers; the two reads of a futex word are parameters.
- Tetris rows are copied whole where the code copies them cell by cell; `tetris_init` reads the clock once where the code reads it twice.
