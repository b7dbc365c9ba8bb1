# Horizon kernel: verified models

Horizon is a small 32-bit x86 kernel written in C. This project models the parts of it that carry real
state, and proves what they promise for every input, every run and every interleaving:

- `RwLocks`, `RwCalls` - read-write locks over a test-and-set spinlock, for any number of threads. Every
  access to shared memory is its own step; both debug settings are covered. Any interleaving is a
  schedule. The second module says when a call returns, and with what result.
- `CrossCalls`, `CallReturns`, `CallProgress` - functions called on other CPUs through a per-CPU queue of
  records that live on the caller's stack. `done++` is a load and a later store; interrupts may come at
  any time they are not masked. The last two modules say exactly when a call can return at all.
- `PageFrames`, `PageTables`, `AddressSpaces`, `Vmm` - the bitmap page allocator, the two-level page
  tables on top of it (32-bit paging, section 4.3 of volume 3A of the Intel Software Developer's Manual),
  and the life of an address space. Physical memory is modelled word by word, so a page table that is
  not clean, or a frame used twice, shows in the translation.
- `BootMemory` - the boot memory map, split around the kernel and the modules, and the early allocator.
- `Lists`, `WaitQueues` - intrusive circular lists as raw `next` and `prev` fields, and the wait queues
  built on them.
- `SlabPages`, `SlabCaches`, `FreshSlabs` - objects in a slab page, the freelist threaded through them,
  the three lists of a slab cache, on the same list nodes, and what a cache does from its creation on.
- `RingBuffers` - the byte queue of the tracer, which the profiler has too (kernel/profile.c).
- `InputDevices`, `Ext2Inodes`, `Shell`, `FdTables` - the device and handler registry, inode access, the
  shell's tokenizer and line buffer, and the growing descriptor table. `Common` holds what modules share.

Each module has the same shape. Functions over values say what one call or one step does, branch by
branch as the C code does it. Lemmas say what follows for whole runs, against an independent view: a
partial map for page tables, sequences of entries for wait queues, a byte queue for the ring buffer,
what every thread holds for the locks. Where the C code works in place there is a class whose methods do
the same, with the same loops, and are proved to reach the state that the functions give.

Machine arithmetic is written out wherever it can matter: sums modulo 2 to the power of 32, the wrap of
the lock counters and of `page + i` in `mm_free_pages`, the rounding in `kmalloc` and in the slab sizes.
Where a property fails on some inputs, a lemma gives the exact condition under which it holds, and
another an input or a run on which it fails:

- `contention_count <= held_count`: `OrderedIffNoWrap` and `SpinOrderedIffNoWrap`, and `OutOfOrder` and
  `SpinOutOfOrder`.
- No use of a call record after the call: `SafeIffAllWait`, and `TakesDangling` inside it.
- A waiting call can return: `CanReturnIffNotDoomed` and `NewCallReturnsIffNoDeadlock`, and `ReachesStranded`, `ReachesLost`,
  `ReachesDeadlock` and `ReachesGridlock`.
- A map changes one page: `MapPageExact`, and `DirtyTableMapsOtherPages`.
- `kfree` undoes `kmalloc`: `KfreeRestoresIffOnePage`, and `KfreeLeavesSecondPage`.
- A reservation loses no memory: `CoverKeptIffFits`, and `CrowdLosesMemory`.
- The early allocator serves the whole of its region: `WholeRegionIffBelowTop`.
- A backspace takes back the last character: `BackspaceUndoesIffRoom`.
- Early blocks lie in the allocator's region: `GrantedInsideIffNoWrap` and `PlacedIffNoGrantWraps`, and
  `GrantWraps`.
- The free list of slabs stays a list: `FreeListKeptIffNotFresh`, and `NewCacheExact` and
  `ExhaustionFaults` for what that does to a cache.
- Shrinking ends: `ShrinkFaultsIffSlab`, and `ShrinkOfOneFaults`.
- Slab objects fit: `FitsIffOneFits`, and `LargeCachesDoNotFit` and `HugeSizeDividesByZero`.
- No inode straddles a block: `NoneStraddlesIff`, and `OddBlockStraddles`.
- Connected pairs are those registered: `StepKeepsExactIff`, and `StrayRemoval`.
- Copies stay in the ring buffer: `WriteAppendsIffNoWrap`, `ReadRemovesOldestIffNoWrap` and
  `InBoundsIffHalfRange`, and `LargeRunOverruns`.

What the models take as given:

- `mm_alloc_pages` does not clear pages although its callers pass `MEM_ZERO`; what needs clean page
  tables says so (`FreshTableClean`, `FreeFramesClean`), and `MapPageExact` shows the need is exact. The
  counters of a slab cache start at zero for the same reason.
- Page table entry flags fill 12 bits, and alignments are powers of two.
- Threads start cross-CPU calls with interrupts on, threads of a CPU may be switched whenever its
  interrupts are on, and functions called in a handler start no calls. Which CPU an interrupt comes to,
  and when, is open, so sending one (kernel/smp.c:223-228) is no step.
- Callers keep their side: threads unlock what they hold, blocks and objects are freed once by their
  holder, wait queue entries are initialised and not re-initialised while queued, devices and handlers
  are registered once.
- `list_del_init`, which `kernel/wait.c` uses and no header defines, unlinks a node and makes it a list
  of its own.

## Model

| member | source | states |
|---|---|---|
| `RwLocks.RunKeepsInv` | kernel/rwlock.c:21-325 | the protocol invariant holds after every schedule: one thread inside the spinlock, `readers` and `writer` equal to what threads hold, each program point's own assertion |
| `RwLocks.RunExcludes` | kernel/rwlock.c:21-325 | in every interleaving of any number of threads a writer excludes all readers and all other writers, `readers` is the number of read sections, and the spinlock is held exactly while one thread is inside it; `RwCalls.LockReturnsIffNotExcluded` says when a call gets in |
| `RwLocks.CompletedCalls` | kernel/rwlock.c:81-325 | a lock call that has returned holds the lock, an unlock gave it back (its guard against an unheld lock never fires), a trylock took it just when it returned 1 |
| `RwLocks.TryFailsIffConflict` | kernel/rwlock.c:81-285 | a trylock gives up exactly when, at one of its tests, some thread is in a section that excludes it |
| `RwCalls.LockRetriesIffExcluded` | kernel/rwlock.c:21-228 | a lock call goes back to wait exactly when, at its test of `writer`, some thread is in a write section, or, at write_lock's test of `readers`, in a read section |
| `RwCalls.CallAloneReturns` | kernel/rwlock.c:21-325 | in every reachable state with the spinlock free, a call whose thread is stepped alone returns: an unlock has given back one section, a trylock has succeeded exactly when no thread was in a section that excludes it, and a lock call holds the lock if none was; no other thread changes |
| `RwCalls.LockReturnsIffNotExcluded` | kernel/rwlock.c:21-228 | a lock call stepped alone returns if and only if no thread is in a section that excludes it, and else waits however often it is stepped |
| `RwLocks.FieldsChangeUnderSpinlock` | kernel/spinlock.c:21-176 | `readers`, `writer` and all four counters change only in steps of the thread that holds the spinlock before and after |
| `RwLocks.CountersExact` | kernel/spinlock.c:45-55 | in debug builds the counters are exactly the acquisitions and the contended acquisitions, modulo 2 to the power of 32, whenever the spinlock is free |
| `RwLocks.ContentionWithinHeld` | kernel/rwlock.c:43-48 | at every moment `contention_count <= held_count` while fewer than 2 to the power of 32 acquisitions were made |
| `RwLocks.OutOfOrder` | kernel/rwlock.c:43-48 | a run of exactly 2 to the power of 32 acquisitions, one of them contended, after which `held_count` is 0 and `contention_count` is 1 |
| `RwLocks.SpinOutOfOrder` | kernel/spinlock.c:45-55 | the same for the counters of the spinlock itself |
| `RwLocks.SpinOrderedIffNoWrap` | kernel/spinlock.c:45-55 | for those counters too the order holds in all runs of at most n acquisitions if and only if n is below 2 to the power of 32 |
| `RwLocks.OrderedIffNoWrap` | kernel/rwlock.c:43-48 | `contention_count <= held_count` holds in all runs of at most n acquisitions if and only if n is below 2 to the power of 32 |
| `CrossCalls.FillMask` | kernel/smp.c:202-206 | the loop leaves in the mask exactly the online CPUs below NR_CPUS other than the caller |
| `CrossCalls.CallAllEnters` | kernel/smp.c:186-211 | a call to all others is invalid exactly without a function, is published exactly when some other CPU below NR_CPUS is online, to exactly those CPUs, and is void otherwise |
| `CrossCalls.CallOneEnters` | kernel/smp.c:250-276 | exactly which arguments make a call to one CPU invalid, refused as offline, run on the spot, or published to exactly that CPU |
| `CrossCalls.BeginExact` | kernel/smp.c:186-276 | what beginning a call does to the state for each of these: one new record with exactly that mask, one run on the caller's CPU, or nothing |
| `CrossCalls.MaskIsReported` | kernel/smp.c:186-300 | a record keeps its mask and its wait flag until its own initiator returns, and the outcome is that of this mask |
| `CrossCalls.MaskInRange` | kernel/smp.c:186-281 | every published mask, exactly given by `CallAllEnters` and `CallOneEnters`, is a nonempty set of online CPUs without the caller, inside the part of the queue its loop covers |
| `CrossCalls.ReturnIsComplete` | kernel/smp.c:231-236 | the spin loop ends only when the CPUs that finished are all of the mask and each ran the function once, although increments of `done` may be lost |
| `CrossCalls.RunKeepsInv` | kernel/smp.c:186-441 | the protocol invariant over all runs in which callers wait: slots and handlers refer to live records, one pending use per CPU, `done` never above the number of CPUs finished |
| `CrossCalls.WaitingCallsAreExact` | kernel/smp.c:186-441 | if all callers wait, every call that returned ran exactly once on each CPU of its mask, and no slot or handler refers to a record that has gone |
| `CrossCalls.SafeIffAllWait` | kernel/smp.c:230-238 | no handler ever uses a record after its call returned, if and only if every caller passes a nonzero wait flag |
| `CallReturns.StrandedIffOverwritten` | kernel/smp.c:186-441 | in any step, a CPU that has still to run a call is newly cut off from the record if and only if another initiator writes the CPU's slot while it holds that record |
| `CallReturns.LosslessIffNoRace` | kernel/smp.c:437-440 | in any step, an increment of `done` is newly lost if and only if a handler loads the count while another has loaded and not yet stored it |
| `CallReturns.RunKeepsPerCpu` | kernel/spinlock.c:21-59 | in all runs that the processors can make, a CPU runs at most one handler or one initiator in the masked loop of the spinlock, and the CPU of an initiator that holds the lock can only have come to wait for it |
| `CallReturns.ReachesStranded` | kernel/smp.c:214-221 | a run of two waiting callers to one CPU after which that CPU can no longer get the first record |
| `CallReturns.ReachesLost` | kernel/smp.c:437-440 | a run of one waiting caller to two CPUs after which both have run the function and `done` is 1 |
| `CallReturns.ReachesDeadlock` | kernel/spinlock.c:45-58 | a run in which a CPU takes the lock for a call and is then interrupted to handle another: its handler spins for the lock that its own initiator holds, and both calls are doomed |
| `CallReturns.ReachesGridlock` | kernel/spinlock.c:26-43 | a run in which both CPUs that a call is sent to spin for the lock, with interrupts masked, to write each other's slots |
| `CallReturns.StrandedNeverReturns` | kernel/smp.c:230-236 | a stranded call is still waiting in every continuation of the run |
| `CallReturns.LostNeverReturns` | kernel/smp.c:230-236 | a call that every CPU has run but whose count fell behind is still waiting in every continuation |
| `CallReturns.DeadlockLasts` | kernel/spinlock.c:21-59 | a deadlock lasts for ever and dooms every call that has still to take the lock, then or later |
| `CallReturns.DoomedNeverReturns` | kernel/smp.c:186-441 | a call with a CPU stranded, or bound to be by the holder of the lock or by CPUs that spin against each other's slots, or with an increment lost, or in need of a lock or of a CPU in a deadlock, is there in every continuation |
| `CallProgress.CanReturnIffNotDoomed` | kernel/smp.c:186-441 | in every state that runs of waiting callers reach, a call returns in some continuation if and only if it is not such a call |
| `CallProgress.NewCallReturnsIffNoDeadlock` | kernel/smp.c:186-441 | in every such state, a call begun there can return if and only if no initiator holds the lock on a CPU that waits for the lock |
| `PageFrames.NoRunBeyondFreeCount` | mm/memory.c:54-56 | the early exit is sound: no run of clear bits is longer than the free count |
| `PageFrames.AllocIsCompleteFirstFit` | mm/memory.c:49-89 | NULL exactly when the count is 0 or no run exists; else the lowest run, below 4 GiB, with exactly those bits set and the count reduced by as many |
| `PageFrames.ClearedBits` | mm/memory.c:98-111 | whatever the arguments, exactly the bits named by 32-bit arithmetic are cleared |
| `PageFrames.FreeUndoesAlloc` | mm/memory.c:49-112 | freeing what an allocation returned restores the bitmap before it |
| `PageFrames.InitDisciplined` | mm/memory.c:39-43 | after initialisation nothing is held, and a page is in use exactly if it holds a byte of the bitmap |
| `PageFrames.BitmapFits` | mm/memory.c:31-43 | the bitmap has a bit for every page with less than a byte to spare, and its pages hold its bytes with less than a page to spare |
| `PageFrames.BitmapIsNeverHandedOut` | mm/memory.c:21-112 | from initialisation on, over any run in which callers free what they hold, no block held meets the bytes of the bitmap or passes the last page, and the pages in use are exactly those of the bitmap and of the blocks held |
| `PageFrames.RunKeepsDiscipline` | mm/memory.c:49-112 | over any run in which callers free what they hold, live blocks are pairwise disjoint, in use, and never reach the reserved pages |
| `PageFrames.KfreeRestoresIffOnePage` | mm/memory.c:115-146 | kfree undoes kmalloc if and only if the block is a single page |
| `PageFrames.KfreeLeavesSecondPage` | mm/memory.c:115-146 | a block of two pages of which kfree leaves the second in use |
| `PageFrames.KmallocBounds` | mm/memory.c:115-135 | a block that kmalloc returns covers the size asked for and is no longer than all managed memory, although the rounding may wrap |
| `PageFrames.KmallocExact` | mm/memory.c:115-135 | kmalloc asks for the least number of pages that hold the size, and returns NULL exactly when there is no such run of free pages or the rounding wraps |
| `PageFrames.PageAllocator.constructor` | mm/memory.c:21-46 | a page is in use exactly if it holds a byte of the bitmap, the bitmap has just enough bytes for all pages, and the free count equals the number of clear bits |
| `PageFrames.PageAllocator.FindRun` | mm/memory.c:58-88 | one pass over the bitmap bytes finds the lowest run of free pages, or none |
| `PageFrames.PageAllocator.Alloc` | mm/memory.c:49-89 | the bytes and the address are those of complete first fit, and the count still equals the clear bits |
| `PageFrames.PageAllocator.Free` | mm/memory.c:92-112 | for any address and count the bytes are as specified and the count equals the number of clear bits |
| `PageTables.GetPhysAddrIsWalk` | mm/vmm.c:274-308 | the lookup by bit fields is the walk by page number, with the page offset carried through |
| `PageTables.MapPageExact` | mm/vmm.c:192-231 | a successful map (`MapPageSucceedsIff` says when) sets its page's translation, and changes no other page if and only if the frame it may install as a table is clean |
| `PageTables.MapPageSucceedsIff` | mm/vmm.c:192-231 | a map succeeds if and only if neither address is NULL and the page's table is there or some frame is free; the entry then holds exactly the frame and the flags |
| `PageTables.DirtyTableMapsOtherPages` | mm/vmm.c:209-219 | a state in which mapping page 1 also maps page 2 |
| `PageTables.UnmapPageExact` | mm/vmm.c:234-271 | unmap succeeds exactly on a mapped page, removes that translation and no other |
| `PageTables.PageAtIsProduct` | mm/vmm.c:128-129 | page i of a block is at the address plus i times the page size, modulo 2 to the power of 32 |
| `PageTables.VmmAllocAllOrNothing` | mm/vmm.c:117-164 | on NULL (`VmmAllocSucceedsIff` says when) every translation is as before and the free count fell by the number of new tables; on success consecutive pages, below the top of the address space, map to a fresh contiguous block of frames |
| `PageTables.VmmAllocSucceedsIff` | mm/vmm.c:117-164 | an address is returned if and only if the count is positive, the block begins above page 0, stays below the top and reads as unmapped, and there are a run of free frames for it and a further free frame for each table it still lacks |
| `PageTables.MapPagesSucceedIff` | mm/vmm.c:144-161 | the mapping loop gets through exactly when the block stays below the top and free frames cover the tables it lacks, of which it takes exactly one frame each |
| `AddressSpaces.FreeLoopAccounted` | mm/vmm.c:167-189 | freeing pages removes their translations and gives back exactly their frames |
| `AddressSpaces.AllocAccounted` | mm/vmm.c:117-164 | after an allocation, failed or not, every frame in use is an earlier one, the context's own, or the image of exactly one page, and the pages mapped are those before and those returned |
| `AddressSpaces.FreeAccounted` | mm/vmm.c:167-189 | after a free the same, and the pages mapped are those before less the pages freed, which wrap at the top of the address space |
| `AddressSpaces.CreateAccounted` | mm/vmm.c:45-66 | a new context over a clean directory maps nothing and owns two frames; a failed creation changes no bit |
| `AddressSpaces.CreateSucceedsIff` | mm/vmm.c:45-66 | a context is created if and only if two pages are free |
| `AddressSpaces.DestroyFreesOwnFrames` | mm/vmm.c:69-94 | destroying a context gives back its structure, its directory and all its tables, and nothing else |
| `AddressSpaces.DestroyRestores` | mm/vmm.c:69-94 | the bitmap from before the context is restored if and only if nothing is mapped |
| `AddressSpaces.LifeConservesFrames` | mm/vmm.c:45-189 | create, any run of alloc and free calls with failed ones and with foreign writes between them, destroy: the pages mapped at the end are exactly those callers obtained and did not free, and bitmap and free count are restored if and only if there are none |
| `AddressSpaces.RunRefinesPartialMap` | mm/vmm.c:192-271 | over any run of map and unmap the two-level structure is the partial map from pages to frames, tables stay distinct, and only frames newly taken as tables are touched outside the structure |
| `AddressSpaces.OtherContextUntouched` | mm/vmm.c:192-271 | work on one context leaves every translation of a context with other frames as it was |
| `Vmm.VirtualMemory.GetPhys` | mm/vmm.c:274-308 | the frame of the page with the offset in it, 0 for an unmapped page and for NULL arguments |
| `Vmm.VirtualMemory.Map` | mm/vmm.c:192-231 | the allocator and the words of memory reach the specified state; 0 is returned exactly for a context and addresses that are not NULL, with the table there or a page free |
| `Vmm.VirtualMemory.Unmap` | mm/vmm.c:234-271 | the same for unmap, which succeeds exactly on a mapped page and leaves it unmapped |
| `Vmm.VirtualMemory.IsAnyMapped` | mm/vmm.c:127-134 | the first loop finds out whether any page of the block is mapped |
| `Vmm.VirtualMemory.MapBlock` | mm/vmm.c:144-161 | the mapping loop goes through the specified states and stops at the first failure |
| `Vmm.VirtualMemory.UnmapFirst` | mm/vmm.c:154-157 | the rollback loop |
| `Vmm.VirtualMemory.Allocate` | mm/vmm.c:117-164 | all of vmm_alloc_pages, with its rollback; an address is returned exactly when the block is obtainable |
| `Vmm.VirtualMemory.Release` | mm/vmm.c:167-189 | all of vmm_free_pages, also on a context that loses frames of its own on the way |
| `Vmm.VirtualMemory.Create` | mm/vmm.c:45-66 | both allocations and the release of the first if the second fails; a context exactly if two pages were free |
| `Vmm.VirtualMemory.Destroy` | mm/vmm.c:69-94 | the loop over the directory and the two releases after it |
| `BootMemory.ReserveKeepsDisjoint` | mm/early.c:240-273 | a reservation keeps the regions disjoint, even when descriptors run out |
| `BootMemory.ReserveExact` | mm/early.c:240-273 | a reservation gives its kind to exactly the addresses of its range and leaves every other as it was |
| `BootMemory.CoverKeptIffFits` | mm/early.c:81-88 | a reservation loses no address if and only if the descriptors it needs fit in what the allocator has left |
| `BootMemory.CrowdLosesMemory` | mm/early.c:81-88 | a boot loader map of 170 regions for which reserving the kernel loses memory |
| `BootMemory.FirstRegionsAdded` | mm/early.c:33-39 | with descriptors of 24 bytes exactly the first 170 regions of the boot loader's map are kept |
| `BootMemory.FewRegionsBoot` | mm/early.c:28-48 | the regions of the map and two more for the kernel and for each module, 170 at most, are enough room: every descriptor of the boot phase is then allocated |
| `BootMemory.BootExact` | mm/early.c:28-48 | after the kernel and any number of modules are reserved, regions are disjoint and every address has the kind the boot loader reported, except the kernel's and the modules' |
| `BootMemory.BootKeepsCover` | mm/early.c:28-48 | the regions cover exactly the addresses they covered before the reservations |
| `BootMemory.GrantedInsideIffNoWrap` | mm/early.c:393-405 | a granted block lies in the free part if and only if neither 32-bit sum wraps |
| `BootMemory.GrantedIffRoom` | mm/early.c:393-405 | as long as no sum wraps, a request is granted if and only if the least multiple of the alignment at or above the current address, plus the size, is at most the end; the block starts at that multiple, and a refused request changes nothing |
| `BootMemory.NextGrantedIffRoom` | mm/early.c:371-410 | in any series of requests the next one is granted if and only if it fits, after alignment, between the last block granted and the end of the region, and it is granted there |
| `BootMemory.BufferedIffRoom` | mm/early.c:373-391 | the same for the static buffer, where a refused request leaves the offset aligned |
| `BootMemory.WholeRegionIffBelowTop` | mm/early.c:51-60 | the allocator is given exactly the addresses of its region if and only if the region is empty or ends below 4 GiB |
| `BootMemory.GrantWraps` | mm/early.c:393-405 | a grant of 4 GiB less one byte from a region of 15 MiB |
| `BootMemory.PlacedIffNoGrantWraps` | mm/early.c:371-410 | over any series of requests the blocks granted lie in the region, in order and apart, if and only if no request that was granted wraps |
| `BootMemory.EarlyBlocksAreFree` | mm/early.c:371-410 | after boot every early allocation (`NextGrantedIffRoom` says when it is granted) is aligned, and as long as no grant wraps it is apart from all earlier ones and made of available memory outside the kernel and all modules |
| `BootMemory.BufferBlockIsNewIffNoWrap` | mm/early.c:373-391 | a block granted in the static buffer is aligned, and inside the buffer after everything granted before it if and only if no sum wraps |
| `BootMemory.EarlyMemory.AllocatorAlloc` | mm/early.c:371-410 | the static buffer before there is a region, the bump pointer after; unless a sum wraps, the block is granted exactly when it fits, at the least multiple of the alignment; a block of the region lies in its free part if and only if no sum wraps |
| `BootMemory.EarlyMemory.Add` | mm/early.c:81-113 | a region is appended if its descriptor can be allocated |
| `BootMemory.EarlyMemory.ReserveRange` | mm/early.c:240-273 | the search and the split, whichever way descriptors are allocated |
| `BootMemory.EarlyMemory.ReserveAll` | mm/early.c:281-344 | the loop over the modules, skipping missing ones |
| `BootMemory.EarlyMemory.Init` | mm/early.c:28-60 | the whole map, and the allocator on the first region that is available and starts at 1 MiB or above |
| `Lists.EmptyIffNoNodes` | include/horizon/list.h:62-65 | list_empty is true of a head exactly when its list has no nodes, and of no node on a list |
| `Lists.AddKeepsRings` | include/horizon/list.h:35-50 | adding a node that is on no list puts it first, or last, and keeps every other list well formed |
| `Lists.DelKeepsRings` | include/horizon/list.h:53-59 | deleting takes out exactly that node, which is then on no list |
| `Lists.DelInitKeepsRings` | kernel/wait.c:62-62 | after list_del_init the node is a list of its own |
| `Lists.InitKeepsRings` | include/horizon/list.h:19-23 | initialising a node that is on no list makes it an empty list |
| `Lists.LinkMemory.Add` | include/horizon/list.h:35-41 | a node on no list becomes the first of the list, and no other list changes |
| `Lists.LinkMemory.AddTail` | include/horizon/list.h:44-50 | a node on no list becomes the last of the list, and no other list changes |
| `Lists.LinkMemory.Del` | include/horizon/list.h:53-59 | the node leaves its list and is on none, and no other list changes |
| `Lists.LinkMemory.DelInit` | kernel/wait.c:62-62 | the node leaves its list and is an empty list, and no other list changes |
| `Lists.LinkMemory.Init` | include/horizon/list.h:19-23 | a node on no list is an empty list, and no other list changes |
| `WaitQueues.IdleIffEmpty` | kernel/wait.c:35-36 | the test of wait_queue_add tells exactly whether the entry waits on some queue |
| `WaitQueues.StepRefines` | kernel/wait.c:27-65 | each call on the links does what the specification does on the sequences |
| `WaitQueues.EnqueueEffect` | kernel/wait.c:27-45 | an entry that waits nowhere is then first on this queue, or last if it is exclusive, with every other queue as before; one that waits already changes nothing |
| `WaitQueues.DequeueEffect` | kernel/wait.c:53-65 | the entry then waits nowhere, and every other entry where it did |
| `WaitQueues.InitEffects` | include/horizon/wait.h:37-48 | a new queue is empty, a new entry waits nowhere and has its flags, and all other queues are as before |
| `WaitQueues.UpToFirstStops` | kernel/wait.c:80-87 | the entries called are those up to and including the first that wakes, or all if none does |
| `WaitQueues.RunRefinesQueues` | kernel/wait.c:27-65 | over any run the lists are well formed and share no entry, and each has its non-exclusive entries, newest first, before its exclusive ones, oldest first |
| `WaitQueues.SharedIsPrefix` | kernel/wait.c:152-155 | on such a queue the non-exclusive entries are a prefix |
| `WaitQueues.WakeFirst` | kernel/wait.c:80-87 | wake_up calls the entries up to the first whose function returns nonzero |
| `WaitQueues.WakeAll` | kernel/wait.c:104-109 | wake_up_all calls every entry once, in order |
| `WaitQueues.WakeFirstShared` | kernel/wait.c:126-133 | wake_up_interruptible calls the non-exclusive entries up to the first that returns nonzero |
| `WaitQueues.WakeAllShared` | kernel/wait.c:150-157 | wake_up_interruptible_all calls every non-exclusive entry once, in order |
| `WaitQueues.WaitQueueMemory.Add` | kernel/wait.c:27-45 | the queue gains the entry at the right end, or nothing changes |
| `WaitQueues.WaitQueueMemory.Remove` | kernel/wait.c:53-65 | the entry leaves whatever queue it is on |
| `WaitQueues.WaitQueueMemory.InitQueue` | include/horizon/wait.h:37-40 | a new empty queue |
| `WaitQueues.WaitQueueMemory.InitEntry` | include/horizon/wait.h:43-48 | an idle entry |
| `WaitQueues.WaitQueueMemory.WakeUp` | kernel/wait.c:72-89 | nothing for NULL or an empty queue, else the entries up to the first that returns nonzero |
| `WaitQueues.WaitQueueMemory.WakeUpAll` | kernel/wait.c:96-111 | every entry of the queue |
| `WaitQueues.WaitQueueMemory.WakeUpInterruptible` | kernel/wait.c:118-135 | the non-exclusive entries up to the first that returns nonzero |
| `WaitQueues.WaitQueueMemory.WakeUpInterruptibleAll` | kernel/wait.c:142-159 | exactly the entries before the first exclusive one are called |
| `SlabPages.FitsIffOneFits` | mm/slab.c:58-99 | creating a cache divides by zero if and only if the rounding of its size wraps; else objects have at least the size asked for and lie in the page if and only if one fits beside the header |
| `SlabPages.LayoutExact` | mm/slab.c:66-99 | unless the rounding wraps, the object size is the least multiple of the alignment that holds the size asked for, and a slab has as many objects as its page holds after the header, but at least one |
| `SlabPages.LargeCachesDoNotFit` | mm/slab.c:25-40 | of the thirteen caches that slab_init creates, those for 4096 bytes and more put objects outside their page, and the others do not if the header leaves room for one object |
| `SlabPages.HugeSizeDividesByZero` | mm/slab.c:77-96 | a size for which creating a cache divides by zero |
| `SlabPages.ObjectsDisjoint` | mm/slab.c:188-189 | objects are pairwise disjoint and lie between the header and the end of the page |
| `SlabPages.MaskRecoversSlab` | mm/slab.c:291-292 | masking any object's address gives its slab |
| `SlabPages.InitObjects` | mm/slab.c:180-197 | a new slab has all `num` objects on its freelist, and nothing outside them was written |
| `SlabPages.PopTakesFirst` | mm/slab.c:254-258 | a pop hands out the head; the rest are the objects not handed out, and the counts add up to `num` |
| `SlabPages.PushPutsFirst` | mm/slab.c:302-307 | a push makes the object the head; the list is the objects not handed out, and the counts add up to `num` |
| `SlabPages.ClientWritesHarmless` | mm/slab.c:188-191 | whatever a client writes into objects it holds, the freelist is untouched |
| `SlabCaches.AllocKeepsInv` | mm/slab.c:229-264 | handing out an object of an existing slab leaves every slab on the one list its free count names, also with one object per slab |
| `SlabCaches.GiveKeepsInv` | mm/slab.c:302-319 | so does taking one back |
| `SlabCaches.ShrinkKeepsInv` | mm/slab.c:342-348 | so does shrinking, which keeps `total_objects == num * total_slabs` and reduces `total_slabs` by the length of the free list |
| `SlabCaches.RingShrinks` | mm/slab.c:342-348 | on a circular free list the loop with its two cursors takes every slab once, in order, and ends at the head |
| `SlabCaches.DropAllLeavesOthers` | mm/slab.c:342-348 | shrinking gives back the slabs on the free list and no other |
| `SlabCaches.StepKeepsTracks` | mm/slab.c:216-353 | on a well-formed cache, for calls that take no new slab: an allocation succeeds exactly when some slab has a free object and returns one that is not handed out; after the call the cache is well formed and the freelists hold exactly the objects not handed out |
| `SlabCaches.FreeSlabsHaveNoneLive` | mm/slab.c:342-348 | no slab that shrinking would give back has an object handed out |
| `SlabCaches.RunKeepsTracks` | mm/slab.c:216-353 | over any run of calls from a well-formed cache in which none takes a new slab, every slab stays on the list its free count names, and the objects handed out and not yet freed are exactly those on no freelist |
| `SlabCaches.FreshBreaksFreeList` | mm/slab.c:200-248 | the branch that needs a new slab links it twice, after which the free list is no circular list |
| `SlabCaches.FreeListKeptIffNotFresh` | mm/slab.c:229-252 | an allocation leaves the free list a circular list if and only if it did not need a new slab |
| `SlabCaches.SlabCache.constructor` | mm/slab.c:101-103 | three empty lists |
| `SlabCaches.SlabCache.Alloc` | mm/slab.c:216-274 | all branches, the new slab and the read through a NULL freelist included |
| `SlabCaches.SlabCache.Free` | mm/slab.c:282-322 | the object is the head of its slab's freelist, and a well-formed cache stays so |
| `SlabCaches.SlabCache.Shrink` | mm/slab.c:330-353 | the loop over the free list with its saved next node; the number returned is the length of that list |
| `FreshSlabs.NewCacheTracks` | mm/slab.c:216-353 | over any run of allocations, frees and shrinks from its creation, new slab included, up to the first that follows NULL, a cache has at most one slab, whose freelist holds exactly the objects not handed out |
| `FreshSlabs.NewCacheExact` | mm/slab.c:216-322 | after any such run the full and partial lists are circular, and the next allocation hands out an object that is not live, or, if and only if all are live, reads through a NULL freelist however much memory there is |
| `FreshSlabs.ExhaustionFaults` | mm/slab.c:229-256 | the run of as many allocations as a slab has objects, after which the next one reads through NULL |
| `FreshSlabs.ShrinkOfOneFaults` | mm/slab.c:342-348 | on a cache with a slab the loop gives the slab back, takes the head of the list it was on for a slab, or the slab again, and then follows NULL |
| `FreshSlabs.ShrinkFaultsIffSlab` | mm/slab.c:342-348 | after any run of calls from its creation, shrinking a cache follows NULL if and only if it has a slab, and has by then given back the page of every live object |
| `RingBuffers.TestsAgree` | kernel/trace.c:671-703 | is_empty and is_full agree with used and free_space |
| `RingBuffers.WriteAppendsIffNoWrap` | kernel/trace.c:507-545 | a write whose bytes fit in the size less one appends all of them if and only if `head + size` does not reach 2 to the power of 32, and else copies past the end; a write that does not fit changes nothing |
| `RingBuffers.ReadRemovesOldestIffNoWrap` | kernel/trace.c:555-598 | a read returns the oldest bytes, as many as asked for and held, and removes exactly those, if and only if `tail + size` does not reach 2 to the power of 32 |
| `RingBuffers.RunIsQueue` | kernel/trace.c:507-619 | over any run that stays in bounds, since the last clear, bytes read followed by bytes held are the concatenation of accepted writes |
| `RingBuffers.InBoundsIffHalfRange` | kernel/trace.c:507-598 | all runs from a new buffer stay in bounds if and only if it is at most 2 GiB long |
| `RingBuffers.LargeRunOverruns` | kernel/trace.c:526-528 | filling, draining and filling a longer buffer copies past its end |
| `RingBuffers.KmallocedInBounds` | kernel/trace.c:455-455 | a buffer that kmalloc returns while it manages at most 2 GiB stays in bounds in all runs |
| `RingBuffers.InitBuffer` | kernel/trace.c:448-476 | an empty buffer, or the error of an empty size or a failed allocation |
| `RingBuffers.TraceBuffer.WriteBytes` | kernel/trace.c:507-545 | the copy in one or two chunks, whether it stays inside, and the return value |
| `RingBuffers.TraceBuffer.ReadBytes` | kernel/trace.c:555-598 | the copy out in one or two chunks, whether it stays inside, and the return value |
| `RingBuffers.TraceBuffer.ClearAll` | kernel/trace.c:606-619 | nothing is held |
| `InputDevices.StepKeepsExactIff` | drivers/input/input.c:26-131 | a registration or removal keeps connects minus disconnects at one for matching registered pairs and at zero for all others, if and only if it does not remove something unregistered that matches something registered |
| `InputDevices.StrayRemoval` | drivers/input/input.c:48-60 | removing a device that was never registered disconnects it from a handler |
| `InputDevices.RunConnectsExactly` | drivers/input/input.c:26-131 | in every order of registrations and removals that meets this condition at each call, the connected pairs are exactly those with both ends registered and a common event type, each once |
| `InputDevices.RegisteredIffAddedLast` | drivers/input/input.c:26-131 | after any such run exactly those devices and handlers are registered that some call registered and no later call removed |
| `InputDevices.MatchHasCommonType` | drivers/input/input.c:38-38 | a handler matches a device only if some event type is in both masks |
| `InputDevices.CommonTypeMatches` | drivers/input/input.c:38-38 | and whenever any is |
| `InputDevices.NodeList.Push` | drivers/input/input.c:32-33 | the node becomes the first |
| `InputDevices.NodeList.Remove` | drivers/input/input.c:63-74 | the node is unlinked wherever it is, and an absent one changes nothing |
| `InputDevices.InputCore.RegisterDevice` | drivers/input/input.c:26-45 | the new list and the callbacks in order |
| `InputDevices.InputCore.UnregisterDevice` | drivers/input/input.c:48-77 | the same for removal |
| `InputDevices.InputCore.RegisterHandler` | drivers/input/input.c:80-99 | the same for handlers |
| `InputDevices.InputCore.UnregisterHandler` | drivers/input/input.c:102-131 | the same for handlers |
| `Ext2Inodes.InodesDisjoint` | fs/ext2/ext2.c:59-69 | every inode lies within one block, and no two inodes share a byte |
| `Ext2Inodes.LocateIsTableByte` | fs/ext2/ext2.c:59-69 | inode 1 + g * inodes_per_group + i is found at byte 128 * i of the table of group g |
| `Ext2Inodes.ReadExact` | fs/ext2/ext2.c:72-88 | a read succeeds exactly when the block can be read, and gives the 128 bytes of the inode |
| `Ext2Inodes.WriteExact` | fs/ext2/ext2.c:107-128 | a write succeeds exactly when the block can be read and written, and changes no other byte of the device |
| `Ext2Inodes.NoneStraddlesIff` | fs/ext2/ext2.c:65-69 | no inode of a table crosses a block boundary if and only if 128 divides the block size or the table fits in its first block |
| `Ext2Inodes.OddBlockStraddles` | fs/ext2/ext2.c:65-69 | with blocks of 192 bytes the second inode does |
| `Ext2Inodes.MountedNeverStraddles` | fs/ext2/super.c:102-102 | with the block sizes that mounting computes none does |
| `Ext2Inodes.WriteThenRead` | fs/ext2/ext2.c:57-129 | an inode reads back as written, and every other inode reads as before |
| `Ext2Inodes.Ext2.Read` | fs/ext2/ext2.c:57-90 | success exactly when memory and the block are available, with the inode's bytes |
| `Ext2Inodes.Ext2.Write` | fs/ext2/ext2.c:93-129 | read, change and write back; on any failure the device is as it was |
| `Shell.WordsAreTheText` | kernel/shell.c:128-151 | the words in a row are the line without its blanks |
| `Shell.WordsAreWords` | kernel/shell.c:128-151 | no word is empty or holds a blank |
| `Shell.WordsAreRuns` | kernel/shell.c:110-151 | the words are the longest stretches without blanks, from left to right, and none is left out |
| `Shell.TypedIsLine` | kernel/shell.c:184-191 | printable characters are appended to the line up to its 255th, and dropped after it |
| `Shell.BackspaceUndoesIffRoom` | kernel/shell.c:178-191 | a backspace takes back the character typed before it if and only if the line had room for that one |
| `Shell.Parse` | kernel/shell.c:110-151 | argv[k] points at a NUL-terminated copy of word k, for the first 16 words, all accesses within the line |
| `Shell.LineBuffer.ProcessChar` | kernel/shell.c:169-193 | the buffer holds the edited line, and a newline hands over exactly its words |
| `FdTables.RunIsSound` | kernel/process.c:440-530 | after any run the specified table holds no NULL and no descriptor that was not handed out |
| `FdTables.DescriptorsIncrease` | kernel/process.c:488-497 | each successful add returns a descriptor above all earlier ones, removed or not |
| `FdTables.FileStays` | kernel/process.c:440-530 | a file stays under its descriptor until that is removed |
| `FdTables.OpenIffAddedLast` | kernel/process.c:440-530 | after any run the open descriptors are exactly those that some add returned and no later remove closed |
| `FdTables.RemovedStaysGone` | kernel/process.c:501-521 | a descriptor that has been removed is never handed out again |
| `FdTables.DescriptorsAreCounted` | kernel/process.c:440-498 | an add fails exactly for NULL or without memory; else its descriptor is the number of adds that succeeded before it |
| `FdTables.FileTable.constructor` | kernel/process.c:120-138 | 16 empty descriptors |
| `FdTables.FileTable.Grow` | kernel/process.c:446-486 | growing, and failing at either allocation or because the new size wraps to 0 bytes, changes no descriptor and no close-on-exec flag |
| `FdTables.FileTable.Add` | kernel/process.c:440-498 | the specified table and result, flags kept, and a failed call changes neither |
| `FdTables.FileTable.Remove` | kernel/process.c:501-521 | exactly this descriptor and this flag are cleared |
| `FdTables.FileTable.Get` | kernel/process.c:524-530 | the file under the descriptor, NULL for every other number |

## Left out

- NULL objects (a NULL lock, cache, buffer or process), which the functions reject first; NULL contexts, queues, entries, devices, handlers and files are modelled.
- The debug fields `file`, `line`, `owner` and `owner_pc` of the locks and the warnings printed from them: they are never read for a decision.
- `raw_spin_trylock` and `raw_spin_is_locked` (kernel/spinlock.c): the read-write locks do not use them.
- Overflow of the signed `readers` at 2147483647: it has no meaning in C, so a thread stops there in the model.
- Liveness under a fair scheduler: for cross-CPU calls it is proved which calls some continuation completes, for the locks which calls return when their thread is stepped alone.
- The build without CONFIG_DEBUG_SPINLOCK, which include/horizon/spinlock.h rules out, in `CallReturns` and `CallProgress`: it masks interrupts while the lock is held and turns them on in the handler.
- The entry functions of kernel/smp.c that boot, stop and reschedule CPUs; a call on the caller's own CPU is modelled only by its outcome.
- TLB invalidation, switching contexts, VMAs and page faults (mm/vmm.c:97-114, mm/vmm.c:310-320).
- Page directories and tables outside the managed frames: a context is one whose directory and tables lie in memory that the page allocator manages.
- The sums `total_memory` and `available_memory` of mm/early.c: a split adds to both again.
- BootMemory.EarlyBlocksAreFree: beyond a grant that wraps only alignment is stated; `PlacedIffNoGrantWraps` shows that this is where the property fails.
- The linked list of regions in mm/early.c is a sequence; aliasing of region descriptors is not modelled.
- Constructors and destructors of slab objects, `slab_cache_destroy`, and the `kmalloc` family on top of the slabs.
- SlabCaches.StepKeepsTracks: speaks of calls that take no new slab; a call that does breaks the free list (`FreeListKeptIffNotFresh`), and `NewCacheExact` says what holds from there on.
- SlabCaches.RunKeepsTracks: starts from any well-formed cache and takes no new slab, for the same reason; of those only caches without a slab are reached from a new one.
- SlabCaches.SlabCache.Shrink: asks for a circular free list; `ShrinkOfOneFaults` says what the loop does on the caches with a slab that are reached from a new one.
- `wait_event` and its variants: the condition is passed by value, so their loops have no meaning to state. Wake functions do not change the queue in the model.
- The spinlocks around wait queues, slab caches and ring buffers: each call is one step there.
- `input_event` (drivers/input/input.c:134-152) and the contents of the callbacks.
- Directory search, file operations and mounting in fs/ext2, most of which are stubs; block input and output is an abstract device that may refuse a block.
- Command lookup, output and the commands of kernel/shell.c.
- Closing the file in `process_remove_file`; a word of close-on-exec flags is the set of its bits.
- The function statistics of kernel/profile.c, and trace points and events of kernel/trace.c.
- Scheduler, threads, devices, IPC, the file system layer, security modules, ELF loading and drivers other than the input core.
