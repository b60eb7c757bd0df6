# Verification of the runtime's allocators, server, lock and parser

This project models the stateful core of the repository in Dafny and proves what it is relied on for.
`dafny verify dfyconfig.toml` checks everything.

| files | what they model |
|---|---|
| `Alignment`, `Division`, `BitValue` | rounding to alignments, division by a variable, the number in a bit field |
| `BlockAttributes`, `ExpHeapLayout`, `ExpHeapSpec`, `ExpHeapRuns`, `ExpHeapMeaning`, `ExpHeapWords`, `ExpHeap` | the expandable heap: attribute word, free list, one operation as a function on states, runs, what each operation means for free bytes, the same in 64-bit words, and the class that edits the lists in place |
| `RwLockCounter`, `RwLock`, `RwLockTries`, `RwLockPacked` | the non-blocking reader-writer lock: the packed counter, all interleavings of its atomic steps, what a call comes to when its thread is left alone, and the one seen as the other |
| `IniSpec`, `IniProperties`, `IniMeaning`, `IniRoundTrip`, `IniParser` | the INI parser: on strings, its properties, how a text is to be read, and the code that mutates line buffers |
| `MessageQueue` | the ring buffer under the message queues |
| `TipcSelection`, `TipcObjects`, `TipcModel`, `TipcStore`, `TipcServer`, `TipcLives`, `TipcOverfill` | the tipc session server: balancing, tables, the state machine, its invariants and runs, what becomes of a session, and when a run goes wrong |
| `UnitPool`, `UnitRuns`, `UnitHeap` | the unit heap by unit numbers, by addresses over any run, and threaded through memory |
| `AddressSpace` | the guarded address-space allocator |
| `Hotkeys` | the hotkey press machine |

How the pieces fit: a class or method with loops is proved equal to a function on values (`ExpHeap` to
`ExpHeapSpec`, `IniParser.ParseString` to `IniSpec.Parse`, `UnitHeap` to `UnitRuns.Apply`, `MessageQueue.Queue`
to a sequence); the promises are then lemmas about those functions and about all runs of them. What one operation
is for is said a second time, without those functions: by free bytes (`ExpHeapMeaning`), by positions in the text
(`IniMeaning`), by addresses (`UnitRuns.StepMeans`, `AddressSpace.FitsIff`), by holds (`RwLockTries`), by tables
(`TipcLives`). The lock and the server are step relations: any number of threads, one access to shared state at a
time, any interleaving; there a call left alone is followed to its end.

Modelling choices:

- Addresses and sizes are integers. The machine width appears where it matters: every size and address the
  heap's allocation, resize and size query compute, 64-bit sums in `DivideUp`, in the free-space check and in
  tick differences, 32-bit queue indices, bit-vector fields.
- The heap's intended behaviour (`ExpHeapSpec`, `ExpHeapRuns`) is stated without wrap-around; `ExpHeapWords` says
  for which requests, resizes and queries the machine agrees, and the class does what the machine does.
- A block header takes 0x20 bytes, as laid out on a 64-bit target.
- The INI handler is a function of all calls so far, so it may keep state.
- The lock compares decoded words; `RwLockPacked.PackedWordsAgree` says why that is the same. Thread `t` has
  handle `t + 1`.
- In the server, `places` of sessions, the messages in flight and the session a slab slot was built for are
  history: no step of the code reads them. The kernel lets in at most the port's maximum of sessions, and
  counts a session until its handle is closed.
- Random draws, memory queries, ticks and button states are parameters.

What turned out not to hold without more, and exactly when it does:

- `CreateExpHeap` checks for a block header but not for the heap head in front of it: a heap is handed out
  that is sound and lies behind its head exactly when the range also holds the head
  (`ExpHeap.CreatedIsSoundIff`, and `ExpHeap.BrokenHeapIsHandedOut` for 0x24 bytes).
- The heap never recovers the tail remainders it drops: after everything is freed, the heap is whole again if
  and only if no byte was dropped (`ExpHeapRuns.AllFreedRestoresHeap`). Some run loses eight
  (`ExpHeapRuns.SomeRunLosesBytes`).
- Requests near the top of size_t wrap, in the rounding or in the fit test. The machine allocates as intended
  in every sound heap if and only if the rounded size plus the alignment padding stays in size_t
  (`ExpHeapWords.RequestIsExactIff`). A request of 2^64 - 1 bytes is granted a block of none
  (`ExpHeapWords.TopRequestGetsNothing`), one of 2^64 - 8 bytes aligned to 64 is granted by a heap of 96 bytes
  (`ExpHeapWords.WrappedSumIsGranted`).
- A resize to 0, or to a size that rounds to 0, leaves a sound heap if and only if the block cannot vanish
  (`ExpHeapWords.ResizeIsSoundIff`).
- The size query is right if and only if no free block's aligned address reaches 2^64
  (`ExpHeapWords.QueryIsRightIff`); a heap that ends four bytes below promises nearly everything and cannot grant
  eight bytes (`ExpHeapWords.TopHeapPromisesTooMuch`). The query does not check its alignment, and answers 0 with
  the end address of the last free block (`ExpHeapWords.ZeroAlignmentQuery`).
- A name cut to its 49-character stump and repeated for a continuation line can end in white space. All names
  of a text are trimmed if and only if no line continues a pair whose name has at least 50 characters and
  white space as its 49th (`IniProperties.TextNamesTrimmedIff`); `IniRoundTrip.StumpTextParses` is a text of two
  lines that fails.
- The server can overfill its last manager and abort: a session is closed in the kernel before its counter is
  decremented, so a new one can be accepted while the counters still add up to the maximum. A server whose
  ports all may have sessions can abort if and only if it has two ports or more (`TipcOverfill.AbortsIff`).
- A service that itself returns the session-closed result makes its manager count one session too few, and for
  good: in every run a counter is short by exactly the number of such reports so far
  (`TipcServer.ExcessIsReports`), so the accounting is right at a moment of a run if and only if there was none
  before (`TipcServer.AccountedIff`). `TipcOverfill.SomeRunMiscounts` is such a run.
- The mask rounding of alignments gives multiples if and only if the alignment is a power of two
  (`Alignment.MaskRoundsIff`), but the unit heap only checks for a multiple of four: 12 passes and its units are not
  aligned (`UnitHeap.TwelveIsNoAlignment`).
- A unit heap can be extended by sizes that are no multiple of its unit size. Free and used units together are as
  many as its range holds if and only if what the extensions left over is less than one unit
  (`UnitRuns.RunCountsIff`, and `UnitRuns.TwoExtensionsMiscount` for 12 bytes twice). All units of an aligned heap
  stay aligned if and only if every extension in front of the last one had an aligned size
  (`UnitRuns.RunAlignedIff`, and `UnitRuns.SecondExtensionMisaligns` for 12 bytes and then 8).
- The rear guard of an address-space pick can lie past the top of the address space when the guard size is not
  a multiple of the page size (`AddressSpace.GuardPastTheTop`). A call gets only guarded spans, whatever the
  memory looks like, if and only if it has no position to draw or the span at the last one ends below the top
  (`AddressSpace.CallIsGuardedIff`). All calls that ask for memory do if and only if the space ends below the top or
  has no room for a page between guards (`AddressSpace.SpaceIsGuardedIff`). Sizes and guard sizes above 2^64 minus a
  page count as no pages at all (`AddressSpace.PagesCoverIff`, `AddressSpace.SpaceOfOk`).
- The guard of an address space is measured from the page its start address is in. Every position keeps the guard
  above the start address itself if and only if that begins a page or there is no position at all
  (`AddressSpace.GuardAboveStartIff`).

## Model

| member | source | states |
|---|---|---|
| `ExpHeapRuns.RunKeepsLayout` | lib/ams/libstratosphere/source/lmem/impl/lmem_impl_exp_heap.cpp:194-544 | every run of allocate, free, resize and adjust keeps the free list strictly ordered, unmerged-neighbour free and 4-aligned, all free and used regions disjoint inside the heap, and bytes conserved up to a slack that grows only by what allocations drop, each drop bounded |
| `ExpHeapRuns.StepKeepsInv` | lib/ams/libstratosphere/source/lmem/impl/lmem_impl_exp_heap.cpp:194-544 | each operation with legal arguments keeps the layout invariant; freeing a used block never fails |
| `ExpHeapRuns.StepKeepsAligned` | lib/ams/libstratosphere/source/lmem/impl/lmem_impl_exp_heap.cpp:259-286 | every block address, size and payload stays a multiple of four, so the rounded sizes are exact |
| `ExpHeapRuns.DroppedBound` | lib/ams/libstratosphere/source/lmem/impl/lmem_impl_exp_heap.cpp:272-286 | an allocation loses fewer than header + 4 bytes, or fewer than 0x80 when the front margin is dropped too |
| `ExpHeapRuns.AllFreedRestoresHeap` | lib/ams/libstratosphere/source/lmem/impl/lmem_impl_exp_heap.cpp:448-465 | from a fresh heap, once every block has been freed the free list is the one block up to the heap end again if and only if no allocation of the run lost a byte |
| `ExpHeapRuns.SomeRunLosesBytes` | lib/ams/libstratosphere/source/lmem/impl/lmem_impl_exp_heap.cpp:272-286 | allocating and freeing once, in a heap of 0x48 bytes, ends with everything freed and eight bytes lost |
| `ExpHeapRuns.AllocateThenFree` | lib/ams/libstratosphere/source/lmem/impl/lmem_impl_exp_heap.cpp:249-465 | freeing the block just allocated restores the free list exactly, except that the end of the restored block is cut by the dropped tail remainder, if there was one |
| `ExpHeapRuns.ShrinkFailsWhen` | lib/ams/libstratosphere/source/lmem/impl/lmem_impl_exp_heap.cpp:531-541 | exactly when an in-place shrink fails, and that the failed shrink leaves the whole heap as it was |
| `ExpHeapRuns.ShrinkFrees` | lib/ams/libstratosphere/source/lmem/impl/lmem_impl_exp_heap.cpp:516-544 | a shrink that succeeds gives back exactly the bytes behind the new end |
| `ExpHeapRuns.AllocatableSizeIsMaximum` | lib/ams/libstratosphere/source/lmem/impl/lmem_impl_exp_heap.cpp:556-581 | the size query is the largest size that fits some free block under the alignment, and 0 only when none fits |
| `ExpHeapRuns.AllocatableIffQuery` | lib/ams/libstratosphere/source/lmem/impl/lmem_impl_exp_heap.cpp:416-446 | without wrap-around, an allocation succeeds if and only if its rounded size is at most the size query, for both directions and both modes |
| `ExpHeapMeaning.AllocationIsAllocated` | lib/ams/libstratosphere/source/lmem/impl/lmem_impl_exp_heap.cpp:416-446 | by addresses alone: an allocation takes the first multiple of the alignment behind the header of the best block that offers the room: lowest address first for a positive alignment, highest first for a negative one, in best fit smallest first; the bytes that stop being free are the used region, the front margin where it is too small to stay free (it becomes the padding) and the tail margin where it is; it fails only when no block offers the room |
| `ExpHeapMeaning.FreeingIsFreed` | lib/ams/libstratosphere/source/lmem/impl/lmem_impl_exp_heap.cpp:448-465 | freeing a used block makes exactly the bytes of its region free, padding included, and forgets the block |
| `ExpHeapMeaning.GrowIsGrown` | lib/ams/libstratosphere/source/lmem/impl/lmem_impl_exp_heap.cpp:484-515 | a grow to rounded size n succeeds if and only if every byte from the old end up to payload + n is free; then exactly the bytes up to the new end stop being free, the new size is n when a header and four bytes are free behind, and otherwise ends at the next byte that is not free, less than a header and four bytes later |
| `ExpHeapMeaning.ShrinkIsShrunk` | lib/ams/libstratosphere/source/lmem/impl/lmem_impl_exp_heap.cpp:516-544 | a shrink makes exactly the bytes behind the new end free, and fails, changing nothing, only when these are fewer than a header and four bytes and the byte behind the block is not free |
| `ExpHeapMeaning.ResizingIsResized` | lib/ams/libstratosphere/source/lmem/impl/lmem_impl_exp_heap.cpp:467-544 | the three cases of a resize, for the size rounded up to a multiple of four |
| `ExpHeapMeaning.AdjustingIsAdjusted` | lib/ams/libstratosphere/source/lmem/impl/lmem_impl_exp_heap.cpp:387-414 | an adjust cuts the heap exactly at the last free block, if that touches the heap end, and not otherwise: afterwards no free byte touches the heap end, and no other byte changes |
| `ExpHeapWords.SearchIsPick` | lib/ams/libstratosphere/source/lmem/impl/lmem_impl_exp_heap.cpp:300-366 | the search of the machine, early exit included, ends at the block meant to be chosen whenever its test accepts exactly the blocks that fit |
| `ExpHeapWords.SafeRequestIsExact` | lib/ams/libstratosphere/source/lmem/impl/lmem_impl_exp_heap.cpp:416-446 | when the rounded size plus the padding stays in size_t, the machine allocates exactly as intended: same block, same split |
| `ExpHeapWords.UnsafeRequestFails` | lib/ams/libstratosphere/source/lmem/impl/lmem_impl_exp_heap.cpp:309-318 | for every other request some sound heap of one small block is split for it although nothing fits, and the full size is recorded |
| `ExpHeapWords.RequestIsExactIff` | lib/ams/libstratosphere/source/lmem/impl/lmem_impl_exp_heap.cpp:416-446 | for every size and alignment: the machine allocates as intended in every sound heap if and only if the rounded size plus the padding stays in size_t |
| `ExpHeapWords.TopRequestGetsNothing` | lib/ams/libstratosphere/source/lmem/impl/lmem_impl_exp_heap.cpp:433-436 | a request within three bytes of 2^64 rounds to 0: every heap with a free block grants a block of no bytes and breaks its invariant |
| `ExpHeapWords.WrappedSumIsGranted` | lib/ams/libstratosphere/source/lmem/impl/lmem_impl_exp_heap.cpp:309-318 | a heap of 96 bytes grants 2^64 - 8 bytes |
| `ExpHeapWords.ResizeIsExactIff` | lib/ams/libstratosphere/source/lmem/impl/lmem_impl_exp_heap.cpp:467-544 | a machine resize is the intended one if and only if the new size can be rounded or the block cannot vanish |
| `ExpHeapWords.ResizeIsSoundIff` | lib/ams/libstratosphere/source/lmem/impl/lmem_impl_exp_heap.cpp:467-544 | a resize, to any size, leaves a sound heap if and only if the size does not round to 0 or the block cannot vanish |
| `ExpHeapWords.QueryIsRightIff` | lib/ams/libstratosphere/source/lmem/impl/lmem_impl_exp_heap.cpp:556-581 | the size query in size_t is the right one if and only if no aligned address behind a free block reaches 2^64 |
| `ExpHeapWords.QueryAnswersIff` | lib/ams/libstratosphere/source/lmem/impl/lmem_impl_exp_heap.cpp:416-581 | the query tells for every safe request whether it will be granted if and only if none does |
| `ExpHeapWords.TopHeapPromisesTooMuch` | lib/ams/libstratosphere/source/lmem/impl/lmem_impl_exp_heap.cpp:569-573 | a heap ending four bytes below 2^64 is said to offer 2^64 - 4 bytes and cannot grant eight |
| `ExpHeapWords.AlignWordIsMemWord` | lib/ams/libvapours/include/vapours/util/util_alignment.hpp:25-30 | the mask rounding in 64 bits, wrapped sums included, is the rounding used for block addresses |
| `ExpHeapWords.ZeroAlignmentQuery` | lib/ams/libstratosphere/source/lmem/impl/lmem_impl_exp_heap.cpp:556-581 | for alignment 0 the size query over the first n free blocks is the end address of the last of them |
| `ExpHeapWords.FreshWordIsWellFormed` | lib/ams/libstratosphere/source/lmem/impl/lmem_impl_exp_heap.cpp:169-192 | the lists of a new heap, its one size possibly wrapped, satisfy the invariant if and only if the range holds a header and a minimal block |
| `ExpHeapRuns.FreshIsWellFormed` | lib/ams/libstratosphere/source/lmem/impl/lmem_impl_exp_heap.cpp:169-192 | a new heap satisfies the invariant if and only if its range holds one header and a minimal block |
| `ExpHeapLayout.CanonicalUnique` | lib/ams/libstratosphere/source/lmem/impl/lmem_impl_exp_heap.cpp:194-247 | an ordered, merged free list is determined by the set of free addresses: two such lists covering the same bytes are equal |
| `ExpHeapLayout.InsertMeaning` | lib/ams/libstratosphere/source/lmem/impl/lmem_impl_exp_heap.cpp:194-247 | coalescing a region yields an ordered, merged list that covers exactly the old free bytes and the region |
| `ExpHeapLayout.NotInsertableMergesNothing` | lib/ams/libstratosphere/source/lmem/impl/lmem_impl_exp_heap.cpp:231-247 | a failing coalesce merged nothing before it failed |
| `ExpHeapLayout.CarveMeaning` | lib/ams/libstratosphere/source/lmem/impl/lmem_impl_exp_heap.cpp:249-298 | carving a block leaves an ordered, merged list that covers exactly the old free bytes minus the used region and the dropped remainder |
| `ExpHeapLayout.CarvedRegion` | lib/ams/libstratosphere/source/lmem/impl/lmem_impl_exp_heap.cpp:109-139 | the padding stored with a carved block fits seven bits and recovers the start of its region |
| `ExpHeapLayout.CarveInsertRoundTrip` | lib/ams/libstratosphere/source/lmem/impl/lmem_impl_exp_heap.cpp:194-298 | carve followed by coalesce gives back the list, or the list with that one block cut at its end |
| `ExpHeapSpec.ChosenUnique` | lib/ams/libstratosphere/source/lmem/impl/lmem_impl_exp_heap.cpp:300-366 | first fit and best fit each determine the chosen block: lowest or highest address first, ties included |
| `ExpHeapSpec.ChosenExists` | lib/ams/libstratosphere/source/lmem/impl/lmem_impl_exp_heap.cpp:300-366 | a block is chosen whenever some free block fits |
| `ExpHeapSpec.CarveKeepsInv` | lib/ams/libstratosphere/source/lmem/impl/lmem_impl_exp_heap.cpp:249-298 | allocation keeps the invariant |
| `ExpHeapSpec.FreeKeepsInv` | lib/ams/libstratosphere/source/lmem/impl/lmem_impl_exp_heap.cpp:448-465 | freeing keeps the invariant, and a freed region can always be inserted |
| `ExpHeapSpec.ShrinkKeepsInv` | lib/ams/libstratosphere/source/lmem/impl/lmem_impl_exp_heap.cpp:516-544 | shrinking in place keeps the invariant |
| `ExpHeapSpec.GrowKeepsInv` | lib/ams/libstratosphere/source/lmem/impl/lmem_impl_exp_heap.cpp:484-515 | growing into the free block behind keeps the invariant |
| `ExpHeapSpec.AdjustKeepsInv` | lib/ams/libstratosphere/source/lmem/impl/lmem_impl_exp_heap.cpp:387-414 | trimming the free tail of the heap keeps the invariant |
| `ExpHeap.HeapHead.Initialize` | lib/ams/libstratosphere/source/lmem/impl/lmem_impl_exp_heap.cpp:169-192 | the initial free list, and when it is well formed |
| `ExpHeap.HeapHead.CoalesceFreedRegion` | lib/ams/libstratosphere/source/lmem/impl/lmem_impl_exp_heap.cpp:194-247 | the in-place loop computes the specified insertion, and leaves the list alone when it returns false |
| `ExpHeap.HeapHead.ConvertFreeBlockToUsedBlock` | lib/ams/libstratosphere/source/lmem/impl/lmem_impl_exp_heap.cpp:249-298 | the in-place split computes the specified carve and records the used block |
| `ExpHeap.HeapHead.SearchFromHead` | lib/ams/libstratosphere/source/lmem/impl/lmem_impl_exp_heap.cpp:300-333 | the search loop, with its early exit on an exact size, in 64-bit arithmetic |
| `ExpHeap.HeapHead.SearchFromTail` | lib/ams/libstratosphere/source/lmem/impl/lmem_impl_exp_heap.cpp:335-366 | the same, backwards |
| `ExpHeap.HeapHead.Allocate` | lib/ams/libstratosphere/source/lmem/impl/lmem_impl_exp_heap.cpp:416-446 | for every size the new state and the pointer are what the machine computes; a safe request does what is intended, by addresses: the best block from the end the sign of the alignment says, `ExpHeapMeaning.Allocated`; null if and only if the rounded size exceeds the size query |
| `ExpHeap.HeapHead.Free` | lib/ams/libstratosphere/source/lmem/impl/lmem_impl_exp_heap.cpp:448-465 | the new state is the specified one, and exactly the region of the block becomes free; the assertion never fails |
| `ExpHeap.HeapHead.Resize` | lib/ams/libstratosphere/source/lmem/impl/lmem_impl_exp_heap.cpp:467-544 | for every size, 0 included: the new state, the returned size of grow, shrink and failure, exactly when the heap is sound afterwards, and which bytes a safe resize takes or gives |
| `ExpHeap.HeapHead.AdjustHeap` | lib/ams/libstratosphere/source/lmem/impl/lmem_impl_exp_heap.cpp:387-414 | the new state, the address and size cut off, and that no free byte touches the heap end afterwards |
| `ExpHeap.HeapHead.GetTotalFreeSize` | lib/ams/libstratosphere/source/lmem/impl/lmem_impl_exp_heap.cpp:546-554 | the sum of the free payloads |
| `ExpHeap.HeapHead.GetAllocatableSize` | lib/ams/libstratosphere/source/lmem/impl/lmem_impl_exp_heap.cpp:556-581 | for every alignment with an absolute value, 0 and non-powers of two included, the loop computes the size query in 64-bit arithmetic; for legal ones that is the query the other rows are about |
| `ExpHeap.CreateExpHeap` | lib/ams/libstratosphere/source/lmem/impl/lmem_impl_exp_heap.cpp:370-379 | for every address and size, ranges that wrap included: a heap is handed out exactly when the rounded range holds a block header and a minimal block; its lists |
| `ExpHeap.CreatedIsSoundIff` | lib/ams/libstratosphere/source/lmem/impl/lmem_impl_exp_heap.cpp:370-379 | the heap handed out is sound and behind its head if and only if the range also holds the heap head |
| `ExpHeap.CreatedIsInside` | lib/ams/libstratosphere/source/lmem/impl/lmem_impl_exp_heap.cpp:370-379 | for memory that does not wrap the heap takes all of it between multiples of four: start and end lie inside, less than four bytes are lost at each end, and every byte behind the heap head is free |
| `ExpHeap.BrokenHeapIsHandedOut` | lib/ams/libstratosphere/source/lmem/impl/lmem_impl_exp_heap.cpp:370-379 | 0x24 bytes at 0x1000 are handed out as a heap that is not sound |
| `BlockAttributes.SetPaddingMeaning` | lib/ams/libstratosphere/source/lmem/impl/lmem_impl_exp_heap.cpp:109-134 | setting the padding bits stores the value and leaves group id and direction alone |
| `BlockAttributes.SetGroupIdMeaning` | lib/ams/libstratosphere/source/lmem/impl/lmem_impl_exp_heap.cpp:109-134 | the same for the group id |
| `BlockAttributes.SetDirectionMeaning` | lib/ams/libstratosphere/source/lmem/impl/lmem_impl_exp_heap.cpp:109-134 | the same for the direction bit |
| `BlockAttributes.FreshUsedBlock` | lib/ams/libstratosphere/source/lmem/impl/lmem_impl_exp_heap.cpp:149-159 | the three fields of a new used block read back what was stored |
| `BlockAttributes.PaddingIsKept` | lib/ams/libstratosphere/source/lmem/impl/lmem_impl_exp_heap.cpp:109-134 | a stored padding reads back modulo 128, which is what block headers hold in the heap model |
| `Alignment.AlignUpIsLeastMultiple` | lib/ams/libvapours/include/vapours/util/util_alignment.hpp:25-30 | rounding up gives the least multiple that is not smaller |
| `Alignment.MaskUpIsAlignUp` | lib/ams/libvapours/include/vapours/util/util_alignment.hpp:25-30 | adding the mask of a power of two and clearing it is that rounding |
| `Alignment.MaskRoundsIff` | lib/ams/libvapours/include/vapours/util/util_alignment.hpp:25-30 | the mask rounds every number to a multiple if and only if the alignment is a power of two |
| `RwLock.RunIsSafe` | lib/ams/libstratosphere/source/os/impl/os_rw_lock_target_impl.os.horizon.cpp:26-345 | in every interleaving, with spurious compare-exchange failures, no thread holds write while another holds read or write; the read count is the sum of the holds; the handle is set exactly while write-locked |
| `RwLock.StepKeepsInv` | lib/ams/libstratosphere/source/os/impl/os_rw_lock_target_impl.os.horizon.cpp:26-345 | every atomic step of every thread keeps the lock invariant, in particular the release loop that never refreshes its new word |
| `RwLock.NoAssertionFails` | lib/ams/libstratosphere/source/os/impl/os_rw_lock_target_impl.os.horizon.cpp:26-190 | no assertion of the code fails on the way |
| `RwLock.InvIsExclusive` | lib/ams/libstratosphere/source/os/impl/os_rw_lock_target_impl.os.horizon.cpp:304-345 | the invariant means mutual exclusion |
| `RwLock.BusyMeansHeld` | lib/ams/libstratosphere/source/os/impl/os_rw_lock_target_impl.os.horizon.cpp:304-335 | a word that makes a try fail has a holder |
| `RwLock.QuiescentIsFree` | lib/ams/libstratosphere/source/os/impl/os_rw_lock_target_impl.os.horizon.cpp:49-71 | when every thread has given back its holds the lock is in its initial state |
| `RwLockTries.TryReadOutcome` | lib/ams/libstratosphere/source/os/impl/os_rw_lock_target_impl.os.horizon.cpp:146-170 | in every sound state, below the count bound: a try to read that is left alone ends with one read hold more if and only if no other thread has the lock for writing, and changes nothing otherwise; the whole state afterwards |
| `RwLockTries.TryWriteOutcome` | lib/ams/libstratosphere/source/os/impl/os_rw_lock_target_impl.os.horizon.cpp:304-335 | a try to write that is left alone ends with one write hold more if and only if its thread has the lock for writing already or nobody holds anything; the whole state afterwards |
| `RwLockTries.ReleaseReadOutcome` | lib/ams/libstratosphere/source/os/impl/os_rw_lock_target_impl.os.horizon.cpp:172-217 | a release gives back one read hold, and the lock with the last hold of its writer |
| `RwLockTries.ReleaseWriteOutcome` | lib/ams/libstratosphere/source/os/impl/os_rw_lock_target_impl.os.horizon.cpp:337-345 | the same for a write hold |
| `RwLockTries.TryThenRelease` | lib/ams/libstratosphere/source/os/impl/os_rw_lock_target_impl.os.horizon.cpp:146-345 | a granted try and the matching release leave the lock exactly as it was |
| `RwLockTries.FailureStartsOver` | lib/ams/libstratosphere/source/os/impl/os_rw_lock_target_impl.os.horizon.cpp:146-345 | after any compare-exchange that fails, in contention or not, the call left alone comes to what it would have come to had it begun at that moment |
| `RwLockCounter.StoreReadCount` | lib/ams/libstratosphere/source/os/impl/os_rw_lock_impl.hpp:130-155 | storing a read count within bounds reads back and leaves the other fields alone |
| `RwLockCounter.SetReadMeaning` | lib/ams/libstratosphere/source/os/impl/os_rw_lock_impl.hpp:30-36 | field update and the four readers |
| `RwLockCounter.SetLockedMeaning` | lib/ams/libstratosphere/source/os/impl/os_rw_lock_impl.hpp:179-181 | the same for the lock bit |
| `RwLockCounter.SetReadWaitersMeaning` | lib/ams/libstratosphere/source/os/impl/os_rw_lock_impl.hpp:130-177 | the same for the read waiters |
| `RwLockCounter.SetWriteWaitersMeaning` | lib/ams/libstratosphere/source/os/impl/os_rw_lock_impl.hpp:130-177 | the same for the write waiters |
| `RwLockCounter.DecodeIsInjective` | lib/ams/libstratosphere/source/os/impl/os_rw_lock_impl.hpp:90-104 | two words with equal fields are equal, so comparing decoded words is comparing words |
| `RwLockPacked.IncrementIsIncRead` | lib/ams/libstratosphere/source/os/impl/os_rw_lock_impl.hpp:130-134 | incrementing the packed read count, under its assertion, is the increment of the machine, all other fields included |
| `RwLockPacked.DecrementIsDecRead` | lib/ams/libstratosphere/source/os/impl/os_rw_lock_impl.hpp:136-140 | the same for the decrement |
| `RwLockPacked.LockBitIsWriteLocked` | lib/ams/libstratosphere/source/os/impl/os_rw_lock_impl.hpp:179-181 | setting and clearing the lock bit beside the handle are the edits of the machine |
| `RwLockPacked.PackedWordsAgree` | lib/ams/libstratosphere/source/os/impl/os_rw_lock_impl.hpp:30-36 | two packed words with their handles are equal if and only if the words of the machine are, so the compare-exchange compares the same |
| `IniParser.ParseString` | lib/inih/ini.c:290-298 | the buffer-mutating parser returns the error line and makes the calls that the string specification gives, and those of the one reading of the text by positions, for every text |
| `IniParser.ParseStream` | lib/inih/ini.c:97-240 | the loop over the lines of a string reader, against the string specification |
| `IniParser.ProcessLine` | lib/inih/ini.c:157-234 | one line in the buffers, against the specification of a line |
| `IniParser.SectionLine` | lib/inih/ini.c:180-196 | a section header |
| `IniParser.PairLine` | lib/inih/ini.c:197-228 | a name and value pair |
| `IniParser.FindCharsOrComment` | lib/inih/ini.c:67-82 | the scan stops at the least position that holds a listed character or a semicolon right behind white space, and at the end when there is none |
| `IniParser.Rstrip` | lib/inih/ini.c:48-54 | the in-place strip leaves the stripped string and touches nothing in front of it |
| `IniParser.Lskip` | lib/inih/ini.c:57-62 | the index of the first character that is not white space |
| `IniParser.StrNCpy0` | lib/inih/ini.c:86-94 | the truncated, terminated copy |
| `IniParser.StringReader.Read` | lib/inih/ini.c:265-288 | one chunk: up to a newline or the buffer size, and the position behind it |
| `IniRoundTrip.ParseRenderIdentity` | lib/inih/ini.c:97-298 | parsing a rendered document of sections, pairs, pairs with comments behind them, comments, empty lines, continuation values, lines without separator and sections without bracket calls the handler with exactly its pairs and values, in order; when the handler accepts, the result is the number of the first line of the last two kinds, or 0 |
| `IniRoundTrip.NotedLineParses` | lib/inih/ini.c:67-82 | a canonical pair line with white space, a semicolon and anything behind it makes the same call as the line alone |
| `IniRoundTrip.CommentMakesNoDifference` | lib/inih/ini.c:97-240 | putting such a comment behind any pair of a document leaves all calls of the text as they are |
| `IniMeaning.FindIsFirstStop` | lib/inih/ini.c:67-82 | for every string: the search ends at the least position that holds a listed character, or a semicolon with white space right in front, and at the length when there is none |
| `IniMeaning.LineIsMeant` | lib/inih/ini.c:157-240 | for every line, by positions: what is stripped, which lines are comments, continuations, sections or pairs, where name and value begin and end, that a section without bracket and a line without separator are bad, and what is called |
| `IniMeaning.ParseIsMeant` | lib/inih/ini.c:97-298 | for every text: lines of at most 199 characters that end in a newline or are full or the last, each read as above in the context the ones before left; the error is the first bad line |
| `IniMeaning.ReadingIsTheOnlyOne` | lib/inih/ini.c:97-298 | a text has only one such reading, so that the calls and the error are determined by it |
| `IniProperties.ChunksPartitionText` | lib/inih/ini.c:265-288 | the chunks concatenate to the text; each is non-empty, fits the buffer and holds no newline but a last one; one that is shorter than the buffer allows ends in a newline or is the last |
| `IniProperties.ErrorIsFirstBadLine` | lib/inih/ini.c:157-240 | the result is 0 when no line is bad and otherwise the one-based number of the first bad line |
| `IniProperties.CallsAreTrimmed` | lib/inih/ini.c:157-228 | every value handed to the handler is trimmed, and every name that is not is 49 characters long |
| `IniProperties.TextNamesTrimmedIff` | lib/inih/ini.c:157-228 | for every text: all names handed to the handler are trimmed if and only if no line continues a pair whose name has at least 50 characters and white space as its 49th |
| `IniRoundTrip.StumpCanEndInSpace` | lib/inih/ini.c:173-178 | a concrete name whose stump reaches the handler with a trailing blank |
| `IniRoundTrip.StumpTextParses` | lib/inih/ini.c:97-298 | a whole text of two lines whose second call has a name that ends in a blank |
| `IniRoundTrip.PairLineParses` | lib/inih/ini.c:197-228 | one rendered pair in any context is one call |
| `MessageQueue.Queue.SendUnsafe` | lib/ams/libstratosphere/source/os/os_message_queue.cpp:33-52 | the contents grow by the word at the back; no 32-bit sum overflows |
| `MessageQueue.Queue.SendNextUnsafe` | lib/ams/libstratosphere/source/os/os_message_queue.cpp:54-74 | the contents grow by the word at the front |
| `MessageQueue.Queue.ReceiveUnsafe` | lib/ams/libstratosphere/source/os/os_message_queue.cpp:76-98 | the word returned is the first one, the rest stays |
| `MessageQueue.Queue.PeekUnsafe` | lib/ams/libstratosphere/source/os/os_message_queue.cpp:100-107 | the first word, contents unchanged |
| `MessageQueue.Queue.TrySend` | lib/ams/libstratosphere/source/os/os_message_queue.cpp:172-190 | succeeds exactly when the sequence is shorter than the capacity |
| `MessageQueue.Queue.TrySendNext` | lib/ams/libstratosphere/source/os/os_message_queue.cpp:236-254 | the same at the front |
| `MessageQueue.Queue.TryReceive` | lib/ams/libstratosphere/source/os/os_message_queue.cpp:300-318 | succeeds exactly when the sequence is not empty |
| `MessageQueue.Queue.TryPeek` | lib/ams/libstratosphere/source/os/os_message_queue.cpp:362-378 | succeeds exactly when the sequence is not empty |
| `MessageQueue.PushBack` | lib/ams/libstratosphere/source/os/os_message_queue.cpp:33-52 | writing behind the window appends, also around the end of the buffer |
| `MessageQueue.PushFront` | lib/ams/libstratosphere/source/os/os_message_queue.cpp:54-74 | writing in front of the window prepends |
| `MessageQueue.PopFront` | lib/ams/libstratosphere/source/os/os_message_queue.cpp:76-98 | advancing the offset removes the first word |
| `MessageQueue.SumsFitIff` | lib/ams/libstratosphere/source/os/os_message_queue.cpp:33-52 | offset plus count always fits 32 signed bits if and only if the capacity is at most 2^30 |
| `TipcServer.RunKeepsInv` | lib/ams/libstratosphere/include/stratosphere/tipc/tipc_server_manager.hpp:186-250 | in every run in which no service reports its session as closed, each counter is its live entries plus messages queued or in hand plus closes not yet decremented; each word taken as a type was sent as a type and the next one is its data; every open session is in exactly one place |
| `TipcServer.StepKeepsInv` | lib/ams/libstratosphere/include/stratosphere/tipc/tipc_server_manager.hpp:506-625 | each step of each thread keeps all of that |
| `TipcServer.StepKeepsCore` | lib/ams/libstratosphere/include/stratosphere/tipc/tipc_server_manager.hpp:186-305 | whatever services answer, each step keeps the message pairing, the places of all sessions and what threads rely on |
| `TipcServer.StepKeepsManagers` | lib/ams/libstratosphere/include/stratosphere/tipc/tipc_server_manager.hpp:186-305 | accounting and message pairing through every step, for all managers |
| `TipcServer.StepKeepsStore` | lib/ams/libstratosphere/include/stratosphere/tipc/tipc_object_manager.hpp:74-163 | entries, messages, slabs and kernel table keep describing the same sessions |
| `TipcServer.StepKeepsBalance` | lib/ams/libstratosphere/include/stratosphere/tipc/tipc_server_manager.hpp:222-305 | open sessions are what the managers count, plus what threads carry, minus closed ones not yet subtracted |
| `TipcServer.AbortsOnlyWhenFull` | lib/ams/libstratosphere/include/stratosphere/tipc/tipc_object_manager.hpp:74-104 | the fatal checks on message type, port index, slab, entry, slot and handle never fail; the search for an empty entry fails exactly when the entries are full |
| `TipcServer.RunNeverAborts` | lib/ams/libstratosphere/include/stratosphere/tipc/tipc_server_manager.hpp:590-625 | in every run in which the counters leave room whenever the server mutex is taken, no manager is overfilled and nothing aborts; `TipcOverfill.AbortsIff` is the exact condition on the server |
| `TipcServer.PicksWithRoom` | lib/ams/libstratosphere/include/stratosphere/tipc/tipc_server_manager.hpp:605-625 | under that condition the manager a selection picks has room at the moment of the increment, although counters change while it looks |
| `TipcServer.RoomIff` | lib/ams/libstratosphere/include/stratosphere/tipc/tipc_server_manager.hpp:222-250 | the counters leave room if and only if the open sessions and the closes not yet subtracted are fewer than the maximum and the sessions carried |
| `TipcServer.QuietServer` | lib/ams/libstratosphere/include/stratosphere/tipc/tipc_server_manager.hpp:506-588 | with all threads waiting and all queues empty, the counters are the live entries and together the open sessions |
| `TipcServer.SlabMatchesEntries` | lib/ams/libstratosphere/include/stratosphere/tipc/tipc_allocators.hpp:52-77 | the used slots of a port and the live sessions built from it correspond one to one: a session has a slot if and only if it has an entry, and never two of either |
| `TipcServer.ExcessIsReports` | lib/ams/libstratosphere/include/stratosphere/tipc/tipc_server_manager.hpp:186-250 | in every run, whatever services answer, each counter is its live entries plus messages queued or in hand plus closes not yet decremented, less the session-closed results its services have returned so far |
| `TipcServer.AccountedIff` | lib/ams/libstratosphere/include/stratosphere/tipc/tipc_server_manager.hpp:236-250 | at any moment of a run the accounting is right if and only if no service has returned that result so far |
| `TipcServer.AccountingIff` | lib/ams/libstratosphere/include/stratosphere/tipc/tipc_server_manager.hpp:236-250 | it holds all through a run if and only if no service returns the session-closed result in it |
| `TipcLives.RequestEnds` | lib/ams/libstratosphere/include/stratosphere/tipc/tipc_server_manager.hpp:551-575 | from every sound state in which a thread has received a request: an answer that ends it, followed by that thread alone, leads three steps later back to the loop with the entry empty, its slot unused, the handle closed, the manager and the port counting one session less, no trace of the session anywhere, and nothing else different |
| `TipcLives.HangUpEnds` | lib/ams/libstratosphere/include/stratosphere/tipc/tipc_server_manager.hpp:522-530 | a session whose receive reports it gone comes to the same end |
| `TipcLives.RequestStays` | lib/ams/libstratosphere/include/stratosphere/tipc/tipc_server_manager.hpp:551-575 | a handled request leaves the whole state as it was; one whose service reports the session closed makes the manager count one session less, and changes nothing else |
| `TipcLives.AcceptHandsOver` | lib/ams/libstratosphere/include/stratosphere/tipc/tipc_server_manager.hpp:534-603 | an accepted connection, with the mutex free and room for two words, becomes a message at the end of the queue of the manager that should get it, which counts it; nothing else is different |
| `TipcLives.MessageIsTakenUp` | lib/ams/libstratosphere/include/stratosphere/tipc/tipc_server_manager.hpp:186-205 | a whole message in the queue and an empty entry: four steps of that manager later the session is live in the first empty entry, with the first unused slot of its port, and nothing else is different |
| `TipcLives.AcceptedEndsLive` | lib/ams/libstratosphere/include/stratosphere/tipc/tipc_server_manager.hpp:534-603 | an accepted connection ends up live with the manager that should get it, behind all sessions that were queued there, which end up live as well; the manager and the port count one session more |
| `TipcLives.OneWay` | lib/ams/libstratosphere/include/stratosphere/tipc/tipc_server_manager.hpp:506-588 | between two decisions of the environment a thread can do only one thing at a time |
| `TipcStore.SlabHasRoom` | lib/ams/libstratosphere/include/stratosphere/tipc/tipc_allocators.hpp:52-63 | a service object can always be allocated for a message |
| `TipcStore.CloseFinds` | lib/ams/libstratosphere/include/stratosphere/tipc/tipc_object_manager.hpp:90-104 | the session to close is in the entry found, and its slot is in use |
| `TipcOverfill.AbortsIff` | lib/ams/libstratosphere/include/stratosphere/tipc/tipc_server_manager.hpp:506-625 | for ports that all may have sessions: some run of the server, with services that behave, ends in an abort if and only if there are two ports or more |
| `TipcOverfill.SomeRunAborts` | lib/ams/libstratosphere/include/stratosphere/tipc/tipc_server_manager.hpp:590-625 | the run, for any two or more ports: fill all managers, close one session in the kernel only, accept once more |
| `TipcOverfill.SomeRunMiscounts` | lib/ams/libstratosphere/include/stratosphere/tipc/tipc_server_manager.hpp:236-250 | with room for two sessions, some run with such a report ends quiet and with a manager that counts one session less than is live |
| `TipcModel.HalvesAre` | lib/ams/libstratosphere/include/stratosphere/tipc/tipc_server_manager.hpp:194-198 | the two decoders are the upper half and the low byte of the word |
| `TipcModel.DecodeType` | lib/ams/libstratosphere/include/stratosphere/tipc/tipc_server_manager.hpp:194-303 | the word packed from a handle decodes to type 0 and to that handle |
| `TipcModel.ConfigOfOk` | lib/ams/libstratosphere/include/stratosphere/tipc/tipc_server_manager.hpp:83-85 | the capacities of the managers add up to the maximum number of sessions |
| `TipcModel.LiveRoom` | lib/ams/libstratosphere/include/stratosphere/tipc/tipc_object_manager.hpp:40-47 | an empty entry exists if and only if fewer sessions than entries are live |
| `TipcSelection.SelectPort` | lib/ams/libstratosphere/include/stratosphere/tipc/tipc_server_manager.hpp:595-625 | the selection loop computes the fold |
| `TipcSelection.PickedIff` | lib/ams/libstratosphere/include/stratosphere/tipc/tipc_server_manager.hpp:605-625 | the fold picks the first of the least loaded managers while some manager is below the quota, and the last manager otherwise |
| `TipcSelection.SelectionHasRoom` | lib/ams/libstratosphere/include/stratosphere/tipc/tipc_server_manager.hpp:605-625 | for counters within capacity the picked manager has room if and only if the counters do not add up to the maximum, and it is least loaded whenever one is below the quota |
| `TipcSelection.CapacitiesAddUp` | lib/ams/libstratosphere/include/stratosphere/tipc/tipc_server_manager.hpp:83-85 | quotient for each manager, remainder for the last: they add up |
| `TipcObjects.ObjectManager.AddObject` | lib/ams/libstratosphere/include/stratosphere/tipc/tipc_object_manager.hpp:74-88 | the object is copied to the first empty entry; fails exactly when there is none |
| `TipcObjects.ObjectManager.CloseObject` | lib/ams/libstratosphere/include/stratosphere/tipc/tipc_object_manager.hpp:90-104 | the first entry with the handle is reset and its slot freed; nothing else changes |
| `TipcObjects.ObjectManager.FindEntry` | lib/ams/libstratosphere/include/stratosphere/tipc/tipc_object_manager.hpp:40-47 | the first entry with the handle |
| `TipcObjects.SlabAllocator.Allocate` | lib/ams/libstratosphere/include/stratosphere/tipc/tipc_allocators.hpp:52-63 | the first unused slot is taken; fails exactly when all are used |
| `TipcObjects.SlabAllocator.Deallocate` | lib/ams/libstratosphere/include/stratosphere/tipc/tipc_allocators.hpp:65-77 | the slot is freed; fails exactly when it was not used |
| `TipcObjects.WaitableObject.InitializeAsSession` | lib/ams/libstratosphere/include/stratosphere/tipc/tipc_waitable_object.hpp:56-58 | all four fields |
| `TipcObjects.WaitableObject.InitializeAsPort` | lib/ams/libstratosphere/include/stratosphere/tipc/tipc_waitable_object.hpp:49-54 | a port is not managed and has no object |
| `TipcObjects.WaitableObject.Destroy` | lib/ams/libstratosphere/include/stratosphere/tipc/tipc_waitable_object.hpp:60-76 | a managed object gives its slot back; all fields are reset |
| `UnitRuns.RunCountsIff` | lib/ams/libstratosphere/source/lmem/impl/lmem_impl_unit_heap.cpp:148-247 | every run from a new heap: the units callers hold are the live ones and all others are free, on the list; free count plus used count is the heap range divided by the unit size if and only if the remainders of all extensions add up to less than one unit |
| `UnitRuns.RunCounts` | lib/ams/libstratosphere/source/lmem/impl/lmem_impl_unit_heap.cpp:148-247 | it is when every extension is a multiple of the unit size |
| `UnitRuns.TwoExtensionsMiscount` | lib/ams/libstratosphere/source/lmem/impl/lmem_impl_unit_heap.cpp:172-186 | one unit of 8 bytes, extended by 12 bytes twice: three units in a range of four |
| `UnitRuns.StepKeepsOk` | lib/ams/libstratosphere/source/lmem/impl/lmem_impl_unit_heap.cpp:148-222 | each operation keeps the units spaced and inside the heap, the free list in order, and the heap end at start plus units plus waste |
| `UnitRuns.StepMeans` | lib/ams/libstratosphere/source/lmem/impl/lmem_impl_unit_heap.cpp:148-222 | an allocation takes the first unit off the list and a free puts its unit in front; an extension adds as many whole units as its bytes hold, one behind the other from the old heap end on, free and in order behind all the others |
| `UnitRuns.RunAlignedIff` | lib/ams/libstratosphere/source/lmem/impl/lmem_impl_unit_heap.cpp:148-186 | in every run of an aligned heap all units are aligned if and only if every extension in front of the last one had an aligned size |
| `UnitRuns.ExtendAlignedIff` | lib/ams/libstratosphere/source/lmem/impl/lmem_impl_unit_heap.cpp:172-186 | one extension keeps the units aligned if and only if the heap end in front of it is aligned, and leaves that end aligned if and only if its size is |
| `UnitRuns.SecondExtensionMisaligns` | lib/ams/libstratosphere/source/lmem/impl/lmem_impl_unit_heap.cpp:172-186 | 8-byte units aligned to 8, extended by 12 and by 8 bytes: the third unit on the list is at 0x1014 |
| `UnitPool.StepKeepsPool` | lib/ams/libstratosphere/source/lmem/impl/lmem_impl_unit_heap.cpp:188-222 | an allocation never returns a live unit and fails only when all are live; each operation changes the live units by exactly one unit or none |
| `UnitPool.CountsAddUp` | lib/ams/libstratosphere/source/lmem/impl/lmem_impl_unit_heap.cpp:234-247 | free count plus live count is the number of units |
| `UnitPool.AllocateThenFree` | lib/ams/libstratosphere/source/lmem/impl/lmem_impl_unit_heap.cpp:188-222 | allocate then free restores the list, order included |
| `UnitPool.FreeThenAllocate` | lib/ams/libstratosphere/source/lmem/impl/lmem_impl_unit_heap.cpp:188-222 | free then allocate returns the same unit and restores the list |
| `UnitHeap.CreateUnitHeap` | lib/ams/libstratosphere/source/lmem/impl/lmem_impl_unit_heap.cpp:53-128 | for every alignment the code accepts: a heap exactly when one unit fits, in the state of a new heap, within the memory given; less than a unit is left over; units and heap end are aligned when the alignment is a power of two |
| `UnitHeap.TwelveIsNoAlignment` | lib/ams/libstratosphere/source/lmem/impl/lmem_impl_unit_heap.cpp:57-64 | an alignment of 12 passes the checks and puts the first unit of a heap at 1 to address 4 |
| `UnitHeap.RegionInside` | lib/ams/libstratosphere/source/lmem/impl/lmem_impl_unit_heap.cpp:64-88 | the units stay inside the memory given and clear of the heap head |
| `UnitHeap.RegionIsLargest` | lib/ams/libstratosphere/source/lmem/impl/lmem_impl_unit_heap.cpp:64-88 | the region is the largest one: it holds every range of whole alignments that a heap with its head placed in that memory could have its units in; for other alignments it begins less than the alignment behind the first possible address |
| `UnitHeap.UnitIsLeast` | lib/ams/libstratosphere/source/lmem/impl/lmem_impl_unit_heap.cpp:90-91 | for powers of two the unit size is the least multiple of the alignment that holds the asked one |
| `UnitHeap.UnitHeapHead.constructor` | lib/ams/libstratosphere/source/lmem/impl/lmem_impl_unit_heap.cpp:110-124 | the list threaded through memory holds all units of a new heap in order |
| `UnitHeap.UnitHeapHead.Extend` | lib/ams/libstratosphere/source/lmem/impl/lmem_impl_unit_heap.cpp:148-186 | for every size of at least one unit the list threaded through memory and the heap end become those of the specified extension: as many units as fit, from the old heap end on, at the end of the list |
| `UnitHeap.UnitHeapHead.Allocate` | lib/ams/libstratosphere/source/lmem/impl/lmem_impl_unit_heap.cpp:188-203 | pops the first unit: aligned when the units are, not live before, live after; null exactly when all are live |
| `UnitHeap.UnitHeapHead.Free` | lib/ams/libstratosphere/source/lmem/impl/lmem_impl_unit_heap.cpp:205-222 | pushes the unit; null does nothing |
| `UnitHeap.UnitHeapHead.GetFreeCount` | lib/ams/libstratosphere/source/lmem/impl/lmem_impl_unit_heap.cpp:234-242 | walking memory counts the free units; with the live ones they are the heap range divided by the unit size if and only if less than a unit is wasted |
| `UnitHeap.UnitHeapHead.GetUsedCount` | lib/ams/libstratosphere/source/lmem/impl/lmem_impl_unit_heap.cpp:244-247 | the counter is the number of live units |
| `UnitHeap.ChainPush` | lib/ams/libstratosphere/source/lmem/impl/lmem_impl_unit_heap.cpp:46-49 | the pointer writes of a push yield the longer list |
| `UnitHeap.ChainPop` | lib/ams/libstratosphere/source/lmem/impl/lmem_impl_unit_heap.cpp:37-44 | the pointer read of a pop yields the shorter list |
| `UnitHeap.ChainWrite` | lib/ams/libstratosphere/source/lmem/impl/lmem_impl_unit_heap.cpp:205-222 | what a caller writes to a live unit does not disturb the list |
| `AddressSpace.AddressSpaceAllocator.AllocateSpace` | lib/ams/libstratosphere/source/os/impl/os_address_space_allocator.cpp:38-80 | the result is the first drawn position whose span with guards is reported free; it is a multiple of the alignment and in bounds; null only if no position exists or no draw hit; the range assertion holds at each draw |
| `AddressSpace.RangeIsExact` | lib/ams/libstratosphere/source/os/impl/os_address_space_allocator.cpp:54-61 | the positions drawn from are exactly the aligned ones with room for span and guards |
| `AddressSpace.FitsIff` | lib/ams/libstratosphere/source/os/impl/os_address_space_allocator.cpp:22-61 | in bytes: the positions drawn from are exactly those at or above the start address rounded down to a page plus the guard, whose pages end at or below the end address rounded down |
| `AddressSpace.GuardAboveStartIff` | lib/ams/libstratosphere/source/os/impl/os_address_space_allocator.cpp:22-30 | the guard lies above the start address itself, at every position, if and only if that begins a page or there is no position |
| `AddressSpace.CallIsGuardedIff` | lib/ams/libstratosphere/source/os/impl/os_address_space_allocator.cpp:38-80 | for a size and an alignment: whatever the memory looks like every pick lies with its guards in one free region, if and only if there is no position to draw or the span at the last position ends below the top of the address space |
| `AddressSpace.SpaceIsGuardedIff` | lib/ams/libstratosphere/source/os/impl/os_address_space_allocator.cpp:22-80 | every pick of every call that asks for memory does, if and only if the space ends below the top or has no room for a page between guards |
| `AddressSpace.GuardPastTheTop` | lib/ams/libstratosphere/source/os/impl/os_address_space_allocator.cpp:22-30 | a concrete space whose constructor checks pass and whose last guard page does not exist |
| `AddressSpace.NothingWraps` | lib/ams/libstratosphere/source/os/impl/os_address_space_allocator.cpp:49-74 | for every space the constructor makes no subtraction goes below zero and no product leaves 64 bits; the end of a span reaches 2^64 only when the space does |
| `AddressSpace.SpaceOfOk` | lib/ams/libstratosphere/source/os/impl/os_address_space_allocator.cpp:22-30 | what the constructor checks is enough, up to that last guard page; the guard covers its size if and only if that is at most 2^64 minus a page |
| `AddressSpace.CheckIsRightIff` | lib/ams/libstratosphere/source/os/impl/os_address_space_allocator_impl.os.horizon.hpp:21-29 | the free-space check is right exactly while the end of the span does not wrap |
| `AddressSpace.PagesCoverIff` | lib/ams/libstratosphere/source/os/impl/os_address_space_allocator.cpp:42-43 | the page count covers the size if and only if the size is at most 2^64 minus a page; above, it is 0 |
| `Hotkeys.ClosedPressActsOnce` | src/hotkey_service.cpp:97-118 | every released press acts exactly once: long at its first late poll, else short at the poll that sees the release |
| `Hotkeys.OpenPressActsAtMostOnce` | src/hotkey_service.cpp:97-118 | a press still held has acted at most once, and only long, exactly if a poll came late |
| `Hotkeys.IdleEmitsNothing` | src/hotkey_service.cpp:108-116 | other polls do nothing |
| `Hotkeys.ComboPressedIff` | src/hotkey_service.cpp:148-160 | which buttons each combination is on a Lucia and on another controller, and that it is pressed exactly when these are held |
| `Hotkeys.GonePressesNothing` | src/hotkey_service.cpp:174-186 | a controller without states or not connected presses nothing, and another one what its buttons say |
| `Hotkeys.GoneEndsPress` | src/hotkey_service.cpp:108-186 | when a controller goes away in the middle of a press, that acts as if released |
| `Hotkeys.DuringPress` | src/hotkey_service.cpp:101-107 | what the cache holds during a press |
| `Hotkeys.HotkeyService.ProcessHidState` | src/hotkey_service.cpp:97-118 | the loop moves each combination by itself and emits the actions in order |
| `Hotkeys.HotkeyService.PollHidStates` | src/hotkey_service.cpp:174-186 | all controllers, each with its own cache; a disconnected one counts as released |
| `Hotkeys.CachesAreTraces` | src/hotkey_service.cpp:97-118 | after any number of rounds the cache of each combination is what its own polls leave |
| `Hotkeys.PadsAreActed` | src/hotkey_service.cpp:174-186 | one round does, controller by controller and combination by combination, exactly what the polls of each call for |
| `Hotkeys.RoundInOrder` | src/hotkey_service.cpp:97-186 | a round does what the polls call for in order: the three combinations of each of the four controllers, from the first on |
| `Hotkeys.DoesOne` | src/hotkey_service.cpp:101-117 | a poll does nothing exactly when nothing is called for, and else one thing, long or short as called for |
| `Hotkeys.HotkeyService.PollWhileRunning` | src/hotkey_service.cpp:188-208 | over any number of rounds the actions are exactly those of the polls of all combinations, in order |

## Left out

- ExpHeap: group ids and allocation directions of blocks are in `BlockAttributes` only, not in the heap state; freeing by group and visiting blocks are not modelled.
- ExpHeap: the used list is ordered by allocation and indexed instead of linked by pointers; stale headers, double frees, debug fill, the lock around the heap and destroying a heap are not modelled.
- RwLock: the blocking acquires and the paths with waiters; they rest on kernel arbitration whose code is not part of this model.
- RwLock: a thread that would exceed a count bound stops at the code's assertion.
- IniParser: the file reader, and flags other than the defaults; text is 8-bit characters without the terminator.
- MessageQueue: waiting, timeouts and wait lists; a waiting operation runs the same bodies once it may.
- TipcServer: deferral and resume messages, sub-objects added by `AddSession`, the singleton allocator, and whether a send to a full queue ever gets room (a server whose queues hold fewer than two words cannot accept at all).
- TipcServer: requests and replies themselves; a request is handled, ends in a close, or is reported as closed already. The three closing paths make the same calls in the same order and share their steps.
- TipcServer: the server mutex, nested in the code, is taken and released once; the object manager's and the slab's mutexes make their calls single steps.
- TipcServer.RunNeverAborts: a sufficient condition on one run, about its interior; whether a server can abort at all is decided by `TipcOverfill.AbortsIff`.
- TipcOverfill.AbortsIff: every port may have at least one session, and handles are given out for at most 2^32 of them; a port without sessions never accepts.
- TipcObjects: waitable holders and the list they are linked to.
- UnitHeap: invalidating and destroying a heap, debug fill, and the required-size query, which ignores the unit count.
- UnitHeap.CreateUnitHeap: assumes the rounded sums stay below 2^64, as they do for memory that exists.
- UnitHeap.UnitHeapHead.Extend: assumes that the bytes behind the heap exist, so that its end does not wrap.
- ExpHeap.HeapHead.GetAllocatableSize: leaves out the alignment -2^31, whose absolute value does not fit 32 bits.
- AddressSpace: `CheckGuardSpace`, which nothing here calls, and the lock around one draw.
- Hotkeys: what an action sends to the applet service, reading controllers, and converting nanoseconds to ticks; durations are given in ticks.
- Timer events, thread and waitable managers, the other heaps, sockets, IPC dispatch, logging and crash handling: not part of this model.
