# Verified models of orbit's memory, paging, channel and permission core

This project models four parts of the orbit operating system and proves what they are for.

- **Frames** (`Powers`, `Buddy`, `FramePool`, `FrameAllocator`): the buddy allocator of physical
  frames. `FrameAllocators.FrameAllocator` runs its loops in place; `FramePool` states what they
  compute and proves it over every run.
- **Page tables** (`Sv48`, `PageTree`, `PageAlloc`, `PageViews`, `Ranges`, `Obstacles`, `Tiling`,
  `CutOffs`, `BulkMaps`, `Ungranted`, `MapOps`, `Mmap`): the Sv48 tables of the RISC-V Privileged
  Architecture, version 20211203, section 4.5. `Mmap.AddressSpace` performs the stores in place on a
  model of physical memory. Ghost fields record the tables of the tree and the memory after every
  single store. Translation (`Lookup`) gives the physical address, the flags and the leaf's level, and
  is defined on raw memory, independently of how tables are built.
- **Network channels** (`Spsc`, `SpscSteps`, `NetChannel`, `NetChannelUpdate`, `NetChannelRuns`,
  `NetChannelPhases`, `NetChannelTokens`): the shared rings, and the kernel's reconciler against any
  socket and any user. An interference function may rewrite the rings before every ring operation of
  a poll.
- **Spawning** (`Roles`, `Argv`): role transitions and permission narrowing over process trees, and
  the argument blob from the parent's buffer through the kernel's page to the child.

`dafny verify dfyconfig.toml` checks everything.

## Main results

1. `map_va_range`, `id_map_range` and `map_address_range` map exactly the requested range, leave
   every other address as it was, and fail only for reasons that are stated. The leaf sizes chosen
   use the fewest leaves possible, each byte is mapped by the leaf chosen for it, and the report
   counts those leaves size by size.
2. `map_address_page` is invisible outside its page at every single store, never overwrites a valid
   leaf, and succeeds exactly on aligned free pages while frames last. It keeps the tree if and only
   if it fails or grants R, W or X.
3. In any run of operations that grant R, W or X, each operation succeeds, fails and changes the
   translation as stated for it; `unmap` then frees each table of the tree exactly once. The frame
   allocator misses exactly the tables that overwriting mappings cut off on the way, and is restored
   if and only if there were none. Which tables a mapping cuts off is told by the tables before the
   call.
4. Over every run of the frame allocator, free and held blocks are disjoint, aligned and cover
   exactly the frames added, and the counters agree. A request for a count takes exactly the least
   power of two of frames that holds it. On coalesced lists the search for a block is complete and
   giving a block straight back restores every list. A run keeps coalesced lists coalesced if none of
   its added ranges leaves a buddy behind.
5. The ring is first-in first-out under every interleaving of its loads and stores.
6. Whatever the user writes, the reconciler passes to the socket only counts within the last
   staged slice, once each. The owner is told of a slice if and only if one was staged. An honest
   user never sees an I/O failure that the socket did not report. The phase after every poll is told
   exactly by the channel, the socket's answers and what the rings show.
7. No process outgrows an ancestor, what a pledge drops stays dropped, no lineage makes more than
   four role transitions, and arguments round-trip exactly when they hold no NUL byte. For any
   accepted blob, the child's scan of an argument stays inside the page if and only if a NUL follows
   it there.

## Where a promise does not hold

- Seeding from frame 0: `add_frame` takes 32 as the lowest set bit of 0. A fresh allocator
  is coalesced if and only if seeding does not start at 0 with at least 64 frames and 7 classes
  (`FreshCoalescedIff`); otherwise a request for 64 free frames can fail (`UncoalescedAllocFails`).
- Adding ranges: `add_frame` does not merge. It keeps a coalesced pool coalesced if and only if no
  block that the range is cut into has its buddy listed (`AddCoalescedIff`); adding [4, 6) and then
  [6, 8) does not (`AddUncoalesces`).
- Merging past the top class: `dealloc` loses the block when every class up to the top lists the
  buddy it has reached (`DeallocExactIff`, `DeallocLosesFrames`). Within the documented bound on the
  number of frames this cannot happen (`NoFallOff`).
- `reserve_va_range` strides by 2 MiB from its start. It reaches the whole range if and only if
  the start's offset in its 2 MiB block and the tail of the length fit one stride, or the range is
  within 2 MiB of the whole 48-bit space (`StridesCoverIff`).
- A range longer than 2^48 bytes cannot be mapped by any tables (`MapsRangeBound`), so the mapping
  results are stated up to that length.
- `map_page`, and with it the bulk mappings, overwrites an entry that points at a table; the tables
  inside the page stay allocated and are never freed. This happens if and only if a table hangs in
  the slot of the page (`MapPage`), or of one of the chosen leaves (`RangeCost` in the contracts of
  `MapVaRange` and `IdMapRange`). `LeakExample` and `SmallThenLarge` give an input: a 4 KiB page,
  then the 2 MiB around it.
- A mapping request that grants none of R, W and X builds an entry that reads as a table pointer.
  The kernel passes such a request on when `mmap` is called with an empty permission word
  (orbit-core/src/syscall.rs:83-119, kmain/src/kernel/mod.rs:802). Storing the entry keeps the tree
  if and only if the request grants something (`TreeIffGrants`, and in the contracts of
  `MapAddressPage` and `MapAddressRange`). Above the leaf level the data frame becomes a table
  (`FrameBecomesTable`), and `unmap` takes it for one that it has to free (`UnmapFreesFrame`).
  `UngrantedExample` is one 2 MiB page with U alone.
- The documentation of `UpdateOutcome` says that draining transmit increments reports ring
  progress. The code reports it if and only if it stages a slice (`WakeIffNews`); with 5 bytes
  acknowledged and nothing to stage, a poll drains them and wakes nobody (`DrainWakesNobody`).
- `UpdateOutcome` says that the state changed also when a retained client dials and is refused
  within one poll, which leaves the published state as it was (`WakeIffNews`, `BounceExample`). This
  needs a socket that reads as closed right after it accepted the dial, which the socket oracle allows.
- The kernel accepts a full-page argument blob whose last string has no NUL (`UnterminatedBlob`);
  reading that string leaves the page (`ScanStaysInside`). Blobs shorter than a page, and all packed
  ones, are safe.
- A `send_tcp` or `recv_tcp` closure that consumes nothing takes the slice and reports no
  increment. That direction stays silent for the rest of the session (`CallKeepsToken`,
  `WedgedForSession`).
- A user who has not reset its half of an increment ring when the next session goes live loses that
  session (`LeftoverFails`; `ResetConsumer` states what such a ring shows).

## Model

| member | source | states |
|---|---|---|
| `Powers.XorBitIsBuddy` | mem/src/frame.rs:185-186 | flipping bit k of an aligned block start gives the other half of the block one class up, and the smaller of the two is that block's start |
| `Powers.NextPow2IsLeast` | mem/src/frame.rs:107-110 | the rounded count is a power of two, at least the count, and the least such |
| `Buddy.SplitTakeCovers` | mem/src/frame.rs:129-148 | splitting a block and taking its left-most piece removes exactly that piece from the free frames and keeps the lists disjoint and aligned |
| `Buddy.TakenWasFree` | mem/src/frame.rs:123-158 | the block handed out is aligned to its size and was free as a whole |
| `Buddy.SplitTakeCoalesced` | mem/src/frame.rs:123-158 | splitting from the first non-empty class leaves no two free buddies |
| `Buddy.MergeCovers` | mem/src/frame.rs:178-200 | merging adds exactly the freed block to the free frames, unless it runs off the top class, and then it says exactly which frames are lost |
| `Buddy.MergeCoalesced` | mem/src/frame.rs:178-200 | freeing keeps the lists free of buddy pairs |
| `Buddy.BlocksDisjoint` | mem/src/frame.rs:58-84 | two listed blocks of any classes never share a frame |
| `Buddy.FreeRunIsListed` | mem/src/frame.rs:123-158 | on coalesced lists every fully free aligned run lies inside one listed block |
| `Buddy.CoalescedUnique` | mem/src/frame.rs:178-200 | coalesced lists are determined by the set of free frames |
| `FramePool.SeedCovers` | mem/src/frame.rs:58-84 | seeding a range makes exactly the frames of the range free in addition, in disjoint aligned blocks |
| `FramePool.NoFallOff` | mem/src/frame.rs:19-21 | within the documented bound, freeing a held block never runs off the top class |
| `FramePool.AddInv` | mem/src/frame.rs:58-84 | adding a fresh range keeps the allocator's invariant |
| `FramePool.AllocInv` | mem/src/frame.rs:123-158 | allocation keeps the invariant, whether it succeeds or not |
| `FramePool.DeallocInv` | mem/src/frame.rs:178-200 | giving back a held block keeps the invariant |
| `FramePool.RunKeepsInv` | mem/src/frame.rs:58-200 | over every run, free and held blocks are aligned, disjoint and cover exactly the added frames, and free plus allocated equals total |
| `FramePool.RunLast` | mem/src/frame.rs:58-200 | a run performs its operations one after the other |
| `FramePool.AllocTakes` | mem/src/frame.rs:123-158 | a successful allocation of a class moves exactly that many frames, aligned to their number, from the free frames to the callers, and the counter with them |
| `FramePool.DeallocGives` | mem/src/frame.rs:178-200 | giving a held block back is the exact reverse |
| `FramePool.CountClassIs` | mem/src/frame.rs:107-110 | a count gets the smallest class whose blocks hold it |
| `FramePool.AllocKeepsCoalesced` | mem/src/frame.rs:123-158 | allocation keeps a coalesced pool coalesced |
| `FramePool.RunKeepsCoalesced` | mem/src/frame.rs:58-200 | every legal run keeps a coalesced pool coalesced if its added ranges leave no buddy behind, so the search stays complete throughout |
| `FramePool.AddCoalescedIff` | mem/src/frame.rs:58-84 | adding a range keeps a coalesced pool coalesced if and only if no block that it is cut into has its buddy listed |
| `FramePool.AddUncoalesces` | mem/src/frame.rs:58-84 | adding two adjacent ranges leaves two free buddies |
| `FramePool.HeldMore` | mem/src/frame.rs:95-103 | held blocks and added frames determine both counters and the free frames: blocks held in addition are exactly what is missing |
| `FramePool.AllocComplete` | mem/src/frame.rs:123-158 | on a coalesced pool a request succeeds if and only if some aligned run of that many free frames exists |
| `FramePool.AllocThenDealloc` | mem/src/frame.rs:123-200 | giving a block straight back restores the free frames and counters, and on a coalesced pool every list |
| `FramePool.FreshCoalescedIff` | mem/src/frame.rs:58-84 | a freshly seeded allocator is coalesced unless seeding starts at frame 0 and ends at or past frame 64 with at least 7 classes |
| `FramePool.DeallocExactIff` | mem/src/frame.rs:178-200 | without the bound, freeing is exact if and only if some class does not list the buddy reached there |
| `FramePool.DeallocLosesFrames` | mem/src/frame.rs:178-200 | with one class, freeing one of two frames loses both |
| `FramePool.UncoalescedAllocFails` | mem/src/frame.rs:58-158 | seeded over the first 64 frames, a request for all 64 fails although they are free |
| `FrameAllocators.FrameAllocator.constructor` | mem/src/frame.rs:49-55 | a new allocator has no blocks |
| `FrameAllocators.FrameAllocator.AddFrame` | mem/src/frame.rs:58-84 | adding a range makes exactly its frames free in addition, within the documented bound, and counts them |
| `FrameAllocators.FrameAllocator.SeedRange` | mem/src/frame.rs:61-83 | the seeding loop computes the seeding function and counts the whole range |
| `FrameAllocators.FrameAllocator.Alloc` | mem/src/frame.rs:107-110 | on success the least power of two of frames that holds the count leaves the free frames, aligned to that size; every frame of the count was free before and is not after; on failure nothing changes |
| `FrameAllocators.FrameAllocator.AllocAligned` | mem/src/frame.rs:116-119 | the same for the larger of the rounded size and the alignment |
| `FrameAllocators.FrameAllocator.AllocPowerOfTwo` | mem/src/frame.rs:123-158 | the same for a power of two |
| `FrameAllocators.FrameAllocator.TakeBlock` | mem/src/frame.rs:123-158 | the class search returns the least block of the first non-empty class, split down |
| `FrameAllocators.FrameAllocator.SplitDown` | mem/src/frame.rs:129-148 | the split loop leaves the lists that the split function gives |
| `FrameAllocators.FrameAllocator.Dealloc` | mem/src/frame.rs:163-166 | exactly the frames that the allocation of that count took are free again |
| `FrameAllocators.FrameAllocator.DeallocAligned` | mem/src/frame.rs:171-174 | the same for the larger of the rounded size and the alignment |
| `FrameAllocators.FrameAllocator.DeallocPowerOfTwo` | mem/src/frame.rs:178-200 | the same for a power of two |
| `FrameAllocators.FrameAllocator.MergeFree` | mem/src/frame.rs:184-197 | the merge loop computes the merge function |
| `FrameAllocators.SeedSize` | mem/src/lib.rs:11-13 | the size the seeding loop takes is the power of two of the seed class and fits the range |
| `FrameAllocators.LayoutPow2` | mem/src/frame.rs:116-119 | a layout's block size is a power of two that honours size and alignment |
| `Sv48.PackLeafFields` | mmu/src/sv48.rs:195-202 | a leaf entry gives back its page, its permissions bit by bit and its tag, has V, A and D set, and reads as a leaf if and only if one of R, W, X is set |
| `Sv48.PackTableFields` | mmu/src/sv48.rs:207-209 | a table entry gives back its page and reads as a table pointer |
| `Sv48.PpnAgree` | mmu/src/sv48.rs:211-214 | both ways of following an entry agree while the reserved bits are clear |
| `Sv48.VpnSlot` | mmu/src/sv48.rs:37-41 | an address lies in the slot that its index selects in the table that spans it |
| `Sv48.SlotVpn` | mmu/src/sv48.rs:37-41 | every slot start selects its own index, and slots stay inside their table's span |
| `PageTree.WalkSound` | mmu/src/mmap.rs:140-157 | walking down for an address only meets tables that span it |
| `PageTree.WalkFinds` | mmu/src/mmap.rs:140-157 | every table of the tree is found by walking down for any address it spans |
| `PageTree.ReachedOnce` | mmu/src/mmap.rs:506-521 | every table is reached through exactly one entry, and the root through none |
| `PageTree.TranslateFrame` | mmu/src/mmap.rs:404-454 | a change of one entry is seen only by the addresses of its slot |
| `PageTree.LinkInvisible` | mmu/src/mmap.rs:168-221 | linking a zeroed table under an invalid entry changes no translation |
| `PageTree.LinkTree` | mmu/src/mmap.rs:168-221 | linking a fresh zeroed table keeps the tree |
| `PageTree.OverwriteTree` | mmu/src/mmap.rs:527-572 | overwriting any entry with a leaf keeps a tree, without the tables below a lost pointer |
| `PageAllocs.PageTableVec.AllocatePageTable` | mmu/src/mmap.rs:33-42 | frames come out in order, each once, until the vector is used up, and exactly then it fails |
| `PageAllocs.PageAlloc.AllocatePageTable` | mmu/src/mmap.rs:100-109 | a fresh page-aligned frame is taken; the request fails if and only if the vector is used up or every free list from the page class up is empty |
| `PageAllocs.DryHasNoPage` | mmu/src/mmap.rs:100-109 | on a coalesced pool those lists are empty if and only if no aligned free page is left |
| `PageAllocs.PageAlloc.FreePage` | mmu/src/mmap.rs:112-121 | the frame allocator takes the page back; a vector refuses and keeps its state |
| `PageAllocs.PageTaken` | mmu/src/mmap.rs:100-109 | a page from the buddy allocator was free, is aligned and was not already held |
| `Ranges.MapsRangeBound` | mmu/src/mmap.rs:596-660 | no tables map more than 2^48 consecutive bytes |
| `Ranges.StridesCover` | mmu/src/mmap.rs:283-304 | a range that fits its strides, as every range from a 2 MiB boundary does, is visited as a whole |
| `Ranges.StridesCoverIff` | mmu/src/mmap.rs:283-304 | the strides reach the whole range if and only if it fits them or is within 2 MiB of the whole 48-bit space |
| `Ranges.ReservedStep` | mmu/src/mmap.rs:168-221 | materialising the path of one address reserves exactly its 2 MiB block in addition |
| `Ranges.SlotTablesAre` | mmu/src/mmap.rs:506-521 | the tables below a slot are the child it points at and those below the child |
| `Obstacles.StuckIff` | mmu/src/mmap.rs:168-221 | the walk for a mapped address fails to reach a level if and only if a larger leaf maps it |
| `Obstacles.SlotOccupied` | mmu/src/mmap.rs:223-277 | a page's slot is valid if and only if the address is mapped or a smaller table hangs there |
| `Obstacles.OccupiedBefore` | mmu/src/mmap.rs:223-277 | adding tables at or above a page's level neither occupies nor frees the page |
| `Obstacles.LeafAtIff` | mmu/src/mmap.rs:460-474 | a page has a 4 KiB leaf if and only if its leaf table exists and it is mapped |
| `Tiling.ReportExact` | mmu/src/mmap.rs:613-659 | the leaves counted in the report add up to the length rounded down to a page |
| `Tiling.ReportCounts` | mmu/src/mmap.rs:649-654 | the report that the loop adds up is the number of chosen leaves of each size |
| `Tiling.LeavesStep` | mmu/src/mmap.rs:613-659 | the leaf of each round is the one that its bytes fall into in the whole plan |
| `Tiling.TilesAreATiling` | mmu/src/mmap.rs:613-659 | from page-aligned starts the chosen leaves tile the range, aligned on both sides |
| `Tiling.TilesOptimal` | mmu/src/mmap.rs:613-659 | no tiling by doubly aligned leaves uses fewer leaves |
| `Mmap.AddressSpace.constructor` | mmu/src/mmap.rs:61-72 | a zeroed root is an empty tree |
| `Mmap.AddressSpace.ZeroTable` | mmu/src/mmap.rs:192-193 | zeroing a frame outside the tree, entry by entry, is invisible at every store |
| `Mmap.AddressSpace.WalkMaterialize` | mmu/src/mmap.rs:168-221 | the table for the address is reached, adding only tables on its path; invisible at every store; it fails only for want of a frame or on a larger leaf |
| `Mmap.AddressSpace.MapAddressPage` | mmu/src/mmap.rs:223-277 | on success the page was free and maps to its frame with its permissions, tag and size if the request grants R, W or X; other pages are unchanged at every store and no valid leaf is overwritten; it succeeds exactly on aligned free pages while frames last; the tree is kept if and only if it fails or grants something, and otherwise a walk finds the frame as a table |
| `Mmap.AddressSpace.PutAnyway` | mmu/src/mmap.rs:527-572 | the page maps to its frame with its permissions over whatever was there, and exactly the tables inside the page are cut off |
| `Mmap.AddressSpace.MapPage` | mmu/src/mmap.rs:527-572 | the page maps to its frame with its permissions and all other pages are unchanged; it fails only if misaligned, out of frames or under a larger leaf; every frame taken is accounted for, and exactly the tables inside the page are cut off, none if and only if no table hung in its slot |
| `Mmap.AddressSpace.MapVaRange` | mmu/src/mmap.rs:596-660 | every byte of the range rounded down to a page translates to the byte at its offset with the requested permissions, by a leaf of the size chosen for it, and the report counts the chosen leaves of each size; a failure leaves the range mapped up to some offset, and all other addresses keep their translation on every outcome; a misaligned start fails, and an aligned request fails only if out of frames or if a chosen leaf lies under a larger one, as none does on success; every frame taken is accounted for, and exactly the tables inside the chosen leaves are cut off, none if and only if no chosen leaf found a table in its slot |
| `Mmap.AddressSpace.IdMapRange` | mmu/src/mmap.rs:663-735 | the same with equal addresses: the chosen leaves, their counts in the report, the failures and the costs are those of map_va_range |
| `Mmap.AddressSpace.PickOne` | mmu/src/mmap.rs:684-698 | choosing by the one address agrees with choosing by both |
| `Mmap.AddressSpace.MapAddressRange` | mmu/src/mmap.rs:333-381 | on success the whole pages of the range were unmapped and are now mapped by leaves of the requested size and permissions if it grants R, W or X; a failure leaves the range mapped up to some offset; other addresses and all valid leaves are kept; an aligned request of equal lengths fails only if out of frames, if some page was occupied or if the range meets itself again, and the tree is kept if and only if it fails, grants something or is less than a page |
| `Mmap.AddressSpace.ReserveVaRange` | mmu/src/mmap.rs:283-304 | nothing visible changes, exactly the strides' blocks become reserved, and it fails only if misaligned, out of frames or on a large leaf at some stride |
| `Mmap.AddressSpace.Walk` | mmu/src/mmap.rs:140-157 | the loop finds the table that the walk function finds |
| `Mmap.AddressSpace.WriteLeafPte` | mmu/src/mmap.rs:313-331 | it succeeds if and only if the page is reserved; the page then maps to the written frame and flags or to nothing, other pages are unchanged and reservations stay |
| `Mmap.AddressSpace.ReserveAndWrite` | mmu/src/mmap.rs:283-331 | after a successful reservation whose strides reach the range, writing any page of it succeeds and changes only that page |
| `Mmap.AddressSpace.UnmapPage` | mmu/src/mmap.rs:460-474 | it succeeds if and only if a leaf of that size is there; the page is then unmapped and other pages are unchanged |
| `Mmap.AddressSpace.UnmapRange` | mmu/src/mmap.rs:478-488 | it succeeds if and only if the bounds are aligned, the range is at most 2^48 bytes and every page has its own 4 KiB leaf; then the range is unmapped, a failure leaves it cleared up to some offset, and other addresses keep their translation |
| `Mmap.AddressSpace.WalkPteChain` | mmu/src/mmap.rs:404-431 | the recorded steps are the entries in memory that the walk meets, level by level down to the first that is no pointer, and the last one determines the translation |
| `Mmap.AddressSpace.VirtToPhys` | mmu/src/mmap.rs:434-454 | the result is the physical address of the address's translation, and none without one |
| `Mmap.AddressSpace.UnmapSubtree` | mmu/src/mmap.rs:506-521 | every table below is freed exactly once |
| `Mmap.AddressSpace.Unmap` | mmu/src/mmap.rs:502-504 | every table but the root is freed exactly once, and nothing else |
| `Mmap.AddressSpace.RunOps` | mmu/src/mmap.rs:223-474 | every state of a run is linked to the next by what its operation does and by whether it succeeds; the frames taken are exactly the tables added and the tables cut off; nothing is cut off if no operation found a table in its way, and something is if one that did succeeded, where no range meets itself again |
| `Mmap.AddressSpace.Lifetime` | mmu/src/mmap.rs:490-521 | any such run on an empty root followed by unmap gives every table of the tree back once; the frame allocator's held blocks, counter and free frames then differ by exactly the tables cut off, and are restored if and only if there were none, as when no operation found a table in its way and no range meets itself again |
| `Mmap.AddressSpace.Apply` | mmu/src/mmap.rs:223-735 | one operation of any kind succeeds on its stated condition, changes the translation as stated for it and keeps the books; unless its range meets itself again, it cuts nothing off if it finds no table in its way, and if it succeeds, only then |
| `MapOps.RunBooks` | mmu/src/mmap.rs:223-735 | over every prefix of a run of operations the frames taken are the tables added and those cut off, with the same conditions for cutting off |
| `Ungranted.TreeIffGrants` | mmu/src/sv48.rs:195-202 | storing the entry of a request in a slot without a table keeps the tree if and only if the request grants R, W or X |
| `Ungranted.FrameBecomesTable` | mmu/src/mmap.rs:223-277 | above the leaf level a request that grants nothing hangs its zeroed frame into the tree as a table |
| `Ungranted.UnmapFreesFrame` | mmu/src/mmap.rs:502-521 | the tables that unmap frees then include the data frame |
| `Ungranted.UngrantedExample` | kmain/src/kernel/mod.rs:801-820 | a concrete 2 MiB request with U alone: the page is unmapped, the kernel's tree is lost and the frame is a table |
| `Mmap.AddressSpace.SmallThenLarge` | mmu/src/mmap.rs:527-572 | after a 4 KiB page is mapped, map_page of the 2 MiB around it always succeeds and cuts a table off |
| `CutOffs.CutOffIff` | mmu/src/mmap.rs:527-572 | tables lie inside a page if and only if a walk finds one in the page's slot |
| `CutOffs.RangeCutIff` | mmu/src/mmap.rs:596-660 | tables lie inside the chosen leaves of a range if and only if a walk finds one in the slot of some chosen leaf |
| `CutOffs.LeakExample` | mmu/src/mmap.rs:527-572 | a concrete address space with one 4 KiB page in which a 2 MiB leaf cuts off exactly its leaf table |
| `BulkMaps.UnderwayStep` | mmu/src/mmap.rs:613-659 | one round of the bulk loop extends the mapped range, keeps everything else, and keeps report and books exact |
| `Spsc.SpscQueue.Enqueue` | net_channel/src/spsc.rs:77-88 | the value is appended unless N-1 values are queued, and then nothing changes |
| `Spsc.SpscQueue.Dequeue` | net_channel/src/spsc.rs:93-101 | the first value is taken, or the queue is empty |
| `Spsc.SpscQueue.IsEmpty` | net_channel/src/spsc.rs:104-106 | exactly if nothing is queued |
| `Spsc.SpscQueue.IsFull` | net_channel/src/spsc.rs:109-113 | exactly if N-1 values are queued |
| `Spsc.SpscQueue.Len` | net_channel/src/spsc.rs:116-120 | the number of values queued |
| `Spsc.SpscQueue.ResetProducer` | net_channel/src/spsc.rs:131-133 | the slots shown until the consumer resets too |
| `Spsc.SpscQueue.ResetConsumer` | net_channel/src/spsc.rs:142-144 | the slots shown until the producer resets too |
| `SpscSteps.UnreadKept` | net_channel/src/spsc.rs:77-101 | no step of either side overwrites an unread slot |
| `SpscSteps.StepKeepsInv` | net_channel/src/spsc.rs:77-101 | every load, slot access or store of either side keeps the ring's invariant |
| `SpscSteps.TurnedAway` | net_channel/src/spsc.rs:77-101 | the full test turns the producer away if and only if N-1 values are queued then, and the empty test the consumer if and only if none is |
| `SpscSteps.StepsOn` | net_channel/src/spsc.rs:77-101 | past its test a producer gets its value in and a consumer the oldest value out, and neither side moves the other |
| `SpscSteps.AloneEnqueues` | net_channel/src/spsc.rs:77-88 | an undisturbed enqueue appends its value unless N-1 are queued |
| `SpscSteps.AloneDequeues` | net_channel/src/spsc.rs:90-101 | an undisturbed dequeue takes the oldest value unless there is none |
| `SpscSteps.ZeroedInv` | net_channel/src/spsc.rs:64-71 | a zeroed ring meets the invariant |
| `SpscSteps.RunIsFifo` | net_channel/src/spsc.rs:64-120 | over every interleaving, what comes out is a prefix of what went in and at most N-1 values are queued |
| `NetChannelUpdate.Reconciler.constructor` | net_channel/src/lib.rs:582-596 | a new context is the initial channel and meets the invariant |
| `NetChannelUpdate.Reconciler.DrainIncrements` | net_channel/src/lib.rs:1288-1323 | the drain loop computes the recursive drain; whoever writes the ring meanwhile, nothing is staged and every count passed on is within the slice it acknowledges |
| `NetChannelUpdate.Reconciler.Update` | net_channel/src/lib.rs:975-1390 | one poll in place does what the reconciler function does and keeps the invariant: the published code is the phase's, counts stay within staged slices, a slice is reported if and only if one was staged and a state change if and only if it changed or bounced; the phase it leads to is exactly that of the decision table, Failed is final, and a session ends only by letting go or by an I/O failure |
| `NetChannelRuns.NewInv` | net_channel/src/lib.rs:582-596 | a new channel meets the invariant |
| `NetChannelRuns.DrainFacts` | net_channel/src/lib.rs:1020-1046 | against any writer a drain pops at most two increments, touches only its direction, and passes on only counts within the last staged slice |
| `NetChannelRuns.BackoffStep` | net_channel/src/lib.rs:694-703 | the doubling with cap is min(100 * 2^(k-1), 30000) ms after k failures |
| `NetChannelRuns.DisengageInv` | net_channel/src/lib.rs:1012-1069 | the disengage edge keeps the invariant and ends closing, or failed with an I/O cause |
| `NetChannelRuns.RecycleInv` | net_channel/src/lib.rs:1075-1143 | the end of a session keeps the invariant |
| `NetChannelRuns.ArmInv` | net_channel/src/lib.rs:1146-1208 | arming keeps the invariant |
| `NetChannelRuns.HandshakeInv` | net_channel/src/lib.rs:1211-1273 | the handshake keeps the invariant |
| `NetChannelRuns.PumpFacts` | net_channel/src/lib.rs:1276-1387 | the active block keeps the invariant, ends a session only by an I/O failure, and reports progress if and only if it stages a slice |
| `NetChannelRuns.RunInv` | net_channel/src/lib.rs:975-1390 | over every run against any socket and user: published code matches phase, pending marks a positive staged length, each failure cause fits the binding and its history, one-shot bindings have at most one session, the backoff is exact, and every count passed to the socket acknowledges the last staged slice once, within its length |
| `NetChannelRuns.AfterLast` | net_channel/src/lib.rs:975-1390 | each poll of a run works on what the polls before it left |
| `NetChannelPhases.DrainExact` | net_channel/src/lib.rs:1288-1325 | how a drain ends, what it passes on and what it leaves pending, from the first two pops |
| `NetChannelPhases.PumpLaneExact` | net_channel/src/lib.rs:1276-1387 | all that a poll does in one direction of a session: when it breaks the session, passes a count on and stages a slice |
| `NetChannelPhases.PollMoves` | net_channel/src/lib.rs:975-1390 | the phase after every poll: a waiting channel goes live if and only if the socket is up, a closing one is recycled if and only if it is drained and then by its binding, a fresh server listens if and only if it can, a client that may dial connects if and only if the dial is accepted and falls back if and only if it is refused, and a session fails if and only if a direction breaks it |
| `NetChannelPhases.LiveIff` | net_channel/src/lib.rs:1145-1270 | a session begins if and only if the socket is up on a channel that waits for a peer or comes to wait for one in this poll |
| `NetChannelRuns.FailedForever` | net_channel/src/lib.rs:999-1001 | Failed is absorbing over every run, with its cause, code and log |
| `NetChannelRuns.ActiveLeft` | net_channel/src/lib.rs:1012-1069 | Active is left only by the user letting go or by an I/O failure |
| `NetChannelRuns.WakeIffNews` | net_channel/src/lib.rs:609-636 | a poll reports ring progress if and only if it staged a slice, and a state change if and only if the published state changed or a dial was refused within the poll |
| `NetChannelRuns.BounceExample` | net_channel/src/lib.rs:1165-1269 | a concrete poll that dials, is refused and reports a change although the published state is the same |
| `NetChannelRuns.DrainWakesNobody` | net_channel/src/lib.rs:615-619 | a concrete poll that drains a transmit increment and wakes nobody, against the documentation of ring progress |
| `NetChannelRuns.NoEarlyDial` | net_channel/src/lib.rs:1165-1183 | a retained client does not dial before the last failure plus min(100 * 2^(k-1), 30000) ms |
| `NetChannelRuns.WaitsToDial` | net_channel/src/lib.rs:1165-1206 | a client that may not dial yet, by its backoff or because its user is not engaged, stays as it is |
| `NetChannelRuns.DrainPasses` | net_channel/src/lib.rs:1020-1046 | a drain that ends well has emptied the ring, and the increment it found first went to the socket first |
| `NetChannelRuns.DisengageFlushes` | net_channel/src/lib.rs:1012-1069 | letting go sends what the user had reported as written before the connection closes |
| `NetChannelTokens.SessionStages` | net_channel/src/lib.rs:1276-1387 | with an honest user, a poll that keeps the session leaves a slice with the user in every direction in which the socket has one |
| `NetChannelTokens.CallKeepsToken` | net_channel/src/lib.rs:1393-1479 | a user call is refused without effect, or takes the two steps of the protocol if it reports within the slice, and loses the token if and only if it reports nothing |
| `NetChannelTokens.CallServedIff` | net_channel/src/lib.rs:1393-1479 | send_tcp is served only in a live session and recv_tcp also in a closing one, with a slice queued and room to report; otherwise the refusal names the state, -4 or -5, in this order |
| `NetChannelTokens.TokenServes` | net_channel/src/lib.rs:1393-1479 | with its token a direction is served if its slice is queued and refused with -4 otherwise |
| `NetChannelTokens.WedgedForSession` | net_channel/src/lib.rs:1393-1479 | a direction without its token stages nothing and passes nothing on over every run of polls that keeps the session |
| `NetChannelTokens.DrainHonest` | net_channel/src/lib.rs:1288-1323 | with an honest user no increment is bogus, and only a failing socket call stops a drain |
| `NetChannelTokens.StageHonest` | net_channel/src/lib.rs:1325-1340 | with an honest user a staged slice always finds room in its ring |
| `NetChannelTokens.RunTokens` | net_channel/src/lib.rs:1276-1479 | over every run with an honest user, queued slices plus slice in hand plus queued increments is one per pending direction and zero otherwise, and without socket failures the channel never fails with an I/O cause |
| `Roles.TransitionsDescend` | orbit-abi/src/roles.rs:161-216 | every allowed transition goes down in rank, so the role graph has no cycle |
| `Roles.PledgeExact` | orbit-abi/src/perms.rs:839-850 | a pledge leaves, class by class on both axes, what was there and is asked for, and changes no role and no other process |
| `Roles.SpawnExact` | orbit-abi/src/roles.rs:442-480 | a spawn is granted if and only if it inherits or the table lists it, and gives the child class by class its role's default within what the parent may pass on and the caller asked for |
| `Roles.DenialIs` | orbit-abi/src/roles.rs:384-415 | which of the three reasons a denied transition reports |
| `Roles.NetClientOfShell` | orbit-abi/src/roles.rs:442-480 | a shell's network client holds NETCH if and only if the shell may pass it on and asks for it, and never passes it on |
| `Roles.RunFromFront` | orbit-abi/src/roles.rs:442-480 | a run of pledges and spawns takes its steps one after the other |
| `Roles.PledgeLasts` | orbit-abi/src/perms.rs:839-850 | over every later run, a class that a pledge drops is never held by the process again, and one dropped from its allowed set never comes into the allowed set of a process spawned below it since, nor is held by one past a transition |
| `Roles.StepKeepsTree` | orbit-abi/src/roles.rs:384-480 | a pledge or spawn keeps every process within its own initial permissions, its parent's and the request that made it |
| `Roles.LineagesNarrow` | orbit-abi/src/roles.rs:442-480 | over every run, a descendant's allowed set is within its ancestor's initial one, its permissions within the ancestor's initial permissions and allowed set, both within what the ancestor's creator asked for, and at most four transitions lie between them |
| `Roles.BootWithinRoles` | orbit-abi/src/perms.rs:593-607 | every process below a boot value stays within its role's defaults |
| `Roles.FourTransitions` | orbit-abi/src/roles.rs:161-216 | the bound of four is reached |
| `Roles.NetworkDies` | orbit-abi/src/roles.rs:113-118 | past one more transition below a network role, no process holds the network class or may pass it on |
| `Argv.Pack` | orbit-abi/src/argv.rs:69-103 | the blob is written if and only if it fits the buffer and a page; bytes past it, and the whole buffer on failure, are unchanged |
| `Argv.Install` | kmain/src/kernel/mod.rs:3182-3238 | a blob is accepted if and only if its table and every offset lie inside it, and the page holds it with addresses for offsets |
| `Argv.InstallsPacked` | orbit-abi/src/argv.rs:42-46 | every packed blob is accepted, and its page is the blob built at the base address, zero-filled |
| `Argv.AcceptsPage` | orbit-abi/src/argv.rs:129-142 | the reader accepts the page of every packed blob with its argument count |
| `Argv.GetArg` | orbit-abi/src/argv.rs:155-174 | the result is the string up to the first NUL, at most a page, and nothing past the count or for a null pointer; the last address loaded is the string's end or the cap |
| `Argv.RoundTrip` | orbit-abi/src/argv.rs:69-174 | the child gets argument i back if and only if it holds no NUL byte, and nothing past the last |
| `Argv.ScanStaysInside` | orbit-abi/src/argv.rs:155-174 | for every accepted blob the scan of an argument stays inside the page if and only if a NUL follows its offset there, as it does in every blob shorter than a page |
| `Argv.PackedTerminated` | orbit-abi/src/argv.rs:69-103 | every string of a packed blob ends inside the page |
| `Argv.UnterminatedBlob` | kmain/src/kernel/mod.rs:3191-3236 | a full-page blob whose string never ends is accepted |

## Left out

- Weak memory ordering, volatile access and TLB fences: shared memory is sequentially consistent; the memory after each store is what another hart may see.
- The bias between physical and kernel virtual addresses: tables are addressed by physical address.
- Overflow of 64-bit addresses at the end of `map_va_range` and `unmap_range`: addresses are unbounded, except in `reserve_va_range`, whose saturating stride is modelled.
- Mapping requests outside the 56-bit physical space: the entry would lose address bits.
- Mmap.AddressSpace.MapAddressRange: a request that grants none of R, W, X is followed for at most one page; after it the tables are no longer a tree (`TreeIffGrants`), which every later step presupposes here.
- Mmap.AddressSpace.MapPage: required to grant R, W or X, like the bulk mappings and `write_leaf_pte`; `TreeIffGrants` says what the store does otherwise.
- Mmap.AddressSpace.RunOps: its operations grant R, W or X, because the tree is lost after one that succeeds without (`TreeIffGrants`).
- Mmap.AddressSpace.Lifetime: as for `RunOps`; after an operation that grants nothing, unmap frees the data frame as well (`UnmapFreesFrame`).
- Mmap.AddressSpace.MapVaRange: for a range longer than 2^48 bytes, which meets itself again, only the frame accounts and the addresses outside it are stated.
- Mmap.AddressSpace.Unmap: with a page-table vector the frees are refused by design, so only the frame allocator's accounts are stated.
- FrameAllocators.FrameAllocator.AllocAligned: the alignment is a power of two, as every `Layout` guarantees.
- The socket, its buffers and TCP states: an oracle that answers each call in any way; slices are represented by their lengths, and offsets, `avail` counters and peer fields are not modelled.
- NetChannelTokens.RunTokens: the user's ring reset is taken to precede the kernel's next ring access; `LeftoverFails` says what happens otherwise.
- The scheduler and process manager, `kmain` apart from the argument page, the boot loader and drivers: not modelled.
- Legacy `CREATE_PROCESS` and `CREATE_PROCESS_EX`, which stamp full permissions: only spawning by role and pledging are modelled.
- `envp`, which shares the argument blob's format, and the mapping of the argument page itself.
