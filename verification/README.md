# advos: a verified model of the memory stack, the scheduler and their helpers

advos is a small x86_64 kernel. This project models the parts of it whose correctness
is hardest to see from the code, and proves what they promise for every input, every
run and every reachable state:

- the **buddy allocator** of one physical zone (`Buddy*.dfy`): 19 sorted free lists,
  region seeding in wrapping 64-bit arithmetic, recursive splitting, and the mutually
  recursive insert and merge;
- the **4-level page table** (`PageTable*.dfy`, `AddressSpace.dfy`) and the run mapper above
  it (`ArchMemory*.dfy`), against the hardware walk of section 4.5 of the Intel 64 and IA-32
  Software Developer's Manual, volume 3A;
- the **virtual extent ledger** (`Ledger*.dfy`) over unbalanced search trees (`Btree*.dfy`);
- **wiring**, and **page allocation and release**, end to end (`GreedyRuns.dfy`, `Wire*.dfy`,
  `PageBacking.dfy`, `PageAllocation.dfy`, `MemoryUndo.dfy`, `KernelMemory*.dfy`,
  `VirtualMemory.dfy`): ledger, page table and free lists together, over whole runs;
- the **character-device ring** (`Ring.dfy`) as interleaved loads and stores;
- the **tick scheduler and the sleep timers** (`Scheduler*.dfy`, `TimerTheorems.dfy`,
  `TickTheorems.dfy`);
- the **slab allocator** (`Slab*.dfy`) and the **formatter** (`Format*.dfy`).

Each part has the same shape. The operations are functions on a value that holds the whole
state; the lemmas about every input and every run are stated on those functions. Code that
updates memory in place is also written as classes and methods with the source's own loops,
each proved equal to its function on the old state. The trees of the ledger are linked nodes
there, deleted by identity. `Basics.dfy`, `PowersOfTwo.dfy` and `SortedList.dfy` hold what the
parts share.

## How the code is read

- **Comparators.** `btree_add` and `btree_delete` hand the comparator a payload and a node
  (src/kernel/tree.c:43, src/kernel/tree.c:84). A comparison is read as the sign of
  key(payload) minus key(node); the ledger uses start addresses and sizes as keys.
- **Lists.** The buddy, timer and run-queue lists are sequences. Slab lists keep their links,
  because the slab code depends on where a link still points. A free extent is a record with a
  node in each of two trees; one that grows on release becomes a new record. The
  undo after a refused insertion by size is absent: with duplicates allowed none is refused.
- **Table entries.** Entries are filled in with `|=`. The model keeps the bitwise or and proves
  that an entry that is not present is zero. Frames and tables are named by frame number; the
  constant offset between physical and linear addresses is not represented.
- **Arithmetic.** 64-bit wrap-around is written out for seeding, for the searches, sizes and
  carves of the ledger, for the range checks of wiring, for new blocks and for deadlines, and so
  is the narrowing of the buddy block count to `int`. An entry of a table reads back as it was
  stored exactly when its frame is below 2^40 (`EntryReadsBackExactly`); what is said of
  translations is meant for such frames. Negating the least 64-bit number gives itself. Division
  of negative numbers goes towards zero. Physical addresses inside one request, pad and precision widths and the
  idle task's credit are unbounded.
- **Outside calls.** What the outside allocators answer is a parameter: `budget` is how many
  records they grant, `spare` where a slab's pages are, and `backed`, in the ledger alone,
  whether the pages of an allocation were found. Time enters as ticks.
- **System calls and ticks** are atomic with respect to each other
  (src/kernel/arch/x86_64/arch.c:1031).

## Where a promise ends

Each of these promises holds exactly under the condition stated, proved in the first lemma
named; the others give inputs where it fails.

- Seeding tiles the page-aligned interior of a region exactly when its base does not lie between
  2^64 - 2^30, excluded, and 2^64 - 4096, included, where rounding it up wraps to 0, and the
  region holds fewer than 2^31 blocks of the top order, the limit of the `int` that counts them
  (`SeedingTilesExactly`, `LastPageSeeded`, `HugeRegionLost`).
- Seeding keeps the free lists fully merged exactly when no free block is the buddy of a block
  of the new region (`SeedingCanonicalExactly`, `AbuttingPages`); regions are never merged across.
- Carving an entry keeps the ledger a tiling exactly when the entry is flush with an end of
  the free extent (`CarveTilesExactlyWhenFlush`, `MiddlePageCarved`). In a ledger that is no tiling
  any more, a carve is granted exactly when no entry starts at its address and no other free extent
  where a part does (`CarveExactly`, `MiddlePageTwice`).
- A new block tiles its pages exactly when it holds one and is not the whole 64-bit space
  (`AddedBlockExactly`, `WholeSpaceAdded`).
- A release takes the entry at its address out of the ledger exactly when the entry ends below
  2^64, an end that is 0 in 64 bits (`ReleasedExactly`, `TopPageKept`).
- An allocation keeps the ledger a tiling exactly when it asks for some pages and, from 512 on,
  the extent found starts at a superpage (`AllocateKeepsBlock`, `UnalignedCarved`).
- An allocation for which an extent is large enough is served exactly when the pages there are
  untranslated and records, blocks and spare tables suffice (`AllocateEndToEnd`). A release
  unmaps nothing, so a page that was part of an entry is never given out again, however much
  memory is free (`NeverGivenOutTwice`, `PlaceNotReused`, `OnePageTwice`). Where a superpage was
  released, a request for one page reports success without mapping it, exactly when the word it
  takes for its entry has the present bit clear (`StaleSuperpage`).
- A wiring reported as done has every page wired exactly when the end of the range does not
  wrap, if the first page past the loop was not so wired already (`WiredExactlyWhenNoWrap`, `WrappedRequest`).
- A 4 KiB mapping that reports success has mapped its page, unless the page lies in a live
  superpage whose first data page holds a word without the present bit there
  (`SmallMapTrueExactly`, `SmallMapLost`). A 4 KiB unmap that reports success has cleared its
  page alone, unless such a word has the bit set (`SmallUnmapTrueExactly`, `SmallUnmapLost`).
- An empty report of the ring that loads `tail` before `head` is given exactly when the ring was
  empty at the first load, and is still true at the second exactly when nothing was published
  in between (`TailFirstReport`, `StaleEmptyReport`). C leaves the order of the two loads open.
- A slab allocation keeps every slab on the list its use count dictates exactly when there is
  a partial slab or at most one full slab (`AllocateValidExactlyWhenClean`, `RunLeavesClean`). A
  release does exactly when the object was in use (`ReleaseValidExactlyWhenLive`,
  `ReleasedTwice`).
- A decimal field reads back as the number printed exactly when the number is not negative, or
  is above -2^63 and has no zeros in front of its sign (`FieldReadsBackExactly`,
  `SignBehindZeros`, `LeastUnreadable`).
- A tick wakes an overdue sleeper exactly when no pending deadline still lies ahead
  (`PromptExactlyWhenAllDue`, `SleeperOverlooked`): the list is kept by falling deadline and
  fired from its head. A deadline is the moment asked for exactly when the product of its
  nanoseconds is a signed, and that moment an unsigned, 64-bit number (`DeadlineExactly`,
  `NegativeSleep`, `LongSleepWraps`).
- A new slab cache meets its rule exactly when an object of its size fits a slab
  (`NewCacheValid`).

## Model

| member | source | states |
|---|---|---|
| `BuddyInvariant.MergeOne` | src/kernel/physmem.c:214-245 | with exactly one buddy pair in a list, the merge scan removes that pair and no other block, and inserts the joined block one order up |
| `BuddyInvariant.OnlyOwnPair` | src/kernel/physmem.c:250-275 | inserting a block into pair-free lists can create only the pair of the block with its own buddy |
| `BuddyInvariant.ReleaseIsCoalesce` | src/kernel/physmem.c:214-284 | insert-and-merge equals the reference coalescing of a block with its buddy, order by order; lists stay sorted, aligned, disjoint and pair-free, and exactly the block's pages become free |
| `BuddyTheorems.SplitIsCarve` | src/kernel/physmem.c:122-158 | recursive splitting equals the reference that takes the first larger block and leaves its upper halves |
| `BuddyTheorems.AllocIsCarve` | src/kernel/physmem.c:163-184 | allocation equals that reference at the smallest order that has a block |
| `BuddyTheorems.CarveReversible` | src/kernel/physmem.c:122-284 | merging undoes carving through any number of halvings |
| `BuddyTheorems.AllocTakesOneBlock` | src/kernel/physmem.c:163-184 | a block handed out is aligned and was wholly free; exactly its pages stop being free and the lists stay canonical; a failure changes nothing |
| `BuddyTheorems.AllocThenFree` | src/kernel/physmem.c:122-284 | releasing what was just allocated, at its order, restores every free list exactly |
| `BuddyTheorems.FreeRunInOneBlock` | src/kernel/physmem.c:214-275 | in canonical lists, an aligned wholly free run lies inside one free block |
| `BuddyTheorems.AllocFailsExactlyWhenNoRun` | src/kernel/physmem.c:163-184 | allocation of order k fails exactly when no naturally aligned, wholly free run of 2^k pages exists, or the order is unsupported |
| `BuddyTheorems.StepKeepsZone` | src/kernel/physmem.c:163-284 | one allocation or release of a live block keeps lists canonical, live blocks disjoint from free pages and from each other, and the zone's pages conserved |
| `BuddyTheorems.RunKeepsZone` | src/kernel/physmem.c:122-284 | the same over every run |
| `BuddyUnique.CanonicalDetermined` | src/kernel/physmem.c:122-284 | canonical lists are determined by the bytes they cover |
| `BuddyUnique.RunsForget` | src/kernel/physmem.c:122-284 | two runs that leave the callers with the same blocks leave the same lists, in whatever order they allocated and released |
| `BuddySeeding.CountNarrows` | src/kernel/physmem.c:69-107 | the code counts the blocks of a region right and then narrows the count to an int |
| `BuddySeeding.CountForward` | src/kernel/physmem.c:69-107 | below 2^31 the block count of a region that spans an aligned block is the true count |
| `BuddySeeding.CountWraps` | src/kernel/physmem.c:69-107 | for a region inside one block the wrapped difference narrows to -1 at every order up to 18 |
| `BuddySeeding.MaximalBlocksTile` | src/kernel/physmem.c:69-117 | maximal blocks cover exactly the page-aligned interior |
| `BuddySeeding.MaximalBlocksUnpaired` | src/kernel/physmem.c:69-117 | no two maximal blocks below the top order are buddies |
| `BuddySeeding.SeedingTilesRegion` | src/kernel/physmem.c:69-117 | with a base outside the last GiB, or in the last page, and fewer than 2^31 top blocks, seeding keeps the lists sorted, aligned and disjoint, adds exactly the maximal blocks, and makes exactly the page-aligned interior free; so does an entry inside one page, which adds nothing |
| `BuddySeedingLimits.SeedingTilesExactly` | src/kernel/physmem.c:69-117 | the exact condition on base and block count under which a region of any size is tiled |
| `BuddySeedingLimits.HugeRegionLost` | src/kernel/physmem.c:69-117 | a region of 2^31 top blocks, seeded into empty lists, leaves them empty |
| `BuddySeedingLimits.LastPageSeeded` | src/kernel/physmem.c:85-106 | seeding the second last page of the 64-bit space alone frees the last one too |
| `BuddySeeding.SeedingCanonicalExactly` | src/kernel/physmem.c:69-117 | canonical lists stay canonical exactly when no free block is the buddy of a new one |
| `BuddySeeding.AbuttingPages` | src/kernel/physmem.c:69-117 | two buddy pages seeded one after the other stay unmerged |
| `BuddySeeding.FirstRegionCanonical` | src/kernel/physmem.c:112-117 | a first region that is tiled leaves canonical lists |
| `BuddyUnits.AllocTakesUnits` | src/kernel/physmem.c:122-184 | allocation of order k succeeds exactly while the free blocks can be cut into a block of order k, and takes one of them |
| `BuddyZone.Zone.AddBlock` | src/kernel/physmem.c:40-64 | the walk-and-splice insertion equals sorted insertion |
| `BuddyZone.Zone.AddRegionOrder` | src/kernel/physmem.c:69-107 | the in-place recursion and loop equal the seeding function |
| `BuddyZone.Zone.AddRegion` | src/kernel/physmem.c:112-117 | likewise for the entry point |
| `BuddyZone.Zone.SplitBuddy` | src/kernel/physmem.c:122-158 | the in-place recursion equals the splitting function |
| `BuddyZone.Zone.Allocate` | src/kernel/physmem.c:163-184 | equals the allocation function on the old lists |
| `BuddyZone.Zone.Release` | src/kernel/physmem.c:250-284 | equals insert-and-merge on the old lists |
| `BuddyZone.Zone.MergeBuddies` | src/kernel/physmem.c:214-245 | the scanning loop equals the merge function, element skipping included |
| `PageTableInvariant.WalkIsLookup` | src/kernel/arch/x86_64/pgt.c:301-412 | under the tree invariant the hardware walk is decided by the last linked table alone |
| `PageTableSteps.DescendGrows` | src/kernel/arch/x86_64/pgt.c:301-370 | going down links only missing tables, each a cleared spare page, and changes no translation; it fails exactly when spare pages run out |
| `PageTableRuns.MapRefines` | src/kernel/arch/x86_64/pgt.c:301-412 | mapping updates the page map at the named page or 512 pages only; it succeeds exactly when the target is untranslated and the spare pages suffice; a failure changes no translation |
| `PageTableRuns.UnmapRefines` | src/kernel/arch/x86_64/pgt.c:417-524 | unmapping clears exactly the target and succeeds exactly when there is such a mapping |
| `PageTableRuns.PrepareRefines` | src/kernel/arch/x86_64/pgt.c:529-577 | preparing changes no translation and afterwards no directory of the region is missing |
| `PageTableRuns.StepRefines` | src/kernel/arch/x86_64/pgt.c:301-577 | one permitted operation is one step of the abstract page map |
| `PageTableRuns.RunRefines` | src/kernel/arch/x86_64/pgt.c:301-577 | over every permitted run the walk equals the abstract page map; free pages and linked tables stay disjoint and together are the pages first given; every linked page table has a present entry |
| `PageTableRuns.InitValid` | src/kernel/arch/x86_64/pgt.c:198-214 | a new space translates nothing and owns exactly its pages |
| `PageTableRuns.EmptiedSlotTakesSuperpage` | src/kernel/arch/x86_64/pgt.c:490-499 | after the last 4 KiB page of a slot is unmapped, a superpage can be mapped there |
| `PageTableLimits.SmallMapInSuperpage` | src/kernel/arch/x86_64/pgt.c:350-412 | a 4 KiB request inside a live superpage takes a data page for a table: it changes no translation, and succeeds exactly when the word read there lacks the present bit |
| `PageTableLimits.SmallMapTrueExactly` | src/kernel/arch/x86_64/pgt.c:301-412 | the exact condition under which a reported 4 KiB mapping is real |
| `PageTableLimits.SmallMapLost` | src/kernel/arch/x86_64/pgt.c:350-412 | such a request on a new space over zeroed data |
| `PageTableLimits.SmallUnmapInSuperpage` | src/kernel/arch/x86_64/pgt.c:468-499 | a 4 KiB unmap inside a live superpage succeeds exactly when the word read has the present bit, and then leaves the page translated or drops a neighbour's translation |
| `PageTableLimits.SmallUnmapTrueExactly` | src/kernel/arch/x86_64/pgt.c:417-524 | the exact condition under which a reported 4 KiB unmap clears its page and no other |
| `PageTableLimits.SmallUnmapLost` | src/kernel/arch/x86_64/pgt.c:474-499 | such a request on a new space over data words with the present bit set |
| `PageTableDemand.MapTakes` | src/kernel/arch/x86_64/pgt.c:301-412 | mapping a page takes exactly the tables its path lacks, and leaves every other page lacking those that it lacked and does not share |
| `PageTableDemand.MapEases` | src/kernel/arch/x86_64/pgt.c:301-412 | mapping a page or a superpage takes the tables its path lacks, and leaves every later one lacking those that it lacked and does not share |
| `PageTableDemand.DemandStep` | src/kernel/arch/x86_64/pgt.c:301-412 | the tables for any list of pages and superpages, counted before the first mapping, are those for the first and, once that is mapped, for the rest |
| `PageTableDemand.NeedStep` | src/kernel/arch/x86_64/pgt.c:301-412 | the tables for a range, counted before the first mapping, are those for its first stretch and, once that is mapped, for the rest |
| `PageTableWords.EntryReadsBackExactly` | src/kernel/arch/x86_64/pgt.c:118-175 | an entry stored as a 64-bit word reads back as it was exactly when its frame is below 2^40 |
| `PageTableWords.WordsWritten` | src/kernel/arch/x86_64/pgt.c:118-175 | the words written for a link and for a leaf, bit by bit |
| `PageTableWords.HighFrameLost` | src/kernel/arch/x86_64/pgt.c:156-175 | the frame at 2^52 bytes reads back as frame 0 |
| `PageTableShared.SharedRegionsAgree` | src/kernel/arch/x86_64/pgt.c:582-645 | two spaces that share a directory translate its 1 GiB identically, permissions included |
| `PageTableShared.PairStepKeeps` | src/kernel/arch/x86_64/pgt.c:301-524 | an operation on either space keeps the sharing and every translation of the other's own |
| `PageTableShared.SpacesApart` | src/kernel/arch/x86_64/pgt.c:301-577 | over every run of both, what each translates through its own tables is the page map driven by its own operations |
| `PageTableShared.SharedForever` | src/kernel/arch/x86_64/pgt.c:501-521 | the shared regions agree after every later run of operations on both spaces |
| `PageTableShared.ReferShares` | src/kernel/arch/x86_64/pgt.c:582-645 | a successful reference shares the region and moves no other translation; a failed one moves none |
| `PageTableShared.ReferExactly` | src/kernel/arch/x86_64/pgt.c:582-645 | a reference succeeds exactly when the other space has a directory for the region, this one has none, and there is a spare page if the table above it is missing |
| `PageTableShared.NewPairValid` | src/kernel/arch/x86_64/pgt.c:198-214 | two new spaces over disjoint pages meet the invariant of the pair |
| `PageTableShared.SharedFromTheStart` | src/kernel/arch/x86_64/pgt.c:529-645 | from two new spaces, the first of at least three pages and the second of two, preparing a region and referring to it succeed, and both translate it alike after every later run |
| `AddressSpace.AddressSpace.constructor` | src/kernel/arch/x86_64/pgt.c:198-214 | clearing the root and pushing the other pages builds the initial space |
| `AddressSpace.AddressSpace.MapAddress` | src/kernel/arch/x86_64/pgt.c:301-412 | the in-place code on byte addresses equals the mapping function on page numbers |
| `AddressSpace.AddressSpace.UnmapAddress` | src/kernel/arch/x86_64/pgt.c:417-524 | likewise for unmapping, with the loop over 512 entries |
| `AddressSpace.AddressSpace.PrepareAddress` | src/kernel/arch/x86_64/pgt.c:529-577 | likewise for preparing |
| `AddressSpace.AddressSpace.ReferAddress` | src/kernel/arch/x86_64/pgt.c:582-645 | likewise for referring |
| `AddressSpace.AddressIndices` | src/kernel/arch/x86_64/pgt.c:301-412 | the index bits taken from an address are those of its page number |
| `ArchMemory.ArchMapAllOrNothing` | src/kernel/arch/x86_64/arch.c:526-587 | a run is mapped whole, or every translation is as before |
| `ArchMemory.ArchUnmapClears` | src/kernel/arch/x86_64/arch.c:592-621 | unmapping a mapped run clears exactly its pages |
| `ArchMemory.MapFromMeans` | src/kernel/arch/x86_64/arch.c:555-587 | after i entries, exactly those i are mapped |
| `ArchMemory.UnmapDownMeans` | src/kernel/arch/x86_64/arch.c:571-587 | the rollback from entry i down clears exactly the entries mapped so far |
| `ArchMemoryCode.MapPages` | src/kernel/arch/x86_64/arch.c:526-587 | the loop with its rollback equals the run-mapping function, for every address |
| `ArchMemoryCode.UnmapPages` | src/kernel/arch/x86_64/arch.c:592-621 | the loop equals the run-unmapping function, for every address |
| `PageTableModulo.ArchSame` | src/kernel/arch/x86_64/arch.c:526-621 | mapping and unmapping a run depend on the low 48 bits of the address alone |
| `GreedyRuns.Order` | src/kernel/memory.c:356-381 | the loop returns the largest order that is aligned in both addresses and fits, and no shift leaves the word unless 2^63 bytes start at 0 on both sides |
| `GreedyRuns.OrderIsLargest` | src/kernel/memory.c:356-381 | that order is aligned in both addresses, fits the size, and no larger one does |
| `GreedyRuns.GreedyTiles` | src/kernel/memory.c:1524-1556 | the runs cover exactly the requested pages |
| `GreedyRuns.GreedyIsFewest` | src/kernel/memory.c:1524-1556 | no tiling into doubly aligned runs uses fewer runs |
| `WirePages.MapRangeMeans` | src/kernel/memory.c:1524-1556 | with no 4 KiB run in a live superpage, the mapping loop sends each page of a prefix to the frame at its offset, that prefix was untranslated, and nothing else changes |
| `WirePages.RollbackClears` | src/kernel/memory.c:1613-1622 | unmapping the recorded runs in order restores an untranslated range |
| `WirePages.RecordsAreGreedy` | src/kernel/memory.c:1524-1556 | the recorded runs are the greedy runs |
| `WirePages.WireRangeAllOrNothing` | src/kernel/memory.c:1524-1622 | map and rollback together leave the whole range, untranslated before, mapped, or every translation as before |
| `WireDemand.EntriesExactly` | src/kernel/arch/x86_64/arch.c:555-587 | the entries of a run are all mapped exactly when they are untranslated and the spare tables suffice for them; they take the tables counted, and leave the count for what follows right |
| `WireDemand.MapRangeExactly` | src/kernel/memory.c:1524-1556 | the mapping loop succeeds exactly when the range is untranslated, there is a record for each greedy run, and the spare tables suffice, counted before the first mapping |
| `Wire.WireEndToEnd` | src/kernel/memory.c:1450-1632 | with no 4 KiB run in a live superpage and an end that does not wrap, success means an untranslated range, sends every one of the pages to physical plus the same offset, changes no other address and puts the entry in the ledger; any failure leaves every translation and the ledger as before |
| `Wire.WireExactly` | src/kernel/memory.c:1450-1632 | a request whose end does not wrap is granted exactly when both addresses are page aligned, its start lies in the block, one free extent that ends below 2^64 holds the range, its pages are untranslated, there are four records and one for each greedy run, and the spare tables suffice |
| `Wire.AcceptsExactly` | src/kernel/memory.c:1468-1522 | the checks before the loop pass exactly when addresses are aligned, the start lies in the block, one free extent holds the range and four records are left |
| `Wire.WiredExactlyWhenNoWrap` | src/kernel/memory.c:1450-1632 | for every request, wrapping or not: a reported success has all pages wired exactly when the end does not wrap, if the first page past the loop was not so wired already, and no translation outside the loop's pages changes |
| `Wire.WrappedRequest` | src/kernel/memory.c:1488-1556 | a request from 3 GiB to the top of the 64-bit space on a 1 GiB block reports success and maps nothing |
| `MemoryUndo.WireUndone` | src/kernel/memory.c:1450-1632 | in any such ledger, a wiring that reports failure, wherever it fails and even if its end wraps, leaves every translation, the same entries and the same free extents |
| `PageBacking.GiveBackRestores` | src/kernel/memory.c:918-930 | giving back every block of a failed allocation restores every free list exactly |
| `PageBacking.BackedExactly` | src/kernel/memory.c:784-863 | the loop over superpages and pages succeeds exactly when the range is untranslated and records, blocks of both orders and spare tables suffice |
| `PageBacking.BackedAllOrNothing` | src/kernel/memory.c:784-863 | each stretch is mapped to a free block of its own and exactly those blocks leave the lists, or every list and every translation is restored |
| `PageAllocation.AllocateEndToEnd` | src/kernel/memory.c:713-940 | an allocation of any number of pages is served exactly when an extent fits and all it needs is there; it then takes its place in a smallest extent that fits, with entry, object, blocks and mappings, and the free extents lose that one and gain the pieces left of it; else ledger, lists, objects and translations are as before; the exact condition for the tiling |
| `MemoryUndo.AllocateUndone` | src/kernel/memory.c:713-940 | in any such ledger: the exact condition under which an allocation is served, and that one refused at whatever step leaves entries, free extents, free lists, objects and translations as before |
| `KernelMemory.AllocateSound` | src/kernel/memory.c:713-940 | an allocation, served or not, keeps ledger, page table, free lists and objects together, conserves the zone and changes no translation that was there |
| `KernelMemory.ReleaseEndToEnd` | src/kernel/memory.c:1193-1299 | a release takes out exactly the entry at the address, if it ends below 2^64, joins its place with a free extent that abuts it or else adds it to them, gives its blocks back to the zone, and keeps every translation |
| `KernelMemory.RunSound` | src/kernel/memory.c:713-1299 | over every run, entries tile the block with the free extents, each is backed by blocks of its own and mapped to them, the zone's bytes are conserved, and no translation is taken back |
| `KernelMemory.SmallRunsAllowed` | src/kernel/memory.c:713-1299 | in a block without superpages every run of requests of 1 to 511 pages and of releases is such a run |
| `KernelMemory.NewMemorySound` | src/kernel/memory.c:1391-1445 | a new block starts such runs |
| `KernelMemory.NeverGivenOutTwice` | src/kernel/memory.c:713-1299 | after any run, an allocation whose place meets a page that was once part of an entry is refused |
| `KernelMemory.PlaceNotReused` | src/kernel/memory.c:713-1299 | on a new block, allocating and releasing restores ledger, objects and free lists, yet the next allocation from the block is refused, whatever it asks for |
| `KernelMemoryLimits.OnePageTwice` | src/kernel/memory.c:713-1299 | the same on a concrete block of two pages and a zone of one |
| `KernelMemoryLimits.StaleSuperpage` | src/kernel/memory.c:826-863 | what a request for one page does in a superpage that was released |
| `VirtualMemory.VirtualMemory.BackStretch` | src/kernel/memory.c:787-821 | one turn of either loop: a record, a block and its mapping, or the block given back |
| `VirtualMemory.VirtualMemory.BackPages` | src/kernel/memory.c:784-863 | the loops over superpages and pages equal the backing function |
| `VirtualMemory.VirtualMemory.ReturnPages` | src/kernel/memory.c:1193-1206 | the loop equals the function that gives blocks back |
| `VirtualMemory.VirtualMemory.AllocatePages` | src/kernel/memory.c:713-940 | the whole call, on linked trees, free lists and page table, equals the allocation function, for any number of pages |
| `VirtualMemory.VirtualMemory.ReleasePages` | src/kernel/memory.c:1259-1299 | the whole call equals the release function, whose ledger `KernelMemory.ReleaseEndToEnd` describes |
| `VirtualMemory.VirtualMemory.MapRuns` | src/kernel/memory.c:1524-1556 | the loop on byte addresses equals the range-mapping function and its records |
| `VirtualMemory.VirtualMemory.UndoRuns` | src/kernel/memory.c:1613-1622 | the rollback loop equals the rollback function |
| `VirtualMemory.VirtualMemory.WirePages` | src/kernel/memory.c:1450-1632 | the whole call equals the wiring function, granted as `Wire.WireExactly` says |
| `Btree.AddKeepsOrder` | src/kernel/tree.c:30-53 | insertion keeps left <= node < right and adds just the payload; refused exactly for a duplicate key when duplicates are not allowed |
| `Btree.AddPosition` | src/kernel/tree.c:30-53 | the in-order sequence gains the payload after all smaller keys and before all others |
| `Btree.OrderedIsSorted` | src/kernel/tree.c:30-53 | the in-order sequence of an ordered tree is sorted |
| `Btree.TraverseInOrder` | src/kernel/tree.c:116-136 | a traversal visits the in-order sequence, carrying the callback's data, up to the first nonzero answer |
| `Btree.DeleteKeepsOrder` | src/kernel/tree.c:58-89 | deletion finds every member, equal keys included, and keeps the order |
| `Btree.DeleteCuts` | src/kernel/tree.c:58-89 | the in-order sequence loses just that member |
| `BtreeCode.AddNode` | src/kernel/tree.c:30-53 | the pointer code equals the insertion function |
| `BtreeCode.HangRight` | src/kernel/tree.c:67-73 | the walk down the right links hangs the right subtree under the last node |
| `BtreeCode.DeleteNode` | src/kernel/tree.c:58-89 | the pointer code equals the deletion function |
| `BtreeCode.SearchNode` | src/kernel/tree.c:94-111 | the search equals the directed search function |
| `BtreeCode.DeleteFinds` | src/kernel/tree.c:58-89 | deleting a node by identity deletes its extent, and finds every node of an ordered tree of different extents |
| `Ledger.BestFitIsSmallest` | src/kernel/memory.c:189-208 | the size search yields a smallest extent that is large enough, whenever one exists |
| `Ledger.NeighbourSearchComplete` | src/kernel/memory.c:212-237 | the neighbour search, in 64 bits, finds an abutting free extent whenever one exists |
| `Ledger.FitSearchComplete` | src/kernel/memory.c:133-184 | the address search finds the extent that holds an address exactly when that extent ends below 2^64 |
| `LedgerCode.LedgerBlock.constructor` | src/kernel/memory.c:1391-1428 | the first record over the rounded range, in both trees |
| `LedgerCode.LedgerBlock.AddFree` | src/kernel/memory.c:386-407 | linking both nodes of a record equals adding its extent to both trees; a refusal leaves both as they were |
| `LedgerCode.LedgerBlock.DeleteFree` | src/kernel/memory.c:412-424 | unlinking both nodes of a record equals deleting its extent from both trees |
| `LedgerCode.LedgerBlock.CarveEntry` | src/kernel/memory.c:1558-1609 | the in-place code with its undo paths equals the carve in 64-bit words |
| `LedgerCode.LedgerBlock.FindFit` | src/kernel/memory.c:429-442 | the descent that remembers the last fit equals the size search |
| `LedgerCode.LedgerBlock.FindFree` | src/kernel/memory.c:289-320 | the directed search yields the record of the extent found |
| `LedgerCode.LedgerBlock.ReleasePages` | src/kernel/memory.c:1259-1299 | finding, deleting and joining on linked trees equal the ledger's release, whose free extents `LedgerTheorems.ReleaseJoins` gives |
| `LedgerTheorems.CarveWorks` | src/kernel/memory.c:865-909 | a carve never fails in the trees and puts exactly the pieces in both |
| `LedgerTheorems.CarveTilesExactlyWhenFlush` | src/kernel/memory.c:865-909 | the exact condition under which a carve keeps the tiling |
| `LedgerTheorems.MiddlePageCarved` | src/kernel/memory.c:894-909 | carving the middle page out of three breaks the tiling |
| `LedgerTheorems.AllocateKeepsBlock` | src/kernel/memory.c:729-909 | for either answer of the page allocator: the place in a smallest extent that fits, the exact condition for a refusal, the free extents afterwards, and the exact condition for the tiling |
| `LedgerTheorems.UnalignedCarved` | src/kernel/memory.c:729-909 | 512 pages from a block that starts one page up, and 0 pages from any, break the tiling |
| `LedgerTheorems.ReleasedExactly` | src/kernel/memory.c:1277-1287 | the entry at the address is found exactly when it ends below 2^64 |
| `LedgerTheorems.ReleaseKeepsBlock` | src/kernel/memory.c:1211-1299 | exactly the entry that starts at the address and ends below 2^64 goes, its place becomes free, and the tiling stays |
| `LedgerTheorems.ReleaseJoins` | src/kernel/memory.c:1211-1254 | the free extents after a release: one that abuts the entry is replaced by the two joined, and their number stays; if none abuts, the entry is added to them |
| `LedgerTheorems.TopPageKept` | src/kernel/memory.c:1259-1299 | the last page of the 64-bit space, allocated from a block of its own, is never released |
| `LedgerTheorems.NewBlockAgain` | src/kernel/memory.c:713-1299 | on a new block, releasing what was just allocated gives the new block back |
| `LedgerTheorems.RunKeepsBlock` | src/kernel/memory.c:713-1299 | over every run of releases and of allocations that need no alignment, entries and free extents tile the block and both free trees agree |
| `LedgerTheorems.SmallRunsFine` | src/kernel/memory.c:713-1299 | requests of 1 to 511 pages never need alignment |
| `LedgerTheorems.AddedBlockExactly` | src/kernel/memory.c:1391-1428 | a new block tiles the whole pages of its range exactly when there is one and the range is not the whole 64-bit space |
| `LedgerTheorems.WholeSpaceAdded` | src/kernel/memory.c:1391-1428 | a block of the whole 64-bit space begins with a free extent of size 0 |
| `LedgerUndo.CarveExactly` | src/kernel/memory.c:865-930 | in any ledger, tiling or not: the exact condition under which a carve is granted, what it then leaves in each tree, and that a refused carve leaves the same entries and free extents |
| `LedgerUndo.RunSound` | src/kernel/memory.c:713-1609 | over every run of carves, allocations and releases, interior carves included, both free trees agree and no two entries and no two free extents start at the same address |
| `LedgerUndo.OneExtentSound` | src/kernel/memory.c:1391-1428 | a new block starts such runs |
| `LedgerUndo.MiddlePageTwice` | src/kernel/memory.c:1558-1609 | the middle page of three, carved twice, is refused the second time |
| `Ring.StoreHitsFreeSlot` | src/kernel/devfs.c:108-130 | the slot a byte is stored in is never an unread one |
| `Ring.StepKeepsInv` | src/kernel/devfs.c:108-157 | every single load or store of either side keeps the invariant |
| `Ring.RefusalsAreTrue` | src/kernel/devfs.c:108-157 | a full report, and an empty report that loads `head` first, is given exactly when it is true at the deciding load |
| `Ring.TailFirstReport` | src/kernel/devfs.c:135-157 | an empty report that loads `tail` first is given exactly when the ring was empty at that load, and is still true at the other exactly when no byte was published in between |
| `Ring.StaleEmptyReport` | src/kernel/devfs.c:135-157 | a run in which such a report is false at the deciding load |
| `Ring.NothingLostOrReordered` | src/kernel/devfs.c:108-253 | over every interleaving, bytes consumed followed by bytes buffered are the bytes produced, and at most 8191 are buffered |
| `Ring.Fifo.PutC` | src/kernel/devfs.c:108-130 | appends to the queue, or refuses when it holds 8191 bytes |
| `Ring.Fifo.GetC` | src/kernel/devfs.c:135-157 | takes the oldest byte, or -1 when there is none |
| `Ring.Fifo.Length` | src/kernel/devfs.c:162-173 | the length computed from the two indices is the queue's |
| `Ring.Fifo.Available` | src/kernel/devfs.c:245-253 | there is room exactly while fewer than 8191 bytes are queued |
| `TimerTheorems.InsertKeepsOrder` | src/kernel/syscall.c:372-399 | insertion keeps the pending list non-increasing in deadline and adds just the event |
| `TimerTheorems.InsertPlace` | src/kernel/syscall.c:385-393 | the new event goes after every later deadline and before every other, those of the same deadline included |
| `TimerTheorems.FiresAllOrNothing` | src/kernel/arch/x86_64/arch.c:720-733 | a tick fires the whole pending list or none of it |
| `TimerTheorems.StepKeepsTimers` | src/kernel/arch/x86_64/arch.c:713-765 | one step keeps the timer invariant, and fires no event before its deadline |
| `TimerTheorems.TimersOverRuns` | src/kernel/syscall.c:357-421 | over every run the list stays ordered, each event fires at most once, and never early |
| `TimerTheorems.PromptExactlyWhenAllDue` | src/kernel/arch/x86_64/arch.c:720-733 | a tick empties the list exactly when every pending deadline has passed |
| `TimerTheorems.SleeperOverlooked` | src/kernel/syscall.c:385-393 | a run of two sleeps in which the shorter one is overdue and not woken |
| `TimerTheorems.DeadlineExactly` | src/kernel/syscall.c:372-374 | for every request, negative ones included, the deadline is now plus the ticks asked for exactly when the nanosecond product is a signed and that moment an unsigned 64-bit number |
| `TimerTheorems.LongSleepWraps` | src/kernel/syscall.c:372-374 | 10^17 nanoseconds after boot wrap to a deadline near the end of the clock |
| `TimerTheorems.NegativeSleep` | src/kernel/syscall.c:372-374 | a sleep of minus one second at boot is due a second before the clock wraps |
| `TimerTheorems.ResumedSleep` | src/kernel/syscall.c:404-417 | sleeping again for the time an interrupted sleep reports as left keeps its deadline; of a deadline that has passed nothing is left |
| `TimerTheorems.BootTimers` | src/kernel/syscall.c:385-393 | the empty list before the first tick meets the timer invariant |
| `SchedulerTheorems.TickKeeps` | src/kernel/arch/x86_64/arch.c:713-765 | a tick keeps the run queue without repetition, without the current task, and of READY tasks with credit 10 |
| `SchedulerTheorems.BootQueue` | src/kernel/sched.c:31-50 | the machine before the first tick meets the queue invariant |
| `SchedulerTheorems.QueueOverRuns` | src/kernel/sched.c:31-50 | the same over every run of ticks, sleeps, waits and wake-ups |
| `SchedulerTheorems.TickServes` | src/kernel/arch/x86_64/arch.c:739-763 | each tick runs a waiting READY process or lowers the bound on its wait |
| `SchedulerTheorems.RunsWithinBound` | src/kernel/arch/x86_64/arch.c:739-763 | every READY process runs within its bound, whatever happens in between |
| `SchedulerTheorems.BoundedWaiting` | src/kernel/sched.c:38-49 | every READY process runs within 10 times (queue length + process count + 1) ticks |
| `TickTheorems.FiringWakes` | src/kernel/arch/x86_64/arch.c:720-733 | firing makes exactly the processes named by the pending events READY and touches nothing else |
| `TickTheorems.RefillMeans` | src/kernel/sched.c:31-50 | a refill queues exactly the READY processes, those of later slots in front, each with a quantum of 10 |
| `TickTheorems.TickMeans` | src/kernel/arch/x86_64/arch.c:713-765 | a tick in full: due sleepers are READY; the current task goes on while it has credit; else the processor goes to the head of the queue, refilled if it was empty, or idles if no process is READY, and the task that gave way is READY; state and credit of every task |
| `TickTheorems.GivesWayReady` | src/kernel/arch/x86_64/arch.c:739-763 | a process that a tick takes the processor from is READY and had used up its quantum |
| `TickTheorems.IdlesOnlyAlone` | src/kernel/arch/x86_64/arch.c:739-763 | the processor idles after a tick only if no other process is READY |
| `TickTheorems.RunsAgain` | src/kernel/arch/x86_64/arch.c:713-765 | a process that gave way runs again within the bound |
| `TickTheorems.DueIsWoken` | src/kernel/arch/x86_64/arch.c:720-733 | a process whose event the tick fires is READY after it, or runs |
| `TickTheorems.SleeperRuns` | src/kernel/arch/x86_64/arch.c:713-765 | and it runs within the bound |
| `TickTheorems.WokenRuns` | src/kernel/devfs.c:636-650 | the driver process that a write wakes is READY, no other task is touched, and it runs within the bound |
| `TickTheorems.LoggedWasWoken` | src/kernel/arch/x86_64/arch.c:720-733 | over every run, each wake-up that happened made its process READY, or run, at that very tick |
| `TickTheorems.SleepBlocks` | src/kernel/syscall.c:372-402 | the caller of a sleep is blocked with its event pending at the deadline, and the processor idles; without a record nothing changes |
| `TickTheorems.WaitBlocks` | src/kernel/devfs.c:566-580 | a process that waits for input is blocked, and nothing else changes but the processor, which idles |
| `TickTheorems.BlockedStays` | src/kernel/syscall.c:394-402 | a blocked process stays so at every step that neither fires an event of its own nor wakes it |
| `TickTheorems.BlockedOverRuns` | src/kernel/syscall.c:394-402 | and over every run without such a step |
| `SchedulerCode.Machine.SchedSchedule` | src/kernel/sched.c:31-50 | the loop over the process table equals the refill function |
| `SchedulerCode.Machine.FireEvents` | src/kernel/arch/x86_64/arch.c:720-733 | the loop over the timer list equals the firing function, which `TickTheorems.FiringWakes` describes |
| `SchedulerCode.Machine.KsignalClock` | src/kernel/arch/x86_64/arch.c:713-765 | the whole handler equals the tick function, which `TickTheorems.TickMeans` describes in full |
| `SchedulerCode.Machine.SwitchTask` | src/kernel/arch/x86_64/asm.S:503-526 | the switch to the chosen task equals the switch function, which `TickTheorems.TickMeans` describes |
| `SchedulerCode.Machine.SysNanosleep` | src/kernel/syscall.c:357-402 | the walk and splice equal the sleep function, for negative times too |
| `SchedulerCode.Machine.ReturnFromSleep` | src/kernel/syscall.c:403-421 | after a signal the caller is told the time that keeps the deadline, or none if it has passed |
| `SlabModel.ObjectsFit` | src/kernel/slab.c:46-66 | for every object size, the objects start at the first 64-byte line past header and marks, and each lies inside the eight pages, clear of the others |
| `SlabModel.CapacityFits` | src/kernel/slab.c:53-57 | the slab holds as many objects, with a mark each, as fit beside the header and one line of alignment, and not one more |
| `SlabModel.IndexOfObject` | src/kernel/slab.c:260-263 | the index computed from an object's address is the object's |
| `SlabTheorems.AllocateValidExactlyWhenClean` | src/kernel/slab.c:142-181 | an allocation keeps each slab on exactly the list its use count dictates exactly when there is a partial slab or at most one full slab |
| `SlabTheorems.AllocateShares` | src/kernel/slab.c:153-158 | otherwise the second full slab ends up on both lists |
| `SlabRelease.FindSlabComplete` | src/kernel/slab.c:198-221 | the walk finds a slab that holds the address whenever the list has one |
| `SlabRelease.UnlinkOmits` | src/kernel/slab.c:271-279 | unlinking leaves the list without that slab and touches only links |
| `SlabRelease.ReleaseRefusal` | src/kernel/slab.c:246-258 | a release is refused exactly when no slab with objects in use holds the address |
| `SlabRelease.ReleaseFreesOne` | src/kernel/slab.c:226-304 | a release of an object in use keeps the invariant and frees that object alone |
| `SlabRelease.ReleaseValidExactlyWhenLive` | src/kernel/slab.c:226-304 | a release that is not refused keeps the invariant exactly when the object was in use |
| `SlabRuns.ReleasedTwice` | src/kernel/slab.c:226-304 | a permitted run after which a second release of the same object succeeds and breaks the invariant |
| `SlabRuns.AllocateTakesOne` | src/kernel/slab.c:127-182 | an allocation fails exactly when there is no slab to take from; otherwise one object that was not in use becomes used, at the address returned |
| `SlabRuns.LiveApart` | src/kernel/slab.c:46-66 | objects in use never share a byte and stay inside their slabs |
| `SlabRuns.AllocateThenRelease` | src/kernel/slab.c:127-304 | releasing what was just allocated restores the objects in use |
| `SlabRuns.RunKeeps` | src/kernel/slab.c:127-304 | over every run the invariant holds and an object stays in use until it is given back |
| `SlabRuns.NewCacheValid` | src/kernel/slab.c:335-343 | a new cache meets the invariant exactly when an object of its size fits a slab |
| `SlabRuns.RunLeavesClean` | src/kernel/slab.c:142-158 | a concrete permitted run after which the next allocation breaks the invariant |
| `SlabCode.UnlinkIsOneStore` | src/kernel/slab.c:271-279 | the unlinking walk amounts to one store in the header before the slab |
| `SlabCode.SlabCache.constructor` | src/kernel/slab.c:335-343 | builds the new cache |
| `SlabCode.SlabCache.FormatSlab` | src/kernel/slab.c:30-69 | the marking loop builds the new header |
| `SlabCode.SlabCache.FindHolder` | src/kernel/slab.c:198-221 | the loop equals the search function |
| `SlabCode.SlabCache.UnlinkSlab` | src/kernel/slab.c:271-279 | the loop equals the unlinking function |
| `SlabCode.SlabCache.AllocateObject` | src/kernel/slab.c:127-182 | the in-place code equals the allocation function |
| `SlabCode.SlabCache.ReleaseObject` | src/kernel/slab.c:226-304 | the in-place code equals the release function, for every address |
| `FormatTheorems.NumeralReadsBack` | src/kernel/strfmt.c:343-360 | every decimal or hexadecimal numeral stands for the number it was made from, without leading zeros |
| `FormatTheorems.ScratchSuffices` | src/kernel/strfmt.c:241-245 | digits and sign never outgrow the 25- and 16-character scratch buffers |
| `FormatTheorems.FieldLength` | src/kernel/strfmt.c:274-311 | a number field is exactly max(pad, precision, digits) long: fill, then zeros up to the precision, then the numeral |
| `FormatTheorems.FieldReadsBackExactly` | src/kernel/strfmt.c:274-311 | the exact condition under which a decimal field reads back |
| `FormatTheorems.SignBehindZeros` | src/kernel/strfmt.c:277-290 | a concrete field that does not |
| `FormatTheorems.LeastUnreadable` | src/kernel/strfmt.c:247-266 | the least 64-bit number never reads back |
| `FormatTheorems.SpecParsedBack` | src/kernel/strfmt.c:58-146 | every conversion is parsed back from its spelling, whatever follows |
| `FormatTheorems.OneConversion` | src/kernel/strfmt.c:151-192 | a format of one conversion prints what that conversion prints |
| `FormatTheorems.DecimalPrintsArgument` | src/kernel/strfmt.c:215-311 | the field of a decimal conversion reads back as the int, long or long long passed, exactly under the condition above |
| `FormatTheorems.DecimalReadsBack` | src/kernel/strfmt.c:215-311 | without padding it always does, short of the least 64-bit number |
| `FormatTheorems.HexReadsBack` | src/kernel/strfmt.c:312-399 | without padding, a hexadecimal or pointer conversion prints the word passed, cut to 32 bits for an int, in digits of its case |
| `FormatTheorems.OtherOutputs` | src/kernel/strfmt.c:151-192 | what the other conversions print: a character, a string or `(null)`, a percent sign, or nothing |
| `FormatTheorems.PartsPrint` | src/kernel/strfmt.c:509-553 | a format spelled from literals and conversions prints them in order, each conversion with an argument of its own |
| `FormatTheorems.CacheName` | src/kernel/kmalloc.c:41-50 | the format of the cache names prints `kmalloc-32` for 32 |
| `FormatCode.ParseFormat` | src/kernel/strfmt.c:58-146 | the cursor code equals the parse function; refused exactly without a percent sign |
| `FormatCode.StoreDecimal` | src/kernel/strfmt.c:255-266 | the signed division loop stores the digits backwards, mirrored for a negative number |
| `FormatCode.StoreDigits` | src/kernel/strfmt.c:343-360 | the shifting loop stores the numeral backwards |
| `FormatCode.PutField` | src/kernel/strfmt.c:274-311 | the three output loops store the padded field, as far as it fits |
| `FormatCode.PutDecimal` | src/kernel/strfmt.c:215-311 | a signed conversion prints the field of its number within the scratch buffer |
| `FormatCode.PutHex` | src/kernel/strfmt.c:312-399 | likewise for hexadecimal and pointers |
| `FormatCode.PutText` | src/kernel/strfmt.c:477-498 | a string conversion prints the string |
| `FormatCode.PutOutput` | src/kernel/strfmt.c:151-192 | one conversion prints its output and takes its argument |
| `FormatCode.Vsnprintf` | src/kernel/strfmt.c:509-553 | returns the untruncated length; the buffer holds the output's first min(length, size-1) characters, then NUL, and nothing past size changes |

## Left out

- Zones: `phys_memory_init` and zone choice; one zone's lists are modelled (src/kernel/physmem.c:311-366).
- `pgt_v2p`, TLB invalidation, CR3, and 1 GiB pages; the hardware walk reads the tables instead.
- PageTableRuns.RunRefines: runs hold no 4 KiB operation inside a live superpage; single operations there are covered by the exact conditions above.
- BuddySeeding.SeedingCanonicalExactly: speaks of regions that are tiled; so does FirstRegionCanonical.
- KernelMemory.RunSound: runs hold no allocation whose extent needs alignment and none of single pages in a live superpage; single operations of these kinds are covered by the exact conditions above. Wired entries are not part of these runs.
- PageAllocation.AllocateEndToEnd: speaks of pages of this space; single pages in a live superpage are covered for requests of one page, by StaleSuperpage.
- Wire.WireEndToEnd: ranges with a 4 KiB run inside a live superpage are left to the exact conditions of single mappings.
- VirtualMemory.VirtualMemory.WirePages: leaves out 2^63 bytes or more at address 0 on both sides, where `_order` shifts past the word, which C does not define.
- LedgerTheorems.AllocateKeepsBlock: leaves out numbers of pages whose size, with room for a superpage, is no 64-bit number.
- The spare list of table pages is a sequence; the links its pages hold in their first words are not represented (src/kernel/arch/x86_64/pgt.c:275-296).
- `_block_insert`, coalescing with a second neighbour, fork, and `arch_memory_prepare` past 1 GiB (its loop does not advance).
- SchedulerTheorems.BoundedWaiting: process creation, fork and exit are not steps, because the clock makes the current task READY whatever its state.
- SchedulerCode.Machine.KsignalClock: the idle task's credit is an unbounded integer; the C `int` would eventually wrap.
- Ring.NothingLostOrReordered: the locking wrapper of the driver calls is not modelled.
- The output buffer of a character device has the same code as the input buffer and is not modelled a second time (src/kernel/devfs.c:179-253).
- The search tree of cache names in slab.c (`_find_slab_cache`, `_add_slab_cache`): one cache is modelled; the tree would add only easy members.
- FormatCode.Vsnprintf: requires size at least 1 and arguments of the right kind; pad and precision do not overflow.
- FormatCode.PutHex: stands for the hexadecimal and the pointer conversion, which repeat the same code.
- tty line editing, the file system, consoles, boot code, interrupts and the C library.
