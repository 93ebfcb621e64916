# Mars kernel: verified models

Dafny models of the parts of the Mars AArch64 kernel whose correctness is hardest to see, with proofs of
what they promise. `dafny verify dfyconfig.toml` checks the whole project.

- **Page allocator** (`Alignment`, `Buddy*`): a multi-zone buddy allocator with one metadata byte per page and
  intrusive doubly linked free lists. `BuddyTiling` studies the metadata of one zone, `BuddyCore` is the
  allocator as a machine over block numbers, `BuddyRuns` reasons over runs of it, `BuddyReserve` is the search
  for the metadata reservation, `BuddyLinks` the list nodes, `BuddyAllocator` the allocator itself as a class,
  `BuddyDmap` the switch to the direct map, and `BuddyClient` what callers see.
- **Slab allocator** (`Slab*`): size-class pages with in-object free lists on top of that same class.
  `SlabOps` shows what each step keeps, `SlabThreads` interleaves the steps of any number of calls, and `SlabMachine` and
  `SlabDmap` are about the switch to the direct map.
- **Page tables** (`Page*`): the four-level 16 KiB-granule mapper, refining a map of pages and blocks; clone and teardown.
- **Locks** (`RwLock`, `TicketLock`): transition systems over any number of threads, with stale reads and failing
  exchanges as steps of their own.
- **Direct-map construction** (`DirectMap`): sort, merge and sweep of the firmware's memory map.
- **Block stack** (`Block*`): consumers, nested partitions and hardware leaves with access counts.
- **Interrupts** (`ItsQueue`, `LpiAlloc`, `MsiEvents`, `MsiThreads`): the ITS command ring against hardware that runs at its
  own pace, the LPI bitmap, and the two event maps, also with map and unmap calls interleaved.
- **AML** (`Aml*`): the cursor parser, the language it reads, and the walk that builds the device tree.
- **Inputs that fail** (`Limits`): for each promise with an exact condition, an input on the other side of it.

Device answers, hardware progress and conversions the code calls but does not define (UTF-8 validity, how names and
values read as text) are parameters, so every statement holds for all of them.

## Findings

Where a promise does not hold for every input, the exact condition is proved, and an input that fails is given.

- The metadata reservation of `add_range` loops for ever exactly for regions of T pages with T + 31 a multiple of
  16385 (`BuddyReserve.SettlesIff`, `BuddyReserve.SearchOscillates`), such as 16354 (`BuddyReserve.OscillatesAt16354`).
- The switch to the direct map leaves null pointers alone, so a zone whose metadata begins at physical address zero loses
  its metadata: the page allocator stays valid exactly when there is none, and a call goes wrong exactly when it needs such
  a zone (`BuddyAllocator.PageAllocator.TransitionDmap`, `BuddyDmap.SwitchSimulatesIff`, `Limits.ZoneAtZero`).
- `map_l2_block` over a linked last-level table leaks exactly that table (`PageMapper.Mapper.MapL2Block`,
  `Limits.BlockOverPage`), so a run loses as many tables as it covers mapped pages with blocks (`PageRuns.LossesCounted`).
- `map_page` looks only at the validity of the level-2 entry, so a block on the path is taken for a table. The page then
  translates as asked exactly when the block gave it that translation already, as long as the base of the block is no table
  the walk passes (`PageBlocks.TakesIff`, `Limits.PageUnderBlock`); if it is a table, the entry written there changes the walks
  that read it and no others (`PageBlocks.ScribbledWalk`, `Limits.PageThroughBlock`).
- `free_pages` on a page in the middle of a live block takes it for a block of its own. The outcome can be told from the bytes
  before the call; where it stays inside its metadata, what it writes leaves no state of the allocator in memory (`BuddyAllocator.PageAllocator.FreeInside`,
  `Limits.FreeSecondPage`).
- The ticket lock needs fewer than 2^64 outstanding tickets (`TicketLock.OneTicketTooMany`).
- The slab allocator's switch does not rewrite the word before an over-aligned object nor the address of a page in transit, so
  its invariant survives exactly when no such object is live, no call has a page in transit and no zone lies at zero
  (`SlabAlloc.SlabAllocator.TransitionDmap`, `Limits.OverAlignedObject`, `Limits.PageInTransit`). A run of calls after the
  switch is served exactly when none releases such an object and none needs a zone at zero
  (`SlabMachine.SlabSwitchSimulatesIff`).
- The direct-map sweep meets its intention for descriptors out of address order exactly when no page's best descriptor
  waits behind one that starts beyond the page (`DirectMap.ExactIff`, `DirectMap.UnsortedCanMiss`).
- Mapping a live MSI event again leaves its old LPI in use for ever and pointing at the event; the two maps are exact
  inverses exactly in runs without that (`MsiEvents.ExactIffNoRemap`, `Limits.RemapThroughCalls`). A failed MAPTI command leaves its LPI taken.
- An unmap that overtakes a map of the same event leaves an LPI that is free and still names the event, until the LPI is taken
  again; the maps agree once all calls are over exactly when this did not happen (`MsiThreads.RunConsistentIff`,
  `Limits.UnmapOvertakesMap`). An LPI taken before the handler of its last mapping is dropped can lose its new handler
  (`MsiThreads.HandlersStay`, `MsiThreads.EarlyTakeLosesHandler`).
- The hint of the LPI allocator can move in the middle of a scan and make it skip words; this is harmless because nothing is
  ever free below the hint, which is part of the allocator's invariant.
- A consumer dropped while the last flush fails leaves its references at the providers below
  (`BlockStack.BlockStack.DropConsumer`), which is why a provider's counts are at least, not exactly, its consumers' sum.

## Model

| member | source | states |
|---|---|---|
| `Alignment.AlignedIsMultiple` | klib/src/pm/page/mod.rs:429-459 | the bitwise test of alignment that all statements about blocks use holds exactly for the multiples of the block size |
| `BuddyTiling.RunInOneBlock` | klib/src/pm/page/mod.rs:429-459 | maximal coalescing means an aligned run of free pages always lies inside one free block of at least its order |
| `BuddyTiling.CanonicalUnique` | klib/src/pm/page/mod.rs:429-459 | two canonical tilings with the same free pages have the same free blocks |
| `BuddyTiling.SplitGood` | klib/src/pm/page/mod.rs:331-360 | splitting a block never leaves two free buddies of one order |
| `BuddyTiling.MergeGood` | klib/src/pm/page/mod.rs:420-480 | freeing with coalescing keeps the tiling canonical, whatever order it stops at |
| `BuddyTiling.SeedingDone` | klib/src/pm/page/mod.rs:150-185 | the seeding loop leaves a canonical tiling with every page free |
| `BuddyCore.AllocComplete` | klib/src/pm/page/mod.rs:306-373 | for every order below 11 `alloc_pages` fails exactly when no zone holds a free run of 2^order pages aligned to 2^order, for the others always, and then changes nothing |
| `BuddyCore.AllocReturnsRun` | klib/src/pm/page/mod.rs:306-373 | a successful allocation returns such a run |
| `BuddyCore.AllocLive` | klib/src/pm/page/mod.rs:306-373 | the returned block becomes live and no other block does |
| `BuddyCore.AllocPages` | klib/src/pm/page/mod.rs:306-373 | exactly the returned pages stop being free |
| `BuddyCore.AllocOk` | klib/src/pm/page/mod.rs:306-373 | allocation keeps metadata, lists and canonical form in agreement |
| `BuddyCore.FreeLive` | klib/src/pm/page/mod.rs:420-480 | the freed block stops being live and no other block does |
| `BuddyCore.FreePages` | klib/src/pm/page/mod.rs:420-480 | exactly the pages of the freed block become free |
| `BuddyCore.FreeOk` | klib/src/pm/page/mod.rs:420-480 | freeing keeps metadata, lists and canonical form in agreement |
| `BuddyCore.AddZoneOk` | klib/src/pm/page/mod.rs:85-189 | a new zone is all free and canonical, older zones are untouched |
| `BuddyCore.AllocBalance` | klib/src/pm/page/mod.rs:306-373 | allocating moves 2^order pages from the weight of the free lists to the pages in use, and the total stays |
| `BuddyCore.FreeBalance` | klib/src/pm/page/mod.rs:420-480 | freeing moves them back |
| `BuddyCore.AddZoneBalance` | klib/src/pm/page/mod.rs:85-189 | a new zone adds its usable pages to the free lists and to the total |
| `BuddyRuns.ReachableOk` | klib/src/pm/page/mod.rs:306-480 | in every reachable state free lists, metadata and live blocks agree, no two free buddies coexist, and used plus free pages are the total |
| `BuddyRuns.LiveBlocksDisjoint` | klib/src/pm/page/mod.rs:306-373 | live blocks never share a page |
| `BuddyRuns.FreeMeansNotLive` | klib/src/pm/page/mod.rs:306-480 | a page is free exactly when no live block holds it |
| `BuddyRuns.LiveDeterminesLists` | klib/src/pm/page/mod.rs:420-480 | the contents of the free lists are a function of the live blocks |
| `BuddyRuns.RunRestores` | klib/src/pm/page/mod.rs:306-480 | any run of allocations and frees that ends with the live blocks it began with restores exactly the free blocks |
| `BuddyRuns.EverythingFreedRestoresSeed` | klib/src/pm/page/mod.rs:150-185 | once everything is freed, the free blocks are exactly those `add_range` seeded |
| `BuddyReserve.SettlesIff` | klib/src/pm/page/mod.rs:98-117 | the reservation loop has a fixed point for a region of T pages if and only if T + 31 is not a multiple of 16385 |
| `BuddyReserve.CycleNeverSettles` | klib/src/pm/page/mod.rs:98-117 | a two-cycle of the search rules out a fixed point |
| `BuddyReserve.SearchOscillates` | klib/src/pm/page/mod.rs:98-117 | for every size without a fixed point the search from zero runs into two neighbouring values and alternates between them for ever |
| `BuddyReserve.OscillatesAt16354` | klib/src/pm/page/mod.rs:98-117 | a region of 16354 pages is such a size: no reservation settles |
| `BuddyReserve.SettledUnique` | klib/src/pm/page/mod.rs:98-117 | there is at most one fixed point |
| `BuddyReserve.ReservePages` | klib/src/pm/page/mod.rs:98-145 | the loop ends at the only fixed point; metadata and zone record fit in the reserved pages, and a page stays usable exactly from two pages on |
| `BuddyLinks.PushLinked` | klib/src/pm/page/mod.rs:351-359 | pushing a block keeps all doubly linked lists equal to their abstract lists |
| `BuddyLinks.UnlinkLinked` | klib/src/pm/page/mod.rs:441-454 | so does unlinking one from the middle |
| `BuddyAllocator.PageAllocator.AllocPages` | klib/src/pm/page/mod.rs:306-373 | returns the address of the block the abstract machine takes, or null, and leaves lists, metadata bytes and counters in the machine's new state |
| `BuddyAllocator.PageAllocator.SplitDown` | klib/src/pm/page/mod.rs:336-360 | frees the upper halves down to the target order |
| `BuddyAllocator.PageAllocator.FreePages` | klib/src/pm/page/mod.rs:375-418 | each outcome occurs exactly when the address asks for it: null, foreign, unaligned, already free, a live block, which the machine then frees, or a page in the middle of a live block, which its byte makes the call take for a block of its own; memory written for such a page holds no state of the machine at all |
| `BuddyAllocator.PageAllocator.FreeInside` | klib/src/pm/page/mod.rs:420-480 | for a page in the middle of a live block: its buddy is never the head of a block, so coalescing stops at once or looks for a header that is not there, exactly when the buddy's byte is free with the block's order; otherwise the page is marked and pushed, or the marking runs past the metadata, exactly when too few pages follow |
| `Limits.FreeSecondPage` | klib/src/pm/page/mod.rs:375-480 | the second page of a block of two is freed that way |
| `BuddyAllocator.PageAllocator.FindZone` | klib/src/pm/page/mod.rs:375-418 | finds the zone whose pages hold the address, and none exactly when there is none |
| `BuddyAllocator.PageAllocator.FreeBlockInZone` | klib/src/pm/page/mod.rs:420-480 | coalesces and pushes as the machine's `Free` |
| `BuddyAllocator.PageAllocator.AddRange` | klib/src/pm/page/mod.rs:85-189 | the region becomes one more zone with its metadata in the settled reservation, seeded as the machine's `AddZone` |
| `BuddyAllocator.PageAllocator.SeedZone` | klib/src/pm/page/mod.rs:150-185 | covers the zone with free blocks from its first page to its last |
| `BuddyAllocator.PageAllocator.TransitionDmap` | klib/src/pm/page/mod.rs:232-276 | zones, headers and lists are rewritten where they lie and become the direct-map images of the old ones, with the abstract state unchanged; the invariant holds afterwards if and only if no zone's metadata begins at physical zero, and what each zone record holds then is stated either way |
| `Limits.ZoneAtZero` | klib/src/pm/page/mod.rs:223-276 | a region added at physical zero breaks the invariant at the switch |
| `BuddyDmap.ListToDmap` | klib/src/pm/page/mod.rs:255-271 | a rewritten free list is the image of the old list in the same order |
| `BuddyDmap.PhysicalToDmap` | klib/src/vm/mod.rs:177-182 | every 48-bit address moves up by 0xFFFF000000000000, null stays null, and moving twice is moving once |
| `BuddyDmap.AddrToDmap` | klib/src/vm/mod.rs:177-186 | the address of every block after the switch is the image of its address before |
| `BuddyDmap.ServesToDmap` | klib/src/pm/page/mod.rs:232-276 | one call after the switch returns the image of what it would have returned, if and only if it uses no zone whose metadata begins at zero |
| `BuddyDmap.SwitchSimulatesIff` | klib/src/pm/page/mod.rs:232-276 | so does every sequence of calls, with the same condition on each of them |
| `BuddyDmap.SwitchSimulates` | klib/src/pm/page/mod.rs:232-276 | with no zone at zero every sequence of calls does |
| `BuddyClient.LiveDisjoint` | klib/src/pm/page/mod.rs:306-373 | address ranges handed out at the same time do not overlap |
| `BuddyClient.AllocBlock` | klib/src/pm/page/mod.rs:306-373 | an allocation adds exactly one block to those handed out, and it was not handed out before |
| `BuddyClient.FreeBlockAt` | klib/src/pm/page/mod.rs:375-418 | a free of a block handed out is never refused and takes exactly it back |
| `PageTable.TableServesMapping` | klib/src/pm/page/mapper.rs:303-369 | every table but the root has a mapped page below it |
| `PageTable.MappingNeedsTables` | klib/src/pm/page/mapper.rs:219-301 | all tables on the way to a mapped page are in the tree, the last-level table unless a block maps the page |
| `PageTable.PathIsPage` | klib/src/pm/page/mapper.rs:219-301 | two addresses take one path exactly when they lie in one 16 KiB page |
| `PageTable.PathDigits` | klib/src/pm/page/mapper.rs:231-234 | the four indices are the digits of the page number: one bit, then three times eleven bits |
| `PageMapper.Mapper.IsTableEmpty` | klib/src/pm/page/mapper.rs:438-446 | reports emptiness exactly |
| `PageMapper.Mapper.MapPage` | klib/src/pm/page/mapper.rs:219-301 | with no block on the path the walk is the old walk updated at this page alone, to this frame with these attributes and the access flag set, no other tree is touched and no empty table is left; a block on the path is taken for a table, so the entry is written at the block's base and the tables change only if a table lies there |
| `PageBlocks.TakesIff` | klib/src/pm/page/mapper.rs:270-301 | with a block on the path the page translates as asked if and only if the block gave it that frame, those attributes and the access flag already, unless the base is a table on the way and the entry written one the walk reads; then what the walk finds behind the new entry decides |
| `PageBlocks.ScribbledWalk` | klib/src/pm/page/mapper.rs:270-301 | the translation of every page after an entry was written at a base that is a table: a walk that reads the entry takes the frame for its next table, and no other walk changes |
| `PageBlocks.ScribbledOkIff` | klib/src/pm/page/mapper.rs:270-301 | the tables are a tree afterwards if and only if the base is outside it, at its last level, or was linked to the same address there |
| `Limits.PageUnderBlock` | klib/src/pm/page/mapper.rs:270-288 | a page mapped under a block keeps the translation of the block |
| `Limits.PageThroughBlock` | klib/src/pm/page/mapper.rs:270-301 | a page mapped under a block based at the root table takes the translation from half the address space |
| `PageMapper.Mapper.UnmapPage` | klib/src/pm/page/mapper.rs:303-369 | the walk loses this page alone, unless a block maps it, and every table left empty is given back |
| `PageMapper.Mapper.MapL2Block` | klib/src/pm/page/mapper.rs:156-217 | the 2048 pages of the block are mapped with the access flag set; the tables leaked are exactly a last-level table that was linked there, and no other last-level table comes or goes |
| `Limits.BlockOverPage` | klib/src/pm/page/mapper.rs:156-217 | a page mapped and then covered by a block leaves a table that no link leads to and that is not freed |
| `PageMapper.Mapper.MapRegion` | klib/src/pm/page/mapper.rs:21-48 | the walk is the fold of the single-page calls: pages inside a block stay, the others are mapped |
| `PageMapper.MapPagesExact` | klib/src/pm/page/mapper.rs:21-48 | page i of a region is mapped to frame i, or keeps the translation of the block it lies in |
| `PageMapper.MapPagesElsewhere` | klib/src/pm/page/mapper.rs:21-48 | pages outside the region keep their mapping |
| `PageMapper.Mapper.UnmapRegion` | klib/src/pm/page/mapper.rs:50-66 | exactly the pages of the region that no block maps lose their mapping |
| `PageMapper.Mapper.IdMap` | klib/src/pm/page/mapper.rs:68-96 | the first 64 GiB map onto themselves and everything else is unchanged; the tables leaked are exactly the last-level tables that mapped pages there |
| `PageMapper.Mapper.FreeTables` | klib/src/pm/page/mapper.rs:371-436 | exactly the tables of the tree are freed, each once |
| `PageClone.ClonePageTables` | klib/src/pm/page/mapper.rs:98-154 | the copy translates every address like the original, shares no table with it, and the original is untouched |
| `PageClone.TwinWalk` | klib/src/pm/page/mapper.rs:98-154 | equal translation, from the entry-by-entry copies |
| `PageClone.DisjointTreesIndependent` | klib/src/pm/page/mapper.rs:98-154 | calls on one tree never change a tree that shares no table with it |
| `PageRuns.RunRefinesPlainMap` | klib/src/pm/page/mapper.rs:156-369 | from an empty root, after any sequence of calls that map pages, map blocks and unmap pages, none of them through a block based at a table of the tree, the four-level walk is the map of pages and blocks the calls build |
| `PageRuns.PagesNeverStray` | klib/src/pm/page/mapper.rs:219-369 | a run without blocks never does the latter |
| `PageRuns.LossesCounted` | klib/src/pm/page/mapper.rs:156-217 | the tables neither in the tree nor freed grow by exactly the number of calls that cover mapped pages with a block |
| `PageRuns.Call` | klib/src/pm/page/mapper.rs:156-369 | each single call, with or without blocks in the way, is a step of such a run |
| `PageRuns.LiveTablesServePlainMap` | klib/src/pm/page/mapper.rs:303-369 | a live table always has a mapped page or block below it |
| `PageRuns.PlainMapNeedsTables` | klib/src/pm/page/mapper.rs:219-301 | the tables on the path of a mapped page or block are live |
| `RwLock.NextInv` | klib/src/sync.rs:299-353 | every atomic step of any thread, stale reads and failing exchanges included, keeps the invariant |
| `RwLock.RunSafe` | klib/src/sync.rs:299-406 | in every reachable state the word is the writer bit plus the number of readers, a holding writer is alone, and the count never reaches the writer bit |
| `RwLock.WriterBarsReaders` | klib/src/sync.rs:324-353 | from the moment a writer sets its bit until it releases, readers only leave |
| `RwLock.WaiterProceeds` | klib/src/sync.rs:340-353 | a waiting writer gets the lock at its next poll exactly when no reader is left |
| `RwLock.ReaderEnters` | klib/src/sync.rs:300-321 | a reader that has seen the current word gets in exactly when no writer has its bit and fewer than 2^31 - 1 readers are in; otherwise nothing changes |
| `RwLock.ReaderGetsIn` | klib/src/sync.rs:300-321 | whatever it saw before, a reader is in after two turns exactly under that condition |
| `RwLock.WriterSetsBit` | klib/src/sync.rs:323-351 | a writer that has seen the current word gets the bit exactly when no other has it, and the lock at once exactly when nobody is in |
| `RwLock.WriterGetsBit` | klib/src/sync.rs:323-351 | whatever it saw before, a writer has the bit after two turns exactly when no other has it |
| `TicketLock.FifoExclusion` | klib/src/sync.rs:116-137 | with fewer than 2^64 tickets out at every take, at most one thread holds the lock and threads get it in the order of their tickets, wrap-around included |
| `TicketLock.TurnOf` | klib/src/sync.rs:125-131 | a waiting thread's comparison succeeds only at its own turn |
| `TicketLock.OldestEnters` | klib/src/sync.rs:125-131 | a waiting thread gets the lock at its next look exactly when nobody holds it and its ticket is the oldest, and otherwise changes nothing |
| `TicketLock.OneTicketTooMany` | klib/src/sync.rs:125-131 | with 2^64 tickets out, the next thread enters beside the holder: the bound is exact |
| `SlabHeap.SizeClassIndex` | klib/src/vm/slab.rs:34-42 | the smallest class that fits, none exactly above 2048 bytes |
| `SlabHeap.ClassIs` | klib/src/vm/slab.rs:34-42 | the class of a request is the smallest of 8, 16, up to 2048 bytes that holds both its size and its alignment; there is none exactly when one of them is above 2048 |
| `SlabHeap.LargeOrderLeast` | klib/src/vm/slab.rs:228-257 | the order asked for is the smallest whose pages hold the request, with the way to the alignment and the backing word where it needs them |
| `SlabHeap.SlotsFill` | klib/src/vm/slab.rs:186-201 | the first object stands at the first multiple of its size behind the 32-byte header, the others follow without a gap, and one more would pass the end of the page |
| `SlabAlloc.SlabAllocator.AllocImpl` | klib/src/vm/slab.rs:143-267 | the object is new, aligned, not null and the only change to the live objects; null exactly when a request beyond 2048 bytes finds no aligned free run of any order that holds it in any zone, out of memory exactly when a smaller one finds no free page and no free object in a page of its class, and then nothing changes |
| `SlabAlloc.NoRunIff` | klib/src/vm/slab.rs:228-257 | the page allocator refuses the order asked for exactly when no zone has a free run of any order that holds the request |
| `SlabAlloc.NonePartialIff` | klib/src/vm/slab.rs:157-182 | the list of a class is empty exactly when no page of the class has a free object |
| `SlabAlloc.SlabAllocator.FreeImpl` | klib/src/vm/slab.rs:269-332 | exactly this object stops being live; its page or block goes back exactly when no object is left in it |
| `SlabAlloc.SlabAllocator.TakeObject` | klib/src/vm/slab.rs:152-170 | takes the first free object of the first partial page, which leaves the list when it has none left |
| `SlabAlloc.SlabAllocator.FetchPage` | klib/src/vm/slab.rs:171-184 | without the lock: the page fetched belongs to this call alone, and nothing of the heap changes |
| `SlabAlloc.SlabAllocator.ThreadPage` | klib/src/vm/slab.rs:186-201 | chains all objects of a new page, and writes nowhere else |
| `SlabAlloc.SlabAllocator.OpenPage` | klib/src/vm/slab.rs:171-227 | a page of its own becomes the first partial page of its class with its first object handed out, whatever the lists have become since it was fetched |
| `SlabAlloc.SlabAllocator.LendAligned` | klib/src/vm/slab.rs:245-257 | an over-aligned object lies inside its block behind the word that holds the block's address |
| `SlabAlloc.SlabAllocator.FreeSmall` | klib/src/vm/slab.rs:285-327 | the object goes to the front of its page's free list; the page goes back exactly when it was the last |
| `SlabAlloc.SlabAllocator.PutObject` | klib/src/vm/slab.rs:285-327 | under the lock: the page stays, joins its list again, or leaves it and belongs to this call alone, exactly when it has no live object left |
| `SlabAlloc.SlabAllocator.ReturnPage` | klib/src/vm/slab.rs:317-318 | without the lock: the emptied page goes back to the page allocator, and nothing of the heap changes |
| `SlabThreads.Threads.Step` | klib/src/vm/slab.rs:143-332 | any number of threads, a call given up between its steps: each step of any thread keeps the invariant, an allocation ends with an object nobody holds, aligned as asked, and no object somebody holds moves |
| `SlabThreads.Threads.Run` | klib/src/vm/slab.rs:143-332 | so does any schedule of any length |
| `SlabThreads.Threads.AtRest` | klib/src/vm/slab.rs:143-332 | once all threads are idle the allocator is as between calls: no page is in transit, every live object is in a client's hands and the bytes in use are those of the live objects |
| `SlabThreads.Threads.Switch` | klib/src/vm/slab.rs:334-395 | the switch to the direct map at any moment keeps the invariant of the threads if and only if no thread holds a page or an object it has not handed out, no over-aligned object is live and no zone lies at zero |
| `SlabAlloc.ObjectsDisjoint` | klib/src/vm/slab.rs:143-267 | the bytes of live objects never overlap |
| `SlabAlloc.ObjectAligned` | klib/src/vm/slab.rs:143-267 | every live object is aligned as its request asked |
| `SlabAlloc.FreeCountExact` | klib/src/vm/slab.rs:143-332 | a header's count is the length of its free list and the capacity less the live objects; a page is on its list exactly when that is between zero and the capacity |
| `SlabAlloc.LastIff` | klib/src/vm/slab.rs:297-303 | freeing makes the count reach the capacity exactly for the last live object of the page |
| `SlabHeap.LargeFits` | klib/src/vm/slab.rs:228-257 | a large object fits in its block, aligned, clear of the backing word |
| `SlabHeap.SlotFits` | klib/src/vm/slab.rs:186-201 | objects lie behind the header and inside the page |
| `SlabAlloc.SlabAllocator.TransitionDmap` | klib/src/vm/slab.rs:334-395 | every list head, page, free list and live object is the image of the old one, and backing words are the old ones; the invariant holds afterwards if and only if no over-aligned object was live, no zone lies at zero and no call has a page in transit |
| `Limits.PageInTransit` | klib/src/vm/slab.rs:171-184 | a page fetched before the switch and not yet opened breaks it |
| `Limits.OverAlignedObject` | klib/src/vm/slab.rs:245-257 | an object aligned to two pages, allocated before the switch, breaks the invariant |
| `SlabDmap.ImageOkIff` | klib/src/vm/slab.rs:334-395 | the same condition on the memory itself: the word before an over-aligned object still names its physical block |
| `SlabMachine.HarmlessServed` | klib/src/vm/slab.rs:334-395 | one call after the switch is served with the image of the result it would have had, unless it releases an object over-aligned and live at the switch or needs a zone at zero |
| `SlabMachine.HarmfulNotServed` | klib/src/vm/slab.rs:277-283 | and otherwise it is not served at all: the stale backing word names no block |
| `SlabMachine.SlabSwitchSimulatesIff` | klib/src/vm/slab.rs:334-395 | a whole run of calls is served with the images of its results if and only if no call in it is of that kind |
| `SlabMachine.SlabSwitchSimulates` | klib/src/vm/slab.rs:334-395 | with no over-aligned object live and no zone at zero every run is |
| `SlabAlloc.PowersServable` | klib/src/vm/slab.rs:143-267 | every power-of-two alignment up to 2^48 divides the start of the direct map, as the simulation asks of requests |
| `DirectMap.BuildRanges` | kernel/src/earlyinit/mem.rs:569-579 | the page-rounded ranges cover exactly the pages some descriptor reaches into |
| `DirectMap.SortRanges` | kernel/src/earlyinit/mem.rs:581-587 | sorted by start, with the same ranges |
| `DirectMap.MergeRanges` | kernel/src/earlyinit/mem.rs:588-600 | ascending ranges with gaps between them, covering the same pages |
| `DirectMap.Choose` | kernel/src/earlyinit/mem.rs:631-649 | the first uncacheable active descriptor, or the first of all if none is uncacheable |
| `DirectMap.MapAllDmap` | kernel/src/earlyinit/mem.rs:556-672 | for a memory map in any order: each page at which a descriptor has arrived is mapped once, in ascending order, from the best of those that have arrived |
| `DirectMap.ExactIff` | kernel/src/earlyinit/mem.rs:602-649 | the result is the intended map, every reached page from its best descriptor, if and only if no page's best descriptor is listed behind one that starts beyond that page |
| `DirectMap.SortedIsExact` | kernel/src/earlyinit/mem.rs:556-672 | a memory map in address order is mapped exactly as intended |
| `DirectMap.UnsortedCanMiss` | kernel/src/earlyinit/mem.rs:611-623 | two descriptors out of order leave a page unmapped |
| `BlockTree.WindowsNest` | klib/src/block/mod.rs:336-359 | the window of a partition lies inside every window that encloses it |
| `BlockTree.SiblingsDisjoint` | klib/src/block/mod.rs:336-359 | disjoint partitions of one provider stay disjoint on the device, with all that is nested in them |
| `BlockAccounts.MoveSlack` | klib/src/block/mod.rs:160-178 | opening and closing along a chain keeps what each provider has recorded beyond its consumers' references |
| `BlockAccounts.MoveIsMoved` | klib/src/block/mod.rs:160-178 | opening and closing changes the counts of exactly the consumers on the way to the device and those of the leaf |
| `BlockAccounts.LeafAbove` | klib/src/block/mod.rs:160-178 | no consumer holds more than the leaf below it has recorded |
| `BlockInvariant.AdmittedIff` | klib/src/block/mod.rs:276-308 | a change is admitted exactly when the counts cover it, nothing opens beside an exclusive holder, nothing exclusive opens beside anybody, and the flush of the last writer succeeds; readers and writers do not exclude each other |
| `BlockInvariant.ExclusiveMove` | klib/src/block/mod.rs:276-308 | while the leaf is held exclusively, all consumers with references on it lie on one chain |
| `BlockInvariant.GoodMove` | klib/src/block/mod.rs:276-308 | an admitted change keeps balance, exclusiveness and that unflushed writes imply a writer |
| `BlockInvariant.GoodForget` | klib/src/block/mod.rs:230-240 | a consumer dropped while its leaf refuses only ever leaves its provider with too many references |
| `BlockRequests.BlocksCover` | klib/src/block/mod.rs:95-117 | a buffer is accepted exactly when it is whole blocks, and then the blocks are its bytes |
| `BlockRequests.CheckInBytes` | klib/src/block/mod.rs:181-227 | the answer of a consumer in bytes, capacity and open counts: the first of block size zero, partial blocks, an end beyond the capacity, and references that do not allow the command |
| `BlockRequests.PassesDown` | klib/src/block/mod.rs:379-396 | a request that passes a consumer passes the partition below it and the next consumer |
| `BlockRequests.RouteDecidedAtTop` | klib/src/block/mod.rs:181-227 | at any depth a request is refused by its first consumer or by nobody, and ends at its address plus all partition starts |
| `BlockRequests.Confined` | klib/src/block/mod.rs:379-396 | its bytes lie inside every enclosing window |
| `BlockRequests.SiblingRequestsDisjoint` | klib/src/block/mod.rs:379-396 | requests below disjoint sibling partitions touch no common byte of the device |
| `BlockRequests.WritersBelow` | klib/src/block/mod.rs:181-227 | a write that reaches the device comes with a writer counted at the leaf |
| `BlockStack.AdmitDecidedAtLeaf` | klib/src/block/mod.rs:160-178 | where the first consumer does not underflow, only the leaf can refuse a change of access |
| `BlockStack.BlockStack.Access` | klib/src/block/mod.rs:160-178 | which of the three errors, or that every count from the consumer to the device moves by the change and no other does; the device gets a flush exactly when the last writer goes |
| `BlockStack.BlockStack.AccessHardware` | klib/src/block/mod.rs:276-308 | underflow, exclusive conflicts and the flush of the last writer, in the leaf's order |
| `BlockStack.BlockStack.DropConsumer` | klib/src/block/mod.rs:230-240 | references are given back along the chain, or only the consumer's own when the last flush fails |
| `BlockStack.BlockStack.NewPartition` | klib/src/block/mod.rs:336-359 | accepted exactly when the window fits the parent; otherwise the parent consumer is dropped |
| `BlockStack.BlockStack.Request` | klib/src/block/mod.rs:181-227 | each error in bytes, capacity and open counts, in the order of the checks, with nothing done; otherwise the device gets the command once, at its address plus all partition starts, and nothing else changes |
| `BlockStack.BlockStack.RequestProvider` | klib/src/block/mod.rs:379-396 | the partition's checks and translation, or the device call |
| `BlockStack.DropAdmitted` | klib/src/block/mod.rs:230-240 | giving references back fails only when the flush of the last writer does |
| `ItsQueue.CommandQueue.Push` | klib/src/interrupt/gicv3/mod.rs:230-308 | against any behaviour of the hardware: full exactly with n-1 commands outstanding at the read, done only once the command is consumed, and otherwise which turn ended the wait and why, counted from exactly the commands left when polling begins; no outstanding command is lost or overwritten |
| `ItsQueue.CommandQueue.Hardware` | klib/src/interrupt/gicv3/mod.rs:230-308 | the hardware consumes outstanding commands once each, in the order they were pushed |
| `ItsQueue.CommandQueue.WriteSlot` | klib/src/interrupt/gicv3/mod.rs:254-268 | the slot written belongs to no outstanding command |
| `ItsQueue.CommandQueue.Poll` | klib/src/interrupt/gicv3/mod.rs:275-307 | ends at the first turn that finds the queue drained or the retries spent, or after the last spin |
| `ItsQueue.FullIff` | klib/src/interrupt/gicv3/mod.rs:243-252 | the offsets meet exactly when n-1 commands are outstanding |
| `LpiAlloc.LpiAllocator.Alloc` | klib/src/interrupt/gicv3/lpi_alloc.rs:22-43 | the lowest free number in range, and none exactly when all are in use, although the hint moves during the scan |
| `LpiAlloc.LpiAllocator.Reserve` | klib/src/interrupt/gicv3/lpi_alloc.rs:45-61 | succeeds exactly for a free number in range, and takes it alone |
| `LpiAlloc.LpiAllocator.Free` | klib/src/interrupt/gicv3/lpi_alloc.rs:63-78 | gives back exactly that number and moves the hint to its word if it was beyond |
| `LpiAlloc.LowestFree` | klib/src/interrupt/gicv3/lpi_alloc.rs:22-43 | with nothing free below the hint, the lowest clear bit found is the lowest of all |
| `MsiEvents.Msi.MapEvent` | klib/src/interrupt/gicv3/mod.rs:831-867 | which error results; otherwise the LPI asked for, or the lowest free one, is mapped; a failed command leaves that LPI taken and the maps unchanged |
| `MsiEvents.Msi.UnmapEvent` | klib/src/interrupt/gicv3/mod.rs:869-890 | after all commands the event, its LPI and its handler are gone; a failed command changes nothing |
| `MsiEvents.MappingsInjective` | klib/src/interrupt/gicv3/mod.rs:831-867 | no two events share an LPI, and every mapped LPI is in use |
| `MsiThreads.StepInv` | klib/src/interrupt/gicv3/mod.rs:831-890 | any number of map and unmap calls, an unmap between its locks: every step keeps each event on an LPI of its own that is in use and knows it or is about to, and the entries left behind are those the steps say |
| `MsiThreads.RunConsistentIff` | klib/src/interrupt/gicv3/mod.rs:831-890 | after any run, once all calls are over, the maps are consistent if and only if no map call entered its LPI after an unmap of the same event had passed that entry, unless the LPI was taken again |
| `MsiThreads.CalmRun` | klib/src/interrupt/gicv3/mod.rs:876-888 | where no unmap takes an event from a map call that is not over, nothing is left behind |
| `MsiThreads.HandlersStay` | klib/src/interrupt/gicv3/mod.rs:885-886 | where no LPI is taken while the handler of its last mapping is still to be dropped, no LPI in use loses its handler |
| `MsiThreads.EarlyTakeLosesHandler` | klib/src/interrupt/gicv3/mod.rs:885-886 | and where one is, its new handler can be dropped |
| `MsiThreads.MapAlone` | klib/src/interrupt/gicv3/mod.rs:831-867 | a map call with nothing in between makes the mapping as one step |
| `MsiThreads.UnmapAlone` | klib/src/interrupt/gicv3/mod.rs:869-890 | an unmap call with nothing in between takes it away as one step |
| `Limits.UnmapOvertakesMap` | klib/src/interrupt/gicv3/mod.rs:853-888 | two threads reach a free LPI that still names an event |
| `MsiEvents.ExactIffNew` | klib/src/interrupt/gicv3/mod.rs:853-860 | mapping an event keeps the two maps exact inverses if and only if the event was not mapped already |
| `MsiEvents.ExactIffNoRemap` | klib/src/interrupt/gicv3/mod.rs:831-890 | over any run the maps stay consistent, and they end as exact inverses if and only if no live event was mapped again |
| `Limits.RemapIsInexact` | klib/src/interrupt/gicv3/mod.rs:853-860 | any event mapped to one LPI and then to another leaves the maps inexact |
| `Limits.RemapThroughCalls` | klib/src/interrupt/gicv3/mod.rs:831-867 | two calls on a fresh controller do so |
| `AmlGrammar.PkgDecodesEncoded` | kernel/drivers/acpi-aml/src/parser.rs:248-262 | decoding a package length inverts its encoding in every form of section 20.2.4 of the ACPI specification |
| `AmlGrammar.PkgEncodesDecoded` | kernel/drivers/acpi-aml/src/parser.rs:248-262 | and encoding inverts decoding where the reserved bits are clear |
| `AmlGrammar.NameExact` | kernel/drivers/acpi-aml/src/parser.rs:211-246 | a name is read exactly where a well-formed name is written |
| `AmlGrammar.TermAdvances` | kernel/drivers/acpi-aml/src/parser.rs:21-127 | on input that is left, every term moves the cursor on and stays in bounds, also when it fails |
| `AmlGrammar.TermDelimited` | kernel/drivers/acpi-aml/src/parser.rs:30-122 | a scope, device or method ends at its package start plus its length, with its contents strictly inside |
| `AmlGrammar.BodyDelimited` | kernel/drivers/acpi-aml/src/parser.rs:30-122 | name, flag byte and data fill a package exactly |
| `AmlGrammar.TermRoundTrip` | kernel/drivers/acpi-aml/src/parser.rs:30-122 | a scope, device or method written anywhere is read back as written |
| `AmlGrammar.ValueRoundTrip` | kernel/drivers/acpi-aml/src/parser.rs:129-209 | a constant, integer, string or name written anywhere is read back as written |
| `AmlGrammar.BufferRoundTrip` | kernel/drivers/acpi-aml/src/parser.rs:154-168 | a buffer is read back with its data, whatever its size object says |
| `AmlGrammar.NamedRoundTrip` | kernel/drivers/acpi-aml/src/parser.rs:49-54 | a named value is read back as written |
| `AmlGrammar.LittleRoundTrip` | kernel/drivers/acpi-aml/src/parser.rs:280-293 | little-endian decoding inverts little-endian encoding |
| `AmlText.ObjectIff` | kernel/drivers/acpi-aml/src/parser.rs:129-209 | a data object is read exactly where one is written, buffers and both kinds of packages with any size object included, and the cursor ends behind it |
| `AmlText.TermIff` | kernel/drivers/acpi-aml/src/parser.rs:21-127 | a term is read exactly where one is written, operation regions and fields included, and the cursor ends behind it |
| `AmlText.RegionIff` | kernel/drivers/acpi-aml/src/device.rs:115-121 | a region parses into a list of terms exactly when it is the texts of these terms one after the other |
| `AmlParser.Parser.ParseNext` | kernel/drivers/acpi-aml/src/parser.rs:21-127 | returns the term the grammar finds and leaves the cursor behind it, or fails where the grammar fails; at the end it returns nothing |
| `AmlParser.Parser.ParseDataObject` | kernel/drivers/acpi-aml/src/parser.rs:129-209 | returns the data object the grammar finds, and terminates on any bytes |
| `AmlParser.Parser.ReadNamePath` | kernel/drivers/acpi-aml/src/parser.rs:211-246 | reads the name at the cursor |
| `AmlParser.Parser.ReadPkgLength` | kernel/drivers/acpi-aml/src/parser.rs:248-262 | reads the package length at the cursor |
| `AmlDevices.TermsFit` | kernel/drivers/acpi-aml/src/device.rs:115-121 | the terms of a region hold fewer bytes than the region, so descending into them ends |
| `AmlDevices.Collect` | kernel/drivers/acpi-aml/src/device.rs:115-121 | all terms of a region, or the failure of the first that does not parse |
| `AmlDevices.FromAml` | kernel/drivers/acpi-aml/src/device.rs:28-68 | the fold of all terms into properties, or a failure exactly when one term fails; the region is drained either way |
| `AmlDevices.FoldMeaning` | kernel/drivers/acpi-aml/src/device.rs:28-68 | hardware and unique id come from the last term that names them; compatible ids, resources and all other terms are the terms of their kind, in order |
| `AmlDevices.ListingAbsolute` | kernel/drivers/acpi-aml/src/device.rs:97-105 | every device of a walk is known by an absolute path |
| `AmlDevices.JoinIsFullPath` | kernel/drivers/acpi-aml/src/device.rs:97-105 | joining the names of regions around each other makes the path that begins at the last absolute one, with the others behind it in order, dots between them |
| `AmlDevices.LastAbsoluteIs` | kernel/drivers/acpi-aml/src/device.rs:97-105 | that name is absolute and none behind it is |
| `AmlDevices.TrimmedExactly` | kernel/drivers/acpi-aml/src/device.rs:97-105 | of a name in a path all leading dots go, and nothing else |
| `AmlDevices.DescribedByTerms` | kernel/drivers/acpi-aml/src/device.rs:71-83 | the identifiers of a device are the text of its last _HID, if any, then those of its _CIDs in order; its class is that of its first identifier |
| `AmlDevices.AddDeviceOk` | klib/src/hardware/device.rs:32-61 | parents stay older than children, parent and child links agree, and children and roots stay in order of age |
| `AmlDevices.TreeBuilder.ProcessTerms` | kernel/drivers/acpi-aml/src/device.rs:107-144 | ends on any terms and leaves the tree and scope map the walk defines |
| `AmlDevices.WalkDeclares` | kernel/drivers/acpi-aml/src/device.rs:107-144 | the walk succeeds exactly when every nested region parses; it then adds one node for each device written in the regions, in order, with the identifiers, class and resources its terms give, below the device around it or the one that the innermost scope around it names when it is entered, and each device is known by the path of the names around it |

## Left out

- Scheduler, threads, sleeping mutex, per-page locking of address spaces, VFS: not part of this model.
- Bootloader, system registers, barriers, cache and TLB maintenance, UART, logging, `wipe` and the `steal` escape hatches: not part of this model.
- ACPI tables, resource (CRS) decoding, the text form of AML names and values, PCIe, timers: not part of this model.
- Locking inside the page allocator and the block stack: each call is one step. The slab allocator's calls are broken into steps wherever the lock is given up; writes to a page or block that only one call knows count with the step that follows.
- BuddyAllocator.PageAllocator.FreePages: where a page in the middle of a live block makes the call use memory that is none of the allocator's, what follows is not modelled.
- BuddyAllocator.PageAllocator.TransitionDmap: asks that physical memory ends below the kernel half of the address space, as the direct map needs.
- BuddyAllocator.PageAllocator.AddRange: asks for page-aligned regions of at least two pages, as the source asserts, and for a size whose reservation settles.
- PageMapper.Mapper.MapPage: tables are found by their address without translation between physical and virtual addresses, allocation of a table never fails, and an entry written at the base of a block that is no table changes memory outside the model.
- PageMapper.Mapper.MapRegion: asks that the base of a block in the way is neither a table nor memory that tables are allocated from; for a single page `PageBlocks` says what happens otherwise.
- PageRuns.RunRefinesPlainMap: asks that no call maps a page through a block based at a table of the tree, for the same reason.
- DirectMap.MapAllDmap: address arithmetic does not wrap at 64 bits; what a descriptor's attributes become in the page table is left to the mapper.
- BlockStack.BlockStack.Access: counts do not wrap, and only consumers that no partition owns are called directly. A dropped consumer stays in the table without references. Capacity and block size of a device do not change, and the flush when a leaf itself is dropped is not modelled.
- ItsQueue.CommandQueue.Push: the contents of commands are those of any build function; a retry request to a stalled queue has no effect of its own on the model's hardware.
- LpiAlloc.LpiAllocator.Alloc: words are sequences of 64 bits, and ranges stay below 2^32 - 64 so that numbers do not wrap.
- MsiEvents.Msi.UnmapEvent: is one step; `MsiThreads` breaks it into its locks, with the commands left to the class.
- AmlDevices.FromAml: resources are kept as the raw buffers, and the package form of `_CID`, which the parser never produces, is not modelled.
- AmlText.TermIff: of an operation region the term keeps only the name and of a field nothing, and unknown opcodes in data objects are read as integers, as the source does.
