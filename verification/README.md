# TipOS kernel cores, in Dafny

A model of the parts of TipOS whose correctness is a global invariant, with proofs of those invariants.
It verifies with Dafny 4.11: `dafny verify dfyconfig.toml`.

* **Physical memory** (`Frames`, `Tiling`, `FreeLists`, `BuddyState`, `Buddy`, `SlabState`, `SlabSteps`,
  `KmemState`, `Kmem`). The buddy allocator keeps one tag byte per frame and one doubly linked list per order;
  bytes of interior frames are stale on purpose. A ghost map of blocks that tile the 16384 frames explains why the
  merge test never reads such a byte. Slabs, per-CPU object caches and the page pool sit on top.
* **Page tables** (`Paging`, `PagingEdits`, `PageTables`, `CloneTables`, `StaleEntry`, `WireSteps`,
  `WireFrames`, `Wire`).
  `Paging.Walk` is the translation of section 4.5 of Intel SDM Vol. 3A (address, effective R/W, U/S and NX) over
  512-word pages in physical memory. Every edit of the kernel is proved against it: what it changes and, mainly, what
  it leaves alone.
* **Region lists** (`Regions`, `VmMap`): the sorted doubly linked list of a process's regions, on node objects.
* **FAT32 on raw sectors** (`FatDisk`, `FatChains`, `FatSectors`, `FatVolume`, `FatDir`, `FatScan`, `FatFiles`,
  `FatReadWrite`, `FatWalk`, `FatFolders`, `FatMkdir`, `FatMkdirWalk`, `FatNewFolder`, `FatRmdir`, `Lfn`,
  `FatLongWrite`, and two small volumes, `FatCrossLink` and `FatLateEntry`): table entries, cluster chains, files,
  directories, paths, long names.
* **Builders against readers**: the Mach-O packer and its two loaders (`ByteMemory`, `MachO`, `MachOPaged`), the
  initial stack and an ABI reader (`InitialStack`), path normalisation (`VfsPath`), and the text UI's diff renderer
  against a terminal (`Terminal`, `Tui`).
* **Queues and scheduling** (`Rings`, `Pipes`, `Scheduler`).

`Options`, `Arithmetic`, `Sequences` and `MachineWords` hold what several of these share.

## How to read it

State the source updates in place is a class with those fields (arrays, sequences or maps that methods reassign);
the methods carry the loops. Each class has a `Valid()` that every method keeps. Where a step is intricate there is a
pure state, a function for the step and a lemma that the step keeps the invariant (`BuddyState`, `SlabSteps`,
`KmemState`); the class method does the writes and shows it took that step.

Assumptions, all of them stated as `requires`:

* The disk is infallible and the boot sector's geometry is consistent (`FatDisk.Geo.Ok`, `FatDisk.DiskOk`).
* The table knows its chains: `FatFiles.Mounted` names the family of chains of a volume and says that live slots of
  the directory in use start one of them. `FatWalk.TreeOk` asks that of every directory a path can reach.
* Tables reachable from one PML4 form a tree without 1 GB pages (`Paging.Leveled`, `Paging.Tree`).
* `kfree` gets live pointers, and a page-sized allocation does not hold the slab magic in its first word
  (`OvsbMk/kernel/memory.c:372`). Sizes given to the allocators stay below the point where `size + 4095` wraps.
* A range that is wired ends at or below 2^48 (`Wire.VmSpace.WireRange`): four levels of tables translate no more.
* Whether an allocation outside the modelled allocators succeeds is a parameter (`memory: bool` in `VmMap` and
  `Wire`). Uninitialised stack contents are a parameter (`junk` in the lookups of `FatScan`).

Where the code does not do what its own comments or the natural property say, the code is modelled as it is:

* `PageTables.PageMemory.MapUser4K` returns success on a directory entry that has its size bit set without being
  present, and maps nothing. The contract says that after success the page is mapped if and only if the entry was
  not of that kind; `StaleEntry.StaleExists` gives tables that have one.
* `FatReadWrite.WriteFile` points the first slot with the name's 8.3 form at the bytes, which after a match by long
  name need not be the slot found. `FatLongWrite` says exactly when the file still reads back and when the other files
  of the directory keep reading; `FatCrossLink.LongWriteRun` is a write, on a small volume, after which neither does.
  A name of the working directory itself (`.`) is accepted, and the bytes written become the directory's slots.
* `VmMap.RegionMap.Fixed` and `Find` compute the end of a region in 64 bits without a check. The list stays sorted and
  disjoint if and only if that sum does not wrap; `Regions.WrappedHint` is a hint for which it does. Nor is the
  rounding of the hint checked: `Regions.FoundInside` says exactly when what is found lies in the map's bounds, and
  `Regions.RoundedHint` is a hint that ends up below them.
* `FatMkdir.Rmdir` looks at slots 2 to 15 of a folder, in its first sector, and past end marks. A folder holds something
  when a slot from 2 on is in use and no end mark comes before it, which is what the lookup sees
  (`FatRmdir.EntryMeansFound`). `FatRmdir.RemovesHoldingIff` says exactly when a folder that holds something is removed
  all the same, `FatRmdir.RefusesEmptyIff` when one that holds nothing is refused; `FatLateEntry.RemovesNonEmpty` is a
  volume for the first.
* `FatMkdir.Mkdir` clears the first sector of the new cluster only. With clusters of several sectors what the later ones
  held stays behind the end mark, where `find_entry` does not look but the loops of write, mkdir and rmdir do.
  `FatNewFolder` says when the new folder is well formed all the same, and when a removal inside it finds a slot there.
  `FatMkdirWalk` follows names through the new folder in the first case, which with one sector per cluster is every
  case.
* `MachOPaged.LoadSegmentInto` copies a segment's file part into its first 2 MB page. A longer part runs on into the
  memory behind that block (`MachOPaged.PastFirstPage`); the loader's contract is for files without one.
* `VfsPath.AbsPath` overruns its scratch buffer by one in the case `VfsPath.OverrunsExactly` gives; its precondition
  excludes exactly that case. The kernel's callers pass a process's `cwd[256]` (`OvsbMk/kernel/process.h:58`) or `/`,
  too short for it (`VfsPath.OverrunInput`).
* The normal form of the root in `VfsPath` is `//`.

## Model

| member | source | states |
|---|---|---|
| `Tiling.Canonical` | OvsbMk/kernel/memory.c:130-180 | two tilings without free buddy pairs and with the same allocations are equal: the free lists as sets depend only on what is allocated |
| `Tiling.AllFreeIsOneBlock` | OvsbMk/kernel/memory.c:157-180 | when nothing is allocated any more, the heap is the single order-14 block, whatever the order of the frees |
| `Tiling.AvailableIffFreeBlock` | OvsbMk/kernel/memory.c:133-137 | an aligned run of 2^k frames is wholly free if and only if some free block has order at least k |
| `Tiling.FreeRunInOneBlock` | OvsbMk/kernel/memory.c:165-176 | every wholly free aligned run lies inside one free block (why merging loses no large run) |
| `Tiling.BuddyIsHead` | OvsbMk/kernel/memory.c:166-167 | the buddy of a block in hand is itself the head of a block, never an interior frame |
| `Tiling.SplitTiles` | OvsbMk/kernel/memory.c:143-148 | halving a block keeps the exact tiling of frames 0..16383 by aligned blocks |
| `Tiling.MergeTiles` | OvsbMk/kernel/memory.c:168-172 | fusing a block with its buddy keeps the exact tiling |
| `Tiling.MergeMerged` | OvsbMk/kernel/memory.c:165-176 | fusing keeps the merged form: no two buddies of one order are both free |
| `FreeLists.AddLinked` | OvsbMk/kernel/memory.c:112-117 | pushing a node that is on no list gives a well-linked list with that node first |
| `FreeLists.RemoveLinked` | OvsbMk/kernel/memory.c:120-127 | unlinking the k-th node gives a well-linked list without exactly that node |
| `BuddyState.MergeTest` | OvsbMk/kernel/memory.c:166-167 | the byte test succeeds if and only if the buddy is a free block of that order; stale interior bytes are never read |
| `BuddyState.SplitStep` | OvsbMk/kernel/memory.c:143-148 | one splitting round keeps tags, lists and tiling in agreement |
| `BuddyState.MergeStep` | OvsbMk/kernel/memory.c:167-172 | one merging round keeps tags, lists and tiling in agreement |
| `BuddyState.PlaceStep` | OvsbMk/kernel/memory.c:177-178 | listing the block in hand restores the full invariant when its buddy is not free |
| `BuddyState.AllocBit` | OvsbMk/kernel/memory.c:150-151 | the allocation bit is set exactly at heads of allocated blocks, and the byte gives order and user flag |
| `Buddy.BuddyAllocator.constructor` | OvsbMk/kernel/memory.c:320-330 | start-up: the invariant holds with nothing allocated |
| `Buddy.BuddyAllocator.BuddyAlloc` | OvsbMk/kernel/memory.c:130-154 | NULL if and only if the order is bad or no aligned run of 2^order frames is wholly free; otherwise an aligned run that was idle becomes one allocation and nothing else changes |
| `Buddy.BuddyAllocator.FindOrder` | OvsbMk/kernel/memory.c:133-136 | a non-empty list from the order up is found if and only if a run of that order is available |
| `Buddy.BuddyAllocator.Release` | OvsbMk/kernel/memory.c:163-178 | the block leaves the allocations, the invariant holds, merging as far as the buddy is free |
| `Buddy.BuddyAllocator.BuddyFree` | OvsbMk/kernel/memory.c:157-180 | the guarded form: bad orders and addresses outside the heap change nothing |
| `Buddy.BuddyAllocator.MmapUser` | OvsbMk/kernel/memory.c:415-431 | a user block of the least order that holds the length, or NULL exactly when no such run is free |
| `Buddy.BuddyAllocator.MunmapUser` | OvsbMk/kernel/memory.c:435-446 | safe on every 64-bit address: frees the block that starts there or nothing, and says which |
| `Buddy.BuddyAllocator.MunmapAllUser` | OvsbMk/kernel/memory.c:450-479 | frees exactly the blocks flagged as user memory |
| `Buddy.BuddyAllocator.Scribble` | OvsbMk/kernel/memory.c:46-49 | writing into allocated memory, where list nodes used to be, cannot disturb the allocator |
| `Buddy.OrderOfPages` | OvsbMk/kernel/memory.c:417-420 | the loop computes the least order whose block holds that many pages |
| `Buddy.Run` | OvsbMk/kernel/memory.c:130-180 | any script of allocations, frees, unmaps, sweeps and writes to allocated memory keeps the invariant; if everything is released the heap is one block |
| `SlabState.FreeCount` | OvsbMk/kernel/memory.c:198-221 | `in_use` is total minus free-list length, and is 0 if and only if none of the slab's objects is cached or out |
| `SlabSteps.PopStep` | OvsbMk/kernel/memory.c:187-191 | taking an object off a slab keeps every object in exactly one place |
| `SlabSteps.PushStep` | OvsbMk/kernel/memory.c:229-231 | returning an object to its slab keeps every object in exactly one place |
| `SlabSteps.OpenStep` | OvsbMk/kernel/memory.c:197-217 | a page becomes a slab: its objects appear, all on the free list, and the chain of slabs stays well linked |
| `SlabSteps.CloseStep` | OvsbMk/kernel/memory.c:232-237 | an idle slab leaves: none of its objects was out or cached, and the rest of the state stays consistent |
| `SlabSteps.StashStep` | OvsbMk/kernel/memory.c:287-288 | an object moves into the per-CPU cache and is in no other place |
| `SlabSteps.UnstashStep` | OvsbMk/kernel/memory.c:263-264 | an object leaves the per-CPU cache and is in no other place |
| `KmemState.LiveDisjoint` | OvsbMk/kernel/memory.c:348-387 | any two regions held by callers, slab objects or page blocks, share no byte |
| `KmemState.LeastObject` | OvsbMk/kernel/memory.c:348-363 | the cache the loop picks is the one with the smallest objects that hold the request |
| `KmemState.LeastPages` | OvsbMk/kernel/memory.c:348-363 | the order it computes is that of the smallest block that holds the request |
| `Kmem.Kmalloc.constructor` | OvsbMk/kernel/memory.c:320-345 | start-up: no region is held and the layers agree |
| `Kmem.Kmalloc.FindSlab` | OvsbMk/kernel/memory.c:185-194 | a slab of the cache with a free object; none if and only if no slab of the cache has one |
| `Kmem.Kmalloc.ThreadPage` | OvsbMk/kernel/memory.c:206-217 | the loop threads all objects of the page, last one first, and counts them |
| `Kmem.Kmalloc.SlabAlloc` | OvsbMk/kernel/memory.c:183-222 | an object that nobody held, of the cache's size; NULL if and only if no slab of the cache has a free object and the buddy layer has no free frame; no frame is lost |
| `Kmem.Kmalloc.ReturnToSlab` | OvsbMk/kernel/memory.c:225-239 | exactly that object is given back; the page returns to the buddy layer only when the slab is idle, and is not lost |
| `Kmem.Kmalloc.Refill` | OvsbMk/kernel/memory.c:268-279 | the refill loop drops no object: what callers hold is unchanged, and the cache gets its 8 objects or all the slab has |
| `Kmem.Kmalloc.PcpuSlabAlloc` | OvsbMk/kernel/memory.c:261-281 | a fresh object of the cache's size through the per-CPU cache; NULL if and only if no object of that size is cached or free on a slab and no frame is free |
| `Kmem.Kmalloc.Drain` | OvsbMk/kernel/memory.c:292-305 | every cached object goes back to its slab and the cache is empty; what callers hold is unchanged |
| `Kmem.Kmalloc.PcpuSlabFree` | OvsbMk/kernel/memory.c:284-316 | exactly that object is given back, to the cache while there is room, else to its slab after the cache has been emptied |
| `Kmem.Kmalloc.PcpuPageAlloc` | OvsbMk/kernel/memory.c:244-248 | a page nobody held, the last of the pool or one of the buddy layer; NULL if and only if the pool is empty and no frame is free |
| `Kmem.Kmalloc.PcpuPageFree` | OvsbMk/kernel/memory.c:251-256 | exactly that page is given back, to the pool while there is room, else to the buddy layer |
| `Kmem.Kmalloc.Alloc` | OvsbMk/kernel/memory.c:348-363 | a region that no live region had, of the smallest size the allocator has that holds the request; NULL if and only if the size is 0 or there is nothing to give: no object of that size cached or on a slab, or no page in the pool, and no run of the needed order; frames that no layer accounts for stay the same, so none leaks |
| `Kmem.Kmalloc.Free` | OvsbMk/kernel/memory.c:367-387 | ends exactly one live region, other pointers change nothing; no frame leaks |
| `Kmem.Kmalloc.ForeignWrite` | OvsbMk/kernel/memory.c:348-387 | what callers store where a slab header would be, in pages that are no slab, keeps the allocator's invariant |
| `Kmem.Kmalloc.OwnWrite` | OvsbMk/kernel/memory.c:348-387 | a caller may store any number of bytes anywhere inside a region it holds, slab object or page block: whatever becomes of the words and header fields they overlap, the allocators' invariant holds and what is held is unchanged |
| `KmemState.RegionOff` | OvsbMk/kernel/memory.c:183-232 | no byte of a region a caller holds belongs to a free object's link word or to a slab's 48-byte header |
| `Kmem.Kmalloc.RegionsDisjoint` | OvsbMk/kernel/memory.c:348-387 | in every reachable state any two live regions are disjoint |
| `Paging.WalkFrame` | OvsbMk/kernel/memory.c:514-634 | a translation depends only on the words its walk reads |
| `Paging.EditWalk` | OvsbMk/kernel/memory.c:514-634 | changing one word moves exactly the walks that read it, and only as far as the walk below that word moves |
| `PagingEdits.SplitPreserves` | OvsbMk/kernel/memory.c:537-570 | replacing a 2 MB entry by a table of 512 entries leaves address, R/W, U/S and NX of every virtual address unchanged |
| `PagingEdits.SplitLeaf` | OvsbMk/kernel/memory.c:556-560 | each of the 512 entries maps its 4 KB with the frame and the flags the 2 MB entry gave it |
| `PagingEdits.InstallTree` | OvsbMk/kernel/memory.c:537-634 | hanging a fresh table keeps the tables a tree |
| `PagingEdits.PutElsewhere` | OvsbMk/kernel/memory.c:514-590 | in a tree, rewriting a word leaves every address outside its region alone |
| `PagingEdits.InstallAllowed` | OvsbMk/kernel/memory.c:537-634 | hanging a fresh table with P, R/W and U/S set keeps, for every address, the rights that the entries above its page leave |
| `PagingEdits.AllowedReach` | OvsbMk/kernel/memory.c:514-634 | those rights are the ones collected on the way to the page table |
| `PageTables.FillSplit` | OvsbMk/kernel/memory.c:556-560 | the loop fills the split table |
| `PageTables.PageMemory.SplitPde` | OvsbMk/kernel/memory.c:537-570 | every address through every table translates as before, and the entries above every page allow what they did; success exactly when a page table is then reached; a failure changes nothing and means an absent entry above or no free frame |
| `PageTables.PageMemory.AddUser4K` | OvsbMk/kernel/memory.c:575-590 | after success the page is a user page if and only if every entry above it is one, and no other right and no other page changes; a failure changes nothing and means an absent entry above or no free frame |
| `PageTables.PageMemory.MapUser4K` | OvsbMk/kernel/memory.c:598-634 | at most the translation of its own page changes; a failure, part-way or not, changes none and means no free frame; a new page is a fresh frame with exactly the rights the entries above it leave, and those leave what they did; exactly when success maps nothing |
| `StaleEntry.StaleExists` | OvsbMk/kernel/memory.c:618-619 | well-formed tables with an entry that has its size bit set without being present |
| `PageTables.PageMemory.AddUser` | OvsbMk/kernel/memory.c:514-530 | fails exactly when no directory is reached; otherwise an address of the 2 MB region is a user address if and only if the entries above the directory and, below a page table, its own entry allow it, with its frame and other rights as before; an absent region becomes an identity mapping with all the rights left; other regions are untouched |
| `PageTables.PageMemory.Map2M` | OvsbMk/kernel/mach_o.c:167-179 | the 2 MB region is mapped to the given page with the rights the upper levels allow, other regions are untouched; fails exactly when an upper entry is absent |
| `CloneTables.CloneTranslation` | OvsbMk/kernel/mach_o.c:125-158 | below 1 GB the clone maps a 2 MB page as the original entry says without U/S, and nothing else |
| `CloneTables.CloneHigh` | OvsbMk/kernel/mach_o.c:110-159 | from 1 GB on the clone sees what the original sees, in the first 512 GB without the limits that the original's top-level entry sets |
| `CloneTables.CloneOpen` | OvsbMk/kernel/mach_o.c:150-158 | the entries above the clone's own directory take no right away |
| `CloneTables.CloneTree` | OvsbMk/kernel/mach_o.c:110-159 | the cloned tables form a tree |
| `CloneTables.LocalIsolated` | OvsbMk/kernel/mach_o.c:110-179 | an edit local to a private directory changes no translation through a root that cannot reach it, and keeps it private |
| `CloneTables.CloneIdentity` | OvsbMk/kernel/mach_o.c:110-159 | the clone's translations: below 1 GB the 2 MB pages of the original, writable and executable as their entry says, never U/S; from 1 GB on those of the original, up to the limits of its first top-level entry; its private directory, reached with all rights; every old translation unchanged; a failure changes nothing and means no free frame |
| `CloneTables.RunOnClone` | OvsbMk/kernel/memory.c:514-590 | no sequence of 2 MB maps, U/S grants and splits on the clone below 1 GB changes any translation through the original |
| `VmMap.RegionMap.Overlap` | OvsbMk/kernel/vm_map.c:104-111 | true if and only if some region meets the range |
| `VmMap.RegionMap.FindEntry` | OvsbMk/kernel/vm_map.c:94-101 | the node whose region holds the address, null if and only if there is none |
| `VmMap.RegionMap.LinkIn` | OvsbMk/kernel/vm_map.c:152-164 | the node is spliced in at its place: the list stays doubly linked, with `nentries` its length |
| `VmMap.RegionMap.Fixed` | OvsbMk/kernel/vm_map.c:137-166 | succeeds if and only if rounded size, alignment, vacancy and memory allow it, all sums in 64 bits; then exactly the region with that start, rounded end, object, offset, protection and flags is added, otherwise nothing changes; an ordered list stays ordered if and only if it failed or the region does not wrap past 2^64 |
| `VmMap.RegionMap.Search` | OvsbMk/kernel/vm_map.c:118-130 | the candidate in steps of 0x100000 at which the loop stops, or none, with 64-bit sums |
| `VmMap.RegionMap.Find` | OvsbMk/kernel/vm_map.c:113-135 | maps at that candidate, with the arguments it got; fails if and only if the rounded size is 0, memory is short or the search gives up; an ordered list stays ordered if and only if it failed or the region does not wrap past 2^64; the region lies between the map's bounds if and only if the search started inside them, as `Regions.FoundInside` has it |
| `Regions.SearchIsFirstFit` | OvsbMk/kernel/vm_map.c:118-130 | where no sum wraps, the search takes the first of 100 candidates that is free and in bounds, and gives up exactly when none is |
| `Regions.PlacedOrdered` | OvsbMk/kernel/vm_map.c:137-166 | entering a free range keeps the list sorted and disjoint if and only if its end does not wrap |
| `Regions.WrappedHint` | OvsbMk/kernel/vm_map.c:113-135 | hint 0xFFFFFFFFFFFFF000 with two pages passes the bound of an empty list and enters a region that ends before it starts |
| `Regions.FoundInside` | OvsbMk/kernel/vm_map.c:117-131 | what is found lies between the map's bounds if and only if hint and size do not wrap: rounding the hint stays below 2^64 and so does adding the size, or the hint rounds to 0 and something is there already |
| `Regions.RoundedHint` | OvsbMk/kernel/vm_map.c:117-131 | hint 0xFFFFFFFFFFFFF001 rounds up to 0: in an empty map the region is entered at address 0, below the lower bound 0x10000 |
| `VmMap.RegionMap.Remove` | OvsbMk/kernel/vm_map.c:170-198 | the list becomes exactly the regions not fully contained in the range, in order, and stays sorted if it was |
| `VmMap.CopyTo` | OvsbMk/kernel/process.c:681-689 | the copy is the fold of one fixed mapping per source region; for a sorted source, its regions in order, those whose allocation succeeded |
| `Regions.CopyOrdered` | OvsbMk/kernel/process.c:681-689 | a sorted list is copied region by region, as far as memory allows |
| `Regions.CopyLoses` | OvsbMk/kernel/process.c:684-686 | a region that does not end after its start is lost, so the copy is shorter |
| `Regions.CopiesAll` | OvsbMk/kernel/process.c:681-689 | with every allocation succeeding the copy has the same start, end, prot and flags sequence, and no objects |
| `Regions.InsertOrdered` | OvsbMk/kernel/vm_map.c:137-166 | inserting a vacant region keeps the list strictly sorted, aligned and non-overlapping |
| `Regions.InsertHolds` | OvsbMk/kernel/vm_map.c:137-166 | the new region is in the list, with every region that was |
| `Regions.OutsideOrdered` | OvsbMk/kernel/vm_map.c:170-198 | filtering keeps it so |
| `WireSteps.ReplaceAll` | OvsbMk/kernel/vm_map.c:250-272 | putting the replacement table in place of a 2 MB entry: pages of the window lead to their object pages, all other addresses translate as before |
| `WireSteps.FillAll` | OvsbMk/kernel/vm_map.c:285-289 | filling one absent entry gives that page its object page and moves no other address |
| `WireSteps.EmptyStep` | OvsbMk/kernel/vm_map.c:234-246 | hanging empty tables changes no translation and adds no 4 KB mapping |
| `WireSteps.DealtMore` | OvsbMk/kernel/vm_map.c:229-299 | work on adjacent ranges adds up: what was wired stays wired while later pages and chunks are done |
| `WireSteps.RangeTrans` | OvsbMk/kernel/vm_map.c:216-303 | the guarantees for one region add up over all regions |
| `WireSteps.PagesInOrder` | OvsbMk/kernel/vm_map.c:261-263 | page i of a region is page offset / 4096 + i of its object |
| `WireSteps.OpenedKept` | OvsbMk/kernel/vm_map.c:229-299 | a page wired with exactly the rights the entries above it leave keeps them while more is wired |
| `WireSteps.OwnTrans` | OvsbMk/kernel/vm_map.c:221-225 | objects given to anonymous regions, over all regions: each was nobody's, is nobody else's and is as long as its region |
| `WireSteps.NewCovers` | OvsbMk/kernel/vm_map.c:221-225 | a region that gets its object on the way is not refused a page because that object is too short |
| `WireFrames.ApartStored` | OvsbMk/kernel/vm_map.c:70-78 | giving a page of an object a frame that was free keeps frames apart: no frame backs two pages of objects, or a page and a page table |
| `WireFrames.ApartTables` | OvsbMk/kernel/vm_map.c:233-246 | a page table in a frame that was free keeps them apart |
| `WireFrames.SharedFrame` | OvsbMk/kernel/vm_map.c:213-306 | while frames are apart, two addresses that lead to the same frame lie at the same page of one object, and none leads to a page table |
| `Wire.VmSpace.GetPage` | OvsbMk/kernel/vm_map.c:70-78 | the frame the object's page has, or a frame nobody held, which the object keeps from then on; no other page of any object changes, and frames stay apart; 0 changes nothing and means a page past the object's end or no free frame |
| `Wire.VmSpace.FillReplacement` | OvsbMk/kernel/vm_map.c:260-270 | the 512 words: object pages inside the window, the old page's frames and flags outside |
| `Wire.VmSpace.WireHuge` | OvsbMk/kernel/vm_map.c:250-272 | a 2 MB page straddling the window is broken up without moving any page outside the window; on success every page inside leads to its object page, with exactly the rights the entries above leave; frames stay apart |
| `Wire.VmSpace.WireTable` | OvsbMk/kernel/vm_map.c:283-297 | absent pages of the window get their object pages, with exactly the rights the entries above leave; everything else keeps its translation; frames stay apart |
| `Wire.VmSpace.WireChunk` | OvsbMk/kernel/vm_map.c:229-299 | one 2 MB chunk: only pages of the window change; on success each page of it keeps the 4 KB entry it had or leads to its object page |
| `Wire.VmSpace.WireWindow` | OvsbMk/kernel/vm_map.c:227-299 | the same for all chunks of a region's share |
| `Wire.VmSpace.EnsureObject` | OvsbMk/kernel/vm_map.c:221-225 | an anonymous region without an object gets a new one, empty and as long as the region; fails exactly when it needs one and memory is short |
| `Wire.VmSpace.WireRegion` | OvsbMk/kernel/vm_map.c:217-301 | one region, which gets an object of its own if it is anonymous and has none: on success each page of its share keeps the 4 KB entry it had or leads, with exactly the rights the entries above leave, to page (va - start + offset) / 4096 of its object |
| `Wire.VmSpace.WireRange` | OvsbMk/kernel/vm_map.c:213-306 | on success every page of the range in a backed or anonymous region is present; on success or failure every page whose base lies outside the range, and every page with a 4 KB entry, keeps its translation, and a translation that changed leads to the right page of the object behind a region at that address, with exactly the rights the entries above leave, which leave what they did; no frame backs two pages of objects, or a page and a table, if none did before; fails only when no frame is free, an anonymous region could get no object, or the object a region had ends before it does (or the region starts past its new object's first page) |
| `FatDisk.EntryWritten` | OvsbMk/fs/fat32.c:92-102 | writing a table entry changes the low 28 bits of that entry's word, no other word and no sector outside the table |
| `FatChains.ChainUnique` | OvsbMk/fs/fat32.c:126-151 | a table has one chain from each cluster |
| `FatChains.AppendChain` | OvsbMk/fs/fat32.c:185-189 | linking a free cluster after the last one gives the chain extended by it, still without repeats and ended |
| `FatSectors.ListsApart` | OvsbMk/fs/fat32.c:77-79 | chains without common clusters share no sector |
| `FatVolume.Volume.FatReadEntry` | OvsbMk/fs/fat32.c:82-89 | the low 28 bits of the entry's word |
| `FatVolume.Volume.FatWriteEntry` | OvsbMk/fs/fat32.c:92-102 | the table changes in that entry, data sectors do not change |
| `FatVolume.Volume.FatFindFree` | OvsbMk/fs/fat32.c:105-112 | the least free cluster, or 0 exactly when every cluster is in use |
| `FatVolume.Volume.WriteCluster` | OvsbMk/fs/fat32.c:161-178 | the cluster's sectors hold the bytes; no other sector changes |
| `FatVolume.Volume.NextCluster` | OvsbMk/fs/fat32.c:182-193 | the next cluster of the chain, appended from the free ones at its end; 0 only when the volume is full |
| `FatVolume.Volume.WriteChain` | OvsbMk/fs/fat32.c:155-196 | the chain grows only by clusters that were free and that the bytes need, and holds the bytes; nothing else in table or data area changes; fails only when the volume is full and the bytes do not fit the chain, which is then full of the first of them |
| `FatVolume.Volume.ReadChain` | OvsbMk/fs/fat32.c:126-152 | the first `size` bytes of the chain, or all of it when shorter |
| `FatVolume.GrewOther` | OvsbMk/fs/fat32.c:155-196 | a chain apart from a growing one stays a chain, and apart |
| `FatScan.NameTo83` | OvsbMk/fs/fat32.c:45-74 | the padded upper-case 8.3 form, with `.` and `..` kept |
| `FatScan.MatchLong` | OvsbMk/fs/fat32.c:217-226 | true if and only if the names are equal ignoring ASCII case |
| `FatScan.MeetLong` | OvsbMk/fs/fat32.c:251-268 | the accumulator after one long-name slot |
| `FatScan.FindEntry` | OvsbMk/fs/fat32.c:228-289 | the slot a name resolves to by long name or 8.3 name, stopping at the first unused slot, and the sector that holds it |
| `FatScan.ScanDir` | OvsbMk/fs/fat32.c:548-570 | the first slot of the directory that passes the loop's test, in chain order |
| `FatDir.SearchFrame` | OvsbMk/fs/fat32.c:248-284 | a lookup depends on names, attributes and long-name slots only |
| `FatDir.SearchShort` | OvsbMk/fs/fat32.c:228-289 | without long names a lookup finds the first live slot with the 8.3 name, the one the update loop meets first |
| `FatDir.SearchMiss` | OvsbMk/fs/fat32.c:689-698 | after a miss no slot before the first vacant one has that 8.3 name |
| `FatDir.LongHitDirect` | OvsbMk/fs/fat32.c:228-289 | a lookup that hits a slot with another 8.3 name hits it by its long name: the long-name slots directly before it, gathered from an empty accumulator, give the name looked up, ignoring ASCII case |
| `FatFiles.FreshVolume` | OvsbMk/fs/fat32.c:449-454 | a volume whose root directory is one cleared, ended cluster meets the assumptions made of a mounted volume |
| `FatReadWrite.ReadFile` | OvsbMk/fs/fat32.c:518-525 | -1, 0 or the first bytes of the file's chain, as the lookup of the last component and the slot say; the count is a 32-bit `int`, negative from 2 GB on |
| `FatReadWrite.WriteFile` | OvsbMk/fs/fat32.c:529-572 | the whole new state: the chain of the slot found holds exactly the bytes and grew no further than they need, the slot pointed at it is the first one with the name's 8.3 form (or none), every other slot and chain is as before; the working directory written to under its own name holds the bytes, and the slot is looked for in them; -1 for an unknown name, with nothing changed, or on a full volume, either with nothing changed or with the chain full of the first bytes and all other chains intact |
| `FatReadWrite.WrittenSlots` | OvsbMk/fs/fat32.c:548-570 | a write changes no name: of the slot it updates only the start cluster and the size differ, and they are those of the bytes; lookups go where they went |
| `FatReadWrite.ReadBack` | OvsbMk/fs/fat32.c:511-572 | when the slot found is the slot updated, a read of that name returns the bytes written |
| `FatReadWrite.OthersRead` | OvsbMk/fs/fat32.c:511-572 | after a write, every other file of the volume, in this directory or any other, reads as before |
| `FatReadWrite.OthersReadNames` | OvsbMk/fs/fat32.c:511-572 | the same by name: every read of another name, in whatever directory, has the outcome it had |
| `FatReadWrite.StaysMounted` | OvsbMk/fs/fat32.c:529-572 | after a write, all chains are again acyclic, ended and pairwise disjoint, and live slots start one of them |
| `FatReadWrite.ReadsOnce` | OvsbMk/fs/fat32.c:511-525 | a read has one outcome |
| `FatReadWrite.WriteThenRead` | OvsbMk/fs/fat32.c:511-572 | write then read in a directory without long names returns the same bytes, on the bytes of the disk; every other file of the volume reads as it did |
| `FatWalk.SplitConcat` | OvsbMk/fs/fat32.c:485-503 | the components of `a/b` are those of `a` followed by those of `b` |
| `FatWalk.Walk` | OvsbMk/fs/fat32.c:476-509 | finding the last slash and entering what lies before it, name by name, ends in the directory that folding `fat32_change_dir` over the components gives; -1 if and only if the path is empty, names no file or some component is no directory |
| `FatWalk.ChangeDir` | OvsbMk/fs/fat32.c:582-604 | goes to the folder the name resolves to, the root for cluster 0; otherwise stays and fails |
| `FatWalk.ReadPath` | OvsbMk/fs/fat32.c:511-525 | reads the file the path leads to and leaves the working directory as it was, whether it succeeds or fails |
| `FatWalk.DescendConcat` | OvsbMk/fs/fat32.c:490-503 | entering two lists of components in turn is entering their concatenation |
| `FatWalk.ThroughDirectory` | OvsbMk/fs/fat32.c:476-509 | the path `p/q` leads where `q` leads from the directory that `p` names |
| `FatWalk.FromTheRoot` | OvsbMk/fs/fat32.c:480-509 | an absolute path leads, from everywhere, where the rest of it leads from the root |
| `FatWalk.NameAtEnd` | OvsbMk/fs/fat32.c:476-509 | the name looked up at the end of a path is what follows its last slash |
| `FatWalk.WrittenSeen` | OvsbMk/fs/fat32.c:511-572 | a file, whose chain is no directory's, written in its directory reads back through every path that leads there, from every working directory; all directories are still reachable by the paths they were |
| `FatWalk.FreshTree` | OvsbMk/fs/fat32.c:442-457 | a freshly formatted volume is such a tree of directories |
| `FatLongWrite.LongReadBack` | OvsbMk/fs/fat32.c:529-572 | when the slot updated is not the slot found, reading the name returns the bytes written if and only if the old size of the slot found cuts the read where the new length does (or nothing is read, for a file that had no cluster) |
| `FatLongWrite.FittingSize` | OvsbMk/fs/fat32.c:519-524 | for a file whose size fits its chain the condition is that old size and new length cut the read alike |
| `FatLongWrite.RoomIs` | OvsbMk/fs/fat32.c:155-196 | how many bytes the written chain can give is known before the write |
| `FatLongWrite.ReadBackIff` | OvsbMk/fs/fat32.c:511-572 | over all directories: the file reads back if and only if the slot found is the first with the 8.3 form, or the condition of `LongReadBack` holds |
| `FatLongWrite.SiblingsIff` | OvsbMk/fs/fat32.c:548-570 | the other files of the directory read as before if and only if no slot is updated, the slot updated was no other file, or that file held those bytes already |
| `FatCrossLink.LongWriteFails` | OvsbMk/fs/fat32.c:529-572 | a volume with `abcdefghi.txt` stored as `ABCDEF~1TXT`: no write of fewer than five bytes reads back, and a second file `ABCDEFGHTXT` loses its contents |
| `FatCrossLink.LongWriteRun` | OvsbMk/fs/fat32.c:529-572 | on that volume every write of fewer than five bytes succeeds, and goes wrong in that way |
| `FatFolders.FreeChain` | OvsbMk/fs/fat32.c:810-815 | the loop ends and zeroes every cluster of the chain and no other, keeping the upper four bits of each word |
| `FatFolders.CreateEntry` | OvsbMk/fs/fat32.c:377-407 | the first vacant slot takes the name; without one nothing changes |
| `FatMkdir.Mkdir` | OvsbMk/fs/fat32.c:689-746 | every answer and when it is given; on success the least free cluster becomes the new directory's chain, the first vacant slot names it, its first two slots are the folders `.` and `..` for itself and for the directory it was made in, nothing else changes |
| `FatMkdir.MadeMounted` | OvsbMk/fs/fat32.c:689-746 | after a mkdir all chains, with the new one, are disjoint, and the directory it was made in names only such chains |
| `FatMkdirWalk.MadeTree` | OvsbMk/fs/fat32.c:689-746 | the directories with the new one are again a tree of directories that paths can be followed through |
| `FatMkdirWalk.MadeEntered` | OvsbMk/fs/fat32.c:582-604 | mkdir against `fat32_change_dir`: from the directory it was made in the name leads to the new folder, from there `..` leads back and `.` stays |
| `FatMkdirWalk.MkdirAndBack` | OvsbMk/fs/fat32.c:582-746 | the run: mkdir, change to the name, change to `..`; if the first succeeds so do the others, and the working directory is what it was |
| `FatMkdirWalk.NothingStale` | OvsbMk/fs/fat32.c:715-738 | with one sector per cluster nothing stale is left in a new folder, so that the three above need no condition |
| `FatNewFolder.NewFolderSlots` | OvsbMk/fs/fat32.c:715-738 | the new folder's slots: its own two, end marks up to slot 15, and then what the cluster held before |
| `FatNewFolder.NewFolderMountedIff` | OvsbMk/fs/fat32.c:715-738 | the new folder itself names only chains of the volume if and only if the live slots its later sectors held before do |
| `FatNewFolder.NewFolderScan` | OvsbMk/fs/fat32.c:780-796 | the new folder holds nothing the lookup sees; rmdir inside it finds a slot the lookup does not see if and only if a slot left behind the end mark has that 8.3 name and it is not that of `.` or `..` |
| `FatMkdir.Rmdir` | OvsbMk/fs/fat32.c:780-825 | every answer and when it is given, among them that of a missing name and of a name that is no folder; on success the slot is marked deleted and exactly the directory's chain is freed |
| `FatRmdir.RemovedMounted` | OvsbMk/fs/fat32.c:780-825 | after a removal the chains that remain are disjoint and rooted if and only if the directory did not remove itself and no other slot started the freed chain |
| `FatRmdir.EntryMeansFound` | OvsbMk/fs/fat32.c:228-289 | a lookup past the first two slots succeeds only in a folder that holds something; a live slot no end mark hides is found under its short name, at its place or before |
| `FatRmdir.RemovesHoldingIff` | OvsbMk/fs/fat32.c:799-808 | a folder that holds something is removed if and only if its own two slots are in place, slots 2 to 15 are all deleted ones and an entry follows later |
| `FatRmdir.RefusesEmptyIff` | OvsbMk/fs/fat32.c:799-808 | a folder that holds nothing is refused if and only if, in its first sector, a slot is in use behind an end mark before which none is |
| `FatLateEntry.RemovesNonEmpty` | OvsbMk/fs/fat32.c:799-808 | a volume with a folder of `.`, `..`, fourteen deleted slots and a file in slot 16: the lookup finds the file, and the folder is removed |
| `FatMkdir.MkdirThenRmdir` | OvsbMk/fs/fat32.c:689-825 | mkdir then rmdir succeeds and restores every 32-bit word of the table; only the first vacant slot differs, and it is vacant again |
| `Lfn.Assemble` | OvsbMk/fs/fat32.c:251-268 | the accumulator rebuilds exactly the name from descending slots, whatever it held before |
| `Lfn.LongLookup` | OvsbMk/fs/fat32.c:228-289 | a stored long name is matched if and only if the query equals it ignoring ASCII case, or equals the short name |
| `Lfn.LongRoundTrip` | OvsbMk/fs/fat32.c:216-289 | encoding a name of 1..255 ASCII characters as long-name slots and looking it up are inverse |
| `MachO.PackText` | src/userland/tools/macho_pack.py:66-71 | the segment command at its offsets says the address, sizes and file offset |
| `MachO.PackMain` | src/userland/tools/macho_pack.py:73-76 | the entry command at its offsets says the entry offset |
| `MachO.LoadCommand` | OvsbMk/kernel/mach_o.c:46-88 | what one load command does to memory, base, slide and entry |
| `MachO.Load` | OvsbMk/kernel/mach_o.c:26-96 | 0 and nothing written for a foreign file; otherwise the commands are carried out in order |
| `MachO.LastWriter` | OvsbMk/kernel/mach_o.c:46-72 | after loading any file an address holds what the last segment covering it has for it: file bytes, then zeros up to the rounded end, at the address the segment was linked for, whatever base and slide were |
| `MachO.Untouched` | OvsbMk/kernel/mach_o.c:46-72 | an address no segment covers is as it was |
| `MachO.PackThenLoad` | OvsbMk/kernel/mach_o.c:26-96 | loading a packed file leaves the code at 0x10000000, zeros up to the rounded end, all else unchanged, and returns 0x10000000 plus the entry |
| `MachOPaged.BlockAligned` | OvsbMk/kernel/memory.c:25-30 | an order-9 block of the heap starts on a 2 MB boundary |
| `MachOPaged.NewHugePage` | OvsbMk/kernel/memory.c:415-431 | a fresh 2 MB block, aligned, in which no page table lies; 0 exactly when no aligned run of 512 frames is free |
| `MachOPaged.LoadSegmentInto` | OvsbMk/kernel/mach_o.c:212-236 | for a segment whose file part ends in its first 2 MB page: every page of the segment shows file bytes and zeros through the page tables; other addresses, every byte of every block allocated before and all memory outside the heap are unchanged; fails only when a page of it has no directory or no 2 MB block is free |
| `MachOPaged.LoadInto` | OvsbMk/kernel/mach_o.c:186-259 | a packed file of at most 2 MB is seen through the page tables as its code followed by zeros, and its entry is returned; for any file whose segments' file parts each end in their first 2 MB page, addresses outside its segments, every byte of every block allocated before and all memory outside the heap are unchanged, and it fails only when a page of a segment has no directory or no 2 MB block is free |
| `MachOPaged.PastFirstPage` | OvsbMk/kernel/mach_o.c:227-235 | a longer file part: byte `j` of the file, past the first page, is stored as far behind the first block, and the segment's later pages hold zeros |
| `MachOPaged.CodeVisible` | OvsbMk/kernel/mach_o.c:217-236 | what an address of that page reads |
| `InitialStack.AbiUnique` | OvsbMk/kernel/process.c:494-585 | the ABI reader has one reading of a stack |
| `InitialStack.PushStrings` | OvsbMk/kernel/process.c:519-527 | the strings lie one after the other below the top, each pointer at its string |
| `InitialStack.PushAux` | OvsbMk/kernel/process.c:557-566 | the auxiliary pairs in reading order, ended by the null pair |
| `InitialStack.SetupStack` | OvsbMk/kernel/process.c:494-585 | the reader at the returned pointer finds exactly argc, the argument strings, an empty environment and the intended auxiliary vector; no word overlaps a string or the random bytes |
| `VfsPath.Scan` | OvsbMk/fs/vfs.c:68-97 | one pass over the characters computes the fold of the components over a stack |
| `VfsPath.JoinPaths` | OvsbMk/fs/vfs.c:54-66 | the joined path, cut to the buffer |
| `VfsPath.WriteOut` | OvsbMk/fs/vfs.c:99-108 | the normal form, cut to the caller's buffer |
| `VfsPath.AbsPath` | OvsbMk/fs/vfs.c:51-110 | -1 for an empty path, otherwise the normal form of the joined path; what that means is said by the laws below |
| `VfsPath.OverrunsExactly` | OvsbMk/fs/vfs.c:61-66 | the terminator lies outside the scratch buffer if and only if the path is relative, the working directory has at least 511 characters and its 511th is not a slash |
| `VfsPath.OverrunInput` | OvsbMk/fs/vfs.c:61-66 | it happens from a directory of 511 letters, and from none of fewer than 256 characters |
| `VfsPath.Idempotent` | OvsbMk/fs/vfs.c:51-110 | normalising a normal form changes nothing, from any directory |
| `VfsPath.Compose` | OvsbMk/fs/vfs.c:51-110 | resolving q from where p leads is resolving p/q |
| `VfsPath.Upwards` | OvsbMk/fs/vfs.c:76-91 | `p/..` is `p` without its last component, the root when it has none |
| `VfsPath.Downwards` | OvsbMk/fs/vfs.c:76-91 | `p/x` is `p` with `x` behind it, cut to 63 characters, or `p` when that has 32 components |
| `VfsPath.Stays` | OvsbMk/fs/vfs.c:76-91 | `p/.`, `p/` and `p//` are `p` |
| `VfsPath.DownUp` | OvsbMk/fs/vfs.c:76-91 | `p/x/..` is `p` |
| `VfsPath.Root` | OvsbMk/fs/vfs.c:51-66 | `/` is the root, and without a working directory a relative path starts there |
| `VfsPath.FromCwd` | OvsbMk/fs/vfs.c:58-66 | a relative path q from an absolute directory d is d/q |
| `Tui.FmtInt` | src/userland/libc/tui.c:55-62 | the decimal digits of the number |
| `Terminal.DigitsEffect` | src/userland/libc/tui.c:55-62 | the terminal reads those digits back as the number |
| `Tui.Screen.AnsiGoto` | src/userland/libc/tui.c:66-74 | the cursor moves there and nothing else changes |
| `Tui.Screen.AnsiAttr` | src/userland/libc/tui.c:78-90 | no character and no position changes |
| `Tui.DrawRow` | src/userland/libc/tui.c:462-471 | one row of a window over what was there, clipped to the screen |
| `Tui.Composite` | src/userland/libc/tui.c:454-473 | every cell is that of the topmost window covering it, blank without one |
| `Tui.Screen.TrimRow` | src/userland/libc/tui.c:503-506 | one past the last cell that is not a space |
| `Tui.Screen.SendRow` | src/userland/libc/tui.c:496-531 | the bytes sent make the terminal's row show the cells and change no other row |
| `Tui.Screen.RefreshRow` | src/userland/libc/tui.c:481-534 | the row is shown and recorded; an unchanged row sends nothing |
| `Tui.Screen.Refresh` | src/userland/libc/tui.c:477-535 | if the terminal matched the record, it shows the composite afterwards and matches the new record |
| `Tui.Screen.RefreshAll` | src/userland/libc/tui.c:477-535 | the same over any sequence of window arrangements |
| `Tui.Screen.constructor` | src/userland/libc/tui.c:131-155 | start-up establishes the match |
| `Rings.PutStep` | OvsbMk/kernel/syscall.c:382-385 | storing at the masked write counter appends to the queue, also when the 32-bit counter wraps |
| `Rings.TakeStep` | OvsbMk/kernel/syscall.c:793-796 | reading at the masked read counter takes the head of the queue, also when the counter wraps |
| `Rings.ByteRing.Write` | OvsbMk/kernel/syscall.c:376-389 | as many bytes as fit are appended in order; -1 or -11 exactly when the ring is unused or full; accepted = delivered + buffered |
| `Rings.ByteRing.Drain` | OvsbMk/kernel/syscall.c:792-796 | at most `count` bytes leave in order; accepted = delivered + buffered |
| `Pipes.PipeWritersAlive` | OvsbMk/kernel/syscall.c:541-553 | true if and only if a non-empty process slot holds a write end |
| `Pipes.SockPop` | OvsbMk/kernel/syscall.c:591-603 | the head of the queue, or -1, -11, 0 as the state says |
| `Pipes.Readv` | OvsbMk/kernel/syscall.c:948-965 | the buffers are filled in turn with the head of the queue; it stops short only when the queue is empty |
| `Pipes.PipeSystem.Read` | OvsbMk/kernel/syscall.c:764-800 | interleaved with any actions of other processes, in turns the reader waits through: at most `count` bytes leave, fewer only when the queue is then empty; what is delivered is, in order, what others took in those turns and then the result, and the queue is what is left; -1, -11 and 0 as the state says, 0 for a positive count only when the queue is empty and no live process holds a write end |
| `Pipes.PipeSystem.Await` | OvsbMk/kernel/syscall.c:776-790 | the waiting loop: it ends at the first turn after which the queue holds something or no live process holds a write end, and takes nothing itself |
| `Pipes.EndOfFile` | OvsbMk/kernel/syscall.c:776-800 | a result of 0 for a positive count means an empty queue and no live writer when it was returned |
| `Scheduler.Table.FindNextReady` | OvsbMk/kernel/process.c:364-376 | the first ready slot of the rotation after the current one, -1 if and only if none is ready |
| `Scheduler.Table.Schedule` | OvsbMk/kernel/process.c:380-412 | switches to that slot; no slot other than the current one is running |
| `Scheduler.StepValid` | OvsbMk/kernel/process.c:364-412 | every scheduler call and every change of a slot, the current one included, keeps that |
| `Scheduler.RunnableKept` | OvsbMk/kernel/process.c:380-412 | a switch makes no slot runnable and stops none: the preempted slot stays ready, the picked one runs |
| `Scheduler.TickCloser` | OvsbMk/kernel/process.c:364-412 | a call that does not pick a waiting slot brings the rotation strictly closer to it |
| `Scheduler.BoundedWaiting` | OvsbMk/kernel/process.c:364-412 | a slot that stays ready is picked within 63 calls, in any run, whatever the current slot does |
| `Scheduler.PickedAgain` | OvsbMk/kernel/process.c:364-412 | a preempted slot is picked again within 63 calls |

## Left out

- Device and CPU plumbing: ATA, PCI, network, USB and GPU drivers, interrupts, TSS, CR3 and TLB effects, logging.
- GUI, console, shell and window manager; the Zig and assembly parts (ext2, ELF, Linux syscalls, context switch).
- The memory spinlock and SMP: one core, one call at a time.
- kcalloc and the clearing of fresh user pages: contents of memory are modelled only where a property needs them.
- Order within the free lists and the page pool: which of several equal blocks is handed out is not specified.
- The page pool together with the sweep of user memory: exactness of the sweep is stated at the buddy layer only.
- Fork's address-space copy, `pml4_create`, `pml4_destroy`, `mmap_user_high`: parent and child share lower tables there.
- Reference counts of VM objects, partial unmapping, `vm_map_protect`; `vm_map_covers` repeats `vm_map_find_entry`.
- Wire.VmSpace.WireRange: regions are a sequence here, not the linked list; the list itself is `VmMap`. Where two regions share a 2 MB page, wiring the first breaks it up and the second then finds 4 KB entries, which it keeps; so for a whole range a page that was in a 2 MB page is either kept or its object page, while `WireRegion` says which.
- FatReadWrite.WriteFile: at most 2 GB - 1 bytes, the range of the `int` result.
- FatReadWrite.ReadFile: takes the last component of a path; `FatWalk.ReadPath` is the whole of `fat32_read_file`.
- FatWalk.ChangeDir: a name without slashes, as the walk passes it; the shell's `cd /name` and the strings of working-directory names are not modelled.
- FatScan.ScanDir: one method for the five directory loops, parameterised by the loop's test; nested cluster and sector loops are one walk over sectors.
- Disk errors, `fat32_init`, `fat32_rename`, `fat32_delete_file`, listing and stat; `alloc_clusters` and `fat_chain_last` have no callers in the modelled paths.
- MachOPaged.LoadInto: files with a segment whose file part does not end in its first 2 MB page are excluded; memory holding page tables and memory holding code are two objects, kept apart by the allocator.
- InitialStack.SetupStack: environment strings (their terminator is pushed below the pointers) and the ABI's alignment rule.
- VfsPath.AbsPath: the case of `VfsPath.Overruns`, a relative path from a working directory of 511 or more characters whose 511th is not a slash: what the one byte past the scratch buffer does is not modelled.
- Tui.Screen.Refresh: characters only, not colours; tab and DEL excluded; deferred wrap assumed. Window contents are given, the drawing calls that fill them are not modelled.
- Pipes.PipeSystem.Read: progress of a blocked reader is not claimed; end-of-file liveness does not hold of this code (exit closes descriptors 3 and up only). Socket pairs end to end are left out.
- Scheduler.Table.Schedule: over slot indices; the code uses `current_pid` both as a pid and as a slot. The switch itself and its stack bookkeeping are left out.
- Userland `malloc`, the editor, and the remaining userland programs.
