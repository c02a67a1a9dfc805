# Blackcomb, verified

A Dafny model of the hard parts of Blackcomb, a small x86-64 kernel, with proofs about every run of
them: the frame allocator whose bitmaps lie in the memory it hands out, four-level page tables and
the address spaces built on them, the loader, the kernel heap, the scheduler with fork, wait and
exit, the integer formatter and the ext2 block tree. `dafny verify dfyconfig.toml` checks it all.

Code that changes things in place is modelled that way: physical memory is an array of 4096-byte
frames that the allocator, the page tables and the programs all write; the heap is an array of bytes
with headers between the payloads; task structures are linked through their pointer fields. Each
method is proved against a plain description of the state: a flat map from pages to entries, a list
of blocks, a ring of tasks, a string.

| files | component |
|---|---|
| `Bytes.dfy`, `Pmm.dfy`, `Reach.dfy` | bytes, bits and words; the frame allocator; which frames it hands out below a limit |
| `PageTables.dfy`, `Counts.dfy`, `Paging.dfy` | the tree of tables as a radix tree over page numbers, how many frames it takes; `vmm_map_page`, `vmm_unmap_page`, `vmm_get_phys` |
| `Views.dfy`, `Fork.dfy`, `Teardown.dfy`, `Fill.dfy` | what one operation does to areas, pages, frames and memory, on values |
| `Vmm.dfy`, `Boot.dfy`, `Rights.dfy`, `Exec.dfy` | address spaces, their start, what a program may do with a page, ELF segments |
| `Spaces.dfy`, `Worlds.dfy` | the life of one space; runs of all operations on all spaces, from raw memory on |
| `Layout.dfy`, `Heap.dfy`, `HeapRuns.dfy` | the heap as a list of blocks, as bytes, and over runs |
| `Processes.dfy`, `Fairness.dfy`, `Wakeups.dfy`, `Sched.dfy` | processes as a state machine, its runs, wait and exit, and the pointers that follow it |
| `Numbers.dfy`, `Printf.dfy`, `Formats.dfy` | the text of an integer; the formatter; what directives mean as they are written |
| `Ext2.dfy` | block paths and file reading |

## What the proofs found

- The kernel works on frames through a map of physical memory of 1024 pages (src/mm/vmm.c:382) once it
  has left the boot tables (src/kernel/main.c:66). In every state of every run and in every space it
  finds frame f where `P_TO_V` looks for it exactly if f < 1024, and no address leads to any other frame
  (`Worlds.PhysMapIff`). An allocation stays within such a limit exactly while a frame in reach is free,
  one below the limit in a region with only regions below the limit before it
  (`Reach.AllocWithinIff`); the next one touches unmapped memory. `Boot.FarRegion` is an input: with one
  region that begins at 4 MiB start-up succeeds and every allocation after it faults. The operations
  therefore ask that the map covers what may be handed out (`Covered`), and runs count the frames in
  reach, not all of memory.
- A page's rights are those of its area exactly if the tables above it carry them
  (`Rights.AreaRightsIff`), and tables keep the flags of the first page below them
  (src/mm/vmm.c:119, 126, 133). A writable page next to a page mapped read-only before it cannot be
  written (`Rights.MapTwo`). Since `mm_insert_vma` reverses the list of areas, a duplicate maps them in
  the other order, and its pages may have other rights than those of the source.
- `pmm_free` tests a region with an inclusive upper bound (src/mm/pmm.c:190-191), so with abutting
  regions the first frame of the next region passes the test too. It is harmless: that frame always
  holds a bitmap and is never live (`Pmm.OnlyOwnerMatches`).
- `mm_free` frees `mm->p4` (src/mm/vmm.c:474) after the last unmap has set it to 0
  (src/mm/vmm.c:182-183). The call frees nothing as long as no region holds physical page 0, and the
  frames still come out exactly even (`Spaces.Lifetime`, `Worlds.FramesInUse`).
- `mm_free` of the last user space drops the last reference of the kernel's areas, which are static,
  and passes them to `free` (src/mm/vmm.c:312-313). `Vmm.AddressSpaces.MmFree` reports this exactly
  then.
- The comment at src/mm/vmm.c:352 calls the copy a bug; the code below it advances the source and is
  right (`Vmm.AddressSpaces.CopyFromBuf`).
- `map_segment` loads the segment's own bytes exactly when offset and address agree modulo 4096
  (`Exec.SegmentOffset`).
- Wakeups can be lost. `do_wait` leaves the freed child linked (src/kernel/exit.c:24-27), and the heap
  may hand its memory to the next fork of any task. `Wakeups.WakeupLost` is a run from boot in which a
  task then waits with a zombie on its list that woke another task, although init never sleeps and no
  task is freed before its children have exited. `Wakeups.LostWakeupIff` says exactly when a fork makes
  this possible: when the address of the new structure heads the child list of another unexited task.
  Otherwise no wakeup is lost (`Wakeups.NoLostWakeup`). The run queue, fairness and the panics do not
  depend on where structures lie.
- For the same reason `do_wait` can free a task twice (`Wakeups.FreesTwice`). It does exactly when the
  structure of the task's last fork is free (`Wakeups.DoubleFreeAlways`); while forks stay off other
  tasks' lists, that is when the task has freed a child since its last fork
  (`Wakeups.DoubleFreeIff`), which it can tell from its own calls.
- `tree_insert_proc` links to the old head's sibling (src/kernel/sched.c:41), so a child list holds
  only the latest child (`Wakeups.HeadIsLastFork`). A zombie can be freed by some run exactly when it
  heads the list of an unexited task (`Wakeups.CanBeFreedIff`); an earlier child never is
  (`Wakeups.DroppedForever`). `do_wait` stores the waiting task's own status (src/kernel/exit.c:24),
  so it always delivers 0 (`Sched.Scheduler.DoWait`).
- Process numbers repeat from fork number 2^32 - 998 on, with the number of init
  (`Processes.PidsRunOut`).
- `#` takes digits for its mark when the digit count meets the width (src/lib/printf.c:255-259);
  `Numbers.HashKeepsDigits` has the exact condition, `Numbers.HashLosesDigits` an input. The `-` flag
  makes the formatter ignore a precision (src/lib/printf.c:240-251): `Numbers.PrecisionMetIff` has the
  condition, `Numbers.MinusIgnoresPrecision` an input.
- The digit buffer has 32 places (src/lib/printf.c:239-251): zeros stop there, the sign is left out when
  it is full, and `%b` writes the low 32 bits of a larger number (`Formats.IntegerLaw`). Apart from that
  and from `-`, integers are written as the C standard asks.
- `ext2_block_offsets` is right for exactly three ranges of blocks (`Ext2.BlockOffsets`); the first
  block past the single indirect part is the first one it gets wrong. Its panic is out of reach of
  32-bit block numbers (`Ext2.NoPanic`). Reading an empty file panics, since it asks the heap for 0
  bytes (`Ext2.ReadFile`).
- `kmalloc` of a size within 32 of 2^64 wraps when it adds a header (src/mm/kmalloc.c:63) and splits a
  block that is too small (`Heap.TestIff`, with the input `Heap.TestWraps`). Sizes a little below that
  are negative to `sbrk`, which moves the break down without a panic (`Heap.KernelHeap.Sbrk`): for
  2^64 - 40 by 8 bytes. `Heap.KernelHeap.Kmalloc` is about sizes up to 2^64 less the heap's, for which
  neither happens.

## Model

| member | source | states |
|---|---|---|
| `Pmm.FrameAllocator.constructor` | src/mm/pmm.c:140-154 | from arbitrary memory, exactly the frames that hold bitmaps are marked, no frame is live, and nothing outside the bitmaps changed |
| `Pmm.FrameAllocator.FindFreePage` | src/mm/pmm.c:126-138 | finds the lowest frame of the region whose bit is clear and sets that bit, or leaves memory alone when all are set |
| `Pmm.FrameAllocator.Alloc` | src/mm/pmm.c:168-180 | hands out the lowest free frame of the first region that has one, zero-filled, never a live or a bitmap frame; one bitmap bit and that frame are all that changes; on exhaustion page 0 is zeroed and 0 returned |
| `Pmm.FrameAllocator.Release` | src/mm/pmm.c:182-196 | clears the one bit of the frame, in the region that owns it, and nothing else; address 0 changes nothing |
| `Pmm.OneBitChanges` | src/mm/pmm.c:51-67 | storing one bit changes the bit of that frame and no other bit of any region |
| `Pmm.MarkUsedKeepsInv` | src/mm/pmm.c:126-138 | after marking a free frame and writing it, a bit is set exactly for bitmap frames and live frames |
| `Pmm.MarkFreeKeepsInv` | src/mm/pmm.c:182-196 | after clearing a live frame's bit, a bit is set exactly for bitmap frames and the remaining live frames |
| `Pmm.OnlyOwnerMatches` | src/mm/pmm.c:187-195 | despite the inclusive bound, a usable frame passes the range test of its own region only, even when regions abut |
| `Pmm.ClientWriteKeepsInv` | src/mm/pmm.c:51-67 | whatever an owner writes into its frame, the allocator's state in memory stays what it was |
| `Pmm.FullMeansExhausted` | src/mm/pmm.c:168-180 | if every bit of every region is set, no usable frame is left |
| `Pmm.BitmapExact` | src/mm/pmm.c:140-154 | the bitmap of a region takes exactly as many frames as its bits need, 32768 to a frame |
| `Reach.AllocWithinIff` | src/mm/pmm.c:126-180 | a search reads no bitmap past a limit and gives a frame below it exactly when a frame in reach is free, and that frame is one in reach |
| `Reach.SortedReach` | src/mm/pmm.c:168-180 | with regions in order of address the frames in reach are all usable frames below the limit |
| `Reach.ReleaseWithin` | src/mm/pmm.c:182-196 | giving a frame in reach back touches only a bitmap below the limit |
| `PageTables.IndicesSpellPage` | src/mm/vmm.c:10-13 | the four index fields of an address determine its page number and are determined by it |
| `PageTables.WalkIsFlat` | src/mm/vmm.c:94-102 | under the tree invariant the four-level walk through memory of every page number gives the entry of a flat map, 0 where it has none |
| `PageTables.FourLevels` | src/mm/vmm.c:10-13 | the walk of an address takes nine bits from each of bits 39, 30, 21 and 12 up to choose the entry of each level |
| `PageTables.GettersFollowWalk` | src/mm/vmm.c:46-68 | the nested entry getters read the same words as the walk, level by level |
| `PageTables.AllowedIsCarried` | src/mm/vmm.c:94-136 | the rights that the walk through memory finds are those of the entries at and above the page |
| `PageTables.PutSlot` | src/mm/vmm.c:70-92 | storing a new entry in a table keeps the tree: every table is pointed to by one entry of one space and mirrored in memory |
| `PageTables.DropSlot` | src/mm/vmm.c:147-174 | clearing an entry without children keeps the tree |
| `Paging.Mapper.MapPage` | src/mm/vmm.c:104-138 | exactly one page of one space gets its entry; no table is lost, new tables take the flags of the page, other spaces' tables, all data frames and their bytes are untouched; memory need only be large enough for the tables of the pages mapped then, and all frames taken are below the limit |
| `Paging.Mapper.TablesCounted` | src/mm/vmm.c:111-184 | in every valid state the table frames are exactly as many as there are places above mapped pages, so the free frames are known exactly |
| `Paging.Mapper.UnmapPage` | src/mm/vmm.c:140-184 | exactly that page of that space goes; tables that become empty are freed bottom-up and no others; all data frames keep their bytes |
| `Paging.Mapper.GetPhys` | src/mm/vmm.c:94-102 | the frame address of the flat map's entry for a mapped page |
| `Paging.Mapper.WalksAreFlat` | src/mm/vmm.c:94-184 | in every valid state the walk of every page of every space is the flat map's entry |
| `Paging.Mapper.RunOps` | src/mm/vmm.c:104-184 | over any run of map and unmap on any number of spaces, as long as the tables of the pages mapped at each moment fit, the walks are those of the same run of updates on a flat map |
| `Paging.Mapper.RootIffMapped` | src/mm/vmm.c:111-114 | a space has a root table exactly when it maps some page |
| `Paging.TreeIsPages` | src/mm/vmm.c:111-184 | a table exists exactly when a mapped page lies below it |
| `Paging.SamePagesSameTree` | src/mm/vmm.c:147-183 | a tree grown and then shrunk to the same mapped pages is the same tree in the same frames |
| `Paging.Mapper.MapThenUnmap` | src/mm/vmm.c:104-184 | mapping an unmapped page and unmapping it restores the set of allocated frames, every entry and every root |
| `Views.AddPrivate` | src/mm/vmm.c:253-257 | a page over a fresh frame keeps the invariant: mapped pages are the disjoint union of areas, a private frame backs one page of one space |
| `Views.AddShared` | src/mm/vmm.c:284-294 | a page over the kernel's frame keeps the invariant |
| `Views.ListsAfterMmap` | src/mm/vmm.c:259-268 | after `anon_mmap` every space's pages are those of its areas, regular areas have one reference, kernel areas one per user space |
| `Views.ListsAfterNew` | src/mm/vmm.c:408-415 | the same after a new space has taken over all kernel areas |
| `Teardown.ListsAfterFree` | src/mm/vmm.c:450-477 | the same after a space is gone: counts of kernel areas fell by one, everybody else's areas are whole |
| `Teardown.CountedAfterFree` | src/mm/vmm.c:243-244 | reference counts after teardown: 1 for regular areas, the number of remaining user spaces for kernel areas |
| `Views.CountedAfterMmap` | src/mm/vmm.c:196-209 | after an area is put on a list with its first reference, regular areas have one reference, on one list only, and kernel areas one per user space |
| `Views.RegTotalIsCount` | src/mm/vmm.c:428-446 | the regular areas of a space have as many pages in all as the space has regular pages: areas overlap nowhere |
| `Vmm.AddressSpaces.AnonMmap` | src/mm/vmm.c:247-269 | as long as the map of physical memory covers what may be handed out, exactly the pages of the range are added, each over a frame that was not live before and is zero, in entries with the flags of the area, below tables that take those flags when they are new; every other space keeps pages, tables, frames and bytes; all invariants hold |
| `Vmm.AddressSpaces.SharePages` | src/mm/vmm.c:281-297 | exactly the pages of a kernel area are added, over the kernel's frames and with the flags of the area, without allocating a data frame |
| `Vmm.AddressSpaces.MmNew` | src/mm/vmm.c:408-422 | under the same condition the new space maps exactly the kernel's pages to the kernel's frames, writable for the kernel and closed to programs; each kernel area has one more reference; nobody else is affected |
| `Vmm.AddressSpaces.CopyFromMm` | src/mm/vmm.c:316-333 | every page of the range in the destination has the bytes of the source page, no other frame changed |
| `Vmm.AddressSpaces.CopyFromBuf` | src/mm/vmm.c:335-358 | page by page the range holds the buffer, past its end what it held before, no other frame changed |
| `Fill.FilledByte` | src/mm/vmm.c:341-357 | byte j of the range is byte j of the buffer for j below its length, although the frames are not contiguous |
| `Vmm.AddressSpaces.MmDupe` | src/mm/vmm.c:424-448 | under the same condition the duplicate maps the same pages; a regular page has the same bytes and leaf flags in a frame that was not live before, a kernel page the same frame; source and all other spaces are unchanged |
| `Vmm.AddressSpaces.DropPages` | src/mm/vmm.c:224-245 | all pages of an area go, with their frames if the area is regular, and nothing else |
| `Vmm.AddressSpaces.MmFree` | src/mm/vmm.c:450-477 | the live frames left are exactly the tables and data frames of the other spaces, which keep pages, owners, frames and bytes; it passes a static area to `free` exactly when this is the last user space |
| `Worlds.RunAll` | src/mm/vmm.c:247-477 | over any run of `mm_new`, `anon_mmap`, `mm_dupe`, `mm_free` and stores by all spaces, frames reused meanwhile, as long as the frames in reach of the kernel suffice at each moment: the state shows exactly the map from pages of spaces to bytes and leaf rights that the run gives, and as many frames are live as that map accounts for |
| `Worlds.Reads` | src/mm/vmm.c:94-102 | what the processor reads through four present entries of a space is the byte of that map |
| `Worlds.Undisturbed` | src/mm/vmm.c:424-448 | a page keeps its bytes through any run that neither stores to it nor frees its space, whatever its parent, its copies and other spaces do |
| `Worlds.FramesInUse` | src/mm/vmm.c:140-184 | the live frames are exactly one per regular page, one per page of the kernel's heap, and one per table above a mapped page |
| `Worlds.RegularIff` | src/mm/vmm.c:281-314 | in every space the regular pages are the mapped ones that the kernel's own space does not map |
| `Worlds.KernelKept` | src/mm/vmm.c:247-477 | no run of operations and stores changes a byte of the kernel's heap or the frame of another kernel page |
| `Worlds.EntriesNear` | src/mm/vmm.c:360-406 | in every state every entry of every space names one of the first 1024 frames |
| `Worlds.PhysMapIff` | src/mm/vmm.c:377-383 | in every state of every run and in every space, the kernel finds frame f where `P_TO_V` looks for it exactly if f < 1024, and no address leads to a frame from 1024 on |
| `Worlds.KernelImage` | src/mm/vmm.c:360-406 | in every state of every run and in every space, 512 pages from 0xffffffff80000000 and 1024 from 0xffff888000000000 lie over physical pages from 0 on, and with 128 heap pages from 0xffffc90000000000 all are present, writable and closed to programs |
| `Worlds.BootAndRun` | src/kernel/main.c:60-66 | from memory of any contents, start-up followed by any legal run that fits the frames in reach shows the map that the run gives from nothing; the frames live are exactly those it accounts for, all below 1024; in every space the kernel finds frame f exactly if f < 1024, and its pages are writable and closed to programs |
| `Worlds.OneSpaceFits` | src/mm/vmm.c:408-422 | eleven frames more than start-up takes are enough for a first space |
| `Worlds.Begin` | src/kernel/main.c:60-66 | start-up with 139 frames in reach shows the map without user pages and a heap of zero bytes, from which every run starts, on the given regions and memory |
| `Spaces.Lifetime` | src/mm/vmm.c:417-477 | as long as the map of physical memory covers what may be handed out, making a space by `mm_new` or `mm_dupe`, mapping any list of ranges and freeing it, with memory just large enough, leaves the set of live frames, tables of four levels included, all mappings and all other data exactly as before |
| `Boot.KernelMmInit` | src/mm/vmm.c:360-406 | exactly the pages of the kernel's three areas are mapped, text and physical map page i to physical page i, the heap to zero frames, and the state satisfies every invariant the other operations need |
| `Boot.KernelTables` | src/mm/vmm.c:360-406 | at most eleven tables lie above the kernel's pages |
| `Boot.StartMemory` | src/kernel/main.c:60-63 | from memory of any contents whose bitmaps the boot tables reach, with 139 frames below a limit within those tables, start-up reaches a state on those regions and that memory that satisfies every invariant, with exactly the kernel's pages mapped, in entries that end in 3; the kernel's own map covers what may be handed out exactly if the limit is at most 1024 |
| `Boot.MapKernelRange` | src/mm/vmm.c:211-222 | exactly the pages of the range are mapped, page i to physical page i, over no data frame |
| `Boot.KernelFindsIff` | src/mm/vmm.c:377-383 | after start-up the walk of `P_TO_V` of a frame below 1 GiB names that frame exactly if it is one of the first 1024, and finds nothing otherwise |
| `Boot.FarRegion` | src/mm/vmm.c:382 | one region from 4 MiB on: start-up succeeds, its bitmap is not mapped then, and no search stays within the map |
| `Rights.RightsAfterMap` | src/mm/vmm.c:108-138 | the page just mapped has a right exactly if its flags and all tables that were there before give it |
| `Rights.AreaRightsIff` | src/mm/vmm.c:104-138 | in every state a page has a right exactly if its area grants it and the tables above it carry it |
| `Rights.EntryOfArea` | src/mm/vmm.c:249-252 | the entry of every page has bit 0, bit 1 exactly if the area may be written, and bit 2 exactly if it is for programs |
| `Rights.AllPresent` | src/mm/vmm.c:115-137 | in every state every entry of every level has bit 0 |
| `Rights.MappedPresent` | src/mm/vmm.c:104-138 | in every state the walk of every mapped page finds four present entries |
| `Rights.KernelRights` | src/mm/vmm.c:281-297 | in every state and every space the kernel may write each page that its own space maps, and no program may touch it |
| `Rights.MapTwo` | src/mm/vmm.c:115-137 | of two pages below one table of an empty space the first has its own rights and the second those that the first has too |
| `Exec.MapSegment` | src/fs/exec.c:15-23 | as long as the map of physical memory covers what may be handed out: exactly the pages from that of `vaddr` to that of the last byte are added, in entries with bits 0 and 2 and without bit 1, open to programs wherever the tables that were there are; read back through present entries, the segment holds the file's bytes up to its file size and zeros up to its memory size; other spaces are untouched |
| `Exec.SegmentOffset` | src/fs/exec.c:17-22 | the loaded bytes start at the segment's own offset exactly when offset and address agree modulo 4096 |
| `Layout.MallocCoalesced` | src/mm/kmalloc.c:46-86 | allocation leaves no two adjacent free blocks |
| `Layout.FreeCoalesced` | src/mm/kmalloc.c:98-122 | freeing leaves no two adjacent free blocks |
| `Layout.MallocNoEmpty` | src/mm/kmalloc.c:20-41 | no allocation leaves a free block of size 0 |
| `Layout.FreeNoEmpty` | src/mm/kmalloc.c:98-122 | nor does freeing |
| `Layout.MallocThenFree` | src/mm/kmalloc.c:20-122 | an allocation served from an existing block and freed at once restores the exact layout |
| `Layout.BorrowAgain` | src/mm/kmalloc.c:46-122 | what was allocated and freed at once is served again, from then on without a change of the layout |
| `Layout.LiveMalloc` | src/mm/kmalloc.c:46-86 | allocation adds one payload of the requested size or 32 bytes more, and moves no other |
| `Layout.LiveFree` | src/mm/kmalloc.c:98-122 | freeing removes exactly that payload; all others stay where they are, and the heap keeps its extent |
| `Layout.LiveDisjoint` | src/mm/kmalloc.c:20-44 | live payloads are inside the heap and pairwise disjoint |
| `Layout.FreeAllInAnyOrder` | src/mm/kmalloc.c:98-122 | freeing all live payloads in any order leaves one free block that spans the heap |
| `Heap.EncodedSplit` | src/mm/kmalloc.c:30-41 | the header stores of a split turn memory that encodes one layout into memory that encodes the split one, `next` and `prev` inverse |
| `Heap.EncodedMerge` | src/mm/kmalloc.c:105-120 | the header stores of a merge do the same for the merged layout |
| `Heap.KernelHeap.constructor` | src/mm/kmalloc.c:124-133 | memory encodes one free block of the initial size |
| `Heap.KernelHeap.Sbrk` | src/mm/vmm.c:479-493 | in 64-bit words: moves the break and returns the old one exactly for increments that leave it in the heap area, upwards or, from 2^63 on, downwards; panics otherwise |
| `Heap.KernelHeap.SplitBlock` | src/mm/kmalloc.c:20-44 | memory encodes the layout with the block split, and no live payload changed |
| `Heap.KernelHeap.Kmalloc` | src/mm/kmalloc.c:46-86 | for sizes that neither wrap nor read as negative: follows the first-fit layout and returns its address, panics exactly for size 0 or exhaustion; blocks tile the heap up to the break; no byte of a live payload changes |
| `Heap.KernelHeap.KFree` | src/mm/kmalloc.c:98-122 | follows the layout with coalescing on both sides; no byte of another live payload changes |
| `Heap.OwnerWrites` | src/mm/kmalloc.c:11-16 | whatever an owner writes inside its payload, the headers still encode the layout and every other payload keeps its bytes |
| `Heap.ServedIff` | src/mm/kmalloc.c:57-75 | a request is served exactly if it is not 0 and a free block has that size or at least 32 bytes more, or the heap area has room |
| `Heap.TestIff` | src/mm/kmalloc.c:63 | the size test in 64-bit words is the intended one exactly if the sum does not wrap to a number that the block reaches |
| `Heap.TestWraps` | src/mm/kmalloc.c:63 | a request of 2^64 - 16 bytes is taken to fit into 16 |
| `HeapRuns.StaysLive` | src/mm/kmalloc.c:46-122 | a step that does not free a payload keeps its address and size |
| `HeapRuns.NeverEmpty` | src/mm/kmalloc.c:46-122 | no run of allocations and frees leaves a block of size 0 |
| `HeapRuns.LiveHolds` | src/mm/kmalloc.c:84-85 | every live payload lies inside the heap and holds its bytes, so the run theorem is about all of them |
| `HeapRuns.RunHeap` | src/mm/kmalloc.c:46-122 | over any run of allocations, frees and stores by owners the layout is followed, and a payload not freed keeps address and size and holds its owner's stores and no others |
| `Processes.StartOk` | src/kernel/fork.c:70-86 | the state with init alone satisfies the process invariant |
| `Processes.NextOk` | src/kernel/sched.c:37-140 | every legal step keeps the invariant, wherever new structures lie: the ring holds once each exactly the tasks that are not waiting, zombie or blocked; unexited tasks have live parents; process numbers differ |
| `Processes.ForkOk` | src/kernel/sched.c:107-115 | fork keeps it, also when the structure reuses any freed memory |
| `Processes.ExitOk` | src/kernel/exit.c:30-42 | exit keeps it, with a waiting parent woken |
| `Processes.WaitOk` | src/kernel/exit.c:4-28 | a pass of wait that frees a live task or sleeps keeps it |
| `Processes.PidFresh` | src/kernel/fork.c:13-52 | below the limit a fork's process number differs from those of init and all earlier forks |
| `Processes.PidsRunOut` | src/kernel/fork.c:11-13 | the numbers of the first 2^32 - 999 forks differ pairwise, and the next is that of init |
| `Fairness.ReachableOk` | src/kernel/sched.c:66-79 | every state of every legal run from boot satisfies the invariant |
| `Fairness.StepPotential` | src/kernel/sched.c:117-140 | 11 times the distance less the ticks used falls with every tick and grows by at most 11 with an insertion |
| `Fairness.BoundedFairness` | src/kernel/sched.c:48-140 | in every run, a runnable task d places ahead runs within 11 * (d + m) ticks, m the number of insertions |
| `Fairness.TurnOf` | src/kernel/sched.c:134-140 | with ticks alone it runs after exactly 11 * d less the ticks already used, and the ring is rotated by d |
| `Fairness.SameProcessIff` | src/kernel/sched.c:21-27 | the same-process panic happens exactly when the only runnable task sleeps and wakes nobody; a wait frees twice exactly when the head of the child list has been freed |
| `Fairness.NoSameProcess` | src/kernel/sched.c:21-27 | no run in which init never sleeps reaches that panic |
| `Wakeups.ParentRunsNext` | src/kernel/exit.c:35-40 | when a child exits while its parent waits, the parent is the very next to run |
| `Wakeups.ChildRunsNext` | src/kernel/sched.c:107-115 | a new task is next in line, with number 1000 and one more for every fork before, its parent's latest child |
| `Wakeups.ReaderRunsNext` | src/kernel/tty.c:70-74 | the reader that the enter key wakes is next in line |
| `Wakeups.SecondRuns` | src/kernel/sched.c:117-140 | the task next in line runs when the slice of 11 ticks is over |
| `Wakeups.ExitStatus` | src/kernel/exit.c:30-42 | an exited task is a zombie with its status, out of the ring and not freed; only its parent may change, from waiting to running |
| `Wakeups.RetryFrees` | src/kernel/exit.c:8-27 | its retry then frees the exited child if that is its latest child, and otherwise waits again |
| `Wakeups.NoLostWakeup` | src/kernel/exit.c:8-40 | in every run whose forks stay off the heads of other unexited tasks' lists, no task waits with a zombie on its list |
| `Wakeups.LostWakeupIff` | src/kernel/exit.c:8-40 | after a fork, some run loses a wakeup exactly when the address of the new structure heads the list of another unexited task |
| `Wakeups.WakeupLost` | src/kernel/exit.c:8-40 | a run from boot that loses a wakeup |
| `Wakeups.DoubleFreeIff` | src/kernel/exit.c:24-27 | in every such run a wait frees a task twice exactly when the waiting task has freed a child since its last fork |
| `Wakeups.DoubleFreeAlways` | src/kernel/exit.c:24-27 | in every run at all it does exactly when the structure of the task's last fork is free |
| `Wakeups.FreesTwice` | src/kernel/exit.c:24-27 | a run from boot that frees a task twice |
| `Wakeups.HeadIsLastFork` | src/kernel/sched.c:37-46 | in every run the head of a live task's child list is the address of its last fork |
| `Wakeups.DroppedForever` | src/kernel/sched.c:37-46 | a task that heads the list of no unexited task is never freed by any run |
| `Wakeups.CanBeFreedIff` | src/kernel/exit.c:8-27 | a zombie without unexited children is freed by some run exactly when it heads the list of an unexited task |
| `Wakeups.SecondForkDrops` | src/kernel/sched.c:37-46 | after a further fork the earlier child heads no list |
| `Sched.InsertLinks` | src/kernel/sched.c:48-55 | the four pointer stores of an insertion give the circular list with the task second |
| `Sched.RemoveLinks` | src/kernel/sched.c:57-64 | the stores of a removal give the circular list without its first task |
| `Sched.Scheduler.RrInsert` | src/kernel/sched.c:48-55 | exactly which `next` and `prev` fields change, in all cases of aliasing |
| `Sched.Scheduler.RrRemove` | src/kernel/sched.c:57-64 | the same for removal |
| `Sched.Scheduler.TreeInsert` | src/kernel/sched.c:37-46 | the new task heads the parent's list and takes the sibling of the old head |
| `Sched.Scheduler.ScheduleSleep` | src/kernel/sched.c:126-132 | the ring loses its first task and `current` is the next one; fails exactly when there is no other |
| `Sched.Scheduler.MaybePreempt` | src/kernel/sched.c:117-140 | one tick of the state machine, and never a panic |
| `Sched.Scheduler.SchedFork` | src/kernel/sched.c:107-115 | the pointers follow the state machine's fork, wherever the structure lies |
| `Sched.Scheduler.DoWait` | src/kernel/exit.c:4-28 | follows the state machine, the second free included; returns the zombie's number and status 0 exactly when it frees one |
| `Sched.Scheduler.DoExit` | src/kernel/exit.c:30-42 | follows the state machine, the panic included |
| `Sched.Scheduler.StdinRead` | src/kernel/tty.c:32-39 | follows the state machine: blocks the reader, or panics for a second reader or a lone task |
| `Sched.Scheduler.SendEnter` | src/kernel/tty.c:70-74 | the blocked reader is put next in line |
| `Sched.Scheduler.RunOps` | src/kernel/sched.c:21-140 | every run of the pointer structures is the run of the state machine, panics and second frees included |
| `Numbers.RoundTrip` | src/lib/printf.c:193-318 | without #, every 64-bit value in bases 8 to 16 with any other flags, precision below 32 and width up to 32 reads back as the same sign and value |
| `Numbers.TextLength` | src/lib/printf.c:193-318 | the text is as long as the larger of the width and its length without a width |
| `Numbers.RevDigitsValue` | src/lib/printf.c:308-313 | the digits in the buffer denote the value |
| `Numbers.NumeralOf` | src/lib/printf.c:308-313 | the digits of a number that fits are its numeral: in the right case, none missing, no zero in front |
| `Numbers.TextParts` | src/lib/printf.c:193-318 | whatever the sizes, the text without # is spaces, sign, zeros, digits and spaces |
| `Numbers.HashKeepsDigits` | src/lib/printf.c:253-271 | with # and no precision all digits are written exactly when the digit count does not meet the width |
| `Numbers.HashLosesDigits` | src/lib/printf.c:253-271 | `%#2x` of 0x12 writes `0x` |
| `Numbers.PrecisionMetIff` | src/lib/printf.c:239-251 | a number has as many digits as its precision asks for exactly if `-` is absent or it has them anyway |
| `Numbers.MinusIgnoresPrecision` | src/lib/printf.c:239-251 | `%-.3d` of 5 writes `5` |
| `Printf.OutRev` | src/lib/printf.c:193-224 | writes the buffer in reverse, padded to the width on the side the flags say |
| `Printf.NtoaFormat` | src/lib/printf.c:227-284 | the in-place padding, mark and sign give the described buffer |
| `Printf.NtoaLong` | src/lib/printf.c:287-318 | writes the text of the number |
| `Printf.Atoi` | src/lib/printf.c:183-190 | the value of the digits ahead modulo 2^32, and the place after them |
| `Printf.AtoiOfDigits` | src/lib/printf.c:183-190 | recovers every value below 2^32 from its decimal digits |
| `Printf.PutString` | src/lib/printf.c:870-894 | the string up to its precision, padded to the width |
| `Printf.FormatAll` | src/lib/printf.c:635-926 | the characters written, numbered without gaps, are the unbounded output of the format |
| `Printf.Snprintf` | src/lib/printf.c:624-963 | the result does not depend on the bound; the buffer holds the first characters of the unbounded output that fit, a terminator, and beyond it what it held before |
| `Formats.ScanSpelled` | src/lib/printf.c:647-746 | flags in any order, a width, a precision and a length modifier, as written or taken from arguments, are read as what they say; every star takes one argument |
| `Formats.PlainCharacter` | src/lib/printf.c:638-643 | characters outside directives are copied |
| `Formats.StringLaw` | src/lib/printf.c:870-894 | `%s` writes the string up to its precision, with spaces up to the width on the side that `-` says |
| `Formats.StarString` | src/lib/printf.c:697-709 | `%.*s` with n and a string writes its first n characters |
| `Formats.CharLaw` | src/lib/printf.c:850-868 | `%c` writes one character in its field |
| `Formats.PercentLaw` | src/lib/printf.c:916-919 | `%%` writes a percent sign and takes no argument |
| `Formats.IntegerLaw` | src/lib/printf.c:747-834 | the integer directives write the numeral of the argument modulo 2^8, 2^16, 2^32 or 2^64, with a sign for d and i, in base 10, 16, 8 or 2, lower case for x and upper case for X, with the sign, zeros and spaces that flags, precision and width ask for |
| `Formats.ReadsBack` | src/lib/printf.c:193-318 | that text reads back as the sign and value of the argument |
| `Formats.HashLaw` | src/lib/printf.c:253-271 | `%#x`, `%#X`, `%#o` and `%#b` put `0x`, `0X`, `0` and `0b` before the numeral of a number other than 0 |
| `Formats.PointerLaw` | src/lib/printf.c:896-912 | `%p` writes sixteen hexadecimal digits in upper case |
| `Ext2.PathUnique` | src/fs/ext2.c:63-110 | no two paths in range lead to the same block |
| `Ext2.PathTo` | src/fs/ext2.c:63-110 | every block below the capacity of the tree has a path in range |
| `Ext2.BlockOffsets` | src/fs/ext2.c:63-110 | the offsets are in range and lead to the block exactly for blocks in [0, 12+p), [24+p, 12+p+p^2) and [12+2p+p^2, 12+p+2p^2) |
| `Ext2.NoPanic` | src/fs/ext2.c:98-106 | with blocks of 1024 bytes or more no 32-bit block number reaches the panic |
| `Ext2.ReadBytes` | src/drivers/ata.c:74-91 | the wanted bytes of the disk go to their place in the payload through a sector buffer that is given back; it panics exactly when the heap cannot serve that buffer; all other payloads stay |
| `Ext2.GetBlock` | src/fs/ext2.c:112-125 | although one buffer holds the pointer blocks and the data, it ends up with the block that the path leads to, and nothing around it changes; it panics exactly when i_blocks is too small or the heap cannot serve a buffer of one block |
| `Ext2.InodeRoundTrip` | src/include/ext2.h:102-121 | decoding the 128 bytes of an inode, packed field by field, gives the size, the block count and the fifteen pointers that were encoded |
| `Ext2.PointerOf` | src/fs/ext2.c:120-124 | entry i of a block of pointers is the i-th pointer written |
| `Ext2.DirectBlock` | src/fs/ext2.c:73-77 | blocks below 12 are those that the inode names |
| `Ext2.SingleBlock` | src/fs/ext2.c:80-85 | the blocks from 12 on are those that the block of pointers names |
| `Ext2.BlockInPlace` | src/fs/ext2.c:127-132 | block k of the concatenated file lies at k block sizes |
| `Ext2.ReadFile` | src/fs/ext2.c:134-146 | a file without holes of at most 12 + p blocks is read into a new payload of the kernel heap: its bytes, then zeros up to a whole block; all other payloads stay; it panics exactly when i_blocks is too small or the heap cannot serve one of the four requests: inode, its sector, file, sector buffer of a block |
| `Ext2.ReadEncoded` | src/fs/ext2.c:134-146 | a file whose inode was written field by field is read by those fields: as many bytes as its size rounded up to whole blocks, byte j from place j modulo the block size of block j divided by it, and zeros past the size |

## Left out

- Exhaustion of frames in page tables and address spaces: operations ask for exactly the memory that the pages mapped afterwards take. The allocator's own exhaustion is modelled.
- Physical page 0 lies in no region, because `mm_free` passes it to `pmm_free`.
- Paging.Mapper.UnmapPage: asks for a mapped page, and so does `GetPhys`, because the walk does not test for missing tables.
- Vmm.AddressSpaces.AnonMmap: asks for a range in which the space maps nothing, since a second mapping would leak the first one's frames, and which lies in one window of 2^48 bytes; does not model the overflow of the `int` page counter times 4096 in ranges of 2 GiB or more.
- Address space structures: `struct mm` is split into the root and the list of areas, the list links of areas are a sequence, and structures get fresh names instead of heap addresses.
- Exec.MapSegment: one segment; `exec_elf` with its stack, header parsing and path lookup is not modelled.
- `mboot_find_tag` and `pmm_set_mmap`: regions are given, aligned, disjoint and nonempty.
- Heap.KernelHeap.Kmalloc: sizes from 2^64 less the heap's size on, for which the wrap of the size test and the move of the break are stated apart (`TestIff`, `Sbrk`). `kcalloc`'s multiplication is not modelled.
- Wakeups.DoubleFreeIff: a freed structure keeps its contents, so that what other allocations of the heap write over it is not modelled.
- Wakeups.DoubleFreeAlways: the same.
- Scheduler: registers, stacks, `switch_cr3`, file tables and `exec`. A freed task structure keeps its contents until its memory becomes a task structure again. No task is freed before its children have exited, and init does not exit.
- Sched.Scheduler.DoWait: one pass of the retry loop; the woken task's next pass is its next step.
- Terminal: the key buffer and its bound; only blocking and waking are modelled.
- Printf: floating point and long long, which are not built; the character and function sinks; formats that end inside a directive; strings of 4 GiB or more. A missing argument counts as 0, where C leaves it undefined.
- Numbers.RoundTrip: excludes zero with an explicit precision, which has no digits, and base 2, which the buffer of 32 characters truncates.
- Ext2.GetBlock: blocks for which the path is right, all pointers on a disk below 4 GiB and none of them 0, since a hole is read as block 0.
- Ext2.ReadFile: the place of the inode on the disk is given; the group descriptors that lead to it, `ext2_namei`, `ext2_getdents` and `ext2_ls` are not modelled.
- Worlds.RunAll: a run that does not fit the frames in reach faults or meets an empty allocator, and what happens then is not modelled.
- Memory beyond the boot tables: start-up on a region whose bitmap lies past 1 GiB faults.
- Drivers, `gdt.c`, `vgaterm.c` and all assembly.
