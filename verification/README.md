# BrebOS kernel: a verified model

BrebOS is a 32-bit x86 kernel. This project models the parts of it whose correctness spans several operations and proves
what they promise, over every input, every run or every reachable state. `dafny verify dfyconfig.toml` checks all of it.

- `Basics`, `Bytes`: shared definitions; bytes and little-endian words.
- `FatChains`, `FatLayout`, `FatDrive`, `FatNames`, `FatCache`: FAT32 files as cluster chains on a disk of sectors. The
  chains and the volume layout are values; `Drive` is the driver with its one cached FAT sector and one data buffer. Main
  results: the write and load round trip with every other file untouched, sound volumes after any run of resizes, and
  cache coherence of a cursor over any run along an acyclic chain.
- `MemBlocks`, `HeapTree`, `Heap`: the per-process heap, a search tree of address intervals. Main results: complete search
  despite pruning, ordered disjoint page-whole blocks over whole lifetimes, `free_all` releasing each covered page once.
- `PageSearch`, `PageEntries`, `Paging`: first-fit page search, reference-counted frames, copy-on-write and lazy pages.
  Main results: every run is indistinguishable, page by page, from a machine whose fork copies at once, and a load finds
  what was last stored.
- `Processes`, `SchedulerLaws`, `SchedulerSteps`, `Outcomes`, `SchedulerState` (file `Scheduler.dfy`), `Fairness`,
  `Endings`: the round-robin scheduler. State and steps are values; the class changes its queues in place and refines them.
  Main results: the search for the next process ends, every run keeps each process in exactly one place, what each call has
  come to after its trap, bounded waiting, and a bounded end for a process killed while ready.
- `Descriptors`, `DescriptorTables`: process descriptor tables over the reference-counted system table. Main result: over
  every run a count is the number of descriptors naming the entry, and the entry lives exactly that long.
- `Checksum`, `Dns`, `InitialStack`, `ElfHash`: Internet checksum composition, DNS names, the initial process stack and
  System V hash lookup.

What the proofs found out about the code, each stated exactly in the member named:

- A shrink to a non-empty size keeps one cluster too many, and the next resize of that file loses it
  (`FatChains.ShrinkLoses`, `FatChains.GrowLoses`).
- The sector count, the load range test and the page count wrap near 2^32 (`FatChains.SectorCountWraps`,
  `FatDrive.RangeTestWraps`, `Heap.PagesForWraps`).
- A null move onto the active cluster clears the mark that its data is stale, so that the next read is skipped
  (`FatDrive.Drive.ChangeActiveCluster`, `FatCache.StaleRead`).
- An entry with the read-only, hidden, system or volume bit set is taken for part of a long name and not found by its
  short name (`FatNames.MarkedNeverMatches`).
- `do_overlap` lets equal ranges and strict containment through (`HeapTree.OverlapTestExact`).
- The pages that a `free` takes out of the tree stay in use: the release call names other pages (`Heap.ReleaseStrays`).
- The frame counts from frame 767*1024 on are not cleared at start-up (`Paging.InitFrameRc`), so that the
  already-allocated error is ruled out only below that frame (`Paging.Kernel.AllocateFrame`).
- A frame given to a process is never given back: the kernel's own reference stays (`Paging.Kernel.FreePage`), and the
  copy-on-write handler checks the count of the new frame, so that check never fires (`Paging.Kernel.HandleCow`).
- A sleep of one tick puts its process in the ready queue twice unless the queue is full (`SchedulerSteps.SleepDuplicates`).
- A kill of a blocked process takes effect only when that process wakes (`SchedulerSteps.KillWaits`).
- A key press wakes half of the waiting processes, rounded up (`SchedulerSteps.KeysKeep`).
- fork copies a wrong descriptor cursor when one of 0 to 2 is closed and there is room for the child's own terminal there
  (`DescriptorTables.Files.Fork`, `DescriptorTables.ForkWithoutInput`).
- An open that finds the system table full leaves the system cursor at -1 (`DescriptorTables.Files.Open`).
- The test meant to refuse IP fragments looks at the reserved bit in place of the more-fragments bit, so first fragments
  pass (`Checksum.FragmentTestExact`, `Checksum.FragmentAccepted`).
- A compressed DNS name whose suffix behind a label reaches 256 characters is cut (`Dns.ParsedIff`,
  `Dns.LongPacketMisread`), and a label of 256 characters or more is encoded short (`Dns.WriteEncodedName`).

## Model

| member | source | states |
|---|---|---|
| `FatChains.SectorCountWraps` | src/kernel/file_management/FAT.cpp:681-682 | the 32-bit sector count equals ceil(size/512) if and only if adding 511 does not wrap |
| `FatChains.ShrinkKeeps` | src/kernel/file_management/FAT.cpp:703-727 | cutting a chain and clearing the rest keeps every chain acyclic, ended by a mark and disjoint from the others; a shrink to non-empty keeps one cluster more than the data needs |
| `FatChains.GrowKeeps` | src/kernel/file_management/FAT.cpp:735-784 | linking free, distinct clusters behind a chain keeps all chains acyclic, ended and pairwise disjoint |
| `FatChains.ShrinkLoses` | src/kernel/file_management/FAT.cpp:718-727 | after a shrink every non-free cluster still belongs to a chain if and only if the chain had no cluster beyond its data |
| `FatChains.GrowLoses` | src/kernel/file_management/FAT.cpp:759-784 | the same if and only if for a growth |
| `FatChains.ShrinkTwiceLoses` | src/kernel/file_management/FAT.cpp:709-727 | any shrink to non-empty followed by another shrink loses a cluster, on every volume that had lost none |
| `FatChains.LosingVolume` | src/kernel/file_management/FAT.cpp:709-727 | such a volume exists: two clusters, 1024 to 512 to 0 bytes |
| `FatLayout.TableWithEntry` | src/kernel/file_management/FAT.cpp:449-455 | storing one entry in its FAT sector changes that entry of the table and no other, byte by byte as FAT32 has it, and touches no data sector |
| `FatLayout.PutFields` | src/kernel/file_management/FAT.h:98-113 | storing size and first cluster of a directory entry puts their bytes at the places FAT32 gives them, reads back as stored and changes no other byte |
| `FatLayout.ScanIsFirst` | src/kernel/file_management/FAT.cpp:355-405 | the scan of a directory sector finds the first matching short-name entry before any free one, and none only if there is none |
| `FatNames.MatchesCalled` | src/kernel/file_management/FAT.cpp:875-904 | an entry written as padded base and extension answers to a name if and only if that is the lower-cased base, and for a file with an extension a dot, and the lower-cased extension |
| `FatNames.MarkedNeverMatches` | src/kernel/file_management/FAT.cpp:832-835 | an entry with one of the four low attribute bits set answers to no short name |
| `FatNames.LookupFinds` | src/kernel/file_management/FAT.cpp:355-405 | the driver finds an entry written in that form by that name, wherever in the directory chain it is, if no entry before it has the name |
| `FatLayout.LookupFramed` | src/kernel/file_management/FAT.cpp:355-405 | a directory lookup gives the same place after any change confined to one entry's size and first cluster |
| `FatLayout.OtherEntryKept` | src/kernel/file_management/FAT.cpp:669-796 | a file other than the one resized or written keeps its size, first cluster and chain |
| `FatLayout.OtherContentKept` | src/kernel/file_management/FAT.cpp:624-667 | every other file keeps its content, byte for byte |
| `FatLayout.UntouchedKept` | src/kernel/file_management/FAT.cpp:624-796 | both, for every other file on the volume at once: entry, chain and content |
| `FatLayout.ShrinkSound` | src/kernel/file_management/FAT.cpp:687-728 | a volume stays sound (all directory entries, chains and sizes agree) when a file shrinks |
| `FatLayout.GrowSound` | src/kernel/file_management/FAT.cpp:729-786 | a volume stays sound when a file grows into free clusters |
| `FatLayout.ResizeSound` | src/kernel/file_management/FAT.cpp:669-796 | both, and the case of equal sector counts, as one law of resize |
| `FatLayout.ResizeKeepsBytes` | src/kernel/file_management/FAT.cpp:669-796 | a resize keeps the bytes of the file itself as far as both sizes reach |
| `FatLayout.FilledIsContent` | src/kernel/file_management/FAT.cpp:624-667 | once every cluster of a chain has received its piece, the file's content is the buffer |
| `FatLayout.DataWriteSound` | src/kernel/file_management/FAT.cpp:624-667 | writing data clusters of one file keeps the whole volume sound |
| `FatDrive.Drive.ChangeActiveCluster` | src/kernel/file_management/FAT.cpp:233-270 | cache coherence (FAT buffer is its disk sector, table value is the masked on-disk entry, a skipped data read would return what the last read left) is kept if and only if the move is not a null one onto the active cluster while its data is stale, or the data is there all the same |
| `FatDrive.Drive.FetchData` | src/kernel/file_management/FAT.cpp:233-270 | the data sector is read only when the last read is not known to have brought it; either way the buffer is then the cluster's data, if a skipped read is asked for where the last one went |
| `FatDrive.Drive.FetchEntry` | src/kernel/file_management/FAT.cpp:233-270 | the FAT sector is read only when another is cached; either way the entry is the one on disk |
| `FatDrive.Drive.WriteFat` | src/kernel/file_management/FAT.cpp:449-455 | the disk sector becomes the FAT buffer; with the cursor on its cluster's entry the cache is coherent if and only if the table value is the masked word written and the data was held |
| `FatDrive.Drive.WriteDataSectors` | src/kernel/file_management/FAT.cpp:457-468 | the disk sector becomes the buffer; FAT buffer and table value stay coherent, and the data too if and only if it came from elsewhere (then marked stale), went to the active cluster or is that cluster's data |
| `FatDrive.Drive.SetEntry` | src/kernel/file_management/FAT.cpp:713-715 | sets the entry under the cursor on disk, in the FAT buffer and in the table value; the cache stays coherent if and only if the value has 28 bits |
| `FatCache.Step` | src/kernel/file_management/FAT.cpp:233-270 | one cursor operation (null move, move into the driver's or a caller's buffer, new entry, write from either buffer) keeps the cache coherent; a read not skipped delivers the cluster's data, and a write reaches the disk |
| `FatCache.Run` | src/kernel/file_management/FAT.cpp:233-468 | so does any run of them in which no null move goes onto a stale active cluster, and the cursor ends where they lead |
| `FatCache.ChainFits` | src/kernel/file_management/FAT.cpp:233-270 | along clusters that do not repeat every run is of that kind |
| `FatCache.FollowChain` | src/kernel/file_management/FAT.cpp:233-468 | hence one cursor used alone along an acyclic chain is coherent after every operation |
| `FatCache.StaleRead` | src/kernel/file_management/FAT.cpp:233-239 | the failing run, from any coherent cursor: write from a caller's buffer, null move onto the same cluster, and the next read is skipped with the old bytes in the buffer |
| `FatDrive.Drive.GetFreeClusters` | src/kernel/file_management/FAT.cpp:192-223 | returns the first zero words of the FAT in ascending order, all of them up to the last one returned, or fails when there are too few |
| `FatDrive.Drive.GetChildDirEntryId` | src/kernel/file_management/FAT.cpp:355-405 | finds the entry the directory chain holds for the name exactly when there is one, and leaves its sector in the buffer |
| `FatDrive.Drive.Walk` | src/kernel/file_management/FAT.cpp:703-708 | following table values from the first cluster arrives at the i-th cluster of the chain |
| `FatDrive.Drive.ShrinkChain` | src/kernel/file_management/FAT.cpp:701-727 | the on-disk table becomes the cut table of the chain specification |
| `FatDrive.Drive.GrowChain` | src/kernel/file_management/FAT.cpp:756-783 | the on-disk table links the old chain to the new clusters in order and marks the end |
| `FatDrive.Drive.ResizeSmaller` | src/kernel/file_management/FAT.cpp:687-728 | shrink of table and directory entry together |
| `FatDrive.Drive.ResizeBigger` | src/kernel/file_management/FAT.cpp:729-786 | growth of table and directory entry together; fails, with nothing written, when clusters are short |
| `FatDrive.Drive.Resize` | src/kernel/file_management/FAT.cpp:669-796 | succeeds if and only if the file exists and enough clusters are free; keeps the volume sound, changes the file's chain as specified and keeps its bytes as far as both sizes reach, and every other file keeps entry, chain and content; a failure changes nothing |
| `FatDrive.ResizeRun` | src/kernel/file_management/FAT.cpp:669-796 | any sequence of resizes keeps every chain acyclic, ended, long enough and disjoint from all others |
| `FatDrive.Drive.WriteCluster` | src/kernel/file_management/FAT.cpp:646-665 | writes one sector's worth; a short last piece keeps the rest of the sector |
| `FatDrive.Drive.WriteBufToFile` | src/kernel/file_management/FAT.cpp:624-667 | exactly when it succeeds; then the file's content is the buffer and every other file keeps entry, chain and content; a failure changes nothing |
| `FatDrive.Drive.LoadFileToBuf` | src/kernel/file_management/FAT.cpp:295-353 | succeeds if and only if the file exists and the range lies inside it, and then delivers exactly that range of its content; otherwise leaves the caller's buffer alone |
| `FatDrive.Drive.WriteThenLoad` | src/kernel/file_management/FAT.cpp:624-667 | round trip: after writing any buffer, loading any non-empty range of it returns those bytes, and every other file keeps entry, chain and content |
| `FatDrive.RangeTestWraps` | src/kernel/file_management/FAT.cpp:295-310 | the 32-bit range test lets an out-of-range load through if and only if offset plus length wraps to within the file |
| `HeapTree.FindFreeBlockComplete` | src/kernel/core/Memtree.cpp:18-35 | the pruned descent finds a block meeting size and hint if and only if one exists anywhere in the tree |
| `HeapTree.AddKeeps` | src/kernel/core/Memtree.cpp:100-115 | inserting a block clear of all others keeps order and adds exactly its bytes |
| `HeapTree.RemoveRootDrops` | src/kernel/core/Memtree.cpp:179-214 | removing a node drops that block from the in-order sequence and nothing else |
| `HeapTree.MergePredFuses` | src/kernel/core/Memtree.cpp:74-98 | merging with the predecessor in the subtree fuses two adjacent free blocks and covers the same bytes |
| `HeapTree.MergeSuccFuses` | src/kernel/core/Memtree.cpp:47-72 | the same for the successor |
| `HeapTree.OverlapTestExact` | src/kernel/core/Memtree.cpp:225-229 | the overlap test reports a shared byte except for equal ranges and strict containment of the second in the first |
| `HeapTree.AnyOverlapMembers` | src/kernel/core/Memtree.cpp:231-240 | the walk over the tree fires if and only if the test fires for some block |
| `MemBlocks.Fuse` | src/kernel/core/RawMemory.h:66-69 | two similar and contiguous blocks fused cover what both covered, and the used blocks stay the same |
| `MemBlocks.RunEndsPage` | src/kernel/core/Memtree.cpp:430-446 | a maximal contiguous run in a tree of whole pages ends on a page boundary |
| `Heap.PagesForWraps` | src/kernel/core/Memtree.cpp:102-104 | the page count fits the request if and only if size plus 4095 does not wrap; it is at least two, and above two no more than needed |
| `Heap.MemTree.Sbrk` | src/kernel/core/memory.cpp:390-440 | first fit from the cursor and the hint, or that page if the hint is mandatory; marks exactly those pages and moves the cursor to the next unused one; fails, changing nothing, exactly when memory is full or there is no such window |
| `Heap.MemTree.PhysicalAlloc` | src/kernel/core/Memtree.cpp:100-115 | the window first fit finds enters the tree as one free block clear of all others; fails exactly when there is none |
| `Heap.MemTree.Carve` | src/kernel/core/Memtree.cpp:261-288 | splitting a free block covers the same bytes and adds exactly one used block |
| `Heap.MemTree.Obtain` | src/kernel/core/Memtree.cpp:267-271 | a free block that meets size and hint if any does, otherwise the window first fit finds |
| `Heap.MemTree.Allocate` | src/kernel/core/Memtree.cpp:261-288 | keeps the tree ordered, disjoint and page-whole, adds one used block apart from all others and changes no other; the address is the hint if that is mandatory and on no lower page otherwise; new pages are taken only when no free block anywhere fits, and then the lowest window at or above hint and cursor, failing exactly when there is none |
| `Heap.MemTree.MergeFreeNode` | src/kernel/core/Memtree.cpp:123-127 | coalescing ends, keeps covered bytes and used blocks, and leaves nothing in the node's subtrees that could still be merged |
| `Heap.MemTree.CutNode` | src/kernel/core/Memtree.cpp:139-162 | takes exactly the given bytes out of the tree in each of the four cases |
| `Heap.MemTree.ReleasePages` | src/kernel/core/Memtree.cpp:134-166 | exactly the whole pages inside the node leave the tree and are marked unused, if there are at least two |
| `Heap.ReleaseStrays` | src/kernel/core/Memtree.cpp:164-165 | of the pages that leave the tree the release loop, which passes a page number for an address and steps it by bytes, names none but page 0 |
| `Heap.MemTree.FreeNode` | src/kernel/core/Memtree.cpp:129-167 | the block is no longer used; whole pages are handed back two or more at a time, and all those inside the block if there are that many |
| `Heap.MemTree.Free` | src/kernel/core/Memtree.cpp:376-410 | an address that starts no block, or a free one, is reported and changes nothing; otherwise exactly that block is freed |
| `Heap.MemTree.TakeRun` | src/kernel/core/Memtree.cpp:420-441 | removes the lowest block and everything contiguous with it |
| `Heap.MemTree.FreeAll` | src/kernel/core/Memtree.cpp:418-452 | ends, the page-multiple test never fires, and every covered page is freed exactly once |
| `Heap.MemTree.RegisterExternal` | src/kernel/core/Memtree.cpp:454-459 | on a page-aligned range clear of all blocks the overlap test does not fire and exactly that range is added |
| `Heap.MemTree.Lifetime` | src/kernel/core/Memtree.cpp:261-459 | over any run of allocations, frees and registrations each request does what it should to blocks, used blocks and pages, and every tree on the way is valid; draining the last hands back exactly the covered pages, each once |
| `PageSearch.GetContiguousPages` | src/kernel/core/RawMemory.cpp:82-121 | first fit: the lowest start at or above both bounds whose pages are all unused, failing exactly when there is none; a mandatory hint is taken or refused |
| `PageSearch.JumpSkipsNothing` | src/kernel/core/RawMemory.cpp:104-119 | jumping behind the first used page skips no free window |
| `PageEntries.UpdateCounts` | src/kernel/processes/process.cpp:413-440 | replacing one entry keeps every count at one plus the number of entries mapping the frame, and a mapped frame always has a count to lose |
| `PageEntries.JoinCounts` | src/kernel/core/RawMemory.cpp:66-75 | a frame newly given out is mapped by nobody and counted right |
| `PageEntries.ExclusiveUpdate` | src/kernel/processes/process.cpp:413-440 | when a new entry keeps frames mapped twice writable from neither side |
| `PageEntries.ShareKeeps` | src/kernel/processes/process.cpp:303-315 | sharing one page with a child keeps counts and exclusivity |
| `PageEntries.Isolation` | src/kernel/processes/process.cpp:303-356 | in the eager machine a process is unaffected by any run of the others, forks of it included |
| `PageEntries.ForkIsSnapshot` | src/kernel/processes/process.cpp:344-356 | in the eager machine a child keeps seeing its parent's pages as they were at the fork |
| `PageEntries.AllowedAlike` | src/kernel/core/memory.cpp:634-722 | which requests are possible later does not depend on the bytes in the pages |
| `Paging.InitFrameRc` | src/kernel/core/memory.cpp:100-121 | the counts at start-up: zero, but left as they were from frame 767*1024 on and set to page use from 768*1024 to 771*1024 |
| `Paging.Boot` | src/kernel/core/memory.cpp:100-121 | whatever memory held, all frame and count invariants hold at start-up |
| `Paging.Kernel.GetFreeFrame` | src/kernel/core/RawMemory.cpp:36-42 | the lowest free frame or none, never one that some process maps; below frame 767*1024 its count is zero |
| `Paging.Kernel.AllocateFrame` | src/kernel/core/RawMemory.cpp:66-75 | below frame 767*1024 the already-allocated error never fires; the frame joins with count one |
| `Paging.Kernel.UpdatePte` | src/kernel/processes/process.cpp:413-440 | keeps the whole invariant; the zero-count error never fires |
| `Paging.Kernel.HandleCow` | src/kernel/core/memory.cpp:634-662 | the process gets a private writable copy, mapped by it alone with count two, and no process sees any difference |
| `Paging.Kernel.SwitchToCopy` | src/kernel/core/memory.cpp:648-657 | the remapping and copying sequence itself |
| `Paging.Kernel.HandleLazyZero` | src/kernel/core/memory.cpp:664-694 | the page becomes zero and writable, mapped by this process alone with count two; nobody else sees a difference |
| `Paging.Kernel.PageFault` | src/kernel/core/memory.cpp:696-722 | handled exactly for copy-on-write and lazy pages; afterwards the access goes through |
| `Paging.Kernel.StoreByte` | src/kernel/core/memory.cpp:696-722 | a store, faults included: the byte is there, the page's other bytes are as they were, or zero if it was lazy, and no other page of any process changes; refused only for unmapped and read-only pages; in all as on the eager machine |
| `Paging.Kernel.LoadByte` | src/kernel/core/memory.cpp:696-722 | a load returns the byte of the page, zero for a lazy one, nothing for an unmapped one, and changes nothing that can be seen but that |
| `Paging.Kernel.LoadLater` | src/kernel/core/memory.cpp:696-722 | a load finds the same byte after any run of operations of the other processes |
| `Paging.Kernel.LastStore` | src/kernel/core/memory.cpp:696-722 | after any run that ends in a successful store, the process loads that value from there, and still does after any run of the others |
| `Paging.Kernel.AllocPage` | src/kernel/core/memory.cpp:413-427 | user sbrk of a present page, writable or not: a private frame, counted two, nobody else affected |
| `Paging.Kernel.ReservePage` | src/kernel/core/memory.cpp:428-431 | user sbrk of a lazy page: lazy afterwards, no other page changes |
| `Paging.Kernel.FreePage` | src/kernel/core/memory.cpp:442-483 | the page is unmapped and no other changes, but the frame keeps the kernel's reference, so the branch that releases it is never taken |
| `Paging.Kernel.SharePage` | src/kernel/processes/process.cpp:303-315 | one page of fork: same entry in both tables, read-only |
| `Paging.Kernel.ForkPages` | src/kernel/processes/process.cpp:344-356 | after the page loop the child sees each present page of its parent below the stacks and nothing else, and everyone else what they saw |
| `Paging.Kernel.Run` | src/kernel/core/memory.cpp:634-722 | over every run of forks, stores, loads, allocations and frees each process sees exactly what it would see if fork copied eagerly, and counts, exclusivity and the frame table stay right |
| `Processes.ReplacedShape` | src/kernel/processes/scheduler.cpp:57-64 | carrying out an exec goes through termination, yet only the front's record changes |
| `SchedulerLaws.NeverFull` | src/kernel/processes/scheduler.cpp:29-109 | no queue of 32 ever overflows |
| `SchedulerLaws.RelinquishKeeps` | src/kernel/processes/scheduler.cpp:84-109 | a terminated front becomes a zombie exactly if it has a parent that does not wait; otherwise it goes, and a waiting parent is queued once |
| `SchedulerLaws.RunTurn` | src/kernel/processes/scheduler.cpp:57-78 | a runnable front is chosen while it has quantum, which never wraps; else it goes to the back with a new one |
| `SchedulerLaws.TurnShrinks` | src/kernel/processes/scheduler.cpp:35-79 | the termination measure: each pass ends a live process, shortens the queue, carries out an exec or refills a quantum |
| `SchedulerLaws.GetNext` | src/kernel/processes/scheduler.cpp:29-82 | always ends; nothing chosen exactly when the queue is empty; the chosen process is at the front, not ended, waiting or sleeping |
| `SchedulerSteps.FreePid` | src/kernel/processes/scheduler.cpp:299-311 | the lowest clear bit of the pool |
| `SchedulerSteps.SleepersKeep` | src/kernel/processes/scheduler.cpp:389-406 | due sleepers are queued once each, and afterwards none is due |
| `SchedulerSteps.KeysKeep` | src/kernel/processes/scheduler.cpp:362-373 | a key press wakes half the waiters, rounded up, first come first served |
| `SchedulerSteps.WriteKeeps` | src/kernel/processes/scheduler.cpp:193-220 | a write resumes exactly the satisfied readers, in order |
| `SchedulerSteps.WaitChildKeeps` | src/kernel/processes/scheduler.cpp:617-631 | waiting for one child keeps at most one child waited for per parent |
| `SchedulerSteps.ReapKeeps` | src/kernel/processes/scheduler.cpp:620-628 | waiting for a zombie frees it and leaves the parent running |
| `SchedulerSteps.NextKeeps` | src/kernel/processes/scheduler.cpp:223-251 | after every trap the machine is in a sound state and idles only with nothing ready |
| `SchedulerSteps.EffectKeeps` | src/kernel/processes/scheduler.cpp:185-642 | every step keeps the queues sound up to its trap |
| `SchedulerSteps.Apply` | src/kernel/processes/scheduler.cpp:29-642 | every step, trap included, keeps the whole invariant |
| `SchedulerSteps.Run` | src/kernel/processes/scheduler.cpp:29-642 | so does every run |
| `SchedulerSteps.OnePlace` | src/kernel/processes/scheduler.cpp:84-127 | in every such state each process is in exactly one place, once: zombie, waiting for a child, ready, or in one wait list |
| `SchedulerSteps.FreshPid` | src/kernel/processes/scheduler.cpp:299-311 | a pid in use is never handed out again |
| `SchedulerSteps.SleepDuplicates` | src/kernel/processes/scheduler.cpp:634-642 | going to sleep leaves the ready queue without duplicates if and only if the sleep is at least two ticks or the queue is full by then |
| `SchedulerState.Scheduler.GetFreePid` | src/kernel/processes/scheduler.cpp:299-311 | the loop over the bits |
| `SchedulerState.Scheduler.WakeUpParent` | src/kernel/processes/scheduler.cpp:454-472 | queues the parent unless it is running and clears both wait marks |
| `SchedulerState.Scheduler.FreeTerminatedProcess` | src/kernel/processes/scheduler.cpp:536-566 | wakes a waiting parent, orphans the children, releases the pid; nothing of this for an exec |
| `SchedulerState.Scheduler.RelinquishFirstReady` | src/kernel/processes/scheduler.cpp:84-109 | the in-place form of the zombie-or-free decision |
| `SchedulerState.Scheduler.TakeTurn` | src/kernel/processes/scheduler.cpp:42-78 | one pass of the search loop in place |
| `SchedulerState.Scheduler.GetNextProcess` | src/kernel/processes/scheduler.cpp:29-82 | the loop, with the measure as its decreases clause |
| `SchedulerState.Scheduler.CheckForProcessesToWakeUp` | src/kernel/processes/scheduler.cpp:389-406 | the loop over due sleepers |
| `SchedulerState.Scheduler.Schedule` | src/kernel/processes/scheduler.cpp:223-251 | the timer trap |
| `SchedulerState.Scheduler.WakeUpKeyWaiting` | src/kernel/processes/scheduler.cpp:362-373 | the loop whose bound shrinks as it dequeues |
| `SchedulerState.Scheduler.WakeUpReadWaiting` | src/kernel/processes/scheduler.cpp:193-220 | the two loops over waiting readers |
| `SchedulerState.Scheduler.SetAsleep` | src/kernel/processes/scheduler.cpp:634-642 | the sleeper is entered with its wake-up tick, one per ten milliseconds and at least one away |
| `SchedulerState.Scheduler.Sleep` | src/kernel/core/PIT.cpp:73-84 | sleep and trap as one step, for at least two ticks: the caller is among the sleepers until its tick |
| `SchedulerState.Scheduler.GetKey` | src/kernel/core/syscalls.cpp:58-64 | key wait and trap as one step: the caller is in the key queue and not ready |
| `SchedulerState.Scheduler.DoReadWait` | src/kernel/processes/scheduler.cpp:185-191 | read wait and trap as one step: the caller is among the readers and not ready |
| `SchedulerState.Scheduler.Exit` | src/kernel/core/syscalls.cpp:25-36 | exit and trap as one step: the caller is off the queue, a zombie exactly if it has a parent that does not wait for it, otherwise gone, and a waiting parent is ready |
| `SchedulerState.Scheduler.Execve` | src/kernel/processes/scheduler.cpp:156-167 | exec and trap as one step: the caller stays ready under its pid |
| `SchedulerState.Scheduler.WaitPid` | src/kernel/processes/scheduler.cpp:589-632 | error for a stranger, immediate return for a zombie, which goes, otherwise a wait until that child has gone; each exactly then |
| `SchedulerState.Scheduler.Fork` | src/kernel/processes/process.cpp:317-410 | a fresh pid for a child of the caller, queued at the back with a full quantum |
| `SchedulerState.Scheduler.WaitAny` | src/kernel/processes/scheduler.cpp:593-615 | an error exactly without children, otherwise a wait until one of them has gone |
| `SchedulerState.Scheduler.Kill` | src/kernel/processes/process.cpp:622-646 | termination mark and trap as one step, for any process, ready or blocked |
| `SchedulerSteps.TurnSpares` | src/kernel/processes/scheduler.cpp:35-79 | a pass of the search leaves a process alone that waits for anything but a child, terminated or not |
| `SchedulerSteps.KillWaits` | src/kernel/processes/process.cpp:622-646 | the mark takes effect only when its target wakes: killed while it waits for a key, a read or its tick, a process stays marked in its wait list |
| `SchedulerState.Scheduler.StartProcess` | src/kernel/processes/scheduler.cpp:644-676 | a kernel process under a fresh pid, its own parent, queued at the back with a full quantum |
| `SchedulerState.Scheduler.RunAll` | src/kernel/processes/scheduler.cpp:29-676 | the machine changed in place goes through exactly the states of the run of steps, all of them sound |
| `Outcomes.ExitOutcome` | src/kernel/processes/scheduler.cpp:84-109 | after exit and its trap the caller is off the queue; it is a zombie if and only if it has a parent that does not wait for it, otherwise gone, its children their own parents and a live waiting parent ready |
| `Outcomes.SelfKillOutcome` | src/kernel/processes/process.cpp:622-646 | the same for a process that kills itself |
| `Outcomes.ExecTurn` | src/kernel/processes/scheduler.cpp:57-78 | the replacement takes the front's place with the lowest priority and goes to the back with one tick |
| `Outcomes.ExecOutcome` | src/kernel/processes/scheduler.cpp:156-167 | after exec and its trap the caller is ready under its pid, with its parent unless that one is gone, not ended and not waiting |
| `Outcomes.GetKeyOutcome` | src/kernel/core/syscalls.cpp:58-64 | after a key wait and its trap the caller is in the key queue and in no other |
| `Outcomes.ReadOutcome` | src/kernel/processes/scheduler.cpp:185-191 | after a read wait and its trap the caller is among the readers and nowhere else, asking for those bytes |
| `Outcomes.SleepOutcome` | src/kernel/processes/scheduler.cpp:634-642 | after a sleep of at least two ticks and its trap the caller is among the sleepers and nowhere else, due at that tick |
| `Outcomes.WakeOutcome` | src/kernel/processes/scheduler.cpp:389-406 | a tick makes a sleeper ready if and only if its tick has come |
| `Outcomes.WaitChildOutcome` | src/kernel/processes/scheduler.cpp:617-631 | a stranger changes nothing, a zombie goes at once, and for a live child the caller is in no queue as long as the child is there and ready as soon as it is gone |
| `Outcomes.WaitAnyOutcome` | src/kernel/processes/scheduler.cpp:593-615 | without children nothing changes; otherwise the caller is in no queue while all of them are there and ready as soon as one is gone |
| `Outcomes.ForkOutcome` | src/kernel/processes/process.cpp:317-410 | one process more: a child of the caller at the back of the queue with ten times its priority as quantum; nobody else changes |
| `Outcomes.StartOutcome` | src/kernel/processes/scheduler.cpp:644-676 | the same for a kernel process, its own parent |
| `Outcomes.TickOutcome` | src/kernel/processes/scheduler.cpp:223-251 | a tick takes nobody out of the queue who can run |
| `Outcomes.KeyOutcome` | src/kernel/processes/scheduler.cpp:362-373 | the first half of the key waiters, rounded up, are queued in order and wait no more; nobody else changes |
| `Outcomes.WriteOutcome` | src/kernel/processes/scheduler.cpp:193-220 | each reader of the descriptor gets as much as was written and it still wanted; those that have all, or all of them once the pipe is not to be waited for, are queued in the order they came; nobody else changes |
| `Endings.KillOutcome` | src/kernel/processes/process.cpp:622-646 | a ready process that another kills never runs again: it has ended, or is marked and queued |
| `Endings.StepDoomed` | src/kernel/processes/scheduler.cpp:29-642 | every step leaves a marked process ended or no further from its end, and every search brings it nearer |
| `Endings.KillEnds` | src/kernel/processes/scheduler.cpp:29-82 | it ends, whatever happens, before there have been more searches than those queued ahead of it had turns |
| `Endings.DelayBound` | src/kernel/processes/scheduler.cpp:29-82 | which is at most 31 times the highest priority |
| `Fairness.TurnRank` | src/kernel/processes/scheduler.cpp:35-79 | a pass never makes a waiting process wait longer, and choosing another brings it one turn nearer |
| `Fairness.NextRank` | src/kernel/processes/scheduler.cpp:29-82 | the same for a whole search, which always chooses someone while a runnable process is queued |
| `Fairness.StepRank` | src/kernel/processes/scheduler.cpp:29-642 | the same for every step of the machine |
| `Fairness.BoundedWaiting` | src/kernel/processes/scheduler.cpp:29-82 | whatever else happens, a process that stays runnable is passed over at most its rank, at most 62 times the highest priority: two rounds of the others' quanta |
| `Descriptors.ExistsIffNamed` | src/kernel/file_management/VFS.cpp:448-466 | a system entry exists if and only if some descriptor names it |
| `Descriptors.AttachCounts` | src/kernel/processes/process.h:74-82 | making a descriptor adds one to exactly its entry's count |
| `Descriptors.DetachCounts` | src/kernel/processes/process.h:83-88 | deleting one takes one off, and the entry goes exactly at zero |
| `Descriptors.MoveCounts` | src/kernel/processes/process.cpp:464-470 | moving a descriptor between processes changes no count |
| `DescriptorTables.Files.NewEntry` | src/kernel/file_management/VFS.cpp:587-601 | the lowest free system entry, or none |
| `DescriptorTables.Files.GetFreeFd` | src/kernel/processes/process.cpp:140-152 | the number under the cursor, and the cursor at the next free one |
| `DescriptorTables.Files.Attach` | src/kernel/processes/process.h:74-82 | the constructor in place |
| `DescriptorTables.Files.Detach` | src/kernel/processes/process.cpp:154-159 | release and system close together: the entry is destroyed exactly with its last descriptor |
| `DescriptorTables.Files.Open` | src/kernel/processes/process.cpp:504-521 | on success the lowest free number names a new entry alone; a failure changes no table; the tables stay right if and only if the system table is not found full, which leaves its cursor at -1 |
| `DescriptorTables.Files.Close` | src/kernel/processes/process.cpp:561-572 | fails exactly for numbers not open; otherwise frees that number only and makes no entry |
| `DescriptorTables.Files.Dup` | src/kernel/processes/process.cpp:711-723 | the lowest free number names the same entry; fails exactly for a bad number or a full table |
| `DescriptorTables.Files.Dup2` | src/kernel/processes/process.cpp:725-741 | the given number names the same entry, after closing what it named; equal numbers change nothing |
| `DescriptorTables.Files.NewPipe` | src/kernel/file_management/VFS.cpp:552-571 | two new entries, or none when fewer than two are free |
| `DescriptorTables.Files.Pipe` | src/kernel/processes/process.cpp:743-771 | the two lowest free numbers, each naming a new entry alone; fails, with nothing changed, exactly when either table lacks two places |
| `DescriptorTables.Files.NewProcess` | src/kernel/processes/process.cpp:116-128 | as many of the three terminals as the system table has room for, and a right cursor either way |
| `DescriptorTables.Files.CopyDescriptors` | src/kernel/processes/process.cpp:383-394 | fork's copy: the child has the parent's descriptors over its own, counts right; its cursor is right if and only if it has nothing of its own at the parent's lowest free number |
| `DescriptorTables.Files.Fork` | src/kernel/processes/process.cpp:317-394 | the child has its parent's descriptors, and terminals of its own at numbers its parent closed as far as there was room; its cursor is right if and only if the parent's lowest free number is 3 or more or there was no room for that terminal |
| `DescriptorTables.Files.ForkOpen` | src/kernel/processes/process.cpp:317-394 | with 0 to 2 open the child has exactly its parent's descriptors and cursor and all invariants hold |
| `DescriptorTables.ForkWithoutInput` | src/kernel/processes/process.cpp:317-394 | the failing fork: after closing 0, the child's cursor is on a number in use |
| `DescriptorTables.Files.ExecveTransfer` | src/kernel/processes/process.cpp:454-478 | every descriptor not marked close-on-exec moves; where one is marked the new process keeps what it had; an open file that only marked descriptors named is closed; counts and cursor right |
| `DescriptorTables.Files.Execve` | src/kernel/processes/scheduler.cpp:156-167 | the new process has exactly the unmarked descriptors, elsewhere at most a terminal of its own, and no mark; an open file that only marked descriptors named is closed |
| `DescriptorTables.Files.SetCloseOnExec` | src/kernel/processes/process.cpp:700-705 | F_SETFD: the mark of an open number becomes the lowest bit of the flags, nothing else changes |
| `DescriptorTables.Files.Exit` | src/kernel/processes/process.cpp:77-102 | every descriptor is closed, so entries only this process named are destroyed |
| `DescriptorTables.Files.Run` | src/kernel/processes/process.cpp:454-771 | over every run each request changes exactly the numbers it should, marks set by fcntl included, each count is the number of descriptors naming the entry, and an entry exists exactly while one does |
| `Checksum.OnesSumFolds` | src/kernel/network/Network.cpp:59-80 | adding up first and folding at the end is ones' complement addition, section 1 of RFC 1071 |
| `Checksum.SumOfBytes` | src/kernel/network/Network.cpp:59-73 | the sum is that of all bytes, those at odd places counted 256 times, an odd last one once |
| `Checksum.Fold` | src/kernel/network/Network.cpp:75-77 | the folding loop ends with the one 16-bit value congruent modulo 65535 that is zero only for a zero sum |
| `Checksum.Compute` | src/kernel/network/Network.cpp:59-80 | for every buffer, the complement of the folded 32-bit sum; up to 131074 bytes that is the complement of the ones' complement sum |
| `Checksum.SumFits` | src/kernel/network/Network.cpp:61-73 | no buffer of a length overflows the 32-bit sum if and only if the length is at most 131074 |
| `Checksum.Add` | src/kernel/network/Network.cpp:95-101 | ones' complement addition of two checksums |
| `Checksum.Composed` | src/kernel/network/TCP.cpp:69-82 | two separately complemented sums added are congruent modulo 65535 to the checksum of both parts together |
| `Checksum.PseudoReads` | src/kernel/network/TCP.cpp:10-18 | the pseudo header has addresses, protocol and length where section 3.1 of RFC 9293 puts them |
| `Checksum.CheckPasses` | src/kernel/network/IPV4.cpp:110-114 | a receiver's check yields zero if and only if the word sum is a positive multiple of 65535 |
| `Checksum.TcpChecksum` | src/kernel/network/TCP.cpp:69-82 | congruent to the checksum of pseudo header and segment, section 3.1 of RFC 9293 |
| `Checksum.WriteTcpHeader` | src/kernel/network/TCP.cpp:25-36 | a receiver reads the ports, sequence and acknowledgement numbers, header length, flags and window given, and its check over pseudo header and segment yields zero; payload untouched |
| `Checksum.WriteIpHeader` | src/kernel/network/IPV4.cpp:52-70 | a receiver reads version, length, id, flags, time to live, protocol and addresses as given, and the whole header checks to zero |
| `Checksum.PacketValid` | src/kernel/network/IPV4.cpp:95-128 | accepts exactly headers for us, of a known protocol, with offset zero and the reserved bit clear, that check to zero |
| `Checksum.WrittenIsValid` | src/kernel/network/IPV4.cpp:52-128 | a header the kernel wrote is accepted if and only if it is for us, has the reserved bit clear and names a known protocol; it is a fragment if and only if the flags are odd |
| `Checksum.FragmentTestExact` | src/kernel/network/IPV4.cpp:95-128 | the test tells fragments, as section 3.1 of RFC 791 defines them, from whole datagrams if and only if the offset is not zero or the more-fragments and reserved bits agree; what passes is a fragment if and only if the more-fragments bit is set |
| `Checksum.FragmentAccepted` | src/kernel/network/IPV4.h:12-12 | the failing case: a first fragment for us, as the kernel itself writes it with flags 1, is accepted |
| `Dns.SplitText` | src/kernel/network/DNS.cpp:38-60 | splitting a joined name at its dots gives its labels back |
| `Dns.WriteEncodedName` | src/kernel/network/DNS.cpp:38-60 | for every text, writes each label behind its length and a final zero; it fills the text length plus two bytes its caller reckons with if and only if no label has 256 bytes or more |
| `Dns.PointerReads` | src/kernel/network/DNS.cpp:82-101 | two bytes with the top two bits set point to the offset the other fourteen give |
| `Dns.ParseName` | src/kernel/network/DNS.cpp:73-131 | the recursive parser ends on strictly backward pointers and returns the specified text |
| `Dns.ParseLabels` | src/kernel/network/DNS.cpp:82-131 | its loop: labels and at most one pointer, each dot where the text needs it |
| `Dns.ParsedIff` | src/kernel/network/DNS.cpp:73-131 | the result is the expansion of section 4.1.4 of RFC 1035 if and only if no suffix behind a label reaches 256 characters |
| `Dns.SuffixCut` | src/kernel/network/DNS.cpp:96-120 | behind one label and its dot, a name pointed to is copied up to its length modulo 256 |
| `Dns.LongSuffix` | src/kernel/network/DNS.cpp:96-101 | one label in front of a pointer to a longer name is misread |
| `Dns.LongPacketMisread` | src/kernel/network/DNS.cpp:73-131 | every name of 256 characters or more, with one label pointing to it, makes a packet that is misread |
| `Dns.FiveLabels` | src/kernel/network/DNS.cpp:73-131 | such names exist: five labels of 63 bytes |
| `Dns.RoundTrip` | src/kernel/network/DNS.cpp:25-137 | for labels of 1 to 63 bytes, encoding then parsing, anywhere in a packet, gives the name back |
| `InitialStack.WriteStrings` | src/kernel/processes/ELFLoader.cpp:351-360 | the strings can be read back at the addresses that follow from their lengths |
| `InitialStack.WritePointers` | src/kernel/processes/ELFLoader.cpp:383-399 | the addresses computed again in the pointer loops are those the strings were written at |
| `InitialStack.WriteAuxv` | src/kernel/processes/ELFLoader.cpp:220-259 | the auxiliary entries in order, ended by the null entry |
| `InitialStack.WriteArgs` | src/kernel/processes/ELFLoader.cpp:339-404 | from the returned pointer: the argument count, a null in the last place not counted, every argument, every environment string, the auxiliary vector and its random bytes |
| `InitialStack.PointersRead` | src/kernel/processes/ELFLoader.cpp:382-399 | following a null-terminated pointer array yields the list |
| `InitialStack.AuxRead` | src/kernel/processes/ELFLoader.cpp:220-259 | reading entries up to the null one yields the vector |
| `InitialStack.VectorTells` | src/kernel/processes/ELFLoader.cpp:220-259 | looking a tag up in the vector gives page size, random bytes, and for a program with an interpreter its headers, entry and name; without one those tags are absent |
| `ElfHash.HashSmall` | bootloader/ELF.cpp:381-393 | the hash stays below 2^28 for every name, wrap-around included |
| `ElfHash.ShortNames` | bootloader/ELF.cpp:384-390 | while the shifted sum stays below 2^28 it is the hash |
| `ElfHash.FoldBack` | bootloader/ELF.cpp:387-389 | folding the top four bits in can be undone, so it loses only those bits |
| `ElfHash.HashStepBits` | bootloader/ELF.cpp:384-390 | one byte more, bit by bit: bits 28 to 31 of the 32-bit sum are folded into bits 4 to 7 by exclusive or, all other low bits stay |
| `ElfHash.Hash` | bootloader/ELF.cpp:381-393 | the loop computes that hash |
| `ElfHash.Lookup` | src/kernel/processes/ELF.cpp:204-217 | on a well-formed table the bucket-and-chain search ends and finds a symbol of the name if and only if there is one |
| `ElfHash.LinearScan` | src/kernel/processes/ELF.cpp:195-203 | the first symbol of the name, if any |
| `ElfHash.BothAgree` | src/kernel/processes/ELF.cpp:192-220 | both find one or neither does; with unique names the same one |

## Left out

Contracts that state less than the code does, or for fewer inputs:

- FatDrive.Drive.ReadSector: a read or write fails exactly past the end of the drive; other drive errors are not modelled.
- FatDrive.Drive.Resize: needs the new size plus 511 below 2^32 (see `FatChains.SectorCountWraps`), and for a growth either enough free clusters or no zero word in the FAT region past the last entry, since the scan for free clusters runs on there.
- FatDrive.Drive.LoadFileToBuf: needs a non-empty range with offset plus length below 2^32 (see `FatDrive.RangeTestWraps`).
- FatDrive.Drive.ResizeBigger: the same condition on the free clusters.
- FatDrive.Drive.WriteBufToFile: the same two conditions as a resize.
- FatLayout.ScanIsFirst: short names only.
- FatDrive.Drive.GetChildDirEntryId: entries that belong to long names never match; only short names are found.
- FatDrive.Drive.WriteFat: writes the one FAT copy the driver writes; volumes have one sector per cluster, as resize assumes.
- Heap.MemTree.ReleasePages: the pages handed back are those from the aligned start to the aligned end, as the code around the release call intends; what that call names is in `Heap.ReleaseStrays`.
- Heap.MemTree.FreeNode: the same pages.
- Heap.MemTree.FreeAll: after removing the lowest block the code still reads its end from the deleted node; the model keeps that value.
- Heap.MemTree.Allocate: needs a size that is not 0 and that rounds up to pages without wrapping (see `Heap.PagesForWraps`); addresses are unbounded, so a block ending at 2^32 does not wrap to 0; a mandatory hint is a non-null page address; the part split off gets the page information of the request, as in the code.
- Heap.MemTree.RegisterExternal: registered ranges are page-aligned, mapped and clear of all blocks.
- PageSearch.GetContiguousPages: the code looks at the entry at the end of the window before comparing with the end, one entry too far when the window is free; the model compares first.
- Paging.Kernel.HandleCow: the page used to map the old frame meanwhile is any unused page of the process, not the one the search would return; the kernel's own page for a frame is any page.
- Paging.Kernel.ForkPages: covers the pages below the stacks, which fork shares; a child's lazy pages are not inherited, as in the code.
- Paging.Kernel.Run: needs as many free frames below frame 767*1024 as operations, a fresh child for each fork and one unused page in a process that stores.
- SchedulerSteps.Enabled: sleeps of at least two ticks (see `SchedulerSteps.SleepDuplicates`); fork and start with a free pid, since fork compares with -1, which the pid search never returns; a wait for any child only without a zombie child, which the code leaves in the parent's list.
- SchedulerSteps.Effect: a process's children are those whose parent it is, not a separate list; exit of a process with children whose parent does not wait, which stops the kernel, goes on as a zombie here.
- SchedulerSteps.InsertSleeper: sleepers with equal wake-up ticks wake in the order they went to sleep; the heap may order them otherwise.
- SchedulerSteps.Ticked: the tick counter does not wrap at 2^32.
- SchedulerState.Scheduler.SetAsleep: milliseconds become ticks by integer division, not single-precision arithmetic.
- SchedulerState.Scheduler.Sleep: at least two ticks.
- SchedulerState.Scheduler.WaitAny: without a zombie child.
- SchedulerState.Scheduler.Fork: with a free pid, and the scheduler's part only; pages and descriptors are in `Paging.Kernel.ForkPages` and `DescriptorTables.Files.Fork`.
- DescriptorTables.Files.Run: takes no open on a full system table and no fork of a process with one of 0 to 2 closed; see `DescriptorTables.Files.Open` and `DescriptorTables.Files.Fork`.
- DescriptorTables.Files.SetCloseOnExec: of fcntl only F_SETFD; FD_CLOEXEC is the lowest bit, as in the C library's header.
- DescriptorTables.Files.Dup2: needs a new number from 0 to 19, which the code does not check.
- Checksum.WriteTcpHeader: the checksum field starts out zero, as the zeroed packet buffer ensures.
- Checksum.WriteIpHeader: the header starts out zero, for the same reason; fields are set by or-ing into it.
- Dns.ParseName: needs labels of 1 to 191 bytes without zero bytes, strictly backward pointers and no root name, for which the code writes in front of its buffer; the growing result buffer is a sequence; after a pointer the code still reads one byte behind it, the model does not.
- InitialStack.WriteArgs: strings and pointers fit the stack region; the stack is the sequence of bytes written so far.
- ElfHash.Lookup: takes the bucket lists of a well-formed table as a ghost argument.

Parts of the kernel that are not modelled:

- `MemTree::realloc`: its in-place growth merges blocks whose used flags are equal, so a used block can swallow a used neighbour.
- mprotect, eager stack copying in fork, higher-half lazy faults and page entries written directly by the ELF mapper: outside the counting discipline.
- `touch` and `mkdir`, which append a directory entry, `ls`, which prints a directory, and long names in FAT.
- Pruning the initial kernel process from the ready queue, processes started with a foreign parent, signals other than termination.
- `stat`, `lseek`, file offsets and pipe contents: the tables do not depend on them.
- Device drivers, interrupts, segmentation, assembly and cache flushes: hardware input and output.
- The shell, C library glue, HTTP, DHCP, ARP and debugging support.
