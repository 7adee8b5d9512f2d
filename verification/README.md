# Super OS in Dafny

A model of the five stateful components of Super OS, an x86_64 kernel with its own libc, and proofs
of what they keep. Code that changes fields, arrays or loops over them is written as classes and
methods; each method is proved against a specification on values, and the theorems are lemmas about
that specification and about whole runs.

| files | component | main results |
|---|---|---|
| `Random` | the Mersenne Twister | drawing in place refines the infinite recurrence, for every seed and every number of draws |
| `MallocMemory`, `MallocLayout`, `Malloc` | malloc, free, realloc over boundary tags in one byte region | refinement of a map from live addresses to contents; the heap's layout depends on the live blocks only, not on the order of the calls; the break is tight |
| `Ext2Alloc`, `Ext2FS` | block and inode bitmaps | the counters count the clear bits; a number taken was free and is the first from the wanted group on; out of space only when everything is full |
| `Ext2Tree`, `Ext2Layout`, `Ext2Write`, `Ext2Resize`, `Ext2Inode`, `Ext2File` | an inode's direct and indirect blocks | reading and any run of writes and cuts refine one flat byte sequence, through all levels, and leave other files alone; where each byte is on the disk, by division alone; the nodes are always exactly a prefix of the preorder numbering; shrinking frees exactly the nodes the new size does not need |
| `Bitset`, `PhysMemory`, `PageTree`, `Paging` | frames, table walks and mappings | the tables stay a tree with one parent each; mapping is the update of one translation; the temporary slots are free again on return |
| `KernelHeap` | the break of a process | the mapped pages are those below the break, a frame to each, and frames are conserved |
| `UserSpace`, `UserMemory` | user address spaces | deep copy shares nothing and maps the same; mapping a page adds exactly its frame and the tables made; teardown gives back exactly the frames the space owns |
| `ProcessState`, `ProcessInvariant`, `ProcessSteps`, `ProcessRuns`, `ProcessIds`, `ProcessFairness`, `ProcessAnswers`, `ProcessWakeups`, `ProcessStranding`, `Scheduler` | threads, processes, groups, waiting | one invariant (ids, ownership, groups, the family tree, zombies, the queue, the handshake) in every reachable state; no id is lost; run() ends, finds the first thread that can run, and idles only if none can; no thread that can run starves; a wait is answered with a child's pid and the code that child ended with; when a wake-up can be lost, by which run, and that it cannot otherwise |

`Arith`, `Bytes` and `Options` hold integer division and multiplication facts, little-endian words, and `Option`.

## How the models are built

**Words and widths.** Mersenne Twister words are `bv32`. A malloc header is a 61-bit size and three
flags, packed in eight bytes of the region. Sizes of files are below 2^32; `alignup` on the 32-bit
size is taken modulo 2^32, as in the source. A page-table entry is a record of its present bit,
frame and flags, and a frame is a sequence of 512 of them, so table pages and data pages are the
same memory.

**Ghost numbering of an inode.** `ids` lists the block of each node of an inode's tree in preorder,
as the source counts them: block pointer 0 to 11, then the single, double and triple indirect trees,
each index node before its children. The invariant `Whole` ties the fifteen pointers and every
pointer inside an index block to it, for the nodes that exist. `DiskByte` is the same file without any
of this: the byte that dividing its address leads to, through the numbers in the index blocks. `FileNodes(K, s)` is how many nodes a file of s
bytes has, with K pointers to a block.

**Trees of tables.** `Owned(ram, f, d)` is the set of frames below table f at depth d, and `Forest`
says that no frame in it has two parents. Both are about the memory itself, not a copy of it.

**Steps and runs.** The process system is a state and twelve events. Every entry point of the
class `Scheduler` does its work statement by statement and ensures that it took the system from its
old state to a new one by one event; a run is any sequence of events from the booted system on.

## Where the code and its documentation differ

- `i_resize` rounds the old size up in 32 bits. If the old size is above 2^32 minus the block size, the
  rounded size is 0 and nothing is freed, though the size is changed. The cut is right if and only if
  the old size is not above that, or the new size is above it too, so that it ends in the same block
  (`Ext2Inode.Inode.Resize`, `Ext2Inode.UncutIsShrunk`). A file of 2^32 - 1 bytes that is cut to
  nothing keeps all its nodes (`Ext2File.RoundingFails`).
- The manual of the waiting protocol (src/Processes/Waiting.h:40-52) says a thread that does not wait
  has no checker. `accept()` leaves the checker in place; the model's `checker` keeps its last value
  and only `waiting` tells whether it is meant.
- `exec` puts the process's id in the queue a second time (src/User/Syscalls.cpp:421-423), so the
  queue may hold an id twice. The invariant says that every live thread is running or queued, and
  not that the queue is without duplicates.
- No wake-up is lost, with one exception, and the exception is exact: reaping a zombie whose sons
  include a zombie hands that son to init without signalling init. Where a thread of init is parked waiting for
  any child without a signal pending, and would not have been accepted before, it stays parked
  (`ProcessWakeups.ReapAwake`). Such a run from the booted system on has fifteen events
  (`ProcessStranding.WakeupCanBeLost`).

## Model

| member | source | states |
|---|---|---|
| `MersenneTwister.TemperIsInvertible` | src/Random.cpp:17-29 | tempering loses nothing: the word behind each number drawn can be computed back |
| `MersenneTwister.TemperOfBits` | src/Random.h:18-27 | what the shifts and masks of tempering make of each of the 32 single bits |
| `MersenneTwister.TwistOf` | src/Random.cpp:33-35 | the sum of the two masked halves is their union, and the conditional xor is the mix of the recurrence |
| `MersenneTwister.Random.Seed` | src/Random.cpp:9-15 | the array holds words 0 to 623 of the sequence of that seed, and nothing was drawn |
| `MersenneTwister.Random.Rand` | src/Random.cpp:17-29 | the k-th number after a seed is the tempering of word 624 + k of the infinite sequence |
| `MersenneTwister.Random.Twist` | src/Random.cpp:31-39 | rewriting the array in place, reading entries that are new already, leaves the next 624 words |
| `MallocMemory.UnpackPack` | libc/src/malloc.h:8-24 | size and flags survive being packed in a 64-bit word |
| `MallocMemory.HeaderBytes` | libc/src/malloc.h:8-24 | the size begins in the lowest byte; the three highest bits are, from above: this block is free, the block before is free, and the parity of the two |
| `MallocMemory.LoadStored` | libc/src/malloc.h:8-24 | a header stored in the region is read back, and no byte outside its eight changes |
| `MallocMemory.LoadElsewhere` | libc/src/malloc.h:8-24 | a header outside the bytes that changed reads the same |
| `MallocLayout.LiveIffHeld` | libc/src/malloc.cpp:66-95 | a region is live if and only if a block in use holds it, and has that block's size |
| `MallocLayout.LiveRegionsAreDisjoint` | libc/src/malloc.cpp:102-159 | live regions do not overlap, and there is a header between any two |
| `MallocLayout.LayoutIsCanonical` | libc/src/malloc.cpp:102-213 | two well-formed heaps with the same live regions are the same, block by block |
| `MallocLayout.AllocatedAddsARegion` | libc/src/malloc.cpp:102-159 | malloc adds one live region that was not live: of n or n + 1 words in the lowest free block of n words or more, and then the heap ends where it did; without such a block, of n words behind the end, which moves by n + 1 |
| `MallocLayout.ReleasedDropsTheRegion` | libc/src/malloc.cpp:161-213 | marking, merging both ways and releasing drop one live region and leave no two free neighbours and no free last block |
| `MallocLayout.EndIsTight` | libc/src/malloc.cpp:201-211 | the heap ends where its highest live region ends, and is empty if there is none |
| `MallocLayout.EveryRunIsWellFormed` | libc/src/malloc.cpp:102-213 | after every sequence of calls the blocks tile the region and are coalesced, and freeing everything leaves no block |
| `MallocLayout.RunsForgetTheirOrder` | libc/src/malloc.cpp:102-213 | two sequences of calls with the same live regions at the end have the same heap at the end |
| `Malloc.Heap.constructor` | libc/src/malloc.cpp:58-64 | an empty heap of one end header |
| `Malloc.Heap.BreakIsTight` | libc/src/malloc.cpp:201-211 | the break is 8 bytes past the end of the highest live region; with none live it is where it was after the start |
| `Malloc.Heap.Append` | libc/src/malloc.cpp:109-127 | a new block at the end, with a new end header behind it |
| `Malloc.Heap.TakeWhole` | libc/src/malloc.cpp:129-156 | a free block that is too small to split becomes used, and its follower knows |
| `Malloc.Heap.Split` | libc/src/malloc.cpp:133-152 | a larger one is cut into a used and a free block, tagged at its end, and stays represented in memory |
| `Malloc.Heap.Take` | libc/src/malloc.cpp:129-156 | the free block is cut in two if two words or more are left, and becomes used as it is otherwise |
| `Malloc.Heap.Place` | libc/src/malloc.cpp:105-158 | the walk along the headers takes the first block that fits, or appends one at the end; nothing else in memory changes |
| `Malloc.InBytes` | libc/src/malloc.cpp:102-159 | the lowest free block with the bytes is the one taken and the end stays; without one the end moves; the region has the bytes and less than 16 more |
| `Malloc.Heap.Malloc` | libc/src/malloc.cpp:102-159 | if a free block has the bytes, the lowest such block answers and the break stays; if none has, the answer is at the old break, which moves by the bytes rounded up to 8 and 8 more. The region was not live, is 8-aligned, has the bytes asked for and less than 16 more, and every live region keeps its contents |
| `Malloc.Heap.MarkFree` | libc/src/malloc.cpp:164-171 | the block is free and its follower knows; nothing else changes |
| `Malloc.Heap.MergeNext` | libc/src/malloc.cpp:173-180 | a free follower becomes part of the block |
| `Malloc.Heap.MergePrevious` | libc/src/malloc.cpp:182-199 | the tag before the block leads to its free predecessor, which takes it in; else it gets its own tag |
| `Malloc.Heap.Release` | libc/src/malloc.cpp:201-211 | a free last block goes back to sbrk, and its header is the end header |
| `Malloc.Heap.FreeBlock` | libc/src/malloc.cpp:163-213 | the four steps together release the block, and touch no byte outside it and its free neighbours |
| `Malloc.Heap.Free` | libc/src/malloc.cpp:161-215 | exactly one live region goes, all others keep their contents, the break does not grow; a null pointer changes nothing |
| `Malloc.Heap.Write` | libc/src/malloc.cpp:228 | bytes copied into a live region change nothing of the heap and no other region |
| `Malloc.Heap.Realloc` | libc/src/malloc.cpp:217-233 | the new region is not one that was live, has the size asked for and less than 16 bytes more, keeps the common prefix, the old one is gone, all others keep their contents; size 0 frees |
| `Malloc.Heap.MoveAndFree` | libc/src/malloc.cpp:225-231 | the smaller of both sizes is copied, then the old region freed |
| `Ext2Alloc.TakeKeepsAccounts` | src/HDD/Ext2.cpp:108-116 | taking a free number keeps every group's counter the number of its clear bits and the total their sum, and takes just that number |
| `Ext2Alloc.GiveKeepsAccounts` | src/HDD/Ext2.cpp:129-140 | so does giving one back that is in use |
| `Ext2Alloc.GiveUndoesTake` | src/HDD/Ext2.cpp:97-145 | giving back what was just taken restores bitmaps and counters |
| `Ext2Alloc.TotalIsTheFreeCount` | src/HDD/Ext2.cpp:111-112 | the superblock's counter is how many numbers are free |
| `Ext2FS.FS.constructor` | src/HDD/Ext2.cpp:39-45 | a partition whose superblock and books are right is mounted with every counter the number of its clear bits |
| `Ext2FS.ScanBitmap` | src/HDD/Ext2.cpp:105-107 | byte by byte and then by the lowest clear bit, the scan finds the first clear bit of a bitmap |
| `Ext2FS.EveryGroupIsMet` | src/HDD/Ext2.cpp:101-102 | starting at any group, the walk modulo the number of groups meets each one |
| `Ext2FS.FS.GetNewBlock` | src/HDD/Ext2.cpp:97-122 | the block was free, the first clear bit of its group, and all groups from the inode's on up to it, around the last, are full; that bit, its group's counter and the total change by one and nothing else does; out of space only if all bits of all groups are set |
| `Ext2FS.FS.FreeBlock` | src/HDD/Ext2.cpp:124-145 | that block's bit is cleared, its group's counter and the total are one more, and nothing else of the books changes |
| `Ext2FS.FS.GetNewInode` | src/HDD/Ext2.cpp:147-172 | the first clear bit of the first group that is not full; that bit and the counters change by one, the directories of its group too if it is for one; none only if every group is full |
| `Ext2FS.FS.FreeInode` | src/HDD/Ext2.cpp:174-198 | that inode's bit is cleared, the free counters are one more, the directory counter of its group one less if it was a directory, and nothing else changes |
| `Ext2Tree.SpanIsTheSum` | src/HDD/Ext2.cpp:307-313 | the size and block tables are right: an index node spans what its children span, and counts itself and their nodes |
| `Ext2Tree.ChildByDivision` | src/HDD/Ext2.cpp:290-291 | dividing an address by the child size finds the child that holds it, and its preorder number |
| `Ext2Tree.SectionOfChildren` | src/HDD/Ext2.cpp:274-298 | the bytes below an index node are those below its children in a row |
| `Ext2Tree.GroupWhereIsLastNeeded` | src/HDD/Ext2.cpp:340-406 | the preorder number of the data block of byte x is the last one a file of x + 1 bytes needs |
| `Ext2Layout.DiskByteIs` | src/HDD/Ext2.cpp:247-298 | byte o of block k is behind root k for k < 12, and with K pointers to a block: behind number k of root 12 for block 12 + k, numbers j and k below root 13 for block 12 + K + jK + k, and numbers i, j and k below root 14 for block 12 + K + K^2 + iK^2 + jK + k |
| `Ext2Layout.PointerOnDisk` | src/HDD/Ext2.cpp:287-297 | a pointer in an index block is four bytes, the lowest first |
| `Ext2Layout.PlaceInFile` | src/HDD/Ext2.cpp:340-406 | the preorder number of the data block of byte x, in closed form in x / block size for each of the four cases |
| `Ext2Layout.BlockOnDisk` | src/HDD/Ext2.cpp:321-323 | the node with that preorder number is the block that the numbers on the disk lead to |
| `Ext2Layout.ByteOnDisk` | src/HDD/Ext2.cpp:247-298 | and its byte is the one that the numbers on the disk lead to |
| `Ext2Inode.GetNewFile` | src/HDD/Ext2.cpp:53-63 | an inode of zeros, with a number that was free, is a whole file of no bytes and no nodes; none only if every group is full |
| `Ext2Inode.Inode.ReadAddr` | src/HDD/Ext2.cpp:247-272 | reading delivers that section of the file: byte i is the one that the fifteen roots and the numbers in the index blocks lead to for address addr + i, by division alone |
| `Ext2Inode.Inode.ReadRec` | src/HDD/Ext2.cpp:274-298 | a visit delivers the part of the section below this node, and leaves address and size for the next |
| `Ext2Inode.Inode.ReadIndex` | src/HDD/Ext2.cpp:287-297 | the same for an index node, from the child found by division |
| `Ext2Inode.Inode.WriteAddr` | src/HDD/Ext2.cpp:300-338 | the bytes written are where the roots and index blocks on the disk then lead, all other bytes the file had are where they then lead; the nodes are those the longer of both sizes needs, each added block was free and only those are taken |
| `Ext2Inode.FileOnDisk` | src/HDD/Ext2.cpp:247-298 | every byte of a whole file is the one the disk's numbers lead to |
| `Ext2Inode.WrittenOnDisk` | src/HDD/Ext2.cpp:300-406 | a write puts its data where the numbers on the disk lead, and leaves the rest of the file where they led |
| `Ext2Inode.CutOnDisk` | src/HDD/Ext2.cpp:408-485 | a cut leaves every byte below it where the numbers lead |
| `Ext2Inode.Inode.WriteRec` | src/HDD/Ext2.cpp:340-406 | a visit's blockNum is its preorder number, the nodes are those below the block count, and a skipped subtree is full |
| `Ext2Inode.Inode.WriteLeaf` | src/HDD/Ext2.cpp:351-370 | a data block is added if its number is the count, and overwritten where the range meets it |
| `Ext2Inode.Inode.NodeAt` | src/HDD/Ext2.cpp:374-382 | a new node has number equal to the count, so the first assertion holds; an old node keeps its block |
| `Ext2Inode.Inode.WriteIndex` | src/HDD/Ext2.cpp:371-405 | the index block holds its children's pointers after the visit, written back exactly if one of them changed |
| `Ext2Inode.Inode.WriteChildren` | src/HDD/Ext2.cpp:393-400 | the children from starti on are visited in order; a new index node always gets a child, so the second assertion holds |
| `Ext2Inode.CapacityIsLarge` | src/HDD/Ext2.cpp:309-313 | with blocks of 1K and up the four levels hold every file below 2^32 bytes |
| `Ext2Inode.Inode.Resize` | src/HDD/Ext2.cpp:408-439 | growing allocates nothing; shrinking leaves the bytes and nodes of the new size if and only if the rounded old size does not wrap or both sizes end in the last block under 4 GiB; then it frees exactly the nodes not needed, and if it wraps, nothing; every byte below the new size is what the numbers on the disk led to before |
| `Ext2Inode.Inode.ShrinkTo` | src/HDD/Ext2.cpp:410-435 | the same for the shrinking branch: exactly the blocks of the nodes past the new count are freed, and the count is that of the new size, under the same condition |
| `Ext2Inode.UncutIsShrunk` | src/HDD/Ext2.cpp:413 | for an old size in the last block under 4 GiB, freeing nothing is right if and only if the new size is in that block |
| `Ext2Inode.LastBlockNodes` | src/HDD/Ext2.cpp:413 | sizes in the last block under 4 GiB need the same nodes, smaller ones fewer |
| `Ext2Inode.Inode.ResizeRec` | src/HDD/Ext2.cpp:441-485 | a visit frees exactly the nodes of its subtree between both sizes, and tells whether it is gone itself |
| `Ext2Inode.Inode.ResizeLeaf` | src/HDD/Ext2.cpp:449-458 | a data block goes if no byte of it is kept |
| `Ext2Inode.Inode.ResizeIndex` | src/HDD/Ext2.cpp:459-484 | an index block goes if all of its children go, and keeps the pointers of those that stay |
| `Ext2Inode.Inode.ResizeChildren` | src/HDD/Ext2.cpp:467-475 | the children from starti on lose their nodes in order, each freed once |
| `Ext2Resize.GroupCutRoundsUp` | src/HDD/Ext2.cpp:413 | rounding a size up to whole blocks does not change the nodes it needs |
| `Ext2Resize.GroupCutGrows` | src/HDD/Ext2.cpp:441-485 | the byte behind a whole number of blocks needs one node more at least |
| `Ext2Resize.AlignUpIs` | src/HDD/Ext2.cpp:413 | the 32-bit rounding is 0 past 2^32 minus a block, and the next multiple of the block size below that |
| `Ext2File.SectionIsBytes` | src/HDD/Ext2.cpp:247-298 | reading delivers the file's bytes one for one |
| `Ext2File.HasByteIff` | src/HDD/Ext2.cpp:340-406 | a byte has a block if and only if the nodes of a file ending with it exist |
| `Ext2File.NodesOfSize` | src/HDD/Ext2.cpp:307-313 | how many blocks a file of x + 1 bytes needs, and how many bytes there can be, in closed form: with b = x / block size, b + 1 for b < 12, b + 2 in the single indirect tree (14 for one byte more than twelve blocks), b + 4 and b + 6 + K and the index blocks begun so far in the others |
| `Ext2File.ReadAfterWrite` | src/HDD/Ext2.cpp:247-406 | a read after a write sees the data inside the range and the old bytes outside it |
| `Ext2File.WrittenCanBeRead` | src/HDD/Ext2.cpp:247-406 | what was written is read back in full |
| `Ext2File.OtherFilesStand` | src/HDD/Ext2.cpp:340-406 | another file that shares no block stays whole, roots and index blocks, and reads the same, whatever this one's writing or shrinking did |
| `Ext2File.AddedWereFree` | src/HDD/Ext2.cpp:354-377 | the blocks a write adds are in no file that was there, so files stay disjoint |
| `Ext2File.RunRefinesBytes` | src/HDD/Ext2.cpp:300-485 | after any run of writes and cuts, each byte is what one flat byte sequence says: the last write over it since it was last cut off, else the old byte |
| `Ext2File.RunKeepsNodeCount` | src/HDD/Ext2.cpp:300-485 | and the file always has exactly the nodes of its size, which is what the next cut needs |
| `Ext2File.ChangeRefines` | src/HDD/Ext2.cpp:300-485 | one write or cut does to each byte what it does to the flat sequence |
| `Ext2File.NodesMonotone` | src/HDD/Ext2.cpp:307-313 | a longer file needs at least the nodes of a shorter one |
| `Ext2File.WriteKeepsNodeCount` | src/HDD/Ext2.cpp:300-338 | a file with exactly the nodes of its size has them after a write too |
| `Ext2File.LastNodeIsData` | src/HDD/Ext2.cpp:340-406 | the last node in preorder is the data block of the last byte |
| `Ext2File.IndexNodesHaveChildren` | src/HDD/Ext2.cpp:400 | no index node is left without a child: for every index node of the trees that a file has, it has the next node in preorder too |
| `Ext2File.IndexHasChild` | src/HDD/Ext2.cpp:400 | the same in any subtree, for any length |
| `Ext2File.ShrinkThenWrite` | src/HDD/Ext2.cpp:300-439 | cutting a file and writing at the cut gives the old bytes, then the new |
| `Ext2File.RoundingFails` | src/HDD/Ext2.cpp:413 | a file of 2^32 - 1 bytes cut to nothing: the rounded size is 0, so the walk leaves it as it is, with nodes an empty file has not |
| `Ext2File.RoundsToZero` | src/HDD/Ext2.cpp:413 | the sizes whose rounding is 0 are exactly those above 2^32 minus a block |
| `Bitset.Put` | src/Bitset.h:57-87 | one bit changes and no other |
| `Bitset.Bsf` | src/Bitset.h:158-168 | the lowest bit that is 1 among the full words, or none |
| `PhysMemory.PhysMem.TryAlloc` | src/Memory/PhysicalMemoryAllocator.cpp:45-52 | the lowest free frame is taken and no other; none only if none is free |
| `PhysMemory.PhysMem.FreeFrame` | src/Memory/PhysicalMemoryAllocator.cpp:54-64 | a frame that is not free becomes free |
| `PageTree.Unchanged` | src/Memory/Paging.cpp:231-276 | memory that changes outside a tree leaves the tree, and what it owns |
| `PageTree.Plant` | src/Memory/Paging.cpp:242-249 | hanging an empty frame into an absent entry keeps the tree, which owns one frame more |
| `PageTree.PlantSlots` | src/Memory/Paging.cpp:242-249 | and changes no translation |
| `PageTree.RangePlant` | src/Memory/Paging.cpp:242-312 | the same for some of the slots of a table, which then own that frame more and no other |
| `PageTree.WriteLeaf` | src/Memory/Paging.cpp:308-312 | writing a leaf entry keeps the tree of tables |
| `PageTree.WriteLeafSlot` | src/Memory/Paging.cpp:308-312 | and changes the translation of that page only |
| `PageTree.SameTranslates` | src/Memory/UserMemory.cpp:87-130 | trees that are copies translate alike: same flags, and frames with the same contents |
| `Paging.PathTells` | src/Memory/Paging.cpp:212-283 | two pages with the same four indices are one |
| `Paging.Attach` | src/Memory/Paging.cpp:242-274 | a table from the free frames, emptied and hung in, grows the tree by itself alone |
| `Paging.StoreMaps` | src/Memory/Paging.cpp:308-312 | storing the entry in the page table found for a page updates its translation alone |
| `Paging.Paging.ActTmpPDP` | src/Memory/Paging.cpp:172-177 | the slot, which must be free, shows that table |
| `Paging.Paging.GetPDphy` | src/Memory/Paging.cpp:231-250 | the walk's page directory; a missing one is taken from the free frames, and no translation changes |
| `Paging.Paging.GetPTphy` | src/Memory/Paging.cpp:258-276 | the same for the page table; the free frames drop by exactly the tables that were missing |
| `Paging.Paging.Getphyu` | src/Memory/Paging.cpp:278-283 | the frame a mapped page is translated to |
| `Paging.Paging.CreateMapping` | src/Memory/Paging.cpp:290-315 | the page's entry is present, has that frame, the write-through flag asked for, the global flag if the page is one of the kernel's (or it was set), and its other flags as before; in a new table it lets everything pass; no other translation changes, tables come from the free frames, and the three slots are free again |
| `Paging.MappedAs` | src/Memory/Paging.cpp:308-312 | what is stored in the entry, field by field |
| `Paging.LevelsTold` | src/Memory/Paging.cpp:231-312 | at each level of the walk a table that was there keeps its entry, and from the first one that was missing on, all entries are writable and for the user |
| `Paging.TranslatedByIndices` | src/Memory/Paging.cpp:212-283 | a page is translated by the entry that the four nine-bit parts of its number lead to |
| `Paging.Paging.Unmap` | src/Memory/Paging.cpp:328-332 | the page's present bit is cleared and nothing else |
| `Paging.Paging.FreeMapping` | src/Memory/Paging.cpp:325-334 | exactly the n pages are unmapped, and no frame is taken or given back |
| `Paging.Paging.FreeMappingAndPhy` | src/Memory/Paging.cpp:383-388 | their frames are freed, once each, and they are unmapped |
| `Paging.Paging.SwitchUser` | src/Memory/Paging.cpp:403-412 | the lower half is translated by that space, the upper as before |
| `KernelHeap.AbsentOne` | src/Memory/Paging.cpp:231-276 | how many tables the mapping of one page needs |
| `KernelHeap.AbsentStep` | src/Memory/Heap.cpp:21-24 | the tables a run of pages needs, less those its first page took, suffice for the rest |
| `KernelHeap.Heap.Accounts` | src/Memory/Heap.cpp:13-34 | a page of the heap's range is mapped if and only if it is below the break, each to a frame of its own; their number and the tables and the free frames add up |
| `KernelHeap.Heap.Init` | src/Memory/Heap.cpp:6-11 | an empty heap at the first page boundary |
| `KernelHeap.Heap.AddPage` | src/Memory/Heap.cpp:22-23 | one page more, with a frame of its own, not write-through, global if it is one of the kernel's, and writable and for the user if its table is new |
| `KernelHeap.Heap.Grow` | src/Memory/Heap.cpp:19-25 | the pages asked for are mapped, and frames only move |
| `KernelHeap.Heap.Shrink` | src/Memory/Heap.cpp:28-30 | the last pages go with their frames |
| `KernelHeap.Heap.Brk` | src/Memory/Heap.cpp:13-34 | the break covers the distance asked for with at most one page to spare, does not move if it did and has less than a page to spare if it moves, and no frame is lost |
| `UserSpace.SpaceUnchanged` | src/Memory/UserMemory.cpp:6-18 | memory that changes outside a space leaves the space |
| `UserSpace.ClearedSpace` | src/Memory/UserMemory.cpp:52-75 | a cleared space owns nothing but its first tables, keeps the identity table, and maps no page from 2M up |
| `UserSpace.PlantInSpace` | src/Memory/Paging.cpp:242-312 | a frame put in an absent slot of a space, not through the identity table, adds just that frame to its contents |
| `UserSpace.CopyMapsAlike` | src/Memory/UserMemory.cpp:132-157 | a copy maps the same pages from 2M up, with equal flags and contents |
| `UserSpace.CopyReadsAlike` | src/Memory/UserMemory.cpp:87-157 | at each of the three levels, by the indices of the page, the same entries are present with the same flags, and at the end the pages hold the same |
| `UserSpace.UserMappingByIndices` | src/Memory/Paging.cpp:212-283 | a page of a space is mapped by the entry that its three indices lead to |
| `UserSpace.MappedIsOwned` | src/Memory/UserMemory.cpp:24-66 | the frame of a mapped page from 2M up belongs to the space, and so do the tables on its way |
| `UserSpace.BothCopied` | src/Memory/UserMemory.cpp:132-157 | copying the first directory and then the others copies the space |
| `UserMemory.UserMemory.constructor` | src/Memory/UserMemory.cpp:6-18 | a space of two new frames with the shared identity table and nothing else |
| `UserMemory.UserMemory.AddPage` | src/Memory/Heap.cpp:22-23 | taking a frame and mapping a page from 2M up of the active space to it keeps the space whole and apart; its contents grow by exactly that frame and the tables made, that page is mapped to it, neither write-through nor newly global, and writable and for the user if its table is new; no other mapping changes, and other spaces stand |
| `UserMemory.MappedInSpace` | src/Memory/Paging.cpp:290-315 | what createMapping() does to the tables, seen from the space they belong to |
| `UserMemory.UserMemory.FreePages` | src/Memory/UserMemory.cpp:24-33 | the frames of a page table are freed, once each |
| `UserMemory.UserMemory.FreePTs` | src/Memory/UserMemory.cpp:35-50 | the tables and frames below a directory are freed; of the first directory, slot 0 is spared and the rest cleared |
| `UserMemory.UserMemory.FreeOtherPDs` | src/Memory/UserMemory.cpp:55-64 | the directories from slot 1 on go with all they own |
| `UserMemory.UserMemory.FreePDs` | src/Memory/UserMemory.cpp:52-66 | the free frames grow by exactly what the space owns, and the space is cleared |
| `UserMemory.UserMemory.Deactivate` | src/Memory/UserMemory.cpp:70-73 | the space is not the active one, and no space or kernel mapping changes |
| `UserMemory.UserMemory.Clear` | src/Memory/UserMemory.cpp:67-75 | the same with deactivation; other spaces and the kernel stand |
| `UserMemory.UserMemory.Destroy` | src/Memory/UserMemory.cpp:77-85 | every frame of the space is free, none twice, and other spaces stand |
| `UserMemory.UserMemory.CopyPages` | src/Memory/UserMemory.cpp:87-109 | a new frame for each present page, with its contents and flags; absent ones are reset |
| `UserMemory.UserMemory.CopyPTs` | src/Memory/UserMemory.cpp:111-130 | the same a level up; of the first directory, slot 0 stays as it is |
| `UserMemory.UserMemory.CopyOtherPDs` | src/Memory/UserMemory.cpp:136-154 | the same for the directories from slot 1 on |
| `UserMemory.UserMemory.CopyPDs` | src/Memory/UserMemory.cpp:132-157 | a deep copy that takes exactly as many frames as the source owns, and leaves the source unchanged; an empty space copied onto itself stays empty |
| `UserMemory.UserMemory.CopyFrom` | src/Memory/UserMemory.cpp:162-173 | after it both spaces are whole, share no frame, and the frames taken are those of the copy |
| `UserMemory.UserMemory.CopyOf` | src/Memory/UserMemory.cpp:159-167 | a new space that is a deep copy; the frames taken are those of the copy |
| `UserMemory.UserMemory.Assign` | src/Memory/UserMemory.cpp:169-179 | the old contents are freed, then it is a deep copy of the other space; a space assigned to itself is empty afterwards |
| `UserMemory.OthersStill` | src/Memory/UserMemory.cpp:67-85 | any other space keeps its contents when only this one's frames change |
| `UserMemory.CopiedFits` | src/Memory/UserMemory.cpp:132-157 | after a copy both spaces are whole and share no frame or table with each other, the kernel or the free frames |
| `ProcessSteps.Fresh` | src/Processes/Scheduler.h:88-92 | a free id names no thread, process or group |
| `ProcessSteps.ForkKeeps` | src/Processes/Process.cpp:185-204 | fork keeps the invariant |
| `ProcessSteps.CloneKeeps` | src/Processes/Scheduler.cpp:162-177 | so does clone |
| `ProcessSteps.ExecKeeps` | src/User/Syscalls.cpp:420-437 | so does exec, though it queues an id twice |
| `ProcessSteps.ExitKeeps` | src/Processes/Scheduler.cpp:91-102 | so does exit, whose process becomes a zombie |
| `ProcessSteps.TexitKeeps` | src/Processes/Scheduler.cpp:104-115 | so does texit, and the last thread's end is the end of the process |
| `ProcessSteps.Zombie` | src/Processes/Process.cpp:213-222 | a zombie can be deleted: it has a parent that lists it, no thread, is not init, and no id is freed twice or still used |
| `ProcessSteps.ReapKeeps` | src/Processes/Process.cpp:213-222 | deleting a zombie keeps the invariant: sons go to init, the group and the parent forget it, its ids are free if nothing uses them |
| `ProcessSteps.ParkKeeps` | src/Processes/Waiting.h:71-79 | so does the start of a wait |
| `ProcessSteps.SignalKeeps` | src/Processes/Waiting.h:103-109 | so does a signal: all registered threads have it pending and are unregistered |
| `ProcessSteps.RefusedKeeps` | src/Processes/Waiting.h:82-99 | so does a refusal: the signal is taken and the thread registered again |
| `ProcessSteps.AcceptedKeeps` | src/Processes/Waiting.h:82-93 | so does an acceptance, and no registration is left behind |
| `ProcessSteps.StopKeeps` | src/Processes/Scheduler.cpp:131-136 | so does stopping the running thread |
| `ProcessRuns.PolledIs` | src/Processes/Scheduler.cpp:62-76 | after k tries in vain the last entries of the queue are those refused, as many as runTryNum says; dead ids are gone |
| `ProcessRuns.SkipKeeps` | src/Processes/Scheduler.cpp:67-76 | passing over a thread changes no other thread, and not who could run |
| `ProcessRuns.PolledKeeps` | src/Processes/Scheduler.cpp:62-76 | nor does any number of such tries |
| `ProcessRuns.RanIdles` | src/Processes/Scheduler.cpp:50-83 | run() idles if and only if no live thread can run; else it takes the first in queue order that can |
| `ProcessRuns.RanKeeps` | src/Processes/Scheduler.cpp:39-84 | run() keeps the invariant, with what an accepting checker reaps |
| `ProcessRuns.StepKeeps` | src/Processes/Scheduler.cpp:39-177 | every event keeps the invariant |
| `ProcessRuns.BootIs` | src/Processes/Scheduler.cpp:20-37 | the system with init alone satisfies it |
| `ProcessRuns.RunKeeps` | src/Processes/Scheduler.cpp:20-229 | the invariant holds in every state of every run, and no refusal is counted between searches: no live thread is lost, ids are safe, parents and sons are inverse, registrations and pending signals exclude each other |
| `ProcessRuns.FreshInRuns` | src/Processes/Scheduler.h:88-92 | in every reachable state an id marked free is used by nothing |
| `ProcessIds.IdsAccounted` | src/Processes/Scheduler.h:36-92 | in every reachable state an id is free if and only if no thread, process or group has it, so none is lost |
| `ProcessIds.StepNames` | src/Processes/Scheduler.h:39-58 | no event loses an id |
| `ProcessFairness.RanMoves` | src/Processes/Scheduler.cpp:62-83 | a search takes an entry that can run, or moves it forward past all it tried |
| `ProcessFairness.NoStarvation` | src/Processes/Scheduler.cpp:39-136 | a thread at place j of the queue that could run at every search is taken by the (j+1)-th at the latest, whatever else happens |
| `ProcessAnswers.AnswerTells` | src/Processes/Thread.cpp:54-128 | a thread that stops waiting for a child has -2 if its process has no such son, or else the pid and the code of a terminated son, the one asked for if one was, which is no process after; its pid, its checker and every other thread stay |
| `ProcessAnswers.RanAnswers` | src/Processes/Scheduler.cpp:50-83 | so it is for the thread a search finds; all others change in nothing but signals that are taken |
| `ProcessAnswers.StepEnds` | src/Processes/Process.cpp:224-266 | a process gets a return code exactly by an exit of one of its threads, which ends it, or by the texit of its main thread, and never once it is terminated; it ends otherwise only with its last thread, after its main thread |
| `ProcessAnswers.CodeInRuns` | src/Processes/Process.cpp:224-266 | in every run the code of a zombie, or of a process whose main thread ended, is that of the last exit in it or texit of its main thread, and has not changed since; if that was an exit, it ended the process |
| `ProcessAnswers.CodeIsHandedOver` | src/Processes/Thread.cpp:54-128 | in every run a thread that waited and is answered a pid is given the code that child was given when it ended |
| `ProcessRuns.TreeOfInit` | src/Processes/Process.cpp:271-279 | from every process the parents lead to init |
| `ProcessRuns.ClimbsToInit` | src/Processes/Process.cpp:271-279 | and how many steps up it is can be computed |
| `ProcessWakeups.ExitAwake` | src/Processes/Process.cpp:224-242 | a process's end wakes every thread of its parent that now has a child to reap |
| `ProcessWakeups.ParkAwake` | src/Processes/Thread.cpp:70-93 | a thread parks only if there was nothing to reap |
| `ProcessWakeups.ReapAwake` | src/Processes/Process.cpp:213-222 | deleting a zombie loses a wake-up if and only if it hands init a zombie that a parked thread of init would have accepted |
| `ProcessWakeups.StepAwake` | src/Processes/Scheduler.cpp:39-177 | an event loses a wake-up if and only if it reaps in that way |
| `ProcessWakeups.RunAwake` | src/Processes/Scheduler.cpp:20-229 | in a run without such a reaping, a parked thread without a pending signal has no child to reap |
| `ProcessStranding.WakeupCanBeLost` | src/Processes/Process.cpp:275-279 | a run of fifteen events from the booted system on, after which init sleeps beside a zombie of its own |
| `Scheduler.Scheduler.constructor` | src/Processes/Scheduler.cpp:20-37 | the booted system: ids 0 and 1 are taken |
| `Scheduler.Scheduler.GetFreshTid` | src/Processes/Scheduler.h:88-92 | the lowest free id, free no longer |
| `Scheduler.Scheduler.AddT` | src/Processes/Scheduler.h:36 | the thread is known and at the end of the queue |
| `Scheduler.Scheduler.FreeT` | src/Processes/Scheduler.h:39-46 | the thread is gone, and its id free unless a process or group has it |
| `Scheduler.Scheduler.FreeP` | src/Processes/Scheduler.h:47-53 | the process is gone, and its id free unless a group has it |
| `Scheduler.Scheduler.FreeG` | src/Processes/Scheduler.h:54-58 | the group is gone and its id free |
| `Scheduler.Scheduler.Wait` | src/Processes/Waiting.h:71-79 | the thread is registered with the object and has its checker |
| `Scheduler.Scheduler.Signal` | src/Processes/Waiting.h:103-109 | the loop gives every registered thread the signal, and none is registered |
| `Scheduler.Scheduler.OK` | src/Processes/Waiting.h:82-89 | true if and only if the thread waits for nothing, or has a signal and its checker accepts; an accepted reader has what was read, an accepted waiter the pid and code of a terminated son of its process, the one asked for if one was, which is gone, or -2 if there is no such son; a refusal changes nothing outside the thread and its registration, and no other thread changes |
| `Scheduler.Scheduler.CheckChild` | src/Processes/Thread.cpp:74-86 | the checker of a wait: -2 without such a child, the pid and the code of a terminated son, which it deletes, or a refusal that changes no thread |
| `Scheduler.Scheduler.NbWaitAny` | src/Processes/Thread.cpp:54-68 | reaps a zombie son if there is one, fails only without sons, and blocks otherwise |
| `Scheduler.Scheduler.NbWaitOne` | src/Processes/Thread.cpp:96-105 | the same for the child asked for |
| `Scheduler.Scheduler.WaitP` | src/Processes/Thread.cpp:54-128 | the running thread gets the pid and code of a terminated son, whose sons become init's and whose parent and group forget it, or the error without a change if it has no such son, or is parked and queued if none is terminated |
| `Scheduler.Scheduler.Orphan` | src/Processes/Process.cpp:275-279 | init is the parent, and has it among its sons |
| `Scheduler.Scheduler.RemProcess` | src/Processes/Process.cpp:30-34 | the group loses the process, and ends with its last |
| `Scheduler.Scheduler.DeleteProcess` | src/Processes/Process.cpp:213-222 | the destructor does what reaping is specified to do; that no thread is registered with the process any more, which the base destructor asserts, holds whenever it is called |
| `Scheduler.Scheduler.DeleteThreads` | src/Processes/Process.cpp:228-231 | all threads of the set are gone, with their ids freed as each one's users allow |
| `Scheduler.Scheduler.Terminate` | src/Processes/Process.cpp:224-242 | the process is a zombie with that code and no thread, its threads are gone, and every thread registered with its parent, and no other, is signalled and no longer registered |
| `Scheduler.Scheduler.RemThread` | src/Processes/Process.cpp:260-266 | the process loses the thread and keeps its code, and ends with its last; then the main thread has terminated, as it asserts, whenever it is called |
| `Scheduler.Scheduler.MainTerm` | src/Processes/Process.cpp:254-259 | the main thread is gone and the process has its code, and ends if it was the last |
| `Scheduler.Scheduler.EndThread` | src/Processes/Thread.cpp:50-53 | main threads and others end each in their way; the code is the main thread's |
| `Scheduler.Scheduler.Exit` | src/Processes/Scheduler.cpp:91-102 | the running thread's process is a zombie with that code, its threads are gone and their ids free unless a process or group has them, and its parent's waiters have their signal |
| `Scheduler.Scheduler.Texit` | src/Processes/Scheduler.cpp:104-115 | the running thread is gone; its code is the process's if it was the main thread and otherwise the process keeps its code, even when it ends with this thread; the waiters of the parent have their signal exactly if it does |
| `Scheduler.Scheduler.Fork` | src/Processes/Scheduler.cpp:142-159 | with the lowest free id, a process of the same group with one queued thread, which is a son of the running one's |
| `Scheduler.Scheduler.Clone` | src/Processes/Scheduler.cpp:162-177 | with the lowest free id, a queued thread of the same process, or the error without a change if an address is not mapped |
| `Scheduler.Scheduler.Exec` | src/User/Syscalls.cpp:420-437 | the process has one thread, new, with its own id, queued behind the one that called; the others are gone and their ids free unless in use |
| `Scheduler.Scheduler.Run` | src/Processes/Scheduler.cpp:39-84 | ends, with measure queue length minus runTryNum, and is the dispatch event; a reader that is found has what was read |
| `Scheduler.Scheduler.ReadBlocks` | src/User/Syscalls.cpp:79-95 | the running thread is registered with the stream and queued |
| `Scheduler.Scheduler.StreamSignals` | src/Processes/Waiting.h:103-109 | every thread registered with the stream, and no other, has its signal, and none is registered |
| `Scheduler.Scheduler.Preempt` | src/Processes/Scheduler.cpp:211-222 | the running thread is queued last |
| `Scheduler.Scheduler.Wake` | src/Processes/Scheduler.cpp:191-201 | is the tick that ends an idle time |

## Left out

Ext2:

- The bitmaps, the descriptor table and the superblock are kept apart from the data blocks, and that they are written to the disk after each change is not modelled; nor is reading and writing back the inode itself (src/HDD/Ext2.cpp:90-95). Files are assumed not to reach into those blocks.
- The per-level buffers and the tables of sizes and block counts in the argument records are local values and functions of the level.
- Block numbers are used as they come from the bitmap, without `first_data_block`, as the source does; that the block exists on the disk follows from the bits past the end being set, which is a precondition.
- Running out of space in `getNewBlock` and `getNewInode` ends the kernel: the methods return nothing in that case, and the file operations require enough free blocks for the nodes they add.
- The upper half of the file size (`dir_acl`) is left out, since sizes are below 2^32; holes in files, directories, links, times and symbolic links too.
- Resize: shrinking requires the nodes of the size, as writes and cuts keep them (`Ext2File.RunKeepsNodeCount`); after growing by `i_resize`, which allocates nothing, or after a cut that was not right, a later shrink is not covered.
- FreeInode: a directory's group must count at least one directory; the 16-bit counter of the source would wrap.
- WriteAddr: writing past the end of a file creates blocks between the old end and the new bytes; what those bytes are is whatever the blocks held, and nothing is said of them.

malloc:

- sbrk always succeeds, addresses count from the first header, which is 8-aligned, and other users of the break are not modelled.
- Malloc: requires a positive size that does not wrap when it is rounded up to 8 in 64 bits, because a block of size 0 reads as the end of the list; Realloc the same, but for size 0, which frees.
- Free: a pointer that malloc did not give or that was freed before is an assertion in the source and a precondition here.

Memory:

- TLB flushes, 2M entries, ranged and multi-page variants, `Paging::init` and memory that is occupied at boot are left out.
- The three temporary slots are fields that tell whether they are in use and what they show; they are not also entries of the page table behind them. Single-page mappings through the kernel's page heap are direct access to the frame, so the table pages it may take are not counted.
- CreateMapping: mapping a page that is mapped, a misaligned address or running out of frames ends the kernel in the source, and is excluded by its preconditions; how many tables will be taken is stated exactly.
- Brk: page counts are not cut to 32 bits. Its frames are accounted for in the page tables in use; that a page mapped in an active user space is that space's is shown page by page (`UserMemory.UserMemory.AddPage`), not for a whole brk.
- Assign: two different objects for one PDP, which the source never makes, are excluded.
- FreePDs: the first round of the loop over directories is written before the loop, here and in CopyPDs, as it does something else than the others.
- AddPage: loading a program and growing a heap do these two steps in loops of their own, which are not modelled for user spaces.

Processes:

- Objects are named by their ids in one scheduler object, so a pointer kept by a checker to a child that was reaped is not told from a new process with that pid.
- Exit: init's end shuts the kernel down, and a waiting sibling thread of an ending process fails the assertion in its destructor (src/Processes/Waiting.h:66-68); both are excluded by `CanExit`, `CanTexit` and `CanExec`. The last thread of a process whose main thread never ended is excluded by the invariant.
- Registers other than the result, MMX state, file descriptors, working directories, and a process's memory are left out here; `clone` takes as a parameter whether its addresses are mapped, and `exec` starts when its file is known to be good.
- Time: quanta and rendering are left out; preemption can happen at any point.
- Sets have no order: which zombie among several is reaped is left open, and so is who is signalled first.
- WaitP: the pointer for the return code is a field of the thread, which is set when a child is reaped; that it may be null, and the translation of its address, are left out.
- Streams: that a read would not block is a parameter of run(), the same for a whole search, and what is read is a parameter too.
- Waiting on several objects at once is left out; no caller does it, and accept() would leave registrations behind.
- OK: a checker is run when its signal is taken, and always accepts or refuses, as all three checkers do.

Port I/O, interrupts, assembly, windows, the loader, ELF files, FAT, the shell and the simple containers are not part of this model.
