# Verified model of a small x86_64 kernel

This project models the stateful core of the kernel in `04_kernel_64bit` and proves what its parts
promise over every input, every call sequence and every reachable state. Check it with
`dafny verify dfyconfig.toml`.

**FAT file system** (`Fat*.dfy`). A one-sector write-back window over a disk of 512-byte sectors,
packed FAT12/16/32 entries with a mirrored second FAT, chain allocation and release, buffered file
read, write and seek, the size checks of mounting, and long-name entries. The configuration is the
one the kernel builds: no exFAT, not tiny, no fast seek, no locking, long names on. The on-disk rules
are those of the Microsoft FAT32 File System Specification 1.03. The main result is
`FatFile.FileHandle.Session`: any sequence of calls on a file handle behaves as on a byte sequence
with a cursor, wherever the window stands outside the file and the free clusters, and no other file
changes (`FatOthers.OtherFileKept`). Errors of the device are modelled up to the FAT table; chains
and files assume a device that does not fail, while a full volume is part of the model.

**Address spaces** (`Vmm*.dfy`). Four-level page tables as in section 4.5 of volume 3A of the Intel
64 and IA-32 Architectures Software Developer's Manual: map, unmap, translate and deep clone. The
invariant is that every table has one place in one tree; isolation of the low half and sharing of
the high half over whole runs follow from it (`VmmRuns.CloneThenRun`). What user code may read and
write is stated over all four levels, as in section 4.6 of that manual. A page is walkable if it is
not under the recursive slot and no 2 MB page stands where its walk expects a leaf table.

**Kernel heap** (`Heap*.dfy`). First-fit allocation with splitting, merging and growth over block
headers in memory, and the validator, which is shown to decide exactly whether the headers spell out
a list that covers the heap.

**Physical pages** (`Pmm*.dfy`). The bitmap, page types, counters and zone hints, from the firmware's
memory map through any run of calls.

**Loading and page ownership** (`Elf*.dfy`, `PageList.dfy`, `PageOwners.dfy`). The loader's page-wise
copies equal the segment images (System V gABI, chapter 5, "Program Header" and "Program Loading") and
write no frame that was in use; pages recorded by one process are freed by its reclaim and by no other.

**Processes** (`ReadyQueue.dfy`, `Proc*.dfy`, `Kernel*.dfy`). The lifecycle as atomic kernel steps on
the process table, the kernel stacks and the linked ready queue the code keeps: creation, exec,
destruction, exit, waitpid, keyboard wake-up, yielding and preemption.

Where the code falls short of a property, the model keeps the code and the exact condition is proved:
requests above 2^64 - 4144 bytes wrap in `kmalloc` (`Heap.RegionCoversIff`, `Heap.WrapsToNothing`,
`Heap.NoRegionIff`); a mounted volume is sound exactly if a 32-bit sum did not wrap
(`FatMount.MountSoundIffNoWrap`); removing a chain is sound exactly if nothing links to its head
(`FatAlloc.RemoveWholeExact`); handing out a page of type Free breaks the books (`Pmm.Pmm.Alloc`); the
kernel's state stays valid exactly while no step adds a process that is queued already
(`Kernel.Kernel.Step`), and a run from boot does so and then runs a freed entry
(`KernelRuns.FailingRun`); and a wake-up is lost exactly if a process blocks in `waitpid` while a
matching zombie child has a pid of 1000 or more (`Kernel.Kernel.WaitOnce`), which a run from boot
reaches (`KernelRuns.LosesWake`). `pmm_unreserve_page` is documented to restore a
page's previous type; the code frees it, and so does the model.

Inputs that come from outside are parameters or open choices: which free frame the table and data
allocators return and how many they have left, whether the heap has memory for a page list, whether a
program loads and a status can be copied, disk faults, and the contents of fresh frames.

## Model

| member | source | states |
|---|---|---|
| FatEntries.PutThenGet | 04_kernel_64bit/fatfs/ff.c:1176-1303 | For all three widths: storing a value and reading it back gives the value masked to 12, 16 or 28 bits, and every other entry reads as before although FAT12 neighbours share a byte |
| FatEntries.EntryIsNumber | 04_kernel_64bit/fatfs/ff.c:1191-1210 | An entry is the little-endian number in its 3, 4 or 7 four-bit digits of the FAT, whatever byte it starts in |
| FatEntries.PutDigits | 04_kernel_64bit/fatfs/ff.c:1264-1299 | A store changes exactly the digits of its entry: the neighbour's half of a shared FAT12 byte and the top four bits of a FAT32 entry stay |
| FatWindow.FatFs.SyncWindow | 04_kernel_64bit/fatfs/ff.c:1057-1075 | The logical view is unchanged outside the second FAT; on success the window is clean; with two FATs on a healthy device the copies still agree everywhere except at a dirty window |
| FatWindow.FatFs.MoveWindow | 04_kernel_64bit/fatfs/ff.c:1079-1100 | Refines a plain disk: the view is unchanged, the wanted sector is in the window, a clean window equals its disk sector; on a device error nothing is lost |
| FatTable.GetFat12 | 04_kernel_64bit/fatfs/ff.c:1193-1200 | The two byte reads, with a window move between them, give the 12-bit entry even across a sector boundary |
| FatTable.GetFat | 04_kernel_64bit/fatfs/ff.c:1176-1244 | 1 for a number out of range, the error value on a device error, else the little-endian number in the digits of the entry; the FAT does not change |
| FatTable.PutFat12 | 04_kernel_64bit/fatfs/ff.c:1267-1279 | The two stores give the masked 12-bit entry; if the second window move fails only this entry is torn |
| FatTable.PutFat16 | 04_kernel_64bit/fatfs/ff.c:1281-1286 | The entry takes the value masked to 16 bits, all others stay |
| FatTable.PutFat32 | 04_kernel_64bit/fatfs/ff.c:1288-1299 | The entry takes the value masked to 28 bits and keeps its upper four bits, all others stay |
| FatTable.PutFat | 04_kernel_64bit/fatfs/ff.c:1254-1303 | Error for a number out of range; otherwise the entry takes the masked value, no other entry changes even if the device fails midway, and only the FAT area of the view is touched |
| FatTable.TornPut12 | 04_kernel_64bit/fatfs/ff.c:1271-1279 | A half-stored FAT12 entry leaves every other entry intact |
| FatAlloc.UnlinkZeroesVisited | 04_kernel_64bit/fatfs/ff.c:1469-1501 | For every table content, cyclic or cross-linked included, the release loop zeroes exactly the entries on the walk from its start |
| FatAlloc.ChainEnds | 04_kernel_64bit/fatfs/ff.c:1539-1632 | In a sound table the links from any used cluster lead through used clusters to an end-of-chain value |
| FatAlloc.ChainsDisjoint | 04_kernel_64bit/fatfs/ff.c:1539-1632 | Two chains that share a cluster are one inside the other: chains of different heads are disjoint |
| FatAlloc.CreateKeeps | 04_kernel_64bit/fatfs/ff.c:1549-1631 | A step of create_chain keeps the chains sound and a valid free count exact |
| FatAlloc.CreateMeans | 04_kernel_64bit/fatfs/ff.c:1589-1629 | A new cluster in numbers: all ones of the entry width into its entry, its number into the old end, nothing else; the neighbour of the end if it is free, else the first free cluster after the hint |
| FatAlloc.NoFreeClusterIffFull | 04_kernel_64bit/fatfs/ff.c:1549-1614 | "No free cluster" is reported exactly when no entry is zero, whatever the hint, for new chains and for stretches |
| FatAlloc.RemoveKeeps | 04_kernel_64bit/fatfs/ff.c:1460-1529 | A step of remove_chain keeps the chains sound and a valid free count exact |
| FatAlloc.RemoveMeans | 04_kernel_64bit/fatfs/ff.c:1460-1501 | A removal in numbers: all ones into the predecessor, zero into every entry on the walk, nothing else |
| FatAlloc.RemoveWholeExact | 04_kernel_64bit/fatfs/ff.c:1460-1529 | Removing a whole chain keeps the table sound exactly when no entry links to its first cluster |
| FatAlloc.EveryRunGood | 04_kernel_64bit/fatfs/ff.c:1444-1632 | Over every run of create_chain and remove_chain the table stays a set of disjoint acyclic chains and a valid free_clst is the number of zero entries |
| FatChain.FindFree | 04_kernel_64bit/fatfs/ff.c:1601-1614 | The wrap-around search from any start finds the first free cluster after it, or says there is none exactly when the table is full |
| FatChain.FindNext | 04_kernel_64bit/fatfs/ff.c:1589-1614 | A stretch first tries the neighbour of its end, then searches from the hint |
| FatChain.CreateChain | 04_kernel_64bit/fatfs/ff.c:1539-1632 | On a sound volume the method is the abstract step: follow, allocate and link, or report a full volume; hint and free count are updated with it |
| FatChain.LinkNew | 04_kernel_64bit/fatfs/ff.c:1615-1629 | End-of-chain into the new entry, its number into the old end; counters updated on success only |
| FatChain.RemoveChain | 04_kernel_64bit/fatfs/ff.c:1444-1530 | Marks the predecessor as the end and zeroes the walk; the free count grows by the number of entries freed |
| FatChain.ReleaseWalk | 04_kernel_64bit/fatfs/ff.c:1468-1501 | Terminates on every table because each round zeroes an entry |
| FatData.ChainNoDup | 04_kernel_64bit/fatfs/ff.c:1444-1632 | A list of clusters that ends meets no cluster twice |
| FatData.SectorsDistinct | 04_kernel_64bit/fatfs/ff.c:1159-1167 | The sectors of a file are pairwise different |
| FatData.WrittenBytes | 04_kernel_64bit/fatfs/ff.c:4194-4202 | If the sectors of a file changed only where data was written, the file reads as the splice of the data |
| FatFil.DirectRead | 04_kernel_64bit/fatfs/ff.c:4043-4061 | Whole sectors read at the cursor inside its cluster are bytes of the file |
| FatFil.RunWritten | 04_kernel_64bit/fatfs/ff.c:4158-4179 | Whole sectors written at the cursor, with the buffer refreshed, splice the data into the file |
| FatFil.Poked | 04_kernel_64bit/fatfs/ff.c:4194-4202 | Bytes copied into the buffer over the sector at the cursor splice them into the file |
| FatFil.ChainStep | 04_kernel_64bit/fatfs/ff.c:4125-4146 | create_chain called with the cluster before a position gives the cluster at that position: the one there, a new one, or none on a full volume |
| FatFile.FileHandle.Open | 04_kernel_64bit/fatfs/ff.c:3935-3947 | A freshly opened file shows its bytes with the cursor at the start, wherever the window was left outside the file and the free clusters, dirty or not |
| FatFile.FileHandle.ReadStep | 04_kernel_64bit/fatfs/ff.c:4018-4084 | One round returns a non-empty run of bytes from the cursor |
| FatFile.FileHandle.Read | 04_kernel_64bit/fatfs/ff.c:3996-4087 | Returns exactly the bytes from the cursor on, as many as asked for or left; the contents do not change |
| FatFile.FileHandle.FollowWrite | 04_kernel_64bit/fatfs/ff.c:4123-4157 | Reaches or creates the cluster under the cursor without changing any byte of this or another file |
| FatFile.FileHandle.PutDirect | 04_kernel_64bit/fatfs/ff.c:4158-4179 | The direct transfer splices the sectors in and keeps the buffer in step |
| FatFile.FileHandle.PutBuffer | 04_kernel_64bit/fatfs/ff.c:4186-4202 | Fills the buffer when needed and splices the bytes in |
| FatFile.FileHandle.WriteStep | 04_kernel_64bit/fatfs/ff.c:4122-4204 | One round splices a non-empty prefix at the cursor, or nothing if the volume is full |
| FatFile.FileHandle.Write | 04_kernel_64bit/fatfs/ff.c:4097-4209 | The bytes reported written land at the cursor, all other bytes of the file stay, other files are untouched; short only at the 4 GiB limit or on a full volume |
| FatFile.FileHandle.SeekStart | 04_kernel_64bit/fatfs/ff.c:4640-4660 | Where the walk starts: the current cluster or the first, created for an empty file |
| FatFile.FileHandle.SeekAlong | 04_kernel_64bit/fatfs/ff.c:4661-4682 | The walk stops at the cluster of the target, or where the room ends |
| FatFile.FileHandle.Lseek | 04_kernel_64bit/fatfs/ff.c:4632-4710 | The cursor moves to the clipped offset; a writable file grows, what it held it still holds; only a full volume clips the cursor, and not below the old end |
| FatFile.FileHandle.Session | 04_kernel_64bit/fatfs/ff.c:3996-4710 | Every sequence of read, write and seek calls on one handle gives the outputs of a plain byte sequence with a cursor; a write falls short only on a full volume or at the 4 GiB limit, a seek only on a full volume and never below the old end |
| FatFile.FileHandle.StaysFull | 04_kernel_64bit/fatfs/ff.c:4097-4710 | No call frees a cluster: a full volume stays full |
| FatFile.FileHandle.OtherFile | 04_kernel_64bit/fatfs/ff.c:4097-4710 | After any calls on one handle every other file of the volume has its chain and its bytes |
| FatOthers.OtherFileKept | 04_kernel_64bit/fatfs/ff.c:1539-4710 | For any other chain of a sound table with another head: links and bytes are the same after a write or a seek |
| FatFil.Stretched | 04_kernel_64bit/fatfs/ff.c:4125-4146 | A chain stretched by free clusters leaves the open file, its bytes and all other sectors as they were |
| FatMount.AcceptedShape | 04_kernel_64bit/fatfs/ff.c:3589-3638 | What an accepted boot record fixes: number of FATs, cluster size a power of two, a FAT large enough for its entries |
| FatMount.TypeByCount | 04_kernel_64bit/fatfs/ff.c:3612-3620 | The type is FAT12 exactly up to 4085 clusters, FAT16 exactly up to 65525, and the number of clusters is the largest that fits |
| FatMount.AcceptedIff | 04_kernel_64bit/fatfs/ff.c:3589-3640 | Exactly which boot records are accepted, in terms of the number of clusters they leave room for |
| FatMount.MountSoundIffNoWrap | 04_kernel_64bit/fatfs/ff.c:3612-3638 | An accepted volume that lies on the disk has a sound layout exactly when the 32-bit sum of the sectors before the data area did not wrap |
| FatMount.WrapExample | 04_kernel_64bit/fatfs/ff.c:3597-3626 | A boot record for which the sum wraps and the data area starts inside the FAT |
| FatLfn.PutLfn | 04_kernel_64bit/fatfs/ff.c:1976-2001 | The entry carries the units of its part of the name low byte first at bytes 1, 3, 5, 7, 9, 14 to 24, 28 and 30, then 0, then 0xFFFF, with order number, last flag and checksum |
| FatLfn.PickLfn | 04_kernel_64bit/fatfs/ff.c:1938-1967 | Accepts an entry exactly if it has no cluster number, a number of 1 or more, only filler after a terminator and room for its units, and copies each unit to its place |
| FatLfn.AcceptableIff | 04_kernel_64bit/fatfs/ff.c:1938-1967 | The tests of the loop are equivalent to that condition on the entry alone |
| FatLfn.SumSfn | 04_kernel_64bit/fatfs/ff.c:2070-2081 | The checksum that rotates right by one bit and adds, for each of the eleven name bytes, in eight bits |
| FatLfn.ChecksumExample | 04_kernel_64bit/fatfs/ff.c:2070-2081 | LONGFI~1TXT has the checksum 0xD4 |
| FatLfn.OneByteTells | 04_kernel_64bit/fatfs/ff.c:2070-2081 | Short names that differ in one byte have different checksums |
| FatLfn.WrittenIsPickable | 04_kernel_64bit/fatfs/ff.c:1938-2001 | An entry written for a name is accepted when read and shows its number and flag |
| FatLfn.KeepsReading | 04_kernel_64bit/fatfs/ff.c:2375-2382 | Accepting the entry numbered just below keeps what was read of the set |
| FatLfn.DirRead | 04_kernel_64bit/fatfs/ff.c:2369-2398 | Stops at the first short entry before the end mark, skipping deleted, dot, label and long entries; it has a long name exactly if the entries before it are accepted, count down to 1 from the one flagged as last and carry the checksum of the short name, and the name is then in the buffer |
| FatLfn.SetIsFound | 04_kernel_64bit/fatfs/ff.c:2369-2398 | A set written for a name is such a set |
| FatLfn.Register | 04_kernel_64bit/fatfs/ff.c:2560-2593 | Entries are stored in descending order, the last flag on exactly the first, all with the checksum of the short name |
| FatLfn.RoundTrip | 04_kernel_64bit/fatfs/ff.c:1938-2595 | Every name of 1 to 255 units without 0 and 0xFFFF that is registered is read back as the same terminated name |
| Vmm.Vmm.Descend | 04_kernel_64bit/vmm.c:363-396 | One level of map: the table is there or made, with the cache bits asked for; the tree stays a tree, no translation changes and directory entries only gain the write and user bits; it fails only if no frame is left |
| Vmm.Vmm.Reach | 04_kernel_64bit/vmm.c:362-396 | The walk of map changes no translation whatever happens, and fails only if the leaf table was missing |
| Vmm.Vmm.MapPage | 04_kernel_64bit/vmm.c:344-408 | On success the leaf carries exactly the frame and the write, user, cache and no-execute bits asked for; user code can read the page exactly if the user bit was asked for and write it exactly if both were; every other translation stays, no page loses user access and none gains it that its own entry does not grant; it fails only if no frame is left and then no translation changes |
| Vmm.Vmm.UnmapPage | 04_kernel_64bit/vmm.c:410-433 | The page becomes unmapped where a leaf table exists, every other translation stays |
| VmmClone.CopyPd | 04_kernel_64bit/vmm.c:286-312 | A fresh directory whose leaf tables are fresh copies; 2 MB entries verbatim; no existing table changes |
| VmmClone.CopyPdpt | 04_kernel_64bit/vmm.c:276-315 | The same one level up |
| VmmClone.Clone | 04_kernel_64bit/vmm.c:255-322 | In every outcome no existing table changes; on success a new root with the low half copied, the high half shared and the recursive slot closed to user code; it fails only if no frame is left |
| VmmClone.CloneSound | 04_kernel_64bit/vmm.c:255-322 | A successful clone translates every page as its source does and gives user code the same access to it, all other spaces are as before, and every upper slot of its source is shared |
| VmmRuns.Run | 04_kernel_64bit/vmm.c:344-433 | Over every run of maps and unmaps untouched pages keep their translation |
| VmmRuns.CloneThenRun | 04_kernel_64bit/vmm.c:255-433 | After a clone, any sequence of maps and unmaps through either root: low pages are isolated, pages under upper slots present at the clone read the same through both |
| VmmRuns.MapThenTranslate | 04_kernel_64bit/vmm.c:324-402 | Translating a mapped page gives frame plus offset, with bit 63 added exactly if execution was disabled |
| VmmRuns.SamePage | 04_kernel_64bit/vmm.c:324-329 | Addresses share a page exactly if they agree in bits 12 to 47 |
| Heap.RegionCoversIff | 04_kernel_64bit/heap.c:181-203 | The region added for a request holds it and a header exactly for requests up to 2^64 - 4144; beyond that the rounding wraps |
| Heap.RegionLeast | 04_kernel_64bit/heap.c:181-203 | Requests are rounded to the next multiple of 16, and the region is the least number of pages that holds the rounded request and a header |
| Heap.WrapsToNothing | 04_kernel_64bit/heap.c:181-186 | Requests above 2^64 - 16 round to 0, so that kmalloc hands out the first free block of any size |
| Heap.NoRegionIff | 04_kernel_64bit/heap.c:40-44 | The heap grows by no page at all exactly for requests above 2^64 - 4144 up to 2^64 - 48 |
| Heap.Heap.Extend | 04_kernel_64bit/heap.c:40-69 | Contiguous growth by the least number of whole pages; refused exactly past the maximum size or without frames, and then nothing changes |
| Heap.Heap.Init | 04_kernel_64bit/heap.c:71-105 | One free block over the initial region, or an empty heap |
| Heap.Heap.FindFreeBlock | 04_kernel_64bit/heap.c:107-118 | The first free block that is large enough |
| Heap.Heap.SplitBlock | 04_kernel_64bit/heap.c:130-153 | The block is cut to the request exactly when more than a header and 16 bytes are left over, which become a free block behind it; links stay right |
| Heap.Heap.CoalesceBlocks | 04_kernel_64bit/heap.c:155-179 | All runs of free neighbours are merged; no header loses its magic or its used flag |
| Heap.Heap.Grow | 04_kernel_64bit/heap.c:188-242 | A failed search adds a region that the second search cannot miss |
| Heap.Heap.Take | 04_kernel_64bit/heap.c:244-248 | Exactly the chosen block becomes live, cut to size |
| Heap.Heap.Kmalloc | 04_kernel_64bit/heap.c:181-249 | NULL exactly for a zero request or when nothing fits and the heap cannot grow; otherwise one first-fit block becomes live, aligned, large enough and less than 80 bytes larger than asked for; the free bytes drop by its size and the header of a cut, no free block of 16 bytes or less is left behind, and the heap grows by less than a page more than needed |
| HeapBlocks.AllocateBounds | 04_kernel_64bit/heap.c:131-152 | The block handed out is at most a header and 16 bytes larger than the request, and a piece cut off holds more than 16 bytes |
| Heap.Heap.Kfree | 04_kernel_64bit/heap.c:251-273 | NULL, a wrong magic number and a block that is not in use change nothing; the pointer of a live block makes exactly that block stop being live |
| Heap.Heap.ClientWrite | 04_kernel_64bit/include/heap.h:10-13 | Whatever users write into live payloads, the heap stays well formed |
| Heap.PayloadHoldsNoHeader | 04_kernel_64bit/include/heap.h:10-24 | No block header lies inside a payload |
| Heap.Accounting | 04_kernel_64bit/heap.c:275-277 | Every mapped byte is a header, used or free byte |
| Heap.Drained | 04_kernel_64bit/heap.c:155-179 | When everything is freed one free block covers the heap |
| HeapBlocks.PayloadsDisjoint | 04_kernel_64bit/heap.c:181-249 | Live payloads are disjoint, 16-aligned and inside the heap |
| HeapBlocks.CoalesceKeeps | 04_kernel_64bit/heap.c:155-179 | Merging keeps the tiling, the live blocks and the used bytes and leaves no two free neighbours |
| HeapBlocks.FreedKeeps | 04_kernel_64bit/heap.c:270-272 | Freeing removes exactly that block from the live ones and its size from the used bytes |
| HeapBlocks.CoalesceFits | 04_kernel_64bit/heap.c:235-237 | Merging never loses a free block of sufficient size |
| HeapLinks.LinkedSplit | 04_kernel_64bit/heap.c:134-152 | The stores of a split turn the headers of a list into those of the cut list |
| HeapLinks.LinkedMerge | 04_kernel_64bit/heap.c:166-171 | The stores of a merge turn the headers of a list into those of the merged list |
| HeapLinks.LinkedAppend | 04_kernel_64bit/heap.c:213-228 | The stores that add a block at the end turn the headers into those of the longer list |
| HeapRuns.Run | 04_kernel_64bit/heap.c:181-273 | Over every run of kmalloc and kfree the payloads held are disjoint, aligned, large enough and less than 80 bytes larger than asked for, nothing else is live, and a drained heap is one block |
| HeapCheck.Validate | 04_kernel_64bit/heap.c:331-376 | Terminates on every memory content; 0 exactly when the heap is not set up or the headers spell out a list that covers it; otherwise names the first bad block, all before it being right |
| HeapCheck.SameStart | 04_kernel_64bit/heap.c:351-373 | A correct start of a list agrees with every list that covers the heap |
| HeapCheck.ValidHeapPasses | 04_kernel_64bit/heap.c:331-376 | Every heap reached by the allocator that holds a block passes the validator |
| PmmPages.CountedMoved | 04_kernel_64bit/pmm.c:375-376 | Moving a page between two types moves one count, in 64-bit arithmetic |
| PmmInit.TouchesShares | 04_kernel_64bit/pmm.c:222-227 | Rounding a region outwards makes a page usable exactly if it shares a byte with the region |
| PmmInit.ReleaseRange | 04_kernel_64bit/pmm.c:229-241 | Exactly the managed pages of a range become free and are entered once |
| PmmInit.PagesMeans | 04_kernel_64bit/pmm.c:198-212 | The allocator manages exactly the pages it can track that end at or below the end of some region |
| PmmInit.MarkRange | 04_kernel_64bit/pmm.c:302-314 | Exactly the managed pages of a range are taken |
| PmmInit.ComputeZones | 04_kernel_64bit/pmm.c:108-146 | Two disjoint zones that hold every free page, the low one a quarter of the span, with sound hints |
| PmmInit.InitFallback | 04_kernel_64bit/pmm.c:170-196 | Without a memory map the first 16 MB are the kernel's, all the rest is free, and all books agree |
| PmmInit.Init | 04_kernel_64bit/pmm.c:148-346 | From any memory map, overlapping, unsorted or absent: with one, the free pages are exactly the usable ones above 1 MB outside the kernel and the unusable regions, every other page is typed by why it is not free, and all books agree |
| Pmm.Pmm.SearchHigh | 04_kernel_64bit/pmm.c:364-384 | The downward search from the hint finds the highest free page of the zone and misses only if there is none |
| Pmm.Pmm.SearchLow | 04_kernel_64bit/pmm.c:398-423 | The upward search from the hint misses nothing at or above 2 MB |
| Pmm.Pmm.Claim | 04_kernel_64bit/pmm.c:366-376 | A free page becomes used with one reference; the books stay right exactly if the type is not Free |
| Pmm.Pmm.Release | 04_kernel_64bit/pmm.c:461-479 | A used page becomes free and the hints cover it |
| Pmm.Pmm.Alloc | 04_kernel_64bit/pmm.c:348-437 | User pages: the highest free page of the high zone; kernel, table and reserved pages: the lowest free one of the low zone from 2 MB on; other types: the first free one of the low zone from the hint on; none exactly if there is no such page; the invariant holds afterwards exactly if no page of type Free was handed out |
| Pmm.Pmm.FreePage | 04_kernel_64bit/pmm.c:439-482 | Null, out of range and double frees change nothing; a page with more than one reference loses one and stays as it is, the last reference frees it |
| Pmm.Pmm.ReservePage | 04_kernel_64bit/pmm.c:501-522 | The page is used and reserved, whatever it was |
| Pmm.Pmm.UnreservePage | 04_kernel_64bit/pmm.c:524-550 | A reserved page becomes free, any other page is left alone |
| Pmm.Pmm.Run | 04_kernel_64bit/pmm.c:348-550 | Over every run the free counter, the counter of type Free and the number of clear bits are equal, zones fixed and hints complete |
| PageList.PageList.Add | 04_kernel_64bit/elf.c:44-78 | A page is recorded once, at the end; the buffer grows by 64 exactly when full, every access is in bounds, and only a buffer that cannot be had keeps a page out |
| Elf.MapOne | 04_kernel_64bit/elf.c:109-110 | Mapping one page changes no other page of this space and nothing of any other |
| Elf.MapPages | 04_kernel_64bit/elf.c:99-113 | Fresh private frames for every page, recorded in the list |
| Elf.Fill | 04_kernel_64bit/elf.c:115-162 | The copy and clear loops put the bytes at their virtual addresses and keep all others |
| Elf.LoadSegment | 04_kernel_64bit/elf.c:90-163 | One segment: its image is readable and earlier pages are kept |
| Elf.Load | 04_kernel_64bit/elf.c:80-166 | In every outcome no frame that was in use is written, no other space changes and the list records fresh frames once, all of them if the heap has memory for the list; it fails only on a bad identification or if the frames ran out; on success every segment reads as its file bytes followed by zeros and user code can write every address of it |
| Elf.OthersReadTheSame | 04_kernel_64bit/elf.c:80-166 | Every other address space reads the same bytes after a load |
| PageOwners.Cleanup | 04_kernel_64bit/process.c:456-465 | Exactly the recorded pages become free, and as many |
| PageOwners.Reclaim | 04_kernel_64bit/process.c:467-478 | The list of one process is freed and dropped |
| PageOwners.KernelFree | 04_kernel_64bit/pmm.c:439-482 | Freeing a page that no list records disturbs no list |
| PageOwners.Run | 04_kernel_64bit/pmm.c:348-482 | Over every run of allocations recorded in the processes' growing lists, failed records, reclaims, and pages taken and freed by the kernel itself: a page is recorded at most once across all lists and stays in use while recorded |
| ReadyQueue.ReadyQueue.Add | 04_kernel_64bit/scheduler.c:20-35 | On any links, the stores of the add; from a queue the process joins the end, and the links spell out a queue afterwards exactly if it was not on it already |
| ReadyQueue.AddedBreaks | 04_kernel_64bit/scheduler.c:26-34 | Adding several processes one after the other, one of them queued already, leaves links that spell out no queue at all |
| ReadyQueue.AddedFresh | 04_kernel_64bit/scheduler.c:26-34 | Adding several processes that are not queued appends them in order |
| ReadyQueue.TakenAgain | 04_kernel_64bit/scheduler.c:64-77 | Taking the first process does not repair a doubled one: the links spell out a queue only where it was alone, and then it is both taken and still queued |
| ReadyQueue.ReadyQueue.Remove | 04_kernel_64bit/scheduler.c:37-62 | On any links, the stores of the remove; from a queue the process leaves from wherever it stands, and one that is not queued changes nothing |
| ReadyQueue.ReadyQueue.Next | 04_kernel_64bit/scheduler.c:64-77 | On any links, the stores of the take; from a queue the first process leaves it |
| ProcTable.StacksApart | 04_kernel_64bit/process.c:31-52 | No two processes share a kernel stack |
| ProcTable.SlotFree | 04_kernel_64bit/process.c:204-211 | While a live process has no stack some slot has no owner, so the pool is never exhausted |
| ProcWait.GoodExit | 04_kernel_64bit/scheduler.c:127-131 | An exit of a process with a parent is remembered once, with its status |
| ProcWait.GoodReap | 04_kernel_64bit/user_syscall.c:698-701 | A reap by the caller of waitpid, who must be the parent, of a zombie with the status it left keeps every reap matched with one earlier exit and the last word on its pid |
| ProcWait.GoodDestroy | 04_kernel_64bit/process.c:480-491 | A destroyed process is remembered as destroyed; nothing is heard of its pid again |
| Kernel.Kernel.FindByPid | 04_kernel_64bit/process.c:275-282 | The live process with a pid, or none exactly if there is none |
| Kernel.Kernel.Create | 04_kernel_64bit/process.c:119-266 | A new process with a fresh pid and a stack of its own at the end of the queue; none only if the pool is full or the user stack cannot be had |
| Kernel.Kernel.Destroy | 04_kernel_64bit/process.c:480-491 | Any process but the running one leaves table, stack slot and queue; pids, slots, owners, count and log stay in step |
| Kernel.Kernel.WakeAllBlocked | 04_kernel_64bit/process.c:296-305 | A key readies and queues everyone blocked on input except the kernel shell, in pool order, and leaves every process blocked in waitpid as and where it was; a queue is a queue afterwards exactly if no one woken was on it, and otherwise the links spell out none |
| Kernel.WokenQueue | 04_kernel_64bit/process.c:296-305 | The same for the links and the table as values |
| Kernel.Kernel.WakeParent | 04_kernel_64bit/process.c:319-339 | Exactly a parent that waits for this child is resumed and queued |
| Kernel.Kernel.SwitchTo | 04_kernel_64bit/scheduler.c:192-227 | When a switch is made; then the process that ran is ready and last in the queue, the new one runs, no other changes, and both stack tops are those of the running process |
| Kernel.Kernel.Yield | 04_kernel_64bit/scheduler.c:245-268 | The running process goes to the end of the queue and its head runs; the lone process and the blocked one included |
| Kernel.Kernel.Tick | 04_kernel_64bit/interrupts.c:260-319 | The end of a time slice: which process runs, who is ready and queued, with both stack tops in lockstep |
| Kernel.TickMeans | 04_kernel_64bit/interrupts.c:260-319 | A time slice hands over to the head of the queue, and to the idle process if there is none; the process that ran is ready and last in the queue, no other changes |
| Kernel.YieldMeans | 04_kernel_64bit/scheduler.c:245-268 | A yield hands over to the head of the queue; a process alone on it goes on; a blocked one leaves the processor to the idle process |
| Kernel.Kernel.BlockOnInput | 04_kernel_64bit/user_syscall.c:790-792 | The running process blocks on input, even if it is still queued; the idle process does not |
| Kernel.Kernel.Suspend | 04_kernel_64bit/kmain.c:193-196 | The kernel shell blocks without waiting for a child |
| Kernel.Kernel.Leave | 04_kernel_64bit/scheduler.c:100-135 | On any links: a process with a parent becomes a zombie with its status; exactly a process blocked in waitpid for it, by its pid or for any child, becomes ready and is queued; a process without a parent is gone |
| Kernel.Kernel.Exit | 04_kernel_64bit/scheduler.c:95-190 | On any links: the whole exit, with the head of the links running on its stack top; with nothing to run a user process halts and a kernel thread resumes the suspended shell; a valid state stays valid exactly if the parent that is woken was not on the queue |
| Kernel.ExitBreaks | 04_kernel_64bit/scheduler.c:100-190 | If it was, what runs next is still linked or the links spell out no queue |
| Kernel.Kernel.Fallback | 04_kernel_64bit/scheduler.c:137-175 | With nothing to run a kernel thread resumes the suspended shell, anything else halts on the idle stack |
| Kernel.Kernel.Scan | 04_kernel_64bit/user_syscall.c:679-696 | The zombie child of least pid below 1000, and whether any child exists |
| Kernel.Kernel.WaitOnce | 04_kernel_64bit/user_syscall.c:672-722 | For a pid: reaps exactly the zombie child with that pid and returns the pid and the status it left, also if copying the status fails, waits for that pid, and reports no child exactly if no live child below 1000 has it; for any child: reaps the zombie of least pid; a wake-up is lost exactly if it waits while a zombie child it asked for has a pid of 1000 or more |
| Kernel.YieldLoses | 04_kernel_64bit/user_syscall.c:682-720 | That condition for the tables as values: the yield after blocking neither repairs nor causes a lost wake-up |
| Kernel.Kernel.Exec | 04_kernel_64bit/user_syscall.c:533-652 | A child is created, taken off the queue, loaded, and then gets its parent and its place in the queue; after a failed load it is destroyed and the table holds the same processes as before |
| Kernel.Kernel.Boot | 04_kernel_64bit/process.c:68-94 | The idle process alone, current, on its stack and off the queue |
| Kernel.Kernel.Step | 04_kernel_64bit/scheduler.c:95-268 | For every step from a valid state: the state is valid afterwards exactly if the step does not add a process that is queued already, a condition on the state before; otherwise no reading of the links is a queue of runnable processes; a key leaves every process blocked in waitpid alone |
| Kernel.Kernel.Run | 04_kernel_64bit/scheduler.c:95-268 | Over every run from boot, up to the first such step: every queued process can run, unique pids, inverse slots, exact count, both stack tops those of the running process, reaps only of exited children, once, by their parent and with their status, and no lost wake-up while pids stay below 1000 |
| KernelRuns.Slices | 04_kernel_64bit/interrupts.c:260-319 | The process at place n of the queue runs after n + 1 time slices: every queued process gets its turn, in order |
| KernelRuns.FailingRun | 04_kernel_64bit/process.c:296-305 | Two reads, each ended by a key before any time slice, and an exit: the freed entry of the process, with pid 0 and no stack, is what runs next |
| KernelRuns.LosesWake | 04_kernel_64bit/user_syscall.c:682-682 | A run from boot of a parent with one live child that reaps every other child until one gets pid 1000: it then blocks in waitpid although that child is a zombie |

## Left out

- FatFile.FileHandle.Session: assumes a device that does not fail; disk errors inside f_read, f_write and f_lseek are not modelled.
- FatFile.FileHandle.Open: only the tail of f_open on an existing file whose chain is known; path lookup, creation and append mode are not modelled.
- FatLfn.Register: directory slots are a sequence of entries; allocating them and moving the window over the directory are not modelled, and the short name is given.
- FatMount.MountSoundIffNoWrap: finding the boot sector and reading the FSInfo sector are not modelled.
- exFAT, partition tables, formatting, code pages and every other branch that the configuration compiles out.
- f_sync, f_truncate, f_close, directories other than long-name entries: they would add easy members.
- Vmm.Vmm.AllocTable: the page allocator is a number of frames left, from which any frame not in use is taken; that it hands out only free pages is proved in Pmm.Pmm.Alloc.
- VmmClone.Clone: a copied table is stored when it is complete; that a failed clone leaks the frames it took is visible only in the set of frames.
- TLB invalidation, the recursive slot itself and translation under 2 MB pages.
- Heap.Heap.Extend: the number of frames the page allocator can give is a parameter; the pages mapped before a failure stay mapped and are not tracked.
- Heap statistics and the stress routine: diagnostics.
- Interrupt masking in the page allocator: each call is one step.
- The user stack pages that process_create maps and clears, and argument passing in sys_exec.
- safe_copy_from_user and safe_copy_to_user_cr3: their chunk loops are of the kind proved in Elf.Fill.
- FatChain.CreateChain: after a device error only the area outside the FAT is described.
- FatChain.LinkNew: after a device error the hint and the counter are not described.
- FatChain.RemoveChain: after a device error only the area outside the FAT is described.
- FatChain.ReleaseWalk: after a device error the entries already zeroed are not described.
- Heap.Heap.Kmalloc: requests above 2^64 - 4144 are excluded, because the code then stores a header outside the heap or hands out a block that is too small (Heap.NoRegionIff, Heap.WrapsToNothing).
- Heap.Heap.Kfree: a pointer into memory that forges a used header is excluded.
- PmmInit.Init: the fields phys_addr, owner_pid and owner_virt of a page are not modelled.
- Elf.Load: program headers are given as parsed values, and segments must not share a page, because the code maps a shared page anew and drops what the earlier segment put there; ensure_hhdm_mapped is left out because data pages are reached by frame number.
- Kernel.Kernel.SwitchTo: starts from a valid state; what it does with links damaged by a second add is not modelled.
- Kernel.Kernel.Yield: starts from a valid state, for the same reason.
- Kernel.Kernel.Tick: starts from a valid state, for the same reason; the exit and the key, which cause and meet the damage, are modelled on any links.
- Kernel.Kernel.Step: ticks are steps of their own, the time slice counter is not modelled; system calls are steps of user processes only.
- Kernel.Kernel.Destroy: pages and page lists are in PageOwners.Reclaim; page tables are not freed by the code either. Destroying the running process, which the code does not do, is excluded.
- Register frames, context_switch and interrupt stubs: a switch is an atomic change of the current process.
- Exception handlers, shell, keyboard buffer, serial and VGA output.
