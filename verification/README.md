# Verified models of the Kurios2 kernel

Kurios2 is a small x86-64 kernel written in C. This project models its memory
management, its two disk file systems and a few of its compact services in Dafny, and
proves what they are for: that copy-on-write fork shows every process what eager
copying would, that no page frame is lost, that the buddy allocator's answer "no memory"
is honest, that cluster chains never cross, that a file is a byte sequence.

State that the C code updates in place is a class here, with the same loops; each
method is proved against functions and predicates on values, and the laws are lemmas
about those. Where a law turned out not to hold of the code, the code is kept, a lemma
shows the failing case, and another says exactly when the law does hold.

`dafny verify dfyconfig.toml` checks the whole project.

## Files

| files | subject |
|---|---|
| `Dyadic`, `BuddySpec`, `BuddyInit`, `Pmm` | physical pages: the buddy allocator |
| `Paging`, `PagingSteps`, `PagingInv`, `PagingMoves`, `PagingSpaces`, `PagingPrune`, `PagingNeed`, `PagingFork`, `AddressSpaces`, `CowRuns`, `PteBits`, `Vmm` | page tables, address spaces, copy-on-write, reference counts |
| `FatChains`, `Fat32`, `Lfn` | the FAT, its cache, cluster chains, long names |
| `Ext2Tree`, `Ext2Need`, `Ext2Bitmap`, `Ext2Volume`, `Ext2Blocks`, `Ext2Bytes`, `Ext2File`, `Ext2Io` | ext2 block maps, block allocation, file contents |
| `Ext2Dir`, `Ext2DirRuns` | ext2 directory blocks |
| `Slab`, `Vma`, `Mqueue`, `Checksum` | object caches, memory areas, message queues, IPv4 header checksum |
| `Bytes`, `Division`, `Sequences` | shared definitions |

## Where the code falls short

Each point names the lemma or method at a concrete input and the one that says exactly
when the law holds.

- Start-up does not merge buddies across two memory-map entries. Two entries of one page
  each leave an allocation of two pages failing beside a free aligned pair
  (`BuddyInit.SeamFails`); the free lists are fully coalesced exactly when no buddy pair
  is split between entries (`BuddyInit.CoalescedIffNoSeam`).
- `as_alloc_page` over a page that is already mapped loses the old frame
  (`CowRuns.LostFrame`). Over whole runs this is the only way to lose one
  (`CowRuns.Run`). The rollback of `as_alloc_pages` unmaps such pages for good
  (`CowRuns.PageLost`); it is exact if and only if none of the pages that could be
  afforded was mapped (`AddressSpaces.Machine.AllocUserPages`).
- The FAT free-cluster hint leaves the volume after the last cluster is allocated. The
  next search may return a cluster outside the volume (`Fat32.HintLeavesVolume`,
  `Fat32.SearchInRange`), or never end (`Fat32.SearchForever`, `Fat32.EndsExactly`).
- A failed ext2 write may have stored bytes behind the end of the file, which a later
  write shows (`Ext2Io.ShownLater`). When a write is counted in full, and when zeroes
  stay behind the end, is told from the file and the free count before the call
  (`Ext2Io.WholeCount`, `Ext2Io.TailSurvives`).
- `ext2_remove_dir_entry` merges a record into the last live record before it, even if
  an empty record lies between; the name may then still be found
  (`Ext2DirRuns.RemovedStays`), and is whenever the merged record ends at a record
  before it (`Ext2Dir.NameStays`). `Ext2Dir.RemovedExactly` says when removal is right.
- `ext2_file_read` adds offset and size in 64 bits; the read is cut at the end of the
  file if and only if the sum does not wrap (`Ext2Io.ReadCut`).
- Freeing an ext2 block twice makes the free counts wrong (`Ext2Volume.DoubleFree`).
- With one object per slab, a slab that empties stays on the partial list and is never
  given back (`Slab.FreedSlabStays`); this is so exactly with one object per slab
  (`Slab.UnusedIs`).
- `vma_find_free` adds in 64 bits. A size or a hint near 2^64 is found room that is not
  there (`Vma.WrongSize`, `Vma.WrongHint`); the answer is right exactly when
  `Vma.SearchRight` and `Vma.HintRight` say so.
- A sender woken from a full message queue that then gives up leaves other senders
  asleep beside a free place (`Mqueue.StrayedSender`). It gives up when it finds no
  memory, and always when its message has zero bytes, for which `kmalloc` returns null.
  Over every run that is the only way (`Mqueue.RunAnnounced`).
- `ip_receive` refuses a stored checksum of 65535 where the computed one is 0, although
  the header sums correctly (`Checksum.FullSumRefused`, `Checksum.AcceptsIs`).
- Names of 248 to 255 characters overrun the buffer of `fat32_create_lfn`
  (`Lfn.PaddingFits`).

## Model

| member | source | states |
|---|---|---|
| Dyadic.FlipIsBuddy | kernel/mm/pmm.c:19-21 | flipping bit k of an aligned page number gives the other half of the enclosing order-(k+1) block |
| BuddySpec.TilingMeans | kernel/mm/pmm.c:26-59 | the partition invariant in page terms: distinct blocks share no page and their pages are the usable ones |
| BuddySpec.AllocKeeps | kernel/mm/pmm.c:290-344 | a successful allocation hands out one aligned block that was free, and free and live blocks still partition the usable pages; coalescing is kept |
| BuddySpec.FreeKeeps | kernel/mm/pmm.c:349-404 | freeing a live block keeps the partition and the coalescing through every merge |
| BuddySpec.AllocFreeRoundTrip | kernel/mm/pmm.c:313-403 | from a coalesced zone, alloc_pages(k) followed by free_pages of the result restores every free list, order included |
| BuddySpec.AllocFailsHonestly | kernel/mm/pmm.c:296-309 | in a coalesced zone alloc_pages(k) fails if and only if no aligned run of 2^k pages is free |
| BuddySpec.FreeRunInOneBlock | kernel/mm/pmm.c:379-403 | in a coalesced zone every fully free aligned run lies inside one free block |
| BuddySpec.AllocTakesItsPages | kernel/mm/pmm.c:313-325 | exactly the pages of the block leave the set of free pages |
| BuddySpec.FreeReturnsItsPages | kernel/mm/pmm.c:379-403 | exactly the pages of the block return to the set of free pages |
| BuddySpec.SinglePages | kernel/mm/pmm.c:290-344 | without any coalescing, order 0 fails only if no page at all is free, and otherwise takes one free page and nothing else |
| BuddySpec.AllocPages | kernel/mm/pmm.c:327-336 | the number of free pages drops by 2^k |
| BuddySpec.FreePages | kernel/mm/pmm.c:372-403 | the number of free pages grows by 2^k, merges or not |
| BuddySpec.RunKeeps | kernel/mm/pmm.c:290-404 | over every run of calls from a coalesced zone: partition, coalescing, and honest failure at every order |
| BuddyInit.MaximalRunsTile | kernel/mm/pmm.c:215-271 | the maximal aligned runs of the usable map entries cover each usable page exactly once |
| BuddyInit.CoalescedIffNoSeam | kernel/mm/pmm.c:215-271 | the start-up lists are coalesced if and only if no buddy pair is split between two map entries |
| BuddyInit.GapsMeanNoSeam | kernel/mm/pmm.c:215-271 | entries that do not touch have no such pair |
| BuddyInit.SeamFails | kernel/mm/pmm.c:215-271 | two one-page entries: both pages are free and form an aligned pair, and an allocation of two pages fails |
| Pmm.Zone.Init | kernel/mm/pmm.c:211-285 | the greedy third pass leaves exactly the maximal runs on the lists, with exact counters and correctly linked descriptors |
| Pmm.Zone.LargestOrder | kernel/mm/pmm.c:241-261 | the inner search finds the largest aligned run of non-reserved pages at a page |
| Pmm.Zone.FreeListAdd | kernel/mm/pmm.c:26-39 | the doubly linked list gains the page at its head, all other lists keep theirs |
| Pmm.Zone.FreeListRemove | kernel/mm/pmm.c:44-59 | the doubly linked list loses exactly that page |
| Pmm.Zone.Split | kernel/mm/pmm.c:313-325 | the splitting loop computes the specification's carving |
| Pmm.Zone.AllocPages | kernel/mm/pmm.c:290-344 | linked lists, counters and reference counts follow the list specification; 0 exactly on failure |
| Pmm.Zone.BuddyTest | kernel/mm/pmm.c:379-391 | the descriptor test of the merge loop decides whether the buddy is on the free list of that order |
| Pmm.Zone.Merge | kernel/mm/pmm.c:379-403 | the merging loop computes the specification's merge |
| Pmm.Zone.FreePages | kernel/mm/pmm.c:349-404 | refused arguments change nothing; otherwise lists, counters and reference counts follow the specification |
| Paging.AlongStep | kernel/mm/vmm.h:41-44 | the four index macros lead from the PML4 down to the leaf table of the page, and back up |
| PteBits.DecodeInjective | kernel/mm/vmm.h:13-38 | the fields of an entry determine all 64 bits |
| PteBits.MapEntry | kernel/mm/as.c:318 | the stored entry has the frame's address, the caller's flags, and is present |
| PteBits.TableEntry | kernel/mm/as.c:243 | the entry of a new table has its address and is present, writable and user |
| PteBits.ShareEntry | kernel/mm/as.c:552-568 | the entry of a shared page differs only in losing write permission and gaining the copy-on-write mark |
| PteBits.SoleEntry | kernel/mm/fault.c:83 | the entry of a sole user differs only in gaining write permission and losing the mark |
| PteBits.CopyEntry | kernel/mm/fault.c:106-107 | the entry of a copy differs only in its frame, write permission and mark |
| PteBits.IndicesOfCompose | kernel/mm/as.c:546-549 | the address built from the four loop indices has those indices |
| PteBits.ComposeOfIndices | kernel/mm/vmm.h:41-44 | a page-aligned 48-bit address is built from its indices |
| PteBits.IndicesAreDigits | kernel/mm/vmm.h:41-44 | the indices are the base-512 digits of the page number |
| AddressSpaces.Machine.constructor | kernel/mm/as.c:85-93 | at the start all frames are free and no space exists |
| AddressSpaces.Machine.AllocPage | kernel/mm/pmm.c:290-344 | some free frame, or 0 exactly if there is none |
| AddressSpaces.Machine.PutPage | kernel/mm/pmm.c:457-467 | one reference less; the frame is free with the last one |
| AddressSpaces.Machine.GetPte | kernel/mm/as.c:229-293 | the leaf table of the page, missing tables made on demand and no others; null only if the page is unmapped and no frame is left; nothing visible changes |
| AddressSpaces.Machine.GetPhys | kernel/mm/as.c:355-387 | the tree walk is lookup in a finite map from pages to frames |
| AddressSpaces.Machine.MapPage | kernel/mm/as.c:298-326 | a map update; the missing tables are made, or the frames ran out and nothing visible changes; a frame mapped there before is lost and counted |
| PagingNeed.MadeMeans | kernel/mm/as.c:229-293 | the tables on the way to a page can be made if and only if there are as many free frames as missing tables |
| AddressSpaces.Machine.UnmapPage | kernel/mm/as.c:331-350 | the frame that was mapped, which is unmapped and nothing else; 0 exactly if none was |
| AddressSpaces.Machine.AllocUserPage | kernel/mm/as.c:424-454 | a zeroed page at that address and nothing else, or nothing at all; succeeds exactly if the page is in user space and there are frames for it and the missing tables |
| AddressSpaces.Machine.AllocUserPages | kernel/mm/as.c:459-470 | all pages zeroed, exactly if there are frames for them and the missing tables; otherwise the most pages that can be afforded are made and unmapped again, and the rollback is exact if and only if those were not mapped before |
| PagingNeed.AffordableBelow | kernel/mm/as.c:459-470 | fewer pages cost no more, so that most is one number |
| AddressSpaces.Machine.FreeUserPage | kernel/mm/as.c:476-487 | exactly that page is unmapped and its reference dropped |
| AddressSpaces.Machine.HandleCowFault | kernel/mm/fault.c:55-117 | no process sees any change; afterwards the page is writable; fails exactly if it is not a copy-on-write page, or it is shared and no frame is free |
| AddressSpaces.Machine.UserStore | kernel/mm/fault.c:55-117 | a store changes one word of one page of one space, whoever shared the frame; succeeds exactly if the page is writable, or copy-on-write and unshared or copied to a free frame |
| AddressSpaces.Machine.Create | kernel/mm/as.c:98-134 | a new empty space with the kernel half in place, or no change; succeeds exactly if the descriptor and one frame can be had |
| AddressSpaces.Machine.FreeTables | kernel/mm/as.c:140-165 | the whole subtree is freed and every reference in it dropped |
| AddressSpaces.Machine.Destroy | kernel/mm/as.c:170-209 | the last reference removes the space, its tables and its references and nothing else |
| AddressSpaces.Machine.ClonePage | kernel/mm/as.c:551-581 | one page shared with the child and the tables for it made; the parent sees no change; fails only if the whole fork had too few frames |
| AddressSpaces.Machine.CloneTables | kernel/mm/as.c:514-585 | the nested loops visit every mapped page of the parent once, or stop for want of frames for the whole fork |
| AddressSpaces.Machine.Clone | kernel/mm/as.c:496-594 | the child sees exactly the parent's pages and all others see no change; a failed fork restores spaces, reference counts, free frames and tables; succeeds exactly if the descriptor can be had and there are frames for a PML4 and for every table of the parent that leads to a page |
| PagingFork.ForkCost | kernel/mm/as.c:496-594 | a fork costs one frame and as many as the parent has tables on the way to its pages |
| PagingMoves.WritableIsSole | kernel/mm/as.c:556-572 | no writable entry maps a frame with more than one reference |
| PagingFork.CloneUndone | kernel/mm/as.c:574-579 | an aborted fork, dismantled, leaves the accounting as it was |
| PagingSpaces.AllFramesReturned | kernel/mm/as.c:170-209 | once every space is gone, all frames are free if and only if none was lost |
| CowRuns.ForkIsEager | kernel/mm/as.c:496-594 | what fork shows is an eager copy of all pages |
| CowRuns.Perform | kernel/mm/as.c:98-594 | every operation comes out as the state before it says, and shows every process what it would show under eager copying |
| CowRuns.Run | kernel/mm/as.c:98-594 | any sequence of creations, allocations, frees, stores, forks and destructions shows every process what eager copying would, at every point, and every outcome is the one the state before it says; frames are lost only by allocating over a mapped page, and once all spaces are destroyed all frames are free if and only if that never happened |
| CowRuns.LostFrame | kernel/mm/as.c:424-454 | six frames: a page allocated twice leaves a frame lost after the space is destroyed |
| CowRuns.PageLost | kernel/mm/as.c:459-470 | six frames: a failed range allocation takes away a page that was mapped before |
| Vmm.WalkTo | kernel/mm/vmm.c:109-173 | where a table on the way is there, the translation is the one read from it |
| Vmm.SetTrans | kernel/mm/vmm.c:193-198 | a leaf entry is the translation of its page and of no other |
| Vmm.PageTables.GetPte | kernel/mm/vmm.c:109-173 | the leaf table of the page, missing tables made on demand and no others; null only in a huge page or if no frame is left; no translation changes |
| Vmm.PageTables.MapPage | kernel/mm/vmm.c:178-201 | exactly that page is mapped, or none is; succeeds exactly if it lies in no huge page and there are frames for the missing tables |
| Vmm.PageTables.UnmapPage | kernel/mm/vmm.c:223-237 | the frame that was mapped; exactly that page is unmapped; huge pages stay |
| Vmm.PageTables.UnmapPages | kernel/mm/vmm.c:242-246 | exactly the pages of the range are unmapped; huge pages stay |
| Vmm.PageTables.MapPages | kernel/mm/vmm.c:207-218 | the whole range is mapped, exactly if it can be; otherwise the most pages that can be are mapped and unmapped again, and every translation is as before if and only if those were not mapped |
| Vmm.MappableBelow | kernel/mm/vmm.c:207-218 | fewer pages can be mapped if more can, so that most is one number |
| FatChains.NewChain | kernel/fs/fat32.c:180-218 | marking a free cluster as an end makes it a chain of its own and keeps the forest |
| FatChains.LinkChain | kernel/fs/fat32.c:247-270 | linking the end of a chain to a one-cluster chain extends it and keeps the forest |
| FatChains.PopChain | kernel/fs/fat32.c:223-240 | freeing the first cluster leaves the rest of the chain and keeps the forest |
| FatChains.CutChain | kernel/fs/fat32.c:1341-1357 | ending a chain early makes two chains and keeps the forest |
| Fat32.EntryPlace | kernel/fs/fat32.c:139-148 | the byte arithmetic of sector and offset finds the entry's word |
| Fat32.SearchComplete | kernel/fs/fat32.c:185-217 | from a start inside the volume the circular search finds a free cluster if and only if there is one |
| Fat32.SearchInRange | kernel/fs/fat32.c:185-217 | the search stays inside the volume if and only if its start does, or the entry there is not free |
| Fat32.HintLeavesVolume | kernel/fs/fat32.c:180-218 | an input for which it does not |
| Fat32.EndsExactly | kernel/fs/fat32.c:185-217 | the circular search ends if and only if it starts inside the volume, or at a free entry, or some cluster is free |
| Fat32.SearchForever | kernel/fs/fat32.c:180-218 | an input for which it does not: the hint behind the volume after the last free cluster |
| Fat32.HonestSearch | kernel/fs/fat32.c:185-217 | a search that ends inside the volume or with 0 gives 0 if and only if no cluster is free |
| Fat32.Fs.constructor | kernel/fs/fat32.c:1688-1822 | after mounting nothing is cached and the logical FAT is the one on disk |
| Fat32.Fs.Flush | kernel/fs/fat32.c:88-105 | afterwards every FAT copy equals the logical FAT |
| Fat32.Fs.CacheFatSector | kernel/fs/fat32.c:110-129 | the cached sector is the logical one, and a dirty one was written back first |
| Fat32.Fs.GetNextCluster | kernel/fs/fat32.c:134-149 | a read of the logical FAT |
| Fat32.Fs.SetCluster | kernel/fs/fat32.c:154-175 | a write of the logical FAT that keeps the top four bits |
| Fat32.Fs.AllocCluster | kernel/fs/fat32.c:180-218 | the cluster the search finds, ended and counted, is a new chain; 0 changes nothing and, on a sound volume, is given if and only if the volume is read-only or no cluster is free; a cluster outside the volume leaves the chains alone |
| Fat32.Fs.FreeChain | kernel/fs/fat32.c:223-240 | exactly that chain disappears and its clusters are free |
| Fat32.Fs.ExtendChain | kernel/fs/fat32.c:247-270 | exactly that chain is longer by one cluster, wherever in it the walk began; 0 changes nothing and is given if and only if the volume is read-only or no cluster is free |
| Fat32.Fs.Truncate | kernel/fs/fat32.c:1322-1366 | exactly that chain is cut to the clusters the size needs, the rest is free |
| Lfn.PaddingFits | kernel/fs/fat32.c:555-570 | the padded name fits the buffer if and only if it has at most 247 characters |
| Lfn.CharsBack | kernel/fs/fat32.c:442-455 | reading the characters of an entry gives those that were set |
| Lfn.Pad | kernel/fs/fat32.c:561-571 | the name, a terminator and padding up to whole entries |
| Lfn.CreateLfn | kernel/fs/fat32.c:552-592 | the entries are the parts of the padded name, last part first |
| Lfn.Assemble | kernel/fs/fat32.c:778-799 | one entry writes its characters, up to a terminator, at its place in the name |
| Lfn.RoundTrip | kernel/fs/fat32.c:552-592 | creating the entries of a name and reading them in disk order gives the name back if and only if it is 7-bit |
| Ext2Tree.GetIsSlot | kernel/fs/ext2.c:147-263 | the read path of a logical block sees exactly the slot of that block |
| Ext2Tree.SlotsApart | kernel/fs/ext2.c:147-263 | different logical blocks have different slots |
| Ext2Tree.ChangedMaps | kernel/fs/ext2.c:505-618 | the lens law: changing the slot of a logical block changes what it maps to and nothing else |
| Ext2Tree.MetaMaps | kernel/fs/ext2.c:515-605 | hanging in an indirect block changes no logical block |
| Ext2Tree.ChangedInv | kernel/fs/ext2.c:505-618 | a fresh block in one slot keeps all blocks of the file distinct |
| Ext2Bitmap.MarkIs | kernel/fs/ext2.c:287-292 | setting or clearing a bit changes that bit alone |
| Ext2Bitmap.ClearAfter | kernel/fs/ext2.c:287-302 | and the number of clear bits by one |
| Ext2Volume.TakeInv | kernel/fs/ext2.c:268-313 | allocating a block keeps the free counts exact and changes the use of that block alone |
| Ext2Volume.GiveInv | kernel/fs/ext2.c:341-378 | freeing a used block likewise |
| Ext2Volume.TakeGive | kernel/fs/ext2.c:268-378 | freeing what was just allocated restores bitmaps and counts |
| Ext2Volume.FullIffNoneFree | kernel/fs/ext2.c:268-336 | the superblock's count is 0 if and only if no block is free |
| Ext2Volume.DoubleFree | kernel/fs/ext2.c:341-378 | freeing a free block makes a count wrong |
| Ext2Blocks.NewFile | kernel/fs/ext2.c:1345-1355 | a new inode owns no block and is all holes, on every sound volume |
| Ext2File.Fs.AllocBlockInGroup | kernel/fs/ext2.c:268-313 | a free block of the group, allocated; 0 exactly if the group is full |
| Ext2File.Fs.AllocBlock | kernel/fs/ext2.c:318-336 | a free block of any group, allocated; 0 exactly if the volume is full |
| Ext2File.Fs.FreeBlock | kernel/fs/ext2.c:341-378 | refused outside the volume; otherwise the block's bit and counts change |
| Ext2File.Fs.EnsureTop | kernel/fs/ext2.c:515-540 | a missing indirect block is allocated, zeroed and hung in, or nothing changes |
| Ext2File.Fs.EnsureDind | kernel/fs/ext2.c:572-605 | the same below the double indirect block |
| Ext2File.Fs.SetBlock | kernel/fs/ext2.c:505-618 | succeeds exactly if the block is in range and the missing indirect blocks are free; then it maps to the given block and all other bytes are as before; otherwise no byte changes; the sector count stays exact and no block is lost |
| Ext2Bytes.StoreShows | kernel/fs/ext2.c:889-896 | overwriting one block of a file changes the bytes of its logical block alone |
| Ext2Bytes.GivenBack | kernel/fs/ext2.c:869-874 | when a block cannot be mapped it is free again and the file shows what it did |
| Ext2Need.NeedStep | kernel/fs/ext2.c:844-901 | what a range of logical blocks needs, holes and missing pointer blocks, is what its first block needs and what the rest needs once that block is there |
| Ext2Need.NeedOne | kernel/fs/ext2.c:852-875 | one block needs nothing if it is there, and otherwise itself and the missing pointer blocks on the way |
| Ext2Need.ThroughIs | kernel/fs/ext2.c:844-901 | the blocks of a range that can be written end at one place, behind which nothing fits |
| Ext2Io.FileRead | kernel/fs/ext2.c:762-818 | the bytes of the file from the offset on, zeroes in holes, as many as the 64-bit sum says; a slice of the byte sequence cut at the end if the sum does not wrap |
| Ext2Io.ReadCut | kernel/fs/ext2.c:771-779 | the count is cut at the end of the file if and only if offset plus size stays inside 64 bits |
| Ext2Io.FillHole | kernel/fs/ext2.c:852-875 | a hole gets a mapped block, or everything shown is as before and no block is lost |
| Ext2Io.WriteChunk | kernel/fs/ext2.c:845-896 | one chunk is laid over the file's bytes; succeeds exactly if its block is in reach and what it needs is free, and takes exactly that |
| Ext2Io.WriteAll | kernel/fs/ext2.c:844-901 | a prefix of the data is laid over the file's bytes; how long it is and how the loop ends is told from the file and the free count before it; blocks of others keep their contents |
| Ext2Io.FileWrite | kernel/fs/ext2.c:820-916 | the same with the sizes; the return code and the bytes stored are functions of the file and the free count before the call, and so is whether nothing but zeroes stays behind the end |
| Ext2Io.WholeCount | kernel/fs/ext2.c:820-916 | the whole count is returned if and only if the range is in reach and the blocks it needs are at most those free |
| Ext2Io.WroteContents | kernel/fs/ext2.c:820-916 | a counted write is a write to the byte sequence, gaps zero-filled, and nothing but zeroes lies behind the end |
| Ext2Io.WroteBelow | kernel/fs/ext2.c:869-874 | when the size is not raised the visible bytes are those of the write cut at the old end, and zeroes lie behind it if and only if the bytes stored there are zero |
| Ext2Io.TailSurvives | kernel/fs/ext2.c:869-916 | zeroes stay behind the end if and only if, as told before the call, the answer is a count or every byte that will be stored there is zero |
| Ext2Io.ShownLater | kernel/fs/ext2.c:869-916 | a volume of 1024-byte blocks, two of them free: a two-block write fails with ENOSPC behind its first block, and a later one-byte write shows two of its bytes |
| Ext2Io.Run | kernel/fs/ext2.c:820-916 | over any sequence of writes without an error the file is the byte sequence they make, i_blocks counts exactly its blocks, and no other block changes or is lost |
| Ext2Dir.PathTiles | kernel/fs/ext2.c:1080-1105 | stepping over whole records splits the block's records in two |
| Ext2Dir.FindInBlock | kernel/fs/ext2.c:1080-1105 | the inode of the first live record with the name, 0 if there is none |
| Ext2Dir.AddedEmpty | kernel/fs/ext2.c:1168-1189 | filling an empty record keeps the records tiling the block |
| Ext2Dir.AddedSplit | kernel/fs/ext2.c:1168-1189 | splitting a live record keeps them tiling and inserts the new record behind it |
| Ext2Dir.AddInBlock | kernel/fs/ext2.c:1152-1194 | the records stay a tiling with the entry inserted, or no record has room and nothing changes |
| Ext2Dir.FirstInBlock | kernel/fs/ext2.c:1209-1216 | a new block holds just the entry, in one record |
| Ext2Dir.RemoveInBlock | kernel/fs/ext2.c:1276-1312 | found if and only if a live record has the name; the first such record is removed as the code does it |
| Ext2Dir.RemovedRight | kernel/fs/ext2.c:1287-1296 | removal is right if no record before is live or the one just before is |
| Ext2Dir.RemovedWrong | kernel/fs/ext2.c:1287-1310 | the stretched record ends at the next record if and only if the record just before is live; otherwise it ends short |
| Ext2Dir.MergedTiles | kernel/fs/ext2.c:1287-1296 | the records still tile the block if and only if they did from the end of the stretched record on, and are then those up to it and those from there |
| Ext2Dir.RemovedExactly | kernel/fs/ext2.c:1276-1312 | removal takes away exactly that entry if and only if the records read from that end on, before the call, show what lies behind the record and nothing else |
| Ext2Dir.NameStays | kernel/fs/ext2.c:1287-1310 | if that end is a record at or before the one removed, the name is found as before |
| Ext2DirRuns.RemovedStays | kernel/fs/ext2.c:1287-1310 | a 1024-byte block of four records where removal reports success and the name is still found |
| Ext2DirRuns.MakeDir | kernel/fs/ext2.c:1492-1509 | a new directory's block is a tiling that maps the two dot names |
| Ext2DirRuns.LookupAgrees | kernel/fs/ext2.c:1080-1105 | lookup in the block is lookup in the map |
| Ext2DirRuns.Perform | kernel/fs/ext2.c:1152-1312 | one addition or removal is one map update; removal succeeds if and only if the name is there |
| Ext2DirRuns.Run | kernel/fs/ext2.c:1152-1312 | over any sequence of additions and removals on such a block, it stays a tiling that maps exactly the names the successful operations leave |
| Slab.ObjectsFit | kernel/mm/slab.c:101-105 | the object count, which ignores alignment, never lets objects run past the slab |
| Slab.ObjectIs | kernel/mm/slab.c:253-267 | objects lie behind the descriptor, inside the slab, and do not overlap |
| Slab.ObjectAligned | kernel/mm/slab.c:254-257 | every object has the cache's alignment |
| Slab.Configure | kernel/mm/slab.c:134-193 | the size is rounded up to the alignment and the slab has two objects or sixteen pages |
| Slab.LiveApart | kernel/mm/slab.c:238-333 | two objects in use never share a byte, and lie inside slabs of the cache |
| Slab.UnusedIs | kernel/mm/slab.c:444-461 | an unused slab is the one empty slab if and only if slabs hold more than one object, and on the partial list if and only if they hold one |
| Slab.FreedSlabStays | kernel/mm/slab.c:365-462 | a cache of 32768-byte objects: one allocation and one free leave an unused slab on the partial list |
| Slab.Cache.constructor | kernel/mm/slab.c:134-193 | a new cache has no slab and no object in use |
| Slab.Cache.CreateSlab | kernel/mm/slab.c:238-272 | a new slab beyond all others with every object free, or no change |
| Slab.Cache.Alloc | kernel/mm/slab.c:365-426 | the object returned was not in use and now is, no other changes; null only if no memory is left; in-use and free counts, list membership and the counters stay exact |
| Slab.Cache.FindSlab | kernel/mm/slab.c:338-360 | a listed slab that covers the address, if there is one |
| Slab.Cache.Free | kernel/mm/slab.c:431-462 | exactly that object is no longer in use; an unknown address changes nothing |
| Slab.Cache.Resettle | kernel/mm/slab.c:444-461 | the slab goes to the list it belongs to and at most one empty slab is kept |
| Vma.MeetsIs | kernel/mm/vma.c:226-240 | the overlap test is sharing an address |
| Vma.VmaList.Overlaps | kernel/mm/vma.c:226-240 | the early exit agrees with an exhaustive search |
| Vma.VmaList.Find | kernel/mm/vma.c:193-206 | the one area that holds the address, early exit or not |
| Vma.VmaList.FindOrNext | kernel/mm/vma.c:211-221 | that area, or the lowest one above |
| Vma.VmaList.Insert | kernel/mm/vma.c:89-116 | the list stays sorted, aligned and without overlap |
| Vma.VmaList.Create | kernel/mm/vma.c:121-163 | exactly when the aligned range is not empty and free, it is inserted |
| Vma.VmaList.Destroy | kernel/mm/vma.c:168-188 | exactly that area disappears |
| Vma.VmaList.FindFree | kernel/mm/vma.c:245-285 | the hint if it passes, else the first gap the search passes, both against the size the caller asked for; right exactly under the conditions of the next two rows |
| Vma.SearchRight | kernel/mm/vma.c:265-285 | the lowest fitting range from 0x400000, or 0 if there is none, if and only if there is room or no sum that leaves the 64 bits comes down below its limit |
| Vma.HintRight | kernel/mm/vma.c:255-263 | a hint that passes is room for the size if and only if the sum stays inside the 64 bits |
| Vma.WrongSize | kernel/mm/vma.c:245-285 | a size of 2^64 - 1 is found room on an empty list |
| Vma.WrongHint | kernel/mm/vma.c:255-263 | a hint whose range runs over an area is accepted |
| Vma.VmaList.Clone | kernel/mm/vma.c:67-84 | an equal list, or nothing if a descriptor cannot be had |
| Mqueue.WaitQueue.Add | kernel/ipc/mqueue.c:126-145 | the growable array is a queue: the thread joins at the end |
| Mqueue.WaitQueue.Wake | kernel/ipc/mqueue.c:174-188 | the first thread leaves, the others move up |
| Mqueue.PlacedKeeps | kernel/ipc/mqueue.c:92-107 | inserting behind all messages of the same or a higher priority keeps the order of priority, then age, and gains exactly the message |
| Mqueue.SentInv | kernel/ipc/mqueue.c:463-477 | a send keeps conservation, the bound, and that no receiver sleeps beside a message nobody was woken for |
| Mqueue.ReceivedInv | kernel/ipc/mqueue.c:521-547 | a receive keeps them too, and takes the oldest message of the highest priority |
| Mqueue.GaveUpInv | kernel/ipc/mqueue.c:449-461 | a sender that gives up keeps the invariant, with one stray more if it was woken |
| Mqueue.StepInv | kernel/ipc/mqueue.c:413-552 | every pass of an awake thread, however it ends, keeps conservation, the bound, the order and the wakeups |
| Mqueue.AnnouncedExactly | kernel/ipc/mqueue.c:413-552 | a pass leaves a free place unannounced to sleeping senders if and only if a woken sender gives up in it, for lack of memory or with zero bytes to send, while no more were woken than needed |
| Mqueue.RunKeeps | kernel/ipc/mqueue.c:413-552 | over every run from the empty queue the invariant holds at every point, and strays are exactly the woken senders that gave up |
| Mqueue.RunAnnounced | kernel/ipc/mqueue.c:413-552 | over every run all free places are announced at all times if and only if that never happens |
| Mqueue.DeliveredOnce | kernel/ipc/mqueue.c:485-552 | no message is delivered twice in a run |
| Mqueue.StrayedSender | kernel/ipc/mqueue.c:449-461 | a run in which that leaves a sender asleep beside a free place, with no memory or with zero bytes to send |
| Mqueue.Queue.Dequeue | kernel/ipc/mqueue.c:521-547 | the head leaves, one place is free, and the first waiting sender is woken |
| Mqueue.Queue.Enqueue | kernel/ipc/mqueue.c:463-477 | the message is queued and logged, and the first waiting receiver is woken |
| Mqueue.Queue.Insert | kernel/ipc/mqueue.c:92-107 | the list becomes the one with the message placed |
| Mqueue.Queue.Send | kernel/ipc/mqueue.c:413-480 | outcome and new state of one locked pass, in every case, are those of the step that the run theorems are about; a message of zero bytes is refused like one without memory |
| Mqueue.Queue.Receive | kernel/ipc/mqueue.c:485-552 | the same for a receive |
| Checksum.NoOverflow | kernel/net/ip.c:16-23 | up to 65537 words the 32-bit sum does not overflow |
| Checksum.Fold | kernel/net/ip.c:30-33 | a fold makes the sum smaller and keeps its one's complement value |
| Checksum.Compute | kernel/net/ip.c:16-36 | the complement of the one's complement sum (sections 1 and 2 of RFC 1071) |
| Checksum.Verifies | kernel/net/ip.c:150-152 | with the checksum stored the whole sums to all ones, and no other value does so, save 65535 for 0 |
| Checksum.SwapCommutes | kernel/net/ip.c:16-36 | swapping the bytes of every word swaps the bytes of the result (section 2(B) of RFC 1071) |
| Checksum.CheckHeader | kernel/net/ip.c:55-85 | accepts exactly the headers whose stored checksum is the computed one, and leaves the packet unchanged |
| Checksum.BuildHeader | kernel/net/ip.c:138-152 | the header ip_send builds carries the given fields and is accepted by ip_receive |
| Checksum.AcceptsIs | kernel/net/ip.c:74-85 | the check agrees with summing the whole header except for a stored 65535 where 0 is computed |
| Checksum.FullSumRefused | kernel/net/ip.c:74-85 | a header that sums to all ones and is refused |

## Left out

- Devices: block transfers, kmalloc of short-lived buffers and the mapping of heap pages succeed or fail as a parameter says; TLB and CR3 handling is not modelled.
- Pmm.Zone.Init: starts where the reserved flags are set; requires disjoint map entries inside the page array and a page count that is a multiple of the largest block, because free_pages reads the buddy's descriptor unchecked.
- The DMA zone, statistics output and the boot-time passes that set the reserved flags.
- Pmm.Zone.FreePages: requires that the block is live, because the code does not detect other frees.
- AddressSpaces.Machine.MapPage: requires that a frame mapped writable has no other reference, as all callers in kernel/mm/as.c see to; a shared frame mapped writable would end copy-on-write isolation.
- AddressSpaces.Machine.GetPhys: does not translate huge pages, which user space never has.
- AddressSpaces.Machine.AllocPage: frames are a set from which any one may come; BuddySpec.SinglePages is the link to the allocator.
- AddressSpaces.Machine.CloneTables: the four nested loops of as_clone are one loop that calls itself per level, because each level does the same.
- The per-space counter of user pages, file-backed and demand-zero faults, shared mappings, huge pages and stack growth.
- Vmm.PageTables.constructor: requires that the boot loader's tables form a tree, no table reached twice.
- Vmm.PageTables.MapPages: requires that the range ends inside the 48-bit addresses.
- vmm_get_phys of kernel/mm/vmm.c, which only reads.
- Fat32.Fs.AllocCluster: requires that the search, if it is begun, ends (Fat32.EndsExactly says when); a hint behind the last entry of the FAT itself is left out.
- Fat32.Fs.ExtendChain: requires the same.
- Fat32.EndsExactly: requires a start inside the FAT, for the same reason.
- FAT32 directory entries other than long names, short-name generation, file data.
- Lfn.CreateLfn: requires at most 247 characters, since longer names overrun the buffer.
- Ext2Volume.VolInv asks what the on-disk format promises: bits of block 0, of bitmap blocks and of places behind the last block are set. Ext2Volume.SmallIsSound gives a volume that satisfies it.
- Ext2File.Fs.SetBlock: requires a hole at the logical block, as both callers do; an overwritten pointer would lose its block.
- Ext2Io.FileWrite: requires that the write ends below 2^32, the width of the size fields; allocation and device failures inside it are left out.
- Triple indirect blocks of ext2 (the code refuses to write them), inode allocation, truncation (which leaves freed blocks mapped), symbolic links.
- Ext2Dir.AddInBlock: does not refuse a name that exists already, because the code leaves that to its callers; the runs look a name up first.
- Ext2DirRuns.Run: does not remove the dot entry, as no caller does; other blocks may come to hold empty records and then RemovedRight says when removal is right.
- Slab.Configure: requires an alignment that divides a page, as all caches have.
- Slab lists and free lists are sequences; the links inside the objects, zeroing, panics and cache destruction are left out.
- Slab.Cache.Free: requires an object in use or an address in no listed slab, as the code does not detect other frees.
- Vma.VmaList.Insert: the doubly linked list is a sequence.
- Mqueue.Queue.Send: blocking is one step; the gap between unlocking and blocking is the scheduler's matter.
- Opening, closing and attributes of message queues; UDP, TCP and ICMP behind ip_receive; scheduling, consoles, shells, ACPI and drivers.
