# Proofs about an operating-systems course repository

Five programs of the repository are modelled and proved correct, or, where the code departs from what it
should do, the exact condition under which it does it is proved.

**Demand pager** (`Mmu.dfy`, `Clock.dfy`, `PageTables.dfy`, `PagerState.dfy`, `PagerHistory.dfy`,
`PagerReach.dfy`, `Pager.dfy`, `PagerRuns.dfy`, `PagerProgress.dfy`, `PagerWitness.dfy`). `Mmu.Unit` is the
memory-management unit: physical frames, disk blocks and the mapping each client has installed, with a ghost
history of every load and store. `Paging.Pager` is the pager: frame table, block table, page tables and clock
hand, updated in place. Client processes may load and store, as far as their mappings permit, between any two
calls the pager makes to the unit. The main result is that processes see flat private memory: in every run, each
permitted load returns the last value stored to that byte, or else what the page held when it was grown; and what
that was is zero fill, or what a page of an ended process held earlier. Any other request may be served between a
fault and the retry of the instruction that faulted; how many faults an access then takes, and which allocated
addresses a process can use at all, is stated exactly. A run gives an account of itself that ties every request
and its answer to the history.

**Block file system** (`FsLayout.dfy`, `FsSteps.dfy`, `FsTreeSteps.dfy`, `FsPaths.dfy`, `FsTree.dfy`,
`FsSpace.dfy`, `FsReading.dfy`, `FsRemoval.dfy`, `FsChains.dfy`, `FsStale.dfy`, `FsEffects.dfy`,
`FileSystem.dfy`, `FsWitness.dfy`). The image is an array of blocks, each read as a superblock, inode, metadata,
free-list or data block. A ghost layout says what every block is used for; the invariant ties the two together.
Every public operation is proved to change exactly one entry of an abstract tree, to leave every other path and
file as it was, and to use or return exactly the right blocks. Paths are read as the components they spell, in
their order. Where a call goes wrong, the exact condition is proved: running out of blocks although the check
for space passed, with the sizes at which a new file does; overwriting a file that is not empty, which leaves
the image of no file system, and when reading still finds what was written; making something whose parent is
missing; and searching a directory of several inodes.

**Handshake** (`Protocol.dfy`, `ProtocolProofs.dfy`, `Handshake.dfy`, `Refinement.dfy`, `FaultScripts.dfy`). The
memory-management unit and any number of clients, as a relation of steps of single threads: an application thread
and a handler thread in each client, a server thread for each client in the unit, two message queues per client,
and one pager lock. The results hold in every interleaving. The two models of the unit are tied together: the
pager's record of what clients have mapped, which changes in single steps, is refined by the handshake, and the
changes that a fault makes come to exactly the mapping that the pager records.

**Shell** (`ShellLexer.dfy`, `ShellGrammar.dfy`, `ShellParser.dfy`, `ShellMeaning.dfy`, `ShellPrinting.dfy`,
`ShellText.dfy`, `ShellRunner.dfy`, `ShellWiring.dfy`, `Shell.dfy`). The recursive-descent parser moves a cursor
over the line and fills argument arrays in place; the runner closes, opens and duplicates descriptors of a process
one at a time. The parser is proved against the meaning of a token sequence and against the characters of the
line, printing and parsing undo each other, and what each process of a pipeline is connected to is proved from the
lowest-free-descriptor rule.

**Doubly linked list** (`Dlist.dfy`). Nodes on the heap that stand for a sequence.

## Model

| member | source | states |
|---|---|---|
| Mmu.FlatIsLastValue | TP2/mempager-assignment/src/pager.c:155-213 | reading a history forwards as a memory and backwards for the last store to a byte agree on every byte, so the promise made to processes does not depend on how it is computed |
| Mmu.Unit.Users | TP2/mempager-assignment/src/mmu.c:445-454 | any number of permitted loads and stores by any processes between two calls of the pager change only pages and frames with a writable mapping, and every load in them returns the last value of its byte; nothing happens if processes are paused |
| Mmu.Unit.Load | TP2/mempager-assignment/src/mmu.c:422-458 | a load the mapping permits returns the last value the process stored to that byte |
| Mmu.Unit.Store | TP2/mempager-assignment/src/mmu.c:422-458 | a store the mapping permits changes one byte of one process's memory and one frame |
| Mmu.Unit.Chprot | TP2/mempager-assignment/src/mmu.c:460-514 | only the protection of one page changes, while processes keep running |
| Mmu.Unit.Resident | TP2/mempager-assignment/src/mmu.c:422-458 | a page becomes reachable in a frame that already holds its contents |
| Mmu.Unit.DiskRead | TP2/mempager-assignment/src/mmu.c:516-524 | the frame gets the block's bytes, and nothing else changes but through writable mappings |
| Mmu.Unit.ZeroFill | TP2/mempager-assignment/src/mmu.c:415-420 | the frame gets the character '0', 48, in every byte |
| Mmu.Unit.DiskWrite | TP2/mempager-assignment/src/mmu.c:526-534 | the block gets exactly the bytes of a frame that nobody can write |
| Clock.Skips | TP2/mempager-assignment/src/pager.c:142-150 | at most nframes frames are passed over, each of them accessed, and the frame the hand stops at was not accessed unless all were: the loop ends within nframes + 1 steps |
| Clock.VictimIsFirst | TP2/mempager-assignment/src/pager.c:138-153 | if some frame was not accessed, the victim is the first such frame in circular order from the hand |
| Clock.VictimWhenAllAccessed | TP2/mempager-assignment/src/pager.c:138-153 | if every frame was accessed, the victim is the hand's own frame and every bit is cleared |
| Clock.ClearedArePassed | TP2/mempager-assignment/src/pager.c:144-148 | the bits cleared are exactly those of the frames the hand passed over |
| Clock.RefilledIsSpared | TP2/mempager-assignment/src/pager.c:187-198 | with two frames or more, the frame refilled by an eviction is not the next victim, whatever the other bits became |
| Clock.PlacesAreModular | TP2/mempager-assignment/src/pager.c:149 | the places that the other results about the clock count are those of the hand, taken modulo the number of frames |
| PagerState.InPage | TP2/mempager-assignment/src/pager.c:278-284 | the comparison made by the scan for a page is true of exactly the page whose index is the offset from the base divided by the page size |
| PagerState.PageOfAddress | TP2/mempager-assignment/src/pager.c:177-180 | rounding a faulting address down does not change its page, and the page exists |
| PagerState.AllocatedIff | TP2/mempager-assignment/src/pager.c:215-237 | an address has a page exactly when it lies between the base and the end of the last page |
| PagerState.SyslogOffsets | TP2/mempager-assignment/src/pager.c:229 | the byte position used for the i-th byte of a range is the byte's own position throughout exactly when the range is empty or starts a page and stays in it |
| PagerState.SyslogBytes | TP2/mempager-assignment/src/pager.c:229 | for such a range, if the page is in memory, the bytes taken are the process's own |
| PagerState.TakenOnResident | TP2/mempager-assignment/src/pager.c:229 | on a page in memory, the i-th byte taken is the process's byte at position i of the page, wherever in the page the range starts |
| PagerHistory.FilledUntilAnEnd | TP2/mempager-assignment/src/pager.c:115-136 | while no process has ended, every page starts as zero fill |
| PagerHistory.FirstLoadIsZero | TP2/mempager-assignment/src/mmu.c:415-420 | while no process has ended, the first load of any byte of a new page that was not stored to gives the character '0' |
| PagerHistory.NewPageStartsAs | TP2/mempager-assignment/src/pager.c:155-174 | what the next page in an unowned block starts with: zero fill if no dirty page was ever evicted to the block, and otherwise what the last such page held at that moment; its process has ended |
| PagerHistory.EvictExplained | TP2/mempager-assignment/src/pager.c:170-173 | after a dirty eviction, the block's bytes are those of the page in the history at that moment |
| PagerHistory.EndExplained | TP2/mempager-assignment/src/pager.c:239-252 | ending a process leaves its blocks with their bytes and used marks, so they are now explained by a page of an ended process |
| PagerState.EndedProcessShowsThrough | TP2/mempager-assignment/src/pager.c:239-252 | the contents of an ended process's swapped-out page are what the next page in that block starts with |
| PagerWitness.ReusedBlockShowsThrough | TP2/mempager-assignment/src/pager.c:239-252 | a run with one frame and two blocks, with its whole history: process 7 stores one byte, has the page evicted and ends, and the first page of process 8 starts with that byte instead of zero fill |
| PagerState.ServedKeeps | TP2/mempager-assignment/src/pager.c:158-168 | processes that run while protections are only taken away keep the paging invariant |
| PagerState.DropServedKeeps | TP2/mempager-assignment/src/pager.c:165-173 | once the victim is out of reach, writing it back if dirty and dropping it keeps every page's contents |
| PagerState.InstallKeeps | TP2/mempager-assignment/src/pager.c:195-210 | mapping a page to a frame that holds its backing restores the invariant |
| PagerState.FramesAreLive | TP2/mempager-assignment/src/pager.c:158-168 | whoever has a page in a frame is a live process |
| PageTables.LiveIsFound | TP2/mempager-assignment/src/pager.c:269-276 | the scan of the list of page tables finds the table of every live process |
| PageTables.NewTableIsFoundIff | TP2/mempager-assignment/src/pager.c:105-113 | the scan finds the table of a new process exactly if its number was never used before; otherwise it finds the freed table of an ended process |
| Paging.Pager.constructor | TP2/mempager-assignment/src/pager.c:85-103 | the tables start empty and satisfy the paging invariant |
| Paging.Pager.Create | TP2/mempager-assignment/src/pager.c:105-113 | a new process gets an empty page table at the end of the list, which is in order exactly if no process with this number has ended before |
| Paging.Pager.FindPageTable | TP2/mempager-assignment/src/pager.c:269-276 | the first table with that process number in the list, if there is one |
| Paging.Pager.GetNewFrame | TP2/mempager-assignment/src/pager.c:255-260 | the first free frame, or -1 exactly when there is none |
| Paging.Pager.GetNewBlock | TP2/mempager-assignment/src/pager.c:262-267 | the lowest block without an owner, or -1 exactly when every block is owned |
| Paging.Pager.GetPage | TP2/mempager-assignment/src/pager.c:278-284 | the scan finds the page at the index the address divides to, or none exactly when that index is not allocated |
| Paging.Pager.Extend | TP2/mempager-assignment/src/pager.c:115-136 | NULL exactly when every block is owned, and then nothing changed; otherwise the address behind the last page, counted from 0x60000000, one new page in the lowest unowned block, and every other table entry as it was; all of the page can be used exactly if it ends at 0x60100000 or before |
| Paging.Pager.SecondChance | TP2/mempager-assignment/src/pager.c:138-153 | terminates with the clock victim, the hand just behind it modulo the number of frames, and exactly the passed bits cleared |
| Paging.Pager.SwapOut | TP2/mempager-assignment/src/pager.c:155-174 | the victim alone leaves memory and is out of reach, its block is marked used exactly if the page was dirty, all other pages lose access exactly when the victim is frame 0, every page keeps its contents, and processes only loaded and stored meanwhile |
| Paging.Pager.Fault | TP2/mempager-assignment/src/pager.c:176-213 | a resident page becomes writable, dirty and accessed; another page gets the first free frame or else the clock victim's, clean and readable, and the victim is never the frame refilled last; the invariant holds again and processes only loaded and stored meanwhile |
| Paging.FaultTouches | TP2/mempager-assignment/src/pager.c:155-213 | a fault touches at most one other page, which leaves memory from the frame that is refilled, exactly if a page came in and all frames were occupied; a block is marked used exactly if it was before or a dirty page left memory for it, and only such a block gets other bytes |
| Paging.Pager.Syslog | TP2/mempager-assignment/src/pager.c:215-237 | returns -1 and prints nothing exactly when the range is not empty and leaves the allocated space; otherwise, for each position i, the byte of physical memory i places behind the start of the frame recorded for the page of that address, in whatever frame that is; on a page in memory and for i below the page size, that is the last value stored at position i of the page; so a range prints its own last values if it starts a page, stays in it, and the page is in memory |
| Paging.Pager.Destroy | TP2/mempager-assignment/src/pager.c:239-252 | exactly the process's frames and blocks are released, with the accessed and used marks as they were, the table stays in the list with its pages gone, and other processes keep everything |
| Paging.Pager.Segv | TP2/mempager-assignment/src/uvm.c:222-251 | the handler lets exactly the allocated addresses from 0x60000000 to 0x600FFFFF through; there the pager services one fault: a page that was in memory is writable and dirty, one that was out came in, readable and clean, its frame is accessed, no other page became reachable, and the rest is what a fault does; at all other addresses the process is ended |
| Paging.Pager.LoadByte | TP2/mempager-assignment/src/uvm.c:222-251 | exactly when a load gets its byte and when it ends the process; with no other request served between the fault and the retry, it takes no fault and changes nothing but the history if the page can be reached, and exactly one fault otherwise, and returns the last value stored to that byte |
| Paging.Pager.StoreByte | TP2/mempager-assignment/src/uvm.c:222-251 | exactly when a store takes place and when it ends the process; with no other request served between its faults and its retries, it takes no fault if the page can be stored to, one if it is in memory, and otherwise two, the first of which brings it in, and leaves exactly what these faults do |
| PagerRuns.Serve | TP2/mempager-assignment/src/pager.c:85-252 | what a request of each kind is answered, exactly when it is refused or ends the process, what it adds to the history, what becomes reachable, what the page tables are afterwards, and what protections, marks, frames and clock the faults of it leave; a fault is a request of its own |
| PagerRuns.Run | TP2/mempager-assignment/src/pager.c:85-252 | any sequence of requests, also with others between a fault and its retry, with processes running before, during and after each: the history only grows, the account gives the state before and after every request with its answer, all of the history is one that flat private memory could have produced, and every page started as zero fill or with what a page of an ended process held at some moment before it ended |
| PagerRuns.ReadsReturnLastValues | TP2/mempager-assignment/src/pager.c:176-213 | every read of a run at an address that can be loaded from is a load in the history, answered with the last value stored to that byte before it |
| PagerRuns.EventsAreAnswers | TP2/mempager-assignment/src/pager.c:115-252 | in a run, pages are grown and processes end only by the requests for it, or by their own faults, one event each, at the moment the account gives |
| PagerRuns.AccessesSucceedIff | TP2/mempager-assignment/src/uvm.c:222-240 | in every run, with pages that fill the managed space, an access of a live process succeeds exactly at its allocated addresses up to UVM_MAXADDR, and ends the process everywhere else |
| PagerReach.NewPageUsableIff | TP2/mempager-assignment/src/mmu.h:17-20 | all of a new page can be loaded and stored exactly if it ends at the last address, or before |
| PagerWitness.LastPageIsOutOfReach | TP2/mempager-assignment/src/uvm.c:228-232 | with 4096-byte pages and 257 blocks or more, the 257th page of a process is handed out at 0x60100000, and the first load there ends the process |
| PagerProgress.FaultSparesIff | TP2/mempager-assignment/src/pager.c:155-210 | when a page comes in, another page that could be reached stays reachable exactly if a frame was free, or the victim is neither in its frame nor in frame 0, and then it keeps its protection |
| PagerProgress.OneFaultBetween | TP2/mempager-assignment/src/pager.c:138-210 | with two frames or more, a page brought in by an eviction survives one more eviction before its process tries again exactly if that one does not fill frame 0 |
| PagerWitness.StoresCanStarve | TP2/mempager-assignment/src/pager.c:176-213 | with one frame, two processes whose faults are served in turn never get to store, for any number of rounds, each round two faults that bring a page in |
| FsTree.BlocksArePartitioned | TP2/dcc605fs-assignment/fs.c:73-107 | every block but the superblock is either on the free list or used by exactly one node, and the free list has no repetitions |
| FsReading.DirectoryIsExact | TP2/dcc605fs-assignment/fs.c:598-647 | in every state at rest, a directory's inode links exactly to its entries, its size is their number, and the names stored for them are all different |
| FsTree.FreeIsDeterminedByTree | TP2/dcc605fs-assignment/fs.c:285-363 | two images with the same nodes have the same set and number of free blocks |
| FsTree.PathUnique | TP2/dcc605fs-assignment/fs.c:478-551 | no two paths lead to the same node |
| FsTree.EveryNodeHasAPath | TP2/dcc605fs-assignment/fs.c:478-551 | every node is reached from the root |
| FsPaths.TokensSpell | TP2/dcc605fs-assignment/fs.c:499 | a path that spells components, with any slashes in front, between and behind them, is read as these components in this order |
| FsPaths.TokensAreFaithful | TP2/dcc605fs-assignment/fs.c:499 | every path is such a spelling of the components read from it, none of which is empty or holds a slash |
| FsPaths.TokensJoin | TP2/dcc605fs-assignment/fs.c:499 | a path, a slash and another path have the components of the first and then those of the second |
| FsTree.WalkIsLongestPrefix | TP2/dcc605fs-assignment/fs.c:476-551 | a walk ends at the node of the longest existing prefix, with the tokens from the first missing one on |
| FsEffects.FirstMissingIs | TP2/dcc605fs-assignment/fs.c:537-543 | what mkdir and writing make at a path that does not exist is its shortest missing prefix, in an existing directory, which is the path itself exactly if its parent exists |
| FsTree.LookupAfterAttach | TP2/dcc605fs-assignment/fs.c:678-699 | linking a new entry makes one more path exist and no other path change |
| FsTree.LookupAfterDetach | TP2/dcc605fs-assignment/fs.c:723-771 | unlinking an entry makes its path vanish and no other path change |
| FsSpace.ChunksIsCeiling | TP2/dcc605fs-assignment/fs.c:701-721 | the writing loop and its remainder use the length divided by the block size, rounded up |
| FsSpace.CostIsBlocksAndChildren | TP2/dcc605fs-assignment/fs.c:598-647 | linking data blocks one by one needs exactly one child inode for each full inode left behind |
| FsSpace.NewFileCostIs | TP2/dcc605fs-assignment/fs.c:678-721 | the closed form of the number of blocks a new file takes |
| FsSpace.CheckIsTooWeak | TP2/dcc605fs-assignment/fs.c:211-216 | the space check always asks for fewer blocks than a new file takes, so there is a gap in which `Files.FileSystem.WriteFile` runs out |
| FsSpace.NewFileFitsIff | TP2/dcc605fs-assignment/fs.c:678-721 | a new file fits into the free blocks exactly if there are two and its size is at most a number of blocks computed from them and from the links of an inode |
| FsSpace.PassesAndRunsOutIff | TP2/dcc605fs-assignment/fs.c:211-216 | exactly which sizes pass the check and then run out: with one free block, all below two blocks; with more, all from the largest file that fits to the largest that the check lets through |
| FsWitness.CheckedWriteRunsOut | TP2/dcc605fs-assignment/fs.c:211-230 | an image of 32 blocks of 128 bytes in order, with a file of 23 blocks and one free block: writing an empty file passes the check and runs out of blocks |
| FsEffects.MakingAndRemoving | TP2/dcc605fs-assignment/fs.c:285-363 | making an entry and removing it restores the nodes, the free count and the set of free blocks |
| FsEffects.OverwritingLinksFreeBlockIff | TP2/dcc605fs-assignment/fs.c:649-676 | half-way through overwriting a file, its inode links to a free block exactly when the file was not empty |
| FsStale.StaleStart | TP2/dcc605fs-assignment/fs.c:225-229 | at that point everything else is in order, and the file's first link leads to a block that is free |
| FsStale.StaleLonger | TP2/dcc605fs-assignment/fs.c:610-621 | linking one more block behind the stale links keeps everything else in order, and the first block free, linked again, or an inode of the chain |
| FsStale.StaleDeeper | TP2/dcc605fs-assignment/fs.c:622-640 | so does linking one in a new child inode |
| FsStale.StaleIsNeverAtRest | TP2/dcc605fs-assignment/fs.c:208-232 | such an image is the image of no file system, whatever its blocks are taken to mean |
| FsStale.ReadBackIff | TP2/dcc605fs-assignment/fs.c:225-268 | once a file that was not empty has been overwritten, its inodes link the stale blocks and then those of the chunks, and reading finds every chunk in its place exactly if nothing was written, or one block over a file of one block |
| FsWitness.OverwritingSpoilsTheImage | TP2/dcc605fs-assignment/fs.c:208-232 | an image of 32 blocks of 128 bytes in order, with a file /a of one byte: writing one byte to it succeeds and leaves the image of no file system |
| FsChains.ThreadedOnce | TP2/dcc605fs-assignment/fs.c:563-596 | an image determines a chain of inodes and their links from the first one on |
| FsChains.SearchMissesIff | TP2/dcc605fs-assignment/fs.c:506-534 | the search of a directory sees all entries exactly if there are at most as many as an inode has links; otherwise it sees that many and then seeks to a place where the next inode is not |
| FsEffects.FreshIsValid | TP2/dcc605fs-assignment/fs.c:69-100 | the formatted image satisfies the invariant, holds an empty root and nothing else |
| Files.FileSystem.Fresh | TP2/dcc605fs-assignment/fs.c:73-106 | the superblock, the root's inode and its metadata are in blocks 0 to 2, every block from 3 on is free and leads to the next, with blks - 4 of them counted, and there is nothing but an empty root |
| Files.FileSystem.Format | TP2/dcc605fs-assignment/fs.c:41-107 | fails exactly for a block size below 128 bytes or a file of fewer than 32 blocks, in that order |
| Files.FileSystem.GetBlock | TP2/dcc605fs-assignment/fs.c:177-190 | zero exactly when no block is counted as free, otherwise the head of the free list, which its next block replaces, and nothing else in the image changes but the superblock |
| Files.FileSystem.PutBlock | TP2/dcc605fs-assignment/fs.c:195-206 | the block becomes the head of the free list and leads to the one that was, the count grows by one, and nothing else in the image changes but the superblock |
| Files.FileSystem.LinkNode | TP2/dcc605fs-assignment/fs.c:598-647 | for any entity, in order or being overwritten: the block is appended behind the last link, in a new child inode exactly when every inode is full, the size grows by one entry or by the bytes, the terminator stays inside the block, and it runs out exactly when it needs a block and none is left |
| Files.FileSystem.WriteToFile | TP2/dcc605fs-assignment/fs.c:701-721 | runs out of blocks exactly when fewer are free than the bytes take behind the links already there; otherwise an empty file gets exactly these bytes, and a file being overwritten gets the chunks in different blocks linked behind its stale links, and exactly those blocks are used |
| Files.FileSystem.ReadFrom | TP2/dcc605fs-assignment/fs.c:247-283 | terminates and returns exactly the file's bytes, across child inodes and when the last chunk starts one |
| Files.FileSystem.CreateEntity | TP2/dcc605fs-assignment/fs.c:678-699 | runs out of blocks exactly when fewer than two are free; otherwise one new empty node with this name in the directory, two blocks fewer, the first of them for its metadata |
| Files.FileSystem.GetInodeBlock | TP2/dcc605fs-assignment/fs.c:476-551 | a full match exactly when the path exists, and then its node; otherwise the node of the longest existing prefix and the first missing token; also said of the components that the path spells, in their order |
| Files.FileSystem.FreeFileDataBlocks | TP2/dcc605fs-assignment/fs.c:649-676 | every data block and child inode of the file is put back and no other block, which are as many as the file occupied |
| Files.FileSystem.UnlinkNode | TP2/dcc605fs-assignment/fs.c:723-771 | the search finds the entry, and so the assertion after it holds, exactly if it is not the root; then the entry is taken out of its directory, the links behind it move up, and the directory's size drops by one |
| Files.FileSystem.ReadFile | TP2/dcc605fs-assignment/fs.c:234-283 | the bytes the tree holds at the path, or ENOENT exactly when there is no such path, also when its parent is missing |
| Files.FileSystem.Mkdir | TP2/dcc605fs-assignment/fs.c:311-323 | EEXIST exactly when the path exists; runs out of blocks exactly when it does not and fewer than two blocks are free; otherwise an empty directory with a name of fewer than 50 characters appears at its shortest missing prefix, and every other path and file stays |
| Files.FileSystem.WriteFile | TP2/dcc605fs-assignment/fs.c:208-232 | ENOSPC exactly when no block is free or the bytes would fill more whole blocks than are free; otherwise it runs out of blocks exactly when fewer are free than the write takes, for a new file said by its size alone; otherwise, for a path that does not exist, exactly these bytes appear at its shortest missing prefix, and for an empty file at the path, every other path and file stays, and exactly the computed blocks are used; for a file that is not empty no file system has the image that is left, and it says where the chunks are and when reading finds them |
| Files.FileSystem.Unlink | TP2/dcc605fs-assignment/fs.c:285-309 | ENOENT exactly when there is no such path, also when its parent is missing; otherwise the file vanishes, its inode heads the free list, as many blocks are free again as it occupied, and every other path and file stays |
| Files.FileSystem.Rmdir | TP2/dcc605fs-assignment/fs.c:325-363 | which error is returned exactly when, also when the parent is missing; a directory vanishes only if nothing is below it, with its two blocks free again, and every other path and file stays; only the empty root runs into the failing assertion |
| Files.FileSystem.WriteThenRead | TP2/dcc605fs-assignment/fs.c:208-283 | writing a new file of any length and reading it back returns the same bytes |
| Files.FileSystem.WriteThenUnlink | TP2/dcc605fs-assignment/fs.c:208-309 | writing a new file and unlinking it restores all nodes, the free count and the set of free blocks |
| Files.FileSystem.MkdirThenRmdir | TP2/dcc605fs-assignment/fs.c:311-363 | making a directory and removing it restores the same |
| Files.FileSystem.Drain | TP2/dcc605fs-assignment/fs.c:177-190 | taking blocks until there are none gives as many blocks as were counted, all different and all from the free list |
| Files.FileSystem.DrainThenRefill | TP2/dcc605fs-assignment/fs.c:177-206 | putting drained blocks back in any order restores the count and the set of free blocks |
| ProtocolProofs.InitialIsOK | TP2/mempager-assignment/src/uvm.c:67-125 | connected idle clients satisfy the invariant |
| ProtocolProofs.StepKeeps | TP2/mempager-assignment/src/mmu.c:205-250 | every step of every thread keeps the invariant: each request and each change of a mapping is in exactly one place |
| ProtocolProofs.RunKeeps | TP2/mempager-assignment/src/mmu.c:205-514 | the invariant holds in every state of every interleaving |
| ProtocolProofs.NoDeadlock | TP2/mempager-assignment/src/mmu.c:422-514 | while any client has something outstanding, some thread can take a step that is not a new request, also while one server thread changes another client's mappings, and whatever admissible list of changes a thread enters the pager with |
| Handshake.FaultsAreAdmissible | TP2/mempager-assignment/src/pager.c:155-213 | every list of changes that a fault can make goes to connected clients only, because the frame table only holds pages of live processes |
| ProtocolProofs.ProgressUsesWork | TP2/mempager-assignment/src/mmu.c:205-250 | every step that is not a new request uses up outstanding work |
| ProtocolProofs.ProgressIsBounded | TP2/mempager-assignment/src/mmu.c:205-250 | so only boundedly many steps can pass before everything asked for is settled |
| ProtocolProofs.ReceivesWhatItPeeked | TP2/mempager-assignment/src/mmu.c:211-241 | the message a server thread receives is the request it peeked at, which its client still waits for: no acknowledgement is ever taken by it |
| ProtocolProofs.CallsReturnApplied | TP2/mempager-assignment/src/mmu.c:445-454 | only the holder of the pager lock takes an acknowledgement, it is REMAP_REQ for a change of a frame and CHPROT_REQ for one of a protection, and the client has applied that change by then |
| ProtocolProofs.OnlyOrderedChanges | TP2/mempager-assignment/src/uvm.c:288-341 | a client only applies the change the pager is waiting for |
| ProtocolProofs.NoLostWakeup | TP2/mempager-assignment/src/uvm.c:256-286 | when a reply is handled, the application is asleep waiting for exactly that reply, in every run in which waits return only when signalled |
| ProtocolProofs.RepliesMatchRequests | TP2/mempager-assignment/src/uvm.c:127-152 | replies come one for each request, in order, and none is missing when a call has returned, in every run in which waits return only when signalled |
| ProtocolProofs.UnsignalledBreaks | TP2/mempager-assignment/src/uvm.c:127-137 | a wait that returns without a signal always breaks this: the call comes back while its request has no answer |
| Refinement.StepRefines | TP2/mempager-assignment/src/uvm.c:288-341 | every step of every thread leaves the pager's record of all mappings right as it is, or with one change made in it, or with an exited client's pages taken out |
| Refinement.StayRefines | TP2/mempager-assignment/src/mmu.c:422-514 | while a thread is in the pager, whatever the others do, clients have mapped what they had when it entered, with the changes on its list applied so far, in order, each at once, and no others |
| Refinement.SectionRefines | TP2/mempager-assignment/src/mmu.c:336-385 | from entering the pager to leaving it, exactly the thread's list of changes is made |
| FaultScripts.FaultCallsGive | TP2/mempager-assignment/src/pager.c:155-213 | the list of changes that a fault makes comes to the mapping that the pager has after it, on a resident page, with a free frame, and with a victim in frame 0 or in another |
| FaultScripts.FaultCallsAre | TP2/mempager-assignment/src/pager.c:155-213 | the list is PROT_NONE for every page that loses its protection, and then PROT_READ and PROT_WRITE for a page in memory, or PROT_READ in its frame for one that was out, at its address |
| FaultScripts.FaultRefines | TP2/mempager-assignment/src/pager.c:176-213 | a thread that services a fault may enter the pager with that list, and when it leaves, clients have mapped what the pager's state says |
| PagerProgress.FaultIsFaulted | TP2/mempager-assignment/src/pager.c:176-213 | the faults that the pager's method serves are such faults |
| ShellLexer.Cursor.GetToken | TP1/shell-assignment/sh.c:231-266 | takes exactly the first token ahead and marks its text; answers zero exactly at the end of the line |
| ShellLexer.Cursor.Peek | TP1/shell-assignment/sh.c:268-278 | true exactly when the next token is one of the given symbols, and takes no token |
| ShellGrammar.LeadingFirst | TP1/shell-assignment/sh.c:369-385 | reading the redirections ahead first, as the parser does, gives the same stage or the same error as reading token by token |
| ShellParser.ParseRedirs | TP1/shell-assignment/sh.c:334-356 | wraps the command in the redirections ahead, the last one outermost, or fails at the first one without a word; each after '<' is descriptor 0 opened for reading, and each after '>' descriptor 1 opened for writing, made if missing and emptied |
| ShellParser.ParseExec | TP1/shell-assignment/sh.c:358-388 | one stage with its words in the argument array and a null pointer behind them; the syntax error exit is unreachable and no slot outside the array is written |
| ShellParser.ParsePipe | TP1/shell-assignment/sh.c:321-332 | the tree of the tokens ahead, nested to the right, with no token left over |
| ShellParser.ParseCmd | TP1/shell-assignment/sh.c:297-311 | the tree or the first error of the line; the leftovers exit is unreachable |
| ShellMeaning.SegmentsJoin | TP1/shell-assignment/sh.c:321-332 | the stages of a line are the line cut at every bar and nowhere else |
| ShellMeaning.StageMeaning | TP1/shell-assignment/sh.c:358-388 | a stage is accepted exactly when each redirection is followed by a word and at most nine other words remain; its words are those no redirection sign stands in front of, in order |
| ShellMeaning.RedirectionBySign | TP1/shell-assignment/sh.c:206-207 | the redirections of a stage, in the order of their signs: after '<', descriptor 0 and read-only; after '>', descriptor 1, write-only, created and truncated |
| ShellMeaning.ArgumentAt | TP1/shell-assignment/sh.c:371-386 | each word that no redirection sign stands in front of is the argument at the place that the number of such words before it gives |
| ShellMeaning.LineMeaning | TP1/shell-assignment/sh.c:297-388 | a line is accepted exactly when in all its stages each redirection is followed by a word and at most nine other words remain, and its tree is made from the stages; it is rejected for no other reason |
| ShellMeaning.LineErrors | TP1/shell-assignment/sh.c:340-383 | which error a line is refused with: that of its first stage that is not acceptable, a missing file exactly if a sign without a word comes before the tenth word, and too many arguments otherwise |
| ShellPrinting.LexSpell | TP1/shell-assignment/sh.c:228-266 | tokens written with any white space between them are read back as they were |
| ShellPrinting.LexIsFaithful | TP1/shell-assignment/sh.c:228-266 | every line is its own tokens written with its own white space: nothing is lost |
| ShellText.LexAt | TP1/shell-assignment/sh.c:228-266 | a blank, tab, carriage return, newline or vertical tab anywhere in a line separates what is in front from what is behind and gives nothing; '<', '>' and the bar separate and stand for themselves |
| ShellText.LexPlain | TP1/shell-assignment/sh.c:253-258 | a text without any of these characters is one word |
| ShellText.RedirectionInText | TP1/shell-assignment/sh.c:334-356 | wherever '<' or '>' stands in the text of an accepted line, the word behind it is the file of a redirection, in the mode of that sign, of the stage with as many bars in front of it |
| ShellPrinting.SpacingIsIrrelevant | TP1/shell-assignment/sh.c:228-278 | more or other white space between tokens never changes the tree |
| ShellPrinting.RoundTrip | TP1/shell-assignment/sh.c:297-388 | any pipeline whose stages have at most nine words and any redirections, written down in any spacing, is parsed back to its tree |
| ShellPrinting.PrintingNormalizes | TP1/shell-assignment/sh.c:297-388 | the tree of every accepted line can be printed, and the printed line has the same tree |
| ShellRunner.LowestFree | TP1/shell-assignment/sh.c:88-91 | the least descriptor that is not open |
| ShellRunner.Replaced | TP1/shell-assignment/sh.c:88-90 | closing descriptor 0 or 1 and opening a file puts the file there and changes nothing else, with 0 and 1 open |
| ShellRunner.Connected | TP1/shell-assignment/sh.c:103-122 | after close, dup and two closes a child has one descriptor replaced by one pipe end and neither of the pipe's own descriptors; the parent has its old table back |
| ShellRunner.RunCmd | TP1/shell-assignment/sh.c:54-129 | the steps on descriptors come to replacing descriptor 0 or 1 and inheriting the rest, for every tree the parser makes, with 0 and 1 open at the start |
| ShellWiring.LeftmostWins | TP1/shell-assignment/sh.c:82-96 | each descriptor ends up as the leftmost redirection of it in the line |
| ShellWiring.PipelineWiring | TP1/shell-assignment/sh.c:98-126 | stage i starts with pipe i-1 as its input and pipe i as its output, for any number of stages |
| ShellWiring.StageEndsUp | TP1/shell-assignment/sh.c:54-129 | input and output of a running stage are its leftmost redirection, else the neighbouring pipe, else the shell's; no other descriptor differs from the shell's; it runs exactly when its files open and it has a word; a redirected input is open for reading and a redirected output for writing |
| ShellWiring.EndsAreExclusive | TP1/shell-assignment/sh.c:107-122 | a pipe's write end is held by its own stage only, and its read end only by the next stage and the process waiting for that stage, so readers see the end of their input |
| ShellWiring.RedirectionLandsIff | TP1/shell-assignment/sh.c:88-90 | a redirection reaches its descriptor exactly when every lower descriptor is open |
| ShellWiring.LineWiring | TP1/shell-assignment/sh.c:143-168 | an accepted line runs as the stages cut from its text say |
| ShellWiring.LineEndsUp | TP1/shell-assignment/sh.c:54-129 | by the signs in the text: what a stage of an accepted line runs has as its input the file of its first '<', opened for reading, or else the pipe, or else the shell's; and as its output the file of its first '>', opened for writing, or else the pipe, or else the shell's |
| Shell.RunLine | TP1/shell-assignment/sh.c:150-166 | a line changes the directory exactly if it starts with "cd ", to what stands between that and its last character, or to the empty path if nothing does; any other is parsed and run in a child, wired as its stages say, with redirected inputs open for reading and redirected outputs for writing, and with the shell's own descriptors as they were |
| DoublyLinked.FirstMatch | TP1/dccthread-assignment/dlist.c:85-102 | the first datum that is not null and compares equal |
| DoublyLinked.Position | TP1/dccthread-assignment/dlist.c:117-143 | where an index lies, counted from the end when negative, and none exactly when it is outside the list |
| DoublyLinked.Dlist.PushRight | TP1/dccthread-assignment/dlist.c:67-83 | the datum is appended to the sequence |
| DoublyLinked.Dlist.PopLeft | TP1/dccthread-assignment/dlist.c:25-44 | the first datum is returned and removed; an empty list gives null and stays empty |
| DoublyLinked.Dlist.PopRight | TP1/dccthread-assignment/dlist.c:46-65 | the last datum is returned and removed; an empty list gives null and stays empty |
| DoublyLinked.Dlist.FindRemove | TP1/dccthread-assignment/dlist.c:85-102 | exactly the first match is removed and returned, the rest keeps its order; without a match nothing changes |
| DoublyLinked.Dlist.GetIndex | TP1/dccthread-assignment/dlist.c:117-129 | the datum at an index of either sign, or null outside the list |
| DoublyLinked.Dlist.SetIndex | TP1/dccthread-assignment/dlist.c:131-143 | only the datum at that index changes, and nothing outside the list |
| DoublyLinked.Dlist.Empty | TP1/dccthread-assignment/dlist.c:104-115 | true exactly for the empty sequence, and its assertions hold |
| DoublyLinked.Dlist.Destroy | TP1/dccthread-assignment/dlist.c:16-23 | the callback is given every datum once, from left to right |

## Left out

Pager and memory-management unit

- Paging.Pager.Syslog: how a byte is printed (pager.c:232 prints bytes from 128 on with their sign extended), and what a position outside physical memory holds.
- Paging.Pager.constructor: every block's `page` starts as NULL, which pager.c:98-100 leaves to the allocator.
- Paging.Pager.Create: asks that no live process has this number; what the calls of a process with the number of an ended one read from the freed table is not part of this model.
- Paging.Pager.LoadByte: an address that is not the pager's counts as one the process has nothing else at; and the end of a process follows at once on the fault that its handler stops, as with `Exit` when it follows later.
- Page records are named by their process and position, and mappings by page, instead of by pointers and byte addresses; printing and logging are absent.
- `accessed` cleared does not imply that a page is out of reach: pager.c:158-163 revokes access only when the victim is frame 0, and the model does the same.

Handshake

- ProtocolProofs.NoLostWakeup: no wait returns without a signal, although uvm.c:133, 148 and 248 do not wait again if one does; `ProtocolProofs.UnsignalledBreaks` says what follows then.
- The CREATE exchange, socket failures, SIGINT, and messages split into bytes; uvm.c:207 unlocks a mutex that the exiting thread need not hold, and the model then leaves it as it is.
- The pager's calls are any bounded list of changes to connected clients, of which those that a fault makes are an instance (`Handshake.FaultsAreAdmissible`, `FaultScripts.FaultRefines`).

File system

- Files.FileSystem.WriteFile: what happens after a block was asked for and none was left (the code goes on with block 0, the superblock), and overwriting something that is a directory.
- FsStale.ReadBackIff: says in which blocks reading looks for the chunks; bytes that agree although they come from another chunk, and the recorded size, are not part of it.
- Files.FileSystem.Mkdir: what happens after it ran out of blocks, likewise; and a free link slot in the parent's inode is required.
- Files.FileSystem.CreateEntity: not applied to a directory whose inode is full, because the entry would be in a second inode, which `FsChains.SearchMissesIff` says is not found (fs.c:529).
- Files.FileSystem.GetInodeBlock: a path has a component, or is "/", and does not go on below a file, where the bytes of data blocks would be taken for block numbers; the copy of the path made at fs.c:496 is one byte shorter than what is copied, for every path, and the model has no such buffer.
- Files.FileSystem.ReadFile: not applied to a directory, and the whole file is read, because fs.c:236 does not use the buffer size.
- Files.FileSystem.Unlink: not applied to a directory, because fs.c:285-309 does not check for one.
- Files.FileSystem.UnlinkNode: directories are limited to one inode, also because fs.c:756-759 puts block 0 back.
- One block more is on the free list than `freeblks` counts (fs.c:79 and 97-100); the model keeps both as they are.
- Names are shorter than the 50 characters of the callers' buffers; stale bytes behind the end of a file's last block and wrap-around of 64-bit numbers are absent.
- fs_open, fs_close, fs_list_dir, locking and errno.

Shell

- Shell.RunLine: execvp, failing fork and pipe, and the order in which processes run; a failing open is modelled, with the outcome given by a parameter.
- ShellRunner.RunCmd: with descriptor 0 or 1 closed the result is not promised; `ShellWiring.RedirectionLandsIff` says when one redirection still works.
- Lines hold no zero character, as C strings do; the 100-character input buffer is absent.

Elsewhere

- utils.c and sh_extra.c repeat fs.c and sh.c; log.c, cyc.c, the thread library behind dccthread.h, and the grading scripts are not part of this model.
- The pager's own copy of the list is modelled as sequences; the list itself is in `Dlist.dfy`.
