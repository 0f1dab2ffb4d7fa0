# xv6: crash-safe storage, memory, processes and two small languages

A Dafny model of the hard parts of the xv6 teaching kernel and its user library, with proofs
that hold for all inputs, all runs and all sizes unless a line below says otherwise.

- **Write-ahead log** (`Log.dfy`, `LogCode.dfy`, `LogSpace.dfy`, `LogCache.dfy`): begin_op,
  log_write and end_op of any number of processes as a step machine with a crash possible
  before every single block write, also inside recovery; the loops of log.c as methods on a
  log object, each proved to be a run of that machine; and the same loops through the buffer
  cache.
- **File system** (`InodeMap.dfy`, `FileSystem.dfy`, `FileIo.dfy`, `FileWrite.dfy`,
  `Truncate.dfy`, `Ownership.dfy`, `Interleaving.dfy`, `Mkfs.dfy`, `Mount.dfy`): bitmap,
  inode blocks, block map, readi, writei, filewrite, itrunc and mkfs, as methods on a file
  system of blocks of bytes.
- **Directories and paths** (`Directory.dfy`, `DirectoryCode.dfy`, `DirectorySystem.dfy`,
  `Path.dfy`, `PathWalk.dfy`): dirlookup, dirlink, link, unlink and namex.
- **Buffer cache** (`BufferCache.dfy`): the LRU list, pinning by the log, and swapping.
- **Memory** (`Paging.dfy`, `PageAlloc.dfy`, `PageTable.dfy`, `UserMemory.dfy`,
  `AddressSpace.dfy`, `Spaces.dfy`): kalloc's list inside the free pages and the two-level
  page tables of 32-bit paging (Intel SDM volume 3A, chapter "Paging").
- **User heap** (`Heap.dfy`): the allocator of section 8.7 of Kernighan and Ritchie, 2nd ed.
- **Processes** (`SleepLock.dfy`, `ProcTable.dfy`, `ProcLife.dfy`, `ProcCode.dfy`,
  `ProcKill.dfy`, `Pipe.dfy`): sleep/wakeup and sleep locks at the level of single spin-lock
  operations, the process table at the level of ptable.lock sections, and pipes.
- **Shell and grep** (`Shell.dfy`, `ShellGrammar.dfy`, `ShellCode.dfy`, `Grep.dfy`).

An operation that can panic returns a flag that is false where the original stops; the
contract says exactly when. Disk errors, clocks, the order in which processes run and the
success of sbrk are parameters or choices of the step machines. Ghost parameters such as
`others` name the blocks or pages that belong to everybody else.

Six properties that the sources suggest do not hold as they stand; each has its exact
condition. mkfs gives the log exactly LOGSIZE blocks, so operations within their budget can
meet the "too big a transaction" panic: `LogSpace.GuardExact` and `LogSpace.FirstRefusal`.
log_write makes that test before it takes the lock, so two operations can pass it together
and the commit then overwrites the block after the log: `LogSpace.BothPass`,
`LogSpace.AtomicityLost`, and the exact conditions `LogSpace.FitsExact` and
`LogSpace.AtomicityExact`; with log.size > LOGSIZE neither happens, but a list of LOGSIZE
blocks then pins all NBUF buffers and the commit finds none: `LogCache.Commit`.
The root directory has a hole when its length is a multiple of the block size:
`Mkfs.RoundingHole` and `Mkfs.Make`. malloc returns a block that is too small when its
32-bit size computation wraps: `Heap.UnitsHoldRequest`. A reader can stay asleep beside
unread bytes, because a killed writer that gives up after storing some wakes nobody:
`Pipe.ReadersExact` and `Pipe.ForgottenReader`. A process can carry the mark of kill
although nobody named it, because kill also marks free slots: `ProcKill.MarkExact` and
`ProcKill.BornKilled`.

Where code and comments disagree the model follows the code: in the shell `>>` builds the
same node as `>`, so a file is never appended to.

## Model

| member | source | states |
|---|---|---|
| `WriteAheadLog.PutThenGetHeader` | xv6-sse-local/log.c:84-113 | reading a header block back after write_head gives the list that was written, whatever the block held before |
| `WriteAheadLog.HeaderWrite` | xv6-sse-local/log.c:98-113 | the single write of the header block switches what recovery would produce from the old committed state to the new one |
| `WriteAheadLog.InstallWrite` | xv6-sse-local/log.c:68-82 | each copy of a log block to its home leaves what recovery would produce unchanged, and one more block is at home |
| `WriteAheadLog.ClearWrite` | xv6-sse-local/log.c:192-202 | erasing the header after all blocks are installed keeps what recovery would produce, and the home blocks now equal it |
| `WriteAheadLog.StepKeeps` | xv6-sse-local/log.c:68-233 | every step of every process, with log_write as an unlocked test and a locked append, every single disk write and every crash keeps the invariant of the log, provided an append finds room on disk |
| `WriteAheadLog.AppendExact` | xv6-sse-local/log.c:223-232 | the append keeps the invariant if and only if its entry still lies inside the log on disk; the code does not test this under the lock |
| `WriteAheadLog.ShapeKeeps` | xv6-sse-local/log.c:68-233 | every step from every state, also one with too many blocks in the list, leads to a state on which the machine is defined |
| `WriteAheadLog.RunKeeps` | xv6-sse-local/log.c:68-233 | so does every run whose appends find room, of any length and interleaving, with crashes anywhere |
| `WriteAheadLog.CrashAtomicity` | xv6-sse-local/log.c:68-233 | with log.size > LOGSIZE, after any run of operations within their budgets, however the tests and appends of log_write interleave and wherever crashes fall, recovery would give the replay of exactly the updates of the last commit record that reached the disk, and each operation is in it entirely or not at all |
| `WriteAheadLog.RecoveryRestores` | xv6-sse-local/log.c:115-122 | after a crash, recovery interrupted by any number of further crashes still ends with every home block holding the last committed contents |
| `WriteAheadLog.DurableGrows` | xv6-sse-local/log.c:143-233 | what is durable stays durable in every run: the sequence of durable updates only grows at its end |
| `WriteAheadLog.QuietDisk` | xv6-sse-local/log.c:192-202 | while no commit is under way the home blocks themselves are the committed state |
| `WriteAheadLog.AllDurable` | xv6-sse-local/log.c:192-202 | a finished commit has emptied the log and made every update durable |
| `WriteAheadLog.StepReserves` | xv6-sse-local/log.c:124-163 | blocks logged plus unused budgets of running operations stay within LOGSIZE under every step within budget |
| `WriteAheadLog.LogReservation` | xv6-sse-local/log.c:124-163 | in every run within budget that sum never exceeds LOGSIZE, so a new block always finds a place in lh.block, however many processes passed the test before |
| `LogSpace.GuardExact` | xv6-sse-local/log.c:213-232 | operations within budget never meet the "too big a transaction" panic on a new block if and only if log.size > LOGSIZE |
| `LogSpace.FirstRefusal` | xv6-sse-local/mkfs.c:25-25 | with a log region of at most LOGSIZE blocks, as mkfs makes it, a concrete run within budget reaches the panic |
| `LogSpace.AbsorbedWriteRefused` | xv6-sse-local/log.c:213-232 | when the log is full even a block that would be absorbed is refused |
| `LogSpace.BothPass` | xv6-sse-local/log.c:218-230 | with 2 <= log.size <= LOGSIZE and two operations admitted, a concrete run within budget: two processes pass the test at lh.n = log.size - 2, both append, and the list has log.size entries |
| `LogSpace.FitsExact` | xv6-sse-local/log.c:213-233 | operations within budget never list more blocks than the log has after its header if and only if log.size > LOGSIZE, or only one operation is ever admitted, or log.size is 1 |
| `LogSpace.AtomicityLost` | xv6-sse-local/log.c:176-190 | that run continued into the commit: write_log overwrites the home block after the log before any header is written |
| `LogSpace.AtomicityExact` | xv6-sse-local/log.c:68-233 | crashes stay atomic in every run within budget if and only if the same condition holds, for a log that does not end the disk |
| `LogCode.Log.constructor` | xv6-sse-local/log.c:55-66 | an idle log over a disk with a legal header starts the machine in its boot state |
| `LogCode.Log.HeaderBlock` | xv6-sse-local/log.c:105-110 | the loop puts exactly the count and the entries into the header block and leaves the rest of it alone |
| `LogCode.Log.WriteHead` | xv6-sse-local/log.c:98-113 | the header on disk and in the cache is the one that encodes the list in memory |
| `LogCode.Log.ReadHeader` | xv6-sse-local/log.c:84-96 | the loop reads exactly the list the header encodes |
| `LogCode.Log.WriteLog` | xv6-sse-local/log.c:176-190 | the loop is n disk writes of the machine, after which the log holds the cached contents |
| `LogCode.Log.InstallOne` | xv6-sse-local/log.c:74-81 | one round is one disk write of the machine |
| `LogCode.Log.InstallTrans` | xv6-sse-local/log.c:68-82 | the loop is n disk writes of the machine and changes nothing that is durable |
| `LogCode.Log.Commit` | xv6-sse-local/log.c:192-202 | exactly 2n + 2 disk writes, after which every update is durable; none when nothing was logged |
| `LogCode.Log.RecoverFromLog` | xv6-sse-local/log.c:115-122 | reads the header, performs its writes, and leaves every home block with the last committed contents |
| `LogCode.Log.BeginOp` | xv6-sse-local/log.c:124-141 | admits exactly when no commit runs and the worst case of all running operations fits; otherwise nothing changes |
| `LogCode.Log.CheckWrite` | xv6-sse-local/log.c:218-221 | the test made without the lock is the test step of the machine; fails exactly when it panics |
| `LogCode.Log.AppendWrite` | xv6-sse-local/log.c:223-232 | the part under the lock is the append step of the machine, with whatever the list holds by then; the log stays sound if and only if the entry still lies inside the log |
| `LogCode.Log.Place` | xv6-sse-local/log.c:224-230 | the search reuses the entry of a block that is listed and otherwise adds one at the end |
| `LogCode.Log.EndOp` | xv6-sse-local/log.c:143-174 | the last operation out commits the group and then everything is durable; otherwise only the operation ends |
| `LogCache.Spare` | xv6-sse-local/bio.c:75-92 | in a cache nobody else reads from, a buffer can be recycled if and only if there are more buffers than blocks in the list |
| `LogCache.ReadBlock` | xv6-sse-local/bio.c:95-106 | bread returns what the log takes for the contents of the block, whatever was recycled meanwhile; it panics exactly if the block is in no buffer and none can be recycled |
| `LogCache.AppendWrite` | xv6-sse-local/log.c:223-232 | log_write on a held buffer: the pinned buffers are again exactly the blocks of the list, and reads return the new contents; the log stays sound if and only if the entry lies inside it |
| `LogCache.WriteOne` | xv6-sse-local/log.c:183-188 | one round of write_log by two breads, a bwrite and two brelses is one disk write of the machine, gives every reference back and pins and unpins nothing |
| `LogCache.WriteLog` | xv6-sse-local/log.c:176-190 | the loop through the cache; with nobody else reading it panics if and only if every buffer is pinned |
| `LogCache.PutHead` | xv6-sse-local/log.c:101-113 | write_head through the cache: exactly the header block changes, in the cache and on disk |
| `LogCache.InstallOne` | xv6-sse-local/log.c:75-80 | one round of install_trans through the cache is one disk write of the machine and takes away the pin of exactly that block |
| `LogCache.Commit` | xv6-sse-local/log.c:192-202 | commit through the cache: exactly 2n + 2 disk writes, then everything is durable and no buffer is pinned; with nobody else reading it panics if and only if the list is as long as the cache, so never in a cache at least as large as the log |
| `LogCache.RecoverFromLog` | xv6-sse-local/log.c:115-122 | recovery through the cache leaves every home block as of the last commit and nothing pinned; two buffers are enough for it |
| `LogCache.EndOp` | xv6-sse-local/log.c:143-174 | the last operation out: the same |
| `LogCache.PowerOn` | xv6-sse-local/bio.c:38-56 | an empty cache over a disk with a legal header agrees with the log at boot |
| `Heap.UnitsHoldRequest` | xv6-sse-local/umalloc.c:69-69 | the units computed hold the request if and only if the 32-bit sum does not wrap, and one unit less would not |
| `Heap.CanonicalFreeList` | xv6-sse-local/umalloc.c:24-44 | a disjoint and fully coalesced free list is determined by the units it covers |
| `Heap.Merge` | xv6-sse-local/umalloc.c:33-42 | merging two adjacent blocks keeps the covered units and disjointness |
| `Heap.Split` | xv6-sse-local/umalloc.c:77-81 | cutting a tail off a block keeps the covered units and disjointness |
| `Heap.StopsOnlyAtGap` | xv6-sse-local/umalloc.c:30-32 | the loop condition of free, wrap point included, holds at exactly one place of the circle |
| `Heap.Allocator.constructor` | xv6-sse-local/umalloc.c:21-22 | an empty heap satisfies the invariant |
| `Heap.Allocator.FindGap` | xv6-sse-local/umalloc.c:30-32 | the search terminates at the list element after which the block belongs |
| `Heap.Allocator.Free` | xv6-sse-local/umalloc.c:24-44 | the free list stays circular, sorted, disjoint and coalesced; exactly the units of the block become free; the other live blocks keep their sizes |
| `Heap.Allocator.Morecore` | xv6-sse-local/umalloc.c:46-61 | a fresh region of exactly max(nu, 4096) units above the old break joins the heap through free, or nothing changes |
| `Heap.Allocator.Scan` | xv6-sse-local/umalloc.c:74-88 | one turn of the circle finds a large enough block if there is one, and ends |
| `Heap.Allocator.TakeTail` | xv6-sse-local/umalloc.c:77-81 | the tail of a block becomes a new live block of exactly n units |
| `Heap.Allocator.TakeWhole` | xv6-sse-local/umalloc.c:75-76 | a block of exactly the right size leaves the list and becomes live |
| `Heap.Allocator.MallocUnits` | xv6-sse-local/umalloc.c:63-90 | null exactly when nothing fits and sbrk fails; otherwise one new live block of the size asked for, disjoint from all others, with every old one unchanged |
| `Heap.Allocator.Malloc` | xv6-sse-local/umalloc.c:63-90 | the same for a request in bytes, also one whose unit count wraps; the block holds the request if and only if it does not wrap, and the heap grows exactly if nothing fits |
| `InodeMap.EntryAfterSet` | xv6-sse-local/fs.c:386-396 | writing one 32-bit entry of the indirect block is read back and leaves the other 127 alone |
| `InodeMap.InodeStored` | xv6-sse-local/fs.c:226-235 | an inode block that holds the words of a dinode reads back as that dinode there, and as before at the other seven |
| `InodeMap.CopyInode` | xv6-sse-local/mkfs.c:183-195 | copying a dinode into its place of an inode block: read back it is that dinode, and the other seven are as they were |
| `InodeMap.MapSetEntry` | xv6-sse-local/fs.c:386-396 | setting an indirect entry changes the file map at exactly that index |
| `InodeMap.MapSetIndirect` | xv6-sse-local/fs.c:386-389 | a fresh zeroed indirect block maps nothing |
| `InodeMap.OwnMapped` | xv6-sse-local/fs.c:371-401 | mapping a free block gives it exactly one owner |
| `InodeMap.SpliceAt` | xv6-sse-local/fs.c:499-505 | what a write does to contents: a read of the written range gives the bytes back, and every other byte is as it was |
| `FileSystem.BitAfter` | xv6-sse-local/fs.c:66-68 | setting or clearing one bit of the bitmap changes that bit only |
| `FileSystem.MaskValues` | xv6-sse-local/fs.c:66-68 | bit 0 of a byte is the least significant one, and each bit counts twice the one before |
| `FileSystem.Fs.WhichBlock` | xv6-sse-local/fs.h:41-48 | exactly which blocks have their bits in a bitmap block, and which inodes are in an inode block |
| `FileSystem.UsedAfter` | xv6-sse-local/fs.c:55-96 | the set of used blocks gains or loses exactly the block marked or freed |
| `FileSystem.Fs.LowestFree` | xv6-sse-local/fs.c:61-75 | the two loops over bitmap blocks and bits find the lowest free block, and none exactly when every block is in use |
| `FileSystem.Fs.Balloc` | xv6-sse-local/fs.c:55-78 | takes the lowest free block, zeroed, and logs its bitmap block and itself; panics exactly when every block is in use |
| `FileSystem.Fs.Bfree` | xv6-sse-local/fs.c:80-96 | frees a block, and panics exactly when it is not in use |
| `FileSystem.Fs.Iupdate` | xv6-sse-local/fs.c:217-237 | the assignments and the copying of the addresses into the bytes of the inode block: read back, that inode is the inode in memory and every other inode on disk is as it was |
| `FileSystem.Fs.StoreInode` | xv6-sse-local/fs.c:228-233 | field by field and address by address, exactly the 16 words of the inode are stored |
| `FileSystem.Fs.Ilock` | xv6-sse-local/fs.c:299-313 | an inode read in is the one that iupdate stored last; panics exactly when its type is 0 |
| `FileSystem.Fs.BmapDirect` | xv6-sse-local/fs.c:379-383 | the direct half: the file map changes at that index at most, and only where it had no block |
| `FileSystem.Fs.BmapIndirect` | xv6-sse-local/fs.c:384-398 | the indirect half, with the indirect block allocated on demand; exactly the new bitmap, data and indirect blocks are logged |
| `FileSystem.Fs.Bmap` | xv6-sse-local/fs.c:371-401 | both halves: ownership is kept, contents of used blocks are kept, one or two blocks are allocated as needed |
| `FileIo.BytesPatched` | xv6-sse-local/fs.c:499-505 | overwriting part of one block is a splice of the bytes of the file |
| `FileIo.Readi` | xv6-sse-local/fs.c:450-477 | returns exactly the bytes [off, off + n) clipped to the size, across the direct/indirect boundary; rejects offsets past the end and 32-bit wrap; changes nothing, so bmap never allocates |
| `FileIo.MapForWrite` | xv6-sse-local/fs.c:499-503 | mapping the block for an offset keeps the file without holes and all its bytes |
| `FileIo.WriteChunk` | xv6-sse-local/fs.c:499-505 | one round of the loop splices its bytes into the file |
| `FileIo.Finish` | xv6-sse-local/fs.c:507-510 | the size grows exactly when the write went past the end, and then the inode is written through; otherwise the addresses did not change |
| `FileIo.Writei` | xv6-sse-local/fs.c:479-512 | replaces or extends exactly [off, off + n), keeps the no-hole and ownership invariants and every other block, logs exactly the write set, rejects bad ranges without change, panics if and only if fewer blocks are free than the growth needs (indirect block included), and writes the inode through whenever the addresses change |
| `FileWrite.TransactionBound` | xv6-sse-local/file.c:127-145 | every chunk of filewrite logs at most MAXOPBLOCKS distinct blocks, for any number of bitmap blocks |
| `FileWrite.TransactionCount` | xv6-sse-local/file.c:127-145 | the exact number of distinct blocks a chunk logs: data, bitmap, indirect and inode |
| `FileWrite.TransactionTight` | xv6-sse-local/file.c:127-145 | the bound is reached if and only if an unaligned chunk allocates three data blocks and the indirect block under four different bitmap blocks |
| `FileWrite.TightWrite` | xv6-sse-local/file.c:127-145 | writei itself reaches it: on every disk whose only free blocks are four blocks under four different bitmap blocks, 1536 bytes at byte 4609 of any file of that size succeed and log exactly ten blocks |
| `FileWrite.TightRun` | xv6-sse-local/file.c:127-145 | and there is such a disk: a run built from an explicit bitmap, inode table and file ends with ten blocks logged |
| `FileWrite.Transaction` | xv6-sse-local/file.c:136-141 | one transaction of filewrite: its effect on contents, offset and number of free blocks, its log budget, and exactly when balloc panics |
| `FileWrite.Filewrite` | xv6-sse-local/file.c:115-156 | one transaction for each chunk, all within budget; the bytes accepted are the whole write or the whole chunks that fit in the largest file, and the result says which; it panics if and only if fewer blocks are free than these bytes need |
| `Truncate.Itrunc` | xv6-sse-local/fs.c:403-436 | exactly the blocks of the file become free, each once, so the "freeing free block" panic is unreachable; the inode is empty and written through |
| `Truncate.FreeDirect` | xv6-sse-local/fs.c:415-420 | the loop over direct blocks frees each one and keeps ownership exact |
| `Truncate.FreeEntries` | xv6-sse-local/fs.c:425-428 | the loop over the indirect block frees each entry once |
| `SystemOwnership.OneFile` | xv6-sse-local/fs.c:371-436 | ownership over all inodes implies ownership for each inode against the rest |
| `SystemOwnership.OneFileStep` | xv6-sse-local/fs.c:371-436 | a step that keeps one file's own accounts keeps those of the whole file system, and the bytes of every other file |
| `SystemOwnership.MetaApart` | xv6-sse-local/fs.h:8-48 | bitmap and inode blocks lie among the metadata, so what a write logs besides its own blocks is nobody's data |
| `SystemOwnership.WriteFile` | xv6-sse-local/file.c:115-156 | write on one file of many, writable or not: the bitmap marks exactly metadata and reachable blocks, each with one owner, before and after; other files keep their inodes and bytes; one transaction for each chunk; panics exactly when fewer blocks are free than needed |
| `SystemOwnership.TruncateFile` | xv6-sse-local/fs.c:333-346 | the freeing half of iput on one file of many: the same, exactly its blocks are freed, and the inode on disk has type 0 |
| `Interleaving.WriteRound` | xv6-sse-local/file.c:127-152 | one round of filewrite as it finds the file when it gets the lock: it splices its chunk in, or changes nothing when refused, and touches no other file; exactly when it is refused and when balloc panics |
| `Interleaving.Isolated` | xv6-sse-local/file.c:127-145 | in every sequence of transactions by any processes, a file ends as if its own writes had been made alone, in their order |
| `Interleaving.Interleaved` | xv6-sse-local/file.c:127-145 | the rounds of one filewrite among any transactions on other files leave the file as one uninterrupted write of the same bytes would |
| `Mkfs.Image.constructor` | xv6-sse-local/mkfs.c:96-110 | an image of zero blocks with only metadata in use |
| `Mkfs.Image.Winode` | xv6-sse-local/mkfs.c:183-195 | in the bytes of the inode blocks exactly that inode changes, to exactly that record |
| `Mkfs.Image.Rinode` | xv6-sse-local/mkfs.c:197-208 | reads back the record written last |
| `Mkfs.Image.Lookup` | xv6-sse-local/mkfs.c:268-284 | the block for the end of the file, allocated from freeblock with the indirect block if needed; fails exactly when the image is full |
| `Mkfs.Image.AppendAll` | xv6-sse-local/mkfs.c:267-295 | the loop appends exactly the data; it fails exactly when the file would be too long or the image is full |
| `Mkfs.Image.Iappend` | xv6-sse-local/mkfs.c:255-297 | appends exactly the data to one file and keeps all others and the ownership invariant |
| `Mkfs.Image.Ialloc` | xv6-sse-local/mkfs.c:223-235 | a new empty inode of the given type with one link under the next number |
| `Mkfs.Image.AddFile` | xv6-sse-local/mkfs.c:126-155 | one file of the command line: its contents, type and link count and its directory entry, and exactly when there is room |
| `Mkfs.Bitmap` | xv6-sse-local/mkfs.c:237-251 | the bitmap marks exactly the first blocks; the assertion holds exactly below 4096 |
| `Mkfs.RoundingHole` | xv6-sse-local/mkfs.c:158-163 | rounding the size up leaves an inode without holes if and only if the size was not a multiple of the block size |
| `Mkfs.RootIsMap` | xv6-sse-local/mkfs.c:120-163 | the root directory, padded with zeros, maps every name to its inode, and is a map if and only if no two names, "." and ".." included, agree in their first 14 bytes |
| `Mkfs.Populate` | xv6-sse-local/mkfs.c:112-156 | all files and the root directory hold what they should; success exactly when everything fits |
| `Mkfs.Make` | xv6-sse-local/mkfs.c:67-168 | fails exactly when a file is too long or the image too small; the inode blocks hold the records of all inodes that have a place; the image satisfies the whole-file-system invariant if and only if the root directory length is not a multiple of the block size; then the root directory is its entries and zeros, and a map if and only if the names differ |
| `Mount.MakeAndMount` | xv6-sse-local/mkfs.c:67-168 | the bytes that mkfs wrote, taken as the kernel takes them, are a file system with the invariant that all kernel operations require, if and only if the root directory length is not a multiple of the block size; there is one exactly when everything fits and every inode has a place |
| `Mount.ClosedAtStart` | xv6-sse-local/mkfs.c:112-156 | every name in the new file system leads to an inode of it, and its directories are maps, if and only if the names differ |
| `Directory.NameEqual` | xv6-sse-local/fs.c:517-521 | names are equal exactly when their bytes agree up to a common end |
| `Directory.Namecmp` | xv6-sse-local/fs.c:517-521 | the strncmp loop returns 0 exactly for equal 14-byte-truncated names |
| `Directory.EntryBytesRead` | xv6-sse-local/fs.c:573-574 | an entry written by dirlink reads back as its number and truncated name |
| `Directory.LinkMaps` | xv6-sse-local/fs.c:551-579 | filling a free slot adds exactly one pair to the map and keeps names unique |
| `Directory.UnlinkMaps` | xv6-sse-local/sysfile.c:218-220 | clearing a slot removes exactly that name from the map |
| `Directory.LookupIs` | xv6-sse-local/fs.c:523-549 | looking a name up gives the value of the map that the directory is |
| `DirectoryCode.Dirlookup` | xv6-sse-local/fs.c:523-549 | the value of the map that the directory is, and where its entry stands; short reads are impossible; nothing changes |
| `DirectoryCode.FindFree` | xv6-sse-local/fs.c:565-571 | the first free slot, or the end of the directory if none is free |
| `DirectoryCode.Dirlink` | xv6-sse-local/fs.c:551-579 | refuses a name that is present, otherwise the map gains exactly (name, inum) and the directory grows only if no slot was free; every other block in use and every other inode are kept; panics if and only if no slot is free and the directory is full or the disk has too few free blocks |
| `DirectoryCode.ClearSlot` | xv6-sse-local/sysfile.c:218-220 | the slot clearing of unlink removes exactly the name, keeps the rest, every other block in use and every other inode, and never fails |
| `DirectoryCode.Isdirempty` | xv6-sse-local/sysfile.c:167-181 | true exactly when no entry beyond the first two is in use |
| `DirectorySystem.AddName` | xv6-sse-local/fs.c:551-579 | dirlink in a system of any number of files: block ownership is kept, the map gains exactly the name, and every other file keeps its bytes and its inode; panics exactly as dirlink does |
| `DirectorySystem.RemoveName` | xv6-sse-local/sysfile.c:218-220 | the same for the clearing of a slot |
| `DirectorySystem.LinkThenUnlink` | xv6-sse-local/sysfile.c:117-239 | removing the name that was added gives the map of before |
| `DirectorySystem.SetLinks` | xv6-sse-local/sysfile.c:140-141 | a changed link count is written through and changes no file |
| `DirectorySystem.LinkFile` | xv6-sse-local/sysfile.c:133-164 | link(2): the name is added and the count goes up by one, or everything on disk is as it was, the count included; refused exactly for a directory, a missing parent or a name that is taken; panics exactly as dirlink does |
| `DirectorySystem.FindName` | xv6-sse-local/fs.c:523-549 | dirlookup in the whole system |
| `DirectorySystem.EmptyDir` | xv6-sse-local/sysfile.c:167-181 | isdirempty in the whole system |
| `DirectorySystem.EmptyMeans` | xv6-sse-local/sysfile.c:167-181 | for a directory that begins with "." and "..", isdirempty tells exactly whether it has no other name |
| `DirectorySystem.UnlinkFile` | xv6-sse-local/sysfile.c:201-238 | unlink(2): the name goes, the count of the file, read as a signed number, goes down by one, and for a directory that of its parent; every other file keeps its bytes; refused exactly for ".", "..", a missing name or a directory in use, and then nothing changes; panics if and only if the name is found and the count is below 1, so a file with a link is always removed |
| `Path.ComponentsWritten` | xv6-sse-local/fs.c:584-619 | the components of a path are what was written between slashes, however many slashes there are |
| `Path.Skipelem` | xv6-sse-local/fs.c:584-619 | yields the first component, whole or its first 14 bytes, and a rest with the remaining components; null exactly when there is none |
| `Path.CutName` | xv6-sse-local/fs.c:608-613 | an element is kept whole or cut to its first 14 bytes, which name the same entry |
| `Path.Icache.Iget` | xv6-sse-local/fs.c:239-273 | one more reference to exactly that inode, never two slots for one inode, and the first empty slot is recycled; panics exactly when all slots are taken by others |
| `Path.Icache.Idup` | xv6-sse-local/fs.c:275-284 | one more reference to exactly that inode |
| `Path.Icache.Iput` | xv6-sse-local/fs.c:350-352 | one reference less to exactly that inode |
| `Path.ResolveAppend` | xv6-sse-local/fs.c:621-658 | a path is walked piece by piece: the end of the second piece is found from the end of the first |
| `Path.ParentThenName` | xv6-sse-local/fs.c:621-658 | looking the last element up in the directory that nameiparent finds is what namei does |
| `PathWalk.Step` | xv6-sse-local/fs.c:636-649 | one round of the walk: the inode is read from its block, and the name looked up in the bytes of the directory |
| `PathWalk.Follow` | xv6-sse-local/fs.c:644-650 | the walk moves its one reference from the directory to the entry; fails only when all slots are taken |
| `PathWalk.Walk.Advance` | xv6-sse-local/fs.c:635-652 | one round of namex on a file system that other processes may have changed since the round before: whatever later rounds find, the answer is the one for the trees that the rounds saw, and the walk still holds exactly one reference |
| `PathWalk.SameTree` | xv6-sse-local/fs.c:621-658 | if nothing changes during the walk, that is what the path leads to in the tree |
| `PathWalk.Namex` | xv6-sse-local/fs.c:621-658 | on every path equals the fold of lookup over the components in the tree that the disk holds (or stops one level early), changes nothing on disk, and changes reference counts only by +1 on the inode it returns |
| `BufferCache.Unlink` | xv6-sse-local/bio.c:132-133 | unlinking an element leaves a circular doubly linked list of the others |
| `BufferCache.PushFront` | xv6-sse-local/bio.c:134-137 | linking an element in at the head leaves such a list with it in front |
| `BufferCache.OneBuffer` | xv6-sse-local/bio.c:58-93 | at most one referenced or valid buffer carries each (device, block) |
| `BufferCache.FillCoherent` | xv6-sse-local/bio.c:95-106 | a block read from disk is what was last written to it |
| `BufferCache.RecycleExact` | xv6-sse-local/bio.c:79-82 | recycling a buffer keeps reads right if and only if it is not pinned, or the disk has its contents already |
| `BufferCache.PinCoherent` | xv6-sse-local/log.c:231-231 | a buffer pinned by log_write keeps the last contents in the cache |
| `BufferCache.FrontOrdered` | xv6-sse-local/bio.c:128-138 | moving a released buffer to the front keeps the list a permutation in order of last release |
| `BufferCache.Bcache.constructor` | xv6-sse-local/bio.c:38-56 | the initial list is a circular doubly linked permutation of all buffers |
| `BufferCache.Bcache.Bget` | xv6-sse-local/bio.c:58-93 | a hit only adds a reference; a miss recycles the least recently released buffer that is neither referenced nor dirty; panics exactly when the block is not cached and there is none |
| `BufferCache.Bcache.Iderw` | xv6-sse-local/memide.c:35-60 | writes a dirty buffer or reads an invalid one; panics exactly otherwise |
| `BufferCache.Bcache.Bread` | xv6-sse-local/bio.c:95-106 | returns a referenced buffer with the last contents written to that block; panics exactly as bget and iderw do |
| `BufferCache.Bcache.LogWrite` | xv6-sse-local/log.c:204-233 | the new contents are what later reads return, and stay in the cache |
| `BufferCache.Bcache.Bwrite` | xv6-sse-local/bio.c:108-116 | the new contents are what later reads return, and are on the disk |
| `BufferCache.Bcache.Brelse` | xv6-sse-local/bio.c:118-141 | the last release moves the buffer to the front of the list and nothing else |
| `BufferCache.Swapwrite` | xv6-sse-local/fs.c:691-705 | exactly the eight blocks of the page change; out-of-range numbers are refused without change; otherwise it fails only without a free buffer or beyond the device |
| `BufferCache.Swapread` | xv6-sse-local/fs.c:676-689 | returns the eight blocks last written there and changes no contents; fails only as swapwrite does |
| `BufferCache.SwapRoundTrip` | xv6-sse-local/fs.c:673-705 | on the contents: a page swapped out is still there after another swap at least a page away, and device 1 is never touched |
| `BufferCache.SwapOutAndIn` | xv6-sse-local/fs.c:673-705 | swapwrite, another swapwrite at least a page away, swapread: the page that comes back is the page that went |
| `Paging.SetPte` | xv6-sse-local/vm.c:32-55 | writing one page-table entry changes the flat table at exactly that virtual page |
| `Paging.AddTable` | xv6-sse-local/vm.c:44-53 | a fresh zeroed table page maps nothing, and its directory entry lets everything through |
| `Paging.TableDecides` | xv6-sse-local/vm.c:49-52 | what the hardware allows at a page, the conjunction of directory and table entry, is what the table entry says |
| `PageAlloc.Kmem.Kalloc` | xv6-sse-local/kalloc.c:79-95 | pops the free list threaded through the pages; null exactly when it is empty |
| `PageAlloc.Kmem.Kfree` | xv6-sse-local/kalloc.c:55-77 | fills the page with junk, links it in and pushes it; panics exactly for addresses outside managed memory; no other page changes |
| `PageAlloc.Kmem.KfreeAddress` | xv6-sse-local/kalloc.c:59-66 | kfree of an address; panics exactly for one that is not page aligned or lies outside managed memory |
| `PageAlloc.Kmem.Freerange` | xv6-sse-local/kalloc.c:46-53 | exactly the whole pages of the range become free |
| `PageTable.Walkpgdir` | xv6-sse-local/vm.c:32-55 | finds or makes the table page without changing the mapping; every present directory entry has exactly the present, writable and user bits; null exactly when the table is absent and may not or cannot be made |
| `PageTable.Mappages` | xv6-sse-local/vm.c:57-80 | maps exactly the pages of the range to consecutive frames, also one ending at 0xFFFFF000, and the hardware then allows exactly what perm says; out of memory exactly when the missing tables exceed the free pages; "remap" only if a page was mapped |
| `PageTable.Deallocuvm` | xv6-sse-local/vm.c:251-279 | the loop with its directory skip equals page-by-page removal for sizes up to KERNBASE, and the frames become free |
| `UserMemory.Allocuvm` | xv6-sse-local/vm.c:219-249 | grows by zeroed pages that the user can read and write, or leaves the mapping as it was; fails exactly when pages and missing tables exceed the free pages; no page is lost |
| `UserMemory.Freevm` | xv6-sse-local/vm.c:281-298 | the free pages afterwards are the free pages before and everything the directory owned |
| `AddressSpace.KernelMap` | xv6-sse-local/vm.c:103-115 | the four rows of kmap give the documented kernel layout |
| `AddressSpace.RowsApart` | xv6-sse-local/vm.c:103-115 | the rows do not overlap, so mapping them never panics |
| `AddressSpace.Setupkvm` | xv6-sse-local/vm.c:117-136 | a directory that maps exactly the kernel, with no page open to the user and all but its code and constants writable, or 0 with every page given back; fails exactly below 65 free pages |
| `AddressSpace.Copyuvm` | xv6-sse-local/vm.c:313-345 | equal bytes and flags on frames of its own, with the same access allowed, the original untouched; or 0 with every page given back; fails exactly when the pages of the copy exceed the free pages; panics only at a page that is not mapped, and always if it gets there |
| `Spaces.OneSpace` | xv6-sse-local/vm.c:219-345 | page conservation over all address spaces, seen from one of them |
| `Spaces.SpaceStep` | xv6-sse-local/vm.c:219-279 | growing or shrinking one address space keeps free, owned and kernel pages disjoint and adding up to all of memory, and every other mapping |
| `Spaces.SpaceBorn` | xv6-sse-local/vm.c:313-345 | so does adding the address space made by copyuvm |
| `Spaces.SpaceGone` | xv6-sse-local/vm.c:281-298 | so does freeing one |
| `Spaces.NewSpace` | xv6-sse-local/vm.c:117-136 | setupkvm among any number of address spaces: all pages stay accounted for with and without the new one, and every other space keeps its mapping and its bytes |
| `Spaces.GrowSpace` | xv6-sse-local/vm.c:219-249 | the same for allocuvm, whether or not memory suffices |
| `Spaces.ShrinkSpace` | xv6-sse-local/vm.c:251-279 | the same for deallocuvm |
| `Spaces.ForkSpace` | xv6-sse-local/vm.c:313-345 | the same for copyuvm, with the copy or without |
| `Spaces.FreeSpace` | xv6-sse-local/vm.c:281-298 | the same for freevm |
| `SleepLock.FieldByField` | xv6-sse-local/proc.c:416-475 | each step of sleep, wakeup, kill and the sleep lock changes only its own process, lock and the processes it wakes |
| `SleepLock.StepKeeps` | xv6-sse-local/sleeplock.c:22-42 | every step of every process and of the scheduler keeps the invariant |
| `SleepLock.MutualExclusion` | xv6-sse-local/sleeplock.c:22-42 | in every reachable state, for any number of processes and locks, at most one process holds a sleep lock |
| `SleepLock.AcquiredExact` | xv6-sse-local/sleeplock.c:22-42 | in every run: a process that is in no call holds exactly the locks that it acquired and has not released since, and exactly these are locked with its pid |
| `SleepLock.NotBothReturned` | xv6-sse-local/sleeplock.c:22-42 | of two processes that called acquiresleep on one lock and have not called releasesleep since, at least one has not returned |
| `SleepLock.FreeLockTaken` | xv6-sse-local/sleeplock.c:22-32 | on a free lock with nobody in its way acquiresleep returns after four steps, holding the lock and changing nothing else |
| `SleepLock.OthersLeft` | xv6-sse-local/proc.c:458-498 | a step changes another process only from asleep to runnable, and only if it wakes its channel or kills it; kill never leaves its victim asleep |
| `SleepLock.NoLostWakeup` | xv6-sse-local/proc.c:416-475 | no process sleeps on a free lock unless another holds the spin lock, has cleared locked and has yet to reach the sleeper in its wakeup scan |
| `SleepLock.WakerNotStuck` | xv6-sse-local/proc.c:416-475 | that waker, or whoever has ptable.lock, can take a step |
| `SleepLock.HoldingsleepExact` | xv6-sse-local/sleeplock.c:44-53 | locked and pid tell exactly whether the caller holds the lock |
| `ProcTable.ExitSpec` | xv6-sse-local/proc.c:251-266 | after exit the caller is a zombie, its children are init's, and nobody who waits for a zombie sleeps |
| `ProcTable.StepKeeps` | xv6-sse-local/proc.c:73-498 | every step under ptable.lock keeps the invariant of the process table |
| `ProcTable.Safety` | xv6-sse-local/proc.c:181-393 | in every reachable state: RUNNING exactly on one cpu, live parents, childless zombies, nobody asleep in wait with a zombie child |
| `ProcTable.ReapedOnce` | xv6-sse-local/proc.c:228-313 | each exited pid is a zombie until it is reaped, once; every stack and page directory handed out is either freed, once, or still owned by a slot, never both and never neither |
| `ProcLife.LifeCycle` | xv6-sse-local/proc.c:73-498 | for every step and every slot, an if-and-only-if for each state: a process is asleep after the step exactly if it goes to sleep in it, or was asleep and is neither woken through its channel nor killed; and likewise for running, zombie, unused and embryo |
| `ProcLife.FieldsAfter` | xv6-sse-local/proc.c:73-498 | likewise what becomes of the mark of kill, the pid, the parent and the channel of every slot |
| `ProcLife.CpusAfter` | xv6-sse-local/proc.c:324-394 | a cpu runs another process only by a step of the scheduler and stops only when its process yields, sleeps or exits |
| `ProcLife.KillLasts` | xv6-sse-local/proc.c:480-498 | a process that kill names is not asleep when kill returns, and carries the mark in every run until it is reaped |
| `ProcLife.WaitDecides` | xv6-sse-local/proc.c:282-311 | wait reaps if and only if some child is a zombie; otherwise it fails if and only if there is no child or the caller is killed, and sleeps if and only if neither |
| `ProcCode.Ptable.FindUnused` | xv6-sse-local/proc.c:79-91 | the first unused slot, or none |
| `ProcCode.Ptable.Wakeup1` | xv6-sse-local/proc.c:458-466 | the loop makes exactly the sleepers on the channel runnable and changes nothing else |
| `ProcCode.Ptable.Adopt` | xv6-sse-local/proc.c:256-263 | the loop with its repeated wakeups equals adoption of all children and one wakeup of init if any is a zombie |
| `ProcCode.Ptable.Exit` | xv6-sse-local/proc.c:251-266 | the locked part of exit is the exit step of the machine |
| `ProcCode.Ptable.WaitScan` | xv6-sse-local/proc.c:282-302 | the first zombie child, or whether there are children at all |
| `ProcCode.Ptable.Kill` | xv6-sse-local/proc.c:480-498 | the first slot with the pid, in use or not, is marked and, if it was asleep, runnable; every other field and slot is as it was |
| `ProcKill.MarkExact` | xv6-sse-local/proc.c:480-498 | a step leaves the mark of kill on a free slot if and only if kill finds a free slot first, or fork gives up on a child that was killed meanwhile |
| `ProcKill.KilledByName` | xv6-sse-local/proc.c:73-498 | in every run without such a step, a process is marked only if some kill named its pid while it was in use |
| `ProcKill.BornKilled` | xv6-sse-local/proc.c:480-498 | a concrete run with such a step: kill(0), then fork, and the child is born killed |
| `Pipe.FullOrEmpty` | xv6-sse-local/pipe.c:85-85 | the tests for full and empty survive the wrap of the 32-bit counters |
| `Pipe.PutByte` | xv6-sse-local/pipe.c:93-93 | storing a byte keeps every unread byte at its place in the ring |
| `Pipe.GetByte` | xv6-sse-local/pipe.c:116-116 | the byte taken is the oldest one not yet read |
| `Pipe.PipeBuffer.constructor` | xv6-sse-local/pipe.c:33-36 | an empty pipe, open at both ends: the first state of the machine |
| `Pipe.PipeBuffer.Write` | xv6-sse-local/pipe.c:78-98 | stores bytes in order until none is left or the pipe is full; returns the length if and only if none is left, whoever can read; fails if and only if some are, and the read end is closed or the caller killed; otherwise sleeps; with its wakeups it is the writer step of the machine |
| `Pipe.PipeBuffer.Read` | xv6-sse-local/pipe.c:100-121 | on an empty pipe open for writing it fails if the caller is killed and sleeps if not; otherwise it returns the oldest bytes, n of them or all there are; with its wakeups it is the reader step of the machine |
| `Pipe.PipeBuffer.Close` | xv6-sse-local/pipe.c:59-75 | with its wakeups and its kfree it is the step of the machine that closes the last descriptor of an end: nobody is left asleep on the closed end, and the page is freed exactly with the second end |
| `Pipe.Fifo` | xv6-sse-local/pipe.c:59-121 | for any mix of readers and writers: bytes read are a prefix of bytes stored, at most 512 outstanding, a write returns its length if and only if all its bytes were stored, in order, an empty read only when drained and closed, the page freed exactly once |
| `Pipe.WriteReturns` | xv6-sse-local/pipe.c:83-97 | the whole effect of one section of pipewrite on the machine, in terms of what is stored, what is returned and who sleeps |
| `Pipe.ReadReturns` | xv6-sse-local/pipe.c:105-120 | the same for piperead |
| `Pipe.ReadersExact` | xv6-sse-local/pipe.c:78-121 | a step leaves a reader asleep beside unread bytes, or on a pipe closed for writing, if and only if it is a killed writer giving up after storing bytes |
| `Pipe.NobodyForgotten` | xv6-sse-local/pipe.c:59-121 | in every run no writer sleeps beside free room or on a pipe closed for reading; nor, without such a writer, a reader beside bytes |
| `Pipe.ForgottenReader` | xv6-sse-local/pipe.c:85-92 | a concrete run with such a writer: 512 bytes stored, and the reader asleep |
| `Pipe.NoUseAfterFree` | xv6-sse-local/pipe.c:59-75 | no process is inside the pipe once its page is freed |
| `Shell.RoundTrip` | xv6-sse-local/sh.c:327-446 | for every command tree of legal words with at most MAXARGS-1 arguments, parsing its printed form gives the tree back |
| `Shell.ReadArgs` | xv6-sse-local/sh.c:415-446 | words followed by redirections are read back as printed |
| `Shell.ReadRedirs` | xv6-sse-local/sh.c:374-397 | so are redirections |
| `ShellGrammar.AcceptedExactly` | xv6-sse-local/sh.c:327-446 | the parser accepts a line if and only if its tokens are those of a syntax tree of the grammar |
| `ShellGrammar.TreeMeans` | xv6-sse-local/sh.c:327-446 | and then it returns what the tree means: "<" reads, ">" and ">>" write, blocks nest, pipes and lists group to the right, each "&" goes around what precedes it |
| `ShellCode.Gettoken` | xv6-sse-local/sh.c:265-308 | the loops find exactly the next token of the language and, for a word, its exact extent |
| `ShellCode.Peek` | xv6-sse-local/sh.c:310-320 | skips white space and tells whether one of the characters is next |
| `ShellCode.Parseredirs` | xv6-sse-local/sh.c:374-397 | agrees with the language on every input |
| `ShellCode.Parseargs` | xv6-sse-local/sh.c:429-445 | the loop agrees with the language on every input, errors included |
| `ShellCode.Parseexec` | xv6-sse-local/sh.c:415-446 | agrees with the language on every input |
| `ShellCode.Parseblock` | xv6-sse-local/sh.c:399-413 | agrees with the language on every input, errors included |
| `ShellCode.Parsepipe` | xv6-sse-local/sh.c:361-372 | agrees with the language on every input |
| `ShellCode.Parseline` | xv6-sse-local/sh.c:344-359 | agrees with the language on every input |
| `ShellCode.Parsecmd` | xv6-sse-local/sh.c:327-342 | terminates on every line with the command of the language or its error, and all words it found are whole words |
| `ShellCode.Nulterminate` | xv6-sse-local/sh.c:448-493 | writes NULs at exactly the ends of the words of the tree |
| `ShellCode.WordsIntact` | xv6-sse-local/sh.c:448-493 | no byte inside any word is overwritten, and each reads back as exactly its token |
| `ShellCode.ParsecmdInPlace` | xv6-sse-local/sh.c:327-342 | the tree read through the overwritten line is the command that the language gives the line |
| `Grep.Matchhere` | xv6-sse-local/grep.c:84-96 | succeeds exactly when a prefix of the text is in the declarative language of the pattern |
| `Grep.Matchstar` | xv6-sse-local/grep.c:98-106 | succeeds exactly when some number of fitting characters can be followed by a match of the rest |
| `Grep.Match` | xv6-sse-local/grep.c:72-82 | succeeds exactly when the declarative meaning of the pattern, anchors included, holds of the text |
| `Grep.FirstMany` | xv6-sse-local/grep.c:98-106 | in the language a starred item takes some number of fitting characters |
| `Grep.PlainFound` | xv6-sse-local/grep.c:72-106 | a pattern without special characters is found exactly where it occurs literally |
| `Grep.CharLaw` | xv6-sse-local/grep.c:93-94 | "." takes any character and every other character, where it is not an operator, itself |
| `Grep.StarLaw` | xv6-sse-local/grep.c:98-106 | c* takes any number of c and .* any number of characters |
| `Grep.WholeLine` | xv6-sse-local/grep.c:72-106 | ^w$ is found exactly in the text w, for every plain w |
| `Grep.Anchors` | xv6-sse-local/grep.c:72-106 | ^w is found exactly in texts that begin with w, and w$ exactly in those that end with it |
| `Grep.AnyBetween` | xv6-sse-local/grep.c:72-106 | a.*b is found exactly in texts with an a and a b after it, for all plain a and b |
| `Grep.ParsePrinted` | xv6-sse-local/grep.c:84-96 | how patterns are read: reading undoes printing for every pattern that can be written |
| `Grep.PrintParsed` | xv6-sse-local/grep.c:84-96 | and printing undoes reading for every text, so no two patterns are confused |

## Left out

- Heap.Allocator.Malloc: requests from 2^31 - 15 to 0xFFFFFFF8 bytes, for which the byte count handed to sbrk is negative.
- WriteAheadLog.CrashAtomicity: operations are within their budgets and log.size > LOGSIZE; `LogSpace.AtomicityExact` shows that the latter is needed. The two reads of lh.n in the test of log_write are one step, and a write past the end of lh.block, which no operation within budget makes, has no meaning.
- FileWrite.Filewrite: nothing else happens between two transactions of one write, although the lock is free there (file.c:144); what other processes may do there is the module Interleaving, in which a transaction is one step, as the inode lock and the log make it for the inodes it holds.
- SystemOwnership.WriteFile: the same.
- DirectorySystem.LinkFile: both inodes stay as they are while link(2) holds neither lock.
- DirectorySystem.UnlinkFile: the inode that the name leads to is a parameter; the iput calls at the end are `SystemOwnership.TruncateFile` and `Path.Icache.Iput`.
- DirectoryCode.Dirlookup: returns the number; the iget of that inode is `PathWalk.Follow`.
- Path.Icache.Iput: only the counting; the truncation that iput does for an inode without links or other references is `SystemOwnership.TruncateFile`, and namex is stated for inodes that keep a link or a reference.
- PathWalk.Namex: nothing else happens during the walk; with other processes at work between two lookups it is a sequence of `PathWalk.Walk.Advance`.
- PathWalk.Walk.Advance: every entry leads to an allocated inode when the round starts, the inode that the walk holds included, and an inode in memory is the one on disk.
- BufferCache.Bcache.LogWrite: only what log_write does to the buffer; with the list it is `LogCache.AppendWrite`, and its tests are `LogCode.Log.CheckWrite`.
- LogCache.Commit: when other processes hold buffers, only that it keeps the log sound, not when it panics.
- PageTable.Mappages: stated for a nonempty range that ends within the address space and a page-aligned physical address, which all callers in vm.c provide.
- PageTable.Deallocuvm: stated for an old size up to KERNBASE, which allocuvm never exceeds.
- UserMemory.Allocuvm: stated for callers whose pages above the old size are unmapped; otherwise mappages panics.
- Mkfs.Make: mkfs does not check how many files it is given, and an inode without a place in the inode blocks overwrites the bitmap; here such an inode is kept apart, and `Mount.MakeAndMount` says exactly when there is none. Names are those left after a leading underscore is dropped.
- Mkfs.Image.Winode: the same.
- FileIo.Writei: on a full disk balloc panics in the middle of the write; nothing is stated then beyond a valid bitmap with no free block.
- ProcTable.Safety: process identifiers are unbounded numbers, so the wrap of nextpid after 2^31 forks is not modelled; a context switch is one step under ptable.lock.
- SleepLock.NoLostWakeup: spin locks are atomic steps with an owner; timer interrupts outside of critical sections, which change neither locks nor channels, are not steps.
- BufferCache.Bcache.Bget: buffer locks are those of the module SleepLock; here a caller that holds a reference is taken to hold the lock while it changes the data.
- BufferCache.Bcache.Iderw: which devices and blocks exist is the domain of the disk; the command sequences of the IDE driver are not modelled.
- Device inodes in readi and writei, and ialloc.
- Exact link counts over arbitrary runs, which the code does not keep for directories that are still some process's current directory.
- create and the descriptor table beyond what pipes need: compositions of the operations modelled here.
- exec, loaduvm, inituvm, growproc, clearpteu and copyout.
- Starvation and fairness: every property is a safety property, or says that a step is possible.
- Hardware, boot code, traps, the console and the other user programs.
