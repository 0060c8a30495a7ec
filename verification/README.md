# Verified model of the Dave kernel

Dave is an x86 kernel in the xv6 tradition with a small userland.  These modules model its stateful core and
three self-contained user algorithms, and prove what they promise for all inputs, all runs and all
interleavings.

| modules | what they model |
|---|---|
| `LogCrash` | the redo log as sequences of block writes: commit, crashes between any two writes, recovery |
| `BufferCache`, `Log` | the LRU block cache and the log as the code runs them, over a disk that records every write |
| `LogAdmission` | begin_op, log_write and end_op as interleaved steps of any number of operations |
| `FsLayout`, `FsVolume`, `FsTruncate`, `Fs`, `File`, `Directory` | bitmap, inodes, block maps, file contents, filewrite's transactions, directories |
| `FsCrash` | file-system operations over the log: what a crash leaves of files |
| `Umalloc` | the user-level allocator: a circular, address-ordered, coalescing free list |
| `VmFrames`, `Vm`, `UserMemory`, `Exec` | page allocator, two-level page tables, copyout, and the stack exec builds |
| `SleepWakeup`, `SleepLock`, `PipeRing`, `Pipe`, `ProcTable` | sleep and wakeup, sleep locks, pipes, and the life cycle of processes as interleaved steps |
| `Shell`, `Regex` | the shell's parser with its in-place termination, and grep's matcher |
| `Params`, `Bytes`, `Bits`, `Sets` | limits, little-endian words, bits of a byte, counting |

How it is put together.  Code that works by assignment is modelled by classes and methods with loops: the block
cache, the log, the file system, both allocators, the page tables, the process table's scans, the pipe buffer,
the parser.  Each is proved against a value-level state with its own invariant (`BufferCache.Coherent`,
`FsVolume.Settled`, `Umalloc.Sound` and `Coalesced`, `VmFrames.Good`).  Protocols between processes are state
machines with a step for every stretch of code that runs under one lock (`SleepWakeup.Step`,
`SleepLock.LockStep`, `Pipe.PipeStep`, `ProcTable.Step`, `LogAdmission.Step`), and their theorems are about all
runs of any number of processes; the sleep lock and the pipe are built on the sleep/wakeup machine, whose
invariant they inherit.

What is taken for granted.

- A write of one block is atomic and synchronous.  Blocks that are logged lie outside the log region.
- The initial disk image satisfies the file system's invariant; mkfs is not part of this model.
- Inode numbers fit in 16 bits.  Only block devices other than 0 are cached.
- Spin locks exclude one another; sched hands ptable.lock over; memory ordering is not modelled.
- The pages of memory are typed: a page is a link of the free list, a table, or bytes.  Table entries are records
  that correspond to 32-bit words by `VmFrames.PackUnpack`.
- sbrk returns growing, header-aligned addresses.
- Where the kernel panics the model stops: a method returns `false`, 0 or the list head, and its
  contract says exactly when, by an if-and-only-if on the state before the call.

Where the code is not what one might expect.

- log_write tests for a full list before it looks for the block in it.  An operation that has used its
  MAXOPBLOCKS can therefore panic on a block that is already in the list.  `LogAdmission.AbsorbedWriteCanPanic`
  is such a run, and `LogAdmission.StepInv` says exactly when it happens.
- NBUF equals LOGSIZE, so a transaction that fills the log leaves no buffer for write_log: commit completes if
  and only if the list is shorter than NBUF (`Log.Log.Commit`), and `Log.FullGroupStops` is a run from boot to a
  commit that does not.
- malloc's rounding wraps for the seven largest requests (`Umalloc.UnitsEnough`), which then get a bare header.
  A request of 2^31 - 15 to 2^32 - 8 bytes that nothing fits makes sbrk's argument zero or negative
  (`Umalloc.TooLarge`), and malloc loses the heap in exactly that case (`Umalloc.Allocator.Malloc`,
  `Umalloc.FirstMalloc`).
- A killed writer returns from pipewrite without waking readers (`Pipe.KilledWriterStrandsReader`).  A run keeps
  what pipes promise to readers if and only if no writer does so on a full pipe while a reader sleeps
  (`Pipe.ReadersWokenIff`, `Pipe.StrandsBreaks`), so always without kills (`Pipe.ReadersWoken`), and the next
  wakeup restores it (`Pipe.WakeupRestores`).
- uva2ka does not ask whether there is a table, and without one reads the entry at address 0 of the running
  process.  copyout goes astray exactly if that word reads as an entry for users (`UserMemory.Copyout`).  In exec
  it takes one argument that reaches more than 32 MB below address 0 (`Exec.StraysIff`, `Exec.LongArgument`).
- deallocuvm's skip terminates because its callers stay below KERNBASE (`Vm.SkipArith`).
- '>' and '>>' open a file in the same mode (`Shell.LineRedirs`), and of several redirections of one descriptor the
  first takes effect, because the last written is opened first (`Shell.FirstRedirWins`).

## Model

| member | source | states |
|---|---|---|
| `LogCrash.EncodeHeadReads` | system/storage/log.c:101-113 | what write_head stores in the header block, count and block numbers, is what read_head reads back |
| `Bytes.LowByteFirst` | system/storage/log.c:101-113 | words of the header, of inodes, of the indirect block and of the user's stack are stored least significant byte first |
| `LogCrash.InstallKeepsLog` | system/storage/log.c:69-82 | after any number of install_trans copies the header and the log blocks still spell the same installation |
| `LogCrash.RecoveredHome` | system/storage/log.c:115-122 | a completed recovery leaves an empty log and home blocks with exactly the installed contents |
| `LogCrash.RecoverEmpty` | system/storage/log.c:115-122 | recovery with an empty log changes no home block |
| `LogCrash.RecoveryCrash` | system/storage/log.c:115-122 | a crash after any number of the block writes of recover_from_log, followed by a completed recovery, gives the same home blocks as an uninterrupted one |
| `LogCrash.RepeatedRecoveryCrash` | system/storage/log.c:115-122 | the same for any number of crashed recoveries in a row |
| `LogCrash.CrashBeforeHead` | system/storage/log.c:177-202 | a crash of commit up to and not including the header write recovers to the home blocks from before the transaction |
| `LogCrash.CrashAfterHead` | system/storage/log.c:192-202 | a crash of commit anywhere after the header write recovers to the home blocks with the whole transaction applied |
| `LogCrash.CommitComplete` | system/storage/log.c:192-202 | a commit that is not interrupted applies the whole transaction and empties the log |
| `LogCrash.CrashAtomicity` | system/storage/log.c:69-122 | for every transaction, every crash point of commit and every sequence of further crashes during recovery, a completed recovery leaves all of the transaction or none of it, decided by whether the header was written |
| `LogCrash.StepIdeal` | system/storage/log.c:192-202 | one commit, crashed or not, or one boot, refines the ideal disk on which committed transactions are applied atomically |
| `LogCrash.RunAtomicity` | system/storage/log.c:115-202 | over every run of commits, crashes and boots the recovered disk is the ideal disk: transactions in order, each whole or absent |
| `BufferCache.Ide.Rw` | system/storage/memide.c:38-60 | a dirty buffer is written to its block and becomes clean, any other is filled from the disk; nothing else changes |
| `BufferCache.AtMostOneBuffer` | system/storage/bio.c:62-93 | for a device other than 0 two buffers never hold the same block |
| `BufferCache.RecycleKeeps` | system/storage/bio.c:81-90 | giving a clean unreferenced buffer to a block that is not cached keeps uniqueness and coherence, so no unwritten contents are lost |
| `BufferCache.BCache.constructor` | system/storage/bio.c:38-56 | binit links all NBUF buffers into one ring, with nothing cached, nothing dirty and no reference |
| `BufferCache.BCache.Lookup` | system/storage/bio.c:69-76 | the forward scan finds the one buffer of a cached block, or the list head |
| `BufferCache.BCache.FindReusable` | system/storage/bio.c:81-91 | the backward scan finds the least recently used buffer with no references and no dirty data, and fails exactly if there is none |
| `BufferCache.BCache.Bget` | system/storage/bio.c:62-93 | returns the cached buffer with one more reference or recycles the clean unreferenced one that was least recently used; it reaches the "no buffers" panic if and only if the block is not cached and every buffer is referenced or dirty |
| `BufferCache.BCache.Bread` | system/storage/bio.c:96-106 | the buffer returned is locked, has one more reference and holds the latest contents recorded for the block; it is the one that cached the block or else the least recently used one that could be recycled; every other buffer and the disk stay as they were; it fails exactly if the block is not cached and no buffer can be recycled |
| `BufferCache.BCache.Bwrite` | system/storage/bio.c:109-116 | the disk block and the recorded contents become the buffer's data and the buffer becomes clean |
| `BufferCache.BCache.Pin` | system/storage/log.c:231-231 | marking a buffer dirty records its data as the latest contents while the disk stays as it was |
| `BufferCache.BCache.Brelse` | system/storage/bio.c:120-141 | drops the lock and one reference; at zero references the buffer moves to the front of the ring, which stays a permutation of all buffers |
| `BufferCache.BCache.MoveToFront` | system/storage/bio.c:132-137 | the six pointer assignments unlink the buffer and put it first, in both directions of the ring |
| `BufferCache.BCache.CleanAgrees` | system/storage/bio.c:62-141 | the latest contents of a block without a dirty buffer are on the disk |
| `BufferCache.BCache.DirtyFillsCache` | system/storage/bio.c:81-92 | when every buffer is dirty no other block can be brought in |
| `BufferCache.BCache.FullWhenIdle` | system/storage/bio.c:81-92 | on an idle cache no buffer can be recycled if and only if all NBUF are dirty |
| `Log.Log.CopyBlock` | system/storage/log.c:74-81 | one round of install_trans or write_log makes exactly one disk write, of the source's latest contents to the destination; on an idle cache it succeeds if and only if some buffer is not dirty, and otherwise nothing is written |
| `Log.Log.InstallTrans` | system/storage/log.c:69-82 | completes if and only if there is nothing to copy or some buffer is not dirty; then its writes, in order, are the log blocks to the home blocks in the header, and nothing is dirty; otherwise nothing is written |
| `Log.Log.WriteLog` | system/storage/log.c:177-190 | completes if and only if the list is shorter than NBUF; then its writes, in order, are the cached home blocks to the log blocks; otherwise nothing is written |
| `Log.Log.FillHead` | system/storage/log.c:107-110 | the header block holds the count and the block numbers of the in-memory header |
| `Log.Log.WriteHead` | system/storage/log.c:101-113 | succeeds if and only if some buffer is not dirty; then exactly one disk write, of the encoded header |
| `Log.Log.ReadHead` | system/storage/log.c:85-96 | succeeds if and only if some buffer is not dirty; then the in-memory header is what the header block spells; the disk is untouched |
| `Log.Log.CommitSome` | system/storage/log.c:192-202 | commit of a list that is not empty completes if and only if the list is shorter than NBUF; then its writes are the planned ones, all of them and in order, and nothing is dirty; otherwise nothing is written |
| `Log.Log.Commit` | system/storage/log.c:192-202 | completes if and only if the list is shorter than NBUF; then the trace grows by exactly CommitWrites and the disk is their replay, the home blocks have their latest contents, disk and cache agree and the log is empty; an empty list writes nothing, and neither does a commit that stops |
| `Log.Log.RecoverFromLog` | system/storage/log.c:115-122 | on a cache just emptied by boot it always completes, with exactly the planned writes of recovery, and the disk is the recovered one |
| `Log.Log.LogWrite` | system/storage/log.c:213-233 | fails exactly if the list is full or no operation is outstanding; otherwise the block is in the list once, pinned, and its data are the latest contents |
| `Log.Log.FindBlock` | system/storage/log.c:224-227 | the position of the block in the list, or the end of the list exactly if it is not there |
| `Log.Log.EndOp` | system/storage/log.c:145-174 | the last operation commits the list and returns if and only if the list is shorter than NBUF, and the others change nothing but the count; a crash after any number of the writes it makes, and any crashes in recovery, leave the home blocks of before the call or their latest contents, the latter exactly from the header write on; it writes nothing if it stops |
| `Log.Log.CommitAtomic` | system/storage/log.c:192-202 | what commit is to write is atomic: every crash point, with any crashes in recovery, gives the home blocks on the disk or those in the cache |
| `Log.Log.BeginOp` | system/storage/log.c:126-142 | admitted if and only if no commit runs and the list with MAXOPBLOCKS for every operation in progress and this one fits the log |
| `Log.Log.UpdateBlock` | system/storage/fs.c:220-236 | bread, change, log_write and brelse of one block: fails if and only if the list is full, and otherwise the block is in the list once and its new data are the latest contents, with nothing written to the disk |
| `Log.Log.HomeUpToDate` | system/storage/log.c:192-202 | between operations, the home blocks on the disk with the pending transaction applied are the latest contents |
| `Log.Log.CommitCrash` | system/storage/log.c:192-202 | any prefix of the writes by which Commit extends the trace, from Commit's own start state and under any crashes during recovery, recovers to the home blocks on the disk or to those in the cache, decided by the header write |
| `Log.FullGroupStops` | system/storage/log.c:126-202 | from boot, three admitted operations log LOGSIZE blocks within their shares and the last end_op stops in the "no buffers" panic with nothing written, because NBUF equals LOGSIZE |
| `LogAdmission.StepInv` | system/storage/log.c:126-233 | begin_op, the two halves of log_write, end_op and the steps of commit keep the invariant; log_write's test panics if and only if the list already holds LOGSIZE blocks, and only an operation that has used up its MAXOPBLOCKS can get there; its append finds the block or a free place, keeps the blocks that are in the list, and counts against the operation exactly if the list grows |
| `LogAdmission.TestInv` | system/storage/log.c:218-221 | the test log_write makes before it takes the lock panics exactly on a full list |
| `LogAdmission.AppendInv` | system/storage/log.c:223-232 | the append under the lock finds the block or a free place although others may have appended since the test |
| `LogAdmission.RunInv` | system/storage/log.c:126-233 | the invariant over every interleaving of any number of operations |
| `LogAdmission.Admission` | system/storage/log.c:126-233 | in every interleaving: committing implies that nothing is outstanding, the list has no duplicates and at most LOGSIZE blocks, an operation with budget left never meets "too big a transaction", one past log_write's unlocked test finds its block or room in the list whatever was appended since, and begin_op sleeps only while some operation or commit is to end and the log might not hold what one more operation adds |
| `LogAdmission.AbsorbedWriteCanPanic` | system/storage/log.c:213-233 | a run in which an operation logs again a block it has already logged and panics, because the full list is tested before the block is looked up in it |
| `FsLayout.MarkUsedReads` | system/storage/fs.c:66-68 | setting one bitmap bit marks that block in use and leaves every other block's bit |
| `FsLayout.MarkFreeReads` | system/storage/fs.c:87-92 | clearing one bitmap bit frees that block and leaves every other block's bit |
| `FsLayout.DinodeRoundTrip` | system/storage/fs.c:220-236 | what iupdate stores in an inode slot is what ilock reads from it |
| `FsLayout.DinodeFrame` | system/storage/fs.c:220-236 | iupdate leaves the other inodes of the block alone |
| `FsLayout.DinodeFormat` | include/fs.h:29-36 | where in the inode's 64 bytes type, device numbers, link count, size and the 13 addresses are stored |
| `FsVolume.AppendDirectKeeps` | system/storage/fs.c:378-382 | a free block entered in the first absent direct slot keeps the map, ownership and bitmap invariant |
| `FsVolume.AddIndirectKeeps` | system/storage/fs.c:386-388 | the same for the indirect block |
| `FsVolume.AppendIndirectKeeps` | system/storage/fs.c:389-395 | the same for an entry of the indirect block |
| `FsVolume.WriteDataKeeps` | system/storage/fs.c:498-504 | overwriting a data block changes no map, owner or bitmap bit |
| `FsVolume.StoredKeeps` | system/storage/fs.c:220-236 | iupdate keeps the invariant and makes that inode agree with the disk |
| `FsVolume.OneTaken` | system/storage/fs.c:42-78 | giving a free block an owner leaves exactly one free block less |
| `FsVolume.NoneFree` | system/storage/fs.c:42-78 | a bitmap with every bit set means that no block is free |
| `FsTruncate.FreeStep` | system/storage/fs.c:81-95 | freeing one block the inode owns clears a bit that is set and keeps account of what is freed |
| `FsTruncate.EmptiedKeeps` | system/storage/fs.c:407-435 | once all its blocks are freed, the volume without the inode's blocks is in order |
| `FsTruncate.EmptiedFree` | system/storage/fs.c:407-435 | emptying a file adds to the free blocks exactly as many as its size took, the indirect block included |
| `Fs.FileSystem.Balloc` | system/storage/fs.c:42-78 | the lowest free block, marked and zeroed, or the panic if and only if the volume has no free block; a block that belongs to a file is never handed out, and every block that changes is logged |
| `Fs.FileSystem.FindFree` | system/storage/fs.c:64-67 | the first clear bit of a bitmap block |
| `Fs.FileSystem.Bmap` | system/storage/fs.c:372-400 | the address of a mapped block without any change, or exactly one new last block of the file; it panics if and only if fewer blocks are free than it has to allocate (none, one, or two with the indirect block), and otherwise exactly so many become used; every block that changes is logged |
| `Fs.FileSystem.Iupdate` | system/storage/fs.c:220-236 | the on-disk inode becomes the in-memory one, and only its block is changed and logged |
| `Fs.FileSystem.WriteLoop` | system/storage/fs.c:498-504 | the bytes land at [off, off+n) across direct, indirect and unaligned blocks and other files are unchanged; it completes if and only if the free blocks suffice for those the range lacks, and uses exactly so many; what is logged is bounded and includes every block that changes |
| `Fs.FileSystem.Writei` | system/storage/fs.c:481-511 | -1 exactly for a bad range, with no change; otherwise it completes if and only if the volume affords the new size, and then the content is the old one with the bytes spliced in, type, device and link count of the inode are as they were, every other file is unchanged, every inode agrees with the disk, free blocks and the blocks of the file add up to what they did, at most LogBound blocks are logged and every block that changes is among them |
| `Fs.FileSystem.Readi` | system/storage/fs.c:452-476 | -1 exactly for a bad range; otherwise the slice of the content clipped to the size; nothing is allocated, logged or changed |
| `Fs.FileSystem.Bfree` | system/storage/fs.c:81-95 | clears the bit, or the "freeing free block" panic exactly if the bit is clear; the bitmap block that changes is logged and no other |
| `Fs.FileSystem.Itrunc` | system/storage/fs.c:407-435 | never reaches that panic; frees exactly the file's blocks, so that the free blocks grow by as many as its size took, empties it on disk too and leaves every other file; every block that changes is logged, and nothing is logged but bitmap blocks and the inode's block |
| `Fs.GrownOthers` | system/storage/fs.c:372-400 | growing one file leaves the bytes of every other |
| `Fs.NeedsSettled` | system/storage/fs.c:481-511 | on a settled volume the blocks a write allocates are those the new size takes less those the old size took |
| `Fs.PatchedBytes` | system/storage/fs.c:498-504 | writing part of one block changes exactly those bytes of the file |
| `File.ChunkFitsLog` | system/core/file.c:127-138 | a chunk of filewrite logs at most MAXOPBLOCKS blocks at every offset: four data, four bitmap, one indirect and one inode block at worst |
| `File.FileRead` | system/core/file.c:96-113 | returns the next bytes of the file and moves the shared offset past them; -1 exactly for a bad range; nothing is logged or changed |
| `File.WriteChunk` | system/core/file.c:140-149 | one transaction: at most MAXOPBLOCKS distinct blocks logged, every changed block among them, and the chunk spliced in at the offset or refused; of the inode only addresses and size change; it completes if and only if the range is refused or the volume affords the growth; free blocks and the file's blocks are conserved |
| `File.FileWrite` | system/core/file.c:117-156 | exactly the accepted part of the bytes is spliced in, all of them if the range is acceptable and otherwise whole chunks up to the largest file size, with -1; it is a sequence of as many transactions as there are chunks, each of at most MAXOPBLOCKS blocks, after each of which the text is the old one with so many chunks spliced in; it completes if and only if the volume affords that; other files, and the inode but for addresses and size, are unchanged |
| `FsCrash.OperationSurvives` | system/storage/log.c:69-202 | for every operation on a settled volume that logged all it changed, every crash point of its commit and every sequence of crashes during recovery: the recovered volume is settled and holds every file as before, or every file as the operation left it, decided by the header write |
| `FsCrash.ChunkSurvives` | system/core/file.c:140-149 | a transaction of filewrite under any order of its list and any crashes: the recovered file is the old text or the spliced text and every other file is as it was |
| `FsCrash.WriteSurvives` | system/core/file.c:117-156 | filewrite over the log: in whichever transaction the machine crashes, and however often in recovery, the recovered file is the old text with whole chunks spliced in, those of the transactions before or one more, and every other file is as it was |
| `FsCrash.LinkSurvives` | system/storage/fs.c:551-578 | dirlink as a transaction: the recovered directory is the old listing, or the one in which the name leads to the inode and every other name where it did |
| `FsCrash.TruncateSurvives` | system/storage/fs.c:407-435 | itrunc as a transaction, where the bitmap and one inode block fit the log: the recovered file is whole or empty and every other file is as it was |
| `FsCrash.GroupSurvives` | system/storage/log.c:126-202 | a sequence of operations committed together: after any crash every file is as before the first of them or as after the last |
| `FsCrash.GroupFits` | system/storage/log.c:126-142 | operations within MAXOPBLOCKS each, as many as begin_op admits into an empty log, fit the log together |
| `Directory.NameEq` | system/storage/fs.c:516-520 | namecmp is 0 exactly if the names agree up to their first 14 characters |
| `Directory.FieldKey` | system/storage/fs.c:572-573 | strncpy into an entry keeps exactly what namecmp compares |
| `Directory.EntryFormat` | system/storage/fs.c:572-575 | an entry is 16 bytes: the inode number, low byte first, then at most 14 characters of the name and zeros |
| `Directory.LinkLookup` | system/storage/fs.c:551-578 | with the new entry in the first free slot the name leads to the inode and every other name where it led before |
| `Directory.LinkUnique` | system/storage/fs.c:551-578 | dirlink keeps names unique |
| `Directory.DirLookup` | system/storage/fs.c:524-548 | the inode number and offset of the first entry of that name, 0 if there is none; nothing changes |
| `Directory.FindSlot` | system/storage/fs.c:564-570 | the first free entry, or the end of the directory |
| `Directory.WriteEntry` | system/storage/fs.c:572-575 | the entry is in its slot, and no other file and nothing of the inode but addresses and size changes; completes if and only if the slot exists or the directory can grow by one entry; every block that changes is logged, within LogBound |
| `Directory.DirLink` | system/storage/fs.c:551-578 | -1 and no change exactly if the name is present; otherwise the directory is the old map with one more name, and no other file and nothing of the inode but addresses and size changes; it completes if and only if the name is present or there is a free slot or the directory can grow by one; every block that changes is logged, within LogBound |
| `Umalloc.UnitsEnough` | user/lib/umalloc.c:69-69 | the rounded request has room for nbytes if and only if nbytes is at most 2^32 - 8 |
| `Umalloc.UnitsWrap` | user/lib/umalloc.c:69-69 | the largest request rounds to a single header, because the sum wraps |
| `Umalloc.TooLarge` | user/lib/umalloc.c:54-54 | the size given to sbrk is not positive as a signed int if and only if 2^31 - 15 <= nbytes <= 2^32 - 8 |
| `Umalloc.Disjoint` | user/lib/umalloc.c:24-90 | no two live blocks, and no live and free block, share a unit |
| `Umalloc.Covered` | user/lib/umalloc.c:24-90 | live and free blocks together cover exactly what sbrk gave |
| `Umalloc.ReleasedOk` | user/lib/umalloc.c:24-44 | putting a block back and merging it with its neighbours keeps an address-ordered ring without adjacent free blocks, and the block's room is available again |
| `Umalloc.FreeAssigns` | user/lib/umalloc.c:33-43 | the pointer and size assignments of free are that insertion and merging |
| `Umalloc.TakeTailOk` | user/lib/umalloc.c:78-82 | cutting the end off a free block keeps the heap invariant |
| `Umalloc.TakeWholeOk` | user/lib/umalloc.c:76-77 | so does unlinking a block of the exact size |
| `Umalloc.GrantedOk` | user/lib/umalloc.c:46-61 | so does adding what sbrk returned |
| `Umalloc.Allocator.FindPlace` | user/lib/umalloc.c:30-32 | free's loop terminates at the two ring neighbours between which the block belongs, also at the wrap |
| `Umalloc.Allocator.Free` | user/lib/umalloc.c:24-44 | exactly that block stops being live, its room is available again, the roving pointer is the free block below it, and the heap invariant holds |
| `Umalloc.Allocator.Morecore` | user/lib/umalloc.c:46-61 | fails exactly if sbrk does; otherwise at least nu units, and 4096 at least, are free |
| `Umalloc.Allocator.Search` | user/lib/umalloc.c:74-88 | malloc's walk terminates, finds the first block from the roving pointer that fits, and fails exactly if none does |
| `Umalloc.Allocator.Take` | user/lib/umalloc.c:75-85 | the block handed out was not live and is live with exactly the rounded size; it is the end of the free block, and the roving pointer is the block before |
| `Umalloc.Allocator.Malloc` | user/lib/umalloc.c:63-90 | for every request: a block that was not live, with room for nbytes if and only if the rounding does not wrap, or 0 if and only if nothing fitted and sbrk refused; the block is the end of the first free block from the roving pointer on that fits, if one does; it loses the heap (`stopped`) if and only if nothing fitted and the size is not positive as sbrk's signed argument; otherwise the heap invariant holds |
| `Umalloc.FirstMalloc` | user/lib/umalloc.c:63-90 | a program whose first request is in that range loses its heap, and with any other first request it does not |
| `VmFrames.PackUnpack` | include/mmu.h:93-101 | entries and 32-bit words correspond: the page number times 4096, and bits 0, 1 and 2 for present, writable and user |
| `VmFrames.TableOf` | system/memory/vm.c:35-55 | a directory entry is absent or leads to the one table of that entry, writable and for users, so that the entries of the table decide |
| `VmFrames.UserPte` | system/memory/vm.c:35-80 | in the user half an entry names a page if and only if that page is in use for exactly that address |
| `VmFrames.LinkTable` | system/memory/vm.c:44-53 | an empty table under an absent directory entry keeps the tables in order |
| `VmFrames.MapUser` | system/memory/vm.c:69-73 | so does a page under an absent entry |
| `VmFrames.UnmapUser` | system/memory/vm.c:269-276 | so does taking a page out |
| `VmFrames.Disown` | system/memory/vm.c:283-298 | giving up every page of one address space leaves all others in order |
| `Vm.Physical.constructor` | system/memory/kalloc.c:31-44 | the pages the allocator is to manage, none free yet |
| `Vm.Physical.FreeRange` | system/memory/kalloc.c:46-53 | exactly the pages of the range become free, and what other pages hold is kept |
| `Vm.Physical.Kalloc` | system/memory/kalloc.c:82-95 | takes the first page off the free list, or returns 0 exactly if it is empty |
| `Vm.Physical.Kfree` | system/memory/kalloc.c:59-77 | the page, and no other, becomes free, at the head of the free list |
| `Vm.Physical.WalkPgdir` | system/memory/vm.c:35-55 | the table that holds the entry, creating it if asked, under a directory entry that is writable and for users; no entry of the address space changes; 0 exactly if there is no table and, when asked to create one, no page is free |
| `Vm.Physical.MapPages` | system/memory/vm.c:60-80 | a range of any length in either half is mapped to consecutive pages, those of the user half become owned by their addresses, and every other entry is unchanged; it completes if and only if there are as many free pages as tables to be added, and takes exactly those; otherwise it has mapped the part before the first address whose table could not be had |
| `Vm.Physical.SetupKvm` | system/memory/vm.c:118-136 | succeeds if and only if there is a page for the directory and one for each table the kernel mappings need, and takes exactly those; then a new address space with exactly the kernel mappings; when it fails every page is in the use it was in before |
| `Vm.Physical.AllocUvm` | system/memory/vm.c:221-249 | below KERNBASE it succeeds if and only if there are free pages for the new page addresses and the tables they lack, and takes exactly those; then new zeroed pages, writable and for users, at exactly the new page addresses; when it fails every data page is free again and only page tables of pgdir were added |
| `Vm.Physical.DropNext` | system/memory/vm.c:265-277 | one round of deallocuvm: the page of one address, or a skip over addresses none of which has a page |
| `Vm.Physical.DeallocUvm` | system/memory/vm.c:255-279 | terminates in 32-bit arithmetic, and frees exactly the pages a page-by-page scan of the range would, clearing exactly their entries |
| `Vm.Physical.FreeVm` | system/memory/vm.c:283-298 | exactly the user pages, tables and directory of that address space become free |
| `Vm.Physical.CopyUvm` | system/memory/vm.c:315-345 | succeeds if and only if there are free pages for the directory, the kernel's tables, the user tables and the pages of the copy; then a new address space with the same bytes and flags on pages that were free; when it fails every page is in the use it was in before |
| `Vm.NoSharing` | system/memory/vm.c:35-80 | a user page belongs to one address of one address space, and is not on the free list |
| `Vm.OthersKept` | system/memory/vm.c:221-345 | what is done to one address space leaves the entries and pages of every other |
| `Vm.KernelMapOk` | system/memory/vm.c:105-115 | the kernel's four ranges lie in the upper half without overlap, also the one that ends by wrapping to 0 |
| `Vm.KernelTranslates` | system/memory/vm.c:105-136 | the kernel half: 0x80000000 + a is physical a below PHYSTOP, read-only exactly for text and read-only data, device addresses are their own, nothing else is present and nothing is for users |
| `Vm.UserTablesAre` | system/memory/vm.c:315-345 | the kernel's mappings share no table with user addresses, so the tables of a copy are the kernel's and the user's |
| `Vm.SkipArith` | system/memory/vm.c:267-268 | the skip to the next table lands on its first page, without wrapping below KERNBASE |
| `UserMemory.ClearPteU` | system/memory/vm.c:302-311 | the one entry loses its user bit and keeps page and other flags, and nothing else changes, or the panic exactly if there is no table for it |
| `UserMemory.KernelHalfPrivate` | system/memory/vm.c:105-136 | no page of the kernel half is accessible to the user where that half is as setupkvm makes it |
| `UserMemory.PatchBytes` | system/memory/vm.c:380-380 | writing into a page changes the bytes of its own address only |
| `UserMemory.Copyout` | system/memory/vm.c:350-386 | at every 32-bit address: succeeds if and only if the range is in the user half and every page of it is present and accessible to the user; the bytes written are exactly those before the first page out of reach; there it returns -1, or goes astray if and only if that page has no table and the word at address 0 reads as an entry for users |
| `Exec.ReachIff` | system/core/exec.c:65-88 | a copyout that ends in the stack page succeeds if and only if it starts there |
| `Exec.PushArgs` | system/core/exec.c:69-79 | all argument strings are in place exactly if there are at most MAXARG and they stay in the stack page; the program's bytes below the stack page and every other address space are as they were; copyout goes astray exactly if an address wraps below 0 to one without a table and the word at address 0 reads as an entry for users |
| `Exec.PushFrame` | system/core/exec.c:80-88 | the words below them are in place exactly if they too stay in the stack page |
| `Exec.GuardedStack` | system/core/exec.c:62-67 | two pages are added, the upper one for the user to read and write and the lower one out of the user's reach, if and only if they end below KERNBASE and they and their tables can be had; the program below and every other address space are as they were |
| `Exec.BuildStack` | system/core/exec.c:62-88 | exec's stack is complete if and only if two pages and their tables can be had below KERNBASE, there are at most 32 arguments and everything fits in the stack page above the guard; then strings and vector lie in it, in order, word-aligned, without overlap and with gaps of at most three bytes; the program's bytes and every other address space are as they were; it goes astray exactly where PushArgs does |
| `Exec.StraysIff` | system/core/exec.c:69-79 | with the kernel half as setupkvm makes it, an argument goes astray if and only if its address wraps to one from KERNBASE + PHYSTOP up to DEVSPACE |
| `Exec.LongArgument` | system/core/exec.c:62-79 | and there are such arguments: in a directory fresh from setupkvm, one argument of more than 32 MB goes astray exactly if the word at address 0 reads as an entry for users |
| `Exec.ReadArgc` | system/core/exec.c:82-88 | main finds the return address 0xffffffff, argc, and argv pointing at the vector |
| `Exec.ReadArgv` | system/core/exec.c:71-88 | the vector read back gives the original arguments and a null pointer |
| `Exec.OneString` | system/core/exec.c:75-76 | the string read at an address is unique |
| `SleepWakeup.StepInv` | system/core/proc.c:417-474 | every step of sleep, wakeup, scheduling and kill keeps the invariant |
| `SleepWakeup.RunInv` | system/core/proc.c:417-474 | the invariant over every run of any number of processes, locks and channels |
| `SleepWakeup.NoLostWakeup` | system/core/proc.c:417-474 | in no reachable state is a process SLEEPING on a channel whose condition holds unless a wakeup on it is still to be completed |
| `SleepWakeup.WokenWithCause` | system/core/proc.c:417-474 | a sleeper becomes RUNNABLE exactly by a wakeup on its own channel or a kill |
| `SleepLock.LockStepInv` | system/sync/sleeplock.c:22-42 | every step of acquiresleep and releasesleep, and any other activity, keeps the lock's invariant |
| `SleepLock.MutualExclusion` | system/sync/sleeplock.c:22-42 | at most one process is inside the lock, and pid names it |
| `SleepLock.NoStrandedWaiter` | system/sync/sleeplock.c:22-42 | whenever the inner spin lock is free, a waiter asleep implies that another process still holds the lock |
| `PipeRing.Counters` | system/core/pipe.c:84-117 | the counters tell empty and full apart, and name the right slots, also after wrapping |
| `PipeRing.Buffer.Fill` | system/core/pipe.c:84-94 | appends the bytes up to the end of the source or a full buffer |
| `PipeRing.Buffer.Drain` | system/core/pipe.c:113-117 | delivers the oldest unread bytes, as many as asked for or as there are |
| `Pipe.PipeStepInv` | system/core/pipe.c:59-121 | every step of reading, writing, closing and killing keeps the pipe's invariant |
| `Pipe.Fifo` | system/core/pipe.c:78-121 | in every interleaving the bytes read are a prefix of the bytes written, and the wrapping counters differ by the number of unread bytes, at most 512 |
| `Pipe.CallsCopy` | system/core/pipe.c:78-121 | in every interleaving, for every process: pipewrite puts in exactly the bytes it was given, in order and over any number of sleeps, and all of them when it ends normally; piperead takes out the next bytes, as many as asked for unless the pipe is empty, and none only if the write end is closed |
| `Pipe.CallEnds` | system/core/pipe.c:84-112 | a call returns -1 only as a reader killed at an empty pipe with the write end open, or as a writer at a full pipe that is killed or finds the read end closed |
| `Pipe.EndsClosed` | system/core/pipe.c:59-74 | in every interleaving, whenever the lock is free an end is open exactly if its file has references |
| `Pipe.WritersHaveCause` | system/core/pipe.c:59-121 | in every interleaving, kills included, a writer asleep while the lock is free means a full buffer with the read end open |
| `Pipe.ReadersWokenIff` | system/core/pipe.c:59-121 | in every interleaving from the creation of the pipe: whenever the lock is free a sleeping reader means an empty pipe with the write end open, throughout the run, if and only if no writer gives up on a full pipe while a reader sleeps |
| `Pipe.ReadersWoken` | system/core/pipe.c:59-121 | a run without kills keeps that promise throughout |
| `Pipe.KilledWriterStrandsReader` | system/core/pipe.c:85-89 | a run with a kill that leaves a reader asleep beside a full buffer |
| `Pipe.StrandsBreaks` | system/core/pipe.c:85-89 | whenever a killed writer gives up on a full pipe while a reader sleeps, a reader is left asleep beside a full buffer with the lock free |
| `Pipe.WakeupRestores` | system/core/pipe.c:59-121 | after any run, the next completed wakeup of the readers leaves none asleep, and from there on the same if-and-only-if holds |
| `ProcTable.StepInv` | system/core/proc.c:73-312 | every step of fork, exit, wait, exec, scheduling, sleeping and killing keeps the table's invariant |
| `ProcTable.ExitedAt` | system/core/proc.c:250-266 | what exit does to each slot: children to init, the parent woken, and init too if it was given a zombie; nothing else of any slot changes |
| `ProcTable.WokenWithCause` | system/core/proc.c:250-266 | a sleeper becomes RUNNABLE exactly by a wakeup on its channel, the exit of its child, the exit of a process that leaves init a zombie, or a kill |
| `ProcTable.WaitOutcome` | system/core/proc.c:272-312 | wait clears the lowest zombie child; without one it sleeps on itself if and only if it has children and is not killed, and otherwise returns; no other slot changes |
| `ProcTable.KillMarks` | system/core/proc.c:479-497 | a process is marked as killed by a kill that names it, which also wakes it, and loses the mark only when it is reaped |
| `ProcTable.ForkedChild` | system/core/proc.c:180-222 | the child of a fork is RUNNABLE with the forking process as parent and a stack and a directory of its own, and no other slot changes |
| `ProcTable.EveryoneHasAParent` | system/core/proc.c:227-312 | every process past EMBRYO other than init has a living parent, and init is alive |
| `ProcTable.NobodySleepsOnAZombie` | system/core/proc.c:272-312 | a process asleep in wait has a child and no zombie child |
| `ProcTable.FreedOnce` | system/core/proc.c:289-299 | whatever wait, a failing fork or exec frees is in use, is freed once and is nobody's afterwards, and nothing else leaves use |
| `ProcTable.Table.Wakeup1` | system/core/proc.c:457-465 | exactly the sleepers on the channel become RUNNABLE |
| `ProcTable.Table.TakeSlot` | system/core/proc.c:79-90 | the first UNUSED slot becomes EMBRYO |
| `ProcTable.Table.ExitProc` | system/core/proc.c:250-266 | the loop, with wakeup1 inside it, makes of the table what Exited says |
| `ProcTable.Table.ReapOne` | system/core/proc.c:282-301 | the first zombie child is cleared; otherwise it tells exactly whether there are children |
| `Shell.GetToken` | user/bin/hello.c:282-325 | the next token of the line: a word is a longest stretch without delimiters, no word is skipped, and the tokens left are the rest |
| `Shell.Peek` | user/bin/hello.c:327-337 | skips white space only, and tells whether the next token starts with one of the characters asked for |
| `Shell.ParseRedirs` | user/bin/hello.c:594-617 | each '<', '>' or '>>' takes exactly one file; panics exactly if a symbol is not followed by a word |
| `Shell.ParseSimple` | user/bin/hello.c:643-665 | reads what the token parser reads: the words of a simple command in order, redirections among them, and panics where it does |
| `Shell.ParseExec` | user/bin/hello.c:635-666 | the same for a simple command or a block |
| `Shell.ParseBlock` | user/bin/hello.c:619-633 | the same for a bracketed line with its redirections |
| `Shell.ParsePipe` | user/bin/hello.c:581-592 | the same for a pipeline |
| `Shell.ParseLine` | user/bin/hello.c:361-376 | the same for a line with '&' and ';'; the recursion terminates |
| `Shell.ParseText` | user/bin/hello.c:344-356 | yields a command if and only if the grammar derives the whole line from that command, and panics if it derives it from none |
| `Shell.ParseExact` | user/bin/hello.c:344-666 | the token parser yields a command if and only if the grammar derives the tokens from it, so a line has at most one command |
| `Shell.LineWords` | user/bin/hello.c:361-666 | a derived command refers to every word of the line exactly once and to nothing else |
| `Shell.LineRedirs` | user/bin/hello.c:594-617 | every redirection of a derived command is one written in the line: '<' for descriptor 0 to be read, '>' or '>>' for descriptor 1 to be written and created |
| `Shell.FirstRedirWins` | user/bin/hello.c:99-105 | when the nested redirections are opened from the outside in, of several for one descriptor the first written takes effect |
| `Shell.TokensCover` | user/bin/hello.c:282-325 | the words among the tokens are exactly the words of the line |
| `Shell.TokensIff` | user/bin/hello.c:282-325 | a line divides into tokens in exactly one way: white space is skipped, ">>" is taken whole, words are as long as can be |
| `Shell.NulTerminate` | user/bin/hello.c:669-713 | terminators are stored at the ends of the command's words and nowhere else |
| `Shell.WordsReadable` | user/bin/hello.c:669-713 | only delimiters and the end of the line are overwritten, so each word reads as itself |
| `Shell.ParseCmd` | user/bin/hello.c:344-359 | accepts exactly the derivable lines; then every argument and file name is a C string equal to its own word, and after a panic the line is unchanged |
| `Regex.RenderParse` | user/bin/grep.c:85-96 | the atoms a pattern is read as spell the pattern |
| `Regex.ReadingIff` | user/bin/grep.c:85-96 | a pattern has exactly one reading: c* is a star of c, '$' at the very end is the end of the text, everything else stands for itself and '.' for any character |
| `Regex.PlainMatches` | user/bin/grep.c:72-96 | a pattern without '*', '$' and '^' matches exactly if it occurs in the text, with '.' for any character |
| `Regex.MatchHere` | user/bin/grep.c:85-96 | true if and only if some stretch of the text from here on can be divided among the atoms of the pattern, which `Regex.ReadingIff` characterises |
| `Regex.MatchStar` | user/bin/grep.c:99-106 | true if and only if that holds with any number of c in front |
| `Regex.Match` | user/bin/grep.c:72-82 | true if and only if the pattern matches somewhere in the text, or at its beginning when it starts with '^' |

## Left out

- Boot code, assembly, interrupt controllers, segments, traps and the console: no deep invariant.
- The disk driver ide.c: the contract of memide.c stands for it.
- iget, iput, ialloc, link counts and path lookup (namex): reference counting of in-memory inodes and reclamation are not modelled.
- Device inodes: readi and writei are modelled for files and directories only.
- The sleep locks of buffers and inodes: cache and file-system methods run as if their lock had been granted; the lock itself is `SleepLock`.
- The file system works on the contents that bread returns and log_write records; that these are the latest is the business of `BufferCache` and `Log`.
- initlog, readsb, binit's use of device numbers, mkfs and the superblock's own encoding.
- loaduvm and the reading of the ELF file by exec: the program is taken to be in place below sz.
- exec's and fork's release of resources after a failure is in `ProcTable` and `Vm.Physical.FreeVm`, not in one method.
- inituvm, switchuvm and growproc, including its reading of a new size 0 as failure.
- pids, names, open files and current directories of processes.
- holdingsleep, filealloc, filedup and the reference counts of open files; a pipe end closes only when no call on it is in progress.
- runcmd but for the order of redirections, the built-in commands and the search path of the shell; grep's read buffer.
- ted, printf, structio and the other small user programs.
- Log.Log.LogWrite: does not model the spin lock around it, which `LogAdmission` covers.
- Vm.Physical.MapPages: takes page numbers, so the rounding of addresses that are not page-aligned is not modelled.
- Vm.Physical.Place: frees a page that cannot be mapped before allocuvm undoes its earlier rounds, while the code does so after.
- Vm.Physical.DropPage: clears the entry before it frees the page, while the code does so after.
- FsCrash.GroupSurvives: takes the operations of a group one after the other, while the code may interleave those on different inodes.
- UserMemory.Copyout: does not follow the bytes once they go `astray`, because the page the stray word names can be anything.
- Exec.PushArgs: stops with copyout where that goes `astray`.
- Exec.BuildStack: stops with copyout where that goes `astray`.
- Umalloc.Allocator.Malloc: does not follow the heap once `stopped`, because what sbrk then takes away is the kernel's doing.
- Shell.ParseSimple: does not model the aliasing of the execcmd that is filled after it has been wrapped; the command is put together at the end.
- ProcTable.Table.ReapOne: leaves kfree and freevm to the step machine, which accounts for them.
