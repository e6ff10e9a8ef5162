# xv6, modelled and proved in Dafny

This project models the hard parts of the xv6 kernel and user library in `Lab11_xv6/deliverables` and
proves what they promise: the file system's redo log, buffer cache, block allocator, inodes and
directories; the user-level and page allocators with the page tables; the sleep/wakeup, process and pipe
protocols; and the shell parser and the grep matcher.

`dafny verify dfyconfig.toml` checks the whole project. Each module stands for one component:

* **Storage.** `LogDisk` treats commit and recovery as sequences of single-block disk writes that a crash
  may cut anywhere. `LogFile` is log.c itself, a class whose methods are tied to those sequences.
  `GroupCommit` interleaves operations, commit, crash and recovery, and `LogRefines` shows that calls of
  the class are steps of that machine. `BufferCache` is bio.c over the
  memory disk of memide.c. `FsImage`, `FsInode`, `FsFile`, `FsLog`, `FileSystem` and `FileWrite` are the
  block bitmap, the inode block maps, inodes in their blocks, file contents, what a write logs, and
  `filewrite`; `FsWitness` builds disks the theorems speak of. `FileCrash` joins `filewrite` with the log.
  `Directory` reads directory files as finite maps.
* **Memory.** `Umalloc` is the Kernighan and Ritchie allocator (section 8.7 of The C Programming Language,
  second edition). `Pages` and `Vm` are the page pool and the two-level page tables (32-bit paging,
  section 4.3 of volume 3A of the Intel Software Developer's Manual).
* **Processes.** `ProcTable` holds the scans of the process table as loops over an array; `SleepWakeup` is
  the state machine of sleep, wakeup, sleeplocks, fork, exit, wait, kill and the scheduler, and
  `SleepProgress` the runs that get sleepers going again; `Pipe` is the bounded queue and its ring buffer.
* **Languages.** `Grep` is the pattern matcher. `Shell` is the parser of the command line as functions,
  `ShellParser` the cursor-moving parser and `nulterminate`. `ShellGrammar` is the grammar and the proof that
  the parser accepts exactly its lines, `ShellErrors` why it refuses the others. `ShellRoundTrip` and
  `ShellShow` are two printers, one with all parentheses and one with none that precedence does not need, and
  the proofs that parsing undoes them.

Code that changes state is a class whose methods carry the whole new state in their contracts; the
properties are proved about the state before and after, about the specification functions the methods are
tied to, or about every run of a state machine. Panics and error returns are results of the model, not
preconditions.

Where the code does not meet what its comments or constants suggest, the model follows the code and the
exact condition is proved:

* mkfs makes the log LOGSIZE blocks long, one short of what `begin_op` hands out: a new block is refused in
  some run exactly when the log is no longer than LOGSIZE (`GroupCommit.ReservationTheorem`,
  `GroupCommit.ShortLogPanics`), and a full log refuses even a block it already holds
  (`GroupCommit.FullLogRefusesAbsorption`).
* `log_write` tests the size before it takes the lock: two operations can pass the test together and log one
  block more than there are slots. With a log of 2 to NBUF - 1 blocks the commit then overwrites the first block
  behind the log (`GroupCommit.ShortLogOverruns`). With a log of at least LOGSIZE = NBUF blocks, mkfs's included,
  it never does (`GroupCommit.NeverOverrun`): a group that large has pinned every buffer.
* A group of NBUF = LOGSIZE blocks can form, and its commit always panics, because `write_log` finds no buffer for
  its first slot (`GroupCommit.FullGroupPanics`, `BufferCache.PinnedCacheFull`, `LogFile.SlotBread`). The disk is
  untouched, so recovery is not affected.
* `writei` stores the inode only when the file grows: what it fills in the inode's own slots below the size, on a
  file with holes, is in memory only (`FileSystem.FileSys.Writei`, `FileSystem.InodeKept`).
* The bound on a `filewrite` chunk needs files without holes, and exactly one family of chunks breaks it
  (`FileWrite.ChunkFits`, `FileWrite.ChunkOverflow`, `FileWrite.HolesBreakBound`, `FsWitness.HoleDisk`).
* `malloc` returns too small a block exactly when rounding the request up wraps
  (`Umalloc.UnitsSuffice`).
* `copyuvm` loses one page exactly when memory runs out at the point where it needs a table page
  (`Vm.Memory.CopyUvm`, `Vm.LeakExact`).
* A killed `pipewrite` loses a wakeup exactly when it has filled an empty pipe with a reader asleep
  (`Pipe.WakeupLost`, `Pipe.ForgottenReader`).

## Model

| member | source | states |
|---|---|---|
| `LogDisk.InstallEffect` | Lab11_xv6/deliverables/log.c:69-82 | installing a logged group gives every home block the content of its slot and leaves every other block alone |
| `LogDisk.InstallCut` | Lab11_xv6/deliverables/log.c:69-82 | cutting the install writes anywhere and installing again from the slots ends at the same disk |
| `LogDisk.RecoverCut` | Lab11_xv6/deliverables/log.c:115-122 | cutting recovery after any number of its writes leaves a disk from which recovery reaches the same home blocks |
| `LogDisk.EraseHead` | Lab11_xv6/deliverables/log.c:101-113 | erasing the header empties the log and touches no home block |
| `LogDisk.LogCut` | Lab11_xv6/deliverables/log.c:177-190 | until the header is written, any prefix of the slot writes leaves the home blocks and the empty log as they were |
| `LogDisk.HeadCut` | Lab11_xv6/deliverables/log.c:101-113 | the one header write is the commit point: after it the log lists the whole group |
| `LogDisk.CommitPoint` | Lab11_xv6/deliverables/log.c:192-202 | the writes of commit are those before and after the header write, and the latter are what recovery would do |
| `LogDisk.CommitCut` | Lab11_xv6/deliverables/log.c:192-202 | a commit cut after any number of writes recovers to all of the old home blocks or all of the new ones, decided by whether the header was written |
| `LogDisk.RebootsConverge` | Lab11_xv6/deliverables/log.c:115-122 | any number of crashes inside recovery, each after any number of writes, ends with the same home blocks and an empty log |
| `LogDisk.CrashAtomicity` | Lab11_xv6/deliverables/log.c:69-122 | commit cut anywhere, then recovery with any number of further crashes, leaves the home blocks all old or all new and the log empty |
| `LogFile.Log.BeginOp` | Lab11_xv6/deliverables/log.c:125-141 | an operation is admitted exactly when no commit runs and the log has room for MAXOPBLOCKS for it and every outstanding one |
| `LogFile.Log.LogWrite` | Lab11_xv6/deliverables/log.c:213-233 | when no other operation comes between its tests and its append: refuses exactly when the log has LOGSIZE or log.size - 1 entries or no operation runs; otherwise records the block once and pins its new content |
| `LogFile.Log.MayLog` | Lab11_xv6/deliverables/log.c:218-221 | the tests made before the lock is taken: pass exactly when the log is below both limits and an operation runs |
| `LogFile.Log.Record` | Lab11_xv6/deliverables/log.c:223-232 | the part under the lock, which makes no test of its own: records the block once and pins it, and the state stays sound exactly if the log has a slot for every entry or the entries pin every buffer |
| `LogFile.Log.constructor` | Lab11_xv6/deliverables/log.c:53-66 | initlog takes the disk as a crash left it, with whatever its header lists; the log in memory starts empty |
| `LogFile.Log.WriteLog` | Lab11_xv6/deliverables/log.c:177-190 | the loop performs exactly the slot writes of the specification, from the cached content; it panics, before the first of them, exactly when the pinned blocks fill the cache |
| `LogFile.Log.WriteHead` | Lab11_xv6/deliverables/log.c:101-113 | the loop overwrites the count and the first n entries of the header block and writes it once |
| `LogFile.Log.InstallTrans` | Lab11_xv6/deliverables/log.c:69-82 | the loop performs exactly the install writes and unpins exactly the logged blocks |
| `LogFile.Log.ReadHead` | Lab11_xv6/deliverables/log.c:85-96 | loads exactly the header that is on disk |
| `LogFile.Log.Commit` | Lab11_xv6/deliverables/log.c:192-202 | the disk writes are exactly CommitWrites, in order; afterwards the log is empty on disk and in memory and nothing is pinned; a group of NBUF blocks, and no smaller one, panics with the disk untouched |
| `LogFile.Log.RecoverFromLog` | Lab11_xv6/deliverables/log.c:115-122 | the disk writes are exactly RecoverWrites, in order; afterwards the log is empty |
| `LogFile.Log.EndOp` | Lab11_xv6/deliverables/log.c:145-174 | the last operation out commits the whole group; any other changes nothing on disk; afterwards no commit runs unless the call panicked, and it panics exactly while a commit runs or when its own commit meets a full cache |
| `LogFile.Log.Bwrite` | Lab11_xv6/deliverables/bio.c:109-116 | one block write reaches the disk, is added to the trace, and unpins the block |
| `LogFile.Log.WriteSlot` | Lab11_xv6/deliverables/log.c:183-188 | one turn of write_log writes the cached content of its block into its slot, or panics exactly when bread has no buffer for the slot |
| `LogFile.Log.InstallSlot` | Lab11_xv6/deliverables/log.c:74-81 | one turn of install_trans writes the slot's content to its home block and unpins that block |
| `LogFile.Log.EraseHead` | Lab11_xv6/deliverables/log.c:199-200 | the header is written once with no entries |
| `LogFile.Log.CommitPrepare` | Lab11_xv6/deliverables/log.c:195-197 | up to the commit point: the slot writes, then the header, which then lists the group; panics exactly for a group of NBUF blocks |
| `LogFile.Log.CommitFinish` | Lab11_xv6/deliverables/log.c:198-200 | from the commit point on: exactly the writes recovery would do, ending with an empty log and nothing pinned |
| `LogFile.SlotBread` | Lab11_xv6/deliverables/log.c:183 | when the logged blocks are what is pinned, bread of the first log slot has no buffer exactly if the group has NBUF blocks |
| `LogRefines.BeginStep` | Lab11_xv6/deliverables/log.c:125-141 | a call of begin_op on the class is the machine's BeginOp: admitted exactly when no commit runs and there is room, and then one more operation is active |
| `LogRefines.LogWriteStep` | Lab11_xv6/deliverables/log.c:213-233 | a call of log_write is the machine's test and append, with the machine's panic |
| `LogRefines.EndStep` | Lab11_xv6/deliverables/log.c:145-174 | a call of end_op is the machine's EndOp followed, for the last operation, by every write of the commit and its end, or by the machine's panic |
| `LogRefines.CommitWhole` | Lab11_xv6/deliverables/log.c:192-202 | from the last EndOp the machine performs exactly the writes of commit, one step each, and is running again with an empty log |
| `LogRefines.RunGroup` | Lab11_xv6/deliverables/log.c:125-233 | up to three operations that begin, log together fewer writes than there are buffers and log blocks, and end: no call is refused or panics, and the disk's home blocks are the old ones with the logged writes applied |
| `GroupCommit.StepInv` | Lab11_xv6/deliverables/log.c:125-233 | with a log of at least LOGSIZE blocks, every step of begin_op, the test and the append of log_write, end_op, commit with its panic, recovery and crash keeps the invariant |
| `GroupCommit.StepQuiet` | Lab11_xv6/deliverables/log.c:125-233 | with a log of any length, every step keeps the reservation, the distinctness of the logged blocks and that no operation runs during commit |
| `GroupCommit.BeginAdmits` | Lab11_xv6/deliverables/log.c:125-141 | begin_op admits an operation exactly when no commit runs and the log has room for ten blocks of it and of every outstanding one; otherwise it changes nothing |
| `GroupCommit.LongLogFits` | Lab11_xv6/deliverables/log.c:177-190 | in a log of at least LOGSIZE blocks every group that gets past the first bread of its commit has a slot for each of its blocks, although nothing is tested at the append |
| `GroupCommit.GroupCommitTheorem` | Lab11_xv6/deliverables/log.c:125-174 | for a log of at least LOGSIZE blocks, as mkfs makes it, and every run, crash and re-crash, the recovered disk is the effect of a prefix of the history that splits no operation and contains every finished group |
| `GroupCommit.CommitIsQuiet` | Lab11_xv6/deliverables/log.c:145-174 | in every reachable state a running commit means no outstanding operation, so end_op never panics |
| `GroupCommit.ReservationTheorem` | Lab11_xv6/deliverables/log.c:213-233 | in every reachable state of every log, logged blocks plus unspent budgets are at most LOGSIZE and the logged numbers are distinct; a log longer than LOGSIZE has a slot for every logged block and never refuses a new one |
| `GroupCommit.ShortLogPanics` | Lab11_xv6/deliverables/mkfs.c:25 | with a log no longer than LOGSIZE, and LOGSIZE home blocks in a row on either side of it, some run of well-behaved operations is refused a new block |
| `GroupCommit.ShortLogOverruns` | Lab11_xv6/deliverables/log.c:177-190 | with a log of 2 to NBUF - 1 blocks, some run in which two operations pass the test together commits as many blocks as the log is long; the last slot write goes over the home block behind the log, with content that no part of the history gave it |
| `GroupCommit.NeverOverrun` | Lab11_xv6/deliverables/log.c:177-202 | in every run over a log of at least LOGSIZE blocks a step of commit changes only the log and home blocks that operations logged |
| `GroupCommit.FullGroupPanics` | Lab11_xv6/deliverables/bio.c:78-92 | over every such log some run of well-behaved operations logs NBUF blocks, and its commit panics with the disk untouched |
| `GroupCommit.FullLogRefusesAbsorption` | Lab11_xv6/deliverables/log.c:218-223 | even in a long log, some run is refused a block that is already logged, because the size test comes first |
| `BufferCache.Cache.constructor` | Lab11_xv6/deliverables/bio.c:39-56 | binit's loop links all buffers into one ring, and the empty cache is coherent with the disk |
| `BufferCache.Cache.Lookup` | Lab11_xv6/deliverables/bio.c:69-76 | walking forward finds the buffer of this block, or there is none |
| `BufferCache.Cache.Victim` | Lab11_xv6/deliverables/bio.c:81-92 | walking backward finds the least recently released buffer that is unreferenced and clean, or there is none |
| `BufferCache.Cache.Bget` | Lab11_xv6/deliverables/bio.c:61-93 | returns a counted reference to the one buffer for the block, recycling only an unreferenced clean one, the least recently released; panics exactly when the block is uncached and no buffer is free |
| `BufferCache.PinnedCacheFull` | Lab11_xv6/deliverables/bio.c:78-92 | as many pinned blocks as buffers leave bget none for any other block; with fewer, and no buffer in use, there is one |
| `BufferCache.Cache.Iderw` | Lab11_xv6/deliverables/memide.c:38-60 | writes a dirty buffer, reads an invalid one, and panics exactly on the four conditions of the code |
| `BufferCache.Cache.Bread` | Lab11_xv6/deliverables/bio.c:96-106 | shows the last content written to the block, whether it was cached or not; panics exactly off disk 1 or past its end |
| `BufferCache.Cache.Pin` | Lab11_xv6/deliverables/log.c:231 | setting B_DIRTY keeps coherence and ends the holder's private change |
| `BufferCache.Cache.Bwrite` | Lab11_xv6/deliverables/bio.c:109-116 | disk, buffer and last written content agree afterwards; panics exactly when unlocked, off disk 1 or past its end |
| `BufferCache.Cache.Unlock` | Lab11_xv6/deliverables/bio.c:121-126 | gives up the lock and keeps the cache coherent; panics exactly when it was not held |
| `BufferCache.Cache.Drop` | Lab11_xv6/deliverables/bio.c:128-141 | drops one reference and, with the last, makes the buffer first in the ring, stamped newest; nothing else moves |
| `BufferCache.Cache.MoveToFront` | Lab11_xv6/deliverables/bio.c:132-137 | the six pointer writes leave a ring with this buffer first and stamped newest |
| `BufferCache.MovedRing` | Lab11_xv6/deliverables/bio.c:130-138 | the pointer surgery keeps the ring a permutation of all buffers in release order, with the moved buffer first |
| `BufferCache.RingOrder` | Lab11_xv6/deliverables/bio.c:33-35 | from the head the ring runs through every buffer once, the most recently released first |
| `BufferCache.RecycleCoherent` | Lab11_xv6/deliverables/bio.c:81-90 | renaming an unreferenced clean buffer loses no written content and keeps blocks unique |
| `BufferCache.ChangeCoherent` | Lab11_xv6/deliverables/bio.c:108-116 | a change to one buffer, matched on disk or marked dirty, keeps every other block's last content |
| `BufferCache.ReadCoherent` | Lab11_xv6/deliverables/memide.c:54-59 | a buffer filled from disk gets the last written content, since nothing newer can be elsewhere |
| `BufferCache.Cache.Lock` | Lab11_xv6/deliverables/bio.c:72-74 | a buffer locked by the owner of a reference still names its block, and the cache stays coherent |
| `BufferCache.Cache.Modify` | Lab11_xv6/deliverables/log.c:204-212 | the holder's change becomes the block's last written content and is remembered as not yet announced |
| `FsImage.BitOps` | Lab11_xv6/deliverables/fs.c:66-68 | setting and clearing one bit of a byte change that bit and no other |
| `FsImage.AllocatedEffect` | Lab11_xv6/deliverables/fs.c:56-78 | an allocation sets exactly one bitmap bit, zeroes that block and leaves all other data blocks alone |
| `FsImage.FreedEffect` | Lab11_xv6/deliverables/fs.c:81-96 | freeing clears exactly one bitmap bit and no data block |
| `FsImage.FreesTake` | Lab11_xv6/deliverables/fs.c:63-76 | of the free blocks in the order balloc finds them, an allocation removes exactly the first |
| `FsImage.SlotsDisjoint` | Lab11_xv6/deliverables/fs.c:373-401 | two block-map slots of any files never share a block: the block map is injective across files |
| `FsImage.FillDirectOwns` | Lab11_xv6/deliverables/fs.c:379-389 | a free block placed in a direct or indirect slot keeps bitmap and ownership exact and every other slot and byte |
| `FsImage.FillEntryOwns` | Lab11_xv6/deliverables/fs.c:390-397 | a free block placed in an indirect entry keeps bitmap and ownership exact and every other slot and byte |
| `FsImage.DropDirectOwns` | Lab11_xv6/deliverables/fs.c:415-420 | dropping a slot frees exactly its block and keeps every other file |
| `FsImage.DropEntryOwns` | Lab11_xv6/deliverables/fs.c:425-428 | freeing an indirect entry's block frees exactly it, though the entry itself stays written |
| `FsImage.HeadFrame` | Lab11_xv6/deliverables/fs.c:221-237 | what lies before the bitmap, inode blocks included, has no part in who owns which block |
| `FsInode.PackRoundTrip` | Lab11_xv6/deliverables/fs.h:29-36 | an inode packed into 64 bytes, little endian with signed shorts, unpacks to itself |
| `FsInode.InodeLayout` | Lab11_xv6/deliverables/fs.h:29-36 | the bytes of a stored inode: type, major, minor and nlink at 0, 2, 4 and 6 in two's complement, size at 8, address k at 12 + 4k, all little endian |
| `FsInode.StoresUpdate` | Lab11_xv6/deliverables/fs.c:221-237 | packing one inode into its block changes the stored copy of that inode and of no other, neighbours in the block included |
| `FsLog.SpanNext` | Lab11_xv6/deliverables/fs.c:373-401 | after the blocks before it are mapped, bmap of the next block fills exactly what is left of the slots the longer span needs, and no slot twice |
| `FsLog.WriteLogStep` | Lab11_xv6/deliverables/fs.c:499-505 | one more turn of writei's loop adds to the log exactly the blocks bmap logs and the data block, all told from the image before the write |
| `FsLog.WriteLogSize` | Lab11_xv6/deliverables/fs.c:499-505 | on every consistent image the loop logs exactly one block for each block of the span, one for the indirect block if it is new or gets an entry, and the bitmap blocks over the first free blocks it takes |
| `FsFile.KeptContent` | Lab11_xv6/deliverables/fs.c:373-401 | changes that keep a file's slots and blocks keep its content |
| `FsFile.ReadChunk` | Lab11_xv6/deliverables/fs.c:470-475 | the bytes of a block that readi copies are those of the content at that offset, direct or indirect |
| `FsFile.WrittenContent` | Lab11_xv6/deliverables/fs.c:482-512 | the block writes of writei make exactly a splice of the content, holes reading as zeros, change no other file and leave no new hole |
| `FileSystem.FileSys.ScanBitmap` | Lab11_xv6/deliverables/fs.c:65-74 | finds the first clear bit under one bitmap block, or there is none |
| `FileSystem.FileSys.Balloc` | Lab11_xv6/deliverables/fs.c:56-78 | allocates the first free block, zeroed and logged with its bitmap block, and removes exactly it from the free blocks; panics exactly on a full disk |
| `FileSystem.FileSys.TakeBlock` | Lab11_xv6/deliverables/fs.c:68-71 | marks the block's bit and zeroes the block, logging exactly the bitmap block and the block |
| `FileSystem.FileSys.Bfree` | Lab11_xv6/deliverables/fs.c:81-96 | frees an allocated block and panics exactly on a free one |
| `FileSystem.FileSys.Iupdate` | Lab11_xv6/deliverables/fs.c:221-237 | packs the in-memory inode into its block and logs it; no other stored inode, no block map, no bit and no file changes |
| `FileSystem.FileSys.LoadInode` | Lab11_xv6/deliverables/fs.c:299-309 | what ilock reads is what the last iupdate stored; on a sound file system it changes nothing |
| `FileSystem.FileSys.LogWrite` | Lab11_xv6/deliverables/log.c:208-212 | a changed buffer announced by log_write: the blocks are at every moment those of the start of the transaction with its log_write calls applied |
| `FileSystem.FileSys.constructor` | Lab11_xv6/deliverables/fs.c:299-309 | every consistent image whose inode blocks agree with its inodes can be mounted, and one without holes is sound |
| `FileSystem.FileSys.Bmap` | Lab11_xv6/deliverables/fs.c:373-401 | returns the block of the file's bn-th slot, filling the empty slots on the way with exactly the first free blocks, zeroed; keeps ownership exact and every other slot, and logs exactly the blocks listed; panics exactly past the last block or when the free blocks are fewer than the empty slots |
| `FileSystem.FileSys.BmapDirect` | Lab11_xv6/deliverables/fs.c:379-383 | the direct slot's block, the first free one where there was none; fails exactly without a free block |
| `FileSystem.FileSys.BmapIndirect` | Lab11_xv6/deliverables/fs.c:386-398 | the same through the indirect block, which takes the first free block if it is missing; fails exactly when free blocks run out |
| `FileSystem.FileSys.TruncDirect` | Lab11_xv6/deliverables/fs.c:415-420 | releases exactly the file's direct blocks and logs exactly their bitmap blocks |
| `FileSystem.FileSys.TruncIndirect` | Lab11_xv6/deliverables/fs.c:422-432 | releases exactly the entries of the indirect block and then the block itself |
| `FileSystem.FileSys.Itrunc` | Lab11_xv6/deliverables/fs.c:408-436 | every block the file owns is freed exactly once, no other bit changes, no other file changes, the inode on disk agrees, and the blocks logged are exactly the bitmap blocks over the freed blocks and the inode's block |
| `FileSystem.FileSys.Readi` | Lab11_xv6/deliverables/fs.c:453-477 | returns exactly the slice of the content, clipped at the end of file, with the code's error cases, and changes nothing |
| `FileSystem.FileSys.ReadBlocks` | Lab11_xv6/deliverables/fs.c:470-475 | the block-by-block loop copies exactly the slice |
| `FileSystem.FileSys.Writei` | Lab11_xv6/deliverables/fs.c:482-512 | with or without holes the content becomes the splice and every other file is unchanged, the logged blocks are exactly those told from the image before, and it panics exactly when the free blocks do not suffice; the inode is stored exactly when the file grew, so the copy on disk still agrees exactly then or if none of the inode's own slots was filled, which on a hole-free file is always |
| `FileSystem.FileSys.WriteBlocks` | Lab11_xv6/deliverables/fs.c:499-505 | on every consistent image, holes or not, the loop writes exactly the bytes of src at off, fills the empty slots with the first free blocks, logs exactly the blocks listed, and fails exactly when free blocks run out |
| `FileSystem.OverwriteNeeds` | Lab11_xv6/deliverables/fs.c:482-512 | a write inside a hole-free file has no slot to fill, so it can neither panic nor change the inode |
| `FileSystem.InodeKept` | Lab11_xv6/deliverables/fs.c:499-510 | a write that does not grow the file changes the inode exactly if it fills one of the inode's own slots |
| `FileSystem.FileSys.FillSlot` | Lab11_xv6/deliverables/fs.c:380-381 | an empty direct or indirect slot gets the first free block, or there is none |
| `FileSystem.FileSys.FillIndirect` | Lab11_xv6/deliverables/fs.c:392-395 | an empty indirect entry gets the first free block, or there is none |
| `FileSystem.FileSys.LoadIndirect` | Lab11_xv6/deliverables/fs.c:388-389 | the indirect block exists afterwards, allocated only if it was missing |
| `FileSystem.FileSys.BmapEntry` | Lab11_xv6/deliverables/fs.c:390-397 | the entry of the indirect block, the first free block where it was empty; fails exactly without a free block |
| `FileSystem.FileSys.DropSlot` | Lab11_xv6/deliverables/fs.c:416-419 | one owned slot is freed and emptied, without meeting a free block |
| `FileSystem.FileSys.DropEntry` | Lab11_xv6/deliverables/fs.c:426-427 | one indirect entry's block is freed, without meeting a free block |
| `FileSystem.FileSys.TruncEntries` | Lab11_xv6/deliverables/fs.c:425-428 | exactly the blocks of the indirect entries are freed, and their bitmap blocks logged |
| `FileSystem.FileSys.DropIndirect` | Lab11_xv6/deliverables/fs.c:430-431 | the indirect block itself is freed and its slot emptied |
| `FileSystem.FileSys.ReadOne` | Lab11_xv6/deliverables/fs.c:471-474 | one turn of readi copies the bytes of one block |
| `FileSystem.FileSys.WriteOne` | Lab11_xv6/deliverables/fs.c:500-504 | one turn of writei extends what is written by w bytes and logs exactly the blocks it touches |
| `FileSystem.FileSys.Grow` | Lab11_xv6/deliverables/fs.c:507-510 | the size grows in memory and on disk alike, and no content changes under the new size |
| `FileWrite.ChunkFits` | Lab11_xv6/deliverables/file.c:127-146 | on a hole-free file a chunk at any offset up to the size logs at most MAXOPBLOCKS distinct blocks, counting data, indirect, bitmap and inode blocks |
| `FileWrite.TransactionSize` | Lab11_xv6/deliverables/file.c:127-146 | the exact number of blocks a writei logs on any consistent image: span, indirect block, bitmap blocks over the first free blocks, and the inode's block if the file grows |
| `FileWrite.ChunkOverflow` | Lab11_xv6/deliverables/file.c:127-146 | on any consistent image a chunk logs at most one block more than the reservation, and does exactly when it grows the file, spans four blocks, finds all of them and the indirect block missing, and the first five free blocks lie under five bitmap blocks |
| `FileWrite.BoundIsTight` | Lab11_xv6/deliverables/file.c:127-146 | from an image whose inode has block 11 but no indirect block and whose first four free blocks lie under different bitmap blocks, a chunk that starts inside block 11 logs exactly MAXOPBLOCKS |
| `FileWrite.HolesBreakBound` | Lab11_xv6/deliverables/file.c:127-146 | with a hole at block 11 and five such free blocks the same chunk logs one block more than the reservation |
| `FsWitness.TightDisk` | Lab11_xv6/deliverables/file.c:127-146 | there is a sound disk, laid out as mkfs does and full of files, on which one chunk uses the whole reservation |
| `FsWitness.HoleDisk` | Lab11_xv6/deliverables/file.c:127-146 | there is a consistent disk with a hole in one file on which the same chunk overruns the reservation |
| `FileWrite.Chunk` | Lab11_xv6/deliverables/file.c:138-143 | one chunk is a splice of its bytes within a transaction of at most MAXOPBLOCKS blocks whose log_write calls lead from the blocks before to the blocks after; it panics exactly without room, and a device inode is left to its driver |
| `FileWrite.Filewrite` | Lab11_xv6/deliverables/file.c:117-155 | the chunks together are one splice, each a transaction that fits a reservation and leaves a sound image; the offset moves by what was written; with the image before the first chunk that was not written, the call panics exactly if that chunk is legal and has no room, fails exactly if it is not legal, and otherwise everything is written; a write inside the file never panics or fails; on a device inode the result is what the driver makes of the chunks |
| `FileWrite.Turn` | Lab11_xv6/deliverables/file.c:133-152 | one turn of the loop adds one chunk to the record of transactions, or leaves file and record as they were; it panics exactly without room, fails exactly on an illegal range, and does neither inside the file |
| `FileWrite.DeviceExact` | Lab11_xv6/deliverables/file.c:133-152 | on a device the first chunk the driver does not take in full decides the result: an error if the driver refused it, a panic if it took part of it, and the offset counts the chunks before it |
| `FileCrash.ReplayOp` | Lab11_xv6/deliverables/log.c:125-174 | the history of an operation replays as its log_write calls |
| `FileCrash.Boundary` | Lab11_xv6/deliverables/log.c:145-174 | when operations run one after the other, a part of the history that splits none of them ends between two |
| `FileCrash.MountHolds` | Lab11_xv6/deliverables/fs.c:299-309 | a disk whose home blocks are those of a sound image mounts as that image |
| `FileCrash.CrashDuringFilewrite` | Lab11_xv6/deliverables/file.c:129-152 | for a log of at least LOGSIZE blocks: a crash at any point of filewrite, and any crashes during recovery, bring up a consistent, hole-free image in which the file has got the first k chunks and nothing else and every other file is as it was; every chunk whose commit was done is among the k |
| `FileCrash.ScriptRuns` | Lab11_xv6/deliverables/log.c:125-233 | a log of at least LOGSIZE blocks takes every sequence of operations that keep to the reservation, and in the end all of them are durable |
| `FileCrash.FilewriteDurable` | Lab11_xv6/deliverables/file.c:129-152 | the chunks of filewrite run through such a log to the end, and from then on every crash recovers all of what was written |
| `FileWrite.SpliceChunks` | Lab11_xv6/deliverables/file.c:129-152 | splicing chunk after chunk is splicing the whole |
| `Directory.Namecmp` | Lab11_xv6/deliverables/fs.c:517-521 | names are equal exactly when they agree up to a NUL within DIRSIZ bytes |
| `Directory.KeyOfCopy` | Lab11_xv6/deliverables/fs.c:573 | the name strncpy stores is the same name under DIRSIZ truncation |
| `Directory.BindsUnique` | Lab11_xv6/deliverables/fs.c:525-549 | a well-formed directory binds a name at most once |
| `Directory.LinkBinds` | Lab11_xv6/deliverables/fs.c:573-576 | writing an entry into a free slot binds exactly the new name and keeps every other binding and distinctness |
| `Directory.UnlinkBinds` | Lab11_xv6/deliverables/sysfile.c:218-220 | zeroing an entry unbinds exactly its name and keeps every other binding |
| `Directory.Dirlookup` | Lab11_xv6/deliverables/fs.c:525-549 | finds the first live entry of the name exactly if there is one; panics exactly on a non-directory, or when it gets to a piece of an entry at the end; changes nothing |
| `Directory.FreeEntry` | Lab11_xv6/deliverables/fs.c:565-571 | finds the first free slot, the end of the directory if there is none |
| `Directory.Dirlink` | Lab11_xv6/deliverables/fs.c:552-579 | fails exactly on a bound name; panics exactly on a non-directory or when the entry's place, the first free one or the end, has no room in the file or on the disk; otherwise the directory is the old one with the entry spliced in there, which binds the name and keeps every other binding, inode and file |
| `Directory.ClearEntry` | Lab11_xv6/deliverables/sysfile.c:218-220 | the directory is the old one with zeros over that entry, which removes exactly that name; writei's failure is out of reach |
| `Directory.ReadEntry` | Lab11_xv6/deliverables/fs.c:535-539 | reads one directory entry through readi, failing exactly on a short one |
| `Umalloc.RingIsOneCycle` | Lab11_xv6/deliverables/umalloc.c:21-44 | the free list is one address-ordered cycle through base that holds every free block |
| `Umalloc.SlotExists` | Lab11_xv6/deliverables/umalloc.c:30-32 | there is always a place on the ring where free's search stops |
| `Umalloc.Clearance` | Lab11_xv6/deliverables/umalloc.c:24-44 | live blocks overlap no free block on either side |
| `Umalloc.FreedSound` | Lab11_xv6/deliverables/umalloc.c:33-42 | free's pointer surgery, in all four joining cases, keeps the heap sound: ordered ring, no adjacent free blocks, every unit in exactly one block |
| `Umalloc.TakeOutSound` | Lab11_xv6/deliverables/umalloc.c:76-77 | taking a whole block off the ring keeps the heap sound |
| `Umalloc.SplitOffSound` | Lab11_xv6/deliverables/umalloc.c:78-82 | cutting the tail off a free block keeps the heap sound |
| `Umalloc.AddRegionSound` | Lab11_xv6/deliverables/umalloc.c:46-61 | a region from sbrk joins the heap as one block |
| `Umalloc.UnitsSuffice` | Lab11_xv6/deliverables/umalloc.c:69 | the block is large enough exactly when rounding up the request did not wrap |
| `Umalloc.RequestFits` | Lab11_xv6/deliverables/umalloc.c:52-54 | the byte count reaches sbrk as a positive int exactly for requests below 2^31 bytes |
| `Umalloc.Heap.Free` | Lab11_xv6/deliverables/umalloc.c:24-44 | the search ends at the last free block below; exactly this block stops being live, lies inside one free block, and no unit is lost |
| `Umalloc.Heap.Morecore` | Lab11_xv6/deliverables/umalloc.c:46-61 | exactly the units of the new region, at least 4096, are added and some free block then fits the request; if none did before, only the block that ends with the region does; nothing changes when sbrk fails |
| `Umalloc.Heap.Carve` | Lab11_xv6/deliverables/umalloc.c:75-84 | hands out exactly the last nunits units of the block, all free before, and keeps every live block |
| `Umalloc.Heap.Malloc` | Lab11_xv6/deliverables/umalloc.c:63-90 | ends after at most one morecore; fails exactly when nothing fits and sbrk fails; otherwise a new live block of the requested units at the end of the first block after freep that is large enough, or of the new region, with every other live block and every unit accounted for |
| `Umalloc.FullCircle` | Lab11_xv6/deliverables/umalloc.c:74-89 | one trip round the ring from freep meets every free block |
| `Umalloc.Heap.Release` | Lab11_xv6/deliverables/umalloc.c:33-43 | the surgery at the end of free joins the upper and lower neighbours and keeps the heap sound |
| `Umalloc.Heap.Start` | Lab11_xv6/deliverables/umalloc.c:70-73 | the first call makes base the whole ring |
| `Pages.AddTable` | Lab11_xv6/deliverables/vm.c:42-53 | a held frame becomes the table of an absent directory entry, and every frame keeps exactly one role |
| `Pages.AddTableLookup` | Lab11_xv6/deliverables/vm.c:42-53 | allocating a table changes no address space's map |
| `Pages.PutUser` | Lab11_xv6/deliverables/vm.c:69-73 | mapping a held frame at a user page makes it that page's, and every frame keeps exactly one role |
| `Pages.DropUser` | Lab11_xv6/deliverables/vm.c:268-275 | unmapping a user page frees exactly its frame |
| `Pages.SetEntryLookup` | Lab11_xv6/deliverables/vm.c:69-73 | one table entry is one page of one directory's map and of no other map |
| `Pages.Dissolve` | Lab11_xv6/deliverables/vm.c:283-298 | a directory without user pages can come apart into its frames |
| `Vm.Memory.Kalloc` | Lab11_xv6/deliverables/kalloc.c:82-95 | takes the first free frame, or fails exactly when there is none |
| `Vm.Memory.Kfree` | Lab11_xv6/deliverables/kalloc.c:59-78 | panics exactly outside the pool; otherwise the frame is filled with junk and put first on the list, which keeps the memory sound if the frame was held and breaks the list if it was already free |
| `Vm.Memory.FreeRange` | Lab11_xv6/deliverables/kalloc.c:46-53 | exactly the whole frames between the two addresses enter the pool, the last first, filled with junk; panics exactly on a frame outside the pool's range |
| `Vm.Memory.constructor` | Lab11_xv6/deliverables/kalloc.c:20-45 | memory as kinit finds it is sound: an empty list and every frame past the kernel held until freerange puts it in |
| `Vm.Memory.Walk` | Lab11_xv6/deliverables/vm.c:35-55 | finds the table of a page, or allocates one from the pool, or fails exactly when it is absent and may not or cannot be allocated |
| `Vm.Memory.MapOne` | Lab11_xv6/deliverables/vm.c:69-73 | maps one page of the flat map; fails exactly for want of a frame for a table, or because the page is mapped |
| `Vm.Memory.MapPages` | Lab11_xv6/deliverables/vm.c:60-80 | maps a range of the flat map page by page, taking exactly the missing tables from the pool; otherwise stops at the first page that has no table to be had or is mapped |
| `Vm.StepEffect` | Lab11_xv6/deliverables/vm.c:68-78 | mapping k pages and one more is mapping k + 1 pages of the flat map |
| `Vm.Memory.DropOne` | Lab11_xv6/deliverables/vm.c:264-277 | drops one page, or skips the 4MB of an absent table, in which there is nothing to drop |
| `Vm.Memory.DeallocUvm` | Lab11_xv6/deliverables/vm.c:255-279 | exactly the pages from newsz rounded up to oldsz leave the flat map and exactly their frames are freed |
| `Vm.Memory.FreeVm` | Lab11_xv6/deliverables/vm.c:283-298 | every user frame, table and the directory return to the pool once, no other frame does, and every other map is unchanged |
| `Vm.Memory.SetupKvm` | Lab11_xv6/deliverables/vm.c:118-136 | succeeds exactly with 65 free frames, with exactly the kernel's mappings: physical memory from KERNBASE up, read-only from 1 MB to the kernel's data, the devices at their own addresses, nothing open to users; otherwise the pool and every map are as before |
| `Vm.RegionShape` | Lab11_xv6/deliverables/vm.c:105-115 | the lines of kmap cover the pages intended, the last by 32-bit wrap-around of its size |
| `Vm.Memory.AllocUvm` | Lab11_xv6/deliverables/vm.c:221-249 | fresh pages exactly when there are frames for them and the missing tables, every byte of which a user reads as 0 while every other byte is as before; otherwise every map is restored and every user frame is back in the pool |
| `Vm.AllocBytes` | Lab11_xv6/deliverables/vm.c:234-246 | after allocuvm a user reads 0 at every address of the new pages, whatever their frames held, and the old byte everywhere else |
| `Vm.UndoAlloc` | Lab11_xv6/deliverables/vm.c:234-246 | deallocuvm and kfree take back all that the failing loop had mapped |
| `Vm.Memory.CopyUvm` | Lab11_xv6/deliverables/vm.c:315-343 | a new address space with equal bytes and flags on fresh frames, leaving the source alone; fails exactly when there are fewer frames than the pages before the first missing one need, panics exactly when it gets to a missing page; on failure all is restored except one page, lost exactly under the stated condition |
| `Vm.CopyBytes` | Lab11_xv6/deliverables/vm.c:325-335 | a user of the copy reads the source's byte at every copied address and has no other pages |
| `Vm.LeakExact` | Lab11_xv6/deliverables/vm.c:332-342 | a copy that fails for m frames loses a page exactly when m is 66 + 1025 t with 1024 t pages still within the copy |
| `Vm.SamePool` | Lab11_xv6/deliverables/kalloc.c:59-95 | equal ownership means equal free lists up to order |
| `Vm.Memory.KernRegion` | Lab11_xv6/deliverables/vm.c:129-134 | one line of kmap is mapped in full, or memory was short of 65 frames |
| `Vm.Memory.AllocOne` | Lab11_xv6/deliverables/vm.c:231-246 | one new page of 4096 zero bytes is mapped, or the pool was empty, or its last frame is in hand and no table could be had |
| `Vm.Memory.CopyOne` | Lab11_xv6/deliverables/vm.c:325-336 | one page is copied to a fresh frame with its flags, or memory ran out, with the page in hand lost when a table was wanted |
| `ProcTable.Ptable.constructor` | Lab11_xv6/deliverables/proc.c:10-17 | every slot starts unused |
| `ProcTable.Ptable.Wakeup1` | Lab11_xv6/deliverables/proc.c:457-465 | exactly the processes asleep on the channel become runnable, with nothing else of them or of others changed |
| `ProcTable.Ptable.Exit` | Lab11_xv6/deliverables/proc.c:227-268 | wakes the parent, gives every child to init, wakes init exactly if one is a zombie, and leaves a zombie; panics exactly for init |
| `ProcTable.Ptable.WaitScan` | Lab11_xv6/deliverables/proc.c:279-308 | reaps the first zombie child if there is one, leaving an unused slot with pid 0, no parent and killed clear; gives up without children or when killed, and sleeps otherwise |
| `ProcTable.Ptable.AllocProc` | Lab11_xv6/deliverables/proc.c:73-94 | takes the first unused slot with a new pid, or fails exactly when there is none |
| `ProcTable.Ptable.Kill` | Lab11_xv6/deliverables/proc.c:479-497 | sets killed of the first process with this pid, makes it runnable exactly if it slept, and changes nothing else; fails exactly when there is none |
| `SleepWakeup.InitInv` | Lab11_xv6/deliverables/proc.c:120-154 | the state in which init is the only process satisfies the invariant |
| `SleepWakeup.NextInv` | Lab11_xv6/deliverables/proc.c:180-497 | every step of every process and scheduler keeps the invariant |
| `SleepWakeup.AcqSleep` | Lab11_xv6/deliverables/sleeplock.c:22-32 | no step of acquiresleep puts a process to sleep on a lock that nobody will release |
| `SleepWakeup.RelSleep` | Lab11_xv6/deliverables/sleeplock.c:34-42 | releasesleep never leaves a sleeper behind on the lock it gives up |
| `SleepWakeup.ExitParent` | Lab11_xv6/deliverables/proc.c:250-266 | after exit every parent is alive and none sleeps in wait with a zombie child |
| `SleepWakeup.WaitFamily` | Lab11_xv6/deliverables/proc.c:272-312 | wait keeps the family tree, reaping a slot that is nobody's parent |
| `SleepWakeup.ForkFamily` | Lab11_xv6/deliverables/proc.c:180-222 | fork keeps the family tree, also when it fails halfway |
| `SleepWakeup.SleepWakeupTheorem` | Lab11_xv6/deliverables/proc.c:417-497 | in every state of every run: a sleeper on a sleeplock with its spinlock free has a holder to wake it; a sleeper in wait has no zombie child; every parent is neither unused nor zombie; a sleeplock has at most one holder |
| `SleepProgress.Handover` | Lab11_xv6/deliverables/sleeplock.c:22-42 | from every reachable state in which the lock's spinlock and ptable.lock are free, a run passes a sleeplock from its holder to any process asleep on it, and nothing else about the locks changes |
| `SleepProgress.FallsAsleep` | Lab11_xv6/deliverables/sleeplock.c:22-32 | acquiresleep of a locked lock can run to the point where the process sleeps on it with both spinlocks free |
| `SleepProgress.Takes` | Lab11_xv6/deliverables/sleeplock.c:22-32 | acquiresleep of an unlocked lock can run to its end, with this process the holder |
| `SleepProgress.Releases` | Lab11_xv6/deliverables/sleeplock.c:34-42 | releasesleep can run to its end; then the lock is free and exactly the processes asleep on it are awake |
| `SleepProgress.WaitDecides` | Lab11_xv6/deliverables/proc.c:279-308 | wait goes to sleep exactly when the process has children, none of them a zombie, and is not killed; otherwise it returns |
| `SleepProgress.WaitsAsleep` | Lab11_xv6/deliverables/proc.c:272-312 | wait can run to the point where such a process sleeps on itself with ptable.lock free |
| `SleepProgress.ExitIsReaped` | Lab11_xv6/deliverables/proc.c:227-312 | from every reachable state, a child's exit can be followed by its sleeping parent's waking and reaping its first zombie child |
| `SleepProgress.KilledWaiterReturns` | Lab11_xv6/deliverables/proc.c:272-312 | from every reachable state, after a kill a process asleep in wait can return from it |
| `SleepProgress.Forks` | Lab11_xv6/deliverables/proc.c:180-222 | fork can run to a runnable child of this process in any free slot |
| `SleepProgress.YieldsAndResumes` | Lab11_xv6/deliverables/proc.c:384-392 | a preempted process can get its processor back, and then the state is the one before |
| `Pipe.FifoTheorem` | Lab11_xv6/deliverables/pipe.c:78-121 | in every interleaving the bytes delivered are a prefix of the bytes accepted, at most PIPESIZE behind |
| `Pipe.ReadLaw` | Lab11_xv6/deliverables/pipe.c:100-121 | piperead sleeps or fails exactly on an empty pipe whose write end is open, by whether the process is killed; otherwise it gives n bytes, or all there are if fewer, and wakes the writers |
| `Pipe.WriteLaw` | Lab11_xv6/deliverables/pipe.c:78-98 | pipewrite stops short of its last byte only with 512 bytes in the pipe, and then fails exactly if the read end is closed or the process killed |
| `Pipe.Transfer` | Lab11_xv6/deliverables/pipe.c:78-121 | a writer and a reader taking turns deliver exactly min(n, PIPESIZE) further bytes of the message in every round until it is complete |
| `Pipe.WakeupLost` | Lab11_xv6/deliverables/pipe.c:84-96 | an event leaves a sleeper without reason exactly when a killed or abandoned writer with more than PIPESIZE bytes meets a sleeping reader |
| `Pipe.NoneForgotten` | Lab11_xv6/deliverables/pipe.c:78-121 | nobody ever sleeps on bytes or room that are there exactly in the runs without such a writer |
| `Pipe.ForgottenReader` | Lab11_xv6/deliverables/pipe.c:85-89 | a run in which a reader stays asleep on a full pipe |
| `Pipe.FullTest` | Lab11_xv6/deliverables/pipe.c:85 | the full test is right although both counters wrap modulo 2^32 |
| `Pipe.EmptyTest` | Lab11_xv6/deliverables/pipe.c:106 | the empty test is right although both counters wrap |
| `Pipe.SlotsApart` | Lab11_xv6/deliverables/pipe.c:93 | no byte on the way is overwritten |
| `Pipe.Ring.WriteTurn` | Lab11_xv6/deliverables/pipe.c:78-98 | from taking the lock to giving it up, the ring buffer does exactly the queue's write event, with the code's return, error or sleep |
| `Pipe.Ring.CopyOut` | Lab11_xv6/deliverables/pipe.c:113-117 | the copying loop takes out the oldest bytes, as many as asked for and there are |
| `Pipe.Ring.ReadTurn` | Lab11_xv6/deliverables/pipe.c:100-121 | from taking the lock to giving it up, the ring buffer does exactly the queue's read event |
| `Pipe.Ring.CloseEnd` | Lab11_xv6/deliverables/pipe.c:59-75 | closes one end, wakes the other side, and frees the pipe exactly when both are closed |
| `Pipe.Ring.PutByte` | Lab11_xv6/deliverables/pipe.c:93 | one byte goes to the end of the queue |
| `Pipe.Ring.TakeByte` | Lab11_xv6/deliverables/pipe.c:116 | the oldest byte comes out |
| `Grep.StarPattern` | Lab11_xv6/deliverables/grep.c:98-106 | a starred item reads some run of its character, zero included, before the rest |
| `Grep.OnePattern` | Lab11_xv6/deliverables/grep.c:93-95 | a plain item reads one fitting character before the rest |
| `Grep.EndPattern` | Lab11_xv6/deliverables/grep.c:91-92 | a final $ reads the empty rest of the text |
| `Grep.Matchhere` | Lab11_xv6/deliverables/grep.c:85-96 | true exactly when a prefix of the text is in the language of the pattern, all of it if the pattern ends with $; terminates |
| `Grep.Matchstar` | Lab11_xv6/deliverables/grep.c:99-106 | the loop finds a run of the character followed by a match exactly when there is one |
| `Grep.Match` | Lab11_xv6/deliverables/grep.c:72-82 | true exactly when the pattern matches somewhere, or at the start after ^ |
| `Grep.GrepLaws` | Lab11_xv6/deliverables/grep.c:72-96 | a literal pattern is found exactly where it stands in the text, after ^ exactly at its start, before $ exactly at its end, with both exactly if it is the whole text |
| `Grep.DotHere` | Lab11_xv6/deliverables/grep.c:93-95 | a dot matches exactly one character, whichever it is |
| `Grep.StarHere` | Lab11_xv6/deliverables/grep.c:98-106 | a starred character matches any number of that character, a starred dot any characters, before the rest |
| `Shell.GetToken` | Lab11_xv6/deliverables/sh.c:265-308 | the token's span lies inside the line and moves the cursor on unless at its end; a word is a maximal run of plain characters |
| `Shell.ParseRedirs` | Lab11_xv6/deliverables/sh.c:374-397 | terminates, stays inside the line, and records only whole words as file names |
| `Shell.ParseWords` | Lab11_xv6/deliverables/sh.c:429-442 | terminates, stays inside the line, and records only whole words as arguments |
| `Shell.ParseExec` | Lab11_xv6/deliverables/sh.c:415-446 | terminates on every input; the command's words are whole words of the line; what it makes of words and redirections is `ShellGrammar.GrammarTheorem` |
| `Shell.ParseBlock` | Lab11_xv6/deliverables/sh.c:399-413 | terminates on every input; the command's words are whole words of the line |
| `Shell.ParsePipe` | Lab11_xv6/deliverables/sh.c:361-372 | terminates on every input; the command's words are whole words of the line |
| `Shell.ParseLine` | Lab11_xv6/deliverables/sh.c:344-359 | terminates on every input; the command's words are whole words of the line |
| `Shell.ParseCmd` | Lab11_xv6/deliverables/sh.c:327-342 | accepts only with the whole line consumed |
| `Shell.ParseBacks` | Lab11_xv6/deliverables/sh.c:350-353 | terminates and keeps the command's words |
| `ShellGrammar.TokenExact` | Lab11_xv6/deliverables/sh.c:265-306 | gettoken returns a token exactly if that token stands there after white space: the end, a symbol, >> before >, or a maximal word |
| `ShellGrammar.SimpleFollow` | Lab11_xv6/deliverables/sh.c:415-446 | words and redirections in any order, ended by the line's end or one of |)&;, parse to the words as arguments with the redirections around them in order, the last outermost |
| `ShellGrammar.LineFollow` | Lab11_xv6/deliverables/sh.c:344-372 | every derivation of a line is what the parser follows, and it builds the derivation's tree |
| `ShellGrammar.LineDerive` | Lab11_xv6/deliverables/sh.c:344-446 | whatever the parser accepts has a derivation |
| `ShellGrammar.GrammarTheorem` | Lab11_xv6/deliverables/sh.c:327-446 | the parser accepts a line exactly if the grammar derives it with fewer than MAXARGS words in each simple command, and the tree is the one the derivation stands for |
| `ShellErrors.ErrorReason` | Lab11_xv6/deliverables/sh.c:327-446 | every panic of the parser has its reason in the line: a redirection without a file, a parenthesis where a word should be, MAXARGS words in one command, a block that is not closed, or something left over |
| `ShellRoundTrip.ArgsTrip` | Lab11_xv6/deliverables/sh.c:429-444 | printed arguments are read back one by one |
| `ShellRoundTrip.ExecTrip` | Lab11_xv6/deliverables/sh.c:415-446 | a printed simple command is read back |
| `ShellRoundTrip.BlockTrip` | Lab11_xv6/deliverables/sh.c:399-413 | a printed block is read back and followed by its redirections |
| `ShellRoundTrip.RedirTrip` | Lab11_xv6/deliverables/sh.c:374-397 | a printed redirection of a block is read back |
| `ShellRoundTrip.PipeTrip` | Lab11_xv6/deliverables/sh.c:361-372 | a printed pipeline is read back |
| `ShellRoundTrip.ListTrip` | Lab11_xv6/deliverables/sh.c:344-359 | a printed list is read back |
| `ShellRoundTrip.BackTrip` | Lab11_xv6/deliverables/sh.c:344-359 | a printed background command is read back |
| `ShellRoundTrip.LineTrip` | Lab11_xv6/deliverables/sh.c:344-359 | a printed command followed by the end of the line or a closing parenthesis is read back, with the cursor just past it |
| `ShellRoundTrip.RoundTrip` | Lab11_xv6/deliverables/sh.c:327-342 | for every tree of legal words with fewer than MAXARGS arguments, parsing its fully parenthesised printing returns the same tree |
| `ShellShow.ItemsMatch` | Lab11_xv6/deliverables/sh.c:374-397 | words and redirections written in any order are derived as written |
| `ShellShow.ShowTrip` | Lab11_xv6/deliverables/sh.c:327-446 | a derivation of legal words, redirections before, between and after them, written out and parsed, gives the derivation's tree |
| `ShellShow.LineOfTree` | Lab11_xv6/deliverables/sh.c:344-446 | every legal tree is what its derivation with fewest parentheses stands for |
| `ShellShow.MinimalRoundTrip` | Lab11_xv6/deliverables/sh.c:327-342 | every legal tree, written with redirections after the words and parentheses only where precedence needs them, is parsed back to itself |
| `ShellShow.ParensNeeded` | Lab11_xv6/deliverables/sh.c:344-413 | that writing has a parenthesis exactly when the tree does not follow the precedences of ; & | and redirection, and then so has every other writing of the tree |
| `ShellParser.Parser.GetTok` | Lab11_xv6/deliverables/sh.c:265-308 | the two scanning loops return the token of the grammar and leave the cursor past it |
| `ShellParser.Parser.PeekAt` | Lab11_xv6/deliverables/sh.c:310-320 | moves past white space only and tells whether one of the characters is next |
| `ShellParser.Parser.ReadRedirs` | Lab11_xv6/deliverables/sh.c:374-397 | the loop returns exactly the redirections of the grammar |
| `ShellParser.Parser.ReadWords` | Lab11_xv6/deliverables/sh.c:429-444 | the loop returns exactly the arguments and redirections of the grammar, or its error |
| `ShellParser.Parser.ReadExec` | Lab11_xv6/deliverables/sh.c:415-446 | returns the command of the parsing function, words and redirections included, and leaves the cursor where it ends |
| `ShellParser.Parser.ReadBlock` | Lab11_xv6/deliverables/sh.c:399-413 | returns the command of the grammar and leaves the cursor where it ends |
| `ShellParser.Parser.ReadPipe` | Lab11_xv6/deliverables/sh.c:361-372 | returns the command of the grammar and leaves the cursor where it ends |
| `ShellParser.Parser.ReadBacks` | Lab11_xv6/deliverables/sh.c:350-353 | the loop wraps the command once for each ampersand |
| `ShellParser.Parser.ReadLine` | Lab11_xv6/deliverables/sh.c:344-359 | returns the command of the grammar and leaves the cursor where it ends |
| `ShellParser.Parser.ReadCmd` | Lab11_xv6/deliverables/sh.c:327-339 | returns the command of the grammar, or its error, leftovers included |
| `ShellParser.NulTerminate` | Lab11_xv6/deliverables/sh.c:449-493 | overwrites exactly the characters just past the words of the command |
| `ShellParser.NulTerminated` | Lab11_xv6/deliverables/sh.c:449-493 | on every line that parses, each argument and file name, read as a C string after nulterminate, is the text of its token |
| `ShellParser.ShellRoundTripTheorem` | Lab11_xv6/deliverables/sh.c:327-342 | a legal command, printed, parsed and NUL-terminated in place, is itself again |
| `ShellParser.Parser.SkipSpace` | Lab11_xv6/deliverables/sh.c:272-273 | the loop stops at the first character that is not white space |

## Left out

- FileWrite.Filewrite: the driver of a device inode is a function parameter; writing to a pipe is `Pipe.Ring.WriteTurn`.
- FileSystem.FileSys.Writei: on a device inode the result names the driver, whose answer `FileWrite.Chunk` takes as a parameter.
- FileSystem.FileSys.Readi: asks for files without holes; on a hole the code would allocate a block while reading.
- FileCrash.CrashDuringFilewrite: one process runs its operations one after the other; operations of other processes between them are covered by `GroupCommit.GroupCommitTheorem`, not on the level of files.
- LogFile.Log.Bwrite: the panic on a buffer that is not locked is in `BufferCache.Cache.Bwrite`.
- Vm.Memory.AllocUvm: asks that the pages above the old size are unmapped, as every caller ensures; with one mapped the code panics in mappages, which `Vm.Memory.MapPages` models.
- Vm.Memory.CopyUvm: sz is at most KERNBASE, as in every call.
- Vm.Memory.DeallocUvm: oldsz is at most KERNBASE, as in every call; the loop's behaviour in the kernel half is not modelled.
- Vm.Memory.MapPages: the range does not run past the end of the address space and is not empty, as in every call.
- Umalloc.Heap.Malloc: when the byte count given to sbrk is not a positive int the result is Unbacked and nothing more is said, because that depends on growproc.
- BufferCache.Cache.Modify: whoever holds a buffer's lock changes its data; that such a change is followed by log_write or bwrite before brelse is the callers' discipline and appears as a precondition of `BufferCache.Cache.Unlock`.
- GroupCommit.FullGroupPanics: buffers held by readers outside any operation are left out; they could make bget panic for a smaller group too.
- BufferCache.Cache.Lock: waiting for a held lock is left to `SleepWakeup`; the cache is modelled from the moment the lock is granted.
- ProcTable.Ptable.AllocProc: nextpid is unbounded, so its wrap after 2^31 processes is not modelled; the kernel stack set up after the lock is released is left out.
- ProcTable.Ptable.Exit: closing the open files and dropping the current directory, done before the lock is taken, are left out.
- ProcTable.Ptable.WaitScan: freeing the child's kernel stack is left out, and its address space is `Vm.Memory.FreeVm`.
- SleepWakeup.SleepWakeupTheorem: kernel stacks, open files, pids and address spaces of processes are left out of the machine, as are the locks behind channels other than sleeplocks and processes.
- Pipe.FifoTheorem: pipealloc's file structures are left out; a pipe starts open at both ends and empty.
- Grep.Match: texts and patterns are strings without NUL; grep's line buffer, which drops lines longer than itself, is left out.
- Shell.ParseCmd: lines are strings without NUL; runcmd and the built-in cd are left out.
- File theorems start from images in which every block below the size is allocated; mkfs rounds the size of the root directory up, which breaks this when it is already a multiple of the block size.
- The in-memory inode table holds every inode; the inode cache's slots, reference counts and locks (iget, iput, ilock) and device numbers are left out.
- Paths: skipelem and namex are left out.
- Link counts across create, link and unlink are left out: entries can be made in a removed current directory, so the obvious equality does not hold.
- Concurrency inside the file system and the page pool is left out: each operation of `FileSystem`, `Directory` and `Vm` runs alone, as its locks arrange.
- Spinlocks are the boundaries of atomic steps; their implementation and memory ordering are left out.
- Device drivers, traps, boot code, the console, exec, the system call layer and mkfs itself are left out.
- Bytes and words are integers in the stated ranges; block contents in `LogDisk` and `BufferCache` are sequences that are only copied.
