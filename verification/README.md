# xv6 for RISC-V, verified in Dafny

A model of the parts of xv6-riscv whose correctness depends on every crash point, every interleaving
or every input, with proofs about it. `dafny verify dfyconfig.toml` checks the whole project.

Each component is modelled in the form it has in the kernel. Code that updates a record, a table or a
buffer in place is a class (or a method on an array) whose methods are proved against a specification.
Code whose correctness is about interleavings is a state machine with one step per atomic action; the
theorems there hold in every state of every run.

| files | source | what is proved |
|---|---|---|
| `blocks`, `crash`, `log` | `kernel/log.c` | the block writes of commit and recovery; a crash anywhere leaves a transaction all-old or all-new |
| `logmachine`, `loghistory` | `kernel/log.c` | group commit: concurrent operations, commit, crash and recovery, over whole runs; log space; nothing logged is lost without a crash |
| `bio`, `cachemachine`, `cachehistory` | `kernel/bio.c` | the LRU ring as linked records; coherence of cache, pins and disk over whole runs; which buffer is recycled and what bread returns, from the history of the run |
| `fsformat`, `fsspec`, `fs` | `kernel/fs.c`, `kernel/file.c` | block ownership, file contents as byte sequences, the transactions of a write and their budget |
| `fslocal` | `kernel/fs.c` | the file system one inode at a time: what the holder of an inode's lock may write, and that it leaves the others alone |
| `fscrash` | `kernel/fs.c`, `kernel/file.c`, `kernel/log.c` | file system and log together, with operations that interleave: what a crash at any point of any run leaves of the files |
| `fsimage` | `mkfs/mkfs.c`, `kernel/file.c` | an image laid out as mkfs does on which a write needs its whole budget |
| `proc`, `sleepwakeup`, `proctree` | `kernel/proc.c`, `kernel/sleeplock.c` | lock ownership, no lost wakeup from processes and interrupt handlers, sleep locks, exit/wait/reparent; the process tree, how calls end, no deadlock |
| `vmspec`, `vm` | `kernel/vm.c`, `kernel/kalloc.c`, `kernel/proc.c` | Sv39 trees refine a flat map; every page has one use, also on failure paths; exactly when memory suffices |
| `virtio`, `virtqueue`, `virtdata` | `kernel/virtio_disk.c` | descriptor allocation; driver, device and interrupt over whole runs with 16-bit indices; every read and write is carried out once, on the right buffer and sector |
| `pipe` | `kernel/pipe.c` | the ring with 32-bit counters; readers and writers over whole runs: bytes in order, who sleeps and why, how calls end |
| `umalloc` | `user/umalloc.c` | the circular free list, coalescing, conservation of units, live blocks left alone |
| `sh`, `shgrammar` | `user/sh.c` | the parser accepts exactly the lines of a grammar stated without it and gives each its meaning; trees print and parse back; in-place termination of words |
| `grep` | `user/grep.c` | the matcher against a declarative meaning; line buffering on every input |

How the components meet. `fs` reads a block as its latest logged contents, which is what
`CacheHistory.BreadLatest` proves of the cache, and records the log_writes of each transaction;
`log` shows that the code issues exactly the block-write sequences that `crash` and `logmachine` reason
about. In `fscrash` operations lock inodes and pass blocks to log_write in any interleaving, on the
machine of `logmachine`; `fs` shows that the log_writes of writei and itrunc are such as the lock's holder
may make, and `FsCrash.FileWriteRuns` that what filewrite does is part of a run. `sleepwakeup`
has, besides sleep locks and wait, any code that calls sleep(chan, lk) and wakeup(chan) under a spin lock
of its own, in a process or an interrupt handler; `pipe` therefore takes sleep and wakeup as atomic with respect to the pipe's lock, as
`SleepWakeup.NoLostWakeup` allows. The log and the file system are proved for any block type with a
header codec or a format that obeys its law, and `LogHeader.XvCodecLaw` and `FsFormat.XvFormatLaw`
prove the laws of the real 1024-byte little-endian layouts.

Where the code does not do what one would expect, the code is followed:

- The "too big a transaction" panic of log_write compares with `log.size - 1`, and mkfs makes the log
  region LOGSIZE blocks, one too few: an operation that keeps to its MAXOPBLOCKS blocks can still panic.
  `GroupCommit.TooBigUnreachableIff` gives the exact condition, `log.size > LOGSIZE`.
- log_write checks for room before it looks for the block in the header, so rewriting a block that is
  already logged can panic; `GroupCommit.AbsorbedWritePanics` is such a run. `GroupCommit.TooBigExactly`
  says when: exactly when the header lists LOGSIZE blocks, and then every open operation has used up its
  MAXOPBLOCKS. An operation that makes each call with fewer than MAXOPBLOCKS blocks logged is safe, and
  `FsCode.FileSystem.WriteI` is one.
- A writer killed after inserting bytes for which it has not yet called wakeup returns at
  `kernel/pipe.c:84-87` without waking readers. `Pipe.KilledWriterStrands` is a run that leaves a reader
  asleep on a nonempty pipe; `Pipe.StrandedIff` and `Pipe.LeftSince` say exactly when that happens and
  when it is over.
- grep stops printing at the first line that holds a NUL or does not fit in its buffer. `Grep.GrepFile`
  says what it prints of any input, `Grep.NothingLost` exactly when a matching line is lost, and
  `Grep.LineHidden` gives such an input.
- kfree accepts a page that is free already; then no free list is left (`VmSpec.FreedTwice`).
- The second failure path of proc_pagetable is dead: the trapframe needs no table that the trampoline did
  not need, so that `VmCode.Machine.ProcPagetable` fails exactly with fewer than three free pages.
- In exit, wakeup comes before the state is set to ZOMBIE. `SleepWakeup.ExitWaitHandover` shows that
  this is safe because wait_lock is held across both.

Assumptions, stated as preconditions or in the initial states: memory is sequentially consistent; a
block write is atomic; the initial file system image has no holes below a file's size and its free map
marks exactly the metadata and the owned blocks (`FsImage.ImageValid` is such an image); the
device completes each head it fetched once, in any order. I/O results (either_copyin, either_copyout,
sbrk, how many bytes a read returns) and the choice of the next step are parameters.

## Model

| member | source | states |
|---|---|---|
| `RedoLog.CommitRepList` | kernel/log.c:178-203 | after any number k of commit's block writes the disk stands for the old contents if the header write is not among them, and for the new contents from then on, through installation and the erased header |
| `RedoLog.RecoverRepList` | kernel/log.c:68-123 | recovery can be cut off after any write and the disk still stands for the same contents; when complete, the home blocks hold them |
| `Crash.CommitRep` | kernel/log.c:178-203 | the same for the header block as encoded on disk, including the empty transaction, which writes nothing |
| `Crash.RecoverRep` | kernel/log.c:116-123 | a full or partial recovery keeps what the disk stands for, and a full one leaves an empty header |
| `Crash.CrashesRecover` | kernel/log.c:68-123 | any number of recoveries, each cut off anywhere, followed by a complete one, gives the contents the disk stood for |
| `Crash.CrashAtomicity` | kernel/log.c:68-203 | crash after any k writes of commit, then any list of crashed recoveries: every home block is its old value if k is at most the number of logged blocks, else all logged blocks have their new values |
| `LogHeader.XvCodecLaw` | kernel/log.c:86-114 | reading back a header written into a block gives the same list of block numbers, for every list of at most LOGSIZE 32-bit numbers and any former block contents |
| `LogHeader.FillHeader` | kernel/log.c:102-114 | the loop of write_head produces the encoding of lh.block[0..n] |
| `LogHeader.ReadHeader` | kernel/log.c:86-97 | the loop of read_head recovers the encoded list |
| `LogHeader.HeaderLayout` | kernel/log.c:35-38 | the count is the first word of the block and the block numbers follow |
| `LogCode.Log.BWrite` | kernel/bio.c:106-112 | one block write: cache and disk get the contents and the trace one entry |
| `LogCode.Log.WriteHead` | kernel/log.c:102-114 | issues one write, of the in-memory header, to the header block |
| `LogCode.Log.WriteLog` | kernel/log.c:178-191 | copies cached home blocks to the log, in header order |
| `LogCode.Log.InstallTrans` | kernel/log.c:68-83 | copies log blocks to their home locations, in header order |
| `LogCode.Log.CommitRecord` | kernel/log.c:193-197 | the first half of commit issues the copies to the log and then the header, in that order |
| `LogCode.Log.CommitInstall` | kernel/log.c:198-201 | the second half issues the installation and then the empty header |
| `LogCode.Log.Commit` | kernel/log.c:193-203 | the whole trace of disk writes is the sequence whose every prefix CrashAtomicity is about; afterwards cache and disk agree, and the home blocks are what bread returned before |
| `LogCode.Log.RecoverFromLog` | kernel/log.c:116-123 | likewise for recovery |
| `LogCode.Log.BeginOp` | kernel/log.c:126-143 | one round of its loop: admits the operation exactly when no commit is under way and the header and MAXOPBLOCKS blocks for each open operation and this one fit |
| `LogCode.Log.EndOp` | kernel/log.c:146-175 | panics exactly during a commit; the last operation to end issues the whole commit, after which cache and disk agree; otherwise only the count changes |
| `LogCode.Log.LogWrite` | kernel/log.c:214-235 | the two panics in the order the code checks them; absorption: a block already in the header is not added again; what commit needs of the header is kept |
| `GroupCommit.CountStep` | kernel/log.c:126-175 | every step keeps: outstanding is the number of open operations, no operation is open while committing, the header lists blocks outside the log that fit in it, and an idle log is empty |
| `GroupCommit.DiskStep` | kernel/log.c:126-235 | every step, whatever operations log, crash steps included, keeps: the disk stands for the effect of the committed groups |
| `GroupCommit.HistStep` | kernel/log.c:126-235 | every step keeps each operation's writes together |
| `GroupCommit.RunInv` | kernel/log.c:126-235 | all of these in every state of every run |
| `GroupCommit.RecoversToGroups` | kernel/log.c:116-203 | in every state of every run, recovery would give the initial disk with a sequence of whole commit groups applied, and all writes of one operation fall in one group or in none |
| `GroupCommit.GroupsDurable` | kernel/log.c:193-203 | a committed group stays committed: the groups at an earlier state are a prefix of those at any later one, across crashes |
| `GroupCommit.CommitExclusive` | kernel/log.c:126-235 | while committing, no operation is outstanding and no begin_op, log_write or end_op can take a step; the panics "log.committing" and "log_write outside of trans" are unreachable |
| `GroupCommit.RoomStep` | kernel/log.c:126-142 | begin_op's test keeps the reservation in every interleaving of operations that add at most MAXOPBLOCKS blocks |
| `GroupCommit.Reservation` | kernel/log.c:126-142 | if no operation adds more than MAXOPBLOCKS blocks to the header, lh.n plus what the open operations may still add never exceeds LOGSIZE; an idle log is empty and always admits |
| `GroupCommit.TooBigExactly` | kernel/log.c:214-224 | with log.size greater than LOGSIZE a log_write panics exactly when the header lists LOGSIZE blocks; if operations add at most MAXOPBLOCKS blocks, every open one has then added all of them |
| `GroupCommit.NoTooBig` | kernel/log.c:214-224 | with log.size greater than LOGSIZE, if each call of log_write comes from an operation that has added fewer than MAXOPBLOCKS blocks, the "too big a transaction" panic never happens, in any interleaving |
| `GroupCommit.ThriftyNoTooBig` | kernel/log.c:214-235 | the same for operations that make each call having passed fewer than MAXOPBLOCKS different blocks to log_write, a condition on each operation alone, whatever the others have put into the header |
| `GroupCommit.TooBigUnreachableIff` | mkfs/mkfs.c:25 | that panic is unreachable for all such operations if and only if log.size is greater than LOGSIZE; mkfs makes them equal |
| `GroupCommit.AbsorbedWritePanics` | kernel/log.c:214-228 | a run in which rewriting an already logged block panics, although no operation adds more than MAXOPBLOCKS blocks and log.size is greater than LOGSIZE |
| `GroupHistory.NoneLost` | kernel/log.c:126-235 | without a crash in between, what was committed or waiting and all log_writes made since are committed or waiting, in order |
| `GroupHistory.AllCommitted` | kernel/log.c:146-175 | when no operation is open and no commit under way, all of it is committed: end_op returns with everything durable |
| `GroupHistory.AllMade` | kernel/log.c:214-235 | the log_writes that RecoversToGroups speaks about are exactly those the operations made |
| `GroupHistory.OpenExactly` | kernel/log.c:126-175 | log.outstanding is the number of operations begun and not ended since the last crash |
| `GroupHistory.HeaderExact` | kernel/log.c:214-235 | log absorption: the header lists each block logged since the last commit exactly once, and no other |
| `GroupHistory.BreadSees` | kernel/log.c:214-235 | outside recovery, bread returns the committed groups and every log_write since, in order |
| `GroupHistory.GoesOn` | kernel/log.c:116-203 | a commit or a recovery that has begun has a next block to write or is done |
| `GroupHistory.Commits` | kernel/log.c:146-175 | the last end_op, and only it, starts the commit; it goes on one block at a time and then lets operations begin |
| `BufferRing.MoveToFront` | kernel/bio.c:116-137 | the six link assignments of brelse turn a doubly linked ring in some order into one with the buffer first and the others in the same order |
| `BufferRing.BCache.constructor` | kernel/bio.c:36-53 | binit links all NBUF buffers into one ring, each exactly once |
| `BufferRing.BCache.BGet` | kernel/bio.c:58-89 | returns a buffer that holds the block if there is one; else the least recently used unreferenced one, claimed; else none (panic), changing nothing; the ring is intact |
| `BufferRing.BCache.BRelse` | kernel/bio.c:116-137 | drops one reference; if it was the last, the buffer comes first on the ring and any two others keep their order, else the ring stays as it is; the links are intact |
| `BufferRing.ReleasedOrder` | kernel/bio.c:124-134 | the same of the specification, for every cache |
| `BufferRing.GetFails` | kernel/bio.c:58-89 | bget panics exactly when the block is not cached and every buffer is referred to; otherwise it changes the buffer it returns, which holds the block, and no other |
| `CacheCoherence.StepInv` | kernel/bio.c:58-151 | every step of bget, bread, modification, log_write, commit's bwrite and bunpin, and brelse keeps the cache invariant |
| `CacheCoherence.RunInv` | kernel/bio.c:58-151 | the invariant in every state of every run |
| `CacheCoherence.Coherence` | kernel/bio.c:58-151 | one buffer at most per block of the disk; one holder at most per buffer; a valid unlocked buffer has the latest logged contents and equals the disk unless it is pinned by the one log entry of its block; a pinned block is cached, valid and referenced, so it cannot be recycled |
| `CacheCoherence.BreadReturnsLatest` | kernel/bio.c:92-103 | whoever holds a buffer that they have not modified sees the latest logged contents; if it still has to be read, the disk has them |
| `CacheHistory.RingByAge` | kernel/bio.c:116-137 | in every run the ring is in the order of last releases, buffers never released last in the order of binit |
| `CacheHistory.RecyclesOldest` | kernel/bio.c:75-88 | in every run, if the block is not cached, bget takes a buffer without references, and of all of these the one released longest ago, where buffers never released come before all others |
| `CacheHistory.ContentsInv` | kernel/bio.c:58-151 | in every run a valid buffer holds what the last change of its block stored, and so does the disk or the log for a block in no valid buffer |
| `CacheHistory.BreadLatest` | kernel/bio.c:92-103 | so whoever refers to a valid buffer finds in it what the last change of its block stored, whatever was recycled, written or logged since; if the buffer is yet to be read, that is on the disk |
| `CacheHistory.PinnedExactly` | kernel/bio.c:139-151 | a block is pinned exactly from a log_write until the next bunpin |
| `CacheHistory.DiskExactly` | kernel/bio.c:105-112 | the disk holds each block as the last bwrite found it |
| `CacheHistory.NothingForgotten` | kernel/bio.c:58-151 | a block whose latest contents are not on the disk is pinned, or its buffer is locked by a thread that has yet to log or write its change |
| `CacheHistory.RefsStep` | kernel/bio.c:58-137 | bget adds a reference to a buffer with the block, acquiresleep gives its lock, brelse gives up the lock and then the reference |
| `FsFormat.DinodeRoundTrip` | kernel/fs.c:225-241 | storing an inode in slot k of an inode block and loading slot j gives the stored inode if j is k and leaves the others alone |
| `FsFormat.XvFormatLaw` | kernel/fs.h:29-61 | bitmap bits, indirect words, dinodes and file bytes of real 1024-byte blocks behave as independent cells |
| `FsFormat.DinodeLayout` | kernel/fs.h:31-39 | dinode k lies at byte 64k of its block: type, major, minor and nlink in two bytes each, size and addresses in four, little-endian |
| `FsFormat.BitsAndWords` | kernel/fs.h:44-51 | bit k of a bitmap block is bit k % 8 of byte k / 8; word k of an indirect block is its four bytes, little-endian |
| `FsSpec.MarkedBits` | kernel/fs.c:65-105 | setting or clearing one block's bit changes no other block's bit, across bitmap blocks |
| `FsSpec.GrowTop` | kernel/fs.c:388-396 | storing a fresh block in an inode's empty address keeps single ownership and moves no other reference |
| `FsSpec.GrowLeaf` | kernel/fs.c:407-416 | likewise for a word of the indirect block |
| `FsSpec.ShrinkTop` | kernel/fs.c:432-437 | the direct block that itrunc frees is marked and owned by that address alone, and freeing it keeps single ownership |
| `FsSpec.ShrinkLeaf` | kernel/fs.c:439-445 | likewise for the entries of the indirect block, which stay in place while they are being freed |
| `FsSpec.ShrinkIndirect` | kernel/fs.c:446-449 | likewise for the indirect block, once nothing it points to is owned |
| `FsSpec.FileSpliced` | kernel/fs.c:505-539 | bytes put into one block of a file appear at that file offset and nowhere else, growing the file if need be |
| `FsSpec.FileSlice` | kernel/fs.c:471-496 | the bytes of one block are the file's bytes at that offset |
| `FsSpec.OthersExtended` | kernel/fs.c:382-421 | growing one inode leaves the contents and the stored dinode of every other file as they were |
| `FsSpec.OthersWritten` | kernel/fs.c:505-539 | so does writing one of its data blocks |
| `FsSpec.InodeWritten` | kernel/fs.c:225-241 | iupdate makes the inode on disk equal the one in memory and disturbs no other dinode or file |
| `FsSpec.SpentBound` | kernel/file.c:155-174 | three blocks' worth of bytes touch at most four data blocks, of which all four cannot be new |
| `FsSpec.BudgetStep` | kernel/fs.c:505-530 | each round of writei adds at most a data block, a bitmap block if it had to allocate, and once the indirect block with its bitmap block |
| `FsSpec.BudgetEnd` | kernel/fs.c:505-539 | hence at most nine blocks before the inode is stored |
| `FsSpec.BudgetReached` | kernel/file.c:155-174 | a write that spans four blocks, the last three and the indirect block missing, on a disk whose free blocks have different bitmap blocks, logs at least ten different blocks: four data, four bitmap, the indirect and the inode block |
| `FsSpec.ThriftyLast` | kernel/fs.c:505-539 | log_writes of at most nine different blocks followed by one more call: before each call fewer than MAXOPBLOCKS blocks are logged |
| `FsLocal.LocalFrame` | kernel/fs.c:292-453 | whether an inode holds a file depends only on its dinode and the blocks it points to |
| `FsLocal.OwnUnique` | kernel/fs.c:382-421 | the dinode determines which blocks are the inode's |
| `FsLocal.ImageSplit` | kernel/fs.c:65-453 | in a consistent file system every marked data block belongs to exactly one inode, and every inode holds its file in blocks of its own |
| `FsLocal.ImageJoin` | kernel/fs.c:65-453 | and conversely inodes that each hold their file, with no block in common and the bitmap marking exactly their blocks, are a consistent file system |
| `FsLocal.LocalAside` | kernel/fs.c:65-241 | a log_write of a free block's bit, of the bit or the contents of a block that is not another inode's, or of the inode's own slot changes no other dinode, no block of another inode and no bit of one |
| `FsLocal.BitsAside` | kernel/fs.c:65-105 | afterwards the blocks are still divided among the inodes as the bitmap says |
| `FsLocal.OtherAside` | kernel/fs.c:65-241 | and every other inode still holds its file |
| `FsLocal.SoloEnd` | kernel/fs.c:505-539 | if a transaction under one inode's lock leaves a consistent file system, no other file has changed |
| `FsLocal.FilesUnique` | kernel/fs.c:65-453 | a disk holds the files of one file system only |
| `FsCode.FileSystem.ScanMap` | kernel/fs.c:74-83 | the first clear bit of one bitmap block, or none before its end or the end of the disk |
| `FsCode.FileSystem.Claim` | kernel/fs.c:77-81 | the block is marked and zeroed; exactly its bitmap block and the block itself are logged |
| `FsCode.FileSystem.BAlloc` | kernel/fs.c:65-88 | returns the first unmarked block, now marked and zeroed, or 0 exactly when every block is marked; both log_writes are such as the lock's holder may make |
| `FsCode.FileSystem.BFree` | kernel/fs.c:91-105 | panics exactly when the block is not marked, else unmarks it and nothing else |
| `FsCode.FileSystem.TopBlock` | kernel/fs.c:388-396 | the block at an address of the inode, allocated if missing; ownership is kept and every newly owned block was logged with its bitmap block |
| `FsCode.FileSystem.LeafBlock` | kernel/fs.c:407-416 | likewise through the indirect block |
| `FsCode.FileSystem.IndirectBlock` | kernel/fs.c:399-418 | likewise, allocating the indirect block itself if missing; a full disk in between leaves a consistent state |
| `FsCode.FileSystem.BMap` | kernel/fs.c:382-421 | returns the block that holds file block bn; changes nothing if it was there; 0 only when the disk is full; panics exactly when bn is out of range; keeps ownership and every other inode |
| `FsCode.FileSystem.BlockFor` | kernel/fs.c:517-519 | as used by writei: no file changes its contents, allocation or not, and a block below the file's size costs no bitmap block |
| `FsCode.FileSystem.IUpdate` | kernel/fs.c:225-241 | stores the in-memory inode in its slot |
| `FsCode.FileSystem.ILock` | kernel/fs.c:292-317 | loading an inode from disk gives what was last stored; panics exactly when its type is 0 |
| `FsCode.FileSystem.WriteBlock` | kernel/fs.c:516-528 | one round writes exactly its bytes into the file, or none on a full disk or failed copy; all other files are as before |
| `FsCode.FileSystem.WriteLoop` | kernel/fs.c:516-528 | after the loop the file is the old one overwritten with the first tot bytes of the source |
| `FsCode.FileSystem.StoreInode` | kernel/fs.c:530-538 | the new size is set and stored, and every file is in order again |
| `FsCode.FileSystem.WriteBytes` | kernel/fs.c:516-538 | past the range checks: the file is overwritten with the first tot bytes and stored, all other inodes stay, every newly owned block was logged with its bitmap block, and the log budget is kept |
| `FsCode.FileSystem.WriteI` | kernel/fs.c:505-539 | returns -1 exactly when the offset is past the end, off+n overflows or the file would be too long; else r bytes of the file at off are replaced, its size is the maximum of the old size and off+r, all other files are unchanged; r is short only on a failed copy or a full disk; its log_writes take one consistent file system to another and are all such as the holder of the inode's lock may make; for up to three blocks' worth of bytes they name at most MAXOPBLOCKS blocks, fewer before each call, and in the worst case no fewer |
| `FsCode.FileSystem.ReadBlock` | kernel/fs.c:480-494 | a block below the size is present, so reading allocates nothing |
| `FsCode.FileSystem.ReadLoop` | kernel/fs.c:480-494 | the loop reads the slice in order, stopping early only at a failed copy out, and changes nothing |
| `FsCode.FileSystem.ReadI` | kernel/fs.c:471-496 | returns exactly the slice of the file clipped at its size, 0 past the end or on overflow, -1 exactly when a copy out failed, after the bytes before it; changes nothing |
| `FsCode.FileSystem.TruncDirect` | kernel/fs.c:432-437 | frees the direct blocks without panic |
| `FsCode.FileSystem.TruncIndirect` | kernel/fs.c:439-449 | frees all entries and then the indirect block without panic |
| `FsCode.FileSystem.ITrunc` | kernel/fs.c:425-453 | "freeing free block" is unreachable; exactly the blocks the inode owned lose their owner and their bitmap bit; the file is empty and the others are unchanged; its log_writes take one consistent file system to another and are all such as the holder of the inode's lock may make |
| `FsCode.FileSystem.WriteChunk` | kernel/file.c:162-167 | begin_op, writei and end_op: one transaction of at most MAXOPBLOCKS blocks, fewer before each log_write, all of it writes that the lock's holder may make, that turns the old disk and files into the new ones |
| `FsCode.FileSystem.FileWrite` | kernel/file.c:155-174 | there is one transaction for each chunk, and they are all there is: run one after another from the old disk they give the new one; each is a transaction between consistent file systems of at most MAXOPBLOCKS blocks; after each but the last the file has one more whole chunk; returns n exactly when all was written, else -1; it stops early only at a chunk that would make the file too large, at a failed copy, or on a full disk |
| `FsImage.ImageValid` | mkfs/mkfs.c:20-27 | an image with the regions where mkfs puts them, in any block format that obeys the law, is a consistent file system |
| `FsImage.ImageWorst` | kernel/file.c:155-174 | appending a chunk to one of its files meets the worst case of the budget |
| `FsImage.WorstWrite` | kernel/file.c:155-174 | writei on this image writes the whole chunk and logs exactly MAXOPBLOCKS different blocks, so the bound is tight |
| `FsImage.ImageStarts` | mkfs/mkfs.c:20-27 | in the kernel's own block formats this image is an initial state of file system and log |
| `FsCrash.ImageFrame` | kernel/fs.c:225-539 | whether a disk holds a consistent file system with given contents depends only on the blocks from the inodes on, so not on the log region |
| `FsCrash.StepInv` | kernel/log.c:126-235 | every step of the log and of any number of operations that lock, log and unlock in any interleaving keeps: bread shows every unlocked inode with the file its last unlock left, no block belongs to two inodes, and the committed groups amount to a consistent file system with the files of the first `kept` unlocks |
| `FsCrash.RunInv` | kernel/log.c:126-235 | this holds in every state of every run |
| `FsCrash.FilesSurvive` | kernel/log.c:68-203 | a crash at any point of any run, with any number of crashes during recovery, leaves a consistent file system whose files are those after the first `kept` unlocks, in that order, however the log_writes of different operations interleaved |
| `FsCrash.FilesShown` | kernel/fs.c:292-317 | while other inodes are being changed, an inode that is not locked shows the file that its last unlock left |
| `FsCrash.FilesDurable` | kernel/log.c:193-203 | an update that has become durable is never lost, reordered or changed by any later step |
| `FsCrash.CommittedKept` | kernel/log.c:146-175 | when a commit that had blocks to write is over, every update done so far is durable |
| `FsCrash.QuietDurable` | kernel/log.c:146-175 | whenever no operation is in progress, a crash, with any crashes during recovery, leaves every file as all updates so far have made it |
| `FsCrash.OpsWhole` | kernel/log.c:126-175 | of what one operation did to any number of inodes a crash keeps all or nothing, and nothing while the operation is open |
| `FsCrash.NeverTooBig` | kernel/log.c:214-224 | with log.size greater than LOGSIZE, operations that have logged fewer than MAXOPBLOCKS blocks before each call never meet the "too big a transaction" panic, however they interleave |
| `FsCrash.FileWriteSurvives` | kernel/file.c:155-174 | after a crash during filewrite, with any other operations before it and any on other files meanwhile, the file has a whole number of chunks written, or all that was written |
| `FsCrash.TxRuns` | kernel/file.c:162-167 | a transaction of the code (begin_op, ilock, its log_writes, iunlock, end_op and the whole commit) is part of a run, for a log of more than MAXOPBLOCKS blocks, as mkfs makes it |
| `FsCrash.FileWriteRuns` | kernel/file.c:155-174 | so is the sequence of transactions that FileWrite's contract describes, with the disk and the files it says |
| `FsCrash.ChunkedResults` | kernel/file.c:155-174 | and what they leave of the file is what FileWriteSurvives assumes of filewrite |
| `Processes.Exclusive` | kernel/proc.c:481-499 | the locks a process holds at each program point are exclusive |
| `Processes.LocksStep` | kernel/proc.c:279-604 | every step of every process and every interrupt handler keeps: the held locks are those its program point says, with p->lock handed over across sched and scheduler |
| `Processes.LocalStep` | kernel/proc.c:109-604 | every step, of sleep, wakeup, fork, exit, wait, kill, the scheduler and any code under a spin lock in a process or a handler, keeps each process's state, channel and program point consistent |
| `SleepWakeup.EffectStep` | kernel/proc.c:279-604 | what any step can do to another process's sleeping: only a wakeup of its channel or a kill ends it, only itself begins it |
| `SleepWakeup.Woken` | kernel/proc.c:566-580 | once wakeup's scan has passed a process it is no longer committed to sleeping on the channel |
| `SleepWakeup.ScanStep` | kernel/proc.c:535-580 | no process can commit to the channel behind the scan while the waker, a process or an interrupt handler, holds the condition lock |
| `SleepWakeup.WakerKept` | kernel/proc.c:566-580 | a waker whose scan is still to reach a sleeper stays so until the sleeper is awake |
| `SleepWakeup.LockStep` | kernel/sleeplock.c:21-41 | every step keeps: a sleep lock has its one holder, and if it is free a waiter has a waker still to come |
| `SleepWakeup.NewZombieChild` | kernel/proc.c:330-386 | a process comes to have a zombie child only by that child's exit or by reparent, both under wait_lock |
| `SleepWakeup.WaitStep` | kernel/proc.c:330-435 | every step keeps: a process asleep in wait has no zombie child unless wait_lock is held by someone about to wake it |
| `SleepWakeup.PidStep` | kernel/proc.c:109-172 | every step keeps pids in use distinct from each other and from those already reaped |
| `SleepWakeup.StepInv` | kernel/proc.c:279-604 | every step of every process keeps the whole invariant |
| `SleepWakeup.RunInv` | kernel/proc.c:279-604 | it holds in every state of every run |
| `SleepWakeup.NoLostWakeup` | kernel/proc.c:535-580 | when a wakeup scan ends, no process that had committed to sleep on the channel is still asleep on it; the channel is a sleep lock, a process in wait, or any address with a spin lock that sleepers pass and wakers hold, and then the waker may be an interrupt handler on a CPU that runs no process |
| `SleepWakeup.SleepLockExclusive` | kernel/sleeplock.c:21-41 | two processes between acquiresleep and releasesleep of the same lock are the same process |
| `SleepWakeup.NoStrandedWaiter` | kernel/sleeplock.c:21-41 | a sleep lock is never free, with its spinlock also free, while a process sleeps on it |
| `SleepWakeup.ExitWaitHandover` | kernel/proc.c:330-435 | whenever wait_lock is free, no process with a zombie child is asleep in wait, although exit wakes before it becomes a zombie and reparent moves children |
| `SleepWakeup.ReapedOnce` | kernel/proc.c:390-435 | no pid is returned by two waits |
| `ProcessTree.TreeInvStep` | kernel/proc.c:280-435 | every step keeps: no process is the child of one that is past reparent in exit, a zombie or a free slot; one in reparent has no child below its place in the table; every process but the first has a parent |
| `ProcessTree.LiveParent` | kernel/proc.c:331-386 | in every run the parent of a process is neither free, nor a zombie, nor past reparent in exit, and not in exit at all while wait_lock is free |
| `ProcessTree.EveryParent` | kernel/proc.c:280-435 | in every run every process but the first has a parent, and a free slot has none |
| `ProcessTree.ParentChange` | kernel/proc.c:331-435 | a process loses its parent only when that parent's wait returns its pid, or in that parent's exit, which gives it to the first process and wakes that |
| `ProcessTree.KidsInvStep` | kernel/proc.c:399-430 | every step keeps: havekids is true exactly if the scan of wait has passed a child, and who goes to sleep in wait has one |
| `ProcessTree.CallReturns` | kernel/proc.c:280-435 | how every call ends: acquiresleep with the lock, which was free; releasesleep without it; wait with the pid of a zombie child, now freed, or with -1 because copyout failed, or because there is no zombie child and either no child or a kill; fork with a runnable child of the caller, or with the slot free again; nothing returns from exit |
| `ProcessTree.WaitSleeps` | kernel/proc.c:426-433 | a process goes to sleep in wait only if it has a child, none of them a zombie, and was not killed |
| `ProcessTree.ReapedChild` | kernel/proc.c:402-420 | every pid that wait returns is that of a zombie whose parent was the caller |
| `ProcessTree.ExitFinal` | kernel/proc.c:347-386 | a process that has begun to exit stays in exit until a wait has returned its pid |
| `ProcessTree.Begins` | kernel/proc.c:280-604 | where each call starts and which lock it takes; kill marks a process and wakes it; the scheduler makes it run |
| `ProcessTree.Progress` | kernel/proc.c:280-604 | every step of a call but the return from sleep brings it nearer to its end or to sleep, by a measure of its program point |
| `ProcessTree.ProcLockMoves` | kernel/proc.c:22-27 | whoever holds a p->lock can take their next step |
| `ProcessTree.OtherLockMoves` | kernel/proc.c:22-27 | whoever holds any other lock waits for a p->lock at most |
| `ProcessTree.NoDeadlock` | kernel/proc.c:22-27 | in every state of every run in which spin locks are held, one of the processes and handlers that hold them can take its next step |
| `VmSpec.MkPte` | kernel/riscv.h:335-363 | an entry made from a page and permissions is valid, gives both back, and is a leaf exactly when one of R, W, X is set |
| `VmSpec.HwWalkIsPte` | kernel/vm.c:85-103 | the three-level hardware walk through page memory gives what the flat map gives, for every page below MAXVA |
| `VmSpec.AddTable` | kernel/vm.c:85-103 | hooking a zeroed page in as a table keeps the tree well formed and every translation the same |
| `VmSpec.SetPte` | kernel/vm.c:142-165 | writing one last-level entry changes exactly one page of one page table |
| `VmSpec.DropTable` | kernel/vm.c:271-287 | giving up an empty table changes no translation |
| `VmSpec.ClearEntry` | kernel/vm.c:271-287 | nor does zeroing the entry of a table that is gone |
| `VmSpec.Popped` | kernel/kalloc.c:68-82 | following the link in the first free page leaves the free list in order |
| `VmSpec.Pushed` | kernel/kalloc.c:46-63 | so does linking a page in front |
| `VmSpec.FreedTwice` | kernel/kalloc.c:46-63 | linking in a page that is free already leaves links that are no free list of any pages |
| `VmSpec.UnmapFreed` | kernel/vm.c:170-192 | one round of uvmunmap with do_free takes away one translation and moves its page to the free list |
| `VmSpec.GrewStep` | kernel/vm.c:225-249 | one more page: exactly one translation is added, to a page that was free |
| `VmSpec.GrewUndo` | kernel/vm.c:225-249 | a failed mappages and kfree take back the page just allocated, keeping any new tables |
| `VmSpec.GrewRestored` | kernel/vm.c:255-267 | unmapping what was added gives back the previous leaf map and leaf pages |
| `VmSpec.CopySource` | kernel/vm.c:305-333 | the entries uvmcopy reads while the child grows are those of the parent at the start |
| `VmSpec.CopySeen` | kernel/vm.c:305-333 | with what uvmcopy promises, the child reads through the hardware's walk, in pages of its own, what the parent reads, with the same flags, and the parent reads what it read before |
| `VmSpec.GrowSeen` | kernel/vm.c:225-249 | with what uvmalloc promises, a process reads the new contents in its new pages and what it read before in its others |
| `VmSpec.TreeGone` | kernel/vm.c:291-297 | after uvmunmap and freewalk no page is a table or a leaf of the tree any more |
| `VmSpec.NewRoot` | kernel/vm.c:196-205 | a zeroed page as root maps nothing and disturbs no other tree |
| `VmCode.Machine.constructor` | kernel/kalloc.c:26-31 | at the start every page is the kernel's, no page is free and there is no page table |
| `VmCode.Machine.FreeRange` | kernel/kalloc.c:33-40 | every whole page of the range is on the free list, once |
| `VmCode.Machine.KAlloc` | kernel/kalloc.c:68-82 | a page that was free, filled with 5s, or 0 exactly when none is; no other page's contents change |
| `VmCode.Machine.KFree` | kernel/kalloc.c:46-63 | panics exactly for a misaligned or out-of-range address; else the page is free again, or, if it was free before, there is no free list any more |
| `VmCode.Machine.Walk` | kernel/vm.c:85-103 | returns the place of the last-level entry; changes no existing translation of any table; without alloc changes nothing; takes one free page for each missing table, and fails exactly when a table is missing or there are too few pages for them; panics exactly at or above MAXVA |
| `VmCode.Machine.MapOne` | kernel/vm.c:154-158 | one round of mappages: panics exactly for a mapped page or beyond MAXVA, fails only when there are too few pages for the tables, else adds exactly one translation |
| `VmCode.Machine.MapPages` | kernel/vm.c:142-165 | succeeds exactly when all pages from the one of va to the one of va+size-1 are below MAXVA and unmapped and there are pages for the missing tables, and then maps exactly them; panics exactly for size 0 or when it reaches a mapped page or MAXVA before memory runs out; otherwise fails, with exactly the first `done` pages mapped |
| `VmCode.Machine.UnmapOne` | kernel/vm.c:186-190 | the end of one round of uvmunmap takes away one translation and, with do_free, moves its page to the free list |
| `VmCode.Machine.UvmUnmap` | kernel/vm.c:170-192 | panics exactly when va is misaligned or a page of the range is not mapped; removes exactly the range's translations; with do_free the free list grows by as many pages |
| `VmCode.Machine.UvmDealloc` | kernel/vm.c:255-267 | removes exactly the pages it goes over, computed in 64 bits with the page count cut down to an int, and panics exactly when one is missing |
| `VmCode.CutExact` | kernel/vm.c:261-264 | for sizes up to MAXVA those are exactly the pages between the rounded sizes |
| `VmCode.Machine.Rollback` | kernel/vm.c:237-246 | undoing a partial growth restores the previous leaf map |
| `VmCode.Machine.Extend` | kernel/vm.c:236-246 | one round allocates, fills and maps one page, or leaves the leaf map as it was; panics exactly when the page cannot be mapped and kalloc succeeds |
| `VmCode.Machine.GrowLoop` | kernel/vm.c:234-247 | the loop either maps the whole range or restores the map, and exactly when it does which |
| `VmCode.Machine.UvmAlloc` | kernel/vm.c:225-249 | succeeds exactly when all pages between the rounded sizes lie below MAXVA and are unmapped and there is memory for them and their tables, and then adds exactly these, zeroed, with the given permissions; panics exactly when memory lasts up to the first page that is mapped or beyond MAXVA and one page more; otherwise returns 0 with the previous leaf map and leaf pages |
| `VmCode.Machine.UvmCopy` | kernel/vm.c:305-333 | succeeds exactly when the parent has every page, the child none, and memory suffices, and then gives the child fresh pages with the parent's contents and flags at the same addresses; panics exactly when memory lasts up to the first page that the parent lacks or the child has (then for one page more); otherwise returns every page copied |
| `VmCode.Machine.CopyUndo` | kernel/vm.c:330-332 | its failure path restores the child's previous map |
| `VmCode.Machine.FreeTable` | kernel/vm.c:285-286 | freeing a table none of whose entries is valid leaves all other trees alone |
| `VmCode.Machine.FreeChild` | kernel/vm.c:275-281 | one entry: its subtree is freed and the entry is zero, or there was a leaf |
| `VmCode.Machine.FreeWalk` | kernel/vm.c:271-287 | the "freewalk: leaf" panic happens exactly when the subtree maps something; else exactly its tables are freed |
| `VmCode.Machine.UvmCreate` | kernel/vm.c:196-205 | a new empty page table, or 0 and nothing changed exactly when no page is free |
| `VmCode.Machine.UvmFree` | kernel/vm.c:291-297 | no panic exactly when the tree maps [0, PGROUNDUP(sz)) and nothing else; then every table and leaf page of it is free and all other trees are unchanged |
| `VmCode.Machine.MapFrame` | kernel/proc.c:186-203 | one mapping of a page the tree does not own; fails exactly when there are too few pages for the missing tables |
| `VmCode.Machine.FreeEmpty` | kernel/proc.c:188-203 | freeing a tree that maps nothing returns all its pages |
| `VmCode.Machine.FreeTrampoline` | kernel/proc.c:199-203 | undoing a table that maps only the trampoline returns all its pages |
| `VmCode.Machine.ProcPagetable` | kernel/proc.c:176-206 | fails exactly when fewer than three pages are free, and then returns every page it took; success maps exactly the trampoline and the trapframe |
| `VmCode.Machine.ProcFreePagetable` | kernel/proc.c:210-216 | no panic exactly when the tree maps the two special pages, [0, PGROUNDUP(sz)) and nothing else; then the whole tree is free and the two special pages are not |
| `VirtioDesc.Descriptors.constructor` | kernel/virtio_disk.c:118-146 | at the start the table is clear and all NUM descriptors are free |
| `VirtioDesc.Descriptors.AllocDesc` | kernel/virtio_disk.c:156-166 | takes the lowest free descriptor, or -1 exactly when none is free |
| `VirtioDesc.Descriptors.FreeDesc` | kernel/virtio_disk.c:169-182 | panics exactly when out of range or free already, else frees and clears it |
| `VirtioDesc.Descriptors.FreeChain` | kernel/virtio_disk.c:185-197 | frees exactly the descriptors of the chain, without panic |
| `VirtioDesc.Descriptors.Undo` | kernel/virtio_disk.c:206-208 | frees exactly the descriptors taken so far |
| `VirtioDesc.Descriptors.Alloc3Desc` | kernel/virtio_disk.c:199-213 | succeeds exactly when three are free, with three different ones; a failure gives back what it took |
| `Virtqueue.RingRoom` | kernel/virtio_disk.c:215-292 | at most two requests are in flight, so the rings of eight never fill |
| `Virtqueue.Wrap` | kernel/virtio_disk.c:294-327 | 16-bit indices compare and select slots as the unbounded counts do |
| `Virtqueue.SlotFree` | kernel/virtio_disk.c:271-277 | the avail slot written next holds no head the device has not read |
| `Virtqueue.FillInv` | kernel/virtio_disk.c:227-272 | building a chain keeps the protocol invariant |
| `Virtqueue.PublishInv` | kernel/virtio_disk.c:274-281 | so does publishing it |
| `Virtqueue.FetchInv` | kernel/virtio_disk.c:274-281 | so does the device's fetch of a head |
| `Virtqueue.CompleteInv` | kernel/virtio_disk.c:294-327 | so does the device's completion, in any order |
| `Virtqueue.IntrInv` | kernel/virtio_disk.c:294-327 | so does the interrupt handler's step |
| `Virtqueue.FinishInv` | kernel/virtio_disk.c:283-291 | so does the submitter's return, which frees the chain |
| `Virtqueue.StepInv` | kernel/virtio_disk.c:215-327 | every step keeps the invariant |
| `Virtqueue.RunInv` | kernel/virtio_disk.c:215-327 | it holds in every state of every run |
| `Virtqueue.DescriptorsSplit` | kernel/virtio_disk.c:156-292 | in every reachable state a descriptor is free or belongs to exactly one three-element chain, and the counts add up to NUM |
| `Virtqueue.NoOverwrite` | kernel/virtio_disk.c:271-277 | no step changes an avail slot the device has yet to read or a used slot the driver has yet to read |
| `Virtqueue.DeviceSeesRequest` | kernel/virtio_disk.c:238-265 | following the chain from the next head, the device finds the request's type, sector, buffer and direction |
| `Virtqueue.CompletionExact` | kernel/virtio_disk.c:294-327 | the interrupt handler's next completion clears the disk flag of exactly the buffer of that request, which was set |
| `Virtqueue.ChainIntact` | kernel/virtio_disk.c:227-291 | the chain of a pending request stays linked and allocated until its submitter frees it |
| `Virtqueue.BusyWhilePending` | kernel/virtio_disk.c:267-286 | a request's buffer is marked busy exactly until its completion is seen |
| `DiskTransfer.Advances` | kernel/virtio_disk.c:215-327 | each step takes the oldest request of its kind one phase further and leaves all others where they are |
| `DiskTransfer.ComesFrom` | kernel/virtio_disk.c:215-327 | from exactly the phase before |
| `DiskTransfer.NoneStuck` | kernel/virtio_disk.c:215-327 | in every run, for every request in flight, the step that takes a request of its phase further can be taken |
| `DiskTransfer.CompleteExact` | kernel/virtio_disk.c:238-265 | the device, following the chain, moves data between exactly the buffer and the sector of the request, in its direction |
| `DiskTransfer.RequestKept` | kernel/virtio_disk.c:216-291 | a request stays as submitted until its submitter is done with it |
| `DiskTransfer.RwReturns` | kernel/virtio_disk.c:216-292 | when virtio_disk_rw returns, the device has carried out its request exactly once since it was submitted: a write has stored what the buffer held, a read has left in the buffer what the sector then held, whatever other requests were in flight |
| `PipeRing.Pushed` | kernel/pipe.c:95-96 | storing at nwrite appends to the queue, across the 32-bit wrap |
| `PipeRing.Popped` | kernel/pipe.c:119-122 | loading at nread takes the oldest byte |
| `PipeRing.Ring.constructor` | kernel/pipe.c:33-36 | a new pipe is empty |
| `PipeRing.Ring.Write` | kernel/pipe.c:76-103 | appends a prefix of the source, short only when the ring is full |
| `PipeRing.Ring.Read` | kernel/pipe.c:105-130 | takes a prefix of the contents, short of n only when nothing is left |
| `PipeRing.Distance` | kernel/pipe.c:83-113 | with wrapping counters, nwrite equals nread+PIPESIZE exactly when the ring is full, and nread exactly when it is empty |
| `PipeRing.Position` | kernel/pipe.c:95-122 | the slot of a counter modulo PIPESIZE survives its wrap at 32 bits |
| `Pipe.BytesStep` | kernel/pipe.c:58-130 | every step keeps: what the ring holds is what was inserted and not yet removed |
| `Pipe.LockStep` | kernel/pipe.c:58-130 | every step keeps the lock with the process its program point says |
| `Pipe.WritersStep` | kernel/pipe.c:76-130 | every step, kill of a sleeping process included, keeps: writers asleep on a non-full pipe have a wakeup to come |
| `Pipe.LeftStep` | kernel/pipe.c:76-130 | the one step that leaves a reader asleep on a nonempty pipe with no wakeup to come is a writer's killed return after inserting bytes, taken while a reader sleeps |
| `Pipe.LeftKept` | kernel/pipe.c:76-130 | exactly these steps relieve such a reader: a byte written, a wakeup in write or close, a read that empties the pipe, a kill of the last sleeper |
| `Pipe.StepInv` | kernel/pipe.c:58-130 | every step keeps the whole invariant |
| `Pipe.RunInv` | kernel/pipe.c:58-130 | it holds in every state of every run: the bytes, the lock, sleeping writers, and that nobody sleeps at a closed end |
| `Pipe.InOrder` | kernel/pipe.c:76-130 | in every run the bytes that readers took out are a prefix of those that writers put in, both as the steps of the run tell, and at most PIPESIZE behind |
| `Pipe.WriteCall` | kernel/pipe.c:76-103 | a call of pipewrite has at each point put in exactly the first i bytes of its buffer, in order, whatever others wrote in between |
| `Pipe.ReadCall` | kernel/pipe.c:105-130 | a call of piperead has at each point exactly the bytes it took out |
| `Pipe.CallReturns` | kernel/pipe.c:76-130 | pipewrite returns all bytes, or fewer if copyin fails, or -1 if the read end is closed or it is killed; piperead returns n bytes or all there were, and none, of n > 0, only if the pipe is empty and its write end closed |
| `Pipe.OpenUntilClosed` | kernel/pipe.c:58-74 | an end is open until it is closed |
| `Pipe.ClosedWakes` | kernel/pipe.c:58-74 | in every run no reader is asleep once the write end is closed and no writer once the read end is |
| `Pipe.WriterAsleep` | kernel/pipe.c:76-130 | while the lock is free, a writer is asleep only on a full pipe whose read end is open |
| `Pipe.ReaderWaits` | kernel/pipe.c:76-130 | while the lock is free, a reader is asleep only if the write end is open, and the pipe empty or a writer was killed as ReaderNotStranded says |
| `Pipe.HolderMoves` | kernel/pipe.c:76-130 | whoever holds the lock can take a step |
| `Pipe.HolderProgress` | kernel/pipe.c:76-130 | and each of their steps brings them nearer to letting go |
| `Pipe.WriterNotStranded` | kernel/pipe.c:76-130 | while the lock is free no writer sleeps on a pipe that is not full, in every run, kills included |
| `Pipe.ReaderNotStranded` | kernel/pipe.c:76-130 | while the lock is free a reader sleeps on a nonempty pipe if and only if a writer took the killed return after inserting bytes while a reader slept, and since then no byte was written, no wakeup called, the pipe not emptied and not the last sleeper killed |
| `Pipe.StrandedIff` | kernel/pipe.c:84-87 | in any run, whatever happened before: a reader comes to be left without a wakeup exactly by such a step |
| `Pipe.LeftSince` | kernel/pipe.c:84-87 | in any state of any run, readers are without a wakeup to come if and only if such a return happened and no step since has relieved them |
| `Pipe.KilledWriterStrands` | kernel/pipe.c:84-87 | a run in which that happens |
| `FreeBlocks.InsertSorted` | user/umalloc.c:24-44 | inserting a block and joining it with both neighbours keeps the list address-ordered and fully coalesced |
| `FreeBlocks.InsertCovers` | user/umalloc.c:24-44 | and the free units are the former ones and the block's, no more and no fewer |
| `FreeBlocks.LinkedSplice` | user/umalloc.c:34-42 | replacing a stretch of the circular list by one block through two link updates |
| `FreeBlocks.LinkedDrop` | user/umalloc.c:76-77 | dropping one block by one link update |
| `Umalloc.Units` | user/umalloc.c:69 | the units hold the header and the bytes asked for, with less than one unit to spare |
| `Umalloc.SearchStep` | user/umalloc.c:30-32 | free's loop guard stops exactly at the one gap the block belongs in, wherever freep is |
| `Umalloc.FreeLinks` | user/umalloc.c:33-42 | in each of the four cases the assignments of free make the links of the list with the block joined in |
| `Umalloc.FreeDone` | user/umalloc.c:33-43 | the assignments of free give a well-formed list that covers the block and no live block |
| `Umalloc.Carved` | user/umalloc.c:75-82 | taking the tail of a fitting block, or the whole of it, splits its units between the caller and the list |
| `Umalloc.PassedStep` | user/umalloc.c:74-88 | malloc's search goes once around: back at its start it has passed every block |
| `Umalloc.Heap.FindPlace` | user/umalloc.c:30-32 | the search ends, at the gap the block belongs in |
| `Umalloc.Heap.Join` | user/umalloc.c:33-42 | the four cases of coalescing |
| `Umalloc.Heap.Free` | user/umalloc.c:24-44 | the list stays circular, ordered and coalesced; exactly the freed units are added; other live blocks are untouched; all memory ever obtained is free or in a live block |
| `Umalloc.Heap.MoreCore` | user/umalloc.c:46-61 | adds at least 4096 units of new memory, or nothing when sbrk fails |
| `Umalloc.Heap.Carve` | user/umalloc.c:75-84 | the block handed out is disjoint from every live and every free block |
| `Umalloc.Heap.Malloc` | user/umalloc.c:63-90 | returns 0 exactly when nothing fits and sbrk fails; calls sbrk exactly when nothing fits, and moves the break to the end of what it gave; former free units and new memory are split between the block and the list, and all memory ever obtained is free or in a live block |
| `Umalloc.Heap.Search` | user/umalloc.c:74-89 | the loop, from any place in the list: the same, and nothing is written into a live block |
| `Umalloc.Heap.Cut` | user/umalloc.c:76-82 | the assignments that take the end of a block, or all of it |
| `Umalloc.Heap.constructor` | user/umalloc.c:21-22 | the heap before the first call: base alone, nothing obtained from sbrk |
| `Umalloc.Reuse` | user/umalloc.c:24-90 | malloc, free and malloc of the same size: the second malloc succeeds without sbrk |
| `Umalloc.Heap.Init` | user/umalloc.c:70-73 | the first call sets up the list that consists of base alone |
| `ShellSyntax.RedirsParsed` | user/sh.c:375-398 | any list of redirections is read back in order |
| `ShellSyntax.ArgsParsed` | user/sh.c:432-443 | any words with their redirections are read back as the same exec node |
| `ShellSyntax.ExecParsed` | user/sh.c:416-447 | likewise, a command with no words included |
| `ShellSyntax.BlockParsed` | user/sh.c:400-414 | a parenthesised line with redirections after it is read back |
| `ShellSyntax.ElementParsed` | user/sh.c:416-447 | any tree printed as an element of a pipeline, in parentheses where needed, is read back by parseexec |
| `ShellSyntax.PipeParsed` | user/sh.c:362-373 | any tree printed as a pipeline is read back by parsepipe and the rest is left |
| `ShellSyntax.LineParsed` | user/sh.c:345-360 | any tree printed as a line is read back by parseline |
| `ShellSyntax.TokensRoundTrip` | user/sh.c:328-447 | for every command tree with at most nine words per exec, parsing the printed tokens gives the tree and leaves nothing |
| `ShellSyntax.LexTok` | user/sh.c:266-309 | a spelled-out token followed by a blank is read as that token, and the rest as before |
| `ShellSyntax.LexJoin` | user/sh.c:266-309 | splitting the spelled-out tokens gives the tokens |
| `ShellSyntax.RoundTrip` | user/sh.c:266-447 | for every such tree, printing it as text, splitting and parsing gives the same tree |
| `ShellSyntax.TokensOk` | user/sh.c:266-309 | every word of a line without NUL is one that can be printed and read back |
| `ShellSyntax.LinePlain` | user/sh.c:345-360 | every tree that parseline builds from such tokens has at most nine words per exec, all of that kind |
| `ShellSyntax.ParsedPlain` | user/sh.c:328-447 | what a line parses into can be printed, and the printed line parses into the same tree |
| `ShellSyntax.ParsedIff` | user/sh.c:266-447 | the trees that lines can be parsed into are exactly those that fit and can be read back |
| `ShellGrammar.ItemsParsed` | user/sh.c:431-443 | words and redirections of a command in any order are read as the words in their order and the redirections in theirs |
| `ShellGrammar.SimpleParsed` | user/sh.c:416-447 | so parseexec returns the exec of all words in the redirections, whether they come before, between or after the words |
| `ShellGrammar.LineRead` | user/sh.c:345-447 | every line of the grammar is parsed into what it means |
| `ShellGrammar.LineSplit` | user/sh.c:345-447 | every line that is parsed is one of the grammar, with that meaning |
| `ShellGrammar.ParsesExactly` | user/sh.c:328-447 | parsing gives a tree if and only if the line is one of the grammar that means this tree, and panics if and only if it is none |
| `ShellGrammar.LexesExactly` | user/sh.c:266-309 | a text has exactly one reading as tokens: those it spells with white space between words, and between > and >, that would run together |
| `Shell.Parser.Skip` | user/sh.c:272-273 | skips blanks and loses no token |
| `Shell.FirstChar` | user/sh.c:311-321 | looking at one character, as peek does, tells which token comes next |
| `Shell.Parser.Peek` | user/sh.c:311-321 | skips blanks only, and tells whether the next character is one of the given |
| `Shell.Parser.ScanWord` | user/sh.c:295-299 | ends exactly at the end of the word, and the text from the word on is that word followed by the tokens left |
| `Shell.Parser.GetToken` | user/sh.c:266-309 | returns the first token of the text that is left, with the span of a word, and leaves the rest |
| `Shell.Parser.ParseRedirs` | user/sh.c:375-398 | agrees with the grammar's parse of redirections, the missing-file panic included |
| `Shell.Parser.ParseWords` | user/sh.c:416-447 | agrees with the grammar on words and redirections, the "too many args" and syntax panics included |
| `Shell.Parser.ParseExec` | user/sh.c:416-447 | agrees with the grammar and ends |
| `Shell.Parser.ParseBlock` | user/sh.c:400-414 | agrees with the grammar on parentheses, the two panics included |
| `Shell.Parser.ParsePipe` | user/sh.c:362-373 | agrees with the grammar on pipelines |
| `Shell.Parser.ParseLine` | user/sh.c:345-360 | agrees with the grammar on lists and background commands |
| `Shell.ParseAll` | user/sh.c:328-341 | the recursive parser ends; it succeeds exactly when the grammar parses the whole line, with the same tree |
| `Shell.ParseCmd` | user/sh.c:328-343 | on a line in a buffer: panics exactly when the grammar has no parse of the whole line; else the tree it returns, its words read as C strings from the buffer it has written the terminators into, is the tree parsed; on the text of any tree, that tree |
| `Shell.NulTerminate` | user/sh.c:450-494 | writes a zero at exactly the ends of the words of the tree |
| `Shell.WordsIntact` | user/sh.c:450-494 | afterwards every word is its own text followed by a zero: no terminator overwrites a byte of any word |
| `Shell.CTreeIs` | user/sh.c:450-494 | if each word's text is the C string at its first character, reading the whole tree from memory gives the tree of the line |
| `Grep.MatchFirst` | user/grep.c:83-105 | a pattern matches at a place exactly when its first item covers some stretch there and the rest matches after it |
| `Grep.PatternMeans` | user/grep.c:71-105 | the meaning of each form of a pattern: empty, c*, a final $, one character, and ^ in front |
| `Grep.MatchHere` | user/grep.c:83-95 | agrees with the declarative meaning of the pattern anchored at that place |
| `Grep.MatchStar` | user/grep.c:97-105 | agrees with: some run of the character, then the rest |
| `Grep.Match` | user/grep.c:71-81 | agrees with the declarative meaning of ^ . * $ for every pattern and text |
| `Grep.FirstLine` | user/grep.c:20-28 | the output for a text is that of its first line followed by that of the rest |
| `Grep.FirstPrinted` | user/grep.c:20-28 | likewise for what grep prints, if the first line fits in the buffer and holds no NUL |
| `Grep.NoMore` | user/grep.c:17-33 | when the input is at its end, or the buffer full, and no newline comes before a NUL, grep prints nothing more |
| `Grep.NothingLost` | user/grep.c:10-34 | all matching lines are printed if and only if none matches from the first line on that holds a NUL or does not fit |
| `Grep.LineHidden` | user/grep.c:10-34 | an input of which a matching line is lost |
| `Grep.Strchr` | user/grep.c:21 | finds the first newline before the first NUL, if there is one |
| `Grep.DoLines` | user/grep.c:20-28 | prints exactly the matching lines that are complete in the buffer, up to the first that holds a NUL |
| `Grep.ReadInto` | user/grep.c:17-19 | read appends to what is held |
| `Grep.Shift` | user/grep.c:29-32 | memmove keeps the unfinished line |
| `Grep.Round` | user/grep.c:17-33 | one read leaves printed output plus pending output unchanged |
| `Grep.GrepFile` | user/grep.c:10-34 | on every input, however it is split by read, the output is exactly the matching terminated lines before the first line that holds a NUL or does not fit in BUFSIZE - 1 bytes with its newline |

## Left out

- kernel/trap.c, the assembly files, plic.c, uart.c, start.c, main.c: hardware plumbing; swtch is a step that keeps p->lock held.
- kernel/console.c: an easier relative of the pipe, mixed with device echo.
- kernel/sysfile.c, syscall.c, sysproc.c, exec.c: argument fetching and ELF loading.
- kernel/fs.c: ialloc, iget, iput, directories and path names; link counts.
- kernel/vm.c: kvmmake, uvmfirst, uvmclear, and the page-by-page loops of copyin, copyout and copyinstr.
- kernel/file.c: reference counts of open files, and the pipe and device cases of filewrite.
- kernel/ramdisk.c is not part of the build; mkfs/mkfs.c gives only layout constants.
- printf, string and ulib helpers, user programs other than sh and grep, and the test programs.
- Weak memory and fences; lock acquisition is one atomic step.
- Fairness: the theorems are about states and runs. `ProcessTree.NoDeadlock`, `DiskTransfer.NoneStuck`, `Pipe.HolderMoves` and `GroupHistory.GoesOn` say that something can always be done, not that it must eventually happen.
- LogCode.Log.LogWrite: bpin is part of the step LogWrite of the machine in CacheCoherence, not of the class.
- LogCode.Log.InstallTrans: bunpin is a step of the machine in CacheCoherence.
- FsCrash.FilesSurvive: the machine's operations change inodes only under their locks, as those of the code do; directories and link counts play no part in it.
- CacheCoherence.Coherence: uniqueness is for the disk's device number, because binit leaves all buffers as block 0 of device 0.
- BufferRing.BCache.BGet: the sleep lock taken at its end is a step of the machine in CacheCoherence, not of the class.
- BufferRing.BCache.BRelse: so is releasing it; the holdingsleep panic is not modelled.
- FsCode.FileSystem.WriteI: either_copyin is all-or-nothing for each block; a copy that fails midway can leave a cached block changed but not logged. The caller holds the inode's lock; the class runs one operation at a time, and what others may do meanwhile is in FsCrash.
- FsCode.FileSystem.FileWrite: covers inode files, with begin_op and end_op as the boundaries of the set of logged blocks.
- FsCode.FileSystem.ILock: covers loading the inode, not waiting for the sleep lock or the panic for a reference count below 1.
- SleepWakeup.RunInv: what code under a spin lock of its own does besides sleep and wakeup is not in this machine; an xstate is not copied; pids do not overflow; the initial state is the one after userinit.
- VmCode.Machine.MapPages: needs a permission with one of R, W and X, as all callers give; without it the entry would read as a table.
- VmCode.Machine.UvmAlloc: the old size is at most MAXVA, as process sizes are, and the extra permissions are among W and X.
- VmCode.Machine.UvmUnmap: with do_free the mapped pages of the range are the tree's own, as its callers see to.
- VirtioDesc.Descriptors.FreeDesc: the wakeup of submitters that wait for descriptors is not modelled.
- VirtioDesc.Descriptors.Alloc3Desc: nor is their sleep.
- Virtqueue.StepInv: in the machine the three descriptors are any three free ones.
- DiskTransfer.RwReturns: the device carries out a request in one step, and the code that holds a buffer's lock leaves the buffer alone while its request is in flight.
- PipeRing.Ring.Write: sleeping in between, kills and failed copies are in the machine Pipe, which interleaves the same steps.
- PipeRing.Ring.Read: likewise.
- Pipe.StepInv: pipealloc and the freeing of the pipe's page are not modelled.
- Umalloc.Heap.Malloc: the byte count fits in an int, sizes do not overflow 32 bits, and sbrk returns memory above all it returned before.
- Umalloc.Heap.Free: only live blocks are freed, as its callers must.
- Shell.Parser.ParseWords: the words and redirections are collected and the node is built at the end, where the code fills a node that redirections already wrap; running commands (runcmd) and running out of memory are not modelled.
- Grep.GrepFile: opening files and the main program are not modelled.
