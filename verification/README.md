# A verified model of the xv6 kernel and its shell, allocator and matcher

xv6 is a small Unix for 32-bit x86 multiprocessors.  This project models the parts of it that carry its
guarantees and proves those guarantees with Dafny:

- the write-ahead log (`LogMachine`, `LogBudget`, `Log`): group commit and crash recovery;
- inodes and file contents (`Bitmap`, `Inodes`, `BlockMap`, `BlockRange`, `FileContent`, `Truncate`, `FileSystem`,
  `LogWrites`): block allocation, reading, writing and truncation of files through direct and indirect blocks;
- the file system over the log (`CrashConsistency`, `Journal`, `File`, `FullChunk`): at whatever step of the log the
  machine stops, recovery leaves the file system from before the operation or from after it;
- the disk format, byte by byte (`DiskFormat`), making images and booting from them (`Mkfs`, `MkfsImage`, `Boot`);
- the buffer cache (`LruList`, `Bio`);
- page tables and the page allocator (`Pages`, `KernelMap`, `AddressSpaces`, `SpaceCopy`, `Vm`, `Growproc`);
- processes (`ProcSteps`, `Proc`), sleep locks (`SleepLock`) and pipes (`Pipe`);
- the user heap (`HeapRing`, `Umalloc`, `HeapGrowth`) and the kernel's event recorder (`Klog`);
- the shell's parser (`ShellGrammar`, `ShellLex`, `Shell`) and the command language that it accepts (`ShellSyntax`,
  `ShellText`), and grep's matcher (`Grep`).

`dafny verify dfyconfig.toml` checks the whole project.

How the pieces fit.  State that the source updates in place is a class with the source's fields; its methods
follow the code step by step.  What a method does to the whole state is stated by a predicate on immutable
snapshots (`Now()` or `View()`), and the hard reasoning is done there, in lemmas.  In the log, the buffer cache, the
process table, the sleep lock and the pipe, a section of code that runs under a lock is one method call or one step,
so that what every method or step keeps holds in every interleaving; the log, the process table and the sleep lock
have explicit step relations and theorems over all runs, and the methods of the log and the process table are shown
to take exactly such steps.  The methods of the file system and of address spaces, which take and release locks on the
way, describe one process at a time.  Ghost owner maps say where each disk block, page frame or heap unit belongs;
they are tied to the stored bytes in both directions.

A panic is a result (`None` or a flag) where the source tests for it as a matter of course, and a precondition
where it guards against a caller's mistake (a remapped page, a hole in a copied address space).

Statements that are natural but false of the code, each with its exact condition:

- the log never panics within its budget: with at most MAXOPBLOCKS calls of log_write per operation true if and only if
  the log area has more than LOGSIZE blocks; with at most d blocks added per operation (d > 0) true if and only if
  d < MAXOPBLOCKS and the area has more than MAXOPBLOCKS + 2d + 1 blocks (`LogBudget.PanicFreeIff`);
- readi never allocates: true if and only if no block of the range is missing (`FileSystem.FileSystem.ReadI`).  mkfs
  leaves such a hole at the end of the root directory if and only if its entries fill whole blocks, for instance with
  32 entries (`MkfsImage.Build`); fileread then reaches log_write outside a transaction, and the kernel panics, unless
  another operation is in progress (`Journal.Journal.Read`, `Boot.ReadBehindEntries`);
- writei leaves the inode on disk as it is in memory: true if and only if the file grows or the inode itself lacked no
  address for the range (`FileSystem.FileSystem.WriteI`);
- mkfs hands out blocks of the disk only: true of an append if and only if it needs no more blocks than are left, which
  mkfs does not check (`MkfsImage.Image.Iappend`);
- a reader asleep on a pipe implies an empty pipe: lost if and only if, while a reader sleeps, a killed writer has more
  to write than the pipe holds (`Pipe.Pipe.Write`, `Pipe.LostWakeup`);
- a block that malloc returns holds the bytes asked for: true if and only if these are at most 2^32 - 8, and at most
  0x7FFFFFF0 where no free block is large enough, because sbrk takes an int (`Umalloc.Umalloc.Malloc`,
  `HeapGrowth.Refill`, `HeapGrowth.TwoGigabytes`);
- a process's size equals what it has mapped: lost by growproc if and only if it shrinks to 0
  (`Growproc.Process.Growproc`, `Growproc.ShrinkToNothing`).

Where code and comments disagree the code is followed: param.h calls LOGSIZE the number of data blocks in the
on-disk log, but mkfs makes the log area LOGSIZE blocks with the header among them; the shell's parser knows `>>` as
a token of its own but gives it the meaning of `>` (`ShellSyntax.AcceptsExactly`).

## Model

| member | source | states |
|---|---|---|
| `LogMachine.HeaderRoundTrip` | log.c:84-113 | write_head followed by read_head gives back the in-memory header, for every header that fits |
| `LogMachine.InvStep` | log.c:69-233 | every step of every operation, of the committer, of recovery, and a crash at any point keeps the log's invariant: pinned buffers, log blocks, header and home blocks agree with what is durable and what is current |
| `LogMachine.CrashLeavesDurable` | log.c:115-122 | in any state meeting the invariant, crash and recovery leave the home blocks exactly at the durable contents |
| `LogMachine.RunInv` | log.c:1-233 | the invariant holds after every prefix of every run, any number of operations and crashes included |
| `LogMachine.CommitsWholeOperations` | log.c:145-174 | in every run a commit point is reached only with no operation in progress, so a commit holds whole operations |
| `LogMachine.DurableIsQuiescent` | log.c:192-202 | the durable contents are always those after some prefix of the run that no operation straddles |
| `LogMachine.CrashAtomicity` | log.c:69-122 | crash after any number of steps of any run, also inside recovery and also repeatedly: recovery leaves every home block as after one prefix of the run at which no operation was open, never a mixture |
| `LogMachine.FinishedIsDurable` | log.c:192-202 | once a commit or a recovery has finished, a crash loses nothing written so far |
| `LogMachine.CommitterAlone` | log.c:125-141 | while a commit or recovery runs, no operation is in progress and none can begin, write or end, so the log changes only by the committer |
| `LogBudget.GroupCommitBound` | log.c:125-141 | over every interleaving in which each operation adds at most d <= MAXOPBLOCKS blocks, the log's length plus all unused reservations never exceeds LOGSIZE, and plus what is left of d for each never MAXOPBLOCKS + 2d |
| `LogBudget.RunNoPanic` | log.c:213-221 | no run within the limit panics if the log area is ample for it: more than LOGSIZE blocks for a limit on calls of log_write, more than MAXOPBLOCKS + 2d + 1 blocks for a limit of d < MAXOPBLOCKS added blocks |
| `LogBudget.PanicsUnlessAmple` | log.c:217-228 | otherwise a run within the limit fills the log as far as it may and panics: the test for a full log comes before the search for the block, so that writing a logged block again is enough |
| `LogBudget.PanicFreeIff` | log.c:213-233 | no run within a limit panics if and only if the log area is ample for it, for a limit on calls and for every limit on added blocks |
| `LogBudget.MkfsLog` | mkfs.c:25-25 | the log area that mkfs makes is safe for operations that add d blocks if and only if d < MAXOPBLOCKS, and is not safe for MAXOPBLOCKS calls of log_write |
| `Log.Log.constructor` | log.c:53-66 | initlog leaves exactly the recovered disk, an empty log and no operation, by a run of the protocol's steps |
| `Log.Log.ReadHead` | log.c:84-96 | the in-memory header is the one recorded in the header block |
| `Log.Log.WriteHeadBlock` | log.c:101-113 | only the header block changes, to one that records the in-memory header |
| `Log.Log.WriteLog` | log.c:177-190 | is exactly the protocol's copy steps, one for each logged block |
| `Log.Log.InstallTrans` | log.c:69-82 | is exactly the protocol's install steps, and in recovery leaves the disk with the whole log installed |
| `Log.Log.RecoverFromLog` | log.c:115-122 | leaves the disk that recovery is defined to leave, and an empty header |
| `Log.Log.ClearTrans` | log.c:115-122 | erases the header's count and nothing else |
| `Log.Log.CommitHead` | log.c:197-197 | the commit point is the protocol's header step |
| `Log.Log.Commit` | log.c:192-202 | performs the protocol's steps in order: copy all blocks, write the header, install all blocks, clear the header; nothing at all for an empty log |
| `Log.Log.BeginOp` | log.c:125-141 | admits an operation exactly when no commit runs and its reservation fits, and otherwise changes nothing |
| `Log.Log.LogWrite` | log.c:213-233 | panics exactly on a full log or outside a transaction; otherwise is one write step of the protocol, with absorption |
| `Log.Log.FindSlot` | log.c:223-226 | the block's place in the header, or the first unused entry exactly if it is not there |
| `Log.Log.EndOp` | log.c:145-174 | ends one operation, and commits exactly if it was the last one in progress |
| `Bitmap.MarkUsed` | fs.c:63-68 | marking a block changes its own bit of the free map and no other, through the block, byte and bit split |
| `Inodes.GiveInodeKeeps` | fs.c:372-383 | a free block given to a slot of an inode keeps block ownership and the free map, puts that one address, and changes no byte of any file |
| `Inodes.GiveIndirectKeeps` | fs.c:386-397 | the same for a slot listed in the indirect block |
| `Inodes.ReplaceKeeps` | fs.c:499-503 | overwriting a data block changes exactly that block's bytes of that file, and no address |
| `Inodes.IupdateOnDisk` | fs.c:220-236 | after iupdate the on-disk inode equals the one in memory, and the other inodes in the same disk block are as before |
| `Inodes.IupdateKeeps` | fs.c:220-236 | iupdate keeps ownership and the free map and changes no file's bytes |
| `LogWrites.ChangedIsLogged` | log.c:204-233 | whatever an operation changes between begin_op and end_op was handed to log_write |
| `BlockMap.FreeCount` | fs.c:56-78 | the clear bits of the free map count exactly the blocks that no inode holds |
| `BlockRange.VisitStep` | fs.c:372-400 | looking up the blocks of a range one after the other allocates exactly those missing at the start, the indirect block once, and touches no slot outside the range |
| `BlockRange.InodeChanged` | fs.c:372-400 | the inode itself changes if and only if one of its own addresses for the range was missing |
| `FileSystem.FileSystem.StoreLogged` | log.c:204-212 | changing a buffer and calling log_write record exactly that change |
| `FileSystem.FileSystem.Balloc` | fs.c:42-78 | finds the lowest free block, marks exactly it, zeroes it and logs just its bitmap block and itself, every change handed to log_write; fails only when every block is in use |
| `FileSystem.FileSystem.FirstClear` | fs.c:64-67 | the lowest clear bit of one bitmap block, every block before it in use |
| `FileSystem.FileSystem.Claim` | fs.c:68-72 | exactly the block's bit is set and the block zeroed, both handed to log_write; the block was in no inode |
| `FileSystem.FileSystem.Bfree` | fs.c:81-95 | clears exactly the block's bit and hands the bitmap block to log_write; panics if and only if the block was free |
| `FileSystem.FileSystem.Bmap` | fs.c:372-400 | gives the block of file offset bn, allocating exactly what is missing (block, indirect block): every other slot of every inode keeps its address, no byte of any file changes, ownership is kept, every changed block is handed to log_write and the logged blocks are bounded; past the largest file it fails and changes nothing, otherwise it fails exactly if fewer blocks are free than are missing |
| `FileSystem.FileSystem.BmapIndirect` | fs.c:384-397 | the same for blocks listed in the indirect block |
| `FileSystem.FileSystem.ReadBlocks` | fs.c:469-474 | readi's loop gathers the bytes of the range as they were before it, filling holes as it goes |
| `FileSystem.FileSystem.ReadI` | fs.c:452-476 | returns exactly the slice of the content clipped at the file's size, -1 exactly for an offset past the end or an overflowing range; panics if and only if fewer blocks are free than the range lacks; changes nothing if and only if no block of the range is missing, and no byte of any file ever; afterwards the inode on disk is the one in memory if and only if no address in the inode itself was missing; every changed block is handed to log_write |
| `FileSystem.FileSystem.WritePart` | fs.c:494-504 | one pass of writei's loop stores its bytes, all within one block, and nothing else, and hands every changed block to log_write; fails only where fewer blocks are free than it needs |
| `FileSystem.FileSystem.WriteBlocks` | fs.c:494-504 | writei's loop stores all the bytes, or stops where fewer blocks are free than the range lacks |
| `FileSystem.FileSystem.WriteI` | fs.c:481-511 | for every file, with holes or without: refuses, changing nothing, if and only if the offset is past the file's size or the range ends past MAXFILE * BSIZE; panics if and only if fewer blocks are free than the range lacks; otherwise stores all the bytes, records the size, keeps type and links, allocates exactly the blocks that were missing, keeps every invariant and makes no hole in any file; the inode is left on disk as it is in memory if and only if the file grows or the inode itself lacked no address; the blocks are what the calls of log_write, in order, make of them; a chunk of up to 1536 bytes to a file without holes logs at most 6 + min(4, bitmap blocks) blocks |
| `FileSystem.FileSystem.IupdateInode` | fs.c:220-236 | stores the inode's words in its place on disk |
| `FileSystem.FileSystem.Itrunc` | fs.c:407-435 | frees exactly the inode's blocks, where no call of bfree panics, empties the inode in memory and on disk but for its type and links, and leaves all other files alone; every changed block is handed to log_write, and only bitmap blocks and the inode's block are |
| `FileSystem.FileSystem.FreeIndirect` | fs.c:418-430 | frees exactly the blocks listed in the indirect block, and the indirect block itself |
| `FileContent.ContentWritten` | fs.c:481-511 | in terms of contents: writei replaces or extends exactly [off, off+n) of its file, and every other file's content is unchanged |
| `FileContent.TransactionBound` | file.c:127-145 | one chunk written to a file without holes logs at most six blocks and the bitmap blocks, of which at most four, at every offset: data, bitmap, indirect and inode blocks counted |
| `FullChunk.TenBlocks` | file.c:127-145 | the limit is reached: in a consistent file system of four bitmap blocks one chunk, written to a file without holes, logs MAXOPBLOCKS different blocks |
| `FileContent.BlockOwnership` | fs.c:53-95 | between operations a bit is set exactly when its block is metadata or held by some inode slot, and no two slots hold the same block |
| `DiskFormat.FreeBit` | fs.h:44-48 | read from the disk byte by byte: bit b % 8 of byte b % 4096 / 8 of block bmapstart + b / 4096 is set if and only if block b is metadata or belongs to a file |
| `DiskFormat.InodeOnDisk` | fs.h:28-42 | the words of inode i, least significant byte first, at byte 64 * (i % 8) of block inodestart + i / 8, are type and major, minor and nlink, size, and the 13 addresses held in memory |
| `DiskFormat.FileOnDisk` | fs.h:24-42 | a reader of the raw disk finds every file: its size in the inode, and each byte of its content in the block that the inode's 12 addresses or its indirect block list for it |
| `DiskFormat.HeaderBytes` | log.c:34-37 | the header block holds the number of logged blocks and then their numbers, as 32-bit words, least significant byte first |
| `File.File.WriteChunk` | file.c:140-145 | one transaction writes its chunk as writei does, or changes nothing, and logs at most 6 + min(4, bitmap blocks) blocks; a crash at any instant of it leaves the file system from before or from after; it panics only on a full disk, where the log has two blocks more than that |
| `File.File.WriteNext` | file.c:134-152 | one pass of filewrite's loop: the next chunk follows the bytes written before, and a crash at any instant since the call began leaves a prefix of whole chunks |
| `File.File.FileWrite` | file.c:117-156 | with no other process writing, writes the bytes at the file's offset, in transactions that fit the log; succeeds if and only if the offset is within the file and the range ends within MAXFILE * BSIZE; otherwise exactly the whole chunks before the first that does not fit are written; a crash at any instant of the call leaves the file system with a prefix of the bytes written: none, all, or whole chunks |
| `Mkfs.EmptyImage` | mkfs.c:74-118 | a formatted disk without files is consistent, for every layout |
| `Mkfs.RootHole` | mkfs.c:157-162 | rounding up the root directory's size leaves a hole if and only if its entries fill whole blocks |
| `MkfsImage.Image.constructor` | mkfs.c:108-111 | a zeroed disk, with no file |
| `MkfsImage.Image.Ialloc` | mkfs.c:223-235 | makes the next inode, on disk, and changes no file |
| `MkfsImage.Image.MapBlock` | mkfs.c:269-286 | the block of file offset fbn: a new one, at the counter, exactly if there was none, and then in no other file |
| `MkfsImage.Image.Iappend` | mkfs.c:255-297 | appends exactly the bytes given, other files untouched, the inode on disk; stops exactly on a file longer than MAXFILE blocks; hands out blocks beyond the disk, unnoticed, if and only if the blocks lacking are more than are left |
| `MkfsImage.AppendTight` | mkfs.c:266-296 | files have exactly the blocks that their sizes call for, before and after |
| `MkfsImage.Image.FixSize` | mkfs.c:158-163 | the size becomes the next multiple of BSIZE above it; no address and no byte changes |
| `MkfsImage.Image.Balloc` | mkfs.c:237-251 | after the free map is written the disk holds the file system built, with the free map exact; stops exactly if the blocks used do not fit one bitmap block |
| `MkfsImage.Image.AddFile` | mkfs.c:130-156 | makes an inode of type T_FILE with one link and the given data, and appends its entry to the root directory; other files are untouched |
| `MkfsImage.Build` | mkfs.c:67-168 | for every list of files: where mkfs reports no failure and stays within the disk, the image is consistent, each file has its data, its type and no hole, the root directory starts with their entries, and it ends in a hole exactly when these fill whole blocks |
| `MkfsImage.EntriesName` | fs.h:53-56 | each entry of the root directory has its inode number in two bytes, low byte first, and its name in the next 14, padded with zeros |
| `MkfsImage.FoundByName` | mkfs.c:118-156 | reading an image back: `.` and `..` name the root, and each file's entry gives its name and the number of the inode that has its data |
| `CrashConsistency.SameFileSystem` | mkfs.c:100-103 | disks that differ in the log area only hold the same file system |
| `Journal.CurrentWritten` | log.c:213-233 | the log_writes of an operation, in order and with absorption, give the log's clients exactly the blocks that the operation left in its buffers |
| `Journal.Committed` | log.c:145-174 | from begin_op to the end of the commit, what is durable is at every step what it was before or what the operation made, and the latter at the end |
| `Journal.Abandoned` | log.c:125-233 | an operation that does not reach end_op leaves what was durable |
| `Journal.Journal.constructor` | log.c:53-66 | boot from any consistent image: recovery, then the inodes as they are on disk; a crash at any instant of it would again leave the same file system |
| `Journal.Journal.Conclude` | log.c:145-233 | hands an operation's log_writes to the log and ends it; never panics if the operation logs fewer blocks than the log holds |
| `Journal.Journal.Write` | fs.c:481-511 | begin_op, writei and end_op on the log itself, proved of the code without assumption: at every step of the log, commit included, a crash and recovery leave exactly the file system from before or exactly the one from after, and the one from after once it returns; refused if and only if the offset or the end of the range is out of bounds; a chunk panics if and only if fewer blocks are free than it lacks, where the log area has room for it |
| `Journal.Journal.Truncate` | fs.c:407-435 | the same for itrunc |
| `Journal.Journal.Read` | file.c:104-109 | readi outside a transaction, as fileread calls it: panics if and only if a block of the range is missing, because log_write then runs outside a transaction; otherwise returns the content and changes nothing |
| `Journal.Journal.Crashed` | log.c:115-122 | crash consistency: after any operations one after the other, a crash after any number of steps of the log, also inside commits and recovery, leaves a disk that boots and holds a consistent file system |
| `Journal.Reboot` | log.c:53-66 | the kernel boots from what such a crash left, and finds the inodes and the contents of every file of the file system that was durable then; the next session starts from there |
| `CrashConsistency.QuietConsistent` | log.c:145-174 | operations in progress together: if each stretch of them does what file system operations do one after the other, the current contents are a consistent file system whenever none is in progress, over every run, crashes included |
| `CrashConsistency.RecoveredIsConsistent` | log.c:115-122 | under the same assumption on overlapping operations, a crash after any number of steps of any run leaves a consistent file system |
| `CrashConsistency.ChunksFitLog` | file.c:127-133 | on the log area that mkfs makes, operations that log up to the limit for a chunk never fill the log if and only if there are at most three bitmap blocks; mkfs's file system has one |
| `Boot.MakeAndBoot` | mkfs.c:67-168 | mkfs, then boot: the kernel finds every file with the data given to mkfs |
| `Boot.ReadBehindEntries` | ls.c:57-57 | mkfs, boot, and read the 16 bytes behind the last entry of the root directory, as ls does: the kernel panics if and only if the entries fill whole blocks |
| `LruList.MoveFrontOk` | bio.c:130-138 | the six pointer assignments keep one circular doubly linked list of the head and all buffers, with the moved one first and the order of the others unchanged |
| `LruList.FreshOk` | bio.c:45-55 | the list that binit builds is such a list |
| `LruList.Reachable` | bio.c:69-69 | following next from the head reaches every buffer |
| `Bio.OneChange` | bio.c:1-141 | a change to one buffer keeps the cache consistent if the buffer stays the only one for its block and the disk keeps up or the buffer stays dirty: what every section below has to show |
| `Bio.UpToDate` | bio.c:96-106 | the disk has the latest data of a block whose buffer is neither dirty nor being edited, so filling an invalid buffer from disk is right |
| `Bio.CleanIsOnDisk` | bio.c:16-19 | a valid buffer that is clean and not being edited equals its block on disk |
| `Bio.Bcache.constructor` | bio.c:38-56 | binit: a consistent cache of free buffers |
| `Bio.Bcache.Bget` | bio.c:61-93 | in terms of the buffers' fields: finds a cached block where it is and counts the reference; otherwise recycles, of the buffers with no reference and not dirty, valid or not, the one used longest ago; panics if and only if no buffer is the block's and every one is referenced or dirty; keeps at most one buffer for each block |
| `Bio.Bcache.Lock` | bio.c:73-73 | taking the sleep lock keeps the cache consistent, in any interleaving |
| `Bio.Bcache.Iderw` | memide.c:38-60 | writes a dirty buffer or fills an invalid one, after which buffer and disk agree; panics exactly in the four cases tested |
| `Bio.Bcache.Bread` | bio.c:96-106 | the buffer returned holds what was last stored in its block, whether it was cached, recycled or pinned |
| `Bio.Bcache.Store` | bio.c:8-14 | the holder of a buffer changes the block's latest contents |
| `Bio.Bcache.Pin` | log.c:228-231 | log_write's B_DIRTY: the buffer cannot be recycled until it is written |
| `Bio.Bcache.Bwrite` | bio.c:109-116 | puts the holder's data on disk and changes no other block; panics exactly without the lock |
| `Bio.Bcache.Unlock` | bio.c:120-126 | gives up the sleep lock; panics exactly if the caller does not hold it |
| `Bio.Bcache.Drop` | bio.c:128-141 | drops one reference; the last one moves the buffer to the front, leaving the order of the others; right also if another process has locked the buffer meanwhile |
| `HeapRing.FreedOk` | umalloc.c:24-44 | free keeps one ring in address order with one wrap, fully coalesced, and every unit in exactly one block |
| `HeapRing.TakeWholeOk` | umalloc.c:75-78 | handing out a whole block keeps the heap |
| `HeapRing.TakeTailOk` | umalloc.c:79-83 | handing out the tail of a block keeps the heap |
| `HeapRing.NoOverlap` | umalloc.c:24-90 | no two blocks, free or live, overlap |
| `HeapRing.NoNeighbours` | umalloc.c:33-42 | no free block ends where another begins: free memory lies in blocks as large as they can be |
| `HeapRing.EachUnitOnce` | umalloc.c:24-90 | conservation: the units obtained from sbrk are exactly those of the free and the live blocks, each in one block |
| `Umalloc.SingleRing` | umalloc.c:30-33 | from any free block, following ptr reaches any other within as many steps as there are free blocks |
| `Umalloc.SearchStops` | umalloc.c:30-33 | free's search stops at the last free block below the new one at the latest, and where it stops the block fits |
| `Umalloc.Umalloc.constructor` | umalloc.c:21-22 | the heap before the first malloc |
| `Umalloc.Umalloc.Free` | umalloc.c:24-44 | one live block becomes free, no unit is gained or lost, no other live block is touched, and a free block of at least its size exists afterwards |
| `Umalloc.Umalloc.FindPlace` | umalloc.c:30-33 | the search ends, at a free block after which the new one belongs |
| `Umalloc.Umalloc.Morecore` | umalloc.c:46-61 | adds exactly the units sbrk gave, as free space for the request; changes nothing if sbrk fails; stores a header where it has no memory if and only if sbrk succeeds with an argument that is not positive |
| `Umalloc.Umalloc.Take` | umalloc.c:74-86 | hands out exactly n units, new to the live blocks, and touches no live block |
| `Umalloc.Umalloc.Malloc` | umalloc.c:63-90 | always ends; asks sbrk, once and for at least 4096 units, if and only if no free block is large enough; returns 0 if and only if sbrk then fails; otherwise a block disjoint from all live ones, none of which is touched, with less than one unit to spare.  The block holds the request if and only if that is at most 2^32 - 8 bytes, or at most 0x7FFFFFF0 where sbrk is asked; between these two it is not backed by memory |
| `Umalloc.AskedFor` | umalloc.c:52-54 | the int that sbrk receives is positive, and then the bytes needed, if and only if the request is at most 0x7FFFFFF0 bytes or so large that its units wrap around |
| `HeapGrowth.Refill` | umalloc.c:54-55 | in the kernel: where sbrk succeeds, the process has the units asked for at the address returned if and only if the request is at most 0x7FFFFFF0 bytes or wraps around; in between it has nothing new there |
| `HeapGrowth.TwoGigabytes` | umalloc.c:54-55 | the counterexample: malloc(0x80000000) in any process of up to a megabyte has sbrk succeed without adding a byte |
| `HeapGrowth.TakesAway` | umalloc.c:54-55 | another: a request of 0xFFFFEFF0 bytes has sbrk succeed and shrink a process of three pages |
| `Pages.OwnerIsReal` | kalloc.c:16-24 | partition: each frame is on the free list once, or is the table of one directory entry, or the frame of one user page, or none of these, and never two |
| `Pages.TakeInv` | kalloc.c:82-95 | kalloc keeps the partition and every address space's mapping |
| `Pages.ReleaseInv` | kalloc.c:59-77 | kfree of a page that nothing maps keeps the partition and every mapping |
| `Pages.AddTableInv` | vm.c:45-52 | a new page table, zeroed, changes no page's entry in any address space |
| `Pages.PutPteInv` | vm.c:71-73 | writing one entry changes that page of that address space alone, and a user entry takes over its frame |
| `Pages.UnmapInv` | vm.c:269-276 | freeing a mapped page and then clearing its entry keeps the partition and changes that one page |
| `Pages.DismantleInv` | vm.c:283-298 | once its user pages are gone, a directory and its tables can be given up without harm to other address spaces |
| `Pages.OtherSpaces` | vm.c:32-345 | an operation on one directory leaves entries and page contents of every other address space as they were |
| `KernelMap.EntriesMapKernel` | vm.c:105-115 | the four kernel entries map I/O space and data writable, text read-only, devices directly, and no user page |
| `KernelMap.EntryApart` | vm.c:105-115 | no kernel entry maps a page that an earlier one mapped, so setupkvm cannot reach the remap panic |
| `AddressSpaces.MapOne` | vm.c:68-78 | one pass of mappages adds one page to those mapped and keeps all other pages, contents and owners |
| `AddressSpaces.TrimSkip` | vm.c:267-268 | pages under a directory entry without a table need no visit: skipping them unmaps the same pages |
| `AddressSpaces.BuiltAndFreed` | vm.c:129-134 | a directory built out of free pages and then freed restores the free set exactly, and touches nothing else |
| `AddressSpaces.RestoredFree` | vm.c:342-344 | the set of free pages is then the same as before |
| `AddressSpaces.GrowOne` | vm.c:233-247 | allocating, filling and mapping a page adds exactly that page, or on failure leaves it held and nothing mapped |
| `SpaceCopy.GrownCopied` | vm.c:325-340 | pages added one by one make an address space that copies the parent's |
| `Vm.Vm.constructor` | kalloc.c:31-37 | memory before any page is freed |
| `Vm.Vm.Freerange` | kalloc.c:46-53 | frees exactly the whole pages of the range |
| `Vm.Vm.Kfree` | kalloc.c:59-77 | pushes the page, its other words filled with junk, on the free list |
| `Pages.RightsOfEntry` | mmu.h:93-101 | the processor's translation through directory and table, each right needing both words, is exactly what the table entry alone says: directory entries restrict nothing |
| `Vm.Vm.Kalloc` | kalloc.c:82-95 | pops the free list; fails exactly if it is empty |
| `Vm.Vm.Walkpgdir` | vm.c:35-55 | finds the table of a page, making it exactly if it is missing, alloc is set and a page is free; no page's entry changes; a new directory entry is present and restricts neither writing nor user access, which the invariant keeps of every directory entry |
| `Vm.Vm.Mappages` | vm.c:60-80 | maps exactly the pages of the range to consecutive frames with the permissions, all of them or, if a page table cannot be allocated, a leading part |
| `Vm.Vm.Deallocuvm` | vm.c:255-279 | unmaps and frees exactly the mapped pages of [newsz, oldsz), as a page-by-page walk would, through the skip over absent tables; the processor's translation of every other page is unchanged |
| `Vm.Vm.Freevm` | vm.c:283-298 | the free list gains exactly what the directory owned: its user pages, its tables and itself |
| `Vm.Vm.Setupkvm` | vm.c:118-136 | a new directory with the kernel's entries: the processor translates each page as the kernel's memory layout says, text not writable, nothing for user code; fails exactly if an allocation failed, and then the free set is restored exactly |
| `Vm.Vm.Allocuvm` | vm.c:221-249 | adds exactly the pages up to newsz, which the processor lets user code read and write and finds zero, and translates every other page as before; on failure maps none of them and gives back all but page tables; the two early returns change nothing |
| `Vm.Vm.CopyPage` | vm.c:325-339 | one pass of copyuvm's loop adds a copy of one page with its flags, or gives the new page back |
| `Vm.Vm.Copyuvm` | vm.c:315-345 | the copy has the same contents and flags on every page of [0, sz), in frames that were free, and the kernel's half, so that the processor gives each page the parent's rights and contents, through directory and table entry, and user code nothing else; the parent is unchanged; fails exactly if an allocation failed, and then the free set is restored exactly |
| `Growproc.Process.Growproc` | proc.c:156-175 | size and mapped pages agree after the call if and only if it did not shrink the process to size 0; remaining pages keep their contents, new ones are zero and open to user code, and those given up are gone for the processor |
| `Growproc.Process.Sbrk` | sysproc.c:45-57 | returns the old size, exactly when growproc succeeds; the size then changes by n, and not at all where n would take it below 0 |
| `Growproc.ShrinkToNothing` | proc.c:168-171 | the counterexample: giving up all memory frees every page, reports failure and leaves the old size |
| `ProcSteps.FamilyKept` | proc.c:180-312 | every step keeps the family: published processes have living parents, and a slot under construction belongs to one forking process |
| `ProcSteps.WaitsKept` | proc.c:227-312 | every step keeps it that no process sleeps in wait with a zombie child |
| `ProcSteps.CpusKept` | proc.c:322-392 | every step keeps RUNNING processes and CPUs matched one to one |
| `ProcSteps.RunInv` | proc.c:180-497 | all of that, and that processes have different pids, holds in every state of every run, for any number of processes and CPUs |
| `ProcSteps.NoMissedExit` | proc.c:227-312 | in every run, no process is asleep in wait while it has a zombie child |
| `ProcSteps.NoOrphans` | proc.c:255-262 | in every run, every published process but init has a parent that is neither a zombie nor gone, and no zombie has children |
| `ProcSteps.OneCpuEach` | proc.c:322-356 | in every run, a process is RUNNING exactly when it is current on a CPU, and then on only one |
| `ProcSteps.UniquePids` | proc.c:88-90 | in every run, two processes have different pids |
| `ProcSteps.AsleepStep` | proc.c:418-497 | a process asleep on a channel stays so through every step but a wakeup on that channel or a kill of it, either of which makes it RUNNABLE |
| `ProcSteps.SleepsUntilWoken` | proc.c:418-497 | in every run a process that went to sleep on a channel sleeps on exactly until the first wakeup on that channel or kill of it, and is RUNNABLE then |
| `Proc.Ptable.constructor` | proc.c:120-154 | the table after userinit |
| `Proc.Ptable.Wakeup1` | proc.c:457-465 | makes exactly the processes asleep on the channel RUNNABLE, and changes nothing else of the table |
| `Proc.Ptable.WakeupOn` | proc.c:467-474 | is a wakeup step of the protocol: afterwards nobody is asleep on the channel, and all others are as before |
| `Proc.Ptable.AllocProc` | proc.c:73-92 | takes the first unused slot for a fork, with a pid that no process has, and fails only if there is none |
| `Proc.Ptable.ForkStore` | proc.c:193-219 | fork's stores to the slot it builds, each exactly its field: giving it back, setting its parent, publishing it as RUNNABLE |
| `Proc.Ptable.ExitCurrent` | proc.c:227-268 | wakes the parent if it waits, hands the children to init, wakes init if it waits and one of them is a zombie, leaves the CPU as a zombie, and changes nothing else |
| `Proc.Ptable.PassOn` | proc.c:255-262 | exit's loop gives exactly the exiting process's children to init, waking it if it waits and one of them is a zombie |
| `Proc.Ptable.WaitOnce` | proc.c:272-312 | reaps a zombie child, if and only if there is one, freeing its slot and returning its pid; returns -1 exactly without children or when killed; otherwise sleeps on itself |
| `Proc.Ptable.GiveUp` | proc.c:384-452 | sleep leaves the process SLEEPING on its channel, yield RUNNABLE, and the CPU idle; nothing else changes |
| `Proc.Ptable.KillPid` | proc.c:479-497 | finds a process if and only if one has that pid: it is marked, and RUNNABLE if it was SLEEPING; every other slot, and every other state, is unchanged |
| `Proc.Ptable.PickNext` | proc.c:332-352 | runs the first RUNNABLE process from a slot on, and none only if there is none |
| `SleepLock.RunInv` | sleeplock.c:22-42 | at the grain of single lock operations, the invariant tying both spinlocks, locked, pid and the sleepers holds in every state of every run |
| `SleepLock.MutualExclusion` | sleeplock.c:22-42 | at most one process holds the sleep lock, for any number of processes and any interleaving, kills included |
| `SleepLock.NoLostWakeup` | proc.c:417-474 | when the inner spinlock is free, whoever sleeps on the lock sees it locked by a process that will release it |
| `SleepLock.HoldingSleep` | sleeplock.c:44-53 | holdingsleep tells a process whether it holds the lock |
| `SleepLock.NoDeadlock` | sleeplock.c:22-42 | unless a process is in its critical section, some process inside acquiresleep or releasesleep can step |
| `SleepLock.PidOfOwner` | sleeplock.c:29-39 | in every run lk->pid is the owner's while the lock is held, and 0 while it is free |
| `SleepLock.AcquireFree` | sleeplock.c:22-32 | from any state in which no spinlock is held, acquiresleep of a free lock takes it and changes nothing else |
| `SleepLock.AcquireHeld` | sleeplock.c:22-32 | acquiresleep of a lock that is held puts the process to sleep and changes nothing else |
| `SleepLock.Release` | sleeplock.c:34-42 | releasesleep frees the lock and makes every process asleep on it RUNNABLE, all others staying where they are |
| `SleepLock.Retry` | sleeplock.c:26-28 | a woken process goes back to test the lock |
| `Pipe.WrappedTests` | pipe.c:85-106 | the tests for full and empty on counters that wrap at 2^32 are exact |
| `Pipe.Pipe.constructor` | pipe.c:22-57 | a new pipe is empty and open |
| `Pipe.Pipe.Put` | pipe.c:93-93 | the byte is appended to those accepted |
| `Pipe.Pipe.Get` | pipe.c:116-116 | the byte fetched is the next one accepted |
| `Pipe.Pipe.Write` | pipe.c:78-98 | accepts exactly the next bytes of the caller, sleeps exactly on a full pipe, and loses a sleeping reader if and only if the writer is killed and has more to write than the pipe holds |
| `Pipe.Pipe.Read` | pipe.c:100-121 | delivers exactly the next accepted bytes, sleeps exactly on an empty open pipe, wakes the writers, and loses no sleeper |
| `Pipe.Pipe.Close` | pipe.c:59-75 | closing an end wakes those asleep on the other |
| `Pipe.Pipe.Kill` | proc.c:479-497 | kill wakes a process asleep in the pipe, and loses no other sleeper |
| `Pipe.LostWakeup` | pipe.c:86-89 | the counterexample: a killed writer fills the pipe and returns, and the reader sleeps on |
| `ShellGrammar.SimpleOfToks` | sh.c:399-446 | a printed command with redirections or parentheses is parsed back by parseexec, whatever redirections follow |
| `ShellGrammar.PipelineOfToks` | sh.c:361-372 | a printed pipeline is parsed back |
| `ShellGrammar.BacksOfToks` | sh.c:349-353 | a printed command with any number of & signs is parsed back |
| `ShellGrammar.LineOfToks` | sh.c:344-359 | every tree with few enough words per command is parsed back from its tokens, for any kind of words |
| `ShellGrammar.LineMade` | sh.c:344-446 | a parsed tree holds only words of the line, at most MAXARGS - 1 to a command |
| `ShellLex.SameLine` | sh.c:344-446 | parsing commutes with replacing word positions by their text: the parser's decisions depend on no word |
| `ShellLex.LexRender` | sh.c:265-308 | a token list written out is read back token by token |
| `ShellLex.RoundTrip` | sh.c:265-446 | every command tree with legal words and at most MAXARGS - 1 of them per command is parsed back from its printing, with parentheses only where the grammar needs them |
| `ShellSyntax.RedirsRead` | sh.c:374-397 | redirections wrap the command one around the other, in order; > and >> alike write, < reads |
| `ShellSyntax.ExtendedIs` | sh.c:431-445 | words and redirections may come in any order: the command has the words in order inside the redirections in order |
| `ShellSyntax.SentenceRead` | sh.c:344-446 | every sentence of the command language (words with < > >> anywhere, blocks, pipes, &, ;) is parsed to its meaning |
| `ShellSyntax.SentenceFrom` | sh.c:344-446 | whatever is accepted is a way to write a sentence of the language |
| `ShellSyntax.AcceptsExactly` | sh.c:344-446 | a token list is accepted with a tree if and only if it writes a sentence, of at most nine words per command, whose meaning is that tree; so >> and > can be exchanged anywhere |
| `ShellText.WrittenRead` | sh.c:262-308 | tokens spaced in any way, or not at all where they cannot run together, are read back |
| `ShellText.ReadWritten` | sh.c:262-308 | and the lexer reads nothing else: white space, symbols and word characters are the code's, character by character |
| `ShellText.SaidIsParsed` | sh.c:327-446 | a sentence, however it is spaced, is parsed to its meaning |
| `ShellText.ParsesExactly` | sh.c:327-446 | a line is accepted with a tree if and only if it is a sentence of the language with that meaning, in any spacing; every other line is a syntax error |
| `Shell.GetToken` | sh.c:265-308 | returns the next token's code and bounds and moves past it |
| `Shell.Peek` | sh.c:310-320 | tells whether the next token starts with one of the given characters, consuming only white space |
| `Shell.ParseRedirs` | sh.c:374-397 | the loop over redirections agrees with the grammar, `>>` included, syntax errors included; what the grammar is, is pinned by ShellText.ParsesExactly |
| `Shell.ParseExec` | sh.c:415-446 | agrees with the grammar |
| `Shell.ParseArgs` | sh.c:431-442 | the argv loop agrees with the grammar: words and redirections in any order, too many words an error |
| `Shell.ParseBlock` | sh.c:399-413 | agrees with the grammar |
| `Shell.ParsePipe` | sh.c:361-372 | agrees with the grammar |
| `Shell.ParseLine` | sh.c:344-359 | agrees with the grammar |
| `Shell.NulTerminate` | sh.c:449-493 | writes a NUL at the end of every word of the tree and nowhere else |
| `Shell.CutWords` | sh.c:449-493 | word ends lie outside all words, so after the NULs every argv and file string of the tree is its word's text |
| `Shell.ParseCmd` | sh.c:327-342 | the tree of the line, or a syntax error exactly where the grammar has one; afterwards each argv and file C string equals its token |
| `Grep.HereStar` | grep.c:99-106 | c* matches any number of repeats, in terms of splits of the text |
| `Grep.HereOne` | grep.c:92-94 | a character or a dot matches one character |
| `Grep.PlainPattern` | grep.c:72-96 | a pattern of ordinary characters and dots matches exactly the texts that contain it, a dot standing for any one character; with ^ those that begin with it, with $ those that end with it, with both those equal to it |
| `Grep.StarPattern` | grep.c:88-106 | c* followed by a pattern matches exactly where some number of characters c (any characters for .) is followed by a match of the pattern |
| `Grep.Match` | grep.c:72-82 | true exactly when the pattern's declarative meaning admits some split of the text, at the start for a leading ^ |
| `Grep.MatchHere` | grep.c:85-96 | true exactly when the pattern matches at the beginning, with the code's precedence of *, $ and . |
| `Grep.MatchStar` | grep.c:99-106 | true exactly when some number of repeats followed by the rest matches |
| `Klog.Klog.constructor` | klog.c:22-29 | an empty recorder |
| `Klog.Klog.Add` | klog.c:31-46 | the ring holds exactly the newest min(N, KLOG_SIZE) events of the whole history, stamped by position modulo 2^32 |
| `Klog.Klog.Gather` | klog.c:65-83 | gathers exactly the newest min(count, max) entries, oldest first |
| `Klog.ConsecutiveStamps` | klog.c:35-35 | consecutive entries carry consecutive counter values modulo 2^32 |

## Left out

- Device drivers, boot code, assembly, interrupts and traps: hardware effects; of the disk driver only iderw's contract is used.
- Memory ordering and the spinlock implementation: sections under a lock are atomic steps.
- Directories, path names, the inode cache, ialloc and iput, and link counts across create, link and unlink.
- Device inodes in readi and writei, and pipes and reads in file.c: they only dispatch.
- console.c, system call argument fetching, copyout, exec, trap dispatch: plumbing over the modelled operations.
- runcmd of the shell and grep's read loop: system call I/O.
- Liveness: that a sleeping process is eventually scheduled.
- Log.Log.LogWrite: the source tests for a full log before it takes the lock; the test and the update are one step here.
- LogMachine.RunInv: a block number outside the home area, or a header with a wrong count, is excluded; recovery finishes before operations begin, as in the boot sequence.
- Log.Log.BeginOp: one pass of the loop; sleeping and waking are the caller's repetition.
- File.File.FileWrite: one process at a time, on a file without holes (mkfs makes no hole in a file, and no write makes one); the source unlocks the inode between chunks, so another writer's chunks may come in between.
- File.File.WriteChunk: the same.
- Journal.Journal.Write: one operation at a time, on a file without holes; an operation's calls of log_write reach the log after its changes to the buffers, in their order, instead of one by one between them, and all inodes are read at boot.
- Journal.Journal.Truncate: one operation at a time.
- CrashConsistency.QuietConsistent: that operations in progress together do what they would do one after the other, which the inode and buffer locks are for, is a hypothesis on the run; Journal.Journal.Write and Journal.Journal.Crashed need none, for operations one after the other.
- CrashConsistency.RecoveredIsConsistent: the same hypothesis.
- CrashConsistency.ChunksFitLog: the only-if half is about the limit on what a chunk logs; that a chunk reaches it is shown for one file system of four bitmap blocks (FullChunk.TenBlocks).
- MkfsImage.Build: the superblock is a parameter and its block is not written; files are read in whole pieces of 512 bytes; more files than inodes is excluded, which mkfs does not check.
- MkfsImage.Image.Iappend: the assertion on the file's length is tested before the first byte is appended.
- FileSystem.FileSystem.Bmap: after a panic on a full disk only that every block is in use is stated, because the kernel stops.
- Bio.Bcache.Bget: only the root device is modelled; the sleep lock's waiting is left to the SleepLock module.
- Bio.Bcache.Unlock: the caller has handed changed data to log_write or bwrite, as bio.c's interface asks.
- Umalloc.Umalloc.Malloc: sbrk's answer is a parameter; memory that it was asked to add and agreed to is new and above the static header, in whole units.  What the program does after a header was stored outside its memory is not modelled.
- Umalloc.Umalloc.Morecore: the same.
- Vm.Vm.Mappages: remapping a present page, which panics, is excluded by a precondition; so is a misaligned physical address, which no caller passes.
- Vm.Vm.Copyuvm: the parent has [0, sz) mapped; the code panics otherwise.  One process at a time, as for Vm.Vm.Setupkvm and Vm.Vm.Allocuvm: pages that other CPUs allocate or free meanwhile are not modelled.
- Vm.Vm.Deallocuvm: sizes up to KERNBASE, as all callers pass; above it the code would free kernel frames.
- inituvm, loaduvm, clearpteu, uva2ka and switching address spaces: single steps over the modelled ones; uva2ka also assumes that the page table exists.
- Proc.Ptable.AllocProc: kernel stacks, trap frames, open files and address spaces of processes are not part of the process table's model.
- ProcSteps.UniquePids: nextpid counts without bound; the source's int overflows after 2^31 forks.
- Proc.Ptable.GiveUp: sleep's reset of chan after waking is left out, because chan is read only while a process is SLEEPING.
- Proc.Ptable.ForkStore: fork outside the lock is reduced to its stores to the slot; the three stores are separate steps.
- Pipe.Pipe.Write: a section runs from taking the lock, or waking, to sleeping or returning; the caller repeats it from the byte it reached.
- Pipe.Pipe.Close: nobody is asleep inside the end whose last descriptor is closed, because a sleeper has a descriptor.
- Shell.ParseExec: the execcmd that redirections wrap is updated through the tree (`AddArg`) instead of through a pointer into it, so aliasing is not modelled; malloc never fails.
- Shell.ParseCmd: the buffer holds a NUL-terminated line; reading it from the console is left out.
- Klog.Klog.Gather: copying the entries out to user memory is left out; a negative max gives a negative count, as in the code.
