# A verified model of an xv6 kernel with a priority scheduler

xv6 is a small Unix-like kernel for x86 machines. This fork adds a five-level priority scheduler and a `nice` system
call. The project models its most intricate parts in Dafny and proves what they are for: transactions survive power
loss at any block write, the scheduler never loses or misplaces a process, though nice can, the allocators partition
memory, files read back what was written, sleeping processes have somebody who will wake them, and the two small
language processors (the shell's parser and grep's matcher) accept exactly what declarative definitions of their
languages allow.

Code that updates memory in place is modelled by classes and methods whose contracts tie them to specification
functions. Protocols between processes are state machines whose steps are the critical sections of the code, and for
nice, which does its work without the lock, its accesses one after the other. The results about them hold for every run
of every length. Every file is one module.

| file | models |
|---|---|
| `Common.dfy` | constants and small functions that several modules share |
| `Disk.dfy`, `RedoLog.dfy` | the redo log on disk, crashes at any write, recovery, runs of all of these |
| `BufferCache.dfy`, `Log.dfy` | the buffer cache with its LRU ring, and the log code running over it |
| `LogAdmission.dfy` | begin_op, log_write and end_op: admission and group commit |
| `LogShare.dfy` | which blocks a write to a file puts into the log, and how many |
| `Bitmap.dfy`, `FileState.dfy`, `FileLayer.dfy` | free bitmap, block maps, itrunc, readi, writei, fileread, filewrite |
| `VmState.dfy`, `Vm.dfy` | physical pages, page tables, growing, shrinking, freeing and copying address spaces |
| `Heap.dfy` | malloc and free at user level |
| `Scheduler.dfy`, `PriorityChanges.dfy`, `ProcTable.dfy` | the process table and its priority queues |
| `Family.dfy` | what each event does to each process, and what parents in wait can rely on |
| `NiceSteps.dfy`, `NiceRace.dfy` | nice step by step among everything else, and a run in which it loses a process |
| `SleepLock.dfy` | sleep locks over sleep and wakeup, step by step |
| `Pipe.dfy`, `PipeProtocol.dfy` | the pipe's ring buffer, and readers and writers using it |
| `Regex.dfy` | grep's matcher |
| `ShellSyntax.dfy`, `ShellGrammar.dfy`, `Shell.dfy` | what a shell line means, and the lexer, parser and nulterminate |

## Where the code does not do what one would expect

Each of these is proved with the exact condition under which the expected property holds, or with a concrete run.

- **The log is one block too small.** mkfs makes the log LOGSIZE blocks long, header included, but begin_op admits
  operations as if LOGSIZE entries fitted. Appending a block is free of panics if and only if the log has more than
  LOGSIZE blocks (`LogAdmission.AppendsSafeIff`). And log_write checks for a full log before it looks for the block, so
  that a write which needs no new entry can panic too (`LogAdmission.AbsorbedWriteCanPanic`).
- **A chunk of filewrite can log more than an operation may.** Its chunks fit the log (`LogShare.ChunkFits`), but not
  the MAXOPBLOCKS blocks that begin_op reserved. On a disk with one bitmap block the count is exact, and
  `LogShare.OverrunIff` with the contract of `FileLayer.FileSystem.WriteI` says from length, offset and size which
  writes overrun. The smallest into an empty file is one of nine blocks, which logs eleven on the disk that mkfs makes
  (`FileLayer.NineBlocks`); a chunk logs up to 17 (`LogShare.ChunkOneBitmap`).
- **nice puts a process into the wrong queue.** It numbers queues by priority where everything else uses priority minus
  one. It never keeps the scheduler's invariant when it finds its target (`PriorityChanges.NiceKeepsInvIff`): it queues
  the process one level off, or leaves the queue array, which happens exactly if the old or new priority is 5
  (`PriorityChanges.NiceMisplaces`).
- **nice works on the queues without the lock.** It releases ptable.lock once it has found its process, and then changes
  priority and queues. So it can lose a process for good: `NiceRace.LosesFromBoot` is a run from boot, on two CPUs,
  after which a runnable process is in no queue. Another CPU takes the head off a queue in which nice has just found its
  process, and nice takes out the one behind. In the same way a yielding process is lost if nice writes the slot at the
  marker after it did and before it counted it (`NiceSteps.OverwriteLoses`). `NiceSteps.StepKeepsIff` says exactly which
  steps do harm, in any interleaving: taking out an entry that is no longer the one found, and counting in an entry that
  is no longer the one written. Runs without them lose nobody (`NiceSteps.NeverLost`), and there are none in runs in
  which nobody touches the queues between nice's release of the lock and its return (`NiceSteps.UndisturbedIsClean`).
- **kill does not look at its target's state.** It queues it, and keeps the invariant exactly for sleeping and runnable
  targets (`PriorityChanges.KillKeepsInvIff`). kill(0) finds an unused slot, and leaves the queue array exactly if that
  slot never had a priority (`PriorityChanges.KillWildIff`), as is the case at boot (`PriorityChanges.KillWildAtBoot`).
- **A killed pipe writer can strand a reader.** A writer that fills the pipe and is killed before it sleeps returns
  without waking the readers (`PipeProtocol.KilledWriterStrandsReader`). That is the only step after which somebody
  sleeps without a reason (`PipeProtocol.StepKeepsWaitersIff`), kills that wake a sleeper included.
- **malloc trusts 32-bit sums.** Requests within 8 bytes of 4 GB get too small a block (`Heap.UnitsSuffice`), and blocks
  of 2 GB or more ask sbrk for something else (`Heap.SbrkArgumentExact`). If sbrk grants that, the new free block claims
  memory that is not there; `Heap.Allocator.Malloc` says exactly when.
- **deallocuvm can jump over mapped pages.** Where it finds no page table it steps 1024 pages on from where it is, not
  to the next table. `Vm.DeallocCompleteIff` and `Vm.SkipLeavesPage` say when pages stay behind; address spaces without
  holes lose nothing (`Vm.DeallocCompleteForPrefix`).
- **copyuvm can lose pages.** If the free pages run out just between a page and its page table, that page is never
  freed; if they run out in setupkvm, all that were left are lost. The contracts of `Vm.Memory.CopyUvm` and
  `Vm.Memory.SetupKvm` give the exact numbers of free pages for which that happens. In all other cases every frame is
  back in its old use.

## Modelling decisions

- The Makefile (line 87) always defines `CUSTOM_SCHEDULER`, so that a default build compiles the round-robin scheduler.
  The model is of the other branch, the priority scheduler, which is what the fork adds.
- A disk block is 128 words in the log and cache modules, as the log header reads it, and 512 bytes in the file modules.
- The buffer cache and the file layer are modelled as used by one process at a time between their locks; the log's
  admission, the sleep lock, the pipe, the scheduler and nice are modelled for any number of processes.
- A call of nice has seven steps: finding the process under the lock, reading and writing the priority, the search of
  remove, closing the gap, the search of add, writing the slot, and incrementing the marker. The sections of other code
  under the lock are one step each, since their CPU takes no interrupts in them, but for the yield of the timer, which
  can also come in two halves, so that a call of nice on another CPU falls between them.
- The disk is the memory disk of memide.c. One block write is atomic; the memory behind the disk survives a crash.
- A wait channel is a number; the numbers of process slots stand for the processes' own addresses, on which only wait
  sleeps, each process on its own and after it found no zombie among its children.
- sbrk's answer, kill's timing and the order in which processes run are parameters or events.
- Running out of blocks makes balloc panic; methods that allocate blocks return `ok == false` for that, exactly when the
  free blocks do not suffice, and then promise only that every block is in use.
- Physical pages are named by frame number, virtual addresses by page number. A frame's bytes, or the entries of a page
  table in it, are kept apart by what the frame is used for.
- Process ids and lengths are unbounded integers, except where wrap-around matters: pipe counters, file offsets, and
  malloc's sizes are 32-bit. A C string is the text before its NUL.

## Model

| member | source | states |
|---|---|---|
| RedoLog.InstalledAt | xv6-public/log.c:70-82 | a block after installing is the last logged copy of it, or untouched if it was not logged |
| RedoLog.RecoveryPhases | xv6-public/log.c:116-122 | recovery's writes are the logged copies to their homes, then an empty header |
| RedoLog.RecoverInstalls | xv6-public/log.c:116-122 | recovery of a valid header puts every logged copy home and leaves the log empty |
| RedoLog.RecoverEmpty | xv6-public/log.c:116-122 | recovery of an empty log changes no home block |
| RedoLog.CrashedRecovery | xv6-public/log.c:116-122 | a crash after any write of recovery leaves a valid header, and recovering again gives the same home blocks |
| RedoLog.BeforeCommitPoint | xv6-public/log.c:176-200 | until the header write, a commit changes log blocks only and the log counts as empty |
| RedoLog.AtCommitPoint | xv6-public/log.c:102-113 | once the header is written, the disk holds exactly the transaction as a recoverable log |
| RedoLog.AfterCommitPoint | xv6-public/log.c:191-200 | what commit writes after the header is what recovery would write |
| RedoLog.CrashAtomicity | xv6-public/log.c:191-200 | a crash after any number of commit's writes, then recovery: the old disk before the header write, the whole transaction after it |
| RedoLog.CompleteCommit | xv6-public/log.c:191-200 | a finished commit leaves the transaction installed and the log empty |
| RedoLog.CommitPhases | xv6-public/log.c:191-200 | the writes of commit are the log copies, the header, the installation and the empty header, in that order |
| RedoLog.EventRefines | xv6-public/log.c:54-66 | each commit, crash, crashed recovery and recovery refines one step of a disk with atomic transactions |
| RedoLog.RunsAreAtomic | xv6-public/log.c:116-122 | after any run of commits, crashes at any write, crashed recoveries and recoveries, recovery shows exactly the transactions whose header was written, whole and in order |
| BufferCache.LinkBuffers | xv6-public/bio.c:46-55 | the buffers form a doubly linked ring through the head, latest first |
| BufferCache.BufferAvailable | xv6-public/bio.c:81-92 | if pinned and referenced blocks are fewer than the buffers, one buffer can be recycled, so that the panic is not reached |
| BufferCache.BufferChanged | xv6-public/bio.c:97-141 | changing one buffer to match a changed view of its block keeps cache and view in agreement |
| BufferCache.BufferRecycled | xv6-public/bio.c:81-90 | recycling a clean, unreferenced buffer keeps one buffer per block and loses no logical content |
| BufferCache.Cache.constructor | xv6-public/bio.c:39-56 | binit: the cache is valid and shows the disk |
| BufferCache.Cache.Lookup | xv6-public/bio.c:69-77 | finds the buffer of a block if and only if one caches it |
| BufferCache.Cache.FindVictim | xv6-public/bio.c:81-83 | the least recently used buffer that is clean and unreferenced |
| BufferCache.Cache.Reference | xv6-public/bio.c:62-92 | bget up to its lock, for a block held or not: one more reference, the cached buffer or the least recently used recyclable one; no content is lost |
| BufferCache.Cache.Lock | xv6-public/bio.c:74-91 | the lock at the end of bget, once nobody holds the buffer: the referenced block is held, its buffer has not been recycled meanwhile |
| BufferCache.Cache.Bget | xv6-public/bio.c:62-93 | a locked, referenced buffer for a block that nobody holds; other held buffers and every block's logical content stay |
| BufferCache.Cache.IdeRw | xv6-public/memide.c:38-59 | a dirty buffer goes to the disk, another is filled from it; the flags end as valid and clean |
| BufferCache.Cache.ReadIn | xv6-public/bio.c:101-105 | once locked, the buffer holds the block's logical content, whether cached, pinned or read; nothing is written |
| BufferCache.Cache.Bread | xv6-public/bio.c:97-106 | the same for a block that nobody holds, bget included; all buffers held keep their content |
| BufferCache.Cache.Store | xv6-public/fs.c:43-51 | changing the data of a held buffer changes the logical content of that block only |
| BufferCache.Cache.Pin | xv6-public/log.c:229-230 | a dirty buffer stays in the cache |
| BufferCache.Cache.Bwrite | xv6-public/bio.c:110-116 | the disk gets the logical content of the block, in one write, and the buffer is no longer pinned |
| BufferCache.Cache.Brelse | xv6-public/bio.c:121-141 | drops one reference; the last one moves the buffer to the front of the LRU order |
| BufferCache.Cache.Unlink | xv6-public/bio.c:132-133 | the two pointer updates take the buffer out of the ring, forwards and backwards |
| BufferCache.Cache.MoveToHead | xv6-public/bio.c:132-137 | the pointer updates make the ring that of the order with this buffer first |
| Log.ViewInstalled | xv6-public/log.c:70-82 | if cache and disk differ in logged blocks only, installing them makes the disk what the cache shows |
| Log.CommitDone | xv6-public/log.c:191-200 | after commit's writes the disk's home blocks are those the cache showed, and the log is empty |
| Log.CrashShowsOldOrNew | xv6-public/log.c:191-200 | losing power after any write of a commit, recovery shows the disk before it or all that the cache showed |
| Log.Log.constructor | xv6-public/log.c:54-66 | initlog makes exactly the recovery writes and ends with an empty log |
| Log.Log.BeginOp | xv6-public/log.c:126-141 | the operation is admitted exactly if its reserve fits beside that of the others |
| Log.Log.EndOp | xv6-public/log.c:146-172 | the last operation to end commits for all, with exactly the commit writes; the others change nothing |
| Log.Log.LogWrite | xv6-public/log.c:212-231 | the block is recorded once, in order of first write, and its buffer pinned |
| Log.Log.WriteLog | xv6-public/log.c:176-188 | writes the logged blocks' cached content to the log, in header order |
| Log.Log.WriteHead | xv6-public/log.c:102-113 | one write, of the header that names the logged blocks |
| Log.Log.EncodeHeader | xv6-public/log.c:107-110 | the header block's words are the count and the block numbers |
| Log.Log.ReadHead | xv6-public/log.c:86-96 | reads back the blocks the header names |
| Log.Log.InstallTrans | xv6-public/log.c:70-82 | writes each log copy to its home, in order, and unpins it |
| Log.Log.RecoverFromLog | xv6-public/log.c:116-122 | makes exactly the recovery writes; the disk is the recovered one |
| Log.Log.Commit | xv6-public/log.c:191-200 | makes exactly the commit writes, in order; the home blocks on disk become those the cache showed, which do not change |
| LogAdmission.StepKeepsInv | xv6-public/log.c:126-172 | each critical section keeps the space promise: entries logged plus the unused reserve of outstanding operations fit LOGSIZE |
| LogAdmission.AdmissionHolds | xv6-public/log.c:126-172 | that promise in every reachable state |
| LogAdmission.SleepersWillBeWoken | xv6-public/log.c:126-172 | whoever sleeps in begin_op, some operation is outstanding or a commit running that will wake it |
| LogAdmission.OnlyFullLogPanics | xv6-public/log.c:212-231 | exactly when a step of a reachable state panics |
| LogAdmission.AppendsSafeIff | xv6-public/log.c:216-217 | no reachable append panics if and only if the log has more than LOGSIZE blocks |
| LogAdmission.AbsorbedWriteCanPanic | xv6-public/log.c:216-226 | a run in which a write of an already logged block panics |
| Bitmap.PutOne | xv6-public/fs.c:88-93 | setting or clearing bit b by block, byte and mask changes bit b and no other |
| Bitmap.OnIs | xv6-public/fs.c:66-67 | a bit of a byte is on exactly if its power of two is in the byte's value |
| Bitmap.ByteIsSum | xv6-public/fs.c:66-67 | a byte is the sum of the powers of two of the bits that are on |
| Bitmap.BitIs | xv6-public/fs.c:63-67 | block b's bit is the one of weight 2^(b % 8) in byte b / 8 of its bitmap block |
| Bitmap.MkfsBitmap | xv6-public/mkfs.c:236-250 | the bytes mkfs writes for n blocks: 255, one less than a power of two, zeros; read as a bitmap, exactly the first n blocks are in use |
| Bitmap.FirstFree | xv6-public/fs.c:63-76 | balloc's scan over blocks and bits finds the lowest clear bit, or none |
| FileState.EntrySet | xv6-public/fs.c:372-376 | writing entry i of an indirect block and reading entry j |
| FileState.EntryBytes | xv6-public/mkfs.c:55-65 | an entry of an indirect block is four bytes, the lowest first |
| FileState.BlockIs | xv6-public/fs.c:355-382 | where the n-th block of a file is: in the inode, or in its indirect block |
| FileState.FillDirect | xv6-public/fs.c:360-364 | a free block given to a direct address: each block in use still has exactly one holder |
| FileState.FillIndirect | xv6-public/fs.c:369-370 | the same for the indirect block, whose zeroed entries hold nothing |
| FileState.FillInBlock | xv6-public/fs.c:371-376 | the same for an entry of the indirect block |
| FileState.FillFiles | xv6-public/fs.c:355-382 | the next block of a file appends a zero byte to that file and changes no other |
| FileState.WrittenFiles | xv6-public/fs.c:486-488 | bytes copied into one block are spliced into that file and change no other |
| FileState.OneFile | xv6-public/fs.c:355-382 | a block belongs to one place of one file |
| FileState.DropFiles | xv6-public/fs.c:390-417 | taking all blocks of a file away empties it and leaves every other file |
| FileState.SpliceOn | xv6-public/fs.c:484-490 | writing two stretches one after the other is writing them at once |
| FileState.ReadSlice | xv6-public/fs.c:450-459 | the bytes of one block are that stretch of the file |
| FileLayer.FileSystem.constructor | xv6-public/mkfs.c:238-251 | with only metadata blocks in use and empty inodes the file system is consistent |
| FileLayer.FileSystem.Balloc | xv6-public/fs.c:57-78 | the lowest free block, marked and zeroed, or the panic exactly when none is free |
| FileLayer.FileSystem.Bfree | xv6-public/fs.c:82-96 | clears that block's bit only; the callers' proofs show that the panic is not reached |
| FileLayer.FileSystem.Iupdate | xv6-public/fs.c:209-224 | the inode on disk becomes the one in memory |
| FileLayer.FileSystem.Bmap | xv6-public/fs.c:355-382 | the block under the bn-th block of the file; inside the file nothing changes, at its end one block is added to this file alone, exactly if the one or two free blocks for it are there; exactly which blocks are logged |
| FileLayer.FileSystem.MapDirect | xv6-public/fs.c:360-364 | the direct case; logged are the new block and its bitmap block |
| FileLayer.FileSystem.MapIndirect | xv6-public/fs.c:369-370 | allocating the indirect block changes no file; logged are it and its bitmap block |
| FileLayer.FileSystem.MapEntry | xv6-public/fs.c:371-378 | the indirect case; logged are the new block, its bitmap block and the indirect block |
| FileLayer.FileSystem.WriteBlock | xv6-public/fs.c:485-489 | one round of writei: the bytes are spliced into the file, and exactly which blocks are logged |
| FileLayer.FileSystem.WriteAll | xv6-public/fs.c:484-490 | all rounds together splice the whole source in, exactly if the free blocks suffice; the inode changes only if the file grew; exactly which blocks are logged |
| FileLayer.FileSystem.SetSize | xv6-public/fs.c:492-495 | the new size in memory and on disk; no file changes |
| FileLayer.FileSystem.WriteRange | xv6-public/fs.c:484-495 | the loop and the new size: inode in memory and on disk agree, and the set of blocks logged is that of LoggedSet |
| FileLayer.FileSystem.WriteI | xv6-public/fs.c:468-497 | all bytes or -1, exactly by offset and size despite 32-bit sums; it succeeds exactly if the new data blocks and a new indirect block fit the free ones; the file is spliced, others stay, the inode on disk follows; the set of blocks logged, its size with one bitmap block, and exactly when that is over MAXOPBLOCKS |
| FileLayer.FileSystem.ReadBlock | xv6-public/fs.c:450-460 | one round of readi returns that stretch of the file and never allocates |
| FileLayer.FileSystem.ReadI | xv6-public/fs.c:433-463 | the stretch of the file that exists, or -1; nothing changes |
| FileLayer.FileSystem.Itrunc | xv6-public/fs.c:390-417 | the file is empty, exactly its blocks are free, other files stay |
| FileLayer.FileSystem.FreeDirect | xv6-public/fs.c:396-401 | exactly the blocks of the direct addresses are freed |
| FileLayer.FileSystem.FreeIndirect | xv6-public/fs.c:404-409 | exactly the blocks of the indirect entries are freed |
| FileLayer.FileSystem.FileRead | xv6-public/file.c:97-113 | reads at the offset and advances it by what was read |
| FileLayer.FileSystem.WriteChunk | xv6-public/file.c:136-150 | one chunk: all its bytes or none, exactly if it fits the file and the free blocks; its transaction fits the log |
| FileLayer.FileSystem.FileWrite | xv6-public/file.c:118-156 | the chunks together write what one write would, or the whole chunks before the file is full, exactly if the free blocks suffice for that; one transaction for each chunk, a refused one included; each fits the log and with one bitmap block logs exactly what its chunk needs |
| LogShare.RoundsNext | xv6-public/fs.c:484-490 | the blocks logged by the rounds so far and by one more are those of the rounds together, the indirect block counted once |
| LogShare.WrittenAll | xv6-public/fs.c:484-495 | rounds and inode together log exactly the data blocks, the bitmap blocks of new ones, the indirect block if an entry is new, and the inode block if the file grew |
| LogShare.WrittenCount | xv6-public/fs.c:484-495 | the size of that set: bounded for any disk, exact with one bitmap block |
| LogShare.ChunkFits | xv6-public/file.c:133 | a chunk can log at most LOGSIZE blocks, on any disk |
| LogShare.ChunkWorstIff | xv6-public/file.c:133 | the bound is LOGSIZE exactly for chunks over 14 blocks of which 13 and the indirect block are new; for all others it is less |
| LogShare.OverrunIff | xv6-public/file.c:133-142 | with one bitmap block, exactly which writes log more than MAXOPBLOCKS blocks |
| LogShare.NineBlocksOverrun | xv6-public/file.c:133-142 | nine blocks into an empty file log eleven, eight and less never overrun |
| FileLayer.NineBlocks | xv6-public/mkfs.c:93-104 | on the disk that mkfs makes, its bitmap included, a write of nine blocks to an empty file succeeds and logs eleven |
| LogShare.ChunksNeed | xv6-public/file.c:136-150 | two writes one after the other allocate exactly the blocks that one would |
| LogShare.ChunkSpends | xv6-public/file.c:136-150 | what the chunks have allocated is what their bytes need together |
| LogShare.ChunkOneBitmap | xv6-public/file.c:133 | with one bitmap block a chunk logs at most 17 blocks, and some log 17 |
| VmState.TakenOwned | xv6-public/kalloc.c:83-95 | taking the head of the free list keeps every frame in exactly one use |
| VmState.GivenOwned | xv6-public/kalloc.c:60-77 | freeing a frame nobody uses keeps it so, and no process sees the junk |
| VmState.TabledOwned | xv6-public/vm.c:54-61 | a new page table belongs to one directory entry and shows no process anything new |
| VmState.MappedOwned | xv6-public/vm.c:78-82 | mapping a page shows its bytes at that address of that process and changes nothing else anyone sees |
| VmState.UnmappedOwned | xv6-public/vm.c:271-276 | clearing an entry hides that page only, and frees its frame from use |
| VmState.DetachedOwned | xv6-public/vm.c:292-298 | giving up a directory without user pages leaves all other address spaces whole |
| VmState.WithDirOwned | xv6-public/vm.c:128-134 | a zeroed page as a new directory is an address space that shows nothing and disturbs none |
| VmState.NothingThere | xv6-public/vm.c:45-64 | a process sees nothing at an address if and only if it has no entry |
| Vm.Memory.constructor | xv6-public/kalloc.c:46-52 | freerange: exactly the whole pages in the range are free |
| Vm.Memory.Kalloc | xv6-public/kalloc.c:83-95 | a free frame if and only if there is one |
| Vm.Memory.Kfree | xv6-public/kalloc.c:60-77 | the frame is free and full of junk; no process sees a difference |
| Vm.Memory.WalkPgdir | xv6-public/vm.c:45-64 | the page table, made only if asked for, missing and affordable; no process sees a difference |
| Vm.Memory.MapPage | xv6-public/vm.c:70-89 | maps the one page, or changes nothing exactly when a table is missing and memory is out; of all frames only that one and the table's change use |
| Vm.Memory.PlacePage | xv6-public/vm.c:235-247 | frame, bytes and entry for one page, exactly when the free frames suffice; only free frames changed use, and they now serve that page and its table |
| Vm.Memory.FreePage | xv6-public/vm.c:270-277 | frees exactly the frame of that page and clears its entry |
| Vm.Memory.DeallocUvm | xv6-public/vm.c:257-280 | frees exactly the mapped pages in the range that the walk does not jump over; by address: no page with a byte below the new size, or beginning at or above the old one, is touched |
| Vm.Memory.Undo | xv6-public/vm.c:236-247 | allocuvm's error paths show every process what it saw before; every frame is back in its old use, but for page tables the space keeps |
| Vm.Memory.AllocUvm | xv6-public/vm.c:223-250 | zeroed pages in the whole range exactly if pages and missing tables fit the free frames, otherwise no visible change; by address: what begins between the sizes is zeroed, all else as before, and if everything below the old size was mapped, everything below the new one is; either way no frame came or went, and those whose use changed were free and now serve this space, on failure as page tables only |
| Vm.Memory.FreeVm | xv6-public/vm.c:285-299 | every frame of the address space and no other becomes free; the other processes see what they saw |
| Vm.Memory.NewSpace | xv6-public/vm.c:133-136 | a zeroed page becomes a directory, and nobody sees a difference |
| Vm.TakenThenFreed | xv6-public/vm.c:285-299 | freeing an address space gives back all that was taken for it: if nothing served it before, every frame is in the use it had |
| Vm.GrownThenShrunk | xv6-public/vm.c:223-280 | freeing the pages just mapped puts their frames back, page tables stay |
| Vm.Memory.SetupKvm | xv6-public/vm.c:128-143 | a new address space with page tables for exactly the kernel's addresses, if and only if 65 frames are free; otherwise all free frames are lost |
| Vm.Memory.CopyPages | xv6-public/vm.c:324-344 | the loop: the copy sees what the parent sees at every address below the size, exactly if the free frames suffice; otherwise it is gone with all that was taken for it, but for the one frame of Leaks |
| Vm.Memory.CopyUvm | xv6-public/vm.c:317-344 | the child sees what the parent sees at every address below the size, and nothing above, exactly if the free frames suffice for it and the kernel's tables; after a failure beyond setupkvm every frame is in the use it had, except that one is lost exactly for the numbers of free frames named by Leaks |
| Vm.Memory.GiveUp | xv6-public/vm.c:341-343 | copyuvm's error path frees exactly the frames of the copy and changes nobody else's memory |
| Vm.DeallocCompleteIff | xv6-public/vm.c:265-278 | the range is empty afterwards if and only if no skipped page was mapped |
| Vm.DeallocCompleteForPrefix | xv6-public/vm.c:265-278 | in an address space without holes nothing in the range stays mapped |
| Vm.GrownByAddress | xv6-public/vm.c:233-247 | the same growth said by address |
| Vm.ShrunkByAddress | xv6-public/vm.c:265-278 | the same shrinking said by address |
| Vm.ShrinksToSize | xv6-public/vm.c:265-278 | a space without holes that shrinks keeps every page with a byte below the new size and no page that begins at or above it |
| Vm.HoleyOwned | xv6-public/vm.c:265-269 | an address space whose first table is missing is a legal one |
| Vm.SkipLeavesPage | xv6-public/vm.c:265-269 | in it, shrinking to one page leaves a page mapped above the new size |
| Vm.NoneSkipped | xv6-public/vm.c:265-269 | nothing is skipped if the walk starts at a table's first page or in a table that exists |
| Vm.LeakThere | xv6-public/vm.c:333-337 | where copying stops for want of a table, the count of free frames is one that leaks |
| Vm.NoLeakThere | xv6-public/vm.c:333-337 | where it stops for want of a page, or succeeds, it is not |
| Vm.CostFresh | xv6-public/vm.c:326-338 | copying n pages takes n frames and one for each 1024 pages begun |
| Heap.UnitsSuffice | xv6-public/umalloc.c:69 | the block is large enough, and by less than a unit too large, exactly when the sum does not wrap |
| Heap.SbrkArgumentExact | xv6-public/umalloc.c:52-54 | sbrk is asked for the block's size exactly below 2 GB |
| Heap.InsertedSorted | xv6-public/umalloc.c:33-42 | after inserting and merging, the free blocks are in address order and no two touch |
| Heap.InsertedBytes | xv6-public/umalloc.c:33-42 | the free bytes are those free before and the freed block's |
| Heap.InsertedUnits | xv6-public/umalloc.c:33-42 | the free units grow by exactly the freed block's, merged or not |
| Heap.RelinkedRing | xv6-public/umalloc.c:33-42 | the pointer and size updates of free make the ring of that list |
| Heap.TakenSorted | xv6-public/umalloc.c:77-83 | taking all or the tail of a block keeps the list in order |
| Heap.TakenBytes | xv6-public/umalloc.c:77-83 | exactly the returned block's bytes stop being free |
| Heap.TakenUnits | xv6-public/umalloc.c:77-83 | the free units shrink by exactly those returned |
| Heap.BalancedFree | xv6-public/umalloc.c:25-44 | freeing keeps the books: free and live units together are the units obtained from sbrk |
| Heap.BalancedTake | xv6-public/umalloc.c:76-85 | so does taking a block |
| Heap.BalancedGrow | xv6-public/umalloc.c:47-61 | so does new core, which lies apart from all core before it |
| Heap.CutRing | xv6-public/umalloc.c:77-83 | the updates of malloc make the ring of the smaller list |
| Heap.CanonicalList | xv6-public/umalloc.c:25-44 | the set of free bytes determines the free list |
| Heap.TakeThenFree | xv6-public/umalloc.c:25-90 | freeing what malloc just took gives back the list it started from |
| Heap.StopsAtPosition | xv6-public/umalloc.c:30-32 | free's search stops at the one right place of the ring, wherever it starts |
| Heap.Allocator.constructor | xv6-public/umalloc.c:21-22 | the allocator starts empty |
| Heap.Allocator.FindPlace | xv6-public/umalloc.c:30-32 | the search ends at the place where the block fits between its neighbours |
| Heap.Allocator.Free | xv6-public/umalloc.c:25-44 | the block is merged into the free list in place; live blocks and core stay, free and live bytes partition the core and their units add up |
| Heap.Allocator.MoreCore | xv6-public/umalloc.c:47-61 | new core is added to the free list and makes the request fit, or nothing changes; exactly when the sum asked of sbrk was wrong |
| Heap.Allocator.Malloc | xv6-public/umalloc.c:64-90 | a block disjoint from all live ones, or 0 exactly when none fits and sbrk fails or was asked for a wrong sum; of the blocks behind freep the first that is large enough is taken, all of it or its tail; free and live blocks partition the core, and their units are those obtained from sbrk |
| Heap.Allocator.FirstFit | xv6-public/umalloc.c:74-89 | the walk visits every block before it asks for core, takes the first that fits, and leaves freep before it; for requests of any size |
| Heap.Allocator.Take | xv6-public/umalloc.c:76-85 | the returned block is the whole block or its tail |
| Scheduler.FindsItself | xv6-public/proc.c:21-25 | searching a queue by pid finds this process or nothing |
| Scheduler.ReadyAppends | xv6-public/proc.c:18-30 | a process made runnable goes to the end of its own queue, which has room; the -1 case is not reached |
| Scheduler.ReadyKeepsInv | xv6-public/proc.c:473-485 | and that keeps the invariant |
| Scheduler.WakeKeepsInv | xv6-public/proc.c:549-564 | so does waking all sleepers of a channel |
| Scheduler.DispatchIsRight | xv6-public/proc.c:374-409 | the scheduler runs the head of the best non-empty queue, no runnable process has a better priority, and it idles only if none is runnable |
| Scheduler.DispatchKeepsInv | xv6-public/proc.c:374-409 | dispatching keeps the invariant |
| Scheduler.StepKeepsInv | xv6-public/proc.c:79-333 | every event keeps it: a process is in the queue of its priority, once, exactly when it is runnable; pids are unique |
| Scheduler.StepKeepsCpus | xv6-public/proc.c:374-409 | running processes and busy CPUs correspond one to one, whatever the queues hold |
| Scheduler.RunsKeepInv | xv6-public/proc.c:374-409 | both in every run, of any length, on any number of CPUs |
| Scheduler.BootKeepsInv | xv6-public/proc.c:10-16 | both hold at boot |
| Scheduler.QueuesAreFifo | xv6-public/proc.c:18-57 | each event dispatches the head of a queue or only appends to it |
| Scheduler.PositionCountsDispatches | xv6-public/proc.c:374-409 | a waiting process moves up by exactly one place per dispatch from its queue, in every run |
| Scheduler.HeadAfterExactlyK | xv6-public/proc.c:374-409 | it is at the head after as many dispatches as stood before it, and not earlier |
| Family.StepIs | xv6-public/proc.c:79-573 | every event, process by process: who changes, how, and that nobody else does; for sleep its channel, for fork the parent, for wait the slot freed |
| Family.ExitIs | xv6-public/proc.c:244-287 | exit makes the process a zombie, wakes exactly the sleepers on its parent and, if a child is a zombie, those on init, and hands every child to init |
| Family.AbandonIs | xv6-public/proc.c:275-281 | the loop over the children, process by process |
| Family.KillIs | xv6-public/proc.c:579-605 | kill wakes a sleeping target and changes no other process |
| Family.KillLists | xv6-public/proc.c:579-605 | the target is listed in the queue of its priority afterwards |
| Family.StepKeepsWaits | xv6-public/proc.c:272-334 | every event keeps: nobody sleeps in wait while a child of theirs is a zombie |
| Family.ParentsAreWoken | xv6-public/proc.c:272-334 | that in every run |
| Family.ParentsAreWokenAnyway | xv6-public/proc.c:272-334 | that in every run with kill and nice too, however they interleave |
| Family.BootWaits | xv6-public/proc.c:10-16 | it holds at boot |
| PriorityChanges.KillKeepsInvIff | xv6-public/proc.c:579-605 | kill keeps the invariant, and the queue array, exactly if its target does not exist, sleeps or is runnable |
| PriorityChanges.KillWildIff | xv6-public/proc.c:590-595 | kill leaves the queue array exactly if the pid is 0 and the first slot without a process never had a priority |
| PriorityChanges.KillWildAtBoot | xv6-public/proc.c:579-605 | the input: kill(0) at boot |
| PriorityChanges.NiceKeepsInvIff | xv6-public/proc.c:666-693 | a call of nice that nothing interleaves with keeps the invariant exactly if there is no such process |
| PriorityChanges.NiceMisplaces | xv6-public/proc.c:687-691 | for a process in use such a call leaves the queue array exactly if the old or new priority is 5; otherwise the process ends one queue away from that of its new priority |
| PriorityChanges.StepKeepsWeak | xv6-public/proc.c:79-573 | every event under the lock keeps: no runnable process but those set aside is in no queue, and no queue lists a slot twice |
| PriorityChanges.KillKeepsWeak | xv6-public/proc.c:579-605 | so does kill, whatever its target |
| PriorityChanges.InvIsWeak | xv6-public/proc.c:18-57 | the invariant implies what these runs start from |
| NiceSteps.StepKeepsIff | xv6-public/proc.c:666-693 | among the steps of any number of calls of nice, kills and events under the lock, in any order, exactly two kinds lose a process or list one twice: closing the gap at another entry than the one found, and showing another entry than the one written, of processes that are nowhere else |
| NiceSteps.NeverLost | xv6-public/proc.c:579-693 | in every run without such a step, up to a call that leaves the queue array: each runnable process is in some queue or in the hands of a call, in some queue when all calls have returned; no queue lists a slot twice, and no two CPUs run one process |
| NiceSteps.LockedKeeps | xv6-public/proc.c:79-573 | the sections under the lock do no harm, wherever calls of nice stand |
| NiceSteps.HitKeepsIff | xv6-public/proc.c:49-55 | closing the gap does harm exactly if the entry there is another process's, runnable and in no other queue or hand |
| NiceSteps.PlacedKeepsIff | xv6-public/proc.c:27-28 | incrementing the marker does harm exactly if it shows an entry twice, or not its own, and that is nowhere |
| NiceSteps.IntactClobbersNothing | xv6-public/proc.c:686-691 | a call whose findings still hold does no harm |
| NiceSteps.UndisturbedIsClean | xv6-public/proc.c:686-691 | runs in which nobody changes queues or pids while a call stands between release and return have no harmful step |
| NiceSteps.CallIsNice | xv6-public/proc.c:666-693 | the steps of a call that nothing interleaves with do what the atomic description says, and leave the array exactly when it does |
| NiceSteps.DispatchSpoils | xv6-public/proc.c:27-28 | in every state in which a call has written the slot and not yet counted it, a process dispatched from that queue makes the count lose the target or list one twice |
| NiceSteps.HalvesAreYield | xv6-public/proc.c:473-485 | the two halves of yield, one after the other, are the yield event |
| NiceSteps.OverwriteLoses | xv6-public/proc.c:27-28 | in every state in which nice is about to write the slot at the marker, a process of that level that yields and has written it but not counted it is lost |
| NiceRace.StageLoses | xv6-public/proc.c:686-691 | from every state with three processes in the third queue and a free CPU there is a run of two calls and one dispatch that loses the third |
| NiceRace.LosesFromBoot | xv6-public/proc.c:686-691 | the input: a run from boot on two CPUs, at whose end all calls have returned and a runnable process is in no queue |
| ProcTable.RunQueues.AddProcessToQueue | xv6-public/proc.c:18-30 | the array code appends unless the pid is listed |
| ProcTable.RunQueues.RemoveProcessFromQueue | xv6-public/proc.c:32-57 | the array code removes the first entry with the pid and closes the gap |
| ProcTable.RunQueues.ShiftDown | xv6-public/proc.c:49-53 | the later entries move down by one, the rest stays |
| ProcTable.PTable.constructor | xv6-public/proc.c:10-16 | the empty table satisfies the invariant |
| ProcTable.PTable.MakeReady | xv6-public/proc.c:230-239 | refines making a process runnable |
| ProcTable.PTable.Wakeup1 | xv6-public/proc.c:549-564 | the loop refines waking the sleepers of a channel, slot by slot |
| ProcTable.PTable.SchedulerPass | xv6-public/proc.c:379-408 | one pass refines the dispatch |
| ProcTable.PTable.FirstNonEmpty | xv6-public/proc.c:386-392 | finds the best level with a process in it |
| ProcTable.PTable.AllocProc | xv6-public/proc.c:79-98 | takes the first unused slot, or fails if there is none |
| ProcTable.PTable.Yield | xv6-public/proc.c:473-485 | refines the yield event |
| ProcTable.PTable.Exit | xv6-public/proc.c:269-285 | refines the exit event, which Family.ExitIs says process by process |
| ProcTable.PTable.PassToInit | xv6-public/proc.c:275-281 | the loop hands the children to init and wakes it for zombies |
| ProcTable.PTable.Reap | xv6-public/proc.c:305-318 | frees the slot; the removal after the pid was cleared changes no queue |
| ProcTable.PTable.FindProc | xv6-public/proc.c:675-680 | the first slot with the pid |
| ProcTable.PTable.AddTo | xv6-public/proc.c:18-30 | on a queue without repeats, -1 is returned exactly if the process was listed; there always is room |
| ProcTable.PTable.TakeFrom | xv6-public/proc.c:32-57 | refines removal by pid |
| ProcTable.PTable.Kill | xv6-public/proc.c:579-605 | refines kill, calls that leave the queue array included; the caller is made to exit exactly when the target was already queued |
| ProcTable.PTable.Nice | xv6-public/proc.c:666-693 | refines nice, if nothing interleaves with it after the release of the lock, with its result, calls that leave the queue array included; the caller exits exactly for a bad priority or pid |
| SleepLock.StepKeepsInv | xv6-public/sleeplock.c:23-42 | each step between lock operations keeps the protocol's invariant |
| SleepLock.InvHolds | xv6-public/proc.c:511-573 | the invariant in every reachable state |
| SleepLock.MutualExclusion | xv6-public/sleeplock.c:23-42 | at most one process is inside, and the lock records it |
| SleepLock.NoLostWakeup | xv6-public/proc.c:519-533 | when both locks are free, nobody sleeps or is about to |
| SleepLock.SleeperHasWaker | xv6-public/sleeplock.c:35-42 | a sleeper's lock is held by another process, or one is on its way to wake it |
| SleepLock.NoDeadlock | xv6-public/sleeplock.c:23-42 | whenever somebody wants or has the lock, some step is possible |
| SleepLock.PathIs | xv6-public/sleeplock.c:23-42 | nobody leaves acquiresleep but with the lock, nor passes by releasesleep |
| SleepLock.AcquireEndsInside | xv6-public/sleeplock.c:23-33 | in every run, a process that entered acquiresleep is still in it until it has had the lock |
| Pipe.Distance | xv6-public/pipe.c:85 | the byte count survives the wrap-around of the 32-bit counters |
| Pipe.SlotIgnoresWrap | xv6-public/pipe.c:93 | so does the slot of a counter |
| Pipe.SlotsDiffer | xv6-public/pipe.c:93 | bytes less than a buffer apart are in different slots |
| Pipe.PutWindow | xv6-public/pipe.c:93 | storing a byte appends it to the buffered bytes |
| Pipe.GetWindow | xv6-public/pipe.c:116 | the byte fetched is the first of them |
| Pipe.PipeBuffer.Put | xv6-public/pipe.c:93 | on the array, with counters that wrap, the byte is appended to the contents |
| Pipe.PipeBuffer.Get | xv6-public/pipe.c:116 | on the array, with counters that wrap, the oldest byte is taken out |
| Pipe.PipeBuffer.WriteBurst | xv6-public/pipe.c:79-98 | ends with all bytes in or with a full pipe; -1 exactly if bytes are left and the writer is killed or has no readers, sleep exactly if bytes are left otherwise |
| Pipe.PipeBuffer.ReadBurst | xv6-public/pipe.c:101-121 | the first bytes that are there, in order: n of them, or all; it sleeps or fails exactly if the pipe is empty and can be written, and a killed reader does not go back to sleep |
| PipeProtocol.StepKeepsFifo | xv6-public/pipe.c:60-121 | each step, a kill waking a sleeper included, keeps: bytes sent are those received and those in the buffer, in order |
| PipeProtocol.PipeIsFifo | xv6-public/pipe.c:60-121 | that in every run, kills included, for any number of readers and writers |
| PipeProtocol.RestKept | xv6-public/pipe.c:79-84 | a write starts with all its bytes to write, and what is left changes only by its own bursts |
| PipeProtocol.SendsFirst | xv6-public/pipe.c:79-98 | a burst sends the first of the bytes left and goes on with the others; it is done only when none are left |
| PipeProtocol.StepKeepsWaitersIff | xv6-public/pipe.c:79-98 | a step breaks the rule that sleepers have a reason to sleep if and only if a killed writer with more bytes than fit meets a sleeping reader |
| PipeProtocol.NobodyOversleeps | xv6-public/pipe.c:60-121 | in every run without such a step, other kills included, readers sleep only on an empty open pipe, writers only on a full one |
| PipeProtocol.NotBothAsleep | xv6-public/pipe.c:60-121 | in those runs a reader and a writer never sleep together |
| PipeProtocol.WritersGone | xv6-public/pipe.c:60-98 | in every run, once the write end is closed nobody writes and nothing more is sent |
| PipeProtocol.EndOfFile | xv6-public/pipe.c:101-121 | when a reader in some run is given the end of file, all bytes sent were received, and none is sent or received in any continuation |
| PipeProtocol.KilledWriterStrandsReader | xv6-public/pipe.c:85-89 | a run that leaves a reader asleep on a full pipe |
| Regex.HereIff | xv6-public/grep.c:85-106 | the matcher's recursion finds a prefix exactly if the pattern's language has one |
| Regex.TextParses | xv6-public/grep.c:85-96 | every pattern that can be written is read back from its text, with and without the final anchor |
| Regex.ParsedText | xv6-public/grep.c:85-96 | every text is the pattern it is read as, written out |
| Regex.Match | xv6-public/grep.c:73-82 | a match is reported if and only if some stretch of the text is in the pattern's language, at the ends it anchors |
| Regex.MatchHere | xv6-public/grep.c:85-96 | agrees with the recursion on the parsed pattern |
| Regex.MatchStar | xv6-public/grep.c:99-106 | tries every number of repetitions that the text allows |
| ShellGrammar.RedirsParse | xv6-public/sh.c:375-397 | redirections are read in order |
| ShellGrammar.RoundTripExec | xv6-public/sh.c:416-446 | a simple command or a block reads back from its tokens |
| ShellGrammar.RoundTripPipe | xv6-public/sh.c:362-372 | a pipeline reads back |
| ShellGrammar.RoundTripLine | xv6-public/sh.c:345-359 | a whole line reads back, with the right nesting of all operators, whatever follows |
| ShellGrammar.LineBuilt | xv6-public/sh.c:345-446 | the parser returns well-formed trees whose words are words of the line |
| ShellGrammar.ReparseAccepted | xv6-public/sh.c:345-446 | what the parser accepted, printed and parsed again, is the same tree |
| ShellSyntax.LineParsed | xv6-public/sh.c:345-446 | tokens that stand for a command are parsed to it, whatever follows: lists, background jobs, pipelines, blocks and redirections |
| ShellSyntax.LineSound | xv6-public/sh.c:345-446 | what the parser consumed stands for the command it returned |
| ShellSyntax.LineIff | xv6-public/sh.c:345-446 | the parser reads a whole line as a command if and only if the line stands for it |
| ShellSyntax.Unambiguous | xv6-public/sh.c:345-446 | no line stands for two commands |
| Shell.SkipWhitespace | xv6-public/sh.c:272-273 | skips white space only |
| Shell.GetToken | xv6-public/sh.c:266-308 | the next token of the line, after white space only, as long as it can be, and the rest |
| Shell.LexIff | xv6-public/sh.c:266-308 | the tokens read are the one sequence that accounts for the line: in order, only white space around them, each symbol its characters, each word whole on both sides |
| Shell.OneReading | xv6-public/sh.c:266-308 | a line has one such sequence only |
| Shell.Peek | xv6-public/sh.c:311-320 | whether the next token is one of the symbols, consuming nothing |
| Shell.ParseRedirs | xv6-public/sh.c:375-397 | agrees with the grammar, errors included |
| Shell.ParseArgs | xv6-public/sh.c:427-440 | agrees with the grammar, the panic at the tenth argument included |
| Shell.ParseExec | xv6-public/sh.c:416-446 | agrees with the grammar |
| Shell.ParseBlock | xv6-public/sh.c:400-413 | agrees with the grammar, missing parentheses included |
| Shell.ParsePipe | xv6-public/sh.c:362-372 | agrees with the grammar |
| Shell.ParseLine | xv6-public/sh.c:345-359 | agrees with the grammar |
| Shell.ParseCmd | xv6-public/sh.c:328-342 | the tree of the line, or the panic exactly for lines outside the grammar |
| Shell.AcceptedIff | xv6-public/sh.c:328-342 | a line of text is accepted as a command if and only if tokens that account for it stand for that command, and panics if and only if they stand for none |
| Shell.NulTerminate | xv6-public/sh.c:450-493 | writes a NUL at the end of each recorded word and nowhere else |
| Shell.ParseAndCut | xv6-public/sh.c:328-342 | afterwards every recorded word is a C string in the buffer with the text it had on the line |
| Shell.EndsOutsideWords | xv6-public/sh.c:450-493 | no NUL falls inside a word |
| Shell.LexSpell | xv6-public/sh.c:266-308 | spelled tokens are read back |
| Shell.RoundTrip | xv6-public/sh.c:328-342 | any well-formed command, printed, parses to itself |

## Left out

- Heap.Allocator.Malloc: what happens after a call that is `wild`, because the new block then overlaps memory of unknown use; the contract says exactly which calls these are. The same holds for Heap.Allocator.MoreCore and Heap.Allocator.FirstFit.
- ProcTable.PTable.Kill: the queues after a call that is `wild`, because the code then changes other kernel memory; exactly which calls these are is stated.
- ProcTable.PTable.Nice: the same, and a call that other code interleaves with, which is in NiceSteps.
- NiceSteps.NeverLost: runs end before the first call that leaves the queue array or follows a null pointer, for the same reason.
- NiceSteps.StepKeepsIff: the two searches and the closing of the gap are loops in the code and one step each here; and of the sections under the lock only yield comes in halves. On several CPUs there are finer interleavings than these. A call during which nobody touches the queues, the condition of `NiceSteps.UndisturbedIsClean`, meets none of them.
- PriorityChanges.NiceKeepsInvIff: a call that other code interleaves with, which is in NiceSteps. The same holds for PriorityChanges.NiceMisplaces.
- Vm.Memory.MapPage: mappages for ranges of several pages, which only setupkvm uses, for the kernel half.
- Vm.Memory.SetupKvm: the entries of the kernel's page tables, which are the same in all address spaces and name no allocated page; only the tables themselves are modelled.
- FileLayer.FileSystem.constructor: the root directory and the programs that mkfs writes, because the model of files starts empty and writei can put any content in.
- FileLayer.FileSystem.WriteI: devices (type T_DEV), whose writes go to drivers.
- FileLayer.FileSystem.ReadI: devices (type T_DEV), whose reads go to drivers.
- FileLayer.FileSystem.FileRead: descriptors of pipes (FD_PIPE), which are passed on to piperead; that is modelled in `Pipe.dfy`.
- FileLayer.FileSystem.FileWrite: the same for pipewrite.
- BufferCache.Cache.Bget: a block that another process holds, for which the code waits; `BufferCache.Cache.Reference` is what it does before and `BufferCache.Cache.Lock` what it does after the wait, and the waiting itself is that of `SleepLock.dfy`.
- BufferCache.Cache.Bread: the same; `BufferCache.Cache.ReadIn` is the rest of it.
- LogShare.ChunkWorstIff: whether some disk with several bitmap blocks attains the bound; the exact count is stated for one bitmap block, which a disk of up to 4096 blocks has (FSSIZE is 1000).
- Inode allocation and reference counting (ialloc, iget, iput), directories and path names.
- growproc to size 0, exec, copyout, loaduvm: easy members over what is here.
- The round-robin scheduler, cps, procdump and the ps program.
- Traps, interrupts, spin locks, the boot code, and the drivers for console, keyboard, serial line and IDE disk.
- The killed flag of processes that do not use a pipe, and what wait, fork and exit return or do besides the process table.
- grep's line buffering and the shell's runcmd.
- Wrap-around of process ids after 2^31 forks.
- In the shell, `>>` opens its file exactly as `>` does; the two are kept apart in tokens only.
