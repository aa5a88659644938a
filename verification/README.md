# xv6, verified

A Dafny model of the hard parts of this xv6 kernel and of two of its user programs, with proofs of
what they promise. `dafny verify dfyconfig.toml` checks the whole project.

| Dafny files | models | main results |
|---|---|---|
| `LruList`, `Bcache`, `BlockCopy` | the buffer cache over the memory disk: bio.c, memide.c | the cache always shows the logical disk; the buffer recycled is the one released longest ago |
| `LogDisk`, `LogCache`, `Log`, `LogProtocol`, `LogSteps`, `LogRuns`, `LogBuffers`, `LogReservation`, `LogRaces`, `LogCommit`, `LogLimits` | the redo log: log.c | crash atomicity at every sector write, with recoveries crashed in turn; operations all or nothing over every interleaving; how far the log and the cache fill, and for which log sizes they fail |
| `Blocks`, `FsLayout`, `FsFiles`, `FsGrow`, `FsBytes`, `FsWrite`, `FsTrunc`, `FsLog`, `FsMap`, `FsFate`, `FsLoop`, `FsChunks`, `FsFree`, `FsMkfs`, `Fs` | the file layer: fs.c, filewrite of file.c | a file is a sequence of bytes; every used block has one owner; no holes; exactly what a write logs, when it fits into the log and the cache, and when it gets to a block of the log |
| `Frames`, `VmPages`, `VmShrink`, `VmGrow`, `VmCopy`, `VmOut`, `VmBytes`, `Vm` | frames and page tables: kalloc.c, vm.c, growproc of proc.c | every frame has one use; what growing, shrinking and copying do at every address; exactly which frames are lost and when the kernel panics or faults |
| `Proc`, `Pipe` | processes and pipes: proc.c, pipe.c | no lost child, every exit reported at most once; pipes are bounded queues, and each writer's bytes go in in order and once; exactly when a wakeup is lost |
| `FreeList`, `Umalloc` | the user heap: umalloc.c | the circular, sorted, coalesced free list; every unit accounted for |
| `CStrings`, `ShellSyntax`, `ShellTokens`, `ShellGrammar`, `ShellRoundTrip`, `ShellParser` | the shell's parser: sh.c | the parser is exactly its grammar, panics included; printing and parsing are inverse on everything it builds; nulterminate cuts out each word |
| `Grep` | the regular expressions of grep.c | the matcher decides the language of the pattern |
| `Ranges` | shared definitions | smaller and larger numbers, ranges, sizes of sets |

Code that updates things in place is modelled by classes and arrays with loops. Each method is
proved against a specification on values, and the theorems are about those values: over every input,
or, for the log, processes and pipes, over every run of a state machine whose steps are the stretches
of code that run under one lock, or single sector writes. log_write is two steps, its test of the room
in the log and what it does under log.lock, because other operations can come in between.

Where the code does not keep what its comments or its callers suggest, the model follows the code,
and a lemma says exactly when the promise holds:

- `log_write` tests for room before it takes log.lock, and does not test again. At most three operations
  are open at a time, so the log can be filled two sectors further than the test allows
  (`ReachedBounded`). What keeps the header in memory from being overrun is the cache: each logged sector
  and each one in use has a buffer, and there are LOGSIZE buffers (`HeaderHolds`, `Enter`).
- `log_write` panics on a full log before it looks whether the block is logged already, and it also
  stops at one block less than the log has. With a log of LOGSIZE blocks, as mkfs makes it, or fewer,
  operations that keep to their reservation can meet the panic (`WritePanicsExactly`). With more blocks
  no operation can, for a block not logged yet: bread has panicked before (`TooBigOnlyAbsorbed`,
  `BeyondReservation`); but they can for one that is logged (`AbsorbedWritePanics`).
- commit needs a buffer that no logged block pins. From LOGSIZE - 1 log blocks on, operations that keep
  to their reservation can fill the cache and bring commit to bget's panic (`LacksBufferExactly`); with 2
  to LOGSIZE - 1 log blocks they can bring it to a log block past the end of the disk
  (`RunsPastEndExactly`). So no log size is free of panics (`NoSafeSize`).
- filewrite sizes its chunks so that one fits into the log, not into its reservation: a full chunk
  always logs more than MAXOPBLOCKS blocks (`ChunkArithmetic`, `FileWrite`), so three at a time do not
  fit (`OpenTogether`). One kind of chunk still panics on its own, on a disk of more than 13 bitmap
  blocks: with LOGSIZE log blocks in log_write, with more in commit (`ChunkRoom`, `SmallDiskChunks`). A
  write of more blocks than that, or itrunc of a file whose blocks have their bits in many bitmap blocks,
  panics too (`ManyBlocksPanic`, `Writei`, `Itrunc`).
- balloc's scan includes the log at the end of the disk, whose bits mkfs does not set. It takes a block of
  the log exactly if every block in front of it is in use, and the first one it takes is the log's header
  (`Balloc`, `BallocOnMkfs`, `BallocTakesLog`). A write that is short of blocks comes to that, unless it
  panics before (`Writei`, `TakesSplit`).
- The comment at waitpid says a null status discards the child's exit status; the code returns -1 and
  does not reap the child (`ReapsExactly`).
- The shell's >> opens its file as > does, without appending (`RedirOf`, `ParsesExactly`).
- A killed writer leaves a full pipe without waking readers (`LostWakeupExactly`, `LostWakeup`).
- setupkvm gives back nothing when it runs out of frames, so copyuvm loses every free frame if there are
  no more than the 64 that the kernel's page tables take (`Setupkvm`, `Copyuvm`). allocuvm ignores a
  failure to get a page table, and copyuvm forgets the frame it has in hand then (`Allocuvm`, `Copyuvm`).
  copyuvm panics on a page missing below the size, allocuvm on one that is there above it; both states
  arise. deallocuvm jumps a whole page table from an address in the middle of a missing one
  (`AllGoneExactly`, `NoneLeftExactly`, `JumpedOver`). growproc takes shrinking to size 0 for a failure
  after the pages are gone (`Growproc`). uva2ka does not look whether there is a page table, so copyout
  faults where one is missing (`Uva2ka`, `Copyout`).
- malloc computes the units of a request in 32 bits. Above 0x7FFFFFF0 bytes it returns null, a block that
  is too small, or one above the break (`RequestFitsExactly`, `Malloc`, `HugeRequests`).
- `>>` opens its file as `>` does.

## Model

| member | source | states |
|---|---|---|
| `Blocks.WordAfterSet` | log.c:84-112 | a little-endian word stored in a block reads back, and every other word of the block is as before |
| `Blocks.BitAfterSet` | fs.c:64-66 | setting a clear bit of a bitmap block sets that bit and no other |
| `Blocks.BitAfterClear` | fs.c:88-92 | clearing a set bit clears that bit and no other |
| `LruList.PushedLinked` | bio.c:49-55 | linking a buffer in behind the head keeps a circular doubly linked list, the buffer now first |
| `LruList.UnlinkedLinked` | bio.c:129-130 | unlinking a buffer keeps the list of all the others, in order |
| `LruList.MoveToFrontPermutes` | bio.c:127-135 | the list after a release has the same buffers, each once, the released one first and the others, by position, in their old order |
| `LruList.List.constructor` | bio.c:47-55 | after binit the list holds every buffer once |
| `LruList.List.PushFront` | bio.c:131-134 | the four pointer writes put a buffer first |
| `LruList.List.Unlink` | bio.c:129-130 | the two pointer writes take a buffer out |
| `LruList.List.Release` | bio.c:127-135 | the six pointer writes of brelse are move-to-front |
| `LruList.LatestFirst` | bio.c:127-135 | after any releases the list is in the order of the last ones, the latest first |
| `Bcache.OnlyHolder` | bio.c:61-95 | on a real device at most one buffer holds a sector |
| `Bcache.DistinctAfter` | bio.c:84-93 | recycling a buffer for a sector no buffer holds keeps that |
| `Bcache.ViewAfter` | bio.c:97-140 | what a change to one buffer and the disk does to the logical contents of every sector |
| `Bcache.SoundAfter` | bio.c:97-140 | a change to one buffer that leaves it equal to the disk, dirty or in use, and to no disk sector but its own, keeps the cache sound |
| `Bcache.SameViewAfter` | bio.c:97-140 | and, if the buffer's sector keeps its contents, the logical disk as it was |
| `Bcache.ReleaseRule` | bio.c:119-140 | releasing a busy buffer keeps the cache sound exactly if the buffer is dirty or equal to the disk, as it is when its holder called log_write or bwrite after changing it |
| `Bcache.BgetKeepsView` | bio.c:58-95 | bget's hits, recycling and failure change no sector's logical contents |
| `Bcache.FillKeepsView` | bio.c:97-107 | filling a buffer from the disk changes no sector's logical contents |
| `Bcache.BufferCache.constructor` | bio.c:38-56 | an empty cache shows the disk |
| `Bcache.BufferCache.Bget` | bio.c:58-95 | returns the first buffer that holds the sector, sleeps if it is busy, and on a miss takes the clean, non-busy buffer closest to the least recently released end, or panics if there is none |
| `Bcache.RecyclesOldest` | bio.c:82-92 | after any releases, a miss recycles the free buffer whose last release is longest ago |
| `Bcache.BufferCache.FindHolder` | bio.c:68-82 | the first buffer in list order that holds the sector |
| `Bcache.BufferCache.FindFree` | bio.c:84-93 | the last buffer in list order that is neither busy nor dirty |
| `Bcache.BufferCache.Iderw` | memide.c:36-58 | writes a dirty buffer out and clears its flag, otherwise reads it in; its four panics |
| `Bcache.BufferCache.Bread` | bio.c:97-107 | returns a busy buffer with the sector's logical contents, across evictions |
| `Bcache.BufferCache.Bwrite` | bio.c:109-117 | puts a held buffer on the disk; panics if it is not busy |
| `Bcache.BufferCache.Brelse` | bio.c:119-140 | moves the buffer to the front and frees it, and keeps the logical disk |
| `Bcache.BufferCache.SetData` | bio.c:9-14 | a holder's change is what everyone will read |
| `Bcache.BufferCache.MarkDirty` | log.c:225-228 | B_DIRTY pins a buffer without changing the logical disk |
| `BlockCopy.LogBlock` | log.c:174-187 | two breads, memmove, bwrite, two brelses copy one sector's contents to another, if there is a free buffer and the sector is on the disk, and change nothing else |
| `BlockCopy.InstallBlock` | log.c:68-81 | the same copy from the log to a home sector whose buffer may be pinned |
| `BlockCopy.CopyEffectOf` | log.c:68-81 | the copy's effect on disk, cache and logical contents of every sector |
| `LogDisk.HeadRoundTrip` | log.c:83-112 | the count is in the first word, the sectors in the next ones, and read_head reads back exactly the sectors write_head wrote |
| `LogDisk.AbsorbedListable` | log.c:219-227 | log absorption keeps the list of sectors without repeats and within the header exactly if the sector is logged already or the header has room |
| `LogDisk.ApplyAt` | log.c:68-81 | installing distinct home sectors gives each its logged block and leaves the rest |
| `LogDisk.ApplyAgain` | log.c:68-81 | installing all again after installing some gives the same disk |
| `LogDisk.RecoveryInterrupted` | log.c:114-121 | a disk crashed after any number of recovery writes recovers to the same home sectors |
| `LogDisk.RecoveryWrite` | log.c:68-81 | the disk after k + 1 recovery writes is the disk after k with one sector written |
| `LogDisk.RecoveryCompleted` | log.c:114-121 | a completed recovery leaves an empty log and the recovered home sectors |
| `LogDisk.CommittedLog` | log.c:189-199 | once the header is written the disk recovers to the new contents |
| `LogDisk.CommitStep` | log.c:174-199 | the disk states of a commit follow one another by single sector writes: log blocks, header, home sectors, cleared header |
| `LogDisk.BeforeCommitPoint` | log.c:174-187 | before the header write the disk recovers to the old home sectors |
| `LogDisk.FromCommitPoint` | log.c:100-112 | from the header write on, to the new ones |
| `LogDisk.CommitInterrupted` | log.c:189-199 | a crash after any sector write of commit recovers to the old or to the new home sectors, and which of them is decided by the header write |
| `LogDisk.ChainKeepsOutcome` | log.c:114-121 | any number of recoveries, each crashed at any sector write, keep the outcome |
| `LogDisk.CrashAtomicity` | log.c:68-121 | for every crash point of commit followed by any chain of crashed recoveries, the first completed recovery leaves all home sectors old or all new, and the header cleared |
| `LogCache.CommitFits` | log.c:174-187 | with no buffer in use the cache has a buffer for the commit exactly if fewer than NBUF blocks are logged |
| `LogCache.FreeExactly` | bio.c:84-94 | bget can recycle a buffer exactly if fewer than NBUF sectors are logged or in use |
| `LogCache.RoomForHeld` | log.c:219-228 | a buffer in use whose sector is not logged leaves a place in the header |
| `LogCache.ReadOutcomes` | bio.c:58-107 | bread waits exactly if an operation holds the sector, and panics exactly if it is neither logged nor held and NBUF sectors are |
| `Log.AtCommitPoint` | log.c:189-195 | after write_log and write_head the disk is the committed one, and cache and header are as install_trans needs them |
| `Log.CommitTraceOf` | log.c:189-199 | the disk states a commit passes through are those of CommitStep, one for one |
| `LogCache.DirtyAfter` | log.c:225-228 | the dirty buffers are always exactly those of the logged sectors |
| `Log.NotHeld` | log.c:174-187 | when every buffer is busy or dirty none holds a block of the log area, so write_log finds no buffer |
| `Log.Logger.constructor` | log.c:52-65 | initlog places the log at the end of the disk |
| `Log.Logger.WriteLog` | log.c:174-187 | copies the logical contents of the logged sectors to the log, in order, one sector write each; panics exactly if there is no free buffer or the log has too few blocks |
| `Log.Logger.WriteHead` | log.c:100-112 | writes count and sectors into the header block, in one sector write |
| `Log.Logger.InstallTrans` | log.c:68-81 | installs the log blocks in order, one sector write each |
| `Log.Logger.InstallAndClear` | log.c:192-197 | installs and clears: the disk's log is empty, nothing is dirty, and every home sector shows what it showed |
| `Log.Logger.Commit` | log.c:189-199 | succeeds exactly if nothing is logged, or there is a free buffer and a log block for each sector; then passes through exactly the disk states of CommitStep and leaves every home sector's logical contents, an empty log and a clean cache |
| `Log.Logger.ReadHead` | log.c:83-97 | the header in memory is the one on disk |
| `Log.Logger.Recover` | log.c:114-121 | from a fresh cache, recovery passes through exactly the disk states of a recovery and ends with an empty log |
| `Log.Logger.Fetch` | bio.c:97-107 | bread by an operation: its result, its wait and bget's panic are those of the protocol's step |
| `Log.Logger.LetGo` | bio.c:119-140 | brelse by an operation is the protocol's step |
| `Log.Logger.Check` | log.c:215-218 | the test in front of log.lock: the two panics exactly, as the protocol's step |
| `Log.Logger.Slot` | log.c:221-224 | the place of a sector in the header, or its end |
| `Log.Logger.Enter` | log.c:220-229 | absorbs or appends the sector and pins its buffer, within the header although it does not test |
| `Log.Logger.Append` | log.c:220-229 | that this is the protocol's step, which always goes right |
| `Log.Logger.LogWrite` | log.c:210-230 | without other operations in between: absorbs or appends the sector, pins its buffer, keeps the logical disk; its two panics; the protocol's two steps |
| `Log.Logger.BeginOp` | log.c:124-140 | starts exactly if no commit is in progress and the sectors logged leave MAXOPBLOCKS places for it and each operation in progress; the protocol's step; otherwise sleeps |
| `Log.Logger.EndOp` | log.c:142-171 | the last operation out commits, the others take the protocol's step; its panic and those of commit |
| `LogSteps.StepKeepsInv` | log.c:124-230 | every step of every operation, of commit, crash and recovery that goes right keeps the protocol's invariant, also with the log filled beyond log_write's test |
| `LogRuns.RunKeepsInv` | log.c:124-230 | so does every run, for every log size |
| `LogRuns.CrashRecoversGroups` | log.c:114-121 | in every reachable state the disk recovers to the effect of the groups committed so far, in order |
| `LogRuns.CommittedStays` | log.c:189-199 | committed groups stay committed whatever happens |
| `LogRuns.OperationsAtomic` | log.c:124-171 | every operation is in one committed group with all its writes in order, or in none with any |
| `LogRuns.CommitRunsAlone` | log.c:144-171 | commit runs only with no operation open; the "log.committing" and "outside of trans" panics are unreachable, and log_write's other one is met exactly at its limit |
| `LogRuns.ReadsSeeWrites` | log.c:210-230 | outside of crash and recovery reads see every log_write so far |
| `LogRuns.NothingBlocked` | log.c:124-230 | in every reachable state a step that is due is taken and goes right exactly if it is none of the failures listed and, for begin_op and bread, need not wait |
| `LogRuns.WaitsForSomeone` | log.c:124-140 | when begin_op waits an operation is open or a commit is in progress, which will wake it |
| `LogRuns.BeginsExactly` | log.c:124-140 | in every reachable state an operation may begin exactly if neither a commit nor a recovery is in progress and the sectors logged, with MAXOPBLOCKS for each open operation and for this one, fit into LOGSIZE |
| `LogRuns.BootCompletes` | log.c:114-121 | an uninterrupted boot after any crash ends with an empty log and exactly the committed groups |
| `LogCommit.CommitPath` | log.c:189-199 | where the cache has a buffer and the log a block for each sector, the protocol's commit passes through the disk states of CommitStep |
| `LogCommit.CommitStuck` | log.c:174-187 | where not, it panics while it copies to the log, and nothing is committed |
| `LogCommit.CommitEndsExactly` | log.c:189-199 | a commit left alone comes to its end exactly if fewer than NBUF sectors are logged and fewer than the log has blocks |
| `LogReservation.ReservationHolds` | log.c:131-135 | lh.n plus the unused budgets of open operations never exceeds LOGSIZE, also when operations pass log_write's test together; log_write panics exactly when LOGSIZE sectors are logged, so not for an operation within its budget, given a log of more than LOGSIZE blocks |
| `LogReservation.OpenTogether` | log.c:131-135 | three operations open together have added at most LOGSIZE sectors between them, in every run, so not three full chunks of filewrite |
| `LogBuffers.ReachedBuffered` | bio.c:84-94 | in every run the logged sectors and those in use have a buffer each, and an operation inside a log_write holds the one it brought |
| `LogBuffers.HeaderHolds` | log.c:215-227 | no log_write that has passed its test runs over the end of the header: in every run, for every log size, within the budgets or not |
| `LogBuffers.TooBigOnlyAbsorbed` | log.c:215-216 | with more than LOGSIZE log blocks only a sector that is logged already meets log_write's panic, in every run |
| `LogBuffers.CommitBuffers` | log.c:174-187 | during a commit no buffer is in use |
| `LogRaces.ReachedBounded` | log.c:131-135 | in every run at most three operations are open, and the log is filled at most two sectors beyond where log_write's test fails |
| `LogRaces.SecondBegins` | log.c:124-140 | however much of its budget one operation has logged, there is a run in which a second one begins |
| `LogRaces.Race` | log.c:215-227 | up to three operations within their budgets can read a sector each and pass the test before any of them appends, and then append, as far as the cache has buffers for the logged sectors and theirs |
| `LogLimits.WritePanicsExactly` | log.c:215-216 | operations within their budgets can meet log_write's panic on a sector not logged yet exactly if the log has LOGSIZE blocks or fewer |
| `LogLimits.AbsorbedWritePanics` | log.c:215-227 | with a larger log, a write to a sector already logged can meet it |
| `LogLimits.BeyondReservation` | log.c:215-216 | for every log size three operations can come to where the next sector not logged yet panics, in log_write or in bget |
| `LogLimits.LacksBufferExactly` | log.c:174-187 | operations within their budgets can bring commit to bget's panic exactly if the log has LOGSIZE - 1 blocks or more |
| `LogLimits.RunsPastEndExactly` | log.c:174-187 | and to iderw's panic for a sector past the end of the disk exactly if it has 2 blocks or more and fewer than LOGSIZE |
| `LogLimits.NoSafeSize` | log.c:174-218 | for every log size, on a disk with LOGSIZE home sectors, there is a run within the budgets that panics, in log_write up to LOGSIZE blocks and in commit above |
| `LogLimits.CommitInBudget` | log.c:189-199 | a commit within the budgets ends exactly if it has a buffer and its log blocks; a log of more than LOGSIZE blocks always has the blocks, one of LOGSIZE - 2 or fewer always leaves a buffer |
| `FsLayout.UsedAfterMark` | fs.c:64-67 | marking a block used changes no other block's bit, across bitmap blocks |
| `FsLayout.UsedAfterUnmark` | fs.c:87-93 | nor does unmarking it |
| `FsLayout.FirstFreeInLog` | fs.c:61-76 | the lowest clear bit is one of the log's exactly if every bit in front of them is set |
| `FsMkfs.BallocOnMkfs` | mkfs.c:233-247 | on a disk with mkfs's bitmap balloc finds the first block mkfs has not given away, in the log exactly if mkfs has filled the data area |
| `FsMkfs.BallocTakesLog` | mkfs.c:233-247 | such a disk, on which balloc takes the header block of the log |
| `FsMkfs.MkfsSettled` | mkfs.c:91-155 | mkfs's disk before it puts files on it meets every invariant of the file layer, with the log's bits clear |
| `FsMkfs.Leading` | mkfs.c:233-247 | the bitmap block mkfs writes has exactly its leading bits set |
| `FsLayout.LoadAfterStore` | fs.c:207-214 | an inode stored in its slot loads back, and the other inodes of the block are as before |
| `FsLayout.InodeAfterUpdate` | fs.c:200-217 | iupdate changes one inode on disk and no other |
| `FsFiles.UsedIsDisjointUnion` | fs.c:49-95 | in front of the log the used blocks are the disjoint union of metadata, blocks in files, and indirect blocks |
| `FsFiles.NoSharing` | fs.c:356-386 | no two places in files share a block, no two files an indirect block |
| `FsFiles.BytesWrite` | fs.c:481-487 | rewriting part of a block rewrites that part of the file's bytes |
| `FsGrow.GrowDirect` | fs.c:364-368 | a new direct block keeps bitmap, ownership and block maps, is zeroed, and leaves every other file alone |
| `FsGrow.GrowIndirect` | fs.c:371-383 | so does a new block in an existing indirect block |
| `FsGrow.GrowFirst` | fs.c:371-383 | and the first one, which takes two blocks |
| `FsGrow.Room` | fs.c:52-76 | a block is free exactly if fewer blocks have owners than there are |
| `FsGrow.DataRoom` | fs.c:52-76 | a block in front of the log is free exactly if fewer blocks are in use or in the log than there are |
| `FsBytes.LaterExtends` | fs.c:356-386 | bmap's new block appends zeroes to one file's blocks and changes no other file |
| `FsBytes.LaterPatched` | fs.c:481-487 | writing into a block changes those bytes of one file and no other file |
| `FsBytes.SpliceStep` | fs.c:481-487 | one more piece copied behind the others is the longer splice |
| `FsBytes.NextPiece` | fs.c:481-487 | each piece goes into a block of the file or the next one, and the blocks the file then has are those its size needs |
| `FsWrite.WithinSize` | fs.c:489-493 | a write within the size leaves inode and number of blocks alone, and disk and memory agree |
| `FsWrite.PastSize` | fs.c:489-493 | a write past the size, with the inode updated, makes the size fit the blocks again, on disk and in memory |
| `FsWrite.ReplacesTwice` | fs.c:464-494 | two writes one behind the other are one write |
| `FsWrite.NewVolumeSettled` | fs.h:4-9 | a disk without files, with the bits of metadata set and those of the log set or clear, meets every invariant |
| `FsTrunc.FreeingStep` | fs.c:400-413 | the next block of a file being truncated is still in use, so bfree does not panic, and only its bit changes |
| `FsTrunc.TruncEnd` | fs.c:393-421 | with all its blocks freed and its inode written, the file is empty, exactly its blocks are free and every other file is as it was |
| `FsLog.LowestFree` | fs.c:51-76 | the k blocks balloc takes one after the other are free, all different and on the disk, while there is room |
| `FsLog.LowestData` | fs.c:51-76 | and in front of the log, while there is room there |
| `FsLog.LoopLogStep` | fs.c:481-487 | what a turn of writei's loop adds to the set of blocks it logs, as a function of the volume before the write |
| `FsLog.LoopLogSize` | fs.c:481-487 | that set has exactly the old blocks written, the blocks taken, the bitmap blocks for them and the old indirect block, all different |
| `Fs.FileSystem.constructor` | fs.c:26-35 | mounting any disk that meets the invariants |
| `Fs.FileSystem.FindClear` | fs.c:63-72 | the first clear bit of a bitmap block |
| `Fs.FileSystem.FindFree` | fs.c:61-74 | the first clear bit of all bitmap blocks |
| `Fs.FileSystem.Balloc` | fs.c:51-76 | takes the lowest free block, zeroes it, logs it and its bitmap block; panics exactly if every block is used, the log has not room enough, or readsb or the block finds no buffer beside those in use; the block is one of the log's exactly if every block in front of it is used |
| `Fs.FileSystem.LogWrite` | log.c:215-228 | as the file layer sees it: the newest contents of a block, logged; panics exactly at its limit, whether the block is logged already or not |
| `Fs.FileSystem.Bread` | bio.c:58-107 | as the file layer sees it: a logged block has a buffer; any other panics exactly if the blocks logged and in use have them all |
| `Fs.FileSystem.Readsb` | fs.c:26-35 | needs a buffer beside those of all blocks logged and in use |
| `Fs.FileSystem.Change` | fs.c:481-487 | bread, a change and log_write: bget does not panic where log_write does not |
| `Fs.FileSystem.Take` | fs.c:64-70 | marks and zeroes a free block |
| `Fs.FileSystem.Bfree` | fs.c:78-95 | clears the block's bit; panics exactly if it is clear, the log is full or readsb finds no buffer |
| `Fs.FileSystem.Bmap` | fs.c:356-386 | finds block bn, or adds it if it is the next one, in direct and indirect range, with exactly what it logs; exactly when it panics, for bn out of range, want of blocks, of room in the log or of a buffer, and when it comes to a block of the log |
| `Fs.FileSystem.WriteBlock` | fs.c:482-486 | one turn of writei's loop, with exactly what it logs, and when it panics or comes to a block of the log |
| `Fs.FileSystem.WriteBlocks` | fs.c:481-487 | the loop writes all of src exactly if the new blocks, the indirect one included, fit in front of the log and the blocks logged before the last log_write do not fill the log; if they do not fit it comes to a block of the log exactly if one is clear and no panic comes before |
| `Fs.FileSystem.Iupdate` | fs.c:200-217 | writes the inode in memory to its place on disk; panics exactly if the log is full |
| `Fs.FileSystem.Writei` | fs.c:462-494 | replaces or extends the file's bytes exactly at off, changes no other file, leaves no hole, and memory and disk agree afterwards; returns the length written; the exact set of blocks it logs; returns -1 on a file exactly if off lies past its end or the write would pass the largest size, hands a device over to its driver exactly if it has one; exactly when it panics or comes to a block of the log |
| `Fs.FileSystem.Readi` | fs.c:434-460 | returns exactly the slice of the file's bytes from off, n of them or all up to the end of the file, and changes nothing; returns -1 on a file exactly if off lies past its end or off + n overflows, hands a device over to its driver exactly if it has one; panics exactly if every buffer is pinned and a block to read is not logged |
| `Fs.FileSystem.EndOp` | log.c:174-199 | the commit of the only operation in the log panics exactly without a buffer or a log block for each block |
| `Fs.FileSystem.WriteChunk` | file.c:139-144 | one operation of filewrite, commit included: the outcome of writei in an empty log; with LOGSIZE log blocks or more a chunk the disk has room for panics exactly if it is the tight one; at most LOGSIZE distinct blocks logged, and more than MAXOPBLOCKS for a full chunk |
| `Fs.FileSystem.NextChunk` | file.c:134-152 | a turn of filewrite's loop: one more chunk in the file, or why not |
| `Fs.FileSystem.FileWrite` | file.c:125-153 | the chunks partition the bytes in order, each in one operation that fits into the log; the result is n exactly if all of them were written, and otherwise -1 with the chunks in front of the first failure written; panics or comes to a block of the log exactly where a chunk does, and with LOGSIZE log blocks or more exactly if the disk has not room for what it gets to or one of the chunks it gets to is tight, told from the volume before; a device is handed over to its driver exactly if it has one |
| `Fs.FileSystem.FreeDirect` | fs.c:400-405 | frees the direct blocks; panics exactly if the log is full before the last of them |
| `Fs.FileSystem.FreeEntries` | fs.c:407-414 | frees the entries of the indirect block, which is in use meanwhile; panics exactly if the log is full, or no buffer is left, before the last |
| `Fs.FileSystem.FreeIndirect` | fs.c:407-417 | frees the indirect blocks and the block that lists them; panics exactly if the log is full before the last, or no buffer is left while the entries are freed |
| `Fs.FileSystem.Itrunc` | fs.c:388-421 | empties the file: exactly its blocks become free and no other file changes; panics exactly if the bitmap blocks for them, with what is logged already, fill the log, or leave no buffer for readsb while the indirect block is in use |
| `FsChunks.ChunkArithmetic` | file.c:126-132 | data, bitmap and indirect blocks of a chunk come to at most LOGSIZE - 1 for every offset and alignment, to exactly that in one case only, and for a full chunk to 13 at least |
| `FsChunks.ChunkRoom` | file.c:126-132 | with LOGSIZE log blocks or more a chunk the disk has room for, alone in the log, panics exactly if it is the tight one: with LOGSIZE in log_write, with more in commit |
| `FsChunks.SmallDiskChunks` | file.c:126-132 | which does not exist on a disk of 13 bitmap blocks or fewer |
| `FsChunks.ManyBlocksPanic` | log.c:215-216 | a writei to more blocks than the log takes always panics |
| `FsChunks.ChunksEnd` | file.c:134-152 | when filewrite comes to its end the disk had room for all it got to |
| `FsChunks.ChunkIsTight` | file.c:134-152 | which chunk of a filewrite is tight can be told from the volume before it |
| `FsChunks.NoneWasTight` | file.c:134-152 | when filewrite comes to its end none of the chunks it got to was |
| `FsFate.NoneHeld` | fs.c:51-76 | with no unlogged block in use balloc finds the log full before it lacks a buffer |
| `FsFate.DirectFate` | fs.c:364-368 | how bmap ends for a direct block: as its balloc does |
| `FsFate.SecondFate` | fs.c:371-383 | and for a block in the indirect block, which is in use while balloc runs |
| `FsFate.TakesSplit` | fs.c:481-487 | a turn of writei's loop that is short of blocks in front of the log comes to the log's block exactly if the whole write does, told from the volume before |
| `FsFate.TakesAfterTurn` | fs.c:481-487 | a write that comes to the log's block has had room in the log for every turn before |
| `FsFate.ClearKept` | fs.c:51-76 | blocks taken in front of the log leave its bits as they are |
| `FsLoop.ProgressFails` | fs.c:481-487 | if a turn of writei's loop panics or comes to the log's block, that is how the whole loop ends by its closed form |
| `Frames.AddTable` | vm.c:55-63 | a page table put into a directory keeps all frames accounted for |
| `Frames.AddPage` | vm.c:79-84 | so does a frame put into a page table |
| `Frames.DropPage` | vm.c:263-270 | a page's frame taken off and freed leaves all other frames accounted for |
| `Frames.TearDown` | vm.c:285-291 | tables, those of the kernel half too, and directory of an address space without pages can be taken out of use |
| `Frames.AddDir` | vm.c:129-144 | a directory complete with the kernel's page tables can be put to use |
| `Vm.Memory.constructor` | kalloc.c:25-36 | memory before the free list is built |
| `Vm.Memory.Freerange` | kalloc.c:45-52 | frees a range of frames, and those only |
| `Vm.Memory.Kalloc` | kalloc.c:79-95 | takes the first frame of the list, 0 exactly if there is none |
| `Vm.Memory.Kfree` | kalloc.c:54-77 | puts a frame in front of the list |
| `Vm.Memory.Walk` | vm.c:42-65 | finds the page table, or adds an empty one if asked to and a frame is free |
| `Vm.Memory.MapPage` | vm.c:67-90 | maps one page and changes no other; exactly when it fails for want of a page table or panics on a remap |
| `Vm.Memory.Allocuvm` | vm.c:218-243 | adds zeroed user pages up to newsz, in frames that were free, if there are frames enough; otherwise restores every address space, if no page lies above oldsz; a frame is lost, and newsz returned without its last page, exactly when the shortage hits a page table; panics exactly if a page is there already and the frames last up to it; starting from an address space that ends at oldsz it does not panic, and ends up with a page for every address below newsz and none wholly above exactly if it returns newsz and lost no frame |
| `Vm.Memory.Deallocuvm` | vm.c:245-273 | frees exactly the pages from newsz to oldsz, but for the gap its jump over missing page tables leaves; there is no gap if it starts with the first page of a table or the table is there; an address space that ends at oldsz then has a page for every address below newsz and none wholly above |
| `Vm.Memory.Freevm` | vm.c:275-292 | frees exactly the frames of the address space: pages, page tables of both halves, directory |
| `Vm.Memory.Setupkvm` | vm.c:127-144 | a directory with the 64 page tables of the kernel half and no user page, exactly if there are more than 64 free frames; otherwise every free frame is taken and lost |
| `Vm.Memory.Copyuvm` | vm.c:307-337 | panics exactly if a page is missing below sz and frames last up to it; otherwise a copy with the same flags and bytes in frames that were free, exactly if there are enough, the kernel's page tables included; otherwise every frame has the use it had, but for those lost: all free ones if they do not suffice for setupkvm, one exactly when the shortage hits a user page table; the copy has a page for every address below sz and none wholly above, and reads the same bytes with the same rights |
| `Vm.Memory.Growproc` | proc.c:107-125 | result, size, pages and panic after growing and shrinking, from any address space; starting with exactly the pages below the size, pages and size agree after shrinking exactly if the size did not become 0; it then has a page for every address below the new end and none wholly above, exactly if it returns 0 and lost no frame when growing |
| `VmBytes.PagesCover` | mmu.h:129-129 | PGROUNDUP covers every address below the size, and no page more |
| `VmBytes.SpansExactly` | mmu.h:129-129 | an address space has a page for every address below the size and none wholly above exactly if its pages are the first Pages(sz) |
| `VmBytes.AllocSpans` | vm.c:220-243 | where the address space ends after allocuvm |
| `VmBytes.GrownBytes` | vm.c:220-243 | an address that was there reads what it read before; a new one is the user's to write and reads 0 |
| `VmBytes.CutSpans` | vm.c:245-273 | after deallocuvm the addresses below newsz read what they read before, and the pages above are gone |
| `VmBytes.CopySpans` | vm.c:307-337 | the copy reads at every address what the original reads, with the same rights |
| `VmShrink.AllGoneExactly` | vm.c:258-271 | deallocuvm leaves no page exactly if none was in the gap |
| `VmShrink.NoneLeftExactly` | vm.c:258-271 | no page is left above the new size exactly if none was in the gap |
| `VmShrink.JumpedOver` | vm.c:261-262 | a page it leaves |
| `VmShrink.CutPrefix` | vm.c:245-273 | it leaves none if exactly the first pages are mapped |
| `VmPages.MappedOnce` | vm.c:220-243 | no frame is mapped twice, and no mapped frame is free |
| `VmGrow.GrownThenDropped` | vm.c:234-238 | pages added and dropped again leave every address space as it was |
| `VmCopy.NeedEmpty` | vm.c:319-331 | the frames n pages take in an empty directory |
| `VmCopy.BuildDone` | vm.c:129-144 | the directory setupkvm builds disturbs no address space and is made of frames that were free |
| `VmCopy.LostAll` | vm.c:139-142 | when it runs out of frames every free frame has been lost and nothing else has changed |
| `VmCopy.CopyUndone` | vm.c:334-336 | what was taken for a copy that fails is free again, but for the frame lost |
| `Vm.Memory.Uva2ka` | vm.c:340-352 | the frame of a page of the user, 0 if there is none; faults exactly if the page table is missing |
| `Vm.Memory.Copyout` | vm.c:357-380 | writes the bytes up to the first page that is not the user's, returns 0 exactly if there is none, and otherwise faults exactly if the page table for it is missing and returns -1 if not |
| `VmOut.WrittenMore` | vm.c:364-378 | one more page written |
| `VmOut.ReadAfter` | vm.c:357-380 | every address space then reads the bytes copied at their addresses in that one address space, and what it read before everywhere else |
| `Proc.ProcTable.constructor` | proc.c:76-105 | the table with init |
| `Proc.ProcTable.AllocProc` | proc.c:34-50 | the first unused slot becomes an embryo with the next pid |
| `Proc.ProcTable.Wakeup1` | proc.c:411-421 | makes runnable exactly the sleepers on a channel, and leaves every other slot as it is |
| `Proc.ProcTable.Exit` | proc.c:176-217 | the step of exit: parent woken, children handed to init, zombie with its status; init may not exit |
| `Proc.ProcTable.AdoptChildren` | proc.c:203-211 | every child has init as its parent, which is woken if one is a zombie |
| `Proc.ProcTable.WaitPid` | proc.c:227-280 | reaps a zombie whose parent is the caller, the one with childPid if one is given, frees its slot and changes no other; sleeps exactly if there is such a child, none is a zombie and the caller is not killed; otherwise fails and changes nothing |
| `Proc.ProcTable.Kill` | proc.c:432-453 | marks the first process with the pid, makes it runnable if it is asleep, and changes no other |
| `Proc.EventKeepsInv` | proc.c:34-453 | every event keeps the family, waiting and reporting invariants |
| `Proc.ExitedAt` | proc.c:198-211 | exit wakes the parent, and init exactly if it is handed a zombie, and no one else; the children get init as their parent; nothing else changes |
| `Proc.ExitKeepsInv` | proc.c:176-217 | exit does, with children handed over and waiters woken |
| `Proc.NoLostChild` | proc.c:176-280 | at every point of every run each process but init has a live parent, and none sleeps in waitpid while a child it asked for is a zombie |
| `Proc.ReportedOnce` | proc.c:227-280 | each reported exit status is the one passed to exit, and no exit is reported twice |
| `Proc.ExitsAreFinal` | proc.c:176-217 | a pid exits once |
| `Proc.ReapsExactly` | proc.c:243-262 | waitpid reaps exactly if the caller has a zombie child with the pid asked for, or any, and gives somewhere to put its status; it sleeps exactly if it has such a child, none of them a zombie, and is not killed |
| `Pipe.WrapSlot` | pipe.c:93-114 | the ring's slot survives the wrap of the 32-bit counters |
| `Pipe.FullExactly` | pipe.c:84-84 | the code's test for a full pipe is right across the wrap |
| `Pipe.EmptyExactly` | pipe.c:105-105 | and its test for an empty one |
| `Pipe.RingPipe.constructor` | pipe.c:32-35 | an empty pipe, both ends open |
| `Pipe.RingPipe.Write` | pipe.c:77-97 | puts in the next bytes of addr, in order, until all are in and it returns their number, or the pipe is full; then it returns -1 if the read end is closed or the process is killed, and sleeps otherwise, to go on where it stopped |
| `Pipe.RingPipe.Read` | pipe.c:99-120 | delivers the oldest bytes in order, n of them or all there are, and returns their number; on an empty pipe it sleeps, returns -1 if killed, or 0 if the write end is closed |
| `Pipe.RingPipe.Close` | pipe.c:58-74 | closes one end, wakes the other side and no one else; frees exactly when both are closed |
| `Pipe.StepKeepsInv` | pipe.c:58-120 | every step keeps order, bound and the meaning of a sleeping writer |
| `Pipe.PipeSafe` | pipe.c:58-120 | so does every run |
| `Pipe.FromTheStart` | pipe.c:77-120 | in every reachable state the bytes read are a prefix of the bytes accepted, at most PIPESIZE are pending, and a sleeping writer means a full pipe with its read end open |
| `Pipe.WritersBytes` | pipe.c:77-97 | over every run each accepted byte belongs to one write, and the bytes of a write are in order and once a prefix of what it was given: all of it when it has returned its length, a proper one when it has returned -1, and up to where it will go on while it is under way |
| `Pipe.ReadersBytes` | pipe.c:99-120 | over every run the bytes given to readers are what the reads returned, one after the other, and each read returned the number of bytes it was given |
| `Pipe.LostWakeupExactly` | pipe.c:84-92 | a step leaves a reader asleep on a pipe that is not empty and open exactly if it is a killed writer giving up on a full pipe |
| `Pipe.ReadersKeepWaiting` | pipe.c:99-120 | without such a step a sleeping reader means an empty pipe with its write end open |
| `Pipe.LostWakeup` | pipe.c:85-88 | a run with one |
| `FreeList.InsertedSorted` | umalloc.c:24-44 | the list after free is in address order, no two blocks overlap or touch |
| `FreeList.InsertedUnits` | umalloc.c:32-42 | and covers exactly the units it covered and those of the freed block |
| `FreeList.SearchStops` | umalloc.c:30-32 | free's loop stops at the one right place, the wrap included |
| `FreeList.RelinkedList` | umalloc.c:33-42 | the pointer and size writes of free make that list |
| `FreeList.TakenSorted` | umalloc.c:75-82 | the list after malloc takes a block, or the tail of one, is in order |
| `FreeList.TakenUnits` | umalloc.c:75-82 | and has lost exactly the units handed out |
| `FreeList.TakenList` | umalloc.c:75-82 | the pointer and size writes of malloc make that list |
| `Umalloc.RequestFitsExactly` | umalloc.c:69-69 | the 32-bit units of a request suffice, and so does morecore's byte count, exactly up to 0x7FFFFFF0 bytes, and are the fewest that do; above, sbrk is asked for nothing or less, and at last one unit is looked for |
| `Umalloc.HugeRequests` | umalloc.c:69-69 | two such requests |
| `Umalloc.OnlyTail` | umalloc.c:74-85 | when no other block fits, what malloc cuts off starts at the break morecore was called with |
| `Umalloc.UnitsConserved` | umalloc.c:24-90 | the units obtained from sbrk are those of the free and of the live blocks together |
| `Umalloc.GrownFits` | umalloc.c:46-61 | after morecore some block fits, coalesced or not, so malloc calls it at most once |
| `Umalloc.Heap.constructor` | umalloc.c:21-22 | a heap before the first malloc |
| `Umalloc.Heap.FindPlace` | umalloc.c:30-32 | the circular search from freep ends at the place of the block |
| `Umalloc.Heap.FreeBlock` | umalloc.c:24-44 | inserts and coalesces, on both sides |
| `Umalloc.Heap.Free` | umalloc.c:24-44 | a live block becomes free; all other live blocks stay as they are |
| `Umalloc.Heap.Lap` | umalloc.c:74-88 | one lap of the circular list finds the first block from freep that fits, or none fits |
| `Umalloc.Heap.Sbrk` | umalloc.c:54-56 | hands out the memory at the break, or fails; gives memory back for a negative count |
| `Umalloc.Heap.Morecore` | umalloc.c:46-61 | adds the new region, 4096 units or more, to the list, coalesced into freep itself if it touches it; with an overflown count the region lies above the break |
| `Umalloc.Heap.Malloc` | umalloc.c:63-90 | terminates; up to 0x7FFFFFF0 bytes returns a block of nbytes, rounded up to units, apart from every live block, or 0 exactly if none fits and sbrk fails; the block is the end of the first that fits, looking from where the last search stopped; all other live blocks stay; above, a block that is too small or starts at the break, which has not moved up |
| `ShellParser.Parser.NextToken` | sh.c:434-477 | gettoken by the text: white space skipped on both sides; >> gives + and takes two characters, any other symbol gives itself and takes one, and anything else is a whole word |
| `ShellParser.Parser.Looking` | sh.c:479-489 | peek: skips white space and looks whether the next character is one of those given |
| `ShellParser.Parser.Redirs` | sh.c:543-566 | parseredirs |
| `ShellParser.Parser.Exec` | sh.c:584-615 | parseexec |
| `ShellParser.Parser.Block` | sh.c:568-582 | parseblock |
| `ShellParser.Parser.Pipe` | sh.c:530-541 | parsepipe |
| `ShellParser.Parser.Line` | sh.c:513-528 | parseline; it always ends |
| `ShellTokens.LexExactly` | sh.c:434-477 | the tokens gettoken finds are those the text is made of, with any white space around them, and there is no other way to cut it up |
| `ShellGrammar.RedirsRead` | sh.c:543-566 | parseredirs reads every sequence of redirections |
| `ShellGrammar.SimpleRead` | sh.c:584-615 | parseexec reads every sequence of words, fewer than MAXARGS, and redirections |
| `ShellGrammar.LineRead` | sh.c:513-528 | whatever the grammar reads as a tree, parseline parses to that tree, and stops in front of what follows |
| `ShellGrammar.LineFound` | sh.c:513-528 | the tokens parseline takes are read by the grammar as the tree it builds |
| `ShellGrammar.ParsesExactly` | sh.c:496-615 | a line parses to a tree exactly if the grammar reads its tokens as that tree |
| `ShellGrammar.PanicsExactly` | sh.c:496-615 | the parser panics exactly on the lines outside the grammar |
| `ShellRoundTrip.Printed` | sh.c:513-615 | a tree printed with parentheses where needed is read by the grammar as that tree |
| `ShellRoundTrip.PrintParse` | sh.c:496-615 | every tree with well-formed words, fewer than MAXARGS per command, printed with > or >> for each output redirection and any white space between the tokens, parses back to the same tree |
| `ShellRoundTrip.PrintSpells` | sh.c:434-477 | a printed line has the tokens printed |
| `ShellParser.ParsePrintParse` | sh.c:496-615 | the tree the parser builds from any line, printed in any such way, parses to the same tree |
| `ShellParser.LineBuilt` | sh.c:513-615 | every word in a parsed tree is a whole word of the line |
| `ShellParser.WordsCutOut` | sh.c:617-662 | no word's end lies in another word, so terminating them all makes each the string of its token text |
| `ShellParser.NulTerminate` | sh.c:617-662 | writes a NUL behind each word of the tree and nothing else |
| `ShellParser.ParseCommand` | sh.c:496-511 | parsecmd: panics exactly if the line's tokens are outside the grammar; otherwise the tree is the grammar's, and each word of it a string of its own in the buffer |
| `Grep.HasPrefixStar` | grep.c:98-105 | a pattern that starts with a starred item |
| `Grep.HasPrefixSingle` | grep.c:92-94 | a pattern that starts with a character or a dot |
| `Grep.MatchHere` | grep.c:84-95 | true exactly if the text from here has a prefix in the pattern's language |
| `Grep.MatchStar` | grep.c:98-105 | true exactly if some number of repetitions lets the rest match |
| `Grep.Match` | grep.c:71-81 | true exactly if some substring, subject to the anchors, is in the language of the pattern |

## Left out

- Boot code, interrupt controllers, the console, the keyboard, the serial port and ide.c: hardware without a model here; memide.c's iderw is the disk.
- spinlock.c and context switches: stretches of code under one lock are single steps.
- Disk contents torn within a sector: a sector write is one step.
- In the protocol the buffer cache is the logical disk it shows, the sectors logged and those that operations hold; that it is, is proved for the cache itself. Processes that read outside of an operation hold buffers too; they are not counted there, and Log.Logger.Commit counts them.
- After a block of the log handed to a file, a panic or a fault, the models promise nothing more.
- Log.Logger.Recover: the file system is taken to fill the disk, as mkfs makes it.
- The file layer's log holds what other operations have logged when an operation starts; that others log, or hold buffers, while it runs is part of the protocol only.
- Umalloc.Heap.Malloc: that a header stored above the break may fault is not modelled, because which pages lie behind the break is the kernel's.
- Umalloc.Heap.Morecore: the same.
- Proc.ProcTable.AllocProc: pids are not bounded, so their wrap after 2^31 processes is not modelled; kernel stacks and trap frames are not either.
- Proc.ProcTable.Exit: closing files and the current directory in front of the locked part is left out.
- fork's copying of files and memory appears as the events that set a child's parent and make it runnable.
- Job control (attachjob, fg, signal and printing): it adds no invariant of its own.
- The inode cache, ialloc, iput, directories and path names: inodes are locked and in memory, one per inode number.
- Fs.FileSystem.Readi: the bytes read are returned, not stored into the caller's buffer.
- Device files: readi and writei hand over to the driver.
- Crashes in the middle of a file operation: the file layer is modelled on the logical disk that the log makes atomic.
- Vm.Memory.Walk: for addresses below KERNBASE; the entries of the kernel's page tables, which setupkvm fills from a fixed table, are not modelled, only the page tables.
- Vm.Memory.MapPage: mappages for one page, as allocuvm and copyuvm call it; of its loop over several pages, which serves the kernel half only, setupkvm's model has the page tables it takes.
- loaduvm and inituvm: filling a new address space from a file.
- Vm.Memory.Allocuvm and Vm.Memory.Copyuvm: the exact numbers of frames hold if no other process calls kalloc or kfree meanwhile, as kmem.lock is taken for one frame at a time.
- Vm.Memory.Copyout: the kernel's own pages are not for the user, as setupkvm maps them; their entries are not modelled.
- Addresses in vm.c are page numbers; kfree's range check always holds for frames.
- ShellParser.Parser.Exec: the command under the redirections is built as a value at the end, where the code fills it in place.
- runcmd, the command loop of sh.c and the file loop of grep.c: system calls and buffering.
- exec.c, syscall.c, sysproc.c, sysfile.c and the other user programs: glue over the layers modelled.
