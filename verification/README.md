# Verified models of the xv6/dockv6 kernel and its tools

Each part of the repository below is modelled in the form it has in C and proved against a specification: the
redo log, the buffer cache, the block allocator and files, the user-level allocator, page tables, processes, pipes,
the JSON tokenizer, the shell parser and grep's matcher. `dafny verify dfyconfig.toml` checks the whole project.

Code that changes things in place is a class or an array method with loop invariants (`LogDriver.Log`,
`BufferCache.BCache`, `Fs.FileSystem`, `Umalloc.Heap`, `Vm.Kernel`, `Jsmn.Parser`, `ProcTable.Scanner`, `Ring.Pipe`,
`Shell.Parser`). Protocols between processes, CPUs, the disk and crashes are transition systems whose theorems hold
in every state of every run (`GroupCommit`, `CacheRuns`, `PipeRuns`, `ProcRuns`).

## How the parts fit

- **Log** (`Disk`, `LogSpec`, `CrashSafety`, `LogDriver`, `GroupCommit`, `LogSpace`). The disk is a sequence of
  blocks; every `bwrite` is one step, and a crash may come before, after or inside it. A write cut short may leave
  anything, except that the 124 used bytes of the log header lie in one 512-byte sector, which is old or new.
  `LogDriver` shows that the C functions issue exactly the writes that `CrashSafety` and `GroupCommit` reason about.
  `log_write` tests the log's size without the lock, so the test and the append are two steps; `LogSpace` says what
  that does to the list. `GroupCommit` and `LogSpace` take the log by itself, over a cache that never runs out.
- **Buffer cache** (`CacheSpec`, `BufferCache`, `CacheRuns`, `CacheRecency`, `CommitBuffers`). The linked ring
  implements a list in most-recently-used order; the cache over the disk behaves as a plain map from block to bytes.
- **Log over the cache** (`LoggedCache`, `HeldBuffers`, `LoggedRuns`). Commit and recovery copy from buffer to buffer
  among the NBUF there are; as long as the list fits the log, every such run is one of `GroupCommit`. `LoggedRuns`
  builds the runs that go to the limit, in which each operation reads and changes its buffer before `log_write`'s test.
- **Files** (`Bytes`, `FsBytes`, `FsState`, `FsFile`, `FsSpace`, `FsTrunc`, `Fs`). A ghost map says which slot owns
  each block; a file is the byte sequence that its direct and indirect blocks spell out; `FsSpace` counts the free
  blocks a write takes and the blocks it logs.
- **Allocator** (`FreeList`, `Umalloc`). Addresses count header-sized units.
- **Page tables** (`PageTable`, `PageCount`, `PageAccess`, `Vm`). Pages carry numbers instead of byte addresses; a ghost
  map says what each page of an address space is for; `PageCount` counts the pages that work on it takes from the pool;
  `PageAccess` says what the processor allows, from the P, W and U bits of both levels.
- **JSON** (`JsmnSpec`, `JsmnFacts`, `Jsmn`, `JsonText`, `JsonScan`, `JsonPrefix`). The default build: not strict, no
  parent links.
- **Processes and pipes** (`ProcTable`, `ProcRuns`, `ProcHistory`, `ProcCalls`, `ProcWait`, `Ring`, `PipeRuns`,
  `PipeCalls`). `acquire` and `release` are atomic steps on explicit locks; whatever one lock protects from acquire to
  release is one step. `ProcHistory` follows marks and pids through a run, `ProcCalls` and `ProcWait` what fork, sleep
  and wait promise their callers, `PipeCalls` what each read and write has got or stored.
- **Shell and grep** (`ShellSpec`, `Shell`, `ShellItems`, `ShellPrint`, `ShellTally`, `Grep`).
- `Sets` and `Texts` hold what several parts share.

## Where the code does not do what it seems to promise

- `log_write` panics for an operation within its allowance. The reservation in `begin_op` protects such operations if
  and only if the on-disk log has more than LOGSIZE blocks (`LogSpace.ReservationSuffices`); mkfs gives it LOGSIZE.
- `log_write` tests `lh.n` before it takes `log.lock` (log.c:216-219), so several operations can pass the test and then
  append: up to two entries too many (`LogSpace.OverrunAtMostTwo`). For the log by itself, over a cache that never runs
  out, the list stays inside the log in every run whose operations keep to their allowance if and only if the log has
  more than LOGSIZE blocks, or no log block at all (`LogSpace.RoomExactly`), and exactly then every such run is
  crash-safe (`LogSpace.GroupCommitSafe`, `LogSpace.UnsafeRun`).
- Over the cache of NBUF = LOGSIZE buffers every entry is a pin. There every run is crash-safe, whatever the operations
  write, if and only if the log has at least LOGSIZE blocks, or no log block at all (`LoggedRuns.SafeExactly`): mkfs's
  log of LOGSIZE blocks is crash-safe, because the run that would overwrite the block behind it has pinned the last
  buffer and never begins to write (`LoggedCache.NoFirstMove`). In a smaller log `write_log` can overwrite that block
  before the header is written (`LoggedRuns.UnsafeRun`). Without the race any log is safe (`LogSpace.SerialSafe`,
  `LoggedCache.SerialRoom`).
- The price is a panic: `commit` can find every buffer pinned and no buffer for its first log block, with nobody
  holding one, if and only if the log has at least LOGSIZE - 1 blocks (`LoggedRuns.StuckExactly`), so with mkfs's log
  too, and with operations that keep to their allowance (`LoggedRuns.StuckRun`).
- A chunk of `filewrite` logs more than MAXOPBLOCKS blocks, namely 11, if and only if it lies in 8 blocks of the file
  and extends it by a block that the indirect block lists (`FsSpace.ChunkTooBig`, `Fs.File.WriteChunk`); appending 6656
  bytes to a file of 12801 does (`FsSpace.ElevenBlocks`). Three operations that want 11 blocks each can come to
  `log_write`'s panic with any log (`LogSpace.ThreeOversized`).
- `malloc` returns too small a block if and only if more than 0xFFFF_FFF8 bytes are asked for
  (`Umalloc.RoomForRequest`); from 0x7FFF_FFF1 bytes on, `morecore` asks `sbrk` for the wrong amount
  (`Umalloc.SbrkArgument`).
- `growproc` reports failure, and leaves the size as it was, when a process shrinks to nothing, although its pages are
  gone (`Vm.Kernel.Shrink`); `copyuvm` then meets a page that is not mapped.
- `copyuvm` loses one page if and only if the pool has 66 + 1025q pages for a q such that page 1024q is among those to
  be copied and the parent maps all pages up to it (`Vm.Kernel.CopyUvm`, `PageCount.LosesPage`); 66 free pages and a
  parent of one page do (`PageCount.SmallPoolLoses`).
- A failed `allocuvm` restores the mappings if and only if nothing was mapped in the new range
  (`PageTable.UndoneRestores`). A process's own space always meets that condition, so no process sees it fail
  (`PageTable.UndoneProc`).
- A killed writer that gives up on a full pipe wakes nobody, so a reader can sleep on although the pipe is full
  (`PipeRuns.KilledWriterForgets`); this step, taken while a reader is asleep or about to be, is the only one that
  loses a wakeup (`PipeRuns.WakeExactly`).
- `kill(0)` finds a free slot that has been reaped or never used, and marks it, since it compares pids without looking at
  the state (proc.c:673-675); neither `allocproc` nor `fork` clears the mark, so the next child made there starts out
  killed (`ProcHistory.KillZero`). A child does so if and only if a kill has named its slot since a wait last gave it
  back (`ProcHistory.ForkedKilled`).
- `fileread` with a negative count reads the rest of the file, unless the offset is at least as large
  (`Fs.File.FileRead`); `sys_read` lets no such count through.

## Hypotheses

Device numbers are not 0 (ROOTDEV is 1). Files start without holes below their size. No shared-memory pages are in
use. Every log client pairs `begin_op` with `end_op`. A pipe end is closed when no call is using it. Process ids and
positions do not overflow an int. `log.size` is a parameter; where a theorem says which logs are large enough, the disk
has more than LOGSIZE blocks outside the log, one of them right behind it. The inode blocks come before the bitmap, as
mkfs lays them out.

## Model

| member | source | states |
|---|---|---|
| `Disk.ApplyAllAt` | log.c:68-81 | after a sequence of block writes each block holds what the last write to it put there |
| `CrashSafety.HoldsIffRecoversTo` | log.c:84-121 | a completed recovery leaves the target's home blocks and an empty log if and only if the log holds the target's listed blocks and all others are already home |
| `CrashSafety.RecoveryCrash` | log.c:114-121 | a recovery cut short anywhere, inside a block write too, leaves a disk from which recovery has the same outcome |
| `CrashSafety.RecoveryChainHolds` | log.c:114-121 | the same for any number of crashed recoveries in a row |
| `CrashSafety.CommitPoint` | log.c:175-200 | once the header is written the disk recovers to the whole transaction, and the rest of commit does what recovery would |
| `CrashSafety.CommitCrash` | log.c:175-200 | a crash during commit leaves a disk that holds the old state before the header write and the new one after it |
| `CrashSafety.CrashAtomicity` | log.c:68-121 | crash commit anywhere and recovery any number of times: the recovery that completes leaves all home blocks old or all new, old before the header write and new after it |
| `CrashSafety.CommitFinished` | log.c:190-200 | all of commit's writes leave the transaction at home and an empty log |
| `LogDriver.Log.WriteLog` | log.c:175-188 | writes the cached contents of the listed blocks to the log blocks, in order, and nothing else |
| `LogDriver.Log.WriteHead` | log.c:100-112 | writes the in-memory list to the header block |
| `LogDriver.Log.InstallTrans` | log.c:68-81 | copies each log block to its home |
| `LogDriver.Log.ReadHead` | log.c:84-95 | reads the list back from the header block |
| `LogDriver.Log.RecoverFromLog` | log.c:114-121 | issues exactly the recovery writes of CrashSafety and leaves an empty log |
| `LogDriver.Log.Commit` | log.c:190-200 | issues exactly the commit writes of CrashSafety, keeps every home block as readers see it, and empties the log |
| `LogDriver.Log.LogTest` | log.c:211-217 | the two panics exactly when the code has them |
| `LogDriver.Log.LogAppend` | log.c:219-228 | absorbs a block already listed, else appends it; the list stays inside the log exactly when there is still room then |
| `LogDriver.Log.LogWrite` | log.c:211-228 | the two together, when no other operation appends in between |
| `LogDriver.Log.TryBeginOp` | log.c:124-140 | an operation begins exactly when no commit runs and its reservation fits |
| `LogDriver.Log.EndOp` | log.c:144-172 | the last operation out commits everything; nobody else writes a block |
| `LogDriver.CommitTrace` | log.c:175-200 | the four phases of commit add up to its write sequence, on the disk and in the cache |
| `GroupCommit.RunInv` | log.c:124-228 | the invariant of the log protocol in every state of every run, as long as the list has fitted the log whenever commit wrote |
| `GroupCommit.RunOps` | log.c:124-172 | in every run: no commit or recovery while an operation is outstanding, and each batch holds all updates of its finished operations and no others |
| `GroupCommit.SafeWithRoom` | log.c:124-228 | with that room, readers see the committed batches and the current one, and a crash at any moment recovers to exactly the committed batches, with the current one only if its header write was in flight |
| `GroupCommit.OperationAtomic` | log.c:124-172 | the committed history holds all updates of an operation, in order and in one batch, or none |
| `GroupCommit.CommittedGrows` | log.c:190-200 | committed batches are never taken back, from any state of a run to any later one |
| `LogSpace.SpaceReserved` | log.c:124-140 | logged blocks plus unused reservations never exceed LOGSIZE |
| `LogSpace.NoUnfairPanic` | log.c:211-228 | with a log of more than LOGSIZE blocks no operation within its allowance meets the panic |
| `LogSpace.FillLog` | log.c:211-228 | three operations within their allowance can fill the log up to the size test's limit |
| `LogSpace.OverrunAtMostTwo` | log.c:211-228 | in every run, whatever the operations write, the list is at most two entries longer than the size test allows |
| `LogSpace.RoomExactly` | log.c:211-228 | the log by itself: the list stays inside it in all runs of operations within their allowance if and only if the log has more than LOGSIZE blocks or just its header |
| `LogSpace.AllPinsExactly` | log.c:211-228 | such runs reach LOGSIZE entries if and only if the log has at least LOGSIZE - 1 blocks |
| `LogSpace.UnsafeRun` | log.c:175-228 | the log by itself, over a cache that never runs out: for every smaller log, a run after which a crash recovers to blocks that no batch wrote |
| `LogSpace.GroupCommitSafe` | log.c:124-228 | the log by itself, over a cache that never runs out: every state of every run of operations within their allowance shows and recovers exactly the batches if and only if the log is that large |
| `LogSpace.SerialSafe` | log.c:124-228 | so does any run, on any log, in which no two operations are between test and append at once |
| `LogSpace.ReservationSuffices` | log.c:124-140 | the reservation protects every operation within its allowance if and only if the log has more than LOGSIZE blocks |
| `LogSpace.ThreeOversized` | log.c:211-228 | three operations that want more than MAXOPBLOCKS blocks each can come to the panic with any log, each still short of a block |
| `BufferCache.RingInsert` | bio.c:38-56 | linking a buffer in after the head puts it at the front of the list |
| `BufferCache.RingRemove` | bio.c:119-139 | unlinking a buffer takes just it out of the list |
| `BufferCache.BCache.constructor` | bio.c:38-56 | the ring holds all NBUF buffers once |
| `BufferCache.BCache.Lookup` | bio.c:61-93 | finds the buffer of a block, or shows it is not cached |
| `BufferCache.BCache.FindUnused` | bio.c:61-93 | the least recently used buffer that is neither referenced nor dirty, or shows there is none |
| `BufferCache.BCache.BGet` | bio.c:61-93 | takes a reference to the cached buffer, or recycles the least recently used unused one, or fails exactly when there is none |
| `BufferCache.BCache.IdeRw` | memide.c:38-56 | panics exactly when nobody holds the buffer, there is nothing to do, the device is not ROOTDEV or the block is past the disk, in that order, and then changes nothing; otherwise a dirty buffer goes to the disk and an invalid one is filled from it, and no other buffer or block changes |
| `BufferCache.BCache.Fill` | bio.c:96-106 | a locked buffer is read from the disk unless it is valid |
| `BufferCache.BCache.BRead` | bio.c:96-106 | with the buffer unlocked, bread fails exactly when bget does, and else returns it locked with the cached bytes, or the disk's |
| `BufferCache.BCache.BWrite` | bio.c:109-115 | the block on disk gets the buffer's bytes, the buffer is clean and valid, and no other buffer or block changes, exactly when the buffer is held, its device is ROOTDEV and the block is on the disk; which panic there is otherwise, and that it leaves the disk alone |
| `BufferCache.BCache.MoveFirst` | bio.c:119-139 | relinking moves the buffer to the front and keeps the order of the others |
| `BufferCache.BCache.DropRef` | bio.c:126-139 | drops the reference and makes an unreferenced buffer the most recently used |
| `BufferCache.BCache.BRelse` | bio.c:119-139 | unlocks and drops the reference; panics exactly when nobody holds the buffer |
| `CacheRuns.InvNext` | bio.c:61-139 | every step by every process, brelse's two sections apart, keeps the cache invariant |
| `CacheRuns.RunInv` | bio.c:61-139 | it holds in every state of every run |
| `CacheRuns.ReadsLastWrite` | bio.c:61-139 | a filled buffer that nobody is changing holds the bytes last written for its block, no other buffer caches that block, and the ring is a permutation |
| `CacheRuns.PinnedStays` | log.c:211-228 | a block handed to log_write stays cached and dirty until it is written home |
| `CacheRecency.RunRecency` | bio.c:119-139 | in every run the ring is in the order in which the buffers' last references were dropped, the latest first |
| `CacheRecency.RecyclesOldest` | bio.c:61-93 | when bget recycles a buffer, none that it could have taken was let go earlier |
| `CommitBuffers.OutOfBuffersExactly` | bio.c:61-93 | with no buffer referenced, bget fails if and only if the block is not cached and all NBUF buffers are pinned |
| `CommitBuffers.CommitNeverOutOfBuffers` | log.c:175-200 | with fewer than NBUF pins, wherever commit has got to, there is a buffer for the next log block, the header and the next logged block |
| `LoggedCache.CommitMoves` | log.c:175-200 | copying from buffer to buffer, commit writes exactly what CrashSafety reasons about |
| `LoggedCache.RecoverMoves` | log.c:68-121 | so does recovery |
| `LoggedCache.PinCount` | log.c:211-228 | as many buffers are pinned as blocks wait to be sent home |
| `LoggedCache.NoFirstMove` | log.c:175-188 | with NBUF blocks listed, commit has no first write |
| `LoggedCache.InvNext` | log.c:68-228 | every step of log and cache together keeps them in agreement, as long as commit's list fits the log |
| `LoggedCache.LogRun` | log.c:68-228 | the log's part of a run of the two, with that room, is a run of GroupCommit |
| `LoggedCache.BuffersShowBatches` | log.c:68-228 | in every run of the two with that room: outside recovery a filled buffer that nobody is changing holds its block's bytes after all batches, as many buffers are pinned as blocks wait to be sent home, and a crash recovers to the committed batches |
| `LoggedCache.AlwaysRoom` | log.c:175-228 | every run has that room, whatever the operations write, with a log of at least LOGSIZE blocks or just its header |
| `LoggedCache.SerialRoom` | log.c:211-228 | so has every run, on any log, in which no two operations are between test and append at once |
| `HeldBuffers.SomeUnused` | bio.c:81-93 | fewer pins and locked buffers than buffers leave one that bget can recycle |
| `LoggedRuns.FillTo` | log.c:211-228 | three operations can fill the log up to the size test's limit, buffer by buffer |
| `LoggedRuns.Race` | log.c:211-228 | two of them can pass the test together and list one entry more than it allows |
| `LoggedRuns.RaceOfThree` | log.c:211-228 | three of them, two more |
| `LoggedRuns.StuckRun` | log.c:175-188 | with a log of at least LOGSIZE - 1 blocks, a run of operations within their allowance ends with every buffer pinned and commit without one for its first block |
| `LoggedRuns.StuckExactly` | log.c:175-228 | some run ends so if and only if the log is that large |
| `LoggedRuns.RunListed` | log.c:211-228 | in every run, room or not, only blocks waiting to be sent home are pinned, and the list is at most two entries longer than the size test allows |
| `LoggedRuns.UnsafeRun` | log.c:175-228 | with a log of fewer than LOGSIZE blocks, a run of operations within their allowance after which a crash recovers to a block that no batch wrote |
| `LoggedRuns.SafeExactly` | log.c:68-228 | every state of every run shows and recovers exactly the batches if and only if the log has at least LOGSIZE blocks or just its header, and keeping to the allowance does not change that |
| `LoggedRuns.ListNeverOverflows` | log.c:219-228 | over the cache lh.block never overflows, whatever the operations write |
| `FreeList.InsertOrdered` | umalloc.c:24-43 | inserting a block, joining what touches, keeps the list in address order with no two neighbours touching |
| `FreeList.InsertFree` | umalloc.c:24-43 | insertion adds exactly the block's units to the free ones |
| `FreeList.TakeFree` | umalloc.c:60-86 | taking a block or its tail removes exactly those units |
| `FreeList.Canonical` | umalloc.c:24-43 | the free list is determined by the set of free units |
| `Umalloc.Heap.FindPlace` | umalloc.c:24-43 | free's search ends, at the last list member below the block, wherever freep stands |
| `Umalloc.Heap.LinkIn` | umalloc.c:24-43 | the pointer and size updates implement insertion into the circular list |
| `Umalloc.Heap.Free` | umalloc.c:24-43 | the block leaves the allocated ones and is inserted; free and allocated blocks stay disjoint and cover what sbrk gave |
| `Umalloc.Heap.MoreCore` | umalloc.c:45-58 | adds sbrk's region, of the units asked for but 4096 at least, to the free list, which now has room, or changes nothing |
| `Umalloc.Heap.CutOut` | umalloc.c:60-86 | the success branch of malloc, on pointers and sizes |
| `Umalloc.Heap.Search` | umalloc.c:60-86 | one round of the ring finds a block exactly when some block is large enough, and it is the first one, going round from freep |
| `Umalloc.Heap.Obtain` | umalloc.c:60-86 | malloc's loop ends: after morecore it must succeed |
| `Umalloc.Heap.Malloc` | umalloc.c:60-86 | fails exactly when nothing fits and sbrk fails, else adds one new allocated block of the right size, disjoint from all others: the last units of the first block that fits, when one does |
| `Umalloc.Heap.UserWrite` | umalloc.c:60-86 | whatever a program writes into an allocated block, the allocator's invariant survives |
| `Umalloc.FreeUndoesMalloc` | umalloc.c:24-86 | freeing what malloc just cut out restores the free list |
| `Umalloc.RoomForRequest` | umalloc.c:60-86 | the block has room for the request if and only if the size computation does not wrap |
| `Umalloc.SbrkArgument` | umalloc.c:45-58 | sbrk is asked for the counted bytes if and only if the request is at most 0x7FFF_FFF0 bytes or has wrapped |
| `FsBytes.WordSet` | fs.c:372-398 | storing a block number in an indirect block changes that entry only |
| `FsBytes.LowByteFirst` | fs.c:372-398 | block numbers are kept low byte first |
| `FsState.MarkBitAt` | fs.c:58-97 | setting or clearing a bitmap bit changes that block's bit and no data block |
| `FsState.AllocOwned` | fs.c:58-80 | allocation into an empty slot keeps every block owned by one slot and the bitmap exact, and never hands out metadata or block 0 |
| `FsState.IndirectEffect` | fs.c:372-398 | both ways through bmap's indirect half fill the asked slot and change no other file block |
| `Fs.FileSystem.FindFree` | fs.c:58-80 | the first block whose bit is clear, or all are set |
| `Fs.FileSystem.BAlloc` | fs.c:44-80 | marks the first free block in the bitmap, zeroes it, and logs both blocks |
| `FsSpace.AllocTakes` | fs.c:58-80 | an allocation takes one free block |
| `Fs.FileSystem.BMap` | fs.c:372-398 | the file's block, new and zero if it was missing; out of range exactly from block 268 on; full exactly with fewer free blocks than it and a missing indirect block take; logs exactly the bitmap, the new block and its indirect block; the first twelve numbers are in the inode and the others, in order, in the block the thirteenth names |
| `Fs.FileSystem.WriteTurn` | fs.c:475-502 | one turn of the loop puts the next bytes in place and shows nowhere else, or finds the disk full |
| `FsSpace.AccountsStep` | fs.c:475-502 | what a turn takes from the free blocks and adds to the log |
| `Fs.FileSystem.WriteLoop` | fs.c:475-502 | the loop writes all bytes, or fails exactly when there are fewer free blocks than the file must get, the indirect block counted |
| `Fs.FileSystem.WriteI` | fs.c:475-502 | refuses exactly when off is past the end or the file would be too long, panics exactly when the disk has too few free blocks; else the file is overwritten or extended by exactly the bytes given, other files keep their bytes, the inode block equals the inode, and on a disk with one bitmap block exactly the blocks it should have been are logged |
| `FsSpace.WriteLogSize` | fs.c:475-502 | how many blocks that is: data, bitmap, indirect and inode blocks are different ones |
| `FsFile.ReadsBack` | fs.c:449-502 | a read after a write returns the bytes written and the old bytes around them |
| `Fs.FileSystem.ReadI` | fs.c:449-470 | returns the file's bytes from off on, as many as there are, and changes nothing; refuses exactly past the end or on wrap-around |
| `FsTrunc.FreeDirectOwned` | fs.c:405-432 | the block in a direct slot is marked when it is freed, and freeing it keeps ownership exact |
| `FsTrunc.FreeEntry` | fs.c:405-432 | so is each block an indirect block lists, though its entry stays |
| `FsTrunc.IndirectDone` | fs.c:405-432 | after the indirect block itself, nothing is owned by the inode |
| `FsTrunc.BitmapNext` | fs.c:405-432 | one slot further, the bitmap blocks logged are those of the blocks freed |
| `Fs.FileSystem.BFree` | fs.c:83-97 | clears the bit and logs its bitmap block, or panics exactly when it is clear already |
| `Fs.FileSystem.ITrunc` | fs.c:405-432 | never meets "freeing free block", frees exactly the inode's blocks, empties the inode and its disk copy, and leaves every other file as it was; logs exactly the bitmap blocks of the blocks freed and the inode's block |
| `FsFile.WriteTwice` | file.c:112-145 | two writes end to end are one write |
| `FsSpace.ChunkTouches` | file.c:112-145 | a 6656-byte chunk touches at most 8 blocks, and 8 exactly from offset 513 in a block on |
| `FsSpace.ChunkTooBig` | file.c:112-145 | a chunk logs at most 11 blocks, and more than 10 if and only if it touches 8 and extends the file by a block that the indirect block lists |
| `FsSpace.ElevenBlocks` | file.c:112-145 | appending 6656 bytes to a file of 12801 logs 11 |
| `FsSpace.ChunkPanics` | file.c:112-145 | a chunk finds the disk full only if the accepted bytes do not all fit |
| `Fs.File.FileRead` | file.c:94-108 | readi at the file's offset, which moves by the bytes read; a negative count reads the rest of the file or is refused |
| `Fs.File.WriteChunk` | file.c:112-145 | one transaction writes its chunk, or panics exactly with too few free blocks; the number of blocks it logs on a disk with one bitmap block |
| `Fs.File.FileWrite` | file.c:112-145 | panics exactly when the disk cannot take the chunks before the first refused one; else succeeds exactly when one writei of everything would, with the same file; "short filewrite" is unreachable; a refusal leaves exactly those chunks written and the offset behind them |
| `Vm.Kernel.KAlloc` | kalloc.c:79-89 | pops the first free page |
| `Vm.Kernel.KFree` | kalloc.c:59-74 | pushes a page of the pool, every byte of it 1; panics on any other |
| `Vm.Kernel.FreeRange` | kalloc.c:46-52 | adds exactly the pages that lie wholly in the range, each once |
| `PageTable.NewTableSpace` | vm.c:63-82 | giving a directory slot a table changes no mapping, and leaves every directory entry with P, W and U set |
| `PageTable.SetEntryAt` | vm.c:87-104 | writing an entry changes one page of the flat map |
| `PageAccess.Decides` | vm.c:63-82 | in an address space the directory restricts nothing: the table's entry alone decides what the user and the kernel may do with a page |
| `Vm.Kernel.Walk` | vm.c:63-82 | finds or makes the table, changes no mapping, takes a page exactly if there was none, and fails exactly without a table and without memory or leave to allocate; the space stays one in which every directory entry has P, W and U set |
| `Vm.Kernel.MapPages` | vm.c:87-104 | maps the range and takes its missing tables, or meets "remap" exactly when a page in it was mapped, or runs out of memory with fewer free pages than missing tables |
| `PageTable.RowUnmapped` | vm.c:129-139 | the kernel's four ranges do not overlap, so setupkvm never meets "remap" |
| `PageCount.RowTablesCost` | vm.c:129-157 | the tables each row of kmap takes, 64 in all |
| `PageAccess.KernelView` | vm.c:129-157 | no user program reads the kernel's half; the kernel sees physical memory up to PHYSTOP and the devices, and writes all but its own text and read-only data |
| `Vm.Kernel.SetupKvm` | vm.c:142-157 | a directory with exactly the kernel's mappings and tables, for 65 pages; nothing, and the pool as it was, exactly with fewer; the user reaches none of it, and the kernel all but its text for writing |
| `PageTable.SkipAbsent` | vm.c:266-288 | skipping pages without a table is what going page by page would do |
| `Vm.Kernel.DeallocUvm` | vm.c:266-288 | exactly the mapped pages in [newsz, oldsz) go back to the pool, and kfree never panics |
| `PageTable.AllFreed` | vm.c:292-320 | after the tables and the directory the pool has every page of the space, each once |
| `Vm.Kernel.FreeVm` | vm.c:292-320 | the pool gets back every page of the address space, none twice, and nothing else changes |
| `PageTable.UndoneRestores` | vm.c:234-260 | a failed allocuvm restores every mapping if and only if nothing was mapped in the new range |
| `PageTable.UndoneProc` | vm.c:234-260 | in a process's own space it always does |
| `PageAccess.GrownAccess` | vm.c:234-260 | a page that allocuvm grew is zero, and the user can read and write it, by both levels' bits |
| `PageAccess.GrownElsewhere` | vm.c:234-260 | every other page can be used as before |
| `Vm.Kernel.AllocUvm` | vm.c:234-260 | maps zero pages, writable by the user, for the new range; out of memory only with fewer free pages than these and their missing tables; on failure takes every page back; the user can read and write every page of the new range, by both levels' bits, and reads zeros |
| `PageTable.OtherSpace` | vm.c:336-388 | work on one address space leaves another alone |
| `PageAccess.CopiedAccess` | vm.c:336-388 | a page that copyuvm copied is the child's own, holds the parent's words, and can be used as the parent's can |
| `PageCount.CopyOutcome` | vm.c:336-388 | what one turn of the loop decides, from the pages the pool had before the call |
| `PageCount.SmallPoolLoses` | vm.c:336-388 | a pool of 66 pages and a parent of one page that lose a page |
| `Vm.Kernel.CopyUvm` | vm.c:336-388 | on success the child has its own page with the same bytes and flags for each of the parent's, and the kernel's mappings; the parent keeps its pages; success and the loss of a page are each decided by the number of free pages and the parent's mappings before the call; by both levels' bits the user can do with each page of the child what it could with the parent's |
| `Vm.Kernel.Grow` | proc.c:247-262 | growing keeps "no page at or above the size", never meets "remap", succeeds exactly below the kernel's half and with enough free pages, and on failure changes no mapping |
| `Vm.Kernel.Shrink` | proc.c:247-262 | shrinking keeps it too, succeeds exactly when neither the old nor the new size is 0, and keeps all pages below the size mapped exactly when the new size is not 0 |
| `Vm.Kernel.Lifecycle` | vm.c:142-320 | setupkvm, any growing and shrinking, then freevm: the pool is the same set of pages, each once |
| `Jsmn.Parser.FindQuote` | jsmn.h:192-263 | the loop over a string, escapes included, ends as the machine's scan does: at its closing quote, at a bad escape, or with the input; `JsonScan` says which by the characters alone |
| `Jsmn.Parser.FindEnd` | jsmn.h:134-188 | the end of a primitive, or a bad character |
| `Jsmn.Parser.NewToken` | jsmn.h:105-130 | appends a token while there is room |
| `Jsmn.Parser.CloseBracket` | jsmn.h:308-360 | the search loops end the innermost open token and return to the one around it |
| `Jsmn.Parser.Turn` | jsmn.h:275-440 | a turn of the loop, on the parser's fields and the array, is a step of the machine |
| `Jsmn.Parser.Parse` | jsmn.h:267-453 | jsmn_parse leaves the result and the tokens of the machine's run, from any earlier state |
| `Jsmn.Parser.CountTokens` | jsmn.h:267-453 | with tokens NULL it counts |
| `JsmnFacts.InvStep` | jsmn.h:275-440 | every turn keeps starts increasing, spans nested or disjoint, and tokens true to the text |
| `JsmnFacts.ClosesInnermost` | jsmn.h:308-360 | a closing bracket ends the last open token, which has its type |
| `JsmnFacts.TokensWellFormed` | jsmn.h:267-453 | on success starts strictly increase, spans lie in the input and are nested or disjoint, each container runs from its bracket to the matching one, and the result counts the tokens |
| `JsmnFacts.SizesCountChildren` | jsmn.h:281-434 | the sizes sum to the number of tokens made with a superior token |
| `JsmnFacts.Resumable` | jsmn.h:105-119 | after NOMEM a call with a larger array does what one call with it would have done; otherwise the array's size does not matter |
| `JsmnFacts.UsesRoom` | jsmn.h:105-119 | the array never overflows, and NOMEM means it is full |
| `JsmnFacts.CountOnlyAgrees` | jsmn.h:267-453 | whenever the full parse succeeds, counting only gives the same number |
| `JsmnFacts.CountedFits` | jsmn.h:267-453 | an array of the size counted is enough: the full parse does not end in NOMEM |
| `JsonText.BodyAt` | jsmn.h:192-263 | a string body with the escapes of section 7 of RFC 8259 is scanned to its closing quote |
| `JsonText.RunValue` | jsmn.h:267-453 | the parser reads any value's text into its tokens and counts it as one child |
| `JsonText.RunMembers` | jsmn.h:361-396 | an object's members: keys of size 1, values after them, and the object counts its keys |
| `JsonText.RoundTrip` | jsmn.h:267-453 | tokenizing the text of any JSON value, with any white space and enough tokens, gives its tokens in pre-order with types, spans and child counts |
| `JsonScan.StringExactly` | jsmn.h:192-263 | a string closes at a quote if and only if what comes before it is well formed: no bare quote or NUL, and each backslash begins one of the escapes of section 7 of RFC 8259 |
| `JsonScan.RefusedExactly` | jsmn.h:192-263 | it is refused if and only if what comes before some backslash is well formed and the backslash is followed by any other character, or by a `u` and a character that is no hexadecimal digit among the next four |
| `JsonScan.BadEscapeInval` | jsmn.h:192-263 | then jsmn_parse answers INVAL, wherever the string stands, with the parser at the string |
| `JsonScan.PrimitiveExactly` | jsmn.h:134-188 | a primitive goes up to the first character that is none of its own, and is refused exactly if that is neither one of those that may follow nor the end |
| `JsonScan.BadPrimitiveInval` | jsmn.h:134-188 | then jsmn_parse answers INVAL |
| `JsonPrefix.CutIsPart` | jsmn.h:267-453 | any text jsmn accepts whose first token is an object or array, cut anywhere inside it, gives PART |
| `JsonPrefix.PrefixIsPart` | jsmn.h:267-453 | so does every proper prefix of a JSON object or array, from its bracket on |
| `ProcTable.Scanner.Wakeup` | proc.c:645-651 | exactly the sleepers on the channel become runnable |
| `ProcTable.Scanner.FindUnused` | proc.c:150-163 | the first free slot, or none |
| `ProcTable.Scanner.FindZombie` | proc.c:418-446 | the first zombie child, or whether there are children |
| `ProcTable.Scanner.Adopt` | proc.c:395-401 | children go to init, which is woken if one of them is a zombie |
| `ProcTable.Scanner.Exit` | proc.c:390-406 | exit's critical section |
| `ProcRuns.InvExit` | proc.c:352-406 | exit keeps the tree, and neither the parent nor init stays asleep in wait with a dead child |
| `ProcRuns.InvForkLater` | proc.c:267-347 | fork's later steps, those without the lock too, keep the invariant, whoever ran in between |
| `ProcRuns.InvWaitReap` | proc.c:410-455 | wait's reaping keeps it: a dead process is nobody's parent |
| `ProcRuns.InvNext` | proc.c:150-660 | every step on every CPU, a timer tick inside the kernel and a wakeup from an interrupt included, keeps the invariant |
| `ProcRuns.Lifecycle` | proc.c:267-498 | in every run: with ptable.lock free a process is RUNNING iff exactly one CPU points at it; nobody sleeps in wait with a ZOMBIE child; every process but init has a live parent with a smaller pid |
| `ProcRuns.AncestorsEndAtInit` | proc.c:390-401 | every line of ancestors ends at init |
| `ProcRuns.WakeupNotMissed` | proc.c:607-660 | a wakeup reaches everybody who has called sleep on its channel, whatever stage of sleep they are at |
| `ProcHistory.KilledExactly` | proc.c:666-712 | in every run a slot is marked killed if and only if a kill has named it and no wait has given it back since |
| `ProcHistory.ForkedKilled` | proc.c:267-347 | a child starts out killed if and only if that holds of its slot |
| `ProcHistory.KillZero` | proc.c:666-712 | a run in which kill(0) marks a free slot and the next child starts out killed |
| `ProcHistory.KillEffect` | proc.c:666-712 | a kill marks its slot, leaves nobody there asleep, and keeps its pid |
| `ProcHistory.NoKilledWaiter` | proc.c:410-455 | in every run no killed process sleeps in wait |
| `ProcHistory.PidsUnique` | proc.c:150-163 | in every run every pid has been handed out by allocproc, and none but 0 names two slots, free or not |
| `ProcHistory.ReapedForGood` | proc.c:410-455 | once wait has reaped a process, no slot ever has its pid again |
| `ProcCalls.NoOrphanEmbryo` | proc.c:267-347 | in every run a slot is being made only while some process is in the fork that makes it |
| `ProcCalls.SleepKeepsLock` | proc.c:607-640 | in every run a process that has called sleep is still inside or has come back with the lock it gave up |
| `ProcWait.WhoWakes` | proc.c:607-712 | in every step a process stops sleeping only by a wakeup on its channel, a kill that names it, or, in wait, the exit of a child of its own or of one that leaves it a zombie |
| `ProcWait.NoStaleChannel` | proc.c:607-640 | in every run a process has a channel only while it sleeps on it, or has been woken and is not back yet |
| `ProcWait.WaitTurn` | proc.c:410-455 | wait returns with its first zombie child if there is one, returns nothing just when there is no child or the caller has been killed, and sleeps just when there are children and none is dead; nobody else is touched |
| `Ring.Tests` | pipe.c:73-115 | the full and empty tests are right although the counters wrap at 2^32 |
| `Ring.Store` | pipe.c:73-93 | storing a byte appends it to the waiting ones |
| `Ring.Take` | pipe.c:95-115 | taking a byte removes the oldest |
| `Ring.Pipe.Fill` | pipe.c:73-93 | the store loop, up to a full pipe |
| `Ring.Pipe.Drain` | pipe.c:95-115 | the copy loop returns the oldest bytes, as many as asked for or there are |
| `PipeRuns.InOrder` | pipe.c:54-115 | in every run the bytes read are a prefix of the bytes stored and at most 512 wait |
| `PipeRuns.NoLostWakeup` | pipe.c:54-115 | in every run in which no killed writer gives up while a reader is asleep or about to be, with the lock free, no reader sleeps on a non-empty or write-closed pipe and no writer on a non-full or read-closed one |
| `PipeRuns.WakeExactly` | pipe.c:54-115 | up to any moment of a run every sleeper has its wakeup coming if and only if no killed writer has given up so |
| `PipeRuns.GivingUpExactly` | pipe.c:73-93 | a killed writer's return keeps the wakeup invariant if and only if no reader is asleep or about to be |
| `PipeRuns.KilledWriterForgets` | pipe.c:73-93 | a run with kill in which a reader sleeps on a full pipe |
| `PipeCalls.CallsKeepTheirBytes` | pipe.c:73-115 | in every state of every run, whatever the others do: the bytes a process stored last are the first i of its write's buffer, all of them when the write comes to its end; a read has the bytes last taken from the pipe, no more than asked for, and fewer only if the pipe is empty when it ends; once a close has had its turn its end is closed |
| `PipeCalls.KilledLeaves` | pipe.c:73-115 | a killed process does not go to sleep from the head of a loop, and kill wakes it if it sleeps |
| `PipeCalls.StaysClosed` | pipe.c:54-70 | a closed end stays closed |
| `Shell.Parser.Look` | sh.c:327-336 | peek |
| `Shell.Parser.Next` | sh.c:287-325 | gettoken: kind, span, and where the next token begins |
| `Shell.Parser.ReadRedirs` | sh.c:390-412 | parseredirs ends, with the grammar's result |
| `Shell.Parser.ReadArgs` | sh.c:428-455 | parseexec's loop ends, with the grammar's result; what that is in terms of the line is `ShellItems.AnyOrder` |
| `Shell.Parser.ReadExec` | sh.c:428-455 | parseexec |
| `Shell.Parser.ReadBlock` | sh.c:414-426 | parseblock |
| `Shell.Parser.ReadPipe` | sh.c:377-388 | parsepipe |
| `Shell.Parser.ReadLine` | sh.c:360-375 | parseline ends on every input, with the grammar's result |
| `Shell.LineWords` | sh.c:287-455 | every word of a parsed command is a whole word of the line |
| `Shell.EndsOutside` | sh.c:458-500 | no place where nulterminate writes lies inside a word |
| `Shell.NulTerminate` | sh.c:458-500 | writes NUL at the end of every word and nowhere else |
| `Shell.WordsReadBack` | sh.c:458-500 | after nulterminate every argument and file name reads as exactly its word |
| `Shell.ParseCommand` | sh.c:343-358 | parsecmd: the grammar's tree with words that read back, or a panic with the line untouched |
| `ShellPrint.UnitAt` | sh.c:414-455 | the text of a simple or parenthesized command with redirections is parsed back |
| `ShellPrint.LineAt` | sh.c:360-388 | so is the text of any line, wherever it stands |
| `ShellPrint.RoundTrip` | sh.c:343-455 | parsing the text of any command tree, with at most nine arguments a command, gives that tree |
| `ShellItems.AnyOrder` | sh.c:428-455 | arguments and redirections in any order: the command gets exactly the arguments, in their order, and the redirections stand around it in theirs, the last outermost; with ten arguments or more the parser panics |
| `ShellTally.NothingLost` | sh.c:343-455 | every word of an accepted line, by its place, is exactly one argument or file name, every operator exactly one node of its kind, and the parentheses match in number |
| `Grep.PrefixStar` | grep.c:93-100 | a starred character matches nothing, or one character and then again |
| `Grep.MatchHere` | grep.c:82-90 | true iff a prefix of the text is in the pattern's language, all of it if the pattern ends in `$` |
| `Grep.MatchStar` | grep.c:93-100 | the same for a pattern behind `c*` |
| `Grep.Match` | grep.c:71-79 | true iff some substring is in the language, a prefix if `^` leads, a suffix if `$` ends |
| `Grep.PlainMatches` | grep.c:71-100 | a pattern without `*`, `^` and `$` is looked for as it stands, a dot standing for any one character |
| `Grep.StarMatches` | grep.c:71-100 | `^c*$` matches exactly the texts of nothing but c, or anything if c is a dot |

## Left out

- Device, boot, trap and console code, and x86 memory ordering: hardware.
- Named mutexes, condition variables, priority bins, shared memory and container counters: the code does not keep the
  invariants one would state for them.
- Directories, path names, `ialloc`, `iget`, `iput`, link counts and device inodes: easier members on the same files.
- `copyout`, `loaduvm`, `inituvm`, `clearpteu`: easier members on the same page tables.
- `>>`: gettoken tells it from `>`, parseredirs opens the file the same way for both (sh.c:403-408), so a command tree has one kind of output redirection.
- Lists of more than LOGSIZE blocks: `lh.block` would overflow. The log by itself can come to them, and its commit does not go on from there; over the cache there are none.
- `runcmd`, `grep`'s stream buffering and all test programs: thin drivers around system calls.
- Fs.FileSystem.WriteI: inodes and blocks are as the running transaction sees them, and inodes are not spelled out as bytes of their blocks; that the transaction is atomic is proved for the log over the cache, not composed with this contract.
- Fs.FileSystem.ITrunc: the inode's other fields are not modelled.
- Umalloc.Heap.MoreCore: sbrk is taken to return as many fresh units as morecore counts, above all earlier ones; `Umalloc.SbrkArgument` says for which requests it is asked for them.
- Vm.Kernel.KFree: the list pointer kept in a free page is not modelled, only its junk.
- Vm.Kernel.MapPages: one user page, or a range of the kernel half. The function is static, and each of its calls for the user half (vm.c:207, vm.c:252, vm.c:366, vm.c:368, vm.c:498, vm.c:527) maps one page; a zero size would wrap around in the code.
- Jsmn.Parser.Parse: the two modes of jsmn_parse, with and without an array, are two methods, and positions are unbounded.
- ProcRuns.Lifecycle: the memory, files and names of processes are not modelled; pids are unbounded, so "smaller pid" holds until nextpid overflows.
- PipeRuns.NoLostWakeup: says nothing about fairness, only that nobody sleeps who could go on.
- Shell.Parser.ReadArgs: the command under construction is a value; the code appends to it through a second pointer.
