# xv6, verified in Dafny

A model of the parts of xv6 that carry its hardest promises, with proofs: the write-ahead log and the
buffer cache under it, the inode block tree with its bitmap and file bytes, sleep and wakeup with the
sleep lock, the semaphore, the readers-writer lock and the pipe, page tables over the page allocator,
the user heap allocator, the shell's parser and grep's matcher.

Code that changes state is a class whose methods change the same fields in the same order: `Log`,
`Bcache`, `FileSystem`, `File`, `Ring`, `Memory`, `Allocator`.  Each method is proved against functions
on values, and the theorems are about those functions.  Code that several processes run at once is a
transition system over any number of processes; the theorems range over every run.  The parser and the
matcher are functions.

| file | models |
|---|---|
| Types.dfy | types and constants that several parts share |
| BlockStore.dfy | what the buffer cache and the log promise each other: atomic block writes, pinned blocks |
| LogFormat.dfy, LogDevice.dfy, LogProtocol.dfy | log.c: disk images, the methods, all interleavings with crashes |
| LogLimits.dfy | log.c: how long the list of logged blocks gets, and what happens when it outgrows the log area |
| BufferCache.dfy | bio.c: the LRU ring and the cached blocks |
| LogBuffers.dfy | the log over the cache: when a commit is sure of a buffer |
| FsTree.dfy, FsVolume.dfy, FileBytes.dfy | fs.c: block trees, the bytes inodes show, files as byte sequences |
| FileIo.dfy, FileSystem.dfy | fs.c and file.c: the ways a read or a write can end, the methods |
| SleepLock.dfy, Semaphore.dfy, RwLock.dfy | proc.c and sleeplock.c |
| Pipe.dfy | pipe.c: the ring, and any mix of readers and writers |
| VmState.dfy, VmView.dfy, Vm.dfy | vm.c and kalloc.c: frames and page tables as values, what operations promise, the methods |
| Umalloc.dfy | umalloc.c |
| Shell.dfy, ShellGrammar.dfy | sh.c: the parser, and the grammar that it decides |
| Grep.dfy | grep.c |

What the proofs found where the code does less than one would expect:

- `log_write` tests the length of the list before it takes the lock.  Operations that pass the test together
  append one entry each, and the list can outgrow the log area exactly if the area has 2 to LOGSIZE blocks
  (`LogLimits.ListFits`, `LogLimits.ListOutgrows`).  What follows depends on the size:
  - With LOGSIZE blocks, which is what mkfs makes, the list is then as long as the buffer cache.  The commit
    panics in bget before its first write (`LogBuffers.CommitPanicsExactly`), and the disk is in order.
  - With 2 to LOGSIZE - 1 blocks `write_log` goes on over home blocks.  A crash then shows a write that was never
    committed (`LogLimits.OutgrownTears`).

  So every run is safe from crashes exactly if the area has at least LOGSIZE blocks, or at most one
  (`LogLimits.SafeExactly`).  With the other sizes crash safety holds for the runs in which no commit writes a
  list that has outgrown the area, as while log_write is called one at a time (`LogLimits.SerialFits`).
- The test also comes before the search of the list: once the list is full, even a block that is already listed
  cannot be logged again.  Three operations that each keep to their share reach that panic, and one of them
  still has entries left exactly if the log area has LOGSIZE blocks or fewer (`LogLimits.FullLogReachable`).
- There are as many buffers as log entries.  A commit is sure of a buffer exactly if the longest list and the
  clean buffers in use are together fewer than NBUF (`LogBuffers.CommitFindsBuffer`,
  `LogBuffers.CommitWithoutBuffer`).  From LOGSIZE - 1 log blocks on, and so with mkfs's log area, the longest
  list alone has NBUF entries: a run reaches a commit that panics in bget even if nobody else uses a buffer.
- A read runs in no operation, and yet allocates the blocks of a hole.  If no operation runs at that time, it
  panics in log_write exactly if a block is free and the range, clipped at the size, comes to a missing block
  before anything else stops it (`FileIo.ReadOutsideExactly`); one byte written at offset 512 of an empty file
  and a read at offset 0 are enough (`FileSystem.ReadHole`).
- `bmap` reads the second level of the triple indirect tree at another index than the one it writes.  The
  two agree, and the read stays inside the block, exactly for the first NDBLINDIRECT triple blocks
  (`FsTree.TripleIndexAgrees`); behind them the model stops with `Overrun`.
- A process that is killed while it waits for the semaphore goes on: then more than V are past xem_wait
  (`Semaphore.KilledWaiterPasses`), and the unlock of its turn wakes nobody (`Semaphore.KilledTurnIsLost`).  A
  kill upsets the balance exactly if its target waits (`Semaphore.KillExactly`).
- A writer that fills the pipe and gives up in one stretch wakes nobody.  A reader that is asleep then stays
  asleep beside the bytes (`Pipe.StrandedReader`); no other step leaves a reader asleep without reason
  (`Pipe.StrandsExactly`), and the next writer that does not give up wakes it (`Pipe.StrandingEnds`).
- For the last seven values of a 32-bit size, `malloc` computes fewer units than bytes asked for
  (`Umalloc.UnitsSuffice`).
- `>>` parses to the same tree as `>` (`Shell.AppendIsOutput`).

## Model

| member | source | states |
|---|---|---|
| LogFormat.CommitAtomic | xv6-public/log.c:177-202 | stop a commit after any of its disk writes: recovery yields all the old home blocks before the header write and all the new ones from it on |
| LogFormat.RecoveryIdempotent | xv6-public/log.c:69-122 | stop recovery after any of its writes: recovering what is on the disk then gives the same home blocks |
| LogFormat.RecoveryUnderCrashes | xv6-public/log.c:116-122 | recovery stopped any number of times, anywhere, ends with the same home blocks as one recovery |
| LogFormat.CommittedRecovers | xv6-public/log.c:102-122 | once the header names the blocks, recovery puts exactly the logged data at home |
| LogFormat.RecoverIsInstall | xv6-public/log.c:69-122 | a whole recovery is the installation of the logged blocks and leaves the header empty |
| LogFormat.InstallIsOverlay | xv6-public/log.c:70-82 | copying the first k log blocks home changes exactly those home blocks, to the logged data |
| LogFormat.InstallAgrees | xv6-public/log.c:70-82 | installing does not depend on what the home blocks held before |
| LogFormat.OverlayAt | xv6-public/log.c:70-82 | block by block: a listed block gets its data, another keeps its own |
| LogDevice.Log.constructor | xv6-public/log.c:54-66 | the log starts with a recovery, every disk image of which recovers to the result, and with no operation, no commit and no list |
| LogDevice.Log.WriteLog | xv6-public/log.c:178-190 | writes the cached blocks to the log blocks in order, one image per write, and touches no home block |
| LogDevice.Log.WriteHead | xv6-public/log.c:102-113 | one atomic write puts the list into the header block |
| LogDevice.Log.ReadHead | xv6-public/log.c:86-96 | the list in memory becomes the one on disk |
| LogDevice.Log.InstallTrans | xv6-public/log.c:70-82 | copies the log blocks home in order, one image per write, and unpins them |
| LogDevice.Log.Commit | xv6-public/log.c:193-202 | afterwards the home blocks are what the cache showed and the log is empty; every disk image on the way recovers to all old or all new |
| LogDevice.Log.RecoverFromLog | xv6-public/log.c:116-122 | every disk image on the way recovers to the result of the whole recovery, and the log ends empty |
| LogDevice.Log.BeginOp | xv6-public/log.c:126-141 | admits exactly when no commit runs and the list takes whatever the running operations and the caller may add, each within its share |
| LogDevice.RoomMeans | xv6-public/log.c:132 | the test for room holds exactly if every way for the running operations and the caller to add up to MAXOPBLOCKS entries each fits LOGSIZE |
| LogDevice.Log.EndOp | xv6-public/log.c:146-174 | the last operation out commits what the cache shows; otherwise nothing is written |
| LogDevice.Log.LogWrite | xv6-public/log.c:214-233 | both size checks, then absorption: a block is listed once and pinned with its newest data |
| LogDevice.CommitEffect | xv6-public/log.c:193-202 | the images of a commit are atomic and the last one is the cache's view with an empty log |
| LogDevice.OverlayIsView | xv6-public/log.c:178-202 | the list laid over the disk is what the cache shows |
| LogProtocol.StepInv | xv6-public/log.c:125-233 | every step of every interleaving, crashes included and log_write split at its lock, keeps disk, operations and log space in order, unless it is the write of a commit whose list has outgrown an area of 2 to LOGSIZE - 1 blocks |
| LogProtocol.OrderStep | xv6-public/log.c:125-233 | with every size of the log area, every step keeps operations whole, the list within LOGSIZE and each home block in it once, commits exclusive, and pinned exactly what is listed until the commit writes |
| LogProtocol.CrashSafety | xv6-public/log.c:125-233 | in every run, if the log area has at least LOGSIZE blocks or at most one, or if no commit writes a list that has outgrown it: at every point, recovery yields the committed groups in order, including every group committed earlier; an operation is in them with all its writes or with none |
| LogProtocol.CommitReturned | xv6-public/log.c:146-202 | in the same runs, when a commit has returned, what the cache showed is durable and stays so |
| LogProtocol.OperationDurable | xv6-public/log.c:125-202 | in the same runs, an operation that ended before a commit returned, with no crash between, is from then on in a committed group with all it wrote, and recovery yields the committed groups, whatever crashes come |
| LogProtocol.CommitStoreIs | xv6-public/log.c:177-202 | the writes of write_log, write_head and install_trans through the cache are, for a list that fits, the images of the atomic commit |
| LogProtocol.Recovers | xv6-public/log.c:69-122 | in every state the invariant allows, recovery brings back exactly the committed groups |
| LogLimits.EndNeverPanics | xv6-public/log.c:146-156 | an operation never ends while a commit runs, whatever the size of the log area |
| LogLimits.LogWritePanicsWhen | xv6-public/log.c:214-222 | log_write panics exactly if the list has reached its capacity; with more than LOGSIZE log blocks only when every running operation has used its whole share |
| LogLimits.FullLogReachable | xv6-public/log.c:214-222 | a run reaches that panic with the list at its capacity; an operation with entries left is among the stopped exactly if the log area has LOGSIZE blocks or fewer |
| LogLimits.ListBounded | xv6-public/log.c:214-233 | in every run the list has at most area.size + 1 entries, and at most LOGSIZE; none if the area has no room for one |
| LogLimits.LongestList | xv6-public/log.c:214-233 | a run reaches that bound, for every size of the log area, on a disk with LOGSIZE home blocks behind it |
| LogLimits.ListFits | xv6-public/log.c:214-233 | with more than LOGSIZE log blocks, or at most one, the list fits the log area in every run |
| LogLimits.ListOutgrows | xv6-public/log.c:214-233 | with any other size a run lets the list outgrow the area, and the block behind the area is a logged home block |
| LogLimits.SerialFits | xv6-public/log.c:214-233 | while at most one operation at a time is between the test and the lock, the list fits an area of any size |
| LogLimits.OutgrownTears | xv6-public/log.c:177-202 | with 2 to LOGSIZE - 1 log blocks a run goes on through area.size writes of write_log to a disk whose recovery is not the committed groups |
| LogLimits.SafeExactly | xv6-public/log.c:177-233 | every disk of every run recovers to the committed groups exactly if the log area has at least LOGSIZE blocks or at most one |
| LogProtocol.SleeperHasWaker | xv6-public/log.c:125-174 | a sleeper in begin_op has a running operation or a commit to wait for |
| LogProtocol.SleepersWake | xv6-public/log.c:125-174 | from every state, letting operations leave log_write and end, and the commit finish, wakes all sleepers, unless the commit panics for want of a buffer; that takes NBUF entries on the list and in log_write; with an area of 2 to LOGSIZE - 1 blocks for lists that still fit |
| LogProtocol.WakesWithin | xv6-public/log.c:125-174 | in every run, with every size of the log area, a process sleeps in begin_op through fewer than 2*LOGSIZE+4 ends of operations and commit steps, whatever happens between them |
| LogProtocol.SpaceStep | xv6-public/log.c:125-141 | listed entries plus the unused share of every running operation never exceed LOGSIZE |
| LogProtocol.RefusedExactly | xv6-public/log.c:125-141 | outside of a commit a caller begins exactly if the list takes all that the running operations and it may add, and sleeps exactly if not |
| BufferCache.Bcache.constructor | xv6-public/bio.c:38-56 | binit builds a ring through all buffers |
| BufferCache.Bcache.Lookup | xv6-public/bio.c:62-76 | the scan from the head finds the buffer of the block or shows that there is none |
| BufferCache.Bcache.Victim | xv6-public/bio.c:78-91 | the scan from the tail finds the clean unused buffer whose last release is oldest, or shows that there is none |
| BufferCache.Bcache.Bget | xv6-public/bio.c:62-93 | the buffer of the block, else the oldest recyclable one given to it; panics exactly if neither exists; a dirty buffer is never recycled |
| BufferCache.Bcache.Bread | xv6-public/bio.c:97-106 | a buffer with the logical block: the pinned data if the log holds it, else the disk's; every other buffer keeps its block, data and users; the panics of bget and of the disk driver, and when |
| BufferCache.Bcache.Bwrite | xv6-public/bio.c:110-116 | the block on disk becomes the data and is no longer pinned, no other block changes; the disk driver's panic exactly for another device or a block behind the disk |
| BufferCache.Bcache.Pin | xv6-public/log.c:214-233 | a logged buffer shows its new data to every later read while the disk keeps the old |
| BufferCache.Bcache.Relink | xv6-public/bio.c:129-138 | the six pointer assignments are the move to the front |
| BufferCache.Bcache.Brelse | xv6-public/bio.c:121-141 | the last release moves the buffer to the front and keeps the order of all others |
| BufferCache.MoveToFront | xv6-public/bio.c:129-138 | the pointer surgery turns a ring into the ring with that buffer first, also when neighbours are the head |
| BufferCache.LinkFirstRing | xv6-public/bio.c:47-55 | each round of binit adds one buffer behind the head of the ring |
| BufferCache.ValidReads | xv6-public/bio.c:97-106 | a valid buffer shows the logical block, because at most one buffer holds it |
| BufferCache.RecycleOk | xv6-public/bio.c:78-91 | recycling a clean buffer loses nothing: the pinned blocks keep their buffers |
| BufferCache.SpareBuffer | xv6-public/bio.c:78-92 | one can be recycled exactly if the pinned blocks and the clean buffers in use are together fewer than the buffers |
| LogBuffers.CommitFindsBuffer | xv6-public/log.c:178-190 | in every state of every run, if the longest list and the clean buffers in use are together fewer than NBUF, bget has a buffer for whatever block the commit reads |
| LogBuffers.CommitPanicsExactly | xv6-public/log.c:178-190 | in every run, when a commit starts, bget has no buffer for any log block if the list has NBUF entries; if it has fewer and nobody uses a buffer, bget has one |
| LogBuffers.CommitWithoutBuffer | xv6-public/bio.c:78-92 | a run reaches a commit that has a spare buffer exactly under that condition; if the longest list has NBUF entries it has none for any log block |
| LogBuffers.PinnedIsCached | xv6-public/log.c:178-190 | the second bread of each round always succeeds: a pinned block has its buffer |
| FsTree.FillPtr | xv6-public/fs.c:372-471 | storing a new block in an empty pointer changes that pointer and no other pointer of any tree |
| FsTree.FillConserves | xv6-public/fs.c:56-78 | every block stays metadata, free, or in exactly one pointer of one tree |
| FsTree.BlockPathInjective | xv6-public/fs.c:372-471 | different file blocks go to different places in the tree, across all four kinds |
| FsTree.PathBlockOf | xv6-public/fs.c:372-471 | the index arithmetic can be inverted: the path of a file block leads back to its number |
| FsTree.BlockPathSurjective | xv6-public/fs.h:24-38 | every bottom place of the tree is the place of a file block below MAXFILE |
| FsTree.TripleIndexAgrees | xv6-public/fs.c:448-456 | the index read and the index written at the second triple level agree, and stay inside the block, exactly for the first NDBLINDIRECT triple blocks |
| FsVolume.FlatInjective | xv6-public/fs.c:372-471 | no data block serves two file blocks of any inodes |
| FsVolume.MappingKept | xv6-public/fs.c:372-471 | bmap keeps the mapping of every other file block, holes included, and repeats its own answer |
| FsVolume.ExtendsMaps | xv6-public/fs.c:372-471 | the blocks that bmap allocates map no file block but its own anew |
| FsVolume.ExtendsSameBytes | xv6-public/fs.c:56-78 | allocating blocks changes no byte of any file |
| FsVolume.PatchBytes | xv6-public/fs.c:603-632 | writing into one data block changes those bytes of that one inode |
| FsVolume.ReadBack | xv6-public/fs.c:573-632 | a range written reads back, any other range of any inode is untouched |
| FsVolume.WrittenTrans | xv6-public/file.c:118-156 | two writes end to end are one write of both |
| FsVolume.ClearConserves | xv6-public/fs.c:479-556 | freeing a subtree and emptying its root keeps every block accounted for |
| FsVolume.HeldSplit | xv6-public/fs.c:479-556 | the blocks below a pointer are its own block and those below its entries |
| FsVolume.TruncatedAll | xv6-public/fs.c:479-556 | after all entries of addrs, exactly the blocks of the inode are free |
| FileBytes.WriteIsWrite | xv6-public/fs.c:603-632 | a write is the replacement of a range in one byte sequence, zeros filling a hole behind the old end, and zeros stay behind the new end |
| FileBytes.ReadIsRead | xv6-public/fs.c:574-597 | a read is a slice of that sequence, and the blocks it allocates for holes change nothing |
| FileBytes.TruncatedFile | xv6-public/fs.c:479-556 | truncation leaves the empty sequence and no other file changes |
| FileBytes.ChunksAddUp | xv6-public/file.c:118-156 | writing in chunks is one write |
| FileBytes.ReadAfterWrite | xv6-public/fs.c:573-632 | reading what was just written gives it back, and a hole reads as zeros |
| FileSystem.FileSystem.Balloc | xv6-public/fs.c:56-78 | the lowest free block, marked and zeroed; out of blocks exactly if all are used; with no operation running it stops in log_write instead, and nothing changed |
| FileSystem.FileSystem.Bfree | xv6-public/fs.c:81-95 | clears the bit, and tells whether it was set |
| FileSystem.FileSystem.Bmap | xv6-public/fs.c:372-471 | the block of the file block, allocated with its indirect blocks where missing; the volume stays conserved; the panic exactly from MAXFILE on; Overrun only behind the safe part; with no operation running, or on a way with no block missing, nothing changes and the answer is exactly what the tree says |
| FileSystem.FileSystem.BmapTriple | xv6-public/fs.c:430-468 | the same for the triple indirect part, which gives a block only for the first NDBLINDIRECT of its blocks |
| FileSystem.FileSystem.FreeBelow | xv6-public/fs.c:491-551 | frees exactly the blocks below one indirect block and that block, each once |
| FileSystem.FileSystem.TruncAddr | xv6-public/fs.c:479-556 | one entry of addrs: its subtree is freed, no block twice, and the entry emptied |
| FileSystem.FileSystem.Itrunc | xv6-public/fs.c:479-556 | exactly the inode's blocks become free, the panic on a free block is unreachable, other trees and files stay, and the file is empty |
| FileSystem.FileSystem.Readi | xv6-public/fs.c:574-597 | the bytes of the file clipped at its size; rejects exactly what the source rejects; no byte of any file changes; a non-empty read ends below the safe part; with no operation running, what it returns or where it stops, exactly |
| FileSystem.FileSystem.Writei | xv6-public/fs.c:603-632 | the bytes at the offset become the source's, every other byte stays, the size grows to cover them, and no block outside the range is mapped anew; a non-empty write ends below the safe part |
| FileSystem.FileSystem.WriteChunks | xv6-public/file.c:118-156 | uninterrupted it is one write of all bytes; rejected exactly if the first chunk passes MAXBYTES, and then nothing changed; stopped, it has written a prefix |
| FileSystem.File.Write | xv6-public/file.c:118-156 | the file's sequence is written at its offset, which moves on, other files stay; rejected exactly for a file not writable, a negative count or a first chunk past MAXBYTES, and then nothing changed; stopped, a prefix is written, at least as far as the offset moved |
| FileSystem.File.Read | xv6-public/file.c:97-113 | a slice of the file's sequence at its offset, which moves on by what was read; with no operation running, exactly when it stops, and where |
| FileSystem.File.Pwrite | xv6-public/file.c:177-209 | as Write at a given offset; the file's own offset stays, and no block outside the range is mapped anew |
| FileSystem.File.Pread | xv6-public/file.c:159-174 | as Read at a given offset |
| FileIo.ReadOutsideExactly | xv6-public/file.c:97-113 | a read with no operation running stops in log_write exactly if it reads something, a block is free, and some file block of the clipped range is missing with all before it mapped |
| FileIo.Way | xv6-public/fs.c:372-471 | what bmap answers when it can allocate nothing, by the first empty pointer on the way to the block |
| FileSystem.ReadHole | xv6-public/file.c:159-209 | one byte written at offset 512 of an empty file, then a read at offset 0: if a block is free after the write, the write succeeds and the read stops in log_write |
| SleepLock.NextInv | xv6-public/proc.c:1021-1079 | every step keeps the spinlocks exclusive, the sleep lock with its owner, and a waker for every sleeper |
| SleepLock.MutualExclusionAndWaker | xv6-public/sleeplock.c:22-42 | in every run at most one process owns the lock, and a sleeper has an owner or a releaser about to scan |
| SleepLock.WakeupReachesAll | xv6-public/proc.c:1021-1079 | no lost wakeup: when a releaser scans, everyone who saw the lock taken is already SLEEPING, and nobody is afterwards |
| SleepLock.CanMove | xv6-public/sleeplock.c:22-42 | no deadlock: while a process is inside, some process inside can move |
| SleepLock.AcquireEnds | xv6-public/sleeplock.c:22-32 | in every run a call of acquiresleep ends only with its process owning the lock, however often it slept |
| SleepLock.AcquireFree | xv6-public/sleeplock.c:22-32 | with the lock free and nobody in the way, four steps of its own give a process the lock |
| SleepLock.ReleaseFree | xv6-public/sleeplock.c:34-42 | with nobody in the way, seven steps of the owner free the lock, and whoever slept is awake |
| SleepLock.Refines | xv6-public/proc.c:1021-1079 | split-step sleep and wakeup do nothing that atomic release-and-sleep cannot |
| SleepLock.RefinesScan | xv6-public/proc.c:1062-1079 | the scan wakes exactly the processes that the atomic machine has asleep |
| SleepLock.NobodyFalling | xv6-public/proc.c:1038-1046 | during a scan nobody is between marking itself SLEEPING and switching away |
| Semaphore.RefinesFifo | xv6-public/proc.c:1174-1200 | the array of channels with its counters is a first-in first-out queue, step by step |
| Semaphore.Conservation | xv6-public/proc.c:1164-1200 | in every run value = V - admitted - waiting, count - dcount = waiting = max(0, -value), admitted <= V |
| Semaphore.FifoHandOff | xv6-public/proc.c:1174-1200 | the k-th process to block is the k-th to be woken, and only an unlock with waiters wakes |
| Semaphore.WakesOldest | xv6-public/proc.c:1190-1200 | the channel that is woken has exactly one sleeper, the oldest |
| Semaphore.OneSleeper | xv6-public/proc.c:1174-1188 | the channel of each waiter's turn has that waiter as its only sleeper |
| Semaphore.WaitersBounded | xv6-public/proc.c:1174-1188 | fewer processes wait than the channel array has entries, so that no two waiters share one |
| Semaphore.KilledWaiterPasses | xv6-public/proc.c:1174-1188 | a killed waiter goes on from any place in the queue, and then V + 1 processes are past xem_wait |
| Semaphore.KillExactly | xv6-public/proc.c:1084-1102 | a kill keeps value = V - admitted - waiting and count - dcount = waiting exactly if its target is not waiting |
| Semaphore.KilledTurnIsLost | xv6-public/proc.c:1190-1200 | the channel of a killed waiter's turn, at any place in the queue, has nobody left to wake |
| Semaphore.TwoPassOneUnit | xv6-public/proc.c:1174-1188 | a run with one unit to a state from which a kill lets both processes past |
| RwLock.NextInv | xv6-public/proc.c:1202-1235 | every step keeps both semaphores, the count and the readers' common hold in order |
| RwLock.Exclusion | xv6-public/proc.c:1202-1235 | in every run a writer excludes every reader and every other writer |
| RwLock.ReadingHolds | xv6-public/proc.c:1209-1230 | while anyone reads, writelock belongs to the readers together, whoever of them took it |
| RwLock.SomeoneMoves | xv6-public/proc.c:1202-1235 | no reachable state has all participants blocked |
| RwLock.Moves | xv6-public/proc.c:1202-1235 | a participant that is not blocked has a step |
| RwLock.CallEnds | xv6-public/proc.c:1209-1230 | in every run acquire_readlock ends only with its process reading, acquire_writelock only with it writing, release_readlock only with it outside |
| RwLock.ReadersShare | xv6-public/proc.c:1209-1216 | while the readers have writelock, a reader that has lk reads after two steps of its own, and nobody stops reading for it |
| RwLock.AllReading | xv6-public/proc.c:1209-1216 | a run has any number of processes reading at once |
| RwLock.WaitsForWriter | xv6-public/proc.c:1209-1216 | a reader waits for writelock only while a writer has it |
| RwLock.UnlockWlInv | xv6-public/proc.c:1223-1235 | the last reader or the writer passes writelock on to the oldest waiter, for all readers or for one writer |
| Pipe.PutAppends | xv6-public/pipe.c:93 | one byte joins the end of the buffered bytes, also when nwrite wraps |
| Pipe.DropTakes | xv6-public/pipe.c:114-116 | the byte taken is the oldest, also when nread wraps |
| Pipe.WriteLoopAppends | xv6-public/pipe.c:84-94 | pipewrite's loop appends exactly the bytes that fit |
| Pipe.ReadLoopTakes | xv6-public/pipe.c:113-117 | piperead's loop takes exactly the oldest bytes, as many as asked for and there |
| Pipe.Ring.WriteStretch | xv6-public/pipe.c:79-98 | what a writer does between two sleeps is the loop of the step, which appends exactly the bytes that fit; whether it sleeps, fails or is done |
| Pipe.Ring.ReadStretch | xv6-public/pipe.c:101-121 | what a reader does between two sleeps is the loop of the step, which takes exactly the oldest bytes; whether it sleeps, fails or is done |
| Pipe.NextInv | xv6-public/pipe.c:59-121 | every step of every reader, writer and closer keeps the order of the bytes, the distance of the counters and the writers' reason to sleep |
| Pipe.PipeIsFifo | xv6-public/pipe.c:79-121 | in every run, from any start of the 32-bit counters and through every wrap, bytes read followed by bytes in the ring are the bytes written, and nwrite - nread stays in 0..PIPESIZE |
| Pipe.CallKept | xv6-public/pipe.c:79-121 | in every run, what a writer has stored since it was asked, followed by what it has left, is what it was asked to write; a reader keeps its count |
| Pipe.WriteEnds | xv6-public/pipe.c:84-98 | in every run pipewrite leaves exactly with all its bytes stored in order, or with the read end closed or killed beside a full pipe and a proper prefix stored; otherwise it sleeps beside a full pipe with the rest to do |
| Pipe.ReadEnds | xv6-public/pipe.c:106-121 | in every run piperead takes the oldest bytes, as many as asked for and there, exactly if there are any or the write end is closed; otherwise it sleeps, or gives up if killed |
| Pipe.NoStuckSleepers | xv6-public/pipe.c:79-121 | a sleeping writer has a full pipe and an open read end; until a step strands a reader, a sleeping reader has an empty pipe and an open write end, and never do both sleep |
| Pipe.StrandsExactly | xv6-public/pipe.c:79-121 | a step leaves a reader asleep without reason exactly if a writer fills the pipe and gives up in one stretch while a reader sleeps |
| Pipe.StrandedReader | xv6-public/pipe.c:85-92 | a run that ends with a reader asleep beside PIPESIZE bytes |
| Pipe.StrandingEnds | xv6-public/pipe.c:90-95 | a writer that does not give up, or closing the write end, wakes every reader |
| VmState.FrameStored | xv6-public/vm.c:36-80 | a frame that goes into one empty entry leaves every frame in exactly one place |
| VmState.FrameTaken | xv6-public/vm.c:258-281 | a frame taken out of its entry leaves every frame in exactly one place |
| VmState.PutEntryHeld | xv6-public/vm.c:61-80 | writing one page table entry changes that entry of that directory and nothing else |
| VmState.AddTableConserved | xv6-public/vm.c:36-55 | a new page table adds itself to the directory and maps nothing |
| VmState.AddDirConserved | xv6-public/vm.c:119-136 | a new directory maps nothing and changes no other |
| VmState.DropDirConserved | xv6-public/vm.c:286-300 | dropping a directory without pages releases exactly itself and its page tables |
| VmView.GoneIsFree | xv6-public/vm.c:286-300 | when a directory is gone and nothing else moved, all it held is free |
| VmView.GrantsIs | xv6-public/vm.c:46-52 | an access needs its bit in directory entry and page table entry; in every memory the operations leave, the page table entry alone decides |
| VmView.KmapIsOk | xv6-public/vm.c:105-115 | the kernel's regions do not overlap, for every page-aligned start of the data |
| VmView.KmapFirstPage | xv6-public/vm.c:105-115 | the first kernel page maps physical address 0 |
| VmView.KmapPages | xv6-public/vm.c:105-115 | the kernel's address space page by page: physical memory from KERNBASE on, devices at their own addresses, nothing else; no page for the user, and only text and read-only data cannot be written |
| VmView.NoRemap | xv6-public/vm.c:119-136 | the remap panic is unreachable in setupkvm |
| Vm.Memory.constructor | xv6-public/kalloc.c:46-53 | kinit: every frame up to PHYSTOP is free, once |
| Vm.Memory.Kalloc | xv6-public/kalloc.c:83-95 | the first free frame goes to the caller; none exactly if the list is empty |
| Vm.Memory.Kfree | xv6-public/kalloc.c:60-77 | the frame goes from the caller to the list, filled with junk that nobody can see |
| Vm.Memory.Walkpgdir | xv6-public/vm.c:36-55 | the page table of a page; a new one only if asked for and memory is left, entered for writing and for the user; no mapping changes |
| Vm.Memory.MapPage | xv6-public/vm.c:68-79 | one step of mappages: maps that page only; out of memory and remap exactly when they happen |
| Vm.Memory.Mappages | xv6-public/vm.c:61-80 | the pages of the region are mapped to its frames in order, no other page changes, unaligned ends included; out of memory exactly if fewer frames are free than page tables are missing; remap only at a page already mapped; the pages grant what the permission says |
| Vm.Memory.Setupkvm | xv6-public/vm.c:118-136 | a new directory that maps exactly the kernel's table; fails exactly if the directory and its page tables need more frames than are free, and then gives all back; every page grants writing and user access exactly as the table says |
| Vm.Memory.Deallocuvm | xv6-public/vm.c:258-281 | exactly the pages of the range are unmapped and their frames freed, also when whole page tables are missing and passed over; panics exactly for an oldsz above KERNBASE |
| Vm.Memory.Allocuvm | xv6-public/vm.c:223-251 | zeroed frames at exactly the new pages; fails exactly if pages and missing page tables need more frames than are free, and then unmaps all again; the process can read and write the new pages |
| Vm.Memory.UndoGrow | xv6-public/vm.c:237-248 | the way out unmaps the range and frees the frame that could not be mapped |
| Vm.Memory.FreeTables | xv6-public/vm.c:293-299 | frees the page tables and the directory, each once |
| Vm.Memory.Freevm | xv6-public/vm.c:286-300 | every frame the directory held is free, and no other directory changes |
| Vm.Memory.CopyPage | xv6-public/vm.c:328-341 | one page gets an equal copy with equal flags in a frame of its own, or nothing changes |
| Vm.Memory.Copyuvm | xv6-public/vm.c:318-347 | the copy has equal pages and flags in frames of its own; out of memory exactly if directory, page tables and the pages before the first unmapped one need more frames than are free, and then all is given back; otherwise it panics exactly if a page is unmapped; the copy grants what the original grants |
| Umalloc.Allocator.Find | xv6-public/umalloc.c:25-32 | the search ends at the last free block below the freed one |
| Umalloc.Allocator.Free | xv6-public/umalloc.c:25-44 | the list stays circular, address-ordered and coalesced, and gains exactly the freed block |
| Umalloc.Allocator.Morecore | xv6-public/umalloc.c:47-61 | fails exactly if sbrk does; otherwise some free block is large enough |
| Umalloc.Allocator.Carve | xv6-public/umalloc.c:75-84 | the whole block or its tail is handed out, and the list loses exactly that |
| Umalloc.Allocator.Malloc | xv6-public/umalloc.c:64-90 | the block is at least nbytes long and disjoint from all live ones; units are conserved; fails exactly if no free block is large enough and sbrk fails; the break moves only if no free block is large enough; both searches terminate; from the free list it is the tail of the first block behind freep that is large enough |
| Umalloc.ReleaseAll | xv6-public/umalloc.c:25-44 | the pointer surgery of free keeps list, coalescing, live blocks and conservation |
| Umalloc.ReleaseCoalesced | xv6-public/umalloc.c:33-43 | after merging on both sides no two free blocks touch |
| Umalloc.TakeTail | xv6-public/umalloc.c:78-82 | cutting the tail off a block keeps list, live blocks and conservation |
| Umalloc.TakeWhole | xv6-public/umalloc.c:76-77 | unlinking a block of the right size keeps list, live blocks and conservation |
| Umalloc.GrowAll | xv6-public/umalloc.c:47-61 | memory from sbrk joins as one live block, which free then puts into the list |
| Umalloc.UnitsSuffice | xv6-public/umalloc.c:64-69 | the units cover the request exactly up to 2^32 - 8 bytes, and fit an int exactly up to MAXREQUEST |
| Shell.GetToken | xv6-public/sh.c:266-308 | a word token is a maximal run of word characters, and only the end of the line does not move on |
| Shell.ParseCmd | xv6-public/sh.c:328-446 | the parser terminates on every line; a parse uses the whole line and its words are words of the line |
| Shell.RoundTrip | xv6-public/sh.c:328-446 | parsing the parenthesised printing of a command tree gives the tree back |
| Shell.RoundTripAt | xv6-public/sh.c:345-446 | the same anywhere in a line, in front of its end or a closing parenthesis |
| Shell.AppendIsOutput | xv6-public/sh.c:375-397 | a redirection with >> parses to the tree of one with > |
| ShellGrammar.Complete | xv6-public/sh.c:328-446 | every line of the grammar is parsed: words and redirections in any order, blocks, pipes, "&" and ";", to the tree that the syntax stands for, with the last redirection outermost |
| ShellGrammar.Sound | xv6-public/sh.c:328-446 | what is parsed is a line of the grammar, and the result is its tree |
| ShellGrammar.Decides | xv6-public/sh.c:328-446 | a line is accepted exactly if it has a syntax in which no command has MAXARGS words |
| ShellGrammar.SimpleParsed | xv6-public/sh.c:413-446 | a command without parentheses is exactly its words, inside exactly its redirections, wherever these stand |
| ShellGrammar.TypedLine | xv6-public/sh.c:266-446 | typing and parsing: whatever spaces keep the lexemes of a line apart, the parser makes of it the tree of its syntax |
| Shell.Nulterminate | xv6-public/sh.c:450-493 | writes a NUL behind every word of the tree and nothing else |
| Shell.WordsTerminated | xv6-public/sh.c:450-493 | afterwards every argument and file name is the C string of its token |
| Grep.Match | xv6-public/grep.c:73-82 | returns true exactly when the pattern matches somewhere, or at the start for a leading caret |
| Grep.MatchesSubstring | xv6-public/grep.c:66-82 | that is: some substring has the pattern's meaning, anchored by a leading caret and a final dollar |
| Grep.MatchHereMeaning | xv6-public/grep.c:85-96 | matchhere decides the meaning at the start of the text |
| Grep.MatchStarMeaning | xv6-public/grep.c:99-106 | matchstar tries every run length, the empty one included |
| Grep.EndIsLast | xv6-public/grep.c:85-96 | a dollar is an anchor only at the end of the pattern |

## Left out

- Hardware and boot, interrupts, the disk driver: a block write is atomic, as in memide.c.
- The scheduler, thread creation and joining, exit and wait, the queue type that the semaphore never uses.
- Link counts, directories, path names, the inode cache and its locks, device inodes in readi and writei.
- The inode on disk: `writei` updates it only when the size grows, so contents are stated for the inode in memory.
- That every file operation fits in MAXOPBLOCKS: a hypothesis of the log's space theorems, carried by the step Check.
- What recovery makes of the header of a list that has outgrown the log area: a run of the model ends there.
- The panic in bget of a commit with fewer than NBUF entries while others use the spare buffers: the step CommitWrite goes on; CommitFindsBuffer says when it cannot come.
- A log_write by a process that runs no operation itself while others do, as a read of a hole can make: the log's runs are about operations, and for such a read the file methods say that log_write does not stop it.
- Operations that begin or end during one file method: their number is a parameter of the call.
- The panic of log_write at a full list inside the file methods; LogLimits says when it comes.
- The sleep lock inside a buffer: buffer cache methods run one at a time, as under bcache.lock; the sleep lock is modelled by itself.
- The spinlock inside the semaphore and the pipe: a stretch of code under it is one step; sleep and wakeup are split into steps in SleepLock.
- Scheduling fairness: progress is stated as an enabled step, or as a bound on the steps a sleeper waits through.
- A frame and a disk block hold one set of bytes that the source reads as pointers or as data; the model keeps both readings apart, and conservation shows that none is used both ways.
- The nested loops of itrunc below an indirect block are one recursive method; the order of the frees is the source's.
- deallocuvm frees a frame before it clears the entry; the model clears first, which no other operation can tell.
- seginit, switchuvm, inituvm, loaduvm, clearpteu, uva2ka and copyout; the hardware's accessed and dirty bits.
- sbrk as growproc does it: the heap grows at its end or fails at a limit.
- Which of its panics the parser ends in when it rejects a line.
- Running a command, reading the command line, grep's read loop, printing and the small user programs.
- LogProtocol.SleepersWake: with 2 to LOGSIZE - 1 log blocks it asks that the list and the entries on their way to it fit the area; beyond, write_log goes on over home blocks.
- LogDevice.Log.Commit: works on a store, as if every bread found a buffer; CommitPanicsExactly says when one does not.
- Vm.Memory.Deallocuvm: for an oldsz above KERNBASE it asks for newsz <= KERNBASE and a first kernel page at physical address 0, as setupkvm makes it.
- Vm.Memory.Copyuvm: asks for sz <= KERNBASE, which every process size keeps since allocuvm refuses more.
- Vm.Memory.Mappages: asks for a page-aligned physical start, as every caller gives it; an entry has no room for other address bits.
- Umalloc.Allocator.Malloc: asks for a request whose units fit an int, which sbrk takes; UnitsSuffice says what happens to the arithmetic beyond.
- Umalloc.Allocator.Free: asks for a block that malloc gave and nobody freed; the source cannot check it.
- FileSystem.FileSystem.Bmap: behind the safe part, while operations run and blocks are missing, it states only that no block is returned and the volume stays conserved, since the source then reads a word behind the block.
- FileSystem.FileSystem.BmapTriple: stops with Overrun where the source goes on with the word it read behind the block.
- Semaphore.Conservation: does not cover killed waiters, other wakeups on the channels, or counters beyond 2^31 waits.
