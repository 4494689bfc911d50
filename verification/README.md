# Verified models of an xv6 variant

This project models the hard parts of a modified xv6 (doubly-indirect files, a fake
in-memory disk), of its user library, shell and grep, and of three synchronisation
exercises written in Python, and proves what they promise. Nothing here executes the
original programs.

The project is verified with `dafny verify dfyconfig.toml`.

What is modelled, file by file:

- `Log.dfy`: the redo log of log.c over a disk on which one sector write is atomic.
  A crash may fall between any two writes, also inside recovery, any number of times.
- `Blocks.dfy`, `BlockTree.dfy`, `Files.dfy`, `Supply.dfy`, `Writing.dfy`, `FileSystem.dfy`:
  the bitmap allocator, bmap's three-level tree, inodes on disk, what a write takes from
  the free sectors and what it logs, readi, writei and filewrite.
- `Layout.dfy`: the same structures in plain numbers: the sectors of a file as one list, and
  where bits, inodes and the log's header are on the disk.
- `Budget.dfy`: when the log takes a chunk of filewrite, and a whole filewrite, and how many
  buffers it needs. `Mkfs.dfy`, `Straddle.dfy`, `FullDisk.dfy`: a disk on which a chunk does
  not fit, and one on which it overwrites the log.
- `Recovery.dfy`: the log and the file system together, filewrite across crashes.
- `BufferCache.dfy`: bio.c's LRU cache over memide.c's disk.
- `Names.dfy`: path names, directories and the inode cache.
- `PageTable.dfy`, `KernelMap.dfy`, `CopyVm.dfy`, `AddressSpace.dfy`: address spaces of vm.c
  over the frame supply of kalloc.c, for any number of processes at once.
- `SleepWakeup.dfy`, `ProcTable.dfy`, `ProcWaits.dfy`, `Pipe.dfy`, `PipeCalls.dfy`: sleep and
  wakeup, the process table, and pipes, as interleaved steps of any number of processes. Acquiring and releasing a
  spinlock are atomic steps.
- `Tanenbaum.dfy`, `Forks.dfy`: the three dining philosophers protocols.
- `Heap.dfy`: malloc and free of umalloc.c.
- `ShellGrammar.dfy`, `ShellLexis.dfy`, `ShellLanguage.dfy`, `ShellErrors.dfy`, `ShellRoundTrip.dfy`,
  `ShellPrecedence.dfy`, `Shell.dfy`: the parser of sh.c, the grammar of what it accepts
  and of what it refuses and why, and printing as its inverse.
- `Regex.dfy`: grep's matcher.

The pattern throughout: a specification as functions on values, lemmas that prove what
the source promises about it, and, where the source updates objects in place, a class
whose methods have the source's loops and branches and are proved to compute that
specification. Protocols are step relations with an invariant, and theorems about
every run. Panics are values of result types.

Properties that turned out false of the code are stated with their exact condition and
a failing input:

- `Budget.ChunkFitsIff`, with `Straddle.ChunkTooBig`: filewrite's chunk size is meant to
  keep a transaction within the log, but a growing chunk whose allocations have their
  bits in two bitmap sectors can exceed it.
- `Budget.ChunkBelowLog`, with `FullDisk.LogOverwritten`: balloc also hands out the sectors
  of the log, which mkfs does not mark as used, once no other sector is free.
- `Pipe.ForgetsIffAbandons`, with `Pipe.KilledWriterForgets`: pipewrite returns without
  waking readers when it is killed while the pipe is full.
- `Forks.FinishesIffTwo`, with `Forks.LonelyPhilosopher`: one philosopher alone deadlocks
  under both fork protocols.
- `Heap.Capacity` with `Heap.NoRoom`, and `Heap.SbrkArgumentRight` with
  `Heap.SbrkNegative`: 32-bit arithmetic in malloc and morecore.
- `PageTable.AllocExact`, with `PageTable.GrowsWithoutPage`: allocuvm ignores the result of
  mappages, so it can report success with the last page unmapped, or lose a frame.
- `PageTable.ClearsIff`, with `PageTable.StepsOver`: deallocuvm's step over a missing page
  table can jump past mapped pages.
- `KernelMap.SetupExact`, with `KernelMap.SetupLosesFrame`: setupkvm gives back nothing when
  it runs out of frames.
- `CopyVm.CopyUvmExact`, with `CopyVm.ForkLosesFrame`: so copyuvm can lose frames, there
  and when mappages fails for a user page.
- `Names.LinkAddsOne`, with `Names.LinkLost`: dirlink stores 16 bits of the inode number.

## Model

| member | source | states |
|---|---|---|
| `Log.RunFits` | log.c:159-181 | a series of writes runs to the end exactly if none is to the log's own sectors and before each the header lists fewer sectors than the limit, which is when log_write does not panic; the header then lists each sector once, because repeated writes are absorbed |
| `Log.LoggedOpen` | log.c:159-181 | log_write keeps the header, the log blocks and the pinned buffers in step with each other |
| `Log.LoggedView` | log.c:159-181 | log_write leaves every home sector on disk alone while readers see exactly the one new block |
| `Log.RunView` | log.c:124-181 | inside a transaction every home sector reads as if all writes so far had been applied in order |
| `Log.Run` | log.c:124-181 | a transaction that does not panic leaves the home sectors of the disk unchanged until it commits |
| `Log.InstallDetermined` | log.c:69-82 | what install_trans leaves in a sector depends only on the log, not on how far an earlier install had got |
| `Log.PartialInstallRecovers` | log.c:69-82 | a disk on which install_trans was cut off anywhere is still recoverable, to the same result |
| `Log.CleanRecovers` | log.c:115-122 | recovering a disk without a committed transaction changes no home sector |
| `Log.RecoverTwice` | log.c:115-122 | a second recovery changes nothing |
| `Log.CutRecoverySame` | log.c:115-122 | a recovery cut off after any write, then run again to the end, gives the result of an uninterrupted one |
| `Log.RebootsHarmless` | log.c:115-122 | the same after any number of crashes inside recovery |
| `Log.CommittedView` | log.c:135-149 | from the moment the commit header is on disk, recovery produces exactly what readers saw in the transaction |
| `Log.CommittedDisk` | log.c:135-149 | after a complete commit_trans the disk is clean and its home sectors are what readers saw |
| `Log.CrashAtomicity` | log.c:69-181 | for every transaction, every crash point and any number of crashes inside recovery, the first complete recovery leaves all home sectors as before or all as after, and the latter exactly when commit's first header write reached the disk |
| `Log.LifeAtomic` | log.c:69-181 | one boot with one transaction, cut off anywhere or not, takes a clean disk to a clean disk, with all writes or none |
| `Log.HistoryAtomic` | log.c:69-181 | over any number of boots the disk holds exactly the committed transactions, each whole, in the order of their commits |
| `Log.Log.constructor` | log.c:53-66 | at power-on only the disk survives |
| `Log.Log.WriteHeader` | log.c:98-113 | write_head is one sector write, of the count and the sector list, keeping the rest of the header block |
| `Log.Log.ReadHeader` | log.c:84-96 | read_head loads the count and the sector list |
| `Log.Log.InstallTrans` | log.c:68-82 | install_trans performs exactly the install of the value model and passes through exactly its crash images |
| `Log.Log.RecoverFromLog` | log.c:115-122 | recover_from_log computes Recover, and its intermediate disks are the modelled crash images |
| `Log.Log.BeginTrans` | log.c:124-133 | begin_trans opens an empty transaction |
| `Log.Log.Absorb` | log.c:169-172 | the search loop returns the position of the sector in the header, or the end |
| `Log.Log.LogWrite` | log.c:159-181 | log_write panics exactly as coded and otherwise performs the logged write of the value model in one disk write |
| `Log.Log.CommitTrans` | log.c:135-149 | commit_trans passes through exactly the modelled crash images, changes nothing readers see, and leaves nothing pinned |
| `Log.Log.WriteAndInstall` | log.c:138-143 | header write, install and header erase, in this order, image by image |
| `Log.Log.InstallAndClear` | log.c:119-121 | the tail that commit and recovery share: install, then the header with count 0, image by image |
| `Blocks.DigitsWords` | fs.c:398-403 | the bytes of a sector seen as little-endian words and back are the same bytes |
| `Blocks.WordsDigits` | fs.c:398-403 | words stored in a sector as bytes read back as the same words |
| `Blocks.BlockDetermined` | fs.c:398-403 | a sector whose two views agree is determined by either of them |
| `BlockTree.MarkUsed` | fs.c:64-66 | setting a bit of the bitmap marks that sector and no other |
| `BlockTree.AllocFresh` | fs.c:52-76 | balloc's sector is reached by no pointer, and marking and zeroing it keeps the ownership invariant |
| `BlockTree.FreeBelow` | fs.c:61-75 | balloc returns a sector below a bound exactly as long as one is free there |
| `BlockTree.StorePtr` | fs.c:359-462 | filling one slot of the tree changes that pointer and no other pointer of any inode |
| `BlockTree.AttachOwned` | fs.c:359-462 | attaching a fresh sector keeps the invariant: every nonzero pointer is marked, and no sector is reached twice |
| `BlockTree.FillExtends` | fs.c:359-462 | filling an empty slot only adds that pointer, keeps all data sectors, all other inodes and all inode sectors, and a new data sector reads as zeroes |
| `BlockTree.ExtendsStep` | fs.c:432-457 | the same over the levels of a path |
| `BlockTree.SlotOfInjective` | fs.c:369-450 | different blocks of all files have different slots; which slot is which is MapIsSector |
| `Layout.MapIsSector` | fs.c:369-450 | block bn of a file is element bn of the list of its sectors: the ten direct pointers, the words of the two indirect blocks, then the words of the blocks listed in the doubly-indirect block, 16650 in all, null where a block is missing |
| `Layout.ContentIsJoined` | fs.c:512-537 | the contents of a file are the bytes of those sectors one after another, up to its size |
| `Layout.BitPlace` | fs.c:52-80 | sector b is in use exactly if bit b % 8 of byte b / 8 of the bitmap is set, where the bitmap starts after the inode sectors |
| `Layout.InodePlace` | fs.h:41-54 | inode number i on disk is the 16 words from 16 (i % 8) on of sector i / 8 + 2: type and links, size, thirteen pointers |
| `Layout.WordPlace` | fs.c:378-407 | a word on disk has its low byte first |
| `Layout.CommitPlace` | log.c:100-181 | once the header is written the disk holds the count, the home sectors in order, and after the header their new contents in that order |
| `Layout.RecoverPlace` | log.c:68-121 | recovery copies log block i to the sector that header word i + 1 names, unless a later one names it too, and clears the count |
| `BlockTree.MapInjective` | fs.c:359-462 | no two blocks of any files share a sector |
| `BlockTree.BmapOthers` | fs.c:359-462 | bmap(ip, bn) leaves every other (inode, block) mapping unchanged |
| `BlockTree.BmapStable` | fs.c:359-462 | a second call returns the same sector and changes nothing |
| `BlockTree.BmapRunOwned` | fs.c:52-462 | after any sequence of bmap calls on any inodes the ownership invariant holds, mapped blocks stay where they are, and unnamed blocks are mapped as before |
| `Files.DinodeRoundTrip` | fs.c:200-217 | an inode stored in its sector reads back the same and its neighbours are untouched |
| `Files.StoreBytesAt` | fs.c:557-563 | a store into one block changes exactly its bytes, of its file |
| `Files.WroteBlock` | fs.c:557-563 | one round of writei, bmap included, stores exactly its bytes and changes no other byte of any file |
| `Files.WroteMore` | fs.c:557-563 | consecutive stores are one store of the concatenated bytes |
| `Files.ResizeBytes` | fs.c:565-568 | growing a file changes no byte |
| `Files.ResizeSynced` | fs.c:200-217 | iupdate makes the inode on disk equal to the one in memory and disturbs no other inode of its sector |
| `Files.FinishConsistent` | fs.c:541-570 | after writei every block below every file's size is mapped and every inode on disk is current |
| `Files.FinishContent` | fs.c:541-570 | writei splices exactly its bytes at the offset, growing the file if needed, and changes no other file |
| `Supply.FreeTaken` | fs.c:61-75 | balloc takes the first of the free sectors and leaves the others, in order |
| `Supply.ReachTook` | fs.c:359-462 | bmap panics exactly if fewer sectors are free than slots on its way are empty; otherwise it fills exactly those slots, with the first free sectors, and no other pointer changes |
| `Supply.ReachLog` | fs.c:359-462 | bmap logs exactly the sectors of the slots it fills, of the indirect blocks they lie in, and of the bitmap bits it sets |
| `Supply.LogMore` | fs.c:557-563 | what consecutive calls take and log adds up, each slot being filled once |
| `Supply.RangeTook` | fs.c:557-563 | bmap for one more block of a stretch: the empty slots of the stretch grow by those the call fills |
| `Supply.EmptyInJoin` | file.c:134-151 | the empty slots of two adjacent or overlapping stretches are counted once |
| `Writing.FreeFromSkip` | fs.c:61-73 | skipping used sectors does not change balloc's choice |
| `FileSystem.FileSystem.LogWrite` | log.c:159-181 | a changed buffer is one more write in the transaction, and the blocks are those of the disk with all writes applied; log_write panics exactly if the header lists as many sectors as the log has room for |
| `FileSystem.FileSystem.FirstClear` | fs.c:63-65 | the inner loop stops at the first clear bit of the sector |
| `FileSystem.FileSystem.Balloc` | fs.c:51-76 | balloc takes the first free sector, marks and zeroes it, and logs exactly the bitmap sector and the new one; it panics exactly when none is free |
| `FileSystem.FileSystem.Bmap` | fs.c:359-462 | bmap panics exactly when the value model does or the block is out of range; otherwise it returns element bn of the file's list of sectors, changes nothing for a mapped block, and logs exactly the model's sectors |
| `Writing.RefusesIff` | fs.c:552-555 | the 32-bit guard of writei refuses exactly a start beyond the end of the file or an end beyond 16650 blocks, wrap-around or not |
| `Writing.AcceptedMost` | file.c:124-150 | filewrite takes all bytes, or as many whole chunks of 1536 bytes as fit below the maximum file size |
| `FileSystem.FileSystem.BmapDirect` | fs.c:369-373 | bmap for a direct block: the value model, panic and logged sectors included |
| `FileSystem.FileSystem.BmapSingle` | fs.c:378-407 | the same for a block under a singly-indirect pointer |
| `FileSystem.FileSystem.BmapDouble` | fs.c:412-458 | the same for a block under the doubly-indirect pointer |
| `FileSystem.FileSystem.ReadBlock` | fs.c:529-534 | one round of readi returns the file's bytes and allocates nothing |
| `FileSystem.FileSystem.Readi` | fs.c:511-536 | readi returns exactly the slice of the file, with the code's error cases and truncation at the end, and changes nothing: it never allocates |
| `FileSystem.FileSystem.WriteBlock` | fs.c:557-563 | one round of writei panics exactly when bmap does, else stores its bytes and logs exactly the model's sectors |
| `FileSystem.FileSystem.WriteBlocks` | fs.c:557-563 | writei's loop, panic included, computes the value model and logs exactly its sectors |
| `FileSystem.FileSystem.WriteInode` | fs.c:565-568 | iupdate is one write, of the inode's sector |
| `FileSystem.FileSystem.Writei` | fs.c:538-570 | writei refuses exactly as coded, with 32-bit wrap-around; it panics exactly if it is not refused and fewer sectors are free than slots on the way to its blocks are empty, or the log has no room for what it logs; otherwise the file's bytes are the old ones with n bytes spliced in at off, all other files are unchanged, consistency is kept, and the inode is logged last and only if the file grew |
| `FileSystem.FileSystem.ReadBack` | fs.c:511-570 | readi of the range returns what writei stored there |
| `FileSystem.FileSystem.WriteChunk` | file.c:139-144 | one chunk is one transaction: the blocks after it are those before with its writes applied in order; balloc or log_write panics, or the log's own sectors are overwritten, exactly under conditions on the state before; and while nobody else holds a buffer, NBUF buffers suffice for it |
| `FileSystem.FileSystem.NextChunk` | file.c:134-151 | one round of filewrite's loop extends the written prefix by one chunk, with the exact conditions for refusing, panicking and overwriting the log |
| `FileSystem.FileSystem.Filewrite` | file.c:115-155 | filewrite gets through all bytes up to the largest file exactly if, on the state before, the free sectors below the log suffice and no chunk logs too much; the offset then advances by exactly those bytes; in every case the file is spliced with the prefix reported, no other file changes, and the disk has gone through complete transactions of one chunk each that the log takes |
| `Writing.StepWrote` | fs.c:557-563 | a round that succeeds stored exactly its bytes |
| `Writing.DataTook` | fs.c:557-563 | writei's loop panics exactly if the empty slots of its range outnumber the free sectors; otherwise it fills exactly these slots and logs exactly the sectors of its blocks, of the indirect blocks that received a pointer and of the bitmap bits set |
| `Writing.EnoughMore` | file.c:134-151 | after a first stretch, a second one has enough sectors exactly if both together had |
| `Writing.ChainedTook` | file.c:134-151 | any number of chunk transactions together fill exactly the empty slots of their whole range |
| `Writing.OverwriteMore` | file.c:134-151 | consecutive splices are one splice |
| `Budget.RangeSectorsSize` | fs.c:359-462 | how many distinct sectors a range logs, counted on the disk before it: its blocks, the indirect blocks that receive a pointer, and the bitmap sectors among its first free sectors |
| `Budget.RoomIff` | log.c:164-179 | log_write accepts a series of writes exactly if the sectors before the last one leave room for it |
| `Budget.ChunkFitsIff` | file.c:132-151 | a chunk of filewrite makes log_write panic exactly if the file grows and it logs more than eight sectors besides the inode's, wherever it starts and whatever it allocates |
| `Budget.ChunkBelowLog` | fs.c:61-75 | a chunk stays clear of the log's own sectors exactly if enough sectors are free below them |
| `Budget.ChunkTaken` | file.c:139-144 | a chunk can be committed to the log exactly if balloc finds its sectors, log_write has room and none of them is the log's |
| `Budget.TakesNext` | file.c:134-151 | whether a later chunk of filewrite is taken can be read off the state before the first one: the empty slots and free sectors the earlier chunks leave are counted there |
| `Budget.ChunkTurn` | file.c:134-151 | so a chunk that is not taken means that the condition on the whole filewrite fails |
| `Budget.ChunkPins` | bio.c:59-93 | what a chunk that fits logs leaves at least one of the ten buffers of the cache for each further bget, with the doubly-indirect block held besides |
| `Budget.SharedParents` | fs.c:359-462 | of at most four consecutive blocks, each is direct or under the same indirect block as the first or the last |
| `Budget.FewParents` | fs.c:359-462 | a chunk gives pointers to at most three indirect blocks |
| `Budget.ChunkFitsLog` | file.c:132-151 | so a chunk whose allocations have their bits in one bitmap sector always fits |
| `Budget.StraddlePanics` | file.c:132-151 | and one that grows a file from the middle of block 264 with its five allocations in two bitmap sectors never does |
| `Straddle.ImageConsistent` | mkfs.c:17-19 | a consistent disk of mkfs's size with a root directory, such a file and such free sectors |
| `Straddle.ImageTooBig` | log.c:164-165 | the chunk at the end of the file is supplied by balloc and too big for the log |
| `Straddle.ChunkTooBig` | file.c:132-151 | on it there are sectors for filewrite's chunk, and log_write panics |
| `FullDisk.ImageConsistent` | mkfs.c:234-247 | a consistent disk with an empty file on which only the log's sectors, which mkfs does not mark, are free |
| `FullDisk.LogSectorTaken` | fs.c:61-75 | on it balloc returns the first sector of the log |
| `FullDisk.ImageTakesLog` | fs.c:61-75 | a chunk at the start of the file is supplied, fits the log, and is not clear of it |
| `FullDisk.LogOverwritten` | fs.c:61-75 | and every chunk written to the file goes into the log's sectors |
| `Recovery.ReloadSame` | fs.c:268-297 | a file system is determined by its sectors below the log: reading its inodes from any disk with those sectors gives the same files |
| `Recovery.ChunkState` | file.c:139-144 | committing a chunk leaves the disk holding the file system after it |
| `Recovery.RunsIffTaken` | file.c:115-155 | the transactions of a filewrite can all be run on the disk, with mkfs's log, exactly if the log takes each of them |
| `Recovery.FilewriteOnDisk` | file.c:115-155 | filewrite with its log: exactly when it gets through, from the state before; its transactions can be run, and however they are, the disk then holds what filewrite left |
| `Recovery.FilewriteAtomic` | file.c:115-155 | after a crash anywhere in a filewrite and any number of crashes inside recovery, the recovered disk is a consistent file system with a whole number of chunks written and all other files unchanged |
| `Recovery.UnfinishedChunk` | file.c:139-144 | a chunk in which balloc or log_write panics, or the machine stops before its commit, leaves no trace after recovery |
| `Tanenbaum.Setup` | mp3/3_philosophers.py:173-177 | the rendezvous point is how many times the smaller of the two numbers fits into the larger, at least once |
| `Tanenbaum.StepInv` | mp3/3_philosophers.py:67-88 | every statement of every thread keeps the invariant |
| `Tanenbaum.RunInv` | mp3/3_philosophers.py:147-183 | the invariant holds in every reachable state |
| `Tanenbaum.Safety` | mp3/3_philosophers.py:67-88 | neighbours never eat together; with the mutex free no hungry philosopher lacks an eating neighbour; phil[i] is 1 exactly when a granted meal is unclaimed |
| `Tanenbaum.Fairness` | mp3/3_philosophers.py:147-164 | total meals of any two philosophers differ by at most the rendezvous point, in every reachable state |
| `Tanenbaum.StuckIsFinished` | mp3/3_philosophers.py:147-183 | if no thread can move, all have had all their meals: no deadlock, and the barrier waits for nobody who has left |
| `Tanenbaum.StepProgress` | mp3/3_philosophers.py:147-164 | every step advances its thread |
| `Tanenbaum.RunBounded` | mp3/3_philosophers.py:147-183 | every run, under any schedule, has at most 17 steps per meal |
| `Tanenbaum.MaximalRunFinishes` | mp3/3_philosophers.py:147-183 | every run that cannot be extended ends with all meals eaten |
| `Forks.StepInv` | mp3/3_philosophers.py:44-57 | every step keeps fork ownership, seats and meal counts consistent |
| `Forks.OneHolder` | mp3/3_philosophers.py:44-57 | in every reachable state each fork has at most one holder |
| `Forks.EaterForks` | mp3/3_philosophers.py:38-57 | in every reachable state an eater has forks i and (i + 1) % n and its neighbour does not eat; a philosopher waiting for its second fork has fork (i + 1) % n, and the left-handed one fork i |
| `Forks.FootmanStuck` | mp3/3_philosophers.py:96-104 | with the footman a stuck table is a finished one: at most N-1 seated philosophers cannot close the cycle of waits |
| `Forks.LeftHandedStuck` | mp3/3_philosophers.py:120-130 | with one left-handed philosopher a stuck table is a finished one: waits follow a decreasing fork order |
| `Forks.RunBounded` | mp3/3_philosophers.py:96-130 | every run has at most 8 steps per meal |
| `Forks.MaximalRunFinishes` | mp3/3_philosophers.py:96-130 | for every N of at least 2 every run that cannot be extended ends with all meals eaten |
| `Forks.LonelyPhilosopher` | mp3/3_philosophers.py:96-130 | a single philosopher starves under both protocols |
| `Forks.FinishesIffTwo` | mp3/3_philosophers.py:96-130 | all runs finish exactly when there are at least two philosophers |
| `SleepWakeup.StepInv` | proc.c:441-496 | every statement of sleep, wakeup and kill keeps the invariant, for any number of processes and locks and any channels under each lock, with wakeups at any time, unless it makes a condition true without its lock while a process is about to sleep on it |
| `SleepWakeup.NoLostWakeup` | proc.c:441-496 | in no such run is a process asleep on a true condition with nobody left to wake it |
| `SleepWakeup.LostWithoutLock` | sleep1.p:29-40 | the exception is needed: a process that changes the condition without the lock can leave a sleeper behind |
| `ProcTable.StepInv` | proc.c:145-519 | every statement of fork, exit, wait, kill, sleep, wakeup, yield and the scheduler keeps the invariant of the process table, with preemption wherever ptable.lock is not held and wakeup and kill at any time |
| `ProcTable.ParentsAlive` | proc.c:184-222 | every process that became runnable, except init, has a parent that is neither UNUSED nor ZOMBIE |
| `ProcTable.NoZombieForgotten` | proc.c:204-270 | no process sleeps in wait while it has a zombie child |
| `ProcTable.PidsDistinct` | proc.c:58-61 | slots in use have different pids |
| `ProcTable.StepLifecycle` | proc.c:145-519 | a live slot becomes at worst a zombie in one step |
| `ProcTable.FreedThroughZombie` | proc.c:218-257 | a slot that became runnable returns to UNUSED only through ZOMBIE |
| `ProcWaits.KilledNotWaiting` | proc.c:261-519 | in no run is a killed process asleep in wait |
| `ProcWaits.WaitGivesUp` | proc.c:227-270 | in every run wait returns without a child only if the process was killed or has none |
| `ProcWaits.ZombieKept` | proc.c:238-258 | a zombie stays one until its own parent collects it in wait |
| `ProcWaits.WakeupAndKill` | proc.c:479-519 | wakeup makes exactly the sleepers on its channel runnable; kill marks exactly its process, which is then not asleep |
| `Pipe.CodeSize` | pipe.c:10 | the code's ring size is an instance of the model |
| `Pipe.RingIndex` | pipe.c:92 | counters modulo 2^32 select the right cell of the ring |
| `Pipe.FullEmpty` | pipe.c:84-85 | the wrapped counters tell a full and an empty pipe from all others |
| `Pipe.StepRing` | pipe.c:77-120 | every step keeps the ring equal to the bytes stored and not yet delivered |
| `Pipe.StepInv` | pipe.c:58-120 | every step of any number of readers and writers, kills included, keeps the invariant |
| `Pipe.Fifo` | pipe.c:77-120 | the bytes delivered are always a prefix of the bytes stored; whose bytes those are is WriterStream and ReaderPiece |
| `PipeCalls.WriterStream` | pipe.c:77-99 | in every run, the stored bytes that came from a process are what its finished calls stored followed by src[..i] of the call it is in: of every source a prefix, in order |
| `PipeCalls.ReaderPiece` | pipe.c:101-120 | in every run, each finished read got the piece of the stream that begins where the reads finished before it ended |
| `PipeCalls.ReaderStream` | pipe.c:113-116 | the finished reads and the one in progress together got all that was delivered, once |
| `PipeCalls.ReturnsTell` | pipe.c:77-120 | pipewrite returns the length if everything was stored and -1 exactly if something was not; piperead returns how many bytes it got, or -1 without any |
| `PipeCalls.EndOfFile` | pipe.c:106-120 | after a read of more than 0 bytes has returned 0, the write end is closed and everything stored has been delivered |
| `PipeCalls.StepCalls` | pipe.c:77-120 | every step keeps what the calls have done in step with the stream |
| `Pipe.Occupancy` | pipe.c:77-120 | nwrite - nread modulo 2^32 is the number of bytes in flight and at most the ring size, also after the counters wrap |
| `Pipe.NoWriterForgotten` | pipe.c:58-120 | in no run, with the lock free, is a writer asleep on a pipe that has room or no readers |
| `Pipe.StepReader` | pipe.c:58-120 | every step but a killed writer's early return keeps the same promise to readers |
| `Pipe.AbandonForgets` | pipe.c:85-88 | that return, taken while a reader sleeps, leaves the reader asleep on a full pipe |
| `Pipe.ForgetsIffAbandons` | pipe.c:58-120 | a run forgets a reader exactly if a killed writer returns early in it while a reader sleeps |
| `Pipe.KilledWriterForgets` | pipe.c:85-88 | there is such a run, for every ring size |
| `Pipe.FreedUnused` | pipe.c:69-73 | when both ends are closed and the pipe is freed, nobody holds its lock or is inside its code |
| `Heap.JoinSorted` | umalloc.c:24-44 | inserting a freed block keeps the list one address-ordered list of disjoint blocks |
| `Heap.JoinCoalesced` | umalloc.c:33-42 | after the two merges no two list blocks touch |
| `Heap.JoinCovers` | umalloc.c:24-44 | free adds exactly the freed bytes to the free memory |
| `Heap.JoinUnits` | umalloc.c:24-44 | free adds exactly the freed units to the free units |
| `Heap.CutCovers` | umalloc.c:75-85 | malloc takes exactly the returned bytes out of the free memory |
| `Heap.TailUnused` | umalloc.c:75-85 | the returned block lies in obtained memory and touches no live block |
| `Heap.FreeInv` | umalloc.c:24-44 | free keeps the heap invariant |
| `Heap.CutInv` | umalloc.c:75-85 | taking a block keeps the heap invariant |
| `Heap.GrowInv` | umalloc.c:46-61 | adding memory from sbrk keeps the heap invariant |
| `Heap.RunInv` | umalloc.c:24-90 | across any sequence of malloc and free the list is ordered, disjoint and fully coalesced, obtained memory is the disjoint union of free and live memory, and free plus live units equal the units obtained |
| `Heap.LiveNotFree` | umalloc.c:24-90 | no live block overlaps a free block |
| `Heap.SizesFit` | umalloc.c:33-40 | no block is so large that its 32-bit size or end address wraps |
| `Heap.Capacity` | umalloc.c:69 | the block returned has room for nbytes exactly when nbytes + 7 does not wrap |
| `Heap.NoRoom` | umalloc.c:69 | a request of 2^32 - 1 bytes gets a block without room |
| `Heap.SbrkArgumentRight` | umalloc.c:52-54 | sbrk receives the number of bytes morecore uses exactly below 2^28 units |
| `Heap.SbrkNegative` | umalloc.c:52-54 | for a request of 2^31 bytes sbrk's argument is negative |
| `Heap.JoinLinked` | umalloc.c:33-42 | the pointer surgery of free turns the linked list into the merged list |
| `Heap.CutLinked` | umalloc.c:75-85 | the pointer surgery of malloc turns the linked list into the cut list |
| `Heap.StopIff` | umalloc.c:30-32 | the two exit tests of the search loop hold exactly at the block after which the freed block belongs |
| `Heap.GrowNext` | umalloc.c:86-88 | after morecore the search meets a block that fits before it comes round again |
| `Heap.Allocator.constructor` | umalloc.c:21-22 | the heap starts without a list |
| `Heap.Allocator.Search` | umalloc.c:30-32 | the search loop of free terminates, at the right place |
| `Heap.Allocator.Splice` | umalloc.c:24-44 | free on headers refines the insertion with merges |
| `Heap.Allocator.Free` | umalloc.c:24-44 | free returns exactly the given block, keeps the heap valid, and leaves freep at the block after which it was put |
| `Heap.Allocator.MoreCore` | umalloc.c:46-61 | morecore adds the memory sbrk gave, or nothing |
| `Heap.Allocator.Carve` | umalloc.c:75-85 | the found block is unlinked or shortened, its last n units are returned, and freep is left at the block before it |
| `Heap.Allocator.Allocate` | umalloc.c:74-89 | the circular search finds the first fit, also after morecore, which it calls at most once; freep ends at the block before it, or where it was if there is no memory |
| `Heap.Allocator.Malloc` | umalloc.c:63-90 | malloc gives out the last units of the first fit after the roving pointer, in the list as it is or, exactly when nothing fits, after at least 4096 units from sbrk were added, else returns 0; freep is then the address of list block `at`, the one before the one cut |
| `Heap.GivenRest` | umalloc.c:75-84 | what is left of the cut block, or else its successor, is the block right after freep |
| `Heap.MallocTwice` | umalloc.c:71-84 | a second malloc looks first at the block after the first one's freep: if that has the units it is cut, and if it is the rest of the first block the answer lies just below the first |
| `Heap.MallocFreed` | umalloc.c:43-84 | a malloc after free looks first at the freed block, if that did not merge to the left, and cuts the end of what it has become |
| `BufferCache.UnlinkLinked` | bio.c:127-128 | unlinking a buffer leaves a circular doubly linked list of the others |
| `BufferCache.InsertLinked` | bio.c:129-132 | linking a buffer in after the head gives a circular doubly linked list with it in front |
| `BufferCache.ToFrontPermutation` | bio.c:127-132 | the list stays a permutation of all buffers |
| `BufferCache.ReleaseOrder` | bio.c:127-132 | the list stays in the order of last release |
| `BufferCache.ChangeOne` | bio.c:64-138 | a change to one buffer and its sector keeps all buffers truthful and distinct |
| `BufferCache.RecycleOk` | bio.c:82-90 | giving a clean buffer to an uncached block keeps the cache truthful and loses no logged write |
| `BufferCache.SomeReusable` | bio.c:82-92 | bget finds a buffer whenever fewer sectors are in busy or dirty buffers than there are buffers |
| `BufferCache.UnreadNotLogged` | log.c:180 | a block whose buffer has not been read has no write pending in the log: dirty buffers are never recycled |
| `BufferCache.CleanIsDisk` | bio.c:64-138 | a clean, valid, unheld buffer equals its disk sector |
| `BufferCache.Cache.constructor` | bio.c:38-57 | binit builds the list of any number of buffers |
| `BufferCache.Cache.Lookup` | bio.c:70-80 | the first loop finds the block's buffer if there is one |
| `BufferCache.Cache.Victim` | bio.c:82-92 | the second loop finds the least recently released clean buffer that is not busy |
| `BufferCache.Cache.Bget` | bio.c:59-93 | bget returns the block's buffer, or waits if it is busy, or recycles the least recently released clean one, or panics exactly when there is none |
| `BufferCache.Cache.Iderw` | memide.c:33-58 | iderw writes a dirty buffer or reads an invalid one, and panics exactly as coded |
| `BufferCache.Cache.Bread` | bio.c:95-105 | bread returns a busy buffer holding what an uncached reader over the disk and the logged writes would see |
| `BufferCache.Cache.Bwrite` | bio.c:107-115 | bwrite puts the buffer on the disk and settles its logged write |
| `BufferCache.Cache.MarkLogged` | log.c:180 | the mark log_write leaves makes the new contents what readers see |
| `BufferCache.Cache.ToHead` | bio.c:127-132 | the surgery of brelse makes the buffer the most recently used |
| `BufferCache.Cache.Brelse` | bio.c:117-138 | brelse keeps the cache truthful, moves the buffer to the front and frees it |
| `ShellGrammar.LineOk` | sh.c:266-447 | every argument and file of a parse is a maximal run of word characters, and no command has more than nine arguments |
| `ShellLanguage.LineSound` | sh.c:345-447 | whatever parseline accepts is derived by a grammar over symbols, up to where it stops, and its tree is the derivation's |
| `ShellLanguage.LineComplete` | sh.c:345-447 | whatever the grammar derives, up to a symbol that cannot continue it, parseline accepts |
| `ShellLanguage.LineSame` | sh.c:345-447 | the grammar is unambiguous |
| `ShellLanguage.AcceptsIff` | sh.c:328-343 | parsecmd accepts exactly the sentences of the grammar with at most nine words in a command |
| `ShellLanguage.DerivedTree` | sh.c:328-447 | and returns the tree of the sentence's only derivation |
| `ShellErrors.LineFails` | sh.c:345-447 | every error of parseline comes from a broken derivation of its kind |
| `ShellErrors.LineRefuses` | sh.c:345-447 | every broken derivation makes parseline report its error |
| `ShellErrors.RefusedIff` | sh.c:328-447 | each error - missing file, missing parenthesis, stray parenthesis, tenth word - is reported for exactly the lines that begin with a broken derivation of that kind |
| `ShellErrors.LeftoversIff` | sh.c:336-340 | a line is refused for leftovers exactly if a part that cannot be continued derives and something follows |
| `ShellRoundTrip.ArgsRead` | sh.c:430-443 | parseexec's loop reads back a printed word list |
| `ShellRoundTrip.LineReads` | sh.c:345-447 | whatever surrounds it, a printed command parses to itself and the cursor stops right after it |
| `ShellRoundTrip.RoundTrip` | sh.c:328-447 | for every tree the grammar can produce, parsing its fully parenthesised printing returns the same tree and consumes all input |
| `ShellRoundTrip.Reprint` | sh.c:328-447 | every parse is such a tree, so reprinting any line that parses preserves its meaning |
| `Shell.Faithful` | sh.c:449-494 | after nulterminate every argument and file read as a C string equals exactly the token's text |
| `Shell.TerminatorOutside` | sh.c:449-494 | no terminator falls on a word character |
| `Shell.Parser.SkipSpace` | sh.c:273-274 | the cursor moves to the first character that is not white space; which are is CharacterKinds |
| `Shell.Parser.Peek` | sh.c:311-321 | peek looks at the next token without consuming it |
| `Shell.Parser.GetToken` | sh.c:266-309 | gettoken cuts out the next token, with >> as one; what the characters are to it is CharacterKinds |
| `Shell.Parser.ParseRedirs` | sh.c:375-398 | the loop returns exactly the grammar's redirections, or its error, with the cursor after them |
| `Shell.Parser.ParseArgs` | sh.c:430-443 | the argument loop, with its two errors |
| `Shell.Parser.ParseBlock` | sh.c:400-414 | parseblock computes the grammar's parenthesised command, errors included |
| `Shell.Parser.ParseExec` | sh.c:416-447 | parseexec computes the grammar's simple command, errors included |
| `Shell.Parser.ParsePipe` | sh.c:362-373 | parsepipe computes the grammar's pipeline, errors included |
| `Shell.Parser.ParseLine` | sh.c:345-360 | the cursor-moving parser computes the grammar's function, errors included |
| `Shell.Parser.NulTerminate` | sh.c:449-494 | nulterminate writes exactly the terminators |
| `Shell.Parser.ParseCmd` | sh.c:328-343 | parsecmd returns the parse of the whole line or its error, and leaves every token readable in the buffer; that white space, the newline included, makes no difference is WhiteInserted and NewlineIgnored |
| `ShellLexis.CharacterKinds` | sh.c:263-264 | exactly the five characters of the one literal are white space and exactly the seven of the other symbols; any other is a word |
| `ShellLexis.SymbolCharacters` | sh.c:277-294 | which symbol each of the seven is, and that >> is the same as > |
| `ShellLexis.SymbolsDecide` | sh.c:328-447 | the tree or the error depends only on the sequence of words and symbols |
| `ShellLexis.WhiteInserted` | sh.c:273-306 | white space put in anywhere but inside a word or >> changes neither tree nor error |
| `ShellLexis.NewlineIgnored` | sh.c:263-274 | a line and the line with a newline after it parse alike |
| `ShellLexis.WhiteReplaced` | sh.c:263-274 | replacing a white character by another changes neither tree nor error |
| `ShellLexis.LexJoin` | sh.c:266-309 | two texts with a blank between them are read one after the other |
| `ShellLexis.WordAlone` | sh.c:295-300 | a text without white space and symbols is one word |
| `ShellLexis.SpacedWords` | sh.c:430-443 | up to nine words are a command with exactly these arguments, and ten are too many |
| `Regex.StarIff` | grep.c:97-105 | matchstar succeeds exactly if some number of repetitions does |
| `Regex.HereIff` | grep.c:83-95 | matchhere succeeds exactly if some prefix of the text is in the pattern's language |
| `Regex.Star` | grep.c:97-105 | the do-while loop of matchstar computes its recursive specification |
| `Regex.Here` | grep.c:83-95 | matchhere terminates on a lexicographic measure of pattern and text |
| `Regex.Match` | grep.c:71-81 | match returns 1 exactly when some substring, anchored as ^ and $ require, is in the denotational language of the pattern |
| `Regex.PlainMatches` | grep.c:71-95 | a pattern without operators, where a dot is any character, matches exactly at some place of the text, with ^ at its start, with $ at its end, with both the whole text |
| `Regex.StarMatches` | grep.c:97-105 | c* matches exactly repetitions of c, and .* everything |
| `PageTable.PopOwned` | kalloc.c:82-95 | kalloc's frame is in no address space and no longer on the free list |
| `PageTable.PushOwned` | kalloc.c:59-77 | kfree of a frame nobody uses keeps the free list free of repetitions and of frames in use, and changes no mapping |
| `PageTable.AddTableFrame` | vm.c:45-66 | a page table added by walkpgdir changes no mapping of any address space |
| `PageTable.SetPteFrame` | vm.c:70-90 | storing one entry changes the mapping of that page and of no other page of any address space |
| `PageTable.MapNewOk` | vm.c:231-241 | one kalloc and mappages round maps the page on a fresh frame with the given contents, or fails exactly for want of a frame for the page or for its table; all other memory is unchanged |
| `PageTable.MapNewAccounted` | vm.c:231-241 | the round loses no frame, except the page's own when only the table's frame is missing |
| `PageTable.GrowExact` | vm.c:218-243 | allocuvm's loop maps all pages exactly if enough frames are free, on zeroed frames from the free list, and reports success without the last page exactly if only the last page's table is missing |
| `PageTable.LeakIff` | vm.c:218-243 | allocuvm's loop loses a frame exactly if the supply runs out between a page and its new page table, because mappages' result is ignored |
| `PageTable.AllocExact` | vm.c:218-243 | allocuvm decided by the state before, for any page table: a panic exactly if a page in the way is mapped and the frames last until it; else full growth, growth without the last page, or a return of 0 with every process's memory as it was; and a frame is lost exactly if the supply runs out between a page and its table |
| `PageTable.UndoneSame` | vm.c:236-239 | the deallocuvm of a failing allocuvm finds every page it mapped |
| `PageTable.GrowsWithoutPage` | vm.c:231-242 | with one free frame and an empty directory, growing to one page reports success without the page and loses the frame |
| `PageTable.ShrinkExact` | vm.c:249-273 | deallocuvm unmaps all pages of its range except those it steps over, and changes nothing outside the range, for any page table |
| `PageTable.ClearsIff` | vm.c:258-264 | deallocuvm clears its range exactly if no mapped page is stepped over: one that lies, in the first existing page table from the start on, before the offset at which the walk started |
| `PageTable.StepsOver` | vm.c:261-262 | a directory on which deallocuvm leaves a page mapped |
| `PageTable.ContiguousMissesNone` | vm.c:258-264 | with contiguous user memory no page is stepped over |
| `PageTable.ShrinkContiguous` | vm.c:249-273 | shrinking contiguous memory leaves it contiguous up to the new size |
| `PageTable.ShrinkKeeps` | vm.c:249-273 | deallocuvm loses no frame |
| `PageTable.ShrinkFrees` | vm.c:263-269 | every page deallocuvm unmaps has its frame on the free list afterwards |
| `PageTable.FreeVmExact` | vm.c:275-292 | freevm puts every user frame, page table page and the directory on the free list, each exactly once, for any page table, and leaves all other address spaces alone |
| `PageTable.FreeVmKeeps` | vm.c:275-292 | freevm loses no frame |
| `KernelMap.MapKernelOk` | vm.c:78-88 | one kernel mapping fails exactly if its page table is missing and no frame is free; it changes no user page and no other space |
| `KernelMap.SetupExact` | vm.c:127-144 | setupkvm succeeds exactly if frames for the directory and for every page table of the kernel's mappings are free, and then has exactly those mappings; if it fails, every frame that was free is lost |
| `KernelMap.SetupLosesFrame` | vm.c:139-142 | with one free frame setupkvm fails on the code's table and the frame is neither free nor in use |
| `KernelMap.CodeMapOk` | vm.c:115-125 | the code's table of kernel mappings lies in the kernel's half and has no overlaps; what it maps is CodeEntries |
| `KernelMap.CodeEntries` | vm.c:115-125 | it maps page u from 0x80000 up to 0x8E000 to frame u - 0x80000, writable except between 0x80100 and the data, and pages from 0xFE000 on to themselves, none of them for users, and nothing else |
| `KernelMap.CodeSetup` | vm.c:127-144 | the directory setupkvm returns has exactly these mappings in all its 2^20 pages, and it returns one exactly if 65 frames are free |
| `KernelMap.CodeFrames` | vm.c:115-125 | for it setupkvm needs 65 frames |
| `CopyVm.CopyExact` | vm.c:319-331 | copyuvm's loop copies all pages exactly if enough frames are free, each byte-equal, with the same rights, on a frame that was free |
| `CopyVm.CopyUvmExact` | vm.c:307-337 | copyuvm returns a child exactly if all pages below the size are mapped and frames for the directory, the kernel's tables, the pages and their tables are free; it panics exactly if a page is unmapped and the frames last until it; the child is a byte-equal copy on frames of its own; on failure all memory is as before, and a frame is lost exactly if setupkvm ran out after its first frame or the loop between a page and its table |
| `CopyVm.FreeVmBack` | vm.c:334-336 | freevm brings back no frame that was lost |
| `CopyVm.ForkLosesFrame` | vm.c:140-142 | with one free frame every copyuvm fails and loses it |
| `AddressSpace.Memory.Kalloc` | kalloc.c:82-95 | kalloc takes the most recently freed frame |
| `AddressSpace.Memory.Kfree` | kalloc.c:59-77 | kfree fills the frame with ones and puts it on top of the list |
| `AddressSpace.Memory.Walk` | vm.c:42-66 | walkpgdir finds the page table, or adds an empty one if asked to and a frame is free |
| `AddressSpace.Memory.MapPage` | vm.c:78-84 | one round: no memory exactly if the table cannot be had, panic exactly if the page is mapped, else exactly that entry is stored |
| `AddressSpace.Memory.Mappages` | vm.c:67-90 | mappages over a region of the kernel's half stops at the first page it has no table for, else maps all of them |
| `AddressSpace.Memory.Setupkvm` | vm.c:127-144 | setupkvm computes the value model, keeping its frames on failure, and on the code's table returns a directory with exactly the kernel's mappings if 65 frames are free |
| `AddressSpace.Memory.Deallocuvm` | vm.c:245-273 | deallocuvm with its step over missing tables computes the shrinking function |
| `AddressSpace.Memory.Allocuvm` | vm.c:218-243 | allocuvm computes the growing function for any page table, its panic and undoing included |
| `AddressSpace.Memory.Freevm` | vm.c:275-292 | freevm computes the freeing function, table by table |
| `AddressSpace.Memory.Copyuvm` | vm.c:307-337 | copyuvm computes the copying function, panics included, with freevm on failure |
| `Names.SameIff` | fs.c:575-579 | namecmp compares the texts of two names; bytes after a NUL do not matter |
| `Names.CutSame` | fs.c:642-677 | two names are the same to directories exactly if they are equal or agree in fourteen characters |
| `Names.PartsElements` | fs.c:654-677 | skipelem's elements are the path split on slashes with empty parts dropped |
| `Names.ElementsJoin` | fs.c:654-677 | the elements of p/q are those of p followed by those of q |
| `Names.PathJoin` | fs.c:679-715 | p/q means what q means in the directory that p means; nameiparent of it is that directory |
| `Names.RootOrHere` | fs.c:687-690 | a path with a leading slash means the same from inode 1, whatever the current directory; / is inode 1, and the empty path the current directory |
| `Names.LookupBinds` | fs.c:584-607 | with unique names dirlookup reads the directory as a map |
| `Names.LinkAddsOne` | fs.c:611-637 | after a successful dirlink the name is bound to the number modulo 2^16, or unbound if that is 0, and no other lookup changes; so the binding is the given one exactly if the number is between 1 and 65535 |
| `Names.LinkPlace` | fs.c:621-634 | the new entry goes into the first empty one, and onto the end only if none is empty |
| `Names.LinkLost` | fs.c:628-634 | dirlink of inode 65536 reports success and binds nothing |
| `Names.FollowMeaning` | fs.c:682-715 | the decisions of namex, for namei and nameiparent, amount to folding directory lookups over the elements cut to 14 bytes |
| `Names.HoldStep` | fs.c:703-708 | going from one directory to the next moves one reference and keeps the number of unused slots, counting the one held |
| `Names.HoldEnd` | fs.c:693-713 | giving up restores every reference count |
| `Names.HeldSlots` | fs.c:222-253 | iget's test for a free slot in the middle of a walk, in terms of the cache before it |
| `Names.WalkFromMeans` | fs.c:679-715 | the cache can only turn namex's answer into a panic, and with two unused slots never does |
| `Names.Directory.Iget` | fs.c:222-253 | iget adds a reference to the inode's slot or takes an unused one; it panics exactly if there is neither, and no inode is ever in two slots |
| `Names.Directory.Idup` | fs.c:255-264 | idup adds one reference |
| `Names.Directory.Iput` | fs.c:312-336 | iput drops one reference, and frees exactly an inode that is loaded and has neither another reference nor a link |
| `Names.Directory.SkipElem` | fs.c:642-677 | skipelem cuts off the first element, leaves its name in the buffer, and stops at the next element or the end |
| `Names.Directory.Scan` | fs.c:592-604 | the scan finds the first entry with the name |
| `Names.Directory.Dirlookup` | fs.c:581-607 | dirlookup returns the bound inode with one reference, or nothing, and panics exactly if the inode is found, not cached, and the cache is full |
| `Names.Directory.Dirlink` | fs.c:609-637 | dirlink refuses a name that is bound, leaving references alone, else writes one entry into the first empty place, as LinkPlace says |
| `Names.Directory.Namex` | fs.c:679-715 | namex returns what the path means, or panics, exactly as computed from the tree and the cache before; every path through it leaves all reference counts unchanged except one more on the returned inode |
| `ShellPrecedence.Unwrap` | sh.c:375-398 | a command with redirections is its base wrapped in them, the first innermost |
| `ShellPrecedence.WordsRead` | sh.c:430-446 | parseexec's loop reads back printed words followed by printed redirections |
| `ShellPrecedence.AtomReads` | sh.c:400-447 | parseexec and parseblock read back a simple or parenthesised command with its redirections, and stop right after it |
| `ShellPrecedence.PipedReads` | sh.c:362-373 | parsepipe reads back pipelines, grouping to the right |
| `ShellPrecedence.BackedReads` | sh.c:350-354 | parseline's & loop reads back any number of & after a pipeline |
| `ShellPrecedence.PrecedenceRoundTrip` | sh.c:328-447 | for every tree the grammar can produce, parsing its printing with only the necessary parentheses returns the same tree and consumes all input: this fixes precedence and grouping |

## Left out

- itrunc, bfree and file deletion: itrunc's loop bound and coverage do not match the
  extended inode layout, so indirect trees are never reclaimed and no clean property holds.
- Device files in readi and writei: calls into drivers.
- Inode locking, ialloc, stati.
- Byte layout of directory entries: a directory is a sequence of entries.
- loaduvm, inituvm, clearpteu, uva2ka and copyout, and the switch to a page table.
- kfree's address check and its panic for frame 0: frames are numbered as kinit supplies them.
- Buffers held by several processes at once: that ten buffers suffice is stated for one.
- exit's iput outside a transaction; the log properties are about bracketed transactions.
- Disk errors and ide.c: the disk contract is memide.c's.
- spinlock.c, traps, interrupts, memory ordering: locks are atomic primitives.
- Threads and the mtx_* calls, burst accounting, the commented-out scheduler.
- mp3/1_disc_golf_range.py, mp3/2_dance_mixer.py, console.c.
- exec, system call argument fetching, runcmd, printf, the user programs and tests.
- mkfs.c: only its layout constants are used.
- ProcTable.PidsDistinct: pids are unbounded numbers, so the wrap-around of nextpid after
  2^31 forks is not modelled.
- Pipe.StepInv: pipealloc's failure path is not modelled; a step copies one byte.
- Log.Log.BeginTrans: waiting for another transaction is not modelled, the method starts
  when the log is free.
- FileSystem.FileSystem.Filewrite: after the Overwrote outcome, a chunk in the log's own
  sectors, nothing is said about the disk.
- Recovery.FilewriteAtomic: one filewrite with nobody else writing, as the log's busy flag
  ensures for each chunk but not between chunks.
- Heap.Allocator.Malloc: after a Wild reply, when the 32-bit size made morecore write a header
  outside the memory it got, nothing is said about the heap; user memory inside live
  blocks is not modelled, because no header lies there.
- BufferCache.Cache.Bget: sleeping is a reply after which the caller tries again; wakeups
  are the subject of SleepWakeup.
- AddressSpace.Memory.Kalloc: the free list is a sequence; that its links are stored in the
  free pages themselves is not modelled.
- Names.Directory.Namex: sleeping on busy inodes is not modelled; what it answers is
  promised while all inodes are linked, so that iput frees none on the way.
- Names.Directory.Iput: freeing an unlinked inode's blocks is itrunc's part.
- Shell.Parser.ParseExec: the execcmd node that C fills in after wrapping it in redirections
  is built when its arguments are known, so the sharing of that node is not modelled.
