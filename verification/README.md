# Verified models of the xv6 core

This project models, in Dafny, the parts of an xv6-based teaching kernel and its
user programs that carry the hard promises, and proves those promises for every
input, every interleaving and every crash:

- the **write-ahead log** (`LogMachine.dfy`, `Logging.dfy`): whatever the moment
  of a crash, and however often recovery is itself interrupted, the disk recovers
  to the file system as it was at the last commit, at which no operation was in
  progress, or at the last settled instant if nothing was committed since;
- the **file system** (`Types.dfy`, `Blocks.dfy`, `FsState.dfy`, `FsWrite.dfy`,
  `FsTrunc.dfy`, `FsLogged.dfy`, `FsCount.dfy`, `FsFormat.dfy`, `Inodes.dfy`,
  `FileWrite.dfy`, `Directory.dfy`, `FsExample.dfy`): every block has one owner and
  the free map is exact, every inode, map bit and file byte is at the disk address
  `fs.h` gives it, `writei` and `readi` are splice and slice on byte sequences, the
  sectors a write logs are known exactly, and a directory is a map from names to
  inodes;
- the two together (`CrashFiles.dfy`, `Transactions.dfy`): `writei` and `itrunc`
  between `begin_op` and `end_op` are atomic for every file. Stopped anywhere, the
  machine comes up with a proper file system that has all of the change or none of
  it, and after a long `filewrite` some leading chunks of it and nothing else;
- the **buffer cache** and the **disk queue** (`BufferCache.dfy`,
  `DiskQueue.dfy`): coherence and least-recently-released recycling; every
  interleaving of requests and interrupts is a run of the synchronous disk;
- the **user-level allocator** (`Umalloc.dfy`): the free ring, conservation of
  memory, and the end of `malloc`'s search after one call to `morecore`;
- **pipes, sleep and wakeup** (`Pipes.dfy`, `SleepWakeup.dfy`, `PipeStream.dfy`):
  first in, first out under wrapping counters, what the reads return as an
  interleaving of what the writes were called with, and exactly when a wakeup can be
  lost;
- **page tables and page frames** (`PageTable.dfy`, `Mmu.dfy`, `Vm.dfy`): who owns
  which frame, what every linear address translates to and with which rights, how
  many frames each operation takes, what `fork` copies, what `freevm` returns;
- the **shell's parser** (`ShellGrammar.dfy`, `ShellPrint.dfy`, `ShellSpelling.dfy`,
  `Shell.dfy`), which accepts exactly the lines that spell a command, and **grep's
  matcher** (`Grep.dfy`).

State that the C code updates in place is a class (or an array), and each of its
methods is proved against functions and relations on values; the laws are lemmas
about those. `dafny verify dfyconfig.toml` checks the whole project.

## What the code does where its documentation says otherwise

- `log_write` panics when the log is full even if the sector is already logged
  and needs no new room. Operations that keep to their reservation can therefore
  meet the panic (`LogMachine.AbsorbedWriteRefused`).
- `begin_op` reserves against LOGSIZE, `log_write` also tests the size of the log
  on disk, which `mkfs` makes LOGSIZE too. A new sector within the reservation can
  then be refused (`LogMachine.NewSectorRefused`): operations with reservation left
  always pass the test if and only if the log has more than LOGSIZE blocks
  (`LogMachine.GuardAdmitsIff`).
- That test is made before the lock is taken. Two operations that both pass it can
  fill the log beyond its last block (`LogMachine.LogOverruns`), and this can happen
  if and only if the log has between 2 and LOGSIZE blocks (`LogMachine.OverrunIff`).
- `MAXOPBLOCKS` is 10, and `filewrite` cuts long writes so as not to exceed what a
  transaction may log. A full chunk always exceeds it (`FileWrite.FullChunkExceeds`).
  The most is 17 sectors, reached exactly where `FileWrite.FullChunkMost` says;
  `FsExample.ChunkLogsMost` is such a write. Alone in the log a chunk of any size
  fits and is atomic (`Transactions.WriteCall`, `Transactions.FilewriteCall`).
- A reader asleep in `piperead` can be left asleep on a pipe that is not empty: a
  writer that finds the buffer full returns without waking anyone if the read end
  is closed or its process was killed (`SleepWakeup.ReaderLeftAsleep`). Until a
  writer has left in this way, or once the readers were woken again, no wakeup is
  lost (`SleepWakeup.NoLostWakeup`).
- `malloc` promises `nbytes` bytes; the rounding wraps around for the seven
  largest requests, and `morecore`'s `sbrk` argument is negative from 2 GB up
  (`Umalloc.UnitsHoldBytes`, `Umalloc.SbrkAsksForCore`).
- `deallocuvm` says it deallocates the pages of the range. Starting in the middle
  of an absent page table it steps over the first pages of the next table that is
  present (`Vm.DeallocuvmSkips` is such a call). It empties the range if and only
  if no page of it is stepped over (`Vm.DeallocuvmEmpties`). From 0, as `freevm`
  calls it, nothing is.
- `allocuvm` does not look at the result of `mappages`. It returns the new size with
  the last page missing if and only if that page needs a new page table and exactly
  one frame is wanting (`Vm.Kernel.Allocuvm`; `Vm.AllocuvmLosesPage` is such a call).
- `fs.h` says that blocks 2 through ninodes/IPB hold inodes; by its macros the last of
  them is block ninodes/IPB + 2 (`FsFormat.PartsInOrder`).
- The shell reads `>>` as `>`: both open with O_WRONLY|O_CREATE.
- `dirlink` with an inode number that is zero in 16 bits reports success and
  binds nothing (`Directory.LinkZeroAddsNothing`).

## Model

| member | source | states |
|---|---|---|
| LogMachine.HeaderRoundTrip | log.c:84-112 | reading the header sector back gives the logged sectors that were written, whatever the sector held before |
| LogMachine.PutSectorsWords | log.c:100-112 | the count and the sector numbers are stored in their words; the words after them keep their value |
| LogMachine.ReservationKept | log.c:124-140 | admitting, charging and ending operations keeps logged sectors plus unused reservations within LOGSIZE, also when an operation takes room nobody reserved |
| LogMachine.BeginOpKeepsInv | log.c:124-140 | begin_op keeps the invariant: its admission test makes room for a whole reservation |
| LogMachine.ModifyKeepsInv | bio.c:98-107 | an operation changing the buffer it holds keeps the invariant |
| LogMachine.LogWriteKeepsInv | log.c:210-230 | log_write keeps the invariant: sectors stay distinct, pinned and charged to their operation |
| LogMachine.LogWriteKeepsHeader | log.c:221-227 | a sector is appended to the in-memory header only when it is not there already |
| LogMachine.EndOpKeepsInv | log.c:144-171 | end_op keeps the invariant, and commits only with no operation outstanding |
| LogMachine.WriteLogBlockKeepsInv | log.c:174-187 | copying one logged sector from the cache to its log block keeps the invariant |
| LogMachine.WriteHeadKeepsInv | log.c:100-112 | after the header write the log blocks hold the data of the sectors the header names |
| LogMachine.InstallBlockKeepsInv | log.c:68-81 | one round of install_trans keeps the invariant, in a commit and in recovery |
| LogMachine.ClearHeadKeepsInv | log.c:189-199 | erasing the header after installation keeps the invariant |
| LogMachine.CrashKeepsInv | log.c:114-121 | losing all memory at any moment leaves a disk recovery can start from |
| LogMachine.ReadHeadKeepsInv | log.c:84-95 | recovery reading the header keeps the invariant |
| LogMachine.StepKeepsInv | log.c:68-230 | every step of every thread, of commit, of recovery, of the cache, and a crash, keeps the invariant |
| LogMachine.BootedKeepsInv | log.c:53-65 | a disk with a proper header and empty memory satisfy the invariant, so every run from power-up does |
| LogMachine.RunKeepsInv | log.c:68-230 | so every state of every run satisfies it |
| LogMachine.LogWriteIsInvisible | log.c:174-187 | writing a block of an uncommitted transaction into the log does not change what a crash recovers |
| LogMachine.InstallIsInvisible | log.c:68-81 | repeating any installation step does not change what a crash recovers: recovery is idempotent |
| LogMachine.ClearIsInvisible | log.c:189-199 | erasing the header once everything is installed does not change what a crash recovers |
| LogMachine.CommitPoint | log.c:97-112 | right after the header write a crash recovers the whole view the operations had built |
| LogMachine.SettledIsDurable | log.c:144-171 | with no operation outstanding the disk recovers to what the running system sees |
| LogMachine.RecoverableStep | log.c:68-230 | the header write of a commit is the only step that changes what a crash recovers, and then no operation is outstanding |
| LogMachine.HomeWrittenOnlyByInstall | log.c:68-81 | a home sector changes on disk only in install_trans, for a sector the on-disk header names, with no operation outstanding |
| LogMachine.ViewStep | bio.c:61-117 | apart from an operation changing its buffer and a crash, no step changes what the running system sees |
| LogMachine.CrashSafety | log.c:68-230 | over every run with crashes and interrupted recoveries: the disk at k recovers to the state at the last commit point after the settled point i, with no operation in progress, or at i if there was none |
| LogMachine.ReservationHolds | log.c:124-140 | in every reachable state sectors are distinct and fit the header with all unused reservations; on a log of more than LOGSIZE blocks the size test admits every operation with reservation left and nothing overruns |
| LogMachine.FillLog | log.c:210-230 | the run from power-up in which three operations fill m places of the log within their reservations |
| LogMachine.AbsorbedWriteRefused | log.c:215-216 | a run from power-up to a state in which log_write refuses a sector already logged, on any log of two blocks or more |
| LogMachine.NewSectorRefused | log.c:215-216 | on a log of at most LOGSIZE blocks, a run from power-up in which a new sector within the reservation is refused |
| LogMachine.GuardAdmitsIff | log.c:131-216 | operations with reservation left pass the size test in every run from power-up if and only if the log has more than LOGSIZE blocks |
| LogMachine.LogOverruns | log.c:215-227 | on a log of 2 to LOGSIZE blocks, a run from power-up in which a sector that passed the test no longer has a log block |
| LogMachine.OverrunIff | log.c:215-227 | some run from power-up overruns the log if and only if it has 2 to LOGSIZE blocks |
| LogMachine.CommitIsAtomic | log.c:189-199 | at every point of a commit a crash recovers all old before the header write and all new from it on |
| LogMachine.SegmentKeepsRecovered | log.c:114-121 | a stretch of a run without a header write recovers to the same disk throughout |
| LogMachine.SegmentKeepsView | log.c:189-199 | a stretch of a run in which nobody modifies a buffer shows the same file system throughout |
| LogMachine.EmptyHeaderIsRecovered | log.c:114-121 | with an empty header the disk is already what it recovers to |
| Logging.Log.Bread | bio.c:98-107 | the sector is in the cache afterwards, equal to what the machine reads |
| Logging.Log.Bwrite | bio.c:110-117 | one sector write, recorded as one step of the machine |
| Logging.Log.CopyToLogBlock | log.c:179-186 | the log block on disk becomes the cached logged sector |
| Logging.Log.WriteLogBlocks | log.c:174-187 | the loop is a run of the machine that copies every logged sector |
| Logging.Log.FillHeader | log.c:106-109 | the header buffer encodes exactly the logged sectors |
| Logging.Log.WriteHeader | log.c:100-112 | one sector write puts the in-memory header on disk |
| Logging.Log.InstallLogBlock | log.c:73-80 | a home sector becomes its log block |
| Logging.Log.InstallTrans | log.c:68-81 | the loop is a run of the machine that installs every logged sector |
| Logging.Log.LoadHeader | log.c:90-93 | the sector array becomes the header the disk holds |
| Logging.Log.ReadHeader | log.c:84-95 | the in-memory header becomes the on-disk one |
| Logging.Log.RecoverFromLog | log.c:114-121 | afterwards every home sector is what the starting disk stands for and the log is empty; so does every disk on the way recover |
| Logging.Log.Commit | log.c:189-199 | every state on the way recovers to the old home sectors before the header write and to what the operations saw from it on |
| Logging.Log.BeginOp | log.c:124-140 | admits exactly when no commit is under way and a whole reservation fits |
| Logging.Log.LeaveOp | log.c:147-160 | an operation that holds no buffer ends; the caller is told to commit exactly when it was the last outstanding one |
| Logging.Log.FinishOp | log.c:166-169 | admission opens again once the commit is done |
| Logging.Log.EndOp | log.c:144-171 | when the last operation ends, everything the operations saw is on disk in its home sectors and the log is empty; every state on the way recovers to all of it or none |
| Logging.Log.CommitAll | log.c:162-170 | commit, then admission open again: a run with exactly one header write, or none if nothing was logged |
| Logging.Log.LogWrite | log.c:210-230 | fails exactly where the source panics; otherwise the logged sectors gain this one, once, and its buffer is pinned |
| Logging.Log.FindSector | log.c:221-224 | finds the sector in the header, or the end if it is not there |
| Logging.Log.Enter | log.c:220-229 | the sector is entered once, and the step is one of the machine |
| Logging.Log.Store | fs.c:46-48 | bread, a change, log_write and brelse replace one sector in what the running system sees, and commit nothing |
| Logging.GuardAdmits | log.c:215-216 | on a log of more than LOGSIZE blocks, an operation that may log a new sector passes the size test |
| Logging.Log.constructor | log.c:52-65 | memory at power-up over a disk with a proper header |
| Blocks.SetBit | fs.c:64-66 | setting a bit of a block changes that bit only |
| Blocks.SetWord | fs.c:377-380 | storing a word in a block changes that word only |
| FsState.AllocateKeepsOwned | fs.c:52-76 | taking a block the map shows free keeps one owner per block and the map exact |
| FsState.FreeKeepsOwned | fs.c:79-95 | returning a detached block finds its bit set and keeps the map exact |
| FsState.WriteKeepsOwned | fs.c:481-487 | writing file data disturbs neither owners nor map |
| FsState.LinkAddr | fs.c:364-374 | an inode address taking a fresh block keeps one owner per block |
| FsState.LinkEntry | fs.c:375-381 | an indirect entry taking a fresh block keeps one owner per block |
| FsState.DetachKeepsOwned | fs.c:393-421 | slots on their way out keep their blocks apart from all others |
| FsState.ClearAddrKeepsOwned | fs.c:400-417 | zeroing an address whose blocks are free settles the account |
| FsState.SlotsDisjoint | fs.c:52-95 | two different slots of any inodes never hold the same block |
| FsState.MapIsExact | fs.c:52-95 | the free map marks exactly the reserved blocks and those some slot holds |
| FsState.DenseGrows | fs.c:358-386 | bmap inside or just past the end of a file without holes leaves it without holes |
| FsState.DataWrite | fs.c:481-487 | the block that holds part of a file belongs to that place alone, is no inode or map block, and storing data in it keeps one owner per block and the map exact |
| FsState.DataWriteRefs | fs.c:481-487 | no address of any file changes by it |
| FsState.DinodeRoundTrip | fs.c:201-217 | reading an inode back gives what iupdate stored, and its neighbours as they were |
| FsFormat.InodeAddress | fs.h:36-40 | inode i begins at disk byte 1024 + 64 i, for every i |
| FsFormat.InodePlace | fs.h:26-34 | its type, major, minor, link count, size and thirteen addresses are the little-endian shorts and words from there on |
| FsFormat.StoredBytes | fs.c:201-217 | iupdate changes no byte of the disk outside those 64 |
| FsFormat.MapPlace | fs.h:42-46 | the bit of block b is bit b mod 8 of the byte b / 8 places into block ninodes / 8 + 3 |
| FsFormat.PartsInOrder | fs.h:4-9 | inode blocks lie from block 2 on and below every map block |
| FsFormat.WriteAboveSuper | fs.c:464-494 | no sector writei logs is the boot block, the super block or past the end |
| FsFormat.TruncAboveSuper | fs.c:393-421 | nor is any that itrunc logs |
| FsFormat.BlockPlace | fs.c:358-386 | block n of a file is the address in its inode, or entry n - 12 of the block the thirteenth names |
| FsFormat.ContentOnDisk | fs.h:4-34 | the size and every byte of a file are what a reader of the raw disk finds by that format |
| FsWrite.ProgressStep | fs.c:481-487 | one round of writei extends the part of src that is in the file |
| FsWrite.WrittenContent | fs.c:464-494 | the file is the old byte sequence with src spliced in at off |
| FsWrite.OtherContent | fs.c:464-494 | every other file keeps its bytes |
| FsWrite.WriteFinishes | fs.c:464-494 | splice here, nothing elsewhere, no holes, and every stored inode equal to the one in memory |
| FsWrite.SpliceBytes | fs.c:481-487 | byte for byte what splicing means: src from off on, the old contents elsewhere |
| FsTrunc.DropDirect | fs.c:400-405 | a direct block is freed without meeting a free bit, and its address cleared |
| FsTrunc.LooseBlocks | fs.c:407-417 | the blocks under the indirect address are the indirect block and its non-zero entries |
| FsTrunc.EntriesDiffer | fs.c:407-417 | and they are all different, so none is freed twice |
| FsTrunc.TruncFinishes | fs.c:393-421 | the file is empty, every other file as it was, the map exact |
| FsTrunc.EmptiedKeeps | fs.c:418-420 | type, device numbers and link count of an emptied inode are as before |
| Inodes.FileSystem.FindFree | fs.c:61-75 | the lowest free block, or none exactly when the disk is full |
| Inodes.FileSystem.Balloc | fs.c:37-76 | that block is marked used and zeroed, and nothing else changes; log_write gets its map block and itself |
| Inodes.FileSystem.Bfree | fs.c:79-95 | panics exactly when the bit is clear; otherwise clears it, logs the map block, and changes nothing else |
| Inodes.FileSystem.BmapDirect | fs.c:364-368 | the block of the file, allocated if absent, for blocks an inode names itself |
| Inodes.FileSystem.BmapIndirect | fs.c:369-383 | the same through the indirect block, which is allocated on the way if absent |
| Inodes.FileSystem.Bmap | fs.c:358-386 | the block of the file, never zero; no other address of any file changes, no data moves, one owner per block; logs exactly the new blocks, their map blocks and the indirect block if it gains an entry |
| Inodes.FileSystem.Iupdate | fs.c:201-217 | the stored inode becomes the one in memory and no other; FsFormat says at which bytes of the disk |
| Inodes.FileSystem.WriteRound | fs.c:481-487 | one round of writei: at least one more byte of src is in the file |
| Inodes.FileSystem.Writei | fs.c:464-494 | refused exactly for an offset past the end or a result past MAXFILE; accepted writes splice src in, touch no other file and store the inode; panics only on a full disk for a growing file; the log_writes replay the change and are of exactly the sectors WriteiLogs names |
| Inodes.FileSystem.Readi | fs.c:436-460 | the slice of the file cut off at its end, with no block allocated and nothing changed |
| Inodes.WrittenIsRead | fs.c:436-494 | a read of the range of a write returns what was written |
| Inodes.FileSystem.TruncDirect | fs.c:400-405 | all direct addresses cleared, their blocks free, "freeing free block" never met |
| Inodes.FileSystem.TruncEntries | fs.c:407-414 | all blocks of the indirect entries free, each once |
| Inodes.FileSystem.Itrunc | fs.c:393-421 | the file is empty, every other file keeps its bytes, the map is exact, no panic; the log_writes replay the change and are of map blocks and the inode |
| Inodes.FileSystem.LogWrite | log.c:210-230 | one block changes, and the buffer is the latest in the record of log_writes |
| Inodes.FileSystem.TruncIndirect | fs.c:407-417 | the indirect block and all its entries are free and the address is cleared |
| FsLogged.RecordedOnly | fs.c:358-494 | a recorded change touches only sectors that were handed to log_write |
| FsLogged.AllocLogs | fs.c:37-76 | balloc for a slot of a file logs the new block, its map block, and the indirect block if the slot is there |
| FsLogged.RoundLogs | fs.c:481-487 | one round of writei adds exactly its data block and what bmap logged |
| FsCount.CoverCount | fs.c:464-494 | a stretch of a file without holes lies on exactly as many blocks |
| FsCount.NewBlocks | fs.c:358-386 | the blocks a write allocates are those past the old end, and the indirect block if the file first reaches it |
| FsCount.CountLogged | fs.c:464-494 | with a one-block map, a write logs exactly the blocks it touches, the map block if one is new, the indirect block if it gains an entry, and the inode if the file grows |
| FileWrite.ChunkBound | file.c:126-144 | a chunk of filewrite logs at most 17 sectors by that count |
| FileWrite.InsideCount | file.c:126-144 | a write inside the file logs the blocks it touches, so it stays within MAXOPBLOCKS if and only if they are at most 10 |
| FileWrite.FullChunkExceeds | file.c:126-132 | a full chunk always logs more than MAXOPBLOCKS |
| FileWrite.FullChunkMost | file.c:126-132 | it logs 17 sectors if and only if it starts inside a block and ends past the old end in the indirect blocks |
| FileWrite.ChunkLogged | file.c:134-143 | what writei logs for a chunk is that count, from the state before it |
| FsExample.ChunkLogsMost | file.c:126-144 | a write to a new disk whose transaction logs 17 sectors |
| FsExample.NeverFull | fs.c:37-76 | a disk of 200 blocks with one inode always has a free block |
| FileWrite.ChunkFitsLog | log.c:215-216 | such a transaction alone in the log never meets the size panic, also with the log size mkfs writes |
| FileWrite.SpliceTwice | file.c:134-151 | two adjacent splices are one |
| FileWrite.EffectCompose | file.c:134-151 | two chunks back to back have the effect of one write |
| FileWrite.WriteChunk | file.c:134-149 | one round: the next chunk is spliced in, or refused exactly for an offset past the end or a result past the maximum, or the disk is full |
| FileWrite.FailsThere | file.c:134-151 | the chunk that is refused is the first that does not fit, from offset, size and maximum alone |
| FileWrite.Filewrite | file.c:117-155 | succeeds exactly when the offset is within the file and the result fits, and then all of addr is spliced in; otherwise exactly the leading chunks that fit are; panics only on a full disk for a growing file; every transaction logs exactly as many sectors as the sizes say |
| Directory.SameName | fs.c:499-503 | names are equal exactly when their first 14 bytes up to a NUL are |
| Directory.KeysAgree | fs.c:499-503 | a name of at most 14 bytes is its own key, and longer ones agree exactly if their first 14 bytes do |
| Directory.FieldNameIs | fs.c:499-503 | the name in an entry is all of the field before its first NUL |
| Directory.EntryPlace | fs.h:48-54 | entry k is the inode number in two bytes and the name in fourteen, from byte 16 k on |
| Directory.EntryWritten | fs.c:555-558 | writing an entry replaces that entry of the directory and no other |
| Directory.LinkAdds | fs.c:535-561 | filling an unused entry with a name not there adds exactly that binding |
| Directory.UnlinkRemoves | sysfile.c:204-217 | zeroing the entry dirlookup found removes exactly that binding |
| Directory.ReadEntry | fs.c:517-518 | reads exactly the entry at the offset |
| Directory.Dirlookup | fs.c:507-531 | the binding of the name, with the place of its entry; none exactly when the map has none |
| Directory.FindEmpty | fs.c:547-553 | the first unused entry, or the end of the directory |
| Directory.Dirlink | fs.c:535-561 | -1 and no change exactly when the name is bound; otherwise the map gains that one binding, or it panics, only with no unused entry and the directory at its limit or the disk full |
| Directory.LinkZeroAddsNothing | fs.c:535-561 | an inode number that is zero in 16 bits leaves the map unchanged |
| Directory.ClearEntry | sysfile.c:215-217 | it succeeds, and the map loses exactly the binding of that entry |
| CrashFiles.SameHomeSameFiles | fs.h:4-9 | disks that agree outside the log area hold the same files, with the same owners and the same exact free map |
| CrashFiles.FilesSurviveCrash | log.c:8-21 | if the settled point and the view at each commit after it are proper file systems, recovery after any crash yields one, with every file as at the last of those commits |
| Transactions.CanEnter | log.c:215-216 | an operation alone in the log passes the size test for every sector of a change that fits |
| Transactions.Push | log.c:210-230 | the log_writes of an operation go through the log one by one, and the running system sees them all |
| Transactions.Finish | log.c:144-171 | from begin_op to the end of end_op every state recovers to the blocks before or to all the changes |
| Transactions.FilesOnDisk | fs.h:4-9 | a disk that agrees outside the log with a proper file system in memory holds its files |
| Transactions.FilesAreBytes | fs.h:4-34 | such a disk, read byte by byte in the format of fs.h, holds those files |
| Transactions.HeaderPlace | log.c:22-36 | the header block is a count and that many sector numbers, as little-endian words |
| Transactions.WriteHomes | fs.c:464-494 | what writei logs lies on the disk outside the log area |
| Transactions.WriteCall | file.c:138-143 | begin_op, writei, end_op: every state recovers to a proper file system with all files as before, or with src spliced in and every other file as before; after end_op to the latter; the boot and super blocks stay; a panic leaves the former |
| Transactions.TruncHomes | fs.c:393-421 | itrunc logs at most the map block and the inode, outside the log area |
| Transactions.TruncCall | fs.c:317-332 | begin_op, itrunc, end_op: every state recovers to the files before, or to those with this one empty; the boot and super blocks stay |
| Transactions.ChunkCall | file.c:134-149 | one round of filewrite as a transaction |
| Transactions.FilewriteCall | file.c:117-155 | every state of a long write recovers to a proper file system with some leading chunks written and nothing else changed; success, failure, the part written on failure and panic as for filewrite |
| Transactions.Boot | log.c:53-65 | from any disk that recovers to given files, power-up ends with those files mounted, and so it does if recovery is interrupted anywhere |
| FsExample.FreshDisk | mkfs.c:17 | a new disk with an empty log of LOGSIZE blocks recovers to its one empty file |
| FsExample.FreshBoot | log.c:53-65 | so a running system to which all of this applies exists |
| BufferCache.UnlinkWorks | bio.c:129-130 | taking a buffer out leaves a doubly linked ring of the others in the same order |
| BufferCache.PushFrontWorks | bio.c:131-134 | putting it in after the head makes it the first of the ring |
| BufferCache.OneBufferChanges | bio.c:98-117 | changing the data or flags of one buffer keeps one buffer per sector, and coherence if that buffer is coherent; the contents change at its sector only |
| BufferCache.RecycleKeepsContents | bio.c:82-93 | giving a clean idle buffer to another sector loses nothing the cache stands for |
| BufferCache.SyncKeepsContents | bio.c:98-117 | reading a sector in, or writing it out, changes nothing the cache stands for |
| BufferCache.LinksKeepContents | bio.c:121-140 | the list plays no part in what the cache stands for |
| BufferCache.StillSorted | bio.c:121-140 | the ring stays ordered by time of last release |
| BufferCache.Cache.constructor | bio.c:38-56 | all NBUF buffers are on one well-formed ring |
| BufferCache.Cache.FindSector | bio.c:69-80 | finds the buffer for the sector if there is one |
| BufferCache.Cache.FindVictim | bio.c:82-93 | finds the least recently released buffer that is clean and idle |
| BufferCache.Cache.Bget | bio.c:61-95 | a busy buffer for the sector, no other buffer for it, and unchanged contents of the cache |
| BufferCache.Cache.Bread | bio.c:98-107 | the buffer returned holds the latest contents of the sector |
| BufferCache.Cache.Modify | bio.c:98-107 | the holder of a buffer changes what the cache stands for at that sector only |
| BufferCache.Cache.Pin | log.c:228 | a dirty buffer is not recycled |
| BufferCache.Cache.Bwrite | bio.c:110-117 | panics exactly for a buffer not held; otherwise disk and buffer agree |
| BufferCache.Cache.Brelse | bio.c:121-140 | panics exactly for a buffer not held; otherwise it becomes the most recently released and coherence holds |
| BufferCache.Cache.MoveToFront | bio.c:129-134 | the pointer assignments move one buffer to the front of the ring |
| DiskQueue.SyncIsMemIde | memide.c:36-58 | on requests memide accepts, the synchronous transfer is its iderw |
| DiskQueue.RegistersSelect | ide.c:76-81 | the bytes written to the drive registers select that sector of that drive |
| DiskQueue.WrittenIsRead | memide.c:36-58 | a read of an address after a write to it returns what was written, and no other address changes |
| DiskQueue.StepKeepsInv | ide.c:92-155 | requests, drive activity and interrupts keep the queue duplicate-free, with the drive working on its head |
| DiskQueue.StepSimulates | ide.c:92-119 | an interrupt is the synchronous transfer of the head of the queue; nothing else shows |
| DiskQueue.RunSimulates | ide.c:92-155 | every interleaving is a run of the synchronous disk performing the transfers in the order reported |
| DiskQueue.FirstInFirstOut | ide.c:139-143 | requests are transferred in the order submitted, each once, and those queued are the rest |
| DiskQueue.WaitEndsOnCompletion | ide.c:149-152 | a queued request is pending; after any step it is still queued exactly if it is still pending, and it leaves the queue exactly when an interrupt completes it at the head |
| DiskQueue.QueueMoves | ide.c:90-119 | with a request queued, the drive or an interrupt can take the next step |
| DiskQueue.AppendChain | ide.c:139-143 | linking a request after the last one keeps one acyclic chain |
| DiskQueue.Ide.FindLast | ide.c:141-142 | the end of the chain |
| DiskQueue.Ide.Iderw | ide.c:125-155 | refused exactly where the source panics; otherwise the request is queued last and the drive started if it was the only one |
| DiskQueue.Ide.Ideintr | ide.c:90-119 | the head is transferred as the synchronous disk would, leaves the queue, and the next is started |
| Umalloc.SplitBlock | umalloc.c:78-82 | cutting a block in two keeps the tiling of memory into blocks |
| Umalloc.MergeBlocks | umalloc.c:33-41 | joining neighbours keeps the tiling |
| Umalloc.InsertBlock | umalloc.c:36-42 | a block freed between non-adjacent neighbours joins the ring in address order |
| Umalloc.InsertAbsorbing | umalloc.c:33-35 | a block freed next to its right neighbour takes it over |
| Umalloc.MergeLeft | umalloc.c:38-40 | a block freed next to its left neighbour is taken over by it |
| Umalloc.TakeWhole | umalloc.c:76-77 | an exact fit leaves the ring, which stays ordered and linked |
| Umalloc.TakeTail | umalloc.c:78-82 | a larger block gives up its upper end and stays in the ring |
| Umalloc.AddCore | umalloc.c:46-61 | memory from sbrk becomes one more live block of the heap |
| Umalloc.UnitsHoldBytes | umalloc.c:69 | a block of the units asked for holds nbytes if and only if nbytes is below 2^32 - 7 |
| Umalloc.LargestRequestIsEmpty | umalloc.c:69 | the largest request gets a header and no bytes |
| Umalloc.CoreIsLeast | umalloc.c:51-53 | morecore asks for what is needed or 4096 units, whichever is more |
| Umalloc.SbrkAsksForCore | umalloc.c:52-54 | sbrk is asked for the memory used if and only if the request is at most 2^31 - 16 bytes or so large that rounding it up wraps |
| Umalloc.UnitsAddUp | umalloc.c:24-90 | free units plus live units are the units obtained from sbrk |
| Umalloc.FreeBlocksAreMaximal | umalloc.c:33-42 | no two free blocks are adjacent: each is a maximal run of free units |
| Umalloc.Heap.constructor | umalloc.c:70-73 | the empty heap |
| Umalloc.Heap.FindPlace | umalloc.c:30-32 | the search ends at the free block after which the address belongs |
| Umalloc.Heap.JoinRight | umalloc.c:33-37 | the freed block has taken over its right neighbour if they touch |
| Umalloc.Heap.JoinLeft | umalloc.c:38-43 | and its left neighbour has taken it over if they touch |
| Umalloc.Heap.Free | umalloc.c:24-44 | the heap invariant holds, exactly that block is no longer live, and no unit changes hands besides |
| Umalloc.Heap.Morecore | umalloc.c:46-61 | after a successful sbrk some free block fits the request, merged or not |
| Umalloc.Heap.Malloc | umalloc.c:63-90 | morecore is called exactly if no free block fits, and once; otherwise the block comes from the upper end of the first that fits after freep; a non-null result is a new live block of the units asked for, disjoint from all others, the heap invariant kept |
| Umalloc.Heap.Take | umalloc.c:75-84 | the block found goes to the caller, whole or its upper end, and the next search starts before it |
| Pipes.FullTest | pipe.c:84 | the two tests on the wrapped counters mean 512 and 0 bytes pending |
| Pipes.WrapIsHarmless | pipe.c:92 | the counters wrap at 2^32 without disturbing positions in the ring, because 512 divides 2^32 |
| Pipes.StoreAppends | pipe.c:92 | storing a byte appends it to the pending bytes |
| Pipes.TakeRemoves | pipe.c:118 | taking a byte removes the oldest pending one |
| Pipes.Pipe.constructor | pipe.c:32-35 | a new pipe is empty with both ends open |
| Pipes.Pipe.Store | pipe.c:83-93 | appends bytes up to the end of the request or a full buffer |
| Pipes.Pipe.Take | pipe.c:115-120 | takes the oldest bytes, as many as asked for or there are |
| SleepWakeup.ProcTable.Wakeup1 | proc.c:504-532 | exactly the threads asleep on the channel in processes that are ready become runnable |
| SleepWakeup.ProcTable.WakeProc | proc.c:519-527 | the same for the threads of one process |
| SleepWakeup.WriteKeepsInv | pipe.c:77-99 | every test and byte of pipewrite keeps the invariant: a wakeup of the readers is owed while it holds the lock |
| SleepWakeup.ReadTestKeepsInv | pipe.c:107-113 | the waiting loop of piperead keeps it |
| SleepWakeup.ReadCopyKeepsInv | pipe.c:115-122 | the copying loop of piperead keeps it, owing a wakeup to the writers |
| SleepWakeup.CloseKeepsInv | pipe.c:58-74 | pipeclose keeps it |
| SleepWakeup.KillKeepsInv | proc.c:550-571 | killing a process at any moment keeps it |
| SleepWakeup.KillWakes | proc.c:550-571 | kill marks its thread and ends its sleep, and changes nothing else |
| SleepWakeup.KilledGivesUp | pipe.c:84-111 | a killed thread that would have to wait returns -1 instead |
| SleepWakeup.WakeKeepsInv | proc.c:504-544 | wakeup pays what is owed: no ready thread stays asleep on the channel |
| SleepWakeup.SleepKeepsInv | proc.c:457-499 | each step of sleep keeps it: the process table lock is taken before the pipe lock is released |
| SleepWakeup.StepKeepsInv | pipe.c:58-125 | every step of any number of threads keeps the invariant |
| SleepWakeup.RunKeepsInv | pipe.c:58-125 | so does every run |
| SleepWakeup.FirstInFirstOut | pipe.c:77-125 | over every interleaving, bytes delivered followed by bytes pending are the bytes stored, at most 512 pending, for unbounded traffic; PipeStream says whose bytes they are |
| SleepWakeup.ReadIsContiguous | pipe.c:101-125 | one piperead returns an unbroken stretch of the stream |
| PipeStream.StepSays | pipe.c:77-99 | a step stores at most one byte, the next one of the source of the write whose step it is |
| PipeStream.Interleaving | pipe.c:77-99 | over every run the stream is an interleaving of the sources of the pipewrite calls: each thread stored, in order, the part of each source its call got to, all of it if the call succeeded and not all if it returned -1 |
| PipeStream.OneWriter | pipe.c:77-99 | with one writer whose writes have succeeded, what went in is a prefix of its sources put together |
| PipeStream.ReadsAreDelivered | pipe.c:101-125 | every byte taken out is returned by exactly one piperead, in order |
| PipeStream.WrittenIsRead | pipe.c:77-125 | from one writer to any readers: the reads return a prefix of what the writes were called with |
| PipeStream.ReadReturns | pipe.c:107-124 | a piperead that succeeds has all it asked for or has emptied the pipe, and has nothing only if the write end is closed |
| PipeStream.StepEnds | pipe.c:58-74 | an end stays closed, and only a close of it closes it |
| PipeStream.ClosedStaysClosed | pipe.c:58-74 | once a close has returned, its end is closed for good |
| PipeStream.ReaderSeesEnd | pipe.c:107-124 | after a close of the write end has returned, a reader that finds the pipe empty does not sleep and is done with nothing |
| PipeStream.OpenUntilClosed | pipe.c:58-74 | the write end is open until someone is called to close it |
| SleepWakeup.NoLostWakeup | pipe.c:58-125 | with the lock free, a ready writer asleep or committed to it faces a full buffer with the read end open, and a reader an empty one with the write end open, unless a writer has left a full buffer without a wakeup; that needs the read end closed or a process killed |
| SleepWakeup.NoDeadlock | pipe.c:58-125 | a reader and a writer of ready processes never sleep on one pipe together, with kills and at any state of the locks |
| SleepWakeup.NoStandstill | pipe.c:58-125 | whenever a thread is inside an operation and not asleep, some thread can take its next step |
| SleepWakeup.StepKeepsNotBoth | pipe.c:77-125 | no step puts a reader to sleep beside a sleeping writer or the other way round |
| SleepWakeup.ReaderLeftAsleep | pipe.c:85-88 | a run to a state with a ready reader asleep on a non-empty pipe, after a writer has left the full buffer |
| PageTable.EntryWhole | mmu.h:144-145 | a present entry is its frame and flags put together |
| PageTable.Untouched | vm.c:46-66 | an address space depends on its directory and tables only |
| PageTable.TableAdded | vm.c:56-64 | a zeroed page table in an empty slot changes no translation and has one owner |
| PageTable.EntryWritten | vm.c:84 | writing one entry changes the translation of that page only |
| PageTable.PageAdded | vm.c:80-84 | mapping a fresh frame keeps one owner per frame |
| PageTable.PageRemoved | vm.c:264-271 | unmapping a page gives up exactly its frame |
| PageTable.EntryRetained | vm.c:305 | changing flags keeps the owners |
| Mmu.WalkIs | mmu.h:105-144 | the hardware walk from a linear address, with the rights both entries leave, is given by the entry of the page alone |
| Mmu.SameEntriesSameAccess | mmu.h:105-144 | if no entry of a page changes, neither does any access, where it goes or what it may do |
| Vm.RoundUpIsLeast | mmu.h:129-130 | PGROUNDUP gives the least number of pages |
| Vm.PopKeepsFree | kalloc.c:89-91 | the list threaded through the free pages stays a list without its head |
| Vm.PushKeepsFree | kalloc.c:67-74 | and with a new head |
| Vm.Kernel.Kalloc | kalloc.c:82-95 | the first free frame, or null exactly when there is none |
| Vm.Kernel.Kfree | kalloc.c:59-77 | panics exactly for an unaligned address or one outside the managed memory; otherwise the frame is first on the list |
| Vm.Kernel.Freerange | kalloc.c:45-52 | every whole page of the range is put on the list, once |
| Vm.Kernel.Walkpgdir | vm.c:46-66 | the entry for the page; no access of any address changes, in place or rights; null exactly for an absent table that may not or cannot be allocated; one frame is taken exactly for a new table |
| Vm.Kernel.MapOne | vm.c:79-84 | one page mapped, panic exactly on a page present, failure only with no frame left; one frame is taken exactly for a new table |
| Vm.Kernel.Mappages | vm.c:71-91 | the run of pages is mapped in order and nothing else changes; on failure a leading part is, with no frame left for a new table; exactly the frames of the new tables are taken |
| Vm.Kernel.MapKernel | vm.c:140-143 | one entry of kmap is mapped; no page is mapped twice |
| Vm.Kernel.Setupkvm | vm.c:116-145 | null exactly with fewer than 65 free frames; otherwise exactly 65 are taken, every linear address goes where the memory layout says with the rights it says, none for user mode, and the space owns exactly the frames taken |
| Vm.KernelWalk | vm.c:98-126 | the kernel half on every linear address: I/O space, read-only text, data and memory, devices, nothing else |
| Vm.KernelTotal | vm.c:116-126 | the tables of the four kmap entries are 64 in all |
| Vm.KernelMapNext | vm.c:116-126 | the four entries of kmap are disjoint and add up to the kernel half |
| Vm.Kernel.ReleasePage | vm.c:264-271 | the frame of the page goes to the free list and leaves the space |
| Vm.Kernel.Deallocuvm | vm.c:250-274 | the pages of the range are unmapped and their frames freed, each once, except those stepped over; nothing else changes |
| Vm.DeallocuvmEmpties | vm.c:259-272 | the range is emptied if and only if no page of it is stepped over |
| Vm.NothingSkipped | vm.c:259-272 | none is, if the walk starts at a table boundary or in a table that is present |
| Vm.DeallocuvmCanSkip | vm.c:262-263 | an address space in which a page is stepped over |
| Vm.DeallocuvmSkips | vm.c:259-263 | from boot, setupkvm, allocuvm and one call: deallocuvm returns and a page of the range is still mapped |
| Vm.NoUserPages | vm.c:285 | after deallocuvm from KERNBASE to 0 no user page is left |
| Vm.Kernel.FreeTables | vm.c:286-291 | every page table frame is freed, once |
| Vm.Kernel.Freevm | vm.c:276-293 | panics exactly on null; otherwise the frames of the space go to the free list, each exactly once, and no other frame is written |
| Vm.Kernel.Clearpteu | vm.c:295-306 | panics exactly for an absent table; otherwise user mode loses that page and no other access changes |
| Vm.Kernel.CopyPage | vm.c:320-332 | one page of the parent is in the child with its flags and contents |
| Vm.Kernel.Copyuvm | vm.c:308-338 | every address below sz reaches in the child, with the parent's rights, a page with the parent's contents on a frame that is none of the parent's, and every other address what setupkvm gives; the parent is untouched; the child owns exactly the frames taken, whose number is known beforehand; it fails only with fewer than those free, and then all but what is named are back |
| Vm.Kernel.AllocPage | vm.c:233-242 | one more zeroed page, or the frame is lost for want of a page table |
| Vm.Kernel.Allocuvm | vm.c:219-244 | with the pages and their absent tables counted beforehand: user mode reads and writes zeros at every address of the new pages, which are owned, if and only if that many frames are free; the last page alone is missing if and only if it needs a new table and one frame is wanting; otherwise 0, the old translation restored and every frame accounted for; no other access changes |
| Vm.TallySettles | vm.c:219-244 | the frames left after each page decide which of the three outcomes it is |
| Vm.AllocuvmLosesPage | vm.c:233-242 | from boot, setupkvm and one call: allocuvm returns the new size and the page is not mapped |
| Vm.AllocUndone | vm.c:235-239 | undoing a failed growth removes what was mapped and nothing else |
| ShellGrammar.Gettoken | sh.c:266-309 | a word token is a maximal non-empty run of word characters, and every token but the end is read past |
| ShellGrammar.ParseRedirs | sh.c:375-398 | redirections wrap the command in order, with valid file words and modes; it terminates by unread length |
| ShellGrammar.ParseArgs | sh.c:430-446 | a simple command never has more than 9 arguments, all of them words of the line; which ones, and in which order, ShellSpelling says |
| ShellGrammar.ParseExec | sh.c:416-447 | every tree it builds is well formed in the line |
| ShellGrammar.ParseBlock | sh.c:400-414 | every tree it builds is well formed in the line |
| ShellGrammar.ParsePipe | sh.c:362-373 | every tree it builds is well formed in the line |
| ShellGrammar.ParseLine | sh.c:345-360 | every tree it builds is well formed in the line |
| ShellGrammar.ParseCmd | sh.c:328-343 | an accepted line is used up and its tree well formed |
| ShellPrint.TextValid | sh.c:416-447 | the tree of an accepted line has proper words and at most 9 arguments to a command |
| ShellPrint.ReadWord | sh.c:296-300 | a word in place is read as that token |
| ShellPrint.ReadRedir | sh.c:381-396 | a redirection in place is read as that redirection |
| ShellPrint.ReadSimple | sh.c:416-447 | a printed simple command with its redirections is read back |
| ShellPrint.ReadExec | sh.c:416-447 | any printed tree at the level of parseexec is read back |
| ShellPrint.ReadBlock | sh.c:400-414 | a tree in parentheses is read back |
| ShellPrint.ReadPipe | sh.c:362-373 | any printed tree at the level of parsepipe is read back |
| ShellPrint.ReadBack | sh.c:350-354 | any printed operand of & and ; is read back |
| ShellPrint.ReadLine | sh.c:345-360 | any printed tree at the level of parseline is read back |
| ShellPrint.RoundTrip | sh.c:328-343 | every tree with proper words and at most 9 arguments is what parsing its printed form gives |
| ShellPrint.AcceptedLineReprints | sh.c:328-343 | every accepted line has the tree of its reprinted form |
| ShellSpelling.SpelledTokens | sh.c:262-309 | the tokens of a line are the words and symbols its characters spell, with any white space between |
| ShellSpelling.WrapAddArg | sh.c:436-443 | an argument goes after the earlier ones, whatever redirections came before it |
| ShellSpelling.ExecSound | sh.c:400-447 | what parseexec accepts are arguments and redirections in any order, or a command in parentheses, and its answer has them in that order |
| ShellSpelling.ExecComplete | sh.c:400-447 | and it accepts all of them |
| ShellSpelling.LineSound | sh.c:345-373 | what parseline accepts spells its answer |
| ShellSpelling.LineComplete | sh.c:345-373 | and it accepts all that spells a command |
| ShellSpelling.ParsesMeaning | sh.c:328-343 | parsecmd accepts a line with a tree if and only if the line spells that tree, in a grammar stated on words and symbols |
| ShellSpelling.OneMeaning | sh.c:328-343 | no line spells two commands |
| Shell.TokenAdvances | sh.c:266-309 | a token that was peeked at is read past, so every parse ends |
| Shell.Parser.Gettoken | sh.c:266-309 | the loops compute the token and leave the cursor after the white space that follows |
| Shell.Parser.Peek | sh.c:311-321 | the answer, and the cursor at the next character that is not white space |
| Shell.Parser.ParseRedirs | sh.c:375-398 | the loop computes ShellGrammar.ParseRedirs |
| Shell.Parser.ParseArgs | sh.c:430-446 | the loop computes ShellGrammar.ParseArgs |
| Shell.Parser.ParseExec | sh.c:416-447 | computes ShellGrammar.ParseExec, panics included |
| Shell.Parser.ParseBlock | sh.c:400-414 | computes ShellGrammar.ParseBlock, panics included |
| Shell.Parser.ParsePipe | sh.c:362-373 | computes ShellGrammar.ParsePipe |
| Shell.Parser.ParseBacks | sh.c:351-354 | the loop computes ShellGrammar.ParseBacks |
| Shell.Parser.ParseLine | sh.c:345-360 | computes ShellGrammar.ParseLine |
| Shell.NulTerminate | sh.c:449-494 | NULs are written at the ends of the words of the tree and nowhere else |
| Shell.EndsOutsideWords | sh.c:449-494 | no NUL is written inside a word |
| Shell.TreeSeen | sh.c:449-494 | each argument and file name, as the C string at its start pointer, is exactly its token |
| Shell.ParseCmd | sh.c:328-343 | the buffer of an accepted line shows runcmd the command the line spells; a panic leaves it alone, and the line spells none |
| Shell.PrintedCommandRuns | sh.c:328-343 | from a tree, through its printed form, to the C strings runcmd works from: the same tree |
| Grep.Match | grep.c:71-81 | true if and only if the pattern occurs in the text, anchored where ^ and $ say; what a pattern means is said by the lemmas on its text below |
| Grep.MatchHere | grep.c:83-95 | true if and only if it occurs at this place |
| Grep.MatchStar | grep.c:97-105 | true if and only if a run of the closed character and then the rest occur at this place |
| Grep.StarUnfolds | grep.c:97-105 | a closure occurs exactly where the rest occurs after some run of its character |
| Grep.SingleUnfolds | grep.c:92-93 | a literal or a dot consumes one character |
| Grep.ReadsBack | grep.c:83-95 | a pattern printed from literals, dots, closures and a final anchor is read as those |
| Grep.ShowsBack | grep.c:83-95 | every pattern string is the print of such items |
| Grep.OnePattern | grep.c:83-95 | and of only one sequence of them |
| Grep.PlainPattern | grep.c:71-95 | a pattern of characters and dots is found exactly where its characters stand in the text, a dot for any |
| Grep.AnchoredPattern | grep.c:74-75 | after ^ exactly at the start |
| Grep.ClosedLine | grep.c:83-105 | a closure between ^ and $ matches exactly the lines of that character |

## Left out

- LogMachine: a run ends where `log_write` overruns the log (LogMachine.Overruns); what is on disk after that is not modelled.
- LogMachine: an operation logs a new sector within its reservation of MAXOPBLOCKS or in room no reservation claims; the code relies on this and does not check it.
- LogMachine: a buffer that an operation has changed goes to `log_write` before `brelse`, as all of `fs.c` does; the code does not check it.
- LogMachine.FillLog: the runs that show a refusal or an overrun are stated for a log that starts at block 30 or later, as it does on every disk `mkfs` makes.
- Transactions: one operation at a time; concurrent ones are in `LogMachine.dfy` and `CrashFiles.dfy`, where that they leave a proper file system at each commit is a hypothesis. The buffers pass to the log in the order of the log_writes, after the change was computed.
- Transactions.WriteCall: stated for a one-block free map, which holds for disks up to 4096 blocks, and for a change that fits the log by itself.
- Transactions.FilewriteCall: stated for a one-block free map and a log of more than 18 blocks; the log `mkfs` makes has 30.
- FsCount.CountLogged: stated for a one-block free map.
- One sector write is atomic, and a crash is a stop between two of them that loses all memory.
- A panic is an outcome after which nothing runs; what it prints is not modelled.
- `log.c`, `bio.c`, `kalloc.c`, `umalloc.c`: spin locks are taken as atomic steps; sleeping in `begin_op` and `bget` is the outcome that the caller tries again.
- LogMachine: the number of buffers (NBUF) is not bounded there; `BufferCache.dfy` has it, with the outcome that no buffer is free.
- Inodes: the in-memory inode cache (`iget`, `ilock`, `iput`), `ialloc` and reading the super block are not modelled; every inode is in memory, and the super block is a constant.
- Inodes: the blocks of metadata and of the log are taken to be marked used; this is about the initial image, which `mkfs.c` makes.
- Directory: `namex`, link counts and `isdirempty` are not modelled; entries are added and removed as maps.
- Umalloc: memory from `sbrk` is taken to lie above the static header `base` and to be fresh.
- SleepWakeup: a process does not change between ready and not ready, and the pipe is not freed; the moments a woken thread spends holding the process table lock are part of its waking.
- SleepWakeup.NoLostWakeup: says nothing of readers while a writer has left a full buffer and nobody woke them since, because it fails then (SleepWakeup.ReaderLeftAsleep).
- Vm: the start of writable kernel data is a page boundary between KERNLINK and PHYSTOP, as `kernel.ld` places it; translation buffers and the hardware's own accesses are not modelled.
- Vm.Kernel.Setupkvm: on failure all free frames are taken and lost, as in the code.
- Vm.Kernel.Allocuvm: stated for a process with no page mapped above its size, as its callers keep it.
- Vm.Kernel.Freerange: stated for ranges between the end of the kernel and PHYSTOP, as `kinit1` and `kinit2` pass them; elsewhere `kfree` panics (Vm.Kernel.Kfree).
- Vm.Kernel.Mappages: stated for a non-empty range that does not wrap around the address space and a page-aligned physical address, as all callers pass; with size 0 the loop of the code would run on.
- Vm.Kernel.Deallocuvm: stated for sizes up to KERNBASE; beyond it the code would free frames the kernel half maps but the space does not own.
- Vm.Kernel.Copyuvm: stated for sizes up to KERNBASE, the largest a process can have.
- Vm: `inituvm`, `loaduvm`, `uva2ka` and `copyout` would only add easy members.
- Shell: `argv` under redirections already wrapped around it is updated through the tree, not through a second pointer to the same node; `runcmd`, the built-in `cd` and reading a line are system calls.
- Grep: the buffering loop of `grep` depends on `read` and on a buffer without a final NUL.
- `exec.c`, `kthread.c`, process creation, exit and wait, the scheduler, traps and system call entry are not modelled.
- Device drivers other than the disk queue, boot code, `mkfs.c` and the remaining user programs are not modelled.
- `hoare_*.h` and `mesa_*.h` declare interfaces without an implementation.
