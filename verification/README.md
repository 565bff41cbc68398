# xv6, modelled and proved in Dafny

This project models the parts of an xv6 teaching kernel (32-bit x86, with a two-level
priority scheduler and page protection calls added) where most of its state and
arithmetic lie, and proves what they are for:

- **The redo log** (`RedoLog`, `LogState`, `Log`): the block writes of commit and recovery as
  disk images; a transaction survives a crash anywhere, also inside repeated recoveries, all
  or nothing. `GroupCommit` puts any number of processes, the NBUF buffers of the cache,
  crashes and reboots into one step machine, in which log_write's guard and the recording of
  the block are separate steps, and proves it over every run whose header fits; `Reservation`
  does the accounting of log space and settles on which log areas the header always fits,
  `CommitProgress` when a commit finds the buffers it needs, and `LogSleep` that nobody sleeps
  in begin_op who could be admitted.
- **The file system** (`FsLayout`, `FsOwnership`, `FsImage`, `Fs`, `LogBudget`, `CrowdedDisk`,
  `File`): free map, inodes, direct and indirect blocks; every block in use has one owner,
  `writei` splices and `readi` slices the byte sequence of a file, `itrunc` releases exactly
  what the inode owned, nothing is changed without being logged, and `filewrite` is a sequence
  of transactions that fit the log, which those of no larger chunk size would. `CrashConsistency` joins file system and log: what is consistent between operations is
  consistent again after a crash anywhere and recovery. `FsShared` and `FsMachine` let
  operations run side by side on the log, changing blocks and locked inodes one at a time, and
  prove that the file system is consistent between operations, and so after every crash.
- **The buffer cache** (`Bio`): the ring of buffers, eviction of the oldest, and readers that
  see what was last released.
- **Virtual memory** (`VmState`, `VmSpace`, `Vm`): page tables in frames of words, with a role
  for every frame; copying, growing, unmapping and protecting address spaces, what the
  processor then allows through both levels of the tables, and what is rolled back when memory
  runs out.
- **Processes** (`Sched`, `ProcTable`, `SleepLock`): priorities, bounded waiting and
  progress in the scheduler; no exited child and no wakeup is lost; sleep locks exclude and do
  not deadlock.
- **The user heap** (`Heap`): the circular free list of malloc and free, the free space to the
  unit, and the contents of what was handed out.
- **The shell's parser** (`ShellGrammar`, `ShellTrees`, `Shell`, `ShellText`): it accepts
  exactly the lines of a grammar, undoes a canonical printer, and every token reads as itself after NULs are written in place.
- **The regular expression matcher** (`Grep`) against a language of words, and **the pipe**
  (`Pipe`) as a first-in first-out queue under wrapping counters.

Code that updates state in place is a class with methods; code that may sleep is cut at the
points where it sleeps, so that a class invariant kept by every method holds in every
interleaving. Where a statement ranges over runs, the code is a step machine (`State`, `Step`,
`Enabled`, `Next`) and the theorem is about every sequence of steps. Methods are tied to the
functions and relations that the theorems are about by their postconditions. Words and bytes
are integers; 32-bit wrap-around is written out where the code relies on it or suffers from
it.

Where the code and what is said about it disagree, the model follows the code:

- `log_write` reads the length of the header before it takes the lock, so two operations can
  both find room for one block, and the header can grow to the size of the log area. On an area
  of 2 to NBUF - 1 blocks operations within their reservations can then overwrite the block
  behind the log (`Reservation.RaceLosesData`); all runs within the reservations are safe if
  and only if the area has at least NBUF blocks or is too small to hold any
  (`Reservation.SafetyIff`). NBUF and LOGSIZE are both 30 (`xv6-public/param.h:11-12`), and mkfs
  makes an area of LOGSIZE blocks (`xv6-public/mkfs.c:25`), which is just large enough.
- What saves an area of that size is that a header of 30 blocks pins all 30 buffers, so that
  commit panics in bget before it has written anything. Operations within their reservations
  can get there on every area of at least NBUF blocks (`Reservation.FullCachePanics`); a commit
  left to itself finishes if and only if the header has fewer than NBUF blocks
  (`CommitProgress.CommitIff`).
- On a log area of at most LOGSIZE blocks an operation with unspent reservation can also find
  the header full (`Reservation.SmallLogPanics`).
- `log_write` tests for a full header before it looks for an entry to absorb into, so a
  process within its reservation can panic by logging a block again
  (`Reservation.AbsorbedWriteCanPanic`; the exact condition is `Reservation.LogWritePanicsIff`).
- `malloc` computes its size in 32 bits; the block has room for the request exactly when the
  request is at most 2^32 - 8 bytes (`Heap.RoomIff`), and what `sbrk` is asked for is positive
  only up to 2^31 - 16 bytes (`Heap.SbrkArgIff`).
- `mprotect` and `munprotect` test the alignment of the kernel address of the page, which is
  always aligned, so an unaligned address is not refused (`Vm.Vm.CheckAligned`). Without a page
  table for the address they would fault in the kernel, provided page 0 is unmapped; the system
  calls do not get there, since argptr bounds the address by the size of the process.
- `kill` also finds its pid in slots that hold no process, 0 for one; a process that then starts
  there is killed from the start. This never happens if and only if kill meets no unused slot
  and no process whose fork then fails (`ProcTable.UnmarkedIff`, `ProcTable.KilledBeforeBirth`).
- `pipewrite` does not wake the readers when it fails: a killed writer that fills an empty pipe
  leaves them asleep in front of its bytes. `Pipe.Pipe.Write` states exactly when.
- `>>` is parsed to the same redirection as `>` (`ShellGrammar.LineFlat`).

Verify with `dafny verify dfyconfig.toml`.

## Model

| member | source | states |
|---|---|---|
| `RedoLog.HeadRoundTrip` | xv6-public/log.c:84-113 | read_head undoes write_head for every list of block numbers and whatever the header block held before |
| `RedoLog.InstallAgain` | xv6-public/log.c:69-82 | installing again over a partly installed log ends in the same disk as installing once |
| `RedoLog.CrashInRecovery` | xv6-public/log.c:115-122 | a crash after any write of recovery leaves a disk that recovers to the same result |
| `RedoLog.RecoveryIsIdempotent` | xv6-public/log.c:115-122 | the same for any number of crashes at any places in successive recoveries |
| `RedoLog.RecoveredIsClean` | xv6-public/log.c:115-122 | after recovery the header on disk is empty |
| `RedoLog.CommitCompletes` | xv6-public/log.c:192-202 | the last write of commit leaves every home block of the transaction in place and an empty header |
| `RedoLog.CommitCrash` | xv6-public/log.c:176-202 | recovery after a crash at any write of commit gives the old data up to the header write and the new data from it on |
| `RedoLog.CrashAtomicity` | xv6-public/log.c:68-122 | crash anywhere in commit, then anywhere in any number of recoveries: the recovery that completes leaves all home blocks old or all new, new exactly when the first header write reached the disk |
| `LogState.Absorb` | xv6-public/log.c:223-230 | log_write's scan keeps the header's entries and adds the block at the end exactly when it is not there yet |
| `LogState.CommitHalf` | xv6-public/log.c:195-197 | write_log and write_head together produce the committed disk, keep the pins and what home blocks read as |
| `LogState.CommitEffect` | xv6-public/log.c:192-202 | all of commit: the final disk image, nothing pinned any more, home blocks read as before |
| `LogState.RecoverEffect` | xv6-public/log.c:115-122 | recovery from the header just read ends in the recovered disk with nothing pinned |
| `Log.Log.constructor` | xv6-public/log.c:53-66 | initlog: the disk found at boot is recovered through exactly the images of recovery; the header is empty and no operation outstanding |
| `Log.Log.Bread` | xv6-public/bio.c:95-106 | the caller sees the current contents of the block; at most a clean copy is added to the cache |
| `Log.Log.Bwrite` | xv6-public/bio.c:108-116 | the block is the given data in cache and on disk and is no longer pinned |
| `Log.Log.CopyBlock` | xv6-public/log.c:75-80 | one block's contents are stored at another block's place |
| `Log.Log.CopyHead` | xv6-public/log.c:92-94 | the in-memory block numbers are those of the header block |
| `Log.Log.ReadHead` | xv6-public/log.c:84-96 | the in-memory header is the one on disk |
| `Log.Log.WriteHead` | xv6-public/log.c:98-113 | one block write puts the in-memory header on disk |
| `Log.Log.InstallOne` | xv6-public/log.c:74-81 | the next logged block is home, and one more disk write was made |
| `Log.Log.InstallTrans` | xv6-public/log.c:69-82 | all logged blocks are home; its disk writes are exactly the prefixes of installation |
| `Log.Log.LogOne` | xv6-public/log.c:182-189 | the next pinned block is copied to its place in the log |
| `Log.Log.WriteLogBlocks` | xv6-public/log.c:176-190 | all pinned blocks are in the log; its disk writes are exactly the prefixes of that |
| `Log.Log.EraseHead` | xv6-public/log.c:199-200 | an empty header is written |
| `Log.Log.LogAndMark` | xv6-public/log.c:195-197 | the disk is the committed image and its writes are those of the log followed by the header |
| `Log.Log.Commit` | xv6-public/log.c:192-202 | the block writes are exactly the images that the crash theorem speaks about; home blocks read as before; nothing to do for an empty header |
| `Log.Log.RecoverFromLog` | xv6-public/log.c:115-122 | ends in the recovered disk through exactly the images of recovery |
| `Log.Log.BeginOp` | xv6-public/log.c:124-141 | an operation is admitted exactly when no commit runs and its reservation fits |
| `Log.Log.LogWriteBlock` | xv6-public/log.c:213-233 | panics exactly on the guard, otherwise pins the data and absorbs the block number |
| `Log.Log.EndOp` | xv6-public/log.c:143-174 | only the last operation commits, and then the disk and its writes are those of commit |
| `GroupCommit.StepKeeps` | xv6-public/log.c:124-233 | every step of every process (log_write is two: the unlocked guard, the locked recording), of readers and the NBUF buffers, of the committer, of a crash and of recovery keeps the invariant of memory, disk and history as long as the header fits |
| `GroupCommit.RunKeeps` | xv6-public/log.c:124-233 | so does every run whose header fits |
| `GroupCommit.GroupCommitSafety` | xv6-public/log.c:124-233 | in every state of every interleaving with crashes in which the header fits the log or leaves no buffer to write it with: recovering now yields exactly the committed transactions in order, each a union of complete operations; committing implies no outstanding operation; header blocks are distinct, cached and pinned until installed |
| `GroupCommit.CommitsGrow` | xv6-public/log.c:192-202 | commits are never lost or reordered later in a run |
| `GroupCommit.ReadsSeeWrites` | xv6-public/bio.c:95-106 | in such runs, outside recovery, a read sees the committed transactions plus the one in progress |
| `GroupCommit.CommitterStep` | xv6-public/log.c:176-202 | the step machine's committer makes exactly the block writes of commit |
| `GroupCommit.StepKeepsBuffers` | xv6-public/bio.c:61-93 | every step keeps at most NBUF blocks in the cache, the held ones and those inside log_write among them |
| `GroupCommit.BreadBrelse` | xv6-public/bio.c:61-141 | bread brings a block in unchanged, it stays until brelse gives the reference back, and recycling a clean buffer goes unnoticed |
| `Reservation.RunAccounted` | xv6-public/log.c:125-174 | on a log area of at least NBUF blocks (or of one) every run in which operations stay within MAXOPBLOCKS keeps header plus unspent reservations within LOGSIZE, and the header fits although the guard is not repeated under the lock |
| `Reservation.ReservationHolds` | xv6-public/log.c:125-174 | on a log area larger than LOGSIZE an operation that can still afford a block never finds the header full |
| `Reservation.AbsorbedWriteCanPanic` | xv6-public/log.c:218-219 | for every log area that can hold a block, a run within the budget after which an operation panics by logging a block it has already logged |
| `Reservation.LogWritePanicsIff` | xv6-public/log.c:218-219 | while the header fits, the guard panics for an outstanding operation exactly when the header holds LOGSIZE entries or one less than the log area has blocks |
| `Reservation.SmallLogPanics` | xv6-public/log.c:218-219 | on a log area of at most LOGSIZE blocks, a run within the budget after which an operation with unspent reservation panics whatever it logs |
| `Reservation.BudgetedSafety` | xv6-public/log.c:124-233 | on a log area of at least NBUF blocks, such as that of mkfs, every interleaving of operations within the budget, with crashes anywhere, is safe in the sense of GroupCommitSafety |
| `Reservation.RaceLosesData` | xv6-public/log.c:218-230 | on a log area of 2 to NBUF - 1 blocks, a run within the budget in which two operations pass the guard before either records its block; the commit then overwrites the home block behind the log and recovery does not give the committed state |
| `Reservation.FullCachePanics` | xv6-public/log.c:182-184 | on a log area of at least NBUF blocks, a run within the budget whose commit finds every buffer pinned and panics in bget at its first block |
| `Reservation.SafetyIff` | xv6-public/log.c:124-233 | all runs within the budget are safe if and only if the log area has at least NBUF blocks or a single one |
| `CommitProgress.FullHeaderJams` | xv6-public/bio.c:61-93 | a commit of NBUF blocks starts with every buffer pinned and no buffer for its first log block |
| `CommitProgress.JammedRun` | xv6-public/bio.c:61-93 | from there no step of anyone but a crash changes memory or disk: bget panics, and nothing of the transaction has been written |
| `CommitProgress.CommitRun` | xv6-public/log.c:176-202 | in the middle of a commit of fewer than NBUF blocks, with no other holder of buffers, the remaining steps can be made, and the transaction is committed |
| `CommitProgress.CommitIff` | xv6-public/log.c:192-202 | left to itself, a commit finishes if and only if its header has fewer than NBUF blocks |
| `LogSleep.RoomOnlyByWaking` | xv6-public/log.c:124-174 | only a step that wakes the sleepers of begin_op makes room for another operation |
| `LogSleep.NoLostBegin` | xv6-public/log.c:124-174 | in every run: who sleeps in begin_op could not be admitted, and an operation or a commit is under way whose end will wake it |
| `CrashConsistency.CommittedWasQuiet` | xv6-public/log.c:143-174 | the committed transactions always add up to what readers saw at some earlier moment with no operation outstanding |
| `CrashConsistency.RecoveredWasQuiet` | xv6-public/log.c:115-202 | recovery after a crash at any point of any run gives the first disk or such a moment back |
| `CrashConsistency.CrashKeepsFiles` | xv6-public/log.c:115-202 | if block ownership is consistent whenever no operation is outstanding, it is consistent after recovery from a crash at any point of any run, and every file reads as it did at one such moment |
| `FsShared.ActKeeps` | xv6-public/fs.c:56-511 | a logged change of one block by an operation that has the inode locked or holds the block (mark, zero, store an entry, write data, update an inode, free) keeps every block in use with one owner or holder, the free map right and unlocked inodes as on disk |
| `FsShared.ChangeKeeps` | xv6-public/fs.c:287-435 | so does locking and unlocking an inode, storing or taking out a block of a locked one, and changing its other fields |
| `FsShared.ActFrame` | xv6-public/fs.c:56-511 | another operation that works on another block cannot tell that the change was made |
| `FsShared.ChangeFrame` | xv6-public/fs.c:287-435 | nor that a locked inode has changed in memory |
| `FsShared.AlikeAct` | xv6-public/log.c:213-233 | what an operation was about to log it may still log, to the same block and with the same contents, in every state it cannot tell apart |
| `FsShared.ActFiles` | xv6-public/fs.c:56-511 | writing a file block replaces exactly its bytes; every other logged change leaves every byte of every file; an updated inode may be unlocked |
| `FsShared.ChangeFiles` | xv6-public/fs.c:287-435 | a change in memory leaves every byte of every file, but for blocks taken out of the locked one |
| `FsShared.LockedFileKept` | xv6-public/fs.c:287-312 | no logged change by one operation touches a file that another has locked |
| `FsMachine.MoveKeeps` | xv6-public/log.c:124-233 | every change of any operation and every step of the log, commit, crash or recovery keeps the file system sound, the writes inside log_write up to date, and the committed state consistent |
| `FsMachine.RunsStayConsistent` | xv6-public/log.c:124-233 | in every run from a consistent disk, whenever no operation is outstanding readers see a consistent file system |
| `FsMachine.CrashesKeepFiles` | xv6-public/log.c:115-233 | so after a crash at any point of any run, with any number of operations interleaved block by block, recovery ends in a consistent file system in which every file reads as it did at a moment without outstanding operations |
| `FsLayout.PutBit` | xv6-public/fs.c:66-68 | setting or clearing a bit of the free map changes that bit only |
| `FsLayout.WordsRoundTrip` | xv6-public/fs.h:29-36 | an inode is recovered from its on-disk words |
| `FsLayout.InodeRoundTrip` | xv6-public/fs.c:220-236 | writing one inode into an inode block is read back as that inode and leaves the others alone |
| `FsOwnership.ReferencedOnce` | xv6-public/fs.c:372-400 | a block is referenced from at most one slot of one inode |
| `FsOwnership.BitIffReferenced` | xv6-public/fs.c:56-95 | between operations a bit of the free map is set exactly for metadata and referenced blocks |
| `FsOwnership.BitmapWriteKeeps` | xv6-public/fs.c:56-95 | flipping the bit of an unowned data block keeps ownership and every file |
| `FsOwnership.AttachKeeps` | xv6-public/fs.c:378-388 | a new zeroed block in a direct or the indirect slot keeps ownership and reads as before |
| `FsOwnership.AttachEntryKeeps` | xv6-public/fs.c:389-396 | the same for an entry of the indirect block |
| `FsOwnership.DetachKeeps` | xv6-public/fs.c:414-419 | taking a block out of a slot keeps ownership, the block being held for release |
| `FsOwnership.DetachIndirectKeeps` | xv6-public/fs.c:421-431 | the same for the indirect block with all its entries |
| `FsOwnership.PatchWrites` | xv6-public/fs.c:498-504 | one turn of writei changes exactly the bytes of its part, in one file |
| `FsOwnership.WrittenIsSplice` | xv6-public/fs.c:482-511 | bytes written one range after the other make the splice of the file's contents |
| `FsOwnership.WriteDone` | xv6-public/fs.c:482-511 | with the new size this is the effect of writei: the splice, no holes, other files unchanged |
| `FsOwnership.TruncDone` | xv6-public/fs.c:407-435 | after both loops of itrunc the inode owns nothing and other files read as before |
| `FsOwnership.ChunkWithinBudget` | xv6-public/file.c:127-152 | a chunk of at most 3 * 512 bytes logs at most 10 distinct blocks wherever it starts |
| `FsImage.FormattedOwn` | xv6-public/mkfs.c:237-251 | a zeroed disk whose free map marks the metadata meets the ownership invariant with nothing owned, and every on-disk inode is free |
| `FsImage.WithInodes` | xv6-public/mkfs.c:183-195 | inodes put in their places one after the other are all read back, and nothing else changes |
| `LogBudget.NewRef` | xv6-public/fs.c:56-78 | a block newly referred to had a clear bit, and the free-map block of that bit was logged |
| `LogBudget.WorstCaseCost` | xv6-public/fs.c:481-511 | a write past the direct blocks of a file without indirect block, on a disk whose free blocks lie under different free-map blocks, logs at least the bound: every block of the range, a free-map block for each new block, the indirect block and the inode block |
| `LogBudget.EnoughFree` | xv6-public/fs.c:56-78 | a write that has failed for want of blocks has taken every block that was free |
| `CrowdedDisk.CrowdedOwn` | xv6-public/fs.c:56-95 | for every size up to 12 blocks, a disk with a file of that size and other files is consistent: every block in use is metadata or owned by one slot of one file |
| `CrowdedDisk.CrowdedDense` | xv6-public/fs.c:372-400 | none of its files has a hole |
| `CrowdedDisk.CrowdedWorst` | xv6-public/fs.c:481-511 | extending that file past its direct blocks is the worst case for the log, with more blocks free than any write needs |
| `Fs.Fs.Format` | xv6-public/mkfs.c:93-115 | the formatted disk as a valid file system: no file, exactly the metadata in use, memory and disk agree |
| `Fs.Fs.Mount` | xv6-public/fs.c:170-186 | a consistent disk as found at boot is a valid file system with no inode in memory |
| `Fs.Fs.Ilock` | xv6-public/fs.c:287-312 | the inode is in memory as on disk if it was not before; it panics exactly for a free inode |
| `Fs.Fs.Balloc` | xv6-public/fs.c:56-78 | the first block with a clear bit, now set, zeroed and unowned before, with nothing else changed; it panics only if all bits are set, changing nothing |
| `Fs.Fs.TakeBlock` | xv6-public/fs.c:66-72 | the found block is marked and zeroed without a change to any file |
| `Fs.Fs.Bfree` | xv6-public/fs.c:80-95 | clears exactly the block's bit, changing and logging exactly its free-map block; the panic for a free block is unreachable for blocks taken from an inode |
| `Fs.Fs.AllocAddr` | xv6-public/fs.c:378-388 | a slot of the inode gets a fresh block, files read as before, and only that block and its free-map block are changed and logged |
| `Fs.Fs.AllocEntry` | xv6-public/fs.c:391-394 | an entry of the indirect block gets a fresh block, with the indirect block changed and logged besides |
| `Fs.Fs.IndirectBlock` | xv6-public/fs.c:386-388 | the indirect block exists afterwards and is allocated at most once |
| `Fs.Fs.BmapIndirect` | xv6-public/fs.c:385-397 | the block of an indirect slot, allocated if it was missing |
| `Fs.Fs.Bmap` | xv6-public/fs.c:372-400 | the block of a file block number, allocated if it was missing; nothing changes if it exists; what changes is logged and is free map or the file's own; panics only beyond MAXFILE or without a free block, with what it did before then logged |
| `Fs.Fs.Iupdate` | xv6-public/fs.c:220-236 | the inode on disk equals the one in memory, all other inodes on disk and all files are unchanged |
| `Fs.Fs.ReadPart` | xv6-public/fs.c:469-474 | the bytes of one block, nothing allocated |
| `Fs.Fs.ReadRange` | xv6-public/fs.c:469-475 | the bytes of a range across blocks |
| `Fs.Fs.Readi` | xv6-public/fs.c:452-476 | the slice of the file clipped to its size, or the error exactly for a bad range; nothing changes |
| `Fs.Fs.WritePart` | xv6-public/fs.c:498-504 | the bytes of one block are written, with a bound on the blocks logged |
| `Fs.Fs.WriteStep` | xv6-public/fs.c:498-504 | one turn of writei's loop extends what is written and accounted for |
| `Fs.Fs.WriteRange` | xv6-public/fs.c:498-504 | the whole range is written; data and free map blocks logged are counted; without a free block the file system is still valid and no more was allocated than the range has new blocks |
| `Fs.Fs.GrowTo` | xv6-public/fs.c:506-509 | the size becomes the end of the write if that is larger, on disk too |
| `Fs.Fs.WriteAll` | xv6-public/fs.c:498-511 | the loop and the new size: all of writei after its checks |
| `Fs.Fs.Writei` | xv6-public/fs.c:481-511 | the file becomes the splice of its bytes with the written ones, other files are unchanged, the on-disk inode agrees; only free map, inode block and the file's own blocks change, every changed block and every block of the range is logged and their number is bounded, also on failure; an error leaves everything unchanged; it panics only when every free block is used up, having taken no more than the write has new blocks |
| `Fs.Fs.FreeDirectAt` | xv6-public/fs.c:414-419 | a direct block leaves the inode and the free map, whose block alone is changed and logged |
| `Fs.Fs.FreeDirect` | xv6-public/fs.c:414-419 | all direct blocks do, and exactly their free-map blocks are changed and logged |
| `Fs.Fs.FreeEntries` | xv6-public/fs.c:424-427 | exactly the blocks of the indirect block's entries are freed, and exactly their free-map blocks changed and logged |
| `Fs.Fs.FreeIndirect` | xv6-public/fs.c:421-431 | the indirect block and all its entries leave the inode and the free map, and exactly their free-map blocks are changed and logged |
| `Fs.Fs.Itrunc` | xv6-public/fs.c:407-435 | exactly the blocks the inode owned are released, its size is 0 on disk, other files read as before; changed and logged are exactly its inode block and the free-map blocks of what it owned |
| `File.SpliceTwice` | xv6-public/file.c:135-152 | two adjoining splices are one |
| `File.WriteChunk` | xv6-public/file.c:140-145 | one transaction of filewrite writes its part; every block it changes is logged, in at most MAXOPBLOCKS blocks, also when it finds no free block and is left open |
| `File.WriteWorstCase` | xv6-public/file.c:127-145 | in the worst case, with enough blocks free, a write as one transaction completes and logs exactly the bound |
| `File.WriteCrowded` | xv6-public/fs.c:481-511 | for every file size up to 12 blocks and every write past them there is a consistent disk on which the write completes and logs exactly the bound |
| `File.ChunkIsTight` | xv6-public/file.c:127-133 | on some consistent disk a full chunk of 3 * 512 bytes logs exactly MAXOPBLOCKS blocks, and for every larger chunk there is a consistent disk on which it logs more |
| `File.WriteNext` | xv6-public/file.c:135-152 | one turn of the loop: the next chunk is in the file by one more transaction that fits the log, other files and inodes are unchanged and the on-disk inode agrees; or writei refused it |
| `File.Filewrite` | xv6-public/file.c:127-152 | all changes happen in transactions, one for each chunk, each logging every block it changes and at most MAXOPBLOCKS, after each of which the next bytes are in the file and other files and inodes are as before; done falls short only for a bad offset or the maximum size; without a free block only the last transaction is open, and fits the log too |
| `File.JournalMore` | xv6-public/file.c:135-152 | a transaction that fits the log and brings the file to the next chunk extends the sequence of such transactions |
| `Heap.RoomIff` | xv6-public/umalloc.c:69 | a block of the computed number of units has room for the request exactly up to 2^32 - 8 bytes |
| `Heap.SbrkArgIff` | xv6-public/umalloc.c:47-54 | the amount asked of sbrk is the right one exactly for the stated sizes, otherwise it is not positive |
| `Heap.OneWrap` | xv6-public/umalloc.c:24-44 | the circular list wraps at one place only |
| `Heap.StopsAtPredecessor` | xv6-public/umalloc.c:30-32 | the test of free's loop holds exactly at the free block below the freed one |
| `Heap.AheadStep` | xv6-public/umalloc.c:30-32 | each step of the search takes one block out of the way, so it ends within one round |
| `Heap.FullCircle` | xv6-public/umalloc.c:74-89 | a round from freep visits every free block |
| `Heap.KeptBy` | xv6-public/umalloc.c:33-43 | writing headers outside the allocated blocks leaves every unit of them alone |
| `Heap.UpCovers` | xv6-public/umalloc.c:33-35 | merging with the block above moves exactly its units |
| `Heap.DownCovers` | xv6-public/umalloc.c:38-40 | merging with the block below adds exactly the freed units to the free space |
| `Heap.TailCovers` | xv6-public/umalloc.c:78-82 | splitting takes exactly the last units of a free block out of the free space |
| `Heap.Allocator.constructor` | xv6-public/umalloc.c:21-22 | no block before the first malloc |
| `Heap.Allocator.FindPlace` | xv6-public/umalloc.c:29-32 | the free block right below the freed one |
| `Heap.Allocator.MergeUp` | xv6-public/umalloc.c:33-37 | the block absorbs an adjacent next block or takes over its link; only its header is written, and free space and block together stay the same |
| `Heap.Allocator.MergeDown` | xv6-public/umalloc.c:38-42 | the block is absorbed by an adjacent previous block or linked after it, whose header alone is written; disjointness, order and unit count hold, and its units join the free space |
| `Heap.Allocator.Free` | xv6-public/umalloc.c:24-44 | exactly the block's units join the free space, the list invariant and the unit count hold; only headers of free blocks and its own are written, so every unit of every other block is untouched; freep is the free block below |
| `Heap.Allocator.Morecore` | xv6-public/umalloc.c:46-61 | exactly the units that sbrk gave join the free space and every allocated block is untouched, or nothing changes; the outcome for a distorted request exactly when its size does not survive the conversion to int |
| `Heap.Allocator.TakeBlock` | xv6-public/umalloc.c:76-77 | an exactly fitting block moves from the list to the allocated ones, with only the link to it written |
| `Heap.Allocator.SplitBlock` | xv6-public/umalloc.c:78-82 | the tail of a larger block is allocated, with only the two headers written |
| `Heap.Allocator.Take` | xv6-public/umalloc.c:75-85 | a new block of exactly nunits units, disjoint from every other, is taken out of the free space from the end of the block found; every unit of every other block is untouched |
| `Heap.Allocator.Search` | xv6-public/umalloc.c:74-89 | malloc's loop, for any number of units |
| `Heap.Allocator.Malloc` | xv6-public/umalloc.c:63-90 | a new disjoint block of the computed size, taken out of the free space and what morecore added to it, with every unit of every earlier block untouched; without morecore it is the end of the first block that fits, going around from freep; morecore is called exactly when no free block fits; null exactly if sbrk then gives nothing, the bad request exactly for 2^31 - 16 < nbytes <= 2^32 - 8 |
| `Bio.OrderFrom` | xv6-public/bio.c:69-90 | following next from a buffer lists exactly the buffers released no later, newest first |
| `Bio.RingHasAll` | xv6-public/bio.c:38-56 | the ring from the head lists every buffer exactly once |
| `Bio.MoveToFront` | xv6-public/bio.c:131-137 | unlinking and relinking keep the ring, the buffer being newest |
| `Bio.PushFirst` | xv6-public/bio.c:49-55 | binit's insertion keeps the ring |
| `Bio.Bcache.constructor` | xv6-public/bio.c:38-56 | the ring of all buffers, caching nothing |
| `Bio.Bcache.Lookup` | xv6-public/bio.c:68-76 | a buffer of the block, or there is none |
| `Bio.Bcache.Victim` | xv6-public/bio.c:78-91 | of the unreferenced clean buffers the one whose last release is oldest, or there is none |
| `Bio.Bcache.Bget` | xv6-public/bio.c:61-93 | a reference to the block's buffer, recycling only the oldest eligible one for a block not cached; no two buffers for one block; the panic exactly when nothing is eligible |
| `Bio.Bcache.Lock` | xv6-public/sleeplock.c:22-32 | the locked buffer, if valid, holds what was last released |
| `Bio.Bcache.ReadIn` | xv6-public/bio.c:96-106 | bread's caller sees what was last released of the block |
| `Bio.Bcache.Iderw` | xv6-public/memide.c:38-60 | a dirty buffer is written and clean, otherwise an invalid one is read |
| `Bio.Bcache.Bwrite` | xv6-public/bio.c:108-116 | the disk holds the buffer's data |
| `Bio.Bcache.Pin` | xv6-public/log.c:231 | the buffer is dirty and cannot be recycled |
| `Bio.Bcache.Unlock` | xv6-public/bio.c:120-126 | what the holder leaves is the content of the block from now on |
| `Bio.Bcache.Put` | xv6-public/bio.c:128-141 | one reference less; the last one makes the buffer the newest |
| `Bio.Bcache.ToFront` | xv6-public/bio.c:131-137 | the six pointer assignments move the buffer to the front of the ring |
| `VmState.PutWOnly` | xv6-public/vm.c:414 | only the write bit changes |
| `VmState.NewTableKeeps` | xv6-public/vm.c:44-52 | a zeroed frame as page table, under a directory entry open to user code and to writes, keeps every frame in one use |
| `VmState.AllowsIff` | xv6-public/vm.c:35-55 | what the processor allows through directory entry and page table entry is what the page table entry alone grants, in every reachable state |
| `VmState.MapKeeps` | xv6-public/vm.c:70-74 | so does mapping a held frame at an absent entry |
| `VmState.UnmapKeeps` | xv6-public/vm.c:269-276 | so does clearing an entry, its frame being held again |
| `VmState.PopKeeps` | xv6-public/kalloc.c:82-95 | taking the first frame off the free list leaves the list of the other free frames |
| `VmState.PushKeeps` | xv6-public/kalloc.c:64-77 | freeing a frame puts it first on the list |
| `VmState.TableAbsent` | xv6-public/vm.c:267-268 | jumping to the next page directory entry is unmapping page by page when there is no page table |
| `VmState.GoneKeeps` | xv6-public/vm.c:283-298 | freeing the page tables and the directory of an emptied address space keeps all others |
| `VmSpace.FramesUnshared` | xv6-public/vm.c:60-80 | two present user entries of any address spaces never share a frame |
| `VmSpace.KmapsApart` | xv6-public/vm.c:105-115 | the kernel's ranges do not overlap, so setupkvm never maps a page twice |
| `VmSpace.KernelPrivate` | xv6-public/vm.c:105-115 | no kernel mapping is open to user code or lies in user memory |
| `VmSpace.BuiltGone` | xv6-public/vm.c:129-134 | freeing a half-built address space restores the use of every frame and the contents of those in use |
| `VmSpace.ChildPages` | xv6-public/vm.c:325-339 | in a child page 0 and pages beyond the size are unmapped and the others have the parent's protection |
| `VmSpace.GrownUnmapped` | xv6-public/vm.c:235-246 | unmapping a partly grown range brings the user mappings back |
| `VmSpace.ProtectUnprotect` | xv6-public/vm.c:394-454 | mprotect then munprotect leaves the range writable, every translation and all else as it was |
| `VmSpace.BuiltClosed` | xv6-public/vm.c:105-136 | no kernel page of a new address space is open to user code |
| `VmSpace.CopiedClosed` | xv6-public/vm.c:315-345 | kernel pages stay closed to user code across fork |
| `VmSpace.BelowKernel` | xv6-public/vm.c:409-421 | a run of user pages ends below the kernel, so the address never wraps |
| `VmSpace.GrownAccess` | xv6-public/vm.c:233-247 | user code can read and write every page that allocuvm added, and everything else is as accessible as before |
| `VmSpace.UnmappedAccess` | xv6-public/vm.c:265-277 | nobody can use a page that deallocuvm removed |
| `VmSpace.CopiedAccess` | xv6-public/vm.c:325-339 | every copied page allows in the child exactly the accesses it allows in the parent, and user code no other page |
| `VmSpace.ReflaggedAccess` | xv6-public/vm.c:409-421 | of the protected pages user code can read all and write none, after unprotecting all; everything else is as accessible as before |
| `VmSpace.MappedAccess` | xv6-public/vm.c:105-136 | in a new address space the kernel can use and write exactly what its mappings say, and user code nothing |
| `Vm.Vm.constructor` | xv6-public/kalloc.c:32-37 | no frame is free before kinit |
| `Vm.Vm.Freerange` | xv6-public/kalloc.c:46-53 | exactly the frames wholly between the two byte addresses become free, aligned or not |
| `Vm.Vm.Kalloc` | xv6-public/kalloc.c:82-95 | some free frame, or null only if there is none |
| `Vm.Vm.Kfree` | xv6-public/kalloc.c:55-77 | the frame is free and filled with junk, nothing else changes |
| `Vm.Vm.Walk` | xv6-public/vm.c:35-55 | the page table of an entry, created from a free frame on demand without changing any entry, and such that it alone decides what user code may do |
| `Vm.Vm.MapPage` | xv6-public/vm.c:69-74 | one page is mapped and nothing else changes but free frames |
| `Vm.Vm.MapRange` | xv6-public/vm.c:68-79 | the pages of a range are mapped, or a prefix of them when memory runs out |
| `Vm.Vm.MapPages` | xv6-public/vm.c:60-80 | the same for byte addresses, rounding included |
| `Vm.Vm.UnmapOne` | xv6-public/vm.c:269-276 | a present page is freed and its entry cleared |
| `Vm.Vm.UnmapStep` | xv6-public/vm.c:265-277 | one turn of deallocuvm's loop, with the jump over a missing page table |
| `Vm.Vm.Deallocuvm` | xv6-public/vm.c:255-279 | for sizes up to KERNBASE exactly the present entries of the range become 0 and exactly their frames free, and nobody can use the pages; nothing else changes |
| `Vm.Vm.FreeTables` | xv6-public/vm.c:291-296 | exactly the page tables are freed |
| `Vm.Vm.Freevm` | xv6-public/vm.c:283-298 | exactly the frames of the address space become free |
| `Vm.Vm.SetupStep` | xv6-public/vm.c:129-134 | the next kernel range is mapped in the new directory |
| `Vm.Vm.Setupkvm` | xv6-public/vm.c:118-136 | a new address space of free frames with exactly the kernel's mappings, usable by the kernel as they say and not by user code; or, only if kalloc failed, every frame used as before |
| `Vm.Vm.CopyStep` | xv6-public/vm.c:325-339 | one page is copied with its flags into a fresh frame, or everything held for it is released |
| `Vm.Vm.Copyuvm` | xv6-public/vm.c:315-345 | the child has for each page of [PGSIZE, sz) the parent's flags and equal bytes in a frame that was free, and no other user page; it allows exactly the accesses the parent's page allows; or, only if kalloc failed, every frame is used as before |
| `Vm.Vm.GrowStep` | xv6-public/vm.c:233-247 | one page gets a zeroed frame, or the frame left over is known |
| `Vm.Vm.Rollback` | xv6-public/vm.c:235-246 | the failure paths of allocuvm bring the user mappings back |
| `Vm.Vm.Allocuvm` | xv6-public/vm.c:219-249 | the new pages map zeroed frames that were free, and user code can read and write them; or, only if kalloc failed, the user mappings and accesses are as before and only page tables were added |
| `Vm.Vm.Uva2ka` | xv6-public/vm.c:349-360 | the kernel address of the frame that this page of this address space owns, exactly for a page that user code can read; 0 for other pages; it faults exactly without a page table |
| `Vm.Vm.CheckAligned` | xv6-public/vm.c:400-406 | the alignment test never refuses; it faults exactly without a page table |
| `Vm.Vm.ProtectStep` | xv6-public/vm.c:409-421 | the page's write bit is changed exactly if it is a present user page |
| `Vm.Vm.Protect` | xv6-public/vm.c:394-454 | success exactly if all len pages are present user pages; only the write bit of a prefix of them changes, of all on success, and user code can then read them and write all or none; the refused, the faulting and the bad length case |
| `Sched.HighCountIff` | xv6-public/proc.c:368-377 | the count is 0 exactly if no runnable process has priority 1 |
| `Sched.GetHighPriority` | xv6-public/proc.c:368-377 | the loop computes the count |
| `Sched.DispatchIff` | xv6-public/proc.c:393-446 | the scheduler's step turns a slot from runnable to running exactly if it dispatches it: its run count goes up by one, it is out on the CPU, and no other slot changes; otherwise the table stays as it is |
| `Sched.StepKeeps` | xv6-public/proc.c:393-450 | every step keeps that the last loop runs only with no runnable process of priority 1, with unlocked writes of fork to embryos going on meanwhile |
| `Sched.PriorityRespected` | xv6-public/proc.c:386-451 | in every run a process of other priority is dispatched only when no process of priority 1 is runnable |
| `Sched.RankStep` | xv6-public/proc.c:400-424 | each dispatch of another process and each step of the scheduler brings a waiting process of priority 1 nearer |
| `Sched.BoundedWaiting` | xv6-public/proc.c:386-451 | a process of priority 1 that stays runnable waits for at most NPROC - 1 other dispatches and a bounded number of scheduler steps, whatever everything else does |
| `Sched.FirstRunnableRuns` | xv6-public/proc.c:393-446 | with no process of priority 1 runnable and only embryos changing, the first runnable process is dispatched within a bounded number of scheduler steps, and from the top of the loop next and within NPROC + 1 |
| `Sched.LowRunsAlone` | xv6-public/proc.c:423-446 | in one pass the last loop dispatches one process, and only if the pass has dispatched none of priority 1 |
| `ProcTable.Ptable.Wakeup1` | xv6-public/proc.c:552-560 | exactly the processes asleep on the channel become runnable |
| `ProcTable.Ptable.AbandonStep` | xv6-public/proc.c:261-267 | one turn of exit's loop over the children |
| `ProcTable.Ptable.Exit` | xv6-public/proc.c:255-273 | the parent is woken, every child goes to init, init is woken if one of them has exited, and the process is a zombie |
| `ProcTable.Ptable.WaitTurn` | xv6-public/proc.c:285-316 | the first exited child is reaped if there is one, otherwise -1 exactly without children or when killed, otherwise sleep |
| `ProcTable.Ptable.Allocproc` | xv6-public/proc.c:82-96 | the first unused slot becomes an embryo with a new pid and priority 1, or there is none |
| `ProcTable.Ptable.Kill` | xv6-public/proc.c:574-592 | the first slot with the pid is marked and no longer asleep, or there is none |
| `ProcTable.ExitedSlots` | xv6-public/proc.c:255-273 | what exit does to each slot |
| `ProcTable.ExitKeeps` | xv6-public/proc.c:255-273 | exit keeps every parent alive and every sleeper in wait without exited children |
| `ProcTable.ReapKeeps` | xv6-public/proc.c:292-305 | so does reaping |
| `ProcTable.LinkKeeps` | xv6-public/proc.c:206 | so does giving an embryo its parent outside the lock |
| `ProcTable.StepKeeps` | xv6-public/proc.c:184-316 | so does every step of fork, exit, wait, sleep, wakeup, kill, yield and the scheduler |
| `ProcTable.StepParents` | xv6-public/proc.c:184-316 | every step leaves every started or exited process but init with a parent |
| `ProcTable.StepEmbryos` | xv6-public/proc.c:82-227 | every embryo belongs to a fork under way |
| `ProcTable.NoLostChild` | xv6-public/proc.c:232-317 | in every state of every run a parent is neither unused nor exited, every exited process has a parent that can reap it and does not sleep in wait, and no process sleeps in wait with an exited child |
| `ProcTable.ZombieReaped` | xv6-public/proc.c:285-305 | a process that calls wait with an exited child reaps the first one, and neither sleeps nor returns -1 |
| `ProcTable.ForkMakesChild` | xv6-public/proc.c:181-227 | a fork that succeeds makes a runnable child with the caller as parent, the new pid and the caller's priority, and changes nothing else |
| `ProcTable.UnmarkedIff` | xv6-public/proc.c:574-592 | in every run: no slot free for a new process is ever marked killed, if and only if kill never meets an unused slot or a process whose fork then fails |
| `ProcTable.KilledBeforeBirth` | xv6-public/proc.c:574-592 | kill of the pid in an unused slot, and the next process there starts out killed |
| `SleepLock.StepKeeps` | xv6-public/sleeplock.c:22-42 | every step of taking, testing, changing and releasing the locks keeps the invariant of holders, sleepers and spin locks |
| `SleepLock.MutualExclusion` | xv6-public/sleeplock.c:22-53 | in every run at most one process holds the lock, and holdingsleep answers yes exactly to it |
| `SleepLock.NoLostWakeup` | xv6-public/proc.c:512-569 | a process sleeps on the lock only while it is held or its releaser is between clearing it and the wakeup, which then wakes it |
| `SleepLock.OwnerChanges` | xv6-public/sleeplock.c:22-42 | the lock changes hands exactly where a process that found it free takes it and where its owner clears it |
| `SleepLock.StepsDecrease` | xv6-public/sleeplock.c:22-42 | a process in acquiresleep or releasesleep gets done, or to sleep, within four steps of its own, and others can only wake it |
| `SleepLock.NoDeadlock` | xv6-public/sleeplock.c:22-42 | in every run, while some process is inside, one of them can make a step, unless something else holds the process table lock |
| `ShellGrammar.ExecTrip` | xv6-public/sh.c:399-446 | a command printed at the level of parseexec, with more redirections after it, is parsed back |
| `ShellGrammar.PipeTrip` | xv6-public/sh.c:361-372 | the same at the level of parsepipe |
| `ShellGrammar.BackTrip` | xv6-public/sh.c:344-353 | the same for commands followed by '&' |
| `ShellGrammar.LineTrip` | xv6-public/sh.c:344-359 | parsing the canonical tokens of any command within the argument limit gives that command and what follows it |
| `ShellGrammar.LineFits` | xv6-public/sh.c:344-446 | every parsed command is within the argument limit |
| `ShellGrammar.PrintParse` | xv6-public/sh.c:344-446 | printing and parsing give a command back if and only if it is within the limit; any accepted line, printed and parsed again, gives the same command |
| `ShellGrammar.LineFrom` | xv6-public/sh.c:344-446 | every word of a parsed command is one of the tokens |
| `ShellGrammar.LineFlat` | xv6-public/sh.c:382-395 | with every >> written as > the same command is parsed, or the same error met |
| `ShellTrees.LineParsed` | xv6-public/sh.c:344-446 | the parser accepts the yield of every tree of the grammar, redirections anywhere among the arguments, and returns its meaning |
| `ShellTrees.LineTree` | xv6-public/sh.c:344-446 | whatever the parser accepts is the yield of a tree whose meaning it returns |
| `ShellTrees.ParsesExactly` | xv6-public/sh.c:327-446 | the parser accepts exactly the lines of the grammar and returns what they mean; no line has two meanings |
| `Shell.FirstChar` | xv6-public/sh.c:310-320 | the first character after white space tells which token comes next |
| `Shell.Parser.Peek` | xv6-public/sh.c:310-320 | the cursor moves over white space only, and the answer is about the character there |
| `Shell.Parser.GetToken` | xv6-public/sh.c:265-308 | the next token with its place, and the cursor at the remaining tokens; 0 exactly at the end |
| `Shell.Parser.ParseRedirs` | xv6-public/sh.c:374-397 | the cursor version computes the token version |
| `Shell.Parser.ParseArgs` | xv6-public/sh.c:431-442 | so does the argument loop |
| `Shell.Parser.ParseExec` | xv6-public/sh.c:415-446 | so does parseexec |
| `Shell.Parser.ParseBlock` | xv6-public/sh.c:399-413 | so does parseblock |
| `Shell.Parser.ParsePipe` | xv6-public/sh.c:361-372 | so does parsepipe |
| `Shell.Parser.ParseLine` | xv6-public/sh.c:344-359 | so does parseline |
| `ShellText.LexRender` | xv6-public/sh.c:265-308 | the tokens of a rendered line have exactly the rendered texts |
| `ShellText.RoundTrip` | xv6-public/sh.c:327-446 | parsing the canonical line of a command tree gives that tree with exactly its words and nothing left over, if and only if the tree is within the argument limit |
| `ShellText.ReadsExactly` | xv6-public/sh.c:448-493 | a word ended by a NUL reads as itself although all other words are ended too |
| `ShellText.Nulterminate` | xv6-public/sh.c:448-493 | a NUL at the end of each word of the command and no other change |
| `ShellText.ParseCmd` | xv6-public/sh.c:327-342 | the syntax error exactly when the grammar does not accept the whole line, otherwise the command of the grammar with every argument and file name readable in place |
| `Grep.BeginsOne` | xv6-public/grep.c:93-94 | a plain item matches one fitting character and the rest the rest |
| `Grep.BeginsStar` | xv6-public/grep.c:89-90 | a starred item matches any number of fitting characters before the rest |
| `Grep.OccursSomewhere` | xv6-public/grep.c:77-81 | a substring is a word of the pattern exactly if a match begins somewhere |
| `Grep.Match` | xv6-public/grep.c:72-82 | true exactly if some substring is a word of the pattern, from the start for '^' and to the end for '$' |
| `Grep.MatchHere` | xv6-public/grep.c:84-96 | true exactly if a prefix of the text is a word of the pattern |
| `Grep.MatchStar` | xv6-public/grep.c:98-106 | true exactly if some number of fitting characters is followed by a match of the rest |
| `Pipe.IndexWraps` | xv6-public/pipe.c:93 | the ring index of a byte is the same from the wrapped and the true counter |
| `Pipe.CountersTell` | xv6-public/pipe.c:85 | full and empty are told correctly from the wrapped counters |
| `Pipe.Pipe.constructor` | xv6-public/pipe.c:33-36 | an empty pipe with both ends open and nobody asleep |
| `Pipe.Pipe.Close` | xv6-public/pipe.c:59-75 | one end is closed, who waits for it is woken, and the pipe is freed exactly when the other end was closed before |
| `Pipe.Pipe.Store` | xv6-public/pipe.c:93 | the byte is appended to what was stored |
| `Pipe.Pipe.Fetch` | xv6-public/pipe.c:116 | the oldest pending byte is taken |
| `Pipe.Pipe.Write` | xv6-public/pipe.c:78-98 | the next bytes are appended in order until all are or PIPESIZE are pending; -1 exactly if full with no reader or killed; a negative count is returned and stores nothing; readers are left asleep in front of stored bytes if and only if some slept, the writer is killed or without a reader's end, and it has more to write than the pipe holds |
| `Pipe.Pipe.Read` | xv6-public/pipe.c:100-121 | the next pending bytes in the order stored, as many as asked for and pending; sleep or -1 exactly on an empty pipe with a writer; no wakeup is lost |

## Left out

- Directories and path names (dirlookup, dirlink, skipelem, namex), ialloc, iget, iput and the reference counts of inodes and files.
- The device branch of readi and writei (major device switch); only regular files and directories' contents are modelled.
- Log.Log: begin_op and log_write are modelled up to the point where they sleep; the buffer cache below the log is an unbounded map there; the NBUF buffers are in GroupCommit, and the cache's own code in Bio.
- Fs.Fs.Format: leaves out the superblock and the root directory that mkfs also writes.
- Bio.Bcache.Lock: does not model who waits for a buffer's lock; mutual exclusion and wakeups of sleep locks are in SleepLock.
- GroupCommit.GroupCommitSafety: assumes that the header fits the LOGSIZE entries of its array, and the log area unless there is no buffer to write it with; what the kernel does once the array itself overflows (operations beyond their reservation) is not modelled.
- CrashConsistency.CrashKeepsFiles: takes consistency at moments without outstanding operations as given; FsMachine.RunsStayConsistent proves it of every run of operations that keep to the rules of FsShared.
- FsMachine.RunsStayConsistent: operations are any sequences of the changes in FsShared; that the methods of Fs.Fs are such sequences is not proved. An inode is unlocked only when memory and disk agree on it, which the methods of Fs promise; a block leaves its inode before it is freed, where itrunc clears the slot afterwards under the same lock. It assumes of the header what GroupCommitSafety does.
- Pipe.Pipe.Wake: stands for what kill does to a sleeper; kill itself is in ProcTable.
- File.Filewrite: nothing else runs between two chunks, although locks and transaction are released there; the contract is that of a writer alone.
- Disk errors, the interrupt-driven IDE queue and blocks out of range (iderw panics); the disk of memide.c is modelled.
- Vm.Vm.Uva2ka: reading through the null result of walkpgdir is a fault, as it is while page 0 is unmapped.
- Vm.Vm.Copyuvm: requires the copied pages to be present, since copyuvm panics otherwise; likewise mappages and allocuvm require absent pages, where they panic with "remap".
- clearpteu, copyout, inituvm, loaduvm, segment descriptors and TLB flushes.
- exec, trap handling, system call argument checks, and the kernel side of sbrk.
- Sched: one CPU's loop; other CPUs are part of the environment that changes the table while the lock is free.
- ProcTable.Ptable.Allocproc: does not model 32-bit wrap-around of nextpid, kernel stacks or contexts.
- ProcTable.Ptable.WaitTurn: the freeing of the child's stack and memory is not part of the table; Vm.Vm.Freevm is its model.
- Shell.Parser.ParseExec: collects arguments and redirections and builds the tree at the end, where the source fills a node that is already wrapped; allocation of nodes is not modelled.
- The shell's runcmd and its built-in cd, and grep's line buffering.
- Heap.Allocator.Morecore: what follows a request distorted by the conversion to int is not modelled; the outcome only says that it is one.
- Heap.Allocator: addresses are counted in header units and the header's two fields are two sequences over memory; the system's sbrk is a parameter (granted or not, and how far above the old break).
- Console, uart, keyboard, interrupt controllers, boot code, printf.
