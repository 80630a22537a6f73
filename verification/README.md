# xv6: storage, memory, processes and parsers in Dafny

This project models the parts of an xv6 kernel and user land whose correctness is hard to see from the code, and proves
what they promise. Concurrent protocols are transition systems whose steps are critical sections or single block writes;
a property "in every run" is proved for every finite sequence of enabled steps. Code that updates data in place is a
class or a method with loops, and its contract ties the new state to a specification function or to steps of the
transition system.

| files | what they model |
|---|---|
| `Params`, `Options`, `Blocks`, `Bitmap` | the limits, 512-byte blocks, little-endian words, bitmap blocks |
| `LogMachine`, `LogCrash`, `LogLimits`, `LogImages`, `LogImpl` | the redo log: group commit, reservation, pinned buffers, recovery, crashes |
| `Bio` | the buffer cache on its doubly linked ring |
| `Ide` | the interrupt-driven disk driver against the synchronous one |
| `FsModel`, `Dinode`, `Fs`, `FileLayer` | block ownership, file contents, the inode table, `filewrite` and its history of transactions |
| `MkfsModel`, `Mkfs`, `MkfsMain` | the initial image, from its sectors to the whole of `mkfs` |
| `FileCrash`, `Boot` | a crash anywhere in `filewrite`: the file system on top of the log, from the image of `mkfs` on |
| `LinkModel`, `LinkSteps`, `Links` | directories and link counts |
| `HeapModel`, `Umalloc` | the circular first-fit allocator |
| `PageModel`, `Vm` | two-level page tables and the physical page list |
| `Mlfq`, `ExitWait`, `Pipe`, `PipeCalls` | scheduling with aging, exit and wait, pipes and whose bytes they hold |
| `ShellGrammar`, `ShellText`, `Shell` | the shell's parser and its in-place termination of tokens |
| `Regex`, `Checksum` | the matcher of `grep`, the Internet checksum |

`dafny verify dfyconfig.toml` checks everything.

Where a promise does not hold of the code, the model keeps the code and the project has both a failing run or input and
the exact condition:

- `log_write` can meet "too big a transaction" exactly when the log has at most `LOGSIZE` blocks, as the one of `mkfs`
  has, or operations make more than `MAXOPBLOCKS` calls, which the guard counts even when the block is in the log already
  (`LogLimits.PanicIff`, with the runs `LogLimits.SmallLogPanics` and `LogLimits.AbsorbedCallPanics`). `filewrite` makes
  more: a chunk of three new blocks behind the indirect block has up to fifteen calls, for the bitmap, the zeroed block,
  the data and the indirect block of each, the indirect block itself, and the inode. Alone it is safe
  (`FileCrash.WriteRuns`); beside two other operations the call budget does not protect it.
- A commit panics exactly when its group has pinned every buffer, which three operations can do in any log
  (`LogLimits.GroupCommitsIff`, `LogLimits.FullGroupPanics`, `LogLimits.MkfsLogPanics`).
- In a log of 2 to `LOGSIZE - 1` blocks a transaction can outgrow the log and destroy the block behind it
  (`LogLimits.AtomicIffRoomy`, `LogLimits.SmallLogCorrupts`).
- A failed `allocuvm` restores the user mapping exactly when the range was unmapped before (`Vm.UndoFill`,
  `Vm.FailedGrowthUnmaps`).
- A killed writer that gives up on a full pipe does not wake a sleeping reader (`Pipe.LostIffGivenUp`,
  `Pipe.KilledWriterLosesWakeup`).
- A name made in a directory that has itself no links breaks the link counts (`LinkSteps.EnterConservesIff`,
  `LinkSteps.MakeConservesIff`, `LinkSteps.RemovedParentBreaks`).
- `mkfs` does not bound the number of files. The image is complete exactly for at most 206; from 207 on an inode lies in
  the bitmap (`MkfsMain.Build`, `MkfsMain.OneFileTooMany`).
- An IPv4 header too short to reach its checksum field does not verify (`Checksum.ShortHeaderFails`,
  `Checksum.AcceptedIff`). The callers in the repository always write a length of five words, so only a direct call of
  `ipv4_chksum` gets there.
- Rounding the size of the root directory leaves a hole when the size is already a multiple of the block size
  (`MkfsModel.RoundedHole`, `MkfsMain.HoleInRoot`).

## Model

| member | source | states |
|---|---|---|
| `LogMachine.HeaderRoundTrip` | xv6/log.c:85-113 | reading back a header block gives exactly the block numbers written into it, whatever the block held before |
| `LogMachine.ReservedStep` | xv6/log.c:125-233 | each step of any operation, commit, crash or recovery keeps the reservation invariant |
| `LogMachine.ReservedAlways` | xv6/log.c:125-174 | in every run logged blocks plus unspent budgets never exceed LOGSIZE, logged numbers are distinct, and a commit runs with nothing outstanding |
| `LogMachine.AdmittedIffRoom` | xv6/log.c:125-140 | in every run begin_op admits an operation exactly when no commit runs and the logged blocks, with ten for each operation under way and for the new one, are at most 30; so it never waits when nobody is in the log |
| `LogMachine.PinnedAlways` | xv6/bio.c:78-91 | in every run the dirty buffers are exactly the logged blocks until the group commits, and then those not yet installed |
| `LogCrash.InstallOne` | xv6/log.c:69-82 | copying a logged block home, once or again, keeps the content the disk stands for |
| `LogCrash.CommitKeeps` | xv6/log.c:192-202 | the header write with n > 0 is the point where the whole open group becomes part of the recovered content |
| `LogCrash.CrashInvAlways` | xv6/log.c:69-202 | in every run, crashes included, the disk read through its header holds the committed content |
| `LogCrash.RebootKeepsDurable` | xv6/log.c:115-122 | no reboot, however often interrupted, changes what was committed |
| `LogCrash.CrashAtomicity` | xv6/log.c:69-122 | any run, a crash anywhere, any interrupted recoveries: when one completes the home blocks are exactly the writes of the committed groups |
| `LogCrash.RecoveryCompletes` | xv6/log.c:115-122 | after any crash an undisturbed recovery ends, after one write per logged block and one to clear the header |
| `LogCrash.OperationsAreAtomic` | xv6/log.c:9-15 | the writes of one operation are all durable, all in the open group or all lost, in every run |
| `LogCrash.EveryWriteRecorded` | xv6/log.c:205-233 | in every run, crashes included, each log_write made is durable, in the open group or lost, once |
| `LogCrash.DurableWhole` | xv6/log.c:145-233 | so when one write of an operation is durable every write it made is, and when one is lost all are |
| `LogLimits.NoPanic` | xv6/log.c:213-221 | with LOGSIZE + 1 blocks, operations that call log_write at most MAXOPBLOCKS times never meet its "too big a transaction" |
| `LogLimits.AppendInRange` | xv6/log.c:218-230 | the append stays inside the header array although its guard is read before the lock is taken, and a buffer was left for the block |
| `LogLimits.SmallLogPanics` | xv6/mkfs.c:25 | with LOGSIZE blocks or fewer there is a run of well-behaved operations that panics |
| `LogLimits.PanicIff` | xv6/log.c:213-221 | operations of at most c >= MAXOPBLOCKS log_write calls each can meet "too big a transaction" exactly when the log has at most LOGSIZE blocks or c exceeds MAXOPBLOCKS |
| `LogLimits.AbsorbedCallPanics` | xv6/log.c:218-221 | however large the log, one call beyond MAXOPBLOCKS can panic although no operation has logged more than MAXOPBLOCKS blocks |
| `LogLimits.Race` | xv6/log.c:213-233 | two operations past the unlocked guard make the transaction one block longer than the log |
| `LogLimits.SmallLogCorrupts` | xv6/log.c:177-190 | with 2 to NBUF - 1 blocks write_log then overwrites the block behind the log and recovery does not undo it |
| `LogLimits.AtomicIffRoomy` | xv6/log.c:69-233 | crash atomicity holds in all runs exactly when the log has at least LOGSIZE blocks, or at most one, when nothing can be logged |
| `LogLimits.TinyAlways` | xv6/log.c:213-221 | a log of at most one block refuses every log_write, so no run changes the disk |
| `LogLimits.BuffersRunOut` | xv6/bio.c:78-92 | a write of commit or recovery meets "no buffers" exactly at the start of a commit of NBUF blocks, in every run |
| `LogLimits.GroupCommitsIff` | xv6/log.c:177-202 | in every run a group is committed by its end_op exactly when it has fewer than NBUF blocks |
| `LogLimits.FullGroupPanics` | xv6/log.c:125-190 | however large the log, three operations within budget can fill every buffer and their commit panics |
| `LogLimits.OnlyFullGroupsPanic` | xv6/log.c:177-221 | with LOGSIZE + 1 blocks that is the only panic of commits and of log_write |
| `LogLimits.MkfsLogPanics` | xv6/mkfs.c:93-115 | the log of the image that mkfs writes is atomic in every run, and allows both panics within budget |
| `LogImages.HeldAlways` | xv6/log.c:145-202 | in every run the durable content is what bread showed when the last committed group closed |
| `LogImages.CrashLeavesImage` | xv6/log.c:115-202 | a crash anywhere, then recovery: the file system is the image of the last commit that wrote its header |
| `LogImages.Transaction` | xv6/log.c:125-233 | an operation that makes any log_writes, in any order and number, to at most MAXOPBLOCKS blocks runs to the end of its commit |
| `LogImpl.Log.constructor` | xv6/log.c:53-66 | booting on the disk a crash left runs recovery first: the log is idle and the home blocks are the committed content |
| `LogImpl.Log.BeginOp` | xv6/log.c:125-141 | an operation is admitted exactly when the machine's step is enabled |
| `LogImpl.Log.Check` | xv6/log.c:218-221 | the guard takes the machine's step and panics exactly when it says so |
| `LogImpl.Log.LogWrite` | xv6/log.c:223-232 | absorbing or appending takes the machine's step |
| `LogImpl.Log.ReadHead` | xv6/log.c:85-96 | loads the machine's header |
| `LogImpl.Log.WriteHead` | xv6/log.c:101-113 | one block write that stores the in-memory header and changes nothing else |
| `LogImpl.Log.WriteLog` | xv6/log.c:177-190 | takes one machine write per logged block and commits nothing; with NBUF blocks pinned its first bread panics and nothing is written |
| `LogImpl.Log.InstallTrans` | xv6/log.c:69-82 | takes one machine write per logged block, in commit and in recovery |
| `LogImpl.Log.ClearLog` | xv6/log.c:199-200 | ends commit or recovery with an empty header, keeping what is committed |
| `LogImpl.Log.WriteCommit` | xv6/log.c:197 | the open group becomes durable in one write |
| `LogImpl.Log.Commit` | xv6/log.c:192-202 | a group of n blocks becomes durable in exactly 2n + 2 block writes of the machine if n < NBUF, and panics with the disk untouched otherwise |
| `LogImpl.Log.EndOp` | xv6/log.c:145-174 | the last operation out leaves every write of a group of fewer than NBUF blocks in its home block, and panics otherwise |
| `LogImpl.Log.RecoverFromLog` | xv6/log.c:115-122 | ends with the committed content in place, by the machine's steps |
| `Bio.Unhook` | xv6/bio.c:132-133 | taking a buffer out leaves one ring of the others, in both directions |
| `Bio.HookFront` | xv6/bio.c:134-137 | putting a buffer behind the head gives one ring with it in front, in both directions |
| `Bio.Released` | xv6/bio.c:129-138 | after a last release the list is again in order of last release, each buffer once |
| `Bio.RecycledSame` | xv6/bio.c:78-106 | recycling an idle buffer and loading another block changes no content the cache shows |
| `Bio.ChangedOne` | xv6/bio.c:109-116 | a change to a buffer or its block shows under its own key and nowhere else |
| `Bio.Bcache.constructor` | xv6/bio.c:38-56 | the list is one ring of all NBUF empty buffers |
| `Bio.Bcache.Find` | xv6/bio.c:68-76 | the forward scan finds the block's buffer exactly if there is one |
| `Bio.Bcache.FindIdle` | xv6/bio.c:78-91 | the backward scan finds the least recently released buffer that is neither referenced nor dirty |
| `Bio.Bcache.Bget` | xv6/bio.c:61-93 | at most one buffer per block; a referenced or dirty buffer is never recycled; it panics exactly when the block is absent and no buffer is idle |
| `Bio.Bcache.Bread` | xv6/bio.c:96-106 | the locked buffer holds what the flat store shows, and nothing shown changes; it panics exactly when the block is absent and no buffer is idle |
| `Bio.Bcache.Fill` | xv6/log.c:204-232 | the holder's change, marked dirty or not, shows under its own key only |
| `Bio.Bcache.Bwrite` | xv6/bio.c:109-116 | the block on disk equals the buffer, and no other content changes |
| `Bio.Bcache.Brelse` | xv6/bio.c:120-141 | the last release moves the buffer to the front; nothing shown changes |
| `Ide.InvAlways` | xv6/ide.c:105-172 | each queued buffer appears once and the queue refines the synchronous history, in every run |
| `Ide.QueuedDriverRefinesSynchronous` | xv6/memide.c:38-60 | service is first come first served, iderw returns only after its own transfer and then gives the buffer back, and buffers and disk equal those of the synchronous driver making the same transfers in that order |
| `Ide.Driver.Append` | xv6/ide.c:155-163 | the walk over the links appends, and says whether the disk must be started |
| `Ide.Driver.Iderw` | xv6/ide.c:139-164 | queues the buffer and starts the disk for the first: exactly the machine's submit step |
| `Ide.Driver.Ideintr` | xv6/ide.c:104-133 | takes the first request off the links, completes it and starts the next: exactly the machine's interrupt step |
| `Bitmap.MarkOne` | xv6/fs.c:56-78 | setting a bit in a bitmap block marks that block and no other |
| `Bitmap.UnmarkOne` | xv6/fs.c:81-96 | clearing a bit unmarks that block and no other |
| `FsModel.Attach` | xv6/fs.c:373-401 | filling an empty address slot with an unowned block keeps every block owned from one place |
| `FsModel.AttachEntry` | xv6/fs.c:386-397 | the same for an entry of an indirect block |
| `FsModel.DataWrite` | xv6/fs.c:482-512 | writing a data block changes the bytes of its own place in its own file and nothing else |
| `Dinode.InodeRoundTrip` | xv6/fs.c:221-237 | decoding a table block after an inode was stored in it gives that inode, and the others as they were |
| `Fs.AllocSafe` | xv6/fs.c:56-78 | in a consistent state balloc never hands out a metadata or owned block and changes no byte of any file |
| `Fs.FileSystem.constructor` | xv6/fs.c:286-308 | the inodes read from the table are those of the image, and the booted file system is consistent |
| `Fs.FileSystem.Balloc` | xv6/fs.c:56-78 | the first block whose bit is clear is marked and zeroed; it fails exactly when none is |
| `Fs.FileSystem.Bfree` | xv6/fs.c:81-96 | clears one bit; the panic is exactly a bit already clear |
| `Fs.FileSystem.Bmap` | xv6/fs.c:373-401 | returns the block of the file, allocating what is missing without changing a byte of any file, within a stated number of logged blocks |
| `Fs.FileSystem.BmapIndirect` | xv6/fs.c:384-400 | the same beyond the direct blocks |
| `Fs.FileSystem.LoadIndirect` | xv6/fs.c:386-389 | the indirect block is there, allocated if it was not, and no byte of any file changes |
| `Fs.FileSystem.ReadChunk` | xv6/fs.c:470-475 | one round of the loop: the bytes up to the end of the block; a missing block is allocated, or a panic outside a transaction |
| `Fs.FileSystem.Readi` | xv6/fs.c:453-477 | returns exactly the slice of the file clipped to its size; on a file without holes it changes nothing; outside a transaction a hole in the range is a panic and otherwise nothing changes |
| `Fs.FileSystem.Iupdate` | xv6/fs.c:221-237 | decoding the inode table then gives the inode in memory; no other inode of the table, no byte of any file and no ownership changes |
| `Fs.FileSystem.WriteChunk` | xv6/fs.c:499-505 | one round extends the written part and nothing else of the file |
| `Fs.FileSystem.Writei` | xv6/fs.c:482-512 | the file is the old one with the data spliced in at the offset; no byte of another file changes; every changed block is logged; on a file without holes none appears, the inode table stays exact and the logged blocks are bounded |
| `Fs.FileSystem.FreeDirect` | xv6/fs.c:415-420 | exactly the direct blocks of one inode are given up |
| `Fs.FileSystem.FreeEntries` | xv6/fs.c:423-429 | the entries of the indirect block are freed, none of them free already |
| `Fs.FileSystem.FreeIndirect` | xv6/fs.c:422-432 | the indirect block goes too, and with it exactly these blocks of the inode are given up |
| `Fs.FileSystem.Itrunc` | xv6/fs.c:408-436 | exactly one inode's blocks are freed, none of them free already; no other file changes, and the inode table stays exact |
| `FileLayer.ChunkFits` | xv6/file.c:127-152 | one chunk at any offset logs at most MAXOPBLOCKS blocks |
| `FileLayer.ChunkTight` | xv6/file.c:127-133 | for every larger chunk the bound on its cost exceeds MAXOPBLOCKS |
| `FileLayer.SpliceTwice` | xv6/file.c:134-152 | two adjacent splices are one |
| `FileLayer.HistoryAt` | xv6/file.c:134-152 | in every history of chunks interleaved with transactions that leave the file alone, the file holds exactly the chunks written so far, and the file system is consistent |
| `FileLayer.OpenFile.WritePiece` | xv6/file.c:135-151 | one transaction, whatever others did since the last: the next chunk is spliced in at the offset, no other file changes; on a file without holes it logs at most MAXOPBLOCKS blocks and keeps the inode table exact; refused exactly past the end or beyond the largest size |
| `FileLayer.OpenFile.NextImage` | xv6/file.c:135-151 | each transaction adds one snapshot to the history |
| `FileLayer.OpenFile.Write` | xv6/file.c:117-156 | when nobody else writes in between, all chunks together are one splice at the file offset, which moves past it; it fails exactly when the offset is past the end or the file would get too large, and the file then holds what the offset moved past |
| `FileCrash.AgreeMounted` | xv6/fs.h:8-10 | disks that agree behind the log hold the same file system: ownership, bitmap, inode table and every byte |
| `FileCrash.WriteSurvivesCrash` | xv6/log.c:145-174 | a crash anywhere in filewrite, among other operations and group commits of any number of transactions, then recovery: the file system is consistent with an exact inode table, and the file has got exactly the chunks in the groups that had written their header |
| `FileCrash.WriteRuns` | xv6/file.c:134-152 | every history can be run and committed, whatever the order and number of its log_writes, with no panic of the log and no lack of buffers |
| `FileCrash.WritesExist` | xv6/log.c:204-233 | the change from one snapshot to the next can be made by log_writes of its logged blocks only |
| `Boot.ImageBoots` | xv6/mkfs.c:97-115 | the image is a clean boot state whose log is empty, large enough and before the inode table |
| `Boot.FirstWriteSurvives` | xv6/file.c:127-153 | mkfs, boot, a write to one of its files, a crash anywhere, recovery: that file has got a whole number of chunks and every other file is as mkfs left it |
| `Boot.MkfsThenWrite` | xv6/file.c:117-156 | for every list of files that fits there is such an image, and every write to it has such a history |
| `MkfsModel.MapAgrees` | xv6/mkfs.c:237-251 | the bitmap written at the end marks exactly the metadata and the blocks handed out, if the inode table has not grown into it |
| `MkfsModel.MapIsNoInode` | xv6/mkfs.c:237-251 | the start of that bitmap, read as an inode, has type 0xFFFF |
| `MkfsModel.StoreFilled` | xv6/mkfs.c:183-195 | storing an inode keeps ownership, every byte of every file and the rest of the inode table |
| `MkfsModel.RoundedHole` | xv6/mkfs.c:158-163 | rounding leaves no hole exactly when the size was no block multiple |
| `Mkfs.Image.constructor` | xv6/mkfs.c:93-115 | the empty image satisfies the building invariant |
| `Mkfs.Image.Rinode` | xv6/mkfs.c:197-208 | reads the inode that the table has, or fails behind the image |
| `Mkfs.Image.Winode` | xv6/mkfs.c:183-195 | this inode of the table, and no other, becomes the one given; no byte of any file changes while the table is before the data |
| `Mkfs.Image.Ialloc` | xv6/mkfs.c:223-235 | the next inode number, on disk with one link and no blocks; all else is kept exactly while its place is not among the data blocks |
| `Mkfs.Image.RoundRoot` | xv6/mkfs.c:158-163 | only the root's size changes, with the hole condition |
| `Mkfs.Image.BlockFor` | xv6/mkfs.c:269-286 | the block of the file, taken in order when missing, changes no byte of any file; it fails only when the image is full |
| `Mkfs.Image.AppendChunk` | xv6/mkfs.c:268-294 | one round of the loop extends the written part and nothing else |
| `Mkfs.Image.Iappend` | xv6/mkfs.c:255-297 | the data is appended to one file without a hole, no other file changes, and the inode is on disk; it fails only when the file gets too large or the image is full |
| `Mkfs.Image.Balloc` | xv6/mkfs.c:237-251 | if the inode table ends before the bitmap, the finished image is consistent with an exact inode table; an inode placed at the start of the bitmap is destroyed |
| `MkfsMain.CopyIn` | xv6/mkfs.c:152-153 | the file gets the bytes read, block by block |
| `MkfsMain.ListingEntries` | xv6/mkfs.c:120-149 | each sixteen bytes of the root directory read as an inode number, low byte first, and a name: 1 with ".", 1 with "..", then the files in order from 2 on |
| `MkfsMain.AddFile` | xv6/mkfs.c:130-156 | one more inode, one more file, one more directory entry whose bytes give its number and name, and nothing else changes |
| `MkfsMain.Build` | xv6/mkfs.c:67-168 | when mkfs succeeds, its image is a consistent file system with an exact inode table that holds every file given exactly if there are at most 206, with a root directory whose bytes name "." and ".." with inode 1 and each file with its inode; the root directory has a hole exactly when its entries fill whole blocks; it succeeds if everything fits |
| `MkfsMain.OneFileTooMany` | xv6/mkfs.c:223-251 | with 207 one-byte files mkfs succeeds and the inode of the last one is lost |
| `MkfsMain.HoleInRoot` | xv6/mkfs.c:117-163 | with thirty files the root directory has a hole |
| `LinkSteps.EnterStep` | xv6/sysfile.c:144-152 | entering the name of a file keeps every link count exact |
| `LinkSteps.NameCounts` | xv6/sysfile.c:207-212 | an inode that a name refers to is in use and has a link: the nlink panic of unlink cannot happen |
| `LinkSteps.EraseStep` | xv6/sysfile.c:218-229 | removing the name of a file keeps every count exact |
| `LinkSteps.MakeStep` | xv6/sysfile.c:264-279 | making a directory keeps every count exact |
| `Links.MadeFile` | xv6/sysfile.c:261-279 | making a file or device keeps every count exact exactly when its directory is linked |
| `LinkSteps.EmptyHasOne` | xv6/sysfile.c:213-216 | a directory found empty has its one name as only reference |
| `LinkSteps.ParentHasTwo` | xv6/sysfile.c:221-224 | its parent stays linked after its count drops |
| `LinkSteps.RemoveStep` | xv6/sysfile.c:213-229 | removing an empty directory keeps every count exact and brings its own to 0 |
| `LinkSteps.FreeStep` | xv6/fs.c:332-352 | freeing an inode without links keeps every count exact |
| `LinkSteps.EnterConservesIff` | xv6/sysfile.c:144-152 | a new name for a file conserves the counts exactly when its directory is linked |
| `LinkSteps.MakeConservesIff` | xv6/sysfile.c:264-279 | a new directory conserves the counts exactly when its parent is linked |
| `LinkSteps.RemovedParentBreaks` | xv6/sysfile.c:264-279 | a run of mkdir, rmdir and mkdir in the removed directory leaves a count wrong |
| `LinkSteps.InitialInv` | xv6/mkfs.c:117-128 | a table with only the root directory satisfies the invariant |
| `Links.Inodes.constructor` | xv6/mkfs.c:117-128 | the same for the class |
| `Links.Inodes.Dirlookup` | xv6/fs.c:525-549 | finds an entry with the name exactly if there is one |
| `Links.Inodes.Dirlink` | xv6/fs.c:552-579 | fails exactly when the name is present; otherwise fills the first vacant slot |
| `Links.Inodes.Isdirempty` | xv6/sysfile.c:168-181 | true exactly when no entry past the dots is in use |
| `Links.Inodes.BeginLink` | xv6/sysfile.c:133-142 | refused exactly for directories; the raised count is accounted for as pending |
| `Links.Inodes.EnterName` | xv6/sysfile.c:144-152 | the name is entered unless present; the pending link becomes a counted one exactly when the directory is linked |
| `Links.EnterInvIff` | xv6/sysfile.c:144-152 | entering the name keeps the invariant exactly when the directory has a link |
| `Links.Inodes.RollBack` | xv6/sysfile.c:158-164 | the failed link takes its count back |
| `Links.Inodes.EndLink` | xv6/sysfile.c:144-164 | succeeds exactly when the parent exists and lacks the name, whatever ran in between; the invariant then holds exactly when the parent is linked |
| `Links.Inodes.Link` | xv6/sysfile.c:118-165 | a failed link leaves the table as it was; a successful one adds one name and one link, and keeps the invariant exactly when the parent is linked |
| `Links.Inodes.Unlink` | xv6/sysfile.c:184-239 | removes the name of a file or empty directory; refused for dots, missing names and directories that are not empty |
| `Links.Inodes.Ialloc` | xv6/fs.c:195-215 | the first unused inode, or there is none |
| `Links.Inodes.CreateNew` | xv6/sysfile.c:261-281 | a new inode named in the directory, or a full table; the invariant holds exactly when the parent is linked |
| `Links.Inodes.Create` | xv6/sysfile.c:241-284 | an existing name is only looked at; a new one is made; the invariant holds exactly when the parent is linked |
| `Links.Inodes.Iput` | xv6/fs.c:332-352 | an inode is cleared exactly when it has no links and this was the last reference |
| `Links.ExactCounts` | xv6/sysfile.c:118-284 | with no link half made, each count is the number of entries other than "." naming the inode in linked directories, and no entry dangles |
| `HeapModel.InsertOrdered` | xv6/umalloc.c:24-44 | freeing keeps the list in address order and fully coalesced |
| `HeapModel.InsertUnits` | xv6/umalloc.c:33-42 | freeing adds exactly the units of the block |
| `HeapModel.FreedInv` | xv6/umalloc.c:24-44 | free keeps order, disjointness and the account of all units |
| `HeapModel.GrownInv` | xv6/umalloc.c:46-61 | so does a region from sbrk |
| `HeapModel.TakenInv` | xv6/umalloc.c:74-85 | so does malloc's cut; the block overlaps nothing free or live |
| `Umalloc.Units` | xv6/umalloc.c:69 | the fewest header units that hold the bytes and a header |
| `Umalloc.ScanStep` | xv6/umalloc.c:30-32 | the two exit tests hold at the block's place and nowhere else, and each step gets closer |
| `Umalloc.FreeLinks` | xv6/umalloc.c:33-42 | the pointer writes of free leave the circular list of the specification |
| `Umalloc.TakeLinks` | xv6/umalloc.c:75-83 | so do the writes of malloc |
| `Umalloc.Allocator.constructor` | xv6/umalloc.c:21-22 | before the first call nothing is free or live |
| `Umalloc.Allocator.Scan` | xv6/umalloc.c:30-32 | from any freep the scan ends at the place of the block |
| `Umalloc.Allocator.Free` | xv6/umalloc.c:24-44 | the block is on the list, merged with what it touches, and the invariant holds |
| `Umalloc.Allocator.MoreCore` | xv6/umalloc.c:46-61 | a region of at least 4096 units joins the list, or nothing changes |
| `Umalloc.Allocator.Take` | xv6/umalloc.c:75-84 | cuts the tail off a block or unlinks it |
| `Umalloc.Allocator.Malloc` | xv6/umalloc.c:63-90 | one new live block of the right size, cut from the first free block after freep that is large enough; sbrk is asked at most once and only when every free block is too small; it fails only when sbrk does |
| `PageModel.EntryWritten` | xv6/vm.c:63-83 | writing an entry changes the lookup of its page and of no other |
| `PageModel.NoSharing` | xv6/vm.c:229-257 | no two user pages have the same frame, and no mapped frame is on the free list |
| `Vm.AddressSpace.constructor` | xv6/vm.c:123-134 | a new address space maps nothing, and its free list is the one given |
| `Vm.AddressSpace.Kalloc` | xv6/kalloc.c:82-95 | the first frame of the free list, or the list is empty |
| `Vm.AddressSpace.Kfree` | xv6/kalloc.c:59-77 | the frame is free again and no mapping changes |
| `Vm.AddressSpace.Walkpgdir` | xv6/vm.c:38-58 | no lookup changes; it fails exactly without a table and memory for one, and a new table takes the first free frame and is present, writable and for the user |
| `Vm.AddressSpace.Mappage` | xv6/vm.c:63-83 | maps one page, panics exactly if it is mapped, fails exactly if there is neither a table nor a frame for one, and gives the frame to nobody on failure |
| `Vm.AddressSpace.FreePage` | xv6/vm.c:277-284 | unmaps one page and frees its frame |
| `Vm.AddressSpace.Deallocuvm` | xv6/vm.c:263-287 | the mapping loses exactly the pages of the range and their frames are free, also where directory entries are skipped |
| `Vm.AddressSpace.Allocuvm` | xv6/vm.c:229-257 | succeeds exactly when the range is vacant and the free list covers its pages and missing tables; the mapping then gains exactly the new pages, present, writable and for the user, each with a frame that was free. It panics exactly when a mapped page comes before the frames run out, and else fails; a failure drops the whole range, so it restores the mapping exactly when the range was vacant |
| `Vm.AddressSpace.FreeTable` | xv6/vm.c:299-304 | frees the table of one directory entry and nothing else |
| `Vm.AddressSpace.Freevm` | xv6/vm.c:291-306 | nothing is mapped, every frame the address space owned is on the free list again, and every other frame keeps its use |
| `Vm.SkipTable` | xv6/vm.c:274-276 | skipping a directory entry equals visiting its pages one by one |
| `Vm.UndoFill` | xv6/vm.c:241-254 | giving back the range restores the old mapping exactly when the range was vacant |
| `Vm.GrowOver` | xv6/vm.c:229-257 | with nothing free, growing over a mapped page fails and takes the page away |
| `Vm.FailedGrowthUnmaps` | xv6/vm.c:229-257 | an address space to which this happens |
| `Mlfq.PassKeepsTidy` | xv6/proc.c:388-399 | after a pass priorities are in 0..3 and no wait counter reaches its limit |
| `Mlfq.DemotedIff` | xv6/proc.c:387-393 | the process that ran loses a level exactly when it used up 32, 16 or 8 ticks at level 1, 2 or 3, and its ticks there start again |
| `Mlfq.BoostedIff` | xv6/proc.c:677-733 | a process not selected moves up exactly when it has waited 500, 320 or 160 passes at level 0, 1 or 2, and its waiting time there starts again |
| `Mlfq.NotDemotedAndBoosted` | xv6/proc.c:388-399 | no process is both demoted and boosted in one pass |
| `Mlfq.Countdown` | xv6/proc.c:677-733 | a pass spent waiting takes exactly one from the distance to the top level |
| `Mlfq.AlwaysTidy` | xv6/proc.c:359-403 | both bounds hold in every run, with any other process activity in between |
| `Mlfq.AgingIsExact` | xv6/proc.c:677-733 | a waiting process is at the top level exactly when as many passes went by as it had remaining, at most 980 |
| `Mlfq.Scheduler.Select` | xv6/proc.c:361-374 | picks the first process of the highest priority that is runnable, or there is none |
| `Mlfq.Scheduler.UpdateWaitTicks` | xv6/proc.c:677-696 | every waiting process but the selected one ages by one tick at its level |
| `Mlfq.Scheduler.PriorityBoost` | xv6/proc.c:699-733 | every process over a limit moves up one level |
| `Mlfq.Scheduler.Finish` | xv6/proc.c:386-403 | what follows a time slice is one pass of the model |
| `ExitWait.ExitFamily` | xv6/proc.c:252-293 | exit keeps a living parent for every process and wakes whoever becomes responsible for a zombie |
| `ExitWait.NoLostExits` | xv6/proc.c:205-337 | in every run every process but init has a living parent, and whoever sleeps in wait has a child, has no zombie child and is not killed |
| `ExitWait.WaitDecides` | xv6/proc.c:306-335 | one scan reaps the first zombie child exactly if there is one, returns exactly if there is none and the caller has no child or is killed, and else sleeps |
| `ExitWait.KilledReturns` | xv6/proc.c:561-578 | kill marks and wakes exactly its target, whose next scan of wait returns unless it has a zombie child |
| `ExitWait.FreedExactlyOnce` | xv6/proc.c:297-337 | in every run each stack and page directory is held by one slot until it is freed once |
| `ExitWait.Ptable.Wakeup1` | xv6/proc.c:538-546 | wakes exactly the sleepers on the channel |
| `ExitWait.Ptable.Exit` | xv6/proc.c:275-290 | the scan hands all children to init and wakes it exactly if one is a zombie |
| `ExitWait.Ptable.Scan` | xv6/proc.c:306-313 | finds the first zombie child, or says whether there are children |
| `ExitWait.Ptable.Wait` | xv6/proc.c:304-336 | the same of the loop in memory: which of the three it is follows from the table before the call |
| `Pipe.TestsAreRight` | xv6/pipe.c:85-114 | the full and empty tests are right although the 32-bit counters wrap |
| `Pipe.PipeIsFifo` | xv6/pipe.c:78-121 | in every run what readers got is a prefix of what writers put in, with at most PIPESIZE bytes in between |
| `PipeCalls.AuthoredAlways` | xv6/pipe.c:78-98 | in every run, however calls interleave, each pipewrite under way has put in exactly the part of its buffer before i; one that returned n its whole buffer, one that returned -1 a proper part from the front |
| `PipeCalls.EachInOrder` | xv6/pipe.c:84-94 | so the bytes of each call, taken out of the stream, are a prefix of its buffer, and all of it exactly when the call returned n |
| `PipeCalls.LoneWriter` | xv6/pipe.c:78-98 | a call that no other write overlaps adds exactly its buffer to the stream |
| `PipeCalls.AtMostAlways` | xv6/pipe.c:113-120 | in every run no read returns more bytes than it asked for |
| `PipeCalls.WriterDecides` | xv6/pipe.c:84-97 | by the number of bytes in the pipe: a turn of a writer returns n, puts in its next byte, returns -1 or sleeps, each exactly when it should |
| `PipeCalls.ReaderDecides` | xv6/pipe.c:106-112 | a reader sleeps exactly on an empty pipe that is open for writing, returns -1 exactly if it is killed there, and else copies |
| `PipeCalls.CopyDecides` | xv6/pipe.c:113-120 | the copy loop returns exactly with n bytes or on an empty pipe, and takes the oldest byte otherwise |
| `Pipe.JustifiedStep` | xv6/pipe.c:59-121 | a step leaves every sleeper with its reason to sleep exactly when it is not a killed writer giving up on a full pipe beside a sleeping reader |
| `Pipe.LostIffGivenUp` | xv6/pipe.c:59-121 | in every run, kills included, a wakeup is lost exactly when some killed writer gives up like that |
| `Pipe.NoLostWakeups` | xv6/pipe.c:59-121 | in particular none is lost without kills |
| `Pipe.KilledWriterLosesWakeup` | xv6/pipe.c:85-92 | a run with a kill that leaves a reader asleep on a full pipe |
| `Pipe.Buffer.constructor` | xv6/pipe.c:33-36 | the new pipe is empty |
| `Pipe.Buffer.Fill` | xv6/pipe.c:84-94 | copies in order until the data is out or the pipe is full |
| `Pipe.Buffer.Drain` | xv6/pipe.c:113-117 | returns the oldest bytes, fewer than asked only when the pipe is then empty |
| `ShellGrammar.ParsePrint` | xv6/sh.c:344-446 | parsing the symbols printed for a tree gives the tree back, for every tree with fewer than MAXARGS words per command |
| `ShellGrammar.Buildable` | xv6/sh.c:344-446 | those trees are exactly the ones the parser builds |
| `ShellText.Characters` | xv6/sh.c:262-263 | the characters that end a word are exactly the five spaces, the seven symbols and NUL |
| `ShellText.LexSymbol` | xv6/sh.c:265-308 | any run of space, tab, carriage return, newline and vertical tab separates a symbol from what follows |
| `ShellText.LexLayout` | xv6/sh.c:262-308 | reading any layout of symbols gives them back; a space is needed only between two words and after a > before another |
| `ShellText.RoundTrip` | xv6/sh.c:265-446 | parsing the text of any well-formed tree gives the tree back, whatever white space is before, between and after its symbols, a final newline included |
| `Shell.Peek` | xv6/sh.c:310-320 | true exactly when the next symbol starts with one of the characters |
| `Shell.TakeToken` | xv6/sh.c:276-300 | takes exactly the next symbol; a word is a maximal run of word characters |
| `Shell.GetToken` | xv6/sh.c:265-308 | returns the code and place of the next symbol and moves past it and the white space that follows |
| `Shell.ParseRedirs` | xv6/sh.c:374-397 | wraps the command in the redirections of the grammar, or panics as it does |
| `Shell.ParseArgs` | xv6/sh.c:429-445 | the argument loop yields the tree of the grammar, or panics as it does |
| `Shell.ExecAt` | xv6/sh.c:415-446 | agrees with the grammar on every line |
| `Shell.BlockAt` | xv6/sh.c:399-413 | agrees with the grammar at every parenthesis |
| `Shell.PipeAt` | xv6/sh.c:361-372 | agrees with the grammar on every line |
| `Shell.BacksAt` | xv6/sh.c:350-353 | takes exactly the ampersands |
| `Shell.LineAt` | xv6/sh.c:344-359 | agrees with the grammar on every line, and ends on every line |
| `Shell.NulTerminate` | xv6/sh.c:449-493 | writes a NUL at the end of each token of the tree and nowhere else |
| `Shell.EndOutside` | xv6/sh.c:449-493 | no terminator lands on a character of a word |
| `Shell.SeenIsRead` | xv6/sh.c:449-493 | then every string read up to its NUL is exactly the text of its token |
| `Shell.Strlen` | xv6/sh.c:333 | the length of the line in the buffer |
| `Shell.ParseBuffer` | xv6/sh.c:327-342 | a line panics as the grammar says, or its terminated strings form exactly the tree of the grammar |
| `Shell.ParseLayout` | xv6/sh.c:327-342 | a buffer with the text of a well-formed tree, in any layout, is parsed and terminated to exactly that tree |
| `Regex.FirstTakes` | xv6/grep.c:85-106 | a text is in the language of a pattern when its first element takes a prefix and the others the rest |
| `Regex.StarUnfolds` | xv6/grep.c:98-106 | a starred character matches before a pattern exactly when the pattern matches after some run it accepts |
| `Regex.OneUnfolds` | xv6/grep.c:93-94 | a plain character matches exactly one character |
| `Regex.MatchHere` | xv6/grep.c:85-96 | true exactly when some prefix of the text is in the language |
| `Regex.MatchStar` | xv6/grep.c:99-106 | true exactly when the rest matches after some accepted run |
| `Regex.Match` | xv6/grep.c:72-82 | true exactly when some substring is in the language, at the start after '^' and at the end before a final '$' |
| `Checksum.FoldStep` | xv6/ipv4.c:31-34 | folding each carry at once equals folding the total |
| `Checksum.OrderFree` | xv6/ipv4.c:26-37 | the sum does not depend on the order of the words |
| `Checksum.AcceptedIff` | xv6/ipv4.c:26-37 | which values of the field make the sum 0xFFFF: the complement, and 0xFFFF when the complement is 0 |
| `Checksum.ShortHeaderFails` | xv6/ipv4.c:28 | no value makes a header of length nibble 2 verify |
| `Checksum.Fold` | xv6/icmp.c:66-76 | the loop returns the complement of the one's-complement sum, and its accumulator stays within 16 bits |
| `Checksum.Ipv4Chksum` | xv6/ipv4.c:26-37 | the same for the header length that the first byte gives |
| `Checksum.IcmpChksum` | xv6/icmp.c:66-76 | the same for all 64 bytes |
| `Checksum.StoreShort` | xv6/eth.c:22-24 | a byte-swapped store puts the word in network order |
| `Checksum.SealIpv4` | xv6/icmp.c:53-54 | only bytes 10 and 11 change, and the header verifies exactly when it reaches them or summed to 0xFFFF without them |
| `Checksum.SealIcmp` | xv6/icmp.c:62-63 | only bytes 2 and 3 change, and the 64 bytes verify |

## Left out

- The UEFI loader (MyLoaderPkg), port I/O, interrupt controllers, assembly, graphics and console: hardware or libraries that are not part of this model.
- TCP, HTTP, ARP and the 32-bit byte swaps: they do not meet a clean specification.
- User-level threads and the small user programs other than the shell's parser and grep's matcher.
- The streaming loop of grep: only the matcher is modelled.
- `runcmd`, `cd` and the reading of lines in the shell. Command nodes are values, so their allocation and the sharing of the innermost node in `parseexec` are modelled by rewriting that node (`Shell.Refit`).
- Path resolution (`skipelem`, `namex`): the parent directory and the name it finds are parameters of link, unlink and create; the inode cache and its reference counts appear only as the caller's right to free.
- `copyuvm`, `copyout`, `exec`, `setupkvm` and the kernel part of the address space: only user pages are modelled, and a page table is a table of entries, not bytes of a frame.
- Major and minor device numbers of inodes.
- The names on the command line of `mkfs`: opening the files, stripping an underscore and refusing slashes; names are fourteen bytes and may repeat.
- The dispatch of `filewrite` to pipes and unwritable files.
- Device inodes: reads and writes of devices are an outcome without an effect.
- Memory ordering: spinlocks are taken to give mutual exclusion, so a step is a critical section.
- `filealloc`, `filedup` and `fileclose`: easy reference counts.
- The directory layer over the byte layer: directory entries are values in `LinkModel`, not bytes written by `Writei`; a full disk while a directory grows is not modelled.
- Link counts are unbounded in `Links`; the 16-bit field of the source could overflow after 32767 links.
- FileLayer.OpenFile.Write: is the call when no other operation runs between two chunks; `FileLayer.HistoryAt` covers those that leave the file alone, and none that writes the same file is covered.
- FileCrash.WriteSurvivesCrash: the other operations are transactions that leave this file alone and the file system consistent, and a group commit finds the state after some number of transactions in order; that the inode locks make overlapping operations look like that is taken as given.
- Vm.AddressSpace.FreeTable: clears the directory entry of the table it frees, where the source leaves it and frees the whole directory at the end.
- Buffers that are held but not dirty: the model counts the dirty buffers of the log only, so readers during a commit, or the blocks that an operation itself holds while it reads another, can bring the "no buffers" panic earlier.
- LogImpl.Log.LogWrite: takes the promise that an operation appends at most MAXOPBLOCKS blocks outside the log as given, as the source does.
- Umalloc.Allocator.Malloc: takes sizes and addresses as unbounded and the answer of sbrk as a parameter; the source assumes the same.
- Vm.AddressSpace.Allocuvm: the contents of the new frames, which the source zeroes, are not modelled.
- Vm.AddressSpace.Mappage: one page at a time; the multi-page loop of `mappages` serves the kernel part only.
- Vm.AddressSpace.Freevm: clears directory entries as it frees their tables, where the source only frees the directory page itself.
- Bio.Bcache.Bread: is the call once the buffer's sleep lock is free; the waiting itself is not modelled.
- Pipe.Buffer.Fill: is one stretch of the copy loop between two sleeps; sleeping and waking are in the transition system.
- Bio.Bcache.Brelse: giving up the sleep lock and the update of the list are one step.
