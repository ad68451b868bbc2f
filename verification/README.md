# xv6-riscv: a verified model of the kernel's hard parts

This project models, in Dafny 4.11, the parts of xv6-riscv whose correctness is hardest to see from
one function at a time, and proves what they promise: the write-ahead log with crash recovery
(`kernel/log.c`) over the buffer cache (`kernel/bio.c`), the inode layer and the name space
(`kernel/fs.c`, `kernel/file.c`, `kernel/sysfile.c`, and `mkfs/mkfs.c` as their base case), page tables
and the page allocator (`kernel/vm.c`, `kernel/kalloc.c`, the page-table part of `kernel/proc.c`),
processes with sleep and wakeup (`kernel/proc.c`), pipes (`kernel/pipe.c`), the virtqueue driver
(`kernel/virtio_disk.c`), and two user programs, the allocator (`user/umalloc.c`) and the
regular-expression matcher (`user/grep.c`).

`dafny verify dfyconfig.toml` checks everything.

## How it is built

Code that loops over memory and changes it is a class or a method with loops, proved against a
specification function. Code that several processes run at once is a transition system: a step is one
critical section, one atomic disk write or one change to a locked object, and a theorem speaks about every
sequence of steps.

- `LogDisk`, `LogMachine`, `LogTheorems`, `LogReserve`: the log as a transition system with crashes
  anywhere, refined to an atomic disk; `LogConditions`, `LogLoss` and `LogReboot`: where its promises fail,
  and exactly when; `LogCode`: `kernel/log.c` as it runs, with the history of disk writes; `CacheSpec` and
  `BufferCache`: the cache as a value and as the pointer ring of `kernel/bio.c`; `CacheUse`: how many of its
  buffers can be recycled, and when one is.
- `FsBytes`, `FsVolume`, `FsMap`, `FsWrite`, `FsCode`: bitmap, block mapping and file contents; `FsLog`: what a
  file write costs the log; `MkfsLayout`, `Mkfs`: the image mkfs makes; `LinkCount`, `Links`, `LinkCode`:
  directories, link counts and paths.
- `Kalloc`, `VmTree`, `Vm`, `VmCopy`: physical pages, Sv39 tables (section 4.4 of the RISC-V Privileged
  Architecture manual, version 20190608), address spaces, copies between kernel and user.
- `Proc`, `ProcInvariant`, `ProcTheorems`, `ProcConditions`: the process table; `ProcLocks`: the other
  spinlocks a thread holds when it calls `sched`.
- `Virtio` (split virtqueues, section 2.6 of VIRTIO version 1.1) and `VirtioSleep`: the disk driver and the
  processes that sleep in it; `Pipe`, `FreeList`, `UMalloc`, `Grep`.
- `Finite`: distinct sequences and the size of small sets.

A `panic` stops the model: a step that would panic is not enabled, or a method reports it in a result
(`ok`), or a precondition names it and the callers are proved to meet it.

## Findings

These promises are false of the code. Each has a lemma with a run or an input that breaks it and a lemma
that says exactly when it holds.

- Reference counts after recovery. `install_trans` unpins buffers it never pinned (`kernel/log.c:78`), so
  each recovered buffer counts one reference too few, modulo 2^32. `LogConditions.SafeIffNothingRecovered`:
  buffers in use are safe from reuse iff the boot recovered nothing. `LogLoss.AtomicIffNothingRecovered`:
  the log is an atomic disk in every run of a boot iff the boot recovered nothing. `LogReboot.LossReached` is
  a run from a first boot in which a committed update is lost; `CacheUse.Churn` shows that the recycling it
  takes happens after at most NBUF misses. Runs that never recycle a recovered buffer are correct after any
  recovery (`LogTheorems.RunRefines`).
- Buffers after recovery. For the same reason an idle recovered buffer is never free again.
  `CacheUse.Recover`: recovering n blocks works iff n < NBUF, and leaves NBUF - n buffers to recycle; so a
  recovery of LOGSIZE = 30 blocks panics with "bget: no buffers", and after one of 29 a single buffer is left.
  `CacheUse.OthersLeft`: that panic comes for an uncached block iff NBUF - n other blocks have references.
- Space in the log area. The test at `kernel/log.c:218` is made without the lock, and mkfs gives the log
  LOGSIZE blocks, one of them the header (`mkfs/mkfs.c:25`). `LogConditions.SpaceIffBudget`: the area is
  never overrun iff operations add fewer than MAXOPBLOCKS entries; `LogConditions.OverrunReached` is a run
  whose commit overwrites a home block. `FsLog.FileWritesFit`: file writes alone are safe iff there are at
  most three bitmap blocks; mkfs makes one.
- A killed writer. `pipewrite` returns without a wakeup when its process is killed (`kernel/pipe.c:86-89`).
  `Pipe.KilledWriterStrandsReader` leaves a reader asleep on a full pipe; `Pipe.ReadersOkIffNeverSkips` says
  readers are safe along a run iff no step of it is such an exit.
- init may miss a wakeup, as a comment in `exit` admits (`kernel/proc.c:354-361`).
  `ProcConditions.InitMisses` is the run; `ProcConditions.WaiterSafeIffNotInit`: exactly init can sleep in
  `wait` with a zombie child.
- Removing a directory that some process holds (`kernel/sysfile.c:221-229`) takes a link from its parent
  while its ".." stays. `Links.HeldDirectory` is a state where this happens;
  `Links.UnlinkKeepsIffNotHeld`: the counts stay right iff no held directory is removed.
  `Links.RemovedIsLimbo`: they are right again once the last holder lets go.
- mkfs rounds the root directory's size up even if its entries fill their last block
  (`mkfs/mkfs.c:166-171`). `Mkfs.Image.Make`: every block below a size is mapped iff `(files + 2) * 16` is no
  multiple of BSIZE; `Mkfs.SixtyTwoFiles` is an image where it is not, and there reading the root allocates
  (`Mkfs.Boot`).
- mkfs never compares names (`mkfs/mkfs.c:131-164`). `Links.FormattedOkIffNamesDiffer`: the directories are
  in order iff the names, cut to DIRSIZ bytes, differ; `Links.TwinNames` is an image with two equal ones.
- `readi` returns nothing if `off + n` wraps around 2^32, even though there is something to read
  (`kernel/fs.c:461`). `FsCode.MinusOneReadsNothing` is read(fd, p, -1) at offset 1, whose count
  `sys_read` and `fileread` pass on; `FsCode.ReadsAllIffNoWrap`: a read gives what its caller expects iff the
  sum does not wrap or there is nothing to read.
- `morecore` passes a byte count to `sbrk(int)` (`user/umalloc.c:54`). `UMalloc.HugeAsksForNothing`:
  malloc(0xfffffff0) asks for 0 bytes and records 2^28 units; `UMalloc.AsksRightIffBelow2GB`: sbrk() gives
  what is recorded iff the request is at most 0x7fffffe0 bytes.
- `grep` stops at a line that fills its buffer (`user/grep.c:17`). `Grep.GrepFile`: it reads less than all of
  its input iff some line of it begins with BUFSIZE - 1 characters without a newline and the input goes on;
  `Grep.LongLineHides` is an input whose matching line is then not printed.

## Model

| member | source | states |
|---|---|---|
| LogDisk.HeaderRoundTrip | kernel/log.c:84-112 | the header that write_head() stores is the one read_head() reads back |
| LogDisk.LogSlotInvisible | kernel/log.c:177-190 | while the on-disk header is empty, writing a log slot does not change what recovery would restore |
| LogDisk.HeaderCommits | kernel/log.c:99-112 | once the slots are filled, the header write alone turns the recoverable state from the old home blocks into the overlaid ones |
| LogDisk.InstallInvisible | kernel/log.c:67-82 | copying a logged block home does not change what recovery would restore |
| LogDisk.ClearInvisible | kernel/log.c:193-202 | erasing the header after all blocks are home does not change what recovery would restore |
| LogDisk.RecoveredIsClean | kernel/log.c:115-122 | recovery leaves an empty header and the durable contents, and recovering twice is recovering once |
| LogMachine.BeginKeeps | kernel/log.c:126-141 | admission of an operation keeps the invariant, reservations included |
| LogMachine.EndKeeps | kernel/log.c:146-174 | the end of an operation keeps it, and the last one starts the commit |
| LogMachine.GetKeeps | kernel/bio.c:58-89 | bget() keeps exact reference counts and changes no logical block |
| LogMachine.RecycleKeeps | kernel/bio.c:76-87 | taking an unreferenced buffer, not a recovered one, for another block changes no logical block |
| LogMachine.StoreKeeps | kernel/log.c:213-234 | log_write() absorbs a block already logged or pins and appends it, and changes no logical block |
| LogMachine.HeadDurable | kernel/log.c:193-202 | the header write of a commit makes exactly the logical blocks durable |
| LogMachine.InstallKeeps | kernel/log.c:67-82 | installing a block unpins its buffer, keeps all counts exact and changes no logical block |
| LogMachine.ReplayClearKeeps | kernel/log.c:115-122 | the end of recovery establishes the running invariant, recovered buffers one reference short |
| LogMachine.StepRefines | kernel/log.c:67-234 | every step of operations, cache, commit, crash and recovery keeps the invariant and is one step, or none, of an atomic disk |
| LogTheorems.RunRefines | kernel/log.c:67-234 | every run, with crashes and recoveries anywhere, is a run of an atomic disk as long as no recovered buffer is recycled |
| LogTheorems.CrashRestoresLastCommit | kernel/log.c:115-122 | after any such run recovery restores exactly what operations saw at the last header write |
| LogTheorems.GroupsAreWhole | kernel/log.c:146-174 | at every header write no operation is in progress, so groups of operations are all or nothing |
| LogTheorems.RepeatedCrashes | kernel/log.c:67-122 | crashing any number of times inside recovery, the system comes up with the home blocks that were durable before |
| LogTheorems.Transparent | kernel/bio.c:58-151 | a buffer is recyclable exactly at the count of references the invariant gives; recycled ones agree with the disk and have no user; holders see the logical block and write_log() copies it |
| LogReserve.StepReserves | kernel/log.c:126-174 | every step keeps the reservation invariant, for any log area and any budget up to MAXOPBLOCKS |
| LogReserve.SpaceInEveryRun | kernel/log.c:213-234 | in every run logged blocks are distinct, entries plus unused reservations fit LOGSIZE, committing means no open operation, and a new entry has a place in the header without the unlocked test |
| LogReserve.HeaderFrozen | kernel/log.c:146-174 | from end_op() to the end of commit() only the committer changes the header |
| LogReserve.SlotForEntry | kernel/log.c:213-234 | where the log area fits the admission limit, a new entry has a slot on disk |
| LogConditions.SafeIffNothingRecovered | kernel/log.c:73-81 | from the end of recovery on, no buffer in use can be recycled iff nothing was recovered |
| LogConditions.OneReadBreaksIt | kernel/log.c:73-81 | one bread() of a recovered block makes it recyclable while in use |
| LogConditions.RaceOverfills | kernel/log.c:213-234 | with a full budget two operations pass the unlocked test together and fill the log to LOGSIZE entries |
| LogConditions.SpaceIffBudget | kernel/log.c:218-221 | on mkfs's layout no run outgrows the log area iff operations add fewer than MAXOPBLOCKS entries |
| LogConditions.OverrunReached | kernel/log.c:177-190 | with a full budget a reachable write_log() step overwrites the home block after the log area |
| LogLoss.RunLoses | kernel/log.c:73-81 | after a recovery there is a run that commits an update of a recovered block and keeps the old contents durable |
| LogLoss.AtomicIffNothingRecovered | kernel/log.c:67-122 | from the end of recovery on, every run is a run of an atomic disk iff nothing was recovered |
| LogReboot.Reboot | kernel/log.c:115-122 | after a crash in any state the boot comes to the end of recovery with exactly the blocks of the header recovered |
| LogReboot.LossReached | kernel/log.c:67-122 | from a first boot with an empty log a run with one crash leads to a boot with a recovered block, and on to a commit that loses an update |
| LogCode.CommitAtomic | kernel/log.c:177-202 | every disk during write_log() recovers to the state before the transaction, every disk from the header write on to the state after it |
| LogCode.RecoverTraceRecovers | kernel/log.c:67-122 | every disk during recovery recovers to the same state, and recovery ends with it at home |
| LogCode.Log.ReadHead | kernel/log.c:84-96 | the loop reads the list of logged blocks off the header block |
| LogCode.Log.WriteHead | kernel/log.c:99-112 | the loop writes the list into the header block with one disk write |
| LogCode.Log.WriteLog | kernel/log.c:177-190 | the loop fills the log slots with the latest contents of the logged blocks, one write each, in order |
| LogCode.Log.InstallTrans | kernel/log.c:67-82 | the loop copies slot after slot home |
| LogCode.Log.RecoverFromLog | kernel/log.c:115-122 | it ends with the durable contents at home and an empty header, and a crash after any of its writes recovers to the same |
| LogCode.Log.Commit | kernel/log.c:193-202 | a crash before the header write recovers to the old home blocks, from it on to the new ones; an empty transaction writes nothing |
| LogCode.Log.LogWrite | kernel/log.c:213-234 | a new block is appended, a logged one absorbed, and the panics are exactly the two tests |
| BufferCache.BCache.constructor | kernel/bio.c:36-54 | binit() links all buffers into one ring with inverse pointers |
| BufferCache.BCache.Find | kernel/bio.c:66-74 | the forward scan finds the one buffer of a cached block, or none |
| BufferCache.BCache.Victim | kernel/bio.c:76-87 | the backward scan finds the unreferenced buffer whose last move to the front is oldest, or none if all are in use |
| BufferCache.BCache.Bget | kernel/bio.c:58-89 | a hit counts a reference, a miss recycles that buffer, and each block has at most one buffer |
| BufferCache.BCache.Bread | kernel/bio.c:92-103 | a buffer that is not valid gets the disk contents, a valid one keeps its own |
| BufferCache.BCache.Bwrite | kernel/bio.c:106-112 | the disk block gets the buffer's contents |
| BufferCache.BCache.Bpin | kernel/bio.c:139-144 | one reference more |
| BufferCache.BCache.Bunpin | kernel/bio.c:146-151 | one reference less, modulo 2^32 |
| BufferCache.BCache.Brelse | kernel/bio.c:116-137 | one reference less; at zero the buffer moves to the front of the ring with the next time stamp, the others keep order and stamps |
| CacheUse.NoneLeftIff | kernel/bio.c:76-88 | bget() finds no buffer to recycle iff NBUF blocks have references |
| CacheUse.Recover | kernel/log.c:67-82 | recovery of n blocks gets through iff n < NBUF; each of them then counts 2^32 - 1 and all other buffers 0 |
| CacheUse.OthersLeft | kernel/bio.c:76-88 | with n recovered blocks there is no buffer left iff NBUF - n others have references |
| CacheUse.Churn | kernel/bio.c:58-137 | an unreferenced buffer is recycled by the time NBUF uncached blocks have been read |
| FsBytes.SetBitAt | kernel/fs.c:72-80 | setting a bit of a bitmap block changes that bit alone |
| FsBytes.ClearBitAt | kernel/fs.c:95-100 | clearing a bit changes that bit alone |
| FsBytes.PutWordAt | kernel/fs.c:396-400 | a word stored in an indirect block is read back, and no other word changes |
| FsCode.Volume.constructor | kernel/fs.c:40-46 | a volume on an image with exact bitmap and unshared blocks; it is valid iff every block below a size is mapped |
| FsMap.EntryMaps | kernel/fs.c:391-401 | a new entry of an indirect block names one block more and changes no byte of any file |
| FsCode.Volume.Balloc | kernel/fs.c:64-86 | the lowest free block is marked and zeroed; no free block is no result |
| FsCode.Volume.Bfree | kernel/fs.c:89-103 | exactly one set bit is cleared |
| FsCode.Volume.Bmap | kernel/fs.c:377-405 | an existing block is returned without any change; otherwise one or two formerly free zeroed blocks are named, nothing else moves, and the bitmap stays exact |
| FsCode.Volume.Readi | kernel/fs.c:455-476 | the bytes content[off..min(off+n, size)], a hole reading as zeroes, and none if off + n wraps; it allocates iff a block it reads is not mapped, so never on a valid volume |
| FsCode.ReadsAllIffNoWrap | kernel/fs.c:461-462 | that is what a reader expects iff off + n does not wrap or there is nothing to read |
| FsCode.MinusOneReadsNothing | kernel/fs.c:461-462 | a count of -1 at offset 1 reads nothing of a file of two bytes or more |
| FsWrite.DataWrote | kernel/fs.c:494-503 | a copy into a data block changes exactly the bytes of the file it covers, and no byte of any other |
| FsCode.Volume.Writei | kernel/fs.c:482-514 | exactly content[off..off+n] is replaced, other files keep theirs, -1 and no change if off is beyond the size or the end beyond MAXFILE; bitmap and names stay exact on every sound volume, mapped sizes on a valid one |
| FsCode.Volume.Itrunc | kernel/fs.c:409-437 | exactly the blocks the inode owned become free ("freeing free block" cannot happen), other files keep their contents |
| FsCode.Volume.WriteChunk | kernel/file.c:155-174 | one turn of filewrite() logs at most 6 + min(5, bitmap blocks) distinct blocks |
| FsCode.Volume.FileWrite | kernel/file.c:148-175 | the chunks together are one write of the part that was accepted, each transaction within the bound; where it stops short, the next chunk could not have been written |
| FsCode.ChunkBound | kernel/file.c:148-160 | a chunk of three blocks' length at any offset touches four blocks, so the transaction stays within the bound |
| FsCode.GrownTwice | kernel/file.c:155-174 | two chunks, one behind the other, are one longer write |
| FsCode.Truncated | kernel/fs.c:409-437 | dropping an inode's blocks leaves all names, mappings and other files in order |
| FsCode.InodesStay | kernel/fs.c:377-405 | where no block is unmapped, the blocks below each size stay mapped |
| FsLog.WithinOpBlocks | kernel/param.h:9-12 | the bound is 7 with one bitmap block and within MAXOPBLOCKS iff there are at most four |
| FsLog.FileWritesFit | kernel/log.c:126-141 | file writes never outgrow mkfs's log area iff there are at most three bitmap blocks |
| FsLog.FileWriteFits | kernel/file.c:148-175 | every transaction of filewrite() logs at most the budget FileWritesFit takes, and with at most three bitmap blocks fits the log area |
| MkfsLayout.MapEntry | mkfs/mkfs.c:284-293 | a new entry of the indirect block names the next free block, so that the named blocks stay one range, and changes no byte of any file |
| MkfsLayout.Copies | mkfs/mkfs.c:295-298 | copying a piece into its block changes exactly the bytes it covers |
| Mkfs.Image.Iappend | mkfs/mkfs.c:264-305 | the file's contents grow by the bytes appended, other files keep theirs, blocks are handed out in order |
| Mkfs.Image.AppendFile | mkfs/mkfs.c:160-161 | appending a file BSIZE bytes at a time stores its bytes |
| Mkfs.Image.AddFile | mkfs/mkfs.c:131-164 | each file gets the next inode, a root entry and its bytes |
| Mkfs.Image.BitsBelow | mkfs/mkfs.c:245-259 | exactly the bits of the used blocks are set |
| Mkfs.Image.Make | mkfs/mkfs.c:67-175 | the finished image names no block twice and its bitmap is exact; every block below a size is mapped iff the root entries do not fill their last block; the root lists the files and the inodes hold them |
| Mkfs.Boot | mkfs/mkfs.c:67-175 | the kernel's volume on the image is sound; it is valid iff the root entries do not fill their last block, and iff reading the root does not allocate |
| Mkfs.RootReads | kernel/fs.c:455-476 | reading the root to its end meets an unmapped block iff its entries fill their last block |
| Mkfs.FullRoot | mkfs/mkfs.c:166-171 | otherwise the root has an unmapped block below its size |
| Mkfs.SixtyTwoFiles | mkfs/mkfs.c:166-171 | 62 files on the shipped layout are such an image |
| Links.LinkKeeps | kernel/sysfile.c:119-166 | a new link keeps link counts, unique names and the tree of directories, without cycles |
| Links.CreateKeeps | kernel/sysfile.c:241-284 | a new file, device or directory keeps them |
| Links.UnlinkKeeps | kernel/sysfile.c:184-239 | removing a name keeps them |
| Links.UnlinkKeepsIffNotHeld | kernel/sysfile.c:184-239 | removing a name keeps them iff it is not that of a directory somebody holds |
| Links.HeldDirectory | kernel/sysfile.c:184-239 | mkdir in an empty root, then rmdir while it is open, breaks a count |
| Links.RemovedIsLimbo | kernel/sysfile.c:184-239 | a removed directory that is held leaves everything right but its own "..", so freeing it restores the invariant |
| Links.NamedIsLinked | kernel/sysfile.c:211-212 | a named inode has a link, so "unlink: nlink < 1" cannot happen |
| Links.DropKeeps | kernel/fs.c:332-358 | the last iput() of an unlinked file frees it and keeps the invariant |
| Links.FormattedOkIffNamesDiffer | mkfs/mkfs.c:118-164 | the directories mkfs makes are in order iff the names, cut to DIRSIZ, differ from each other and from "." and ".." |
| Links.TwinNames | mkfs/mkfs.c:131-164 | two equal names are enough to break it |
| LinkCode.SkipElem | kernel/fs.c:596-619 | it splits off the first element of a path, cut to DIRSIZ, and there is none iff the path has none |
| LinkCode.ReachedIffLinked | kernel/fs.c:625-658 | after any calls that keep the invariant, an inode is at the end of a path from the root iff its link count is not zero |
| LinkCode.NameSpace.constructor | mkfs/mkfs.c:118-164 | the name space of mkfs, valid iff the cut names differ |
| LinkCode.NameSpace.DirLookup | kernel/fs.c:526-550 | the first entry of that name, or none |
| LinkCode.NameSpace.DirLink | kernel/fs.c:553-580 | the entry goes to the first free place or the end; -1 and no change if the name is there |
| LinkCode.NameSpace.IsDirEmpty | kernel/sysfile.c:169-182 | true iff no entry but the first two is in use |
| LinkCode.NameSpace.Namex | kernel/fs.c:625-658 | the inode, or the parent and last name, that the elements of the path lead to |
| LinkCode.NameSpace.Ialloc | kernel/fs.c:195-215 | a free inode is taken, or there is none |
| LinkCode.NameSpace.Create | kernel/sysfile.c:241-284 | it keeps the invariant and does what the path says: nothing, the existing file, or a new one |
| LinkCode.NameSpace.Link | kernel/sysfile.c:119-166 | it keeps the invariant; a failure undoes the count, success adds the entry |
| LinkCode.NameSpace.Unlink | kernel/sysfile.c:184-239 | it refuses exactly "." and "..", missing names and directories in use, and keeps the invariant iff the removed directory is not held; otherwise all is right but that directory's ".." |
| LinkCode.NameSpace.Drop | kernel/fs.c:332-358 | iput() of the last reference frees an unlinked inode, a removed directory too, and then the invariant holds |
| Kalloc.Memory.constructor | kernel/kalloc.c:26-31 | every whole page between the kernel and PHYSTOP is on the list |
| Kalloc.Memory.Freerange | kernel/kalloc.c:33-40 | exactly the whole pages of the range are added |
| Kalloc.Memory.Kfree | kernel/kalloc.c:46-63 | one page is pushed, no other page is written |
| Kalloc.Memory.Kalloc | kernel/kalloc.c:68-82 | the first page is popped, 0 iff the list is empty |
| VmTree.EntryRoundTrip | kernel/riscv.h:336-343 | PTE2PA undoes PA2PTE and the flags are kept apart |
| VmTree.IndicesNamePage | kernel/riscv.h:345-348 | the three 9-bit indices name a page uniquely |
| VmTree.HangKeeps | kernel/vm.c:71-89 | a new table page keeps the tree unshared and changes no translation |
| VmTree.SetLeafKeeps | kernel/vm.c:148-168 | storing a leaf entry changes one page's translation |
| Vm.Walk | kernel/vm.c:71-89 | it finds the entry of a page; missing tables are added only with alloc set, from free pages, and no translation changes |
| Vm.Mappages | kernel/vm.c:148-168 | exactly the pages of the range are mapped, in order; on failure a prefix of them; "remap" cannot happen where nothing was mapped |
| Vm.Uvmunmap | kernel/vm.c:173-195 | exactly the named pages lose their translation, and with do_free their pages are freed once each |
| Vm.Uvmclear | kernel/vm.c:340-349 | the user bit of one entry goes, and nothing else |
| Vm.Uvmdealloc | kernel/vm.c:258-270 | the pages above the new size go back, the others stay |
| Vm.Uvmalloc | kernel/vm.c:228-252 | zeroed pages are added up to the new size, or every page taken for users is given back and no translation changes; no page is lost |
| Vm.Uvmcopy | kernel/vm.c:308-336 | the child gets byte-equal pages with equal flags that the parent does not share, or every page is given back; the parent is untouched |
| Vm.Freewalk | kernel/vm.c:274-290 | exactly the table pages under a table are freed, each once; "freewalk: leaf" cannot happen |
| Vm.Uvmfree | kernel/vm.c:294-300 | all pages of the space and all its tables go back, each once |
| Vm.Uvmcreate | kernel/vm.c:199-208 | an empty tree from one free page |
| Vm.ProcPagetable | kernel/proc.c:157-186 | a table with trap frame and trampoline alone, or every page is given back |
| Vm.ProcFreepagetable | kernel/proc.c:190-196 | every page the process owned is freed exactly once, and the trap frame and trampoline pages are not |
| VmCopy.Walkaddr | kernel/vm.c:94-112 | the physical page of a page user code may use, and 0 for every other address |
| VmCopy.ProcIsUserSpace | kernel/proc.c:157-186 | the space of a process hides trap frame and trampoline from user code, so the copies below apply to it |
| VmCopy.Copyout | kernel/vm.c:354-375 | it succeeds iff user code may use the whole range; src is in place up to the first page that is not, and no other byte and no translation changes |
| VmCopy.Copyin | kernel/vm.c:379-400 | it succeeds iff user code may use the whole range, and returns its bytes |
| VmCopy.Copyinstr | kernel/vm.c:405-442 | the bytes before the first zero; it fails iff there is none within max or before a page user code may not use |
| VmCopy.CopyRoundTrip | kernel/vm.c:354-400 | what copyout() put is what copyin() gets |
| ProcInvariant.StepKeeps | kernel/proc.c:258-612 | every step of scheduler, sched, sleep, wakeup, fork, exit, wait, reparent and kill keeps the process-table invariant |
| ProcTheorems.EveryRun | kernel/proc.c:258-612 | so the invariant holds in every run |
| ProcTheorems.RunningIffOnOneCpu | kernel/proc.c:456-529 | no process is on two CPUs, and with its lock free a process is RUNNING iff exactly one CPU runs it |
| ProcTheorems.ParentsAreAlive | kernel/proc.c:305-393 | every used process but init has a parent that is neither UNUSED nor ZOMBIE |
| ProcTheorems.WaiterHasNoZombie | kernel/proc.c:397-447 | a process other than init that sleeps in wait() with its lock free has no zombie child |
| ProcTheorems.NoLostWakeup | kernel/proc.c:554-600 | a wakeup that starts after a process has gone to sleep on that channel returns only after it has left that sleep |
| ProcTheorems.SchedNeverPanics | kernel/proc.c:500-518 | whoever switches holds its own lock and no other process's and is not RUNNING, and a process that has exited stays a zombie |
| ProcLocks.SchedFindsOneLock | kernel/proc.c:500-518 | with all spinlocks counted, sched() finds p->lock to be the only one in every run in which sleep() is called with one lock and yield(), fork(), exit() and wait() with none |
| ProcLocks.SleepOkIffOneLock | kernel/proc.c:554-577 | a call of sleep() comes to sched() with noff == 1 iff it was made with exactly one spinlock held |
| ProcConditions.InitMisses | kernel/proc.c:332-393 | a run after which init sleeps in wait() with a zombie child |
| ProcConditions.WaiterSafeIffNotInit | kernel/proc.c:397-447 | a process never sleeps in wait() with a zombie child, in all runs, iff it is not init |
| Pipe.TestsExact | kernel/pipe.c:85-110 | the two tests on the wrapping counters tell a full and an empty pipe exactly |
| Pipe.PutQueues | kernel/pipe.c:95 | storing a byte queues it, through wrap-around |
| Pipe.TakeQueues | kernel/pipe.c:120 | taking a byte dequeues the oldest one |
| Pipe.Buffer.Write | kernel/pipe.c:84-96 | the bytes queued are a prefix of those given, short only if the pipe is full |
| Pipe.Buffer.Read | kernel/pipe.c:117-123 | the bytes taken are the oldest ones, short only if the pipe is empty |
| Pipe.EveryRun | kernel/pipe.c:58-127 | in every run what was read is a prefix of what was written, at most PIPESIZE bytes are inside, and with the lock free a sleeping writer faces a full pipe with an open reader |
| Pipe.ReadersKept | kernel/pipe.c:84-99 | a step keeps sleeping readers justified iff it is not a killed writer's exit that leaves some asleep |
| Pipe.ReadersOkIffNeverSkips | kernel/pipe.c:76-127 | readers stay justified along a whole run iff it has no such step; then a sleeping reader faces an empty pipe with an open writer |
| Pipe.KilledWriterStrandsReader | kernel/pipe.c:86-89 | a run that leaves a reader asleep on a full pipe |
| Virtio.AtMostTwo | kernel/virtio_disk.c:168-249 | at most two requests are in flight |
| Virtio.InterruptTestExact | kernel/virtio_disk.c:256 | the comparison modulo NUM tells exactly whether a completion is waiting |
| Virtio.HandleRight | kernel/virtio_disk.c:256-266 | an interrupt releases the buffer of the request it finds, once |
| Virtio.FreesThree | kernel/virtio_disk.c:142-152 | freeing a chain frees its three descriptors |
| Virtio.Have3Exact | kernel/virtio_disk.c:154-166 | three descriptors are found iff there are three free ones |
| Virtio.StepKeeps | kernel/virtio_disk.c:115-270 | every step of driver and device keeps free descriptors and live chains a partition of the table |
| Virtio.EveryRun | kernel/virtio_disk.c:115-270 | in every run, for any order of completions, at most two requests are in flight and the interrupt test is exact |
| VirtioSleep.StepKeeps | kernel/virtio_disk.c:168-270 | every step of the processes in virtio_disk_rw(), of kill(), of the device and of the interrupt keeps the sleepers justified |
| VirtioSleep.EveryRun | kernel/virtio_disk.c:168-270 | in every run, with the lock free, who sleeps for descriptors faces fewer than three free ones and a request under way, who sleeps for a buffer faces b->disk == 1, and the process of a handled request is awake |
| Virtio.Driver.AllocDesc | kernel/virtio_disk.c:115-126 | the first free descriptor, or none |
| Virtio.Driver.FreeDesc | kernel/virtio_disk.c:128-139 | one descriptor becomes free |
| Virtio.Driver.Alloc3 | kernel/virtio_disk.c:154-166 | the first three free descriptors, or no change |
| Virtio.Driver.Request | kernel/virtio_disk.c:168-238 | the request is offered as a chain of three descriptors, or nothing changes for want of them |
| Virtio.Driver.Interrupt | kernel/virtio_disk.c:251-270 | every completed request is handled once, in any order the device chose, and no other |
| Virtio.Driver.Release | kernel/virtio_disk.c:241-248 | the chain of a handled request is freed, no descriptor twice |
| FreeList.InsertKeeps | user/umalloc.c:24-44 | inserting a block with coalescing keeps the list ordered, disjoint and non-touching |
| FreeList.InsertUnits | user/umalloc.c:24-44 | the units of the list afterwards are those before plus the block's |
| FreeList.TakenUnits | user/umalloc.c:75-85 | taking the tail of a block conserves units |
| UMalloc.Heap.Search | user/umalloc.c:30-32 | the circular search terminates at the place where the block belongs |
| UMalloc.Heap.Free | user/umalloc.c:24-44 | the block leaves the live ones and joins the list, one address-ordered cycle |
| UMalloc.Heap.Morecore | user/umalloc.c:46-61 | a fresh region of at least 4096 units joins the list, or nothing changes |
| UMalloc.Heap.FirstFit | user/umalloc.c:74-89 | the first block behind freep that is large enough, all passed over being too small; or all are |
| UMalloc.Heap.Malloc | user/umalloc.c:63-90 | a block disjoint from all live ones and large enough after at most one morecore(), or 0 and no change if sbrk() fails; it goes wrong iff no block is large enough, sbrk() does not fail and the request is above 0x7fffffe0 bytes |
| UMalloc.AsksRightIffBelow2GB | user/umalloc.c:46-61 | sbrk() is asked for what morecore() records iff the request is at most 0x7fffffe0 bytes |
| UMalloc.HugeAsksForNothing | user/umalloc.c:46-61 | malloc(0xfffffff0) asks for 0 bytes and records 2^28 units |
| Grep.MatchHere | user/grep.c:83-94 | true iff the text begins with a word of the pattern |
| Grep.MatchStar | user/grep.c:97-104 | true iff the text begins with repetitions of the character and then a word of the rest |
| Grep.Match | user/grep.c:70-80 | true iff some substring, the beginning for a leading ^, is in the pattern's denotation |
| Grep.PrintLines | user/grep.c:20-28 | the complete lines in the buffer that match are printed |
| Grep.GrepLoop | user/grep.c:10-34 | however read() cuts the input up, the output is the matching lines of what was read; it never gets past a line that is too long for the buffer |
| Grep.GrepFile | user/grep.c:10-34 | the same for the matcher of grep.c; if read() gives all it can, the input is read to its end iff no line is too long |
| Grep.LongLineHides | user/grep.c:10-34 | a line of BUFSIZE characters hides a matching line behind it |

## Left out

- Assembly, boot and hardware registers: a context switch is the hand-off of `p->lock` between scheduler and process; the disk is an atomic block map and the virtio device a nondeterministic completer.
- Memory fences and spin loops: locks are atomic owner fields.
- Console, printf, traps, system-call argument decoding, exec, the shell and the small user programs: plumbing with easy claims.
- Failed copies in writei() and readi(): user copies succeed there; copyout(), copyin() and copyinstr() have their own contracts.
- Capacity of the buffer cache in `LogMachine`: any number of blocks may be cached, and any unreferenced one recycled; "bget: no buffers" and the order of recycling are modelled in `BufferCache` and `CacheUse` alone. Buffers of the log area are written through.
- Sleep locks inside `BufferCache`: the checks that the caller holds a buffer's lock are left to `LogMachine`.
- Liveness: an operation that waits in begin_op(), a sleeping process and a full pipe are only proved safe. Deadlock freedom of exit() and wait() is not claimed.
- The inode cache (iget(), ilock(), reference counts of inodes) and how dinodes are packed into blocks: inodes are a sequence beside the blocks; a held inode is a parameter.
- LogConditions.SpaceIffBudget: assumes at least LOGSIZE blocks after the log area.
- FsLog.FileWritesFit: counts operations that are chunks of filewrite(); create, link and unlink transactions are not bounded here.
- Mkfs.Image.Make: takes the short names and the bytes of the files; running out of inodes or of blocks is a failure, where mkfs writes beyond its area. The sufficient condition for success is generous.
- Links and Mkfs are two views of the same directories: names are character strings in the one, bytes in the other, and no lemma relates them.
- LinkCode.NameSpace.Create: like link and unlink it starts from the invariant; calls between the removal of a held directory and its last iput() are not covered.
- Link counts are integers: the 16-bit wrap-around of nlink is not modelled. Calls run one after the other.
- UMalloc.Heap.Malloc: sbrk() grants a fresh region or none; what happens after it gave less than morecore() records is not followed.
- Vm.Mappages: sizes are within MAXVA; growproc()'s 32-bit arithmetic and the kernel's own page table are not modelled.
- Grep.GrepFile: the input has no zero bytes, at which strchr() would stop.
- Proc: process identifiers, open files, names and user memory are left out; a killed process that sleeps becomes runnable, and what it then does is up to its code.
- LogCode.Log.InstallTrans: bunpin() and the buffers' counts are in `LogMachine` and `CacheUse`.
- LogCode.Log.LogWrite: bpin() is in `LogMachine`.
- FsCode.Volume.constructor: reading the super block and the log's recovery are not part of it.
- Mkfs.SixtyTwoFiles: one image with empty files; `Mkfs.FullRoot` is about all images.
- ProcTheorems.SchedNeverPanics: counts process locks; `ProcLocks` counts the others.
- Virtio.Driver.FreeDesc: desc.addr is not modelled; the wakeup is in `VirtioSleep`.
- Virtio.Driver.Request: addresses, lengths and directions of the descriptors and the status byte are left out.
- Virtio.Driver.Interrupt: no completion arrives while its loop runs (in `Virtio.EveryRun` they may); the panic on a bad status is left out.
- LogLoss.RunLoses: which buffer is recycled is free there; `CacheUse.Churn` gives the reads that force it.
- Virtio.FreesThree: the loop of free_chain() is a function bounded by NUM.
