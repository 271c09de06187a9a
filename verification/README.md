# A verified model of xv6-riscv with mirrored disks

The project models the parts of this xv6 variant whose correctness depends on state kept across many
calls, and proves what each part is for. The kernel keeps every logical block on two halves of one
device (RAID 1), logs file system updates, follows symbolic links while resolving paths, and checks
permission bits. The user programs modelled are the storage allocator, the shell's parser, the
recursive `chmod` and the matcher of `grep`.

`dafny verify dfyconfig.toml` checks all files. `Wrappers.dfy` holds `Option`; `Blocks.dfy` holds
blocks, words in blocks and sequences of writes.

**Storage.** `MirroredDisk` says which physical writes one `bwrite` makes. `MirrorRuns` follows whole
histories of writes and failing or returning disks. `CrashRecovery` gives commit and recovery as
sequences of physical writes and cuts them off anywhere, any number of times; what matters of a
replica is how many blocks have been installed on it and whether its header lists the transaction.
`Failover` lets the disk that is down change from boot to boot. `BufferCache` and
`RedoLog` are the C functions as classes over a ghost view of what the users of the layer read: the
last logged contents of every block or, while disk 0 is down, what disk 1 holds. `RedoLog.Log.Commit`
and `RecoverFromLog` are proved to make exactly the write sequences that `CrashRecovery` reasons about.
`LogReservation` is the state machine of `begin_op`, `log_write` and `end_op`; the class `RedoLog.Log`
takes its steps.

**Memory.** `PageTables` gives three-level tables one flat meaning per root: a partial map from page
numbers to entries. `TableRemoval` and `VirtualMemory` are the operations on them, with an owner for
every page of the allocator's pool: free, held by the kernel, or at one place in one table.

**Files.** `Inodes` and `FileSystem` give every block one owner and every inode one byte sequence.
`Mkfs` builds the first image. `LinkCounts` is the directory tree with its counts. `PathWalk` is name
resolution with inode reference counts.

**Processes and devices.** `SleepWakeup` interleaves scheduler and threads on any number of CPUs, one
atomic step at a time. Threads sleep on any condition that a spinlock guards, change such conditions,
and wake sleepers up inside the spinlock or after leaving it; sleep-locks are the case in which only
the holder makes the condition true. `SchedulerProgress` shows what can still be done from every
reachable state: run, sleep, be woken up, take a lock, kill. `VirtioRing` is the driver's descriptor ring together with the device.

**User programs.** `Malloc`, `ShellGrammar`, `ShellLines`, `ShellParser`, `RecursiveChmod`, `RegexpMatcher`.

Where the code does not do what its comments or its design promise, the model follows the code:

- `install_trans` unpins blocks during recovery that were never pinned, so a block installed at boot
  is left one reference short (`RedoLog.Log.RecoverFromLog`), and the next update of it is lost
  (`RedoLog.Log.UpdateLost`).
- `bread` goes to disk 1 for every read while disk 0 is down, also for a valid buffer. An update that
  was logged is lost at the next read (`RedoLog.Log.DegradedUpdateLost`), and a commit writes back what
  disk 1 held (`RedoLog.Log.CommitDegraded`), so no home block changes over any history of such commits
  and crashes (`CrashRecovery.OwnContentsChangeNothing`).
- A log of `LOGSIZE` blocks is refused by `log_write` if the log area has at most `LOGSIZE` blocks,
  which is what mkfs writes (`LogReservation.ReservationIsExact`). In a larger area it fills the
  cache, and commit finds no buffer (`RedoLog.Log.Commit`, `RedoLog.Log.FullLogStarvesCommit`).
- The full-log test comes before absorption, although a block already logged needs no room, so no log
  area is large enough for an operation that logs one of its ten blocks again
  (`LogReservation.FullLogRefusesKnownBlock`, `LogReservation.PanicOnlyAgain`).
- Disk 0 may return stale data after it comes back (`MirrorRuns.StaleAfterReturn`), and recovery that
  reads now one disk and now the other can leave part of a transaction; `Failover.SwitchingDisks` and
  `Failover.SwitchingAnyDisks` say exactly when.
- mkfs rounds a root directory that already fills its blocks up by a whole block, which is a hole
  (`Mkfs.RoundedRoot`).
- `namex` puts the inode of a symbolic link twice (`PathWalk.Walker.Namex`), and `namei` walks every
  path twice and loses the first reference (`PathWalk.Walker.Namei`, `PathWalk.Walker.SysChmod`).
- `malloc` asks `sbrk` for a wrong amount above 2^31 - 32 bytes (`Malloc.CoreFits`).
- `create` and `link` do not look whether the parent directory has been removed
  (`LinkCounts.CreateNeedsParent`, `LinkCounts.LinkNeedsParent`).
- `chmod -R` keeps a descriptor open per level and passes over what it cannot open, still reporting
  success (`RecursiveChmod.ChmodLaw`).

## Model

| member | source | states |
|---|---|---|
| `CrashRecovery.HeaderRoundTrip` | kernel/log.c:87-115 | reading a header block gives back every list of block numbers that was written to it |
| `CrashRecovery.CrashAtomicity` | kernel/log.c:69-123 | for every disk that may be down at commit, every cut in its physical writes and every sequence of cut-off recoveries that read a replica or do not write it, a completed recovery leaves on that replica all of the transaction if its header had reached it, else none of it; for replica 0 these are all sequences of recoveries |
| `CrashRecovery.HistoryAtomicity` | kernel/log.c:117-211 | over any number of transactions, crashes and recoveries with the same disk down throughout, the replica being read holds exactly the transactions whose header reached it, each of them whole; what data commit puts into a transaction while disk 0 is down is said by CommitDegraded |
| `CrashRecovery.OwnContentsChangeNothing` | kernel/log.c:117-211 | if the transactions of such a history consist of what the replica being read holds already, as they do while disk 0 is down, no home block of it changes |
| `CrashRecovery.CommitReaches` | kernel/log.c:186-211 | a replica after any part of a commit: how many blocks are installed on it, and whether its header lists the transaction |
| `CrashRecovery.RecoveryReaches` | kernel/log.c:69-123 | a replica after any part of a recovery that reads the same or another replica: installing again loses nothing, and the header is cleared last |
| `CrashRecovery.RecoveryLength` | kernel/log.c:69-123 | recovery makes at most 2 LOGSIZE + 2 physical writes |
| `Failover.RecoveryRestoresMirror` | kernel/log.c:69-123 | with both disks up, recovery ends with both logs empty and both replicas agreeing on every home block they agreed on before the transaction, however often it was cut off |
| `Failover.EndReached` | kernel/log.c:69-211 | the two replicas after a cut-off commit and any history of boots, each with its own failed disk and cut, are where the small machine on installed blocks and headers says |
| `Failover.SwitchingDisks` | kernel/bio.c:99-181 | disk 1 staying up, every history of boots with disk 0 up or down leaves the replica being read before or after the whole transaction, if and only if commit was not cut off between the two header writes or fewer than two of the listed blocks change on disk 1 |
| `Failover.SwitchingAnyDisks` | kernel/bio.c:99-181 | the same for histories in which either disk may be down: if and only if the header had not reached disk 0, or no two listed blocks change on disk 1 of which the later one was still to be installed there |
| `Failover.Tears` | kernel/log.c:69-123 | the histories that leave disk 1 with exactly the first j blocks of the transaction |
| `Failover.SafeChapter` | kernel/log.c:69-211 | disk 1 staying up and commit not cut off between the two header writes, any boots and a completed recovery with both disks up leave both replicas before or after the whole transaction, with empty logs |
| `Failover.ManyTransactions` | kernel/log.c:69-211 | over any number of transactions of that kind both replicas hold exactly the transactions whose header had been written, each of them whole |
| `Failover.FailoverLaw` | kernel/bio.c:99-181 | after any such history, every further history of boots leaves the replica being read before or after the whole of the next transaction if and only if its commit is not cut off between the two header writes, or it changes fewer than two blocks of what has been committed |
| `MirrorRuns.MirrorAuthority` | kernel/bio.c:132-181 | over every history in which disk 1 stays up, disk 1 holds the last data written to each block and disk 0 the last data whose write did not skip it |
| `MirrorRuns.ReadsLastWritten` | kernel/bio.c:99-128 | a device read after such a history returns the last data written if it falls back or the last write reached disk 0, else what disk 0 last received |
| `MirrorRuns.StaleAfterReturn` | kernel/bio.c:99-181 | disk 0 failing, a write and disk 0 returning makes reads return old data |
| `BufferCache.Cache.constructor` | kernel/bio.c:40-57 | an empty cache is valid over any device |
| `BufferCache.Cache.Bget` | kernel/bio.c:62-95 | a cached block is found and referenced; otherwise the unreferenced buffer whose last release is the oldest, and no other, changes its block; failure exactly if the block is not cached and no buffer is unreferenced |
| `BufferCache.Cache.Bread` | kernel/bio.c:99-128 | the buffer returned is locked and holds the block; cached contents are used unless the disk 0 copy has failed, then disk 1 is read |
| `BufferCache.Cache.VirtioWrite` | kernel/virtio_disk.c:172-256 | one physical write is appended to the trace and applied to the device |
| `BufferCache.Cache.Bwrite` | kernel/bio.c:132-181 | the physical writes made are those of the mirrored write of the buffer's block, minus failed disks, and the cache is unchanged |
| `BufferCache.Cache.Brelse` | kernel/bio.c:185-206 | one reference less; if none is left the buffer comes first in the order, any two others keep theirs, and the order stays that of the last releases; otherwise the order does not change |
| `BufferCache.Cache.StaysCached` | kernel/bio.c:62-206 | while no buffer is held, the block released last survives the next NBUF - 1 reads of any blocks |
| `BufferCache.Cache.Evict` | kernel/bio.c:62-95 | reading NBUF other blocks and holding on to them takes any unreferenced buffer, whatever it holds |
| `RedoLog.Log.constructor` | kernel/log.c:56-66 | at boot the users of the layer read the replica that is up |
| `RedoLog.Log.Fetch` | kernel/bio.c:99-128 | a read always gives the contents of the view, whether they are on disk yet or not; it fails exactly if the block is not cached and no buffer is unreferenced |
| `RedoLog.Log.Release` | kernel/bio.c:185-206 | releasing a buffer whose changes have been logged keeps the view; while disk 0 is down any changes are forgotten |
| `RedoLog.Log.WriteThrough` | kernel/bio.c:132-181 | a direct write makes the buffer's contents the ones read from then on and its home copy current |
| `RedoLog.Log.LogWrite` | kernel/log.c:222-244 | for every block not left short by recovery: panics exactly for a full log or outside an operation; else the block is listed once, the pinned blocks stay exactly the listed ones, and the buffer's contents become the ones read, unless disk 0 is down: then what is read does not change |
| `RedoLog.Log.FailDisk` | kernel/sysproc.c:111-120 | a disk failing at run time keeps the invariant of the layer; disk 1 failing changes nothing that is read, disk 0 failing makes it what disk 1 holds |
| `RedoLog.Log.DegradedView` | kernel/bio.c:99-128 | while disk 0 is down the users of the layer read exactly disk 1 |
| `RedoLog.Log.FetchAfterFailure` | kernel/bio.c:99-128 | for every state: once disk 0 has failed, bread gives the contents from before if and only if disk 1 holds them; where the halves agree, these are the last committed contents for a logged block and the contents from before for any other |
| `RedoLog.Log.DegradedUpdateLost` | kernel/bio.c:106-124 | bread, memmove, log_write and brelse of a block, with disk 0 down or failing afterwards: the next bread gives what disk 1 held from the beginning, although the block is listed |
| `RedoLog.Log.LoggedStaysCached` | kernel/log.c:214-244 | a logged block is in the cache and its buffer cannot be recycled |
| `RedoLog.Log.FullLogStarvesCommit` | kernel/log.c:186-199 | with as many logged and short blocks as buffers, the first log block is not cached and no buffer is free for it |
| `RedoLog.Log.StoreHeader` | kernel/log.c:103-115 | the loop over the list gives the header block of that list |
| `RedoLog.Log.WriteHead` | kernel/log.c:103-115 | the header block on the disks that are up lists the logged blocks, and nothing else that is read changes |
| `RedoLog.Log.WriteLogBlock` | kernel/log.c:186-199 | one log block receives the contents bread gives for one listed block; panics exactly if logged and short blocks take every buffer |
| `RedoLog.Log.WriteLog` | kernel/log.c:186-199 | the physical writes are those of the log part of the transaction, in order; panics exactly if there is something to write and logged and short blocks take every buffer |
| `RedoLog.Log.InstallBlock` | kernel/log.c:69-84 | one home block receives its log copy, loses one pin and is current again |
| `RedoLog.Log.InstallTrans` | kernel/log.c:69-84 | the physical writes are those of installing the listed blocks from the log, in order, and each listed block loses exactly one pin |
| `RedoLog.CommitKeepsHome` | kernel/log.c:186-211 | committing what is read changes the contents of no home block, and installing writes what was there already |
| `RedoLog.Log.Commit` | kernel/log.c:201-211 | with either disk down or none, and after a boot that installed blocks: panics exactly if something is logged and logged and short blocks take every buffer; else it makes exactly the write sequence of its transaction that crash atomicity is about, empties the log, leaves no pin behind and keeps what is read of every home block |
| `RedoLog.Log.CommitDegraded` | kernel/log.c:186-211 | while disk 0 is down the transaction consists of what disk 1 holds, whatever had been logged, and no home block of disk 1 changes |
| `RedoLog.Log.BeginOp` | kernel/log.c:126-147 | an operation is let in exactly if its reservation fits; the layer steps as the reservation machine does and stays within it |
| `RedoLog.Log.LogWriteBy` | kernel/log.c:222-244 | a log_write by an outstanding operation is the step of the reservation machine: it panics exactly if that does, and the log keeps to LOGSIZE blocks |
| `RedoLog.Log.EndOp` | kernel/log.c:151-183 | the last operation to end commits all that was logged, the others change nothing; the layer steps as the reservation machine does; panics exactly if the commit does |
| `RedoLog.Log.LoadHeader` | kernel/log.c:87-98 | the loop reads the listed block numbers of a well-formed header |
| `RedoLog.Log.ReadHead` | kernel/log.c:87-98 | the list in memory becomes the one in the header block that is read |
| `RedoLog.Log.RecoverFromLog` | kernel/log.c:117-123 | recovery makes exactly the write sequence crash atomicity is about and leaves the layer operating, ready for operations, with an empty log; the installed blocks, and only they, are one pin short |
| `RedoLog.Log.Overpinned` | kernel/log.c:69-84 | a block one pin short is cached with reference count 2^32 - 1 |
| `RedoLog.Log.RecoveredBlockUnpinned` | kernel/log.c:69-84 | updating such a block in the usual order leaves its new contents in a buffer with reference count 0, the device holding the old ones |
| `RedoLog.Log.UpdateLost` | kernel/log.c:69-84 | after reading enough other blocks, bread of the updated block gives the contents from before the update |
| `LogReservation.ReservationHolds` | kernel/log.c:126-183 | in every interleaving of operations of at most MAXOPBLOCKS different blocks, the logged blocks and what the operations may still log fit LOGSIZE |
| `LogReservation.LargeLogNeverPanics` | kernel/log.c:126-244 | with a log area of more than LOGSIZE blocks nothing panics while every operation stops logging at its tenth block |
| `LogReservation.SmallLogPanics` | mkfs/mkfs.c:24-32 | with any smaller log area, mkfs's included, three operations that stop at their tenth block panic |
| `LogReservation.ReservationIsExact` | kernel/log.c:222-244 | all interleavings in which every operation stops logging at its tenth block are free of panics if and only if the log area has more than LOGSIZE blocks |
| `LogReservation.FullLogRefusesKnownBlock` | kernel/log.c:222-244 | for every larger log area, an interleaving of operations of at most MAXOPBLOCKS different blocks that panics |
| `LogReservation.BeginAdmitted` | kernel/log.c:126-183 | from every state of every run there is a way on, by operations ending and commits returning, after which begin_op lets a caller in |
| `LogReservation.PanicOnlyAgain` | kernel/log.c:222-244 | in such an area, the only log_write of such operations that panics is of a block its operation has logged already, when it has logged ten |
| `PageTables.PathRoundTrip` | kernel/riscv.h:286-294 | the three indices of an address below MAXVA determine its page |
| `PageTables.AddressRoundTrip` | kernel/riscv.h:286-294 | every triple of indices in bounds is that of its address |
| `PageTables.EncodeRoundTrip` | kernel/riscv.h:272-284 | packing an entry into 64 bits and unpacking it gives the entry back |
| `TableRemoval.RemoveTable` | kernel/vm.c:275-294 | freeing a table that maps nothing changes no translation of any root and keeps all ownership |
| `TableRemoval.RemoveRoot` | kernel/vm.c:275-294 | the same for a root with nothing below it |
| `TableRemoval.AddRoot` | kernel/vm.c:199-207 | a zeroed page as root maps nothing and changes no other translation |
| `VirtualMemory.Kernel.constructor` | kernel/kalloc.c:28-40 | the pool starts with every page free |
| `VirtualMemory.Kernel.Kalloc` | kernel/kalloc.c:67-80 | hands out a page that was free, or fails with none free |
| `VirtualMemory.Kernel.Kfree` | kernel/kalloc.c:46-62 | takes back a held page; refuses exactly what is outside the pool |
| `VirtualMemory.Kernel.Lend` | kernel/proc.c:165-195 | a page the kernel keeps can be made mappable by tables that do not own it, as the trap frame is |
| `VirtualMemory.Kernel.WalkLevel` | kernel/vm.c:70-91 | one level down, adding at most one empty table and changing no translation of any root |
| `VirtualMemory.Kernel.Walk` | kernel/vm.c:70-91 | panics exactly from MAXVA on; otherwise gives the last-level slot of the address, or reports that the page is unmapped and, if allocating, that memory ran out; no translation of any root changes |
| `VirtualMemory.Kernel.Mappages` | kernel/vm.c:147-167 | maps the pages the byte range touches, one after the other; success exactly if all of them, a remap panic exactly at a page already mapped, and every other translation is unchanged |
| `VirtualMemory.Kernel.Uvmunmap` | kernel/vm.c:172-195 | succeeds exactly for an aligned range with every page mapped; then these pages are unmapped and given back, and every other translation and page is unchanged |
| `VirtualMemory.Kernel.Uvmcreate` | kernel/vm.c:199-207 | a new root that maps nothing, or nothing at all if no page is free |
| `VirtualMemory.Kernel.Uvmalloc` | kernel/vm.c:226-253 | growing adds fresh user pages between the sizes and nothing else; if memory runs out, every translation of every root is as before, every page taken is back except interior tables, and fewer pages were free than could suffice; a panic only beyond MAXVA |
| `VirtualMemory.Kernel.Uvmdealloc` | kernel/vm.c:259-271 | shrinking unmaps and frees exactly the pages between the sizes |
| `VirtualMemory.Kernel.Uvmcopy` | kernel/vm.c:311-340 | the child maps the same page numbers with the same flags to fresh pages and the parent is unchanged; on failure the child maps nothing and owns at most interior tables; a panic only if the parent does not map every page |
| `VirtualMemory.Kernel.FreeBelow` | kernel/vm.c:275-294 | frees every table below one that maps nothing, and panics exactly if something is mapped |
| `VirtualMemory.Kernel.Freewalk` | kernel/vm.c:275-294 | returns exactly the pages of that root to the pool, and panics exactly if something is mapped |
| `VirtualMemory.Kernel.Uvmfree` | kernel/vm.c:298-303 | succeeds exactly if the mapped pages are the first ones up to the size; then every page of the root, leaf or table, is free again and no other root is touched |
| `VirtualMemory.AllocUndone` | kernel/vm.c:226-253 | allocating and freeing again leaves all translations as they were and only interior tables behind |
| `VirtualMemory.OwnedIsMapped` | kernel/vm.c:70-91 | a page owned at a leaf is mapped there |
| `VirtualMemory.UnmappedOwnsNone` | kernel/vm.c:172-195 | a root owns no leaf page where it maps nothing |
| `Inodes.SetDirect` | kernel/fs.c:380-428 | putting a fresh block into an empty direct slot keeps every block in at most one slot |
| `Inodes.SetVia` | kernel/fs.c:380-428 | the same through the indirect block |
| `Inodes.WriteInBlock` | kernel/fs.c:513-549 | writing inside one block changes those bytes of that file and no byte of any other |
| `Inodes.WrittenContents` | kernel/fs.c:513-549 | written bytes and an extended size are the old contents with the data spliced in |
| `FileSystem.FileSystem.Balloc` | kernel/fs.c:62-86 | the first free block, zeroed and marked, with itself and its bitmap block logged; fails exactly if no block is free |
| `FileSystem.FileSystem.Bfree` | kernel/fs.c:89-102 | marks a used block free and logs its bitmap block; panics exactly on a free one |
| `FileSystem.FileSystem.Bmap` | kernel/fs.c:380-428 | finds or adds the block of a file position: no byte and no size of any file changes, every block and bitmap bit that changes is on a logged block, an existing block costs no log entry, a new one at most those of the block, the indirect block and their bitmap blocks |
| `FileSystem.FileSystem.Itrunc` | kernel/fs.c:432-463 | never panics; every block of the inode is free again, no block of another inode is, no block's contents change, and the bitmap block of every block freed and the block of the inode are logged |
| `FileSystem.FileSystem.WriteBlock` | kernel/fs.c:513-549 | one round of the write loop: the bytes of that file change as written, no other byte of any file does, the block written is logged, as is every block and bitmap bit that changes, with a bound on the blocks logged |
| `FileSystem.FileSystem.WriteLoop` | kernel/fs.c:513-549 | the rounds together write the whole of the data, with every block and bitmap bit that changes on a logged block |
| `FileSystem.FileSystem.Writei` | kernel/fs.c:513-549 | refuses exactly a start beyond the end or an end beyond the largest file; else the contents are the old ones with the data spliced in, all other files are unchanged, no hole appears, every block, bitmap bit and inode that changes is on a logged block, and the blocks logged are bounded by those touched and missing plus 3 |
| `FileSystem.FileSystem.Readi` | kernel/fs.c:482-507 | refuses exactly the types other than file, link and directory; else returns the slice of the contents asked for, clipped at the end and empty on 32-bit overflow; changes no file; writes nothing if there are no holes |
| `FileSystem.FileSystem.Filewrite` | kernel/file.c:140-194 | every transaction of the chunked write logs every block, bitmap bit and inode that changes between its begin and its end, and at most MAXOPBLOCKS blocks; the file has received exactly the bytes the offset moved over |
| `FileSystem.ChunkLimit` | kernel/file.c:154-171 | a chunk of any alignment in a file without holes stays within MAXOPBLOCKS |
| `FileSystem.SplicedTwice` | kernel/file.c:165-187 | adjacent writes are one write |
| `Mkfs.Image.constructor` | mkfs/mkfs.c:98-136 | the image starts with the metadata blocks used and every inode empty |
| `Mkfs.Image.Ialloc` | mkfs/mkfs.c:240-252 | the next inode, with empty contents |
| `Mkfs.Image.Iappend` | mkfs/mkfs.c:272-320 | the data is appended to that file and no other file changes, unless the file would be too large or the disk is full |
| `Mkfs.RoundedRoot` | mkfs/mkfs.c:174-179 | rounding the root directory's size up leaves no hole if and only if it did not fill its last block |
| `Mkfs.Image.Finish` | mkfs/mkfs.c:174-184 | the finished image satisfies the kernel's file system invariant, with exactly the blocks handed out marked in the bitmap |
| `LinkCounts.DirLookup` | kernel/fs.c:557-582 | the first slot in use for the name, or none is |
| `LinkCounts.FreeSlot` | kernel/fs.c:585-613 | the first unused slot, or the end |
| `LinkCounts.IsDirEmpty` | kernel/sysfile.c:184-197 | true exactly if no slot after the first two is in use |
| `LinkCounts.EntryCounted` | kernel/sysfile.c:224-225 | an inode named by a linked directory has a positive count, so unlink's panic cannot happen |
| `LinkCounts.NameSpace.constructor` | mkfs/mkfs.c:122-134 | the empty root directory satisfies the counting law |
| `LinkCounts.NameSpace.Create` | kernel/sysfile.c:258-302 | keeps every count equal to the entries naming the inode plus pending links, and the tree of directories; creates exactly if the name is unused, one entry and for a directory its dots, and changes no other entry or count |
| `LinkCounts.NameSpace.LinkStart` | kernel/sysfile.c:132-157 | counts a link before it exists, for anything but a directory |
| `LinkCounts.NameSpace.LinkFinish` | kernel/sysfile.c:158-181 | the counting law holds on both paths: the entry is made, or the count is taken back exactly if there is no parent or the name is taken |
| `LinkCounts.NameSpace.Unlink` | kernel/sysfile.c:199-256 | in any directory, removed or not: never panics; refuses exactly the dots, an unknown name and a directory that is not empty; else the name is gone, one slot is cleared, the counts of the inode and for a directory of the parent drop by one, and the law and the tree are kept |
| `LinkCounts.NameSpace.Free` | kernel/fs.c:335-361 | an inode without links can be freed: no linked directory names it |
| `LinkCounts.CreateNeedsParent` | kernel/sysfile.c:258-302 | creating an inode of any kind keeps the counting law if and only if the parent directory has not been removed |
| `LinkCounts.LinkNeedsParent` | kernel/sysfile.c:158-181 | so does entering a link |
| `PathWalk.ElementsConcat` | kernel/fs.c:629-652 | the elements of two paths joined by a slash are those of the first and then those of the second |
| `PathWalk.ComponentsConcat` | kernel/fs.c:696-714 | the same for names cut to DIRSIZ: splicing a link target in front of the rest of a path follows the target and then the rest |
| `PathWalk.SkipElem` | kernel/fs.c:629-652 | the first component and the rest of the path, whose components are the remaining ones |
| `PathWalk.Walker.Namex` | kernel/fs.c:658-725 | the walk gives what the components lead to, or nothing exactly if a spliced path would reach MAXPATH; references: one more on the result, one less on every link gone through, no other change |
| `PathWalk.Walker.Follow` | kernel/fs.c:694-717 | the part that follows a link, with its references |
| `PathWalk.Walker.Namei` | kernel/fs.c:727-743 | the inode the path leads to, never a link; references: two more on it, one less on every link for each of the two walks |
| `PathWalk.Walker.SysChmod` | kernel/sysfile.c:652-676 | every call that finds its file leaves one reference more on its inode |
| `PathWalk.NotALink` | kernel/fs.c:658-725 | a walk to an inode never ends at a symbolic link |
| `PathWalk.ParentIsDir` | kernel/fs.c:658-725 | a walk to a parent ends at a readable directory |
| `PathWalk.OnlyReadable` | kernel/fs.c:669-679 | a walk that finds something has looked names up only in readable directories |
| `PathWalk.ResolveConcat` | kernel/fs.c:658-725 | walking a path is walking its first part and then, from where that leads, the rest, with the links of both in order; where the first part leads nowhere, so does the whole |
| `PathWalk.RelativePath` | kernel/fs.c:663-667 | a path without a leading slash leads where it does with the path of the current directory before it; one with a slash starts at the root |
| `SleepWakeup.StepInv` | kernel/proc.c:472-619 | every atomic step of every CPU keeps the invariant of locks, states and CPUs |
| `SleepWakeup.Reachable` | kernel/proc.c:472-619 | the invariant holds in every interleaving from boot, for any numbers of processes, CPUs and locks |
| `SleepWakeup.OneCpuPerProcess` | kernel/proc.c:472-510 | a RUNNING process is on exactly one CPU |
| `SleepWakeup.SleepLockExclusive` | kernel/sleeplock.c:20-39 | at most one process holds a sleep-lock, and only while it is not free |
| `SleepWakeup.NoLostWakeup` | kernel/proc.c:571-619 | for every condition a spinlock guards: a process asleep on it while it is true is still owed the scan of wakeup by the thread that made it true, which has not called wakeup yet or has not come to the process; sleep-locks are the case of the condition that the lock is free |
| `SleepWakeup.SchedDoesNotPanic` | kernel/proc.c:519-536 | a thread that switches away holds its own process lock and no other spinlock, and is not RUNNING |
| `SchedulerProgress.RunnableRuns` | kernel/proc.c:472-536 | from every reachable state with a CPU, and so from boot, every RUNNABLE process can be brought to run, whatever locks the other CPUs hold |
| `SchedulerProgress.SleeperReturns` | kernel/proc.c:571-619 | from every reachable state, a sleeper that some wakeup on its channel has still to come to can be brought back from sleep, inside its spinlock and with no condition changed |
| `SchedulerProgress.WaiterAcquires` | kernel/sleeplock.c:20-39 | if the channel is a sleep-lock that is free, that sleeper can be made its holder |
| `SchedulerProgress.HandOver` | kernel/sleeplock.c:20-39 | from every reachable state in which a process inside the spinlock holds a sleep-lock and another waits for it, the lock can pass from the one to the other |
| `SchedulerProgress.SpinlockTaken` | kernel/proc.c:472-619 | from every reachable state, a process outside of sleep, wakeup and kill that holds no spinlock can get every spinlock, and one that waits for a spinlock can get that |
| `SchedulerProgress.CanSleep` | kernel/proc.c:571-602 | a thread inside the spinlock of a false condition can fall asleep on its channel |
| `SchedulerProgress.WakeupBegins` | kernel/proc.c:606-619 | a wakeup begins with every process still to look at, with a spinlock or without |
| `SchedulerProgress.CanKill` | kernel/proc.c:636-660 | from every reachable state, kill by a process that is not asleep can be brought to its end, with the target marked and not asleep |
| `SchedulerProgress.NextStep` | kernel/proc.c:472-510 | the scheduler switches to the RUNNABLE process it finds, on that CPU; the step of kill marks its target and wakes it |
| `SchedulerProgress.FreeFrom` | kernel/proc.c:472-660 | a CPU that holds a process lock gives it up after finitely many steps of its own |
| `SchedulerProgress.DriveOff` | kernel/proc.c:472-569 | every CPU can be brought back to its scheduler, at the process after the one it was at |
| `Malloc.Heap.constructor` | user/umalloc.c:21-24 | before the first call there is no free list |
| `Malloc.Heap.Search` | user/umalloc.c:26-34 | the search for a block's place in the circular list ends at the element it goes after |
| `Malloc.Heap.Free` | user/umalloc.c:26-49 | the free list stays circular, in address order and fully merged; the block is no longer in use, every other block keeps its place and size, and every unit stays in exactly one block |
| `Malloc.Heap.Morecore` | user/umalloc.c:51-65 | the units granted, and no others, are added as free: as many as asked for, but never fewer than 4096 |
| `Malloc.Heap.Take` | user/umalloc.c:73-89 | a fitting block is handed out whole or its tail is, with exactly the units asked for |
| `Malloc.Heap.Refill` | user/umalloc.c:90-95 | a grant leaves a fitting block within reach of the search |
| `Malloc.Heap.FirstFit` | user/umalloc.c:73-96 | the search ends: with the tail of the first block after freep that is large enough, or with one call of morecore exactly after every free block was too small |
| `Malloc.Heap.Malloc` | user/umalloc.c:67-97 | a new block with room for the bytes asked for and less than a unit to spare, disjoint from every block in use and cut from the first free block that fits; no unit gained or lost but those granted, at most one call of morecore, made only if no free block had room, and failure only if none was granted |
| `Malloc.CoreFits` | user/umalloc.c:51-65 | the break moves by the size recorded if and only if at most 2^31 - 32 bytes were asked for |
| `Malloc.MergeTiles` | user/umalloc.c:35-47 | merging two adjacent blocks keeps every unit in exactly one block |
| `Malloc.SplitTiles` | user/umalloc.c:79-84 | so does cutting the tail off a block |
| `Malloc.GrowTiles` | user/umalloc.c:51-65 | so does adding memory beyond all blocks |
| `VirtioRing.Disk.constructor` | kernel/virtio_disk.c:52-116 | the ring starts with all descriptors free |
| `VirtioRing.Disk.AllocDesc` | kernel/virtio_disk.c:119-130 | takes a free descriptor, or none is free |
| `VirtioRing.Disk.FreeDesc` | kernel/virtio_disk.c:133-142 | frees a descriptor in use; panics exactly otherwise |
| `VirtioRing.Disk.Alloc3Desc` | kernel/virtio_disk.c:157-170 | three different free descriptors, or all as before exactly if fewer than three are free, without a panic |
| `VirtioRing.Disk.FewRequests` | kernel/virtio_disk.c:172-256 | the descriptors are those of the outstanding requests and the free ones, so there are at most two requests, each at one place on its way |
| `VirtioRing.Disk.Submit` | kernel/virtio_disk.c:172-240 | a request is offered to the device in the next ring slot, unless exactly two are outstanding |
| `VirtioRing.Disk.DeviceTake` | kernel/virtio_disk.c:226-240 | the device takes offered requests in order and sees the one the driver wrote |
| `VirtioRing.Disk.DeviceComplete` | kernel/virtio_disk.c:258-277 | completing a taken request overwrites no entry the driver has not seen |
| `VirtioRing.Disk.Waiting` | kernel/virtio_disk.c:258-277 | the comparison of the two indices modulo the ring size is exact: they differ if and only if a completion is unseen |
| `VirtioRing.Disk.See` | kernel/virtio_disk.c:262-275 | one round takes a completed request and marks its buffer, and no other, as done |
| `VirtioRing.Disk.Interrupt` | kernel/virtio_disk.c:258-277 | every completed request, and no other, has its buffer marked as done |
| `VirtioRing.Disk.Finish` | kernel/virtio_disk.c:242-256 | a woken requester's own chain of three is freed without a panic, and the other requests keep theirs |
| `VirtioRing.Disk.FreeChain` | kernel/virtio_disk.c:145-155 | following the chain frees exactly its three descriptors |
| `ShellGrammar.RoundTrip` | user/sh.c:332-452 | printing any command tree of legal words, with every part in parentheses, and parsing it gives the tree back |
| `ShellGrammar.LineOf` | user/sh.c:349-452 | the same for a printed command inside a longer line, ended by anything a command ends at |
| `ShellGrammar.ParsedPrints` | user/sh.c:332-452 | every line the parser accepts means a command of legal words, and printing it and parsing again gives the same command |
| `ShellLines.TypedLine` | user/sh.c:332-452 | every line of words and redirections in any order, joined by pipe signs, ampersands and semicolons, with any blanks, is parsed as the words of each simple command in order inside its redirections in order, the last outermost, pipes binding tighter than ampersands and these tighter than semicolons; it is refused exactly if a simple command has MAXARGS words or more |
| `ShellLines.SimpleAt` | user/sh.c:421-452 | the same for one simple command inside a line, wherever its redirections stand |
| `ShellLines.PipelineAt` | user/sh.c:367-378 | the same for simple commands joined by pipe signs |
| `ShellParser.GetToken` | user/sh.c:270-314 | the in-place scan finds the token, its kind and its extent |
| `ShellParser.PeekAt` | user/sh.c:316-325 | whether the next character is one of those looked for |
| `ShellParser.ParseRedirs` | user/sh.c:380-404 | the loop collects the redirections, in order, or panics for a missing file |
| `ShellParser.ParseArgs` | user/sh.c:421-452 | the loop collects words and redirections until a command ends, or panics at the tenth word or a bad token |
| `ShellParser.ParseExec` | user/sh.c:421-452 | the simple command or block at a position; every word lies in the line, and no word's end lies inside a word |
| `ShellParser.ParseBlock` | user/sh.c:406-419 | the same for a parenthesised command |
| `ShellParser.ParsePipe` | user/sh.c:367-378 | the same for a pipeline |
| `ShellParser.ParseLine` | user/sh.c:349-365 | the same for a list; terminates on every input |
| `ShellParser.Nulterminate` | user/sh.c:455-499 | the buffer changes at the ends of the command's words and nowhere else |
| `ShellParser.WordsKept` | user/sh.c:455-499 | after termination every word of the command reads as it did in the line |
| `ShellParser.ParseCommand` | user/sh.c:332-347 | for every line, the grammar's result, with every word in the buffer ended by a NUL and intact; a panic leaves the buffer alone |
| `RecursiveChmod.WalkComplete` | user/chmod.c:114-244 | the walk over what it can open reaches everything if and only if every directory there is readable |
| `RecursiveChmod.TrimNothing` | user/chmod.c:186-218 | nothing is passed over if and only if there is a descriptor for every level and no path reaches MAXPATH |
| `RecursiveChmod.UnreadableStops` | user/chmod.c:114-244 | when read permission is not being added, no ancestor of an unreadable directory the walk can open is changed |
| `RecursiveChmod.ChmodLaw` | user/chmod.c:114-244 | with a number of free descriptors: every node is changed if and only if there is a descriptor for every level, no path reaches MAXPATH, and every directory is readable or read permission is being added; adding it always reports success, any other change exactly if every directory it got to is readable; as far as the kernel's table of inodes holds out, which SysChmod fills; the bits given are set after + and clear after - at every node changed, and no other bit changes |
| `RecursiveChmod.FileTree.ChmodSingle` | user/chmod.c:92-112 | changes one node exactly if its path is readable and a descriptor is free |
| `RecursiveChmod.FileTree.Chmod` | user/chmod.c:114-244 | the recursive calls, each on the modes and descriptors its predecessors left, change exactly the nodes of the law and report success accordingly |
| `RecursiveChmod.FileTree.ChmodKids` | user/chmod.c:186-218 | the same for the entries of an open directory, passing over those that cannot be opened |
| `RegexpMatcher.HereOne` | user/grep.c:89-100 | a language with a leading character or dot: the text starts with a fitting one and the rest matches |
| `RegexpMatcher.HereStar` | user/grep.c:103-111 | a language with a leading star matches if and only if the rest does after some run of fitting characters |
| `RegexpMatcher.HereEnd` | user/grep.c:94-95 | an end mark matches only the empty text |
| `RegexpMatcher.MatchStar` | user/grep.c:103-111 | the shortest-first loop decides that |
| `RegexpMatcher.MatchHere` | user/grep.c:89-100 | decides whether some word of the pattern's language stands at the beginning of the text |
| `RegexpMatcher.Match` | user/grep.c:76-86 | decides whether some word of the pattern's language stands anywhere in the text, or at its beginning after `^` |
| `RegexpMatcher.ParseShow` | user/grep.c:89-100 | reading a pattern gives back every sequence of characters and stars, with or without an end mark, that was written |
| `RegexpMatcher.LiteralLaw` | user/grep.c:76-100 | a pattern of ordinary characters is found exactly where it stands in the text: anywhere, at the beginning after `^`, at the end before `$`, as the whole text with both |

## Left out

- RedoLog.Log.RecoverFromLog: for headers that list different blocks, fewer than NBUF, as commit writes them into a log of at most NBUF blocks.
- RedoLog.Log.FailDisk: not for disk 0 coming back, after which cached blocks and disk 0 may disagree; MirrorRuns.StaleAfterReturn and ReadsLastWritten say what is read then.
- RedoLog.Log.EndOp: the last operation ends with no buffer in use; readers outside of operations are not modelled.
- RedoLog.Log.LogWrite: not for a block recovery left one reference short, for which UpdateLost holds instead.
- RedoLog.Log.constructor: no single block fails while the log is in use; the injected error of one block is part of BufferCache and MirrorRuns only.
- Malloc.Heap.Malloc: for at most 2^31 - 32 bytes; CoreFits says that the break moves by a wrong amount beyond.
- LinkCounts.NameSpace.Create: for a parent directory that is linked; CreateNeedsParent says that the law fails otherwise.
- LinkCounts.NameSpace.LinkFinish: for a parent directory that is linked; LinkNeedsParent says that the law fails otherwise.
- PathWalk.Walker.Namex: for walks that end; n bounds their links. A cycle of links whose spliced paths stay short never ends in the code either.
- FileSystem.FileSystem.Filewrite: for files without holes; a hole in the root directory (Mkfs.RoundedRoot) is not in a file a user writes.
- RecursiveChmod.ChmodLaw: does not model the kernel's table of NINODE inodes; each sys_chmod leaves its inode referenced (PathWalk.Walker.SysChmod), so iget panics once a tree has more nodes than the table has room for.
- Failover.FailoverLaw: for commits made with both disks up; with a disk down at commit CrashRecovery.CrashAtomicity holds for each replica.
- RecursiveChmod.FileTree.Chmod: within the same limit, and for trees without symbolic links; a path cut at MAXPATH is taken to name nothing, where the code would change another file of that name.
- VirtualMemory.Kernel.Uvmunmap: 64-bit overflow of the range and of rounding sizes up is not modelled.
- SleepWakeup.NoLostWakeup: no fairness; that an owed wakeup is delivered in the end is not stated, only that it can be (SchedulerProgress.SleeperReturns). Sleeping with the process's own lock, as wait does, is not modelled.
- Writing b->blockno for the time of a device transfer; the model passes the physical block number.
- Contents of pages, and with them uvminit, copyin, copyout, copyinstr, walkaddr and uvmclear.
- The kernel's own page table, exec, fork, exit and wait, and the calls that map the trampoline.
- The order in which an entry is cleared and its page freed inside one call of uvmunmap or freewalk.
- The scan of kill for a pid (the model starts at the process found), process creation, ZOMBIE states; memory ordering of spinlocks.
- The packing of bitmap bits and disk inodes into blocks; a bitmap bit and an inode are model values.
- Failing copies from and to user memory in readi, writei and filewrite.
- The table of in-memory inodes with its NINODE slots, ilock's reading of the disk, and the permission checks of sys_open.
- Link counts as 16-bit numbers; create and unlink are single steps, as the inode locks make them.
- Timeouts, status bytes and registers of the virtio device; sleeping for free descriptors.
- The mirror's hooks raw_read, raw_write and get_disk_lbn; there is no resynchronisation to model.
- mkfs writing beyond the disk, which it does not check; the model stops there.
- Running commands in the shell, reading lines, pipes, the console, and the remaining user programs.
- Path arguments of chmod (resolving a leading link, printing names) and parsing of its mode argument.
