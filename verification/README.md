# A verified model of xv6 for RISC-V

This project models the parts of xv6 where correctness rests on more than one function, and proves what those parts promise.

- **Storage.** The redo log over the buffer cache, as classes whose disk writes are recorded one by one; a pure model of
  every disk image a crash can leave; the admission protocol of transactions; the inode layer, with its bitmap,
  direct and indirect blocks and inode table, over raw 1024-byte blocks; and what the log gives the files of that layer
  when the machine crashes.
- **Virtual memory.** The page allocator, the three-level Sv39 page tables (section 4.4 of the RISC-V Privileged
  Architecture manual) and the address spaces of processes.
- **Processes.** Three interleaving protocols, as step relations over all runs: the hand-off of a process between CPUs,
  sleep and wakeup around a condition, and fork, exit and wait.
- **Disk driver.** The virtqueue bookkeeping, with the device as a nondeterministic partner (sections 2.6 and 5.2 of VirtIO 1.1).
- **User programs.** The K&R storage allocator, the shell's parser with the grammar that it decides, and grep's matcher.

`dafny verify dfyconfig.toml` checks everything.

## How it is laid out

| file | models |
|---|---|
| `Blocks.dfy`, `FsLayout.dfy` | blocks of bytes, words and bits in them, on-disk inodes and the bitmap |
| `LogSpec.dfy`, `LogAdmission.dfy` | what commit and recovery leave on the disk; who may open an operation |
| `BufferCache.dfy`, `RedoLog.dfy` | kernel/bio.c and kernel/log.c |
| `FsSpec.dfy`, `FileSystem.dfy`, `FileWrite.dfy` | kernel/fs.c and the inode case of filewrite |
| `CrashSafety.dfy` | the log and the inode layer together |
| `PageTable.dfy`, `PageBudget.dfy`, `Vm.dfy`, `AddressSpace.dfy` | kernel/kalloc.c, kernel/vm.c and the memory of processes in kernel/proc.c |
| `Scheduler.dfy`, `SleepWakeup.dfy`, `ProcessTree.dfy` | the protocols of kernel/proc.c, kernel/sleeplock.c and begin_op |
| `VirtioDisk.dfy` | kernel/virtio_disk.c |
| `Heap.dfy`, `Grep.dfy` | user/umalloc.c, user/grep.c |
| `ShellSyntax.dfy`, `Shell.dfy` | user/sh.c: what its parser computes and the grammar; the parser itself |

Classes keep the source's fields; lists and tables that the source changes in place are sequences and maps that the methods
reassign, and a pointer into a table is an index. Ghost fields carry the abstract value that the invariant ties to the real
fields. A panic is a result, not a precondition. In the protocols a step is what happens between two lock operations.

Some results differ from what one might expect:

- log_write never panics on size exactly when an operation may pass fewer blocks to it than MAXOPBLOCKS
  (`LogAdmission.PassedExactly`). One fewer is enough, although the on-disk log has room for only LOGSIZE - 1 entries. The
  transactions of filewrite stay below that on disks with at most three bitmap blocks (`FileWrite.WritesFitTheLog`).
- A copy that fails in the middle of a block has brought in the bytes before the failure, and writei releases the buffer
  without log_write. So writei changes the file past what it says it has written, unless the chunk with the first unreadable
  byte brings in what was there (`FileSystem.TornExactly`, `FileSystem.TornExample`). Whatever the bytes are, no harm is done
  exactly if all can be read, or that chunk begins at the unreadable byte or at or past the end of the file
  (`FileSystem.SafeExactly`).
- growproc computes sizes in 32 bits. A growth past 2^32 or a shrinkage below 0 changes nothing, and returns 0
  (`AddressSpace.ProcTable.Growproc`).
- malloc's argument to sbrk is the number of bytes it wants exactly for requests below 2^27 units
  (`Heap.SbrkArgumentExactly`).
- A block that free merges into its lower neighbour is not the first one malloc looks at after morecore; the search still ends
  within one more turn of the list (`Heap.Allocator.Malloc`).

## Model

| member | source | states |
|---|---|---|
| LogSpec.HeaderRoundTrip | kernel/log.c:86-114 | what write_head stores, read_head loads: every header of at most LOGSIZE entries survives |
| LogSpec.HeaderLayout | kernel/log.c:35-38 | the bytes of the header block that hold n, and those that hold each entry |
| LogSpec.CrashBeforeHeader | kernel/log.c:178-203 | a crash before the header is written recovers to the disk before the transaction, on every home block |
| LogSpec.CrashAfterHeader | kernel/log.c:68-123 | a crash at any later write recovers to the whole transaction, on every home block |
| LogSpec.FullCommit | kernel/log.c:193-203 | a finished commit leaves the transaction installed and an empty log |
| LogSpec.CommitCatchesUp | kernel/log.c:193-203 | after a commit the disk has all that the file system saw, if it differed only in the transaction |
| LogSpec.CrashInRecoveryHarmless | kernel/log.c:68-123 | recovery cut off after any number of its writes recovers to the same home blocks |
| LogSpec.StepKeepsAtomic | kernel/log.c:68-203 | commit, recovery, and a crash in either keep the all-or-nothing invariant |
| LogSpec.CrashAtomicity | kernel/log.c:68-203 | in every run, however many crashes and wherever, recovery yields the home blocks of the last transaction whose header reached the disk, and never a mixture |
| LogAdmission.StepKeepsAdmitted | kernel/log.c:126-175 | no operation is open during a commit, header entries are distinct, and the header and all unspent reservations fit the log |
| LogAdmission.RunsAreAdmitted | kernel/log.c:126-235 | the same in every run, for any number of operations and any interleaving |
| LogAdmission.WholeReservationPanics | kernel/log.c:214-235 | if operations may use their whole reservation, a run of three reaches the panic |
| LogAdmission.RoomExactly | kernel/log.c:126-235 | log_write never panics on size, in any run, if and only if no operation may add as many entries as begin_op reserves |
| LogAdmission.SmallRuns | kernel/log.c:214-235 | an operation adds no more entries than it passes different blocks to log_write, whatever is absorbed and whatever the others do |
| LogAdmission.PassedExactly | kernel/log.c:126-235 | the same if-and-only-if in terms of the set of blocks that each open operation has passed to log_write at any time of the run |
| BufferCache.BCache.Binit | kernel/bio.c:36-53 | all buffers are on the list once, with prev and next inverse to each other |
| BufferCache.BCache.Bget | kernel/bio.c:58-89 | the one buffer of the block, or the least recently used one that nobody references; panics exactly if there is neither; no referenced buffer changes identity |
| BufferCache.BCache.Bread | kernel/bio.c:92-103 | a locked buffer with the block's contents, or bget's panic; no block's contents change |
| BufferCache.BCache.Bwrite | kernel/bio.c:106-112 | one disk write, and what the file system sees stays the same |
| BufferCache.BCache.Brelse | kernel/bio.c:116-137 | a buffer that nobody references any more moves to the front of the list, all others keep their order |
| BufferCache.BCache.Bpin | kernel/bio.c:139-144 | one more reference, and what the file system sees stays the same |
| BufferCache.BCache.Bunpin | kernel/bio.c:146-151 | one reference fewer, and what the file system sees stays the same |
| BufferCache.Unlink | kernel/bio.c:116-137 | relinking the neighbours of a node takes exactly that node out of the ring |
| BufferCache.PushFront | kernel/bio.c:116-137 | linking a node behind the head puts exactly that node at the front |
| BufferCache.RecycledView | kernel/bio.c:58-89 | recycling an unreferenced buffer changes no block's contents |
| RedoLog.Log.BeginOp | kernel/log.c:126-142 | admitted exactly when no commit runs and the reservation fits, as a step of the admission protocol |
| RedoLog.Log.EndOp | kernel/log.c:146-175 | the last operation starts a commit, as a step of the admission protocol |
| RedoLog.Log.EndCommit | kernel/log.c:146-175 | the end of a commit lets operations in again, as a step of the admission protocol |
| RedoLog.Log.Read | kernel/bio.c:92-103 | bread returns what was last logged if the block is in the open transaction, and else what the disk has |
| RedoLog.Log.LogWrite | kernel/log.c:214-235 | the exact panic condition; a block is added once, pinned and absorbed, as a step of the admission protocol |
| RedoLog.Log.FindsRoom | kernel/log.c:214-235 | whatever steps the log has gone through, if no open operation has ever passed as many blocks as begin_op reserves, log_write does not panic |
| RedoLog.Log.Release | kernel/bio.c:116-137 | dropping a buffer whose changes are logged loses nothing of the transaction |
| RedoLog.Log.WriteHead | kernel/log.c:102-114 | one disk write, which leaves a header that decodes to the entries |
| RedoLog.Log.WriteLog | kernel/log.c:178-191 | each disk write leaves the next image of the crash model, up to the header |
| RedoLog.Log.InstallTrans | kernel/log.c:68-83 | each disk write leaves the next image, and the pins of the transaction are dropped |
| RedoLog.Log.Commit | kernel/log.c:193-203 | the disk goes through exactly the images of the crash model, and ends with all that the file system sees; every read by another process between any two of the writes returns what it would have before the commit |
| RedoLog.Log.ReadHead | kernel/log.c:86-97 | the in-memory header is what the header block decodes to |
| RedoLog.Log.RecoverFromLog | kernel/log.c:116-123 | the disk goes through exactly the recovery images of the crash model, and ends recovered with an empty log |
| RedoLog.CommitHasBuffer | kernel/bio.c:58-89 | with more buffers than log entries commit always finds a free one |
| FsLayout.PutBitAt | kernel/fs.c:64-103 | setting or clearing one bit of a bitmap block changes that bit and no other |
| FsLayout.PutInodeAt | kernel/fs.c:221-237 | storing one inode in its block changes that inode and no other |
| FsLayout.DinodeLayout | kernel/fs.h:32-39 | the bytes of an inode block that hold each field of each inode |
| FsLayout.BitLayout | kernel/fs.c:64-103 | the byte of a bitmap block, and the bit of it, that stand for a block |
| FsSpec.BitmapExact | kernel/fs.c:64-103 | a bit is set if and only if the block is metadata or exactly one slot of one inode holds it |
| FsSpec.UnlinkFile | kernel/fs.c:409-437 | emptying an inode releases its blocks and leaves all other slots and their owners |
| FileSystem.Fs.Balloc | kernel/fs.c:64-86 | a block that no slot holds, zeroed, and marked; it panics only if every block is marked |
| FileSystem.Fs.Bfree | kernel/fs.c:89-103 | exactly that block is unmarked; a marked one never reaches the panic |
| FileSystem.Fs.Bmap | kernel/fs.c:377-405 | the block of the slot, allocated if need be, across the direct and indirect parts; no file's content changes |
| FileSystem.Fs.Iupdate | kernel/fs.c:221-237 | the on-disk inode is the in-memory one, and every other inode on the disk is as it was |
| FileSystem.Fs.Writei | kernel/fs.c:486-517 | of the blocks that a commit leaves on the disk: [off, off + r) of the content is replaced, the file grows if need be, no other inode and no other content changes, no hole arises, and every changed block is logged; of those that the cache holds: the same, if and only if the write does no harm (see TornExactly), with what a failed copy leaves given exactly; refused exactly beyond the end, on overflow and past MAXFILE; panics only if the disk is full and the write goes past the end; bounds the logged blocks |
| FileSystem.TornContents | kernel/fs.c:497-506 | what a failed copy leaves: a consistent file system, the other files unchanged, and the file changed at exactly the bytes that came in |
| FileSystem.TornExactly | kernel/fs.c:479-506 | after writei the file has its old content with just the bytes that writei reports, if and only if all of src can be read, or the chunk with the first unreadable byte brings in, up to that byte, what the file had there before the call |
| FileSystem.SafeExactly | kernel/fs.c:479-506 | a write does no harm whatever its bytes are, if and only if all of it can be read, the first unreadable byte begins a chunk, or the chunk with it begins at or past the end of the file |
| FileSystem.TornExample | kernel/fs.c:497-506 | writei of two bytes over a file of two, the second of which cannot be read, returns 0 and changes the first |
| FileSystem.Fs.Readi | kernel/fs.c:455-477 | exactly the slice asked for, clipped at the end of the file, or -1 and as much of it as could be copied; nothing is allocated and nothing changes |
| FileSystem.Fs.Itrunc | kernel/fs.c:409-437 | exactly the blocks of this inode are released, it is empty on disk, and no other content and no other inode changes |
| FileSystem.Fs.Ialloc | kernel/fs.c:195-215 | the first free inode is given a type, and is zero otherwise; no other inode and no other table entry changes, and its entry has one reference more; it panics only if none is free or the table is full |
| FileSystem.Fs.Iget | kernel/fs.c:242-273 | one entry for each inode in use; it panics only if the table is full |
| FileSystem.Fs.FindInode | kernel/fs.c:242-273 | the entry in use for the inode if there is one, and a free entry if it met one |
| FileSystem.Fs.Ilock | kernel/fs.c:288-313 | a valid entry is a copy of its on-disk inode; it panics exactly for a free inode |
| FileSystem.Fs.Iput | kernel/fs.c:332-358 | the entry has one reference less, and all others are as they were; the last reference to an unlinked inode frees it and its blocks, and its entry is no longer valid; otherwise no block changes; no other inode changes |
| FileWrite.TransactionSize | kernel/file.c:148-175 | a transaction logs at most four data blocks, the inode, the indirect block and the bitmap, wherever it starts |
| FileWrite.WritesFitTheLog | kernel/file.c:148-175 | in any run of the admission protocol in which every open operation has passed only what a transaction of filewrite may log, log_write never panics on size, if the bitmap has at most three blocks |
| FileWrite.Filewrite | kernel/file.c:148-175 | the result is n exactly if the whole write is possible; the offset moves by what was written, which is all that changes but for a failed copy; between its transactions the file system is consistent with a prefix of the write in place, each transaction but the last writes a whole chunk, and each changes only what it logs and logs no more than its share |
| CrashSafety.SameFiles | kernel/log.c:68-83 | a disk with the same home blocks holds the same consistent file system with the same contents |
| CrashSafety.CommittedFilesSurvive | kernel/log.c:68-203 | in every run of commits, crashes and recoveries, recovery finds a consistent file system with the files of the last committed transaction |
| CrashSafety.TransactionIsAtomic | kernel/log.c:178-203 | after a crash at any disk write of a commit, recovery finds the files from before the transaction or those from after it, consistent either way |
| CrashSafety.OperationsAreAtomic | kernel/fs.c:195-517 | so it is for any operations of the inode layer that make up one transaction, a last write that a failed copy cut short included, since they log all that they change but what is left of that copy |
| CrashSafety.FilewriteSurvivesCrash | kernel/file.c:148-175 | after a crash at any write of the commit of any of its transactions, the cache's blocks being what is committed, the file has a prefix of the write and else its old content, no other file and no metadata but the size and addresses of this one has changed, and the prefix is what the committed transactions have written |
| CrashSafety.WritesFindRoom | kernel/log.c:214-235 | a log that has seen only such transactions, interleaved in any way, has room for the next block |
| PageTable.Pte | kernel/vm.c:137-160 | the page number and the flags of an entry can be read back |
| PageTable.WalkStep | kernel/vm.c:80-98 | the index bits of each level lead from one table of the path to the next |
| PageTable.DistinctEntries | kernel/vm.c:80-98 | distinct pages below MAXVA never reach the same entry, in one tree or in two |
| PageTable.NodeAdded | kernel/vm.c:80-98 | a zeroed page linked below a table is a correct empty table |
| PageTable.EntrySet | kernel/vm.c:137-187 | writing a last-level entry is an insertion into, or a deletion from, the leaf map of that tree alone |
| PageTable.NodeDropped | kernel/vm.c:266-282 | a table with nothing below it can be given back |
| PageBudget.MissingMore | kernel/vm.c:80-98 | to map one page more, only those tables are needed that neither the tree had nor the pages before it brought |
| PageBudget.TooFew | kernel/vm.c:137-160 | when pages run out at one page, they were too few for the whole range from the start |
| PageBudget.TableCount | kernel/vm.c:80-98 | a new tree needs a table for each 512 pages, and one for each 512 of those, rounded up |
| Vm.Memory.Freerange | kernel/kalloc.c:33-40 | all pages of the pool become free |
| Vm.Memory.Kfree | kernel/kalloc.c:46-63 | the page is first on the list; panics exactly for a misaligned address or one outside the pool |
| Vm.Memory.Kalloc | kernel/kalloc.c:68-82 | a page that was free, or null exactly if none is |
| Vm.Memory.Walk | kernel/vm.c:80-98 | reaches the entry of the page; no leaf map changes; without alloc nothing changes, and with it only tables of this tree are added, exactly those that were missing; it fails if and only if the free list is too short for them |
| Vm.Memory.Walkaddr | kernel/vm.c:103-121 | the physical page of a user page, and 0 for everything else |
| Vm.Memory.MapPage | kernel/vm.c:137-160 | mapping one page is an insertion; it fails if and only if the free list is too short for the missing tables, and then leaves the map unchanged; panics exactly on a mapped page or beyond MAXVA |
| Vm.Memory.Mappages | kernel/vm.c:137-160 | the pages mapped so far are inserted, at the price of the missing tables, and it stops only when done, at a mapping, or when the free list is too short for the next page |
| Vm.Memory.Uvmunmap | kernel/vm.c:165-187 | the range is deleted from the map, and its pages are free if asked; panics exactly if unaligned or some page is not mapped |
| Vm.Memory.Uvmcreate | kernel/vm.c:191-200 | a new tree that maps nothing, for one page; it fails exactly if none is free |
| Vm.Memory.AddPage | kernel/vm.c:220-328 | one page with given bytes and permissions is added to the tree; or, only if the free list is too short for it and its tables, nothing but tables was taken |
| Vm.Memory.Uvmalloc | kernel/vm.c:220-244 | if and only if the free list is long enough for the new pages and the missing tables, zeroed user pages of the tree's own are added; otherwise the leaf map is as before and every page taken is a table of the tree |
| Vm.ZeroedUser | kernel/vm.c:220-244 | the pages that uvmalloc adds are memory that user code may read, write and execute, by the bits of riscv.h |
| Vm.Memory.Uvmdealloc | kernel/vm.c:250-262 | exactly the pages between the rounded sizes are unmapped and freed |
| Vm.Memory.Freewalk | kernel/vm.c:266-282 | panics exactly if a page is still mapped below the table; otherwise all tables below it are free and nothing else has changed |
| Vm.Memory.Uvmfree | kernel/vm.c:286-292 | panics exactly if the mapped pages are not those of the size; otherwise all pages of the tree are free, and all other pages, data and trees are as before |
| Vm.Memory.Uvmcopy | kernel/vm.c:300-328 | if and only if the free list is long enough for the pages and the missing tables, every page is copied with its flags; otherwise the new tree maps what it mapped and only tables were taken; the old tree is unchanged |
| Vm.GrownUndone | kernel/vm.c:220-328 | growing and then unmapping what was added restores the leaf map |
| Vm.Memory.Copyout | kernel/vm.c:346-366 | succeeds exactly if all of the destination is user memory; the bytes up to the first that is not are stored, and no other byte of any page changes |
| Vm.Memory.Copyin | kernel/vm.c:371-391 | succeeds exactly if all of the source is user memory, and then returns its bytes; changes nothing |
| Vm.CopyRoundTrip | kernel/vm.c:346-391 | copyin after a successful copyout returns the same bytes across any page boundaries |
| AddressSpace.AllRestored | kernel/proc.c:104-210 | a tree that came and went leaves every page, map and byte as it was |
| AddressSpace.SpaceKept | kernel/proc.c:150-319 | nothing that happens within one process's tree and trapframe disturbs another address space |
| AddressSpace.SpacePrivate | kernel/proc.c:171-200 | in such an address space every user page is the process's own, so copyin and copyout touch no other page |
| AddressSpace.SystemAccess | kernel/proc.c:171-200 | user code has no access to trampoline and trapframe; the first is not writable, and the second not executable |
| AddressSpace.ProcTable.ProcPagetable | kernel/proc.c:171-200 | a tree with just the trampoline and the trapframe, for three pages; or, if and only if fewer are free, everything as before |
| AddressSpace.ProcTable.ProcFreepagetable | kernel/proc.c:204-210 | the tree is gone, and neither uvmunmap nor freewalk panics |
| AddressSpace.ProcTable.Freeproc | kernel/proc.c:150-167 | trapframe and tree are given back, also when there is only part of them |
| AddressSpace.ProcTable.Reap | kernel/proc.c:383-428 | freeing one process keeps all other address spaces |
| AddressSpace.ProcTable.Allocproc | kernel/proc.c:104-145 | a process with an empty address space, if and only if there is an unused slot and four pages are free; otherwise every page, map and byte is as before |
| AddressSpace.ProcTable.Growproc | kernel/proc.c:252-268 | for every n the mappings are again exactly those of the new size, which is given exactly, with 32-bit wrap-around; growth fails if and only if the free list is too short; pages below both sizes keep their entries and bytes, and new ones are zeroed user memory; a size that does not fit returns 0 and changes nothing |
| AddressSpace.ProcTable.UseNewMemory | kernel/proc.c:252-268 | memory that growproc has added reads as zero through copyin, and copyout to any part of it succeeds and reads back |
| AddressSpace.ProcTable.Fork | kernel/proc.c:272-319 | succeeds if and only if there is an unused slot and a number of pages is free that is given exactly for each size; the child then has a copy of every page with the same flags, and of the saved registers but for a0, which is 0; if it fails, no page has leaked |
| AddressSpace.CopyPrice | kernel/proc.c:272-289 | what fork takes for n pages: four pages, the copies, a table for each 512 of them, and one for each 512 of those |
| Scheduler.StepKeepsInv | kernel/proc.c:437-597 | every step of every CPU, a wakeup from an interrupt in the scheduler loop too, keeps who holds p->lock, who runs p, and what c->proc says |
| Scheduler.StepsFollowLifeCycle | kernel/proc.c:437-597 | in every step of every run, a state changes only as the life of a process goes and by the CPU that holds p->lock; a process begins to run only when a scheduler finds it RUNNABLE, stops only by its own doing, and leaves SLEEPING only for RUNNABLE |
| Scheduler.SchedulerDecides | kernel/proc.c:448-463 | a scheduler takes a process that it finds RUNNABLE, and gives up the lock of any other |
| Scheduler.HolderCanStep | kernel/proc.c:437-597 | a CPU that holds a p->lock can always take a step, so there is no deadlock over these locks |
| Scheduler.HandOff | kernel/proc.c:437-503 | whenever p->lock is free, p is RUNNING if and only if exactly one CPU has c->proc == p |
| Scheduler.ZombieOffStack | kernel/proc.c:383-428 | a ZOMBIE found under its p->lock is on no CPU's kernel stack any more |
| Scheduler.SwitchIsSafe | kernel/proc.c:437-465 | a scheduler about to switch to a process is the only one that will be on its stack |
| Scheduler.SwitchBackFindsP | kernel/proc.c:474-492 | in sched a process holds its own p->lock and no other and is not RUNNING, and swtch returns to a scheduler whose p is the process that left |
| SleepWakeup.StepKeepsInv | kernel/proc.c:528-597 | a process that has decided to sleep has a reason to, or will be woken |
| SleepWakeup.NoLostWakeup | kernel/proc.c:528-597 | for any careful monitor, in every run, whenever the spinlock is free a process sleeps only while its condition is still false |
| SleepWakeup.SleepLockExcludes | kernel/sleeplock.c:21-41 | a sleep lock has at most one holder, whose number it keeps |
| SleepWakeup.SleepLockNoLostWakeup | kernel/sleeplock.c:21-41 | no process sleeps on a free sleep lock while the lock's spinlock is free |
| SleepWakeup.BeginOpNoLostWakeup | kernel/log.c:126-175 | no process sleeps in begin_op while log.lock is free, unless a commit runs or the reservation does not fit |
| ProcessTree.StepKeepsInv | kernel/proc.c:272-428 | every step of fork, reparent, exit and wait keeps the tree |
| ProcessTree.StepsFollowLifeCycle | kernel/proc.c:272-428 | in every step of every run, a process becomes a ZOMBIE only by its own exit and without children, and is freed only by its parent, when it has left its stack |
| ProcessTree.ParentChanges | kernel/proc.c:308-428 | the parent of a process changes only under wait_lock: fork sets it, exit gives children to init, and wait clears it |
| ProcessTree.WaitFindsChildren | kernel/proc.c:392-428 | wait gives up after a scan only if the process has no children, or was killed |
| ProcessTree.ParentsAlive | kernel/proc.c:323-428 | in every reachable state no process has a ZOMBIE or UNUSED parent, and every process but init has a parent from when it is RUNNABLE until it is freed |
| ProcessTree.NoOverlookedZombie | kernel/proc.c:339-428 | whenever wait_lock is free, no process is asleep in wait while it has a ZOMBIE child |
| VirtioDisk.DescriptorsConserved | kernel/virtio_disk.c:144-201 | free descriptors plus three for each request in flight are all there are |
| VirtioDisk.QueuePush | kernel/virtio_disk.c:203-280 | the rings always have room, and a new entry never overwrites an unread one, also across 16-bit wrap-around |
| VirtioDisk.QueueEmpty | kernel/virtio_disk.c:282-315 | comparing 16-bit indices tells exactly whether there is an entry |
| VirtioDisk.DeviceUnderstands | kernel/virtio_disk.c:226-253 | read as the standard says, a chain asks the device for the transfer that the driver was asked for: direction, sector, buffer and status byte; the sector is the block's if and only if its number is below 2^31 |
| VirtioDisk.Disk.AllocDesc | kernel/virtio_disk.c:144-154 | a descriptor that was free, or -1 exactly if none is |
| VirtioDisk.Disk.FreeDesc | kernel/virtio_disk.c:157-170 | panics exactly on a descriptor that does not exist or is free |
| VirtioDisk.Disk.Alloc3Desc | kernel/virtio_disk.c:190-201 | succeeds exactly if three are free, and otherwise restores the free list |
| VirtioDisk.Disk.FreeChain | kernel/virtio_disk.c:173-185 | frees exactly the three descriptors of the request, and never panics |
| VirtioDisk.Disk.Submit | kernel/virtio_disk.c:203-280 | the request is posted behind the unread ones on descriptors of its own, which ask the device for this transfer in this direction; or, if and only if three descriptors are not free, nothing changes |
| VirtioDisk.Disk.Finish | kernel/virtio_disk.c:203-280 | a request whose buffer is released has been completed and seen, and only then is its chain freed |
| VirtioDisk.Disk.Intr | kernel/virtio_disk.c:282-315 | whatever the device takes and completes between the turns of the loop, it ends, and exactly the requests completed by then are seen and their buffers released; it panics if and only if one of them has failed |
| VirtioDisk.Disk.DeviceTake | kernel/virtio_disk.c:203-280 | the device reads the oldest posted request, and finds in its chain what was asked for |
| VirtioDisk.Disk.DeviceComplete | kernel/virtio_disk.c:282-315 | completions in any order keep all bookkeeping in order, and the status arrives |
| Heap.FreeOrUsed | user/umalloc.c:24-90 | no unit is both free and allocated |
| Heap.UnitsConserved | user/umalloc.c:24-90 | free plus allocated units are the units obtained |
| Heap.FreedListOk | user/umalloc.c:24-44 | free keeps the list one cycle in address order without adjacent blocks, whichever neighbours are merged |
| Heap.Freed | user/umalloc.c:24-44 | free keeps all blocks apart and loses no unit |
| Heap.SbrkArgumentExactly | user/umalloc.c:46-61 | the int passed to sbrk is the number of bytes wanted exactly if that is below 2^31 |
| Heap.Allocator.FindSpot | user/umalloc.c:24-44 | free's search ends, between the two entries that surround the block |
| Heap.Allocator.Free | user/umalloc.c:24-44 | the block is no longer allocated, and its units are in freep's block or the next one |
| Heap.Allocator.Morecore | user/umalloc.c:46-61 | the new region joins the free units; on failure nothing changes |
| Heap.Allocator.Malloc | user/umalloc.c:63-90 | if some free block is large enough, the result is the end of the first such block in list order; otherwise new memory is obtained, or the result is 0 if sbrk fails; the block was not allocated, and all other blocks are as before |
| ShellSyntax.LexWords | user/sh.c:265-308 | the word tokens of a line are exactly its longest runs of plain characters |
| ShellSyntax.LineDerives | user/sh.c:344-446 | whatever parseline accepts has a derivation in the grammar that yields the tokens consumed and means the tree |
| ShellSyntax.LineAccepts | user/sh.c:344-446 | whatever has a derivation, up to where a list may end, is accepted with the meaning of that derivation |
| ShellSyntax.ParsesExactly | user/sh.c:327-446 | parsecmd returns a tree if and only if the line derives that tree, so it panics exactly on lines outside the grammar, and no line has two meanings |
| ShellSyntax.AllWords | user/sh.c:327-446 | the words of the tree are exactly the words of the line |
| Shell.Parser.Peek | user/sh.c:310-320 | skips white space, and looks at one character |
| Shell.Parser.GetToken | user/sh.c:265-308 | the token at the cursor, and the cursor after the white space behind it |
| Shell.Parser.ParseExec | user/sh.c:415-446 | the tokens consumed derive a simple command or a block that means the tree; a panic only if nothing ahead can be read so |
| Shell.Parser.ParseLine | user/sh.c:344-359 | the tokens consumed derive a list that means the tree; a panic only if nothing ahead can be read so; remaining bytes bound the recursion |
| Shell.Parser.ParseRedirs | user/sh.c:374-397 | the tokens consumed are redirections, which wrapped around the command in order give the tree, and no other follows; a panic only if what is ahead cannot be read so |
| Shell.Parser.ParseBlock | user/sh.c:399-413 | the tokens consumed derive a parenthesised list that means the tree; a panic only if no parenthesis is ahead, or nothing ahead can be read so |
| Shell.Parser.ParsePipe | user/sh.c:361-372 | the tokens consumed derive a pipeline that means the tree; a panic only if nothing ahead can be read so |
| Shell.Parser.NulTerminate | user/sh.c:449-493 | a NUL after each word of the tree, and no other change to the buffer |
| Shell.Parser.Parse | user/sh.c:327-342 | the tree that the line means, or a panic if it means none; after nulterminate every word of the line is, as a C string, exactly its token |
| Shell.LineOk | user/sh.c:344-446 | every word of a parsed tree is a longest run of plain characters, and each exec has fewer than MAXARGS of them |
| Shell.TerminatedWords | user/sh.c:449-493 | the NULs written for all words leave every word intact |
| Shell.LineParses | user/sh.c:344-446 | a printed tree is parsed back wherever it stands in a line |
| Shell.ParsePrinted | user/sh.c:327-446 | parsing the fully parenthesised printing of any tree of plain words returns that tree |
| Shell.PrintParsed | user/sh.c:327-446 | the tree of any accepted line can be printed, and its printing is accepted with the same tree |
| Grep.AtFirst | user/grep.c:83-104 | an expression matches at a position if its first item fits up to some position where the rest matches |
| Grep.MatchHere | user/grep.c:83-94 | true exactly if the text from the position on can be cut into pieces for all items |
| Grep.MatchStar | user/grep.c:97-104 | true exactly if some number of the character is followed by a match of the rest |
| Grep.Match | user/grep.c:70-80 | true exactly if some position satisfies the expression, or the start if it begins with a caret |

## Left out

- The inode layer meets the log over the abstract disk of the crash model: its methods work on an array of blocks with a set of logged blocks, and do not call the log and cache classes.
- Directories, path names, link counts, pipes, devices and the console.
- exec, uvminit, uvmclear, copyinstr and the kernel's own page table.
- The bytes of a page are modelled by its use (a list link, a table or data), so stale contents of a page are not visible after it changes its use.
- Locks that only guard one atomic operation, such as kmem.lock and the inode table's lock, are not modelled; acquire, release and swtch are atomic steps, without memory fences. A call that would sleep on a lock is modelled from when it gets the lock.
- Liveness: that a process which may run is scheduled, or that a device completes its requests.
- Device registers, interrupts other than those that wake processes, and the start-up of CPUs and devices.
- runcmd in the shell, and the reading of lines in grep.
- BufferCache.BCache.Bget: for the one device that xv6 has.
- BufferCache.BCache.Bread: requires that nobody holds the block's lock, in place of sleeping on it.
- BufferCache.BCache.Brelse: requires that the last reference to a buffer is dropped only when the disk has its data, which the log's pins ensure.
- BufferCache.BCache.Bunpin: requires the same of the last reference.
- RedoLog.Log.Read: requires a block that nobody holds, in place of sleeping on its lock.
- RedoLog.Log.Release: requires that a changed buffer has been logged, so it does not model the release after a failed copy.
- RedoLog.Log.Commit: requires that every changed block has been logged, that nobody holds a log block or a block of the transaction for longer than one read, and a free buffer, which `RedoLog.CommitHasBuffer` gives.
- FileWrite.Filewrite: other operations between two transactions of one write are not modelled.
- CrashSafety.FilewriteSurvivesCrash: each transaction is committed by itself, as it is when no other operation is open.
- Vm.Memory.Kfree: requires a page that is not free already; the source does not look.
- Vm.Memory.Mappages: requires a permission that makes the entry a leaf, as all callers pass.
- Vm.Memory.Uvmunmap: when it frees, requires that mapped pages belong to the tree, and when it does not, that they do not; and a range that does not wrap around.
- Vm.Memory.Uvmdealloc: requires an old size of at most MAXVA when it shrinks, so that the page count fits an int.
- Vm.Memory.Uvmfree: requires a size of at most MAXVA, and leaf pages that are the tree's own.
- Vm.Memory.Uvmcopy: requires a size of at most MAXVA, and pages of the parent that are its own.
- Vm.Memory.Copyout: requires that the user pages of the tree are its own.
- Vm.Memory.Copyin: requires the same.
- AddressSpace.ProcTable.Fork: models the memory and the saved registers of the child, not its files and name.
- Scheduler.SwitchBackFindsP: of the locks that noff counts only the p->locks are modelled, and not whether interrupts are off.
- VirtioDisk.Disk.Submit: requires a buffer that is in no request, which the buffer's sleep lock ensures.
- Heap.Allocator.Malloc: requires that the request in bytes fits an int, and that sbrk returns regions above all earlier ones; sizes are not bounded by 32 bits.
- Heap.Allocator.Morecore: requires the same of sbrk.
- Heap.Allocator.Free: requires a pointer that malloc returned and whose header is intact.
- Shell.ParsePrinted: for words without white space, symbols or NUL, and at most MAXARGS - 1 of them in an exec.
