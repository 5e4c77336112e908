# xv6-riscv: a model and its proofs

A Dafny model of the parts of xv6-riscv that are hardest to get right, taken from the `w3` snapshot of
the course repository (and the thread library from `w5`): the write-ahead log over the buffer cache,
Sv39 page tables and the frame allocator, the inode layer, the user-level storage allocator, the
protocols for exiting and waiting, sleep-locks and the virtio disk, pipes, the thread scheduler, grep's
matcher and the shell's parser. `dafny verify dfyconfig.toml` checks everything.

## How the model is laid out

| files | what they hold |
|---|---|
| `lru`, `bcache` | the buffer cache: linked list, reference counts, and the agreement of cache and disk (`w3/kernel/bio.c`) |
| `logimage`, `log`, `crash` | the log: what each routine writes, block by block, and what a recovery makes of every state a crash can leave (`w3/kernel/log.c`) |
| `logspace`, `logfull`, `logops` | log reservations of concurrent operations, the buffers a commit needs, and the running log as system calls use it, each call a step of the reservation protocol |
| `pagetable`, `translate`, `vm`, `freewalk`, `spaces`, `usermem` | frames and their owners, page-table trees, the flat map they stand for and what the hardware makes of them, growing, shrinking, copying and freeing address spaces (`w3/kernel/kalloc.c`, `w3/kernel/vm.c`) |
| `procmem` | address spaces of processes: allocation, freeing, fork (`w3/kernel/proc.c`) |
| `lazy`, `lazyrun` | user memory as a process sees it: page faults, copyin, copyout, sbrk, and programs made of them |
| `inodes`, `filebytes`, `truncate`, `fs`, `fileops`, `itable` | bitmap, block map, byte files, truncation, chunked writes, the inode table (`w3/kernel/fs.c`, `w3/kernel/file.c`) |
| `arena`, `umalloc` | the K&R allocator (`w3/user/umalloc.c`) |
| `virtq`, `virtio` | the queue shared by driver and device, and the driver (`w3/kernel/virtio_disk.c`; VIRTIO 1.1, sections 2.6 and 5.2) |
| `exitwait`, `sleeplock` | concurrent protocols as step systems (`w3/kernel/proc.c`, `w3/kernel/sleeplock.c`) |
| `grep`, `uthread`, `pipe` | pattern matcher, thread scheduler, pipe ring |
| `shellsyntax`, `shelllex`, `shell` | tokens and grammar of the shell, what can be written and what it means, and the parser with its in-place NUL termination (`w3/user/sh.c`) |
| `params`, `sets` | constants, and sizes of sets |

Code that changes state in place is a class whose methods are proved against functions of its fields;
the facts about those functions are lemmas. Where processes interleave, or a device takes part, each
critical section is one atomic step of a step system, and the results hold for every run of it.

What the reader should know about the conventions:

- A disk is a sequence of blocks that is written one block at a time. It records in a ghost field every
  image it goes through, so a crash is a prefix of that record. Blocks of the log and the cache are
  sequences of 32-bit words.
- Page-table pages, free pages and data pages are different cases of one type. Frames are named by
  number. A ghost map gives every managed frame its owner: free, held by the kernel, a node of some page
  table, or a leaf of one. How many free frames an operation needs is stated exactly: the pages, and the
  page-table pages on their paths that are not there yet. A counter records every kalloc that finds none.
- The cache keeps what it shows of each block (`view`). A block is dirty when that is not on disk, and
  loose when a changed buffer was given back without log_write: then nothing protects the change, and what
  the cache still holds of it is no longer counted.
- A block of the file system is fresh, or holds bytes, or holds block numbers. Inodes are records. The
  file system's ghost fields keep, each for data blocks, inodes and bitmap, which blocks are in the open log
  group (`listed`) and the contents as of the last commit (`disk`). A commit writes a listed block as it is
  in the cache then: `Durable` is the file system it makes durable, `OnDisk` the one that is. In a `Settled`
  file system whatever differs from the disk is in the open group.
- The bytes a user pointer gives or takes before it faults are a parameter (`good`, `room`), as are the
  address that sbrk returns and when a process is killed.
- A panic that the source can raise is either a precondition, an outcome of the step, or an assertion that
  the branch is unreachable.
- `LAB_SYSCALL`, `LAB_PGTBL` and the other lab switches are undefined.

## What the proofs found

- `NBUF` equals `LOGBLOCKS` (`w3/kernel/param.h:9-11`). Three operations within their reservations can
  fill the log and so pin every buffer (`LogOps.FillLog`); the commit's first read of a log block then
  panics in bget. The last end_op panics if and only if NBUF blocks are logged (`LogOps.End`).
- log_write tests the log's capacity before it looks for the block (`w3/kernel/log.c:221-229`), so an
  operation that stays within ten distinct blocks can still panic by logging one of them again: on the
  running log after `LogOps.FillLog` (`LogOps.AbsorptionPanics`), and in the protocol
  (`LogSpace.AbsorptionCanPanic`). It panics if and only if the log is full (`LogSpace.PanicExactlyWhenFull`).
- When copyin faults strictly inside a block's share, and only then, writei leaves bytes in the cached file
  that it does not count (`w3/kernel/fs.c:545-548`, `Fs.FileSys.Writei`). It does not log the block for
  them, yet a commit writes them if the block is in the open group for another reason: it was when writei
  was called, or writei allocated it. Otherwise they stay behind. `Fs.TornWrite` is the input, both ways.
- growproc and sys_sbrk never compare the new size with TRAPFRAME (`w3/kernel/proc.c:238-259`,
  `w3/kernel/sysproc.c:44-72`). An eager call that needs a page from TRAPFRAME on never succeeds: it panics
  in mappages or walk if memory lasts that far, and only then. A lazy call always succeeds, and the size
  stays within user memory if and only if the new one does (`Lazy.SysSbrk`). Lazy calls alone reach a size
  above MAXVA, and then copyin from there panics in walk (`Lazy.SizePastTop`), because vmfault looks at the
  size only; copyout tests MAXVA first and cannot (`Lazy.CopyOutPage`).
- The undoing in proc_pagetable after its second mappages is never reached: the trapframe page needs no
  page-table page that the trampoline page did not make (`ProcMem.MapTrapframe`).
- morecore's request is an int. It is what the header will say if and only if malloc is asked for at most
  0x7FFFFFE0 bytes; one byte more turns it into -2^31 (`Umalloc.RequestExact`).
- sbrk by less than minus the size does nothing and reports success, because the wrapped new size is larger
  than the old one (`Lazy.GrowProc`).
- A kill that comes after kwait has tested killed(p) and before it holds its p->lock does not wake it
  (`w3/kernel/proc.c:421-427`): killed, it sleeps until an exiting process wakes it or it is killed again.
  `ExitWait.KillComesLate` says exactly when, and `ExitWait.KillMissed` that it can happen wherever kwait is
  about to sleep, which it comes to (`ExitWait.AboutToSleep`).
- A pipe read whose copyout fails has consumed one byte that nobody gets (`Pipes.Pipe.Read`).
- A thread that yields alone runs on marked RUNNABLE (`Uthread.Threads.Yield`). thread_create with no free
  slot, and only then, goes on behind its table (`Uthread.Threads.Create`).

## Model

| member | source | states |
|---|---|---|
| `Bcaches.Bcache.constructor` | w3/kernel/bio.c:36-53 | binit links all NBUF buffers, each (dev 0, block 0), into one ring; the cache agrees with the disk and nothing is dirty |
| `Lru.UnlinkKeepsRing` | w3/kernel/bio.c:126-129 | the two link writes that take a buffer out leave a ring of the remaining buffers in the same order |
| `Lru.PushFrontKeepsRing` | w3/kernel/bio.c:130-133 | the four link writes that put a buffer after the head leave a ring with it first |
| `Bcaches.Bcache.MoveToFront` | w3/kernel/bio.c:126-133 | the list stays a permutation of all buffers, with the released one first and the rest in order |
| `Bcaches.Bcache.Bget` | w3/kernel/bio.c:58-89 | the buffer that has the block, or else the unused buffer nearest the tail of the list, refilled; the panic exactly if the block is not cached and every buffer is in use; for a real device no block is cached twice |
| `Bcaches.Bcache.Bread` | w3/kernel/bio.c:91-103 | the returned buffer holds the latest contents of the block, cached or not, unless a change to it was given back unlogged; only that buffer changes |
| `Bcaches.Bcache.KeptValid` | w3/kernel/bio.c:66-72 | a block that cannot be recycled is found valid by bget |
| `Bcaches.Bcache.Modify` | w3/kernel/log.c:187 | changing a held buffer changes the latest contents of just its block and makes it dirty |
| `Bcaches.Bcache.Bwrite` | w3/kernel/bio.c:105-112 | exactly one disk write, of the buffer's block; that block is clean afterwards |
| `Bcaches.Bcache.CopyWrite` | w3/kernel/log.c:77-78 | the copy and write used by write_log and install_trans: one disk write, only the destination buffer changes |
| `Bcaches.Bcache.Brelse` | w3/kernel/bio.c:114-137 | one reference fewer; a buffer nobody uses moves to the front; a changed block that nothing pins loses its protection, any other keeps it |
| `Bcaches.Bcache.Bpin` | w3/kernel/bio.c:139-144 | one reference more, nothing else |
| `Bcaches.Bcache.Bunpin` | w3/kernel/bio.c:146-151 | one reference fewer, and every dirty block is still held |
| `Bcaches.Bcache.LockedInUse` | w3/kernel/bio.c:66-84 | a locked buffer always has a reference |
| `Logs.Log.constructor` | w3/kernel/log.c:53-63 | booting recovers: the disk becomes the recovered image with an empty header, through exactly the writes of one recovery |
| `Logs.Log.ReadHead` | w3/kernel/log.c:86-98 | the in-memory header equals the one on disk |
| `Logs.Log.WriteHead` | w3/kernel/log.c:100-115 | one disk write that replaces the header block by the listed block numbers |
| `Logs.Log.WriteLog` | w3/kernel/log.c:178-192 | the log slots get the latest contents of the listed blocks, one write each, in order; no other block changes |
| `Logs.Log.InstallTrans` | w3/kernel/log.c:65-84 | each logged block reaches its home, one write each, in order; after a commit each pin is given back once |
| `Logs.Log.RecoverFromLog` | w3/kernel/log.c:117-124 | disk, write by write, is that of a complete recovery, and the header is empty |
| `Logs.CommitView` | w3/kernel/log.c:194-204 | a commit changes the latest contents of no home block |
| `Logs.Log.Commit` | w3/kernel/log.c:194-204 | the disk goes through exactly the images of a commit of the latest contents; nothing is dirty, nothing is pinned, the log is empty |
| `Logs.Log.BeginOp` | w3/kernel/log.c:126-143 | one turn of the loop: the operation is counted exactly if the reservation fits, and otherwise has to sleep; disk, cache and log are untouched |
| `Logs.Log.EndOp` | w3/kernel/log.c:145-176 | the last operation commits everything that was logged; any other leaves disk, cache and log alone |
| `Logs.Log.LogWrite` | w3/kernel/log.c:206-236 | the panic exactly if the log is full or no operation runs; otherwise the block is listed once and its buffer pinned once, or absorbed; the list stays free of duplicates |
| `LogImages.InstalledAt` | w3/kernel/log.c:71-83 | after installing, the home of a listed block holds the contents of its last log slot |
| `LogImages.InstalledElsewhere` | w3/kernel/log.c:71-83 | installing changes no block that is not listed |
| `LogImages.InstallTwice` | w3/kernel/log.c:117-124 | installing again after any part of an installation gives the same disk |
| `Crash.RecoveryCrash` | w3/kernel/log.c:117-124 | a crash after any write of a recovery: recovering again gives the same home blocks |
| `Crash.CommitPoint` | w3/kernel/log.c:100-115 | from the header write on, recovery yields the new contents of every home block |
| `Crash.LogSlotsIgnored` | w3/kernel/log.c:178-192 | before the header write, whatever was written to the log slots recovery yields the old contents |
| `Crash.CommitCrash` | w3/kernel/log.c:194-204 | a crash after any of a commit's writes recovers to all of the old home blocks up to the header write, and to all of the new ones from it on |
| `Crash.LogIsGroup` | w3/kernel/log.c:145-204 | what the running log commits is a group of the crash model: same disk writes, and applied to the disk it gives the latest contents of every home block |
| `Crash.EndOpIsAtomic` | w3/kernel/log.c:145-204 | the committing end_op cut after any of its disk writes recovers to the disk before it, up to the header write, or to everything its operations wrote |
| `Crash.StepStands` | w3/kernel/log.c:194-204 | each event, cut anywhere, leaves a disk that stands for the expected file system |
| `Crash.RunIsAtomic` | w3/kernel/log.c:66-124 | for every run of commits, recoveries and power losses, each cut after any number of writes, the disk stands for exactly the groups whose header was written, in order |
| `LogFull.CommitNeedsUnpinnedBuffer` | w3/kernel/log.c:181-188 | with only pins held, write_log can read its first log block if and only if fewer than NBUF blocks are logged |
| `LogOps.Booted` | w3/kernel/log.c:53-63 | what booting and what a commit leave is in order |
| `LogOps.Begin` | w3/kernel/log.c:126-143 | one turn of begin_op on the running log is a Begin step of the protocol |
| `LogOps.Read` | w3/kernel/bio.c:91-103 | a buffer that nobody held, with the latest contents of the block; the log stays in order |
| `LogOps.Change` | w3/kernel/log.c:187 | changing a held buffer changes the latest contents of just its block |
| `LogOps.Record` | w3/kernel/log.c:206-236 | log_write on the running log is a LogWrite step of the protocol, with the same panic |
| `LogOps.Release` | w3/kernel/bio.c:114-137 | giving a buffer back keeps the log in order; nothing is lost if the block was logged or not changed |
| `LogOps.End` | w3/kernel/log.c:145-204 | end_op on the running log is an End step; the last one commits, or panics, which it does if and only if NBUF blocks are logged |
| `LogOps.LastOut` | w3/kernel/log.c:145-204 | with nobody holding a buffer every change is logged and pins are the only references: what commit asks for |
| `LogOps.FillLog` | w3/kernel/param.h:9-11 | a run of the log that begin_op and log_write allow logs NBUF blocks and leaves commit no buffer, since NBUF equals LOGBLOCKS |
| `LogOps.AbsorptionPanics` | w3/kernel/log.c:221-231 | after it, log_write of a block that is listed and held panics |
| `LogSpace.StepKeepsInv` | w3/kernel/log.c:127-236 | each step keeps logged blocks plus what running operations may still add within LOGBLOCKS; committing excludes running operations; whoever sleeps in begin_op could not be admitted now, and has somebody to wake it |
| `LogSpace.NoPanic` | w3/kernel/log.c:127-236 | no run in which every log_write comes while its operation has added fewer than MAXOPBLOCKS blocks panics, and in all of them nobody sleeps in begin_op whose reservation fits |
| `LogSpace.AbsorptionCanPanic` | w3/kernel/log.c:215-236 | a run of operations with at most MAXOPBLOCKS distinct blocks each after which logging a block that is in the list panics: capacity is tested before absorption |
| `LogSpace.PanicExactlyWhenFull` | w3/kernel/log.c:215-236 | in reachable states log_write panics if and only if the log is full, whether or not the block is in the list, and then every operation has used its whole budget |
| `Vm.Machine.constructor` | w3/kernel/kalloc.c:26-42 | every managed frame ends up on the free list once |
| `Vm.Machine.Kalloc` | w3/kernel/kalloc.c:72-91 | the first free frame, now owned by the caller; 0 exactly when none is free, which is recorded as a failure and changes nothing else |
| `Vm.Machine.Kfree` | w3/kernel/kalloc.c:44-68 | the frame is first on the free list; no other owner, no page table and no mapping changes |
| `PageTables.PopFree` | w3/kernel/kalloc.c:81-84 | popping keeps the list exactly the free frames, without repetition |
| `PageTables.PushFree` | w3/kernel/kalloc.c:62-66 | pushing keeps the list exactly the free frames, without repetition |
| `PageTables.PteFields` | w3/kernel/vm.c:190 | an entry made from a frame and permissions is valid and gives both back |
| `PageTables.DistinctSlots` | w3/kernel/vm.c:95-118 | two pages share a level-0 entry if and only if they are the same page of the same page table |
| `PageTables.AddNode` | w3/kernel/vm.c:111-114 | a zeroed page linked in as a child keeps all page tables trees and the flat map unchanged |
| `PageTables.SetEntry` | w3/kernel/vm.c:117 | writing one level-0 entry changes the flat map at exactly that page |
| `Translation.LookupIsPte` | w3/kernel/vm.c:87-94 | the hardware, walking the tree from the root with the three 9-bit indices of the address, finds the entry the flat map has for the page, and a page fault where it has none |
| `Vm.Machine.NewNode` | w3/kernel/vm.c:111-114 | a new page-table page below the given entry, or nothing exactly if no frame is free |
| `Vm.Machine.Walk` | w3/kernel/vm.c:95-118 | the slot of the page's entry: without alloc exactly when its page-table page exists; with alloc exactly if there are free frames for the page-table pages it lacks; the flat map never changes |
| `Vm.Machine.StepWalk` | w3/kernel/vm.c:104-116 | one level of walk: the child page, made exactly if it is missing and alloc asks for it |
| `Vm.Machine.WriteEntry` | w3/kernel/vm.c:190 | insert or remove on the flat map at one page |
| `Vm.Machine.ReadEntry` | w3/kernel/vm.c:117 | the slot's contents is the flat map's entry |
| `Vm.Machine.Mappages` | w3/kernel/vm.c:168-197 | inserts the pages into the flat map, in order, all of them exactly if there are free frames for the page-table pages they lack; nothing else is mapped or unmapped |
| `Vm.Machine.Uvmunmap` | w3/kernel/vm.c:215-239 | removes exactly those pages from the flat map; if asked to, frees exactly their frames, so that the free list grows by the number of pages that were mapped; never meets a non-leaf; without freeing it may be any pages, and user pages then leave frames without an entry |
| `Vm.Machine.UnmapPage` | w3/kernel/vm.c:225-238 | the same for one page, mapped or not |
| `PageTables.NoLeafThere` | w3/kernel/vm.c:215-239 | pages without entries own no frames |
| `Vm.Machine.AddPage` | w3/kernel/vm.c:257-269 | a new frame with given bytes at one page, or everything given back; it fails exactly if there are fewer free frames than the page and the page-table pages it lacks |
| `Vm.Machine.Uvmalloc` | w3/kernel/vm.c:244-272 | new zeroed frames at exactly the missing pages, or every frame back and the flat map as before; it fails exactly if there are fewer free frames than pages and missing page-table pages, and panics exactly if it needs a page from TRAPFRAME on and gets that far |
| `Vm.Machine.GrowOne` | w3/kernel/vm.c:255-270 | one turn of the loop: the next page is there, or there were fewer free frames at the start than the whole call needs |
| `PageTables.NeedsAtMost` | w3/kernel/vm.c:244-272 | no range of pages needs more than three frames a page |
| `PageTables.PlacedUndone` | w3/kernel/vm.c:257-268 | undoing a partial allocation leaves only page-table pages behind |
| `Vm.Machine.Uvmdealloc` | w3/kernel/vm.c:278-290 | frees exactly the pages between the two sizes: one frame more is free for each that was mapped |
| `FreeTree.BareEntry` | w3/kernel/vm.c:298-308 | in a subtree without mappings every valid entry points at an existing child: the leaf panic is unreachable |
| `FreeTree.Climb` | w3/kernel/vm.c:294-311 | every page-table page hangs below an entry at each level above it |
| `FreeTree.DropNode` | w3/kernel/vm.c:310 | a childless page leaves its tree without changing the flat map |
| `FreeTree.ClearEntry` | w3/kernel/vm.c:304 | clearing the entry to a freed child restores the tree |
| `UserMem.Freewalk` | w3/kernel/vm.c:292-311 | frees every page-table page of the subtree, each once, and nothing else |
| `UserMem.Uvmfree` | w3/kernel/vm.c:313-321 | nothing in the machine belongs to the page table any more; no other address space changes |
| `UserMem.Uvmcreate` | w3/kernel/vm.c:200-210 | an empty page table on a free frame, or no change, exactly if none is free |
| `UserMem.CopyPage` | w3/kernel/vm.c:339-353 | one page with the same flags and bytes on a new frame, unless there are too few for it and its page-table pages; a hole stays a hole |
| `UserMem.Uvmcopy` | w3/kernel/vm.c:323-360 | places copies of exactly the parent's pages, or frees them all again; it fails exactly if there are fewer free frames than pages to copy and page-table pages they lack |
| `Spaces.CopyExtraAnyRoot` | w3/kernel/vm.c:323-360 | how many page-table pages a copy needs depends on the parent's holes alone, not on the child's root |
| `Spaces.CopyIsExact` | w3/kernel/vm.c:323-360 | after uvmcopy page v of the child is mapped if and only if the parent's is, with the same permissions and bytes, on a frame that was free |
| `Spaces.TreeGone` | w3/kernel/vm.c:313-321 | with all entries gone and the tree freed no frame and no page-table page belongs to the root |
| `Spaces.CameAndWent` | w3/kernel/proc.c:178-221 | an address space that was built and taken down, at whatever point, leaves every owner and all used contents as they were |
| `Spaces.LocalTwice` | w3/kernel/vm.c:323-360 | confining changes to one address space composes |
| `ProcMem.ProcPagetable` | w3/kernel/proc.c:178-212 | a page table with just trampoline and trapframe, or, exactly if fewer than three frames are free, the machine exactly as before |
| `ProcMem.MapTrapframe` | w3/kernel/proc.c:203-209 | the second mappages needs no frame and cannot fail |
| `ProcMem.ProcFreepagetable` | w3/kernel/proc.c:214-221 | gives back every frame of the address space, leaving all others alone |
| `ProcMem.FreeProc` | w3/kernel/proc.c:157-176 | gives back the trapframe and the address space; the slot is unused |
| `ProcMem.AllocProc` | w3/kernel/proc.c:104-154 | the first unused slot with a new trapframe and address space disjoint from all others; -1 exactly if no slot is unused or fewer than four frames are free, and then machine and table are exactly as before |
| `ProcMem.SpaceKept` | w3/kernel/proc.c:178-221 | whatever happens to one address space the others stay complete |
| `ProcMem.TableFilled` | w3/kernel/proc.c:104-154 | a slot with a new address space fits in: no two slots share a page table or trapframe |
| `ProcMem.ForkRegisters` | w3/kernel/proc.c:284-288 | the child's saved registers are the parent's with a0 zero |
| `ProcMem.KFork` | w3/kernel/proc.c:261-313 | success: an unused slot gets a child with the parent's pages, permissions, bytes and registers on free frames; -1 exactly if no slot is unused or there are fewer free frames than four, the parent's mapped pages and the page-table pages these lack, and then every frame has the owner and contents it had |
| `Lazy.Walkaddr` | w3/kernel/vm.c:120-141 | the frame of a page exactly when it is mapped for users |
| `Lazy.Vmfault` | w3/kernel/vm.c:492-518 | a zeroed page where the process had been promised one; what the process sees does not change; fails only if the page was not promised, is mapped, or finds too few frames; panics exactly for a page above MAXVA that the size covers |
| `Lazy.Touch` | w3/kernel/vm.c:389-394 | unless frames ran out, finds a frame with the page's contents exactly when the process may read it |
| `Lazy.CopyIn` | w3/kernel/vm.c:418-444 | unless frames ran out, succeeds if and only if every byte is readable, and returns exactly those bytes; panics exactly if it starts on a page above MAXVA that the size covers |
| `Lazy.CopyOut` | w3/kernel/vm.c:375-416 | writes the bytes before the first unwritable one and no others; succeeds if and only if that is all of them; never panics |
| `Lazy.CopyOutPage` | w3/kernel/vm.c:385-411 | one page: all of its share, or nothing |
| `Lazy.PokeTwice` | w3/kernel/vm.c:375-416 | writing two adjacent pieces is writing them together |
| `Lazy.PokeAt` | w3/kernel/vm.c:375-416 | of the bytes a process can read those written are the new ones and all others the old ones; what may be read and written stays |
| `Lazy.GrowProc` | w3/kernel/proc.c:238-259 | the size becomes old size plus n, except below zero, where nothing happens; what the process sees is cut or filled with zeroed pages accordingly; after shrinking no page from the new last one on is mapped, and as many frames more are free as pages were mapped there; after growing all are mapped; growing succeeds exactly if there are enough free frames and TRAPFRAME is not reached; failure changes nothing |
| `Lazy.SysSbrk` | w3/kernel/sysproc.c:44-72 | the old size is returned and the size becomes old size plus n, eager or lazy, except below zero; both show the process the same; shrinking is eager and frees exactly the mapped pages; a lazy growth touches no frame; an eager one fails exactly if there are too few free frames, or panics, or fails, if it would reach TRAPFRAME; a lazy one always succeeds, and the size stays within user memory exactly if the new one does |
| `Lazy.SizePastTop` | w3/kernel/sysproc.c:62-70 | lazy calls alone take any process past MAXVA, and then copyin from there panics |
| `Lazy.LazyUser` | w3/kernel/sysproc.c:62-70 | raising the size alone shows zeroed pages |
| `Lazy.PlacedUser` | w3/kernel/vm.c:242-272 | allocating the pages at once shows the same |
| `LazyRun.Step` | w3/kernel/sysproc.c:44-72 | each operation, eager or lazy, does what the plain memory model says, unless there are fewer free frames than three for every page it touches |
| `LazyRun.LazyEqualsEager` | w3/kernel/sysproc.c:44-72 | for every program that stays within user memory and every choice of eager calls, the results and final bytes are those of the plain memory model, unless frames run out, which they do not if three are free for every page its operations touch |
| `LazyRun.SbrkGrows` | w3/kernel/sysproc.c:44-72 | in that model, growing: the old size is returned, old pages keep bytes and permissions, new ones hold zeros, none is readable beyond |
| `LazyRun.SbrkShrinks` | w3/kernel/proc.c:253-256 | shrinking: a read that starts on or above the new end page faults, everything below is as it was |
| `LazyRun.SbrkTooFar` | w3/kernel/proc.c:253-256 | shrinking below zero changes nothing and reports success |
| `LazyRun.OutThenIn` | w3/kernel/vm.c:375-444 | what a program has written it reads back; a write is done exactly if every byte is writable, and one that faults has written what comes before |
| `LazyRun.OutElsewhere` | w3/kernel/vm.c:375-416 | a write leaves all other bytes, and what may be read and written, as they were |
| `Inodes.NoAlias` | w3/kernel/fs.c:401-444 | block slots of inodes, direct, indirect or in indirect blocks, never share a block |
| `Inodes.BitmapAgrees` | w3/kernel/fs.c:64-106 | a bit is set if and only if its block is metadata or stored in some slot, including slots past the size |
| `Inodes.AllocSlotInv` | w3/kernel/fs.c:411-418 | storing a newly allocated block in an inode slot keeps exact agreement |
| `Inodes.AllocEntryInv` | w3/kernel/fs.c:430-440 | storing one in an indirect block keeps exact agreement |
| `Inodes.WriteDataInv` | w3/kernel/fs.c:545-550 | writing file bytes moves no block |
| `Inodes.Detach` | w3/kernel/fs.c:455-460 | freeing a stored block and forgetting it keeps exact agreement |
| `Inodes.KeptFiles` | w3/kernel/fs.c:401-444 | allocating blocks changes the bytes of no file |
| `Fs.FileSys.Balloc` | w3/kernel/fs.c:64-89 | the first free block, zeroed, it and its bitmap block logged; 0 exactly when all are in use |
| `Fs.FileSys.Bfree` | w3/kernel/fs.c:91-106 | clears exactly that bit and logs its block; callers always pass a block in use, so the panic is unreachable |
| `Fs.FileSys.MapSlot` | w3/kernel/fs.c:411-418 | a slot of the inode, filled if empty unless the disk is full |
| `Fs.FileSys.MapEntry` | w3/kernel/fs.c:430-440 | the same for an entry of the indirect block |
| `Fs.FileSys.Bmap` | w3/kernel/fs.c:401-444 | the block of the given kilobyte: that slot of the inode, or that entry of its indirect block; allocates only if it was missing, and then no file's bytes change, bitmap and slots still agree, and everything changed is in the open group |
| `Fs.FileSys.Iupdate` | w3/kernel/fs.c:222-242 | the inode on disk equals the one in memory, and its block is logged |
| `Fs.FileSys.Readi` | w3/kernel/fs.c:490-519 | returns exactly the file's bytes in the range cut at its size, -1 if they do not fit; changes nothing and allocates nothing |
| `FileBytes.WroteMore` | w3/kernel/fs.c:539-551 | one block's share of a write: those bytes change, no other byte of any file does |
| `FileBytes.WroteFile` | w3/kernel/fs.c:553-559 | with the size raised the file is the old one overlaid with the written bytes |
| `Fs.FileSys.WriteBlock` | w3/kernel/fs.c:539-551 | one round of the loop: the whole share of a block, logged; or it stops, because the block is missing and the disk full, or because the source faults within this share, with exactly the bytes before the fault in the cached block |
| `Fs.FileSys.Writei` | w3/kernel/fs.c:521-562 | the file becomes the old one overlaid with the bytes written, all other files unchanged; the inode is logged, also when nothing was written; short only if the disk is full or the source faults, and then stopped at the block where it does; a commit makes durable a file system in order with bitmap, inode and how many of the bytes: all, or, if the fault tore a block that is not in the open group, those counted |
| `Fs.FileSys.EndOp` | w3/kernel/log.c:145-204 | the last operation's end makes the open group durable: data blocks, inodes and bitmap; any other changes nothing on disk |
| `Fs.FileSys.DurableIs` | w3/kernel/fs.c:222-242 | between operations nothing is lost: when every change is in the open group, what a commit makes durable is the file system in memory, which is in order |
| `Fs.FileSys.MetaPending` | w3/kernel/fs.c:222-242 | inodes and bits that differ from the disk only in blocks of the open group all come with the commit |
| `Fs.FileSys.CopyTorn` | w3/kernel/fs.c:543-548 | the fault strictly inside a block: its bytes are in the cached file, and are committed exactly if the block is in the open group |
| `Fs.TornWrite` | w3/kernel/fs.c:543-548 | the input: a write of two bytes of which the second faults counts none and changes the cached file, and the one a commit makes durable exactly if the block was in the group |
| `FileOps.ReadBack` | w3/kernel/fs.c:490-562 | a write that completes is read back exactly |
| `FileBytes.StretchSize` | w3/kernel/file.c:148-173 | a stretch of k kilobytes touches at most k blocks |
| `FileOps.ChunkFitsLog` | w3/kernel/file.c:148-165 | with a one-block bitmap a chunk logs at most 7 distinct blocks |
| `FileOps.WriteChunk` | w3/kernel/file.c:160-165 | one transaction: at most 7 blocks logged, offset advanced by what was written; why it is short if it is, how many bytes reached the cache and will be committed; if no other operation runs, they are on disk at its end |
| `FileOps.StoppedShort` | w3/kernel/file.c:160-173 | why writei stopped is why the whole write is short |
| `FileOps.WroteFilesTwice` | w3/kernel/file.c:157-173 | adjacent chunks add up to one write |
| `FileOps.Filewrite` | w3/kernel/file.c:132-179 | the whole write is one overlay at the old offset, in the cache and in what commits make durable; returns n if and only if all of it was written; it falls short only if it starts beyond the end, would end beyond the largest file, the disk is full, or the source faults; every transaction fits its reservation; the inode in memory and in its block agree after it |
| `Fs.FileSys.FreeSlots` | w3/kernel/fs.c:455-460 | frees the direct blocks of the inode, each once |
| `Fs.FileSys.FreeEntries` | w3/kernel/fs.c:465-468 | frees the blocks the indirect block lists, each once |
| `Fs.FileSys.FreeIndirect` | w3/kernel/fs.c:462-472 | then the indirect block itself |
| `Truncate.DropIndirect` | w3/kernel/fs.c:462-472 | freeing the indirect block after its entries restores exact agreement |
| `Truncate.AllDone` | w3/kernel/fs.c:446-476 | without an indirect block the direct slots were all there was |
| `Fs.FileSys.Itrunc` | w3/kernel/fs.c:446-476 | exactly the inode's own blocks become free, its size is 0, all other files are unchanged; it is logged, and everything changed is in the open group |
| `Itable.Ialloc` | w3/kernel/fs.c:195-220 | the first free inode, initialised, its block logged, and a reference to it in the table; null exactly when none is free, and then nothing changes |
| `Itable.Iget` | w3/kernel/fs.c:244-278 | one more reference to the inode's only entry, or a free entry, still to be read; no other entry changes |
| `Itable.Ilock` | w3/kernel/fs.c:291-318 | the entry is a copy of the inode on disk |
| `Itable.Iput` | w3/kernel/fs.c:330-363 | the last reference to an inode without links frees it and exactly its blocks, with its block logged and every change in the open group; otherwise only the count changes |
| `Itable.ReclaimOne` | w3/kernel/fs.c:375-392 | an allocated inode without links is gone afterwards with exactly its blocks, from the disk too; any other is left alone |
| `Itable.Ireclaim` | w3/kernel/fs.c:373-393 | afterwards no allocated inode has nlink 0: exactly those that had none are free, every other inode and file is unchanged, and the disk has all of it |
| `Arena.Disjoint` | w3/user/umalloc.c:24-90 | no two blocks, free or live, share a unit |
| `Arena.NotAdjacent` | w3/user/umalloc.c:24-44 | no two free blocks touch |
| `Arena.Conservation` | w3/user/umalloc.c:24-90 | free units plus live units equal the units obtained from sbrk |
| `Arena.TakenInv` | w3/user/umalloc.c:76-77 | handing out a whole block keeps the heap in order |
| `Arena.SplitInv` | w3/user/umalloc.c:78-82 | splitting one does too |
| `Arena.GrownInv` | w3/user/umalloc.c:33-35 | joining with the following free block does too |
| `Arena.MergedInv` | w3/user/umalloc.c:38-40 | joining with the preceding free block does too |
| `Arena.InsertedInv` | w3/user/umalloc.c:36-42 | so does inserting between two that it does not touch |
| `Arena.MoreInv` | w3/user/umalloc.c:46-61 | so does adding new memory |
| `Umalloc.Heap.OnRing` | w3/user/umalloc.c:30-32 | the search stops at exactly one place on the circle, the one where the block belongs |
| `Umalloc.Heap.Free` | w3/user/umalloc.c:24-44 | the block is no longer live, no unit is lost, other live blocks keep address and size, and the search ends |
| `Umalloc.Heap.Coalesce` | w3/user/umalloc.c:33-43 | links and sizes are those of the address-ordered, fully coalesced list |
| `Umalloc.Heap.Morecore` | w3/user/umalloc.c:46-61 | adds exactly the granted units to the free list, which then has room for the request |
| `Umalloc.Heap.NoRoom` | w3/user/umalloc.c:74-89 | a full round without a fit means there is none |
| `Umalloc.Heap.Carve` | w3/user/umalloc.c:75-84 | cuts exactly the requested units, from the end |
| `Umalloc.Heap.Malloc` | w3/user/umalloc.c:63-90 | a new live block of exactly the units needed, disjoint from all others; sbrk is asked once, and only if no free block fits; 0 only if it refuses; the search ends |
| `Umalloc.UnitsFor` | w3/user/umalloc.c:69 | the least number of units with room for a header and the bytes |
| `Umalloc.RequestExact` | w3/user/umalloc.c:47-54 | sbrk is asked for exactly what the header will say if and only if the request is at most 0x7FFFFFE0 bytes |
| `Virtq.TwoInFlight` | w3/kernel/virtio_disk.c:199-213 | three-descriptor chains: at most two requests are in flight |
| `Virtq.SubmittedInv` | w3/kernel/virtio_disk.c:238-277 | submitting keeps descriptors, rings and chains in order; a pending avail slot is never overwritten |
| `Virtq.TakenInv` | w3/kernel/virtio_disk.c:271-277 | the device takes the oldest pending request, and there is one exactly when the 16-bit indices differ |
| `Virtq.FinishedInv` | w3/kernel/virtio_disk.c:309-324 | finishing any taken request overwrites no used entry the driver has not seen |
| `Virtq.SeenInv` | w3/kernel/virtio_disk.c:312-323 | the handler sees the oldest finished request, with status 0 |
| `Virtq.FreedInv` | w3/kernel/virtio_disk.c:288-289 | freeing a finished chain returns its three descriptors |
| `Virtq.IndicesTell` | w3/kernel/virtio_disk.c:312 | 16-bit indices are equal exactly when the counts are |
| `Virtq.ChainMeans` | w3/kernel/virtio_disk.c:238-265 | while in flight a chain still names its own request, buffer and status byte |
| `Virtq.FinishMoves` | w3/kernel/virtio_disk.c:238-265 | the device moves exactly the requested block in the requested direction |
| `Virtq.Partition` | w3/kernel/virtio_disk.c:155-213 | in every interleaving each descriptor is free or in exactly one chain |
| `Virtq.ReturnsWhenFinished` | w3/kernel/virtio_disk.c:283-292 | in every interleaving, when a buffer is no longer busy its own request is finished |
| `Virtq.StepKeepsReq` | w3/kernel/virtio_disk.c:238-292 | until it is freed every step leaves a request its buffer and operation, and the buffer its bytes; only the device's finishing it carries it out |
| `Virtq.Flight` | w3/kernel/virtio_disk.c:238-292 | over any run: a request is over exactly if the device finished it at some step, and its buffer was untouched before and after |
| `Virtq.DoesAsAsked` | w3/kernel/virtio_disk.c:215-292 | in every run, when the buffer passed to virtio_disk_rw is no longer busy, a write has put what it held at the call into the sector asked for, and a read has put that sector into the buffer, where it still is |
| `Virtq.NeverStuck` | w3/kernel/virtio_disk.c:271-327 | a request that is not finished can always go on: at most five steps of device and handler, each possible when its turn comes, lead to its end |
| `Virtq.NeverBack` | w3/kernel/virtio_disk.c:226-327 | no step of anybody takes it further from its end |
| `Virtq.InitialInv` | w3/kernel/virtio_disk.c:144-146 | the state virtio_disk_init leaves is in order |
| `Virtio.Disk.AllocDesc` | w3/kernel/virtio_disk.c:155-166 | the first free descriptor, or -1 exactly when there is none |
| `Virtio.Disk.FreeDesc` | w3/kernel/virtio_disk.c:168-182 | callable only on a descriptor in use: neither panic is reachable |
| `Virtio.Disk.Alloc3Desc` | w3/kernel/virtio_disk.c:199-213 | three distinct descriptors, or none taken because fewer than three are free |
| `Virtio.Disk.Submit` | w3/kernel/virtio_disk.c:226-277 | the request is queued on a fresh chain with the buffer, sector and direction asked for, and no block moves yet; or the call has to wait and nothing is kept |
| `Virtio.Disk.DeviceTake` | w3/kernel/virtio_disk.c:271-277 | the device's side of the avail ring |
| `Virtio.Disk.DeviceFinish` | w3/kernel/virtio_disk.c:309-324 | the device's side of the used ring |
| `Virtio.Disk.IntrOne` | w3/kernel/virtio_disk.c:312-323 | one completion handed to its buffer; the status panic is unreachable |
| `Virtio.Disk.Intr` | w3/kernel/virtio_disk.c:294-327 | afterwards no completion is unseen |
| `Virtio.Disk.Finish` | w3/kernel/virtio_disk.c:283-289 | returns only after its own request is finished, with its chain free again |
| `Virtio.Disk.FreeChain` | w3/kernel/virtio_disk.c:184-197 | following the links frees exactly the three descriptors |
| `ExitWait.StepKeepsInv` | w3/kernel/proc.c:261-429 | every step of fork, exit, wait, sleep, wakeup, kill and scheduling keeps the invariant; a scan of kwait has noticed children if and only if it has passed one, and has passed no zombie |
| `ExitWait.QuietWhenFree` | w3/kernel/proc.c:315-429 | in every run, whenever wait_lock is free, every parent is alive and nobody sleeps in kwait with a zombie child |
| `ExitWait.ReapsOnce` | w3/kernel/proc.c:398-414 | reaping returns the pid and status of a process that exited and was never reaped, and empties only its slot |
| `ExitWait.NoneLost` | w3/kernel/proc.c:331-429 | in every run each exited pid has been reaped with its own status or is still a zombie |
| `ExitWait.StillZombie` | w3/kernel/proc.c:398-414 | nothing but being reaped ends a zombie |
| `ExitWait.RestWakeup` | w3/kernel/proc.c:315-329 | whoever rests in kwait is woken before a reparented zombie can be missed |
| `ExitWait.RestExit` | w3/kernel/proc.c:357-370 | nor can an exiting child's wakeup be missed |
| `ExitWait.ChildReparent` | w3/kernel/proc.c:315-329 | an exiting process has no children left behind its loop |
| `ExitWait.BootInv` | w3/kernel/proc.c:223-236 | the state after userinit is in order |
| `ExitWait.GivesUpChildless` | w3/kernel/proc.c:379-429 | in every run kwait gives up without being killed only if the process has no child, and goes to sleep only if it has one |
| `ExitWait.WaitStays` | w3/kernel/proc.c:379-429 | kwait returns only with a zombie child or by giving up; woken, it goes back to the scan |
| `ExitWait.ExitEnds` | w3/kernel/proc.c:334-375 | kexit ends with the process a zombie that has the status it was called with, on record under its pid, and nobody's parent |
| `ExitWait.ForkStarts` | w3/kernel/proc.c:261-272 | kfork takes an unused slot and gives it a pid nobody has |
| `ExitWait.ForkEnds` | w3/kernel/proc.c:273-313 | it returns after giving the slot back, or with the child runnable and its own |
| `ExitWait.ParentMoves` | w3/kernel/proc.c:315-329 | a process's parent changes only when it is forked, when that parent exits, and then it is init, and when the process is reaped |
| `ExitWait.KillLasts` | w3/kernel/proc.c:606-629 | a kill wakes a sleeping process and lasts until its slot is emptied; nothing else sets the mark |
| `ExitWait.KillComesLate` | w3/kernel/proc.c:420-427 | kwait sleeps through exactly the kills that come after its test and before it holds its p->lock, until it is woken by an exiting process or killed again |
| `ExitWait.KillMissed` | w3/kernel/proc.c:420-427 | wherever kwait is about to sleep, it can be killed and sleep all the same |
| `ExitWait.AboutToSleep` | w3/kernel/proc.c:420-427 | and there is a run that comes to that point |
| `ExitWait.LockGivenUp` | w3/kernel/proc.c:315-429 | wait_lock is given up after a bounded number of its holder's steps, whatever the others do |
| `ExitWait.HolderMoves` | w3/kernel/proc.c:315-429 | its holder can always go on, unless it needs the p->lock of a process on its way off the CPU, which can |
| `ExitWait.NeverStuck` | w3/kernel/proc.c:261-429 | a running process inside kfork or kwait can always go on, or waits for wait_lock, whose holder can |
| `Sleeplock.StepKeepsInv` | w3/kernel/sleeplock.c:21-41 | every step of acquiresleep, releasesleep and kill keeps the invariant |
| `Sleeplock.MutualExclusion` | w3/kernel/sleeplock.c:21-41 | in every run at most one process holds the lock |
| `Sleeplock.NoLostWakeup` | w3/kernel/proc.c:556-604 | in every run a sleeper on the lock implies an owner, or a releaser whose wakeup has still to come to it |
| `Sleeplock.HoldingTells` | w3/kernel/sleeplock.c:43-52 | holdingsleep is true for exactly the owner |
| `Sleeplock.UnheldInv` | w3/kernel/sleeplock.c:12-19 | a new lock with all processes outside is in order |
| `Sleeplock.AcquireEnds` | w3/kernel/sleeplock.c:21-31 | acquiresleep returns holding the lock, and only after finding it free; woken, it tests again |
| `Sleeplock.HoldingEnds` | w3/kernel/sleeplock.c:21-41 | the owner keeps the lock until it calls releasesleep and comes to clear it |
| `Sleeplock.ReleaseEnds` | w3/kernel/sleeplock.c:33-41 | releasesleep returns with the lock given up and nobody left asleep on it |
| `Sleeplock.InnerGivenUp` | w3/kernel/sleeplock.c:21-41 | the inner lock is given up after a bounded number of its holder's steps, whatever the others do |
| `Sleeplock.NeverStuck` | w3/kernel/sleeplock.c:21-41 | a process in acquiresleep or releasesleep that does not sleep can go on, or waits for the inner lock, whose holder can, or the process its wakeup has come to |
| `Grep.MatchHere` | w3/user/grep.c:84-96 | true if and only if a prefix of the text is in the language of the pattern, all of it if the pattern ends with $ |
| `Grep.MatchStar` | w3/user/grep.c:98-106 | true if and only if some run of c is followed by a match of the rest |
| `Grep.Match` | w3/user/grep.c:72-82 | true if and only if some substring is in the language, anchored by ^ and a final $ |
| `Grep.PrefixItem` | w3/user/grep.c:84-106 | an item first: a piece for it and a match of the rest, in both directions |
| `Grep.PrefixEnd` | w3/user/grep.c:91-92 | a final $ matches at the end only |
| `Uthread.Threads.constructor` | w5/user/uthread.c:41-48 | thread 0 runs, all others are free |
| `Uthread.Threads.Schedule` | w5/user/uthread.c:50-88 | picks the first runnable thread after the current one; it resumes with the registers it left with; no other context changes |
| `Uthread.Threads.Yield` | w5/user/uthread.c:105-109 | the same; a thread that is alone runs on, still marked runnable |
| `Uthread.Threads.Exit` | w5/user/uthread.c:130-131 | the thread is free and the first runnable one after it resumes with its own registers; not ok exactly when nobody else is runnable |
| `Uthread.Threads.Create` | w5/user/uthread.c:90-103 | the first free slot becomes a runnable thread on its own stack and nothing else changes; not ok exactly if no slot is free |
| `Uthread.Threads.Switch` | w5/user/uthread.c:84 | saves one context and loads the other |
| `Uthread.Closer` | w5/user/uthread.c:54-67 | every scheduling brings a waiting thread's turn closer |
| `Uthread.BoundedWaiting` | w5/user/uthread.c:50-109 | in every run a thread that stays runnable runs within MAX_THREAD - 1 schedulings |
| `Pipes.TestsTell` | w3/kernel/pipe.c:88-113 | the tests on 32-bit counters tell the true occupancy, and slots are those of the true counts |
| `Pipes.PutInv` | w3/kernel/pipe.c:95 | a byte written when not full overwrites no unread byte |
| `Pipes.GotInv` | w3/kernel/pipe.c:123 | the byte read is the oldest unread one |
| `Pipes.Fifo` | w3/kernel/pipe.c:76-130 | in every interleaving the consumed bytes are a prefix of the written ones, at most PIPESIZE behind |
| `Pipes.Pipe.constructor` | w3/kernel/pipe.c:33-36 | a new pipe is empty and open at both ends |
| `Pipes.Pipe.Write` | w3/kernel/pipe.c:76-103 | what one turn under the lock appends, and why it ended: done, fault, full, or reader gone or killed, which may happen before any byte |
| `Pipes.Pipe.Read` | w3/kernel/pipe.c:105-130 | what one turn consumes and delivers; a failed copy out loses exactly one byte |
| `Pipes.Pipe.Take` | w3/kernel/pipe.c:123 | the oldest byte leaves the ring |
| `Pipes.Pipe.Close` | w3/kernel/pipe.c:58-68 | closes one end and touches no byte |
| `Shell.Parser.Peek` | w3/user/sh.c:316-326 | skips spaces and tells whether one of the symbols is next; no token is consumed |
| `Shell.Parser.GetToken` | w3/user/sh.c:271-314 | exactly the next token of the line: a whole word, a symbol, >> or the end; the cursor advances unless at the end |
| `Shell.Parser.ParseRedirs` | w3/user/sh.c:380-403 | takes exactly the redirections the grammar allows; each has the word after its operator, its mode and descriptor |
| `Shell.Parser.ParseExec` | w3/user/sh.c:421-452 | agrees with the grammar, also on failing, so arguments and redirections may come in any order (`ShellSyntax.ItemsRead`); the arguments are whole words of the text in order, fewer than MAXARGS; ends for every input |
| `Shell.Parser.ParseBlock` | w3/user/sh.c:405-419 | agrees with the grammar on a parenthesised line with its redirections |
| `Shell.Parser.ParsePipe` | w3/user/sh.c:367-378 | agrees with the grammar: left command, bar, right command, in that order |
| `Shell.Parser.ParseLine` | w3/user/sh.c:350-365 | agrees with the grammar: commands with & after them and ; between them; ends for every input |
| `Shell.AddArgReads` | w3/user/sh.c:442-444 | adding an argument after redirections keeps the text's reading: words are whole, and no file name overlaps an argument |
| `Shell.WordsDisjoint` | w3/user/sh.c:271-452 | any two different words of a parsed command, arguments and file names, are disjoint |
| `Shell.Nulterminate` | w3/user/sh.c:454-499 | writes a NUL at the end of every recorded word and nowhere else |
| `Shell.EndsOutside` | w3/user/sh.c:454-499 | no NUL lands on a word character |
| `Shell.Terminated` | w3/user/sh.c:454-499 | afterwards each argument and file name is a C string equal to its word |
| `Shell.ParseCmd` | w3/user/sh.c:333-348 | the command that a way of writing the whole line means, or failure with the buffer untouched exactly when there is no way of writing it; the recorded slices are in bounds and pairwise disjoint, and each pointer of the result is the C string of its original slice |
| `ShellSyntax.LineKeeps` | w3/user/sh.c:333-452 | no word of the line is lost, none appears twice: the words of the command are those of the tokens consumed |
| `ShellSyntax.LineBack` | w3/user/sh.c:350-452 | every way of writing a line is read as what it means: arguments and redirections in any order, parentheses anywhere, redirected, piped, with & and ; |
| `ShellSyntax.ItemsRead` | w3/user/sh.c:421-452 | a simple command is read if it has fewer than MAXARGS arguments, wherever the redirections stand: its arguments in order, inside its redirections in order |
| `ShellSyntax.WrapHas` | w3/user/sh.c:380-403 | the command so made has exactly those arguments and exactly those redirections, the last one outermost |
| `ShellSyntax.LineOnly` | w3/user/sh.c:350-452 | nothing else is accepted: whatever is read was written in one of these ways and means the result |
| `ShellSyntax.Refused` | w3/user/sh.c:333-348 | where the grammar fails or leaves tokens over, no way of writing a line gives those tokens |
| `ShellLex.LexBack` | w3/user/sh.c:271-314 | a text made of words, symbols and blanks has just those words and symbols for tokens |
| `ShellSyntax.Accepted` | w3/user/sh.c:333-348 | a text's tokens are given a command if and only if they are a way of writing it |
| `ShellSyntax.ShowsApart` | w3/user/sh.c:350-452 | every command tree can be written, and different ones are written differently |

## Left out

- Crash.RunIsAtomic: a group is what one commit writes; that a system call's blocks all fall into one group is end_op's waiting for `outstanding` to reach 0, shown in `LogSpace` and `Logs.Log.EndOp`. Block writes are atomic.
- Logs.Log.Commit: asks that nobody holds a buffer of the log area or of a listed block, that every change is logged and that one buffer is unused. `LogOps.LastOut` shows the first two when the last operation holds nothing; without the third the source panics, which `LogOps.End` states.
- Logs.Log.EndOp: the same for the last operation; `LogOps.End` states it without these.
- LogOps.Read: a call that finds the buffer locked waits, and is made when it is free; one that finds no buffer panics in bget and is excluded.
- Logs.Log.RecoverFromLog: asks for two unused buffers, which the boot sequence gives, and for a header that lists home blocks.
- Bcaches.Bcache.Bget: waiting for a buffer's sleep-lock is not modelled; the call is made when the lock is free.
- LogSpace.NoPanic: counts the blocks an operation adds, and excludes log_write after the tenth, also of a block already logged.
- Lazy.SysSbrk: shrinking is for sizes within user memory. What shrinking, fork or exit do with a size that lazy calls took past TRAPFRAME is left out (they reach the trapframe page, or walk's panic). The new size of an eager call is at most 2^64 - PGSIZE.
- Vm.Machine.Uvmdealloc: sizes up to TRAPFRAME, unless there is nothing to shrink; so `Vm.Machine.Uvmunmap` frees user pages only.
- ProcMem.KFork: processes within user memory, as `ProcMem.TableOk` has it.
- LazyRun.LazyEqualsEager: programs whose size stays within user memory, since past it an eager sbrk never succeeds and a lazy one does. It covers sbrk, copyin and copyout on the process's own page table; copyinstr does not fault pages in and is not modelled.
- ProcMem.ForkInto: the memory and registers of fork; open files, the working directory, the name, pid and parent are not part of it (pid and parent are in `ExitWait`).
- Fs.FileSys.Writei: starts with nothing left behind by an earlier fault (`Settled`). File contents after a transaction is undone by a crash are not tied to `Crash`; the two meet in the blocks that are logged.
- FileOps.ChunkFitsLog: asks for a bitmap of one block (sb.size at most BPB), which the file system maker's sizes satisfy.
- Itable.Ireclaim: starts with every change on disk or in the open group (`Settled`), as after the log's recovery, and runs alone.
- Itable.Iget: one operation at a time; the table's lock, inode sleep-locks and concurrent users of one inode are not modelled, and the table is assumed to have room.
- Umalloc.Heap.Malloc: sbrk returns aligned memory above all it returned before, and if it returns any it was asked for what the header will say (`Umalloc.RequestExact` says when).
- Virtio.Disk.IntrOne: the device reports success; an I/O error status is the source's panic and not modelled.
- ExitWait.NeverStuck: says who can go on; that the scheduler lets it, and that a lock is taken in turn, is not part of it. The same for `Sleeplock.NeverStuck` and `Virtq.NeverStuck`.
- ExitWait.StepKeepsInv: pids do not wrap; what kexit does with files, and swtch itself, are single steps.
- Sleeplock.NoLostWakeup: for sleep-locks only. pipewrite's path for a killed process returns without waking readers, so no such claim is made for pipes.
- Grep.Match: patterns and texts without NUL; the line buffering of grep() is left out.
- Shell.ParseCmd: malloc succeeds; running commands, cd and reading the line are left out.
- Uthread.Threads.Create: the store behind the table when no slot is free.
- On-disk encodings of bitmap bytes, inodes and block numbers, and major and minor numbers of devices: typed contents stand for them.
- Directories, paths and link counts: an entry created in an unlinked directory that is somebody's working directory breaks the plain counting invariant.
- exec, uvmclear, files and their reference counts, the kernel's own page table.
- Integer widths of file sizes and block numbers beyond the overflow tests of readi and writei.
- Boot, traps, assembly, the scheduler's context switch, interrupts other than the disk's, UART, console and printf.
- Weak memory: spinlock sections are atomic steps. The MMIO set-up of the disk: the model starts with all descriptors free.
- The hash table, Park-Miller generator, monitor, handshake, sniffer and test programs: easy next to the rest. The `w5` kernel files repeat `w3`.
