# xv6, four projects: models and proofs

This project models the hard parts of an xv6 kernel and its first user programs
and proves what they are for. The four project directories share most of their
files; the `project_1` copy stands for all of them, except for the shared memory
of `project_2` and the scheduler of `project_4`.

* **A redo log that survives crashes.** The disk is a sequence of blocks with
  atomic single-block writes (`RedoLog.dfy`). A crash may fall between any two
  writes, also inside recovery, any number of times. Above it sit the buffer cache
  with its ring of doubly linked buffers (`BufferCache.dfy`), the copying loops of
  the log over that cache with the calls of its clients between them
  (`LogSteps.dfy`, `LogManager.dfy`) and the reservations of group commit as a step
  machine (`GroupCommit.dfy`).
* **Allocators and address spaces.** The circular next-fit allocator
  (`Umalloc.dfy`), the page free list (`Kalloc.dfy`), two-level page tables with an
  owner for every frame (`PageTables.dfy`, `Vm.dfy`), how many frames a space takes
  (`FrameCounts.dfy`) and the pages several processes share (`Shmem.dfy`).
* **Files.** The free map, direct and indirect blocks, and reading and writing a
  file as one flat byte array, from any consistent image on (`FsBytes.dfy`,
  `FsState.dfy`, `FsFiles.dfy`, `FsInodes.dfy`, `Fs.dfy`).
* **Processes as steps.** The process table with fork, exit, wait, kill, sleep and
  sleep locks (`Processes.dfy`, `Proc.dfy`), pipes (`Pipe.dfy`) and one scan of the
  priority scheduler (`Sched.dfy`).
* **Parsing and matching.** The shell's recursive-descent parser (`ShellSyntax.dfy`,
  `Shell.dfy`) with what its lines mean: fully parenthesised ones
  (`ShellRoundTrip.dfy`), those where precedence decides (`ShellPrecedence.dfy`), and
  what it never lets through (`ShellSound.dfy`). The pattern matcher of grep
  (`Grep.dfy`).

Code that updates memory in place is a class with those fields or a loop over an
array, proved against functions on values; what the code promises is then proved
about those functions as lemmas. Concurrent code is a machine whose steps are the
sections between two releases of the lock, with every interleaving allowed.

`dafny verify dfyconfig.toml` checks the whole project.

## What turned out not to hold

* `log_write` tests for a full header before it looks for the block to absorb, so
  a write of a block that is already logged panics when the header is full.
  `GroupCommit.AbsorbGuard` says exactly when, `GroupCommit.AbsorbedWriteCanPanic`
  gives a run for every size of the log area.
* The guard that protects appends can fire in some run exactly if the log area has
  no more than LOGSIZE blocks (`GroupCommit.AppendPanicsIff`);
  `project_1/mkfs.c:25` makes it exactly LOGSIZE.
* `malloc` computes in unsigned 32-bit arithmetic what it later hands to an `int`.
  Rounding up wraps around for the last seven sizes (`Umalloc.RequestFits`). Well
  before that the byte count morecore asks of sbrk turns negative, which shrinks
  the process, and at one size it is zero (`Umalloc.MallocAsks`). The arithmetic is
  right from end to end exactly up to 2^31 - 16 bytes (`Umalloc.MallocExact`), and
  for any request the units on the list stay memory of the process exactly if sbrk
  was not asked or was asked for the right amount (`Umalloc.Heap.Malloc`).
* A writer that is killed while more than a full pipe is left to write, with a
  reader asleep, leaves without waking it: the state before the call decides
  (`Pipe.Pipe.Write` with `LosesWakeup`, an if-and-only-if; `Pipe.LostWakeup` is a
  run).
* `kill` acts on the first slot with the number, free or not, so it can mark a free
  slot: with number 0, with the number a failed fork left there, or by marking an
  EMBRYO whose fork then fails. A process is born killed exactly if its slot is
  marked (`Processes.BornKilledIff`), a free slot gets marked exactly in these
  ways (`Processes.MarkedFreeNext`, `Processes.KillHits`), and
  `Processes.KillZeroRun` and `Processes.KillStaleRun` are runs from boot.
* A process that becomes runnable at high priority after the scan of the scheduler
  has started at low priority is passed over in that scan, unless a process
  dispatched before it came back at high priority (`Sched.HighDispatchedIff`, an
  if-and-only-if; `Sched.LateHighPassedOver` is an input).
* The size check of `shmem_access` compares with an address that has wrapped
  around and rejects nothing (`Shmem.CheckNeverRejects`), and `exec` drops shared
  pages without counting them down.
* A fork that fails while it maps the shared pages leaves a flag set that nothing
  counts. It happens exactly if the parent has a shared page, its own pages do not
  reach the directory entry the shared pages come under, and copying its own pages
  takes every free frame (`Shmem.Tears`, with `Shmem.SharedMemory.Fork` and
  `Shmem.Call` as the if-and-only-if). `Shmem.FailingFork` boots a machine that
  gets there.
* `growproc` that shrinks a process to exactly nothing frees its pages, takes the
  new size 0 for a failure and keeps the old size. In every other case the pages
  below the size are mapped afterwards (`Vm.Memory.Growproc`, an if-and-only-if).
* `mkfs` rounds the size of the root directory up past its last block. The rounded
  size covers a block that is not there exactly if the directory ended at the end
  of a block (`FsInodes.RootRounded`).

## Model

| member | source | states |
|---|---|---|
| RedoLog.WithHead | project_1/log.c:102-113 | the header block write_head leaves is read back by read_head as the same count and the same block numbers |
| RedoLog.ReinstallAbsorbs | project_1/log.c:70-82 | installing the log again from its start over any partial installation ends in the same disk as one uninterrupted installation |
| RedoLog.RecoveryRestarts | project_1/log.c:116-122 | whatever disk a crash inside recovery leaves, recovering it ends where the uninterrupted recovery would have ended |
| RedoLog.CrashChainRecovers | project_1/log.c:116-122 | the same for any number of recoveries that crash one after the other |
| RedoLog.RecoverUnpublished | project_1/log.c:176-202 | as long as the header is clear, recovery leaves every home block as it was |
| RedoLog.PublishedInstalls | project_1/log.c:70-113 | a published transaction can be installed, and installing it puts every new value in its home block and touches no other |
| RedoLog.RecoverPublished | project_1/log.c:70-113 | once the header is published, recovery from any point of the installation finds exactly the new home blocks |
| RedoLog.CommitTraceAt | project_1/log.c:176-202 | the disk after each single write of a commit, by the stage it belongs to, and how many writes there are |
| RedoLog.CommitStepAtomic | project_1/log.c:192-202 | every disk a commit passes through recovers to all old or all new home blocks, and never back from new to old |
| RedoLog.CommitCrashAtomic | project_1/log.c:68-202 | crash at any point of a commit, let any number of recoveries crash in turn, let one complete: the home blocks are exactly the old or exactly the new ones and the header is clear |
| RedoLog.CommitCompletes | project_1/log.c:192-202 | a commit left alone installs the transaction and clears the header, in 2n + 2 writes |
| RedoLog.RunCrashPrefix | project_1/log.c:68-202 | crash at the k-th disk of a run of transactions and recover with any number of crashes: the home blocks are those after exactly the transactions whose header was on disk by then |
| RedoLog.SurvivesIff | project_1/log.c:98-113 | transaction m survives a crash at the k-th disk exactly if write_head had published it by then, so a finished commit is never lost and a later one never there |
| RedoLog.CrashInCommits | project_1/log.c:68-202 | the same for a crash at any disk that a run of commits writes |
| BufferCache.MemDisk.Iderw | project_1/memide.c:38-60 | a dirty buffer reaches the disk in one write, an invalid one is filled from it, and nothing else changes |
| BufferCache.Unlinked | project_1/bio.c:130-133 | taking a buffer out of its place leaves a doubly linked ring of all the others |
| BufferCache.InsertedFront | project_1/bio.c:134-138 | putting a buffer behind the head gives a doubly linked ring that begins with it |
| BufferCache.MovedFront | project_1/bio.c:126-138 | brelse's list surgery keeps one ring through every buffer, in both directions, in order of last release |
| BufferCache.ChainAll | project_1/bio.c:39-56 | binit's loop builds one ring through every buffer |
| BufferCache.Bcache.Binit | project_1/bio.c:39-56 | the cache starts valid, with every buffer blank and readers seeing the disk |
| BufferCache.OneCopy | project_1/bio.c:58-93 | no block is in two buffers; only blank buffers may look alike |
| BufferCache.SpareBuffer | project_1/bio.c:78-93 | if fewer blocks are held or pinned than there are buffers, bget finds a victim |
| BufferCache.ViewChanges | project_1/bio.c:96-141 | changing one buffer and its disk block keeps the cache sound and changes what readers see of that block alone |
| BufferCache.ViewRecycles | project_1/bio.c:78-91 | giving an unused clean buffer to another block keeps the cache sound and changes nothing readers see |
| BufferCache.Bcache.Readable | project_1/bio.c:96-106 | a block nobody holds can be read, and unless it is pinned what is read is the disk block |
| BufferCache.Bcache.FindCached | project_1/bio.c:68-76 | the first scan finds the block's buffer exactly if the block is cached |
| BufferCache.Bcache.FindVictim | project_1/bio.c:78-91 | the second scan finds the unreferenced clean buffer that was released longest ago |
| BufferCache.Bcache.Bget | project_1/bio.c:61-93 | the cached buffer with one more reference, held or, exactly if somebody else has locked it, to wait for; or the least recently released free clean one, recycled; the panic exactly if there is none |
| BufferCache.Bcache.Acquire | project_1/sleeplock.c:22-33 | a process with a reference gets the lock once it is free, and nothing else about any buffer changes |
| BufferCache.Bcache.Bread | project_1/bio.c:96-106 | a held, valid buffer with what readers see of the block, or a reference to wait on exactly if it is locked; the disk and the other buffers stay |
| BufferCache.Bcache.BreadWoken | project_1/bio.c:96-106 | a process that waited ends with the same: the locked, valid buffer with what readers see of the block |
| BufferCache.Bcache.Bwrite | project_1/bio.c:108-116 | exactly one disk write, after which the buffer is clean and the disk has its contents |
| BufferCache.Bcache.Brelse | project_1/bio.c:120-141 | the reference is given back; at zero the buffer becomes the most recently used |
| LogSteps.WriteLogDisk | project_1/log.c:176-190 | the loop of write_log over the cache does to the disk exactly the writes of the protocol, with the values readers see |
| LogSteps.HomeUntouched | project_1/log.c:176-202 | write-ahead: no home block and not the header changes on the disk, at any write, before write_head publishes |
| LogSteps.InstallTransDisk | project_1/log.c:68-82 | so does the loop of install_trans |
| LogSteps.InstallTransDirties | project_1/log.c:68-82 | installing k entries unpins exactly the first k logged blocks |
| LogSteps.InstallTransSeen | project_1/log.c:68-82 | installing changes nothing a reader can see, at any moment |
| LogSteps.PublishFollows | project_1/log.c:176-202 | write_log and write_head together end at the commit point of the protocol, with no home block written on the way |
| LogSteps.CommitFollowsProtocol | project_1/log.c:192-202 | commit makes exactly the disk writes of the crash-atomic protocol |
| LogSteps.CommitCleans | project_1/log.c:192-202 | commit unpins every buffer, clears the header and changes nothing a reader can see |
| LogSteps.RecoveryFollowsProtocol | project_1/log.c:116-122 | recovery through the cache makes exactly the writes of the protocol and leaves nothing pinned |
| LogManager.Log.Initlog | project_1/log.c:53-66 | starting the log on the disk a crash left recovers it and leaves the log empty and idle |
| LogManager.Log.PinnedWhileLogged | project_1/log.c:213-233 | a block is in the header exactly while a buffer holds it dirty, and that buffer is valid and what readers see; Run and Step keep this over every call a client makes |
| LogManager.Log.LogWrite | project_1/log.c:213-233 | a block is absorbed if logged and appended if not, and pinned; a buffer stays pinned exactly while its block is in the header |
| LogManager.Log.WriteLog | project_1/log.c:176-190 | cache and disk end as LogSteps.WriteLog says, whose disk writes are the protocol's |
| LogManager.Log.InstallTrans | project_1/log.c:68-82 | cache and disk end as LogSteps.InstallTrans says, whose disk writes are the protocol's |
| LogManager.Log.WriteHead | project_1/log.c:98-113 | the header block on disk names exactly the in-memory entries |
| LogManager.Log.BeginOp | project_1/log.c:124-141 | one test of begin_op admits an operation exactly if no commit runs and each of its MAXOPBLOCKS appends, behind those reserved before it, would still pass the test for a full header; else the caller sleeps: the step of the machine in GroupCommit |
| LogManager.Log.EndOp | project_1/log.c:145-163 | the locked part of end_op counts the operation out, decides to commit exactly if it was the last, and else wakes every process asleep on the log: the step of the machine in GroupCommit |
| LogManager.Log.Finish | project_1/log.c:165-174 | the second locked part ends the commit and wakes every process asleep on the log |
| LogManager.Log.Commit | project_1/log.c:192-202 | the disk history of a commit is the protocol's, readers see nothing, every buffer is unpinned and the header empty |
| LogManager.Log.ReadHead | project_1/log.c:84-96 | the in-memory entries become those of the disk header and nothing else changes |
| LogManager.Log.RecoverFromLog | project_1/log.c:115-122 | the recovered disk and every disk on the way are those of the protocol |
| LogManager.Log.Read | project_1/bio.c:96-106 | a client that reads a block between log calls writes nothing to the disk, pins nothing and keeps header and cache in step |
| LogManager.Log.Change | project_1/log.c:204-211 | so does a client that writes to a buffer it holds, and readers see what it wrote |
| LogManager.Log.Release | project_1/bio.c:120-141 | so does a client that gives a buffer back, which is not recycled while it is logged |
| LogManager.Step | project_1/log.c:124-233 | every call of a client keeps header and cache in step; only commit writes to the disk, and it commits what readers saw of the blocks in the header |
| LogManager.Run | project_1/log.c:124-233 | over any run of begin_op, bread, changes, log_write, brelse and end_op the disk gets exactly the writes of a sequence of commits, which the crash theorem covers |
| GroupCommit.InvNext | project_1/log.c:124-174 | every step of begin_op, log_write and end_op keeps: outstanding counts the operations, entries plus unspent reservations fit in the log, one process commits exactly while committing is set |
| GroupCommit.InvReachable | project_1/log.c:124-174 | the same in every state of every interleaving |
| GroupCommit.CommitIsAlone | project_1/log.c:124-174 | during a commit no operation runs, none can start and nobody else commits |
| GroupCommit.AdmitsIff | project_1/log.c:128-138 | for any count and any number of operations: begin_op admits exactly if no commit runs and each of the appends then reserved would find room in the header under log_write's test |
| GroupCommit.RefusedOverflows | project_1/log.c:132-134 | an operation turned away outside a commit has an append among those reserved that would overflow the header |
| GroupCommit.EndNeverPanics | project_1/log.c:145-163 | the "log.committing" panic of end_op is unreachable |
| GroupCommit.AppendGuard | project_1/log.c:213-233 | an append always fits in the header; the panic guard fires on it exactly when the log area is full, and never if that has more than LOGSIZE blocks |
| GroupCommit.AppendPanicsIff | project_1/log.c:213-218 | some run panics on an append exactly if the log area has no more than LOGSIZE blocks |
| GroupCommit.AbsorbGuard | project_1/log.c:213-233 | on a block already in the header the guard fires exactly when the header is full |
| GroupCommit.AbsorbedWriteCanPanic | project_1/log.c:213-218 | whatever the size of the log area, some run panics on a block already in the header |
| GroupCommit.SleeperHasWaker | project_1/log.c:124-141 | whoever sleeps on the log has an operation outstanding or a commit in progress to wake it |
| GroupCommit.FinishAdmits | project_1/log.c:165-174 | when a commit finishes everybody is awake and the next operation is admitted |
| Umalloc.RequestFits | project_1/umalloc.c:69 | the units reserved cover the request exactly if rounding it up does not wrap, and no unit is reserved that the request does not need |
| Umalloc.MallocExact | project_1/umalloc.c:46-69 | rounding and the byte count handed to sbrk are both right exactly up to 2^31 - 16 bytes |
| Umalloc.MallocAsks | project_1/umalloc.c:54 | one byte more asks sbrk for a negative amount, and 2^32 - 8 bytes ask it for nothing |
| Umalloc.MergeSorted | project_1/umalloc.c:33-42 | putting a block in and joining it both ways keeps the list in address order with no two neighbours touching |
| Umalloc.MergeFree | project_1/umalloc.c:33-42 | it adds exactly the units of the block to the free ones |
| Umalloc.FreedSpells | project_1/umalloc.c:33-42 | after the pointer updates of free the headers in memory spell out the merged list, as one cycle |
| Umalloc.FreeKeeps | project_1/umalloc.c:24-44 | after free everything obtained is still free or live, never both, and live blocks are apart |
| Umalloc.TakeKeeps | project_1/umalloc.c:74-84 | so after taking a block, or its upper end, off the list |
| Umalloc.TakeStays | project_1/umalloc.c:78-82 | taking a part leaves every block of the list at its address with its links, and the part ends where its block ended |
| Umalloc.NoHeaderInside | project_1/umalloc.c:24-90 | no header lies inside a payload, so a program can write all of its block |
| Umalloc.BracketTest | project_1/umalloc.c:30-32 | the loop tests of free stop exactly at the position behind which the block belongs |
| Umalloc.Heap.FindPlace | project_1/umalloc.c:30-32 | the search of free ends, by the nodes left before the bracketing pair, and finds that position |
| Umalloc.SearchMisses | project_1/umalloc.c:74-89 | a lap of malloc that finds nothing has looked at every block and each is too small |
| Umalloc.SearchFirst | project_1/umalloc.c:74-89 | the block malloc takes is the first that fits from behind freep |
| Umalloc.GrownFinds | project_1/umalloc.c:46-61 | the lap after morecore cannot fail |
| Umalloc.Heap.Free | project_1/umalloc.c:24-44 | the block leaves the live ones and is merged into the list in its place |
| Umalloc.Heap.LinkIn | project_1/umalloc.c:33-42 | the header updates of free, and no other header changes |
| Umalloc.Heap.Morecore | project_1/umalloc.c:46-61 | at least nunits new units join the list, or nothing changes; what sbrk is asked for is the wrapped byte count read as an int |
| Umalloc.Heap.Carve | project_1/umalloc.c:75-84 | the whole block or its upper end becomes live |
| Umalloc.Heap.Lap | project_1/umalloc.c:73-89 | one lap of the loop finds the first fitting block from behind freep, or comes back to freep exactly if none fits |
| Umalloc.Heap.Malloc | project_1/umalloc.c:63-90 | at most one lap, one morecore and one more lap; null exactly if no block fits and sbrk refuses; the result is a block of its own from the first fitting free block; the units on the list stay memory of the process exactly if sbrk was asked for the right amount or not at all |
| Umalloc.Canonical | project_1/umalloc.c:24-90 | the free units determine the free list: no history shows in it |
| Umalloc.FreeUndoesTake | project_1/umalloc.c:24-90 | freeing what was just taken gives the very list there was before |
| Umalloc.UnitsConserved | project_1/umalloc.c:24-90 | free units plus live units equal the units obtained from sbrk |
| Kalloc.Kmem.Kfree | project_1/kalloc.c:59-77 | the frame goes on top of the free list |
| Kalloc.Kmem.Kalloc | project_1/kalloc.c:82-95 | the top frame comes off, or null exactly if there is none |
| Kalloc.Kmem.Freerange | project_1/kalloc.c:46-53 | every frame of the range joins the free list once |
| PageTables.PagesApart | project_1/vm.c:57-80 | no two user pages, of one space or of two, share a frame |
| PageTables.PagesCover | project_1/vm.c:232-233 | a page lies below PGROUNDUP of a size exactly if it begins below the size |
| PageTables.BytesCovered | project_1/vm.c:219-325 | every byte below a size is on a page below PGROUNDUP, and only the rest of the last such page lies above the size |
| PageTables.Translation | project_1/vm.c:32-55 | what the paging hardware makes of an address: ten bits for the directory entry, which allows everything, ten for the entry of the page |
| PageTables.TableAdded | project_1/vm.c:43-53 | hanging in a new page table maps nothing and moves nothing |
| PageTables.PageAdded | project_1/vm.c:57-80 | mapping a frame gives it to that page and changes no other page |
| PageTables.PageCleared | project_1/vm.c:269-276 | clearing a page takes the frame from it and changes no other page |
| PageTables.SpaceRemoved | project_1/vm.c:281-298 | once its pages are gone, dropping a directory and its tables leaves every other space as it was and nothing behind |
| PageTables.FramesAre | project_1/vm.c:281-298 | the directory and the tables behind its present entries are all the frames a space without user pages has |
| PageTables.NoTableNoPages | project_1/vm.c:265-267 | an absent page table means that no page it would cover is mapped |
| PageTables.BuiltTorn | project_1/vm.c:117-136 | building a space and tearing it down leaves no trace |
| FrameCounts.SpaceCount | project_1/vm.c:281-298 | the frames freevm gives back number one for the directory, one for each directory entry in use and one for each user page |
| FrameCounts.ExactCount | project_1/vm.c:117-136 | a space with the kernel's mappings and user pages lo to n - 1 takes exactly the frames computed from the table of mappings and from lo and n |
| FrameCounts.PartCount | project_1/vm.c:117-136 | setupkvm stopped half-way for want of a table has used up fewer frames than it needs |
| FrameCounts.CopyShort | project_1/vm.c:313-345 | copyuvm stopped at any page, for the page or for its table, had fewer frames than it needs |
| FrameCounts.GrowMore | project_1/vm.c:233-247 | each further page costs a frame, and one more exactly if neither the space nor an earlier page has its table |
| FrameCounts.GrowShort | project_1/vm.c:233-247 | allocuvm stopped at any page, for the page or for its table, had fewer frames than it needs |
| FrameCounts.CostGrows | project_1/vm.c:219-249 | building a space and then growing it takes exactly the frames that building it at the final size takes |
| Vm.KernelMap | project_1/vm.c:105-115 | the kernel's ranges lie above KERNBASE, in order and apart |
| Vm.KernelReaches | project_1/vm.c:105-115 | the kernel's mappings reach every frame below PHYSTOP at a fixed distance and the devices in place, read-only exactly on its own code, and user code reaches none of them; nothing else above KERNBASE is mapped |
| Vm.Memory.Walkpgdir | project_1/vm.c:32-55 | the page table of an address, made if asked for; nothing changes without alloc or with the table there; null with alloc only when memory is out |
| Vm.Memory.Mappages | project_1/vm.c:57-80 | on success every page the bytes va to va + size - 1 touch is mapped, to consecutive frames; on failure memory is out, some page lacks its table, and outside the range nothing but page tables has been added |
| Vm.Memory.Setupkvm | project_1/vm.c:117-136 | a space of its own with exactly the kernel's mappings and no table too many, or, exactly if there are not enough free frames for that, everything as before |
| Vm.Memory.Allocuvm | project_1/vm.c:219-249 | it succeeds exactly below KERNBASE with a free frame for each new page and each missing table, and takes exactly those; then every byte gained is on a mapped page, zeroed and writable, and no page beyond; on any failure no page and no frame but page tables is left behind |
| Vm.Memory.Deallocuvm | project_1/vm.c:251-279 | a page of the range stays exactly if it holds a byte below the new size; the others are freed, also past absent page tables, and nothing else changes |
| Vm.Memory.Freevm | project_1/vm.c:281-298 | the frames of the space, and no others, go back to the free list, each once |
| Vm.Memory.Copyuvm | project_1/vm.c:313-345 | on success every byte address below sz is on a page with equal contents and flags, in frames of its own, at the cost computed beforehand; it fails exactly if that many frames are not free, and then nothing has changed |
| Vm.Memory.Grow | project_1/vm.c:219-249 | the same success condition and the same number of frames for exec: the new pages are mapped for the user and no other changes |
| Vm.Memory.Resize | project_1/vm.c:219-279 | a step of growing succeeds exactly with the frames it needs and one of shrinking always; after either nothing is mapped between the rounded size and the kernel, every page below it that was there still is, and a space just built stays one |
| Vm.Memory.Growproc | project_1/proc.c:182-201 | the size and answer in every case, wrapped sums included: growing succeeds exactly if the sum stays below KERNBASE and the frames suffice; afterwards the bytes below the size are mapped exactly unless the process was shrunk to nothing, and no page above |
| Vm.Memory.Clearpteu | project_1/vm.c:300-311 | the page stays mapped to its frame and as writable as it was, user code cannot reach it, and no other page changes |
| Vm.Memory.UserStore | project_1/vm.c:313-345 | a write to a page of one space shows in no other page of any space |
| Vm.Memory.Lifetime | project_1/vm.c:117-298 | any run of growing and shrinking, with memory running out anywhere, ending in freevm returns to the free list exactly what was taken |
| Shmem.CheckNeverRejects | project_2/vm.c:448-454 | the size check of shmem_access rejects no size below KERNBASE, where the comparison with the address would reject an overlap |
| Shmem.SameFrame | project_2/vm.c:434-473 | two processes that have a shared page have it in the same frame |
| Shmem.SharedMemory.NeverFree | project_2/vm.c:288-308 | a shared frame is on no free list |
| Shmem.SharedMemory.Init | project_2/vm.c:415-431 | it succeeds exactly with a free frame for each shared page; they leave the free list for good and no page is counted |
| Shmem.SharedMemory.Access | project_2/vm.c:434-473 | the page is mapped at its place in the caller and counted exactly once; the exact state in which it panics, and the frame it takes exactly if the table was missing |
| Shmem.SharedMemory.CopyShared | project_2/vm.c:351-363 | the child has exactly the parent's shared pages, each counted; it fails exactly if there is one, the table they come under is missing and no frame is free, and then at the first, whose flag it leaves set and not counted |
| Shmem.SharedMemory.Fork | project_2/proc.c:185-225 | the child shares the parent's pages; it succeeds exactly with enough frames for the copy and outside the one state, told before the call, in which it tears; a failed fork gives all memory back, and one that tears leaves the count of the parent's first shared page one short |
| Shmem.SharedMemory.Exec | project_2/exec.c:34-117 | it succeeds exactly if the arguments could be pushed, no segment is refused and the frames for the whole new space are free; then a space with exactly the pages from 1 to two above the highest segment, the last but one out of reach of user code; the shared pages are dropped without being counted down; a failed exec changes nothing |
| Shmem.SharedMemory.Load | project_2/exec.c:41-56 | the size after the loop over the program headers is the end of the highest segment; 0 if one of them is refused, and otherwise only if the frames do not suffice |
| Shmem.Peak | project_2/exec.c:44-56 | the highest end of a segment: none ends above it, and it is one of them or the end of the unused first page |
| Shmem.SharedMemory.GrowTo | project_2/exec.c:55-70 | one call of allocuvm on the space being built: it succeeds exactly if the frames for the whole space at the new size were free when exec began |
| Shmem.SharedMemory.Userinit | project_2/proc.c:119-141 | the first process has exactly the kernel's mappings and one page; memory suffices exactly if the frames for that are free |
| Shmem.SharedMemory.Reap | project_2/proc.c:292-316 | waiting for a zombie counts down each page it had and frees its space |
| Shmem.Run | project_2/vm.c:326-473 | over any run of shmem_access, fork, exec, exit and wait no shared frame is freed; unless a fork tore, which none does if no process has or asks for a shared page, each count is at least the number of processes that have the page, and equal if nothing called exec |
| Shmem.Call | project_2/vm.c:326-473 | a call leaves a flag that nothing counts exactly if it is a fork made in the state in which a fork tears |
| Shmem.PlaceNeeded | project_2/vm.c:36-55 | a process needs the table of the shared pages for its own pages exactly if it reaches the first page that comes under it |
| Shmem.FailingFork | project_2/vm.c:351-363 | a machine booted with just so many frames, one process and one shmem_access: its fork tears, and two processes are flagged as having a page counted once |
| FsBytes.MapBitPut | project_1/fs.c:66-68 | setting or clearing a bit of a map block changes that bit alone |
| FsBytes.BitWeight | project_1/fs.c:66-68 | bit k of a map byte is the one with weight 2^k |
| FsBytes.WordBytes | project_1/fs.c:390-393 | the byte of an entry at the lowest address is its lowest |
| FsState.MapBits | project_1/fs.h:53-57 | the map blocks are one run of bits, with the bit of block b at place b |
| FsBytes.WordPut | project_1/fs.c:391-393 | storing an entry of an indirect block changes that entry alone |
| FsState.SlotsApart | project_1/fs.c:368-401 | no block is in two slots, of one inode or of two |
| FsState.MarkedOk | project_1/fs.c:56-96 | setting the bit of a free block, or clearing that of one in no slot, keeps bits and owners in step |
| FsState.WithAddrOk | project_1/fs.c:378-388 | storing a zeroed block in a direct slot or the indirect slot gives it that one owner and changes no other slot |
| FsState.WithEntryOk | project_1/fs.c:389-394 | so does storing it in an entry of the indirect block |
| FsState.TruncatedOk | project_1/fs.c:408-436 | clearing an inode's slots together with the bits of its blocks keeps bits and owners in step and touches no other inode |
| FsState.NextFreed | project_1/fs.c:408-436 | the next block itrunc frees is in use and has not been freed yet: "freeing free block" is unreachable |
| FsState.AllBlocksFreed | project_1/fs.c:408-436 | itrunc frees exactly the inode's blocks: direct ones, entries, and the indirect block |
| FsState.FilledFiles | project_1/fs.c:373-401 | filling a slot with a zeroed block changes no byte of any file |
| FsState.ByteAt | project_1/fs.c:373-401 | byte p of a file is in block p / BSIZE, which the inode names for the first twelve and the indirect block from then on |
| FsFiles.TruncatedFiles | project_1/fs.c:408-436 | truncation leaves every other file in the same blocks with the same bytes |
| FsFiles.PatchedFiles | project_1/fs.c:500-505 | overwriting part of one block of a file changes exactly those bytes of that file and none of any other |
| FsFiles.WritingStep | project_1/fs.c:500-505 | each round of writei's loop extends what has been written by exactly its bytes |
| FsFiles.WrittenFiles | project_1/fs.c:482-512 | with the size set, the file is the old one with src written over it from off |
| Fs.FileSystem.constructor | project_1/fs.c:285-312 | a file system mounted from any consistent image, its inodes read from their blocks: each block in a slot has that one owner, and everything the file layer keeps holds |
| FsInodes.InodePut | project_1/fs.c:221-237 | storing the sixteen words of an inode and reading them back gives the inode, signed fields included, and leaves the other inodes of the block alone |
| FsInodes.StoredBytes | project_1/fs.h:28-37 | where each field of inode i is in the 64 bytes it has on the disk |
| FsInodes.MountSound | project_1/fs.c:285-312 | on an image whose slots name distinct data blocks, with exactly their bits set and no file with a hole, every block in use has one owner and every bit is right |
| FsInodes.FreshConsistent | project_1/mkfs.c:237-251 | the free map mkfs starts from, with no file yet, is such an image |
| FsInodes.RootRounded | project_1/mkfs.c:158-163 | rounding up the size of the root directory makes a hole exactly if it ended at the end of a block |
| Fs.FileSystem.Balloc | project_1/fs.c:56-78 | the first free block of the map is taken, marked and zeroed, and nothing else changes hands |
| Fs.FileSystem.Bfree | project_1/fs.c:80-96 | exactly one bit of the map is cleared |
| Fs.FileSystem.Iupdate | project_1/fs.c:221-237 | reading the inode back from its block gives the in-memory inode; no other inode of the block and no other block changes |
| Fs.FileSystem.Bmap | project_1/fs.c:373-401 | the block's number, allocated on the way only where a slot was empty; no byte of any file changes; nothing at all if nothing was empty |
| Fs.FileSystem.Itrunc | project_1/fs.c:408-436 | the inode has no block left, the free blocks have grown by exactly its blocks, and every other file is the same |
| Fs.FileSystem.Readi | project_1/fs.c:453-477 | -1 exactly for an offset past the end or a wrapping sum; else the clipped slice of the file; nothing is allocated |
| Fs.FileSystem.Writei | project_1/fs.c:482-512 | -1 exactly in the three cases, and then nothing changes; else the file is overwritten in [off, off + n) and longer if need be, no other file differs, and an inode that equalled its copy on disk still does |
| Fs.FileSystem.WriteThenRead | project_1/fs.c:453-512 | what is written is what is read back |
| Pipe.FullExact | project_1/pipe.c:85 | the full test is exact though both counters wrap at 2^32 |
| Pipe.EmptyExact | project_1/pipe.c:106 | so is the empty test |
| Pipe.RingExact | project_1/pipe.c:94 | the ring position comes out of the wrapped counter, since PIPESIZE divides 2^32 |
| Pipe.PutHolds | project_1/pipe.c:94 | a byte put in overwrites no unread byte |
| Pipe.Pipe.Write | project_1/pipe.c:78-98 | the bytes taken are the next of the buffer; it sleeps only on a full pipe with a reader; -1 only on a full pipe when killed or with no reader; a reader is left asleep on a full pipe exactly if one was asleep before the call, the writer is killed and more than a full pipe is left to write |
| Pipe.Pipe.Read | project_1/pipe.c:100-121 | the bytes handed out are the oldest unread; a read of n > 0 returns 0 only when the pipe is empty and its write end closed; it never leaves a writer asleep on a pipe with room |
| Pipe.Pipe.Close | project_1/pipe.c:59-75 | closing an end wakes the other side and frees the pipe with the second end |
| Pipe.Run | project_1/pipe.c:59-121 | over any interleaving the bytes read are, in order, a prefix of the bytes written; with nobody killed no reader sleeps on a non-empty pipe and no writer on a non-full one |
| Pipe.LostWakeup | project_1/pipe.c:85-92 | a killed writer can leave a reader asleep on a full pipe |
| Processes.InvNext | project_1/proc.c:206-523 | every step keeps: each live process and zombie but init has a live parent, nobody asleep in wait has a zombie child or no child, nobody asleep in acquiresleep is behind a free lock whose releaser has finished |
| Processes.InvReachable | project_1/proc.c:206-523 | the same in every state of every interleaving from boot on |
| Processes.OneTree | project_1/proc.c:254-338 | following parents from any live process or zombie leads to init |
| Processes.ExitTells | project_1/proc.c:273-284 | exit wakes a sleeper exactly if it waits for the process that exits, or is init waiting and inherits a zombie |
| Processes.ExitReaped | project_1/proc.c:273-325 | and the parent so woken finds a zombie to reap |
| Processes.WokenIff | project_1/proc.c:441-499 | whoever sleeps on a channel is woken by a wakeup of that channel and of no other |
| Processes.LockedNext | project_1/sleeplock.c:22-42 | over every step, a sleep lock is taken exactly by an acquire that finds it free and given up exactly by its release |
| Processes.LockRouses | project_1/sleeplock.c:34-42 | the wakeup of a release wakes exactly those asleep on that lock |
| Processes.ForkBears | project_1/proc.c:206-248 | the steps of a fork give a process that can run, with the forking one for a parent and a number nobody has |
| Processes.ShuffleSleep | project_1/sleeplock.c:22-42 | no step of acquiresleep, releasesleep, sleep, wakeup, wait or the scheduler loses a wakeup |
| Processes.ExitSleep | project_1/proc.c:271-290 | exit loses no wakeup |
| Processes.ExitNext | project_1/proc.c:276-290 | after exit every orphan has init for a parent and the tree is sound |
| Processes.ReapNext | project_1/proc.c:310-325 | freeing a zombie's slot leaves no process without a parent |
| Processes.ReapedGone | project_1/proc.c:310-325 | once a zombie has been waited for, its number finds nobody, and kill of it does nothing |
| Processes.ForkPlace | project_1/proc.c:206-248 | a slot being forked stays an EMBRYO of its forker alone until it is made runnable |
| Processes.BornKilledIff | project_1/proc.c:105-118 | a new process is killed exactly if its slot was marked |
| Processes.KillRouses | project_1/proc.c:505-523 | the slot that kill hits is marked and not left asleep: a process that slept can be dispatched at once, and nothing else differs |
| Processes.KilledLeavesWait | project_1/proc.c:329-337 | a process killed asleep in wait runs next, sees the mark and can leave wait, children or not |
| Processes.KillHits | project_1/proc.c:505-523 | kill of a number other than 0 hits exactly the slot that stores it, free or not; kill(0) hits the first slot that stores 0 |
| Processes.MarkedFreeNext | project_1/proc.c:206-523 | a free slot is marked after a step exactly if it was and is not taken, or a kill hit it while free, or a fork with a marked child failed |
| Processes.BornKilledNeedsMark | project_1/proc.c:206-523 | in any run from boot a marked free slot has such a kill or failed fork to blame |
| Processes.KillZeroRun | project_1/proc.c:505-523 | from boot, kill(0) and a fork lead to a runnable child that is killed |
| Processes.KillStaleRun | project_1/proc.c:205-226 | so does a fork that fails, with a kill of its number before or after it fails |
| Proc.Table.Wakeup1 | project_1/proc.c:483-491 | exactly the processes asleep on the channel become runnable |
| Proc.Table.Allocproc | project_1/proc.c:105-118 | the first free slot becomes an EMBRYO with the next number, or there is none |
| Proc.Table.Exit | project_1/proc.c:271-290 | the loop with its wakeups has the effect of one exit step: parent woken, children passed on, init woken for a zombie among them |
| Proc.Table.Wait | project_1/proc.c:304-337 | the first zombie child is freed and reported; -1 exactly with no child or when killed; else asleep on itself |
| Proc.Table.Kill | project_1/proc.c:505-523 | the first slot with the number is marked and woken, as the step of the machine does; -1 exactly if there is none |
| Sched.Scheduler.FindPriority | project_4/proc.c:347-361 | the first loop finds high priority exactly if a runnable process has it |
| Sched.Scheduler.Round | project_4/proc.c:346-413 | both loops dispatch exactly the slots, and charge exactly the counters, of Sched.Scan, whatever happens while a process runs |
| Sched.ScanOrder | project_4/proc.c:363-410 | in one scan the search priority never falls, every dispatch is at it, and no slot is dispatched twice |
| Sched.HighOnly | project_4/proc.c:346-410 | with a high-priority process runnable at the start every dispatch of the scan is of high priority |
| Sched.DispatchedIff | project_4/proc.c:363-379 | a slot is dispatched exactly if it is runnable at the search priority when the scan reaches it |
| Sched.HighDispatchedIff | project_4/proc.c:346-410 | a process runnable at high priority when reached is dispatched exactly if one was when the scan began or an earlier one came back at high priority |
| Sched.LateHighPassedOver | project_4/proc.c:346-410 | an input where the turn of a low process makes a high one runnable and the scan passes it |
| Sched.HighServed | project_4/proc.c:346-410 | every high-priority process runnable at the start and still when reached is dispatched |
| Sched.OneCounter | project_4/proc.c:383-402 | each run interval is added to exactly one counter of the process that ran, modulo 2^32 |
| Sched.TicksCharged | project_4/proc.c:383-402 | a turn of any length below 2^32 ticks is charged with exactly its length, also when the clock wraps during it, on the counter of the priority it ended at |
| Sched.Scheduler.Setpri | project_4/proc.c:417-428 | exactly the two legal priorities are accepted, and set on the caller alone |
| ShellSyntax.NextToken | project_1/sh.c:265-308 | gettoken moves on unless the line has ended, and a word is a longest run of plain characters |
| ShellSyntax.ParseCmd | project_1/sh.c:327-446 | every word of the tree is a token of the line |
| ShellRoundTrip.WordRead | project_1/sh.c:265-308 | a printed word is read back as one token with its ends |
| ShellRoundTrip.ArgsSpell | project_1/sh.c:415-446 | the words of a simple command, at most nine, come back in order |
| ShellRoundTrip.BlockSpells | project_1/sh.c:399-413 | a printed part in parentheses comes back as its tree, ready for redirections |
| ShellRoundTrip.TreeSpells | project_1/sh.c:344-446 | any printed tree, before a closing parenthesis or the end, comes back as itself with the cursor right behind it |
| ShellRoundTrip.RoundTrip | project_1/sh.c:327-446 | parsing the fully parenthesised printing of a command tree gives that tree |
| ShellPrecedence.PiecesSpell | project_1/sh.c:374-446 | words and redirections in any order: the words come back in order under the redirections in order |
| ShellPrecedence.CommandIff | project_1/sh.c:415-446 | they make a command exactly up to nine words, and panic from the tenth |
| ShellPrecedence.GroupSpells | project_1/sh.c:399-413 | a phrase in parentheses with redirections behind them comes back under those redirections |
| ShellPrecedence.LineSpells | project_1/sh.c:344-446 | a phrase printed with only the parentheses it needs comes back as itself, before a closing parenthesis or the end |
| ShellPrecedence.PhraseRoundTrip | project_1/sh.c:327-446 | parsing a line printed with parentheses only where precedence needs them, or where the writer put them, gives back its one tree: a pipe binds tighter than &, and & tighter than ;, pipes and lists nest to the right |
| ShellPrecedence.PipeInList | project_1/sh.c:344-372 | x, a pipe, y, a semicolon, z: a list of the pipe and z, whatever the words |
| ShellPrecedence.PipeInBack | project_1/sh.c:344-372 | x, a pipe, y, an ampersand: the whole pipe goes to the background |
| ShellPrecedence.PipeInPipe | project_1/sh.c:361-372 | a pipe of three: the first into the pipe of the other two |
| ShellSound.ParseSound | project_1/sh.c:327-446 | a line the parser accepts has its parentheses nested, and no command in it has more words than argv holds |
| Shell.Parser.Gettoken | project_1/sh.c:265-308 | the three loops over the buffer give the token and the cursor of ShellSyntax.NextToken |
| Shell.Parser.Peek | project_1/sh.c:310-320 | spaces are skipped and the next character tested |
| Shell.Parser.ParseLine | project_1/sh.c:344-359 | ends, and gives the list tree, cursor and panics that the round trips are proved for |
| Shell.Parser.ParsePipe | project_1/sh.c:361-372 | ends, and gives the pipeline tree, cursor and panics that the round trips are proved for: only a pipeline follows a pipe sign |
| Shell.Parser.ParseRedirs | project_1/sh.c:374-397 | ends, and wraps the command in its redirections, the last outermost, or panics for want of a file |
| Shell.Parser.ParseBlock | project_1/sh.c:399-413 | ends, and gives the tree between the parentheses with the redirections behind them, or the panic |
| Shell.Parser.ParseExec | project_1/sh.c:415-446 | ends, and gives the words in order under their redirections, or the panic for a tenth word or a stray symbol |
| Shell.Parser.NulTerminate | project_1/sh.c:448-493 | a NUL is written behind every word and nowhere else |
| Shell.Terminated | project_1/sh.c:448-493 | no NUL lands inside a word: every argv and file pointer reads as its token |
| Shell.Parser.ParseCmd | project_1/sh.c:327-342 | the tree of the line, with every word a C string equal to its token, or the panic |
| Grep.Match | project_1/grep.c:72-82 | true exactly if some suffix of the text, or the whole text after ^, has a prefix in the language of the pattern, all of it if the pattern ends in $ |
| Grep.MatchHere | project_1/grep.c:84-96 | true exactly if a prefix of the text, all of it when pinned, is in the language; the mutual recursion ends |
| Grep.MatchStar | project_1/grep.c:98-106 | true exactly if a run of characters that c stands for is followed by a match of the rest |
| Grep.PrefixChar | project_1/grep.c:93-95 | a single character comes off pattern and text together |
| Grep.PrefixStar | project_1/grep.c:88-89 | a starred character means some run and then the rest |

## Left out

- Hardware, boot, traps, system-call argument fetching, console and ELF loading are
  foreign to the models; a context switch is a step, and sbrk's and the clock's
  answers are parameters.
- Spin locks are atomic: taking `log.lock`, `ptable.lock`, `kmem.lock` or a pipe's
  lock is the beginning of a step, and memory ordering is not modelled.
- Readers of the cache do not interleave with the disk writes of a commit; group
  commit itself is proved over all interleavings.
- "out of blocks" and "no inodes" panics are preconditions, and so is a buffer to
  spare while commit copies; so is the sleep lock of an inode, where the source would
  wait.
- Byte packing of page-table entries is left out: an entry is a frame with its flags.
  The inode blocks are kept apart from the other blocks of the disk.
- The inode cache (ilock, iget, iput, reference counts), directories and path names,
  and device inodes.
- The shell's tree nodes are values: filling in `argv` of a node that redirections
  already point to is an update of the innermost command under them.
- The thread extensions of `project_3` and the checked files of `project_4`: their
  code does not keep the invariants proved here.
- The loop `grep()` that feeds lines to the matcher, and running the commands the
  shell has parsed.
- Shmem.SharedMemory.Exec: takes segments that end below the shared pages with room
  for the stack, because nothing in the source keeps a program out of them; whether a
  segment's bytes could be read and the arguments pushed are parameters.
- The kernel stack fork allocates is not part of the count of frames: the free list is
  the one copyuvm finds.
- How mkfs writes files into an image: the file layer starts from any consistent image.
- Umalloc.Heap.Morecore: takes sbrk's answer to lie above all memory it gave before.
- Umalloc.Heap.Free: takes only live blocks; freeing anything else is undefined in
  the source.
- Pipe.Pipe.Close: takes that nobody is inside a call on that end, which the
  reference counts of open files give.
- Sched.Scheduler.Round: takes that a process comes back asleep, runnable or as a
  zombie; other processors may change everything else in the table meanwhile.
- Kalloc.Kmem.Kfree: takes a frame that is in range and not free; the source checks
  the range and cannot see a double free.
- Fs.FileSystem.Bfree: takes the block to be marked in use, which is the panic test of
  the source; FsState.NextFreed shows that itrunc meets it.
