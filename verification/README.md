# Verified model of xv6 with a lottery scheduler

A Dafny model of the parts of this kernel, and of two of its user programs, whose correctness does not depend on the
hardware, with proofs of what they are for. `dafny verify dfyconfig.toml` checks all of it.

| part | files | main results |
|---|---|---|
| redo log and buffer cache (log.c, bio.c) | Bytes, Redo, GroupCommit, CommitHistory, Lru, BufferCache, Log, LogRun | crash atomicity under repeated crashes, group commit against the history of its calls, cache coherence, pinning of logged blocks |
| blocks, inodes and files (fs.c) | FsLayout, FsOwnership, FsFile, FsInode, FsContents, FileSystem, FsSession, FsCrash | any sequence of file calls against byte sequences and a block budget, exclusive block ownership, inode write-back, consistency after a crash |
| page tables and frames (vm.c, kalloc.c) | Paging, FrameList, AddressSpace, Unmapping, GrowSpace, KernelSpace, CopySpace, Vm | what deallocuvm skips, what allocuvm and copyuvm do with any number of free frames, freevm |
| processes and scheduling (proc.c, spinlock.c, pipe.c) | Lcg, Lottery, Scheduler, SleepWakeup, ProcTree, ProcTable, Pipe | full period and fairness of the lottery, no lost wakeup, process tree, pipe FIFO |
| user heap (umalloc.c) | FreeList, Malloc | the free list over every run, termination of both searches |
| shell parser and grep (sh.c, grep.c) | ShellParser, ShellRoundTrip, ShellGrammar, ShellParses, Shell, Grep | the parser accepts exactly a grammar, parse of print, in-place termination, matcher against its language |

Arith, Sets and Wrappers hold definitions and facts the other files share.

Code that updates state in place is a class or a method with loops whose contract is a function of the old state; what
the source promises is proved about those functions. Protocols (group commit, sleep/wakeup, process table, pipes) are
step machines: an event is one critical section, one disk write or one hand-over, and the results hold for every
sequence of events.

Some statements one would like are false of the code. For each there is a concrete counterexample and the exact
condition, which is part of the contract:

- A draw can pick a process that is not RUNNABLE, because `run_p` is cleared once, outside the scheduling loop
  (`Scheduler.WinnerRunnableExactly`; `Scheduler.TwoRounds` with `Scheduler.SleepingWinner`).
- A reader can be left asleep beside a full pipe, when a writer that is killed, or finds the read end closed, fills it
  and returns -1 (`Pipe.ReadersStrandedExactly`, `Pipe.ReaderStranded`).
- With the log size mkfs chooses, operations within their budgets can drive `log_write` to its panic
  (`GroupCommit.SmallLogPanics`; the bound `log.size > LOGSIZE` is sufficient by `GroupCommit.TransactionsAreAtomic`).
- A write into a hole that does not extend the file is not written back to the inode on disk. Holes exist: rounding up
  the root directory's size makes one when the size was a multiple of the block size (`FileSystem.Files.Writei`,
  `FileSystem.WriteIntoHole`). From a disk without holes no sequence of calls makes one (`FsSession.Session`).
- The skip-ahead of `deallocuvm` can miss mapped pages when user memory is not contiguous
  (`Unmapping.SkipAheadExact`, `Unmapping.SomePageSkipped`).
- `allocuvm` ignores a failing `mappages` and then loses a frame (`GrowSpace.SomeFrameLost`; the contract of
  `Vm.Machine.AllocUvm` decides every outcome by the number of free frames), and so does `copyuvm`
  (`Vm.Machine.CopyUvm`).
- A malloc request of one of the last 7 sizes below 2^32 gets a block that is too small (`Malloc.LargeEnoughExactly`,
  `Malloc.WrappedRequest`).

Where comments and code disagree the code is followed: `>>` opens its file like `>` (sh.c:392-394), and `rand` draws
from 1 to max (proc.c:30-36).

## Model

| member | source | states |
|---|---|---|
| `Redo.HeaderRoundTrip` | log.c:83-112 | the block list `read_head` gets from a header is the one `write_head` put there, whatever the block held before |
| `Redo.RedoAfterPrefix` | log.c:67-81 | installing a whole list of blocks after any prefix of it was installed gives the same disk as installing it once |
| `Redo.CommitAtomic` | log.c:173-199 | for every prefix of a commit's disk writes, recovery finds the old home blocks if the header write is not in it, and otherwise exactly the old ones with every logged block replaced; complete, the log is empty |
| `Redo.RecoveryAtomic` | log.c:114-121 | for every prefix of recovery's own writes, recovering again gives the same home blocks; complete, they are in place and the log is empty |
| `Redo.Interrupted` | log.c:114-121 | any number of recoveries, each cut short anywhere, never changes what recovery will produce |
| `Redo.CrashAtomicity` | log.c:67-121 | a crash anywhere in a commit, then any number of crashes in recovery, then a recovery: home blocks are all old or all new, decided by whether the header write had landed |
| `GroupCommit.Run` | log.c:124-230 | every run of operations, commits, crashes and recoveries keeps the invariant that ties disk, cache, log and history |
| `GroupCommit.TransactionsAreAtomic` | log.c:124-230 | in every run: a crash now would leave exactly the committed batches; operations see those and the pending writes; with log.size > LOGSIZE `log_write` never panics, at most LOGSIZE blocks are logged, none twice; committing excludes outstanding operations; an idle log is empty |
| `GroupCommit.OperationsAreWhole` | log.c:143-171 | all writes of an operation fall in one batch, so they commit together or are lost together |
| `GroupCommit.SleeperHasWaker` | log.c:124-171 | whenever some `begin_op` sleeps, a commit is under way, or every outstanding operation's `end_op` wakes the sleepers or starts the commit |
| `GroupCommit.CommitWakes` | log.c:162-170 | a commit under way ends after its remaining writes with an empty log, and then nobody sleeps |
| `GroupCommit.BeginReserves` | log.c:131-137 | the admission test keeps logged blocks plus all unused budgets within LOGSIZE |
| `GroupCommit.AppendReserves` | log.c:220-229 | absorption keeps the block list free of repeats and the reservation intact |
| `GroupCommit.CrashKeepsProperty` | log.c:114-230 | in every run, a property of the home blocks that each committed batch keeps holds of what recovery would find after a crash now |
| `GroupCommit.SmallLogPanics` | log.c:215-216 | with log.size <= LOGSIZE and as many blocks behind the log as in it, from any boot and its recovery, three operations within MAXOPBLOCKS have a run that ends in the panic |
| `CommitHistory.HistoryAgrees` | log.c:124-230 | in every run, what the machine has committed and what is pending is, entry for entry, the sequence of blocks and data that the calls of log_write were given, cut back at crashes to what the header write had made durable |
| `CommitHistory.NothingIsLost` | log.c:124-230 | in every run a crash now would leave exactly the durable part of that sequence, operations see all of it, and with no operation outstanding and no commit under way all of it is durable |
| `CommitHistory.CommittedWhole` | log.c:142-171 | an operation with a durable entry has ended, and all its entries are durable |
| `CommitHistory.LastEndCommits` | log.c:142-199 | after the end_op of the last outstanding operation and the disk writes that follow, every home block holds the data last given for it |
| `CommitHistory.BeginAnswers` | log.c:124-140 | begin_op returns exactly when no commit is under way and the log has room for the distinct blocks given since the last commit and the budgets of all outstanding operations and this one; else the caller sleeps |
| `BufferCache.Cache.constructor` | bio.c:39-57 | all buffers are in the list, the last one first, none holding a block |
| `BufferCache.Cache.Find` | bio.c:70-81 | the list walk finds a buffer exactly when the block is cached |
| `BufferCache.Cache.FindReusable` | bio.c:86-95 | the backward walk finds the least recently used buffer that is free and clean, if there is one |
| `BufferCache.Cache.Bget` | bio.c:62-96 | sleeps exactly on a busy holder, panics exactly when the block is uncached and no buffer is free and clean, recycles the least recently used of those and so never a pinned one, and keeps one buffer per block |
| `BufferCache.Cache.Bread` | bio.c:99-109 | yields the latest contents stored in the block through any buffer, wherever they are |
| `BufferCache.Cache.Bwrite` | bio.c:111-119 | puts the buffer's data on disk, unpins it, and keeps coherence |
| `BufferCache.Cache.Brelse` | bio.c:121-142 | the pointer surgery moves the buffer to the front of the list and changes nothing else |
| `BufferCache.CleanIsOnDisk` | bio.c:83-88 | a clean free buffer may be dropped: the disk holds its block's latest contents |
| `Log.RedoLog.WriteLog` | log.c:173-187 | copies the latest contents of every logged block, as pinned in the cache, to the log area; buffers others hold stay as they are |
| `Log.RedoLog.InstallTrans` | log.c:67-81 | copies every log block to its home and unpins it; buffers others hold stay as they are |
| `Log.RedoLog.WriteHead` | log.c:97-112 | one disk write, of the header block for the current list |
| `Log.RedoLog.ReadHead` | log.c:83-95 | the in-memory list becomes the one the disk's header records |
| `Log.RedoLog.BeginOp` | log.c:124-140 | admits an operation exactly when the log has room for all outstanding ones and it |
| `Log.RedoLog.EndOp` | log.c:142-171 | the last operation out commits, the others only leave |
| `Log.RedoLog.Commit` | log.c:189-199 | its disk writes are exactly the sequence whose prefixes `Redo.CommitAtomic` speaks of, of the operations' final data; the log is empty and nothing is pinned afterwards; meanwhile others may hold buffers of any other blocks |
| `Log.RedoLog.RecoverFromLog` | log.c:114-121 | its disk writes are exactly the sequence whose prefixes `Redo.RecoveryAtomic` speaks of |
| `Log.RedoLog.LogWrite` | log.c:210-230 | panics exactly when the log is full, or else when no operation is outstanding; otherwise records the block once and pins its buffer |
| `LogRun.DoGet` | bio.c:62-109 | bread by any process, whoever else holds buffers, keeps every logged block in its dirty buffer and yields the latest contents |
| `LogRun.DoChange` | log.c:205-208 | storing into a held buffer keeps that |
| `LogRun.DoLog` | log.c:210-230 | log_write keeps that, for one block more |
| `LogRun.DoRelease` | bio.c:121-142 | brelse of a buffer that is logged or unchanged keeps that |
| `LogRun.DoEnd` | log.c:142-171 | end_op keeps that, its commit included |
| `LogRun.DoRecover` | log.c:114-121 | recovery ends in a state that runs may start from |
| `LogRun.RunKeeps` | log.c:114-230 | in every run of these calls by any number of processes with any number of held buffers, the cache stays coherent, the log on disk empty, the list free of repeats, and the pinned blocks exactly those of the list |
| `LogRun.LoggedStays` | log.c:201-229 | in every run a logged block stays in the buffer it was logged in, dirty, until its commit |
| `LogRun.LatestIsStored` | log.c:201-229 | in every run what bread shows of a block is the data last stored in it |
| `LogRun.CommitOfLastData` | log.c:189-199 | in every run a commit writes exactly the data last stored in the logged blocks, and a crash in it leaves all or none of them |
| `FsLayout.BitOfMark` | fs.c:63-65 | setting or clearing one bitmap bit changes that bit only |
| `FsLayout.InodeRoundTrip` | fs.c:199-215 | an inode written into its slot of an inode block reads back as written, and the other seven are untouched |
| `FsLayout.InodeBytes` | fs.h:28-35 | the byte offset and width of every field of an inode in its block |
| `FsOwnership.Exclusive` | fs.c:346-352 | no block is in two slots, of one inode or of two |
| `FsOwnership.Conservation` | fs.c:50-93 | free blocks and owned blocks are disjoint and together always as many as there are data blocks |
| `FsOwnership.GainKeeps` | fs.c:356-384 | filling an empty slot with an unowned block that is marked in the bitmap keeps ownership exclusive |
| `FsOwnership.LoseKeeps` | fs.c:391-419 | emptying slots whose bits are cleared keeps ownership exclusive |
| `FsFile.DataWrite` | fs.c:479-485 | overwriting a file's block changes that block's bytes of that file and no byte of any file else |
| `FsFile.AllocBits` | fs.c:62-70 | the block balloc takes was owned by nobody, and its bitmap is right for one more owner |
| `FsInode.AttachAddr` | fs.c:362-372 | a fresh block in a direct address, or as indirect block, changes the bytes of no file |
| `FsInode.AttachEntry` | fs.c:373-378 | a fresh block in an entry of the indirect block changes the bytes of no file |
| `FsInode.StoreInode` | fs.c:199-215 | writing the inode back leaves all files and the inode table as seen in memory, and makes the disk's copy current |
| `FsInode.DropAddr` | fs.c:398-415 | clearing an address whose blocks are unmarked empties its slots and touches no other file |
| `FsContents.SpliceBack` | fs.c:460-492 | reading the written range of a splice gives what was written; outside it the old bytes |
| `FsContents.ContentsSpliced` | fs.c:479-490 | bytes replaced in a range, with the size the larger of old size and end, are the splice of the old contents |
| `FileSystem.Files.Balloc` | fs.c:52-75 | the lowest free block, marked and zeroed; panics exactly when every block is in use |
| `FileSystem.Files.Bfree` | fs.c:77-93 | clears the block's bit; panics exactly when it was clear |
| `FsOwnership.OtherSlots` | fs.c:346-384 | inodes whose blocks are the same ones before and after a step have them in the same slots, and no others |
| `FsOwnership.CountBlocks` | fs.c:391-419 | an inode has as many blocks as slots in use |
| `FsContents.NeedTight` | fs.c:356-384 | a write to a file without holes needs as many blocks as its growth |
| `FsContents.FallsShort` | fs.c:479-480 | the block at which bmap finds no room shows that there was not room for the whole range |
| `FsContents.AllTightKept` | fs.c:356-419 | a step that gives and takes blocks of one inode only leaves every other inode without holes |
| `FileSystem.Files.EntryOf` | fs.c:369-381 | the block in an entry of the indirect block, allocated once if missing, all files and all other inodes' blocks unchanged; panics exactly when it is missing and no block is free |
| `FileSystem.Files.Bmap` | fs.c:356-384 | the block of a file position, allocated with its indirect block if missing; ownership kept, every file's bytes and all other inodes' blocks unchanged, blocks never move, new slots only for this position; the inode changes exactly when its own address had to be set; panics exactly out of range or with fewer free blocks than it lacks |
| `FileSystem.Files.Iupdate` | fs.c:198-215 | the disk's inode becomes the memory's, the rest of the table and all files as they were |
| `FileSystem.Files.TruncDirect` | fs.c:398-403 | frees exactly the directly addressed blocks, never one already free |
| `FileSystem.Files.TruncIndirect` | fs.c:405-415 | frees exactly the indirect block and the blocks it lists, never one already free |
| `FileSystem.Files.Itrunc` | fs.c:386-419 | the free set grows by exactly the inode's blocks; the empty inode is on disk; every other file keeps its bytes; if no inode had a hole none has; the panic "freeing free block" cannot happen |
| `FileSystem.Files.Ilock` | fs.c:281-294 | with no inode held, any inode loads as the disk has it and all invariants carry over; panics exactly on a free inode |
| `FileSystem.Files.Ialloc` | fs.c:176-196 | the lowest free inode from 1 on, blank but for its type, on disk; no file and no other inode changes; panics exactly when there is none |
| `FileSystem.Files.Iput` | fs.c:317-336 | with a link or another reference left nothing changes; otherwise exactly the inode's blocks and the inode become free, on disk too, and no other file changes; if no inode had a hole none has |
| `FileSystem.Files.Readi` | fs.c:433-458 | the slice of the contents clipped to the size, holes as zeroes; -1 exactly for off beyond the size or 32-bit overflow or a missing device routine; panics exactly when there is less room than the holes read need; no file changes, and nothing at all if the range, or the file system, has no hole |
| `FileSystem.Files.Writei` | fs.c:461-492 | the contents become the old ones with the source spliced in at off, every other file, inode and its blocks unchanged, -1 exactly for off beyond the size, a result beyond MAXFILE blocks or overflow; panics exactly when there is less room than the range lacks blocks, and else uses up that many; if no inode had a hole none has; the disk's inode is current after the call if and only if the size grew or no address of the inode had to be set |
| `FileSystem.WriteIntoHole` | fs.c:487-490 | on a valid file system with a hole, a write leaves the inode on disk without the block that memory has and the bitmap says is taken |
| `FsSession.DoCreate` | fs.c:176-196 | ialloc seen by users: the lowest free file becomes an empty one of the type; panics exactly without one |
| `FsSession.DoLinks` | sysfile.c:149-150 | a link count, changed and written back, is all that changes |
| `FsSession.DoRead` | fs.c:433-458 | reading changes nothing and gives the slice, the device or the error, and never runs out of blocks |
| `FsSession.DoWrite` | fs.c:461-492 | writing splices the bytes into this file alone and takes the blocks its growth needs; it panics exactly when these are not there |
| `FsSession.DoDrop` | fs.c:317-336 | dropping an unlinked file frees it and as many blocks as its size needs; a linked one stays |
| `FsSession.Session` | fs.c:176-492 | every sequence of these calls on any inodes, from a disk without holes, answers as files that are byte sequences would, panics at the call at which they would, and leaves a disk that shows those files, without holes, with every inode written back and the number of free blocks predicted |
| `FsCrash.QuietFrame` | fs.h:8-9 | what the disk shows of files does not depend on the log's blocks |
| `FsCrash.CrashLeavesFiles` | log.c:8-22 | if every committed batch takes a consistent file system to one, then in every run a crash now and recovery leave a consistent one |
| `FrameList.ListPush` | kalloc.c:60-80 | a freed frame, overwritten with its link, heads a well-formed list of the frames that were free |
| `FrameList.FramesConserved` | kalloc.c:59-95 | free frames, frames of address spaces and frames out for other use are always as many as there are frames |
| `Vm.Machine.Kalloc` | kalloc.c:82-95 | the head of the list, or null exactly when it is empty |
| `Vm.Machine.Kfree` | kalloc.c:59-79 | the frame becomes the head of the list; panics exactly outside the managed range |
| `Vm.Machine.FreeRange` | kalloc.c:45-52 | exactly the frames of the range become free |
| `Paging.AddTable` | vm.c:55-63 | a zeroed page table in an empty directory entry changes no mapping and keeps every frame in one place |
| `Paging.SetPte` | vm.c:79-89 | setting one entry changes that page's mapping only, and frame ownership accordingly |
| `Vm.Machine.WalkPgdir` | vm.c:42-64 | finds the table of a page, or makes it from the first free frame; no mapping of any address space changes |
| `Vm.Machine.MapPage` | vm.c:79-89 | one page of mappages: panics exactly on a present entry, fails exactly without a table and without free frames, otherwise sets this entry only |
| `Vm.Machine.MapPages` | vm.c:66-89 | a kernel range is mapped page by page to consecutive frames; no user page, page contents or other address space changes |
| `KernelSpace.KernelMapMeans` | vm.c:114-125 | physical memory at KERNBASE, the kernel text read-only, devices one to one, nothing else |
| `KernelSpace.KernelTabsMeans` | vm.c:114-125 | the kernel part needs the same 64 page tables wherever the data section starts |
| `Vm.Machine.SetupKvm` | vm.c:127-144 | a new address space whose mapping is exactly the kernel's; rows never overlap, so no remap panic; it fails exactly with fewer than 65 free frames |
| `Unmapping.StepTable` | vm.c:258-262 | the jump over an absent table passes only unmapped pages and pages of the skipped kind |
| `Vm.Machine.DeallocUvm` | vm.c:244-273 | unmaps and frees the frames of exactly the mapped pages of the range that are not skipped; nothing else changes; no kfree panic |
| `Unmapping.SkipAheadExact` | vm.c:257-262 | the skip-ahead loop clears the range, as a page-by-page loop would, if and only if no mapped page in it lies below the start's offset in the first present table after an absent one |
| `Unmapping.ContiguousNotSkipped` | vm.c:257-262 | user memory contiguous from 0 has no such page |
| `Unmapping.SomePageSkipped` | vm.c:257-262 | a valid address space and range with one |
| `Vm.Machine.FreeVm` | vm.c:275-292 | every page, table and directory frame of the address space becomes free, and no other; other address spaces keep mappings and contents |
| `Vm.Machine.PageIn` | vm.c:231-240 | a fresh frame with given contents at an unmapped page, or no frame, or, exactly when one frame is left and a table is missing, that frame lost |
| `GrowSpace.CostGrows` | vm.c:230-241 | each further page costs a frame, and one more when it starts a missing table |
| `GrowSpace.SomeFrameLost` | vm.c:231-240 | a valid machine in which growing by one page loses a frame |
| `GrowSpace.GrewThenSwept` | vm.c:233-236 | after a failure partway, deallocuvm restores every mapping and frees every new page |
| `Vm.Machine.AllocUvm` | vm.c:218-242 | decided by the number of free frames: enough, and the new pages are zeroed fresh frames and nothing in use changes; too few, and 0 with the old mapping restored; one short at a missing table, and one frame is lost, with newsz returned if that was the last page |
| `CopySpace.CopyCostNext` | vm.c:315-331 | each further page costs a frame, and one more when it starts a table |
| `Vm.Machine.CopyUvm` | vm.c:307-337 | decided by the number of free frames and the first unmapped page: enough, and same contents and flags page for page in frames that were free, the source untouched; too few, and everything taken is given back, but for one frame exactly if it ran out between a page and its table; panics exactly on reaching an unmapped source page |
| `Lcg.JumpShape` | proc.c:31-36 | 2^j steps of the generator multiply by 1 modulo 4*2^j and add an odd multiple of 2^j |
| `Lcg.NoShortCycle` | proc.c:31-36 | no state recurs in fewer than 2^32 steps |
| `Lcg.FullPeriod` | proc.c:29-36 | from every seed, 2^32 consecutive states are pairwise different |
| `Lcg.Predecessor` | proc.c:33 | every state is the successor of some state |
| `Lottery.HolderUnique` | proc.c:366-372 | a drawn number lies in one ticket interval only |
| `Lottery.HolderExists` | proc.c:364-372 | every number from 1 to max lies in one |
| `Lottery.WonStates` | proc.c:358-372 | over a period a process wins as often as a number below 2^32 has its residue in the process's ticket interval |
| `Lottery.Fairness` | proc.c:29-36 | over one period, from any seed, t tickets of max win between t*floor(2^32/max) and t*ceil(2^32/max) draws |
| `Scheduler.RunnablesAreRunnable` | proc.c:321-334 | the collected entries are RUNNABLE processes in table order, none twice |
| `Scheduler.EveryRunnableCollected` | proc.c:321-332 | a process is collected if and only if it is RUNNABLE |
| `Scheduler.Collect` | proc.c:320-334 | run_p becomes exactly the RUNNABLE processes, in table order, followed by whatever earlier rounds left behind them |
| `Scheduler.RemoveDuplicates` | proc.c:349-356 | exactly the entries with an earlier entry of the same pid go |
| `Scheduler.AddTickets` | proc.c:358-363 | max is the ticket sum over the entries before the first null, leftovers included |
| `Scheduler.FindWinner` | proc.c:365-372 | the walk stops at the entry whose ticket interval holds the number drawn |
| `Scheduler.Choose` | proc.c:318-384 | nothing exactly when no process is RUNNABLE, the only one that is, or the winner of the draw over all RUNNABLE and leftover entries, with the generator advanced once |
| `Scheduler.EveryoneCanWin` | proc.c:364-372 | every entry wins for some state of the generator |
| `Scheduler.RoundFairness` | proc.c:358-372 | with the same processes runnable for a whole period of the generator, each wins in proportion to its tickets, 50 for lot_child and 10 for any other |
| `Scheduler.WinnerRunnableExactly` | proc.c:311-372 | the draw picks a RUNNABLE process for every generator state if and only if every leftover entry is RUNNABLE |
| `Scheduler.TwoRounds` | proc.c:308-384 | from the cleared run_p, a round with three runnable processes and then one in which the third sleeps: it takes part in the second draw |
| `Scheduler.SleepingWinner` | proc.c:311-372 | for some seed that draw picks it |
| `SleepWakeup.WakeupNeverLost` | proc.c:456-511 | any number of processes, every interleaving: whoever sleeps beside a positive counter has a waker that still has to run wakeup1, called before or after releasing the lock |
| `SleepWakeup.WakeupLostOtherwise` | proc.c:465-474 | were lk released before taking ptable.lock, some run loses a wakeup |
| `SleepWakeup.StepKeepsLocks` | spinlock.c:24-64 | every step keeps each lock with exactly the process that is inside it |
| `ProcTree.ExitKeepsInv` | proc.c:231-247 | exit hands its children to init, wakes whoever must be woken, and keeps the tree invariant |
| `ProcTree.ExitMeans` | proc.c:231-247 | what exit leaves in each slot: the caller a zombie, its children with init, exactly those asleep in wait awake that have a zombie to reap, all else as it was |
| `ProcTree.WaitKeepsInv` | proc.c:253-292 | every outcome of wait keeps the tree invariant |
| `ProcTree.WaitMeans` | proc.c:253-292 | wait frees the slot of the lowest zombie child and returns its pid; without one it gives up exactly if there are no children or the caller is killed, and else sleeps; nothing else changes |
| `ProcTree.AllocKeepsInv` | proc.c:71-87 | taking a slot and a new pid keeps the invariant |
| `ProcTree.ForkKeepsInv` | proc.c:165-204 | each unlocked write of fork keeps the invariant |
| `ProcTree.ForkMakesChild` | proc.c:165-204 | a whole fork puts a RUNNABLE child with a new pid into the lowest unused slot and changes nothing else |
| `ProcTree.ProcessTree` | proc.c:165-292 | in every reachable state a zombie has one parent, alive and not asleep in wait, also after reparenting; no pid is returned by two waits |
| `ProcTree.ZombieWaits` | proc.c:253-292 | in every run a zombie keeps slot and pid until a wait of its parent frees the slot and returns that pid |
| `ProcTree.ReturnedIsReaped` | proc.c:253-292 | in every run wait returns only the pid of the caller's lowest zombie child |
| `ProcTable.Processes.Wakeup1` | proc.c:494-502 | exactly the processes asleep on the channel become RUNNABLE |
| `ProcTable.Processes.AllocProc` | proc.c:77-87 | finds a slot exactly if one is UNUSED, the lowest, and makes it an EMBRYO with a new pid, as the step of the machine does |
| `ProcTable.Processes.Exit` | proc.c:231-246 | the loop performs the step of the machine, wakeups included |
| `ProcTable.Processes.Wait` | proc.c:259-290 | one pass returns a child exactly if there is a zombie child, the lowest, whose slot is then UNUSED; sleeps exactly if there is none but there are children and the caller is not killed; and else changes nothing; as the step of the machine does |
| `Pipe.Ring.FullTest` | pipe.c:84 | comparing counters that wrap at 2^32 tells exactly full and empty, and indexes the ring right |
| `Pipe.Ring.Write` | pipe.c:77-97 | each stretch between taking and giving up the lock refines the unbounded queue, bytes, wakeups and result: the rest of the source goes in, or else the pipe is full, and the call fails exactly if killed or the read end is closed |
| `Pipe.Ring.Read` | pipe.c:99-120 | likewise for reading |
| `Pipe.Ring.Close` | pipe.c:58-74 | likewise for closing an end |
| `Pipe.DeliveryIsFifo` | pipe.c:58-120 | in every interleaving, across counter wrap, bytes delivered are a prefix of bytes accepted, and at most 512 are in flight |
| `Pipe.ReadReturns` | pipe.c:105-119 | a returning read of n > 0 gets nothing exactly at end of file, and otherwise all there is up to n; on an empty pipe with a writer it fails exactly if killed, and else sleeps |
| `Pipe.WriteReturns` | pipe.c:77-97 | a stretch of a write stores all that is left if that fits, and else fills the pipe exactly; it fails exactly if killed or the read end is closed, and else sleeps |
| `Pipe.CallPutsIn` | pipe.c:82-95 | in every interleaving the stretches of one call put in its source up to where the last one stopped, in order, nothing twice |
| `Pipe.CallIsWhole` | pipe.c:82-96 | a call that returns n has put in all n bytes |
| `Pipe.OpenUntilClosed` | pipe.c:58-74 | in every run an end is open exactly until it is closed |
| `Pipe.WritersNeverStranded` | pipe.c:77-120 | in every interleaving a writer sleeps only while the pipe is full and its read end open |
| `Pipe.ReadersStrandedExactly` | pipe.c:84-88 | the same for readers, kept by a step if and only if it is not a failing write that leaves bytes in the pipe beside a sleeping reader |
| `Pipe.ReaderStranded` | pipe.c:84-88 | a run of two calls in which that happens |
| `FreeList.InsertWellFormed` | umalloc.c:24-44 | a freed block at its place keeps the list address-ordered, non-overlapping and fully coalesced |
| `FreeList.InsertUnits` | umalloc.c:33-42 | coalescing loses no unit |
| `FreeList.TakeWellFormed` | umalloc.c:75-82 | taking a block, or the tail of one, keeps the list ordered and coalesced |
| `FreeList.TakeUnits` | umalloc.c:75-82 | exactly the units asked for leave the list |
| `Malloc.Allocator.FindPlace` | umalloc.c:30-32 | the search stops, at the one place the block belongs, the wrap-around included |
| `Malloc.Allocator.Free` | umalloc.c:24-44 | the block leaves the live ones and enters the list at its place, joined with its neighbours; ring, order, disjointness and unit count are kept |
| `Malloc.Allocator.MoreCore` | umalloc.c:46-61 | at least 4096 units are added to list and total, and then some block is large enough |
| `Malloc.Allocator.Search` | umalloc.c:74-90 | one round, at most one call of sbrk, and a second round that must succeed; fails only if nothing fits and sbrk fails |
| `Malloc.Allocator.Malloc` | umalloc.c:63-90 | a block disjoint from all live ones, of the computed number of units; free and live units always add up to what came from sbrk |
| `Malloc.LargeEnoughExactly` | umalloc.c:69 | the block holds the request if and only if the rounding sum does not wrap at 2^32, and then wastes less than a unit |
| `Malloc.WrappedRequest` | umalloc.c:69 | a request of 2^32 - 1 bytes is given one unit, the header alone |
| `ShellParser.ParseLine` | sh.c:345-360 | the mutual recursion ends, the cursor never goes back, and every word of the tree is a token of the line |
| `ShellRoundTrip.ExecBack` | sh.c:416-447 | words, redirections and parenthesised commands read back as the command they were printed from |
| `ShellRoundTrip.PipeBack` | sh.c:362-373 | likewise for pipelines |
| `ShellRoundTrip.LineBack` | sh.c:345-360 | likewise for lists and background commands |
| `ShellRoundTrip.RoundTrip` | sh.c:263-447 | parsing the canonical text of a tree, at most 9 words per command, gives that tree |
| `ShellGrammar.LexExact` | sh.c:263-326 | every line is one list of tokens, each as long as it can be, with any white space between them, and gettoken yields that list |
| `ShellParses.RedirsExact` | sh.c:375-398 | parseredirs reads exactly the redirections that come next, in order, `<` for reading on 0, `>` and `>>` for writing on 1, and panics exactly if one has no file name |
| `ShellParses.ArgsSound` | sh.c:416-447 | what the loop of parseexec reads is words and redirections, mixed in any way, each in order |
| `ShellParses.ArgsComplete` | sh.c:416-447 | it reads every such mixture of at most 9 words up to the end of the line or the next symbol that ends a command |
| `ShellParses.ExecComplete` | sh.c:400-447 | parseexec and parseblock read every command of the grammar |
| `ShellParses.PipeComplete` | sh.c:362-373 | likewise parsepipe and pipelines |
| `ShellParses.LineSound` | sh.c:345-360 | what parseline reads is a line of the grammar, with the tree the grammar gives it |
| `ShellParses.LineComplete` | sh.c:345-360 | it reads every line of the grammar |
| `ShellParses.ParseExact` | sh.c:328-447 | for every line, parsecmd builds the tree that the grammar gives its tokens, the only one, and panics if and only if the grammar gives it none |
| `Shell.NextToken` | sh.c:266-309 | the loops of gettoken compute the token function of the grammar |
| `Shell.ReadRedirs` | sh.c:375-398 | the loop of parseredirs: exactly the redirections that come next, and a panic exactly if one has no file name |
| `Shell.ReadExec` | sh.c:416-447 | parseexec, its loop and its error cases, computes its grammar function |
| `Shell.ReadLine` | sh.c:345-360 | parseline, its loop and its recursion, computes its grammar function |
| `Shell.NulTerminate` | sh.c:449-494 | exactly the bytes after the tree's words become NUL |
| `Shell.EndsAreNotWords` | sh.c:432-494 | none of those bytes belongs to a word |
| `Shell.TerminatedTreeReads` | sh.c:449-494 | afterwards every argument and file name reads as a C string equal to the token the parser recorded |
| `Shell.ParseCommand` | sh.c:328-343 | the whole of parsecmd on a buffer: a tree that, read off the buffer afterwards, is the one the grammar gives the line, or a panic and the buffer untouched, exactly if it gives none |
| `Grep.MatchHere` | grep.c:84-96 | true exactly when some prefix of the text is in the pattern's language |
| `Grep.MatchStar` | grep.c:98-106 | true exactly when some prefix is in the language of c* followed by the pattern |
| `Grep.Match` | grep.c:72-82 | true exactly when some substring is in the pattern's language, at the start if anchored by ^, at the end if by $ |

## Left out

- Devices, interrupts, boot and context switch: `iderw` is one atomic block read or write (as in memide.c), `swtch` a
  hand-over step, interrupts only what locks make of them.
- `FileSystem` works on the disk as `bread` shows it; that its calls reach the log in batches is a premise of
  `FsCrash.CrashLeavesFiles`. In `LogRun` a call of the cache or the log is one step, and a commit is one step during
  which others may hold buffers of other blocks; `GroupCommit` interleaves critical sections and single disk writes.
- The inode cache (iget, reference counts, busy flags) and directories: each call of `FsSession` locks one inode, and
  finds it and leaves it as it is on disk.
- The per-operation budget of MAXOPBLOCKS `log_write` calls is a premise, not derived from the file system calls.
- Files have at most MAXFILE blocks on the disk the model starts from; `major` is kept as the unsigned 16-bit number, so a
  negative one is out of range as in the source.
- growproc, exec, loaduvm, inituvm, copyout, clearpteu, and the switch of page tables.
- Frames are numbered; kernel virtual addresses differ from them by a constant that is not modelled. The kernel's data
  section starts at a page boundary given as a parameter.
- kill, wait's freeing of stack and address space, and pid wrap-around: `nextpid` is unbounded. A process slot belongs to
  one builder while fork fills it.
- The printing loop of the scheduler over `run_p`, which reads past the array when all 64 entries are set.
- Only one device; buffers of a second one are not modelled.
- grep's line loop, the shell's execution of commands, and the other user programs.
- pipealloc's error paths.
- Malloc.Allocator.MoreCore: sbrk is a parameter that, unless it fails, returns fresh memory of the size asked for, beyond all
  earlier memory; the product at umalloc.c:54 is not wrapped, which is right below 2^31 bytes.
- Vm.Machine.CopyUvm: on the path where setting up the kernel part fails, the directory and tables already taken stay owned
  by an address space nobody holds, as in the source; the contract says that no free frame is left then.
- Vm.Machine.MapPages: kernel ranges only; user pages are mapped one at a time, by `Vm.Machine.MapPage`.
- Vm.Machine.AllocUvm: user memory is contiguous from 0 below oldsz, as growproc and exec keep it.
- Vm.Machine.Kfree: a frame that is not free, as every caller passes.
- Scheduler.Choose: pids of runnable processes are distinct, which allocproc ensures until `nextpid` wraps.
- Scheduler.RemoveDuplicates: an entry removed as a duplicate is not dereferenced again, as the source may.
- FileSystem.Files.Ilock: the load and its panic; the busy and valid flags, and the wait for the lock, are not modelled.
- FileSystem.Files.Iput: that this is the last reference is a parameter; the reference count is not modelled.
- BufferCache.Cache.Brelse: a buffer that was changed is written or logged before it is released, as bio.c:8-14 asks.
- SleepWakeup.StepKeepsLocks: `pushcli`/`popcli` nesting and the panics of acquire and release are not modelled.
- ProcTree.ProcessTree: `nextpid` does not wrap.
- ShellParses.ParseExact: when parsecmd panics, not with which message.
- Pipe.Ring.Close: the freeing of a pipe closed at both ends is not modelled.
