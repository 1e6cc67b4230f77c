# Curnel: a verified model of the kernel's core

Curnel is a small x86_64 teaching kernel written in C. This project models four of its parts in Dafny and proves
what they promise, on all inputs and over all runs. Where the code does not do what its documentation, a standard
or common sense says, the model follows the code; the exact condition, or a concrete family of counterexamples, is
then a lemma.

**FAT32 file data** (`Bytes`, `Sequences`, `Chains`, `FlatFile`, `Layout`, `WriteProgress`, `Fat32`). A disk of 512-byte
sectors holds a FAT and data clusters as bytes. `fs_read`, `fs_write` and `fs_seek` are methods of a class over them.
A file is one flat byte sequence: reads slice it, writes splice it. The FAT determines chains that are acyclic and
disjoint, and every call keeps them so. The result that is not in the code's documentation: the walk to a cluster
adds in 32 bits, so for a position in the last cluster below 4 GiB it wraps; a read then reports the end of the file
and a write fills up the disk and fails. A write that crosses 4 GiB puts the rest of its bytes behind the end of the
file. All are stated as exact conditions.

**Kernel heap** (`Blocks`, `HeapModel`, `HeapMemory`, `Heap`). Headers and payloads live in one byte array, and
`kmalloc` and `kfree` read and write header fields in it. The blocks tile the arena, no two free blocks are
neighbours, no payload in use changes, and a request fails exactly when no gap can hold it.

**Processes, signals and timer** (`Processes`, `Scheduling`, `Fairness`, `Exits`, `Invariants`, `Calls`, `CallStates`,
`CallEffects`, `Ticks`, `ProcessTable`). `schedule`, `signal_handle_pending` and `exit_process` call each other
recursively; the model has the same recursion with a measure, both as functions on values and as methods over the
process array that are proved equal to them. The table invariants hold in every reachable state; that the parents form
a forest does exactly as long as nobody sends SIGKILL to pid 0. An exit leaves SIGCHLD at the parent and process 1 as
the parent of the orphans, exactly, at whatever depth of the nested calls; and the ticks of the timer share out the
CPU evenly.

**Pipes** (`Pipes`, `PipeRing`, `PipeRuns`, `PipeWakeups`). The ring in its byte array, the stretches of the blocking
calls between their yield points, and a state machine of many processes that interleaves those stretches. The steps
that wake a blocked process are known exactly, and so is who stays blocked for good when an end is closed.

**Paging** (`PageTables`, `PageTrees`, `PageWalks`, `PageCalls`, `KernelPages`, `FrameNeeds`, `SharedPages`,
`UserPages`, `PageRuns`, `KernelHeapRuns`, `UserPointers`, `UserRanges`, `StaticTables`, `BootPages`, `Paging`). The
frame bitmap and its counters, four-level page tables stored in frames, and the calls that map, unmap and hand out
pages. An ownership map, which the code does not have, says at which place of which address space each frame hangs,
also behind entries of the kernel's half that a space does not share; from it follow exactly which calls leave the
other spaces alone, exact frame accounting, the exact conditions under which calls fail, and the flags on every level
of a walk.

The parts are modelled in separate memories, since their hard-coded addresses in the source overlap. Within a
module a method `M` of a class is proved equal to a function of the old state, and the lemmas say what that function
means.

## Assumptions

- FAT32: 512-byte sectors, a power of two of at most 128 sectors per cluster, one FAT copy, a disk that does not
  fail, and a volume whose FAT holds disjoint, acyclic chains. Position plus request stay below 2^64 when reading, as
  those of any buffer do.
- Files and pipes: counts are returned as an `int`, with its wrap at 2^31.
- Heap: a freed pointer belongs to a block in use.
- Processes: signal handling is enabled; user handlers leave the kernel's tables alone; the timer runs at 100 Hz or
  more. `schedule` returns to its caller, as the code's context switch is not there yet, so `sys_sigsuspend`
  restores the mask at once.
- Pipes: other code between two yield points is atomic. That the rest of the kernel blocks no process that is inside a
  pipe call follows: a call blocks at most its own caller (`CallStates.CallsBlockOnlyTheirCaller`).
- Paging: every bit of the bitmap stands for a frame of memory, also the up to seven bits by which it is rounded up;
  entries carry the flags of `paging.h` without the huge-page bit, which `paging_walk` masks away; `boot_pml4` is the
  `p4_table` of `boot.asm`; the kernel's calls use the upper half of its PML4; frame 0 is reserved; kernel addresses do
  not wrap past 2^64. A read of a table beyond memory finds an empty entry and no frame beyond the bitmap is in use,
  where the code would read outside its arrays; in the states of the invariant this occurs only when the check of
  pointers takes the frame of a big page beyond memory for a PT.

## Where the code differs from what one would expect

- The default actions "stop" (2) and "continue" (1) are tested with `& SIGTERM` first and therefore terminate the
  process (`signals.c:161`, `Processes.OnlyIgnoredSurvive`).
- A signal sent while it is blocked is dropped (`signals.c:216-219`); POSIX.1-2017, XSH section 2.4.1, keeps it
  pending (`Processes.DroppedExactly`, `Calls.BlockedSignalsAreLost`).
- `sys_kill` of pid 0 in `signals.c` finds the first free slot. A SIGKILL then makes process 1 its own parent
  (`Calls.KillOfPidZeroMakesInitItsOwnParent`); this call, while a process exists and a slot is free, is exactly what
  ends the order of parents before children (`Calls.CallKeepsForest`, `Calls.ParentsAreOlder`).
- A process that has exited can run again: SIGSTOP stops a zombie, and SIGCONT then makes it ready
  (`CallStates.ExitedRunsAgain`). A zombie leaves its state in exactly the ways of `CallStates.ZombiesChangeExactly`;
  and if nobody else can run, `schedule` sets the last victim back to RUNNING (`Scheduling.LoneVictimIsRevived`).
- `sys_exit` schedules once in `exit_process` and once more itself, so the process that is switched to first is passed
  over (`Ticks.ExitPassesOneOver`).
- `process_sleep` multiplies frequency and milliseconds in 32 bits: it sleeps too short exactly if the product does
  not fit (`ProcessTable.KernelState.TicksForExactly`).
- A tick never wakes a sleeper in the last slot, because the loop passes its index as a pid
  (`Calls.TickWakesDueSleepers`).
- Only the process that created a pipe is ever woken (`PipeRuns.OtherReadersAreNotWoken`).
- `pipe_close` wakes nobody. A process blocked in a read of an empty pipe stays blocked when the write end is closed,
  although its call would now return, and no later step on that pipe wakes it; likewise a blocked writer
  (`PipeWakeups.CloseStrands`, `PipeWakeups.StrandedForGood`). The steps that wake it are those of
  `PipeWakeups.WokenExactly`.
- A descriptor below 8 names pipe id 0 and so finds a slot exactly if one is free (`pipe.c:60-71`,
  `PipeWakeups.LowDescriptorsFindFreeSlots`).
- A write to a full pipe that is resumed while the ring is still full goes round its loop with nothing to copy and
  wakes the reader all the same (`PipeWakeups.ResumedWriteWakes`).
- A write that ends at 4 GiB or beyond wraps the position and with it the new size, so what it writes there is not part
  of the file (`Fat32.FileSystem.FsWrite`, `Fat32.FileSystem.WriteThenRead`).
- After `kmalloc_pages` of two or more pages the next `kmalloc_page` fails (`KernelPages.NextCallCollides`), and so do
  all later ones until that page is given back (`KernelHeapRuns.CollisionPersists`). Without such a call, and without
  user pages behind entries shared with the kernel, `kmalloc_page` gets the next kernel address exactly if there are
  frames for it (`KernelHeapRuns.GetsNextAddress`); in general it fails exactly if somebody holds that page or frames
  are missing (`KernelHeapRuns.FailsExactly`).
- `kmalloc` of more than 2^64 - 8 bytes: rounding wraps to 0, and a block that the call then gets is too small for it,
  which happens for these sizes only (`Heap.KernelHeap.Kmalloc`).
- `kfree_page` with an address inside a page unmaps the page and loses its frame (`KernelPages.ReleaseKeeps`).
- `paging_alloc_user_page` for page 0 reports failure, leaves the page mapped and frees its frame; the next call that
  takes a frame gets it (`UserPages.PageZeroStaysMapped`). This is the only call after which no ownership of frames is
  sound (`PageRuns.SoundExactly`).
- `paging_alloc_user_page` lets through pages of the kernel's half below KERNEL_BASE (`paging.c:387`). Where the space
  has the kernel's PML4 entry, such a page appears in the kernel's own space, with the user flag, and in all spaces
  with that entry; where the kernel had none when the space was made, the space gets tables of its own there, and never
  sees what the kernel maps behind that entry (`PageRuns.KernelVisibleLater`). So a successful call leaves the other
  spaces alone exactly if the space does not share the entry (`UserPages.AllocIsolatedExactly`), and
  `paging_free_user_page`, which checks no address at all, exactly unless it takes away a mapped page that they share
  (`UserPages.FreeIsolatedExactly`).
- `usermode_validate_pointer` walks `vmm.pml4`, which `paging_switch_address_space` (`paging.c:379-382`) leaves alone:
  the tables of the boot code, which map the first GiB by 2 MiB pages (`boot.asm:81-87`). `paging_walk` takes the
  frame of such a page for a PT. So the check refuses every byte from 1 GiB on, and below it asks the word at index
  `address / 4096 % 512` of the frame at which the address's 2 MiB begin, whatever the program has mapped
  (`BootPages.KernelCheckExactly`). The program or kernel page that has this frame decides the answer
  (`BootPages.KernelCheckByOwner`); for the first 2 MiB of user memory it is the first page that `kmalloc_page` hands
  out, the kernel stack of `kernel.c:415` (`BootPages.FirstPageDecides`). Where these frames are reserved, the answer
  never changes (`BootPages.KernelCheckStays`).
- The check looks at leaf entries only; made on a program's own tables it would be exact all the same, since there a
  leaf entry with the user flag has user entries all the way up (`UserRanges.AcceptedExactly`).
- Of an empty range, and of one that wraps around, it checks one page or none (`UserPointers.OneOrNoPage`).

## Model

| member | source | states |
|---|---|---|
| Bytes.PutU32Get | filesystem.c:31-52 | a 32-bit word stored in a sector reads back, and no other byte changes |
| Bytes.PutU64Get | memory.c:20-30 | the same for the 64-bit fields of heap headers |
| Bytes.WordsAreLittleEndian | filesystem.c:22-27 | words read from a sector or a heap header are the numbers that their bytes stand for, least significant first |
| Bytes.AsIntIs | filesystem.c:359 | a count returned as an int is equal to it modulo 2^32, and the same exactly below 2^31 |
| Chains.ChainUnique | filesystem.c:311-323 | the FAT alone determines a chain from its first cluster, so following it cannot loop or fork |
| Chains.EndMarks | filesystem.h:14 | the end marks are the eight highest 28-bit values |
| Chains.AllocateKeeps | filesystem.c:118-154 | marking a free cluster as an end leaves every chain of the volume as it was and separate |
| Chains.AllocateStarts | filesystem.c:118-154 | the cluster allocated is a chain of its own, disjoint from all others |
| Chains.LinkExtends | filesystem.c:395-409 | a free cluster marked as an end and then linked behind a chain gives that chain grown by one, with all others unchanged and separate |
| FlatFile.SpliceSplice | filesystem.c:363-474 | splicing `a` and then `b` behind it is splicing `a + b` |
| FlatFile.WrittenStep | filesystem.c:425-446 | rewriting one sector of the list with more bytes copied in extends what has been written by exactly those bytes |
| FlatFile.WrittenGrows | filesystem.c:449-464 | linking new sectors behind the file changes no byte of it |
| Layout.PutEntry | filesystem.c:31-52 | writing a FAT entry changes the low 28 bits of that entry alone and no sector outside the FAT |
| Layout.EntryOfSector | filesystem.c:118-154 | the scan of FAT sectors sees, at each offset, the entry of the cluster it computes |
| Layout.EntryBytes | filesystem.c:12-28 | the entry of cluster c is what the four bytes from 4c on in the FAT region stand for, without the top four bits |
| Layout.WalkStep | filesystem.c:311-323 | one round of the 32-bit walk goes to the next cluster or, after a wrap, starts over at position 0 |
| Layout.WalkEnds | filesystem.c:311-323 | the walk ends at the cluster of the position, and ends at all only below the last cluster of 4 GiB |
| Layout.ClustersApart | filesystem.c:55-57 | sectors of different clusters are different sectors |
| Layout.ClustersInOrder | filesystem.c:55-57 | cluster 2 begins at the data region, and every cluster directly behind the last sector of the one before |
| Layout.ClusterOnDisk | filesystem.c:55-57 | all sectors of every cluster with a FAT entry lie in the data region of the disk |
| Layout.SectorAt | filesystem.c:333-337 | the sector that the loops compute from cluster, position and cluster size is the file's sector of that position |
| Layout.BytesHeld | filesystem.c:333-350 | byte p of a file is on the raw disk in its cluster k = p / (bytes per cluster), (number - 2) clusters and the sector of p in it behind the beginning of the data region, at p % 512 |
| Layout.SectorsDisjoint | filesystem.c:363-474 | files with disjoint chains have no sector in common |
| WriteProgress.GrowTwice | filesystem.c:395-409 | allocating and linking a cluster with two FAT writes grows this chain by it and keeps what was written |
| WriteProgress.Step | filesystem.c:425-446 | one read-modify-write of a sector advances the write by its bytes and touches no other file |
| WriteProgress.Finish | filesystem.c:467-473 | at the end of the loops the contents are the old ones with the data spliced in |
| WriteProgress.DataHeld | filesystem.c:425-446 | every byte written is at that place of the raw disk |
| WriteProgress.OtherFile | filesystem.c:363-474 | every other file then has the chain and the bytes it had |
| Fat32.FileSystem.ReadFatEntry | filesystem.c:12-28 | returns the 28-bit value of the entry and changes nothing |
| Fat32.FileSystem.WriteFatEntry | filesystem.c:31-52 | the FAT has this entry changed, its top four bits kept, and all data sectors unchanged |
| Fat32.FileSystem.AllocateCluster | filesystem.c:118-154 | returns the least free cluster from 2 on and marks it as an end, or 0 with nothing changed if none is free |
| Fat32.FileSystem.NextForWrite | filesystem.c:449-464 | gives the next cluster of the chain, or a new one linked behind its end, or 0 on a full disk |
| Fat32.FileSystem.SkipForWrite | filesystem.c:395-409 | finds the cluster of the position, and fails exactly on a full disk behind the chain or in the last cluster below 4 GiB |
| Fat32.FileSystem.WriteSector | filesystem.c:420-447 | one round of the write loop copies the bytes that belong into one sector |
| Fat32.FileSystem.WriteClusters | filesystem.c:411-465 | the write loop writes all of the buffer, or stops at the end of the chain on a full disk |
| Fat32.FileSystem.SkipForRead | filesystem.c:311-323 | finds the cluster of the position, except in the last cluster below 4 GiB |
| Fat32.FileSystem.ReadClusters | filesystem.c:325-357 | the read loop copies the wanted bytes of the file |
| Fat32.FileSystem.FsRead | filesystem.c:278-360 | delivers min(size, rest of the file) bytes of the flat contents with the disk unchanged, each as it is on the raw disk at the place of its position, and none in the wrap case; the result is their number as an int; the error cases |
| Fat32.FileSystem.FsWrite | filesystem.c:363-474 | contents become a splice of the accepted prefix, cut off at the new size, which wraps at 4 GiB: the splice itself exactly if what was written ends below 4 GiB; every byte written, and every byte of the file, is on the raw disk at the place of its position; short only on a full disk; fails exactly on a full disk behind the chain or in the wrap case of the walk; other files, high FAT bits and the set of free clusters are accounted for |
| Fat32.FileSystem.FsSeek | filesystem.c:477-491 | sets the position to at most the size and keeps the contents |
| Fat32.FileSystem.WriteThenRead | filesystem.c:278-491 | writing, seeking back and reading as many bytes delivers the bytes written, also after a short write; all of them exactly if they end below 4 GiB |
| Fat32.FileSystem.WriteInTwo | filesystem.c:363-474 | two writes in a row that are not short and end below 4 GiB leave what one write of both would |
| Blocks.TilesOrdered | memory.c:10-18 | blocks that tile the arena are disjoint and in address order |
| Blocks.TilesCover | memory.c:10-18 | every address of the arena lies in a block |
| Blocks.LiveDetermines | memory.c:84-98 | two heaps without free neighbours and with the same blocks in use are equal |
| HeapModel.AllocateSound | memory.c:33-74 | `kmalloc` keeps the tiling and makes no free neighbours |
| HeapModel.AllocateLive | memory.c:33-74 | it adds exactly one block to those in use, at least as big as asked for |
| HeapModel.FitsWhereFound | memory.c:50-73 | where it finds a block there is room between the blocks in use |
| HeapModel.FailsOnlyWithoutRoom | memory.c:50-73 | if it finds none, no place between the blocks in use has room for a header and the request |
| HeapModel.CutExactly | memory.c:52-66 | a block is cut exactly if more than BLOCK_SIZE bytes are left behind the new header, which then are a free block; otherwise it is taken whole |
| HeapModel.RoundedIs | memory.c:43-45 | sizes are rounded up by less than 8, or wrap to 0 above 2^64 - 8 |
| HeapModel.CoalesceKeeps | memory.c:84-98 | one pass of merging leaves no free neighbours and all blocks in use |
| HeapModel.ReleaseSound | memory.c:77-99 | `kfree` takes its own block out of those in use and leaves a sound heap |
| HeapModel.ReleaseLive | memory.c:77-99 | it takes away the block at its address and no other |
| HeapModel.ReleaseUndoesAllocate | memory.c:77-99 | freeing what was just allocated gives back the very heap there was |
| HeapModel.ReleaseCommutes | memory.c:77-99 | the order of two frees makes no difference to the heap |
| HeapModel.RunsStaySound | memory.c:33-99 | every heap that any run of calls leads to is sound |
| HeapModel.CallsChangeLive | memory.c:33-99 | a call of a run adds one block in use where the first free one that fits began, or takes its own away |
| HeapModel.FreeingAllIsInitial | memory.c:77-99 | freeing all blocks in use, in any order, gives the initial single block |
| HeapModel.TilesAligned | memory.c:33-74 | all blocks, and so all payloads, are 8-aligned |
| HeapMemory.RepresentsHalved | memory.c:56-64 | the header writes that cut a block represent the list with the block cut |
| HeapMemory.RepresentsMerge | memory.c:88-94 | the header writes that merge two blocks represent the list with them merged |
| HeapMemory.HeadersAreNoPayload | memory.c:33-99 | writing a header changes no byte of a payload in use |
| HeapMemory.HeaderBytes | memory.c:10-18 | size, free flag and next address of every block are in the bytes of its header in memory |
| HeapMemory.Cut | memory.c:56-64 | cutting a block in memory represents the cut list and changes no payload in use |
| Heap.KernelHeap.MemoryInit | memory.c:20-30 | makes the single free block, once |
| Heap.KernelHeap.TakeBlock | memory.c:52-70 | cuts the block found if the rest can hold a header, marks it, and changes no payload in use |
| Heap.KernelHeap.Kmalloc | memory.c:33-74 | for every size: the memory represents the heap after first fit; the payload is 8-aligned, and big enough exactly if rounding the size does not wrap; NULL exactly when no gap fits; no payload in use changes |
| Heap.KernelHeap.Absorb | memory.c:88-94 | merges two free neighbours in memory and changes no payload in use |
| Heap.KernelHeap.MergeAll | memory.c:84-98 | the pass over the list merges every run of free blocks |
| Heap.KernelHeap.Kfree | memory.c:77-99 | the memory represents the heap with that block freed and merged; no other payload in use changes |
| Processes.TakeClears | signals.c:135-202 | one delivery clears exactly the deliverable signals up to the lowest that is not ignored |
| Processes.OnlyIgnoredSurvive | signals.c:161-190 | a default action ends the process unless it is "ignore", the stop and continue actions included |
| Processes.DoomedExactly | signals.c:135-202 | a process exits by its pending signals exactly if a lethal one comes before all that its handlers catch and it is handling none; lethal are all with the default handler but SIGCHLD, SIGURG and SIGWINCH |
| Scheduling.NestingBound | process.c:232-309 | the processes that exit inside one call of `schedule` were runnable and exit once each, which bounds the nesting |
| Scheduling.ScheduleEnds | process.c:105-139 | how a call ends: all that exited are zombies and the current process runs, unless every runnable process exited; then the last one to exit is set back to RUNNING |
| Scheduling.SurvivorsLive | signals.c:135-202 | a runnable process that survives its own pending signals exits in no nested call |
| Scheduling.SurvivorRuns | process.c:105-139 | if there is one, the current process is runnable afterwards and all zombies, old and new, are zombies |
| Scheduling.LoneVictimIsRevived | process.c:157 | a doomed process with no other to run exits and is RUNNING again |
| Scheduling.ScheduleBlocksNobody | process.c:105-139 | `schedule`, with all nested deliveries and exits, leaves no process BLOCKED that was not |
| CallStates.CallsBlockOnlyTheirCaller | process.c:169-185 | no call leaves a process BLOCKED that was not, but for its own caller waiting in `sys_sigsuspend` or `block_process` |
| CallStates.ZombiesChangeExactly | signals.c:53-77 | a zombie leaves its state exactly by SIGSTOP, by waiting or sleeping while still current, or as the free slot of a new process |
| CallStates.ExitedRunsAgain | signals.c:53-77 | after SIGSTOP and SIGCONT any process, also one that exited, is READY |
| Scheduling.WaitersStay | process.c:105-139 | `schedule` never changes the state of a process that is not runnable |
| Scheduling.ExitedIsZombie | process.c:232-309 | a process whose `exit_process` has returned is a zombie, whatever exited in the nested calls |
| Exits.DieTells | process.c:261-293 | when `exit_process` reaches its schedule, SIGCHLD is pending at an existing parent exactly if it was or is not blocked, no other pending signal has changed, and exactly the children have process 1 as parent |
| Exits.BystandersLeft | process.c:105-139 | a process that runs in no nested call is the same afterwards but for SIGCHLD, pending if one of its children exited at any depth and it does not block it, and for its parent |
| Exits.OrphansAdopted | process.c:288-293 | after a call of `schedule` a process has process 1 as parent if its parent exited at any depth, and its old parent otherwise |
| Exits.WaiterLeft | process.c:105-139 | the same for any process that is not runnable, with the exact condition for SIGCHLD |
| Exits.ExitLeaves | process.c:232-309 | `exit_process` leaves every process that runs in none of its nested calls in that way |
| Exits.ExitAdopts | process.c:288-293 | and gives every process the parent that follows from all exits |
| Exits.WaitingParentHears | process.c:261-309 | when `exit_process` returns, a parent that is not runnable has SIGCHLD pending exactly if it had or does not block it, whatever exited meanwhile |
| Fairness.OrderHolds | process.c:112-122 | the cyclic order from the current slot on lists every runnable slot once and no other |
| Fairness.OneCall | process.c:105-139 | with nobody doomed, one call runs the first of the order, raises its CPU time by one and moves it to the end |
| Fairness.RoundRobin | process.c:105-166 | m rounds of calls raise the CPU time of each runnable process by exactly m and leave the order as it was |
| Fairness.VisitsInOrder | process.c:105-166 | the slots visited follow the cyclic order |
| Invariants.ScheduleInv | process.c:105-309 | `schedule` keeps the table and signal invariants at every depth |
| Calls.CallKeepsInv | signals.c:53-326 | every call on the process table keeps the invariants: fork, exit, signals to any pid, pid 0 included, masks, handlers, sleep and ticks |
| Calls.CallKeepsForest | signals.c:316-326 | a call keeps parents older than children exactly if it is not a SIGKILL to pid 0 while a process exists and a slot is free |
| Calls.SignalsActAtOnce | signals.c:53-77 | when `signal_send` returns, SIGKILL has made the process a zombie, SIGSTOP has stopped it, SIGCONT has made it ready exactly if it was stopped; given a free slot they act on the first free one |
| Calls.BlockedSignalsAreLost | signals.c:205-222 | sending any other signal has no effect exactly if it is pending or blocked |
| Calls.SleeperSleeps | timer.c:100-116 | after `process_sleep` the process is asleep, whatever the nested schedule did |
| Calls.SuspendedIsBlocked | syscall.c:607-617 | after `sys_sigsuspend` the process is blocked and has its old mask |
| Calls.ReachableStates | signals.c:53-326 | over whole runs: slot i holds pid 0 or i+1, used slots come first, parents are older than children but for process 1 as its own; SIGKILL and SIGSTOP are never blocked, caught or pending, SIGCONT is never pending |
| Calls.ParentsAreOlder | process.c:288-293 | in a reachable state all parents are older than their children exactly if no call so far was a SIGKILL to pid 0 with a process and a free slot |
| Calls.RunKeepsForest | process.c:288-293 | the same for runs from any sound state |
| Calls.Ancestors | process.c:288-293 | then following parents ends after at most pid steps |
| Calls.TickWakesDueSleepers | timer.c:43-63 | a tick wakes exactly the due sleepers in slots 0 to 62 |
| Calls.KillOfPidZeroMakesInitItsOwnParent | signals.c:316-326 | when SIGKILL for pid 0 returns, process 1 is its own parent and the first free slot a zombie without a pid |
| CallEffects.KillPends | signals.c:205-222 | an ordinary signal sent becomes pending at its process exactly if it was or is not blocked, and nothing else changes |
| CallEffects.MaskExactly | signals.c:281-313 | which signals are blocked after `signal_proc_mask`, for each `how`; SIGKILL and SIGSTOP never |
| CallEffects.MaskThenKill | signals.c:205-313 | a signal sent afterwards: lost after SIG_BLOCK if blocked before or in the set, let through by SIG_UNBLOCK if in the set or not blocked, decided by the set alone after SIG_SETMASK |
| CallEffects.UnblockUndoesBlock | signals.c:225-257 | unblocking a set just blocked restores the mask, if none of it was blocked |
| CallEffects.HandlerSet | signals.c:80-132 | the handler of this signal and process is the new one, and nothing else changes |
| CallEffects.HandlerDecides | signals.c:80-202 | with only that signal deliverable, the process exits on delivery exactly if the handler set is the default one and the signal is not ignored by it |
| CallEffects.SignalsHandled | signals.c:135-202 | a delivery takes all signals that are not blocked off the pending set up to the first that a handler catches, and nothing else, unless a lethal one comes before: then the process is a zombie |
| CallEffects.SpawnedIs | process.c:20-102 | a new process has an unused pid, the given parent, default handlers and no signals; it is READY, and nobody else changes |
| CallEffects.ForkedIs | syscall.c:105-134 | the child has the caller as parent and its pending signals, mask and handlers; it is READY, and nobody else changes |
| CallEffects.UnblockWakes | process.c:188-206 | a BLOCKED process becomes READY, and nothing else changes |
| CallEffects.SleeperKeepsTick | timer.c:100-116 | when `process_sleep` returns, the process is asleep until the tick asked for; only SIGCHLD may have become pending |
| CallEffects.SuspendHears | syscall.c:607-617 | when `sys_sigsuspend` returns, the process is BLOCKED with its old mask; a child that exited meanwhile has made SIGCHLD pending exactly if the temporary mask lets it through |
| CallEffects.KilledChildIsReported | signals.c:53-77 | SIGKILL makes a zombie, and its parent, if it is not runnable, has SIGCHLD pending exactly if it had or does not block it |
| Ticks.TickPreempts | timer.c:43-69 | a rescheduling tick, with nobody doomed: the first in the order after the due sleepers woke is current with one more unit of CPU time and goes to the end; the sleepers woken take part; nobody else changes |
| Ticks.ScheduleTicks | process.c:105-139 | `schedule` does the same at any time |
| Ticks.TicksShareOut | timer.c:43-69 | at any frequency from 100 Hz, with R runnable processes, nobody doomed and nobody due to wake, m * R intervals of ticks raise the CPU time of each by exactly m |
| Ticks.YieldPreempts | process.c:105-139 | so does giving up the CPU: the first of the order runs |
| Ticks.WaiterGivesUpCpu | timer.c:100-116 | a process that sleeps, suspends itself or blocks takes itself out of the order, and the first of those left is current |
| Ticks.StopSchedules | process.c:312-337 | SIGSTOP takes its process out of the order and makes the first of those left current |
| Ticks.KillSchedules | process.c:232-309 | so does SIGKILL |
| Ticks.ExitPassesOneOver | syscall.c:91-102 | `sys_exit` schedules twice: the first two of those left get one unit each, and the second is current |
| ProcessTable.KernelState.GetProcess | process.c:375-382 | the first slot with a pid |
| ProcessTable.KernelState.PickNext | process.c:107-127 | the search makes the next runnable slot current, or restores the old one after a full round |
| ProcessTable.KernelState.SwitchToProcess | process.c:142-166 | the process with this pid is RUNNING, current, and has one more unit of CPU time; a pid of no process changes nothing |
| ProcessTable.KernelState.Schedule | process.c:105-139 | the table becomes that of the function `Scheduling.Schedule` |
| ProcessTable.KernelState.SignalHandlePending | signals.c:135-202 | the delivery loop computes `Scheduling.Deliver` |
| ProcessTable.KernelState.ExitProcess | process.c:232-309 | SIGCHLD, adoption and the nested schedule compute `Calls.ExitPid`, for any pid |
| ProcessTable.KernelState.AdoptOrphans | process.c:288-293 | exactly the children of the process get process 1 as parent |
| ProcessTable.KernelState.SignalAddPending | signals.c:205-222 | an unblocked signal becomes pending, a blocked one is dropped |
| ProcessTable.KernelState.SignalSend | signals.c:53-77 | SIGKILL, SIGSTOP and SIGCONT act at once, others become pending; free slots included |
| ProcessTable.KernelState.CreateProcess | process.c:20-102 | the first free slot gets the next pid and the given parent |
| ProcessTable.KernelState.SysFork | syscall.c:105-137 | the child takes over pending and blocked signals and handlers |
| ProcessTable.KernelState.SetStateAndSchedule | process.c:312-337 | stops the process found and gives up the CPU |
| ProcessTable.KernelState.ContinueProcess | process.c:340-364 | makes a stopped process ready and no other |
| ProcessTable.KernelState.SysKill | signals.c:316-326 | sends to the process found, which for pid 0 is the first free slot, or returns -1 |
| ProcessTable.KernelState.SignalSetHandler | signals.c:80-103 | sets a handler except for SIGKILL and SIGSTOP, and returns the old one as an int |
| ProcessTable.KernelState.SignalSetAction | signals.c:106-132 | sets the handler likewise, unless the action is NULL; delivers the old handler and a status |
| ProcessTable.KernelState.SignalProcMask | signals.c:281-313 | changes the mask, never blocks SIGKILL or SIGSTOP, delivers the old mask; a NULL set changes nothing, and an unknown way of changing it fails |
| ProcessTable.KernelState.SignalBlock | signals.c:225-241 | adds the signals to the mask, but for SIGKILL and SIGSTOP, and delivers the old mask |
| ProcessTable.KernelState.SignalUnblock | signals.c:244-257 | takes the signals off the mask and delivers the old one |
| ProcessTable.KernelState.SignalSetMask | signals.c:260-278 | sets the mask, but for SIGKILL and SIGSTOP, and delivers the old one |
| ProcessTable.KernelState.SysExit | syscall.c:91-102 | exits the current process and schedules again |
| ProcessTable.KernelState.SysSigsuspend | syscall.c:607-617 | blocks under a temporary mask and restores the old one |
| ProcessTable.KernelState.ProcessSleep | timer.c:100-116 | the current process sleeps until the tick that the 32-bit product of frequency and milliseconds gives |
| ProcessTable.KernelState.TicksForExactly | timer.c:106 | the tick count is frequency * ms / 1000 exactly if the product is below 2^32, and less otherwise |
| ProcessTable.KernelState.UnblockProcess | process.c:188-206 | a BLOCKED process becomes READY |
| ProcessTable.KernelState.TimerHandler | timer.c:43-69 | counts the tick, wakes the due sleepers, and schedules every 10 ms |
| Pipes.WriteLoopAppends | pipe.c:173-217 | any stretch of a write appends the next bytes of its buffer, waits only on a full ring, and returns what was accepted as an int, or an error if that is nothing and the ring is full |
| Pipes.ReadTakes | pipe.c:110-153 | any stretch of a read takes bytes off the front, waits only on an empty ring, and returns their number |
| Pipes.ReadOutcome | pipe.c:98-153 | a read waits exactly on an empty, blocking pipe open at both ends to it; 0 exactly at the end of the stream or for count 0; EMPTY exactly if nonblocking and empty; CLOSED exactly without the open end or the permission; otherwise it takes what is there |
| Pipes.ResumedReadOutcome | pipe.c:123-153 | from a yield on it waits again exactly if the ring is empty and the write end open, ends with 0 exactly if no writer is left or count is 0, and takes what is there otherwise |
| Pipes.ReadInTwo | pipe.c:98-153 | two reads in a row take what one read of both counts takes |
| Pipes.WriteInTwo | pipe.c:156-217 | two writes in a row, the first accepted whole, store what one write of both buffers stores |
| Pipes.WriteThenRead | pipe.c:98-217 | what was in the pipe and what a write stored comes out again in order |
| Pipes.WriteOutcome | pipe.c:156-214 | a write on open ends stores what fits; the rest makes it wait, fail as full, or return short, by the blocking mode alone; closed ends fail and change nothing |
| Pipes.ResumedWriteOutcome | pipe.c:184-217 | from a yield on a write fails exactly if the read end is closed; otherwise it stores what fits, wakes the reader, and waits again exactly if something is left and the pipe is blocking |
| Pipes.ClosedExactly | pipe.c:74-95 | closing closes the ends named and frees the slot exactly if both are closed |
| PipeRing.RingDrop | pipe.c:137-145 | moving the read position drops the oldest bytes and leaves the write position where it was |
| PipeRing.RingPush | pipe.c:197-205 | storing at the write position appends a byte |
| PipeRing.PipeObject.Open | pipe.c:35-49 | a new pipe is empty, open at both ends, and both pids are the creator's |
| PipeRing.PipeObject.Take | pipe.c:132-145 | the copy loop delivers the oldest bytes in order |
| PipeRing.PipeObject.Put | pipe.c:192-208 | the copy loop appends the next bytes of the buffer and keeps write_pos = (read_pos + data_size) mod 4096 |
| PipeRing.PipeObject.BeginRead | pipe.c:98-153 | a read up to its first yield or its end computes `Pipes.BeginRead` |
| PipeRing.PipeObject.ResumeRead | pipe.c:121-153 | a read from a yield on computes `Pipes.ResumeRead` |
| PipeRing.PipeObject.BeginWrite | pipe.c:156-217 | a write up to its first yield or its end computes `Pipes.BeginWrite` |
| PipeRing.PipeObject.ResumeWrite | pipe.c:184-217 | a write from a yield on computes `Pipes.ResumeWrite` |
| PipeRing.PipeObject.Close | pipe.c:74-95 | closes the named ends and frees the slot when both are closed |
| PipeRuns.StepKeepsInv | pipe.c:98-217 | every step of every process keeps the stream law, the prefixes of the writes and the absence of lost wake-ups |
| PipeRuns.StreamsInOrder | pipe.c:98-217 | over any interleaving, bytes delivered followed by the ring are the bytes accepted, in order; every write, also a failed one, accepted a prefix of its buffer |
| PipeRuns.CreatorsWaitForCause | pipe.c:121-126 | in every reachable state a creator blocked in a read of an open pipe faces an empty ring, one blocked in a write a full one |
| PipeRuns.OtherReadersAreNotWoken | pipe.c:208-213 | bytes written to an empty pipe wake a blocked reader exactly if it is the process recorded as the reader |
| PipeWakeups.WokenExactly | pipe.c:74-217 | a blocked process is woken by exactly the steps that find bytes to read, or store some, with it as the recorded other side, and by resumed writes |
| PipeWakeups.CreatedIs | pipe.c:14-57 | a new pipe takes the first free slot, is empty, blocking and open, belongs to its creator, and has an id that no pipe or call uses |
| PipeWakeups.ReaderBlocks | pipe.c:98-132 | a reader is BLOCKED inside its call exactly if the ring is empty, the pipe blocking, and both ends are open to it |
| PipeWakeups.WriterBlocks | pipe.c:156-193 | a writer is BLOCKED exactly if its buffer does not fit, the pipe is blocking and both ends are open to it |
| PipeWakeups.ResumedBlocksAgain | pipe.c:123-193 | one that comes back to its call blocks again exactly if what it waits for is still missing |
| PipeWakeups.FlagDecides | pipe.c:220-230 | after `pipe_set_flags` a read of the empty pipe ends with EMPTY exactly if the flag is set, and blocks otherwise |
| PipeWakeups.WokenAreReady | process.c:188-206 | a step changes the state of no other process but by waking it, and then that one is READY |
| PipeWakeups.ResumedWriteWakes | pipe.c:184-214 | a resumed write wakes the reader exactly if the read end is open, also when it stores nothing |
| PipeWakeups.CloseStrands | pipe.c:74-95 | closing the last write end under a reader of an empty pipe, or the read end under a writer, leaves it blocked |
| PipeWakeups.StrandedWouldReturn | pipe.c:121-130 | the call it is blocked in would return at once: the end of the stream, or an error |
| PipeWakeups.StrandedForGood | pipe.c:74-217 | it stays blocked over every run of steps on the pipe, unless the slot is reused or it is woken from outside |
| PipeWakeups.LowDescriptorsFindFreeSlots | pipe.c:60-71 | a descriptor below 8 finds exactly the first free slot; reading and writing it fail, closing it has no effect |
| PageTables.PageOfInjective | paging.c:88-93 | the four indices determine the page on either side of the 48-bit hole |
| PageTables.AllocTakesLeast | paging.c:25-53 | the least clear bit is set and its frame zeroed, no other frame changes; fails exactly when all bits are set |
| PageTables.AllocBalances | paging.c:37-39 | allocation keeps used memory minus one page per set bit, and the sum of the counters, modulo 2^64 |
| PageTables.FreeBalances | paging.c:76-77 | so does freeing |
| PageTables.LookingChangesNothing | paging.c:88-156 | a walk that may not allocate changes nothing |
| PageTrees.PlacesApart | paging.c:88-93 | pages have the same place in the trees only if they are the same page of one space, or of two spaces behind an entry in common with the kernel |
| PageTrees.AdoptKeeps | paging.c:97-113 | a zeroed table or a data frame put at an empty entry keeps the trees sound |
| PageTrees.DropKeeps | paging.c:256-268 | clearing a leaf entry takes exactly its frame out of the trees |
| PageTrees.AllocKeeps | paging.c:25-53 | a frame taken from the bitmap is in no tree, is zeroed, and changes no table |
| PageTrees.FreeKeeps | paging.c:56-78 | freeing a frame that is in no tree keeps them sound |
| PageWalks.WalkKeeps | paging.c:88-156 | a walk that makes tables changes no translation of any space, ends at the PT of the page, and fails only on an unmapped page with no frame free |
| PageWalks.LookFinds | paging.c:88-156 | a walk that makes none finds that PT exactly if the processor's walk gets there |
| PageWalks.OneFrameOnePage | paging.c:230-253 | no frame is mapped at two pages, or in two spaces except behind an entry in common with the kernel |
| PageCalls.MapKeeps | paging.c:230-253 | success maps exactly this page to the given frame and changes no other translation of any space; failure changes none, and means that the page was mapped or memory is used up |
| PageCalls.UnmapKeeps | paging.c:256-268 | unmapping ends the translation of exactly this page, in every space that shares it |
| PageCalls.UnmapRestores | paging.c:230-268 | unmapping after mapping restores the translations of all spaces |
| PageCalls.KernelShared | paging.c:371-373 | behind an entry that a space has in common with the kernel, a page translates as in the kernel's own space |
| KernelPages.MapFreshKeeps | paging.c:283-304 | taking and mapping a frame maps a frame that was free at exactly one page, or changes no translation and gives it back |
| KernelPages.PhysicalAddressIs | paging.c:271-280 | the address lies in the page's frame; for an unmapped page it is 0 or just the page offset |
| KernelPages.ReleaseKeeps | paging.c:338-350 | giving a page back unmaps exactly it; its frame is free again exactly for a page-aligned address |
| KernelPages.KfreePagesKeeps | paging.c:353-357 | unmaps the pages of the run in every space, changes no other page, and loses no frame |
| KernelPages.KmallocPageKeeps | paging.c:283-304 | maps the next kernel page, or fails without any change of translation |
| KernelPages.KmallocPagesKeeps | paging.c:307-335 | maps all its pages from the next kernel address on, or changes no translation and gives back every data frame |
| KernelPages.NextCallCollides | paging.c:301 | after several pages, the next `kmalloc_page` fails |
| FrameNeeds.WalkNeeds | paging.c:88-156 | a walk that makes tables succeeds exactly if there are as many free frames as tables missing |
| FrameNeeds.WalkCosts | paging.c:88-156 | it takes exactly as many frames |
| FrameNeeds.WalkMarks | paging.c:110-148 | the entries of the tables it makes are present and writable and have the flags given to it, and no others |
| FrameNeeds.MapFreshFailsExactly | paging.c:283-304 | taking and mapping a frame fails exactly if the page is mapped, or frames are missing for it or its tables |
| FrameNeeds.MapFreshCosts | paging.c:283-304 | when it succeeds it takes one frame for the page and one for each table that was missing |
| KernelHeapRuns.RunHolds | paging.c:283-438 | in every state reached without mapping page 0 of a space, the mapped kernel pages are exactly those handed out and not given back, user calls on shared pages included |
| KernelHeapRuns.FailsExactly | paging.c:283-304 | `kmalloc_page` fails exactly if somebody holds the page at the next kernel address or frames are missing |
| KernelHeapRuns.PagesFailExactly | paging.c:307-335 | `kmalloc_pages` fails exactly if one of its pages is mapped, or lacks frames, when its turn comes |
| KernelHeapRuns.FourEachSuffice | paging.c:307-335 | which is not so if none of the pages is mapped and there are four free frames for each |
| KernelHeapRuns.GetsNextAddress | paging.c:283-304 | as long as no call has handed out several pages, mapped a user page behind a shared entry, or mapped page 0, nothing is mapped from the next address on, and `kmalloc_page` gets it exactly if there are frames |
| KernelHeapRuns.RunLeavesCollision | paging.c:307-335 | a call that hands out several pages leaves the next address held |
| KernelHeapRuns.CollisionPersists | paging.c:283-335 | while that page is held, over every run, all such calls fail and the address stays |
| UserPages.CreateSpaceKeeps | paging.c:360-376 | a new space has an empty lower half and the kernel's upper half; the others do not change |
| SharedPages.SharedEntry | paging.c:371-373 | a user PML4 and the kernel's have the same present entry of the upper half exactly where they had one when the space was made |
| SharedPages.SharedFresh | paging.c:385-416 | through a PML4 entry shared with the kernel, taking and mapping a frame does what it does in the kernel's own space |
| UserPages.AllocUserKeeps | paging.c:385-416 | unless it maps page 0, maps one page, of its space or of the kernel's half where they share it, to a frame that was free, or nothing |
| UserPages.AllocUserFailsExactly | paging.c:385-416 | the call fails exactly from KERNEL_BASE on, for page 0, for a mapped page, or if frames are missing for the page and its tables |
| UserPages.AllocIsolatedExactly | paging.c:385-416 | a successful call leaves all other spaces alone exactly if its page is not behind an entry shared with the kernel; a shared page appears in the kernel's space with the user flag |
| UserPages.FreeUserKeeps | paging.c:419-438 | unmaps one page, of its space or of the kernel's half where they share it, and does nothing for an unmapped one; an aligned address loses no frame |
| UserPages.FreeIsolatedExactly | paging.c:419-438 | leaves all other spaces alone exactly unless the page is a mapped page that the space shares |
| UserPages.PageZeroStaysMapped | paging.c:385-416 | for page 0 the call reports failure; where there are frames, the page is then mapped to a frame whose bit is clear, which the next allocation hands out while the page still translates to it |
| UserPages.PageZeroBreaks | paging.c:385-416 | no ownership of frames explains the state after such a call |
| PageRuns.FramesAccounted | paging.c:25-78 | the set bits are exactly the reserved frames, the page tables and the mapped frames |
| PageRuns.SoundExactly | paging.c:283-438 | a page call leaves a state that some ownership of frames explains exactly if it does not map page 0 |
| PageRuns.RunKeeps | paging.c:283-438 | every run of calls that do not map page 0, with programs storing into their pages in between, keeps the trees sound and the counters balanced, and the flags right unless user pages are mapped in the kernel's half |
| PageRuns.RunsLoseNoFrame | paging.c:283-438 | from the initial state, such a run with aligned frees uses exactly the reserved, table and mapped frames |
| PageRuns.RunsShareNoFrame | paging.c:283-438 | in every state reached by such calls each mapped frame is at one page, of one space or of spaces with the same present PML4 entry |
| PageRuns.KernelVisibleLater | paging.c:371-373 | over such runs, a user space translates the pages behind entries it shares with the kernel as the kernel does, also those mapped later, and behind its others never sees a page of the kernel |
| UserPointers.ValidateMeans | usermode.c:126-166 | a non-empty range that does not wrap is accepted exactly if it starts in user memory, ends below the last page, and each byte has a leaf entry that is present, user-accessible, writable if asked, and not for frame 0 |
| UserPointers.OneOrNoPage | usermode.c:126-166 | of an empty or a wrapping range at most the page it starts in is checked, exactly if the address before the end lies in it |
| UserRanges.LeafDecides | usermode.c:148-162 | in tables with the right flags, a leaf entry allows user access exactly if all four levels do |
| UserRanges.AcceptedExactly | usermode.c:126-166 | for a user space's own tables, in every state reached without user pages in the kernel's half: a range is accepted exactly if it starts in user memory, ends in the lower half, and all four levels allow the access to every byte; the check always returns |
| StaticTables.StepStatic | paging.c:283-438 | no page call writes to a reserved frame or to the lower half of the kernel's PML4 |
| BootPages.BootWalk | boot.asm:71-93 | with the tables of the boot code the walk ends, below 1 GiB, in the first frame of the address's 2 MiB page, and above finds nothing |
| BootPages.KernelCheckExactly | usermode.c:126-166 | on `vmm.pml4`, where the code makes it, the check accepts a range exactly if it lies in user memory below 1 GiB and each byte's word in that frame looks like a user entry; it always returns |
| BootPages.KernelCheckStays | usermode.c:126-166 | where all those frames are reserved, no run of page calls changes the answer |
| BootPages.KernelCheckByOwner | usermode.c:126-166 | if some page of any space translates to that frame, what is stored in the page decides the answer for all ranges in the 2 MiB |
| BootPages.FirstPageDecides | kernel.c:410-415 | with the first 4 MiB in use, the first page of `kmalloc_page` is that frame for the first 2 MiB of user memory |
| Paging.BitChanges | paging.c:28-35 | setting or clearing one bit of a bitmap byte adds or removes exactly that frame |
| Paging.PageManager.PmmAllocPage | paging.c:25-53 | the search over the bitmap computes `PageTables.AllocPage` |
| Paging.PageManager.PmmFreePage | paging.c:56-78 | clears the bit of an aligned address that is in use, and nothing else |
| Paging.PageManager.PagingWalk | paging.c:88-156 | the three levels in a row compute `PageTables.Walk` |
| Paging.PageManager.PagingMapPage | paging.c:230-253 | computes `PageTables.MapPage`; the result is the page's address or 0 |
| Paging.PageManager.PagingUnmapPage | paging.c:256-268 | computes `PageTables.UnmapPage` |
| Paging.PageManager.PagingGetPhysicalAddress | paging.c:271-280 | computes `PageTables.PhysicalAddress` and changes nothing |
| Paging.PageManager.KmallocPage | paging.c:283-304 | computes `KernelPages.KmallocPage` |
| Paging.PageManager.KmallocPages | paging.c:307-335 | the loop with its clean-up computes `KernelPages.KmallocPages` |
| Paging.PageManager.KfreePage | paging.c:338-350 | computes `KernelPages.Release` |
| Paging.PageManager.KfreePages | paging.c:353-357 | the loop computes `KernelPages.KfreePages` |
| Paging.PageManager.CreateUserAddressSpace | paging.c:360-376 | the copy loop computes `UserPages.CreateSpace` |
| Paging.PageManager.AllocUserPage | paging.c:385-416 | switching PML4s around the mapping computes `UserPages.AllocUserPage` |
| Paging.PageManager.FreeUserPage | paging.c:419-438 | computes `UserPages.FreeUserPage` |
| Paging.PageManager.ValidatePointer | usermode.c:126-166 | the loop over pages computes `UserPointers.Validate` |

## Left out

- Disk errors, sector sizes other than 512, several FAT copies, `fs_mount` parsing, `fs_open`, path lookup and 8.3
  names; directory entries are not written back by the code either.
- `fs_readdir`: it refills the sector buffer it still points into, so its intended meaning does not hold.
- Process names, registers, stacks, exit codes, process groups, sessions, `sys_wait`, `sys_open`, `sys_exec` and
  `sys_dup`; the `sys_kill` of `syscall.c`, whose unsigned comparison never reaches a single process.
- ProcessTable.KernelState.SwitchToProcess: that the invariants hold afterwards is stated for pids other than 0; with
  pid 0 a free slot becomes current, which the scheduler never asks for.
- ProcessTable.KernelState.CreateProcess: that the invariants hold afterwards is stated for parents below the next pid,
  as all callers in the source pass.
- ProcessTable.KernelState.SetStateAndSchedule: pid 0 for states other than stopped; only `stop_process` gets pids from
  outside.
- ProcessTable.KernelState.SignalSetAction: the flags and the mask of an action, which no code reads.
- `process_sleep` without a current process, which spins in `timer_sleep`.
- Signal masks are sets of signal numbers; bit positions above 31 do not exist in them.
- The copying of pipe data through `sys_read` and `sys_write`, and SIGPIPE, which the code does not send.
- PageCalls.MapKeeps: mapping a frame that already hangs in a tree, as `paging_map_page` would allow for device
  memory; all callers in the source pass a frame they have just taken.
- PageRuns.RunKeeps: what follows once page 0 of a space has been mapped; its frame is then both mapped and free.
- Paging.PageManager.ValidatePointer: calls that never return, on a range that ends in the last page of the address
  space when no page of the address space fails the check.
- `usermode_copy_from_user` and `usermode_copy_to_user` beyond their check; `usermode_load_program`.
- TLB flushes and switching CR3; `paging_init` beyond marking the first frames; its result is taken as the
  initial state (it counts the bitmap's pages twice, which only shifts the counters by a constant).
- Interrupt stubs, port I/O, descriptor tables, the terminal, keyboard, shell and coreutils.
