# Verified models of the Linux 0.11 kernel cores

Linux 0.11 is a small kernel that gives up the processor only at explicit sleeping
points. These Dafny modules model its main data structures and the routines that
change them, in the imperative form of the C code: global variables and structure
fields are class fields, loops are loops, and each routine is proved against a
specification. Where a routine can sleep it is cut there, and runs are arbitrary
interleavings of the pieces. Each core ends in a theorem about all runs.

| core | files | main theorem |
|---|---|---|
| copy-on-write paging | `PageTables`, `PageSteps`, `AddressSpaces`, `Events`, `Memory` | every run is a run of a machine that copies eagerly (`Mm.Run`); no process changes what another reads (`Isolation`), a process reads its own last write (`WriteIsRead`), a child reads its parent's words as of the fork (`ChildReads`); `mem_map` counts exactly the users of each frame |
| block tree and file bytes | `BlockTree`, `FileBlocks`, `FileData` | zone bits are exactly the blocks that some inode reaches, each once; files are byte arrays with zero-filled holes (`FileData.Run`) |
| buffer cache | `BufferLists`, `BufferCache` | at every sleeping point one buffer per block, with hash chains and free list that agree; a held buffer keeps its block (`Cache.Run`, `HeldKeepsKey`) |
| elevator | `Elevator`, `RequestQueue` | a queue is two ascending sweeps at most, so each request is served within two sweeps (`Disks.Run`, `ServedInTime`) |
| wait queues | `WaitQueues` | no sleeper is lost (`NoLostSleepers`, `OnePointer`) |
| timers | `Timers` | never early, at most once, and on time exactly when no later timer asks for no more than what is left (`NeverEarly`) |
| scheduler | `Scheduling` | two passes suffice; waiting is bounded by the ticks there are and those that forks give away (`ChosenInTime`, `NoStarvation`) |
| console | `Terminal`, `VideoMemory`, `Console` | moving the origin and copying rows show the same for all output, and no store misses the window (`ConWrite`, `BothShow`) |
| exec arguments | `ExecArgs` | what the new program finds through its pointer tables are its strings (`Exec`, `RoundTrip`) |
| kernel heap | `Malloc`, `HeapRuns` | over any run objects never overlap and keep their contents, malloc panics only when it must, and pages go and come back as they should (`HeapRuns.Run`, `FramesConserved`) |
| directories | `Directories`, `Namei` | names are unique and link counts exact after every step but one that relies on what changed while the call slept (`StepExact`, `FileTree.Run`) |
| descriptors | `Descriptors` | `f_count` is the number of descriptors, a file keeps its inode, and the inode goes with the last descriptor (`FileTables.Run`) |
| pipe | `Pipe` | a lossless queue under all interleavings (`PipeInode.Run`) |
| number formatting | `Format` | the digits are the number, the length is the width or what is needed (`FieldValue`, `FieldLength`, `PrintAndRead`) |

`Sequences` holds what several modules need: pointers as numbers and lists of them.

Conventions: a `ghost var` in a class records what the C code knows only implicitly
(who owns a block, the order of a list). A 32-bit page-table word is a record of its
bit fields; addresses in the console are counted in character cells; in the kernel heap
a cell of memory is one address, which holds a byte of an object or, at the start of a
free one, the whole pointer to the next. Integers are
unbounded except where a width matters: the one-byte `mem_map` (`CountBound`) and
`i_nlinks` (`LinkExact`), the unsigned `p` of `copy_strings` (`StaysInside`), the
32-bit arguments of `number` and `gotoxy`.

Stronger statements that are false of the code, each with the input and the exact
condition:

- A kernel-mode store after `verify_area` stays private exactly when the frame has
  one user (or the word does not change); on an absent page `verify_area` does
  nothing, and a later share lets the store reach the lender
  (`KernelStoreIsolated`, `VerifiedAbsentPageLeaks`).
- A timer is on time exactly when it is not delayed by a later one; two timers set
  for the same tick are called apart (`NeverEarly`, `TwoAtOnce`).
- `copy_strings` tests `p-len < 0` on unsigned words, so it never refuses; its stores
  stay on the 32 pages exactly when the strings fit (`StaysInside`, `Oversized`).
- The argument count of a script is right exactly when it is started with at least
  one argument (`ArgcRight`, `EmptyArgv`).
- A directory keeps its names apart exactly when the name is still absent as it is
  entered; two processes that create one name at once both succeed (`FinishExact`,
  `TwoCreates`).
- `sys_unlink` clears its entry after a sleep and keeps everything right exactly when
  the entry still names the file, or the file had lost its last name and the entry is
  vacant; two processes that unlink one of a file's two names at once both succeed, and
  the file goes while the other name stays (`UnnameExact`, `TwoUnlinks`).
- `sys_rmdir` keeps everything right exactly when, as it clears its entry, that still
  names the directory, which is empty and used by nobody else; a process can begin to
  make a file in it meanwhile (`RemoveIsExact`, `RemovedInUse`).
- A new link keeps the counts right exactly while `i_nlinks` is below 255 (`LinkExact`).
- With unlimited forks a runnable process can wait for ever, since each child starts
  with ticks of its own (`ForksStarve`); the wait is bounded by the ticks there
  are and those that forks give away, which are none without forks (`NoStarvation`,
  `NoGifts`).

## Model

| member | source | states |
|---|---|---|
| `PageTables.CountBound` | mm/memory.c:178-190 | because an address space maps a frame at most once, the count that each share increments never exceeds 64, so the byte cannot wrap; page tables and kernel frames have exactly one user |
| `PageSteps.GrabKeeps` | mm/memory.c:63-83 | marking a frame of count 0 as used and zeroing it keeps the tree, the counts and the sharing rules, and no page of any process changes |
| `PageSteps.ReleaseKeeps` | mm/memory.c:89-104 | a frame that only the kernel owns has count 1 and goes back with all counts exact |
| `PageSteps.MapPageKeeps` | mm/memory.c:203-225 | storing an entry for a kernel-owned frame keeps all counts exact, gives that one page the frame's words and changes no other page |
| `PageSteps.ClearEntKeeps` | mm/memory.c:125-130 | clearing one entry with its free_page keeps all counts exact and removes that one page; the frame it frees is always in use |
| `PageSteps.UnprotectKeeps` | mm/memory.c:231-236 | a frame with count 1 may be made writable: no page of any process changes, and the writable frame has no other user |
| `PageSteps.BreakShareKeeps` | mm/memory.c:237-243 | copying into a new frame and dropping one user of the old one keeps all counts exact and every page's words |
| `PageSteps.ShareEntKeeps` | mm/memory.c:179-190 | sharing one page, both entries protected and the frame counted once more, keeps all invariants and adds exactly that page to the destination |
| `PageSteps.HangKeeps` | mm/memory.c:175-177 | a zeroed frame becomes a page table: no page appears or disappears, all counts stay exact |
| `PageSteps.UnhangKeeps` | mm/memory.c:131-132 | an emptied page table has count 1 and is given back without any page changing |
| `PageSteps.PokeKeeps` | mm/memory.c:227-244 | what un_wp_page is for: a store through a writable entry changes the one page of the one process and keeps the invariants |
| `PageSteps.KernelStoreIsolated` | mm/memory.c:267-278 | a kernel store through a present entry stays private if and only if the frame has one user, which is what the verification establishes, or the word does not change |
| `PageSteps.VerifiedAbsentPageLeaks` | kernel/fork.c:25-38 | for an absent page the verification promises nothing: after the fault is served by a share, the kernel's store shows in the lender |
| `AddressSpaces.CountsDetermined` | mm/memory.c:41-58 | mem_map is a function of who uses which frame: equal users, equal counts |
| `AddressSpaces.UndoneCopy` | kernel/fork.c:57-61 | a copy into an unused range, complete or not, once torn down leaves every page frame assignment as it was |
| `AddressSpaces.WritableIsPrivate` | mm/memory.c:267-278 | a page that is already writable is already the process's own, so write_verify has nothing to do |
| `Events.ReadsOwnHistory` | mm/memory.c:227-244 | after any run of the eager machine a word reads as the last store to it, or what was inherited or supplied |
| `Events.IsolatedRun` | mm/memory.c:298-341 | events that concern other pages leave a page alone over any run |
| `Events.CopiedIsMoved` | mm/memory.c:155-195 | what fork adds, described from the page tables, is the parent's space shifted to the child's |
| `MemoryManager.Mm.Init` | mm/memory.c:408-440 | after start-up the invariants hold, no process has pages, and exactly main memory is free |
| `MemoryManager.Mm.GetFreePage` | mm/memory.c:63-83 | the highest free frame, zeroed and counted; 0 exactly means that none is free and then nothing changed |
| `MemoryManager.Mm.FreePage` | mm/memory.c:89-104 | low memory is ignored, a used frame loses one user; the two panics are exactly frames that do not exist and frames that are free |
| `MemoryManager.Mm.FreePageTables` | mm/memory.c:110-136 | exactly the pages of the range disappear from the address spaces, with exact counts afterwards |
| `MemoryManager.Mm.FreeTable` | mm/memory.c:121-133 | one present directory entry is torn down page by page with its table; exactly its pages disappear |
| `MemoryManager.Mm.CopyEntry` | mm/memory.c:179-191 | one page shared for fork: the destination sees what the source sees, nobody else notices |
| `MemoryManager.Mm.CopyTable` | mm/memory.c:178-191 | a whole table, 1024 entries or 160 from task 0: exactly the source's pages appear at the destination |
| `MemoryManager.Mm.CopyDir` | mm/memory.c:169-192 | one directory entry into a fresh table; without a frame for it nothing has changed |
| `MemoryManager.Mm.CopyPageTables` | mm/memory.c:155-195 | succeeds if and only if there are as many free frames as source tables, and then the destination shows what the source shows; on failure only the destination range holds anything new |
| `MemoryManager.Mm.PutPage` | mm/memory.c:203-225 | maps a kernel-owned frame, making a page table if need be; 0 only when no frame is left for the table, with nothing changed |
| `MemoryManager.Mm.UnWpPage` | mm/memory.c:227-244 | afterwards the page is writable and shows the same words, and every other page is what it was; out of memory changes nothing |
| `MemoryManager.Mm.WriteVerify` | mm/memory.c:267-278 | a present page becomes writable with its words unchanged, an absent one stays absent |
| `MemoryManager.Mm.GetEmptyPage` | mm/memory.c:280-288 | a zeroed page, or none exactly when the free frames do not cover page and table; counts are restored on failure |
| `MemoryManager.Mm.TryToShare` | mm/memory.c:298-341 | shares exactly when the lender's page is present, clean and above low memory and a table can be had; then borrower and lender see the same words |
| `MemoryManager.Mm.SharePage` | mm/memory.c:351-370 | a share comes from another process that runs the same executable and has the page clean; 0 if and only if the executable has no other user or there is no such process, and then nothing changed |
| `MemoryManager.Mm.NoPage` | mm/memory.c:372-404 | a fault outside the executable gets zeros; one inside it a lender's page or, only if there is no lender, a disk read with a frame held meanwhile (the i_count of the executable is a parameter) |
| `MemoryManager.Mm.PageRead` | mm/memory.c:397-403 | when the blocks have arrived, their words given, the page is mapped, or the process ends because no frame is left for its table |
| `MemoryManager.Mm.UserWrite` | mm/memory.c:253-265 | a user store changes this one word of this one page; what the page showed otherwise, shared or not, it still shows |
| `MemoryManager.Mm.VerifiedWrite` | kernel/fork.c:25-38 | a kernel store after verify_area has the effect of a user store on a present page, and cannot be made on an absent one |
| `MemoryManager.Mm.CopyMem` | kernel/fork.c:40-63 | the whole address space, if and only if the free frames suffice, or nothing at all: counts and pages are as before |
| `MemoryManager.Mm.Fork` | kernel/fork.c:79-145 | succeeds if and only if the free frames exceed the parent's tables; the child's space is a copy; a fork that fails restores every count and every page |
| `MemoryManager.Mm.Exit` | kernel/exit.c:102-106 | the whole address space goes, code and data limits given one after the other |
| `MemoryManager.Mm.Reap` | kernel/exit.c:19-33 | the zombie's frame goes back and its slot is free |
| `MemoryManager.Mm.Step` | mm/memory.c:372-404 | any step that a process or the disk can make is a step of the machine that copies eagerly |
| `MemoryManager.Mm.Run` | mm/memory.c:155-404 | any run of forks, user and kernel stores, reads, disk reads, exits and reapings refines eager copying, with exact frame counts at every moment |
| `MemoryManager.Isolation` | mm/memory.c:227-244 | over any run whose steps are all on behalf of other processes, a page stays present or absent and keeps every word |
| `MemoryManager.NextWord` | mm/memory.c:227-278 | after one step a word reads as the word just stored there, else as before |
| `MemoryManager.WordLasts` | mm/memory.c:227-341 | over any run a word lasts until its process stores there or ends |
| `MemoryManager.WriteIsRead` | mm/memory.c:227-244 | a process reads its own last store, whatever forks, shares, stores and exits come between |
| `MemoryManager.ForkCopies` | kernel/fork.c:57-62 | right after a fork the child's pages are exactly the parent's |
| `MemoryManager.ChildReads` | mm/memory.c:155-195 | until it stores there itself a child reads what its parent had at the fork, whatever the parent stores since |
| `BlockTree.UsedIffReached` | fs/bitmap.c:47-105 | a zone bit is set if and only if some inode's tree reaches the block, and no block is reached twice |
| `BlockTree.PutKeeps` | fs/inode.c:101-105 | putting a new blank block into an empty slot keeps the accounting exact and changes no other slot and no other data |
| `BlockTree.FreeKeeps` | fs/bitmap.c:67-72 | freeing the block of one slot, all below it being gone, clears exactly its bit and moves no slot outside |
| `BlockTree.EmptyKeeps` | fs/truncate.c:17-18 | an empty slot can be passed over: nothing lies below it |
| `BlockTree.ForgetKeeps` | fs/truncate.c:58-60 | clearing the i_zone word over a freed tree empties exactly the slots of that tree |
| `FileBlocks.SlotOfInjective` | fs/inode.c:72-138 | different kilobytes and different inodes lead to different slots |
| `FileBlocks.PutGrows` | fs/inode.c:101-105 | after a new block one slot is filled, every other is as it was, and the new block is blank |
| `FileBlocks.LeakKeeps` | fs/bitmap.c:90-95 | a bit set beyond the last zone is lost but changes no slot and does not make the disk fuller |
| `FileBlocks.FileSystem.FindFirstZero` | fs/bitmap.c:31-44 | the first zero bit of a map block, or 8192 |
| `FileBlocks.FileSystem.NewBlock` | fs/bitmap.c:75-105 | the lowest free zone, blanked; 0 if and only if every zone is in use, and then at most a bit beyond the device was set |
| `FileBlocks.FileSystem.Bmap` | fs/inode.c:72-138 | the block in the slot of that kilobyte; with create one blank block is added where there was none, no other slot changes, and 0 means that the disk is full |
| `FileBlocks.FileSystem.FreeBlock` | fs/bitmap.c:47-73 | exactly the block's bit is cleared; the two panics are exactly a block outside the data zone and a bit already clear |
| `FileBlocks.FileSystem.FreeInd` | fs/truncate.c:11-27 | a pointer block and the 512 blocks it names are freed, and exactly these |
| `FileBlocks.FileSystem.FreeDind` | fs/truncate.c:29-45 | the same for the two-level tree |
| `FileBlocks.FileSystem.Truncate` | fs/truncate.c:47-64 | exactly the file's blocks are freed, its slots are empty and its size 0; every other inode keeps every block |
| `FileBlocks.UsedAfter` | fs/truncate.c:47-64 | afterwards a block is in use if and only if it was and did not belong to the file: free and reached blocks are conserved |
| `FileData.OneBlock` | fs/inode.c:72-138 | no two kilobytes of files share a block |
| `FileData.GrownBytes` | fs/inode.c:72-138 | giving a hole a block changes no byte of any file |
| `FileData.DataWritten` | fs/file_dev.c:67-82 | writing a block changes one stretch of one file and nothing else |
| `FileData.ReadBack` | fs/file_dev.c:48-90 | what was written is read back, and what lies before or behind is as before |
| `FileData.FileRead` | fs/file_dev.c:17-46 | the bytes of the file from f_pos on, zeros for holes, with f_pos moved on |
| `FileData.FileWrite` | fs/file_dev.c:48-90 | a prefix of the bytes is laid over the file at f_pos or, appending, at its end; short only when the disk is full; f_pos and the result as in the source |
| `FileData.ReadFile` | fs/read_write.c:55-81 | reading a file stops at i_size |
| `FileData.WroteContents` | fs/file_dev.c:48-90 | the contents afterwards are the old ones, extended by zeros if need be, overlaid with the bytes; other files are unchanged |
| `FileData.TruncatedContents` | fs/truncate.c:47-64 | the truncated file is empty, every other is unchanged, and what grows again will read as zeros |
| `FileData.Step` | fs/file_dev.c:48-90 | one write or truncation acts as on a byte array; it is refused exactly when it would pass the largest file size, and cut short only on a full disk |
| `FileData.Run` | fs/file_dev.c:17-90 | any run of writes and truncations: the disk is a row of byte arrays, step by step, with every result accounted for |
| `BufferLists.RingRemove` | fs/buffer.c:144-150 | unlinking one buffer leaves the circle of the others in their order |
| `BufferLists.RingAppend` | fs/buffer.c:155-159 | a buffer linked in before the head is the last of the circle |
| `BufferLists.ChainRemove` | fs/buffer.c:137-143 | unlinking a buffer leaves its hash chain in order, the head included |
| `BufferLists.ChainPush` | fs/buffer.c:161-167 | a buffer linked in is the first of its hash chain |
| `BufferCache.HashedRemove` | fs/buffer.c:135-143 | taking a buffer off its chain leaves each chain with exactly the other buffers of its hash value |
| `BufferCache.HashedPush` | fs/buffer.c:160-167 | and putting it on the new one with exactly those and this |
| `BufferCache.ListedMove` | fs/buffer.c:144-159 | re-inserting a buffer moves it to the end of the free list and leaves the others in order |
| `BufferCache.RekeyKeeps` | fs/buffer.c:247-254 | re-keying an unused buffer for a block that no buffer has keeps blocks unique and counts exact |
| `BufferCache.GotSafe` | fs/buffer.c:210-255 | from repeat to the next sleep getblk re-keys only a buffer that is unused, unlocked and clean, touches nobody else's hold, and what it returns is the block asked for, held |
| `BufferCache.ResumedSafe` | fs/buffer.c:195-200 | the same after a sleep, where the buffer may meanwhile be another block |
| `BufferCache.Cache.Init` | fs/buffer.c:352-401 | all buffers on the free list, none in a chain |
| `BufferCache.Cache.FindBuffer` | fs/buffer.c:170-178 | the walk along one chain finds a buffer if and only if any of all buffers has the block |
| `BufferCache.Cache.PickVictim` | fs/buffer.c:217-227 | the first unused buffer of least badness in list order; none if and only if every buffer is in use |
| `BufferCache.Cache.Relist` | fs/buffer.c:144-159 | the buffer ends up last in the free list, the others keep their order |
| `BufferCache.Cache.Rekey` | fs/buffer.c:247-254 | the buffer becomes the block, with one holder; all lists and chains stay right |
| `BufferCache.Cache.LookUp` | fs/buffer.c:187-200 | no buffer has the block and nothing changes, or the one that has it gets another holder, at once or after a sleep on its lock |
| `BufferCache.Cache.GetBlk` | fs/buffer.c:210-255 | from repeat to the next sleep: hit, wait for the hit, wait for any buffer, wait for the victim, or the victim re-keyed |
| `BufferCache.Cache.Release` | fs/buffer.c:257-265 | the count of a held buffer is positive, so the panic cannot happen; the hold goes at once or after a sleep |
| `BufferCache.Cache.Resume` | fs/buffer.c:187-265 | where each sleeper goes on, decided by what the buffers are then |
| `BufferCache.Cache.Step` | fs/buffer.c:187-265 | one step of one process or of the disk; a buffer that getblk returns holds the block asked for |
| `BufferCache.Cache.Run` | fs/buffer.c:135-265 | at every moment of any interleaving there is at most one buffer per block, each buffer is in the chain of its hash value and once on the free list, and b_count is the number of holders |
| `BufferCache.HeldKeepsKey` | fs/buffer.c:233-253 | a buffer that somebody holds all the while is the same block at the end |
| `Elevator.PlaceIsFirstStop` | kernel/blk_drv/ll_rw_blk.c:78-82 | the place of a new request is behind the first one where the loop's condition holds |
| `Elevator.InsideAddsNoTurn` | kernel/blk_drv/ll_rw_blk.c:79-82 | a request that goes in before the end adds no turn of the head |
| `Elevator.InsertKeepsSweeps` | kernel/blk_drv/ll_rw_blk.c:64-86 | two ascending sweeps stay two ascending sweeps |
| `Elevator.PopKeepsSweeps` | kernel/blk_drv/blk.h:123-123 | and when the head is done |
| `Elevator.InsertKeepsTurnsAhead` | kernel/blk_drv/ll_rw_blk.c:64-86 | a new request never moves a waiting one into a later sweep, and never overtakes the head |
| `Elevator.ServedWithinTwoSweeps` | kernel/blk_drv/ll_rw_blk.c:64-86 | whatever comes later, what is served up to and with a waiting request is at most two ascending sweeps |
| `Elevator.ServedInTime` | kernel/blk_drv/ll_rw_blk.c:64-86 | so on a device with finitely many keys the request is at the latest the 2n-th to be served |
| `RequestQueue.InOrderIsBefore` | kernel/blk_drv/blk.h:40-43 | IN_ORDER is the lexical order of command, device and block |
| `RequestQueue.KeysDiffer` | kernel/blk_drv/ll_rw_blk.c:42-49 | since a queued request's buffer is locked and unique, two waiting requests never have the same key |
| `RequestQueue.JoinedKeys` | kernel/blk_drv/ll_rw_blk.c:78-84 | linking a slot in where the walk stops inserts its key where the elevator does |
| `RequestQueue.SubmitKeeps` | kernel/blk_drv/ll_rw_blk.c:132-142 | filling a slot and queueing it keeps buffers, slots, owners and all queues consistent |
| `RequestQueue.EndOwned` | kernel/blk_drv/blk.h:109-125 | when the head is done its buffer was locked, is unlocked once, and the slot is free |
| `RequestQueue.BufferKeeps` | fs/buffer.c:245-253 | the cache may re-key only a buffer that is unlocked and that nobody waits to lock |
| `RequestQueue.Disks.Init` | kernel/blk_drv/ll_rw_blk.c:157-165 | all slots free, all queues empty |
| `RequestQueue.Disks.FindSlot` | kernel/blk_drv/ll_rw_blk.c:115-122 | the highest free slot, for writes below two thirds of the table; none exactly when all of those are taken |
| `RequestQueue.Disks.Walk` | kernel/blk_drv/ll_rw_blk.c:78-82 | the walk stops at the elevator's place for the key |
| `RequestQueue.Disks.AddRequest` | kernel/blk_drv/ll_rw_blk.c:64-86 | the slot joins the queue at its place, all else linked as before, and its buffer counts as clean |
| `RequestQueue.Disks.LlRwBlock` | kernel/blk_drv/ll_rw_blk.c:145-155 | up to the next sleep: no such device, nothing to do, waiting for the lock, waiting for a slot, or queued |
| `RequestQueue.Disks.LockBuffer` | kernel/blk_drv/ll_rw_blk.c:105-109 | once the lock is had, a write of a clean or a read of a current buffer gives it back |
| `RequestQueue.Disks.UnlockBuffer` | kernel/blk_drv/ll_rw_blk.c:51-57 | the lock that this process has is given back, nothing is queued |
| `RequestQueue.Disks.TakeSlot` | kernel/blk_drv/ll_rw_blk.c:110-142 | with a slot the request is queued; without one a read-ahead gives up and the others sleep |
| `RequestQueue.Disks.EndRequest` | kernel/blk_drv/blk.h:109-125 | the head of the queue is done: its buffer is unlocked, up to date as reported, its slot free, the next is the head |
| `RequestQueue.Disks.Advance` | kernel/blk_drv/hd.c:251-268 | the driver's move of the head to its second sector leaves every queue order as it is |
| `RequestQueue.Disks.Step` | kernel/blk_drv/ll_rw_blk.c:88-155 | one event: a process, the disk or the buffer cache |
| `RequestQueue.Disks.Run` | kernel/blk_drv/ll_rw_blk.c:64-155 | over any run each queue is two ascending sweeps at most, and every request that waited at the start is served, if at all, within two sweeps |
| `WaitQueues.SleepKeeps` | kernel/sched.c:152-161 | sleeping on a queue puts the process in front of the chain of those that slept before |
| `WaitQueues.WakeKeeps` | kernel/sched.c:189-195 | waking the head hands it the whole chain and empties the queue |
| `WaitQueues.ResumeKeeps` | kernel/sched.c:162-166 | the process that resumes wakes the next one, which gets the rest of the chain |
| `WaitQueues.StepKeeps` | kernel/sched.c:152-195 | every step keeps the chains disjoint and without cycles |
| `WaitQueues.RunKeeps` | kernel/sched.c:152-195 | after any run the chain of a queue is exactly who slept on it since its last wake_up, the latest first |
| `WaitQueues.ResumeInOrder` | kernel/sched.c:163-165 | whatever else happens, those woken become runnable one behind the other |
| `WaitQueues.NoLostSleepers` | kernel/sched.c:152-195 | all that slept on a queue since its last wake_up are woken by the next one, in turn |
| `WaitQueues.OnePointer` | kernel/sched.c:152-195 | each sleeper is pointed to exactly once, by a queue head or a saved tmp; nobody else is |
| `WaitQueues.WaitLists.SleepOn` | kernel/sched.c:152-161 | sleep_on up to schedule, as a step of the specification; a null queue does nothing |
| `WaitQueues.WaitLists.WakeUp` | kernel/sched.c:189-195 | wake_up as a step of the specification |
| `WaitQueues.WaitLists.Resume` | kernel/sched.c:162-166 | the end of sleep_on as a step of the specification |
| `WaitQueues.WaitLists.Steps` | kernel/sched.c:152-195 | any run of these keeps the chains and ends in the state that the specification gives |
| `Timers.InsertIs` | kernel/sched.c:288-301 | add_timer's loop puts the timer where its own time is exactly what it asked for |
| `Timers.InsertLeft` | kernel/sched.c:292-301 | who is delayed by it and by how much: the timers due no sooner, by what the new one has left over |
| `Timers.NextKeeps` | kernel/sched.c:320-330 | every waiting timer has a positive delta, so at most one is called in a tick |
| `Timers.NeverEarly` | kernel/sched.c:273-304 | a timer is never called early, at most once, and on its tick if and only if no later call asks for no more ticks than it still has to wait |
| `Timers.StaysFired` | kernel/sched.c:322-329 | a timer that was called is not called again |
| `Timers.TwoAtOnce` | kernel/sched.c:292-301 | two timers set for the same tick end up five ticks apart |
| `Timers.TimerTable.Settle` | kernel/sched.c:292-301 | the swaps between slots amount to insertion in the list |
| `Timers.TimerTable.AddTimer` | kernel/sched.c:273-304 | add_timer as a step of the specification; without ticks the routine is called at once |
| `Timers.TimerTable.DoTimer` | kernel/sched.c:320-330 | a tick, with whatever timers the called routine adds; slots are in use exactly when linked |
| `Scheduling.BestIs` | kernel/sched.c:126-135 | the loop finds the greatest counter of a runnable process, and the last of those that have it |
| `Scheduling.ScheduledIs` | kernel/sched.c:125-142 | two passes are enough, the choice is runnable with the greatest counter, task 0 exactly when nothing else can run, and a refill happens only when all runnable counters are 0 |
| `Scheduling.NextKeeps` | kernel/sched.c:333-336 | counters stay natural and priorities positive over ticks, forks, nice, sleeps and wakings |
| `Scheduling.BoundedKeeps` | kernel/sched.c:137-140 | at fixed priority every counter stays below twice the priority, through halving and fork |
| `Scheduling.PatienceDrops` | kernel/sched.c:105-143 | while a process waits every user tick uses up the others' counters and only forks add to them |
| `Scheduling.NoRefillAhead` | kernel/sched.c:136-140 | a runnable process with ticks left keeps the counters from being refilled |
| `Scheduling.ChosenInTime` | kernel/sched.c:105-143 | a runnable process with ticks left is chosen within as many user ticks as all counters together and what forks add, before any refill |
| `Scheduling.NoStarvation` | kernel/sched.c:105-143 | any runnable process, ticks left or not, is chosen within twice all ticks, those from forks included, and 64 times the highest priority, whatever forks and nice calls there are |
| `Scheduling.NoStarvationFixed` | kernel/sched.c:105-143 | at fixed priorities up to m, within all ticks and 128*m + 2 |
| `Scheduling.NoGifts` | kernel/fork.c:94-94 | without forks no ticks are given away |
| `Scheduling.ForksStarve` | kernel/fork.c:94-94 | for every n there is a run of n user ticks, with a fork in each generation, in which a runnable process is never chosen |
| `Scheduling.Scheduler.Schedule` | kernel/sched.c:123-142 | schedule as a step of the specification |
| `Scheduling.Scheduler.DoTimer` | kernel/sched.c:333-336 | the counting part of do_timer, which reschedules only on a user tick that ends the counter |
| `Scheduling.Scheduler.SysNice` | kernel/sched.c:379-384 | the priority is lowered only while it stays positive |
| `Terminal.LineFeedOk` | kernel/chr_drv/console.c:204-212 | a line feed keeps the screen's shape, the column and the attribute |
| `Terminal.UpGrid` | kernel/chr_drv/console.c:107-168 | scrolling up moves the lines of the region, blanks the last and leaves the others |
| `Terminal.DownGrid` | kernel/chr_drv/console.c:170-202 | the same downwards |
| `Terminal.ShownOk` | kernel/chr_drv/console.c:445-605 | for every byte in every state the cursor stays on the screen (x may equal the column count) and the region stays sound |
| `VideoMemory.FastUp` | kernel/chr_drv/console.c:111-148 | moving the window on by one line, over a blanked line, shows what copying would show |
| `VideoMemory.WrapUp` | kernel/chr_drv/console.c:117-132 | so does copying back to the start of video memory at its end |
| `VideoMemory.PlainUp` | kernel/chr_drv/console.c:149-167 | what copying lines up shows |
| `VideoMemory.PlainDown` | kernel/chr_drv/console.c:170-202 | what copying lines down shows |
| `Console.PlainUpIs` | kernel/chr_drv/console.c:149-167 | the very counts and addresses of the copy amount to one line up and stay inside the window |
| `Console.WrapUpIs` | kernel/chr_drv/console.c:117-132 | the same for the copy to the start |
| `Console.PlainDownIs` | kernel/chr_drv/console.c:170-202 | the same for the copy that runs downwards |
| `Console.DisplayErased` | kernel/chr_drv/console.c:239-266 | the fills of the three modes erase below, above or all |
| `Console.LineErased` | kernel/chr_drv/console.c:268-297 | the fills of the three modes erase right of, left of or all of the line |
| `Console.InsertMoreChars` | kernel/chr_drv/console.c:391-399 | inserting one by one is inserting that many |
| `Console.DeleteMoreLines` | kernel/chr_drv/console.c:421-429 | deleting line by line is deleting that many |
| `Console.Screen.constructor` | kernel/chr_drv/console.c:675-682 | the window at the start of video memory shows what lies there |
| `Console.Screen.GotoXY` | kernel/chr_drv/console.c:88-95 | the cursor moves if and only if the place is on the screen, as unsigned words |
| `Console.Screen.ScrUp` | kernel/chr_drv/console.c:107-168 | every form of scrup scrolls the region up by a line, keeps pos in step and stores only inside the new window |
| `Console.Screen.ScrDown` | kernel/chr_drv/console.c:170-202 | scrdown scrolls the region down and stores only inside the window |
| `Console.Screen.Lf` | kernel/chr_drv/console.c:204-212 | down a line, or a scroll at the bottom of the region; stores stay in the window |
| `Console.Screen.Ri` | kernel/chr_drv/console.c:214-222 | up a line, or a scroll at its top; stores stay in the window |
| `Console.Screen.Del` | kernel/chr_drv/console.c:230-237 | back one column and blank it, but not beyond column 0; the store stays in the window |
| `Console.Screen.PutChar` | kernel/chr_drv/console.c:455-466 | a printing character goes where the cursor is, inside the window, wrapping at the right edge only when the next one comes |
| `Console.Screen.PutTab` | kernel/chr_drv/console.c:480-489 | to the next multiple of eight, wrapping beyond the last column |
| `Console.Screen.CsiEraseDisplay` | kernel/chr_drv/console.c:239-266 | erases what the mode says and stores only inside the window |
| `Console.Screen.CsiEraseLine` | kernel/chr_drv/console.c:268-297 | the same within the line |
| `Console.Screen.InsertChar` | kernel/chr_drv/console.c:336-348 | the rest of the line moves right, its last cell is lost |
| `Console.Screen.DeleteChar` | kernel/chr_drv/console.c:363-376 | the rest of the line moves left and a blank comes in |
| `Console.Screen.InsertLine` | kernel/chr_drv/console.c:350-361 | the lines from the cursor down move one down within the region's bottom |
| `Console.Screen.DeleteLine` | kernel/chr_drv/console.c:378-389 | they move one up, by the fast scroll where that applies |
| `Console.Screen.CsiInsertChars` | kernel/chr_drv/console.c:391-399 | repeated at most once per column, every store in the window |
| `Console.Screen.CsiDeleteLines` | kernel/chr_drv/console.c:421-429 | repeated at most once per line, every store in the window of its scroll |
| `Console.Screen.Csi` | kernel/chr_drv/console.c:525-601 | the final byte of a control sequence does what the terminal specification says and stores only in the window |
| `Console.Screen.WriteByte` | kernel/chr_drv/console.c:452-602 | one byte, in any state of the escape machine, does what the terminal specification says and stores only in the window |
| `Console.Screen.ConWrite` | kernel/chr_drv/console.c:445-605 | any output leaves the screen that the specification gives, whatever the display type and wherever the window lies; memory goes from its old to its new contents by stores each of which lies inside the window visible after it |
| `Console.BothShow` | kernel/chr_drv/console.c:107-168 | a fast and a plain display that show the same still do after the same output |
| `ExecArgs.OffsetNext` | fs/exec.c:104-152 | where string k lies in the text and that a zero follows it |
| `ExecArgs.StoredBytes` | fs/exec.c:134-146 | a byte stored through the page table is read at its address and nowhere else |
| `ExecArgs.CopiedOne` | fs/exec.c:132-147 | one more byte in front keeps what was copied |
| `ExecArgs.StaysInside` | fs/exec.c:125-140 | the unsigned test never refuses; all stores stay on the 32 pages if and only if the strings fit below p |
| `ExecArgs.Oversized` | fs/exec.c:125-140 | one argument of 131068 letters leads to page index 0xfffff |
| `ExecArgs.ArgPages.CopyString` | fs/exec.c:124-147 | one string with its zero, back to front over page borders; it stops only where memory is out or p has run below 0 |
| `ExecArgs.ArgPages.CopyStrings` | fs/exec.c:104-152 | all strings in order below p, or 0 without memory; a wild store happens only when they do not fit |
| `ExecArgs.ArgPages.CopyArgs` | fs/exec.c:261-317 | environment, arguments and the spliced-in strings of a script lie in order at the top of the image |
| `ExecArgs.ArgPages.ChangeLdt` | fs/exec.c:154-177 | every byte of the image arrives at the top of the data segment |
| `ExecArgs.CreateTables` | fs/exec.c:46-70 | argc, the two table addresses and both tables, each ended by 0, lie just below the strings, which stay; nothing else is stored to |
| `ExecArgs.ArgPages.Exec` | fs/exec.c:310-334 | strings that fit with a byte to spare and enough memory always arrive with their tables; failure gives back every page |
| `ExecArgs.ArgcRight` | fs/exec.c:261-280 | argc is right if and only if it is no script or there is an argument |
| `ExecArgs.EmptyArgv` | fs/exec.c:261-280 | a script without arguments: argc is 1 and the script's name stands where the environment should begin |
| `ExecArgs.RoundTrip` | fs/exec.c:46-70 | following the pointers gives back each argument and each environment string, in order, and both tables end with 0 |
| `Malloc.SlotsApart` | lib/malloc.c:159-164 | two objects of one page do not overlap |
| `Malloc.SlotFits` | lib/malloc.c:159-164 | an object lies within its page |
| `Malloc.TakeObject` | lib/malloc.c:168-170 | the first free object leaves the chain; refcnt plus free objects stays the page's number |
| `Malloc.GiveObject` | lib/malloc.c:205-207 | a live object goes back in front; the sum stays |
| `Malloc.Unlink` | lib/malloc.c:218-224 | a descriptor leaves its chain, all other lists intact |
| `Malloc.Link` | lib/malloc.c:165-166 | and comes into another one |
| `Malloc.AllFree` | lib/malloc.c:208-208 | refcnt 0 means that every object of the page is free |
| `Malloc.HasLive` | lib/malloc.c:208-208 | a positive refcnt means that one is live |
| `Malloc.LiveApart` | lib/malloc.c:117-173 | live objects, of the same or of different pages, do not overlap and lie each in one page |
| `Malloc.StoreKeeps` | lib/malloc.c:168-170 | a store into a live object cannot damage a free chain |
| `Malloc.Heap.InitBucketDesc` | lib/malloc.c:97-115 | a page of new descriptors joins the free ones; the others are as before |
| `Malloc.Heap.ObjectChain` | lib/malloc.c:159-164 | the chain through a new page holds each of its objects once |
| `Malloc.Heap.FindSize` | lib/malloc.c:127-129 | the smallest bucket size that is large enough |
| `Malloc.Heap.FindRoom` | lib/malloc.c:139-141 | a bucket with a free object, or none exactly when there is none |
| `Malloc.Heap.Malloc` | lib/malloc.c:117-173 | an object that nobody has, large enough and within one page; 0 if and only if the source panics; from a page with room if there is one, else from the next free frame; no live object loses its contents |
| `Malloc.Heap.FindPage` | lib/malloc.c:188-201 | the search finds the descriptor of the page and the one before it |
| `Malloc.Heap.FreeS` | lib/malloc.c:182-231 | exactly this object stops being live; its page goes back if and only if it was the last |
| `Malloc.Heap.Store` | lib/malloc.c:117-173 | the owner of an object may store into it |
| `HeapRuns.RoomIs` | lib/malloc.c:139-141 | whether a bucket has a free object can be told from the objects that are out |
| `HeapRuns.TakesIs` | lib/malloc.c:150-151 | there is a spare descriptor unless as many pages hold objects as there are descriptors |
| `HeapRuns.Allocate` | lib/malloc.c:117-173 | malloc panics exactly when no page of the size has room and too few frames are free; else it hands out an object of a page that has room, changing no memory, or the first of a new page |
| `HeapRuns.Deallocate` | lib/malloc.c:182-231 | with any size up to the object's own, or 0, exactly this object goes; its page goes back to the free frames if and only if no other object of it is out |
| `HeapRuns.Conserved` | lib/malloc.c:97-231 | one step keeps the number of frames: free, holding objects, or holding descriptors |
| `HeapRuns.FramesConserved` | lib/malloc.c:97-231 | so does any run |
| `HeapRuns.Step` | lib/malloc.c:117-231 | one malloc, free or store to any byte of an object, as the objects that are out show it |
| `HeapRuns.Run` | lib/malloc.c:97-231 | over any run objects never overlap, free frames hold none, what was stored in an object stays until it is stored over or freed, and each step is exactly the one that the objects, the free frames and the number of descriptors call for |
| `Directories.Match` | fs/namei.c:63-78 | for path names, equality of the names as stored in 14 bytes |
| `Directories.OneEntry` | fs/namei.c:91-163 | with unique names the entry found is the one there is |
| `Directories.LookupPut` | fs/namei.c:175-230 | a new entry changes the map at its name only |
| `Directories.LookupClear` | fs/namei.c:729-729 | clearing one removes its name only |
| `Directories.PutExact` | fs/namei.c:467-474 | entering a name keeps names unique if and only if it is absent then |
| `Directories.ClearExact` | fs/namei.c:729-732 | clearing an entry and decrementing the count of a file, if there is anything to take, keeps the counts right if and only if the entry names the file, or is vacant and the count was 0 |
| `Directories.RemoveExact` | fs/namei.c:669-676 | clearing an entry and taking a directory away keeps everything right if and only if the entry names it and it is empty |
| `Directories.LeftBack` | fs/inode.c:175-191 | iput cannot make wrong counts right |
| `Directories.EnterKeeps` | fs/namei.c:397-404 | one more name for a file keeps every count exact |
| `Directories.LinkExact` | fs/namei.c:792-792 | the byte i_nlinks stays right if and only if it was below 255 |
| `Directories.UnlinkKeeps` | fs/namei.c:724-732 | one name less, exact counts, and the count was positive |
| `Directories.MkdirKeeps` | fs/namei.c:530-551 | a new directory counts 2 and its parent one more, matching the entries "." and ".." |
| `Directories.EmptyRefs` | fs/namei.c:562-604 | an empty directory is named exactly by its parent's entry and its own "." |
| `Directories.RmdirKeeps` | fs/namei.c:667-676 | so its count is 2, and taking it away keeps all counts exact |
| `Directories.LeftKeeps` | fs/inode.c:150-192 | iput keeps the tree right and removes an inode exactly when nothing names or uses it |
| `Namei.FinishExact` | fs/namei.c:457-474 | the state after the second half of a call is right if and only if nobody entered the name during the sleep; if so the map changed at that name only, else two entries have it |
| `Namei.TwoCreates` | fs/namei.c:451-479 | two processes that create the same name both succeed and leave it twice |
| `Namei.UnnameExact` | fs/namei.c:718-737 | the state after unlink is right if and only if its entry still names the file, or is vacant and the file had no name left; the map then changes at that name only |
| `Namei.TwoUnlinks` | fs/namei.c:700-737 | two processes that unlink the same of two names both succeed; the file is gone and the other name still there |
| `Namei.RemoveIsExact` | fs/namei.c:669-679 | the state after rmdir is right if and only if its entry still names the directory, which is empty and used by nobody else |
| `Namei.RemovedInUse` | fs/namei.c:643-679 | a process that begins to make a file in a directory while another is in empty_dir is left with a directory that nothing names |
| `Namei.GotExact` | fs/inode.c:244-292 | after iget the state is right if and only if the inode was still there |
| `Namei.RefusedGood` | fs/namei.c:468-473 | a call that fails after its sleep leaves everything exact |
| `Namei.StepExact` | fs/namei.c:348-797 | every step leads to a right state if and only if it does not rely on what changed while its call slept: a name to be absent, an inode to be there, an entry to mean what it meant |
| `Namei.FileTree.FindEntry` | fs/namei.c:91-163 | an entry of that name (cut to 14 bytes; ".." at the root means "."), NULL if and only if there is none |
| `Namei.FileTree.AddEntry` | fs/namei.c:175-230 | the first vacant place gets the name; NULL exactly when it needs a block that is not to be had |
| `Namei.FileTree.IPut` | fs/inode.c:175-191 | one use less; without links and other uses the inode goes |
| `Namei.FileTree.Begin` | fs/namei.c:441-456 | refused with the source's error exactly in the source's cases, else asleep with directory and file held |
| `Namei.FileTree.Create` | fs/namei.c:457-479 | the name goes to the first vacant place, or everything is given back without room |
| `Namei.FileTree.GiveUp` | fs/namei.c:457-461 | without an inode the call fails and lets go of its directory |
| `Namei.FileTree.Link` | fs/namei.c:782-796 | the same for a further name |
| `Namei.FileTree.Mkdir` | fs/namei.c:508-556 | with room for its block and its entry: the same for a directory, with its two entries and the parent's count |
| `Namei.FileTree.Unlink` | fs/namei.c:690-705 | ENOENT if and only if the name is not there, else asleep in iget with the directory held |
| `Namei.FileTree.Rmdir` | fs/namei.c:616-631 | the same for rmdir |
| `Namei.FileTree.Open` | fs/namei.c:369-417 | what the map gives for the name; errors as in the source, else asleep in iget |
| `Namei.FileTree.IGet` | fs/inode.c:244-292 | the inode has one use more and the call goes on; an inode that has been freed meanwhile is where the model ends |
| `Namei.FileTree.Unname` | fs/namei.c:718-737 | a directory is refused; else the entry is cleared, whatever it names by now, and the file goes with its last name unless in use |
| `Namei.FileTree.Check` | fs/namei.c:643-660 | a directory in use and anything but a directory are refused, in the source's order |
| `Namei.FileTree.ScanBlock` | fs/namei.c:562-679 | one block of empty_dir; after the last one the entry is cleared and the directory goes |
| `Namei.FileTree.LooksEmpty` | fs/namei.c:583-601 | the loop within a block finds a live entry if and only if there is one |
| `Namei.FileTree.Run` | fs/namei.c:348-797 | over any run of any processes, cut at new_inode, iget and empty_dir, every count is exact and every directory a map, up to the first step that relies on what is no longer so |
| `Descriptors.CountsUpdate` | fs/fcntl.c:32-32 | one descriptor changing from a file to another moves exactly one from count to count |
| `Descriptors.AddSlot` | fs/fcntl.c:31-33 | a further descriptor with f_count one more keeps all counts exact |
| `Descriptors.ClearSlot` | fs/open.c:217-223 | a descriptor in use has a positive f_count; clearing it with the decrement keeps all counts exact |
| `Descriptors.GoneMore` | kernel/exit.c:114-116 | closing one after the other releases exactly the files that lose their last descriptor |
| `Descriptors.Dup2Is` | fs/fcntl.c:36-40 | closing and duplicating amount to dup2, in every case |
| `Descriptors.FilesDetermined` | include/linux/fs.h:116-122 | with the inodes unchanged, who refers to what says all about the file table |
| `Descriptors.FileTables.BeginOpen` | fs/open.c:147-171 | the lowest empty descriptor and the first free file, held while open_namei sleeps; refused exactly when one is missing; no other file changes |
| `Descriptors.FileTables.EndOpen` | fs/open.c:173-202 | a failed lookup or a refused terminal takes back both; else the file has its inode; no other file changes |
| `Descriptors.FileTables.SysClose` | fs/open.c:210-226 | the panic cannot happen; the inode goes if and only if this was the last descriptor of its file |
| `Descriptors.FileTables.DupFd` | fs/fcntl.c:18-34 | the lowest empty descriptor from arg on, for the same file, and no file's inode changes; each error exactly in its case |
| `Descriptors.FileTables.SysDup2` | fs/fcntl.c:36-40 | newfd is closed even when oldfd turns out to be bad or the same; files keep their inodes |
| `Descriptors.FileTables.BeginPipe` | fs/pipe.c:78-97 | the first two free files and the two lowest empty descriptors, held while get_pipe_inode sleeps; refused exactly when one is missing, and then nothing is kept |
| `Descriptors.FileTables.EndPipe` | fs/pipe.c:98-110 | both files get the inode and their two descriptors are returned, or without an inode all is given back |
| `Descriptors.FileTables.Fork` | kernel/fork.c:129-137 | the child shares every file, each counted once more; a fork that fails before leaves no trace |
| `Descriptors.FileTables.Exit` | kernel/exit.c:114-116 | all descriptors go, files keep their inodes, and exactly the inodes of files that had no others are released |
| `Descriptors.FileTables.Step` | fs/open.c:138-226 | one call of one process |
| `Descriptors.FileTables.Run` | fs/open.c:138-226 | at every moment of any run each f_count is the number of descriptors of the file; inodes change only where a file is opened, so the inode released with the last descriptor is the one it was opened with |
| `Pipe.TakePiece` | fs/pipe.c:24-36 | a piece read from the page is the front of the queue |
| `Pipe.PutPiece` | fs/pipe.c:54-66 | a piece written to the page is the new end of the queue |
| `Pipe.SizeAfter` | include/linux/fs.h:58-62 | the occupancy computed from head and tail is right modulo the page and at most 4095 |
| `Pipe.PipeInode.TakeBytes` | fs/pipe.c:24-36 | a positive number of bytes leaves the front of the queue |
| `Pipe.PipeInode.PutBytes` | fs/pipe.c:54-66 | a positive number of bytes joins its end, never filling the last place |
| `Pipe.PipeInode.RunReader` | fs/pipe.c:13-39 | up to its next sleep a reader takes what there is, up to count; it sleeps only on an empty pipe with a writer |
| `Pipe.PipeInode.RunWriter` | fs/pipe.c:41-69 | up to its next sleep a writer puts what there is room for; it sleeps only on a full pipe with a reader |
| `Pipe.PipeInode.SysRead` | fs/pipe.c:13-39 | read_pipe is called; nothing happens for a count of 0 or less |
| `Pipe.PipeInode.SysWrite` | fs/pipe.c:41-69 | write_pipe is called |
| `Pipe.PipeInode.Run` | fs/pipe.c:13-69 | over any interleaving the bytes read are a prefix of the bytes written, the rest is exactly what is in the ring, which never holds more than 4095 |
| `Format.DigitsValue` | kernel/vsprintf.c:62-66 | the digits evaluate to the number in every base |
| `Format.FieldLength` | kernel/vsprintf.c:40-92 | the length is the width, or sign, prefix and the greater of precision and digits |
| `Format.FieldValue` | kernel/vsprintf.c:40-92 | between sign, prefix and spaces stands a numeral of the magnitude, the most negative int included |
| `Format.LowFirst` | kernel/vsprintf.c:62-66 | the digits, lowest first, at most 32 of them: tmp[36] is large enough in every base |
| `Format.Number` | kernel/vsprintf.c:40-92 | the field, or nothing exactly for a base it cannot show |
| `Format.SkipAtoi` | kernel/vsprintf.c:18-25 | the value of the longest run of digits, and the place behind it |
| `Format.PrintAndRead` | kernel/vsprintf.c:18-92 | a non-negative number printed and read again is the same, in any surroundings |

## Left out

- MemoryManager.Mm.PageRead: the words read from disk are a parameter; clearing the tail of the last page of an executable is not modelled, nor is exec's own `put_page` of argument pages.
- MemoryManager.Mm.SharePage: the i_count of the executable is a parameter.
- MemoryManager.Mm.VerifiedWrite: a kernel store to an absent page is not given an effect, because `verify_area` promises nothing there (`PageSteps.VerifiedAbsentPageLeaks`).
- MemoryManager.Mm.Fork: segment descriptors, the task state segment and FPU state are left out; task 0 makes no user stores.
- FileBlocks.FileSystem.FreeBlock: no other process holds a buffer of the freed block (fs/bitmap.c:57-62 then refuses).
- FileData.Run: one writer at a time; reads and writes of blocks do not fail; the inode bitmap is left out.
- FileData.FileWrite: a position beyond the largest file, where `_bmap` panics, is excluded; `Run` refuses such operations explicitly.
- BufferCache.Cache.Rekey: the source stores through `b_next` even when it is NULL (fs/buffer.c:167); that one store is left out. In getblk the test at fs/buffer.c:243 matters only behind a sleep and is modelled there (`Cache.Resume`); without one nothing can have changed since the lookup. At least two buffers are assumed.
- BufferCache.Cache.Traffic: `sync_dev` and the disk are any change of the flags of any buffers.
- RequestQueue.Disks.EndRequest: every request has a buffer; paging requests without one, the floppy, and the ramdisk that completes at once are left out.
- WaitQueues.WaitLists.SleepOn: `interruptible_sleep_on` (kernel/sched.c:168-187) is left out; it can lose a sleeper.
- Timers.TimerTable.AddTimer: without a free slot the source panics; that is a precondition. Floppy timers are left out.
- Scheduling.Scheduler.Schedule: alarms and signals only appear as processes that become runnable; counters do not overflow.
- Console.Screen.ConWrite: hardware registers, the beep and the answer to ESC Z are left out. ESC 7 and ESC 8 test `x`, not `c` (kernel/chr_drv/console.c:505-508), and are modelled so. The number of columns is even and at least 8.
- ExecArgs.ArgPages.Exec: parsing the `#!` line, permissions, signals and loading the program are left out; the strings are given.
- Malloc.Heap.Malloc: interrupts between the halves of the routines (the chain check in lib/malloc.c:213-217 for a re-entered `free_s`) are left out; where the source panics a run goes on with what is left.
- Malloc.Heap.FreeS: an address that is not a live object is excluded; the source panics or corrupts its chains.
- Namei.FileTree.Create: a call is cut at the sleep in `new_inode` (for link, between the search and the entry); the reads of directory blocks inside `find_entry` and `add_entry` are not cut again.
- Namei.FileTree.IGet: what becomes of an inode that iget reads from the disk after it has been freed is not followed; such a step counts as broken.
- Namei.FileTree.Mkdir: room for the new directory's block and for its entry is assumed; without the latter the source frees the block twice (fs/namei.c:541-547).
- Namei.FileTree.Open: `O_TRUNC` is `FileBlocks.FileSystem.Truncate`; permissions, path walk, mount points and time stamps are left out.
- Descriptors.FileTables.EndOpen: flags, `f_pos`, `close_on_exec` and the other `fcntl` commands are left out.
- Pipe.PipeInode.RunWriter: the signal SIGPIPE is left out; copying bytes does not sleep.
- I/O errors, machine code, device drivers, the terminal line discipline, swapping, TLB and segment registers are not modelled.
