# Proofs about an xv6 kernel with kernel threads

The repository is the xv6 teaching kernel extended with kernel threads, kernel mutexes and a
tournament-tree lock. This project models eight of its parts in Dafny and proves what they are for.
`dafny verify dfyconfig.toml` checks everything.

* **Write-ahead log** (`Log*.dfy`). `LogSystem` is a step system: threads in begin_op, log_write and
  end_op, a committing thread, recovery, cache loads and evictions, and a crash between any two steps.
  `LogRuns` proves one commit per operation and the space reservation over every run on any geometry and
  disk, and atomicity, durability, recovery and a coherent cache over every run in which write_log does not
  write past the log area. `LogRace`, `LogSpill` and `LogOverflow` show on which disks that is every run.
  `LogProgress` shows that an unhindered commit ends and that an operation alone gets its blocks home.
  `LogCode` is log.c as one thread executes it, each block write shown to be a step of the system.
* **Buffer cache** (`LruRing`, `Buffer*.dfy`). bio.c over the memory disk of memide.c. Whatever threads do,
  every action that is ready happens, reads and writes are a history of one plain disk, and a buffer is taken
  over in the order of last use (`BufferLru`).
* **Kernel mutex and tournament tree** (`KMutex*.dfy`, `TreePaths`, `Tournament*.dfy`). One step per
  shared-memory access of kthread_mutex_lock and kthread_mutex_unlock, any number of threads, any depth.
  Safety over every interleaving; exactly when a call is refused; and, in `KMutexAlone` and `TournamentAlone`,
  what a call that nobody interrupts does, in how many steps.
* **Inode contents** (`FsBlocks`, `Powers`, `Inode*.dfy`). balloc, bfree, bmap, itrunc, readi and writei. Files
  behave as an array of byte sequences; blocks have one owner each; a write panics exactly when it lacks
  more blocks than are free. `InodeHistory` says the same in terms of requests and replies only.
* **Page tables and frames** (`PagingSpec`, `PagingProofs`, `Vm*.dfy`). vm.c and kalloc.c in place on
  physical memory. Address spaces behave as finite maps; a request is refused exactly when it needs more
  frames than are free, and no frame is lost on any path.
* **User heap** (`Heap*.dfy`). malloc, free and morecore of umalloc.c, with 32-bit sizes and sbrk as
  growproc serves it. Live blocks keep what the program stored in them, and malloc refuses exactly when no
  free block is large enough and sbrk gives no more.
* **Pipe** (`Pipe*.dfy`). pipewrite, piperead and pipeclose with sleep and wakeup, stepped at every lock
  operation. First in, first out across wrap-around; what each call returns and why (`PipeReturns`,
  `PipeAlone`); and exactly when a wakeup is lost.
* **Shell parser** (`Shell*.dfy`). Tokens, grammar and printer as functions; gettoken, peek, the
  recursive descent and nulterminate as methods that agree with them. `ShellLexing` and `ShellSyntax` describe
  command lines from the writer's side, with any spacing, any order of words and redirections, > and >>, and
  any parentheses: the parser accepts exactly those and builds what they mean.

Each part has a specification on plain values, small lemmas per step, and a theorem or a driver method
over whole runs (`RunInv`, `ServeAll`, `Play`, `DoAll`). A ghost owner map (block or frame to the one
slot that refers to it) carries the no-aliasing arguments. `hide` statements at the head of a proof keep
definitions it does not need out of the way.

## Where a promise fails, and exactly when it holds

* begin_op reserves slots out of LOGSIZE, log_write panics at `log.size - 1` entries (log.c:218). On a disk with
  LOGSIZE home blocks beside the log, no operation within its reservation panics if and only if
  `log.size > LOGSIZE` (`LogOverflow.PanicIff`); no race is needed.
* log_write makes that test before it takes log.lock (log.c:218-223), so two threads can pass it for one free
  slot. The list stays inside the log area on every run if and only if `log.size > LOGSIZE`, or the log is a
  header alone (`LogOverflow.OverflowIff`).
* write_log then writes its last block to the home block after the log, before the header: the disk no longer
  recovers (`LogSafety.SpillBreaks`, as a run `LogSpill.RaceBreaks`). Commits are atomic on every run if and
  only if `log.size > LOGSIZE`, or the log is a header alone, or the disk ends with the log
  (`LogOverflow.AtomicIff`). mkfs.c:25 makes `log.size == LOGSIZE`, so all three promises fail on its image
  (`LogOverflow.ShippedImage`).
* pipewrite returns -1 from a full pipe whose read end is closed, or because its process was killed, without
  waking readers (pipe.c:85-89). A reader asleep inside piperead then stays asleep on a full pipe: after
  another thread of its process closes the read end (`PipeStranded.StrandedByClose`, no kill), and after the
  writer is killed (`PipeStranded.StrandedByKill`, both ends open throughout). On any run of any number of
  threads, kills included, every sleeper has its reason at every moment if and only if no step of the run is
  such a return while a reader sleeps (`PipeWakeup.WakeupIff`, and `PipeWakeup.StrandedIff` for the moments
  at which the lock is free). Killing nobody and keeping the read end open while somebody reads is
  enough (`PipeDiscipline.TidyNeverDrops`).
* malloc rounds its argument up in 32 bits: the block holds the bytes asked for if and only if
  `nbytes + 7 < 2^32` (`HeapRuns.AdequateIff`); a request of 2^32 - 1 bytes is answered with a bare header
  (`HeapRuns.WrappedRequest`). sbrk takes an int: when it succeeds, the break has moved over the units handed
  to free if and only if there are fewer than 2^28 (`HeapRuns.GrantIff`, failing input
  `HeapRuns.GrantFails`). So malloc treats units at and past the break as obtained if and only if the request
  comes to 2^28 units or more and does not shrink the process to nothing (`HeapCode.Heap.Malloc`, outcome
  `over`).

## Model

| member | source | states |
|---|---|---|
| LogRuns.CrashAtomicity | log.c:69-202 | in every run with crashes and panics anywhere, recovery included, as long as write_log has not written past the log area, the disk recovers to the initial disk with the committed transactions applied in order, and while operations run the home blocks are exactly that; on any valid geometry |
| LogRuns.Durable | log.c:69-202 | however such a run goes on after a commit, crashes included, the disk recovers to what was committed then with the later transactions applied on top; a home block none of those touches recovers with its committed contents |
| LogRuns.RecoveryCompletes | log.c:115-122 | after a crash in any state such a run reaches, recovery finishes in one step per logged block plus two and leaves the committed transactions and nothing else |
| LogProgress.CommitCompletes | log.c:177-202 | a commit whose list fits the log and whose buffers nobody holds ends in two steps per block and three more: the transaction is committed and home, the log is empty |
| LogProgress.OperationCommits | log.c:125-233 | an operation that runs alone on an idle log, with any writes within its reservation and the log, leaves exactly those writes on the home blocks, the last one of each block winning, in one transaction, without a panic |
| LogRuns.OneCommitPerOp | log.c:125-202 | on every geometry, disk and run, the log_writes of one operation are never spread over two commits |
| LogRuns.OperationsAndSpace | log.c:125-233 | on every geometry, disk and run: no operation is active while committing; lh.n plus all unused reservations stays within LOGSIZE; nobody sleeps in begin_op on an idle log |
| LogRuns.IdleEmpty | log.c:145-174 | on every geometry, disk and run, an idle log is empty |
| LogRuns.CacheCoherent | log.c:213-233 | as long as write_log has not written past the log area: a clean buffer nobody is changing equals its disk block, and bread returns the last contents logged, committed or not |
| LogRuns.NoPanic | log.c:104-233 | with log.size > LOGSIZE, from an invariant state no step reaches a panic of these paths |
| LogRuns.RunInv | log.c:54-233 | every schedule of threads, evictions and crashes keeps the invariant as long as write_log has not written past the log area |
| LogRuns.RunOps | log.c:125-233 | phases, reservations, grouping and sleepers are in order in every state reachable on any geometry and disk |
| LogRuns.RoomyStays | log.c:126-143 | with log.size > LOGSIZE the list stays in the log area on every run, so write_log never writes past it |
| LogSafety.CommitPointSafe | log.c:192-202 | the header write is the commit point: before it the disk recovers to the old contents, after it to the new |
| LogSafety.WriteLogSafe | log.c:177-190 | copying a block into the log area changes nothing that recovery would see |
| LogSafety.SpillBreaks | log.c:177-190 | write_log past the log area overwrites the home block after it; unless the contents happen to be equal the disk no longer recovers |
| LogSafety.PastEndSafe | log.c:177-190 | at the end of the disk it halts instead, and nothing is lost |
| LogSafety.InstallSafe | log.c:69-82 | installing one block, dirty buffers included, keeps what recovery would produce |
| LogSafety.RecoverInstallSafe | log.c:69-122 | the same for an install during recovery, which may itself be cut short |
| LogSafety.AppendSafe | log.c:213-233 | log_write under the lock keeps the list free of duplicates and the logged contents pinned in the cache |
| LogOverflow.OverflowIff | log.c:213-233 | with at most MAXOPBLOCKS log_writes per operation and enough home blocks, the list stays inside the log area on all runs exactly when log.size > LOGSIZE or log.size == 1 |
| LogOverflow.PanicIff | log.c:218-221 | under the same conditions no run panics exactly when log.size > LOGSIZE |
| LogOverflow.AtomicIff | log.c:177-202 | under the same conditions every run is atomic exactly when log.size > LOGSIZE, or log.size == 1, or the disk ends with the log |
| LogOverflow.ShippedImage | mkfs.c:21-101 | on the geometry mkfs builds none of the three holds |
| LogRace.RaceOverflows | log.c:218-223 | two log_writes pass the unlocked test for the last slot and both append |
| LogSpill.RaceBreaks | log.c:177-223 | the run from there to a disk that does not recover, for every log of 2 to LOGSIZE blocks with a block after it |
| LogSpec.HeaderRoundTrip | log.c:85-113 | read_head of what write_head wrote gives back the list |
| LogCode.Log.WriteHead | log.c:101-113 | the header block holds the list, the rest of it is kept, and exactly one block is written |
| LogCode.Log.ReadHead | log.c:85-96 | the in-memory list equals the one in the header block |
| LogCode.Log.WriteLog | log.c:177-190 | with the list inside the log area: one block write per entry, none of which changes what recovery would produce |
| LogCode.Log.InstallTrans | log.c:69-82 | one block write per entry; stopped after any of them the disk recovers to the same contents |
| LogCode.Log.Commit | log.c:192-202 | with the list inside the log area: every disk state on the way recovers either to the old or to the new contents, the new ones once the header is written, and at the end the log is empty |
| LogCode.Log.RecoverFromLog | log.c:115-122 | every disk state on the way recovers to the same contents, and at the end they are home and the log is empty |
| LogCode.Log.LogWrite | log.c:213-233 | absorbs a repeated block, appends a new one, pins the buffer, and refuses exactly when the source panics, for want of log.size or of LOGSIZE; alone it never outgrows the log area |
| BufferCache.Cache.constructor | bio.c:38-56 | binit links all buffers once into the ring |
| BufferCache.Cache.LinkFront | bio.c:50-54 | inserting after the head puts the buffer in front of the ring |
| BufferCache.Cache.FindCached | bio.c:69-76 | finds the buffer of the block if and only if there is one |
| BufferCache.Cache.FindVictim | bio.c:81-91 | finds an unreferenced clean buffer, scanning from the least recently used end, unless there is none |
| BufferCache.Cache.Bget | bio.c:61-93 | the caller gets a reference to the only buffer of the block, found or taken over from an unreferenced clean one; no other buffer changes; failure means every buffer is in use |
| BufferCache.Cache.Bread | bio.c:96-106 | the locked buffer holds the last contents any client logged or wrote |
| BufferCache.Cache.LogWrite | log.c:213-233 | B_DIRTY pins the buffer and its contents become the block's contents |
| BufferCache.Cache.Bwrite | bio.c:109-116 | the block reaches the disk and the buffer is clean again |
| BufferCache.Cache.Iderw | memide.c:38-60 | writes a dirty buffer to its disk block, or reads the block into it |
| BufferCache.Cache.ReleaseSleep | bio.c:120-126 | only the sleep lock is given up |
| BufferCache.Cache.DropReference | bio.c:128-141 | the count drops by exactly one and the buffer moves to the front if and only if nobody references it any more; the ring keeps all buffers |
| BufferCache.Recycle | bio.c:81-91 | reusing an unreferenced clean buffer loses nothing |
| LruRing.InsertFront | bio.c:50-54 | the four stores of the insertion give the ring with the new buffer in front, next and prev still inverse |
| LruRing.Unlink | bio.c:132-133 | the two stores of the removal give the ring without the buffer |
| BufferRuns.Play | bio.c:38-141 | for every schedule there is one outcome per action: an action that is ready has its full effect, one that is not changes nothing, a read sees the plain disk's block, and the reads and writes that happened are a history of one plain disk |
| BufferRuns.Perform | bio.c:61-141 | what one action answers and does to buffers, users, disk and plain disk; it is left undone exactly when its thread must wait or the protocol forbids it |
| BufferRuns.CacheAgrees | bio.c:61-141 | at most one buffer per block, and every valid clean unreferenced buffer equals its disk block |
| BufferLru.RingOrder | bio.c:128-141 | on every run the buffers stand in the ring in the order in which their last users left them, the latest first |
| BufferLru.VictimIsOldest | bio.c:81-91 | on every run, of the unreferenced clean buffers bget takes over one whose last user left no later than that of any other |
| KMutex.RunInv | proc.c:863-925 | every interleaving of lock, unlock, sleep and wakeup keeps the invariant of the mutex fields |
| KMutex.MutexConsistent | proc.c:863-925 | whenever mutexLock is free: lock is 1 iff state is CLOSE iff holding is set, and holding is the one thread that locked and has not unlocked |
| KMutex.Holder | proc.c:876-881 | the unlocked read of holding already tells the reader the truth about itself |
| KMutex.AdvanceEffect | proc.c:863-925 | a lock returns 0 and adds the mutex to the caller's, or -1 because the caller has it; an unlock returns 0 and removes it, or -1 because the caller has not; others only ever get woken |
| KMutexAlone.LockAlone | proc.c:863-889 | with the spinlocks free, an open mutex is locked in eight steps: 0 is returned, the caller holds it, nothing else changes |
| KMutexAlone.LockRefused | proc.c:876-879 | a mutex the caller holds is refused with -1 in two steps and nothing changes |
| KMutexAlone.LockSleeps | proc.c:876-884 | a mutex another thread holds puts the caller to sleep in six steps, with every spinlock free again |
| KMutexAlone.WokenLocks | proc.c:882-889 | a woken thread that finds the mutex open has it in five steps |
| KMutexAlone.UnlockAlone | proc.c:892-925 | the holder opens the mutex in nine steps, 0 is returned and the sleeper found is made runnable |
| KMutexAlone.UnlockRefused | proc.c:907-912 | anyone else is refused with -1 in five steps and nothing changes |
| TreePaths.PowOrDepth | tournament_tree.c:7-15 | powordepth is the power of two |
| TreePaths.AncFacts | tournament_tree.c:113-121 | the climb meets inner nodes only, in strictly decreasing index, and ends at the root after depth steps |
| Tournament.RunInv | tournament_tree.c:102-150 | every interleaving over any tree keeps the invariant of positions, held nodes and threadMap |
| TournamentSafety.MutualExclusion | tournament_tree.c:102-150 | at most one thread is between a successful acquire and the start of its release |
| TournamentAlone.AcquireTest | tournament_tree.c:107-112 | in every reachable state an acquire that has tree->Lock is refused exactly when some thread is registered under the ID; otherwise it is registered |
| TournamentAlone.ReleaseTest | tournament_tree.c:137-142 | in every reachable state a release that has tree->Lock is refused exactly when the caller is not registered under the ID |
| TournamentAlone.FreshAcquire | tournament_tree.c:102-122 | on a fresh tree of any depth any thread running alone is inside under any ID after 20 + 9 * depth steps, with its whole path |
| TournamentAlone.AcquireAlone | tournament_tree.c:102-122 | the same from any state in which the ID, tree->Lock and the path are free; no other thread or registration changes |
| TournamentAlone.RefusedAlone | tournament_tree.c:107-112 | with the ID taken the caller is outside again after 20 steps and nothing else has changed |
| TournamentAlone.ReleaseAlone | tournament_tree.c:125-150 | a thread inside, running alone, is outside after 20 + 10 * depth steps, with its ID, its path and tree->Lock free |
| TournamentAlone.AcquireRelease | tournament_tree.c:102-150 | acquire and release one after the other restore every registration and leave the path open |
| TournamentSafety.ReleaseSucceeds | tournament_tree.c:125-150 | a release by the registered thread passes the threadMap test, never fails to unlock a node, and ends holding no node |
| TournamentSafety.ContiguousChains | tournament_tree.c:113-134 | at every step, also midway through the root-first release, the nodes a thread holds are one contiguous chain from its leaf's father |
| TournamentSafety.AtMostTwo | tournament_tree.c:115-121 | no node is ever held or waited for by three threads |
| TournamentSafety.WaitsRank | tournament_tree.c:107-149 | a thread only waits for one of lower rank: nodes in decreasing index, then tree->Lock, then spinlocks |
| TournamentSafety.NoDeadlock | tournament_tree.c:107-149 | the waits-for relation has no cycle in any reachable state |
| TournamentSafety.ChainEnds | tournament_tree.c:107-149 | every chain of waiting threads ends at one that waits for nobody: outside the mutex code, asleep on a mutex nobody has, or unhindered in its next step |
| TournamentSafety.UnhinderedMoves | proc.c:863-925 | an unhindered thread inside the mutex code that is not asleep moves on in its next step, whatever sleeper it picks to wake |
| TournamentCode.NodeMutexes.Climb | tournament_tree.c:113-121 | takes the path from the leaf side up as far as the first node another thread has, and sleeps exactly there; nodes it has already are passed, and no other node changes |
| TournamentCode.OpenPath | tournament_tree.c:115-121 | on an open path the climb locks every node, in order from the leaf side to the root |
| TournamentCode.NodeMutexes.ReleaseRec | tournament_tree.c:125-134 | unlocks exactly the nodes above the position, the root first |
| InodeCode.FileSystem.Balloc | fs.c:56-78 | the lowest-numbered free block, marked and zeroed; or every block is in use |
| InodeCode.FileSystem.Bfree | fs.c:81-96 | the block is free, every other block is in use or free as before, and no data block changes |
| InodeCode.FileSystem.Bmap | fs.c:373-401 | the block's address, in the direct entry or the entry of the indirect block that is its own, allocated and zeroed at need with the indirect block; nothing else is lost, moved, rewritten or taken; failure only when the disk is full before all of that is there |
| InodeCode.FileSystem.Readi | fs.c:453-477 | -1 exactly on a bad range; otherwise the requested slice clipped to the size; nothing changes |
| InodeCode.FileSystem.Writei | fs.c:482-512 | -1 exactly on a bad range; a panic exactly when fewer blocks are free than the range lacks, the indirect block included; otherwise exactly [off, off+n) is replaced, the size is extended to the maximum, exactly the lacking blocks are taken, and no other file changes |
| InodeCode.FileSystem.Itrunc | fs.c:408-436 | frees exactly the inode's blocks; every bfree on the way finds its bit set; other files keep their bytes |
| InodeProofs.LinkDirect | fs.c:379-382 | giving a free block to a direct slot keeps one owner per block and the bitmap exact |
| InodeProofs.LinkIndirect | fs.c:390-395 | the same for an entry of the indirect block |
| InodeProofs.UnlinkDirect | fs.c:415-420 | freeing a direct block keeps them too |
| InodeProofs.UnlinkIndirect | fs.c:422-433 | freeing the indirect block after its entries keeps them too |
| InodeProofs.WritePiece | fs.c:500-505 | one block-sized piece of writei is the corresponding piece of the byte sequence |
| InodeProofs.WriteAtTwice | fs.c:500-505 | writing two adjacent pieces is writing their concatenation |
| FsBlocks.WordRoundTrip | fs.c:391-394 | an indirect entry read back is the one stored, and others are kept |
| FsBlocks.BlockBitSet | fs.c:56-96 | setting or clearing one bit of a bitmap block changes that bit only |
| InodeSpace.SpentShort | fs.c:56-78 | when balloc fails within a write, fewer blocks were free before it than the whole write lacked |
| InodeSpace.SpentAll | fs.c:500-505 | a write that went through had enough blocks and took exactly those it lacked |
| InodeSpace.GivenBack | fs.c:408-436 | itrunc gives back exactly the file's blocks, its indirect block included |
| InodeRuns.ServeAll | fs.c:453-512 | any sequence of reads, writes and truncations is answered as plain byte sequences would answer it, up to the first write that lacks more blocks than are free, and exactly to there; at every stage the blocks are in order, and each request takes or gives back exactly its blocks |
| InodeHistory.LastWriteWins | fs.c:453-512 | after any requests, each byte of a file is the one put there by the last write that succeeded since the last truncation |
| InodeHistory.ReadsRemember | fs.c:453-477 | a read that is served returns exactly those bytes, as many as asked for or up to the first byte never written |
| VmCode.Machine.constructor | kalloc.c:46-53 | freerange gives every managed frame to the allocator once |
| VmCode.Machine.Kfree | kalloc.c:59-77 | the frame heads the free list and is filled with ones |
| VmCode.Machine.Kalloc | kalloc.c:82-95 | the most recently freed frame, or 0 exactly when none is free; every managed frame stays free or owned once |
| VmCode.Machine.Walkpgdir | vm.c:34-53 | the page's table, made and zeroed on request under a directory entry that grants every permission; no lookup in any address space changes |
| VmCode.Machine.Mappages | vm.c:58-77 | pages up to the first that lacks a frame for its table, all of them on success, are mapped to consecutive frames with the given flags; user pages take over the caller's frames with their contents, the rest of the range stays unmapped, and every other page of every address space keeps its entry; each frame taken is a table of the range, and failure means none is free |
| VmLemmas.MapNext | vm.c:64-75 | one more page keeps all that, for user and kernel pages |
| VmLemmas.TooFewTables | vm.c:103-133 | when mappages runs out of frames in a row of kmap, fewer tables than the kernel needs have been made |
| VmCode.Machine.Deallocuvm | vm.c:248-271 | exactly the user pages of the range go away despite the skip over absent tables, and exactly their frames become free; a range that runs into the kernel half panics at frame 0 |
| VmCode.Machine.Allocuvm | vm.c:215-242 | on success the missing pages are there, zeroed and user-writable, on frames not in use before; on failure none is and nothing owned is lost; it fails exactly when fewer frames are free than the pages plus their missing tables |
| VmLemmas.Short | vm.c:226-239 | when kalloc has no frame for a page, or mappages none for its table, fewer frames were free than the whole range needs |
| VmCode.Machine.Freevm | vm.c:275-289 | exactly the address space's pages, tables and directory are given back, each once; others keep everything |
| VmCode.Machine.Setupkvm | vm.c:103-133 | KERNBASE + pa mapped to pa for all memory below PHYSTOP, read-only exactly from EXTMEM to the kernel's data, devices mapped to themselves, nothing for the user and nothing else, with exactly the tables for that, and an empty user half; or, exactly when fewer than the 65 frames it needs are free, 0 and every frame given back |
| VmCode.Machine.Copyuvm | vm.c:305-334 | the same contents and flags on frames disjoint from all in use, and the same kernel half as setupkvm's; or, exactly when fewer frames are free than the directory, the kernel's tables, the pages and their tables need, 0 and every frame given back |
| PagingProofs.MapUserStep | vm.c:66-74 | storing a user entry hands the held frame to exactly that page |
| PagingProofs.UnmapFree | vm.c:260-268 | kfree then clearing the entry frees the page's frame and nothing else |
| PagingProofs.Dismantle | vm.c:275-289 | with its user pages gone, an address space's tables and directory can be freed in any order |
| PagingProofs.FreedNew | vm.c:115-133 | freeing an address space built from nothing gives back exactly what was taken |
| VmLemmas.RegionMapped | vm.c:103-133 | after k rows of kmap every kernel page has the entry of its row |
| PagingSpec.KernelMap | vm.c:103-112 | the four rows of kmap give every page from USERPAGES on the frame and the permissions it should have, and none to the rest |
| VmRuns.GrowShows | vm.c:215-242 | a grown address space reads as its map plus zero pages |
| VmRuns.ShrinkShows | vm.c:248-271 | a shrunk one reads as its map cut off |
| VmRuns.CopyShows | vm.c:305-334 | a copy reads as the same map |
| VmRuns.AddressesShown | vm.c:215-271 | in an address space of sz bytes every address below sz is on a present page, and no user page from sz on is present |
| VmRuns.ServeAll | vm.c:115-334 | from boot, through any sequence of create, grow, shrink, copy, free and user stores, at every stage every address space reads as its map, the frame accounts are in order and no frame is in nobody's hands; each request is refused exactly when it needs more frames than are free; with every space freed all frames are free |
| VmRuns.NoneLost | kalloc.c:59-95 | with no address space and nothing in the code's hands, every managed frame is back with the allocator |
| HeapCode.SlotTest | umalloc.c:30-32 | the two tests of free's loop together recognise the insertion gap and nothing else |
| HeapCode.Heap.FindSlot | umalloc.c:30-32 | free's scan finds the highest list element below the block, within one lap |
| HeapCode.Heap.Free | umalloc.c:24-44 | the block leaves the live set; the list stays circular, ascending and without touching blocks; other live blocks keep everything stored in them; the units are in the block at freep or the next |
| HeapCode.Heap.Sbrk | sysproc.c:40-51 | in spite of 32-bit arithmetic: the old break, with the break moved by exactly n, below KERNBASE, when n grows or shrinks the process and leaves it something; -1 and no change when growing is refused or nothing would be left; no change for a shrink by more than there is |
| HeapCode.Heap.Morecore | umalloc.c:46-61 | at least 4096 units more, coalesced into the list; 0 exactly when sbrk refuses; `over` exactly when sbrk agreed to a request it cannot express |
| HeapCode.Heap.FindFit | umalloc.c:70-89 | the search ends; morecore is called at most once, only when no free block fits, also when the new memory merges into the block at freep |
| HeapCode.Heap.Carve | umalloc.c:75-85 | an exact block is unlinked, a larger one gives its tail; no other live block is touched |
| HeapCode.Heap.Malloc | umalloc.c:63-90 | a block of the rounded size, disjoint from all live ones, or 0 exactly when none fits and sbrk refuses; sbrk is called only when no free block fits, once at most; `over` exactly for requests of 2^28 units or more, apart from the one size that empties the process |
| HeapCode.AskedIff | umalloc.c:54 | sbrk is asked for the units wanted if and only if they are fewer than 2^28 |
| HeapCode.AskedOver | umalloc.c:54 | from 2^28 units on sbrk never grows the process, and it fails only where it would empty it |
| HeapProofs.UpStep | umalloc.c:33-37 | joining the block above keeps the accounts and leaves a gap above |
| HeapProofs.DownStep | umalloc.c:38-40 | joining the block below keeps the accounts |
| HeapProofs.KeepStep | umalloc.c:41-42 | linking in a block that touches neither neighbour keeps the accounts |
| HeapProofs.TakeTail | umalloc.c:78-82 | splitting off a tail keeps the accounts |
| HeapProofs.TakeWhole | umalloc.c:76-77 | unlinking a whole block keeps the accounts |
| HeapSpec.UnitsConserved | umalloc.c:24-90 | sizes of free and live blocks add up to the units obtained from sbrk |
| HeapRuns.AdequateIff | umalloc.c:69 | the block has room for nbytes if and only if the rounding does not wrap, and never a whole unit more |
| HeapRuns.WrappedRequest | umalloc.c:69 | a request of 2^32 - 1 bytes comes to one unit, the header alone |
| HeapRuns.GrantIff | umalloc.c:54-59 | when sbrk succeeds the break covers the units handed to free if and only if they are fewer than 2^28 |
| HeapRuns.GrantFails | umalloc.c:54-59 | for 2^28 units sbrk reports success and the break has not moved |
| HeapRuns.DoAll | umalloc.c:24-90 | through any sequence of malloc, free, sbrk and stores, at every stage each live block reads what was last stored in it and all units are accounted for; malloc gives 0 exactly when no free block is large enough and sbrk refuses, and takes memory from sbrk exactly when no free block is large enough and it does not |
| PipeFifo.Tests | pipe.c:85-114 | the two counter comparisons tell empty and full apart, wrapped or not |
| PipeFifo.StepRing | pipe.c:59-121 | every step of every thread keeps the ring equal to the bytes stored and not delivered |
| PipeFifo.Fifo | pipe.c:59-121 | in every interleaving, bytes delivered followed by bytes buffered are the bytes stored, in order |
| PipeWrites.WriteIsWhole | pipe.c:78-98 | a pipewrite that returns n has put exactly its n bytes into the stream, in order, interleaved only with other writers' bytes |
| PipeReads.ReadIsASlice | pipe.c:100-121 | what one piperead returns is a run of consecutive bytes of the stream |
| PipeReturns.WriteReturns | pipe.c:78-98 | in every run, kills included, a pipewrite returns n exactly when it has stored its n bytes; otherwise -1, from a full pipe whose read end is closed or because it is killed |
| PipeReturns.ReadReturns | pipe.c:100-121 | in every run, kills included, a piperead returns all it was asked for or empties the pipe; 0 for a request of some only at the end of the stream; -1 only when killed at an empty pipe with its write end open |
| PipeReturns.CloseReturns | pipe.c:59-76 | in every run a pipeclose returns with its end closed |
| PipeAlone.WriteAlone | pipe.c:78-98 | a pipewrite with room for its n bytes appends them to the stream and returns n, in n + 4 steps |
| PipeAlone.ReadAlone | pipe.c:100-121 | a piperead that need not wait takes the next bytes of the stream, as many as asked for and there, and returns their number m, in m + 5 steps |
| PipeAlone.CloseAlone | pipe.c:59-76 | a pipeclose closes its end and frees the pipe exactly when the other end is closed too, in four steps |
| PipeWakeup.StepInv | pipe.c:59-121 | a step that ends a sleeper's reason to sleep is followed by its wakeup before the lock is released, unless pipewrite gives up on a full pipe while a reader sleeps |
| PipeWakeup.NoLostWakeup | proc.c:589-658 | on a run, kills included, in which no pipewrite gives up on a full pipe while a reader sleeps: with the lock free, no reader sleeps on a non-empty or write-closed pipe and no writer on a non-full or read-closed one |
| PipeWakeup.OneAtATime | pipe.c:59-121 | on every run, kills included, no two threads hold the pipe's lock |
| PipeWakeup.WakeupIff | pipe.c:59-121 | on any run of any number of threads, kills included: every sleeper has a reason to sleep, or the lock's holder is about to wake it, at every moment if and only if no pipewrite gives up on a full pipe while a reader sleeps |
| PipeWakeup.StrandedIff | pipe.c:59-121 | the same exact condition for nobody being asleep without reason whenever the lock is free, now or after one more step |
| PipeStranded.StrandedByClose | pipe.c:84-89 | a run without kills after which a reader sleeps on a full pipe with the lock free |
| PipeStranded.StrandedByKill | pipe.c:84-89 | such a run with both ends open throughout, because the writer is killed |
| PipeDiscipline.TidyNeverDrops | pipe.c:59-121 | without kills, and with the read end open while somebody reads, no pipewrite gives up that way and nobody is stranded |
| PipeCode.PipeBuffer.Fill | pipe.c:84-94 | pipewrite stores as many bytes as fit, in order |
| PipeCode.PipeBuffer.Drain | pipe.c:113-117 | piperead takes the oldest bytes, as many as asked for and there |
| ShellCode.GetToken | sh.c:265-308 | the next token of the line, as LexIff has it, its span, and a cursor at the rest |
| ShellCode.Peek | sh.c:310-320 | whether the next token starts with one of the characters, with blanks skipped |
| ShellCode.ParseRedirs | sh.c:374-397 | the redirections at the cursor, as GrammarIff has them, or a panic exactly when a file is missing |
| ShellCode.ParseExec | sh.c:415-446 | agrees with the grammar's exec: same tree, same rest, same panics, at most nine arguments |
| ShellCode.ParseBlock | sh.c:399-413 | agrees with the grammar's block |
| ShellCode.ParsePipe | sh.c:361-372 | agrees with the grammar's pipe |
| ShellCode.ParseLine | sh.c:344-359 | agrees with the grammar's line; it ends on every input |
| ShellMemory.Nulterminate | sh.c:449-493 | stores NULs at the ends of the words and nowhere else |
| ShellMemory.WordReads | sh.c:449-493 | after that a word reads as exactly its token |
| ShellMemory.ParseCmd | sh.c:327-342 | the command read from memory is the grammar's tree for the line; a panic exactly when there is none |
| ShellMemory.ParsePrinted | sh.c:327-493 | a buffer with the printed form of a legal tree is parsed to that tree |
| ShellRoundTrip.ReadBack | sh.c:344-446 | each parser reads back what the printer prints for it and stops there |
| ShellRoundTrip.LexRender | sh.c:265-308 | the tokens of a rendered token list are that list |
| ShellRoundTrip.RoundTrip | sh.c:327-446 | parsing the printed form of any tree with legal words and at most nine arguments gives back that tree |
| ShellRoundTrip.ParsesIff | sh.c:327-446 | the trees some line parses to are exactly the legal ones |
| ShellLexing.LexIff | sh.c:265-308 | a line has tokens ts if and only if it is their spellings with blanks around them, at least one where two neighbours would run together |
| ShellLexing.NothingLost | sh.c:265-308 | the spellings of a line's tokens, joined together, are the line without its blanks |
| ShellSyntax.Complete | sh.c:344-446 | every parser reads any well-formed syntax, redirections anywhere among the words, > or >>, as what it means, and stops after it |
| ShellSyntax.GrammarIff | sh.c:344-446 | a token list parses to a tree with nothing left over if and only if it is the tokens of some well-formed syntax with that meaning |
| ShellSyntax.CommandIff | sh.c:327-446 | the same for whole lines of characters |

## Left out

- Process and thread life cycle (fork, exec, exit, wait, kthread_create, kthread_exit, kthread_join, the scheduler).
- kthread_mutex_alloc and kthread_mutex_dealloc: mutexes and trees are allocated from the start, and the read of a null `holding` at proc.c:876 and proc.c:909 counts as no thread.
- Liveness of the kernel mutex: its wakeup takes no ptable.lock (proc.c:916-921); a sleeper may also wake spuriously in the model.
- Directories, path names, inode allocation and write-back, device inodes, file descriptors and system-call argument fetching.
- The bodies of the buffer-cache methods are single critical sections; spinlocks inside them are not stepped.
- holdingsleep compares process numbers, not threads; the model's sleep locks belong to threads.
- The log step system identifies a block's buffer with its block number; which of the NBUF buffers holds it is the subject of BufferCache.
- ide.c, interrupts, segments, cr3 loads, inituvm, loaduvm, clearpteu, uva2ka and copyout.
- LogCode.Log.Commit: requires the list to fit the log area, as LogWrite keeps it when one thread runs; for a longer list see SpillBreaks. The same holds for LogCode.Log.WriteLog.
- LogCode.Log.WriteLog: see Commit.
- VmCode.Machine.constructor: kinit1 and kinit2 are one step; the kernel page table that main makes between them comes after it.
- VmCode.Machine.Deallocuvm: a range that starts above KERNBASE as well as ending there is excluded, since kfree would be given frames that are not the address space's; no caller has either.
- VmCode.Machine.Allocuvm: the panic "remap" is a precondition, as it is of Mappages; so are the panics of freevm and copyuvm.
- VmCode.Machine.Setupkvm: the linker symbol `data` is a page-aligned parameter between EXTMEM and PHYSTOP.
- Heap addresses count 8-byte units: the program's own sbrk calls keep the break 8-byte aligned and do not shrink it.
- HeapCode.Heap.Malloc: after the outcome `over` the model stops; what the stores past the break do depends on whether their page is mapped.
- HeapRuns.DoAll: requests of 2^28 units or more are skipped in whole runs.
- HeapCode.Heap.Sbrk: whether the kernel finds memory is a parameter; shrinking to size 0 is reported as failure without modelling the freed pages.
- A thread told to die inside sleep (proc.c:618) is not modelled. kill inside a pipe call marks and wakes one thread in the model, where the source marks the process and wakes all its threads; a kill of several threads is several such steps.
- After both ends of a pipe are closed its memory is gone and the model says nothing more about it.
- ShellCode.ParseExec: redirections are collected and wrapped around the finished exec command, where the source wraps while it is still being filled in place.
- runcmd, getcmd and the built-in cd of the shell; printf of leftovers.
