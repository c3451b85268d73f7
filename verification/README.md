# A verified model of the kernel's hard parts

This project models the parts of the xv6-based kernel and its user programs that carry the
most state: the redo log, the block and directory layers of the file system, the buffer
cache, page tables and page frames, the process table with its priority run queues, sleep
and wakeup, pipes, the user-level allocator, the shell parser and the pattern matcher of grep.

Code that updates a structure in place is a class whose methods have the loops and the
assignments of the C functions; a section that runs under one lock is one method, and a
protocol between processors is a state machine over such sections. The methods are proved
against functions on values, and the promises of the system are lemmas about those functions
or invariants that every method keeps. `dafny verify dfyconfig.toml` checks the whole project.

| file | models |
|---|---|
| LogMachine, LogSafety, LogOperations, RedoLog | log.c: the write-ahead log, crashes and recovery |
| LogOverflow | log.c: what the unlocked size test of log_write costs |
| LogAndCache | log.c over bio.c: when a commit finds no buffer |
| CrashConsistency | fs.c over log.c: the file system a crash leaves to recovery |
| FileLayout, FileSystem | fs.c: bitmap, block maps, reading, writing and truncating files |
| DirectoryTree, Directories, DirectoryLaws, PathWalk | fs.c and sysfile.c: directory entries, link counts, path names |
| BufferList, BufferCache | bio.c: the buffer list and what it caches |
| FreeFrames, PageTables, FrameCounts, VirtualMemory | kalloc.c, vm.c, growproc: frames and two-level page tables |
| RunQueue, ProcTable | proc.c, sys_prio_set: run queues, process life, the parent tree |
| SleepWakeup | proc.c: the two locks of sleep and wakeup |
| PipeRing | pipe.c: the ring buffer with wrapping counters |
| Heap | umalloc.c: the circular free list |
| ShellGrammar, ShellLexer, ShellTree, ShellParser | sh.c: the command parser |
| Matcher | grep.c: the regular-expression matcher |
| Basics | notions shared by the other files |

## Findings

Properties that do not hold of the code, each with the exact condition under which they do:

- log.c:216-219: log_write tests for space before it takes the lock. In a log area of 2 to LOGSIZE
  blocks, and in no other, two operations can pass the test and then both append one block more than
  the area holds (SpaceExact). In an area of 2 to NBUF-1 blocks write_log (log.c:181) then copies the
  last block over the block after the log area, if the device has one, and a crash is not recovered
  from. The log is crash safe exactly for areas of at least NBUF blocks, for one without any data block, and for one that
  ends with the device (CrashSafeExact, CopyOutside). mkfs makes it LOGSIZE blocks (mkfs.c:25), which
  equals NBUF: there the overfull commit panics before it has stored anything. A lock around the test
  makes every area safe (LockedFits).
- log.c:216: operations that stay within their reservation can reach the panic of that test exactly
  when the area has at most LOGSIZE blocks (GuardExact); a write that would be absorbed can reach it
  in a larger area too (AbsorbedWriteCanPanic).
- param.h:11-12, bio.c:92: NBUF equals LOGSIZE, so a full transaction pins every buffer and the
  commit's first read of a log block panics. Some run of operations within their reservations gets
  there exactly when the area has at least LOGSIZE-1 blocks (CommitStarvesExact); in the area mkfs
  makes it does.
- proc.c:738: pq_enqueue's test for a full ring compares with -1 when the head is at 0, so a ring with
  QSIZE-1 entries there accepts one more and loses all of them; enqueue is append exactly while
  fewer than QSIZE-1 entries are queued (EnqueueExact, FullAtZeroLosesQueue). In every run of the
  process table the bound holds.
- sysproc.c:357: sys_prio_set takes a negative request as a large unsigned number and stores it; the
  table stays in order exactly when the call fails or the request is not negative (PrioSet,
  AskForMinusOne).
- sysproc.c:382-383: it follows a null parent link exactly for a permitted request on a slot without
  parent: init, a child not yet linked, a slot whose fork failed, and for pid 0 any slot that was
  never used or has been reaped (PrioSet's `fault`, InitDangles, FreeSlotDangles).
- proc.c:495-511: the scheduler's first pass leaves the entry of the process it runs in its queue.
  Through every yield, sleep, wakeup and kill the entry stays, exactly until it is dequeued while that
  process is not RUNNABLE. The process then runs without having been woken; if it is RUNNING on
  another processor at that moment, it runs on two at once (BootPassLeavesEntry, StaleEntryGoes,
  StaleOverRun).
- vm.c:330: copyuvm loses the frame it could not map. It does so exactly when the free frames, less
  the 65 of the kernel part and 1, are a multiple q of 1025 and more than 1024 q pages are to be
  copied, provided no other process takes or frees a frame meanwhile (CopyUvm, Loses, ForkLosesFrame).
- proc.c:226: growproc to size 0 frees the pages, reports failure and keeps the old size (GrowProc).
- sysfile.c:222-260, sysfile.c:108-150: adding an entry to an unlinked directory, and only that, breaks
  the link counts (StepExact, OrphanedFile).
- fs.c:600-631: a path walk meets a freed inode exactly when it looks up ".." in a directory whose
  parent has been freed; such a directory is unlinked, and its parent was not the root (LookIsSafe,
  WalkerNeverDangles, ParentEntryDangles).
- umalloc.c:66: malloc's size arithmetic wraps exactly for requests above 0x7FFFFFF0
  (RequestExact, HugeRequestWraps).

Where a comment and the code differ the model follows the code: fork (proc.c:329-330) says the child
inherits its parent's priority, but it does so after queueing the child, whose first turn is therefore
on the level left in its slot (InheritPriority).

## Model

| member | source | states |
|---|---|---|
| LogSafety.CrashSafety | log.c:68-228 | For every run, of a log of any size, in which the log copies stay inside the area, with crashes between any two block writes and other operations between log_write's test and its append: recovery yields the effect of exactly the groups whose header write landed, in order, and while running every read sees all writes so far. |
| LogOverflow.CrashSafeExact | log.c:211-228 | Over all runs the log is crash safe if and only if its area has at least NBUF blocks, has no data block at all, or ends with the device. |
| LogOverflow.SpaceExact | log.c:211-228 | All runs keep the logged blocks inside the area if and only if it is larger than LOGSIZE or has no data block. |
| LogOverflow.CopyOutside | log.c:175-188 | For every other area, the run in which the last log copy lands on the block after the area and recovery shows it there. |
| LogOverflow.LockedFits | log.c:211-228 | If no two operations are past the size test at once, every run fits, whatever the size of the area. |
| LogSafety.RoomyHolds | log.c:124-140 | In an area larger than LOGSIZE the reservations alone keep the logged blocks inside it. |
| LogSafety.GuardedFits | log.c:175-188 | In an area of at least NBUF blocks, or one that ends with the device, no log copy is ever made outside it, even when the logged blocks exceed it. |
| LogSafety.RunKeepsBooks | log.c:124-228 | Over every run, for every size of the area, the header in memory and on disk names distinct home blocks, the one on disk only blocks whose copies are on the device, and reservations stay within LOGSIZE. |
| LogSafety.RepeatedCrashes | log.c:114-121 | Any number of crashes inside recovery end in the same home blocks as one undisturbed recovery. |
| LogSafety.HeaderWriteCommits | log.c:190-200 | The header write is the commit point: once it lands, recovery shows every write of the group. |
| LogSafety.StepKeeps | log.c:124-228 | Every step that leaves the log copies inside the area keeps header, log copies and dirty buffers in agreement. |
| LogSafety.RunIsTracked | log.c:68-228 | Over every run that keeps its log copies inside the area the recoverable disk and the visible disk equal the replayed durable and current writes. |
| LogSafety.EraseKeepsRecovered | log.c:190-200 | Clearing the header changes nothing recovery shows, because every logged block is already home. |
| LogSafety.InstallKeepsRecovered | log.c:68-81 | Installing a block, also a second time after a crash, leaves what recovery shows unchanged. |
| LogMachine.HeaderRoundTrip | log.c:84-112 | Reading back a written header gives the block list that was written. |
| LogOperations.ReservationHolds | log.c:124-172 | Over every run, for every size of the area, logged blocks plus the unused reservations never exceed LOGSIZE, logged blocks are distinct, and no operation is outstanding during a commit. |
| LogOperations.GuardExact | log.c:211-228 | The too-big panic is unreachable for operations within their reservation if and only if the log has more than LOGSIZE blocks. |
| LogOperations.AbsorbedWriteCanPanic | log.c:211-228 | A run in which a write to an already logged block still meets the panic guard. |
| LogOperations.FillRun | log.c:211-228 | Every fill level up to the guard is reached by a run. |
| LogOperations.AllOrNothing | log.c:144-172 | At every point of every run either none of an operation's writes is durable, or all of them and the operation has ended. |
| RedoLog.Log.constructor | log.c:53-65 | A log over any well-formed disk starts before recovery. |
| RedoLog.Log.InstallTrans | log.c:68-81 | The loop performs one install step per logged block. |
| RedoLog.Log.ReadHead | log.c:84-95 | The in-memory header becomes the one on disk. |
| RedoLog.Log.WriteHead | log.c:100-112 | Writes the header block for the logged blocks: the commit step. |
| RedoLog.Log.EraseHead | log.c:100-112 | Writes an empty header: the transaction is erased. |
| RedoLog.Log.RecoverFromLog | log.c:114-121 | After a run that kept its log copies inside the area, ends with every home block equal to the durable effect of that run. |
| RedoLog.Log.BeginOperation | log.c:124-140 | Admits an operation exactly when nothing commits and, however much the new and every open operation still log within their limit, the header holds it. |
| LogOperations.BeginExact | log.c:124-140 | In every reachable running state a run can go on with a new operation exactly under that condition. |
| LogOperations.JoinRun | log.c:124-140 | For every number of logged blocks and open operations that leaves room, some run gets there and admits one more. |
| RedoLog.Log.CheckSpace | log.c:216-217 | The two tests made without the lock: fails exactly where log_write panics. |
| RedoLog.Log.AppendBlock | log.c:219-227 | Under the lock: a block already logged is absorbed, a new one appended; the header always has room for it. |
| RedoLog.Log.WriteBlock | log.c:211-228 | Both parts with no other operation in between. |
| RedoLog.Log.FindEntry | log.c:211-228 | Finds the slot of a logged block, or the end when it is not logged. |
| RedoLog.Log.WriteLog | log.c:175-188 | Copies the logged blocks to their log slots in order, up to the first for which there is no buffer, no place on the device, or no second block to copy to; reports which. |
| RedoLog.CommitOutcome | log.c:175-188 | All blocks are copied exactly when they leave a buffer free, their slots lie on the device, and none past the area is its own slot; with NBUF of them the first turn panics. |
| RedoLog.Log.Commit | log.c:190-200 | Completes exactly when every block can be copied: then it has performed the copy, header, install and erase steps in that order, or nothing for an empty log. Otherwise it stops among the copies and no header is written. |
| RedoLog.Log.CloseOperation | log.c:144-172 | Never panics; decides to commit exactly when the last operation ends. |
| RedoLog.Log.EndOperation | log.c:144-172 | The last end runs a whole commit, or stops in it exactly where Commit does; any other leaves the log alone. |
| RedoLog.CommittedAtReturn | log.c:144-172 | When the last end_op returns, all writes of the group are durable and none is pending. |
| RedoLog.DurableKept | log.c:68-121 | Without a header write no step changes what is durable. |
| FileLayout.BitAfterSet | fs.c:55-78 | Setting a bitmap bit changes that bit only. |
| FileLayout.BitAfterClear | fs.c:80-95 | Clearing a bitmap bit changes that bit only. |
| FileLayout.WordRoundTrip | fs.c:365-393 | An address stored in an indirect block reads back, and the other addresses are untouched. |
| FileLayout.AllocateKeeps | fs.c:55-78 | A clear bit belongs to no file; setting it keeps the bitmap equal to metadata plus owned blocks. |
| FileLayout.AttachTop | fs.c:365-393 | Entering a fresh block in an inode gives it one owner and keeps all others. |
| FileLayout.AttachWord | fs.c:365-393 | The same for an entry of the indirect block. |
| FileSystem.StoreKeeps | fs.c:467-497 | Writing a data block of one file changes no address and no byte of another file. |
| FileSystem.UntouchedFile | fs.c:467-497 | What keeps the other files' blocks keeps their whole contents and their freedom from holes. |
| FileSystem.ReadBack | fs.c:441-497 | Reading the written range gives the written bytes; any range outside it is unchanged. |
| FileSystem.FileStore.constructor | mkfs.c:234-294 | Any disk whose bitmap equals metadata plus owned blocks. |
| FileSystem.FileStore.Balloc | fs.c:55-78 | Takes the lowest free block and zeroes it, or reports that none is free. |
| FileSystem.FileStore.Bfree | fs.c:80-95 | Panics exactly on a block that is already free; else clears its bit alone. |
| FileSystem.FileStore.Bmap | fs.c:365-393 | Finds the block, or extends the file by one fresh zero block without disturbing any other file. |
| FileSystem.FileStore.Readi | fs.c:441-465 | Returns exactly the requested slice of the abstract file, cut at its end, and changes nothing. |
| FileSystem.FileStore.Writei | fs.c:467-497 | Replaces exactly the given bytes of the abstract file, leaves no hole, keeps other files, and leaves disk and memory inode equal. |
| FileSystem.FileStore.FreeDirect | fs.c:395-427 | Frees one direct block; the free-block panic is unreachable. |
| FileSystem.FileStore.FreeIndirect | fs.c:395-427 | Frees the listed blocks and the indirect block, none twice. |
| FileSystem.FileStore.Itrunc | fs.c:395-427 | Gives back exactly the blocks of the file and empties it; other files are unchanged. |
| DirectoryTree.NamedIsAllocated | fs.c:510-530 | Every entry of a linked directory names an allocated inode with a positive count. |
| DirectoryTree.FreedIsUnnamed | fs.c:326-347 | An inode with count zero, the only kind iput frees, is named by no linked directory. |
| DirectoryTree.BeginLinkKeeps | sysfile.c:108-150 | Raising the count before the entry exists keeps counts equal to entries plus links in flight. |
| DirectoryTree.UndoLinkKeeps | sysfile.c:108-150 | The failure path of sys_link restores the balance. |
| DirectoryTree.EnterLinkKeeps | fs.c:532-557 | The new entry takes over the link in flight; names stay unique. |
| DirectoryTree.EnterLinkBreaks | sysfile.c:108-150 | In an unlinked directory the same step always leaves a count too high. |
| DirectoryTree.BeginUnlinkKeeps | sysfile.c:170-219 | Clearing an entry, and lowering the parent for a directory, keeps counts and tree intact before the child's count is lowered. |
| DirectoryTree.EmptyHasOneRef | sysfile.c:155-168 | A directory that isdirempty accepts is named by its own entry alone. |
| DirectoryTree.ParentHasTwoRefs | sysfile.c:170-219 | A parent keeps a positive count when it gives up the link of a child's "..". |
| DirectoryTree.FinishUnlinkKeeps | sysfile.c:170-219 | Lowering the removed inode's count completes the step. |
| DirectoryTree.CreateFileKeeps | sysfile.c:222-260 | Creating a file in a linked directory keeps counts and tree. |
| DirectoryTree.CreateDirKeeps | sysfile.c:222-260 | Creating a directory with "." and ".." keeps counts and tree. |
| DirectoryTree.CreateFileBreaks | sysfile.c:222-260 | Creating a file in an unlinked directory always breaks the counts. |
| DirectoryTree.CreateDirBreaks | sysfile.c:222-260 | So does creating a directory, through the revived "..". |
| DirectoryTree.FreedKeeps | fs.c:326-347 | Freeing an inode with count zero keeps counts and tree. |
| Directories.FileTree.constructor | mkfs.c:116-127 | The empty file system is sound: the root's count is its own "..". |
| Directories.FileTree.Dirlookup | fs.c:510-530 | Finds an entry equal in its first 14 characters, or shows there is none. |
| Directories.FileTree.FindFree | fs.c:532-557 | Finds the first free entry past the dots, or the end. |
| Directories.FileTree.IsDirEmpty | sysfile.c:155-168 | True exactly when every entry past the dots is free. |
| Directories.FileTree.Ialloc | fs.c:193-213 | Finds the lowest free inode number, or shows that none is left. |
| Directories.FileTree.StartLink | sysfile.c:108-150 | Refuses directories; else a link is in flight. |
| Directories.FileTree.FinishLink | fs.c:532-557 | Enters the name exactly when it is absent; soundness survives if and only if the directory is linked. |
| Directories.FileTree.CancelLink | sysfile.c:108-150 | The bad exit takes the link in flight back. |
| Directories.FileTree.Link | sysfile.c:108-150 | Either one entry and one count more, or nothing changed. |
| Directories.FileTree.StartUnlink | sysfile.c:170-219 | Refused exactly for dots, absent names and directories in use; the nlink panic is unreachable. |
| Directories.FileTree.EndUnlink | sysfile.c:170-219 | The count of the removed inode goes down. |
| Directories.FileTree.Unlink | sysfile.c:170-219 | One entry and one count less, and one count less for the parent of a directory. |
| Directories.FileTree.Create | sysfile.c:222-260 | Returns an existing regular file, a new inode of the kind asked for with exact counts, or fails; out of inodes only for a name that is absent; soundness survives if and only if the directory is linked. |
| Directories.FileTree.Iput | fs.c:326-347 | The inode is freed exactly at count zero and last reference, every other inode stays as it is, and no linked directory names the freed one. |
| DirectoryLaws.LinkAddsName | sysfile.c:108-150 | link adds one name and one count and changes nothing else. |
| DirectoryLaws.UnlinkTakesName | sysfile.c:170-219 | unlink takes away that name and a count, and its parent's count for a directory, and changes nothing else. |
| DirectoryLaws.CreateAddsName | sysfile.c:222-260 | create adds one name, for an inode of the kind asked for, and changes nothing else but the parent's count for a directory. |
| DirectoryLaws.FreedIsGone | fs.c:326-347 | Freeing takes away that inode and nothing else. |
| DirectoryLaws.LeavesNoTrace | sysfile.c:170-260 | What is created, unlinked and put for the last time leaves the same inodes allocated and every name and count as before. |
| Directories.StepExact | sysfile.c:108-260 | Of all steps of concurrent calls, exactly those adding to an unlinked directory break the counts. |
| Directories.RunsStayExact | sysfile.c:108-260 | Over every run without such a step counts are exact and every name in a linked directory leads to an allocated inode. |
| Directories.RemovalRun | sysfile.c:170-260 | mkdir and unlink of a directory still in use reach the state of the next row. |
| Directories.OrphanedFile | sysfile.c:222-260 | A file created in that removed directory keeps a link no directory accounts for. |
| PathWalk.Skipelem | fs.c:573-594 | Delivers the next element cut to 14 characters and the position of the one after it. |
| PathWalk.JoinSplits | fs.c:573-594 | Splitting a joined list of names gives the list back. |
| PathWalk.ElementsAreNames | fs.c:573-594 | Elements are never empty, never longer than 14, and hold no slash. |
| PathWalk.Namei | fs.c:599-638 | Follows the elements, from the root exactly if the path begins with a slash and else from the current directory, in one state of the tree. |
| PathWalk.NameiParent | fs.c:599-644 | The same, but stops at the directory of the last element and hands back that element. |
| PathWalk.AbsolutePath | fs.c:604-607 | Names with a slash before each are followed from the root, whatever the current directory. |
| PathWalk.RelativePath | fs.c:604-607 | Without the first slash they are followed from the current directory. |
| PathWalk.ElementsConcat | fs.c:573-594 | The elements of two paths joined by a slash are those of the one and then those of the other. |
| PathWalk.Composes | fs.c:599-638 | Following p/q is following p and, from where it leads, q. |
| PathWalk.ParentThenLookup | fs.c:599-644 | nameiparent followed by one lookup is namei. |
| PathWalk.WalkIsSafe | fs.c:599-638 | A walk from a linked directory never meets a freed inode. |
| PathWalk.LookIsSafe | fs.c:610-625 | One lookup under the lock leads to an inode that is not allocated exactly when it asks for a parent that has been freed; that directory is unlinked and its parent not the root. |
| PathWalk.WalkerNeverDangles | fs.c:599-638 | In every interleaving of a walk with other system calls the walker's inode is allocated, as long as it does not look up a parent that has been freed. |
| PathWalk.BothRemoved | sysfile.c:170-219 | Removing /a/b and /a around a walker in /a/b reaches the state of the next row. |
| PathWalk.ParentEntryDangles | fs.c:610-625 | There the parent entry leads to a freed inode. |
| PathWalk.DownAndUp | fs.c:599-638 | Entering a directory and leaving by ".." comes back. |
| BufferList.UnlinkKeeps | bio.c:119-139 | Unlinking a buffer leaves a doubly linked list of the others in order. |
| BufferList.PushFrontKeeps | bio.c:119-139 | Linking it behind the head puts it first. |
| BufferCache.RecycleKeeps | bio.c:61-93 | Giving a clean unused buffer to another block changes no block's abstract value. |
| BufferCache.StoreKeeps | bio.c:108-115 | Changing a locked buffer changes the abstract value of its block alone. |
| BufferCache.WriteOutKeeps | bio.c:108-115 | Writing a buffer out changes no abstract value. |
| BufferCache.Cache.constructor | bio.c:38-56 | The list holds every buffer and cache plus disk equal the disk. |
| BufferCache.Cache.FindCached | bio.c:68-76 | The forward scan finds the block's only buffer or shows there is none. |
| BufferCache.Cache.FindReusable | bio.c:81-91 | The backward scan finds the least recently used buffer that is unreferenced and clean. |
| BufferCache.Cache.Bget | bio.c:61-93 | Never two buffers for a block; recycles only unreferenced clean buffers; panics exactly when there is none. |
| BufferCache.Cache.Fill | bio.c:96-106 | The returned data is the block's abstract value. |
| BufferCache.Cache.Change | bio.c:96-106 | A holder's change is the block's new abstract value. |
| BufferCache.Cache.Pin | log.c:211-228 | Marking a buffer dirty keeps it from being recycled. |
| BufferCache.Cache.Bwrite | bio.c:108-115 | The disk gets the buffer; no abstract value changes. |
| BufferCache.Cache.MoveToFront | bio.c:119-139 | The order is the old one with the buffer moved to the front. |
| BufferCache.Cache.Release | bio.c:119-124 | The lock is free while the reference is still counted, so nobody can recycle the buffer. |
| BufferCache.Cache.Drop | bio.c:126-138 | Drops one reference, also while another process already has the lock; the last one makes the buffer most recently used. |
| LogAndCache.StarvedExact | bio.c:61-93 | bget panics exactly when the block is not cached and pinned plus held buffers are all NBUF of them. |
| LogAndCache.FullTransactionStarves | log.c:175-188 | NBUF logged blocks leave no buffer for any other block. |
| LogAndCache.StopsExact | log.c:175-188 | At the start of a commit the pinned buffers starve the first read of a log block, wherever in the cache they are, exactly when NBUF blocks are logged. |
| LogAndCache.RunTested | log.c:211-228 | Over every run at most three operations are open and the logged blocks, with those about to be appended, exceed the area's data blocks by at most two. |
| LogAndCache.CommitStarvesExact | log.c:144-188 | Some run reaches a commit that stops there if and only if the area has at least LOGSIZE-1 blocks. |
| CrashConsistency.DurableIsQuiet | log.c:144-200 | What is durable at any point of any run is what the system showed at a moment with no operation in progress. |
| CrashConsistency.RecoveredIsQuiet | log.c:114-121 | So is what recovery yields, outside the log area. |
| CrashConsistency.RecoveredIsConsistent | fs.h:8-48 | If the free map, the inodes and the block lists agree whenever no operation is in progress, they agree on every disk a crash leaves to recovery. |
| CrashConsistency.BytesAreWords | fs.c:367-394 | A block number read out of a block's bytes is the word that was stored. |
| CrashConsistency.InodeRoundTrip | fs.c:219-235 | An inode stored in its sixteen words reads back, and its neighbours in the block are untouched. |
| FreeFrames.PushKeeps | kalloc.c:59-74 | The chain through free frames stays acyclic and gains the frame. |
| FreeFrames.PopKeeps | kalloc.c:79-89 | The chain loses its first frame. |
| PageTables.LookupAfterSet | vm.c:55-96 | Setting one entry through the two levels is an update of the flat map at that page of that directory only. |
| PageTables.MapUserKeeps | vm.c:79-96 | Mapping a free frame gives it one owner. |
| PageTables.UnmapUserKeeps | vm.c:258-280 | Unmapping a page releases exactly its frame. |
| PageTables.AddTableKeeps | vm.c:55-74 | A new page table changes no page of the flat map. |
| PageTables.DropDirKeeps | vm.c:284-298 | Dropping a directory leaves the ownership of the others intact. |
| VirtualMemory.Memory.constructor | kalloc.c:26-44 | No frame is free, owned or in hand before freerange. |
| VirtualMemory.Memory.Kfree | kalloc.c:59-74 | The set of free frames gains the frame. |
| VirtualMemory.Memory.Kalloc | kalloc.c:79-89 | Hands out a frame nobody owns, or fails exactly when none is free. |
| VirtualMemory.Memory.FreeRange | kalloc.c:46-52 | Frees exactly the frames of the range. |
| VirtualMemory.Memory.Walk | vm.c:55-74 | Finds or makes the table without changing any page of any directory, out of one free frame exactly when it was missing; fails only without a table and, when asked to make one, without memory. |
| VirtualMemory.Memory.MapOne | vm.c:79-96 | Changes exactly one page, or none; "remap" exactly for a present page. |
| VirtualMemory.Memory.MapKernel | vm.c:79-96 | The loop of mappages maps every page of the range to its frame, out of exactly the page tables that were missing; "remap" needs a present page. |
| VirtualMemory.Memory.DeallocUvm | vm.c:258-280 | Removes and frees exactly the present pages of the range, although it skips over absent tables. |
| VirtualMemory.Memory.FreeTables | vm.c:284-298 | Frees the directory's page tables and no other frame. |
| VirtualMemory.Memory.FreeVm | vm.c:284-298 | Everything the directory owned is free again; other directories are unchanged. |
| VirtualMemory.Memory.AllocUvm | vm.c:226-252 | Maps fresh zero pages over the whole range, or restores the flat map it found; the panic needs a page that is already there. On a vacant range it succeeds exactly when the free frames cover the pages and the tables still missing for them. |
| VirtualMemory.FreshIsBlank | vm.c:226-252 | A page so added is present, writable for user code, and zero in every byte. |
| VirtualMemory.RoundUpExact | vm.c:226-252 | Sizes are rounded to the least page boundary not below them. |
| FrameCounts.GrowthShort | vm.c:226-252 | Running out at any page of the range means that there were fewer frames than it takes. |
| VirtualMemory.Memory.SetupKvm | vm.c:121-149 | Succeeds exactly with 65 free frames and takes that many; the flat map of the new directory is the kernel map and nothing else; on failure nothing is kept. |
| VirtualMemory.KernelProtected | vm.c:126-131 | No page of the kernel map is open to user code; it shows all of physical memory at a fixed distance and the devices at their own addresses, and exactly its text is read-only. |
| VirtualMemory.Memory.PageAt | vm.c:314-337 | The two presence tests of copyuvm. |
| VirtualMemory.Memory.CopyUvm | vm.c:314-337 | The child has the same contents and flags on every page below sz in frames of its own. With all pages there it succeeds exactly when the free frames cover the cost of the copy, and loses a frame exactly when one is left for a page whose table is missing. |
| FrameCounts.RunsOutLoses | vm.c:314-337 | Where memory runs out during a copy decides whether a frame is lost. |
| FrameCounts.EnoughKeeps | vm.c:314-337 | With frames for the whole copy nothing is lost. |
| VirtualMemory.ForkLosesFrame | vm.c:314-337 | A machine on which a fork leaves a frame that is on no list and in no use. |
| VirtualMemory.CopyIsPrivate | vm.c:314-337 | A later write through one address space never shows in the other. |
| VirtualMemory.Undone | vm.c:226-252 | Unmapping what a failed allocuvm mapped gives back the flat map and the owners. |
| VirtualMemory.Memory.GrowProc | proc.c:216-231 | Size and mapped pages stay in step, except exactly for shrinking a nonempty process to 0. Growing succeeds exactly below KERNBASE with enough free frames, shrinking exactly from a nonzero size to another. |
| VirtualMemory.Memory.LifeOfASpace | vm.c:121-298 | setupkvm, any sequence of grow and shrink calls, then freevm restores the set of free frames. |
| RunQueue.EnqueueExact | proc.c:726-747 | Enqueue appends if and only if fewer than QSIZE-1 entries are queued, at every wrap position. |
| RunQueue.FullAtZeroLosesQueue | proc.c:726-747 | A full ring with its head at 0 is emptied by an enqueue. |
| RunQueue.DequeueTakesFront | proc.c:749-770 | Dequeue removes the oldest entry, at every wrap position. |
| ProcTable.LevelBound | proc.c:726-747 | No level ever holds more than NPROC entries. |
| ProcTable.PushKeeps | proc.c:726-747 | Queueing the one RUNNABLE process that is not queued succeeds and restores "each RUNNABLE process once, no other". |
| ProcTable.PopKeeps | proc.c:749-770 | A dequeued process is RUNNABLE and queued nowhere else. |
| ProcTable.ReparentKeeps | proc.c:381-387 | Handing a child to init keeps pids decreasing along parent links. |
| ProcTable.BuryKeeps | proc.c:389-426 | A process with no children left may become a zombie. |
| ProcTable.ReapKeeps | proc.c:441-456 | Clearing a zombie's slot breaks no parent link. |
| ProcTable.BirthKeeps | proc.c:75-93 | A new pid is larger than every live one. |
| ProcTable.AdoptKeeps | proc.c:301-302 | Linking a child to its parent keeps pids decreasing. |
| ProcTable.StillbornKeeps | proc.c:252-257 | A failed fork leaves a slot that breaks nothing. |
| ProcTable.Table.Enqueue | proc.c:726-747 | Fails exactly for a process that is not RUNNABLE or a ring that looks full. |
| ProcTable.Table.Dequeue | proc.c:749-770 | Front of the lowest nonempty level; nothing only when no process is RUNNABLE. |
| ProcTable.Table.MakeRunnable | proc.c:316-323 | Never panics; the process is last on its level. |
| ProcTable.Table.Yield | proc.c:567-578 | The running process goes to the end of its level. |
| ProcTable.Table.SleepOn | proc.c:603-636 | The process leaves no queue entry behind; the table stays in order unless it goes to sleep in wait beside a zombie child. |
| ProcTable.HeardWith | proc.c:341-470 | The law between exit and wait, kept by every operation of the table: no process sleeps in wait while it has a zombie child. |
| ProcTable.Table.Schedule | proc.c:515-538 | Runs the front of the lowest nonempty level, and idles only when nothing is RUNNABLE. |
| ProcTable.Table.Wakeup1 | proc.c:641-655 | Exactly the sleepers on the channel become RUNNABLE and are appended in table order. |
| ProcTable.WokenExact | proc.c:641-655 | After it nobody sleeps on the channel, and only those who did have changed. |
| ProcTable.SleepersExact | proc.c:641-655 | The processes appended to a level are its sleepers on the channel, each once, in table order. |
| ProcTable.Table.Kill | proc.c:669-692 | Marks the first process with the pid and queues it if it slept; fails exactly when there is none. |
| ProcTable.Table.AllocProc | proc.c:75-93 | Takes the first UNUSED slot and a fresh pid, or shows there is none. |
| ProcTable.Table.AbortFork | proc.c:252-257 | The slot is UNUSED again, its pid left behind. |
| ProcTable.Table.LinkChild | proc.c:301-302 | The child's parent link is set while it is still an embryo. |
| ProcTable.Table.StartChild | proc.c:316-323 | The child is queued once on its level and never panics. |
| ProcTable.Table.InheritPriority | proc.c:330-330 | The child takes its parent's level after it was queued, and the queues stay consistent. |
| ProcTable.Table.PassChildren | proc.c:381-387 | Every child goes to init, which is woken if one of them is a zombie. |
| ProcTable.Table.Exit | proc.c:341-426 | The parent is not asleep in wait afterwards, no child is left behind, the process is a zombie; panics exactly for init. |
| ProcTable.ExitExact | proc.c:341-426 | Exactly the children change parent, to init; exactly the sleepers on the parent's entry, and on init's if a zombie passes to it, become RUNNABLE; nothing else changes. |
| ProcTable.Table.WaitScan | proc.c:430-469 | Reaps the first zombie child; fails exactly without one when killed or childless; else sleeps. |
| ProcTable.Table.FindPid | sysproc.c:340-399 | The first other process with that pid. |
| ProcTable.Table.WalkUp | sysproc.c:340-399 | Terminates and finds the caller exactly when it is a non-init proper ancestor. |
| ProcTable.Table.PrioSet | sysproc.c:340-399 | Succeeds exactly for a permitted request on a descendant, never grants a level above the caller's, faults exactly on a target without parent, and leaves the table in order exactly when it fails or the request is not negative. |
| ProcTable.PermittedExact | sysproc.c:348-360 | Every negative request passes the two tests, and of the others exactly those from the caller's priority to the last level. |
| ProcTable.LiveTargetsDoNotDangle | sysproc.c:340-399 | The walk starts at a real parent for every live target but init. |
| ProcTable.InitDangles | sysproc.c:340-399 | For init the walk starts at a null link. |
| ProcTable.FreeSlotDangles | sysproc.c:340-399 | For pid 0 the walk starts at a null link as soon as one slot was never used or has been reaped. |
| ProcTable.Table.AskForMinusOne | sysproc.c:340-399 | Any process can give itself priority 0xFFFFFFFF. |
| ProcTable.BootPassLeavesEntry | proc.c:491-511 | After the boot pass the process it runs has one queue entry too many. |
| ProcTable.StaleEntryGoes | proc.c:515-538 | The queues are in order from the first time that entry is dequeued while its process is not RUNNABLE, and not before. |
| ProcTable.StaleChange | proc.c:566-690 | Waking, resting and running any process keeps that entry and no queue fills up, except for running its process off the entry. |
| ProcTable.StaleOverRun | proc.c:491-538 | Over every sequence of such changes the queues have exactly one entry too many until then, and none afterwards. |
| SleepWakeup.NoLostWakeup | proc.c:603-664 | In every interleaving, a sleeper that tested before a change is not asleep after that changer's wakeup. |
| SleepWakeup.NoStuckSleeper | sleep1.p:61-133 | While the condition holds and a process sleeps on it, some process is still on its way to wakeup. |
| SleepWakeup.StepExclusive | proc.c:603-664 | Each of the two locks has at most one holder at every step. |
| SleepWakeup.NoDeadlock | proc.c:603-664 | In every reachable state in which not everybody is asleep, some process can go on without an interruption. |
| PipeRing.Pipe.constructor | pipe.c:22-52 | An empty pipe, open at both ends. |
| PipeRing.Pipe.Distance | pipe.c:73-115 | Bytes returned followed by the ring are the bytes stored, and the counters differ by at most 512 through their wrap-around. |
| PipeRing.Pipe.Store | pipe.c:73-93 | One byte is appended to the stream. |
| PipeRing.Pipe.Fetch | pipe.c:95-115 | The oldest byte not yet read. |
| PipeRing.Pipe.WriteSome | pipe.c:73-93 | Stores a prefix in order and stops early only on a full ring; fails only for a closed reader or a kill. |
| PipeRing.Pipe.ReadSome | pipe.c:95-115 | A positive-length read returns nothing only from a drained pipe whose write end is closed. |
| PipeRing.Pipe.Drain | pipe.c:54-115 | Once the write end is closed a reader never waits: reading on returns every byte left, in order, and then the end of the stream. |
| PipeRing.WrapEqual | pipe.c:73-115 | The tests for empty and full on wrapped counters decide emptiness and fullness. |
| Heap.RequestExact | umalloc.c:60-86 | The unit arithmetic covers the request without wrapping if and only if it is at most 0x7FFFFFF0 bytes. |
| Heap.RequestTight | umalloc.c:48-66 | For such requests no smaller block would do, and the heap grows by the request or by 4096 units, whichever is more. |
| Heap.HugeRequestWraps | umalloc.c:60-86 | The largest request is rounded to a single unit. |
| Heap.FreeKeeps | umalloc.c:24-43 | Inserting and coalescing on both sides keeps one address-ordered ring of blocks that are disjoint and do not touch; the free bytes grow by the block. |
| Heap.TakeKeeps | umalloc.c:72-82 | Unlinking or splitting a block keeps the ring; the piece handed out is new. |
| Heap.TakeFrees | umalloc.c:72-82 | The free bytes shrink by exactly the piece and the live bytes grow by it. |
| Heap.GrowKeeps | umalloc.c:45-58 | Memory from sbrk above everything known joins as one live block. |
| Heap.OneBlock | umalloc.c:45-58 | A range of free bytes lies inside a single free block, so the search succeeds after morecore. |
| Heap.Allocator.constructor | umalloc.c:18-22 | Before the first call nothing is free or live. |
| Heap.Allocator.FindSpot | umalloc.c:24-43 | The search loop terminates between the right neighbours. |
| Heap.Allocator.Free | umalloc.c:24-43 | The block is no longer live and exactly its bytes became free. |
| Heap.Allocator.MoreCore | umalloc.c:45-58 | Fails exactly when sbrk does; else a block that fits is on the list. |
| Heap.Allocator.Take | umalloc.c:72-82 | The returned bytes were free and belong to no live block. |
| Heap.Allocator.Malloc | umalloc.c:60-86 | Terminates; returns a new block disjoint from every live one, and fails only when sbrk fails and no free block fits. |
| Heap.Allocator.Exclusive | umalloc.c:24-86 | No byte is both free and live. |
| ShellGrammar.LineSound | sh.c:330-345 | What the parser accepts is a line of the grammar followed by the unread tokens. |
| ShellGrammar.LineComplete | sh.c:330-425 | Every line of the grammar is accepted and its derivation recovered. |
| ShellGrammar.ExecComplete | sh.c:384-425 | Every command with fewer than MAXARGS arguments is accepted, with redirections before, between and after them. |
| ShellLexer.WordsExact | sh.c:257-295 | The words delivered are exactly the maximal runs of word characters of the line. |
| ShellLexer.WordsOnce | sh.c:257-295 | In order, and no two overlap. |
| ShellLexer.LexText | sh.c:257-295 | The texts of the tokens, put together, are the line without its white space. |
| ShellLexer.GreaterSigns | sh.c:278-284 | Two greater signs in a row are one token, a single one another. |
| ShellLexer.CharacterSets | sh.c:254-255 | White space and symbols are the characters of the two strings of the source. |
| ShellLexer.GetToken | sh.c:257-295 | Delivers the next token of the line and moves past it. |
| ShellLexer.Peek | sh.c:297-306 | Looks at the next character without consuming a token. |
| ShellParser.ReadRedirs | sh.c:360-382 | Reads what the grammar says, or fails at a missing file name. |
| ShellParser.ReadArgs | sh.c:398-425 | Gathers words and redirections in any order; fails at the tenth word or a stray symbol. |
| ShellParser.ReadExec | sh.c:398-425 | Refines the token parser for commands. |
| ShellParser.ReadBlock | sh.c:384-396 | Refines the token parser for parenthesised lines. |
| ShellParser.ReadPipe | sh.c:347-358 | Refines the token parser for pipelines, left before right. |
| ShellParser.ReadAmps | sh.c:330-345 | One background node for each ampersand. |
| ShellParser.ReadLine | sh.c:330-345 | Refines the token parser for lines. |
| ShellParser.AcceptsExactly | sh.c:313-328 | Acceptance means exactly one derivation of the whole line. |
| ShellTree.LineWords | sh.c:330-425 | The tree holds every word of the line as often as it was written. |
| ShellTree.LinePrints | sh.c:330-425 | The tree stands for exactly the tokens of the line: a pipe feeds its right side from its left, a redirection has the mode and descriptor of its sign, one background node for each ampersand. |
| ShellTree.LineInOrder | sh.c:330-425 | On both sides of every pipe and semicolon, and among arguments, what was written first is on the left. |
| ShellParser.NulTerminate | sh.c:427-470 | Writes terminators at the ends of the tree's words and nowhere else. |
| ShellParser.WordReads | sh.c:427-470 | No terminator lands inside a word, so each reads back as written. |
| ShellParser.Parse | sh.c:313-328 | Accepts exactly the lines of the grammar and consumes all of the line; the tree stands for exactly its tokens, in their order, and every argument and file name reads back as its original word. |
| Matcher.MatchHere | grep.c:82-91 | True exactly when the text begins with a string of the pattern's language. |
| Matcher.MatchStar | grep.c:93-100 | True exactly when some number of repetitions lets the rest match. |
| Matcher.Match | grep.c:71-80 | True exactly when some position, or only the first after a leading caret, begins such a string. |
| Matcher.BeginsItem | grep.c:82-100 | A pattern begins a text exactly when its first item takes some prefix and the rest begins what follows. |
| Matcher.ParseExact | grep.c:82-91 | A pattern string is read as the one list of items that is written so and can be read back. |
| Matcher.PlainMatches | grep.c:71-91 | Without repetition a pattern matches exactly the texts it occurs in, a dot standing for any character; at the beginning after a caret, at the end before a dollar sign. |
| Matcher.StarMatches | grep.c:93-100 | A starred character between caret and dollar sign matches exactly the texts made of it. |

## Left out

- Device drivers, boot code, trap frames, context switch and spinlock assembly: a lock-protected section is one step, a block write is atomic.
- Shared memory, mutexes and condition variables: unfinished in the source, and their wake-ups do not respect process states.
- exec and loaduvm, the console, printf, grep's reading loop and the other user programs: composition and formatting.
- Directories.FileTree.Iput: whether a reference is the last one is an argument, since the inode cache (iget, ilock, reference counts) is not modelled.
- RedoLog.Log.Commit: pinned buffers alone decide whether one is left for a log block; those that other processes hold for reading at the same time are not counted.
- LogOverflow.CrashSafeExact: requires LOGSIZE blocks outside the log area on the device, enough to fill the log with.
- LogAndCache.CommitStarvesExact: requires the same.
- The writing of inodes and directory entries into disk blocks: FileSystem and DirectoryTree are separate models of one layer each, and operations of several processes on them are not serialised here.
- CrashConsistency.RecoveredIsConsistent: that the file system shown is consistent between operations is its premise; FileSystem proves it for operations one after the other.
- filewrite's splitting of long writes into several transactions.
- The process table's operations while the entry left by the boot pass is still queued: StaleOverRun has their effect on states and queues only; the methods of Table are modelled from the steady state on.
- ProcTable.Table.PrioSet: what follows a null parent link is not modelled; page 0 is mapped user memory, and the source goes on reading it (sysproc.c:382-383). The caller's own priority is read in the same step as the rest, where the source reads it before it takes the lock.
- sleep called with the process-table lock itself, which skips the exchange of locks.
- Pids are unbounded: the wrap-around of a 32-bit pid counter is not modelled.
- Link counts are unbounded: the 16-bit nlink field is not modelled.
- A full directory or a full disk, where dirlink and balloc panic, is not modelled in DirectoryTree; FileSystem reports a full disk as a failed call.
- PathWalk.Namei: the whole path is followed in one state of the tree; WalkerNeverDangles has other calls between any two lookups.
- PathWalk.NameiParent: the same as Namei.
- PathWalk.WalkIsSafe: the same as Namei.
- runcmd and getcmd of the shell, and a failing malloc inside the parser.
- Heap.Allocator.Malloc: requires the request to be at most 0x7FFFFFF0 bytes, because above that the unit arithmetic wraps, as RequestExact shows.
- Heap.Allocator.Free: requires a block that malloc returned and that was not freed since.
- VirtualMemory.Memory.AllocUvm: when a page of the range is already there and memory runs out before it is reached, only the preservation of the other address spaces is stated.
- VirtualMemory.Memory.Kfree: frames are numbers, so the panics for an unaligned or out-of-range address do not arise.
- VirtualMemory.Memory.CopyUvm: the frames taken are counted with no other process calling kalloc or kfree during the copy. On a panic only the preservation of existing pages is stated, since the kernel stops.
- BufferCache.Cache.Release: requires that a changed buffer was logged or written before, which is what the log and the file system do.
- RedoLog.Log.AppendBlock: requires the operation to stay within its MAXOPBLOCKS entries, which is the rule begin_op states for its callers.
