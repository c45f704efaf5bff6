# xv6: storage stack, allocator, processes, address spaces, parser

This project models the parts of xv6 where mistakes are expensive and proves what they are for. Each
part is stated for all inputs, all runs and all reachable states.

- **Storage, from sectors to files.** `LogSpec` and `LogRuns` say which sector writes the redo log
  issues and what a crash after any of them leaves. `BufferCache` and `Log` are the code: a ring of
  buffers, and a log whose buffers, header and disk together behave like a plain map from sectors to
  contents. `FsState`, `Fs` and `File` are block allocation, the inode block map, file contents and
  the chunked writer, and `FsSpace` counts the blocks that are free and those that a write needs.
  `FsImage` gives the bytes of every sector and the bytes that each log_write hands over, and
  `CrashSafe` puts the layers together: filewrite run through file layer, log and cache, and cut by a
  crash at any sector write, is recovered to the chunks that had committed.
- **Directories.** `Dirs` is the tree of inodes and entries, and why link counts stay exact. `DirImage`
  is the same tree as bytes: 16-byte entries in directory files. `SysFile` is link, unlink and create on
  those bytes, one transaction each, and `CrashDirs` runs them through log and cache: a crash leaves the
  tree before or the tree after, and a panic the tree before.
- **The user heap** (`Umalloc`): the circular, address-ordered, coalescing free list.
- **Processes**: `SleepWakeup` is the sleep and wakeup protocol as a step system for any number of
  processes; `ProcTable` is fork, exit and wait; `Pipe` is the pipe.
- **Address spaces**: `Kalloc` is the page allocator over untyped physical pages, `PageTable` and `AddressSpace`
  are two-level tables and whole address spaces as values, and `Vm` is the code that works on them in place.
- **Parsing and matching**: the shell's parser (`ShellSpec`, `ShellRoundTrip`, `Shell`) and grep's
  matcher (`Grep`).

Code that changes state in place is a class or a method with loops; code that computes a value is a
function. A panic of the kernel is an out-parameter `ok` that is false, or a result of its own.

## Assumptions taken from the source

- A sector write is synchronous and atomic (xv6/memide.c). A crash drops the cache and the in-memory
  log and reruns recovery.
- Sectors handed to `log_write` are not sectors of the log, and the bitmap marks the log area and the
  metadata as in use from the start. `balloc` scans up to `sb.size` and would otherwise hand them out.
- `sbrk` returns memory above all earlier memory, or fails; requests are small enough that the
  arithmetic of `malloc` does not wrap.
- Link counts are exact as long as parent directories are still linked. `Create` and `SysLink` state
  that this is also necessary: in a directory that has been removed they break the counts.
  `Dirs.HeldDirectoryExample` is an instance.
- The linker puts the kernel's data on a page between KERNLINK and the end of physical memory.

## Where the code and its comments differ

- xv6/fs.h:6 says inode blocks run through `sb.ninodes/IPB`; the macros put the first bitmap block at
  `sb.ninodes/IPB + 3`. The model follows the macros.
- xv6/sh.c:427 marks `>>`, but opens the file exactly as `>` does. The model does too.
- `allocuvm` ignores the result of `mappages`, so a page can be lost, and the last page of a successful
  call can be missing. `Vm.AllocUvm` states exactly when; `AddressSpace.StarvedExample` is an instance.
- `setupkvm` takes 65 pages, the directory and 64 tables for the kernel's half, and frees none of them
  when it gives up: with fewer than 65 free pages it loses them all. `copyuvm` also loses the page it
  could not map. `Vm.SetupKvm` and `Vm.CopyUvm` state exactly when, `AddressSpace.CopyPlanIs` says
  it in numbers, and `AddressSpace.SetupLeakExample` is an instance.
- `pipewrite` returns -1 to a killed writer without waking the readers. `Pipe.Pipe.WriteSegment` says
  when the promise to sleeping readers is kept.

## Model

| member | source | states |
|---|---|---|
| LogSpec.HeadRoundTrip | xv6/log.c:84-113 | reading back a header that write_head stored gives the same sector list, whatever stale words follow it |
| LogSpec.ZeroHeaderIsQuiet | xv6/mkfs.c:100-101 | the disk mkfs zeroes has an empty log, so the crash theorems start from it |
| LogSpec.AppendStep | xv6/log.c:159-181 | one log_write adds or absorbs one sector: the logged sectors stay distinct, home sectors and header stay as they are, and the log overlaid on the home sectors changes at that sector only |
| LogSpec.InstallStep | xv6/log.c:69-82 | installing the k-th log block leaves the overlay of the log unchanged, so installation can be repeated |
| LogSpec.Installed | xv6/log.c:69-82 | once every log block is home the home sectors equal the overlay |
| LogSpec.RecoveryCut | xv6/log.c:68-122 | recovery cut after any number of its writes still has the same recovered sectors, and its full run ends with an empty log |
| LogSpec.Appends | xv6/log.c:159-181 | after any legal sequence of log_write calls the overlay is the sector map after those writes, and the home sectors are untouched |
| LogSpec.CommitCut | xv6/log.c:135-149 | commit cut after any number of its writes: before the header write the old sectors are recovered, from then on the new ones |
| LogSpec.TransactionCut | xv6/log.c:69-181 | crash atomicity of one transaction at every sector write, split exactly at the commit header |
| LogRuns.RunCut | xv6/log.c:69-181 | crash atomicity of any run of transactions: recovery yields the committed ones, in order and in full |
| LogRuns.StoppedRecovers | xv6/log.c:159-181 | a run that stops among the log_write calls of one more transaction is recovered as if that had not begun |
| LogRuns.AfterRunIs | xv6/log.c:124-181 | the disk after k sector writes of a run is the disk with the first k of the writes that the code issues |
| LogRuns.BootCut | xv6/log.c:53-66 | the same for a boot that starts with any number of interrupted recoveries |
| LogRuns.LifeOfADisk | xv6/log.c:53-181 | after any number of boots, crashes and interrupted recoveries, the disk holds exactly the committed transactions applied in order |
| BufferCache.UnlinkKeepsLinked | xv6/bio.c:127-128 | taking a buffer out of the doubly linked ring leaves both directions consistent for all others |
| BufferCache.PushFrontKeepsLinked | xv6/bio.c:46-55 | inserting at the head keeps both directions consistent |
| BufferCache.MoveKeepsLinked | xv6/bio.c:127-132 | the six pointer writes of brelse move a buffer to the head and keep the ring consistent |
| BufferCache.ReleaseKeepsOrder | xv6/bio.c:117-138 | the ring stays in most-recently-released order |
| BufferCache.Bcache.constructor | xv6/bio.c:38-56 | binit builds a valid ring of all NBUF buffers |
| BufferCache.Bcache.FindCached | xv6/bio.c:69-80 | returns the buffer of the sector, or proves that no buffer has it |
| BufferCache.Bcache.FindVictim | xv6/bio.c:82-92 | the victim is idle and clean and no such buffer was released longer ago; it fails only when all buffers are busy or dirty |
| BufferCache.Bcache.BgetAttempt | xv6/bio.c:58-93 | one pass of bget: hit, wait, recycle or panic, each exactly when; at most one buffer per sector throughout |
| BufferCache.Bcache.Iderw | xv6/memide.c:33-58 | a dirty buffer is written, another is read; the disk is the boot disk with all writes applied in order |
| BufferCache.Bcache.Bread | xv6/bio.c:95-105 | a busy valid buffer of the sector, also after waiting for its holder; the disk is untouched |
| BufferCache.Bcache.Bwrite | xv6/bio.c:107-115 | the sector gets the buffer's data, as one recorded write |
| BufferCache.Bcache.MoveToHead | xv6/bio.c:127-132 | the in-place list surgery keeps every ring property |
| BufferCache.Bcache.Brelse | xv6/bio.c:117-138 | the buffer is idle and the most recently released one |
| Log.BreadIsCurrent | xv6/bio.c:61-105 | whatever was evicted or recycled, the buffer bread returns holds the last logged or written contents of its sector |
| Log.LogWriteKeepsCoherent | xv6/log.c:159-181 | after log_write every released buffer still equals its home sector if clean and its log block if pinned |
| Log.InstallKeepsCoherent | xv6/log.c:69-82 | installing one block keeps cache and disk in agreement |
| Log.SomeClean | xv6/log.c:164-165 | a log with fewer than NBUF sectors cannot pin every buffer |
| Log.Log.constructor | xv6/log.c:53-66 | booting from any disk with a good header issues exactly the redo writes and shows the recovered sectors |
| Log.Log.InitLog | xv6/log.c:53-66 | initlog on a new cache: the redo writes and no others, and an empty log afterwards |
| Log.Log.Bread | xv6/bio.c:95-105 | inside and outside a transaction, bread returns the current contents of the sector map |
| Log.Log.Brelse | xv6/bio.c:117-138 | releasing a buffer leaves the sector map and its agreement with the cache as they are |
| Log.Log.EncodeHead | xv6/log.c:98-113 | the loop of write_head stores count and sectors into the header block |
| Log.Log.WriteHead | xv6/log.c:98-113 | one sector write, of the header; fails only when all buffers are busy or pinned |
| Log.Log.InstallTrans | xv6/log.c:68-82 | issues exactly the install writes, in order; a failure leaves a prefix of them |
| Log.Log.ReadHead | xv6/log.c:84-96 | the in-memory header becomes the one on disk |
| Log.Log.DecodeHead | xv6/log.c:84-96 | the loop of read_head reads the listed sectors |
| Log.Log.RecoverFromLog | xv6/log.c:115-122 | issues exactly the redo writes and cannot panic |
| Log.Log.BeginTrans | xv6/log.c:124-133 | succeeds exactly when no transaction is active |
| Log.Log.FindSlot | xv6/log.c:169-172 | the absorption loop finds the slot of the sector or the first free one |
| Log.Log.LogWrite | xv6/log.c:151-181 | the sector map changes at that sector only, one log block is written; it panics exactly when the log is full, outside a transaction, or without a free buffer |
| Log.Log.LogOne | xv6/log.c:151-181 | bread, modify, log_write, brelse: without busy buffers it panics exactly when the logged sectors would pin every buffer, and then has written nothing |
| Log.Log.CommitTrans | xv6/log.c:135-149 | header, installs, cleared header, in that order; afterwards the home sectors are what the transaction saw; a panic leaves a prefix |
| Log.Log.RunTransaction | xv6/log.c:124-181 | bread, modify, log_write, brelse, commit: the map changes by the transaction and the sector writes are those the crash theorems speak about; a panic leaves a prefix of them, and without busy buffers there is one exactly when the sectors are not fewer than the buffers |
| Log.Log.RunUnfinished | xv6/log.c:151-181 | the log_write calls of a transaction that panics before it commits: their appends and nothing else |
| FsState.OwnershipMeans | xv6/fs.c:51-95 | no block is in two slots of any inodes, and the in-use bits are exactly metadata plus owned blocks |
| FsState.NewOwner | xv6/fs.c:354-384 | giving a free block to one slot keeps ownership |
| FsState.BytesAfterPatch | xv6/fs.c:479-485 | writing inside one block of a file changes exactly those bytes of the file |
| FsState.PatchKeepsOthers | xv6/fs.c:479-485 | and no byte of any other file |
| FsState.AllReturned | xv6/fs.c:386-419 | giving back all slots of an inode leaves ownership without that inode's blocks |
| FsSpace.FreeTaken | xv6/fs.c:51-76 | taking a free block leaves one less |
| FsSpace.MissingSplit | xv6/fs.c:354-384 | a write in two parts takes the blocks it takes in one, the indirect block counted once |
| FsSpace.MissingNone | xv6/fs.c:354-384 | writing bytes that exist takes no block |
| Fs.FileSystem.Balloc | xv6/fs.c:37-76 | the first free block, marked and zeroed, with both sectors logged; panics exactly when the count of free blocks is 0 |
| Fs.FileSystem.Bfree | xv6/fs.c:78-95 | clears the bit; panics exactly when it was clear |
| Fs.FileSystem.Iupdate | xv6/fs.c:200-217 | the disk inode becomes the in-memory one, logged |
| Fs.FileSystem.Bmap | xv6/fs.c:354-384 | the block of the file, allocated if missing, ownership kept; an existing block is found without touching anything; panics exactly when out of range or when fewer blocks are free than are missing, and keeps ownership then too |
| Fs.FileSystem.MapIndirect | xv6/fs.c:367-381 | the same through the indirect block, which is one block more when it is absent |
| Fs.FileSystem.Readi | xv6/fs.c:433-458 | a slice of the contents, with the 32-bit overflow check; never allocates |
| Fs.HandedMore | xv6/log.c:151-181 | changing one sector and handing its new bytes to log_write keeps: every logged sector was handed over last with the bytes it has |
| Fs.FileSystem.Writei | xv6/fs.c:461-492 | a splice of the contents, every other file unchanged, all blocks below the size mapped, disk inode in sync; every changed sector is handed to log_write with its new bytes, and none but inode, bitmap, indirect and data blocks; past its range checks it panics exactly when fewer blocks are free than the bytes need |
| Fs.FileSystem.WriteRound | xv6/fs.c:479-485 | one round: the file so far is the splice of the bytes so far, for exactly the blocks its block misses |
| Fs.FileSystem.Itrunc | xv6/fs.c:386-419 | frees exactly the inode's blocks, never a free block, and leaves every other inode and bit alone; hands over inode and bitmap only |
| Fs.FileSystem.FreeIndirect | xv6/fs.c:405-415 | the entries of the indirect block and the block itself, each marked in use when freed |
| FsImage.InodeRoundTrip | xv6/fs.h:26-40 | a dinode read back from its inode block, shorts signed, is the inode |
| FsImage.BitRoundTrip | xv6/fs.h:42-46 | testing bit bi%8 of byte bi/8 of the bitmap block gives the bit |
| FsImage.SetBitIs | xv6/fs.c:51-95 | setting or clearing bit bi%8 of byte bi/8, as balloc and bfree do, gives the bitmap block of the new bits |
| FsImage.PutInodeIs | xv6/fs.c:200-217 | storing the fields of one dinode, as iupdate does, gives the inode block of the new table |
| FsImage.Unlogged | xv6/fs.c:51-95 | sectors that no operation logged hold the bytes they held |
| FsImage.SectorsDetermine | xv6/fs.h:4-46 | two states with the same home sectors have the same inodes, bits and data blocks |
| File.TakenWhole | xv6/file.c:132-152 | a write that fits is taken whole, any other up to the first chunk that does not fit |
| File.ChunkSectors | xv6/file.c:126-132 | on an image with one bitmap block a chunk at any offset logs at most 7 sectors |
| File.FewSectorsAreLegal | xv6/log.c:164-165 | a transaction on fewer sectors than the log holds never meets "too big a transaction" |
| File.BelowLog | xv6/fs.c:461-492 | no sector that writei logs lies in the log |
| File.PaidMore | xv6/file.c:132-152 | the chunks together take the blocks that the whole write takes |
| File.OpenFile.Filewrite | xv6/file.c:115-155 | all chunks together are one splice of the bytes taken; after each transaction the file holds the chunks so far and every other file its bytes; the transaction handed over all it changed, at most 7 sectors; it panics exactly when fewer blocks are free than the bytes taken need, inside a transaction that is not committed |
| File.OpenFile.WriteChunk | xv6/file.c:139-144 | one transaction: a splice of the chunk at the offset, which advances, or no change at all; panics exactly when the chunk needs more blocks than are free |
| CrashSafe.CarriesImage | xv6/log.c:151-181 | a file-layer transaction takes the sectors of the state before it to the sectors of the state after it |
| CrashSafe.RunState | xv6/log.c:124-181 | run through cache and log, it takes what bread returns from the image of the state before to the image of the state after, with exactly the transaction's sector writes; a panic leaves a prefix of them, and its condition is exact |
| CrashSafe.RecoveredState | xv6/log.c:69-181 | a run of file-layer transactions cut after any sector write is recovered to exactly the state after the committed ones |
| CrashSafe.RecoveredForLife | xv6/log.c:53-181 | the same over any number of boots, crashes and interrupted recoveries |
| CrashSafe.FilewriteLegal | xv6/file.c:126-132 | with a log of 10 sectors no transaction of filewrite is too big |
| CrashSafe.RecoveredFile | xv6/fs.h:4-46 | whoever decodes recovered sectors finds the files of the state they are the image of |
| CrashSafe.FilewriteCrash | xv6/file.c:115-155 | a filewrite cut by a crash at any sector write: the recovered sectors are those of the state after the committed chunks, and whoever decodes them finds exactly those chunks in the file, in full, and every other file as it was; the hypotheses are what Filewrite ensures |
| CrashSafe.CutInside | xv6/file.c:115-155 | cut among the log_write calls of a chunk that does not commit, the file holds the chunks before it |
| CrashSafe.FilewriteOnLog | xv6/file.c:115-155 | filewrite with each transaction run through cache and log: bread then returns the new contents, all sector writes are those of its transactions, and after any number of them the disk recovers to the chunks committed by then; the same for the writes issued before a panic, whose condition is exact |
| Dirs.RefsMeans | xv6/fs.c:503-559 | in a valid tree only the first entry is called ".", so the references to an inode are its other entries |
| Dirs.NamedIsLinked | xv6/sysfile.c:206-207 | unlink never meets "nlink < 1" |
| Dirs.ReachesRoot | xv6/sysfile.c:265-271 | every linked directory reaches the root by following ".." |
| Dirs.EmptyDirHasOneLink | xv6/sysfile.c:164-178 | an empty directory has exactly one reference, the entry that names it |
| Dirs.LinkKeeps | xv6/sysfile.c:116-162 | naming a file once more with nlink++ keeps counts, unique names and the tree |
| Dirs.UnlinkKeeps | xv6/sysfile.c:213-223 | clearing a file's entry with nlink-- keeps them |
| Dirs.AttachKeeps | xv6/sysfile.c:265-275 | making a directory keeps them |
| Dirs.DetachKeeps | xv6/sysfile.c:208-223 | unlinking an empty directory drops it to 0 links, leaves its parent linked and keeps them |
| Dirs.OrphanLink | xv6/sysfile.c:137-146 | linking a file into a directory that is no longer linked breaks its count |
| Dirs.OrphanAttach | xv6/sysfile.c:265-275 | making a directory in one that is no longer linked breaks the tree |
| Dirs.CreatedKeeps | xv6/sysfile.c:236-279 | creating keeps the invariant if and only if the parent is still linked |
| Dirs.FreeKeeps | xv6/fs.c:312-336 | freeing an inode without links keeps the invariant |
| Dirs.RemovedKeeps | xv6/sysfile.c:180-234 | removing the name of a file or of an empty directory keeps the invariant and takes away that name only |
| Dirs.LinkedInv | xv6/sysfile.c:116-162 | linking keeps the invariant if and only if the parent is still linked |
| Dirs.HeldDirectoryExample | xv6/sysfile.c:116-279 | a tree, reached by unlinking a directory that is held, in which link and create break the invariant |
| DirImage.DirentRoundTrip | xv6/fs.h:48-54 | an entry read back from its 16 bytes is the entry |
| DirImage.PutBytes | xv6/fs.c:553-556 | writing an entry's bytes at its offset, also at the end, gives the bytes of the new list of entries |
| DirImage.TreeDetermined | xv6/fs.h:26-54 | a disk holds at most one tree |
| DirImage.NodeWritten | xv6/fs.c:555 | when one directory's bytes change and every other file keeps its own, the tree changes by that directory's entries |
| DirImage.EmptyDisk | xv6/mkfs.c:100-105 | a disk without inodes holds the empty tree |
| SysFile.Namespace.MakeRoot | xv6/mkfs.c:107-118 | on a disk without inodes it makes the root that mkfs starts with, and the tree is valid; fails exactly without a free block |
| SysFile.Namespace.ReadEntry | xv6/fs.c:515-516 | readi of 16 bytes at an entry's offset gives that entry of the tree |
| SysFile.Namespace.WriteEntry | xv6/fs.c:553-556 | writei of 16 bytes puts that entry into the tree, handing over at most two sectors besides inode and bitmap; panics exactly when the entry needs more blocks than are free, never on an existing entry |
| SysFile.Namespace.DirLookup | xv6/fs.c:503-529 | the first entry in use under the name's first 14 characters, or none exists |
| SysFile.Namespace.DirLink | xv6/fs.c:531-559 | refuses a name that is present; otherwise the first free entry, or a new one, is used; panics exactly when the directory is full or the entry needs more blocks than are free |
| SysFile.Namespace.IsDirEmpty | xv6/sysfile.c:164-178 | true exactly when no entry after the dots is in use |
| SysFile.Namespace.Ialloc | xv6/fs.c:172-198 | the lowest free inode number, or all are taken |
| SysFile.Namespace.Iput | xv6/fs.c:312-336 | an inode without links that nobody holds loses its blocks and is free |
| SysFile.Namespace.SysLink | xv6/sysfile.c:116-162 | fails exactly for a missing path, a directory or a name that is present, and then undoes nlink++; panics exactly without a place for the entry; counts stay exact if and only if the parent is linked; one transaction of few sectors |
| SysFile.Namespace.SysUnlink | xv6/sysfile.c:180-234 | fails exactly for the dots, a missing name or a non-empty directory, never panics, also inside a removed directory; counts stay exact; a removed directory that nobody holds is freed; one transaction of few sectors |
| SysFile.Namespace.MakeDots | xv6/sysfile.c:265-271 | "." and ".." of a new directory, in one block; neither is refused; panics exactly without a free block |
| SysFile.Namespace.Create | xv6/sysfile.c:236-279 | finds the file, refuses, makes the lowest free inode under the first free entry, or panics, each exactly when, the blocks for the dots and the entry included; counts stay exact if and only if the parent is linked; one transaction of at most 7 sectors |
| SysFile.Namespace.IsLogged | xv6/sysfile.c:116-279 | what link, unlink and create leave is one transaction of the file layer, from the disk with the old tree to the disk with the new one, of at most 7 sectors; what a panic leaves is the beginning of one |
| CrashDirs.TreesCrash | xv6/sysfile.c:116-279 | a run of such transactions cut after any sector write is recovered to exactly the disk after the committed ones, which decodes to their tree and no other |
| CrashDirs.TreesForLife | xv6/log.c:53-181 | the same over any number of boots, crashes and interrupted recoveries |
| CrashDirs.CommitTree | xv6/log.c:135-149 | run through cache and log there is no panic, bread returns the new tree, the sector writes are exactly the transaction's, and every crash point among them leaves the old tree or the new one |
| CrashDirs.AbandonTree | xv6/sysfile.c:116-279 | after a panic the sector writes are the log_write calls before it, and every crash point leaves the old tree |
| CrashDirs.LinkOnLog | xv6/sysfile.c:116-162 | link through cache and log: when it fails, panics and succeeds, the tree then, and both crash statements |
| CrashDirs.UnlinkOnLog | xv6/sysfile.c:180-234 | unlink through cache and log: when it fails, the tree afterwards, and the crash statement |
| CrashDirs.CreateOnLog | xv6/sysfile.c:236-279 | create through cache and log: its outcomes, the tree then, and both crash statements |
| Umalloc.InsertedOrdered | xv6/umalloc.c:24-44 | inserting with coalescing keeps the free list address-ordered with no two blocks touching |
| Umalloc.InsertedUnits | xv6/umalloc.c:24-44 | and adds exactly the units of the block |
| Umalloc.InsertedLinked | xv6/umalloc.c:33-42 | the header writes of free realise that insertion on the circular list |
| Umalloc.WithoutUnits | xv6/umalloc.c:75-84 | taking a block, whole or its tail, removes exactly its units |
| Umalloc.FreedApart | xv6/umalloc.c:24-44 | freeing keeps free and live units disjoint and conserves all units |
| Umalloc.TakenApart | xv6/umalloc.c:63-90 | allocating keeps them disjoint and conserves all units |
| Umalloc.Heap.FindPlace | xv6/umalloc.c:30-32 | free's search around the circle ends, at the one gap the block lies in |
| Umalloc.Heap.Free | xv6/umalloc.c:24-44 | the block joins the free list, coalesced with both neighbours it touches; the heap stays valid |
| Umalloc.Heap.Morecore | xv6/umalloc.c:46-61 | fresh memory joins the free list and some block is then large enough, or sbrk refused, exactly once more, and nothing changed |
| Umalloc.Heap.Walk | xv6/umalloc.c:74-89 | malloc's walk ends at a block that is large enough, without asking for memory when there is one and after one morecore otherwise; it fails exactly when sbrk refuses |
| Umalloc.Heap.Malloc | xv6/umalloc.c:63-90 | a new live block of the right size, disjoint from all others; null exactly when sbrk refused, which it is not asked when a free block is large enough |
| Umalloc.Heap.Scribble | xv6/umalloc.c:9-20 | whatever the owner writes inside a live block, the free list stays valid |
| SleepWakeup.InvStep | xv6/proc.c:348-403 | every step of any process keeps: a sleeper whose condition is true has a wakeup coming |
| SleepWakeup.InvAlways | xv6/proc.c:348-403 | that holds in every reachable state, for any number of processes |
| SleepWakeup.NoLostWakeup | xv6/sleep1.p:20-51 | when both locks are free every sleeping process waits for a condition that is false |
| SleepWakeup.LateWakeupIsSafe | xv6/proc.c:397-403 | wakeups after releasing the lock lose no sleeper either |
| ProcTable.ReapedOnce | xv6/proc.c:214-253 | a pid that has exited is a zombie or has been returned by wait once, never both |
| ProcTable.OnlyWokenKeeps | xv6/proc.c:386-394 | spurious wakeups keep all invariants of the table |
| ProcTable.ReparentedKeeps | xv6/proc.c:197-204 | handing the children to init keeps them, including that nobody waits above a zombie |
| ProcTable.Table.constructor | xv6/proc.c:78-104 | the table after userinit is valid |
| ProcTable.Table.Wakeup1 | xv6/proc.c:386-394 | exactly the processes sleeping on the channel become runnable |
| ProcTable.Table.Allocproc | xv6/proc.c:34-74 | the first unused slot becomes an embryo with a fresh pid, or all slots are in use |
| ProcTable.Table.AbandonEmbryo | xv6/proc.c:139-145 | a failed fork leaves a valid table |
| ProcTable.Table.SetParent | xv6/proc.c:147 | the embryo gets its creator as parent |
| ProcTable.Table.SetRunnable | xv6/proc.c:162-165 | fork ends with a runnable child |
| ProcTable.Table.Sleep | xv6/proc.c:348-381 | a process going to sleep on any other channel keeps the invariants |
| ProcTable.Table.Kill | xv6/proc.c:408-426 | fails exactly without that pid; otherwise that slot alone is marked and, if asleep, made runnable; the invariants are kept |
| ProcTable.Table.Exit | xv6/proc.c:171-210 | a zombie, its children given to init, its parent awake; every other process as before except for those wakeups; all invariants kept |
| ProcTable.Table.Wait | xv6/proc.c:214-253 | reaps a zombie child once, fails exactly without children or when killed, or sleeps with no zombie child |
| Pipe.PutAppends | xv6/pipe.c:92 | storing at nwrite % PIPESIZE appends to the ring, also when the counters wrap at 2^32 |
| Pipe.GetTakesFirst | xv6/pipe.c:115 | advancing nread takes the oldest byte, also when the counters wrap |
| Pipe.Pipe.constructor | xv6/pipe.c:21-56 | a new pipe is empty and open |
| Pipe.Pipe.NotBothAsleep | xv6/pipe.c:77-120 | readers and writers are never both asleep |
| Pipe.Pipe.WriteSegment | xv6/pipe.c:77-97 | bytes go in in order, never more than 512 held; sleeps only on a full open pipe; sleeping readers are woken except when a killed writer returns early |
| Pipe.Pipe.ReadSegment | xv6/pipe.c:99-120 | delivers the oldest bytes in order; sleeps only on an empty pipe with an open write end; wakes the writers |
| Pipe.Pipe.Close | xv6/pipe.c:58-74 | the end is closed, the other side woken; freed exactly when both are closed |
| Grep.OnePattern | xv6/grep.c:92-93 | a literal or dot matches one character and the rest of the pattern the rest |
| Grep.StarPattern | xv6/grep.c:88-89 | a starred item matches any number of fitting characters and then the rest |
| Grep.MatchHere | xv6/grep.c:83-95 | true exactly when the text starts with a word of the pattern's language |
| Grep.MatchStar | xv6/grep.c:97-105 | true exactly when some number of fitting characters is followed by a match |
| Grep.Match | xv6/grep.c:71-81 | true exactly when a substring, anchored as the pattern says, is in the language |
| Grep.Anchored | xv6/grep.c:74-75 | what a leading ^ means |
| Grep.Unanchored | xv6/grep.c:76-80 | what its absence means |
| PageTable.MappedOnce | xv6/vm.c:70-90 | no physical page is mapped at two user addresses, not even by two address spaces |
| PageTable.OtherSpace | xv6/vm.c:70-90 | changing one address space leaves every other one, entries and contents, as it was |
| PageTable.TableAdded | xv6/vm.c:54-63 | hanging a cleared table under the directory changes no mapping |
| PageTable.PageMapped | xv6/vm.c:83 | writing one entry, for the user or the kernel, maps one page and changes no other mapping |
| PageTable.PageUnmapped | xv6/vm.c:263-270 | freeing a page and clearing its entry unmaps that page only |
| Kalloc.Memory.Kalloc | xv6/kalloc.c:79-95 | the first free page, or none is left |
| Kalloc.Memory.Kfree | xv6/kalloc.c:55-77 | the page is free again; every page stays either free or owned |
| Vm.WalkPgdir | xv6/vm.c:42-65 | for every address: the table of the page, made on demand; fails exactly when it is missing and may not or cannot be made; no mapping changes |
| Vm.MapPages | xv6/vm.c:67-90 | for every range: consecutive pages are mapped with those permissions, taking exactly the tables that were missing, up to the first page that finds no table or, "remap", is mapped already; nothing else changes |
| AddressSpace.CountTables | xv6/vm.c:54-63 | how many tables a run of pages takes |
| Vm.SetupKvm | xv6/vm.c:112-144 | succeeds exactly with 65 free pages and takes 65; the kernel's half is the documented layout and the user's half is empty; otherwise every free page is lost and nothing else changes |
| AddressSpace.CopyPlanIs | xv6/vm.c:305-336 | how a copy of n pages ends, from n and the number of free pages: it succeeds, loses nothing, loses one page or loses all |
| AddressSpace.SetupLeakExample | xv6/vm.c:136-142 | a parent of one page and three free pages: copyuvm may be called, and loses all three |
| AddressSpace.PlanRange | xv6/vm.c:231-241 | a page starved of its table is one of those to be added |
| AddressSpace.SizeExact | xv6/vm.c:218-243 | the recorded size is right if and only if the last page was not starved of its table |
| AddressSpace.StarvedExample | xv6/vm.c:239-240 | a state in which it is not: an empty directory and one free page |
| Vm.AllocUvm | xv6/vm.c:216-243 | the mapped pages are exactly those below the new size, new ones zeroed, old ones untouched, or the old mapping is restored; decided by the free pages before the call |
| Vm.DeallocUvm | xv6/vm.c:245-273 | exactly the pages from the new size to the old one are unmapped and freed; the 4 MB skip passes none |
| Vm.FreeVm | xv6/vm.c:275-292 | every page, table of either half and the directory of the address space is free afterwards |
| Vm.CopyUvm | xv6/vm.c:305-336 | the child has the same page contents in pages of its own, all user-writable, and the kernel's half; the parent is untouched; success, a failure that gives everything back, one that loses a page and one that loses all free pages, each exactly when |
| ShellSpec.Skip | xv6/sh.c:308-309 | the first position from i on that is not blank: all passed ones are |
| ShellSpec.TokenAt | xv6/sh.c:301-344 | tokens advance, and a word token is a maximal run of word characters |
| ShellSpec.LineAt | xv6/sh.c:380-395 | the mutual recursion ends; every argument and file of the result is a word of the text, at most 9 per command |
| ShellRoundTrip.WordsParse | xv6/sh.c:451-482 | printed words parse to exactly those words |
| ShellRoundTrip.LineParses | xv6/sh.c:380-482 | a printed command tree, at the end or before ")", parses to itself |
| ShellRoundTrip.ParsePrint | xv6/sh.c:363-378 | parsing the parenthesised printout of any legal tree gives the tree |
| ShellRoundTrip.PrintIsLine | xv6/sh.c:363-378 | the printout is a C string |
| Shell.GetToken | xv6/sh.c:301-344 | the loops of gettoken compute that token |
| Shell.Peek | xv6/sh.c:346-356 | skips blanks and tests the next character |
| Shell.ParseRedirs | xv6/sh.c:410-433 | the loop computes the redirections, with the panic for a missing file |
| Shell.ParseWords | xv6/sh.c:465-481 | the loop of parseexec: arguments and redirections, with the panics for a stray symbol and too many arguments |
| Shell.ParseExec | xv6/sh.c:451-482 | computes the command, block or exec |
| Shell.ParseBlock | xv6/sh.c:435-449 | computes the parenthesised line, with the panic for a missing ")" |
| Shell.ParsePipe | xv6/sh.c:397-408 | computes the pipeline |
| Shell.ParseLine | xv6/sh.c:380-395 | computes the line with its & and ; |
| Shell.WordsTerminated | xv6/sh.c:484-529 | with a NUL at every word's end each word is a C string equal to its token, and no byte of any word is overwritten |
| Shell.NulTerminate | xv6/sh.c:484-529 | writes exactly those NULs |
| Shell.ParseCmd | xv6/sh.c:363-378 | the command as found in the buffer afterwards means what the text meant; leftovers panic and leave the buffer alone |
| Shell.ParsePrinted | xv6/sh.c:363-378 | a buffer holding the printout of a tree yields that tree as C strings |

## Left out

- Hardware, boot code, interrupts, spinlocks beyond atomic sections, the console and the other user programs: input and output, or no state worth an invariant.
- Path lookup (namei, nameiparent) and the current directory: the directory and the name are parameters of the directory operations.
- SysFile.Namespace.SysLink: a link count past 32767, which its short stores as a negative number, is not modelled in memory; the statements that decode a recovered disk say so by the condition that counts fit.
- SysFile.Namespace.Create: the device numbers are stored but are not part of the tree.
- SysFile.Namespace.MakeRoot: the user programs that mkfs copies and its rounding up of the root's size are not modelled.
- The inode cache (iget, ilock, reference counts): whether an inode is held elsewhere is a parameter, and iput runs only inside a transaction.
- Device inodes in readi and writei.
- Fs.FileSystem.Writei: inodes and bitmap are typed values whose bytes `FsImage` gives; the superblock is a constant.
- Log.Log.Bread: waiting for a busy buffer is modelled as its holder's brelse running first, so a process that waits for a buffer it holds itself is excluded; two processes never interleave inside one operation of the log.
- Log.Log.LogOne: one block is busy at a time; bmap keeps the indirect block's buffer while balloc logs two others, so the exact count of buffers is that of one busy buffer, not of two.
- File.OpenFile.Filewrite: `CrashSafe` and `CrashDirs` issue the log_write calls of a transaction together, in their order, at its end or at the panic that cuts it short, not interleaved with the work of the file layer.
- Pids do not wrap around in ProcTable; kernel stacks, open files and address spaces of processes are not part of its table.
- Pipe.Pipe.WriteSegment: pipealloc's failure paths and the file table are not modelled.
- Grep's line buffer and its reading loop: only the matcher is modelled.
- Vm.MapPages: a range that wraps around the top of the address space is excluded; kmap's last row, whose size wraps, ends exactly there.
- Kalloc.Memory.Kfree: the free list is a sequence, not pointers inside the free pages.
- clearpteu, loaduvm, inituvm and copyout: each looks up one page with walkpgdir or uva2ka and changes a bit or copies bytes there.
- Shell.ParseWords: the exec node that the source shares by pointer is kept at the bottom of the tree being built; running commands, cd, and the variable assignments are not modelled.
- Umalloc.Heap.Malloc: memory is counted in header-sized units; sbrk's alignment and the wrap of huge requests are excluded by the bound on nbytes.
