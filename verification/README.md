# xv6-riscv in Dafny

A model of the parts of the xv6-riscv teaching kernel, and of three of its user programs, that
carry invariants over whole runs, with proofs of those invariants. `dafny verify dfyconfig.toml`
checks the project.

| file | what it holds |
|---|---|
| `Prelude.dfy`, `Blocks.dfy` | the log's constants, counting in finite sets; disk blocks as bytes and as 32-bit words |
| `LogDisk.dfy`, `LogMachine.dfy`, `LogGuard.dfy`, `Log.dfy` | the redo log: commit and recovery as single block writes with a crash between any two; group commit as a state machine; `log.c` as a class |
| `Bcache.dfy`, `CacheMachine.dfy`, `CacheBoot.dfy`, `CacheLog.dfy` | the buffer cache: the LRU list as linked objects, every interleaving of its atomic sections, what recovery at boot does to it, and the log and the cache running together |
| `Fs.dfy`, `FsBudget.dfy`, `FsCode.dfy`, `FsImage.dfy` | bitmap, inodes and files: who owns each block, what bytes a file holds; what a write takes and logs; `balloc` to `filewrite` as a class; a disk on which one write uses up its whole log reservation |
| `Dir.dfy`, `DirCode.dfy`, `Namex.dfy` | directories as finite maps, paths, inode references, `namex` |
| `Vm.dfy`, `VmCode.dfy`, `VmFree.dfy`, `Fork.dfy`, `UserCopy.dfy` | Sv39 page tables and the page allocator (section 4.4 of the RISC-V Privileged Architecture), `freewalk`, what `fork` does with memory, `copyin` and `copyout` |
| `Umalloc.dfy` | the storage allocator of section 8.7 of The C Programming Language |
| `Monitor.dfy`, `Sleeplock.dfy`, `Pipe.dfy`, `LogSleep.dfy` | sleep and wakeup step by step, and three protocols over them: sleep locks, pipes, and `begin_op` waiting for `end_op` |
| `Console.dfy`, `Grep.dfy`, `Shell.dfy` | the console's line discipline, `grep`, the shell's parser |

Conventions. What the source changes in place is a class whose methods are proved against a
function or relation of values; properties of whole runs are lemmas about those values, or about
a state machine whose steps are the source's atomic sections. A result `ok`
is false where the source panics or, as the member's comment says, returns an error.
`virtio_disk_rw` is an atomic block read or write, and spinlocks are ownership. A buffer's count is
a 32-bit word that wraps; fewer than 2^30 calls of `bread` are under way at once and a buffer has at
most 2^30 pins, where the kernel's NPROC and LOGSIZE allow a few dozen. The file system starts from a well-formed image: the
bitmap is exact, no two slots name one block, and no file has a hole below its size; every
operation keeps that. In memory, what a space maps for user mode is its own from the first space
on; every operation keeps that too.

Where the code does not do what one would hope, the exact condition is proved.
`log_write`'s size guard is silent in every run if and only if every operation makes at most
MAXOPBLOCKS calls of `log_write` and the log area has more than LOGSIZE blocks; `writei` may make
more calls than that, and mkfs gives the area exactly LOGSIZE (`LogGuard.GuardSilentExactly`). The
reservation and the ordering of operations hold for a log area of any size; that a crash recovers to
the durable groups holds in every run whose list fits the area (`LogMachine.GroupCommit`), and so in
every run if and only if the area has more than LOGSIZE blocks or just one
(`LogGuard.GroupCommitExactly`): with mkfs's LOGSIZE, two operations can pass the unlocked guard
together and their commit destroys the block behind the log (`LogGuard.GuardRaces`).
`install_trans` unpins in recovery what nobody pinned. The buffer cache is a faithful block map in
every run from boot on if and only if boot found an empty log (`CacheBoot.RefinesExactly`): otherwise
a later `bget` can take a buffer from its holder (`CacheBoot.HeldBufferLost`), and boot itself panics
if and only if the list names at least as many blocks as there are buffers
(`CacheBoot.BootPanicsExactly`). `writei` returns n even if it could not copy the bytes in
(`FsCode.Fs.Writei`), so `filewrite` goes on after a chunk it could not copy if and only if the file
went past that chunk already (`FsCode.AfterFailedCopy`). A writer killed at a full pipe can leave
readers asleep until the next wakeup of readers (`PipeMachine.KilledWriterStrandsReader`), and nothing
else can (`PipeMachine.ReaderNotStranded`, `PipeMachine.DebtOfKilledWriter`). `morecore` asks `sbrk`
for what it means to ask if and only if that is below 2^27 units (`Umalloc.SbrkRequestExact`), and
`malloc` leaves its arena just if it gets there with more (`Umalloc.Heap.Malloc`). `grep` loses the
lines from the first one that does not fit its buffer, and is exact just if none of those matches
(`Grep.WhenExact`).

## Model

| member | source | states |
|---|---|---|
| LogDisk.HeadRoundTrip | kernel/log.c:80-104 | The header block that write_head makes reads back, in read_head, as the same list of blocks, whatever was in the block before. |
| LogDisk.CommitDiskStep | kernel/log.c:161-182 | Each of commit's 2n+2 intermediate disks is the one before it with exactly one block written. |
| LogDisk.RecoverDiskStep | kernel/log.c:106-111 | The same for the intermediate disks of recovery. |
| LogDisk.RecoveryRestarts | kernel/log.c:65-77 | A recovery that crashed after any number of its writes leaves a disk that recovers to the same disk. |
| LogDisk.RecoveryIdempotent | kernel/log.c:106-111 | Any number of recoveries crashed at any points, then a complete one, give what one recovery gives. |
| LogDisk.CommitOld | kernel/log.c:161-182 | Every disk up to the first header write recovers to the home blocks from before the transaction. |
| LogDisk.CommitNew | kernel/log.c:174-182 | Every disk from the first header write on recovers to all the home blocks of the transaction; after the last write the log is clear. |
| LogDisk.CrashAtomicity | kernel/log.c:174-182 | For every transaction, every crash point in commit and any crashes in recovery, the completed recovery leaves the home blocks all old or all new, and the flip is exactly at the first header write. |
| LogMachine.KeepsInv | kernel/log.c:114-210 | Every step of begin_op, log_write, end_op, a block write of commit or recovery, and a crash, after which the list still fits the log area, keeps the disk, reservation and ordering invariants. |
| LogMachine.Reservation | kernel/log.c:114-210 | For a log area of any size, in every interleaving: lh.n plus the rooms of outstanding operations is within LOGSIZE, lh.block names no block twice once recovery is over, in a commit too, and committing means none is outstanding. |
| LogMachine.GroupCommit | kernel/log.c:114-210 | In every interleaving in which the list fits the log area, the disk that a crash would recover to is, at every moment, the boot image with the durable groups applied in order, and readers see the current group on top. |
| LogMachine.LargeLog | kernel/log.c:114-210 | With more than LOGSIZE blocks that is every interleaving, and with every log_write call counted the size panic is not reached. |
| LogMachine.OperationsNotSplit | kernel/log.c:132-158 | For a log area of any size, the groups partition everything ever logged, and no operation has writes in two groups. |
| LogMachine.EndOpDoesNotPanic | kernel/log.c:132-140 | For a log area of any size, an outstanding operation never finds a commit in progress. |
| LogMachine.CommitProgresses | kernel/log.c:144-157 | While the list fits the log area, until a commit or recovery finishes, its next block write can be made. |
| LogGuard.GuardSilentExactly | kernel/log.c:193-197 | For a log area of any size, the "too big a transaction" panic is unreachable if and only if operations make at most MAXOPBLOCKS calls of log_write each and the area has more than LOGSIZE blocks. |
| LogGuard.GuardRaces | kernel/log.c:193-206 | With 2 to LOGSIZE blocks there is a run, without a panic, in which two operations pass the unlocked guard together and their commit puts any chosen contents into the home block behind the log area, while nothing is durable. |
| LogGuard.GroupCommitExactly | kernel/log.c:114-210 | Every run recovers to exactly its durable groups if and only if the log area has more than LOGSIZE blocks, or only its header. |
| Log.Log.constructor | kernel/log.c:54-62 | initlog before recovery: an empty log over the disk image. |
| Log.Log.TryBeginOp | kernel/log.c:114-128 | begin_op admits exactly when no commit is going on and the log has room for MAXOPBLOCKS more for every operation. |
| Log.Log.LogWrite | kernel/log.c:193-210 | The block is absorbed if it is in the list and appended otherwise, and exactly the listed blocks are pinned, whatever racing callers have done since the tests for room; the list still fits its area exactly if it has fewer blocks. |
| Log.Log.WriteLog | kernel/log.c:161-172 | The disk has each dirty block in its log block, through exactly commit's first intermediate disks. |
| Log.Log.WriteHead | kernel/log.c:94-104 | One block write: the header holds the list. |
| Log.Log.ReadHead | kernel/log.c:80-89 | The list is what the header holds. |
| Log.Log.InstallTrans | kernel/log.c:65-77 | Every log block is at its home, in list order, through exactly the intermediate disks of installing; nothing stays pinned. |
| Log.Log.CommitSome | kernel/log.c:174-182 | The disks that commit goes through are exactly the 2n+2 of the crash theorem. |
| Log.Log.Commit | kernel/log.c:174-182 | The same, and no disk write at all for an empty log. |
| Log.Log.EndOp | kernel/log.c:132-158 | The last operation out commits, the others change nothing on disk; false exactly for the committing panic. |
| Log.Log.Recover | kernel/log.c:106-111 | The disk becomes the recovered disk, through exactly the intermediate disks of recovery. |
| CacheSpec.FirstWithUnique | kernel/bio.c:61-68 | The forward walk's result is the only one with its property: first in the list with that block, or none. |
| CacheSpec.LastZeroUnique | kernel/bio.c:73-81 | The backward walk's result is the only one with its property: last in the list with no references, or none. |
| Bcache.Bcache.constructor | kernel/bio.c:35-50 | binit links all buffers, the last one first, in both directions. |
| Bcache.Bcache.PushFront | kernel/bio.c:117-120 | The list, read in either direction, has the buffer in front. |
| Bcache.Bcache.Unlink | kernel/bio.c:115-116 | The list, read in either direction, is without the buffer. |
| Bcache.Bcache.Brelse | kernel/bio.c:106-124 | The 32-bit count goes down by one, 0 becoming 2^32-1, and the buffer moves to the front exactly when the count becomes 0; every other buffer is unchanged. |
| Bcache.Bcache.FindCached | kernel/bio.c:61-68 | The first buffer with the block, or the head. |
| Bcache.Bcache.FindUnused | kernel/bio.c:73-81 | The last buffer without references, or the head. |
| Bcache.Bcache.Bget | kernel/bio.c:55-84 | The cached buffer if there is one, else the last unused one recycled, else the panic; every other buffer is unchanged. |
| CacheMachine.KeepsInv | kernel/bio.c:55-136 | Every atomic section, and recovery's bunpin of a buffer nobody pinned, keeps: counts equal users plus pins less such bunpins, modulo 2^32; one holder; list in order of last use; dirty data pinned or held. bget keeps it if no buffer whose count is 0 was so unpinned. |
| CacheMachine.CacheRefinesBlocks | kernel/bio.c:55-136 | In every interleaving in which only what was pinned is unpinned, a block (of a device other than 0) has at most one buffer, a user's buffer stays its block's, holders are alone, what a holder reads is what was last put in the block, a buffer's count is its users plus its pins, and the list is a permutation in the order counts fell to zero. |
| CacheMachine.RecyclesLeastRecent | kernel/bio.c:71-83 | In those interleavings bget recycles only a buffer with no user and no pin, of those the one unused longest, and panics only if every buffer is in use. |
| CacheBoot.BootPanicsExactly | kernel/log.c:54-111 | On a disk whose log header holds any list of homes, boot over n buffers panics for want of a buffer if and only if the list names at least n different blocks. |
| CacheBoot.HeldBufferLost | kernel/log.c:65-77 | If boot recovered a list that was not empty, there is a run after it in which the buffer that a process holds is recycled for another block. |
| CacheBoot.RefinesExactly | kernel/log.c:54-111 | With buffers enough for recovery and more blocks than buffers, every run from boot on has the properties of CacheRefinesBlocks if and only if the header held an empty list. |
| CacheLog.KeepsJoint | kernel/log.c:65-210 | With the log machine and the cache machine run together, log_write pinning in the cache what it adds to the list and commit writing and unpinning through it, every move after which the list fits the area keeps: exactly the listed blocks that are not yet home are pinned, each once; one disk; and blocks nobody holds read as the log machine says. |
| CacheLog.LogOverCache | kernel/log.c:65-210 | So that is so in every run of both after a boot that found an empty log, and the cache is a faithful block map in it. |
| CacheLog.PinsAllowed | kernel/log.c:68-73 | Who holds a block can pin it when the list does not name it and can write it, and install_trans can unpin what it installs: no run is cut there. |
| CacheLog.RunsOfBoth | kernel/log.c:65-210 | Each run of both is a run of the cache machine and a run of the log machine in which the list fits, so what is proved of either holds. |
| FsSpec.SlotsDistinct | kernel/fs.c:344-368 | Two places that hold a block number, in any inodes, direct, indirect or the indirect block itself, never hold the same block, and it is marked used. |
| FsSpec.OwnedFill | kernel/fs.c:344-368 | Filling an empty slot with an unused block keeps bitmap and ownership exact. |
| FsSpec.BytesKept | kernel/fs.c:344-368 | No byte of any file changes when a slot is filled with a zeroed block. |
| FsSpec.ByteWritten | kernel/fs.c:443-452 | Replacing the block behind one block of a file changes those bytes of that file and no other byte. |
| FsSpec.SpliceConcat | kernel/fs.c:443-452 | Two adjoining writes are one write. |
| FsSpec.ReadBack | kernel/fs.c:413-463 | Reading the range just written returns what was written. |
| FsSpec.Truncated | kernel/fs.c:372-397 | When exactly the inode's blocks have been freed, bitmap and ownership are exact again and no other file has changed. |
| FsBudget.ChunkFits | kernel/file.c:125-131 | A write of filewrite's chunk, at any offset and for any bitmap layout, logs at most MAXOPBLOCKS blocks. |
| FsBudget.NeededCount | kernel/fs.c:436-452 | In a file without holes, such a write finds at most four of its slots empty: one that meets four blocks starts in a block that exists. |
| FsBudget.Enough | kernel/fs.c:344-368 | A finished write has taken exactly as many blocks as it found slots empty. |
| FsBudget.TooFew | kernel/fs.c:58-78 | A write that met balloc's panic had fewer free blocks than empty slots. |
| FsBudget.TakesLowest | kernel/fs.c:58-78 | The blocks a write takes are the lowest free ones. |
| FsBudget.TenLogged | kernel/file.c:125-131 | A finished chunk logs exactly MAXOPBLOCKS blocks if and only if, beforehand, it meets four blocks, four of its slots are empty, and the four lowest free blocks have four different bitmap blocks. |
| FsImage.ReservationNeeded | kernel/file.c:125-131 | There is a well-formed disk, laid out as mkfs does, with such a write on it that has the blocks it needs: the reservation is no larger than it has to be. |
| FsCode.Fs.constructor | kernel/fs.c:39-43 | An image whose bitmap marks exactly the metadata and the blocks that slots own, with nothing logged. |
| FsCode.Fs.Balloc | kernel/fs.c:58-78 | The first free block, zeroed and marked; the panic only if no block is free. |
| FsCode.Fs.FillAddrs | kernel/fs.c:344-356 | A block is allocated just if the address was 0; ownership and all bytes of all files are kept. |
| FsCode.Fs.FillIndirect | kernel/fs.c:357-364 | The same for an entry of the indirect block. |
| FsCode.Fs.Bmap | kernel/fs.c:344-368 | The block of the file, allocated if missing; nothing at all changes if it is there; no byte of any file changes; new blocks are the lowest free ones, sit in the slots on the way, and are logged with their bitmap blocks. |
| FsCode.Fs.WriteChunk | kernel/fs.c:443-452 | The bytes are in the file's block, and no other byte of any file changed; the block is logged if the copy succeeded. |
| FsCode.Fs.WriteBytes | kernel/fs.c:443-452 | The loop splices all the bytes that can be copied in, block by block, and stops at the block in which the copy fails. |
| FsCode.Fs.Writei | kernel/fs.c:436-463 | -1 and no change for a bad range. Otherwise n, even if the copy fails: then the bytes that could be copied are in the file, but it grows only by whole blocks of them. If all could be copied, data is spliced into the file at off and whatever changed is logged. No other file changes, no file has holes. It runs out of blocks if and only if fewer are free than slots on its way are empty. A chunk logs at most MAXOPBLOCKS blocks, and exactly that many if and only if it is tight in the sense of TenLogged. |
| FsCode.Fs.Filewrite | kernel/file.c:125-147 | Chunk by chunk, each its own transaction within MAXOPBLOCKS, until one is refused: of each chunk taken, the bytes before the first that cannot be copied in are in the file, which grows only by whole blocks of them. If the first k bytes could all be copied in, exactly they are in the file, whatever changed is logged, and k is all of them or the last chunk boundary that fits. The result is n just if no chunk was refused. |
| FsCode.AfterFailedCopy | kernel/file.c:133-147 | After a chunk that could not all be copied in, the next one is taken if and only if the file went past that chunk before. |
| FsCode.Fs.ReadChunk | kernel/fs.c:420-428 | The bytes of the file in one block, with nothing allocated. |
| FsCode.Fs.Readi | kernel/fs.c:413-430 | Exactly the bytes of the file in the range as far as the destination can be written, none for a bad range; the result counts those before the block in which the copy fails; bmap's allocating branches are never reached. |
| FsCode.Fs.Bfree | kernel/fs.c:81-92 | The bit is cleared and its bitmap block logged; false, and no change, exactly for the "freeing free block" panic. |
| FsCode.Fs.FreeDirect | kernel/fs.c:377-382 | Exactly the direct blocks are freed, and no free block is freed. |
| FsCode.Fs.FreeIndirect | kernel/fs.c:384-393 | Exactly the indirect block and its entries are freed, and no free block is freed. |
| FsCode.Fs.Itrunc | kernel/fs.c:372-397 | A block is free afterwards exactly if it was free or owned by the inode; every other file is the same; whatever changed is logged; the panic is unreachable. |
| DirSpec.Namecmp | kernel/string.c:44-48 | Over DIRSIZ bytes, 0 exactly if the truncated names are equal. |
| DirSpec.Strncpy | kernel/string.c:50-58 | The truncated name, padded with NULs. |
| DirSpec.PaddedName | kernel/fs.c:509-510 | What an entry stores reads back as the name. |
| DirSpec.SearchIsLookup | kernel/fs.c:471-489 | In a directory with unique names, the scan is a lookup in the finite map. |
| DirSpec.LinkBinds | kernel/fs.c:492-514 | An entry in a free place makes the map one binding larger, with names still unique; an inode number that is 0 in 16 bits binds nothing. |
| DirCode.Dirlookup | kernel/fs.c:471-489 | The first live entry with the truncated name, or none; nothing changes. |
| DirCode.AddEntry | kernel/fs.c:503-511 | The entry goes to the first free place, or the end, and no other file changes; the panic only if the directory is as large as a file can be, or no block is free. |
| DirCode.DirlinkBinds | kernel/fs.c:492-514 | A successful dirlink adds exactly one binding, keeps names unique, and lets the directory grow only if it has no free place. |
| PathSpec.SplitJoin | kernel/fs.c:530-547 | Splitting a path joined from components gives the components. |
| PathSpec.ComponentsPlain | kernel/fs.c:530-547 | Components are not empty and hold no slash. |
| PathSpec.Skipelem | kernel/fs.c:530-547 | The first component, cut to DIRSIZ, and a path with the others; none exactly if there are no components. |
| Icache.RefIsCount | kernel/fs.c:225-262 | An inode's count in the table is the number of references held to it. |
| Icache.Table.constructor | kernel/fs.c:168-175 | A table without references. |
| Icache.Table.Iget | kernel/fs.c:225-253 | One more reference to the inode and no other change; the panic exactly if every place is taken by another inode. |
| Icache.Table.Idup | kernel/fs.c:257-262 | One more reference to the same inode. |
| Namex.Ilock | kernel/fs.c:266-287 | The inode is read in; false only for an inode without a type. |
| Namex.Iput | kernel/fs.c:303-327 | One reference fewer; the inode and exactly its blocks are freed if that was the last reference to a loaded inode without links, and otherwise nothing changes on disk. |
| Namex.Dirlink | kernel/fs.c:492-514 | -1 if the name is bound: the reference that dirlookup took is given back, nothing is freed, and the panic is exactly that of iget. Otherwise the entry goes to the first free place, or the end, no other file changes and no reference is touched. |
| Namex.Advance | kernel/fs.c:571-578 | One component: the child's reference replaces the directory's. |
| Namex.Turn | kernel/fs.c:561-579 | A turn of the loop keeps the references at those of the start plus one, or ends with them settled. |
| Namex.Namex | kernel/fs.c:553-584 | On every way out but a panic, references are those of the start plus one for the returned inode. On a volume where everything named is in use, nothing is freed, the result is what the slash-split components lead to in order, and the only panic is a full inode table. |
| VmSpec.PteRoundTrip | kernel/riscv.h:342-353 | The page number and flags survive the word format, and PA2PTE and PTE2PA move the page number in and out. |
| VmSpec.PxPage | kernel/riscv.h:355-364 | The three 9-bit indices of an address below MAXVA are those of its page. |
| VmSpec.PagesApart | kernel/vm.c:63-77 | Two virtual pages never share a leaf entry. |
| VmSpec.OneUse | kernel/kalloc.c:30-66 | A page is on the free list exactly if it is free, and at one place of one tree exactly if that is its use. |
| VmSpec.LeafApart | kernel/vm.c:119-134 | Free, table and mapped pages are disjoint: the page of a leaf is not on the free list and is no page table, and no two leaves of any spaces reach one user page. |
| VmSpec.PopKeeps | kernel/kalloc.c:56-66 | Taking the first free page keeps the invariant and every tree. |
| VmSpec.PushKeeps | kernel/kalloc.c:38-52 | Giving back a page in no use keeps the invariant and every tree. |
| VmSpec.GrowKeeps | kernel/vm.c:66-75 | A new zeroed page table keeps the invariant and the map. |
| VmSpec.EnterKeeps | kernel/vm.c:128 | Setting a leaf entry keeps the invariant and every other space. |
| VmRel.WalkKeepsMap | kernel/vm.c:63-77 | walk, allocating or not, leaves the finite map the same. |
| VmRel.MappagesMap | kernel/vm.c:119-134 | mappages adds exactly the bindings of the range to the map. |
| VmRel.UvmunmapMap | kernel/vm.c:138-154 | uvmunmap removes exactly the bindings of the range from the map. |
| VmRel.RolledBack | kernel/vm.c:189-197 | Unmapping what was added restores the map, and every page but new page tables has the use it had. |
| VmRel.OwnFramed | kernel/vm.c:180-201 | Pages added to a space as its own leave every space mapping only what is its own. |
| VmRel.OwnUnmapped | kernel/vm.c:138-154 | So do pages taken from it. |
| VmCode.Kernel.constructor | kernel/kalloc.c:25-34 | kinit: the free list holds each page of the range once, and the invariants of all that follows hold. |
| VmCode.Kernel.Kalloc | kernel/kalloc.c:56-66 | The head of the free list, or 0 exactly if it is empty. |
| VmCode.Kernel.Kfree | kernel/kalloc.c:38-52 | The page is the head of the free list. |
| VmCode.Kernel.Descend | kernel/vm.c:67-74 | From one page table to the next, added if asked; the map is kept. |
| VmCode.Kernel.Walk | kernel/vm.c:63-77 | The place of the entry for va; none without alloc only if there is no page table, with alloc only if memory ran out; map kept, other spaces untouched. |
| VmCode.Kernel.Walkaddr | kernel/vm.c:81-93 | The page of a valid user-accessible leaf below MAXVA, else 0. |
| VmCode.Kernel.Mappages | kernel/vm.c:119-134 | The pages of the range are mapped in order, up to the first that was mapped already, which is exactly the remap panic, or the first for which memory ran out. |
| VmCode.Kernel.Uvmunmap | kernel/vm.c:138-154 | Exactly the range is unmapped, up to the first page that was not mapped, which is exactly the panic; its pages are free if asked, and everything else is the same. What is mapped for user mode stays the space's own. |
| VmCode.Kernel.Uvmalloc | kernel/vm.c:180-201 | Zeroed read-write-execute user pages up to newsz; if any kalloc fails, 0 and the old map, with no page but page tables used up. Every space keeps mapping only its own for user mode. |
| VmCode.Kernel.Uvmdealloc | kernel/vm.c:206-215 | Exactly the pages wholly above the new size are unmapped and free. Every space keeps mapping only its own for user mode. |
| VmCode.Kernel.Uvmcopy | kernel/vm.c:243-266 | The child's pages have the parent's permissions and bytes; if any kalloc fails, the child's map is what it was; the parent never changes. Every space keeps mapping only its own for user mode. |
| VmCode.Kernel.Freewalk | kernel/vm.c:218-232 | The page table and all below it are freed, each once, and no other page. |
| VmCode.Kernel.Uvmfree | kernel/vm.c:235-238 | Every page table and user page of the space is free and nothing else changed. |
| FellSpec.DropFalls | kernel/vm.c:218-232 | Freeing a page table whose children are gone keeps the free list duplicate-free and every other space intact. |
| FellSpec.FelledAll | kernel/vm.c:218-232 | When the walk returns from the root, no page table of the space is left and every other use is as it was. |
| ForkCode.Uvmcreate | kernel/vm.c:158-164 | A new space without mappings made of one free page, or 0 and no change. |
| ForkCode.ProcPagetable | kernel/proc.c:148-172 | A space with exactly trampoline and trapframe, which maps nothing of any other; if any kalloc fails, every page has the use it had. |
| ForkCode.ProcFreepagetable | kernel/proc.c:176-180 | The space is gone, its pages free, trampoline and trapframe page untouched. |
| ForkCode.Freeproc | kernel/proc.c:131-134 | Trapframe and page table of a child without user memory go back, and every page has the use it had before allocproc. |
| ForkCode.Fork | kernel/proc.c:233-248 | On success the child has a copy of each parent page, a trapframe of its own and the trampoline, and every page that was in use has the use and the contents it had; whichever kalloc fails, every page has the use it had; parent and other spaces are the same either way, and parent, child and all others map only their own for user mode. |
| ForkSpec.RestoredFree | kernel/proc.c:240-244 | In that case the free pages are exactly those of before. |
| ForkSpec.OwnGrew | kernel/proc.c:233-248 | A new space that maps only its own leaves every other mapping only its own. |
| UserMemory.PokePage | kernel/vm.c:290 | memmove into one page changes exactly those bytes of that space, and no byte of any other. |
| UserCopy.Copyin | kernel/vm.c:302-318 | What byte-at-a-time reading through the map gives, up to the first unreadable byte; success exactly if all are readable. |
| UserCopy.Copyout | kernel/vm.c:281-297 | The bytes up to the first without a page are in user memory; no other byte of any space changes, and what spaces map stays their own. |
| UserCopy.Copyinstr | kernel/vm.c:323-356 | The string read byte by byte: success exactly if a NUL comes within max readable bytes. |
| Umalloc.Units | user/umalloc.c:60 | The least number of units that hold the bytes and a header. |
| Umalloc.SbrkRequestExact | user/umalloc.c:43-50 | The byte count reaches sbrk's int parameter unchanged if and only if it is below 2^27 units; up to 2^28 units it arrives negative. |
| Umalloc.Heap.constructor | user/umalloc.c:21-22 | No list yet, nothing live. |
| Umalloc.Heap.Begin | user/umalloc.c:61-64 | A cycle of the empty base alone. |
| Umalloc.Heap.FindSlot | user/umalloc.c:27-29 | The search ends at the place in the address-ordered cycle where the block belongs. |
| Umalloc.Heap.Free | user/umalloc.c:24-41 | The block's units are in the list, which stays one address-ordered cycle of disjoint, fully coalesced blocks apart from the live ones, with units conserved; no unit of a block that stays live is written. |
| Umalloc.Heap.Morecore | user/umalloc.c:43-54 | 0 and no change if sbrk fails; otherwise at least nunits fresh units are in the list and no unit of a live block is written. False exactly if sbrk did what was asked and that was not what was meant. |
| Umalloc.Heap.Take | user/umalloc.c:66-75 | A whole block or the tail of one becomes live, the rest stays in the list, and no unit of a live block is written. |
| Umalloc.Heap.Malloc | user/umalloc.c:56-80 | A new live block of enough units, disjoint from all others, with no unit of an older one written; the search ends; 0 exactly if sbrk failed and no free block is large enough; the arena is what it was, or grew by what one call of sbrk gave. False exactly if no free block is large enough, 2^27 units or more are asked for, and sbrk did what it was asked. |
| Monitor.KeepsInv | kernel/proc.c:529-602 | Every step of sleep, wakeup, kill and the locks around them keeps: no sleeper without a justified condition or a wakeup on its way. |
| Monitor.NoLostWakeup | kernel/proc.c:529-571 | With the condition lock free, a process asleep on a channel, or past its test on the way to sleep, is justified. |
| Sleeplock.KeepsLockInv | kernel/sleeplock.c:19-35 | Every step of acquiresleep and releasesleep, inside sleep and wakeup too, keeps locked and pid in step with who owns the lock. |
| Sleeplock.SleepAllowed | kernel/sleeplock.c:21-23 | A process that finds the lock taken can call sleep in the model too: no run is cut there. |
| Sleeplock.MutualExclusion | kernel/sleeplock.c:19-44 | In every interleaving at most one process is between acquiresleep and releasesleep, and holdingsleep is true of exactly that one. |
| Sleeplock.NoStrandedSleeper | kernel/sleeplock.c:19-35 | With the inner spinlock free, a process sleeping on the lock, or about to, waits for one that still owns it; kill's wakeups do no harm. |
| LogSleep.KeepsLogInv | kernel/log.c:114-158 | Every step of begin_op, log_write, end_op and commit over log.lock, inside sleep and wakeup too, keeps: log.outstanding counts the operations, none is outstanding while one process commits, the list is empty when nothing goes on, and what makes room is followed by a wakeup. |
| LogSleep.SleepAllowed | kernel/log.c:117-121 | A begin_op that has to wait can call sleep in the model too: no run is cut there. |
| LogSleep.NoStrandedBegin | kernel/log.c:114-158 | In every interleaving, with log.lock free, a process asleep in begin_op, or about to be, still has to wait, and another process is committing or has an operation outstanding and will wake it. |
| LogSleep.OneCommits | kernel/log.c:132-158 | In every interleaving at most one process commits, no operation is outstanding then, and no end_op finds a commit in progress. |
| PipeRing.PutHolds | kernel/pipe.c:83 | Storing at nwrite modulo PIPESIZE appends, however often the 32-bit counter has wrapped. |
| PipeRing.TakeHolds | kernel/pipe.c:105 | Reading at nread modulo PIPESIZE takes the oldest byte. |
| PipeRing.Tests | kernel/pipe.c:74 | The counters' equality tests tell a full ring and an empty one from all others. |
| PipeCode.Pipe.constructor | kernel/pipe.c:22-42 | An empty pipe. |
| PipeCode.Pipe.WriteUntilFull | kernel/pipe.c:73-84 | The bytes put in are exactly the first n, and n is short only at a full ring. |
| PipeCode.Pipe.ReadUpTo | kernel/pipe.c:103-107 | The bytes taken out follow those taken before, and are short only at an empty ring. |
| PipeMachine.KeepsPipeInv | kernel/pipe.c:51-111 | Every step of pipewrite, piperead, pipeclose and kill, inside sleep and wakeup too, keeps the pipe's invariant. |
| PipeMachine.SleepAllowed | kernel/pipe.c:74-101 | A writer at a full pipe and a reader at an empty one can call sleep in the model too: no run is cut there. |
| PipeMachine.PipeIsFifo | kernel/pipe.c:67-111 | In every interleaving, and past wraparound, bytes out are a prefix of bytes in and the difference fits PIPESIZE. |
| PipeMachine.WriterNotStranded | kernel/pipe.c:67-88 | With the lock free, a sleeping writer faces a full pipe with the read end open. |
| PipeMachine.ReaderNotStranded | kernel/pipe.c:90-111 | With the lock free, a sleeping reader faces an empty pipe with the write end open, unless readers are owed a wakeup. |
| PipeMachine.DebtOfKilledWriter | kernel/pipe.c:74-78 | Readers are owed a wakeup only if a writer put bytes in after their last one and then gave up at a full pipe, killed, or the read end is closed. |
| PipeMachine.KilledWriterStrandsReader | kernel/pipe.c:74-78 | There is a run in which a killed writer leaves a reader asleep at a full pipe. |
| LineEditor.TakeResumes | kernel/console.c:88-94 | A read that waits goes on as if what came meanwhile had been there from the start. |
| LineEditor.TakeIsALine | kernel/console.c:85-119 | A read ends with a newline, before a control-D, with all it asked for, or with all that can be copied out, and holds no other newline. |
| LineEditor.ReadGetsStream | kernel/console.c:78-172 | However keys, kills and the reader are interleaved, the read gets what it would get from all that was committed, and leaves the rest; a killed read that returns -1 has taken all that was committed before, and nothing after. |
| ConsoleCode.RingPut | kernel/console.c:159 | Storing at e modulo INPUT_BUF appends, under wraparound of the 32-bit index. |
| ConsoleCode.RingTake | kernel/console.c:96 | Reading at r modulo INPUT_BUF takes the oldest byte. |
| ConsoleCode.Console.constructor | kernel/console.c:44-53 | Nothing committed and nothing edited. |
| ConsoleCode.Console.Intr | kernel/console.c:131-172 | What a line editor of two lists does with the key: r, w and e stay ordered within INPUT_BUF, and no newline is between w and e. |
| ConsoleCode.Console.KillLine | kernel/console.c:138-143 | Control-U empties the line being edited. |
| ConsoleCode.Console.Consoleread | kernel/console.c:78-123 | The read takes from the queue what the line editor gives it, a control-D after other bytes being left for the next read and a byte that cannot be copied out being lost; -1 exactly if it is killed and has to wait. |
| Regexp.HereStar | user/grep.c:84-89 | In the denotation, a starred character is none of it, or one of it and the same again. |
| Regexp.Matchhere | user/grep.c:75-81 | True exactly if a prefix of the text is in the language of the pattern. |
| Regexp.Matchstar | user/grep.c:84-89 | True exactly if a prefix of the text is in the language of the starred character and the rest. |
| Regexp.Match | user/grep.c:66-72 | True exactly if some part of the text, or a prefix for a pattern with ^, is in the language of the pattern. |
| Grep.Pieces | user/grep.c:15-31 | Text read in two pieces is filtered like text read at once, the tail of the first piece being carried over. |
| Grep.FilterLines | user/grep.c:18-26 | The matching lines of the buffer, in order; what follows the last newline is left. |
| Grep.Grep | user/grep.c:10-32 | For every text without NULs and every way of handing it out in reads, the output is the matching newline-terminated lines, in order, up to the first line that does not fit. |
| Grep.WhenExact | user/grep.c:10-32 | That is all matching lines just if no line from the first long one on matches, in particular if all lines fit. |
| Grep.LongLineLost | user/grep.c:15 | A matching line that does not fit is lost. |
| ShellLex.LexWords | user/sh.c:237-273 | A word token is a maximal run of characters that are neither whitespace nor symbols. |
| ShellPrint.LexSpell | user/sh.c:237-273 | Tokens written out with blanks between them are the tokens read. |
| ShellPrint.ParsePrint | user/sh.c:289-389 | Parsing the fully parenthesised printing of any command tree with fewer than MAXARGS arguments per command gives the tree back. |
| ShellSpans.ParsedInside | user/sh.c:289-389 | Every argument and file name of a parsed tree is a word of the line, and no command has MAXARGS arguments. |
| ShellSpans.Reparse | user/sh.c:289-389 | The tree of any line that is accepted, printed and parsed again, is that tree. |
| ShellSpans.StringsReadBack | user/sh.c:392-432 | After nulterminate every argument and file name reads as exactly its token: no terminator is inside a token. |
| ShellSpans.Nulterminate | user/sh.c:392-432 | A NUL just behind each string of the tree, and no other change. |
| ShellCode.Peek | user/sh.c:275-282 | Whitespace skipped, tokens kept, and whether the next token is of the kinds asked for. |
| ShellCode.Gettoken | user/sh.c:237-273 | The next token with its place, and the cursor before the tokens that follow it. |
| ShellCode.Parseredirs | user/sh.c:330-350 | The redirections that the tokens begin with, or the panic. |
| ShellCode.Parseexec | user/sh.c:364-389 | The command of the grammar, with redirections around it wherever they stood, or the panic; it ends on every string. |
| ShellCode.Parseblock | user/sh.c:352-362 | The parenthesised line of the grammar with its redirections, or the panic. |
| ShellCode.Parsepipe | user/sh.c:319-328 | The pipeline of the grammar, or the panic. |
| ShellCode.Parseline | user/sh.c:304-317 | The line of the grammar, or the panic. |
| ShellCode.Parsecmd | user/sh.c:289-302 | The tree of the grammar if the whole line is used up, and then every string of it reads as its token; otherwise the panic. |

## Left out

- Device drivers, traps, boot, assembly and the context switch: registers and interrupts are outside the model.
- The amoswap loop and fences of spinlocks: a spinlock is atomic ownership.
- wait, exit and reparenting: wait here never calls freeproc, so it makes no promise to prove.
- System call argument fetching, exec, and the user programs other than grep, the shell's parser and the allocator: no property here needs them.
- The shell's runcmd: it is a sequence of system calls.
- ialloc and iupdate: one inode field copied to and from its block; the model keeps the inodes themselves.
- Inode reference counts and sizes of processes are unbounded; the 32-bit wraparound that matters is modelled in the buffer cache, pipes, the console, readi, writei and sbrk.
- CacheMachine.CacheRefinesBlocks: says nothing of device 0, with which every buffer starts out.
- FsCode.Fs.Writei: the block in which a copy fails may change in its buffer without being logged; that the change is lost if the buffer is recycled is not modelled.
- FsCode.Fs.Filewrite: no other process writes the file between two chunks.
- CacheLog.LogOverCache: for boots that found an empty log; after any other, CacheBoot.HeldBufferLost shows that the cache is no block map.
- Umalloc.Heap.Malloc: stops where sbrk gave something else than morecore takes it to have given.
- Namex.Namex: one process at a time, on one device, on a volume whose directories are whole entries that name inodes of the volume; names resolve as stated if those inodes are also in use.
- VmCode.Kernel.Mappages: takes permissions with at least one of read, write and execute, a leaf in the sense of the architecture.
- VmCode.Kernel.Uvmunmap: takes a page-aligned address, and frees only pages that are the space's own.
- VmCode.Kernel.Kfree: takes pages in the allocator's range, so its range panic is not modelled.
- Pages of memory are tables, user data or free-list links by use; the bytes of a page-table page are modelled by PteRoundTrip alone.
- ForkCode.Fork: the process table slot, registers, open files and name are not part of the model.
- ConsoleCode.Console.Intr: echo and procdump are output.
- Grep.Grep: input without NULs, since strchr stops at one.
- ShellCode.Parseexec: keeps the arguments and redirections of a command apart until the command is complete, where the source updates the node in place.
