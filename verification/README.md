# Verified models of xv6

This project models the parts of the xv6 kernel and its user programs whose correctness is hardest to see by
reading them, and proves what they are for. Loops and updates in place are methods over fields and arrays, proved
against specifications; concurrent protocols are machines whose steps are the stretches between lock operations, and
the theorems are about every run of them. `dafny verify dfyconfig.toml` checks everything.

| files | part of the system |
|---|---|
| Blocks, LogFormat, Journal, Admission, LogSystem | the write-ahead log (kernel/log.c) on top of the buffer cache |
| BufferList | the least-recently-used list of buffers (kernel/bio.c) |
| FsSpec, FsContent, FileSystem | blocks, inodes and file contents (kernel/fs.c), and how filewrite (kernel/file.c) splits a write |
| FileCrash | what a crash in the middle of a filewrite leaves |
| InodeTable | the table of in-memory inodes (kernel/fs.c) |
| Pipe, WaitExit | sleep, wakeup, kill, pipes, wait and exit (kernel/proc.c, kernel/pipe.c) |
| PageTable, Vm | page tables and user memory (kernel/vm.c, kernel/kalloc.c) |
| Virtio, VirtioRing | the disk driver's descriptors and rings, and what a call of virtio_disk_rw does (kernel/virtio_disk.c) |
| Fcfs | the first-come-first-served scheduler (kernel/proc.c) |
| Heap | malloc and free (user/umalloc.c) |
| Shell, ShellParser, ShellGrammar | the shell's parser and the grammar it parses (user/sh.c) |
| Grep | pattern matching and reading by lines (user/grep.c) |
| Basics | what several of these use |

## What the proofs say about the code

Five promises turn out not to hold as they stand. In each case the model keeps the code as it is, shows a reachable
case, and states exactly when the promise holds:

- log_write can panic although every operation stays within MAXOPBLOCKS: begin_op counts against LOGSIZE (30), but
  log_write against the size of the log less one (29), and it does so before it looks whether the block is in the
  log already (`Admission.PanicExactly`).
- pipewrite returns without a wakeup when it finds its process killed after it has written bytes in the same stretch
  under the lock; a reader can then sleep at a pipe that is not empty (`Pipe.LostExactly`, `Pipe.LostHappens`).
- malloc's byte count becomes an `int` when it is passed to sbrk; a request that needs more than fits is answered
  with a block that reaches past the end of the process's memory (`Heap.Allocator.Malloc`, `Heap.Overclaims`).
- first come is not first served when a scan finds nobody to run, a process is woken at a place it has passed, and
  then another ahead of it (`Fcfs.OrderExactly`, `Fcfs.OvertakingHappens`).
- grep stops, without a message, at a line that does not fit its buffer (`Grep.PrintedExactly`, `Grep.LostLine`). A
  last line without a newline is never looked at.

What clients must do is part of the machines: they change a block or an inode only while they hold its lock, call
log_write or iupdate after their last change, and stay out of the log area. A panic ends a run, like a crash.

## Model

| member | source | states |
|---|---|---|
| Blocks.StoreWords | kernel/log.c:103-114 | words stored in a block are read back as stored, and the other words of the block keep their value |
| Blocks.WordBytes | kernel/fs.h:32-39 | a word of a block is the little-endian number of its four bytes |
| Blocks.TestBitIs | kernel/fs.c:74-76 | bit k of a byte is the one of value two to the k |
| LogFormat.StoreHeader | kernel/log.c:103-114 | the header block write_head makes decodes to the list it was given; words past the list keep their old value |
| LogFormat.HeaderLayout | kernel/log.c:35-38 | the count is the first little-endian 32-bit word of the header block and entry k the word behind it and the k entries before |
| LogFormat.Installed | kernel/log.c:69-83 | after the first k copies, exactly the first k home blocks named by the header hold their log blocks, and no other block has changed |
| LogFormat.InstalledIs | kernel/log.c:69-123 | if the log holds the wanted contents of the listed blocks and the other home blocks are right already, recovery yields exactly the wanted file system |
| Journal.Log.LogWrite | kernel/log.c:215-235 | panics exactly when the header is full; otherwise the block is in the header once and reads as the new contents, every other block as before |
| Journal.Log.Bread | kernel/bio.c:93-103 | reading returns what the cache shows and keeps cache and disk in agreement |
| Journal.Log.Bwrite | kernel/bio.c:106-112 | one disk write of one block, recorded in the history of disk images |
| Journal.Log.CopyToLog | kernel/log.c:183-188 | the next listed block is in its log slot; a crash now still recovers the old file system |
| Journal.Log.WriteLog | kernel/log.c:179-191 | the log receives the cached contents of all listed blocks, one disk write each, and a crash after any of these writes still recovers the old file system |
| Journal.Log.WriteHead | kernel/log.c:103-114 | one disk write, after which the header on disk decodes to the in-memory list and no other block has changed |
| Journal.Log.EncodeHead | kernel/log.c:103-114 | the encoding loop builds the header block |
| Journal.Log.CopyHome | kernel/log.c:73-81 | the next listed block is home; a crash now recovers the same file system |
| Journal.Log.InstallTrans | kernel/log.c:69-83 | every listed block reaches its home; a crash after any single write on the way recovers the same file system |
| Journal.Log.ReadHead | kernel/log.c:87-97 | the in-memory list becomes the list in the header block |
| Journal.Log.PublishHead | kernel/log.c:194-203 | the header write is the commit point: before it a crash recovers the old file system, with it the new one |
| Journal.Log.EraseHead | kernel/log.c:194-203 | the erasing header write leaves an empty log over the new file system |
| Journal.Log.Commit | kernel/log.c:194-203 | all disk images before the header write recover the old file system, that write and all later ones the new; afterwards the log is empty and the cache agrees with the disk |
| Journal.Log.Recover | kernel/log.c:117-123 | recovery yields the file system the log describes, and crashing after any of its own writes and recovering again yields the same |
| Admission.StepKeepsInv | kernel/log.c:127-235 | every begin_op, log_write, end_op and end of commit keeps: committing implies no operation runs, header entries are distinct, entries plus unspent reservations stay within bounds |
| Admission.ReservationsFit | kernel/log.c:127-142 | in every run with operations within MAXOPBLOCKS, header entries plus unspent reservations never exceed LOGSIZE, and a commit runs only without operations |
| Admission.PanicExactly | kernel/log.c:133-221 | for every log size and per-operation quota: the log_write panic on a full log can be reached if and only if ten blocks plus two quotas reach the limit; with a log of 30 blocks, if and only if operations may add the full ten blocks |
| Admission.CrowdedReachable | kernel/log.c:127-235 | the schedule of operations that fills the header to any size up to that limit |
| LogSystem.StepRefines | kernel/log.c:69-235 | every step of the cache, the log, the commit, recovery and crashes is a step of a list of logged writes of which a prefix is durable |
| LogSystem.RunRefines | kernel/log.c:69-235 | so does every run, with any number of clients, evictions and crashes |
| LogSystem.CrashAtomicity | kernel/log.c:69-203 | at every moment of every run, also after crashes during recovery, recovering the disk yields exactly the durable writes, and no operation is durable in part |
| LogSystem.DurableForever | kernel/log.c:194-203 | durable writes stay durable, in order, through all later steps and crashes |
| LogSystem.ReadersSeeLatest | kernel/bio.c:59-103 | whoever holds a valid buffer of a home block sees the contents last logged for it, whatever was recycled in between, and no other buffer holds that block |
| LogSystem.NoEarlyInstall | kernel/log.c:179-235 | until the header is written the home blocks on disk are the committed ones; blocks waiting for installation are cached, valid and referenced; during a commit no operation runs |
| LogSystem.GuardsFollow | kernel/log.c:69-235 | the side conditions in the machine's steps hold in every reachable state, so they cut off no step of the source |
| LogSystem.AdmitsExactly | kernel/log.c:125-142 | in every run begin_op lets an operation in exactly when no commit is under way and the 30 blocks of the log have room for ten blocks of it beside ten of every operation that runs and all that is logged already |
| LogSystem.LogsWhatWasWritten | kernel/log.c:215-235 | in every run what an operation last put in a buffer before its log_write is what is logged for that block, whatever others do in between |
| LogSystem.IdleIsDurable | kernel/log.c:146-203 | in every run, whenever no operation runs and no commit is under way, everything logged is durable and the home blocks on disk hold it: the last end_op has committed |
| BufferList.Unlinked | kernel/bio.c:117-137 | unlinking a buffer leaves one ring through the head and the other buffers, with prev the inverse of next |
| BufferList.Pushed | kernel/bio.c:36-53 | linking a buffer behind the head puts it in front of the order and keeps the ring |
| BufferList.Bcache.Binit | kernel/bio.c:37-53 | one ring through the head and all NBUF buffers, every buffer unused |
| BufferList.Bcache.LinkFront | kernel/bio.c:46-52 | the four assignments put a buffer in front and nothing else moves |
| BufferList.Bcache.FindCached | kernel/bio.c:66-72 | the forward scan finds the buffer of the block if there is one |
| BufferList.Bcache.FindVictim | kernel/bio.c:76-86 | the backward scan finds the unreferenced buffer whose last use lies furthest back, if there is one |
| BufferList.Bcache.Bget | kernel/bio.c:59-89 | a hit gains a reference; otherwise the least recently used unreferenced buffer is taken over for the block; panics exactly when all are referenced; the order stays |
| BufferList.Bcache.Brelse | kernel/bio.c:117-137 | one reference less; at zero the buffer, and no other, moves to the front of the order |
| BufferList.Bcache.MoveToFront | kernel/bio.c:124-134 | the six link assignments realise the move on the ring |
| BufferList.Bcache.Bpin | kernel/bio.c:140-144 | one reference more, nothing else |
| BufferList.Bcache.Bunpin | kernel/bio.c:147-151 | one reference less, and the order stays |
| FsSpec.InodeRoundTrip | kernel/fs.c:222-237 | an inode stored in its block is read back as stored, and the other inodes of the block are not touched |
| FsSpec.InodeLayout | kernel/fs.h:32-42 | inode k of a block lies at byte 64 k, its size at byte 8 and its thirteen addresses from byte 12 on, each a little-endian 32-bit word |
| FsSpec.ByteOfFile | kernel/fs.c:371-402 | byte p of a file is byte p mod 1024 of the block that direct address p / 1024 names, and past the twelfth block of the one that word p / 1024 - 12 of the indirect block names |
| FsSpec.DirectGrows | kernel/fs.c:378-390 | a free block put in an empty direct slot, or zeroed as the indirect block, keeps every ownership and bitmap invariant and all other contents |
| FsSpec.IndirectGrows | kernel/fs.c:391-402 | so does a free block put in an empty entry of the indirect block |
| FsSpec.FreeSlot | kernel/fs.c:90-103 | the block of a slot in use has its bit set, and freeing it leaves every other owner and bit as before |
| FsSpec.EntriesEnd | kernel/fs.c:420-432 | with all entries and the indirect block given up, clearing its address restores the ownership invariant |
| FsSpec.IupdateOk | kernel/fs.c:222-237 | writing an inode back changes that inode on disk, no other inode, no file and no bit |
| FileSystem.Fs.Balloc | kernel/fs.c:65-86 | returns the first block whose bit is clear, now set, zeroed and logged; panics exactly when all bits are set |
| FileSystem.Fs.TakeBlock | kernel/fs.c:76-80 | the block of that bit is marked and zeroed, and both blocks are logged |
| FileSystem.Fs.FirstClear | kernel/fs.c:72-75 | finds the first clear bit of a bitmap block |
| FileSystem.Fs.Bfree | kernel/fs.c:90-103 | clears exactly one bit, and panics exactly when it is clear already |
| FileSystem.Fs.BmapAddr | kernel/fs.c:383-391 | a direct address or the indirect block: found without any change, or allocated, zeroed and owned by this slot alone |
| FileSystem.Fs.BmapEntry | kernel/fs.c:392-400 | an indirect entry: found without any change, or allocated, zeroed, recorded and owned by this slot alone |
| FileSystem.Fs.BmapIndirect | kernel/fs.c:391-402 | the same for a block behind an indirect block that may have to be allocated first |
| FileSystem.Fs.Bmap | kernel/fs.c:378-405 | the block of a file block number: an existing one is found without allocating or logging; a new one keeps the ownership invariant; it panics exactly past MAXFILE or, with a block to allocate, only when every block is in use |
| FileSystem.Fs.Iupdate | kernel/fs.c:222-237 | the inode on disk becomes the one in memory and no other inode or owned block changes |
| FsContent.WriteRound | kernel/fs.c:494-507 | one round of writei turns the file with some bytes written into the file with more bytes written, across block and indirect boundaries |
| FsContent.OthersRead | kernel/fs.c:487-517 | files that keep their blocks keep their contents |
| FsContent.ReadsUnique | kernel/fs.c:456-517 | a file has at most one contents |
| FileSystem.Fs.WriteBlock | kernel/fs.c:495-506 | one round: the bytes of one block are written, or, when the copy fails, the block may be there but the contents are the same |
| FileSystem.Fs.FinishWrite | kernel/fs.c:509-516 | the size grows to the end of the write, the inode reaches the disk, and the file reads as the old contents overwritten |
| FileSystem.Fs.WriteBlocks | kernel/fs.c:494-507 | writei's loop writes a prefix of the data, all of it if the copies succeed, panics only when every block is in use, and touches at most the blocks that hold the range |
| FileSystem.Fs.Writei | kernel/fs.c:487-517 | refused exactly when it starts past the end or ends past MAXFILE; otherwise the contents become the old ones overwritten by the bytes written, other files and inodes stay, ownership is kept also when a copy fails after an allocation, the logged blocks are bounded, and it panics only when every block is in use |
| FileSystem.Fs.ReadBlock | kernel/fs.c:463-470 | one round of readi yields the bytes of the contents at the offset and changes nothing |
| FileSystem.Fs.Readi | kernel/fs.c:456-477 | returns exactly the clipped slice of the contents, -1 exactly when that does not fit the user memory, and allocates and logs nothing |
| FileSystem.Fs.Release | kernel/fs.c:90-103 | bfree of a block in use never panics |
| FileSystem.Fs.FreeDirect | kernel/fs.c:414-419 | one round of itrunc's first loop: the slot's block is free and the slot empty |
| FileSystem.Fs.FreeEntry | kernel/fs.c:424-427 | one round of itrunc's second loop, without the panic |
| FileSystem.Fs.FreeEntries | kernel/fs.c:420-430 | gives back every block the indirect block names |
| FileSystem.Fs.FreeIndirect | kernel/fs.c:421-432 | the indirect block goes after everything it names, and ownership holds again |
| FileSystem.Fs.Itrunc | kernel/fs.c:410-437 | all blocks of the inode and only they become free, bfree never meets a free block, the file is empty and every other file and inode stays |
| FileSystem.Fs.FreeInode | kernel/fs.c:338-352 | iput of the last reference without links: as itrunc, and the inode is free on disk |
| FsContent.ChunkTouches | kernel/file.c:149-165 | a chunk of filewrite covers at most four blocks, at every offset |
| FileSystem.ChunkSize | kernel/file.c:149-163 | chunks are never empty and at most three blocks long |
| FileSystem.Fs.WriteChunk | kernel/file.c:157-168 | one transaction: the contents advance by the bytes written, other files and inodes stay, inodes in memory and on disk stay the same, what it logs leads from the old disk to the new, and the distinct blocks logged are bounded |
| FileSystem.Fs.WriteNext | kernel/file.c:152-173 | one turn of the loop: the contents advance by a chunk, or it stops because the write does not fit or the memory cannot be read |
| FileSystem.Fs.WriteTurn | kernel/file.c:152-173 | the turn adds one transaction to those of the write, after which the file system is sound with that many bytes written |
| FileSystem.Fs.Filewrite | kernel/file.c:135-181 | the transactions together write a prefix of the data at the offset, all of it when the write fits and the memory can be read; after each of them the file system is sound, holds a whole number of chunks of the data except after the last, and is otherwise as before; each logs a bounded number of distinct blocks; it panics only when every block is in use |
| FileSystem.ChunksFitTheLog | kernel/file.c:149-175 | with one bitmap block every filewrite transaction logs at most 7 blocks, within MAXOPBLOCKS, and operations of that size never make log_write panic |
| FileCrash.LoggedLeads | kernel/log.c:69-123 | replaying what the first transactions logged leads to the disk they left, from the inodes on |
| FileCrash.DurableEnds | kernel/log.c:146-203 | the durable part of the log of a filewrite ends where one of its transactions ends |
| FileCrash.FsFrame | kernel/fs.c:65-437 | soundness of the file system does not depend on the blocks before the inodes |
| FileCrash.CrashDuringWrite | kernel/file.c:149-175 | at every moment of every run of the log during a filewrite, recovery after a crash finds a sound file system whose file holds the old contents overwritten by the chunks of the first few transactions, whole, and whose other files are as before; and by all of them whenever, after the last, no operation runs and no commit is under way |
| InodeTable.Scan | kernel/fs.c:250-258 | iget's loop finds the slot of the inode, else the first unused slot, else none |
| InodeTable.StepKeepsInv | kernel/fs.c:196-358 | every lock section of iget, idup, ilock, iupdate, iunlock, iput and ialloc keeps the table's invariant, in any interleaving |
| InodeTable.TableIsCache | kernel/fs.c:196-358 | in every run: at most one slot in use per (dev, inum), a slot is in use exactly while it is referenced, and an unlocked valid slot in use equals the logged disk inode, which is not free |
| InodeTable.LockSeesDisk | kernel/fs.c:289-313 | in every run a process that has locked an inode and not changed it since sees what is on disk |
| InodeTable.PutNeverBlocks | kernel/fs.c:338-343 | iput with the last reference never waits for the inode's lock |
| InodeTable.RaceHappens | kernel/fs.c:196-358 | the interleaving is reachable in which ialloc and iget pick up an inode number that iput has freed on disk but not yet let go of |
| InodeTable.IgetGives | kernel/fs.c:243-274 | in every run iget gives a new reference to a slot that holds the inode asked for; slots in use keep all but their count, and the disk and the other references stay as they are |
| InodeTable.IdupGives | kernel/fs.c:278-284 | in every run idup gives a second reference to the same slot and changes no other reference and nothing on disk |
| InodeTable.PutDecides | kernel/fs.c:333-358 | in every run iput truncates and frees exactly when its reference is the last one, the inode is valid and has no links, and otherwise drops its reference and changes nothing on disk |
| InodeTable.OnlyReference | kernel/fs.c:338 | ref is 1 exactly when the holder's reference is the only one to the slot |
| InodeTable.FreedIsEmpty | kernel/fs.c:345-348 | in every run what iput writes when it frees an inode has type 0, no links, size 0 and no addresses |
| InodeTable.FreedBeforeDropped | kernel/fs.c:338-356 | in every run a reference that iput drops after truncating has been preceded by the step that wrote type 0 for the same inode |
| InodeTable.DiskChanges | kernel/fs.c:196-237 | in every run the disk inode of a number changes only by ialloc of a free one, or by the holder of the lock of that inode, to what its slot then holds |
| InodeTable.IallocTakes | kernel/fs.c:196-217 | ialloc takes a free disk inode and leaves it with the type asked for and all else zero |
| InodeTable.HeldSince | kernel/fs.c:289-358 | in every run, while a process holds an inode and does not change it, its slot keeps the inode, whatever others do |
| InodeTable.UpdateWritesLast | kernel/fs.c:222-237 | in every run what the holder last made of an inode is what its iupdate writes to disk, and no other disk inode changes |
| InodeTable.GoesOn | kernel/fs.c:289-358 | in every run a reference can go on as the code says: ilock waits only for a lock that is taken and panics only over type 0, and iput never waits |
| Pipe.StepKeeps | kernel/pipe.c:59-130 | every step between lock operations of pipewrite, piperead, pipeclose, sleep, wakeup and kill keeps the ring and the lock in order, and every step but one loses no wakeup |
| Pipe.NoLostWakeups | kernel/pipe.c:59-130 | in every run without that step, whenever pi->lock is free a reader asleep implies an empty pipe with an open write end, and a writer asleep a full pipe with an open read end |
| Pipe.LostExactly | kernel/pipe.c:83-103 | a step loses a wakeup if and only if a killed writer returns after writing in the same stretch under the lock while a reader is asleep or about to be |
| Pipe.LostHappens | kernel/pipe.c:83-103 | such a state is reachable: a reader asleep, bytes in the pipe, the lock free and no writer left |
| Pipe.FirstInFirstOut | kernel/pipe.c:77-130 | in every run each byte read is the oldest one written and not yet read, also after nread and nwrite have wrapped |
| Pipe.ReadsInOrder | kernel/pipe.c:118-124 | the ring slot at nread holds the oldest byte not yet read |
| Pipe.ClosedExactly | kernel/pipe.c:59-69 | in every run an end of the pipe is closed exactly when a process has been in pipeclose for that end |
| Pipe.AcquireLeads | kernel/pipe.c:59-109 | whoever gets pi->lock starts what it came for, and pipeclose closes its end at once |
| Pipe.ReaderDecides | kernel/pipe.c:112-118 | in every run piperead sleeps exactly at an empty pipe with its write end open when not killed, gives up there if killed, and otherwise goes on to copy |
| Pipe.WriterDecides | kernel/pipe.c:82-97 | in every run pipewrite gives up if the read end is closed or it is killed, wakes readers before it sleeps at a full pipe, and otherwise appends its byte |
| Pipe.BytesMove | kernel/pipe.c:77-130 | in every run only write steps append to what was sent, each its byte, and only read steps take out |
| Pipe.ScanLeads | kernel/proc.c:725-740 | after its scan a wakeup goes on: at a full pipe to sleep on nwrite, otherwise out of the pipe with the lock released |
| Pipe.KillWakes | kernel/proc.c:745-768 | in every run right after kill the process is marked and not asleep; one that slept is on its way back to the lock |
| Pipe.KilledStays | kernel/proc.c:745-768 | in every run a process marked by kill stays marked |
| Pipe.NoDeadlock | kernel/pipe.c:59-130 | in every run the holder of pi->lock can go on as the code says, unless its wakeup waits for a process about to be off the processor, and then that one can; a free lock goes to whoever wants it |
| WaitExit.StepKeepsInv | kernel/proc.c:352-474 | every step between lock operations of fork, wait, exit, reparent, sleep, wakeup and kill keeps the invariant |
| WaitExit.NoLostWakeups | kernel/proc.c:367-474 | in every run, whenever wait_lock is free nobody is asleep in wait with a zombie child, also after reparent |
| WaitExit.NoOrphans | kernel/proc.c:367-425 | in every run every process but init has a parent that is alive, so every zombie has somebody to wait for it |
| WaitExit.WaitDecides | kernel/proc.c:437-471 | wait returns without a child exactly when there is none or it has been killed, and sleeps only when not killed and none of its children is a zombie |
| WaitExit.ParentChanges | kernel/proc.c:352-474 | in every run the parent of a process changes only when it is forked (to its creator), given to init by the exit of its parent, or waited for |
| WaitExit.LifeChanges | kernel/proc.c:352-474 | in every run a process comes to life only by fork, becomes a zombie only at the end of its own exit, and becomes unused only when its parent waits for it |
| WaitExit.ForkGives | kernel/proc.c:352-364 | in every run fork makes an unused process a live child of its caller, not killed |
| WaitExit.ChildStays | kernel/proc.c:352-474 | in every run a child stays its parent's until it is waited for or the parent calls exit |
| WaitExit.ReapTakes | kernel/proc.c:442-460 | in every run what wait reaps is a zombie child of its caller, which becomes unused; all others stay as they are |
| WaitExit.KillWakes | kernel/proc.c:745-768 | in every run right after kill the process is marked and not asleep |
| WaitExit.KilledStays | kernel/proc.c:745-768 | in every run a killed process stays marked until it has been waited for |
| WaitExit.ExitLeaves | kernel/proc.c:367-425 | in every run exit leaves a zombie without children whose parent is awake |
| WaitExit.NoDeadlock | kernel/proc.c:352-474 | in every run the holder of wait_lock can go on as the code says, unless it needs the lock of a process about to be off the processor, and then that one can; a free wait_lock goes to whoever wants it |
| Heap.FreedOrdered | user/umalloc.c:25-44 | the free list after free is in address order, and no two of its blocks overlap or touch |
| Heap.FreeUndoesMalloc | user/umalloc.c:25-90 | freeing what malloc just took gives back exactly the free list from before |
| Heap.SbrkAskedExactly | user/umalloc.c:47-61 | for every request: sbrk is asked for the bytes needed, which fit an int, if and only if the request is at most 2147483616 bytes; beyond that it is asked for less, or to shrink the process |
| Heap.GrantedExactly | user/umalloc.c:47-61 | morecore puts 4096 units or what is needed, if more, on the list; sbrk moves the end of the process's memory by that if and only if that many bytes fit an int, and otherwise by less |
| Heap.Overclaims | user/umalloc.c:47-90 | on a fresh heap a request of 4294967295 bytes obtains 16 bytes and is answered with a block of 268435457 units |
| Heap.Allocator.AddCore | user/umalloc.c:57-59 | the new units, joined with the last free block if they touch it, are on the list, and free plus live units grow by them |
| Heap.Allocator.Start | user/umalloc.c:68-71 | afterwards there is a list; one that was there is not touched, and no request fits that did not fit before |
| Heap.Allocator.FindPredecessor | user/umalloc.c:30-32 | free's search ends within one turn at the block behind which the freed one belongs |
| Heap.Allocator.LinkIn | user/umalloc.c:33-42 | the header writes of free, joining with the upper neighbour before the lower, have the effect FreeThreads ties to the list |
| Heap.Allocator.Free | user/umalloc.c:25-44 | the block, joined with the free neighbours it touches, is in the list; the other live blocks stay; free plus live units stay equal to the units obtained from sbrk |
| Heap.Allocator.MoreCore | user/umalloc.c:47-61 | at least 4096 units more are on the list, and some free block is large enough; they are memory the process has if their bytes fit an int, and otherwise the list reaches past its end and is more than sbrk gave; on refusal nothing changes |
| Heap.Allocator.Search | user/umalloc.c:72-89 | the search goes round the list once, asks for memory only if no block is large enough, at most once, and then finds one; all memory is still backed if nothing had to be asked for or it fits an int, and otherwise not |
| Heap.Allocator.TakeOut | user/umalloc.c:74-80 | a block of the exact size leaves the list, a larger one loses its tail |
| Heap.Allocator.Hand | user/umalloc.c:73-83 | the units handed out come from one free block and belong to no live block |
| Heap.Allocator.Allot | user/umalloc.c:72-89 | malloc's loop: a block of the units asked for or failure, with the same account of what is backed |
| Heap.Allocator.Malloc | user/umalloc.c:64-90 | for every request and every sound heap: a block of the needed size apart from all live ones; fails if and only if no free block is large enough and sbrk refuses; conserves units; and all free and live blocks are memory that sbrk gave if and only if it fails, a free block was large enough, or the request is at most 2147483616 bytes |
| PageTable.PteRoundTrip | kernel/riscv.h:329-341 | the page number and flags put in an entry are read back |
| PageTable.LeafExactly | kernel/vm.c:269 | an entry is a leaf, not a table, exactly if one of its read, write and execute bits is set |
| PageTable.AddressSpace | kernel/riscv.h:348-351 | an address is below MAXVA exactly if three levels of nine bits reach it in their lower half |
| PageTable.NextPrefix | kernel/riscv.h:343-345 | the indices of the three levels are the digits of the page number |
| PageTable.LeafSlot | kernel/riscv.h:343-345 | table and index of a page's leaf entry are the quotient and the remainder of its number by 512, so distinct pages have distinct entries |
| PageTable.SetLeaf | kernel/vm.c:138-184 | writing a leaf entry changes the translation of one page, keeps all others and keeps the tree unshared |
| PageTable.HungKeeps | kernel/vm.c:86-96 | a new empty table in an invalid entry changes no translation and keeps the tree unshared |
| Vm.Machine.Kalloc | kernel/kalloc.c:69-82 | the first free page, filled with junk, or 0 exactly when there is none |
| Vm.Machine.Kfree | kernel/kalloc.c:47-63 | the page, filled with junk, is in front of the free list |
| Vm.Machine.HangNew | kernel/vm.c:91-95 | walk's else branch: one page leaves the free list and becomes a table of this tree |
| Vm.Machine.Walk | kernel/vm.c:81-98 | the slot of the page's leaf entry; no translation changes; pages taken become tables of this tree; fails only when pages have run out, or without alloc exactly when a table is missing |
| Vm.Machine.MapOne | kernel/vm.c:145-152 | one page more is mapped, and nothing else changes |
| Vm.Machine.MapNext | kernel/vm.c:145-155 | a mapped range followed by one more page is a mapped range |
| Vm.Machine.UnmapOne | kernel/vm.c:170-182 | one translation is gone and, with do_free, its page is free; no other translation or free page changes |
| Vm.Machine.MapPages | kernel/vm.c:138-157 | exactly the pages of the range map to consecutive pages with the permission, all of them unless pages run out; every other translation stays |
| Vm.Machine.UvmUnmap | kernel/vm.c:163-184 | exactly the translations of the range are gone; with do_free every page they mapped is in the free list once |
| Vm.Machine.UvmDealloc | kernel/vm.c:248-259 | exactly the pages wholly above the new size are unmapped and freed |
| Vm.Machine.AllocOne | kernel/vm.c:225-238 | a fresh page with given contents is mapped, or, with at most one page left, everything it took but new tables is given back |
| Vm.Machine.Undo | kernel/vm.c:226-236 | taking back the pages mapped so far restores the map and the number of free pages, but for new tables |
| Vm.Machine.UvmAlloc | kernel/vm.c:218-241 | either every new page has a zeroed page of its own, or the map is as before, every leaf page has been given back, and no more pages are free than were asked for; pages are conserved |
| Vm.Machine.UvmCopy | kernel/vm.c:298-325 | either every page of the new map is a copy with the same flags in a page of its own, disjoint from the old ones, or the new map is as before, every leaf page has been given back, and no more pages are free than the copy needs; the old map stays |
| Vm.UndoneOk | kernel/vm.c:226-236 | backing a range and taking it back restores the map and gives back every leaf page |
| Vm.Machine.FreeWalk | kernel/vm.c:264-279 | every table below is freed exactly once and the panic on a leaf is not reached |
| Vm.Machine.UvmFree | kernel/vm.c:284-289 | every user page and every table goes to the free list exactly once |
| Vm.Machine.ProcFreePagetable | kernel/proc.c:244-249 | the same for a process, whose trampoline and trapframe pages are unmapped but not freed |
| Virtio.Queue.AllocDesc | kernel/virtio_disk.c:145-154 | takes the first free descriptor, or none exactly when there is none |
| Virtio.Queue.FreeDesc | kernel/virtio_disk.c:158-170 | clears and frees one descriptor |
| Virtio.Queue.FreeChain | kernel/virtio_disk.c:174-185 | frees the descriptors of the chain, all of them and no other |
| Virtio.Queue.Undo | kernel/virtio_disk.c:194-196 | the descriptors taken so far are free again and everything is as before |
| Virtio.Queue.Alloc3Desc | kernel/virtio_disk.c:190-201 | takes the first three free descriptors, or, exactly when there are fewer, none and leaves everything as it was |
| VirtioRing.RingPush | kernel/virtio_disk.c:257-263 | writing the next ring entry overwrites none that still waits, across uint16 wraparound |
| VirtioRing.RingPop | kernel/virtio_disk.c:298-312 | the entry read is the oldest that waits |
| VirtioRing.RingEmpty | kernel/virtio_disk.c:298 | the two indices differ exactly when something waits |
| VirtioRing.StepKeepsInv | kernel/virtio_disk.c:204-315 | every lock section of the driver and every move of a device that completes in any order keeps the invariant |
| VirtioRing.AtMostTwo | kernel/virtio_disk.c:190-201 | in every run at most NUM / 3 requests are under way, and every descriptor is free or in a chain |
| VirtioRing.CompletionIsExact | kernel/virtio_disk.c:298-312 | in every run each round of the interrupt finds a completed request, with status 0, and clears b->disk of exactly the buffer that issued it |
| VirtioRing.DeviceSees | kernel/virtio_disk.c:204-263 | in every run the head the device takes is that of an earlier call of virtio_disk_rw, and its three descriptors spell that call: command 1 for a write and 0 for a read at sector twice the block number, the data of its buffer, as at the call, written by the device exactly for a read, and its status byte |
| VirtioRing.FinishIsDone | kernel/virtio_disk.c:272-277 | virtio_disk_rw goes on exactly when its own request has been completed, and what free_chain follows is its own chain |
| VirtioRing.SubmittedBy | kernel/virtio_disk.c:204-263 | in every run every request under way stems from an earlier call that has not returned since |
| VirtioRing.TransferIs | kernel/virtio_disk.c:224-255 | a request's chain is one the device accepts, and following it transfers exactly the two sectors of the block between disk and buffer, in the right direction, and reports in the right status byte |
| VirtioRing.DiskRw | kernel/virtio_disk.c:204-280 | in every run, when virtio_disk_rw returns the device has served it: a write has put the buffer as it was at the call on the two sectors of its block, a read has put those sectors into the buffer, and nothing else has touched the buffer |
| VirtioRing.BlockStays | kernel/virtio_disk.c:204-280 | a block on disk changes only when the device serves a write of that block |
| VirtioRing.ReadsLastWrite | kernel/virtio_disk.c:204-280 | in every run a read gives what the last write of that block the device served before it found in its buffer when it was called |
| VirtioRing.RequestCan | kernel/virtio_disk.c:204-315 | in every run the next step of every request is enabled, so none gets stuck over a wrapped index, a chain the device rejects or the panic over the status |
| Shell.GetToken | user/sh.c:319-361 | a word token is a maximal run of word characters; every token but the last is not empty; the cursor never moves back |
| Shell.ParseRedirs | user/sh.c:428-450 | every file name is a word of the input, and every redirection opens with mode 0 as 0, 0x601 as 1 or 0x201 as 1 |
| Shell.ExecLoop | user/sh.c:482-495 | at most nine arguments, all of them words of the input |
| Shell.ParseExec | user/sh.c:469-499 | terminates on every input; the command is built from words of the input |
| Shell.ParseBlock | user/sh.c:453-466 | terminates on every input; the command is built from words of the input |
| Shell.ParsePipe | user/sh.c:415-425 | terminates on every input; the command is built from words of the input |
| Shell.ParseLine | user/sh.c:398-412 | terminates on every input; the command is built from words of the input |
| Shell.ParseCmd | user/sh.c:381-395 | succeeds only when the whole input has been used |
| Shell.PrintParse | user/sh.c:381-499 | for every command the parsers can produce: parsing the printed command gives it back; a redirection of mode 0 is printed with <, 0x601 with > and 0x201 with >> |
| Shell.BuiltPrintable | user/sh.c:381-499 | every command parsed from an input is one that can be printed |
| Shell.ParsePrintParse | user/sh.c:381-499 | for every input that parses, printing its command and parsing that gives the same command |
| Shell.NamesIntact | user/sh.c:503-546 | after nulterminate every argument and file name, read as a C string, is exactly its word: no NUL lands inside another |
| Shell.NulTerminate | user/sh.c:503-546 | a NUL behind every word of the command and no other change |
| ShellGrammar.TokenAt | user/sh.c:319-361 | where the input falls into tokens, gettoken finds the next one |
| ShellGrammar.LineSound | user/sh.c:398-412 | a line that parseline accepts is derived by the grammar as the command it returns |
| ShellGrammar.LineComplete | user/sh.c:398-412 | a derived line before a closing parenthesis or the end is accepted as that command |
| ShellGrammar.ParsesExactly | user/sh.c:381-499 | for every input: parsecmd accepts it as a command if and only if the grammar derives its tokens as that command |
| ShellGrammar.AcceptsExactly | user/sh.c:381-499 | every input falls into tokens, and parsecmd panics if and only if the grammar derives no command from them |
| ShellParser.Parser.SkipBlanks | user/sh.c:325-326 | the cursor goes to the first character that is not white space |
| ShellParser.Parser.SkipLetters | user/sh.c:350-351 | the cursor goes to the end of the word |
| ShellParser.Parser.NextToken | user/sh.c:319-361 | the loops over the cursor compute the token and leave the cursor where the grammar says |
| ShellParser.Parser.PeekFor | user/sh.c:364-373 | moves the cursor past white space and reports the next character |
| ShellParser.Parser.Redirections | user/sh.c:428-450 | the loop over redirections computes the grammar's list |
| ShellParser.Parser.Arguments | user/sh.c:482-495 | the loop over arguments computes the grammar's command |
| ShellParser.Parser.Command | user/sh.c:469-499 | parseexec computes the grammar's command and cursor |
| ShellParser.Parser.Block | user/sh.c:453-466 | parseblock computes the grammar's command and cursor |
| ShellParser.Parser.Pipeline | user/sh.c:415-425 | parsepipe computes the grammar's command and cursor |
| ShellParser.Parser.Ampersands | user/sh.c:403-406 | the loop over ampersands wraps the command once for each |
| ShellParser.Parser.Line | user/sh.c:398-412 | parseline computes the grammar's command and cursor |
| ShellParser.Parser.Whole | user/sh.c:381-395 | parsecmd computes the grammar's command, or panics on leftovers |
| Fcfs.StepKeepsInv | kernel/proc.c:484-541 | forks, yields, sleeps, exits, wakeups between the scan's lock sections, the scan and the dispatch keep the invariant |
| Fcfs.TicketsDistinct | kernel/proc.c:107-116 | in every run the tickets of RUNNABLE processes are distinct and below the counter |
| Fcfs.EarliestFirst | kernel/proc.c:512-541 | in every run a scan that began with a RUNNABLE process dispatches one that was there when it began, with the smallest ticket of all that are RUNNABLE by then |
| Fcfs.OrderExactly | kernel/proc.c:512-541 | in every run a dispatch takes the smallest ticket of all RUNNABLE processes if and only if no process became RUNNABLE at a place the scan had passed while nobody was RUNNABLE |
| Fcfs.BoundedWaiting | kernel/proc.c:512-541 | in every run, while a process waits (from the first scan that begins with it RUNNABLE) no more processes are dispatched than had an earlier ticket when it began to wait |
| Fcfs.OvertakingHappens | kernel/proc.c:512-541 | when a scan begins with nobody RUNNABLE, a process can be overtaken by one woken later |
| Fcfs.LifeCycle | kernel/proc.c:484-768 | in every run a process changes state exactly as its fork, yield, sleep, exit, wakeup, kill, wait or the dispatch says, takes the next ticket exactly when it becomes RUNNABLE, and whoever leaves the processor starts a scan |
| Fcfs.LastInLine | kernel/proc.c:107-116 | in every run whoever becomes RUNNABLE has a later ticket than all who already are |
| Fcfs.StaysAway | kernel/proc.c:694-760 | in every run a sleeping process stays so until it is woken and a zombie until it is waited for |
| Fcfs.YieldGivesWay | kernel/proc.c:659-668 | in every run, when a process yields while another is RUNNABLE, the next one dispatched is not the one that yielded |
| Grep.MatchIsRight | user/grep.c:71-104 | match holds exactly when some substring of the text is in the language of the pattern, at its start for a caret and at its end for a final dollar |
| Grep.HereIsRight | user/grep.c:83-94 | matchhere holds exactly when a word of the pattern starts at this position |
| Grep.StarIsRight | user/grep.c:97-104 | matchstar holds exactly when after some characters of the class the rest of the pattern occurs |
| Grep.PlainIsSubstring | user/grep.c:71-94 | a pattern without operators matches exactly the texts that contain it |
| Grep.DotsCount | user/grep.c:71-94 | a pattern of n dots matches exactly the texts of n characters or more |
| Grep.StarLine | user/grep.c:71-104 | caret, c, star, dollar matches exactly the texts that consist of c only, and every text if c is a dot |
| Grep.DoMatchHere | user/grep.c:83-94 | computes matchhere, and terminates |
| Grep.DoMatchStar | user/grep.c:97-104 | the loop computes matchstar, and terminates |
| Grep.DoMatch | user/grep.c:71-80 | the loop says yes exactly when some substring of the text is in the language of the pattern, and terminates |
| Grep.PrintLines | user/grep.c:22-29 | the inner loop prints what the complete lines in the buffer call for and keeps the unfinished one |
| Grep.Feed | user/grep.c:18-33 | one read: afterwards the buffer holds the unfinished line alone |
| Grep.Grep | user/grep.c:11-34 | for NUL-free input, however read splits it: prints the newline-terminated lines with a substring in the language of the pattern, in order, up to the first line longer than 1023 bytes with its newline |
| Grep.PrintedExactly | user/grep.c:11-34 | so the output is exactly the matching lines for every nonempty pattern if and only if every newline-terminated line is at most 1023 bytes with its newline |
| Grep.LostLine | user/grep.c:11-34 | of a matching line of 1023 bytes and its newline nothing is printed |
| Grep.Input.Read | user/grep.c:17 | read returns some of what is left, nothing only at the end of the input or when asked for nothing |
| Grep.FindNewline | user/grep.c:21 | finds the first newline of the rest of the buffer, if there is one |
| Grep.PrintOne | user/grep.c:22-26 | prints the line if it matches and leaves what follows it as it is |
| Grep.NextLine | user/grep.c:21-28 | one turn of the inner loop leaves the rest of the output to the rest of the buffer |
| Grep.MoveDown | user/grep.c:29-32 | the unfinished line is at the start of the buffer |
| Grep.Store | user/grep.c:17-19 | the bytes read follow what was in the buffer, with a NUL behind them |

## Left out

- The DEFAULT, SRT and CFSD schedulers, set_priority, trace and wait_stat: bookkeeping, easy members or no clean property.
- Directories and path names (dirlookup, dirlink, namex), exec, the system call layer and mkfs: mostly plumbing around what is modelled.
- Traps, interrupts, the console, the UART, the clock and assembly: hardware. A disk write of one block is atomic.
- Liveness: the theorems are about safety, termination of loops, the bounded waiting of the FCFS scheduler, and that a holder of a lock is never stuck; not that it is ever scheduled.
- Several devices in the log: one root device, as in the source's use of it.
- `LogSystem` and `BufferList` are two views of kernel/bio.c: the first lets bget recycle any unreferenced buffer, the second shows which one it is.
- `Journal` runs log.c with one process; the interleaving with other processes is in `LogSystem`.
- FileSystem.Fs.Writei: a copy from user memory that fails is taken to fail before the block is changed; the source may leave a changed buffer unlogged.
- FileSystem.Fs.Writei and FileSystem.Fs.Readi: stated for files without holes, the only ones these operations make.
- FileSystem.Fs.Filewrite: no other process writes the file between two of its transactions.
- FileCrash.CrashDuringWrite: the write starts when everything logged before is durable, and nobody else writes meanwhile.
- `FileSystem` keeps all inodes in memory by number; reading them in and dropping them is `InodeTable`.
- InodeTable.TableIsCache: holders are taken to have called iupdate after their last change when they unlock; reading a hole would break that, and no file has one.
- `InodeTable` takes itrunc as one step; what it does to blocks is `FileSystem.Fs.Itrunc`.
- The virtio device: it may complete requests in any order but completes each with status 0, and blocks lie on the disk; another status is a panic in the source.
- `VirtioRing` keeps the contents of a sector as one value and takes a transfer as one step.
- Journal.Log.LogWrite: called inside a transaction, as `LogSystem.GuardsFollow` shows it is; the panic outside of one is not modelled there.
- Pipe.NoLostWakeups: the pipe's memory is not given back when both ends are closed.
- WaitExit.NoOrphans: fork is one step; between its lock sections the child, which cannot run yet, has no parent.
- `WaitExit` leaves out the fields of a process other than its life, parent and killed flag, and sleeps outside wait.
- Vm.Machine.Kalloc and Vm.Machine.Kfree: the free list is a sequence of pages; that its links lie in the pages themselves is not modelled.
- Vm.Machine.Kfree: a page that is already free is the caller's error, which the source does not detect.
- `Vm` takes physical addresses to fit in an entry, and leaves out the TLB, copyin and copyout.
- `Heap` counts in units of one header; that sbrk's result is aligned to 16 bytes, which the source takes for granted, is taken for granted too.
- Heap.Allocator.Malloc: other callers of sbrk only grow the process. A header past the end of the process's memory is taken to be written; on the machine that may fault, which ends the process. A heap that reaches past the end is not used further.
- `Shell` leaves out running commands; the argument list of a command that parseexec keeps extending after it has been wrapped in redirections is assembled before it is wrapped.
- Grep.Grep: the input holds no NUL.
- Queue counters and tickets are unbounded; the source's are 64 bits wide.
