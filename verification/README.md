# A verified model of the xv6 core

This project models the parts of this xv6 fork whose correctness is hardest to
see from the code, and proves what they promise for every input, every
interleaving and, for the log, every crash.

How the models are built:

- Code that updates things in place is a class (`Log`, `FileSystem`, `Heap`,
  `Ptable`, `Cache`, `Bcache`, `Driver`, `Directory`, `Pipe`) whose methods
  have the original's loops and are proved against functions on values.
- A concurrent protocol is a step system. Each step is one atomic section of
  the original (what runs under one spin lock, or one block write); a step
  that is not enabled changes nothing, so every sequence of steps is a run.
  The steps use the functions that the methods are proved against. Theorems
  are about all reachable states.
- A panic of the kernel is a state or a result, so that it can be proved
  unreachable, or reached by a concrete run.

| files | component |
|---|---|
| `Blocks` `LogFormat` `LogRuns` `LogSafety` `LogTheorems` `LogDevice` | write-ahead log (log.c) |
| `LogReservation` | the log's reservations against the blocks that a write logs (log.c, file.c) |
| `Bitmap` `FsState` `FsAlloc` `FsContent` `FsSpace` `FsTrunc` `Fs` `FullChunk` | block allocator and file contents (fs.c, file.c) |
| `ICache` `ICacheSafety` `ICacheTheorems` `ICacheLeaks` `ICacheRuns` | inode cache (fs.c) |
| `Names` `Dir` `Path` | directories and path names (fs.c, string.c) |
| `Bio` `BufCache` `BioRuns` `BioSafety` `BioTheorems` | buffer cache (bio.c, sleeplock.c) |
| `Ide` `IdeDriver` | disk queue (ide.c against memide.c) |
| `ProcTable` `ProcRuns` `ProcSafety` `ProcTheorems` `ProcSleep` | process table and scheduler (proc.c) |
| `PipeRing` `PipeRuns` | pipes (pipe.c) |
| `FreeList` `Umalloc` | user-level allocator (umalloc.c; section 8.7 of The C Programming Language, 2nd ed.) |
| `ShellSyntax` `ShellPlain` `ShellLex` `ShellTexts` `ShellParser` `Shell` | shell parser (sh.c) |
| `Grep` | pattern matcher (grep.c) |
| `Options` | optional values |

Five properties that one might expect turn out false of the code. Each has a
run or an input that shows it, and the exact condition under which it holds:

- A new block within its operation's reservation always finds room in the log:
  this holds if and only if the log has more than LOGSIZE blocks
  (`LogSpaceSuffices`). mkfs makes LOGSIZE of them, and then, on any disk with
  LOGSIZE blocks after the log, `log_write` can panic within every reservation
  (`LogSpaceFallsShort`).
- A block that is in the log already can always be written again: with a log of
  more than LOGSIZE blocks this holds if and only if the list has fewer than
  LOGSIZE entries, and `log_write` has no other panic; a smaller log must also
  have a slot left (`LogWritePanicsIff`; `FullLogRefusesAbsorption` has the
  run).
- An inode without links is freed when its last reference goes. A run of the
  kernel's own calls (create, unlink's lookup, two overlapping `iput`s) leaks it
  (`OverlappingPutsLeak`), and so does an `iput` of an inode that was never read
  (`UnloadedPutLeaks`). `LeaksIff`, `DoomedIff` and `DoomedOverRun` say that an
  inode is leaked exactly if some `iput` looked at it, without links, when every
  other reference had passed its own check, and found it not valid or another
  reference still there; and that this is for ever.
- A reader never sleeps on a pipe with bytes in it: after a writer is killed, one
  can sleep on a full pipe (`KillLosesWakeup`). `NextSleepers` says exactly
  which steps do this.
- Every command that the shell's trees can hold parses back: this holds if and
  only if no command has ten words or more (`RoundTrip`, `ShownRoundTrip`,
  `TextRoundTrip`, `ShownTextRoundTrip`).

## Model

| member | source | states |
|---|---|---|
| `LogTheorems.RecoveredIsPrefixOfCommits` | log.c:69-122 | in every reachable state, whatever the interleaving and the crashes so far, recovering the disk as it is gives the home blocks after a prefix of the group commits: all finished ones, and the one in progress exactly if its header is written |
| `LogTheorems.AllOrNothing` | log.c:69-122 | a crash after any number k of commit's block writes, then any number of crashed recoveries, leaves the home blocks as before the group if k is at most the number of log blocks and as after it otherwise, and recovering once more changes nothing |
| `LogTheorems.CrashedCommitState` | log.c:177-202 | the same at the level of the group history: the group is recorded as durable from the header write on and never before |
| `LogTheorems.CommitsAreNeverLost` | log.c:192-202 | over every run, with crashes, durable groups stay durable, in order |
| `LogTheorems.RecoveryKeepsDurable` | log.c:115-122 | crashed and completed recoveries neither add nor drop a group, so recovery is idempotent |
| `LogTheorems.HeaderEmptyWhileSlotsChange` | log.c:177-202 | while log slots are being overwritten the header on disk lists nothing |
| `LogTheorems.EachOperationInOneCommit` | log.c:125-174 | over every run no operation has writes in two group commits |
| `LogTheorems.CommitExcludesOperations` | log.c:145-174 | committing implies no operation outstanding, end_op's and log_write's "outside of trans" panics are unreachable, and whoever sleeps in begin_op has a waker: a commit or an outstanding operation |
| `LogTheorems.SleepersHaveReason` | log.c:125-174 | in every reachable state whoever sleeps in begin_op would still be told to wait by its two tests: no wakeup is missed |
| `LogTheorems.BeginEnters` | log.c:125-141 | begin_op enters exactly if no commit is on and ten more blocks for everyone fit in 30, and the operation then has a number that no other has and nothing was written under |
| `LogTheorems.LogWriteTakesEffect` | log.c:213-233 | a block logged is what every read of it gives from then on, goes into the current group under its operation, and no other block is touched |
| `LogTheorems.ReadsAreCurrent` | log.c:213-233 | a cached read of any home block gives the contents with the current group applied, and a block whose disk copy is behind is cached and dirty |
| `LogTheorems.LogSpaceSuffices` | log.c:125-141 | with a log of more than LOGSIZE blocks, an operation with reservation left never meets log_write's "too big a transaction" |
| `LogTheorems.LogSpaceFallsShort` | mkfs.c:25 | with LOGSIZE blocks or fewer a concrete run within every operation's reservation panics |
| `LogTheorems.FullLogRefusesAbsorption` | log.c:218-219 | the guard also refuses a block that is already in a full log and would be absorbed |
| `LogTheorems.LogWritePanicsIff` | log.c:213-233 | in every reachable state and for every block, log_write panics if and only if the list has LOGSIZE entries or all slots are taken; with a log of more than LOGSIZE blocks the list is then full, the block is in it already, and every running operation has used up its reservation |
| `LogReservation.FewBlocksFitReservation` | log.c:125-141 | over every run, an operation that logs only blocks of a set of at most ten has reservation left for any block of the set that is not listed, and is not refused if the log has more than LOGSIZE blocks |
| `LogReservation.ChunkFitsReservation` | file.c:127-151 | so every block that a chunk of filewrite passes to log_write for the first time finds room, whatever other operations do |
| `LogTheorems.CommitIsRun` | log.c:192-202 | the block writes that the commit method does are the block-write steps of the runs |
| `LogTheorems.ReachableInv` | log.c:125-233 | what every step keeps: cache, disk, reservations and history agree |
| `LogDevice.Log.WriteLog` | log.c:177-190 | the disk images it passes through are slot writes 0 to n - 1 of the commit, in order |
| `LogDevice.Log.LogBlock` | log.c:182-189 | one block's buffer is copied to its log slot, one block write |
| `LogDevice.Log.WriteHead` | log.c:98-113 | one block write, of the header listing the logged blocks |
| `LogDevice.Log.FillHeader` | log.c:98-113 | word 0 of the header block is the count and the next words are the block numbers; all other words are kept |
| `LogDevice.Log.InstallTrans` | log.c:69-82 | the disk images are home-block writes 0 to n - 1 of the commit |
| `LogDevice.Log.InstallBlock` | log.c:74-81 | one log slot is copied to its home block, one block write |
| `LogDevice.Log.Commit` | log.c:192-202 | exactly 2n + 2 block writes in commit order, or none for an empty log, and the log empty after |
| `LogDevice.Log.ReadHead` | log.c:84-96 | the in-memory list is words 1 to n of the header on disk, n being word 0 |
| `LogDevice.Log.Bread` | bio.c:96-106 | the cached contents, loaded from disk if need be |
| `LogDevice.Log.Bwrite` | bio.c:109-116 | one block write: buffer and disk agree and the buffer is clean |
| `LogDevice.Log.LogAndMark` | log.c:196-197 | the first half of a commit: all slots, then the header, n + 1 block writes in order |
| `LogDevice.Log.InstallAndClear` | log.c:198-200 | the second half: all home blocks, then the empty header, n + 1 block writes in order |
| `LogDevice.Log.RecoverFromLog` | log.c:115-122 | the disk becomes the recovered disk of the specification |
| `LogDevice.RecoveryIsRecovered` | log.c:115-122 | the writes of recovery add up to installing the listed slots and clearing the header |
| `LogDevice.Log.BeginOp` | log.c:125-141 | enters exactly if no commit is on and a whole reservation fits |
| `LogDevice.Log.EndOp` | log.c:145-174 | panics exactly if a commit is on; the last one out commits, with the block writes of a commit, others only leave |
| `LogDevice.Log.LogWrite` | log.c:213-233 | a block is noted once and its buffer pinned, exactly under the code's three guards, whatever block it is; the log stays well formed for a block outside it |
| `LogFormat.PutHeader` | log.c:98-113 | writing a header and reading it back gives the same list |
| `Blocks.WordBytes` | fs.c:390-395 | words are little-endian in a block's bytes, and writing one leaves all other bytes alone |
| `Fs.FileSystem.Balloc` | fs.c:56-79 | the lowest free block, marked and zeroed, with one block fewer free; out of blocks exactly if all are in use |
| `Fs.FileSystem.FindFree` | fs.c:63-78 | the outer loop goes from bitmap block to bitmap block and misses no clear bit |
| `Fs.FileSystem.FindFreeIn` | fs.c:66-75 | the inner loop: the first clear bit of one bitmap block |
| `Fs.FileSystem.Bfree` | fs.c:81-97 | clears one bit, or panics exactly if it was clear |
| `Fs.FileSystem.Bmap` | fs.c:374-402 | for every block number of every file, holes or not: the answer is entry bn of addrs, or entry bn - 12 of the indirect block; an existing block is returned with nothing changed; otherwise a zeroed block, and an indirect block if there was none, go to this file alone, with the blocks logged named and no other reference moved; out of blocks if and only if fewer are free than it takes |
| `Fs.FileSystem.GrowDirect` | fs.c:380-384 | a direct slot gets a free block, if and only if there is one |
| `Fs.FileSystem.GrowIndirect` | fs.c:391-396 | an entry of the indirect block gets a free block, if and only if there is one |
| `Fs.FileSystem.GrowFirstIndirect` | fs.c:387-396 | the indirect block and an entry of it get free blocks, one after the other, if and only if there are two |
| `Fs.FileSystem.Readi` | fs.c:454-478 | the bytes of the file from off, cut at its end; errors exactly as coded; nothing is allocated and bmap never panics |
| `Fs.FileSystem.Writei` | fs.c:483-513 | the bytes spliced into the file at off, all other files unchanged, ownership and no-hole invariants kept, size updated through to disk, new blocks taken from the free ones and as many as the file lacked, and which blocks were logged, within the bound; errors exactly as coded, and out of blocks if and only if fewer are free than the file lacks |
| `Fs.FileSystem.WriteLoop` | fs.c:500-506 | the copying loop, with bmap never called past MAXFILE; it runs out of blocks if and only if fewer are free than the file lacks |
| `Fs.FileSystem.WriteRound` | fs.c:500-506 | one round: the bytes of one block, the block allocated if it is past the end, and what was logged |
| `Fs.FileSystem.ExtendTo` | fs.c:508-511 | the size grows and is written through exactly if something was written past it |
| `Fs.FileSystem.Itrunc` | fs.c:409-437 | exactly the blocks the file owned become free, the file is empty, exactly their bitmap blocks and the inode's block are logged, and "freeing free block" is unreachable |
| `Fs.FileSystem.FreeSlotBlock` | fs.c:416-432 | one reference's block is freed, which was in use |
| `Fs.FileSystem.FreeEntries` | fs.c:422-429 | the loop over the indirect block frees every entry's block and logs its bitmap block |
| `Fs.FileSystem.Ialloc` | fs.c:196-216 | the lowest free inode becomes an empty file that owns nothing, and its block is logged; every other file is unchanged |
| `Fs.FileSystem.FreeInode` | fs.c:341-347 | freeing an inode keeps all invariants and every other file's bytes |
| `Fs.FileSystem.Iupdate` | fs.c:222-238 | the inode is written through and its block logged |
| `Fs.FileSystem.Filewrite` | file.c:117-156 | exactly when it succeeds, fails, panics or goes to a device, from off, the file's size and the free blocks; what then is in the file: all of src, or if it passes MAXFILE blocks the whole chunks that fit, or nothing if off is past the end, with f->off advanced by as much; every chunk logs at most ten blocks |
| `FsSpace.TookChunk` | file.c:127-151 | chunk after chunk takes as many free blocks as one write of all the bytes would |
| `FsSpace.LackingChunk` | file.c:127-151 | a chunk that finds too few free blocks means too few for the whole write |
| `FsSpace.NextChunk` | file.c:127-151 | a chunk is past MAXFILE blocks exactly when all whole chunks that fit have been written |
| `FsSpace.LackingRound` | fs.c:500-506 | a round that finds no block means that the write as a whole lacks blocks |
| `FsContent.ChunkFits` | file.c:127-151 | a chunk of at most 1536 bytes logs at most MAXOPBLOCKS blocks wherever it starts |
| `FsContent.ChunkIsTight` | file.c:127-151 | on every disk whose free blocks are in different bitmap blocks, writing 1536 bytes at the end of a file of 5633 logs exactly ten distinct blocks |
| `FullChunk.TenLogged` | file.c:127-151 | on a concrete disk image writei succeeds and logs ten blocks, so the bound of ChunkFits is reached |
| `FullChunk.ImageOk` | fs.c:374-402 | that image is well formed: blocks singly owned and marked, no holes |
| `FullChunk.ImageSpread` | fs.c:63-78 | no two of its free blocks, of which there are at least four, share a bitmap block |
| `FsContent.ReadAfterWrite` | fs.c:454-513 | a read after a write gives the bytes written where they were written, and elsewhere and in every other file what was there |
| `FsContent.BytesOnDisk` | fs.c:365-402 | byte k of a file is byte k % 512 of the block that addrs[k / 512] names, or from block 12 on entry k / 512 - 12 of the indirect block |
| `FsContent.SpliceTwice` | file.c:117-156 | two adjacent writes are one write |
| `FsContent.DataWritten` | fs.c:500-506 | writing a data block changes the bytes of that block of that file and of no other file |
| `FsContent.GrownKeepsBytes` | fs.c:374-402 | allocating moves no byte of any file |
| `FsContent.GrownNoHole` | fs.c:374-402 | the block past the end leaves a file without holes without holes, and takes one free block, or two at the first indirect one |
| `FsAlloc.PutOwner` | fs.c:374-402 | giving a free block one owner keeps every block singly owned, nonzero and marked |
| `Bitmap.BitIs` | fs.c:67-70 | block b is in use exactly if bit b % 8, from the lowest, of byte b / 8 is set |
| `FsTrunc.Truncated` | fs.c:409-437 | freeing all of a file's slots leaves a well-formed image |
| `ICacheTheorems.FreesOnlyLastReference` | fs.c:333-354 | from iput's check until the inode is free on disk no other reference to it exists, no directory entry names it and ialloc has not given it out |
| `ICacheTheorems.OneEntryPerInode` | fs.c:243-274 | references to the same inode, and only those, share a cache entry |
| `ICacheTheorems.OnlyIputFrees` | fs.c:333-354 | an allocated inode becomes free only by that step of iput, with no links |
| `ICacheTheorems.LockedIsCurrent` | fs.c:289-314 | a holder of the lock sees an allocated inode, as it is on disk, even if its number was reused during an iput |
| `ICacheTheorems.NoLockPanics` | fs.c:289-324 | "ilock: no type", "ilock" and "iunlock" are unreachable |
| `ICacheTheorems.GetOutcome` | fs.c:243-274 | iget gives a reference to its inode, in the entry that has it or a free one, and panics exactly if there is neither |
| `ICacheTheorems.LinkSteps` | sysfile.c:140-151 | link counts and directory entries change by one, for that inode only, in the cache and on disk at once |
| `ICacheTheorems.PutFreesIff` | fs.c:333-348 | iput decides to free exactly if the inode is valid, has no links and no other reference exists, not even one about to be dropped |
| `ICacheLeaks.CheckRefuses` | fs.c:333-348 | iput passes over an inode without links if and only if it is not valid or another reference exists |
| `ICacheLeaks.DoomedIff` | fs.c:333-354 | in every reachable state, a step makes an inode one that can never be freed (no links, and every reference past iput's check) if and only if it is such an iput's check and all other references have passed theirs |
| `ICacheLeaks.DoomedForever` | fs.c:196-354 | no step of the kernel brings such an inode back |
| `ICacheLeaks.DoomedOverRun` | fs.c:196-354 | over every run an inode ends so if and only if some check on the way made it so |
| `ICacheLeaks.LeaksIff` | fs.c:333-354 | an inode is leaked, allocated without links or references, if and only if the last reference to one of these is dropped |
| `ICacheRuns.OverlappingPutsLeak` | fs.c:333-354 | a run of the kernel from an empty disk (an inode created and kept open, then unlinked, then two overlapping iputs) ends with it leaked |
| `ICacheRuns.SecondPutDooms` | fs.c:333-348 | in that run it is the second check that does it |
| `ICacheRuns.UnloadedPutLeaks` | fs.c:333-348 | a run in which iput, without overlap, leaks an inode that was never read |
| `ICacheRuns.ReusedDuringPut` | fs.c:196-216 | a run in which ialloc gives the number out again before iput has cleared valid |
| `ICacheSafety.NextInv` | fs.c:196-354 | every step of every interleaving keeps reference counts, uniqueness, locks, link counts and agreement with the disk |
| `ICache.Cache.Iget` | fs.c:243-274 | the loop returns the referenced entry, or recycles the first unreferenced one as not valid, and finds none exactly if all are referenced and for other inodes |
| `ICache.Cache.Find` | fs.c:250-260 | the search remembers the first empty slot while looking for the inode |
| `ICache.Ialloc` | fs.c:196-216 | marks the first free inode number on disk |
| `Names.Strncmp` | string.c:58-66 | 0 exactly if the two strings, cut at a NUL or n bytes, are equal |
| `Names.Strncpy` | string.c:68-79 | n bytes that read back as the cut string, padded with NULs |
| `Dir.Encode` | fs.c:574-575 | a directory entry decodes to the 16-bit inode number and the cut name |
| `Dir.Dirlookup` | fs.c:526-550 | the inode number that the directory's map gives the cut name, and the entry's offset; 0 exactly if it has none; in the bytes, the first 16 that are in use and have the name |
| `Dir.Directory.Dirlink` | fs.c:553-580 | refuses exactly the names present; otherwise the map gains one binding and names stay unique; in the bytes, the first entry not in use becomes the number and the padded name; panics exactly if the directory is full and at its largest |
| `Dir.Directory.Unlink` | sysfile.c:218-220 | zeroing the entry found removes exactly that binding |
| `Dir.Directory.WriteEntry` | fs.c:574-577 | writing 16 bytes at an entry's offset changes that entry only |
| `Dir.EntriesSpliced` | fs.c:574-577 | the entries of the directory's bytes after a write |
| `Dir.FindIsLookup` | fs.c:526-550 | the first entry with a name is the map's binding |
| `Dir.BindingAdded` | fs.c:553-580 | filling a free or new entry adds one binding |
| `Dir.BindingRemoved` | sysfile.c:218-220 | clearing a used entry removes one |
| `Path.Skipelem` | fs.c:597-620 | takes the first maximal run of non-slash bytes off, cut to DIRSIZ bytes, and tells whether it was the last |
| `Path.Namex` | fs.c:626-659 | namei is looking up the path's elements one after another, from the root for a leading slash and else from the current directory; nameiparent stops one level early with the last name |
| `Path.AbsolutePath` | fs.c:631-634 | a path with a leading slash is looked up from inode 1, whatever the current directory |
| `Path.RelativePath` | fs.c:631-634 | any other path is looked up from the current directory |
| `Path.RunsAreMaximal` | fs.c:597-620 | the elements are exactly the maximal non-slash runs of the path |
| `Path.RunsInOrder` | fs.c:597-620 | and in the order in which they stand in the path |
| `Path.TargetIsInParent` | fs.c:626-659 | what namei finds is what nameiparent's directory binds the last name to |
| `BufCache.Bcache.constructor` | bio.c:38-56 | binit's pointer assignments make a circular doubly linked list of all buffers |
| `BufCache.Bcache.Bget` | bio.c:61-93 | the two pointer-chasing loops choose the cached buffer, or else the last unused one of the list, which becomes the block's; none exactly if none is the block's and all are in use or dirty |
| `BufCache.Bcache.Brelse` | bio.c:120-141 | the pointer assignments move the buffer to the front, keeping the list a permutation of all buffers, exactly when no user is left |
| `BufCache.Bcache.FindCached` | bio.c:68-76 | the forward loop ends and finds the first match |
| `BufCache.Bcache.FindUnused` | bio.c:78-92 | the backward loop ends and finds the last unused buffer |
| `BufCache.Bcache.Unlink` | bio.c:132-133 | the list without one buffer |
| `BufCache.Bcache.PushFront` | bio.c:134-137 | the list with one buffer more in front |
| `Bio.Unlinked` | bio.c:132-133 | two assignments take a node out of the ring |
| `Bio.Pushed` | bio.c:134-137 | four assignments put a node first |
| `Bio.ChoiceIs` | bio.c:61-93 | the choice, by buffers instead of places in the list |
| `BioTheorems.OneBufferPerBlock` | bio.c:61-93 | of two buffers with one key, even (0,0), one has never been used |
| `BioTheorems.BreadIsLatestAndExclusive` | bio.c:96-106 | after bread the user alone has the block, with its latest contents |
| `BioTheorems.CacheIsBlockMap` | bio.c:96-141 | the valid buffer of a block, or else the disk, holds its logical contents |
| `BioTheorems.PinnedIsNotRecycled` | bio.c:78-92 | a dirty or used buffer keeps its block until bwrite cleans it |
| `BioTheorems.RecyclesLeastRecentlyReleased` | bio.c:78-92 | the buffer recycled was released before every other one that could have been taken |
| `BioTheorems.StampsAreReleases` | bio.c:128-138 | the order of the list is the order of the releases that left no user |
| `BioTheorems.NoHolderPanics` | bio.c:109-124 | bwrite's and brelse's panics are unreachable |
| `BioTheorems.UsersChange` | bio.c:96-116 | what a block holds changes by its holder's writes alone, and the disk by bwrite alone, to what the block holds |
| `BioTheorems.BuffersMarked` | bio.c:109-116 | bwrite leaves the buffer clean, log_write leaves it dirty, and neither touches another |
| `BioTheorems.GetExhausted` | bio.c:78-92 | bget panics exactly if no buffer is the block's and all are in use or dirty |
| `BioSafety.NextInv` | bio.c:61-141 | every step keeps list order, keys, reference counts, locks and contents |
| `IdeDriver.Driver.Iderw` | ide.c:149-159 | appends to the linked queue and starts the controller exactly if it was empty |
| `IdeDriver.Driver.Ideintr` | ide.c:103-131 | takes the head off, completes it and starts the next |
| `IdeDriver.Driver.Last` | ide.c:151-155 | the loop ends at the last request |
| `Ide.RunRefines` | ide.c:73-168 | every run is a run of memide.c's synchronous iderw, with each request carried out when the controller does it |
| `Ide.FifoExactlyOnce` | ide.c:103-168 | the requests carried out are the submitted ones, in order, each once |
| `Ide.ReturnsSynced` | memide.c:38-60 | when iderw returns, the buffer is valid and clean, buffer and disk are as in the synchronous run, and the request has left the queue |
| `Ide.MemRwIs` | memide.c:38-60 | the synchronous driver: a dirty buffer goes to its block, any other comes from it, and nothing else changes |
| `Ide.SleepersAreServed` | ide.c:161-164 | whoever sleeps in iderw is in the queue and the controller is at work |
| `ProcTable.Ptable.constructor` | proc.c:10-13 | a table of unused entries |
| `ProcTable.Ptable.Wakeup1` | proc.c:457-465 | every entry sleeping on the channel is runnable and otherwise as it was, and every other entry is unchanged |
| `ProcTable.Ptable.AllocEntry` | proc.c:73-92 | the first unused entry becomes an embryo, or there is none |
| `ProcTable.Ptable.Exit` | proc.c:250-265 | entry by entry: p's children are init's, whoever sleeps on p's parent's entry, or on init's if p has a zombie child, is runnable, p is a zombie, and nothing else changes |
| `ProcTable.Ptable.PassChildren` | proc.c:255-262 | the loop gives every child to init and wakes init if one of them is a zombie, which is what exit's new table has |
| `ProcTable.Ptable.WaitScan` | proc.c:280-307 | releases the first zombie child, with its pid returned and its entry cleared; otherwise says whether there are no children, a kill, or a reason to sleep |
| `ProcTable.Ptable.Kill` | proc.c:479-497 | the first entry with the pid is killed, and runnable if it slept; nothing else changes |
| `ProcTheorems.NoMissedExit` | proc.c:227-312 | in every reachable state a parent in wait() with a zombie child is not asleep |
| `ProcTheorems.NoOrphans` | proc.c:250-265 | every process but init, alive or zombie, has a live parent that is not itself |
| `ProcTheorems.InitLives` | proc.c:234-235 | init stays alive |
| `ProcTheorems.OneCpuEach` | proc.c:322-356 | a RUNNING process is on exactly one CPU, no kernel stack is in use on two, and a CPU on the stack of any other process holds ptable.lock |
| `ProcTheorems.LockHeldAcrossSwitch` | proc.c:365-382 | ptable.lock is held by this CPU on both sides of swtch |
| `ProcTheorems.ReapsOnlySwitchedOff` | proc.c:280-301 | wait frees an entry and its stack only for its own zombie child, when no CPU is on that stack and it is nobody's parent |
| `ProcTheorems.ReapedOnce` | proc.c:280-301 | each pid is returned by wait at most once and never belongs to a process in the table afterwards; pids in the table differ |
| `ProcTheorems.OneForkPerEmbryo` | proc.c:180-222 | in every reachable state, wherever a clock tick has stopped fork, the entry being forked is an embryo, nobody else's, and a child only once it is ready |
| `ProcTheorems.PreemptedInFork` | trap.c:105-109 | a tick between fork's two locked sections takes the parent off its CPU, runnable and where it was in fork |
| `ProcTheorems.OnlyInitPanics` | proc.c:227-268 | a run panics only if init exits: "sched running", "sched ptable.lock" and "zombie exit" are unreachable |
| `ProcTheorems.WaitIsScan` | proc.c:272-312 | the step of wait is what the scanning loop finds |
| `ProcSleep.SleepsUntilWoken` | proc.c:418-497 | in every reachable state a step ends a sleep if and only if it is a wakeup on its channel, a kill, the exit of a child waited for, or for init the exit of a parent of zombies |
| `ProcSleep.WakeupWakes` | proc.c:457-473 | after wakeup nobody sleeps on its channel, and no other process has been touched |
| `ProcSleep.SleepSleeps` | proc.c:418-452 | sleep puts its process, and no other, to sleep on the channel |
| `ProcSleep.StateDiagram` | proc.c:73-497 | a step moves a process along an edge of the state diagram, for the reason the edge has, or not at all, and a step with such a reason does move it |
| `ProcSleep.ParentAndKilled` | proc.c:180-497 | an entry in use keeps its parent unless fork sets it or the parent exits, which gives it to init; and it is killed exactly by kill |
| `ProcSleep.WaitOutcome` | proc.c:272-312 | whenever wait looks, at first or woken, it reaps exactly if there is a zombie child, sleeps on itself exactly if it has only other children and was not killed, and else returns |
| `ProcSleep.WaitersHaveChildren` | proc.c:272-312 | in every reachable state whoever sleeps in wait has a child, no zombie child, and has not been killed |
| `ProcSleep.RunsWhereItWas` | proc.c:335-349 | the scheduler puts a process on its CPU where it was in the kernel |
| `ProcSleep.ReturnsFromSched` | proc.c:386-452 | back from sched a process is in its caller, its channel cleared after a sleep, with the lock released |
| `ProcSafety.NextInv` | proc.c:73-497 | every step on any number of CPUs keeps the invariant |
| `PipeRing.Pipe.constructor` | pipe.c:31-36 | an empty pipe |
| `PipeRing.Pipe.Write` | pipe.c:78-98 | bytes are appended until all are in or the pipe is full, across wrap-around of the counters |
| `PipeRing.Pipe.Read` | pipe.c:100-121 | the oldest bytes, as many as asked for and present, are removed |
| `PipeRing.PutStored` | pipe.c:93 | one byte more at the end, also when the 32-bit counter wraps |
| `PipeRing.DropStored` | pipe.c:113-117 | bytes less at the front, also when the counter wraps |
| `PipeRuns.ReadsArePrefix` | pipe.c:78-121 | over every run of any readers and writers, with kills, the bytes read are a prefix of those written and the counters differ modulo 2^32 by what is between, at most 512 |
| `PipeRuns.WriterGoes` | pipe.c:78-98 | a writer's turn appends as many of its next bytes as there is room for, in order, and sleeps exactly if some are left, a reader is open and it was not killed |
| `PipeRuns.ReaderGoes` | pipe.c:100-121 | a reader's turn takes the oldest bytes, as many as asked for and present, and sleeps exactly if there are none, a writer is open and it was not killed |
| `PipeRuns.KilledReturns` | pipe.c:84-109 | over every run a process that was killed never sleeps in the pipe, and its next turn is its last |
| `PipeRuns.SleepersWait` | pipe.c:84-118 | without kills a sleeping reader means an empty pipe with a writer open, a sleeping writer a full one with a reader open |
| `PipeRuns.NoDeadlock` | pipe.c:78-121 | so a reader and a writer are never both asleep |
| `PipeRuns.NextSleepers` | pipe.c:84-95 | a step keeps that if and only if it is not a killed writer, with more than a pipeful left, returning early past a sleeping reader |
| `PipeRuns.KillLosesWakeup` | pipe.c:84-95 | a run with a kill that leaves a reader asleep on a full pipe |
| `Umalloc.Heap.constructor` | umalloc.c:21-22 | an empty heap |
| `Umalloc.Heap.Search` | umalloc.c:29-32 | free's search ends at the node after which the block belongs |
| `Umalloc.Heap.Sbrk` | umalloc.c:54-56 | fails, which is counted, or gives units above all memory seen so far |
| `Umalloc.Heap.InitRing` | umalloc.c:70-73 | the first call makes a ring of the base header alone |
| `Umalloc.Heap.Free` | umalloc.c:24-44 | the block, and no other memory, joins the list: still ordered with one wrap, coalesced, disjoint from all allocated blocks |
| `Umalloc.Heap.Morecore` | umalloc.c:46-61 | 0 if and only if sbrk failed, with nothing changed; otherwise at least 4096 new units, all accounted for, and a chunk large enough |
| `Umalloc.Heap.Malloc` | umalloc.c:63-90 | 0 if and only if sbrk failed; morecore is called once if no chunk is large enough and else not at all; then the first large enough chunk after freep gives its tail, or all of itself; the block is disjoint from all others and their contents are untouched; the search ends |
| `Umalloc.Heap.Take` | umalloc.c:75-85 | an exact fit is unlinked, a larger chunk gives its tail; freep is the node before |
| `Umalloc.SearchFinds` | umalloc.c:74-77 | the chunk that the search stops at is the first large enough one in ring order after freep |
| `Umalloc.FreedHeap` | umalloc.c:24-44 | free and allocated units together stay exactly the units obtained |
| `Umalloc.TakenHeap` | umalloc.c:75-85 | the same when units are handed out |
| `FreeList.InsertedOrdered` | umalloc.c:33-43 | merging on both sides keeps the list ordered and fully coalesced |
| `FreeList.FreedLinked` | umalloc.c:29-43 | the pointer assignments of free are the insertion into the ring |
| `FreeList.TakenLinked` | umalloc.c:75-85 | those of malloc are the removal |
| `ShellLex.Gettoken` | sh.c:265-308 | the next token of the line, with the word's ends, and the rest of the tokens |
| `ShellLex.Peek` | sh.c:310-320 | whether the next token begins with one of the symbols; no token is passed |
| `ShellParser.Parseline` | sh.c:344-359 | the recursive parser ends, and follows the grammar on the tokens, panics included |
| `ShellParser.Parsepipe` | sh.c:361-372 | the same for pipelines |
| `ShellParser.Parseredirs` | sh.c:374-397 | the same for redirections |
| `ShellParser.Parseblock` | sh.c:399-413 | the same for parenthesised blocks, with both of its panics |
| `ShellParser.Parseexec` | sh.c:415-446 | the same for simple commands |
| `ShellParser.ParseArgs` | sh.c:429-444 | the same for their words, up to MAXARGS |
| `ShellPlain.SimpleIs` | sh.c:415-446 | a simple command runs to the next |, ), & or ;: its arguments are all its words that are not files, in order, its redirections are the files, the last outermost; it panics if and only if a file is missing, another symbol is there, or there are ten words or more |
| `ShellPlain.WordsAround` | sh.c:429-444 | words before and after a redirection all become arguments |
| `ShellPlain.AppendShown` | sh.c:381-394 | after any command, < opens for reading, > and >> for writing |
| `ShellSyntax.RoundTrip` | sh.c:327-446 | parsing the parenthesised print of a tree gives the tree if every exec node has at most nine words, and the panic otherwise |
| `ShellPlain.ShownRoundTrip` | sh.c:327-446 | the same for the print with parentheses only where the grammar needs them: pipelines, trailing &, lists and redirections as one types them |
| `Shell.TextRoundTrip` | sh.c:265-446 | the same from tree to text to tokens to tree, for all trees of proper words and all spacings |
| `Shell.ShownTextRoundTrip` | sh.c:265-446 | and for the print with few parentheses |
| `ShellLex.LexSpaced` | sh.c:265-308 | the tokens of a text are those it was made of, whatever the blanks; they are needed only between words and after > before > |
| `ShellTexts.LineText` | sh.c:344-359 | the grammar does not look inside words: parsing commutes with reading spans as strings |
| `Shell.Nulterminate` | sh.c:449-493 | NULs at the ends of the tree's words and nowhere else |
| `Shell.WordsAreCStrings` | sh.c:449-493 | after it every word of the tree, as a C string, is its token, undamaged by the NULs of the others |
| `Shell.Parsecmd` | sh.c:327-342 | panics exactly if the grammar rejects the line; otherwise the tree, and reading its words as C strings gives the words of the line |
| `Grep.Match` | grep.c:72-82 | true exactly if some substring is a word of the pattern, at the start after `^`, at the end before `$` |
| `Grep.Matchhere` | grep.c:85-96 | true exactly if a prefix of the text is a word of the pattern |
| `Grep.Matchstar` | grep.c:99-106 | true exactly if so after some number of matching characters |
| `Grep.PlainPattern` | grep.c:72-96 | a pattern without * is found where its characters are, . standing for any one: anywhere, at the start after ^, at the end before $, or as the whole text |
| `Grep.AnchoredNothing` | grep.c:85-92 | ^ alone matches every text, ^$ the empty one |
| `Grep.AnchoredOne` | grep.c:93-94 | a first character matches itself, or any if it is ., and the rest what follows |
| `Grep.AnchoredStar` | grep.c:99-106 | a starred character matches some number of itself, or of any if it is ., and the rest what follows |
| `Grep.FoundSomewhere` | grep.c:72-82 | without ^ a pattern matches a text if it matches at the start of some rest of it |

## Left out

- The swap and LRU layer that this fork adds (kalloc.c, vm.c, the swap functions of fs.c), and with it vm.c's mapping functions and exec.c; kalloc, kfree, copyuvm and freevm do not appear in the process model.
- Ports, interrupt flags, APIC, UART, console, boot code, trap entry, swtch's assembly and memory ordering; sched()'s checks of ncli and of the interrupt flag.
- Spin locks and the waiting loop of acquiresleep: a lock is an atomic section or a holder field, and whoever waits has no step.
- LogTheorems.LogSpaceSuffices: an operation appends at most MAXOPBLOCKS new block numbers, as its callers must see to (`FewBlocksFitReservation` says how); log_write's guards, which the code reads just before it takes log.lock, belong to the same step.
- Time and fairness: nothing says that an enabled step is taken.
- The byte layout of inodes on disk and of the superblock; the bitmap and the inodes are separate from the data blocks in the file model.
- Devices behind readi and writei, which have their own functions.
- A bound on logged blocks for system calls other than filewrite: itrunc may touch many bitmap blocks.
- Overflow of pids, of reference counts, of link counts and of allocator unit counts.
- Fs.FileSystem.Filewrite: no other process changes the file between two chunks.
- Fs.FileSystem.Writei: when it runs out of blocks nothing is said about the half-written file, since the kernel has panicked.
- Fs.FileSystem.Iupdate: an inode is its type, size and block references; device numbers and the byte layout are not part of it, and link counts are in the inode-cache model.
- LogDevice.Log.ReadHead: the header on disk lists at most LOGSIZE blocks; read_head does not check, and would write past its array.
- ICacheTheorems.FreesOnlyLastReference: assumes that a link count of 0 means no directory entry; the ".." of a removed directory can break that.
- BioTheorems.CacheIsBlockMap: a user writes or logs what it changed before it releases the buffer.
- Ide.RunRefines: device 1, no disk errors, one interrupt for each command started.
- ProcTheorems.ReapedOnce: says nothing of the killed flag of new processes, because kill matches stale pids too.
- Path.Namex: the tree does not change during the walk, and inode locks and references are not part of it.
- Umalloc.Heap.Sbrk: sbrk gives increasing, disjoint regions.
- The line-reading loop of grep, the shell's execution of commands, user programs and mkfs, beyond the constants that mkfs fixes.
