# TecnicoFS, modelled and proved

TecnicoFS is an in-memory file system with fixed tables: inodes, 1024-byte blocks, a root directory of
23 entries and a table of 20 open files. It exists in two versions. In the first (`Projeto1SO`) a file
has ten direct blocks and one block of 256 further block numbers, and the calls take five kinds of
locks. In the second (`Projeto2`) a file has one block, every call runs under one global lock, clients
talk to a server over pipes, and a shutdown call waits until no file is open.

For each version there is a value specification that follows the C code routine by routine, branch by
branch, over the whole state (`MultiBlock`, `SingleBlock`), and a class over arrays whose loops run in
place and are proved to do exactly what the specification says (`MultiBlockFs`, `SingleBlockFs`). All
else is proved about the specifications:

* `Ownership`, `Writing`, `WriteTheorems`, `FlatFile`, `Reading`, `Splitting`, `Lifecycle`, `Opening`:
  who owns which block, and the calls of the first version against one flat byte sequence per file.
* `MultiBlockRuns`, `Conservation`: whole runs, storage conserved, round trips, the copy loop.
* `Serial`: any number of threads in tfs_write and tfs_read, one loop round or one lock operation per
  step, over the real tables; the result is that of one call after the other.
* `SerialReal`: that serial order carried out by the real calls: it has the blocks it needs when the concurrent
  run has, and the other way round.
* `SerialProgress`, `SerialSpace`: every such run ends, with every call answered if the blocks suffice.
* `LockOrder`, `LockSafety`: the lock protocol, with tfs_open on the real inode and directory tables; no deadlock,
  and mutual exclusion.
* `Creation`, `CreationWitness`: how many threads may create files at once before inode_create runs out and
  keeps its mutex: 26, and 27 is too many.
* `SingleBlockInv`, `SingleBlockCalls`, `SingleBlockRuns`: the second version and the bounds that no single
  routine shows.
* `Shutdown`, `ShutdownAnswers`: openers, closers and the destroyer over the real tables of the second version;
  what they are told, and that they come to an end.
* `Wire`, `WireLayout`, `WireIo`: the codec from the client through the dispatch loop to the worker.
* `MultiBlockWitnesses`, `SingleBlockWitnesses`: runs that show each failure happening.
* `TwoVersions`: both versions give the same answers on small files.
* `Config`, `FirstFit`, `Directory`: what both versions share.

A result of `Fail` is the C code's -1. `Undefined` stands for one of these: a null pointer is written or read
through, the memory of the file system (`fs_data`) or the end of a path is left, or a value read behind a block is used
as a block number. The blocks lie side by side in `fs_data`, so a read that crosses from one into the next is defined,
and modelled in the second version, where it can happen. Where a call on an open handle, an open or a delete can reach
`Undefined`, the condition is proved exactly.

Where the code does not do what its comments say, the model follows the code:

* `Projeto1SO/tecnicofs/fs/operations.h` (lines 66 to 68) promises that a write may return fewer bytes than asked when
  the file is full. The first version returns all or -1; only the second returns min(len, 1024-offset).
* Truncation assigns -1 to a local variable, so slot 10 of a truncated file keeps naming a free block
  (`TruncateStore` gives the exact condition, `TruncationCounterexample` a run).
* Truncation leaves other handles behind the end of the file. In the first version a read through one returns all it
  asks for and takes blocks for it (`ReadBehindEnd`, `ReadTakesBlock`). In the second it returns stale bytes or goes on
  in the next block (`ReadMeaning`, `StaleRead`, `CrossingRead`), after which a write is undefined (`WriteNeverFails`).
* Neither version tests whether a handle is open before it writes or reads (`FlagsIgnored`).
* `inode_delete` of a directory keeps its block (`DeleteOthers`).
* `bonus_block_init` does not test its allocation and the reference index is not bounded (`WriteRefinesSplice`
  says exactly when that matters; `WriteWithoutIndex` and `WritePastTheEnd` are runs).
* A write that fails skips the size repair (`FailedWrite`, `FailedWriteCounterexample`).
* `inode_delete` tests a reference before the bound. The read stays inside the memory of the file system unless
  the index block is the last block (`DeleteReleases`, `FullFileDeletes`, `EdgeCounterexample`). tfs_open only ever
  deletes empty files, so this concerns other callers of `inode_delete`. The state of `EdgeCounterexample` is built by
  hand; that a run reaches it is not shown.
* `inode_create` returns with its mutex locked when no inode is free (`LeakBlocks`); up to 26 creating threads that
  cannot happen (`NeverLeaks`), with 27 it can (`TwentySevenLeak`).
* A caller of tfs_open that is past the unlocked test opens its file even after the destroyer has seen none open
  (`LateOpen`; `NothingOpensAfter` says when not).
* Names of 40 characters and more are stored cut and never found (`AddThenFind`, `CreatedIsFound`); the second
  version's creating branch does not test the path again.

## Model

| member | source | states |
|---|---|---|
| `FirstFit.TakeFirst` | Projeto1SO/tecnicofs/fs/state.c:336-348 | the first FREE entry of a table becomes TAKEN and its index comes back; with none FREE the table is unchanged and the answer is -1 |
| `Directory.ScanForName` | Projeto1SO/tecnicofs/fs/state.c:319-327 | the scan returns the inode of the first used entry whose name matches, or -1 if none does |
| `Directory.ScanForEmpty` | Projeto1SO/tecnicofs/fs/state.c:282-292 | the scan returns the first empty entry, or -1 |
| `Directory.SameNameIsEquality` | Projeto1SO/tecnicofs/fs/state.c:320-321 | comparing 40 characters with a stored name is comparing whole names |
| `Directory.AddThenFind` | Projeto1SO/tecnicofs/fs/state.c:281-290 | an added name is found again, under its inode, if and only if it has at most 39 characters; a longer one is never found |
| `Directory.StoredStart` | Projeto1SO/tecnicofs/fs/state.c:281-290 | what is stored of a name are its first 39 characters |
| `Directory.AddKeepsDistinct` | Projeto1SO/tecnicofs/fs/state.c:281-290 | adding keeps the names distinct if and only if the stored form of the new name is not there yet |
| `Directory.FindIsLookup` | Projeto2/tecnicofs_ex2/fs/state.c:241-249 | with distinct names the scan is the map from names to inodes |
| `Directory.AddKeepsOthers` | Projeto2/tecnicofs_ex2/fs/state.c:188-250 | adding a fresh name changes no other look-up |
| `Ownership.ValidParts` | Projeto1SO/tecnicofs/fs/state.c:443-468 | every block number recorded for a live inode is a TAKEN block |
| `Ownership.NoAliasing` | Projeto1SO/tecnicofs/fs/state.c:334-367 | no block plays two roles: data, index or directory block, of one inode or of two |
| `Ownership.GrowDirect` | Projeto1SO/tecnicofs/fs/state.c:445-451 | taking a block for the next direct slot keeps exact ownership, and changes that one part only |
| `Ownership.GrowIndex` | Projeto1SO/tecnicofs/fs/state.c:470-478 | taking and filling the index block keeps exact ownership, whatever references the block held before |
| `Ownership.GrowIndirect` | Projeto1SO/tecnicofs/fs/state.c:459-466 | taking a block for the next reference keeps exact ownership; no other file shares the index block |
| `MultiBlock.CurrentOffsetMod` | Projeto1SO/tecnicofs/fs/state.c:433-440 | both branches give the position inside the block |
| `Writing.CurrentBlockGrows` | Projeto1SO/tecnicofs/fs/state.c:443-468 | within a file or at its end the look-up finds the block of that byte, allocating one or two blocks exactly when it is new and changing no byte; it returns NULL exactly when no block is left, and has no meaning exactly past 266 blocks or when the index block cannot be had |
| `Writing.ChunkBytes` | Projeto1SO/tecnicofs/fs/operations.c:179-184 | one memcpy changes the bytes of the file it is meant for, at their flat offsets, and no byte of any file else |
| `WriteTheorems.StepWrites` | Projeto1SO/tecnicofs/fs/operations.c:168-188 | one round puts one chunk into the flat file, moves one offset, counts the bytes in i_size and conserves blocks; what each of its two failures leaves is stated |
| `WriteTheorems.StepBudget` | Projeto1SO/tecnicofs/fs/operations.c:168-188 | whether the rest of a write can succeed does not change from round to round |
| `WriteTheorems.LoopWrites` | Projeto1SO/tecnicofs/fs/operations.c:168-188 | the loop ends well if and only if the file stays within 266 blocks and the missing blocks are free; it loses itself exactly where blocks run out at the index block or past the last reference; otherwise a prefix is in the file |
| `FlatFile.WroteInv` | Projeto1SO/tecnicofs/fs/operations.c:189-193 | with the size repaired, the state after the loop satisfies the invariant |
| `FlatFile.WriteRefinesSplice` | Projeto1SO/tecnicofs/fs/operations.c:142-196 | tfs_write returns the length if and only if the blocks can be had, and then c becomes c[..o] + buf + c[o+len(buf)..]: size max(size, o+len(buf)), that handle alone advances, other files, directory and handles unchanged, blocks conserved; it is undefined if and only if it overruns |
| `FlatFile.FailedWrite` | Projeto1SO/tecnicofs/fs/operations.c:170-175 | a write that returns -1 leaves no block free and a block-aligned prefix in the file; i_size is right, and the invariant holds again, if and only if the write began at the end of the file; other files, handles and the directory are unchanged in any case |
| `FlatFile.ExactSpace` | Projeto1SO/tecnicofs/fs/operations.c:168-196 | a write to size s' succeeds if and only if s' is at most 266 blocks and what it needs beyond what the file holds is free, and takes exactly that many blocks; in a store without spare index blocks that is need(s')-need(s) |
| `FlatFile.WriteStaysTidy` | Projeto1SO/tecnicofs/fs/state.c:453-458 | a write that succeeds leaves an index block exactly on the files of more than ten blocks |
| `Splitting.RoundsMerge` | Projeto1SO/tecnicofs/fs/operations.c:168-188 | two rounds that stay inside one block reach the state of one longer round |
| `Splitting.LoopSplits` | Projeto1SO/tecnicofs/fs/operations.c:168-188 | the loop over a + b reaches the very state of the loop over a and then over b |
| `Splitting.LoopIgnoresSize` | Projeto1SO/tecnicofs/fs/operations.c:168-193 | what the loop does besides i_size does not depend on i_size, so the repair in between is invisible |
| `Splitting.SplitWrite` | Projeto1SO/tecnicofs/fs/operations.c:142-196 | writing a + b succeeds if and only if writing a and then b does, and reaches the same concrete state, block numbers and all; no invariant is assumed |
| `Reading.NoAllocation` | Projeto1SO/tecnicofs/fs/state.c:443-468 | inside a file the look-up finds the block and allocates nothing |
| `Reading.ReadStepSlice` | Projeto1SO/tecnicofs/fs/operations.c:288-308 | one round returns the next bytes of the flat file and moves one offset |
| `Reading.LoopReads` | Projeto1SO/tecnicofs/fs/operations.c:288-308 | the read loop returns the slice of the flat file and changes one offset in the whole state |
| `Reading.ReadRefinesSlice` | Projeto1SO/tecnicofs/fs/operations.c:259-313 | tfs_read on an open handle returns exactly contents[o..o+min(len, size-o)], changes one offset and never fails |
| `Reading.ChunkedWrites` | Projeto1SO/tecnicofs/fs/operations.c:142-196 | any chunking of a write at the end of a file appends the concatenation |
| `Reading.ChunkedReads` | Projeto1SO/tecnicofs/fs/operations.c:259-313 | any chunking of reads delivers each byte from the offset on once, in order |
| `Reading.BadHandle` | Projeto1SO/tecnicofs/fs/operations.c:142-150 | on a handle outside 0 to 19 tfs_write answers -1 and changes nothing; tfs_read goes through a null pointer |
| `Reading.FlagsIgnored` | Projeto1SO/tecnicofs/fs/operations.c:142-313 | tfs_write and tfs_read never look at the flags of the open-file table: through a closed handle they do what they would do through an open one |
| `Reading.ReadBehindEnd` | Projeto1SO/tecnicofs/fs/operations.c:280-308 | behind the end of a file that was truncated under the handle, the unsigned subtraction wraps around and a read that succeeds returns all that was asked for |
| `Reading.ReadTakesBlock` | Projeto1SO/tecnicofs/fs/state.c:443-451 | such a read of a direct block the file no longer has takes the first free block for the file and returns the bytes that block still holds |
| `Lifecycle.FreeDirectEffect` | Projeto1SO/tecnicofs/fs/operations.c:72-78 | the first freeing loop frees exactly the direct blocks and empties their slots |
| `Lifecycle.FreeRefsEffect` | Projeto1SO/tecnicofs/fs/operations.c:86-91 | the second frees exactly the referenced blocks and empties the references, and stops at 256 exactly when all were in use |
| `Lifecycle.ReleasedBlocks` | Projeto1SO/tecnicofs/fs/state.c:193-223 | together they free exactly the blocks of the file; the test of the reference before the bound has no meaning exactly for a file of 266 blocks whose index block is block 1023 |
| `Lifecycle.TruncateStore` | Projeto1SO/tecnicofs/fs/operations.c:62-100 | truncation keeps exact ownership if and only if the file has no index block; otherwise slot 10 goes on naming a FREE block |
| `Lifecycle.FreshFile` | Projeto1SO/tecnicofs/fs/state.c:149-156 | the first free inode becomes an empty file that owns nothing; no other inode changes hands of a block |
| `Lifecycle.DeleteReleases` | Projeto1SO/tecnicofs/fs/state.c:171-229 | inode_delete returns 0 and frees the inode and exactly the blocks of its file, for every file but one of 266 blocks whose index block is block 1023 |
| `Lifecycle.DeleteOthers` | Projeto1SO/tecnicofs/fs/state.c:171-229 | inode_delete answers -1 for an inode that is not in use; deleting the directory leaves its block TAKEN |
| `Lifecycle.PartsDetermineTable` | Projeto1SO/tecnicofs/fs/state.c:334-367 | the allocation table is determined by the blocks of the live inodes |
| `Opening.InitInv` | Projeto1SO/tecnicofs/fs/operations.c:8-18 | initialisation over any memory contents gives the invariant, 1023 free blocks and an empty directory |
| `Opening.TruncateInv` | Projeto1SO/tecnicofs/fs/operations.c:62-100 | truncation keeps the invariant if and only if the file has no index block and every open handle on it is at offset 0; other files keep their contents |
| `Opening.BadTruncateStays` | Projeto1SO/tecnicofs/fs/operations.c:103-132 | the handle that is then added does not repair what such a truncation broke |
| `Opening.OpenNewInv` | Projeto1SO/tecnicofs/fs/operations.c:111-132 | creating keeps the invariant, allocates no block, and a success gives a new empty file, its entry and a handle at 0 |
| `Opening.RollBack` | Projeto1SO/tecnicofs/fs/operations.c:120-123 | a failed entry gives the inode back |
| `Opening.OpenInv` | Projeto1SO/tecnicofs/fs/operations.c:41-137 | tfs_open keeps the invariant if and only if it does not truncate a file with an index block or with a handle inside |
| `Opening.OpenRefused` | Projeto1SO/tecnicofs/fs/operations.c:21-49 | a path that is not '/' and more is refused with -1 whatever the flags, and so is a path that is not found without TFS_O_CREAT; nothing changes |
| `Opening.OpenFoundFile` | Projeto1SO/tecnicofs/fs/operations.c:49-109 | a file that is found is opened if and only if a handle is free, the lowest free one, at 0 or with TFS_O_APPEND at the end of the file; with TFS_O_TRUNC the file is empty afterwards, otherwise unchanged; nothing else changes |
| `Opening.OpenNewAnswers` | Projeto1SO/tecnicofs/fs/operations.c:111-132 | a path that is not found is created and opened if and only if an inode, an entry and a handle are there for it; the lowest of each is taken, the handle stands at 0; without a handle the file is created all the same, without an inode or an entry nothing is |
| `Opening.CloseInv` | Projeto1SO/tecnicofs/fs/state.c:409-418 | tfs_close succeeds exactly on an open handle, closes that one only and changes no file; it answers -1 and changes nothing otherwise |
| `MultiBlockRuns.DeleteInv` | Projeto1SO/tecnicofs/fs/state.c:171-229 | deleting a file that nothing refers to keeps the invariant, unless the deletion has no meaning |
| `MultiBlockRuns.RunInv` | Projeto1SO/tecnicofs/fs/operations.c:41-196 | the invariant holds after every run of open, create, write, read, close and delete, with appends that run out of blocks |
| `MultiBlockRuns.ExactOwnership` | Projeto1SO/tecnicofs/fs/state.c:114-229 | in every reachable state the TAKEN blocks are exactly the root's block, ceil(size/1024) data blocks per file and an index block for each file over ten, all distinct; a file of exactly ten can have one too only if a write ran out of blocks before |
| `MultiBlockWitnesses.TruncationCounterexample` | Projeto1SO/tecnicofs/fs/operations.c:79-99 | a run of create, write of ten blocks and a byte, open with TFS_O_TRUNC ends with slot 10 naming a FREE block and ownership broken |
| `MultiBlockWitnesses.WritePastTheEnd` | Projeto1SO/tecnicofs/fs/state.c:460-463 | create and write 266 blocks and a byte: the reference behind the last one, which lies in the next block, is taken for a block number |
| `MultiBlockWitnesses.WriteWithoutIndex` | Projeto1SO/tecnicofs/fs/state.c:470-478 | with ten blocks left, create and write ten blocks and a byte: the index block is filled through a null pointer |
| `MultiBlockWitnesses.FailedWriteCounterexample` | Projeto1SO/tecnicofs/fs/operations.c:170-175 | a file of ten blocks written again from its start with more than there are blocks for: -1, and i_size is not the size of the file |
| `MultiBlockWitnesses.FullFileDeletes` | Projeto1SO/tecnicofs/fs/state.c:202-221 | a file of 266 blocks, made by the first write after tfs_init, is deleted |
| `MultiBlockWitnesses.EdgeCounterexample` | Projeto1SO/tecnicofs/fs/state.c:209-215 | a state built by hand that satisfies the invariant, in which the test of the 257th reference reads behind the memory of the file system |
| `Conservation.CreateGrowDelete` | Projeto1SO/tecnicofs/fs/state.c:114-229 | create, any successful writes, delete: succeeds unless the file has 266 blocks and its index block is block 1023, and restores exactly the tables of free blocks and inodes, other files untouched |
| `Conservation.RoundTrip` | Projeto1SO/tecnicofs/fs/operations.c:41-313 | create, write in any chunks, close, open again, read in any chunks returns the concatenation of what was written |
| `Conservation.CopyLoopComplete` | Projeto1SO/tecnicofs/fs/operations.c:234-248 | the copy loop ends, for every size including multiples of 128, with all the bytes put out |
| `Conservation.AppendAtEnd` | Projeto1SO/tecnicofs/fs/operations.c:103-196 | after an open with TFS_O_APPEND a write that succeeds leaves the contents followed by the buffer, or the buffer alone after TFS_O_TRUNC |
| `Conservation.CopyIsComplete` | Projeto1SO/tecnicofs/fs/operations.c:199-256 | a copy returns 0 if and only if the path names a file and a handle is free, and -1 otherwise; on success the output is exactly the file and the handle flags come back, on failure nothing is put out and nothing changes |
| `MultiBlockFs.TecnicoFs.DataBlockAlloc` | Projeto1SO/tecnicofs/fs/state.c:334-349 | in place, the first-fit step of the specification |
| `MultiBlockFs.TecnicoFs.InitBonusBlock` | Projeto1SO/tecnicofs/fs/state.c:470-478 | in place, fills all 256 references, or has no meaning without a free block |
| `MultiBlockFs.TecnicoFs.GetCurrentDataBlock` | Projeto1SO/tecnicofs/fs/state.c:443-468 | in place, both arms of the specification of the look-up |
| `MultiBlockFs.TecnicoFs.WriteRound` | Projeto1SO/tecnicofs/fs/operations.c:168-188 | one round in place reaches the state the specification gives |
| `MultiBlockFs.TecnicoFs.TfsWrite` | Projeto1SO/tecnicofs/fs/operations.c:142-196 | the loop in place, its three exits and the size repair reach the state and the answer of the specification, for every state and argument |
| `MultiBlockFs.TecnicoFs.TfsRead` | Projeto1SO/tecnicofs/fs/operations.c:259-313 | the loop in place reaches the state and returns the bytes of the specification |
| `MultiBlockFs.TecnicoFs.FreeDirectBlocks` | Projeto1SO/tecnicofs/fs/operations.c:72-78 | the loop in place frees what the specification frees |
| `MultiBlockFs.TecnicoFs.FreeIndirectBlocks` | Projeto1SO/tecnicofs/fs/operations.c:86-91 | the loop in place frees what the specification frees, and stops where it stops |
| `MultiBlockFs.TecnicoFs.DeleteInode` | Projeto1SO/tecnicofs/fs/state.c:171-229 | inode_delete in place, every branch |
| `MultiBlockFs.TecnicoFs.CreateRoot` | Projeto1SO/tecnicofs/fs/state.c:114-160 | inode_create of a directory in place, with its two ways back |
| `MultiBlockFs.TecnicoFs.TruncateFile` | Projeto1SO/tecnicofs/fs/operations.c:62-100 | the truncating branch in place |
| `MultiBlockFs.TecnicoFs.TfsOpen` | Projeto1SO/tecnicofs/fs/operations.c:41-137 | look-up, creation with roll-back, truncation and handle in place, every branch |
| `MultiBlockFs.TecnicoFs.TfsClose` | Projeto1SO/tecnicofs/fs/state.c:409-418 | the handle's entry becomes FREE exactly if it was TAKEN |
| `MultiBlockFs.TecnicoFs.TfsInit` | Projeto1SO/tecnicofs/fs/operations.c:8-18 | the three clearing loops and the root leave a state that satisfies the invariant |
| `MultiBlockFs.TecnicoFs.CopyToExternalFs` | Projeto1SO/tecnicofs/fs/operations.c:199-256 | the loop of 128-byte reads terminates and puts out what the specification says |
| `Serial.Apart` | Projeto1SO/tecnicofs/fs/operations.c:146-166 | two threads at work use different handles, and different inodes unless both read |
| `Serial.StepLocks` | Projeto1SO/tecnicofs/fs/operations.c:146-195 | every step keeps the lock words in agreement with the program points |
| `Serial.BeginWriteKeeps` | Projeto1SO/tecnicofs/fs/operations.c:163-167 | when a write takes the inode's lock it takes its place in the serial order: the serial state moves by the whole call at once |
| `Serial.BeginReadKeeps` | Projeto1SO/tecnicofs/fs/operations.c:280-286 | the same for a read, whose answer is fixed at that moment |
| `Serial.WriteRoundKeeps` | Projeto1SO/tecnicofs/fs/operations.c:168-188 | a round of a write leaves the rest of it to be done, and the same end; no other thread sees a difference |
| `Serial.EndWriteKeeps` | Projeto1SO/tecnicofs/fs/operations.c:189-193 | the repair makes i_size the size in the serial state, whatever the loop had added to it |
| `Serial.ReadRoundKeeps` | Projeto1SO/tecnicofs/fs/operations.c:288-308 | a round of a read hands over the next bytes of the answer it owes |
| `Serial.StepKeepsInv` | Projeto1SO/tecnicofs/fs/operations.c:146-195 | every step of every thread keeps the agreement with the serial state |
| `Serial.Serialisable` | Projeto1SO/tecnicofs/fs/operations.c:142-313 | for any number of threads and any interleaving, the final contents, offsets and answers are those of the calls made one at a time in the order in which they took the inode's lock; that order holds the calls of the programs and no others, each thread's in its own order |
| `Serial.ReadersMoveOn` | Projeto1SO/tecnicofs/fs/operations.c:288-308 | in every reachable state a round of a read finds its block and takes no more than is wanted |
| `Serial.AtomicIsWrite` | Projeto1SO/tecnicofs/fs/operations.c:142-196 | a call of the serial order is a real tfs_write on the tables |
| `Serial.AtomicIsRead` | Projeto1SO/tecnicofs/fs/operations.c:259-313 | a call of the serial order is a real tfs_read on the tables |
| `Serial.ConcurrentReads` | Projeto1SO/tecnicofs/fs/operations.c:259-313 | threads whose programs only read through one handle are given, together, each byte of the file exactly once and in order |
| `SerialReal.RunGrew` | Projeto1SO/tecnicofs/fs/state.c:334-367 | free blocks and blocks held add up to the same in every reachable state of a concurrent run, and an index block is only taken for a file that outgrows ten blocks |
| `SerialReal.SerialSucceeds` | Projeto1SO/tecnicofs/fs/operations.c:142-313 | the serial order of a finished concurrent run can be carried out by the real calls on the same tables: none runs out of blocks, each gives the answer its thread was given, and files and handles end the same |
| `SerialReal.RealReplayView` | Projeto1SO/tecnicofs/fs/operations.c:142-313 | real calls made one after the other, when all succeed, give the invariant and the flat contents and offsets of the serial order |
| `SerialReal.WritersMoveOn` | Projeto1SO/tecnicofs/fs/operations.c:168-188 | and the other way round: in every reachable state a round of a write finds its block, unless the calls of the order so far, made one at a time on the same tables, do not all succeed |
| `SerialProgress.OnlyLocksBlock` | Projeto1SO/tecnicofs/fs/operations.c:146-195 | in every reachable state, while the serial order so far succeeds, an unfinished thread can step exactly when no other has the handle it wants or, unless both read, the inode it wants |
| `SerialProgress.SomeoneSteps` | Projeto1SO/tecnicofs/fs/operations.c:142-313 | so while a thread is unfinished some thread can step |
| `SerialProgress.RunsAreShort` | Projeto1SO/tecnicofs/fs/operations.c:142-313 | every step of any thread makes the work left to do smaller, so no run is longer than the work there was |
| `SerialProgress.AllAnswered` | Projeto1SO/tecnicofs/fs/operations.c:288-312 | a run that cannot go on, whose serial order succeeds, has finished every thread, with an answer of the right kind and length to each call, a read of no bytes included |
| `SerialSpace.EveryOrderSucceeds` | Projeto1SO/tecnicofs/fs/operations.c:142-196 | a condition to check beforehand: if every file with all that is written to it stays within 266 blocks and the blocks the files lack together are free, the calls succeed in every order |
| `SerialSpace.EveryRunFinishes` | Projeto1SO/tecnicofs/fs/operations.c:142-313 | under this condition every run of the programs is bounded and, where it cannot go on, all calls are answered |
| `SerialSpace.ReadersHaveRoom` | Projeto1SO/tecnicofs/fs/operations.c:259-313 | programs that only read always meet the condition |
| `LockOrder.WantsGoUp` | Projeto1SO/tecnicofs/fs/operations.c:146-166 | a thread only waits for a lock above those it holds, in the order open-file table, handle, inode table, inode, block table; the inode table alone may be taken again by its holder |
| `LockOrder.StepKeepsInv` | Projeto1SO/tecnicofs/fs/state.c:114-160 | every step keeps lock owners, reader sets and the recursion depth in agreement with the program points |
| `LockOrder.FindRunner` | Projeto1SO/tecnicofs/fs/operations.c:49-132 | from any unfinished thread the chain of blockers leads to a thread that can step |
| `LockOrder.DeadlockFree` | Projeto1SO/tecnicofs/fs/operations.c:41-313 | in every reachable state with an unfinished thread some thread has an enabled step, as long as inode_create has found a free inode |
| `Creation.TakenBound` | Projeto1SO/tecnicofs/fs/state.c:114-160 | every inode in use is the root, has an entry or is in the hands of a creating thread, so their number is at most 24 plus the creating threads |
| `Creation.StepKeepsAccount` | Projeto1SO/tecnicofs/fs/state.c:114-293 | every step of tfs_open on the real tables keeps that account |
| `Creation.NeverLeaks` | Projeto1SO/tecnicofs/fs/state.c:114-160 | with at most 26 threads creating at once inode_create finds a free inode in every reachable state |
| `Creation.CalmDeadlockFree` | Projeto1SO/tecnicofs/fs/operations.c:41-313 | so with at most 26 threads creating at once no reachable state is a deadlock, without any condition on inodes |
| `Creation.RealLookup` | Projeto1SO/tecnicofs/fs/operations.c:50-51 | the look-up step finds exactly what tfs_lookup finds |
| `Creation.RealDecision` | Projeto1SO/tecnicofs/fs/operations.c:52-115 | a file that is found is locked next; one that is not is created exactly with TFS_O_CREAT |
| `Creation.RealCreate` | Projeto1SO/tecnicofs/fs/state.c:114-160 | the step on the tables is exactly inode_create on the whole state |
| `Creation.RealAdd` | Projeto1SO/tecnicofs/fs/state.c:254-293 | the step on the tables is exactly add_dir_entry on the whole state |
| `Creation.RealDelete` | Projeto1SO/tecnicofs/fs/state.c:171-229 | the step on the tables is exactly inode_delete of an empty file on the whole state |
| `CreationWitness.TwentySevenLeak` | Projeto1SO/tecnicofs/fs/state.c:158-160 | with 27 creating at once a run from tfs_init ends with a thread that keeps the inode table for ever |
| `LockOrder.LeakBlocks` | Projeto1SO/tecnicofs/fs/state.c:158-160 | after inode_create has run out of inodes, which leaves its mutex locked, no other thread ever gets the inode table |
| `LockSafety.MutualExclusion` | Projeto1SO/tecnicofs/fs/operations.c:146-166 | in every reachable state two threads hold the same lock only if it is an inode's and both are in tfs_read on that inode |
| `LockSafety.WriterAlone` | Projeto1SO/tecnicofs/fs/operations.c:56-166 | a thread in tfs_write or tfs_open that holds an inode's lock holds it alone |
| `LockSafety.ReaderJoins` | Projeto1SO/tecnicofs/fs/operations.c:280-281 | a reader joins readers: with only readers at the inode the lock is granted and all of them hold it |
| `LockSafety.CriticalSections` | Projeto1SO/tecnicofs/fs/operations.c:146-188 | in every reachable state no two threads are together at the inode table, in the look-up of a handle, at one handle's entry or in data_block_alloc, and at one inode only if both read it |
| `LockSafety.OnlyHoldersBlock` | Projeto1SO/tecnicofs/fs/operations.c:142-313 | in every reachable state a lock is granted exactly when nobody else holds it, or only fellow readers do; a thread in whose way nobody stands can step |
| `LockSafety.EndsProperly` | Projeto1SO/tecnicofs/fs/operations.c:49-132 | no call ends in a run without having come through one of its returns: an open has gone through the open-file table, rolled back or been refused |
| `SingleBlockInv.AtMost23Files` | Projeto2/tecnicofs_ex2/fs/state.c:188-219 | at most 23 files exist, so an inode is always free |
| `SingleBlockInv.AtMost24Blocks` | Projeto2/tecnicofs_ex2/fs/state.c:256-268 | at most 24 of the 1024 blocks are TAKEN, so a block is always free |
| `SingleBlockCalls.InitInv` | Projeto2/tecnicofs_ex2/fs/operations.c:13-32 | initialisation over any memory contents gives the invariant |
| `SingleBlockCalls.CloseInv` | Projeto2/tecnicofs_ex2/fs/operations.c:149-161 | tfs_close succeeds exactly on an open handle, closes that one only and keeps the invariant and the directory; it answers -1 and changes nothing otherwise |
| `SingleBlockCalls.WriteNeverFails` | Projeto2/tecnicofs_ex2/fs/operations.c:163-204 | tfs_write on an open handle returns min(len, 1024-offset), whatever was truncated before, and keeps the invariant; it is undefined if and only if a read has taken the offset past the block |
| `SingleBlockCalls.WriteRefinesSplice` | Projeto2/tecnicofs_ex2/fs/operations.c:163-204 | it is a splice of the flat contents, or of the stale bytes of its block when the file was truncated under the handle; no other file changes |
| `SingleBlockCalls.NotShared` | Projeto2/tecnicofs_ex2/fs/state.c:256-283 | no two non-empty files share a block |
| `SingleBlockCalls.ReadMeaning` | Projeto2/tecnicofs_ex2/fs/operations.c:216-248 | tfs_read returns the next bytes if the offset is within the file; after a truncation by somebody else it returns len bytes of the block the file had and of the blocks behind it, and is undefined if and only if that passes the last block; no read breaks the invariant |
| `SingleBlockCalls.MemoryBytes` | Projeto2/tecnicofs_ex2/fs/operations.c:233-240 | what lies behind a block are the bytes of the blocks that follow, in order |
| `SingleBlockWitnesses.StaleRead` | Projeto2/tecnicofs_ex2/fs/operations.c:228-245 | create, write, open with TFS_O_TRUNC, read through the first handle: an empty file yields bytes |
| `SingleBlockWitnesses.CrossingRead` | Projeto2/tecnicofs_ex2/fs/operations.c:176-245 | the same after a full block: the read returns a byte of the next block, and the next write through the handle wraps around and leaves all memory |
| `SingleBlockCalls.TruncateInv` | Projeto2/tecnicofs_ex2/fs/operations.c:92-100 | truncation frees the block and keeps the invariant whoever else has the file open, although the inode still names the block |
| `SingleBlockCalls.NewFileInv` | Projeto2/tecnicofs_ex2/fs/operations.c:107-119 | a new inode and its entry keep inodes and entries in one-to-one correspondence |
| `SingleBlockCalls.RollBack` | Projeto2/tecnicofs_ex2/fs/operations.c:115-118 | a failed add restores every table |
| `SingleBlockCalls.OpenInv` | Projeto2/tecnicofs_ex2/fs/operations.c:80-131 | tfs_open keeps the invariant for every path and all flags; its only undefined case is creating under the empty path |
| `SingleBlockCalls.OpenRefused` | Projeto2/tecnicofs_ex2/fs/operations.c:42-79 | no look-up succeeds on a path that is not '/' and more, and what is not found is refused without TFS_O_CREAT |
| `SingleBlockCalls.OpenFoundFile` | Projeto2/tecnicofs_ex2/fs/operations.c:82-106 | a file that is found is opened if and only if a handle is free, the lowest free one, at 0 or with TFS_O_APPEND at the end of the file; with TFS_O_TRUNC the file is empty afterwards, otherwise unchanged; nothing else changes |
| `SingleBlockCalls.OpenNewAnswers` | Projeto2/tecnicofs_ex2/fs/operations.c:107-131 | a path that is not found is created and opened if and only if an entry and a handle are there for it; without a handle the file is created all the same, without an entry every table is as before |
| `SingleBlockCalls.AppendAtEnd` | Projeto2/tecnicofs_ex2/fs/operations.c:100-204 | after an open with TFS_O_APPEND a write leaves the contents followed by as much of the buffer as the block has room for |
| `SingleBlockCalls.DeleteReleases` | Projeto2/tecnicofs_ex2/fs/state.c:145-163 | inode_delete frees the inode of a file and its block exactly if the file is not empty; -1 for an inode that is not in use |
| `SingleBlockCalls.BadHandle` | Projeto2/tecnicofs_ex2/fs/operations.c:163-222 | on a handle outside 0 to 19 tfs_write and tfs_read answer -1 and change nothing |
| `SingleBlockCalls.FlagsIgnored` | Projeto2/tecnicofs_ex2/fs/operations.c:163-248 | neither call looks at the flags of the open-file table: a closed handle still works |
| `SingleBlockRuns.RunInv` | Projeto2/tecnicofs_ex2/fs/state.c:188-250 | after every run of defined calls entries and files are in one-to-one correspondence, blocks have one owner and handles are on live files |
| `SingleBlockRuns.NothingRunsOut` | Projeto2/tecnicofs_ex2/fs/operations.c:80-204 | in every reachable state at most 23 files exist, inode_create and data_block_alloc succeed and every write on an open handle whose offset is in its block returns min(len, 1024-offset) |
| `SingleBlockRuns.ExactOwnership` | Projeto2/tecnicofs_ex2/fs/state.c:94-163 | in every reachable state the TAKEN blocks are the directory's and one per non-empty file, no two the same |
| `SingleBlockRuns.HandlesAreNamed` | Projeto2/tecnicofs_ex2/fs/state.c:305-329 | every TAKEN handle is on a file with an entry |
| `SingleBlockRuns.LookupForever` | Projeto2/tecnicofs_ex2/fs/state.c:227-250 | a name once found is found by every later look-up, under the same inode |
| `SingleBlockRuns.CreatedIsFound` | Projeto2/tecnicofs_ex2/fs/operations.c:107-119 | a created file is found if and only if its path is '/' and 1 to 39 characters |
| `SingleBlockRuns.CreateKeepsDistinct` | Projeto2/tecnicofs_ex2/fs/operations.c:107-119 | creating keeps names distinct if and only if the first 39 characters are new |
| `SingleBlockRuns.NamesAreDistinct` | Projeto2/tecnicofs_ex2/fs/state.c:188-250 | with valid names the directory is a map in every reachable state |
| `SingleBlockFs.TecnicoFs.OpenUnsynchronized` | Projeto2/tecnicofs_ex2/fs/operations.c:80-131 | look-up, truncation, creation with roll-back and handle in place, every branch |
| `SingleBlockFs.TecnicoFs.TfsOpen` | Projeto2/tecnicofs_ex2/fs/operations.c:133-147 | refused once can_open_files is 0; open_files counts exactly the successes |
| `SingleBlockFs.TecnicoFs.TfsClose` | Projeto2/tecnicofs_ex2/fs/operations.c:149-161 | open_files counts down on success, and the condition is signalled exactly when it is 0 |
| `SingleBlockFs.TecnicoFs.TfsWrite` | Projeto2/tecnicofs_ex2/fs/operations.c:163-214 | in place, the state and the answer of the specification for every state and argument |
| `SingleBlockFs.TecnicoFs.TfsRead` | Projeto2/tecnicofs_ex2/fs/operations.c:216-258 | in place, the state and the bytes of the specification for every state and argument |
| `SingleBlockFs.TecnicoFs.TfsInit` | Projeto2/tecnicofs_ex2/fs/operations.c:13-32 | leaves a state that satisfies the invariant, opening allowed and nothing open |
| `SingleBlockFs.TecnicoFs.DeleteInode` | Projeto2/tecnicofs_ex2/fs/state.c:145-163 | inode_delete in place, every branch |
| `SingleBlockFs.TecnicoFs.AddToRoot` | Projeto2/tecnicofs_ex2/fs/state.c:188-219 | add_dir_entry in place, every branch |
| `Shutdown.StepKeepsInv` | Projeto2/tecnicofs_ex2/fs/operations.c:46-58 | every step of openers, closers and the destroyer, spurious wake-ups included, keeps the accounting of open_files and the wake-up |
| `Shutdown.ShutdownSafety` | Projeto2/tecnicofs_ex2/fs/operations.c:46-58 | in every reachable state: open_files is the number of TAKEN handles when the lock is free; the destroyer leaves its loop only when none is TAKEN; it is not asleep unsignalled while the lock is free and none is TAKEN |
| `Shutdown.DrainStep` | Projeto2/tecnicofs_ex2/fs/operations.c:133-161 | after can_open_files is 0 no one joins the openers in flight, and 2*(in flight) + open_files falls at every completed open and every successful close |
| `Shutdown.ShutdownDrains` | Projeto2/tecnicofs_ex2/fs/operations.c:133-161 | so all later completions are bounded by the value at that moment |
| `ShutdownAnswers.CountIsAnswers` | Projeto2/tecnicofs_ex2/fs/operations.c:133-161 | whenever the lock is free, open_files is its first value plus the callers that were answered a handle minus those whose close succeeded |
| `ShutdownAnswers.OpenAnswer` | Projeto2/tecnicofs_ex2/fs/operations.c:133-147 | a finished tfs_open was refused with -1 because can_open_files was 0 at its first move, or is told what its open, run in one piece, answered on the tables of that moment |
| `ShutdownAnswers.CloseAnswer` | Projeto2/tecnicofs_ex2/fs/operations.c:149-161 | a finished tfs_close is told what its close answered on the tables of that moment |
| `ShutdownAnswers.AnsweredHandle` | Projeto2/tecnicofs_ex2/fs/operations.c:133-147 | an answered handle was FREE before its open and TAKEN after it; the only other answer is -1 |
| `ShutdownAnswers.RefusedOnceClosing` | Projeto2/tecnicofs_ex2/fs/operations.c:133-136 | a caller whose first move comes after can_open_files is 0 is answered -1 |
| `ShutdownAnswers.TablesAreSerial` | Projeto2/tecnicofs_ex2/fs/operations.c:133-161 | the tables are those of the calls made one at a time in the order in which they ran |
| `ShutdownAnswers.WokenWhenEmpty` | Projeto2/tecnicofs_ex2/fs/operations.c:155-156 | the sleeping destroyer is signalled exactly by a close that leaves no handle TAKEN |
| `ShutdownAnswers.SpuriousIsHarmless` | Projeto2/tecnicofs_ex2/fs/operations.c:50-52 | after a spurious wake-up the destroyer takes the lock, tests open_files again and goes back to sleep |
| `ShutdownAnswers.RunsEnd` | Projeto2/tecnicofs_ex2/fs/operations.c:46-161 | every run is bounded by the work there is, spurious wake-ups apart |
| `ShutdownAnswers.ShutdownCompletes` | Projeto2/tecnicofs_ex2/fs/operations.c:46-161 | a run that cannot go on has answered every caller, and tfs_destroy_after_all_closed has left its critical section unless a file stays open |
| `Shutdown.NothingOpensAfter` | Projeto2/tecnicofs_ex2/fs/operations.c:46-58 | if nobody is past the unlocked test when the destroyer leaves its loop, no handle is TAKEN ever after |
| `SingleBlockWitnesses.LateOpen` | Projeto2/tecnicofs_ex2/fs/operations.c:133-147 | otherwise one can be: a run from tfs_init in which a caller passes the test, the destroyer starts and finishes, and then the file is opened |
| `Wire.IntInverse` | Projeto2/tecnicofs_ex2/client/tecnicofs_client_api.c:100-104 | an int survives its four bytes, negative ones included |
| `Wire.SizeInverse` | Projeto2/tecnicofs_ex2/client/tecnicofs_client_api.c:132-137 | a size_t survives its eight bytes |
| `Wire.CStringStops` | Projeto2/tecnicofs_ex2/client/tecnicofs_client_api.c:101-104 | a name is read back whatever lies behind its NUL |
| `Wire.AnnouncedPayload` | Projeto2/tecnicofs_ex2/fs/tfs_server.c:309-317 | the server reads exactly the payload the client sent |
| `Wire.RoundTakesMessage` | Projeto2/tecnicofs_ex2/fs/tfs_server.c:402-464 | a round of the dispatch loop takes exactly one message off the stream, whatever follows it |
| `Wire.DecodeInverse` | Projeto2/tecnicofs_ex2/fs/tfs_server.c:48-143 | a worker decodes the re-marshalled buffer to the request the client was asked for |
| `WireLayout.MessageLayout` | Projeto2/tecnicofs_ex2/client/tecnicofs_client_api.c:49-155 | each message byte by byte: the opcode character, where each field lies, integers lowest byte first, the payload at the end |
| `Wire.EndToEnd` | Projeto2/tecnicofs_ex2/fs/tfs_server.c:402-464 | for every list of requests the loop hands over one buffer each, in order, that decodes to that request; the default case is not reached |
| `Wire.StrayBytes` | Projeto2/tecnicofs_ex2/fs/tfs_server.c:402-464 | bytes that are no opcode are passed over one by one, and what follows is read as ever |
| `Wire.CutMessage` | Projeto2/tecnicofs_ex2/fs/tfs_server.c:402-464 | of a message cut short nothing is handed over |
| `Wire.PrefixFree` | Projeto2/tecnicofs_ex2/client/tecnicofs_client_api.c:49-155 | no message is a proper prefix of another and none stands for two requests |
| `Wire.OneReading` | Projeto2/tecnicofs_ex2/client/tecnicofs_client_api.c:49-155 | two lists of requests with the same bytes are the same |
| `WireIo.Client.Send` | Projeto2/tecnicofs_ex2/client/tecnicofs_client_api.c:17-27 | the write loop sends the whole buffer, however much each write takes |
| `WireIo.Client.SendMount` | Projeto2/tecnicofs_ex2/client/tecnicofs_client_api.c:49-69 | what goes down the pipe is the message of the request, the name padded with NULs |
| `WireIo.Client.SendOpen` | Projeto2/tecnicofs_ex2/client/tecnicofs_client_api.c:94-105 | what goes down the pipe is the message of the request, over whatever was on the stack |
| `WireIo.Client.SendWrite` | Projeto2/tecnicofs_ex2/client/tecnicofs_client_api.c:126-138 | what goes down the pipe is the message of the request, struct and payload |
| `WireIo.Client.SendRead` | Projeto2/tecnicofs_ex2/client/tecnicofs_client_api.c:145-162 | what goes down the pipe is the message of the request |
| `WireIo.Client.SendClose` | Projeto2/tecnicofs_ex2/client/tecnicofs_client_api.c:111-120 | what goes down the pipe is the message of the request |
| `WireIo.Client.SendUnmount` | Projeto2/tecnicofs_ex2/client/tecnicofs_client_api.c:76-85 | what goes down the pipe is the message of the request |
| `WireIo.Client.SendShutdown` | Projeto2/tecnicofs_ex2/client/tecnicofs_client_api.c:186-195 | what goes down the pipe is the message of the request |
| `WireIo.Server.ReadPayload` | Projeto2/tecnicofs_ex2/fs/tfs_server.c:309-317 | the payload is complete however it is cut into reads, and the rest of the stream is untouched |
| `WireIo.Server.HandOver` | Projeto2/tecnicofs_ex2/fs/tfs_server.c:318-321 | the worker's buffer is opcode, struct and payload, in this order |
| `WireIo.Server.Dispatch` | Projeto2/tecnicofs_ex2/fs/tfs_server.c:402-464 | one round in place does what the specification says, on every stream |
| `WireIo.Server.Serve` | Projeto2/tecnicofs_ex2/fs/tfs_server.c:402-464 | the loop in place does the rounds of the specification, on every stream |
| `TwoVersions.BlocksLeft` | Projeto1SO/tecnicofs/fs/state.c:334-349 | with files of one block each the first version cannot run out of blocks either |
| `TwoVersions.WriteAlike` | Projeto1SO/tecnicofs/fs/operations.c:142-196 | a write within the first 1024 bytes returns the same count in both and leaves them alike |
| `TwoVersions.ReadAlike` | Projeto1SO/tecnicofs/fs/operations.c:259-313 | a read returns the same bytes in both and leaves them alike |
| `TwoVersions.OpenAlike` | Projeto2/tecnicofs_ex2/fs/operations.c:80-131 | an open returns the same handle or -1 in both and leaves them alike |
| `TwoVersions.SameAnswers` | Projeto2/tecnicofs_ex2/fs/operations.c:80-258 | from initialisation on, every run of calls on small files gets the same answers from both versions, none of them undefined and no read failing |

## Left out

- Serial.Serialisable: covers, like the other results of Serial, SerialReal, SerialProgress and SerialSpace, tfs_write and tfs_read on handles that are open throughout; a write that finds no block is not a step, and opening, closing and truncating meanwhile are not modelled. A loop round is one step, with the at most two block allocations inside it.
- LockOrder.DeadlockFree: leaves out TFS_O_TRUNC, which unlocks the inode twice, and tfs_copy_to_external_fs, which takes the locks out of order; rwlocks have no preference between readers and writers.
- Opening.OpenInv: says what tfs_open does to the tables; that a truncating open unlocks the inode's rwlock a second time (`Projeto1SO/tecnicofs/fs/operations.c` lines 101 and 109), which POSIX leaves undefined, is not represented here, in TruncateInv, in TfsOpen or in TruncationCounterexample.
- MultiBlockFs.TecnicoFs.TfsOpen: like OpenInv, without the second unlock of the rwlock.
- MultiBlockWitnesses.WritePastTheEnd: ends at the block number taken from the next block; what the code then does with that number is not modelled.
- Creation.CalmDeadlockFree: the count starts from tables in which every inode in use is the root or has an entry, as after tfs_init.
- Wire.EndToEnd: each fixed struct arrives whole and messages of different clients do not interleave; only the opcode, the structs and the payloads are modelled, not the answers. It does not cover a mount when all 20 sessions are taken, which the server answers with -1 and hands to no worker (`Projeto2/tecnicofs_ex2/fs/tfs_server.c` lines 220 to 238), nor a session id outside 0 to 19, with which the server indexes its session table unchecked.
- MultiBlockRuns.ExactOwnership: runs in which no write begins inside a file and then runs out of blocks (FailedWrite says that this breaks the invariant), none is undefined, and truncation keeps to TruncateInv's condition.
- Conservation.CopyIsComplete: tfs_copy_to_external_fs runs alone and fopen and fwrite succeed; the external file is a sequence.
- SingleBlockRuns.RunInv: reads and writes go through open handles and no call of the run is undefined, here and in the other results on runs of the second version.
- TwoVersions.SameAnswers: no write past byte 1024, no truncation of a file with a handle inside it, valid path names.
- Shutdown.ShutdownSafety: pthread calls succeed, and the unlocked test of can_open_files is one atomic step; tfs_destroy, which destroys the locks after the loop, is not part of this model, so a late opener still finds the lock.
- A block is one value with three typed views (bytes, references, directory entries) instead of 1024 raw bytes; a block has one role at a time, which is what exact ownership proves, but bytes read as references are not modelled.
- size_t arithmetic wraps where the code subtracts; offset + length is taken not to wrap, since no such buffer exists.
- Names and paths are sequences of characters without NUL; a NULL path is not modelled.
- The worker mailbox (`thread_buffer`, its condition variable, the worker loop) and the session table: no delivery guarantee holds as written. A shutdown request is decoded as worker_shutdown does, although the worker's switch does not call it.
- Named pipes: creation, opening, closing, unlinking, partial reads of a struct, end of file (the dispatch loop is followed until its input ends).
- insert_delay, pthread initialisation and return codes, tfs_destroy, test programs and makefiles.
- Directories inside the root: the code never creates one.
