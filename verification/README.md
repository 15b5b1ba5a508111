# Verified model of a message broker

The broker keeps *boxes* of messages in an in-memory file system, hands client
requests to worker threads through a bounded queue, and lists boxes for its
manager over pipes. This project models the three parts whose correctness is
decided by the code itself, and proves what they promise.

`dafny verify dfyconfig.toml` checks everything.

## The file system

Three layers, each proved against the next:

- `FileSystem` is the code in place: a class over six arrays, with the data area
  flat and `block * size` arithmetic. Every `Tfs...` method is proved to compute the function
  of the same name in `Tables` on the class's `Snapshot()`.
- `Tables` holds the same operations as functions on sequences, with the same
  first-fit scans, rollbacks and stale fields. The root directory lives as bytes
  in block 0 and is read through `Directory`.
- `AbstractFs` is what the file system is for: a map from names to bytes and a
  map from handles to (name, offset). Resources appear only as counts:
  a file can be created when fewer files than inodes (less the root's) and
  directory slots exist.

Three invariants separate what holds always from what needs discipline.

- `Safe`: no shared blocks, no non-empty file on a FREE block, no handle beyond a
  block. It holds on every run whose reads stay inside their block, even when
  files are unlinked or truncated while open.
- `Accounted` adds that every TAKEN block has an owner and no handle is on a
  deleted file. A call keeps it if and only if it does not unlink an open file.
- `Exact` adds that every handle is inside its file. A call keeps it if and only
  if it also truncates no file under a handle that has moved
  (`Refinement.DisciplineIsExact`); this is the discipline of `AbstractFs`, and
  a *disciplined* run is one in which every call obeys it.

`Streams` says what many writes or many reads through one handle add up to on
any run of `Tables` whose reads stay inside their block, while other sessions
create, write, truncate and unlink other files, open ones included. The
broker needs this: it never closes a handle, so every box it removes is open.
`Dangling` says exactly what writes through the handles left behind do, and
`DanglingRuns` has short runs from a new file system that show it. `Answers` says
what every call answers and changes in every `Safe` state, so also through such handles:
in cases and numbers, without the operations' own tests.

Memory that `malloc` returns is arbitrary: the names in directory slots that
were never used are not zero. That clearing finds the right slot all the same
rests on the last clause of `Directory.DirOk`, a high-water mark
(`Directory.HighWaterMark` reads it that way).

## The queue

`Ring` has the ring buffer and the statements that change it, and the queue
as an object for one thread. `QueueProtocol` is the same queue shared by any finite set of
threads: one action is one statement of one thread, a signal that wakes at least
one waiter, or a spurious wakeup. `QueueInvariants` proves an inductive
invariant one action at a time; `QueueSafety` draws the conclusions for every
reachable state. `QueueCalls` ties them to the callers: the elements that go in are the
arguments of the calls of `pcq_enqueue`, read off the moves alone, and those that come
out are what the calls of `pcq_dequeue` return. "Woken" means signalled (or spuriously awake) and not yet
holding the mutex again.

## Box list, sorting, messages, listing

`BoxList` has heap nodes relinked in place by insertion, deletion and merge
sort. A node has the address that `malloc` gave it, which may be that of a
deleted node, and `tail` holds an address, as the program only ever compares it.
`StableSort` is the theory of the sort: the merge lets the right side win ties, so the
sort is *anti-stable* (`AntiStable`: sorted, with equal names in exactly reverse order),
and there is exactly one such result. The order is that of the bytes
(`Bytes.StrLessMeaning`). `Codec` has the fixed-field messages,
`Listing` the whole path from the broker's list, over the bytes on the pipe, to
the manager's printed lines, and `ListRuns` what a listing shows after any
sequence of creations and removals. `Replay` cuts stored messages apart again, and
`Publishing` goes the whole way from a publisher's lines through a box to a
subscriber's.

## Where the code does less than it may seem to

Each of these is stated as a lemma, with its exact condition where there is one:

- Truncating a file leaves exactly those of its handles beyond its end that are
  not at offset 0, and a read through such a handle copies as much as is asked
  for: the length is an unsigned subtraction. `Safety.TruncateStrandsHandle`,
  `Safety.ReadStaysInside`.
- A write whose length and offset add up to 2^64 or more would leave its block.
  `Safety.WriteStaysInside`.
- Unlinking an open file leaves its handle on a freed inode
  (`Safety.UnlinkStrandsHandle`). A write through any handle goes into another
  file's block if and only if the handle's inode is free, not empty, and its old
  block has a new owner; it goes into the file that has the handle's inode now,
  which need not be the one that was opened (`Dangling.WriteReaches`). The next
  file created gets that inode if and only if no lower one is free
  (`Dangling.InodeReused`). A write leaks a block, for good, if and only if the
  handle's inode is free and empty (`Dangling.WriteLeaks`, `Dangling.LeakedForever`).
  A new file system reaches each within a few calls (`DanglingRuns.LeakReached`,
  `DanglingRuns.OverwriteReached`, `DanglingRuns.StrandedReached`).
- An open that finds the open-file table full has already created or truncated
  the file. `Refinement.FullTableKeepsFile`.
- Creating a box that exists succeeds and lists it twice; removing it once leaves it
  listed. Only when no box is created while there is one of its name are the
  listed ones those not removed since. `ListRuns.TwiceCreatedStays`,
  `ListRuns.ListedUntilRemoved`.
- Deleting the only box leaves `tail` behind. From then on it is not guaranteed
  that the final record of a listing is the one marked last: none is marked when
  no memory is used again, and a wrong one may be when it is.
  `ListRuns.TailGuaranteed`, `ListRuns.ReusedAddressMisleads`.
- The replay loop gives back the stored messages if and only if none is empty
  and the 1024-byte buffer happens to hold a NUL after the bytes read; the
  buffer is never cleared. `Replay.ReplayIdentity`, `Publishing.PublishThenReplay`.
- A string as long as its field is sent without a terminator, and its
  reader writes the terminator one byte past its own field. `Codec.FieldMeaning`
  and the precondition of `Codec.RemoveString`. A pipe path that fills its field
  runs on into the box name when the broker reads it. `Codec.RequestRoundTrip`.
- A requested box name of 31 characters, with the '/' put in front, is one too
  long for a list node. `Codec.NodeNameFits`.
- A queue of capacity 0, and only such a queue, can have producers and consumers
  asleep together for ever. `QueueSafety.BothKindsStuckIffNoCapacity`.

## Model

| member | source | states |
|---|---|---|
| `Refinement.FileSystemRefines` | fs/operations.c:25-328 | started on any memory, every disciplined run of open, close, write, read and unlink returns what the abstract machine returns, call by call, and ends in a state that represents the abstract one |
| `Refinement.StepRefines` | fs/operations.c:79-328 | one disciplined call has exactly the abstract call's answer and effect, and keeps the exact invariant |
| `Refinement.DisciplineIsExact` | fs/operations.c:79-328 | a call keeps the exact invariant if and only if it unlinks no open file and truncates none under a handle that has moved |
| `Refinement.SimOpen` | fs/operations.c:79-161 | open finds, truncates, creates or fails exactly as the abstract open, with the least free handle number; the file exists afterwards even when no handle was free |
| `Refinement.SimMakeFile` | fs/operations.c:118-138 | creation succeeds if and only if the name is legal and the counts leave an inode and a slot; then exactly one empty file is added, else nothing abstract changes |
| `Refinement.SimTruncate` | fs/operations.c:106-111 | truncating a file whose handles are all at its start empties that file and nothing else, although the inode's block field goes stale |
| `Refinement.SimClose` | fs/operations.c:163-184 | close removes exactly that handle |
| `Refinement.SimWrite` | fs/operations.c:186-243 | a write is cut at the block size, is spliced into that file at the offset, moves that handle, and fails exactly when the file is empty and no block is left |
| `Refinement.WriteFiles` | fs/operations.c:210-236 | no other file's bytes change, and no name does |
| `Refinement.SimRead` | fs/operations.c:245-284 | a read returns the next bytes of the file, at most as many as asked, and moves that handle only |
| `Refinement.SimUnlink` | fs/operations.c:286-328 | unlinking a file without handles removes exactly that file |
| `Refinement.BootRefines` | fs/operations.c:25-44 | initialisation represents the empty file system, whatever the memory held |
| `Refinement.DisciplinedAccounting` | fs/operations.c:79-328 | after a disciplined run: TAKEN inodes = 1 + files, TAKEN blocks = 1 + non-empty files, TAKEN handles = open handles |
| `Refinement.FailedCallRestores` | fs/operations.c:118-138 | a failed call, on any safe state, leaves every table as it was but for the fields of a free inode, unless an open found the open-file table full |
| `Refinement.FullTableKeepsFile` | fs/operations.c:149-160 | with the open-file table full the open fails, but the file is created or truncated |
| `Refinement.SameHandleChoice` | fs/state.c:468-480 | the table's handle is the least number not in use |
| `Accounting.ReachableAccounting` | fs/operations.c:79-328 | after any run that unlinks no open file, truncation of open files included: an inode is TAKEN exactly when it is the root or one name has it, a block exactly when it is the directory's or one non-empty file has it, with the counts that follow |
| `Accounting.StepAccounted` | fs/operations.c:79-328 | a call keeps the accounts if and only if it does not unlink an open file |
| `Accounting.InodeAccounting` | fs/state.c:162-267 | the TAKEN inodes are the root's and those of the directory's names: 1 + number of files |
| `Accounting.BlockAccounting` | fs/state.c:252-267 | the TAKEN blocks are the directory's and exactly one for each non-empty file |
| `Accounting.CreateCondition` | fs/state.c:333-359 | for a legal name the first-fit scans find an inode and a slot if and only if fewer than inodes - 1 files and fewer files than slots exist |
| `Answers.WriteAnswer` | fs/operations.c:186-243 | the answer of a write through any open handle of any safe state, deleted files included: -1 if and only if there is something to write and room for it, the inode is empty and every block is TAKEN; else the smaller of the length and the room left in the block; nothing changes unless it is positive |
| `Answers.WriteEffect` | fs/operations.c:210-236 | what a write with bytes to write, room and a block does: byte by byte what is in the inode's block, or in the least free one taken for it, the new size and offset, and that nothing else changes |
| `Answers.ReadAnswer` | fs/operations.c:245-284 | the answer of a read through any open handle: the number of bytes left, or until the subtraction has wrapped around, at most as many as asked for; the bytes at those places of the block; only that handle moves |
| `Answers.CloseAnswer` | fs/operations.c:163-184 | closing an open handle, whatever its inode is, answers 0 and frees that entry only; any other answers -1 |
| `Answers.OpenExisting` | fs/operations.c:99-117 | opening a file that exists: truncated if asked for, its block given back; no other file, name or inode changes; the least free handle, at the end of the file with append, else at its start; -1 if none is free |
| `Answers.OpenAbsent` | fs/operations.c:118-151 | a file is created if and only if that is asked for, its name has 1 to 39 bytes other than NUL, an inode is free and the directory has a free 44-byte entry; it is empty and has the least free inode; else -1 and nothing changes |
| `Answers.OpenForAppend` | fs/operations.c:112-117 | an open with append that succeeds leaves the handle at the end of the file, with the contents there were unless truncated or new |
| `Answers.BadPath` | fs/operations.c:53-55 | open and unlink refuse a path that is not a slash with something after it |
| `Answers.UnlinkAnswer` | fs/operations.c:286-328 | unlinking an existing file, open or not, answers 0, removes that name, gives back its inode, and its block if it has one, and changes no other file and no handle; else -1 and nothing changes |
| `Answers.DirectoryInode` | fs/state.c:198-231 | a directory inode gets the least free inode and block, all entries empty; with either missing none stays TAKEN |
| `Dangling.WritesWhen` | fs/operations.c:204-242 | a write through any handle answers a positive number if and only if there are bytes to write, room for them, and a block if the inode is empty; else it changes nothing |
| `Dangling.WriteReaches` | fs/operations.c:210-236 | what a write through any handle, with bytes to write, room and a block, does to any file: it answers a positive number and goes into the file that has the handle's inode, and into the one that owns the block the inode names; every other file is unchanged |
| `Dangling.OnlyDeadReachOthers` | fs/operations.c:225-229 | another file can own that block only when the handle's inode is free |
| `Dangling.WriteLeaks` | fs/operations.c:210-222 | a write with bytes to write, room and a block succeeds, and leaves a TAKEN block without an owner if and only if the handle's inode is free and empty |
| `Dangling.UnlinkThenWriteLeaks` | fs/operations.c:210-236 | right after unlinking an open file, a write through its handle with bytes to write, room and a block succeeds, and does so if and only if the file was empty; any other changes nothing |
| `Dangling.LeakedForever` | fs/state.c:252-267 | a TAKEN block without an owner stays so on every run |
| `Dangling.InodeReused` | fs/state.c:162-179 | after unlinking an open file, the next file created has the inode of the open handle if and only if no lower inode is free |
| `DanglingRuns.LeakReached` | fs/operations.c:79-328 | create, unlink, write: from any new file system, a block is lost |
| `DanglingRuns.OverwriteReached` | fs/operations.c:79-328 | create one file, unlink it, create another and write to it: a write through the first handle overwrites the second file |
| `DanglingRuns.StrandedReached` | fs/operations.c:79-328 | create, write, truncate: the handle is beyond the end of its file |
| `Safety.AllocationSafety` | fs/operations.c:79-328 | on every run, disciplined or not, whose reads stay in their blocks: existing files never share a block, their blocks are TAKEN and not block 0, the root keeps block 0, and every handle stays within one block |
| `Safety.StepSafe` | fs/operations.c:79-328 | each call keeps allocation safety, also through handles on freed or reused inodes |
| `Safety.MakeFileSafe` | fs/operations.c:118-138 | creation adds the name with a fresh, usable inode or leaves the directory as it was |
| `Safety.UnlinkedSafe` | fs/operations.c:313-326 | unlinking an existing name cannot fail half way: the clearing scan finds the slot |
| `Safety.InitSafe` | fs/operations.c:33-43 | from arbitrary memory, initialisation succeeds with inode 0, an empty directory in block 0, and everything else FREE |
| `Safety.ReadStaysInside` | fs/operations.c:263-267 | reads of all lengths stay inside the file if and only if they start inside |
| `Safety.WriteStaysInside` | fs/operations.c:204-208 | with the unsigned addition a write stays in its block if and only if the sum does not wrap around |
| `Safety.TruncateStrandsHandle` | fs/operations.c:106-111 | after truncation a handle of the file is inside it if and only if it is at offset 0 |
| `Safety.UnlinkStrandsHandle` | fs/operations.c:313-314 | unlinking an open file succeeds and leaves its handle on an inode that is no file |
| `Directory.FindIsLookup` | fs/state.c:375-400 | scanning with the bounded comparison is lookup in the map that the slots represent |
| `Directory.AddSlot` | fs/state.c:348-357 | filling the first free slot adds the name to the represented map and keeps names distinct and terminated |
| `Directory.ClearFindsLookup` | fs/state.c:308-314 | the clearing scan, which does not look at inumbers, stops at the very slot that lookup found, whatever never-used slots hold |
| `Directory.ClearSlot` | fs/state.c:297-316 | clearing by name removes exactly that name |
| `Directory.HighWaterMark` | fs/state.c:348-357 | there is a mark below which free slots have an empty name, and from which on no slot is live |
| `Directory.FullIffCount` | fs/state.c:348-359 | the directory is full if and only if it has as many names as slots |
| `Directory.StoreSlot` | fs/state.h:15-18 | writing one 44-byte entry into the block changes that slot and no other |
| `FileSystem.CutOverlay` | fs/state.c:448-454 | bytes written inside one block of the flat area reach no other block |
| `FileSystem.FileSystem.constructor` | fs/operations.c:25-44 | a new file system is exact and represents the empty one |
| `FileSystem.FileSystem.TfsOpen` | fs/operations.c:79-161 | computes `Tables.Open` in place, keeps `Safe` |
| `FileSystem.FileSystem.TfsClose` | fs/operations.c:163-184 | computes `Tables.Close` in place, keeps `Safe` |
| `FileSystem.FileSystem.TfsWrite` | fs/operations.c:186-243 | computes `Tables.Write` in place, keeps `Safe` |
| `FileSystem.FileSystem.TfsRead` | fs/operations.c:245-284 | computes `Tables.Read` in place, keeps `Safe`, for reads that stay in their block, those beyond the end of the file included |
| `FileSystem.FileSystem.TfsUnlink` | fs/operations.c:286-328 | computes `Tables.Unlink` in place, keeps `Safe` |
| `FileSystem.FileSystem.PerformCalls` | fs/operations.c:79-328 | any sequence of calls on the arrays computes the run of `Tables` and its answers |
| `FileSystem.FileSystem.Serve` | fs/operations.c:25-328 | the arrays, new and then performing a disciplined run, answer as the abstract machine and end in a state that represents the abstract one |
| `FileSystem.FileSystem.FindInDir` | fs/state.c:375-400 | the scan's result; the root is always a directory |
| `FileSystem.FileSystem.AddDirEntry` | fs/state.c:333-360 | fills the first free slot, or changes nothing |
| `FileSystem.FileSystem.ClearDirEntry` | fs/state.c:297-316 | clears the first slot of that name, or changes nothing |
| `FileSystem.FileSystem.InodeCreate` | fs/state.c:198-244 | a file takes an inode; a directory also a block with labelled entries, or gives the inode back |
| `FileSystem.FileSystem.InodeDelete` | fs/state.c:252-267 | frees the inode, and its block exactly when its size is positive |
| `FileSystem.FileSystem.TakeFirstFree` | fs/state.c:162-179 | takes the first FREE entry of an allocation map (the scans of inodes, blocks and handles) |
| `FileSystem.FileSystem.DataBlockGet` | fs/state.c:448-454 | the position it computes is where the block's bytes are |
| `FileSystem.FileSystem.AddToOpenFileTable` | fs/state.c:468-480 | takes the first free handle, or changes nothing |
| `Streams.ForeignKeeps` | fs/operations.c:79-328 | a call that does not use or close the handle, does not write into its file, unlink it or truncate its contents, leaves handle, contents and name alone; unlinking any other file, open or not, is such a call |
| `Streams.AppendStream` | fs/operations.c:204-236 | through any run of such calls and of successful writes through a handle at the end of its file: the file ends as (old contents ++ all buffers) cut at the block size |
| `Streams.ReadStream` | fs/operations.c:263-277 | reads of any lengths through one handle, while others append to the file and do anything to other files: the earlier contents are a prefix of the final file, and what was received is the part of the final file that the handle passed, no more than asked for and no fewer than that or all that was there |
| `Streams.QuietRead` | fs/operations.c:263-277 | with the file unchanged in the end, exactly the next bytes: as many as asked for, or all there are |
| `Replay.RemoveFirstString` | protocol/protocol.c:84-94 | takes one string, at most `max` bytes, and reports its length plus one |
| `Replay.ReplayLoop` | mbroker/mbroker.c:255-262 | sends what `Replay.Split` says, up to where its scan would leave the buffer |
| `Replay.SplitStored` | mbroker/mbroker.c:255-262 | from stored messages the loop sends those before the first empty one, and looks at the rest of the buffer only if there is none |
| `Replay.SplitMeaning` | mbroker/mbroker.c:255-262 | from any buffer: one message after the other, each up to a NUL or 1023 bytes, skipping one byte after each; done past the buffer or on a NUL, overrunning exactly when no NUL and fewer than 1023 bytes are left |
| `Replay.ReplayIdentity` | mbroker/mbroker.c:247-262 | the loop gives back exactly the stored messages if and only if none is empty and a NUL follows them inside the buffer |
| `Publishing.PublishSoleWriter` | mbroker/mbroker.c:195-208 | the publisher's writes all succeed if and only if there is nothing to write, the file is not empty, or a block is free |
| `Publishing.PublishThenReplay` | mbroker/mbroker.c:195-262 | messages published into an empty box, with any calls of other sessions in between that leave this box alone, removals of other boxes included, read by a new subscriber into a buffer with any earlier contents, are replayed exactly if and only if none is empty and the buffer has a NUL after them |
| `Publishing.PublishAloneThenReplay` | mbroker/mbroker.c:195-262 | the same for the publisher's writes alone, given that a block is free |
| `Publishing.LinesDelivered` | publisher/pub.c:87-99 | from the publisher's lines, over its pipe, through the box and the replay, over the subscriber's pipe: the lines come out exactly if and only if none is empty and the broker's buffer has a NUL after the bytes it read |
| `Publishing.LinesFromScratch` | mbroker/mbroker.c:195-262 | the same for a run from the start: in any new file system, create a box, publish any lines that fit, and subscribe; every call succeeds |
| `QueueSafety.NoLostWakeup` | producer-consumer/producer-consumer.c:45-82 | in every reachable state in which a consumer sleeps, the size is at most the number of woken consumers, plus one if the mutex owner is accountable for an element; dually for producers and free places; with the mutex free the plus one is gone and every woken thread can go on |
| `QueueSafety.Fifo` | producer-consumer/producer-consumer.c:51-76 | in every reachable state what came out, followed by the ring from head to tail, is what went in, in lock order; tail = (head + length) mod capacity; the size never exceeds the capacity |
| `QueueCalls.EnqueuedAreArguments` | producer-consumer/producer-consumer.c:45-62 | on every run, through waits, wakeups and barging: what went in are the arguments of the enqueue calls, each once, in lock order: what a thread's moves put in, and the argument of a call it is still in, are its calls' arguments in order |
| `QueueCalls.ReturnedAreTaken` | producer-consumer/producer-consumer.c:64-82 | on every run what came out is what the dequeue calls return, each element to one caller, one for each finished call, and is a prefix of what went in |
| `QueueSafety.DequeueReturnsItsElement` | producer-consumer/producer-consumer.c:71-81 | a dequeue returns the element it took out, which is the last one taken out so far |
| `QueueSafety.LockOrder` | producer-consumer/producer-consumer.c:46-80 | one thread at a time inside the outer mutex; the inner mutexes are only held by its owner and free whenever asked for |
| `QueueSafety.NoDeadlock` | producer-consumer/producer-consumer.c:45-82 | with capacity > 0, if no thread can go on, all calls are dequeues asleep on an empty queue or all are enqueues asleep on a full one |
| `QueueSafety.BothKindsStuckIffNoCapacity` | producer-consumer/producer-consumer.c:45-82 | producers and consumers can be stuck together if and only if the capacity is 0 |
| `QueueSafety.ReachableInv` | producer-consumer/producer-consumer.c:7-82 | the invariant holds in every reachable state |
| `QueueInvariants.StepInv` | producer-consumer/producer-consumer.c:45-82 | every statement, signal, spurious wakeup and barging call keeps the invariant |
| `QueueInvariants.StepWakeups` | producer-consumer/producer-consumer.c:48-80 | every action keeps the wakeup counts |
| `QueueInvariants.StepRing` | producer-consumer/producer-consumer.c:51-76 | every action keeps the ring and the conservation of elements, in the middle of updates too |
| `QueueInvariants.StepLocks` | producer-consumer/producer-consumer.c:46-80 | every action keeps each of the three locks with the thread between its lock and unlock statements |
| `Ring.CriticalSections` | producer-consumer/producer-consumer.c:51-76 | the statements of an enqueue append one element, those of a dequeue take the first |
| `Ring.PcQueue.constructor` | producer-consumer/producer-consumer.c:7-28 | a new queue is empty |
| `Ring.PcQueue.Enqueue` | producer-consumer/producer-consumer.c:45-62 | appends exactly when the queue is not full, else would wait |
| `Ring.PcQueue.Dequeue` | producer-consumer/producer-consumer.c:64-82 | takes the first element exactly when there is one, else would wait |
| `BoxList.MergeSort` | protocol/protocol.c:129-169 | from any chain that ends: exactly the same nodes relinked into a chain that ends, in the byte order of their names, equal names in exactly reverse order |
| `BoxList.Halve` | protocol/protocol.c:135-143 | the slow/fast split gives two separate chains, both non-empty and shorter |
| `BoxList.MergeChains` | protocol/protocol.c:149-168 | the nodes of both chains, relinked into one that ends, in merge order; the dummy's link is set |
| `Bytes.StrLessMeaning` | protocol/protocol.c:153-153 | one string is before another if and only if, at the first place where they differ, it ends or has the smaller byte |
| `StableSort.SortedMeaning` | protocol/protocol.c:149-168 | sorted is: each name not after the later ones, byte by byte |
| `BoxList.FindBox` | protocol/protocol.c:21-29 | the first node of that name; none exactly when no node has it |
| `BoxList.FirstBox` | protocol/protocol.c:31-47 | the place that searching and deleting stop at: that of the first node with the name |
| `BoxList.BoxList.InsertAtBeginning` | protocol/protocol.c:6-19 | a new node in front, at any address that no node has, the others as before; `tail` changes only if it was null |
| `BoxList.BoxList.DeleteBox` | protocol/protocol.c:31-53 | exactly the first node of that name leaves the chain; `tail` moves back if and only if it was on that node and the node was not the head |
| `ListRuns.NamesRun` | protocol/protocol.c:6-53 | the names in the list after any run, whatever addresses nodes get |
| `ListRuns.TailGuaranteed` | protocol/protocol.c:16-51 | after a run from the empty list `tail` is the last node, whatever addresses insertions get, if and only if no deletion removed the only box |
| `ListRuns.ReusedAddressMisleads` | protocol/protocol.c:35-39 | remove the only box and create two: with the freed memory used again, `tail` is on the first of two nodes |
| `ListRuns.ListedUntilRemoved` | mbroker/mbroker.c:309-335 | when no box is created while there is one of its name, the boxes listed after a run are those created and not removed since, with the counters of their creation |
| `ListRuns.TwiceCreatedStays` | mbroker/mbroker.c:309-335 | a box created twice and removed once is listed |
| `ListRuns.PerformAll` | protocol/protocol.c:6-53 | the list object after any run has the nodes and `tail` of the run on names and addresses, and each node the counters that its insertion passed |
| `ListRuns.ListAfter` | mbroker/mbroker.c:299-388 | the listing after any run: one record for each insertion left, which decodes to code 8, the mark, its name without the '/', and the three counters it passed; marked last when `tail` is on its box; exactly the final one is, if no deletion removed the only box |
| `StableSort.MergeAntiStable` | protocol/protocol.c:149-168 | merging two anti-stably sorted halves, right side first on ties, sorts the whole anti-stably |
| `StableSort.MergeNamed` | protocol/protocol.c:152-161 | the elements of one name: those of the right side, then those of the left |
| `StableSort.StableSorts` | manager/manager.c:108-109 | the reference, insertion sort, sorts and keeps the order of equal names |
| `StableSort.AntiStableIsStableOfReverse` | protocol/protocol.c:129-169 | a sequence is the anti-stable sort of another if and only if it is the stable sort of its reverse |
| `StableSort.ReversalsCancel` | manager/manager.c:97-109 | head insertion followed by the anti-stable sort is the stable sort of the arrival order |
| `Codec.StoreString` | protocol/protocol.c:64-71 | the string's first `space` bytes, NULs up to the end of the field, and not a byte outside it |
| `Codec.RemoveString` | protocol/protocol.c:73-82 | the destination gets the field's string and its terminator, and no other byte changes |
| `Codec.FieldMeaning` | protocol/protocol.c:64-82 | a field gives back the string cut to the field; its terminator is inside if and only if the string is strictly shorter |
| `Codec.RequestLayout` | protocol/protocol.c:96-105 | where every byte of a request is: code, 256 bytes of path, 32 of name, NULs after each string |
| `Codec.ResponseLayout` | protocol/protocol.c:113-122 | the same for a response: code, four bytes of return code, 1024 of message |
| `Codec.MessageLayout` | publisher/pub.c:84-97 | the same for a message: code and 1024 bytes of text |
| `Codec.ListingLayout` | mbroker/mbroker.c:356-376 | the same for a listing record: code, mark, 32 bytes of name, three counters of eight |
| `Bytes.IntBytes` | protocol/protocol.c:118-118 | an `int` in memory: least significant byte first, two's complement |
| `Codec.SendRequest` | protocol/protocol.c:96-105 | the buffer is the encoded request |
| `Codec.ReceiveRequest` | mbroker/mbroker.c:164-171 | the broker reads the decoded request; a path without terminator is followed by the box name |
| `Codec.RequestRoundTrip` | protocol/protocol.c:96-105 | a request comes back with each string cut to its field; unchanged if and only if none is longer than its field; and when exactly the broker sees it as it was sent |
| `Codec.NodeNameFits` | protocol/protocol.c:10-10 | '/' and a requested name fit a list node if and only if the name has at most 30 characters |
| `Codec.SendBoxResponse` | protocol/protocol.c:113-122 | the fields are written without gaps; the struct's three padding bytes stay unset at the end |
| `Codec.ReceiveResponse` | manager/manager.c:182-197 | after a creation or a removal return code 0 is told as success, -1 as failure with the message, any other as unknown; other codes are not told |
| `Codec.Respond` | manager/manager.c:182-197 | broker to manager, over the buffer with its unset bytes: the verdict is that of the code and return code sent, with the message sent |
| `Codec.ResponseRoundTrip` | protocol/protocol.c:113-122 | a response comes back with its message cut to the field, whatever the unset bytes are |
| `Codec.FillMessage` | publisher/pub.c:97-97 | the buffer is the encoded message, its code as set before |
| `Codec.ReceiveMessage` | mbroker/mbroker.c:192-195 | the broker, and the subscriber, read the decoded message |
| `Codec.MessageRoundTrip` | mbroker/mbroker.c:192-195 | a message comes back with its text cut to the field; the terminator is inside if and only if the text is strictly shorter |
| `Codec.ListingRoundTrip` | mbroker/mbroker.c:356-376 | a listing record comes back with the name cut to its field and all counters unchanged |
| `Listing.SendListing` | mbroker/mbroker.c:352-385 | one record for each box, from the head on, the name without its '/', marked last exactly when `tail` is on the box |
| `Listing.ArrivedMeaning` | manager/manager.c:85-103 | the lines that arrived: one for each record with code 8, in order, and for no other |
| `Listing.CollectRecords` | manager/manager.c:80-103 | the list holds the code-8 records in reverse order of arrival |
| `Listing.PrintListing` | manager/manager.c:78-116 | the printed lines are the stable sort by name of the code-8 records in arrival order: none lost, none repeated, in the byte order of the names |
| `Listing.ListBoxes` | mbroker/mbroker.c:352-385 | broker to manager: every box is printed once, with its three counters, in the byte order of the names, boxes of one name in the order of the broker's list |

## Left out

- FileSystem.FileSystem.TfsRead: requires the bytes it copies to lie in the file's block; further out the copy can leave the data area, where the program has no meaning. Every read that starts inside its file meets this (`Safety.InsideReadsOk`).
- FileSystem.FileSystem.TfsWrite: does not model the wrap-around of `to_write + of_offset`, because no object in memory is long enough to cause it; `Safety.WriteStaysInside` says exactly when it would.
- FileSystem.FileSystem.constructor: takes memory to be available, `max_block_count * block_size` included, and the file system not to be initialised yet; parameters give room for the root directory, and table sizes and the number of directory entries fit an `int`.
- Replay.ReplayLoop: stops where the program's next scan would leave the buffer, since what happens there is not defined.
- Ring.PcQueue.Enqueue: returns where the program would sleep; sleeping is modelled in `QueueProtocol`. The same holds for Dequeue.
- BoxList.BoxList.InsertAtBeginning: takes names shorter than the 32-byte field that `strcpy` fills; `Codec.NodeNameFits` says which requests lead to one.
- Codec.ReceiveRequest: requires the box name to hold its terminator, since the broker would write it past the end of its struct.
- Codec.Respond: takes failure messages shorter than their 1024-byte field, since the manager writes the terminator past it otherwise; `Codec.ResponseRoundTrip` says what longer ones become.
- Listing.CollectRecords: gives the manager's nodes addresses of its own choice, since the manager never compares them.
- Listing.PrintListing: receives whole records; a pipe that delivers part of a record is not modelled. The message for an empty listing is the empty list of lines.
- Publishing.PublishThenReplay: takes runs whose reads stay inside their block, and boxes whose stored messages fit a block and the 1024-byte buffer, with one publisher handle; it covers every successful subscriber handle, while the broker turns away a subscriber that gets handle 0.
- Progress under fair scheduling of the queue's threads: only safety and deadlock freedom are stated. Mutexes and condition variables behave as specified by POSIX, memory as sequentially consistent under them.
- Errors of `malloc` and of locking and unlocking a mutex. `g_library_mutex` makes each `tfs_*` call atomic.
- `tfs_destroy`, `state_destroy`, `pcq_destroy`; `tfs_sym_link`, `tfs_link` and `tfs_copy_from_external_fs`, which are declared but have no code.
- Pipes, system calls, signals, argument parsing, printing, logging and artificial delays; of the publisher and subscriber programs, all but their requests and messages.
- The broker's concurrent sessions after replay: the check for a single publisher is made without a lock, two early exits keep a box's mutex, a woken subscriber forwards only the first pending message, and all queued requests share one buffer. The names in the box list need not be those in the directory, because creating an existing box adds another node.
- Counters of boxes are unbounded numbers; the encoder's 64-bit range is a precondition of the listing.
- Byte order: integers are little-endian in memory, and `int` has four bytes.
