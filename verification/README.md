# TecnicoFS and its publish/subscribe broker: a verified model

TecnicoFS is a file system in memory: a byte area cut into blocks, a bitmap of taken blocks, a table of
inodes, one directory of name slots, and a table of open files with cursors. Files have at most one block;
a symbolic link stores a path in its block. On top of it a broker keeps *boxes*. A box is a file to which
one publisher at a time appends NUL-terminated messages and from which any number of subscribers read.
Manager programs create, remove and list boxes. Requests and answers travel as fixed 1029-byte lines, and
accepted requests wait for worker threads in a bounded task queue.

`dafny verify dfyconfig.toml` checks everything.

## How the model is built

| module | models |
|---|---|
| `CTypes` | bytes, C strings, `size_t` subtraction, `memchr`, `memcpy` |
| `FsState`, `FsOperations` | the tables of `fs/state.c` as one snapshot `State`; every operation of `fs/operations.c` as a function from snapshot to outcome |
| `FileSystems` | the imperative program: a class over arrays whose methods loop and assign as the source does, each proved equal to its function |
| `FsInvariant`, `FsRuns` | what the tables keep true, one table change at a time, then over whole runs |
| `FsDirectory`, `FsLinks`, `FsReads` | the directory as a map; chains of symbolic links; what one read hands over |
| `FsChains` | when every `tfs_open` returns: the calls that close a circle of links |
| `FsTails` | the bytes between the end of a file and the end of its block |
| `FsAnswers` | what `tfs_init` sets up and when `tfs_open` succeeds, in terms of the parameters and the room left |
| `FsAbstract`, `FsRefinement` | the file system without tables, and the proof that the tables simulate it |
| `MessageStream` | delivery of messages from publishers to subscribers |
| `ExternalCopy` | copying a file in |
| `TaskQueues`, `QueueThreads` | the task queue as a class, and as a step system of unboundedly many threads |
| `LockOrder` | the read-write locks of the file system and freedom from deadlock |
| `BoxTable`, `Brokers`, `ListExchange` | the box table, its handlers, the list exchange |
| `PubSessions`, `SubSessions` | publisher sessions; the loop that sends a subscriber its messages |
| `BrokerRuns` | whole runs of the broker: managers, publishers and subscribers on one file system |
| `WireCodec` | the lines on the pipes |

A call's outcome is `Done`, `Crash` (an `ALWAYS_ASSERT` fires, or memory outside `fs_data` or the caller's
buffer is touched) or `Diverges` (`get_path_recursive` runs in circles). That no run under the stated
conditions ends in `Crash` is part of what is proved.

The two levels of invariants are:

* `NamesInv`: no directory slot names a free inode, free slots are blank, and every live inode but the root
  has `i_count` at least the number of its names. Every call keeps it, failed calls included.
* `Inv`: in addition blocks have exactly one owner, open handles lead to live files, and links store paths
  that fit. Every call keeps it except an unlink that takes the last name of an open file, which never does.

`Good` adds unique names, exact counts, and cursors inside their files. While `Inv` holds and names are unique,
every call that returns does what the abstract file system may do, exactly unless it `Departs` from it: a read
that takes a stray byte, a read or write behind the end of its file, an unlink that leaks a file. A call from a
`Good` state leads to a `Good` state again if and only if it is `Clean`, a condition on the state before the
call: a link's name is unbound and finds room, a truncating open strands no other handle's cursor, a read takes
no stray byte, an unlink does not take the last name of an open file.

## Where the code does not do what one would expect

The code is modelled as it stands, and each deviation has its exact condition.

* `tfs_read` fixes its length before it skips a leading NUL (fs/operations.c:302-316) and can hand over one
  byte from behind the file. It does so exactly under `OverReads`; `FsReads.StrayByte` shows a case. A subscriber
  that drains a box of whole messages comes to that point: `SubSessions.SendsOnlyMessagesIff` says that the
  sending loop hands over only messages of the box if and only if the byte behind the box is NUL, or an empty
  message stops the loop earlier. Over zero-filled memory that byte stays NUL as long as no block is freed and
  the box is shorter than its block: `FsTails.TidyAlways`, and with it `MessageStream.DeliveryOverBlankMemory`.
* `tfs_read` stops at the next NUL, not only at `len` or the end of the file: `FsReads.StopsAtNulIff` says when
  it delivers all it asks for.
* `i_size - of_offset` wraps when another open has truncated the file. `FsRefinement.StrandsIff` gives the
  condition under which a truncating open leaves a cursor behind the end, and `FsReads.ReadLengthIff` says that
  the length of a read stays within the file exactly when its cursor is inside. What such a read hands over is
  in `FsReads.StrandedRead`: the freed block's old bytes, by `FsRefinement.ReadsFreedBlock`.
* `tfs_link` and `tfs_sym_link` return 0 even when `add_dir_entry` added nothing, and do not ask whether the
  name is already bound. `FsDirectory.LinkTakesEffectIff` and `FsDirectory.SymLinkTakesEffectIff` say when the
  link takes effect, and `FsRuns.ExactCountsIff` when the link count stays exact; `NamesInv` holds in any case.
* `clear_dir_entry` compares names of free slots too. `FsDirectory.ClearHitsFoundIff` gives the condition and
  `FsDirectory.StaleNameKeepsBinding` an input that fails.
* Cycles of links can be made, and then `tfs_open` never returns: `FsLinks.CycleReachable`. The exact condition,
  for every call and over every run with unlinks in it, is in `FsChains.ChainsEndIff` and
  `FsChains.OpensAlwaysReturnIff`: every `tfs_open` returns at every moment if and only if no call closes a
  circle. A `tfs_sym_link` does when it binds its name and the target's chain passes by that name; a
  `tfs_unlink` does when it uncovers a second slot of its name and the link in it leads back to the name.
* Without a free open-file entry `process_manager_create` leaves a file without a box:
  `BoxTable.CreateAgreesIff`. Removing a box whose file is open frees the inode under its readers and writers:
  `BoxTable.RemoveAgrees`.
* A publisher that gives up without its file leaves `n_pub` at 1 and its box shut: `PubSessions.AbandonedBoxIsShut`.
  By `PubSessions.NoneShutAlwaysIff` no box is ever shut if and only if none gives up, and by
  `BoxTable.PublisherGivesUpIff` opening a box's file to publish fails if and only if no handle is free. One that
  names no box is admitted to a free slot and shuts that: `PubSessions.AdmittedToNoBoxIff`.
  A box removed under its publisher and created again takes a second one: `PubSessions.RemovedBoxTakesTwo`.
* Two threads can deadlock in `tfs_sym_link`: `LockOrder.SymLinksDeadlock`. They cannot, and no other calls can,
  while the inode a link is made of is one whose lock nobody else holds or is about to take:
  `LockOrder.AllCallsDeadlockFree`.
* `tfs_open` truncates a file it reaches through a link under that file's lock in read mode, and `tfs_read` moves
  the cursor under the handle's lock in read mode. `LockOrder.ChangesAreGuardedIff` says that these are the only
  such changes; `LockOrder.LinkTruncationsMeet` and `LockOrder.CursorMovesMeet` show two threads at each at once.
* `tfs_copy_from_external_fs` leaves its handle open when the source does not fit.

## Assumptions

* `fs_data` is followed by one more cell, which stands for the byte of memory behind it; its contents and
  the initial contents of `fs_data` are arbitrary. `fs_data` is smaller than the `size_t` range.
* The root directory's block is kept as an array of (name, inumber) slots, all free and blank at first. The
  fields `pcq_create` leaves unset start at 0, and new box slots start blank, those after `realloc` as well.
* The number of inodes, blocks and open files and the block size are arbitrary parameters. Nothing is
  assumed about the block size but that it is positive: that a link's path fits in a block is derived from
  the target having a directory entry.
* Calls on the file system run one at a time, except in `LockOrder`, where only the locks are modelled. The
  queue's threads interleave freely; condition waits may wake without cause.
* A method of `FileSystem` requires that the call it models neither aborts nor diverges. The lemmas on the
  functions say when that is so.

## Model

| member | source | states |
|---|---|---|
| FsInvariant.WriteBlockInv | fs/operations.c:254-281 | storing a write's bytes in a block, new or old, keeps all tables in agreement: no other inode's block is touched and no block gets two owners |
| FsInvariant.StoreLinkInv | fs/operations.c:154-189 | making a link inode and copying its target's path into its block keeps all tables in agreement |
| FsInvariant.DeleteInv | fs/state.c:305-320 | freeing an inode that no name and no handle leads to frees its block with it and keeps all tables in agreement |
| FsInvariant.StoreElsewhere | fs/state.c:530-541 | bytes stored at `block * BLOCK_SIZE` and within a block's length are invisible in every other block |
| FsRuns.InitInv | fs/operations.c:22-41 | `tfs_init` succeeds exactly when there are an inode and a block for the root, and then all tables agree |
| FsRuns.StepNames | fs/operations.c:77-359 | every call that returns keeps `NamesInv`, whatever it returns |
| FsRuns.NamesInvAlways | fs/operations.c:198-222 | in every run of calls from `tfs_init` on, failed ones included, link counts cover the names and no slot names a free inode |
| FsRuns.StepInv | fs/operations.c:77-359 | every call keeps all tables in agreement unless it unlinks the last name of an open file |
| FsRuns.UnlinkKeepsInvIff | fs/operations.c:335-359 | `tfs_unlink` keeps all tables in agreement if and only if it does not free an inode some handle has open |
| FsRuns.InvAlways | fs/operations.c:77-359 | so in every run without such an unlink all tables agree at every moment |
| FsRuns.BlockConservation | fs/state.c:487-520 | the free blocks and the nonempty live inodes together number DATA_BLOCKS |
| FsRuns.ExactCountsIff | fs/operations.c:154-222 | a call keeps every `i_count` equal to the number of names if and only if the entry it adds, if any, finds room |
| FsRuns.ExactCountsAlways | fs/operations.c:198-222 | in runs where every entry finds room the counts are exact throughout |
| FsRuns.UnlinkFreesLastName | fs/operations.c:351-356 | `tfs_unlink` takes one name away; a freed inode has no name left, and with exact counts it is freed precisely when its last name goes |
| FsDirectory.AddBinds | fs/state.c:401-432 | an added entry changes no other lookup; it is the one found under its name unless an earlier slot has the name |
| FsDirectory.AddExtends | fs/state.c:401-432 | adding an unbound name extends the map by that binding and changes nothing else |
| FsDirectory.CanAddIff | fs/state.c:401-432 | `add_dir_entry` refuses a name exactly when its length is out of range or every slot is used |
| FsDirectory.AddUniqueIff | fs/state.c:401-432 | adding keeps names unique if and only if the name, if it is added, was unbound |
| FsDirectory.ClearHitsFoundIff | fs/state.c:360-384 | `clear_dir_entry` hits the slot `find_in_dir` found if and only if no earlier slot, free or not, carries the name |
| FsDirectory.StaleNameKeepsBinding | fs/state.c:374-381 | with a stale name in a free slot, clearing leaves the live entry bound |
| FsDirectory.ClearRemoves | fs/state.c:360-384 | with blank free slots and unique names, clearing removes exactly that binding from the map |
| FsDirectory.LinkTakesEffectIff | fs/operations.c:198-222 | after `tfs_link` returned 0 the new path leads to the target if and only if it did before, or the entry was added and is not shadowed |
| FsDirectory.SymLinkTakesEffectIff | fs/operations.c:154-189 | after `tfs_sym_link` returned 0 the new path leads to the new link if and only if the entry was added and is not shadowed |
| FsLinks.NeverEnds | fs/state.c:626-638 | a chain of links that has not ended after as many hops as there are inodes has revisited one and never ends |
| FsLinks.ResolveUnfolds | fs/state.c:626-638 | `Resolve` satisfies the recursion of `get_path_recursive` itself, without a bound |
| FsLinks.BoundedResolver | fs/state.c:626-638 | a resolver with a bound agrees with `get_path_recursive` exactly when it ends within the bound or neither ends; INODE_TABLE_SIZE is bound enough |
| FsLinks.OpenThroughLink | fs/operations.c:88-104 | opening a link is opening the path it stores, and fails while that path is unbound |
| FsLinks.TextAlways | fs/operations.c:154-189 | over any run a live link keeps the path it was made with, byte for byte |
| FsLinks.LateBinding | fs/operations.c:88-104 | a link made earlier opens, at any later time and in any mode, exactly what its stored path opens then if that is bound, and nothing while it is not, even with TFS_O_CREAT |
| FsLinks.BindingStable | fs/state.c:401-432 | in a run without unlink a name keeps the inode it was first bound to |
| FsLinks.AcyclicAlways | fs/state.c:626-638 | in every run without unlink each link leads to an older inode, so every chain ends and every `tfs_open` returns |
| FsChains.ChainsEndIff | fs/state.c:626-638 | where all chains of links end, any call that returns leaves it so if and only if it closes no circle |
| FsChains.SymLinkEndsIff | fs/operations.c:154-189 | linking an unbound name, with room for it, leaves all chains ending if and only if the target's chain does not stop at that name |
| FsChains.CleanClosesIff | fs/operations.c:154-359 | no clean call but such a `tfs_sym_link` closes a circle |
| FsChains.AllEndIff | fs/state.c:626-638 | all chains of names end if and only if `get_path_recursive` ends from every inode in use |
| FsChains.OpensReturnIff | fs/operations.c:77-145 | every `tfs_open` returns if and only if all chains end |
| FsChains.ChainsAlwaysEndIff | fs/state.c:626-638 | over every run, unlinks included, all chains end at every moment if and only if no call closes a circle |
| FsChains.OpensAlwaysReturnIff | fs/operations.c:77-145 | and so does every `tfs_open` return |
| FsLinks.SymLinkBinds | fs/operations.c:154-189 | linking an unbound name, with room for it, binds that name to the new link and disturbs no other |
| FsLinks.UnlinkUnbinds | fs/operations.c:335-359 | unlinking a bound path unbinds it and disturbs no other |
| FsLinks.CycleReachable | fs/operations.c:154-189 | link b to a, unlink a, link a to b: all three return 0, given room, and `tfs_open` of a never returns afterwards |
| FsReads.ReadChunkTakes | fs/operations.c:302-324 | on the block's bytes a read takes exactly what it is meant to, or, when it runs over, the rest of the file and the byte behind it |
| FsReads.ReadTakes | fs/operations.c:288-329 | the same for `tfs_read` through a handle: bytes, count, new cursor, and nothing else changed |
| FsReads.ReadIff | fs/operations.c:302-316 | a read delivers what it is meant to, and leaves the cursor inside the file, if and only if it does not run over |
| FsReads.StrayByte | fs/operations.c:310-316 | with only a NUL left in the file a reader receives the byte behind it |
| FsReads.StopsAtNulIff | fs/operations.c:313-316 | a read delivers all it asks for if and only if there is no NUL in it |
| FsReads.ReadLengthIff | fs/operations.c:302-305 | the length fixed stays within the file, or is 0, if and only if the cursor is inside; otherwise it is all of `len` |
| FsReads.StrandedRead | fs/operations.c:302-324 | a read from behind the end takes what lies in the memory from the cursor on |
| FsRefinement.ReadsFreedBlock | fs/operations.c:106-111 | after a truncation by another open that is what the freed block still holds |
| FsRefinement.OpenRefines | fs/operations.c:77-145 | `tfs_open` does what the abstract open does: follows aliases, creates, truncates, appends, and fails only at a limit |
| FsRefinement.SymLinkRefines | fs/operations.c:154-189 | `tfs_sym_link` adds one alias storing the target and changes no other file; its name is bound if it is new and there is room, is bound or keeps its binding if it is not new, and is lost without room |
| FsRefinement.LinkRefines | fs/operations.c:198-222 | `tfs_link` changes no file; the same holds of its name |
| FsRefinement.CloseRefines | fs/operations.c:224-234 | `tfs_close` drops exactly that handle |
| FsRefinement.WriteRefinesIff | fs/operations.c:236-286 | `tfs_write` overwrites the file's bytes at the cursor up to the block's end, moves the cursor, and leaves every other file's bytes alone, if and only if the cursor is inside its file |
| FsRefinement.ReadRefinesIff | fs/operations.c:288-329 | `tfs_read` delivers the next piece and moves only that cursor, if and only if the cursor is inside its file and the read does not run over |
| FsRefinement.UnlinkRefinesIff | fs/operations.c:335-359 | `tfs_unlink` removes the name, and the file with its last name, open or not, if and only if the count does not exceed the names then |
| FsRefinement.DivergesRefines | fs/state.c:626-638 | `tfs_open` does not return only where the abstract path leads nowhere |
| FsRefinement.StrandsIff | fs/operations.c:106-111 | an open leaves all cursors inside their files if and only if it does not truncate a file in which some handle has moved |
| FsRefinement.CleanIff | fs/operations.c:77-359 | a call that returns keeps agreement, unique names, exact counts and cursors inside if and only if it is clean |
| FsRefinement.Simulates | fs/operations.c:77-359 | while tables agree and names are unique every call that returns is a step of the abstract file system with the same result, if and only if it does not depart in one of the three ways; only such a call or an empty link name aborts |
| FsRefinement.SimulatesAlways | fs/operations.c:77-359 | over every run of clean calls from `tfs_init` on |
| FsTails.StepTails | fs/operations.c:77-359 | calls that free no block keep free blocks, and the rest of every file's block, all NUL |
| FsTails.NulBehind | fs/operations.c:302-316 | behind a file shorter than its block there is then a NUL |
| FsTails.FreesBlockIff | fs/state.c:507-520 | the calls said to free a block are exactly those after which some taken block is free |
| FsTails.TidyAlways | fs/operations.c:77-359 | over zero-filled memory, in every run that frees no block and reads only files shorter than their block, no read takes a stray byte |
| FsRefinement.HandlesFullIff | fs/state.c:552-566 | the abstract limit on handles is reached exactly when the open-file table is full |
| FsRefinement.FilesFullIff | fs/state.c:198-220 | the limit on files is reached exactly when the inode table is full |
| FsRefinement.NamesFullIff | fs/state.c:420-429 | the limit on names is reached exactly when the directory is full |
| FsRefinement.BlocksFullIff | fs/state.c:487-504 | the limit on blocks in use is reached exactly when the bitmap is full |
| FsAnswers.InitIs | fs/state.c:104-148 | after `tfs_init` inodes, blocks, directory slots and open-file entries number what the parameters say, and only the root's inode and block are taken |
| FsAnswers.LimitsAlways | fs/operations.c:22-41 | in every run these limits stay what the parameters made them |
| FsAnswers.OpenSucceedsIff | fs/operations.c:77-145 | a returning `tfs_open` succeeds if and only if an open-file entry is free and its name leads to a file, or may be created, is 1 to 39 bytes long and finds an inode and a slot |
| FsAnswers.HandlesRunOutIff | fs/state.c:552-566 | in every run from `tfs_init` on opening an existing file fails if and only if as many handles are open as the parameters allow |
| MessageStream.ChunksAppend | fs/operations.c:313-316 | splitting at NULs distributes over appending to bytes that end with a message |
| MessageStream.DeliveredPiece | fs/operations.c:310-324 | one read with room for every message takes exactly the next one, and the cursor advances unless at the end |
| MessageStream.Drains | mbroker/mbroker.c:80-115 | reading on until the end hands over every message from the cursor on |
| MessageStream.SessionAtEnd | mbroker/mbroker.c:133-201 | a publisher's cursor stays at the end of the box for its whole session |
| MessageStream.BoxHoldsPublished | fs/operations.c:236-286 | the box's bytes split into exactly the messages published so far, over any number of publisher sessions |
| MessageStream.StreamInvariant | mbroker/mbroker.c:80-115 | at every moment what a subscriber has received, followed by what is ahead of its cursor, is what was published |
| MessageStream.SubscriberGetsPrefix | mbroker/mbroker.c:80-115 | received is a prefix of published, and all of it once the box is drained |
| MessageStream.RunIsTrace | fs/operations.c:77-359 | every run of clean calls on the tables is a trace of the abstract file system |
| MessageStream.DeliveryOnTables | mbroker/mbroker.c:183-184 | hence delivery in order and without gaps holds of the tables themselves |
| MessageStream.DeliveryOverBlankMemory | mbroker/mbroker.c:183-184 | over zero-filled memory with nothing assumed of the bytes behind files, in runs that free no block and read only files shorter than their block |
| BrokerRuns.ActsOk | mbroker/mbroker.c:51-396 | every step of the broker, around any call of the file system, keeps boxes, files, publishers and handles in order |
| BrokerRuns.HasSession | mbroker/mbroker.c:133-201 | a publisher at work has opened its box to append, has not closed it, and nobody else has written to the box since |
| BrokerRuns.PublishersTakeTurns | mbroker/mbroker.c:139-152 | from the test and setting of `n_pub` it follows that the publishers of a box take turns |
| BrokerRuns.PublisherKnowsPassword | mbroker/mbroker.c:133-163 | whoever publishes to a box gave, on connecting, the name and password it was created with |
| BrokerRuns.SubscriberKnowsPassword | mbroker/mbroker.c:51-75 | whoever opens a box to read gave the password it was created with |
| BrokerRuns.ActsAreEvents | mbroker/mbroker.c:133-201 | each step of a broker's run does to boxes and publishers what `PubSessions.Next` says, or nothing |
| BrokerRuns.BrokerDelivers | mbroker/mbroker.c:51-201 | in every run of the broker a subscriber's messages are a prefix of those published to its box, and all of them once it has drained it |
| BrokerRuns.SomeRunDelivers | mbroker/mbroker.c:51-396 | there is a run that creates a box, connects a publisher, publishes a message and hands it to a subscriber |
| BrokerRuns.BrokerDeliversOnTables | mbroker/mbroker.c:51-201 | the same on the tables, over runs of clean calls |
| FileSystems.FileSystem.constructor | fs/state.c:104-148 | the arrays `state_init` sets up have the lengths the parameters give and are the blank snapshot |
| FileSystems.FileSystem.TfsInit | fs/operations.c:22-41 | sets up the root directory, or returns -1; what that leaves is in `FsAnswers.InitIs` |
| FileSystems.FileSystem.FindInDir | fs/state.c:447-476 | the scan returns the first live slot's inode, or -1 |
| FileSystems.FileSystem.ClearDirEntry | fs/state.c:360-384 | the scan clears the first slot with the name and no other |
| FileSystems.FileSystem.AddDirEntry | fs/state.c:401-432 | the scan fills the first free slot, or returns -1 and changes nothing |
| FileSystems.FileSystem.CreateFile | fs/state.c:236-298 | takes the first free inode for an empty file |
| FileSystems.FileSystem.CreateLink | fs/state.c:236-298 | takes an inode and a block for a link, and gives the inode back without a block |
| FileSystems.FileSystem.InodeDelete | fs/state.c:305-320 | frees the inode and, if it has one, its block |
| FileSystems.FileSystem.AddHandle | fs/state.c:552-566 | takes the first free entry of the open-file table |
| FileSystems.FileSystem.GetPathRecursive | fs/state.c:626-638 | the recursion on the arrays returns what the chain of links leads to |
| FileSystems.FileSystem.TfsOpen | fs/operations.c:77-145 | the whole new state and the handle, as the function on snapshots has them |
| FileSystems.FileSystem.TfsSymLink | fs/operations.c:154-189 | likewise |
| FileSystems.FileSystem.TfsLink | fs/operations.c:198-222 | likewise |
| FileSystems.FileSystem.TfsClose | fs/operations.c:224-234 | likewise |
| FileSystems.FileSystem.TfsWrite | fs/operations.c:236-286 | likewise, with the bytes copied one by one into `fs_data` |
| FileSystems.FileSystem.TfsRead | fs/operations.c:288-329 | likewise, with the bytes copied out |
| FileSystems.FileSystem.TfsUnlink | fs/operations.c:335-359 | likewise |
| ExternalCopy.CopyStarts | fs/operations.c:375-378 | after the truncating open nothing has been copied, whether the file is new, old or behind links |
| ExternalCopy.CopyOpensIff | fs/operations.c:375-378 | the destination can be opened if and only if a handle is free and it exists or there is room to create it |
| ExternalCopy.CopyChunk | fs/operations.c:381-387 | a chunk is written in full if and only if there is room; the file then holds the source as far as copied |
| ExternalCopy.CopyEnds | fs/operations.c:389-391 | after the close the file holds the source and the handles are as before |
| ExternalCopy.TfsCopyFromExternalFs | fs/operations.c:368-393 | returns 0 if and only if the source fits in what the file can hold, and then the destination is the source and the handles are as before; otherwise it holds the part that fits |
| TaskQueues.ShiftedContents | producer-consumer/producer-consumer.c:47-52 | shifting up and storing in front appends to the queue the buffer stands for |
| TaskQueues.BackIsOldest | producer-consumer/producer-consumer.c:72-76 | the task at the tail is the oldest, and without it the rest of the queue remains |
| TaskQueues.TaskQueue.Enqueue | producer-consumer/producer-consumer.c:47-56 | the shift loop stays inside the buffer and the task is appended |
| TaskQueues.TaskQueue.Dequeue | producer-consumer/producer-consumer.c:72-76 | the oldest task is removed |
| QueueThreads.NextInv | producer-consumer/producer-consumer.c:39-82 | every step of every thread keeps locks, buffer, size and what the guards showed in agreement |
| QueueThreads.QueueSafety | producer-consumer/producer-consumer.c:39-82 | in every interleaving the size stays within bounds, room or a task seen without the size lock is still there when acted on, and tasks come out in the order they went in |
| QueueThreads.ActsAreEnabled | producer-consumer/producer-consumer.c:45-76 | a producer past its locks always finds room, a consumer always a task |
| QueueThreads.ProducerWaitsIff | producer-consumer/producer-consumer.c:41-44 | a producer waits if and only if the size it sees is the capacity |
| QueueThreads.ConsumerWaitsIff | producer-consumer/producer-consumer.c:66-69 | a consumer waits if and only if the size it sees is 0 |
| QueueThreads.FillsAndDrains | producer-consumer/producer-consumer.c:39-82 | for every capacity a producer alone can put in as many tasks as that, and a consumer can then take exactly these out |
| LockOrder.SomeoneCanStep | fs/operations.c:77-359 | going from a waiting thread to whoever blocks it climbs in rank and ends at one that can step |
| LockOrder.DeadlockFree | fs/operations.c:77-359 | threads that take locks in rank order never deadlock, however many |
| LockOrder.EveryCallIsOrdered | fs/operations.c:77-359 | every branch of open, link, close, write, read and unlink takes its locks in rank order and gives them back |
| LockOrder.CallsDeadlockFree | fs/operations.c:77-359 | so those calls never deadlock |
| LockOrder.ChangesAreGuardedIff | fs/operations.c:77-359 | a call changes inodes in use and open files only under their locks in write mode, unless it truncates a file through a link or moves the cursor of a read |
| LockOrder.WritersExclude | fs/operations.c:77-359 | in every run of calls, while a thread makes any other change to an inode or open file, no other thread holds its lock, not even to read |
| LockOrder.LinkTruncationsMeet | fs/operations.c:101-111 | two opens that truncate one file through links can both be at the truncation |
| LockOrder.CursorMovesMeet | fs/operations.c:288-329 | two reads through one handle can both be at the move of its cursor |
| LockOrder.SymLinkNotOrdered | fs/operations.c:163-172 | `tfs_sym_link` holds two inode locks and breaks the order |
| LockOrder.SymLinksDeadlock | fs/operations.c:163-172 | two threads in it, each given the other's old inode, wait for each other |
| LockOrder.OwnDeadlockFree | fs/operations.c:154-359 | threads that keep to the order but for a lock that nobody else holds or is about to take never deadlock |
| LockOrder.AllCallsDeadlockFree | fs/operations.c:154-359 | so no calls deadlock, `tfs_sym_link` included, while the inode it makes is such a one |
| WireCodec.Int32RoundTrip | utils/writer_stc.c:18-27 | a 32-bit field and its four bytes determine each other |
| WireCodec.UInt64RoundTrip | utils/writer_stc.c:36-53 | a 64-bit field and its eight bytes determine each other |
| WireCodec.EncodingFits | utils/writer_stc.c:7-66 | no encoder writes beyond MAX_LINE |
| WireCodec.DecodeByCode | utils/reader_stc.c:9-119 | for each first byte, which record a line holds and which bytes each field is |
| WireCodec.WritableIff | utils/writer_stc.c:68-94 | for each code, which kind of record it writes |
| WireCodec.EncodeByKind | utils/writer_stc.c:7-66 | for each kind of record, at which bytes of the line each field goes, zeros behind them |
| WireCodec.Int32Is | utils/reader_stc.c:21-30 | a 32-bit field is the two's complement number of its bytes, lowest first |
| WireCodec.UInt64Is | utils/reader_stc.c:32-51 | a 64-bit field is the number its bytes spell in base 256, lowest first |
| WireCodec.DecodeEncode | utils/reader_stc.c:82-119 | reading what was written gives the record back, for every record whose code selects its layout, the nested one included |
| WireCodec.EncodeDecodeIff | utils/reader_stc.c:82-119 | writing what was read restores the line if and only if the line is zero behind its layout |
| WireCodec.WriteFields | utils/writer_stc.c:7-16 | copying field after field at the running offset stores their concatenation |
| WireCodec.WriterStc | utils/writer_stc.c:68-94 | the dispatch fills the line with the encoding under the code passed |
| WireCodec.ReadFields | utils/reader_stc.c:9-19 | copying field after field from the running offset splits the line |
| WireCodec.ReaderStc | utils/reader_stc.c:82-119 | the dispatch on the first byte decodes the line |
| BoxTable.PutBox | mbroker/mbroker.c:342-366 | filling the slot that is claimed, in the same table or the doubled one, adds exactly that box |
| BoxTable.RoomIs | mbroker/mbroker.c:342-366 | the slot claimed is the first free one; the table is doubled if and only if there was none, and every slot is kept |
| BoxTable.CreateStores | mbroker/mbroker.c:342-366 | after reply 0 the box found under the name is taken and bears exactly the given password, so that one and no other removes it; every other slot is as before or blank |
| BoxTable.CreateReplies | mbroker/mbroker.c:316-396 | creating replies 0 if and only if no box has the name, a handle is free and there is room for the file, and -1 otherwise |
| BoxTable.RefusedCreateKeeps | mbroker/mbroker.c:316-396 | after any reply but 0 every taken box is as it was and no slot has become taken |
| BoxTable.RemoveReplies | mbroker/mbroker.c:246-314 | which reply removing gives in each case, none at all for the name of a free slot; after 0 the slot is blank and the file unlinked, otherwise nothing has changed |
| BoxTable.CreateAgreesIff | mbroker/mbroker.c:316-396 | creating, with doubling and rollback, keeps boxes and files in step if and only if it does not make the file and then lack a handle for it; the box is added exactly when the reply is 0 |
| BoxTable.RemoveAgrees | mbroker/mbroker.c:246-314 | removing replies 0 exactly for a box with that name and password, and then box and file go together and no other does; the tables of the file system stay in order if and only if nobody has the file open |
| BoxTable.WorkerIndexUnused | mbroker/mbroker.c:278-294 | the box index left over in a worker never matters: without a box there is no file to unlink |
| BoxTable.SessionAgrees | mbroker/mbroker.c:70-201 | the calls of publishers and subscribers leave boxes and files in step, and the tables in order if and only if they are clean |
| BoxTable.ServedIff | mbroker/mbroker.c:51-396 | a request of any kind leaves boxes and files in step and the tables in order if and only if it is undisturbed |
| BoxTable.AgreeAlwaysIff | mbroker/mbroker.c:51-396 | so over every run of create and remove requests, calls of sessions and changes of counters: always, if and only if every create finds a handle, no box in use is removed and sessions make clean calls |
| BoxTable.PublisherGivesUpIff | mbroker/mbroker.c:165-168 | at every moment of such a run opening a box's file to publish fails if and only if no handle is free |
| Brokers.Broker.ClaimSlot | mbroker/mbroker.c:342-366 | the scan and the doubling yield the first free slot, and keep every box |
| Brokers.Broker.ProcessManagerCreate | mbroker/mbroker.c:316-396 | the handler's loops and calls have exactly that effect, with the rollback when `tfs_open` fails |
| Brokers.Broker.ProcessManagerRemove | mbroker/mbroker.c:246-314 | likewise; boxes and files agree afterwards, and the file system is in order if and only if nobody had the removed file open |
| Brokers.Broker.ConnectPublisher | mbroker/mbroker.c:133-163 | the locked part of a publisher's connection marks the box it is admitted to and changes nothing else; with the wrong password it is turned away |
| Brokers.Broker.SendPending | mbroker/mbroker.c:99-124 | the loop over `tfs_read` sends exactly what `SendLoop` says and leaves the file system as it says |
| SubSessions.SendsAhead | mbroker/mbroker.c:99-124 | with a NUL behind the box the loop ends; what it sent followed by what is still ahead is what was ahead before |
| SubSessions.SendsOnlyMessagesIff | mbroker/mbroker.c:99-124 | from inside a box of whole messages the loop hands over only messages of the box if and only if the byte behind the box is NUL or an empty message lies ahead |
| SubSessions.SendsMore | mbroker/mbroker.c:99-124 | otherwise it sends the byte behind the box after all of its messages |
| SubSessions.ReadStep | mbroker/mbroker.c:99-124 | one read of that loop that does not run over takes the next message off what is ahead |
| PubSessions.NextOnePublisherIff | mbroker/mbroker.c:133-201 | every event keeps one publisher a box if and only if it is not the removal of a box with an active publisher |
| PubSessions.OnePublisherAlways | mbroker/mbroker.c:133-201 | so no run without such a removal has two active publishers on one box |
| PubSessions.AdmittedIff | mbroker/mbroker.c:138-152 | a publisher that names a box is admitted to it if and only if that box is taken, has that name and password and no publisher |
| PubSessions.ConnectedIs | mbroker/mbroker.c:148-152 | the box it is admitted to is marked, every other box is as before |
| PubSessions.RemovedBoxTakesTwo | mbroker/mbroker.c:288-294 | and after one, two can meet |
| PubSessions.AbandonedBoxIsShut | mbroker/mbroker.c:166-168 | after a failed `tfs_open` nobody publishes to the box or is admitted to it for the rest of the run, until it is removed |
| PubSessions.NoneShutIff | mbroker/mbroker.c:133-201 | no event but a publisher that gives up leaves a box marked and without a publisher, and that one does |
| PubSessions.NoneShutAlwaysIff | mbroker/mbroker.c:133-201 | over every run that removes no box under its publisher no box is ever shut if and only if no publisher gives up |
| PubSessions.AdmittedToNoBoxIff | mbroker/mbroker.c:138-152 | a publisher is admitted to a slot without a box if and only if it names none |
| ListExchange.ListedIff | mbroker/mbroker.c:209-220 | a box is listed if and only if it is taken |
| ListExchange.FramesCarry | mbroker/mbroker.c:209-227 | frame k carries the name, size, publishers, subscribers and password of the k-th taken box |
| ListExchange.NoBoxFrame | mbroker/mbroker.c:222-227 | without boxes there is one frame with an empty name, flagged last |
| ListExchange.ExchangeComplete | mbroker/mbroker.c:203-244 | exactly the final frame is flagged last, and what the manager collects is the taken boxes in table order, or nothing when there are none |
| ListExchange.ProcessManagerList | mbroker/mbroker.c:203-244 | the handler's array holds those frames |
| ListExchange.ManagerList | manager/manager.c:63-102 | the manager's loop ends at the first frame flagged last, having grown its array as needed |

## Left out

- FIFOs, signals, process exit, printing and argument parsing in the broker and its clients: a connection is an event or a sequence of bytes.
- `insert_delay` and `touch_all_memory`: no effect on the tables.
- `malloc` failure, `state_destroy`, `pcq_destroy` and the lifetimes of objects.
- FileSystems.FileSystem.TfsOpen: requires that the call returns without aborting, as do the class's other operations; when that is so is the subject of `FsRuns.InvAlways`, `FsRefinement.Simulates` and `FsChains.OpensAlwaysReturnIff`.
- File system calls that interleave: `LockOrder` models their locks, not their data.
- LockOrder.WritersExclude: follows the changes of inodes in use and of open files; the tables' own locks have no such changes marked.
- LockOrder.AllCallsDeadlockFree: the condition on a new link's inode is one on the moment, not on the calls before it.
- Wakeups in the queue and in `process_sub`: signals are sent without the waiter's lock, and no claim is made that a waiter is woken.
- FsRefinement.SimulatesAlways: covers runs of clean calls, as do MessageStream.RunIsTrace, MessageStream.DeliveryOnTables and BrokerRuns.BrokerDeliversOnTables; `FsRefinement.CleanIff` shows that no other call keeps the state these runs are about.
- BrokerRuns.BrokerDelivers: its runs remove no box that has a publisher (`PubSessions.RemovedBoxTakesTwo`), and a create finds a free handle (`BoxTable.CreateAgreesIff`); counters other than `n_pub` are not followed.
- MessageStream.SubscriberGetsPrefix: speaks of abstract traces, whose reads do not run over; what the tables do is in `MessageStream.DeliveryOverBlankMemory`, `FsReads.ReadTakes` and `SubSessions.SendsOnlyMessagesIff`. That publishers take turns is a condition here and follows in `BrokerRuns.PublishersTakeTurns`. It covers reads into a buffer no smaller than a block; a message cut off by the block's end counts as far as it was stored.
- MessageStream.DeliveryOverBlankMemory: covers runs that free no block; what a freed block leaves behind for the next file is not cleared by the source.
- SubSessions.ReadStep: covers boxes whose messages fit in the loop's buffer, here and in the other lemmas on that loop; a longer one would be sent in pieces.
- Brokers.Broker.SendPending: models the loop that sends and not the wait before it; it requires that no read of the loop leaves the memory. What stands in the buffer behind the bytes that `tfs_read` handed over is not modelled.
- ListExchange.ManagerList: frames carry strings where the line carries char arrays, whose bytes behind the terminator are unspecified; the final `qsort` is library code.
- WireCodec.WriterStc: integers are little-endian, as on the machines the programs are built for.
- BrokerRuns.PublisherKnowsPassword: covers runs without lock and unlock requests, as does BrokerRuns.SubscriberKnowsPassword; `process_manager_lock` and `process_manager_unlock` replace a box's password by a new or an empty one and change nothing else.
- `n_subs` and `box_size`: changed under different locks or reset during a box's life, so nothing is claimed of their values.
- The weak memory effects of pthreads: locks and condition waits are atomic steps.
