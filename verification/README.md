# A model of the xCalls library

xCalls gives system calls transactional semantics inside memory transactions. A call either
runs in place and registers the action that compensates for it, or is buffered so that an
abort can take it back; isolation comes from sentinels, revocable locks on kernel objects that
are held until the transaction has committed or compensated. These Dafny modules describe the
core of the library and prove what it is for.

| module | of the library |
|---|---|
| `TxActions` | commit and undo action lists and their execution by level |
| `Sentinels`, `SentinelLists`, `SentinelInvariant`, `SentinelTheorems` | the sentinel protocol as a step system of N descriptors over M sentinels, its invariant, and what follows over all runs |
| `SentinelOutcomes` | what each step achieves: who wins a try-lock, what a release leaves, what a restarted body owns |
| `SentinelSchedule` | action lists and protocol together: while the actions run, the sentinels stay |
| `SentinelManager` | the code behind those steps: sorting, releasing, try-locking, preparing a retry |
| `DualQueue`, `ReadPipe`, `CircularBuffer` | the two-queue speculative buffer and transactional pipe reads, as values and in place |
| `DatagramMemory`, `RecvMsg`, `DatagramBuffer` | transactional datagram reads on the same buffer: the bytes of a record, the queues, the code in place |
| `FileSystem`, `Compensation`, `FileTransaction`, `FileXcalls` | kernel calls on files, the compensating file xCalls, whole transactions of them, and their code |
| `Pool`, `HashTable`, `AliasCache` | the pointer structures: object pool, hash table with recycled buckets, cache of kernel objects |
| `WordCopy`, `WordBytes`, `StrChr` | the word-at-a-time routines |

A method that changes state is proved equal to a function on values; the lemmas are about that
function. Kernel calls follow chapter 3 of the System Interfaces volume of IEEE Std 1003.1-2008;
what the kernel may decide (short counts, errors, new descriptors and inodes) is a parameter.

## Where the code is not what it says

- `src/core/sentinel.c:495` is a stray `#error`; the model follows the call in line 494. The
  replacement suggested in line 496 is shown to break the reference count.
- In the branch for a sentinel the caller already owns (`src/core/sentinel.c:857-866`) the result
  is never assigned; the model returns success.
- The room tests of the buffer are unsigned and can wrap (`src/xcalls/x_read_pipe.c:229-234`).
  The model keeps the wrap; `RoomTests` and `ReadKeepsLayoutIff` say exactly when the tests mean
  what was intended, `SecondHalfWraps` reaches a state in which they do not.
- A buffered plain read leaves its returned value unset (`src/xcalls/x_read_pipe.c:144-163`); the
  model returns the requested size.
- The secondary branch of `x_recvmsg` leaves `len` unset (`src/xcalls/x_recvmsg.c:252-257`); the
  model takes the record's length, as the primary branch does.
- `x_recvmsg` adds its offsets to a pointer to headers, so they are multiplied by 56
  (`src/xcalls/x_recvmsg.c:283-288`): the payload lies 3136 bytes behind its header, the control
  data about 3.5 MB behind it, while the tail moves as if the record were contiguous (lines
  303-311). Later headers and payloads can therefore be written into queued records
  (`SecondMessageDestroysFirst`, `ThirdMessageOverlaps`). `SurvivesIff` says exactly which refills
  leave a queued record whole, `NeighboursApartIff` that of two neighbours the first one must
  have at most 3024 bytes, and the account of datagrams is proved for runs that meet this guard.
  The reservation of the room tests does not cover the scattered parts either; a refill that
  would write behind the end of the array is excluded (`InBuffer`).
- A datagram without payload is taken from the kernel and not kept, so an abort loses it
  (`RefillConservesIff` has this and the overwritten records as its exact condition).
- A transactional `x_recvmsg` returns the sum of the caller's vector lengths and no error, also when
  the kernel's receive has failed, and it copies that many bytes whatever the length of the
  message (`src/xcalls/x_recvmsg.c:325-341`, `DatagramBuffer.Socket.RecvSpeculative`).
- Reads outside retryable transactions take no sentinel (`src/xcalls/x_read_pipe.c:144-168`,
  `src/xcalls/x_recvmsg.c:169-201`) and may move the queues under a running transaction
  (`PlainReadDuplicates`). `PlainReadKeepsAccountIff` and `PlainRecvKeepsAccountIff` say exactly when
  they do no harm.
- `x_create` and `x_rename` move an existing target to `/tmp` and ignore whether that works
  (`src/xcalls/x_create.c:338`, `src/xcalls/x_rename.c:255-267`); for a file on another file system it
  does not, and undoing the call removes the file (`CreateElsewhereLosesFile`,
  `RenameUnmovedIsLost`, exact conditions in `CreateRestoredIff` and `RenameRestoredIff`).
- Detaching a descriptor fills its place in the KOA's list from the cell behind the last one
  (`src/core/koa.c:558`). Unless it was the last one itself or the two are equal by chance, the last
  descriptor is lost from the list, and its own detach fails without lowering the reference count
  (`ClosedInOrderOfOpening`; `DetachFdListsIff` and `StepKeepsCountsIff` are the exact conditions).
- `x_lseek` passes offsets through an `int` (`LseekRestoredIff` gives the exact condition); after
  an apparent error the error code is stale, the model reports EINVAL.
- `x_write_seq` is undone only if it starts at the end of the file, `x_write_ovr` only if what it
  overwrites had been read (`WriteSeqRestoredIff`, `WriteOvrRestoredIff`).
- `x_rename` is documented to remove a replaced file on commit (`src/xcalls/x_rename.c:139-140`); its
  commit action removes only the old name (line 84), so the replaced file stays in `/tmp` for good.
  Where the ignored link fails, as in a rename of a file to its own name, the commit removes the
  file's only name (`RenameCommittedIff` is the exact condition).
- A rename that makes no link, as that of a file to its own name, returns success; it is undone,
  but the undo action reports ENOENT (`UndoErrorIff`).
- `x_create` makes a kernel object without asking the cache for the new inode; together with the
  detaches above these are the only operations that can spoil the cache or the counts, and
  `StepKeepsInvIff` says exactly when.
- The cache is indexed by 32 bits of the inode number (`FoundFileIsRightIff`).

## Model

| member | source | states |
|---|---|---|
| TxActions.ScheduleRunsAllOnce | src/core/tx.c:401-441 | with non-negative orders every registered action runs exactly once: lower levels first, inside a level in registration order (commit) or in reverse (undo) |
| TxActions.ScheduleUnique | src/core/tx.c:444-485 | that order leaves no choice: every complete listing that respects it is the schedule |
| TxActions.LoopStopsIffNonNegative | src/core/tx.c:412-416 | the outer loop reaches its stop condition if and only if no registered order is negative |
| TxActions.SentinelReleaseAfterCompensation | src/core/config.h:145-154 | in commit and in undo, the release of sentinels (level 2) runs after every action of the levels 0 and 1 |
| TxActions.RegularUndoIsReverse | src/core/tx.c:416-418 | rolling back regular actions is plain reverse registration order |
| TxActions.FirstErrorIsFirst | src/core/tx.c:429-436 | the error passed to the failure manager is the first non-zero one in the order of execution, or zero |
| TxActions.CellsHoldLastErrors | src/core/tx.c:427-431 | after a pass an error cell holds the error of the last action executed that names it; a cell that no action names is as before |
| TxActions.ActionList.Register | src/core/tx.c:337-357 | register_action appends, also when the array has to be doubled |
| TxActions.ActionList.Reset | src/core/tx.c:224-238 | txc_tx_init empties the list |
| TxActions.UndoLevel | src/core/tx.c:416-437 | the inner loop of the undo action runs one level, last registered first; state, first error and every error cell end up as the reported errors say |
| TxActions.CommitLevel | src/core/tx.c:459-480 | the inner loop of the commit action runs one level in registration order, with the same outcome |
| TxActions.GenericUndo | src/core/tx.c:401-441 | the undo loops terminate and run the whole schedule: the state its actions lead to, in each error cell the error of the last action that reports to it, all other cells unchanged, the first error; the list is empty afterwards |
| TxActions.GenericCommit | src/core/tx.c:444-485 | the commit loops likewise, in the order of commit |
| SentinelInvariant.StepKeepsInv | src/core/sentinel.c:794-867 | every step of every descriptor keeps the protocol invariant (reference counts, locks, owners, lists, registrations) |
| SentinelInvariant.RunKeepsInv | src/core/sentinel.c:463-506 | so does every run of any number of descriptors |
| SentinelInvariant.ReachableInv | src/core/sentinel.c:187-225 | the invariant holds in every state reachable from an empty pool and idle descriptors |
| SentinelInvariant.KeepTryLock | src/core/sentinel.c:823-857 | a try-lock keeps the invariant, won or lost |
| SentinelInvariant.KeepEnlist | src/core/sentinel.c:830-852 | attaching to and enlisting a sentinel keeps the count exact and the list free of duplicates |
| SentinelInvariant.KeepRelease | src/core/sentinel.c:389-416 | one round of the release loop keeps the invariant, dropping the reference or carrying it over |
| SentinelInvariant.KeepReleased | src/core/sentinel.c:494-505 | leaving the release loop keeps the invariant and makes the remembered sentinels those to acquire |
| SentinelInvariant.KeepAcquire | src/core/sentinel.c:354-368 | re-acquiring one sentinel without attaching to it again keeps the count exact |
| SentinelInvariant.KeepDetachKoa | src/core/sentinel.c:324-332 | detaching the kernel object keeps the invariant |
| SentinelLists.PreacquireIs | src/core/sentinel.c:474-483 | the list to re-acquire is strictly sorted by id, names exactly the sentinels marked for a retry, each once, and is no longer than the old list |
| SentinelLists.SortByIdIs | src/core/sentinel.c:420-444 | the canonical order is sorted and a permutation |
| SentinelLists.SortByIdStrict | src/core/sentinel.c:420-444 | of a list without duplicates it is strictly increasing |
| SentinelManager.InsertCommutes | src/core/sentinel.c:432-441 | entries with different ids can be inserted in either order |
| SentinelManager.SwapKeepsSort | src/core/sentinel.c:433-439 | exchanging two neighbours with different ids does not change the canonical order |
| SentinelManager.SentinelList.Enlist | src/core/sentinel.c:478-480 | enlisting appends, also when the array has to grow |
| SentinelManager.SentinelList.Sort | src/core/sentinel.c:420-444 | the bubble sort with its shrinking bound terminates and leaves exactly the canonical order |
| SentinelManager.ListRelease | src/core/sentinel.c:381-417 | the release loop does to the pool what releasing entry after entry does |
| SentinelManager.ReleaseRunIsLoop | src/core/sentinel.c:381-417 | run without interference, the release steps of the step system have exactly the effect of the loop |
| SentinelManager.ReleasedAt | src/core/sentinel.c:381-417 | what the release loop leaves of one sentinel: free if it was acquired, a reference less unless it is carried over, untouched if it is not in the list |
| SentinelManager.Descriptor.TryAcquire | src/core/sentinel.c:794-867 | the body of txc_sentinel_tryacquire is the two steps try-lock and enlist: busy if and only if somebody else is inside the mutex; otherwise the caller becomes owner; either way the sentinel is enlisted with one more reference and no other sentinel changes |
| SentinelManager.Descriptor.OnComplete | src/core/sentinel.c:448-460 | completion releases everything enlisted and empties the list |
| SentinelManager.Descriptor.BeforeRetry | src/core/sentinel.c:463-506 | before a retry the sorted list to re-acquire is built, everything is released and only references that are not carried over are dropped |
| SentinelTheorems.MutualExclusion | src/core/sentinel.c:359-360 | in every reachable state at most one descriptor is inside a sentinel's lock or its owner, and the owner holds the lock |
| SentinelTheorems.RefcountExact | src/core/sentinel.c:291-310 | a sentinel's count is one for its kernel object plus the number of descriptors that name it |
| SentinelTheorems.InPoolIffUnreferenced | src/core/sentinel.c:302-310 | it is back in the pool if and only if no object and no descriptor names it; then it has no owner and nobody is inside its mutex |
| SentinelTheorems.CarriedReferenceKeepsSentinel | src/core/sentinel.c:484-489 | a remembered sentinel is never recycled between rollback and re-acquisition |
| SentinelTheorems.IdleHoldsNothing | src/core/sentinel.c:448-460 | after commit or user abort a descriptor owns no sentinel and its list is empty |
| SentinelTheorems.PreacquiredAreReleased | src/core/fm.c:71-77 | a body that starts with preacquired sentinels reaches their release however it ends, also when the failure manager aborts it at once |
| SentinelTheorems.DetachOnRetryBreaksCount | src/core/sentinel.c:494-496 | the quick fix in the source's comment would break the reference count |
| SentinelTheorems.IsolatedThroughCompensation | src/core/sentinel.c:550-577 | from acquisition until all level 0 and 1 actions of the instance have run, the owner keeps the sentinel and nobody else holds it, over every interleaving |
| SentinelSchedule.IsolatedWhileActionsRun | src/core/tx.c:401-485 | until the last action of the levels 0 and 1 has run, in the order of the schedule and at every moment, the descriptor is the owner of its sentinels and nobody else holds them |
| SentinelSchedule.CompensatedAtFirstLate | src/core/tx.c:412-438 | the passage to the release is where the first action of the sentinel manager begins: everything before it is of the levels 0 and 1, everything from it on of level 2 and above |
| SentinelSchedule.LateComeLast | src/core/config.h:145-154 | in every schedule the actions of level 2 and above are exactly a suffix |
| SentinelTheorems.BlockedOwnsPrefix | src/core/sentinel.c:345-369 | a blocked descriptor owns exactly the entries of its sorted list before the one it waits for, all with smaller ids |
| SentinelTheorems.WaitAscends | src/core/sentinel.c:483-505 | along a wait the wanted ids strictly increase |
| SentinelTheorems.NoWaitCycle | src/core/sentinel.c:345-369 | no reachable state has a cycle of waits on sentinels |
| SentinelTheorems.OnlyReacquisitionWaits | src/core/sentinel.c:826-829 | a descriptor that is not re-acquiring can always take its next step, whatever is locked |
| SentinelTheorems.CanAlwaysFinish | src/core/sentinel.c:463-506 | from every state that satisfies the invariant all transactions can be brought to completion, with every lock given back and every orphaned sentinel in the pool |
| SentinelOutcomes.TryLockOutcome | src/core/sentinel.c:823-857 | a try-lock is refused if and only if somebody is inside the mutex; the winner owns the sentinel, the loser aborts, both have it in the list with one more reference, everything else is as before |
| SentinelOutcomes.CreateOutcome | src/core/sentinel.c:243-263 | a new sentinel has the reference of its object and can be try-locked by every running transaction |
| SentinelOutcomes.DetachOutcome | src/core/sentinel.c:324-332 | a detach takes the object's reference; the sentinel returns to the pool at once if and only if no descriptor names it |
| SentinelOutcomes.UntouchedTransaction | src/core/sentinel.c:524-547 | a transaction without try-locks has nothing to release, and ends or restarts by its ending alone |
| SentinelOutcomes.CompensatedOutcome | src/core/sentinel.c:463-483 | an instance that is to run again remembers exactly what its try-locks have marked, sorted by id; otherwise the memory stays |
| SentinelOutcomes.ReleaseOutcome | src/core/sentinel.c:389-416 | one round releases what was acquired and drops the reference unless the retry carries it over |
| SentinelOutcomes.EndsOrRestarts | src/core/sentinel.c:528-541 | after the release a commit and a user abort end the transaction, and nothing else does |
| SentinelOutcomes.AcquireOutcome | src/core/sentinel.c:354-368 | a re-acquired sentinel is locked and owned and its reference count stays |
| SentinelOutcomes.RestartOutcome | src/core/sentinel.c:594-606 | the restarted body is registered for commit and abort if and only if it owns a sentinel |
| SentinelOutcomes.RestartOwnsMarked | src/core/sentinel.c:463-506 | whatever the other descriptors do in between, a restarted body owns exactly the sentinels that the try-locks of the aborted instance had marked, won or lost |
| DualQueue.RoomTests | src/xcalls/x_read_pipe.c:229-234 | the unsigned room tests are the intended comparisons if and only if they do not wrap; a wrapped test always reports room |
| DualQueue.ReadKeepsLayoutIff | src/xcalls/x_read_pipe.c:208-253 | a speculative read keeps the layout, whatever the kernel delivers, if and only if the request fits its queue and no room test wraps |
| DualQueue.SecondHalfWraps | src/xcalls/x_read_pipe.c:229-237 | a reachable state in which a room test wraps: one transaction that reads both halves of a buffer gets the second one stored over the first |
| DualQueue.OthersKeepLayout | src/xcalls/x_read_pipe.c:63-102 | snapshot, commit, undo and plain consumption keep the two queues inside the array and apart |
| DualQueue.FixedSizeKeepsOrder | src/xcalls/x_recvmsg.c:264-282 | with one reservation size the secondary queue is used only when the primary has no room |
| ReadPipe.ReadTxConserves | src/xcalls/x_read_pipe.c:180-258 | a speculative read hands out exactly the next bytes of the stream and changes nothing an abort needs |
| ReadPipe.BufferedReturns | src/xcalls/x_read_pipe.c:208-220 | while something of the snapshot is buffered a read returns the requested size with the next queued bytes |
| ReadPipe.RefillReturns | src/xcalls/x_read_pipe.c:221-253 | otherwise it returns what the kernel grants and hands out those bytes, or returns -1 without touching the kernel when there is no room |
| ReadPipe.DeliversWhatItSays | src/xcalls/x_read_pipe.c:208-258 | what the caller's buffer and the kernel contain afterwards fits the returned value |
| ReadPipe.RefillConserves | src/xcalls/x_read_pipe.c:227-253 | a refill moves bytes from the kernel to the end of the queues and overwrites no queued byte |
| ReadPipe.CommitDropsGiven | src/xcalls/x_read_pipe.c:77-102 | commit drops exactly the bytes the transaction was given |
| ReadPipe.AbortKeepsStream | src/xcalls/x_read_pipe.c:63-74 | abort leaves queues and kernel unchanged |
| ReadPipe.ReadPlainConserves | src/xcalls/x_read_pipe.c:144-168 | between transactions a plain read consumes the next bytes of the stream at once |
| ReadPipe.PlainReturns | src/xcalls/x_read_pipe.c:144-168 | what a plain read returns: the requested size from the buffer, or the answer of the kernel with its bytes |
| ReadPipe.PlainReadKeepsAccountIff | src/xcalls/x_read_pipe.c:144-168 | a plain read keeps the account, also during somebody else's transaction, if and only if it asks for no more than its queue has and takes nothing from the buffer while a transaction is reading |
| ReadPipe.PlainReadDuplicates | src/xcalls/x_read_pipe.c:292-301 | four bytes read in a transaction are delivered again by a plain read before the commit |
| ReadPipe.RunKeepsAccount | src/xcalls/x_read_pipe.c:105-258 | over any run that meets the guards, bytes consumed for good followed by the queues and the kernel are the original stream, and what a running transaction has been given is its beginning |
| ReadPipe.RefillKeepsStreamIff | src/xcalls/x_read_pipe.c:229-253 | a refill keeps the order for all contents if and only if it does not go to the primary queue while the secondary is in use |
| ReadPipe.ConstantSizeNeedsNoOrderGuard | src/xcalls/x_recvmsg.c:264-265 | with requests of one size that guard always holds |
| ReadPipe.ConstantSizeRunIsAllowed | src/xcalls/x_recvmsg.c:264-282 | so a whole run with requests of one size needs no condition on the order of refills |
| ReadPipe.ChangingSizesBreakOrder | src/xcalls/x_read_pipe.c:227-237 | with changing request sizes it can fail: a concrete reachable state |
| CircularBuffer.Buffer.constructor | src/core/buffer.c:195-206 | an initialised buffer is empty |
| CircularBuffer.Buffer.CommitAction | src/xcalls/x_read_pipe.c:77-102 | x_read_pipe_commit in place is Commit |
| CircularBuffer.Buffer.UndoAction | src/xcalls/x_read_pipe.c:63-74 | x_read_pipe_undo in place is Undo |
| CircularBuffer.Buffer.FindRoom | src/xcalls/x_read_pipe.c:227-243 | the room tests in place choose the queue that Refill names |
| CircularBuffer.Buffer.RefillSpeculative | src/xcalls/x_read_pipe.c:227-253 | the refilling branch in place: kernel bytes are copied into the array behind the chosen tail |
| CircularBuffer.Buffer.ReadSpeculative | src/xcalls/x_read_pipe.c:170-258 | the transactional read in place is ReadTx; the returned value, the caller's bytes and the kernel fit together as in DeliversWhatItSays |
| CircularBuffer.Buffer.ReadDirect | src/xcalls/x_read_pipe.c:144-168 | the read outside a transaction in place is ReadPlain, whether or not a transaction is reading; its result is that of PlainReturns |
| RecvMsg.RecvTxConserves | src/xcalls/x_recvmsg.c:202-320 | a transactional receive that meets its guard hands out the next record of the stream, byte by byte |
| RecvMsg.RecvDelivers | src/xcalls/x_recvmsg.c:202-320 | a transactional receive hands out the first record it has not been given, else the kernel's next message if there is room for it, else nothing; the kernel loses just that message |
| RecvMsg.CommitDropsGiven | src/xcalls/x_recvmsg.c:96-121 | commit drops exactly the records the transaction was given |
| RecvMsg.AbortKeepsStream | src/xcalls/x_recvmsg.c:82-93 | abort leaves records and kernel unchanged |
| RecvMsg.RecvPlainConserves | src/xcalls/x_recvmsg.c:169-201 | a plain receive consumes the next record at once |
| RecvMsg.RecvPlainDelivers | src/xcalls/x_recvmsg.c:169-201 | a plain receive hands out the first queued record, or else what the kernel answers |
| RecvMsg.PlainRecvKeepsAccountIff | src/xcalls/x_recvmsg.c:169-201 | a plain receive keeps the account if and only if no transaction is reading or nothing is queued |
| DatagramMemory.SurvivesIff | src/xcalls/x_recvmsg.c:283-319 | a queued record survives a refill, whatever bytes both consist of, if and only if the refill writes no byte of its header, payload or control data |
| DatagramMemory.StoredHolds | src/xcalls/x_recvmsg.c:283-319 | a stored message can be read back from its scattered places |
| DatagramMemory.ControlCopied | src/xcalls/x_recvmsg.c:314-319 | the control data are written where the header points and once more behind the payload |
| DatagramMemory.NeighboursApartIff | src/xcalls/x_recvmsg.c:284-311 | a record is spared by the one stored directly behind it if and only if it has at most 3024 bytes |
| DatagramMemory.ThirdMessageOverlaps | src/xcalls/x_recvmsg.c:284-311 | of three messages of 1500 bytes the third one overwrites the first |
| RecvMsg.RefillAppends | src/xcalls/x_recvmsg.c:264-319 | a message stored behind a tail becomes the last queued record and leaves the others whole, if it writes none of their bytes |
| RecvMsg.FailureKeepsQueues | src/xcalls/x_recvmsg.c:283-297 | a failing receive has written its pointers; if they are in no queued record, nothing is lost |
| RecvMsg.RunKeepsAccount | src/xcalls/x_recvmsg.c:124-347 | over any run that meets the guard, records consumed for good followed by the queues and the kernel are the original messages, with all their bytes |
| RecvMsg.RefillConservesIff | src/xcalls/x_recvmsg.c:283-319 | a refill and an abort leave all messages to be received, whatever their bytes, if and only if it writes no byte a queued record needs and what it receives has a payload |
| RecvMsg.SecondMessageDestroysFirst | src/xcalls/x_recvmsg.c:284-311 | a 4000-byte message and any second one received in a transaction: after the abort the first is damaged |
| RecvMsg.ShortQueueIsSpared | src/xcalls/x_recvmsg.c:284-311 | while the new header lies in front of the first queued payload, all queued records are spared |
| DatagramBuffer.Socket.RecvSpeculative | src/xcalls/x_recvmsg.c:202-341 | the transactional receive in place is RecvTx; it gives the caller the beginning of the payload and returns the sum of the caller's lengths, -1 only without room |
| DatagramBuffer.Socket.RecvDirect | src/xcalls/x_recvmsg.c:169-201 | the plain receive in place is RecvPlain, whether or not a transaction is reading |
| DatagramBuffer.Socket.Refill | src/xcalls/x_recvmsg.c:258-320 | the refilling branch in place: pointers, receive, header, copied control data and tail, byte by byte what Refilled says, also when the receive fails |
| DatagramBuffer.Socket.CopyOut | src/xcalls/x_recvmsg.c:330-335 | the loop over the caller's vectors hands out, one after the other, what lies behind the header |
| DatagramBuffer.CopiesPayload | src/xcalls/x_recvmsg.c:330-335 | of a whole record that is the beginning of its payload |
| Compensation.ReadRestored | src/xcalls/x_read.c:62-77 | a transactional read is always undone |
| Compensation.ReadReads | src/xcalls/x_read.c:143-163 | x_read hands out the bytes at the offset, moves it by their number and returns that number |
| Compensation.LseekRestoredIff | src/xcalls/x_lseek.c:161-187 | x_lseek is undone if and only if the new offset survives its conversion to int (or the apparent error has not moved the descriptor) |
| Compensation.LseekFailureKeeps | src/xcalls/x_lseek.c:194-203 | a failing seek within int range changes nothing and returns -1 |
| Compensation.LseekMoves | src/xcalls/x_lseek.c:150-188 | x_lseek leads to the offset counted from start, position or end, and returns it |
| Compensation.WriteSeqRestoredIff | src/xcalls/x_write.c:68-88 | x_write_seq is undone if and only if it starts at the end of the file |
| Compensation.SeqWrites | src/xcalls/x_write.c:185-207 | x_write_seq puts the caller's bytes at the offset and moves it behind them; at the end of the file it appends them; nothing else changes and it returns their number |
| Compensation.PutBackIff | src/xcalls/x_write.c:91-131 | truncating and putting the saved bytes back restores a file if and only if every overwritten byte was saved or nothing followed the saved ones |
| Compensation.WriteOvrRestoredIff | src/xcalls/x_write.c:91-131 | x_write_ovr is undone if and only if every overwritten byte had been read or the read ended at the end of the file |
| Compensation.OvrWrites | src/xcalls/x_write.c:209-258 | x_write_ovr writes the caller's bytes at the old offset, returns their number and remembers what was there |
| Compensation.OvrFailureKeeps | src/xcalls/x_write.c:268-286 | a failing overwrite leaves files, offsets and the linear buffer unchanged |
| Compensation.CreateRestoredIff | src/xcalls/x_create.c:204-398 | x_create is undone if and only if there was no file or the kernel grants the ignored renames it needs; then the undo reports no error |
| Compensation.CreateMakes | src/xcalls/x_create.c:204-398 | x_create returns a descriptor open at offset 0 on a new empty file of that name; an existing file goes under the temporary name |
| Compensation.CreateCommitted | src/xcalls/x_create.c:111-124 | after commit the created file has replaced the old one, of which nothing is left |
| Compensation.CreateElsewhereLosesFile | src/xcalls/x_create.c:334-347 | an input where the ignored rename fails: create and abort remove the existing file |
| Compensation.CreateFresh | src/xcalls/x_create.c:69-93 | unlinking and closing a newly created file leaves no trace of it |
| Compensation.RenameRestoredIff | src/xcalls/x_rename.c:250-267 | x_rename is undone if and only if an existing target could be moved away, whatever becomes of the link; its undo reports an error exactly when there was no link |
| Compensation.RenameLinks | src/xcalls/x_rename.c:250-267 | x_rename gives the file the new name besides the old one; an existing target goes under the temporary name |
| Compensation.RenameCommittedIff | src/xcalls/x_rename.c:66-95 | after commit x_rename has done what rename does if and only if there was no target and the link was made |
| Compensation.UndoReports | src/xcalls/x_rename.c:98-132 | which error each undo action reports: that of its first failing kernel call, for x_rename that of the last |
| Compensation.RenameUnmovedIsLost | src/xcalls/x_rename.c:98-132 | if the target could not be moved away, the call changes nothing and its undo action removes the target |
| FileTransaction.CallRestoredIff | src/xcalls/x_write.c:184-258 | for every call, state and answer of the kernel to the calls in it, the guard is exact: the call is undone if and only if it holds |
| FileTransaction.OverwriteGuard | src/xcalls/x_write.c:111-119 | with reads short only at the end of the file, an overwrite is undone if and only if it writes nothing or starts at or before the end |
| FileTransaction.FailureRegistersNothing | src/xcalls/x_read.c:169-177 | a call that returns an error registers no action and gives its linear-buffer space back |
| FileTransaction.FailureReason | src/xcalls/x_write.c:184-286 | why a call fails, in the order of the tests: closed descriptor, no room for the record, the kernel's own error, a missing name; and what it returns |
| FileTransaction.UndoErrorIff | src/xcalls/x_rename.c:116-124 | the undo of an undoable call reports an error only for a rename that has made no link |
| FileTransaction.RunRestores | src/core/tx.c:401-441 | undoing the log of any run of undoable calls, on any descriptors and names, restores every file, length, offset, name and descriptor, silently if and only if every rename has made its link |
| FileTransaction.GenericUndoIsUndoAll | src/core/tx.c:401-441 | the generic undo action on these records is their replay in reverse order |
| FileXcalls.LinearBuffer.Malloc | src/core/buffer.c:329-342 | linear allocation succeeds if and only if the space is left, while the unsigned sum does not wrap; the wrapped case is stated too |
| FileXcalls.LinearBuffer.Free | src/core/buffer.c:354-358 | linear release undoes the last allocation |
| FileXcalls.Transaction.XRead | src/xcalls/x_read.c:120-178 | x_read step by step is its description, and the caller gets the bytes at the old offset |
| FileXcalls.Transaction.XLseek | src/xcalls/x_lseek.c:126-203 | x_lseek step by step is its description |
| FileXcalls.Transaction.XWriteSeq | src/xcalls/x_write.c:184-207 | x_write_seq step by step is its description |
| FileXcalls.Transaction.XWriteOvr | src/xcalls/x_write.c:209-286 | x_write_ovr step by step, with its error paths, is its description |
| FileXcalls.Transaction.XCreate | src/xcalls/x_create.c:204-398 | x_create step by step (directory part) is its description |
| FileXcalls.Transaction.XRename | src/xcalls/x_rename.c:172-290 | x_rename step by step (directory part) is its description |
| FileXcalls.Transaction.Call | src/xcalls/x_write.c:134-286 | a call whose guard holds keeps the running transaction recoverable |
| FileXcalls.Transaction.Abort | src/core/tx.c:401-441 | rolling back brings the kernel to its state at the beginning; the reported error is zero if and only if every undo action was silent, and the error cells hold what the undo actions reported last |
| Pool.AllocKeepsPartition | src/misc/pool.c:150-164 | the pointer assignments of an allocation move the head of one well-formed list to the front of the other |
| Pool.FreeKeepsPartition | src/misc/pool.c:186-204 | the pointer assignments of a release move any allocated object to the front of the free list |
| Pool.UnlinkKeepsList | src/misc/pool.c:188-195 | linking an object's neighbours to each other takes it, and only it, out of its list |
| Pool.IndexInvertsAddress | src/misc/pool.c:185 | division inverts the address layout if the pool fits in an unsigned int |
| Pool.NeighbourIndices | src/misc/pool.c:102-103 | the index arithmetic of the initialisation, with its unsigned predecessor, gives the neighbours inside the array |
| Pool.ObjectPool.constructor | src/misc/pool.c:71-121 | a new pool has all objects free, in address order, in a well-formed list |
| Pool.ObjectPool.Alloc | src/misc/pool.c:136-171 | alloc returns an object that was not allocated, NULL exactly if none is free; the lists still partition the objects |
| Pool.ObjectPool.Free | src/misc/pool.c:174-209 | free returns exactly the object at the pointer to the free list; the lists still partition the objects |
| HashTable.Push | src/misc/hash_table.c:126-136 | bucket_list_add puts a bucket in front of a chain |
| HashTable.Unlink | src/misc/hash_table.c:139-153 | bucket_list_remove takes exactly one bucket out; a new head keeps its stale back link |
| HashTable.UnlinkInner | src/misc/hash_table.c:146-152 | back links are followed only from buckets that are not the head |
| HashTable.BucketList.Scan | src/misc/hash_table.c:170-179 | the scan finds the bucket with the key, or there is none |
| HashTable.BucketList.Reuse | src/misc/hash_table.c:180-183 | a recycled bucket is in neither list when it is handed out |
| HashTable.BucketList.Add | src/misc/hash_table.c:156-198 | adding to one list refuses a present key and otherwise puts the entry in front |
| HashTable.BucketList.Remove | src/misc/hash_table.c:243-282 | removing from one list drops exactly the entry with the key and recycles its bucket |
| HashTable.PartsApart | src/misc/hash_table.c:53-57 | two table entries never share a bucket |
| HashTable.Table.constructor | src/misc/hash_table.c:66-94 | a new table is the empty map |
| HashTable.Table.Add | src/misc/hash_table.c:156-198 | on the whole table, add is a map update unless the key is present |
| HashTable.Table.Lookup | src/misc/hash_table.c:201-240 | lookup is map lookup |
| HashTable.Table.Remove | src/misc/hash_table.c:243-282 | remove is map removal and returns the removed value |
| HashTable.FlatIsUnique | src/misc/hash_table.c:286-303 | in the order of the iterator no key comes twice |
| HashTable.FlatIsContents | src/misc/hash_table.c:286-338 | the entries in the order of the iterator are exactly the contents of the table |
| HashTable.Iterator.constructor | src/misc/hash_table.c:286-303 | a new iterator is in front of all entries |
| HashTable.Iterator.Next | src/misc/hash_table.c:306-338 | each step delivers the next of them, the end exactly when none is left |
| AliasCache.StepKeepsInvIff | src/core/koa.c:475-581 | an operation keeps cache, counts and descriptor lists right if and only if it is neither the creation of a KOA for a cached inode nor a detach that fills the gap in a list with something else than its last descriptor |
| AliasCache.StepKeepsCountsIff | src/core/koa.c:525-581 | reference counts stay the number of descriptors and attachments under every operation except a detach that does not find its descriptor |
| AliasCache.DetachFdListsIff | src/core/koa.c:545-559 | a detach finds its descriptor in a right list, and leaves the list right if and only if it takes the last one or the cell behind the list equals the last one |
| AliasCache.ClosedInOrderOfOpening | src/core/koa.c:545-559 | a file opened twice and closed in the same order: the second close fails and the KOA keeps a reference |
| AliasCache.RunKeepsInv | src/xcalls/x_open.c:132-190 | over any run of such steps the cache holds exactly the file KOAs with references, and counts and lists are right |
| AliasCache.OneKoaPerInode | src/core/koa.c:303-318 | two file KOAs with the same key are the same KOA |
| AliasCache.CreateExactIff | src/core/koa.c:491-498 | a first attach keeps the cache exact if and only if the key was not in use |
| AliasCache.LoseKeepsExact | src/core/koa.c:561-569 | a last detach keeps the cache exact |
| AliasCache.SecondKoaHidesTheFirst | src/xcalls/x_create.c:226-230 | a second KOA for a cached inode is invisible, and its detach hides the first |
| AliasCache.FoundFileIsRightIff | src/core/koa.c:356-373 | the lookup finds the file itself if and only if that very inode has a KOA; inode numbers equal in 32 bits are confused |
| AliasCache.KeysClash | src/core/koa.c:303-318 | two inode numbers of 32 bits share a key only if they are equal; numbers that differ by a multiple of 2^32 always do |
| AliasCache.OpenAttaches | src/xcalls/x_open.c:132-190 | x_open maps the descriptor to the KOA in the cache for the inode: the old one with one more reference, or a new file KOA with that inode; all others stay |
| AliasCache.HoldAttaches | src/xcalls/x_rename.c:185-216 | x_rename holds the KOA in the cache for the inode: the old one with one more reference, or a new file KOA with that inode; all others stay |
| AliasCache.MakeOtherAttaches | src/core/koa.c:475-516 | a pipe or socket gets a KOA of its own that never enters the cache |
| AliasCache.DetachFdDrops | src/core/koa.c:525-581 | detaching a listed descriptor drops one reference, an unlisted one none; the KOA goes with its last reference, and with it its cache entry |
| AliasCache.DetachDrops | src/core/koa.c:766-792 | a detach without descriptor drops one reference in the same way |
| AliasCache.KoaManager.IncRef | src/core/koa.c:491-498 | the counting half of the attaches, on the hash table |
| AliasCache.KoaManager.DecRef | src/core/koa.c:561-569 | the counting half of the detaches, on the hash table |
| AliasCache.KoaManager.OpenFile | src/xcalls/x_open.c:132-190 | x_open maps the descriptor to the KOA that the cache has for the inode, made if there was none, and keeps the invariant |
| AliasCache.KoaManager.MakeFileKoa | src/xcalls/x_create.c:226-230 | x_create keeps the invariant if and only if the inode was not in the cache |
| AliasCache.KoaManager.HoldFile | src/xcalls/x_rename.c:185-216 | x_rename holds the KOA that the cache has for the inode, made if there was none, and keeps the invariant |
| AliasCache.KoaManager.DetachDescriptor | src/core/koa.c:525-581 | detaching in place, with the search and the filled gap, finds a descriptor exactly if it is listed, and from a right state keeps the invariant under the exact condition |
| AliasCache.KoaManager.FindListed | src/core/koa.c:545-551 | the search loop finds the first listed cell with the descriptor, or that there is none |
| AliasCache.KoaManager.DetachKoa | src/core/koa.c:766-792 | detaching keeps the invariant |
| WordCopy.FwdAligned | src/libc/wordcopy.c:75-173 | the unrolled forward copy is a memmove of words for every length in all eight residue classes, for a destination at most one word above the source or behind it |
| WordCopy.FwdDestAligned | src/libc/wordcopy.c:181-258 | the unrolled forward copy of a misaligned source stores the merge of each two neighbouring source words, for every length and all entries |
| WordCopy.BwdAligned | src/libc/wordcopy.c:266-364 | the unrolled backward copy is a memmove of words, for a destination above the source or clear of it |
| WordCopy.BwdDestAligned | src/libc/wordcopy.c:372-449 | the unrolled backward copy of a misaligned source, likewise |
| WordCopy.FwdRound | src/libc/wordcopy.c:136-167 | one round, entered at any of its eight labels, keeps the pending word and the pointers in step |
| WordCopy.BwdRound | src/libc/wordcopy.c:327-358 | the same for the backward loop |
| WordCopy.FwdShiftRound | src/libc/wordcopy.c:233-252 | one round of the shifted loop, entered at any of its four labels, keeps the four registers in step |
| WordCopy.BwdShiftRound | src/libc/wordcopy.c:424-443 | the same for the backward shifted loop |
| WordCopy.FwdEntry | src/libc/wordcopy.c:80-133 | the switch adjusts pointers and length for the label it jumps to |
| WordCopy.BwdEntry | src/libc/wordcopy.c:271-324 | the same for the backward copy |
| WordCopy.FwdShiftEntry | src/libc/wordcopy.c:197-231 | the same for the shifted copy |
| WordCopy.BwdShiftEntry | src/libc/wordcopy.c:389-422 | the same for the backward shifted copy |
| WordBytes.MergeBytes | src/libc/memcopy.h:105-110 | MERGE takes the last 8 - k bytes of the first word and the first k of the second, for every shift and both byte orders |
| WordBytes.AlignedMovesBytes | src/libc/memcopy.h:154-155 | an aligned word copy moves exactly the bytes |
| WordBytes.ShiftedMovesBytes | src/libc/memcopy.h:156-157 | a shifted word copy moves exactly the bytes, for every shift |
| WordBytes.WordCopyFwd | src/libc/memcopy.h:151-161 | WORD_COPY_FWD copies byte for byte what memmove would, all but n % 8 bytes, and leaves the pointers behind them |
| WordBytes.WordCopyBwd | src/libc/memcopy.h:169-179 | WORD_COPY_BWD does the same from the ends of the blocks downwards |
| StrChr.HoleTestIff | src/libc/string.c:403-437 | the hole-bit test fires if and only if some byte is zero or, its one misfire, the most significant byte is 0x80 |
| StrChr.MaskBytes | src/libc/string.c:391-400 | XOR with the character mask turns exactly the bytes equal to the character into zero |
| StrChr.SkippedWordIsClean | src/libc/string.c:439-454 | a word that passes both tests contains neither the character nor the end of the string |
| StrChr.ScanFindsFirst | src/libc/string.c:346-347 | the byte scan finds the first occurrence up to and including the terminating zero, or that there is none |
| StrChr.LookAtWord | src/libc/string.c:455-496 | after a misfire the eight looks find nothing and the search goes on |
| StrChr.StrChr | src/libc/string.c:347-501 | strchr returns what the byte scan returns, for every string, character and alignment |
| FileXcalls.Transaction.UndoAction | src/xcalls/x_write.c:66-131 | the undo actions, one kernel call after the other, are what Replay describes |
| FileTransaction.KeepsValid | src/xcalls/x_create.c:204-398 | every call keeps the file system well formed: no name or descriptor without its file, no file without a reference |
| Compensation.RenameFresh | src/xcalls/x_create.c:335-347 | moving a file to a fresh name and back changes nothing and loses no file on the way |
| Compensation.LinkUnlink | src/xcalls/x_rename.c:260-267 | a second name for a file, and its removal, change nothing |
| RecvMsg.OpKeepsAccount | src/xcalls/x_recvmsg.c:124-347 | every single operation keeps that account |
| ReadPipe.OpKeepsAccount | src/xcalls/x_read_pipe.c:105-258 | every single operation keeps that account |
| SentinelInvariant.KeepCompensated | src/core/tx.c:412-438 | entering level 2 keeps the invariant, whether or not the manager actions are registered |
| SentinelInvariant.KeepAcquired | src/core/sentinel.c:354-369 | leaving the acquire loop keeps the invariant: everything remembered is owned again |
| SentinelInvariant.KeepCreateKoa | src/core/sentinel.c:243-263 | a sentinel taken from the pool for a new object keeps the invariant |
| HashTable.BucketList.Lookup | src/misc/hash_table.c:217-231 | lookup in one list returns the value of the entry with the key |
| StrChr.LookAtHead | src/libc/string.c:359-366 | the bytes before the first word boundary are scanned one by one |
| StrChr.TestWord | src/libc/string.c:439-455 | a word for which neither test fires holds neither the character nor the end |
| StrChr.LookAtWords | src/libc/string.c:402-497 | the word loop ends, inside the string, with the answer of the byte scan |
| WordCopy.FwdLoop | src/libc/wordcopy.c:136-172 | the loop, entered at any label, leaves exactly the last word to do0 |
| WordCopy.BwdLoop | src/libc/wordcopy.c:327-363 | the same for the backward loop, which leaves the first word |
| WordCopy.FwdShiftLoop | src/libc/wordcopy.c:233-257 | the same for the shifted loop |
| WordCopy.BwdShiftLoop | src/libc/wordcopy.c:424-448 | the same for the backward shifted loop |
| TxActions.RunEntry | src/core/tx.c:419-436 | one entry runs and its error goes to its cell, also when it is zero; no other cell changes, and the first error stays |

## Left out

- SentinelManager.Descriptor.BeforeRetry: stops before the blocking re-acquisition, which exists only as steps of the step system, because a sequential method cannot wait for another descriptor.
- SentinelManager.Descriptor.TryAcquire: the bounded spin of the try-lock is one attempt; the retryable state is assumed, the irrevocable one acquires nothing.
- ReadPipe.RunKeepsAccount: requests stay below 2^31 bytes and the snapshot's record fits the linear buffer; a request that exceeds its queue and a harmful plain read are excluded by guards shown to be exact.
- CircularBuffer.Buffer.ReadDirect: reads inside the array only; beyond it C gives no meaning.
- RecvMsg.RunKeepsAccount: under the guard that each refill stays in the array and spares the queued records. The four padding bytes of a header count as part of it; a byte of a header that was never completed is only known not to be data; messages are taken to be cut to the sizes asked for.
- DatagramBuffer.Socket.RecvSpeculative: the copies of name, control data and flags to the caller are not described, the copy of the payload is; the read range stays inside the array.
- DatagramBuffer.Socket.RecvDirect: likewise.
- FileTransaction.UndoErrorIff: the kernel calls of the undo actions themselves are not refused by the kernel; a refused one would leave its change in place.
- FileTransaction.RunRestores: likewise; and abort only. What the commit actions of x_create and x_rename make of one call is in Compensation (CreateCommitted, RenameCommittedIff); they do not compose with later calls on the same names, so there is no such claim for whole transactions.
- FileXcalls.Transaction.XWriteOvr: sizes for which the unsigned sum of the room test stays below 2^32; beyond, the allocation succeeds without space (LinearBuffer.Malloc has the wrapped sum).
- FileXcalls.Transaction.Call: likewise for overwrites.
- FileXcalls.Transaction.XCreate: kernel objects, descriptor map and sentinels of the created file are in AliasCache and Sentinels; a linear buffer without room for the record ends the program and is excluded.
- FileXcalls.Transaction.XRename: likewise; path names fit their 128 bytes.
- AliasCache.StepKeepsInvIff: descriptors are mapped and KOAs found; attaching a ninth descriptor ends the program and is excluded. The fields of a KOA object of the pool are a value in a map, only its descriptor cells survive its destruction.
- WordCopy.FwdAligned: lengths 0 and 1 need the OP_T_THRES test to hold, which it does for 8-byte words and not for 4-byte words; the same holds for the other three copies.
- WordBytes.WordCopyFwd: 8-byte words only; the byte loops BYTE_COPY_FWD and BYTE_COPY_BWD would add easy members.
- StrChr.StrChr: 8-byte words only; the string ends inside the memory, as C demands.
- Sharing of one offset between duplicated descriptors (x_dup), x_unlink, x_write_ovr_ignore and the deferred calls (x_fsync, x_fdatasync, x_write_pipe, x_sendmsg, x_printf, the pthread calls): no inverse of their effect is registered, or only easy members would be added.
- txc_libc_strncpy, txc_libc_strncat, txc_libc_strncmp and the other byte loops of string.c: easy members.
- Condition variables and futexes, the Intel STM runtime, signal handling, socket creation, configuration, statistics, debugging and address parsing.
- Memory exhaustion in malloc and realloc, and the internal errors that end the process.
- Irrevocable transactions, backoff times and fairness: only the possibility of completion is shown.
- txc_sentinel_enlist and the pool's iteration by status: not used by the modelled calls.
