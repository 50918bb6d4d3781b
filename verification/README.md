# A verified model of a small Linux-compatible kernel and its mini libc

This project models, in Dafny 4.11, the logic of a small Linux-compatible kernel on top of ArceOS, and of
the mini C library its user programs link against, and proves what that logic promises. `dafny verify
dfyconfig.toml` checks all of it.

## What is modelled

- **Pipes and file-descriptor tables** (`PipeRing`, `FdTable`, `PipeSystem`, `PipeHeap`, `PipeCounts`,
  `PipeFlow`, `PipeTheorems`, `PipeOrder`, `PipeTrace`, `PipeCalls`, `PipeCreation`, `PipeSyscalls`,
  `PipeDescriptors`). The ring buffer is a class proved against a value. Around it stands one concurrent system: any number of threads, tables that are shared, copied and
  cleared, and calls in flight. Every lock-held section is one atomic step. Reference counts of file
  objects and of pipe buffers are part of the state, because end of file is decided by such a count. The
  theorems hold after every run, in every interleaving. `PipeSyscalls` and `PipeDescriptors` say, call by
  call, what a program sees: numbers, bytes and errors.
- **Futexes** (`Futex`, `FutexInvariant`, `FutexTheorems`, `FutexRuns`, `FutexSyscalls`, `FutexCalls`). One
  process's table from address to wait queue, the guards that refer to queues, and wait, wake, requeue, timeout and exit-wake as steps.
  Comparing the word and going to sleep are separate steps, as in the code. `FutexSyscalls`
  follows whole calls to the number they return; `FutexCalls` has the loops of one call in the code's own form.
- **getdents64** (`Dirent`, `Getdents`). The records, the raw stores that lay them out in a byte array, a
  reader that walks them, and the resumable call with its one entry of carry-over.
- **User pointers** (`UserPtr`). The page-by-page scan for a terminator.
- **Hard links** (`Hardlinks`). The map from link to target, the cached count for each target, and the
  system calls above them, which resolve every name first.
- **The mini libc** (`IntText`, `Stdio`, `Format`, `FormatMeaning`, `Memset`). Number printing and reading,
  the line buffer of standard output, the format interpreter and what its output says, and the
  overlapping-store fill.
- **Vectored I/O** (`Iovec`, and `PipeVectors` for vectored calls on a pipe), **CPU-time accounting**
  (`TimeStat`) and **the deadline loop of cyclictest** (`Cyclictest`).

`Basics` and `Numbers` hold shared vocabulary. Values of a fixed width (bytes, 32- and 64-bit numbers, the
16-bit record length) are modelled with their truncation; the exceptions are listed at the end.

## Where the code does not do what it is meant to

Each of these is a theorem, with the exact condition under which the intended behaviour holds.

- A pipe write that fills the ring exactly does not return by itself, although all its bytes are in: with a
  reader alive it returns on its own if and only if the bytes left are fewer than the free space
  (`PipeTheorems.ExactFillWaits`). As a result, a descriptor that polls writable can still block a one-byte
  write (`PipeTheorems.PollAndWrite`), and poll never reports that the other side is gone
  (`PipeTheorems.PollAndRead`).
- The rollback of `pipe2` closes by number and unwraps the result. It cannot fail if and only if no run of
  the others brings a thread that shares the table out of its call (`PipeCreation.RollbackSafeIff`). As a
  condition on the state: with every such thread outside a call or about to leave one, if and only if there
  are none (`RollbackSafeIffUnshared`).
- `dup2` onto a number outside the table panics (`FdTable.Table.Dup2`).
- Dropping a futex guard never removes a table entry, because the count it compares with one is at least
  two: the table grows with every address ever used (`FutexTheorems.TableNeverForgets`).
- A wake between the comparison of a futex word and the sleep is lost (`FutexRuns.WakeInTheGapIsLost`). A
  wake that nobody interrupts ends a thread's wait if and only if the thread sleeps already and is among the
  first `value` tasks of the queue for the address (`FutexRuns.WakeIsHeardIff`).
- getdents64 loses entries if and only if for some call the directory read fails at an entry, not past the
  end, before which there are entries that all fit the buffer (`Getdents.ExactlyOnce`, `LosesIff`).
  A name longer than 65508 bytes, or one with a zero byte, does not survive the record format
  (`Dirent.RoundTrip`).
- The terminator scan reads only checked pages if and only if the element's size equals its alignment and
  is at most a page (`UserPtr.SafeLayouts`); for any other layout its very first read can leave them
  (`UserPtr.UnsafeFirstRead`).
- Every name is resolved through the link table before a call acts on it. So unlinking a link takes its
  entry away if and only if it points to itself and is not a directory (`Hardlinks.UnlinkRemovesIff`), and
  linking makes the new name stand for the target if and only if it was no link before, or one to itself or
  to that target (`Hardlinks.LinkTakesEffectIff`). The documentation of `create_link` says that a target that
  is not a file is refused; the code refuses every target whose name does not end in a slash, and the model
  follows the code.
- Buffered output loses bytes if and only if some write takes fewer than it is offered
  (`Stdio.NothingLostIff`): the length is cleared before it is compared.
- `%u` shows a negative `int` as a 64-bit number (`IntText.UnsignedIsWide`). Numbers and unknown conversions
  go to standard output whatever file was named: nothing strays there if and only if the format has neither
  (`Format.NothingStraysIff`).
- An interval timer never runs out (`TimeStat.TimerNeverExpires`). User and system time add up to the time
  passed if and only if what is charged on the way to user mode equals what is skipped when a task is
  switched in (`TimeStat.Accounting`).
- `readv` and `writev` that fail midway have already moved the earlier segments, and report nothing of it
  (`Iovec.Readv`, `Iovec.Writev`).

## Model

| member | source | states |
|---|---|---|
| `PipeRing.SpaceIsConserved` | api/src/file/pipe.rs:57-74 | free and used space add up to the capacity; the status is Empty or Full exactly when the contents are |
| `PipeRing.WriteByteAppends` | api/src/file/pipe.rs:37-44 | in a ring that is not full, a written byte is appended to the contents, across the wrap-around |
| `PipeRing.ReadByteTakesFirst` | api/src/file/pipe.rs:46-54 | in a ring that is not empty, the byte read is the oldest, and the others stay in order |
| `PipeRing.UncheckedBytesCorrupt` | api/src/file/pipe.rs:37-54 | one byte too many leaves 1 byte, one too few leaves 255: the callers' checks are needed |
| `PipeRing.PipeRingBuffer.constructor` | api/src/file/pipe.rs:28-35 | a new ring is empty |
| `PipeRing.PipeRingBuffer.WriteByte` | api/src/file/pipe.rs:37-44 | in place: appends, and keeps the ring valid |
| `PipeRing.PipeRingBuffer.ReadByte` | api/src/file/pipe.rs:46-54 | in place: takes the first byte, and keeps the ring valid |
| `PipeRing.PipeRingBuffer.ReadSection` | api/src/file/pipe.rs:119-133 | the lock-held read moves the oldest bytes, as many as both sides allow, to the front of the buffer and touches no more of it |
| `PipeRing.PipeRingBuffer.WriteSection` | api/src/file/pipe.rs:151-169 | the lock-held write appends the next bytes, as many as fit, and returns from inside the pass exactly if room is left over |
| `PipeRing.PutAllAppends` | api/src/file/pipe.rs:162-168 | writing bytes that fit one by one appends them all |
| `PipeRing.DropBytesTakesPrefix` | api/src/file/pipe.rs:130-132 | reading n bytes one by one takes the first n |
| `FdTable.Table.Add` | api/src/file/mod.rs:147-149 | a file goes to a free slot and nothing else changes; refused exactly if the table is full |
| `FdTable.Table.Close` | api/src/file/mod.rs:152-159 | empties exactly the slot named and hands back what was in it; bad numbers change nothing |
| `FdTable.Table.Dup2` | api/src/imp/fs/fd_ops.rs:129-145 | on success both numbers name the same file and every other number what it did; a bad old number changes nothing; it panics exactly if the old number is good and the new one outside the table |
| `FdTable.Table.CopyInner` | api/src/file/mod.rs:119-126 | a separate table with the same contents |
| `FdTable.Table.Clear` | api/src/file/mod.rs:128-134 | every slot is empty afterwards |
| `PipeCounts.Pipe2Counts` | api/src/file/pipe.rs:83-94 | making a pipe keeps every count exact: one reference to each end, held by the call, and two to the buffer |
| `PipeFlow.ClosedMeansAlone` | api/src/file/pipe.rs:104-106 | for the holder of one end, a buffer count of one means exactly that the other end is referenced by nothing |
| `PipeFlow.EndIsUsable` | api/src/file/pipe.rs:77-80 | a call in flight holds a live end of a pipe with a live, valid buffer |
| `PipeFlow.StepKeepsInv` | api/src/file/pipe.rs:110-170 | every step of every thread keeps the system's invariant: exact counts, streams, merges, reports |
| `PipeFlow.RunKeepsInv` | api/src/file/pipe.rs:110-170 | so does every run |
| `PipeTheorems.StreamIsConserved` | api/src/file/pipe.rs:110-170 | in every reachable state the bytes accepted are the bytes delivered followed by the ring's contents, and the buffer's count is the number of live ends |
| `PipeTheorems.StreamIsMerge` | api/src/file/pipe.rs:137-170 | the stream merges, in order, the prefixes that the write calls have placed so far |
| `PipeTheorems.WriteReportsPlaced` | api/src/file/pipe.rs:148-170 | a write that returned reports what it placed, and less than asked only if nothing refers to the read end |
| `PipeTheorems.CallsCanProceed` | api/src/file/pipe.rs:118-170 | no call ever meets a freed file or buffer |
| `PipeTheorems.DeadIsUnreferenced` | api/src/file/mod.rs:113-159 | a file is gone exactly if no slot of any table and no call in flight refers to it |
| `PipeTheorems.RunEvolves` | api/src/file/pipe.rs:110-170 | over every run a file that is gone stays gone, and a stream without its write end never grows |
| `PipeTheorems.EndOfFile` | api/src/file/pipe.rs:110-124 | a read for at least one byte returns 0 exactly if the ring is empty and nothing refers to the write end; then all bytes have been delivered and no later run can add one |
| `PipeTheorems.ReadOutcome` | api/src/file/pipe.rs:118-134 | one pass of the read loop: the oldest bytes, end of file, or no change |
| `PipeTheorems.WriteOutcome` | api/src/file/pipe.rs:150-169 | one pass of the write loop returns exactly if room is left over, or the ring is full and no reader remains |
| `PipeTheorems.ExactFillWaits` | api/src/file/pipe.rs:150-169 | with a reader alive, a write returns by itself if and only if its bytes are fewer than the room; otherwise it stays in its loop however often it runs |
| `PipeTheorems.PollAndRead` | api/src/file/pipe.rs:183-189 | a read returns at once exactly if poll says readable or the writers are gone |
| `PipeTheorems.PollAndWrite` | api/src/file/pipe.rs:183-189 | with a reader alive, a one-byte write returns at once exactly if poll says writable and not exactly one byte is free |
| `PipeOrder.FinishedPlacesNoMore` | api/src/file/pipe.rs:137-170 | nothing that happens later adds to what a returned write placed |
| `PipeOrder.WritesKeepTheirOrder` | api/src/file/pipe.rs:137-170 | if one write returned before another began, all its bytes come before all of the other's, for every future |
| `PipeTrace.ReadsMakeTheStream` | api/src/file/pipe.rs:118-134 | over every run the chunks that reads on a pipe return, in order, are what is delivered, and nothing else is |
| `PipeTrace.SequentialWritesJoin` | api/src/file/pipe.rs:137-170 | if every write on a pipe begins after those before it have finished, the stream is what the calls placed, call after call |
| `PipeTrace.SequentialFromStart` | api/src/file/pipe.rs:83-170 | so from the start of the system, for every pipe made on the way |
| `PipeTrace.TraceOfRun` | api/src/file/pipe.rs:110-170 | every run has its sequence of states, so what holds of these holds of runs |
| `PipeCalls.WriteCallAppends` | api/src/file/pipe.rs:137-170 | a whole write call, others doing anything but writing there, appends exactly the bytes it reports, and nothing if it fails |
| `PipeCalls.ReadCallTakes` | api/src/file/pipe.rs:110-135 | a whole read call, others doing anything but reading there, takes exactly the bytes it returns |
| `PipeSyscalls.ReadEnterOutcome` | api/src/file/pipe.rs:110-117 | entering a read: EBADF for a number that names nothing, EPERM on a write end, no bytes if none are wanted, else the loop; nothing else changes |
| `PipeSyscalls.WriteEnterOutcome` | api/src/file/pipe.rs:137-140 | entering a write: EBADF for a number that names nothing, EPERM on a read end, else the check |
| `PipeSyscalls.WriteCheckOutcome` | api/src/file/pipe.rs:141-149 | EPIPE if and only if nothing refers to the read end; else no bytes give 0, and others begin a write of exactly that data |
| `PipeSyscalls.SmallWriteReturns` | api/src/file/pipe.rs:137-170 | an undisturbed write with a reader and more room than bytes returns their number, and they are at the end of the ring |
| `PipeSyscalls.BrokenWriteReturns` | api/src/file/pipe.rs:141-143 | without a reader the same call returns EPIPE, whatever it was given, and changes nothing |
| `PipeSyscalls.ReadReturns` | api/src/file/pipe.rs:110-135 | an undisturbed read of a ring that is not empty returns its oldest bytes and leaves the others |
| `PipeSyscalls.EmptyReadReturns` | api/src/file/pipe.rs:121-124 | with an empty ring and no reference to the write end it returns no bytes and changes nothing |
| `PipeSyscalls.PollSays` | api/src/file/pipe.rs:183-189 | readable: a read end with bytes waiting; writable: a write end with room |
| `PipeDescriptors.ForkGivesAll` | api/src/file/mod.rs:119-126 | after fork the child's numbers name what the parent's do, in a table of its own; nobody else's numbers change |
| `PipeDescriptors.ForkedReferenceLasts` | api/src/imp/task/clone.rs:178-186 | a file the parent named at the fork stays referenced while the child does nothing, whatever all others do |
| `PipeDescriptors.ForkedWriterHoldsOff` | api/src/file/pipe.rs:121-124 | so a reader of that pipe sees no end of file meanwhile, even if every other writer closes |
| `PipeDescriptors.SpawnShares` | api/src/imp/task/clone.rs:178-186 | a thread made with the table shared names, at any later time, what its maker names |
| `PipeDescriptors.TableIsForever` | api/src/imp/task/clone.rs:178-186 | over every run a thread keeps its table |
| `PipeDescriptors.ExitEmpties` | api/src/file/mod.rs:128-134 | after exit no number of that table names anything, other tables stay, and a file is left exactly if something else refers to it |
| `PipeDescriptors.CloseOutcome` | api/src/file/mod.rs:152-159 | the number names nothing afterwards and every other what it did; EBADF exactly if it named nothing; a file is left exactly if referenced |
| `PipeDescriptors.DupReturns` | api/src/imp/fs/fd_ops.rs:118-122 | dup returns a number that was free, which then names what the old one does |
| `PipeDescriptors.DupFails` | api/src/imp/fs/fd_ops.rs:118-122 | EBADF for a number that names nothing, EMFILE for a full table; files and tables as before |
| `PipeDescriptors.Dup2Outcome` | api/src/imp/fs/fd_ops.rs:129-145 | dup2 returns the new number, which names what the old one did; EBADF, with no change, exactly if that is nothing; a file is left exactly if referenced |
| `PipeDescriptors.Pipe2Returns` | api/src/imp/fs/pipe.rs:10-28 | undisturbed pipe2 returns two free numbers, for the read end and the write end of a new, empty pipe, in this order |
| `PipeDescriptors.FreshPipeWorks` | api/src/imp/fs/pipe.rs:10-28 | pipe2, then a write of fewer than 256 bytes to the second number, then a read of the first: the same bytes come back |
| `PipeDescriptors.Pipe2Full` | api/src/imp/fs/pipe.rs:17-18 | with no number free it fails with EMFILE and leaves tables and files as they were |
| `PipeDescriptors.EveryCallCanBegin` | api/src/imp/fs/fd_ops.rs:118-145 | outside of a call every call can begin, but dup2 exactly if it does not panic |
| `PipeDescriptors.IoCanBegin` | api/src/file/mod.rs:138-144 | reading and writing can begin on every number that names a pipe or nothing |
| `PipeVectors.WritevOnPipe` | api/src/imp/fs/io.rs:71-100 | writev over write calls on a pipe grows the stream by exactly what it passed on, on success the first bytes of the segments |
| `PipeVectors.ReadvOnPipe` | api/src/imp/fs/io.rs:26-55 | readv over read calls on a pipe takes exactly the chunks, on success the first bytes of the buffers |
| `PipeVectors.UnbrokenStream` | api/src/imp/fs/io.rs:26-100 | one writer and one reader: the ring's bytes before and all that was passed on are all that was taken and the ring's bytes after |
| `PipeCreation.RefusedPipe2LeavesNothing` | api/src/imp/fs/pipe.rs:17-21 | with one free slot, undisturbed pipe2 fails with EMFILE and leaves tables, files and buffers as they were |
| `PipeCreation.UnsharedTableIsStable` | api/src/imp/task/clone.rs:178-186 | a table that one thread uses is left alone by every run of the others |
| `PipeCreation.Pipe2KeepsItsEnds` | api/src/imp/fs/pipe.rs:17-21 | with its table unshared, pipe2 has its own two ends at every stage whatever the others do: the rollback closes this pipe's read end, and the numbers returned name its ends |
| `PipeCreation.RollbackRace` | api/src/imp/fs/pipe.rs:19-21 | with a shared table, a close in between leaves the rollback nothing to close |
| `PipeCreation.RollbackSafeIff` | api/src/imp/fs/pipe.rs:19-21 | the rollback works after every run of the others if and only if none of these brings a sharing thread out of its call |
| `PipeCreation.RollbackSafeIffUnshared` | api/src/imp/fs/pipe.rs:19-21 | as a condition on the state: with every sharing thread outside a call or at most one step from its end, if and only if there are none |
| `FutexInvariant.DropRemovesNothing` | core/src/futex.rs:52-60 | dropping a guard never removes an entry |
| `FutexInvariant.GuardIsLive` | core/src/futex.rs:41-44 | a guard's queue is alive and has at least two references |
| `FutexInvariant.StepKeepsInv` | api/src/imp/futex.rs:27-80 | every step keeps counts exact, guards in agreement with the table, and sleepers in the right queue, once |
| `FutexInvariant.RunKeepsInv` | api/src/imp/futex.rs:27-80 | so does every run |
| `FutexTheorems.SleeperIsFindable` | api/src/imp/futex.rs:28-41 | in every reachable state a sleeper stands exactly once in the queue the table gives for its address, and in no other |
| `FutexTheorems.GuardsAgree` | core/src/futex.rs:18-37 | all guards for an address refer to the one live queue that a lookup would give |
| `FutexTheorems.CallsCanProceed` | api/src/imp/futex.rs:28-78 | no call in flight ever meets a freed queue |
| `FutexTheorems.TableNeverForgets` | core/src/futex.rs:52-60 | after every run the table has exactly the addresses ever waited on or requeued to, each with its first queue |
| `FutexTheorems.WaitEndsOnlyByWake` | api/src/imp/futex.rs:34-40 | a sleeper leaves its wait only by its own timeout or as the front of a queue being woken |
| `FutexTheorems.StepKeepsOrder` | api/src/imp/futex.rs:46-75 | sleepers that a step leaves in one queue keep their order, unless a queue is requeued onto itself |
| `FutexTheorems.QueueShape` | api/src/imp/futex.rs:46-75 | every step but a timeout drops a prefix of a queue or extends it at the back |
| `FutexTheorems.SelfRequeueRotates` | api/src/imp/futex.rs:62-75 | requeueing a queue onto itself rotates it |
| `FutexTheorems.ReportsAreWithinLimits` | api/src/imp/futex.rs:56-78 | in every interleaving a call wakes and moves no more than asked and moves none unless it woke them all |
| `FutexRuns.RequeueCall` | api/src/imp/futex.rs:65-77 | the requeue loop, when nobody interrupts it, wakes and moves what `SplitTasks` says and reports these tasks in order; every thread, queue and word afterwards is stated |
| `FutexTheorems.WordStableWithoutStores` | api/src/imp/futex.rs:29-31 | between the comparison and the sleep the word stays as compared if nobody stores to it |
| `FutexTheorems.SleepsOnExpectedValue` | api/src/imp/futex.rs:29-31 | a wait is refused exactly if the word differs; until somebody stores to it, the word stays as the waiter expected it |
| `FutexRuns.GapIsDeaf` | api/src/imp/futex.rs:29-37 | no run of other threads, wakes included, reaches a waiter between its comparison and its sleep |
| `FutexRuns.GapEndsInSleep` | api/src/imp/futex.rs:32-38 | from there its own next steps take it to sleep in the queue for its address, whatever the word holds |
| `FutexRuns.WakeReports` | api/src/imp/futex.rs:42-55 | a wake that nobody interrupts wakes the first `value` tasks of the queue for the address, nobody else, and reports them in order |
| `FutexRuns.WakeIsHeardIff` | api/src/imp/futex.rs:42-55 | for a thread that passed its comparison, such a wake changes its call if and only if it sleeps and is among those tasks |
| `FutexRuns.WakeInTheGapIsLost` | api/src/imp/futex.rs:29-37 | from any state: after a store and a wake in the gap the waiter sleeps all the same, on a word that has changed |
| `FutexSyscalls.CallReturns` | core/src/futex.rs:52-60 | however many guards a call holds, once they are dropped the caller has the result that was decided, and no sleeper has moved |
| `FutexSyscalls.WaitSleeps` | api/src/imp/futex.rs:28-41 | a wait that finds the word as expected puts the thread to sleep, last in line at its address, and moves nobody else |
| `FutexSyscalls.TimeoutLeaves` | api/src/imp/futex.rs:34-36 | a timeout takes the thread, and nobody else, out of its line |
| `FutexSyscalls.TimeoutIff` | api/src/imp/futex.rs:33-39 | a sleeper that was not requeued can time out if and only if it gave a timeout |
| `FutexSyscalls.WakeReturns` | api/src/imp/futex.rs:42-55 | a whole wake call: its result is the first `value` tasks at the address, or as many as there are; just these are awake and out of line |
| `FutexSyscalls.ExitWakeReturns` | api/src/imp/task/exit.rs:20-32 | thread exit leaves 0 in the word and wakes the longest-waiting task at its address, if there is one, and nobody else |
| `FutexSyscalls.RequeueCheckOutcome` | api/src/imp/futex.rs:57-59 | a requeue is refused if and only if a comparison was asked for and the word differs; else it begins with its own addresses and numbers |
| `FutexSyscalls.RequeueReturns` | api/src/imp/futex.rs:56-78 | a whole requeue call from an idle thread: unless refused, it wakes and moves the tasks at the first address as its two numbers say, the moved ones stand last in line at the second, and its result is these tasks |
| `FutexSyscalls.NumbersReported` | api/src/imp/futex.rs:54-77 | the number returned counts the tasks woken, and for a requeue those moved as well |
| `FutexSyscalls.EveryCallCanBegin` | api/src/imp/futex.rs:27-80 | outside of a call every call can begin |
| `FutexSyscalls.SpawnJoins` | api/src/imp/task/clone.rs:130-139 | a new thread is outside of any call, on the same words and queues |
| `FutexCalls.FutexTable.GetOrInsert` | core/src/futex.rs:28-37 | the queue that is there, or a new empty one; other entries stay |
| `FutexCalls.NotifyUpTo` | api/src/imp/futex.rs:46-51 | wakes the longest-waiting tasks in order, as many as asked for and present |
| `FutexCalls.FutexWake` | api/src/imp/futex.rs:42-55 | the same through the table: woken and remaining are the original queue, and other queues are untouched |
| `FutexCalls.RequeueTasks` | api/src/imp/futex.rs:62-77 | woken, moved and remaining tasks are the original queue split in order, as `SplitTasks` says for the system too; the result counts both |
| `Dirent.RecLen` | api/src/imp/fs/ctl.rs:98-102 | the record length is the smallest aligned one that covers header, name and terminator, and it covers the fixed struct |
| `Dirent.RoundTrip` | api/src/imp/fs/ctl.rs:97-125 | walking the records gives back the entries written if and only if every name is free of zero bytes and at most 65508 bytes long |
| `Dirent.DirBuffer.WriteEntry` | api/src/imp/fs/ctl.rs:97-125 | appends a well-formed record exactly if it fits, and touches no other byte |
| `Dirent.AppendRecord` | api/src/imp/fs/ctl.rs:107-121 | the raw stores make a record of the entry |
| `Dirent.StoreRecord` | api/src/imp/fs/ctl.rs:108-120 | struct, name and terminator stored over each other leave header, name and terminator |
| `Getdents.CallConserves` | api/src/imp/fs/ctl.rs:141-167 | what a call wrote, then what it leaves pending, is what was pending; an EINVAL call wrote nothing |
| `Getdents.ZeroMeansEnd` | api/src/imp/fs/ctl.rs:164-167 | 0 is returned only, and unless reading fails always, when nothing is pending |
| `Getdents.CallWritesLongest` | api/src/imp/fs/ctl.rs:141-167 | with reads that do not fail a call writes as many pending entries as fit, from the first on, and returns their size; EINVAL if and only if there are entries and not even the first fits |
| `Getdents.CallUnlessFailing` | api/src/imp/fs/ctl.rs:149-162 | with a read that fails after k entries, the call fails if and only if it gets that far, having written just what came before; otherwise it is as without the failure |
| `Getdents.LosesIff` | api/src/imp/fs/ctl.rs:149-162 | a call loses entries if and only if reading fails at an entry, not past the end, before which there are entries that all fit |
| `Getdents.ExactlyOnce` | api/src/imp/fs/ctl.rs:141-167 | over any calls with any buffers, entries delivered and pending are the listing, each once and in order, if and only if no request is of that kind for the directory as it finds it |
| `Getdents.RoomyCallsProgress` | api/src/imp/fs/ctl.rs:150-162 | with room for any one entry a call ends the listing or delivers something |
| `Getdents.RoomyCallsFinish` | api/src/imp/fs/ctl.rs:150-162 | such calls deliver the whole listing in at most as many calls as it has entries |
| `Getdents.Directory.FillBuffer` | api/src/imp/fs/ctl.rs:150-162 | the loop on the buffer does what the value-level loop does |
| `Getdents.Directory.Getdents` | api/src/imp/fs/ctl.rs:128-168 | the call on a byte array: its status, its new state, and records that decode to the entries delivered |
| `UserPtr.CheckPages` | api/src/ptr.rs:53-71 | the loop ahead of a read checks every page up to the element's, and stops exactly there or at the first bad one |
| `UserPtr.SafeLayouts` | api/src/ptr.rs:36-79 | every element the scan reads lies in checked pages, for every start, if and only if size equals alignment and is at most a page |
| `UserPtr.UnsafeFirstRead` | api/src/ptr.rs:36-79 | for any other layout there is a start and a memory where the checks for the first element succeed and its read leaves them |
| `UserPtr.CheckNullTerminated` | api/src/ptr.rs:32-84 | ends; reads only checked pages; finds the first zero element, or faults exactly for a reason: alignment, or an inaccessible page with no zero before it |
| `Hardlinks.DropLink` | api/src/path.rs:275-290 | the decrement never underflows and never meets an unlisted target; the file goes with the last link |
| `Hardlinks.ApplyKeepsConsistent` | api/src/path.rs:253-270 | every update and removal keeps each count equal to the number of links to its target |
| `Hardlinks.RemovalMeansLastLink` | api/src/path.rs:275-290 | a step tries to remove a target exactly if it takes its last link away, and then once |
| `Hardlinks.CountsFollowLinks` | api/src/path.rs:253-290 | after any operations the counts are right and removals match last links lost |
| `Hardlinks.LinkTakesEffectIff` | api/src/path.rs:36-37 | after linkat the new name stands for the target if and only if it was no link before, or one to itself or to that target; else another entry changes |
| `Hardlinks.UnlinkRemovesIff` | api/src/imp/fs/ctl.rs:222-235 | unlinking a link takes its entry away if and only if it points to itself and is no directory; otherwise the call acts on the target |
| `Hardlinks.LinksAreForever` | api/src/imp/fs/ctl.rs:193-235 | after any link and unlink calls counts are right and targets end in a slash; where a slash means a directory no link is ever taken away |
| `Hardlinks.LinkThenUnlink` | api/src/imp/fs/ctl.rs:193-235 | linking under a fresh name and unlinking it never restores the state: the entry stays and the second call acts on the target |
| `Hardlinks.UnlinkPlainFile` | api/src/imp/fs/ctl.rs:222-235 | unlinking a name that is no link tries to remove exactly that file if it is no directory, and changes no link and no count |
| `Hardlinks.LinkChangesOne` | api/src/imp/fs/ctl.rs:193-200 | a refused link changes nothing, and one that is made changes the entry of one name |
| `Hardlinks.CallRemovals` | api/src/imp/fs/ctl.rs:193-235 | a call tries to remove a file once for its last link taken away, once for being unlinked as a file, and not otherwise |
| `Hardlinks.RemovalsAreAccountedFor` | api/src/imp/fs/ctl.rs:193-235 | over any calls a file is tried for removal exactly as often as these two happen to it |
| `Hardlinks.DirNames` | api/src/path.rs:86-88 | a name is that of a directory exactly if it ends in a slash |
| `Hardlinks.HardlinkManager.DecreaseRefCount` | api/src/path.rs:275-290 | in place, for every path; success exactly if the path is listed and a needed removal succeeds |
| `Hardlinks.HardlinkManager.AtomicLinkUpdate` | api/src/path.rs:253-262 | in place, keeping the counts right |
| `Hardlinks.HardlinkManager.AtomicLinkRemove` | api/src/path.rs:266-270 | in place, keeping the counts right, with the target as result |
| `Hardlinks.HardlinkManager.CreateLink` | api/src/path.rs:204-215 | the two refusals as coded, and otherwise an update |
| `Hardlinks.HardlinkManager.RemoveLink` | api/src/path.rs:221-228 | removes the link, or tries the file when there is no link |
| `Hardlinks.HardlinkManager.LinkAt` | api/src/imp/fs/ctl.rs:193-200 | in place: both names resolved; the two refusals, each exactly in its case; otherwise the new name has an entry for the target |
| `Hardlinks.HardlinkManager.UnlinkAt` | api/src/imp/fs/ctl.rs:222-237 | in place: the name resolved; the result in each case; on success the link is gone, or the file was tried for removal, and only it |
| `IntText.FitsBuffer` | apps/nimbos/c/lib/stdio.c:62-85 | digits and sign of every 64-bit number, in base 10 and 16, fit the 20-byte buffer |
| `IntText.BufferIsTight` | apps/nimbos/c/lib/stdio.c:64-65 | and some numbers need all of it |
| `IntText.FillDigits` | apps/nimbos/c/lib/stdio.c:74-79 | the loop leaves the digits at the end of the buffer, without leaving it |
| `IntText.PrintInt` | apps/nimbos/c/lib/stdio.c:62-85 | the text is the digits of the number, with its sign, for every 64-bit value |
| `IntText.Atoi` | apps/nimbos/c/lib/string.c:27-40 | the number the text reads as; no step overflows if and only if that number is in the range of `int` |
| `IntText.RoundTrip` | apps/nimbos/c/lib/string.c:27-40 | reading back what was printed in signed decimal gives the number, for every 64-bit value |
| `IntText.SignedDecimal` | apps/nimbos/c/lib/stdio.c:62-85 | signed decimal text is an optional minus sign and digits without a needless zero, and reads as the value |
| `IntText.UnsignedDecimal` | apps/nimbos/c/lib/stdio.c:62-85 | unsigned decimal text is digits without a needless zero, for the value, or for it plus 2^64 if negative |
| `IntText.SignedHex` | apps/nimbos/c/lib/stdio.c:62-85 | hexadecimal text is an optional minus sign and the magnitude |
| `IntText.HexOfDigits` | apps/nimbos/c/lib/stdio.c:74-79 | digits printed in base 16 read back as the number, for every number |
| `IntText.NoLeadingZero` | apps/nimbos/c/lib/stdio.c:74-79 | no leading zero except for zero itself |
| `IntText.Blanks` | apps/nimbos/c/lib/string.c:17-20 | exactly the six white-space characters of the C locale are blanks |
| `IntText.ReadsForm` | apps/nimbos/c/lib/string.c:27-40 | blanks, at most one sign, digits, anything else: the digits with the sign are what `atoi` reads |
| `IntText.EveryStringHasForm` | apps/nimbos/c/lib/string.c:27-40 | and every string is of that form |
| `IntText.UnsignedIsWide` | apps/nimbos/c/lib/stdio.c:151-153 | unsigned printing of an `int` shows its 32-bit value if and only if it is not negative |
| `IntText.PrintPtr` | apps/nimbos/c/lib/stdio.c:87-97 | shifting digits out at the top prints the sixteen hexadecimal digits |
| `IntText.HexRoundTrip` | apps/nimbos/c/lib/stdio.c:87-97 | such digits can be read back |
| `Stdio.EmitAccounts` | apps/nimbos/c/lib/stdio.c:41-60 | `out` accounts for every byte: sent, buffered or lost; the buffer stays short of 256 bytes and free of newlines |
| `Stdio.OutIsExplained` | apps/nimbos/c/lib/stdio.c:41-60 | `out` writes only at a newline or a full buffer; old buffer and text are what it wrote, the new buffer and what a failure dropped; its result is that failure or the sum of the answers |
| `Stdio.SyncIsExplained` | apps/nimbos/c/lib/stdio.c:32-37 | `fflush` offers the whole buffer in one write, or nothing if it is empty |
| `Stdio.Stdio.StoreByte` | apps/nimbos/c/lib/stdio.c:48 | one byte goes to the end of the buffer |
| `Stdio.NothingLostIff` | apps/nimbos/c/lib/stdio.c:13-60 | after any calls, sent and buffered bytes are all bytes given, in order, if and only if every write took all it was offered |
| `Stdio.Stdio.WriteBuffer` | apps/nimbos/c/lib/stdio.c:18-24 | offers the buffer to the kernel and keeps it; an empty one is not offered |
| `Stdio.MoreCallsAccount` | apps/nimbos/c/lib/stdio.c:32-60 | whatever calls follow, every byte they were given for standard output is sent, buffered or lost, and all are there if none was lost |
| `Stdio.Stdio.Out` | apps/nimbos/c/lib/stdio.c:41-60 | in place: buffer, bytes sent and raw writes stay what the calls so far make of them, with the call's result |
| `Stdio.Stdio.PutAll` | apps/nimbos/c/lib/stdio.c:45-59 | the byte loop does what the value-level loop does |
| `Stdio.Stdio.Fflush` | apps/nimbos/c/lib/stdio.c:32-37 | sends what is buffered and empties the buffer; only a failure is reported |
| `Format.Memchr` | apps/nimbos/c/lib/string.c:42-48 | the first occurrence in memory within the limit, or none; nothing after it is read |
| `Format.Strnlen` | apps/nimbos/c/lib/string.c:11-15 | the length, cut at the limit |
| `Format.ParseLiterals` | apps/nimbos/c/lib/stdio.c:140-141 | a run without percent signs stands for itself |
| `Format.ParsePercents` | apps/nimbos/c/lib/stdio.c:142-143 | a run of doubled percent signs stands for half as many |
| `Format.FindRun` | apps/nimbos/c/lib/stdio.c:140-143 | the two scanning loops find a maximal run of literals and doubled percent signs |
| `Format.EmitRun` | apps/nimbos/c/lib/stdio.c:140-145 | the run is printed by exactly one call of `out` |
| `Format.ConvertLong` | apps/nimbos/c/lib/stdio.c:169-185 | exactly the calls of `out` that the `%l` form stands for, the truncated one at the end of the format included |
| `Format.CallsText` | apps/nimbos/c/lib/stdio.c:150-191 | the calls made for a conversion carry its text to its destination and nothing elsewhere |
| `Format.Convert` | apps/nimbos/c/lib/stdio.c:150-192 | exactly the calls of `out` for one conversion, its argument, and where scanning goes on |
| `Format.Round` | apps/nimbos/c/lib/stdio.c:137-193 | a round of the loop advances, never past the terminator, and its calls print what it passes over |
| `Format.Fprintf` | apps/nimbos/c/lib/stdio.c:130-195 | for every format and matching arguments: of the text for standard output every byte is sent, buffered or lost, and all is there in order if every write took its bytes; a named file is offered its part and receives it if it takes all; no other descriptor is written |
| `FormatMeaning.AtEnd` | apps/nimbos/c/lib/stdio.c:146-149 | at the end of a format, or at a lone % there, nothing more is printed |
| `FormatMeaning.AtLiteral` | apps/nimbos/c/lib/stdio.c:140-145 | a character other than % stands for itself and %% for %, in the file named |
| `FormatMeaning.AtNumber` | apps/nimbos/c/lib/stdio.c:151-159 | %d, %u, %x print on standard output a decimal or hexadecimal number that reads back as the `int` given |
| `FormatMeaning.AtLong` | apps/nimbos/c/lib/stdio.c:169-181 | %ld, %lu, %lx do so for a `long` |
| `FormatMeaning.AtPointer` | apps/nimbos/c/lib/stdio.c:160-162 | %p prints 0x and sixteen hexadecimal digits whose value is the pointer |
| `FormatMeaning.AtString` | apps/nimbos/c/lib/stdio.c:163-168 | %s prints, in the file named, the string cut at 200 characters, or (null) |
| `FormatMeaning.AtUnknown` | apps/nimbos/c/lib/stdio.c:186-190 | any other conversion is printed as it stands and takes no argument |
| `FormatMeaning.AtUnknownLong` | apps/nimbos/c/lib/stdio.c:182-185 | so is an unknown one after %l |
| `FormatMeaning.AtBareLong` | apps/nimbos/c/lib/stdio.c:182-185 | and %l at the end of a format |
| `FormatMeaning.DecimalAlone` | apps/nimbos/c/lib/stdio.c:130-195 | the format %d with one `int` prints text that reads as it |
| `FormatMeaning.HexAlone` | apps/nimbos/c/lib/stdio.c:130-195 | the format %x prints its hexadecimal form, with a minus sign if negative |
| `Format.NothingStraysIff` | apps/nimbos/c/lib/stdio.c:150-191 | with another file named, standard output gets nothing if and only if the format has neither a number nor an unknown conversion |
| `Memset.Fill` | apps/nimbos/c/lib/string.c:50-90 | sets all `n` bytes and no other, for every `n` and every alignment of the start |
| `Memset.FillMiddle` | apps/nimbos/c/lib/string.c:81-87 | the loop over the aligned, truncated middle completes the fill |
| `Iovec.Writev` | api/src/imp/fs/io.rs:71-100 | success means exactly that many first bytes of the segments were passed on, and fewer only after a short write; failure means all earlier segments were; what was taken of each segment is its answer |
| `Iovec.Readv` | api/src/imp/fs/io.rs:26-55 | the buffers, as one piece of memory, hold what the reads took, in order and without gaps, over what was there; success reports its length |
| `Iovec.StreamHeld` | api/src/imp/fs/io.rs:33-52 | chunks that fill their buffers, but for the last, make one stream |
| `TimeStat.OrderedRuns` | core/src/time.rs:66-103 | with timestamps that do not go back no subtraction underflows |
| `TimeStat.Charges` | core/src/time.rs:66-103 | user time grows by the spans that end in a kernel entry, system time by those that end in a return to user mode or a switch away, and by nothing else |
| `TimeStat.Accounting` | core/src/time.rs:66-103 | time charged plus time passed over at a switch-in is time passed plus time charged on the way to user mode; charged equals passed if and only if the other two agree |
| `TimeStat.TimerNeverExpires` | core/src/time.rs:117-124 | an armed timer never rises and never reaches zero, over any run without re-arming |
| `TimeStat.TimerCountsDown` | core/src/time.rs:66-124 | until it ought to run out, a timer counts down by exactly the spans its type covers: all, user time, or user and system time |
| `TimeStat.ArmingSets` | core/src/time.rs:105-115 | arming sets type, interval and time left as given and no clock; 0, 1, 2 are the three types and every other number is none |
| `TimeStat.ResetStartsAfresh` | core/src/time.rs:59-64 | after a reset the times are sums of spans from that moment on, and the timer is as it was |
| `TimeStat.UserStamp` | core/src/time.rs:76-84 | the user timestamp is the time of the last return to user mode |
| `TimeStat.TimeStat.UpdateTimer` | core/src/time.rs:117-124 | in place: takes the time off what is left only if something remains |
| `TimeStat.TimeStat.ResetAt` | core/src/time.rs:59-64 | in place: both times are 0, the mark is now, the timer as before |
| `TimeStat.TimeStat.SwitchIntoKernelMode` | core/src/time.rs:66-74 | in place: the step of the value model |
| `TimeStat.TimeStat.SwitchIntoUserMode` | core/src/time.rs:76-84 | in place: the step of the value model |
| `TimeStat.TimeStat.SwitchFromOldTask` | core/src/time.rs:86-94 | in place: the step of the value model |
| `TimeStat.TimeStat.SwitchToNewTask` | core/src/time.rs:96-103 | in place: the step of the value model |
| `TimeStat.TimeStat.SetTimerTo` | core/src/time.rs:105-115 | in place: interval and time left as given; true exactly for a number that is 0, 1 or 2 after its cut to 32 bits |
| `Cyclictest.TsNorm` | apps/nimbos/c/src/cyclictest.c:68-74 | the same instant, normalised |
| `Cyclictest.TsInc` | apps/nimbos/c/src/cyclictest.c:76-81 | the sum of two instants, normalised |
| `Cyclictest.GreaterMeansLater` | apps/nimbos/c/src/cyclictest.c:91-94 | the comparison of fields compares instants |
| `Cyclictest.DeltaIsClose` | apps/nimbos/c/src/cyclictest.c:84-89 | the difference in microseconds is off by less than one, and never of the wrong sign |
| `Cyclictest.Advance` | apps/nimbos/c/src/cyclictest.c:142-144 | the catch-up loop ends at the first grid point after the old deadline that is not before now |
| `Cyclictest.TimerThread` | apps/nimbos/c/src/cyclictest.c:96-148 | every deadline follows so from the one before, and the statistics are those of each round's lateness |
| `Cyclictest.DeadlinesOnOneGrid` | apps/nimbos/c/src/cyclictest.c:107-145 | for all clock readings the deadlines rise strictly and lie on one grid |

## Left out

- FdTable.Table.Add: takes the lowest free slot; the slot allocator itself is not part of this model, and the system of pipes and tables lets `add` take any free slot.
- Format.Fprintf: arguments are taken to match the format, as the C language demands; the return values of `out` are dropped, as in the code.
- Iovec.Readv: buffers are values, so overlapping buffers are not captured; a failing read leaves its own buffer as it was.
- Iovec.Writev: the failure of the check of a segment's memory and of the write itself are one kind of answer.
- Cyclictest.TimerThread: the clock readings are a parameter; the relative mode and the final report are not modelled.
- UserPtr.CheckNullTerminated: is stated for the layouts that `SafeLayouts` allows; the access check and the memory are parameters.
- Futex timeouts: a timed wait that was requeued does not time out in the model; which queue it would leave is decided in code outside the repository.
- Futex liveness: nothing is claimed about a sleeper being woken; exit-wake stores and looks up in one step, and the two separate steps are possible as well.
- Dropping a file reference and the reference to its buffer, and dropping a futex guard and its reference to the queue, are one step each.
- Reads and writes on files that are not pipes, and non-blocking mode, are not steps of the pipe system.
- Internals of ArceOS (wait queues, address spaces, the object table, processes): a wait queue is taken to be first in, first out, and the object table to hold up to 1024 entries.
- 64-bit overflow of the time sums and of timestamps, and of positions in user buffers, is not modelled.
- The most negative `long long` is negated in two's complement in `printint`, which C leaves undefined.
- The padding bytes of a directory record are a parameter, since the code leaves them to chance.
- Path canonicalisation, what the file system holds and `check_region`: answers of outside code, taken as parameters or not modelled; `unlinkat` with the flag for directories goes straight to the file system.
- mmap, brk, ELF loading, execve, sockets, signals, stat calls, system call dispatch and the assembly stubs: thin wrappers, or behaviour that rests on code outside the repository.
- `puts`, `getchar`, `strlen`, `strcmp` and the other short string functions: easy members only.
