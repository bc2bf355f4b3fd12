# Verification model of the UNIX experiments

The repository is a collection of small C programs about UNIX system interfaces.
Ten of them hold an algorithm or a protocol that can be got wrong, and those are
modelled here in Dafny and proved. Every constant of the programs (queue capacity,
number of items or threads, payloads, vectors, buffer and pipe sizes) is a
parameter, so a theorem about a program holds for every choice of its constants.

The kernel and the C library are an environment that may do whatever their
documentation permits: short counts, interruptions, spurious wakeups, failures,
and any interleaving of threads and processes. Nothing was executed.

## How the programs are modelled

Concurrent programs are state machines: a `State`, the `Event`s that can happen
next (`Enabled`), and what each does (`Apply`). An event carries whatever the
environment decides, such as whether a call fails. A run is a sequence of enabled
events from `Init`. For each machine there is an inductive invariant `Inv`, a proof
that every step keeps it, a proof that something other than an outside event can
always happen until the program has ended (`NeverStuck`), and a measure `Work` that
every step consumes, outside events such as interruptions excepted; theorems about
all runs follow from these.

Sequential programs are methods over classes with the fields that the program
updates, specified by functions on values whose own properties are lemmas.

| module | experiment | main results |
|---|---|---|
| `Threads` | `07_threads` | mutual exclusion, FIFO order, no lost wakeup, no deadlock, termination, verified sum |
| `FileIo` | `01_file_io` | conservation of bytes through in-place vector updates, exactly which answers stop a transfer, round trip through two partitions |
| `ThreadSpecificData` | `24_thread_specific_data` | one key, no leak and no double free, exact destructor accounting, exactly when the key is deleted, success exactly when nothing failed |
| `FdPassing` | `09_fd_passing` | walk in bounds, descriptor conservation and when it holds, send and receive round trip |
| `FilesystemEvents` | `12_filesystem_events` | exact parser, independence of batching, exact verdict |
| `PosixAio` | `27_posix_aio` | the calls of every run, reap once, earliest error |
| `PortableSignals` | `23_portable_signals` | race-free wait, cleanup order, what is restored, success exactly when nothing failed |
| `ProcessControl` | `05_process_control` | descriptors of the child, capture of its output, when waiting can block for ever |
| `SparseFiles` | `20_sparse_files` | exact verdict on every conforming filesystem |
| `ExtendedAttributes` | `28_extended_attributes` | exact search of a name list |

`Bytes` holds what several of them share about bytes, integers and terminated text,
`Os` optional values, error numbers and interrupted calls.

## Properties that the programs do not have

Three properties one would expect hold only under a condition; the model keeps the
code as it is, gives an input for which the property fails, and proves exactly when
it holds.

- The receiver of `09_fd_passing` does not close the descriptors of a rights header
  whose data is not a whole number of `int`s (`RaggedMessageLeaks`). It accounts for
  every installed descriptor exactly once if and only if no header holds a whole
  descriptor and stray bytes behind it (`ReceiveDescriptor`, `ConservationIff`). The
  leaking input is one that the assumptions below allow. Linux does not produce it:
  it rebuilds every rights header it delivers with a whole number of `int`s. So the
  result is about what the code takes for granted, not about Linux.
- The parent of `05_process_control` stops reading when its buffer is full and waits
  for the child with the pipe still open: a run in which both wait for ever exists if
  and only if the output is longer than the buffer and the pipe together
  (`StuckIffOutputDoesNotFit`). The cleanup wait never blocks on a child that is
  still writing.
- In `23_portable_signals` the order of the cleanup, mask before action, is meant to
  keep the child's signal from the old action. Where the mask is about to be
  restored, a run in which the old action takes it exists if and only if the old mask
  lets `SIGUSR1` through and the child has still to send it
  (`OldActionReachableIff`). Such a child is unreaped, which means that both waits
  failed (`EveryRunIsSafe`). Over whole runs, failures included, the old action can
  take the signal if and only if `SIGUSR1` was not blocked at the start
  (`RunReachesOldIff`).

The test of `20_sparse_files`, taken alone, accepts answers whose first run does not
cover the written head; `TestCoversIff` says exactly when. On the answers of a
conforming filesystem this cannot happen (`CheckExtents`).

## Assumptions about the environment

- The control buffer of a received message is made by the kernel: the data of a
  rights header lies inside the buffer and descriptors are not negative
  (`FdPassing.KernelMade`). Nothing is assumed about other headers or lengths.
- The name field of an inotify record, if it has one, holds a NUL
  (`FilesystemEvents.NamesTerminated`).
- A transfer never reports more bytes than requested, and zero bytes are read only at
  the end of the file. `FileIo.Benign` lists the answers under which nothing fails.
- `pthread_cond_wait` releases the mutex and falls asleep in one step, wakes by a
  signal or spuriously, and reacquires the mutex before it returns.
- A failed `close` still gives up the descriptor, as on Linux. No process but the
  child sends `SIGUSR1`.
- Written bytes count as data for `SEEK_DATA`, and the file has a hole at its end.

## Model

| member | source | states |
|---|---|---|
| `Threads.InsertAppends` | experiments/07_threads/main.c:41-44 | the four statements of the producer append the value to the queue as read from the head around the ring, and the tail stays behind the last element |
| `Threads.RemoveDropsHead` | experiments/07_threads/main.c:64-68 | the five statements of the consumer drop the first element |
| `Threads.InsertKeepsFifo` | experiments/07_threads/main.c:41-44 | inserting the next number keeps taken values plus contents equal to 1, 2, ..., produced |
| `Threads.RemoveKeepsFifo` | experiments/07_threads/main.c:64-68 | the value taken is the next number, and the same equation is kept with it moved to the taken values |
| `Threads.SharedQueue.constructor` | experiments/07_threads/main.c:79-83 | the statically initialised queue is valid and empty for any capacity |
| `Threads.SharedQueue.Put` | experiments/07_threads/main.c:36-44 | with room in the queue, the in-place statements append the value to the queued ones, keep the queue valid, and have exactly the effect of the protocol's insertion |
| `Threads.SharedQueue.Take` | experiments/07_threads/main.c:59-68 | with something queued, the in-place statements return the first queued value and leave the others, keep the queue valid, and have exactly the effect of the protocol's removal |
| `Threads.PutIsAtomic` | experiments/07_threads/main.c:41-44 | the statements as separate steps of the protocol add up to one insertion |
| `Threads.TakeIsAtomic` | experiments/07_threads/main.c:64-68 | the statements as separate steps of the protocol add up to one removal |
| `Threads.ProducerKeepsInv` | experiments/07_threads/main.c:31-52 | every producer step keeps mutual exclusion, the FIFO equation, the counters and the absence of lost wakeups |
| `Threads.ConsumerKeepsInv` | experiments/07_threads/main.c:54-76 | every consumer step keeps them too |
| `Threads.StepKeepsInv` | experiments/07_threads/main.c:31-97 | so do the steps of main and spurious wakeups |
| `Threads.FinishedIsVerified` | experiments/07_threads/main.c:94-97 | once both threads have returned, 1..n were taken in order and main's four tests hold |
| `Threads.SumOneTo` | experiments/07_threads/main.c:94 | the sum of the values is n (n + 1) / 2, the expected one |
| `Threads.NeverStuck` | experiments/07_threads/main.c:34-92 | until main has exited, a step that is not a spurious wakeup can happen: no deadlock and no lost wakeup |
| `Threads.StepConsumesWork` | experiments/07_threads/main.c:34-92 | every step but a spurious wakeup decreases the work left |
| `Threads.EveryRunIsSafe` | experiments/07_threads/main.c:31-105 | in every reachable state the critical sections exclude each other, the queue is FIFO when the mutex is free, a sleeper has nothing to do unless its peer is about to signal, and not both sleep |
| `Threads.EveryRunFinishes` | experiments/07_threads/main.c:31-105 | a run with k spurious wakeups has at most 34 n + 41 + 3 k steps, and one that cannot go on has joined both threads and verified all n values in order |
| `FileIo.OverlayAt` | experiments/01_file_io/main.c:29-48 | what a positioned write leaves at every offset: the data, the old bytes, or zeros in a gap |
| `FileIo.OverlayExtends` | experiments/01_file_io/main.c:29-48 | writing x and then y right behind it is writing x + y: what makes short writes add up |
| `FileIo.AdvanceDropsCells` | experiments/01_file_io/main.c:75-86 | advancing the vectors by k bytes, splitting one if need be, drops exactly the first k bytes they name |
| `FileIo.FillResumes` | experiments/01_file_io/main.c:54-91 | scattering in two goes is scattering at once |
| `FileIo.ReadAfterFill` | experiments/01_file_io/main.c:147-163 | gathering from disjoint buffers gives back what was scattered into them |
| `FileIo.PwriteAll` | experiments/01_file_io/main.c:29-48 | success has written everything, failure a proper prefix; it fails exactly at the first answer that is an error other than EINTR or a zero count, with that error or EIO |
| `FileIo.PreadFull` | experiments/01_file_io/main.c:10-27 | reads exactly what the file holds there up to the length, or fails after a proper prefix, exactly at the first answer that is an error other than EINTR, with that error; the rest of the buffer is unchanged |
| `FileIo.SkipEmpty` | experiments/01_file_io/main.c:55-60 | stepping over empty vectors skips no byte and stops at one with bytes left, or at the end |
| `FileIo.AdvanceVectors` | experiments/01_file_io/main.c:75-86 | the in-place loop leaves the advanced vectors, with a leftover only if more was reported than requested |
| `FileIo.TransferOnce` | experiments/01_file_io/main.c:62-67 | the system call is repeated through interruptions only; a hard error is returned with nothing moved, and a count moves a prefix of what the vectors name |
| `FileIo.TransferChunk` | experiments/01_file_io/main.c:62-90 | one turn makes progress, or fails at the answer that stops it, keeps the conservation invariant, and never reaches the leftover error |
| `FileIo.GatherConserves` | experiments/01_file_io/main.c:54-91 | at every loop head the bytes already written followed by what the vectors still name are the original bytes |
| `FileIo.ProgressMoves` | experiments/01_file_io/main.c:54-91 | that invariant composes over successive transfers, for writing and reading |
| `FileIo.TransferLoop` | experiments/01_file_io/main.c:52-92 | the outer loop keeps the conservation invariant; it succeeds with nothing left, having used only answers that do not stop it, and fails with something left at the first that does |
| `FileIo.TransferIovecs` | experiments/01_file_io/main.c:50-93 | success has moved every byte, failure a proper prefix, in either direction, and the offset has advanced by just that much; it fails exactly at the first hard error or zero count, with that error or EIO, or in reading with EIO at the end of the file |
| `FileIo.RoundTrip` | experiments/01_file_io/main.c:109-163 | writing one partition, patching, and reading into any other disjoint partition of the same length yields the patched bytes |
| `FileIo.WriteAndPatch` | experiments/01_file_io/main.c:109-122 | gathering into the empty file and patching leaves the spliced bytes and the offset at the end; only an error stops it |
| `FileIo.ReadBack` | experiments/01_file_io/main.c:124-141 | the offset is asked for before and after, and the whole file read by position in between; each failure is that of the lseek or the read answer that stopped it, and the contents never differ |
| `FileIo.ReadInto` | experiments/01_file_io/main.c:147-167 | scattering into disjoint buffers gives them the whole file; it fails exactly if an answer stops it, and the comparison never does |
| `FileIo.ReadTwice` | experiments/01_file_io/main.c:124-167 | both reads and the three calls of lseek, in order, up to the first failure, which the verdict names |
| `FileIo.CheckTransfers` | experiments/01_file_io/main.c:109-170 | for any vectors, patch and partition the verdict is the first answer or lseek that fails, and verification means that none did and the whole file was read back by position |
| `FileIo.Run` | experiments/01_file_io/main.c:95-182 | success exactly when everything verified, and the file was created, closed and unlinked; then file and buffers hold the spliced bytes; short counts and interruptions alone never stop it |
| `ThreadSpecificData.StepKeepsInv` | experiments/24_thread_specific_data/main.c:25-126 | every step of any thread, failing or not, keeps: one owner for each live block, one key, counters equal to the destructors that ran |
| `ThreadSpecificData.WorkerKeepsShared` | experiments/24_thread_specific_data/main.c:25-62 | a worker's step hands its block on (local, key, destructor) or frees it, never twice, and disturbs no other worker's |
| `ThreadSpecificData.JoinedAccounting` | experiments/24_thread_specific_data/main.c:25-33 | once all created threads are joined the heap is empty and the counters are those of the workers whose set succeeded |
| `ThreadSpecificData.VerifiedIffAllVerified` | experiments/24_thread_specific_data/main.c:101-112 | main's tests hold exactly when there was a worker and all of them verified |
| `ThreadSpecificData.StepTracksFailures` | experiments/24_thread_specific_data/main.c:41-126 | no failure of a call is ever forgotten, and none is invented |
| `ThreadSpecificData.NeverStuck` | experiments/24_thread_specific_data/main.c:42-123 | until main has finished, a step that does not fail is enabled, even with a thread waiting in pthread_once |
| `ThreadSpecificData.EveryRunIsSafe` | experiments/24_thread_specific_data/main.c:18-126 | no unusable key or dead block is ever used, the key is created at most once, and deleted only when every thread and destructor is over |
| `ThreadSpecificData.KeyDeletedIff` | experiments/24_thread_specific_data/main.c:70-125 | at the end of every run, verified or not: all threads were created unless a creation failed, each was joined unless its join failed, and the key is deleted exactly when no join failed, it had been created, and its deletion did not fail |
| `ThreadSpecificData.SucceedsIffNothingFailed` | experiments/24_thread_specific_data/main.c:64-130 | every run ends within 15 n + 3 steps, in success exactly when n > 0 and no call failed; then the key is deleted and no block left |
| `FdPassing.NextHeader` | experiments/09_fd_passing/main.c:140-141 | the next header lies a whole header further on and inside the buffer: the walk ends and stays in bounds |
| `FdPassing.ParsePacked` | experiments/09_fd_passing/main.c:140-150 | a buffer of packed control messages of any levels, types and lengths is walked into exactly these messages, of which only those of level SOL_SOCKET and type SCM_RIGHTS carry descriptors |
| `FdPassing.TakeOne` | experiments/09_fd_passing/main.c:156-163 | the first descriptor is kept and any other closed at once |
| `FdPassing.TakeDescriptors` | experiments/09_fd_passing/main.c:155-164 | a header's descriptors are all counted and all but the first ever seen are closed, in order |
| `FdPassing.VisitHeader` | experiments/09_fd_passing/main.c:142-164 | other headers are ignored, short, empty or ragged ones mark the message malformed, the rest are taken |
| `FdPassing.WalkHeaders` | experiments/09_fd_passing/main.c:137-165 | the walk keeps the first descriptor of the well-formed headers, closes the others, counts all, and detects exactly the malformed messages |
| `FdPassing.SeenIsInstalledIff` | experiments/09_fd_passing/main.c:140-165 | the descriptors looked at are all those installed exactly when no header is ragged |
| `FdPassing.SeenIsAccounted` | experiments/09_fd_passing/main.c:155-185 | on every return path each descriptor looked at is closed once, but the returned one |
| `FdPassing.Recvmsg` | experiments/09_fd_passing/main.c:129-132 | the first answer that is not an interruption |
| `FdPassing.AcceptedIff` | experiments/09_fd_passing/main.c:145-175 | a message is acceptable exactly if one byte came, it is F, nothing was truncated, exactly one descriptor is installed, and every rights header has room for a whole positive number of them |
| `FdPassing.TakeMessage` | experiments/09_fd_passing/main.c:137-185 | which messages are accepted, and the sequence of closes on every path, including failing fcntl |
| `FdPassing.ReceiveDescriptor` | experiments/09_fd_passing/main.c:111-186 | with fcntl succeeding, a descriptor is returned, close-on-exec, if and only if one byte came, it is F, nothing was truncated, exactly one descriptor is installed, and every rights header has room for a whole positive number of them; otherwise EBADMSG; in every call each installed descriptor is closed or returned once if and only if no header is ragged |
| `FdPassing.ConservationIff` | experiments/09_fd_passing/main.c:137-185 | every installed descriptor is closed or returned exactly once if and only if no header is ragged; an accepted message had installed exactly one |
| `FdPassing.RaggedMessageLeaks` | experiments/09_fd_passing/main.c:150-154 | one stray byte behind the descriptor, and it is never closed |
| `FdPassing.OneRightsHeader` | experiments/09_fd_passing/main.c:140-161 | a buffer with one rights header of one descriptor parses to just that |
| `FdPassing.BuildControl` | experiments/09_fd_passing/main.c:81-96 | filling the zeroed buffer in place yields the header, the descriptor and zero padding, in the machine's byte order |
| `FdPassing.SendDescriptor` | experiments/09_fd_passing/main.c:78-109 | through any interruptions the one message, with payload F and the built control buffer, is sent once on success and not at all on failure; another count is an I/O error |
| `FdPassing.SendThenReceive` | experiments/09_fd_passing/main.c:81-165 | the receiver accepts what the sender built and finds exactly the one descriptor, whatever its new number and the padding |
| `FilesystemEvents.SplitIff` | experiments/12_filesystem_events/main.c:131-153 | a buffer is accepted exactly when it is a concatenation of complete records without overflow, and split into just these |
| `FilesystemEvents.SizesDoNotWrap` | experiments/12_filesystem_events/main.c:132-135 | offset plus record size stays below 2^34, so 64-bit sizes do not wrap |
| `FilesystemEvents.BitsAddUp` | experiments/12_filesystem_events/main.c:140-146 | the bits of a mask are those that add up to it |
| `FilesystemEvents.LaidFields` | experiments/12_filesystem_events/main.c:133-144 | in a record laid out as the kernel does, the parser finds its size, watch, mask and overflow bit, whatever they are |
| `FilesystemEvents.LaidMatchesIff` | experiments/12_filesystem_events/main.c:144-145 | such a record matches exactly if its watch is the goal's and its name, up to the padding, the goal's name |
| `FilesystemEvents.SplitFails` | experiments/12_filesystem_events/main.c:136-153 | a truncated, overflowing or trailing partial record after any complete ones means that the buffer cannot be split |
| `FilesystemEvents.ObserveIff` | experiments/12_filesystem_events/main.c:144-147 | a bit is observed exactly when it was before or a required bit of a record with the watch and the name carries it |
| `FilesystemEvents.ObserveGrows` | experiments/12_filesystem_events/main.c:144-147 | the observed events only grow, and only by required ones |
| `FilesystemEvents.Look` | experiments/12_filesystem_events/main.c:144-147 | the in-place test adds the required bits of a record with the watch and the name, reading no further than its name field |
| `FilesystemEvents.ParseBuffer` | experiments/12_filesystem_events/main.c:131-153 | the in-place parser accepts exactly the splittable buffers, observes exactly their records, and otherwise names what stands at the offending offset |
| `FilesystemEvents.Inotify.Poll` | experiments/12_filesystem_events/main.c:95-99 | poll, repeated while interrupted |
| `FilesystemEvents.Inotify.Read` | experiments/12_filesystem_events/main.c:115-118 | read, repeated while interrupted |
| `FilesystemEvents.PollAndRead` | experiments/12_filesystem_events/main.c:95-118 | one poll and read; a failure is that of the first poll that is neither interrupted nor ready, time-out, error and hangup told apart |
| `FilesystemEvents.TakeReply` | experiments/12_filesystem_events/main.c:122-153 | a read is taken exactly when it is a non-empty good buffer, and then adds its records; otherwise the verdict tells error, end of file and the kind of bad buffer apart |
| `FilesystemEvents.Digest` | experiments/12_filesystem_events/main.c:119-153 | an empty-handed read changes nothing; a failure is explained by the last read, all before being good and not enough |
| `FilesystemEvents.Turn` | experiments/12_filesystem_events/main.c:95-153 | one turn adds exactly what the reads up to here have shown, or fails with the verdict that the last poll or read calls for |
| `FilesystemEvents.WaitForEvents` | experiments/12_filesystem_events/main.c:93-158 | success means that the records read so far cover the required events; every failure verdict names the first poll or read that was not good, with the required events not yet covered; if every read is good and polled for, the verdict is exactly whether all records cover them |
| `FilesystemEvents.RecordsOfStream` | experiments/12_filesystem_events/main.c:114-153 | the records seen over all reads are those of the byte stream |
| `FilesystemEvents.BatchingIsIrrelevant` | experiments/12_filesystem_events/main.c:93-154 | two ways of cutting one stream into reads, with any interruptions and empty reads, lead to the same observation and the same verdict |
| `FilesystemEvents.CoveredIff` | experiments/12_filesystem_events/main.c:94-146 | the required events are covered exactly when each has a matching record |
| `PosixAio.Request.SuspendUntilWoken` | experiments/27_posix_aio/main.c:43-49 | suspensions are repeated through interruptions only |
| `PosixAio.Request.WaitUntilComplete` | experiments/27_posix_aio/main.c:30-51 | the calls of a wait are queries, each that finds the operation in progress followed by a suspension; success is the status of the ended operation, failure the one failure, and interruptions are neither |
| `PosixAio.Request.QueryAndCancel` | experiments/27_posix_aio/main.c:55-62 | cancels once if the operation is found in progress and otherwise never |
| `PosixAio.Request.WaitAndReap` | experiments/27_posix_aio/main.c:64-74 | reaps exactly if the wait succeeded; an earlier error is kept, and a failed operation is none |
| `PosixAio.Request.CancelAndReap` | experiments/27_posix_aio/main.c:53-81 | the sequence of its calls: a query, a cancellation exactly if that found the operation in progress, a wait, and a reaping exactly if the wait succeeded; its error is the earliest failure of these calls; a request cancelled in time is reaped as cancelled |
| `PosixAio.Request.Run` | experiments/27_posix_aio/main.c:111-152 | all calls of every run, before the close: a wait, then one aio_return if the operation has succeeded, and a cleanup otherwise; aio_return is called exactly once if the last wait succeeded, and never otherwise; success exactly when no call failed and the operation read the payload, which the buffer then holds |
| `PortableSignals.StepKeepsInv` | experiments/23_portable_signals/main.c:35-120 | mask, pending bit, action and flag stay consistent under every interleaving with the child and deliveries |
| `PortableSignals.NeverStuck` | experiments/23_portable_signals/main.c:63-111 | the program never blocks for good; in sigsuspend it is the child's signal that can be delivered |
| `PortableSignals.StepConsumesWork` | experiments/23_portable_signals/main.c:35-120 | every step but an interruption consumes work |
| `PortableSignals.EveryRunIsSafe` | experiments/23_portable_signals/main.c:74-119 | the handler never runs before the pending check, which always sees the signal; success only after the handler ran; a reaped child's signal never reaches the old action; a child is unreaped behind the cleanup wait exactly when both waits failed |
| `PortableSignals.SucceedsIffNothingFailed` | experiments/23_portable_signals/main.c:35-120 | every run ends, within 22 steps and three per interruption, in success exactly when no call and not the child failed |
| `PortableSignals.ExitRestores` | experiments/23_portable_signals/main.c:112-119 | at the end of every run the signal is blocked as at the start unless main had blocked it and failed to restore the mask, and the old action is back unless main had replaced it and failed to restore it |
| `PortableSignals.CleanRunRestores` | experiments/23_portable_signals/main.c:94-120 | after a run without failures both are as at the start and nothing is pending |
| `PortableSignals.RunKeepsShelter` | experiments/23_portable_signals/main.c:104-119 | from the restoration of the mask on, a child that has sent its signal, or an old mask that blocks it, rules out the old action for good |
| `PortableSignals.LateSignal` | experiments/23_portable_signals/main.c:112-119 | with the old mask open and the child still to send, a run exists in which the old action takes the signal |
| `PortableSignals.OldActionReachableIff` | experiments/23_portable_signals/main.c:104-119 | where the mask is about to be restored, such a run exists if and only if the old mask is open and the child has still to send |
| `PortableSignals.RunReachesOldIff` | experiments/23_portable_signals/main.c:35-120 | over whole runs, if and only if the signal was not blocked at the start |
| `ProcessControl.FileActions.AddFileActions` | experiments/05_process_control/main.c:34-44 | adds the planned actions in order, or a prefix of them and a failure |
| `ProcessControl.SpawnConnectsStdout` | experiments/05_process_control/main.c:34-44 | wherever the pipe's descriptors lie, the child's standard output is the writer, it holds no other end, and its other descriptors are the inherited ones |
| `ProcessControl.GuardIsNeeded` | experiments/05_process_control/main.c:40-42 | closing the writer is right exactly when it is not standard output itself |
| `ProcessControl.CaptureIsPrefix` | experiments/05_process_control/main.c:98-127 | after a successful child the capture is its whole output, cut at the size of the buffer |
| `ProcessControl.StepKeepsInv` | experiments/05_process_control/main.c:56-156 | captured bytes followed by those in the pipe are what the child has written, at every step; descriptors and child states go with the place in main |
| `ProcessControl.NeverStuck` | experiments/05_process_control/main.c:99-153 | no read and no wait blocks for good, the cleanup wait included, except the first wait when the output does not fit |
| `ProcessControl.StepConsumesWork` | experiments/05_process_control/main.c:56-156 | every step but an interruption consumes work |
| `ProcessControl.EveryRunIsSafe` | experiments/05_process_control/main.c:89-156 | the capture is always a prefix of the output, end of file is seen only after main closed its writer and the child ended, and at exit nothing is left open and the child is reaped unless the last wait failed |
| `ProcessControl.SucceedsIffNothingFailed` | experiments/05_process_control/main.c:56-137 | runs are finite but for interruptions, and finish in success exactly when nothing failed and the capture compares equal |
| `ProcessControl.MatchesIff` | experiments/05_process_control/main.c:114-131 | a capture without a NUL compares equal exactly if it is the expected text |
| `ProcessControl.SucceedsIffOutputExpected` | experiments/05_process_control/main.c:98-137 | for text that fits the buffer a finished run succeeds exactly when nothing failed and the output is the expected text, which was then captured whole |
| `ProcessControl.Deadlock` | experiments/05_process_control/main.c:98-120 | with more output than buffer and pipe hold, a run ends with both processes waiting for ever |
| `ProcessControl.StuckIffOutputDoesNotFit` | experiments/05_process_control/main.c:96-120 | such a run exists if and only if the output exceeds buffer and pipe together |
| `ProcessControl.CaptureOfSpawnedChild` | experiments/05_process_control/main.c:34-137 | file actions and capture together: for any pipe descriptors and any output that fits the buffer, a run without failures is not stuck and exits with the whole output and a reaped child |
| `SparseFiles.File.Seek` | experiments/20_sparse_files/main.c:48-69 | a conforming SEEK_DATA or SEEK_HOLE: the first such offset, the implicit hole at the end, no more data as ENXIO, or a failure |
| `SparseFiles.QueryExtents` | experiments/20_sparse_files/main.c:47-57 | the first run of data, or how the first failing query is to be taken |
| `SparseFiles.QuerySecondExtent` | experiments/20_sparse_files/main.c:61-74 | the second run, nothing if there is no hole, or how the first failing query is to be taken |
| `SparseFiles.AnswersDecide` | experiments/20_sparse_files/main.c:135-137 | on conforming answers the test fails exactly when a hole lies behind the second run, that is, when there is a third run of data |
| `SparseFiles.CheckExtents` | experiments/20_sparse_files/main.c:116-142 | the verdict is the specified one for any data map and any failures; accepted files have exactly the two reported runs, which cover all written bytes |
| `SparseFiles.JudgeCountsRuns` | experiments/20_sparse_files/main.c:116-142 | without failures: accepted exactly for two runs of data, skipped exactly for one, rejected exactly for more |
| `SparseFiles.FailuresNeverDecide` | experiments/20_sparse_files/main.c:40-74 | a failing query never turns acceptance into rejection or back, and a skip needs a file without holes or a tolerated error |
| `SparseFiles.ErrnoTable` | experiments/20_sparse_files/main.c:40-74 | what the first failing query means for every error number: EINVAL and ENOTSUP skip the check at any query, ENXIO only at the query for the second run, anything else is an error |
| `SparseFiles.TestCoversIff` | experiments/20_sparse_files/main.c:135-137 | for arbitrary answers, exactly when the test guarantees that the two runs cover what was written |
| `SparseFiles.TestPassesIff` | experiments/20_sparse_files/main.c:135-137 | for arbitrary answers, what the test says about the two runs, byte by byte at their ends |
| `SparseFiles.Run` | experiments/20_sparse_files/main.c:95-158 | success exactly when all calls succeeded, size and block count are those of a sparse file, and the extents were accepted or skipped |
| `ExtendedAttributes.ListContains` | experiments/28_extended_attributes/main.c:9-25 | for every buffer and NUL-free name the search stays in bounds, ends, and finds exactly the complete names |
| `ExtendedAttributes.EntriesIff` | experiments/28_extended_attributes/main.c:13-23 | a name is found exactly when it stands between two name boundaries, never as a prefix or suffix |
| `ExtendedAttributes.EntriesOfEncoded` | experiments/28_extended_attributes/main.c:9-25 | on an encoded list of NUL-free names, with any unterminated rest, the search is list membership |
| `Bytes.UnsignedEncode` | experiments/09_fd_passing/main.c:93-96 | an integer stored in enough bytes is loaded back |
| `Bytes.TextStopsInside` | experiments/28_extended_attributes/main.c:15-19 | a string comparison that meets a NUL inside the list reads no further |

## Left out

- The other twenty experiments: further instances of the loops modelled here, or
  thin calls whose interesting behaviour is the kernel's.
- Printing, error texts, temporary names, creation and removal of files and
  directories, and the macOS branches.
- The `write_all`, `read_all` and `pread_all` loops of other experiments: the same as
  those of `01_file_io`.
- `07_threads`: a failing pthread call exits the process at once and is not an event;
  destroying the mutex and the conditions; memory ordering.
- `07_threads`, `24_thread_specific_data`: the range of `int`, `long` and `size_t`;
  numbers are unbounded.
- `07_threads`: the protocol runs on a queue value; the in-place form is class
  `SharedQueue`, whose methods are proved to have the effect of the protocol's steps.
- FileIo.Run: whether creating, closing and unlinking the file succeed is given, not
  modelled; nor is the descriptor they act on.
- `01_file_io`: the buffer of `pwrite_all` is a sequence, since it is only read.
- `24_thread_specific_data`: relaxed atomics are taken as atomic; a thread whose join
  failed may still run when main has returned, which ends the process.
- `09_fd_passing`: the process structure around sender and receiver; received buffers
  are sequences, since they are only read; `CMSG_NXTHDR` on lengths that wrap a
  pointer.
- `12_filesystem_events`: the watch and the file operations before the loop; the
  duration of the poll timeout.
- PosixAio.Request.Run: whether creating, unlinking and filling the file, `aio_read`
  and `close` succeed is given; the bytes read are whatever the operation ends with,
  and are not related to those written.
- `05_process_control`, `23_portable_signals`, `24_thread_specific_data`: main's
  variables, the capture buffer, the key and the heap are fields of a state value and
  not of an object updated in place, because several processes or threads interleave
  their steps on them.
- `05_process_control`: atomicity of writes up to PIPE_BUF, so a child may write any
  part of what fits; the parent's other descriptors after the spawn.
- `23_portable_signals`: `SIGUSR1` from other processes; other signals appear only as
  interruptions. `sigpending` and `sigismember` are one step.
- SparseFiles.Run: whether the writes, `fstat`, `close` and `unlink` succeed is given,
  as is the block count. The write loop is that of `FileIo.PwriteAll`.
- `20_sparse_files`: the bytes of the file and its block allocation; only which bytes
  count as data is modelled. Concurrent changes between queries.
- `28_extended_attributes`: the attribute calls themselves.
