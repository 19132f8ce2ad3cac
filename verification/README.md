# Models of the concurrent, networking and matching code

Dafny models, with proofs, of eleven parts of a systems-programming course
repository: its exercises, the memcached-like server Afina, and the gtest/gmock
sources it carries. `dafny verify dfyconfig.toml` checks everything.

| file | models |
|---|---|
| `Matching.dfy` | gmock's maximum bipartite matching over two mutable index vectors, and the closed sets that certify its result |
| `CoroSort.dfy`, `CoroScheduler.dfy`, `SlotMerge.dfy`, `HwSort.dfy` | the sorting program: quicksorts as coroutines that yield after almost every statement, run in turns, then a recursive merge that moves arrays between slots |
| `SharedMutex.dfy` | the two-gate reader/writer lock, for any number of threads |
| `SharedChannel.dfy` | the two-flag channel in shared memory between one writer and one reader |
| `CThread.dfy` | detachable threads whose stacks are reclaimed by later threads |
| `FutexLock.dfy` | the futex lock around a shared counter |
| `EventJoin.dfy` | event sources and consumers over a semaphore set and a message queue |
| `Protocol.dfy`, `RequestText.dfy` | the incremental request parser, and the text it reads |
| `Connection.dfy`, `Refusals.dfy`, `OutputBuffer.dfy` | framing of requests from arbitrary reads, what closes a connection, and the output buffer |
| `LruCode.dfy`, `LruRefinement.dfy`, `LruAgreement.dfy`, `SimpleLRU.dfy` | the LRU cache: what the code does, the map it is meant to be, exactly when the two agree, and the linked nodes underneath |
| `Expectations.dfy`, `ExpectationHistory.dfy` | gmock's prerequisite graph and sequences, and what they hold after a run, read off its actions |
| `Primes.dfy` | the prime tables of gtest's samples |
| `Sets.dfy`, `Sums.dfy`, `Sequences.dfy` | cardinalities, sums and removal from a sequence, used above |

## How the code is modelled

Code that updates objects, arrays or shared words is a class or a method with
loops, proved against a function of the old state; what the source promises is
proved about that function. A concurrent protocol is a set of actions, one
shared access or critical section each; a blocked call is an action that is not
enabled, and theorems speak about every run from the initial state. Accesses
are atomic and sequentially consistent, and parking and waking are atomic.

The code is kept as it is. Where it does not do what it is for, the theorem
states exactly when it does:

- `shared_mutex`: a reader that leaves notifies gate 1 only when the count falls
  from its maximum, so a reader's wake-up can be lost with more than
  `n_readers_` + 1 threads (`SharedMutex.NoWakeupLostIff`, `SharedMutex.CompletionIff`).
- The parser never multiplies `exprtime` by 10, and its wrap test misses some
  overflows. A line is refused exactly if its flags or size wrap at some digit
  or the digits of its expiry add up to more than 32 bits hold
  (`RequestText.PutLineIsRefusedIff`); the fields come back as written exactly
  for one-digit expiries and 32-bit numbers (`RequestText.PutLineIsExactIff`). Reading past `int32_t` in
  `exprtime`, undefined in C++, is an error in the model.
- An announced body of no bytes is not followed by its line end in `DoRead`,
  though Parser.h says that such a body is allowed (`Connection.PipelineIsServedIff`).
- `DoWrite` keeps the result of `send` unsigned, so a failed call drops the
  buffer (`OutputBuffer.AnswersAreConservedIff`).
- `_remove_node` takes the size of the tail, not of the removed node, off the
  count, empties the head when it removes the only node, and follows a pointer
  it has just emptied for a node in the middle; the update loop can free the
  node being updated (`LruAgreement.RunAgreesIff`). `SimpleLRU.h` promises a
  bounded map without such conditions.
- An excessive call retires nothing, so after a call of a `Times(0)` expectation
  its prerequisites may go on handling calls (`Expectations.OrderHoldsIff`).
- The hybrid prime table and the search on the fly differ at -1
  (`Primes.HybridTable.GetNextPrime`).

## Model

| member | source | states |
|---|---|---|
| `Matching.FindPairing` | sysprog/afina/third-party/googletest-release-1.8.0/googlemock/src/gmock-matchers.cc:328-357 | true exactly when every matcher can be given an element of its own, for every graph |
| `Matching.FindMaxBipartiteMatching` | sysprog/afina/third-party/googletest-release-1.8.0/googlemock/src/gmock-matchers.cc:307-310 | the pairs returned form a matching, listed by element, and no matching of the graph has more edges |
| `Matching.MaxBipartiteMatchState.Compute` | sysprog/afina/third-party/googletest-release-1.8.0/googlemock/src/gmock-matchers.cc:207-238 | one pass over the left nodes is enough: the result is a maximum matching, and the two vectors stay mutually referent |
| `Matching.MaxBipartiteMatchState.TryAugment` | sysprog/afina/third-party/googletest-release-1.8.0/googlemock/src/gmock-matchers.cc:243-285 | success moves `ilhs` to a new right node, uses exactly one more right node and touches neither a seen nor a closed one; failure changes neither vector and shows that nothing unseen can be reached |
| `Matching.ClosedSetBoundsMatchings` | sysprog/afina/third-party/googletest-release-1.8.0/googlemock/src/gmock-matchers.cc:210-221 | if every unmatched left node stays in a closed set of right nodes, no matching is larger than the number of used right nodes |
| `Matching.SuccessKeepsClosed` | sysprog/afina/third-party/googletest-release-1.8.0/googlemock/src/gmock-matchers.cc:215-221 | a later augmentation never enters the closed set of an earlier failed search, so that set stays closed |
| `Matching.AugmentThroughUsedNode` | sysprog/afina/third-party/googletest-release-1.8.0/googlemock/src/gmock-matchers.cc:274-281 | pushing flow through a used right node keeps the vectors mutually referent and frees no used node |
| `Matching.FullAssignmentIffMaximumCovers` | sysprog/afina/third-party/googletest-release-1.8.0/googlemock/src/gmock-matchers.cc:328-333 | a maximum matching has one edge per matcher exactly when a full assignment exists |
| `CoroSort.ResumeKeepsInv` | sysprog/1/hw_sort.cpp:63-159 | from any reachable point of a coroutine the next segment stays inside both buffers, keeps the pending ranges disjoint, at least two long and covering every pair still out of order, and loses no number |
| `CoroSort.StackNeverOverflows` | sysprog/1/hw_sort.cpp:245-258 | the explicit stack never holds more integers than the array has |
| `CoroSort.WorkDecreases` | sysprog/1/hw_sort.cpp:69-142 | every segment of an unfinished coroutine lowers a measure, so the loops end |
| `CoroSort.SoloResultSorts` | sysprog/1/hw_sort.cpp:63-143 | a coroutine left alone ends with its numbers sorted, and with the same numbers |
| `CoroSort.OutsidePendingIsFinal` | sysprog/1/hw_sort.cpp:69-142 | a position outside every pending range already holds the value it will end with, in the middle of an exchange too |
| `CoroSort.InitialTaskInv` | sysprog/1/hw_sort.cpp:241-276 | the coroutine that `main` builds for two or more numbers starts in the invariant, with the whole array pending |
| `CoroScheduler.Coroutine.Advance` | sysprog/1/hw_sort.cpp:63-143 | one segment, run in place on the coroutine and its two buffers, is `Resume` of its state |
| `CoroScheduler.TurnKeepsOutcomes` | sysprog/1/hw_sort.cpp:15-25 | a turn of one task changes where no task will end |
| `CoroScheduler.Scheduler.Turn` | sysprog/1/hw_sort.cpp:143-158 | resumes the current task only, stops exactly when all tasks are finished, and passes control on in a circle otherwise |
| `CoroScheduler.Scheduler.QSortCoro` | sysprog/1/hw_sort.cpp:9-159 | the round-robin run of any number of tasks ends, only once all are finished, and leaves each task exactly as a run on its own would |
| `SlotMerge.MergedSorts` | sysprog/1/hw_sort.cpp:168-200 | merging two sorted arrays gives a sorted one with the numbers of both |
| `SlotMerge.MergeTwo` | sysprog/1/hw_sort.cpp:168-200 | the two loops fill the new array with the merge of the two |
| `SlotMerge.MergeAllSorts` | sysprog/1/hw_sort.cpp:161-212 | rotating the slots level after level leaves all numbers, sorted, in the last slot |
| `SlotMerge.Merger.Reslot` | sysprog/1/hw_sort.cpp:202-209 | one array is freed, one moved, one new: slots keep owning distinct live arrays with their lengths, and no array is leaked |
| `SlotMerge.Merger.MergeFirstTwo` | sysprog/1/hw_sort.cpp:161-209 | one level of `merge` rotates the slots and keeps ownership |
| `SlotMerge.Merger.Merge` | sysprog/1/hw_sort.cpp:161-212 | recursive `merge` leaves the merge of all slots in the last one and keeps ownership |
| `SlotMerge.Merger.FreeAll` | sysprog/1/hw_sort.cpp:288-293 | the last loop frees each live array of a slot once |
| `HwSort.MakeTasks` | sysprog/1/hw_sort.cpp:227-278 | the tasks of `main` share no buffer and start with their file's numbers |
| `HwSort.SortEach` | sysprog/1/hw_sort.cpp:279 | after the coroutine stage every array is sorted and holds its own numbers |
| `HwSort.SortFiles` | sysprog/1/hw_sort.cpp:215-294 | the whole program writes all numbers of all files in order, and leaves no array allocated |
| `SharedMutex.Exclusion` | sysprog/afina/materials/09-advanced-synchronization/code/shared_mutex.cpp:6-69 | in every reachable state a writer inside is alone, the low bits of `state_` count the readers inside, and a thread asleep on gate 2 implies a reader |
| `SharedMutex.ReadersOnlyLeaveOnceWriterEntered` | sysprog/afina/materials/09-advanced-synchronization/code/shared_mutex.cpp:11-13 | once the top bit is set the set and the count of readers only shrink, and the `state_ = 0` of `unlock` discards no reader |
| `SharedMutex.WordIsNotNeeded` | sysprog/afina/materials/09-advanced-synchronization/code/shared_mutex.cpp:6-69 | in every reachable state each method takes its thread where an ideal lock would, told only from who is inside, entered or asleep: who enters, who falls asleep on which gate, when a try succeeds, and who is woken |
| `SharedMutex.DepartureWakes` | sysprog/afina/materials/09-advanced-synchronization/code/shared_mutex.cpp:57-69 | a departing reader wakes a sleeper on gate 2 exactly if a writer has entered and it is the last reader, one on gate 1 exactly if none has and all slots were taken, and else nobody |
| `SharedMutex.NoWakeupLostIff` | sysprog/afina/materials/09-advanced-synchronization/code/shared_mutex.cpp:25-69 | for every number of threads: no run leaves a thread asleep on gate 1 that could leave it and that nobody is about to wake, if and only if there are at most `n_readers_` + 1 threads |
| `SharedMutex.WritersAreNeverAbandoned` | sysprog/afina/materials/09-advanced-synchronization/code/shared_mutex.cpp:6-33 | whatever the number of threads, a writer asleep on gate 1 has another writer before it or a notification under way: only readers are ever forgotten |
| `SharedMutex.NoRunGetsStuck` | sysprog/afina/materials/09-advanced-synchronization/code/shared_mutex.cpp:6-69 | with at most `n_readers_` + 1 threads every reachable state can be run on until all threads are idle and the lock is free, by the threads' own steps alone: no new call, no spurious wake-up |
| `SharedMutex.CompletionIff` | sysprog/afina/materials/09-advanced-synchronization/code/shared_mutex.cpp:6-69 | for every number of threads: each reachable state can be completed so, and own steps run out only with all threads idle, if and only if there are at most `n_readers_` + 1 threads |
| `SharedMutex.OwnStepsAreBounded` | sysprog/afina/materials/09-advanced-synchronization/code/shared_mutex.cpp:6-69 | from any state the threads' own steps run out, in whatever order they are taken and whichever sleeper each notification picks |
| `SharedMutex.TooManyThreadsCanGetStuck` | sysprog/afina/materials/09-advanced-synchronization/code/shared_mutex.cpp:57-69 | with more threads a run leaves a reader asleep while the lock is free and everybody else is idle; no own step is left, so only a new call or a spurious wake-up can change that |
| `SharedMutex.SleepersHaveSomeoneAwake` | sysprog/afina/materials/09-advanced-synchronization/code/shared_mutex.cpp:6-69 | with at most `n_readers_` + 1 threads, while someone sleeps some thread between its calls is awake |
| `SharedMutex.StepKeepsInv` | sysprog/afina/materials/09-advanced-synchronization/code/shared_mutex.cpp:6-69 | every step of every method keeps the accounting of the state word |
| `SharedMutex.Lock.LockPass` | sysprog/afina/materials/09-advanced-synchronization/code/shared_mutex.cpp:6-14 | one critical section of `lock`: waits on gate 1, or sets the top bit and waits on gate 2 or enters |
| `SharedMutex.Lock.TryLock` | sysprog/afina/materials/09-advanced-synchronization/code/shared_mutex.cpp:16-23 | succeeds exactly when it owns `mut_` and the word is 0 |
| `SharedMutex.Lock.LockSharedPass` | sysprog/afina/materials/09-advanced-synchronization/code/shared_mutex.cpp:35-43 | one critical section of `lock_shared` |
| `SharedMutex.Lock.TryLockShared` | sysprog/afina/materials/09-advanced-synchronization/code/shared_mutex.cpp:45-55 | enters exactly when it owns `mut_` and `lock_shared` would not wait |
| `SharedMutex.Lock.UnlockShared` | sysprog/afina/materials/09-advanced-synchronization/code/shared_mutex.cpp:57-69 | one reader less, with the notification that `unlock_shared` sends; without a reader inside the subtraction wraps |
| `SharedChannel.ReceivesInOrderAlone` | sysprog/lecture_examples/7_ipc/3_mem_sort.c:31-85 | in every interleaving, for any messages of any size, the reader has a prefix of what is sent, has all of it when done, and the two sides never copy at once |
| `SharedChannel.ChunksAreFull` | sysprog/lecture_examples/7_ipc/3_mem_sort.c:40-56 | in every run chunks begin at multiples of 65534 bytes: all but the last of a message fill the buffer |
| `SharedChannel.WriterKeepsInv` | sysprog/lecture_examples/7_ipc/3_mem_sort.c:31-57 | every access of the writer keeps the hand-over of the buffer and its content |
| `SharedChannel.ReaderKeepsInv` | sysprog/lecture_examples/7_ipc/3_mem_sort.c:59-85 | every access of the reader keeps the hand-over and the bytes received |
| `SharedChannel.SomeoneCanMove` | sysprog/lecture_examples/7_ipc/3_mem_sort.c:41-42 | until both sides are done at least one is not waiting for a flag |
| `SharedChannel.CanFinish` | sysprog/lecture_examples/7_ipc/3_mem_sort.c:104-136 | every run can be continued until everything is delivered |
| `SharedChannel.MovesAreBounded` | sysprog/lecture_examples/7_ipc/3_mem_sort.c:31-85 | apart from vain looks at a flag no run makes more steps than its messages call for |
| `SharedChannel.Link.WriterStep` | sysprog/lecture_examples/7_ipc/3_mem_sort.c:40-56 | one access of the writer to the shared memory, in place |
| `SharedChannel.Link.ReaderStep` | sysprog/lecture_examples/7_ipc/3_mem_sort.c:68-84 | one access of the reader, in place |
| `CThread.DestroyedExactlyOnce` | sysprog/lecture_examples/6_threads/12_cthread_detach.c:75-100 | for any number of threads and any interleaving a thread is linked at most once and, when it is over and detached or joined, exactly once; its stack is freed at most once and only after its thread is gone and its tid cleared |
| `CThread.DestroyFreesClearedPrefix` | sysprog/lecture_examples/6_threads/12_cthread_detach.c:45-63 | one `cthread_destroy`, whatever others do meanwhile, frees a prefix of the list and nothing else: at least the nodes at its front whose tid reads 0 when it takes the lock and at most those whose tid reads 0 when it leaves; the rest of the list then follows its own node |
| `CThread.NothingFreedIsTouched` | sysprog/lecture_examples/6_threads/12_cthread_detach.c:45-63 | no step of any run, the kernel's clearing of the tid included, reads, writes or frees a node already freed |
| `CThread.NoStackIsDropped` | sysprog/lecture_examples/6_threads/12_cthread_detach.c:45-63 | whenever the list lock is free, `stack_list` leads through exactly the stacks linked and not freed, each once |
| `CThread.EveryRunEndsClean` | sysprog/lecture_examples/6_threads/12_cthread_detach.c:75-100 | a run that can go no further has ended all threads, destroyed each once, and every stack is either freed or on the list |
| `CThread.RunsAreBounded` | sysprog/lecture_examples/6_threads/12_cthread_detach.c:18-22 | no run makes more steps, vain spins aside, than its start allows: spin locks never block all threads |
| `CThread.SomeoneCanMove` | sysprog/lecture_examples/6_threads/12_cthread_detach.c:18-28 | the two kinds of spin lock and joins never leave all threads waiting |
| `CThread.ActionKeepsInv` | sysprog/lecture_examples/6_threads/12_cthread_detach.c:45-100 | every action of every thread, owner and the kernel keeps the list, the locks and the records |
| `CThread.WalkKeepsChain` | sysprog/lecture_examples/6_threads/12_cthread_detach.c:50-62 | one access of `cthread_destroy` is safe and leaves a null-terminated list of distinct live nodes |
| `CThread.Machine.DestroyStep` | sysprog/lecture_examples/6_threads/12_cthread_detach.c:45-63 | one access of `cthread_destroy` to the shared list, in place |
| `CThread.Machine.StartStep` | sysprog/lecture_examples/6_threads/12_cthread_detach.c:102-116 | the kernel's storing of the tid of a new thread, in place |
| `CThread.Machine.RunnerStep` | sysprog/lecture_examples/6_threads/12_cthread_detach.c:75-90 | one access of a thread's runner, in place, up to the kernel's clearing of its tid |
| `CThread.Machine.OwnerStep` | sysprog/lecture_examples/6_threads/12_cthread_detach.c:65-100 | one access of `cthread_detach` or `cthread_join`, in place |
| `FutexLock.CounterIsExact` | sysprog/lecture_examples/6_threads/8_futex.c:42-66 | with n threads of m rounds each, in every interleaving the counter ends at n * m, and at most one thread is between lock and unlock |
| `FutexLock.ParkedIsNotForgotten` | sysprog/lecture_examples/6_threads/8_futex.c:24-36 | a parked thread always implies a holder, a pending wake or an awake contender |
| `FutexLock.SomeActionLowersPotential` | sysprog/lecture_examples/6_threads/8_futex.c:24-53 | while a thread is not done some step or wake, not the interruption of a wait, is enabled and lowers a measure |
| `FutexLock.NoRunGetsStuck` | sysprog/lecture_examples/6_threads/8_futex.c:24-53 | from every reachable state the run can be continued, without interrupting any wait, until all threads are done with the counter at n * m |
| `FutexLock.EveryRunFinishes` | sysprog/lecture_examples/6_threads/8_futex.c:24-53 | however the threads are scheduled, a run is no longer than its work and its interrupted waits allow, and one that only an interruption could continue has finished, with the counter at n * m |
| `FutexLock.ActionKeepsInv` | sysprog/lecture_examples/6_threads/8_futex.c:24-53 | every step, wake and interrupted wait keeps the invariant |
| `FutexLock.Machine.StepThread` | sysprog/lecture_examples/6_threads/8_futex.c:24-53 | one access of a thread to the two shared words, in place |
| `EventJoin.ConsumerNeverBlocks` | sysprog/lecture_examples/7_ipc/9_sem_event_cons.c:74-78 | with any number of sources and consumers, a consumer that holds the locks always finds the message it asks for |
| `EventJoin.TriplesAreInOrder` | sysprog/lecture_examples/7_ipc/9_sem_event_cons.c:38-78 | the k-th triple joined consists of the k-th message sent of each type, and consumers join one at a time |
| `EventJoin.MessagesAreAccounted` | sysprog/lecture_examples/7_ipc/9_sem_event_source.c:69-102 | of the lines the sources sent of each type in a run, in order and unaltered, the first are in the triples joined, the next perhaps in the hands of the consumer inside, and all others in the queue |
| `EventJoin.SemaphoresCountMessages` | sysprog/lecture_examples/7_ipc/9_sem_event_source.c:97-102 | when no process is between its calls, each semaphore equals the queued messages of its type, and these the sent less the joined |
| `EventJoin.EveryRunComesToRest` | sysprog/lecture_examples/7_ipc/9_sem_event_cons.c:67-80 | from every reachable state, if nothing more is sent, the run can go on until no source is posting, every consumer is outside and none can enter; then the triples joined are as many as the messages of the type sent least |
| `EventJoin.QuietRunsAreBounded` | sysprog/lecture_examples/7_ipc/9_sem_event_cons.c:67-80 | no run goes on for ever without a message sent |
| `EventJoin.ActionKeepsInv` | sysprog/lecture_examples/7_ipc/9_sem_event_cons.c:38-78 | every action keeps, per type: queued = semaphore + sent but not posted + claimed but not read |
| `EventJoin.OfKindOfReceive` | sysprog/lecture_examples/7_ipc/9_sem_event_cons.c:26-36 | receiving by type takes the oldest message of that type and leaves the other types as they were |
| `EventJoin.Events.SendMsg` | sysprog/lecture_examples/7_ipc/9_sem_event_source.c:69-76 | in place, the action of sending: one more message of the sender's type, its post still due |
| `EventJoin.Events.SemInc` | sysprog/lecture_examples/7_ipc/9_sem_event_source.c:35-43 | in place, the action of posting: one more on the semaphore of the sender's type |
| `EventJoin.Events.LockEvents` | sysprog/lecture_examples/7_ipc/9_sem_event_cons.c:55-65 | enters exactly when that action is enabled: all four semaphores are decremented, or none and nothing changes |
| `EventJoin.Events.RecvMsg` | sysprog/lecture_examples/7_ipc/9_sem_event_cons.c:26-43 | in place, the action of receiving: the oldest message of the next type joins the triple |
| `EventJoin.Events.UnlockEvents` | sysprog/lecture_examples/7_ipc/9_sem_event_cons.c:45-53 | in place, the action of leaving: the gate is open again |
| `Protocol.Parser.Parse` | sysprog/afina/src/protocol/Parser.cpp:19-162 | stops, throws or completes exactly where the byte-by-byte machine does, with its fields and count of consumed bytes |
| `Protocol.Parser.ParseByte` | sysprog/afina/src/protocol/Parser.cpp:24-157 | one pass through the switch; a byte that throws changes nothing |
| `Protocol.Parser.Reset` | sysprog/afina/src/protocol/Parser.cpp:187-196 | all fields cleared but `negative` |
| `Protocol.Parser.Build` | sysprog/afina/src/protocol/Parser.cpp:165-184 | the command, body size or refusal for the name read |
| `Protocol.ScanKeepsSound` | sysprog/afina/src/protocol/Parser.cpp:46-56 | whatever the input, a put line that reached its line feed has a key, so `Build` never indexes an empty list, and the numbers stay in 32 bits |
| `RequestText.NameDecides` | sysprog/afina/src/protocol/Parser.cpp:28-46 | for every word: set, add, append and prepend lead to a key to store under, get and gets to keys to look up, stats to the line feed, and any other word is refused at the byte that ends it |
| `RequestText.TextHeadIsRead` | sysprog/afina/src/protocol/Parser.cpp:48-142 | any storage line: other bytes than digits are skipped in its three numbers, before the expiry also spaces; it is refused if and only if flags or size wrap at some digit or the signed digit sum of the expiry leaves 32 bits |
| `RequestText.OnlyLineFeedEnds` | sysprog/afina/src/protocol/Parser.cpp:144-153 | after its carriage return a line is completed by a line feed and refused at any other byte |
| `RequestText.PutLineRoundTrip` | sysprog/afina/src/protocol/Parser.cpp:27-176 | a printed storage line that is not refused for its expiry is consumed exactly, whatever follows, and builds the command with its key, flags and size; the expiry comes back as the sum of its digits |
| `RequestText.TimeReadIsSmall` | sysprog/afina/src/protocol/Parser.cpp:96-127 | no 32-bit expiry is refused, and the sum of its digits is the expiry exactly for one digit |
| `RequestText.PutLineIsExactIff` | sysprog/afina/src/protocol/Parser.cpp:80-142 | for every printed line the fields come back as printed if and only if flags and size fit 32 bits and the expiry has one digit |
| `RequestText.GetLineRoundTrip` | sysprog/afina/src/protocol/Parser.cpp:58-78 | a printed retrieval line is consumed exactly and yields exactly its keys, for any non-empty list of keys free of space and CR |
| `RequestText.FlagsAreRead` | sysprog/afina/src/protocol/Parser.cpp:80-94 | a decimal flags field is refused if and only if some digit takes the 32-bit value below what it was, and is otherwise read modulo 2^32 |
| `RequestText.BytesAreRead` | sysprog/afina/src/protocol/Parser.cpp:129-142 | the same for the size |
| `RequestText.PutLineIsRefusedIff` | sysprog/afina/src/protocol/Parser.cpp:80-142 | a storage line is refused if and only if its flags or its size wrap in that sense or the signed sum of its expiry's digits leaves 32 bits, whatever the numbers, and is otherwise read with flags and size modulo 2^32 |
| `RequestText.WrapsOnlyFromLimit` | sysprog/afina/src/protocol/Parser.cpp:86-90 | no number below 2^32 wraps |
| `RequestText.WrapTestIsPartial` | sysprog/afina/src/protocol/Parser.cpp:86-90 | of the numbers from 2^32 on some are refused and some are not: 4294967296 is, 5000000000 is taken for 705032704 |
| `RequestText.ScanOfCut` | sysprog/afina/src/protocol/Parser.cpp:19-162 | cutting the input anywhere and parsing the parts in turn ends in the same place |
| `Connection.Client.DoRead` | sysprog/afina/src/network/st_nonblocking/Connection.cpp:39-117 | however the stream is cut into reads, the connection ends as if it had taken the bytes one at a time; a throw or a failed read closes it |
| `Connection.CuttingDoesNotMatter` | sysprog/afina/src/network/st_nonblocking/Connection.cpp:45-105 | two ways of cutting the same stream run the same commands with the same arguments and give the same answers |
| `Connection.Client.ParseAndDrop` | sysprog/afina/src/network/st_nonblocking/Connection.cpp:55-75 | a turn of the inner loop without a command consumes at least one byte |
| `Connection.ParseIsTakingBytes` | sysprog/afina/src/network/st_nonblocking/Connection.cpp:55-75 | one call of `Parse` and `Build` stands for the bytes it consumes |
| `Connection.Client.FillArgument` | sysprog/afina/src/network/st_nonblocking/Connection.cpp:78-87 | moves what the buffer has of the argument and no more |
| `Connection.FillingIsTakingBytes` | sysprog/afina/src/network/st_nonblocking/Connection.cpp:78-105 | moving a block to the argument stands for taking its bytes one by one |
| `Connection.RequestIsServed` | sysprog/afina/src/network/st_nonblocking/Connection.cpp:55-105 | a well-formed request without an empty body is run once, with its body and line end as argument, and answered |
| `Connection.EmptyBodyCloses` | sysprog/afina/src/network/st_nonblocking/Connection.cpp:61-64 | a storage request that announces an empty body runs at once, and its trailing line end closes the connection |
| `Refusals.UnknownCommandCloses` | sysprog/afina/src/network/st_nonblocking/Connection.cpp:55-64 | an idle connection that receives a word which is no command name is closed, with nothing run, answered or sent, whatever follows |
| `Refusals.RefusedLineCloses` | sysprog/afina/src/network/st_nonblocking/Connection.cpp:55-64 | so is one that receives any line the parser refuses |
| `Refusals.RefusedNumbersClose` | sysprog/afina/src/network/st_nonblocking/Connection.cpp:55-64 | so is one that receives a storage line whose flags, expiry or size are refused |
| `Refusals.PrependCloses` | sysprog/afina/src/network/st_nonblocking/Connection.cpp:61-64 | a whole `prepend` line, which the parser reads and `Build` does not know, closes the connection with nothing run |
| `Refusals.GetsCloses` | sysprog/afina/src/network/st_nonblocking/Connection.cpp:61-64 | and so does a whole `gets` line |
| `Connection.PipelineIsServedIff` | sysprog/afina/src/network/st_nonblocking/Connection.cpp:48-105 | pipelined well-formed requests leave the connection open if and only if none announces an empty body; then all are run, and answered, in order |
| `Connection.Client.DoWrite` | sysprog/afina/src/network/st_nonblocking/Connection.cpp:121-141 | what is sent, kept and dropped for every result of `send`, -1 counting as a large unsigned number |
| `OutputBuffer.WriteTakesFront` | sysprog/afina/src/network/st_nonblocking/Connection.cpp:121-141 | a write sends from the front of the buffer as many bytes as `send` took, leaves requests being read alone, and closes the connection if and only if `send` returned 0 |
| `OutputBuffer.StaysOpenIff` | sysprog/afina/src/network/st_nonblocking/Connection.cpp:39-141 | after any run of reads and writes the connection is open if and only if no `send` returned 0, no read failed and the bytes received alone would have left it open; then it has read and called what it would have without writes |
| `OutputBuffer.PipelineOverRun` | sysprog/afina/src/network/st_nonblocking/Connection.cpp:39-141 | pipelined requests, cut anywhere and with any writes in between, leave the connection open if and only if none announces an empty body, and then all are called in order |
| `OutputBuffer.AnswersAreConservedIff` | sysprog/afina/src/network/st_nonblocking/Connection.cpp:90-141 | over any run of reads and writes, bytes sent followed by bytes held are exactly the answers owed if and only if no `send` failed with something to send; writing is asked for exactly while something is held |
| `OutputBuffer.EventKeepsAnswers` | sysprog/afina/src/network/st_nonblocking/Connection.cpp:121-141 | one read or write loses the held answers exactly when `send` fails |
| `SimpleLRU.Lru.Put` | sysprog/afina/src/storage/SimpleLRU.cpp:8-21 | on nodes, links and index: the outcome of `Run` on entries and count, broken exactly when that is |
| `SimpleLRU.Lru.PutIfAbsent` | sysprog/afina/src/storage/SimpleLRU.cpp:24-35 | likewise |
| `SimpleLRU.Lru.Set` | sysprog/afina/src/storage/SimpleLRU.cpp:38-48 | likewise |
| `SimpleLRU.Lru.Delete` | sysprog/afina/src/storage/SimpleLRU.cpp:51-57 | likewise; broken for the only node and for one in the middle |
| `SimpleLRU.Lru.Get` | sysprog/afina/src/storage/SimpleLRU.cpp:60-67 | never broken: returns the value and makes its node the freshest, links and index intact |
| `SimpleLRU.Lru.MoveToFresh` | sysprog/afina/src/storage/SimpleLRU.cpp:147-161 | relinks exactly the node at `k` behind the tail |
| `SimpleLRU.Lru.RemoveNode` | sysprog/afina/src/storage/SimpleLRU.cpp:122-145 | removes head or tail of a longer list; dereferences null otherwise; takes the tail's size off the count |
| `SimpleLRU.Lru.InsertNewValue` | sysprog/afina/src/storage/SimpleLRU.cpp:80-105 | evicts from the head while the count demands it, then links and indexes a new tail |
| `SimpleLRU.Lru.UpdateValue` | sysprog/afina/src/storage/SimpleLRU.cpp:107-120 | evicts likewise, broken if it reaches the node being updated, then stores and freshens |
| `LruRefinement.IdealKeepsBound` | sysprog/afina/src/storage/SimpleLRU.h:79-83 | the intended map keeps keys distinct and the total size within the bound under every operation |
| `LruRefinement.ShedDropsOldest` | sysprog/afina/src/storage/SimpleLRU.h:85-90 | eviction drops the shortest prefix of least recently used entries that makes room |
| `LruRefinement.StoreBinds` | sysprog/afina/src/storage/SimpleLRU.cpp:8-21 | an accepted store binds its key; every other key keeps its value or is evicted |
| `LruRefinement.StoreEvictsOldest` | sysprog/afina/src/storage/SimpleLRU.h:85-90 | a store keeps the longest run of most recently used other pairs that fits beside the new one |
| `LruRefinement.RepliesMean` | sysprog/afina/src/storage/SimpleLRU.cpp:8-67 | when each operation succeeds: stores of a pair that fits, `PutIfAbsent` only for an unbound key, `Set` only for a bound one, deletion and lookup exactly of bound keys; a refusal changes nothing |
| `LruRefinement.RepliesAreIdeal` | sysprog/afina/src/storage/SimpleLRU.cpp:8-67 | where the code does not break it replies as the map with its entries would |
| `LruRefinement.RemovalUnbinds` | sysprog/afina/src/storage/SimpleLRU.cpp:51-57 | deletion unbinds its key and no other |
| `LruRefinement.GetOnlyReorders` | sysprog/afina/src/storage/SimpleLRU.cpp:60-67 | a lookup changes no binding and only moves the touched entry to the fresh end |
| `LruAgreement.OperationAgreesIff` | sysprog/afina/src/storage/SimpleLRU.cpp:8-145 | from a correct state each operation of the code does what the map does, with a correct count, if and only if it suits the state |
| `LruAgreement.RunAgreesIff` | sysprog/afina/src/storage/SimpleLRU.cpp:8-161 | over any run the code answers, holds and counts what the map does if and only if every operation suits the map's state before it |
| `LruAgreement.RemovalAgreesIff` | sysprog/afina/src/storage/SimpleLRU.cpp:122-145 | removal is right if and only if there are two or more entries and it removes the tail, or a head that weighs what the tail does |
| `LruAgreement.InsertAgreesIff` | sysprog/afina/src/storage/SimpleLRU.cpp:80-105 | insertion is right if and only if what it must evict weighs as much as that many tails, leaves an entry, and one tail more would not fit |
| `LruAgreement.UpdateAgreesIff` | sysprog/afina/src/storage/SimpleLRU.cpp:107-120 | the same for updates, which moreover must not evict the updated entry |
| `LruAgreement.EvictStops` | sysprog/afina/src/storage/SimpleLRU.cpp:84-86 | where the eviction loop stops, in `size_t` arithmetic |
| `LruAgreement.BreaksIff` | sysprog/afina/src/storage/SimpleLRU.cpp:51-145 | the code dereferences null exactly on deleting the only entry or one in the middle, and on stores for which the count lets no eviction loop stop in time |
| `LruAgreement.DeleteChargesTail` | sysprog/afina/src/storage/SimpleLRU.cpp:122-145 | any other deletion of a bound key drops its pair and takes the size of the freshest one off the count |
| `LruAgreement.EqualWeightsSuit` | sysprog/afina/src/storage/SimpleLRU.cpp:80-120 | while all pairs weigh the same and two fit, every store is right |
| `LruAgreement.UnequalWeightsOverfill` | sysprog/afina/src/storage/SimpleLRU.cpp:122-125 | four stores after which a cache bounded by 6 bytes holds 8 |
| `Expectations.Registry.RetireAllPreRequisites` | sysprog/afina/third-party/googletest-release-1.8.0/googlemock/src/gmock-spec-builders.cc:94-111 | retires exactly the direct and indirect prerequisites, despite the two shortcuts, when the retired set is closed, and keeps it closed |
| `Expectations.Registry.AllPrerequisitesAreSatisfied` | sysprog/afina/third-party/googletest-release-1.8.0/googlemock/src/gmock-spec-builders.cc:113-125 | true exactly when every direct and indirect prerequisite is satisfied |
| `Expectations.Registry.FindUnsatisfiedPrerequisites` | sysprog/afina/third-party/googletest-release-1.8.0/googlemock/src/gmock-spec-builders.cc:127-146 | adds to the result exactly what the walk with its shortcut finds |
| `Expectations.NothingUnsatisfiedIff` | sysprog/afina/third-party/googletest-release-1.8.0/googlemock/src/gmock-spec-builders.cc:127-146 | if satisfied expectations that were called have satisfied prerequisites, the walk finds nothing exactly when all prerequisites are satisfied |
| `Expectations.UnsatisfiedAreUnsatisfied` | sysprog/afina/third-party/googletest-release-1.8.0/googlemock/src/gmock-spec-builders.cc:127-146 | whatever the walk reports is a prerequisite and not satisfied |
| `Expectations.UnsatisfiedAreReported` | sysprog/afina/third-party/googletest-release-1.8.0/googlemock/src/gmock-spec-builders.cc:127-146 | every unsatisfied direct prerequisite is reported, and so is all that a satisfied one never called leads to |
| `Expectations.ShortcutsAreSound` | sysprog/afina/third-party/googletest-release-1.8.0/googlemock/src/gmock-spec-builders.cc:97-101 | in every run of new expectations and calls the retired set is closed, and the report is empty exactly when all prerequisites are satisfied |
| `Expectations.OrderIsEnforced` | sysprog/afina/third-party/googletest-release-1.8.0/googlemock/include/gmock/gmock-spec-builders.h:1092-1102 | in every run a call is handled only once all prerequisites are satisfied; and once an expectation that may be called at all was called, no prerequisite of it ever handles a call again |
| `Expectations.OrderHoldsIff` | sysprog/afina/third-party/googletest-release-1.8.0/googlemock/include/gmock/gmock-spec-builders.h:1187-1217 | a call handled by `e` ends the use of all prerequisites of `e`, in every later run, if and only if `e` may be called at all or its direct prerequisites are retired already |
| `Expectations.TimesZeroReleasesNothing` | sysprog/afina/third-party/googletest-release-1.8.0/googlemock/include/gmock/gmock-spec-builders.h:1195-1206 | `Times(1)`, `Times(0)` after it and one call of each: the second call is excessive, nothing is retired, and the first expectation handles calls again |
| `ExpectationHistory.HandlerIsNewest` | sysprog/afina/third-party/googletest-release-1.8.0/googlemock/include/gmock/gmock-spec-builders.h:1714-1728 | a call is handled by the newest matching expectation that is not retired and whose prerequisites are all called within their bounds, and by none only if there is none |
| `ExpectationHistory.CallChanges` | sysprog/afina/third-party/googletest-release-1.8.0/googlemock/include/gmock/gmock-spec-builders.h:1187-1217 | a call adds one to its handler's count and to no other; exactly if the handler was below its bound its prerequisites retire, and it too if told to and now at the bound |
| `ExpectationHistory.CountsAreCalls` | sysprog/afina/third-party/googletest-release-1.8.0/googlemock/include/gmock/gmock-spec-builders.h:1187-1217 | after any run an expectation's count is the number of calls it handled |
| `ExpectationHistory.RetiredIff` | sysprog/afina/third-party/googletest-release-1.8.0/googlemock/include/gmock/gmock-spec-builders.h:1187-1217 | after any run exactly those are retired that were told to retire on saturation and are saturated by calls, and those that precede one that may be called and was |
| `ExpectationHistory.UsedUpNeverHandles` | sysprog/afina/third-party/googletest-release-1.8.0/googlemock/include/gmock/gmock-spec-builders.h:1211-1213 | an expectation saturated and told to retire handles no call of any later run |
| `ExpectationHistory.ExpectationsAreAsMade` | sysprog/afina/third-party/googletest-release-1.8.0/googlemock/src/gmock-spec-builders.cc:794-802 | after any run each expectation has the bounds it was made with, and as prerequisites exactly those named and the latest earlier one of each of its sequences, read off the run's actions |
| `ExpectationHistory.SequencesKeepOrder` | sysprog/afina/third-party/googletest-release-1.8.0/googlemock/src/gmock-spec-builders.cc:794-802 | of any two expectations made in one sequence the earlier is a prerequisite of the later |
| `Expectations.SequencesArePrerequisites` | sysprog/afina/third-party/googletest-release-1.8.0/googlemock/src/gmock-spec-builders.cc:794-802 | an earlier member of a sequence is a prerequisite of every later one |
| `Expectations.ActionKeepsInv` | sysprog/afina/third-party/googletest-release-1.8.0/googlemock/include/gmock/gmock-spec-builders.h:1187-1217 | calls, excessive ones included, and new expectations keep the invariant |
| `Expectations.Registry.AddToSequences` | sysprog/afina/third-party/googletest-release-1.8.0/googlemock/src/gmock-spec-builders.cc:794-802 | each sequence's last expectation becomes a prerequisite, and the new one its last |
| `Expectations.Registry.AddExpectation` | sysprog/afina/third-party/googletest-release-1.8.0/googlemock/include/gmock/gmock-spec-builders.h:1601-1622 | a new expectation, in place: what the runs take making one to be, with the last member of each of its sequences among its prerequisites |
| `Expectations.Registry.FindMatchingExpectation` | sysprog/afina/third-party/googletest-release-1.8.0/googlemock/include/gmock/gmock-spec-builders.h:1714-1728 | the newest active matching expectation whose prerequisites are satisfied |
| `Expectations.Registry.Invoke` | sysprog/afina/third-party/googletest-release-1.8.0/googlemock/include/gmock/gmock-spec-builders.h:1679-1702 | a whole call, in place: what the runs take a call to be; one that nothing handles changes nothing |
| `Expectations.Registry.GetActionForArguments` | sysprog/afina/third-party/googletest-release-1.8.0/googlemock/include/gmock/gmock-spec-builders.h:1187-1217 | counts the call; unless it is excessive, retires the prerequisites and, if so asked, the saturated expectation |
| `Primes.IsPrimeByTrial` | sysprog/afina/third-party/googletest-release-1.8.0/googletest/samples/prime_tables.h:58-67 | decides primality for every integer |
| `Primes.IsPrimeByOddTrial` | sysprog/afina/third-party/googletest-release-1.8.0/googletest/samples/sample1.cc:47-68 | decides primality for every integer, trying odd divisors only |
| `Primes.SieveTable.CalculatePrimesUpTo` | sysprog/afina/third-party/googletest-release-1.8.0/googletest/samples/prime_tables.h:102-114 | for a bound of at least 1 the table holds exactly the primes |
| `Primes.SieveTable.IsPrime` | sysprog/afina/third-party/googletest-release-1.8.0/googletest/samples/prime_tables.h:89-91 | true exactly for the primes within the table |
| `Primes.SieveTable.GetNextPrime` | sysprog/afina/third-party/googletest-release-1.8.0/googletest/samples/prime_tables.h:93-99 | the smallest larger prime, or -1 if the table has none |
| `Primes.NextPrimeByTrial` | sysprog/afina/third-party/googletest-release-1.8.0/googletest/samples/prime_tables.h:69-75 | for p of at least 0 the smallest larger prime, for which the search always ends; -1 for the others |
| `Primes.PrimesNeverEnd` | sysprog/afina/third-party/googletest-release-1.8.0/googletest/samples/prime_tables.h:69-75 | there is a prime beyond every number |
| `Primes.HybridTable.IsPrime` | sysprog/afina/third-party/googletest-release-1.8.0/googletest/samples/sample8_unittest.cc:62-67 | agrees with trial division on every integer, with or without a table |
| `Primes.HybridTable.GetNextPrime` | sysprog/afina/third-party/googletest-release-1.8.0/googletest/samples/sample8_unittest.cc:69-75 | for every p from -1 on: agrees with the search on the fly if and only if p is not -1, or there is no table, or the table has no room for 2; where it does not it returns 2 |

## Left out

- Sockets, epoll registration, accepting, signals, processes and logging; reads are arbitrary non-empty chunks of at most the buffer, and a write is an arbitrary result of `send`.
- The storage behind a connection: an execution's answer is a function of the calls so far, and other connections' calls are not represented.
- `setjmp`/`longjmp` and the copying of stacks: control moves to the next task at its saved point. Clocks and elapsed times are left out with them.
- Files of fewer than two numbers in the sorting program: `main` writes two integers to a stack of as many entries as the file has numbers.
- HwSort.SortFiles: accounts for the arrays of numbers, not for the stacks, which `main` frees as well.
- Memory models weaker than sequential consistency, and fairness of the kernel's scheduler beyond what a termination claim names.
- `timed_lock` and `timed_lock_shared`, which are declared and not defined; the `shared_lock` wrapper.
- The `start` flag of the futex program, and `pthread_create` and `pthread_join`.
- `SEM_UNDO`, removal of the queue and the semaphores, full queues, and lines that do not fit the 512-byte message buffer.
- Numbers and file reading around the shared-memory channel: its two sides agree on the sizes of their messages, as `sorter` and `main` do.
- `cthread_exit` and return codes: leaving the thread's function either way is one step. Reuse of a freed node's address by `malloc` is not represented.
- Protocol.Parser.ParseByte: overflow of `exprtime`, undefined in the source, is the error its test was meant to raise.
- The `replace` and `delete` commands, which the parser does not know, and the texts of exceptions.
- The LRU cache's destructor, and its thread-safe wrapper, a mutex around each call.
- Mock actions, matchers and cardinalities other than bounds on the number of calls; a call is the set of expectations whose matchers accept it.
- Expectations that gain prerequisites after their `EXPECT_CALL` statement.
- Primes.HybridTable.GetNextPrime: with a table, not for p below -1, where the source reads before the start of its array.
- Primes.IsPrimeByTrial: on unbounded integers; in the source `i*i` leaves the range of `int` for primes near its maximum.
- Primes.NextPrimeByTrial: does not model the wrap of `int` that ends the source's loop when there is no larger prime in range.
- `MatchMatrix::NextGraph` and the explanations written to listeners.
- Unfinished code of the repository (flat combining, the thread pool, the file system and allocator stubs) and the shell parser, which have no settled meaning.
