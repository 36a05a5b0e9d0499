# Verified models of four pieces of simplefs

Dafny models of four programs of the repository, with proofs about all of their runs. Check
everything with `dafny verify dfyconfig.toml`.

**Two mutexes in opposite orders (`app/lock.cpp`).** Two workers take `mutex1` and `mutex2` in
opposite orders, bump two shared counters, read one back without a lock, and leave only on
reading exactly 100000. `LockProtocol` is the interleaving system: one step per statement that
touches shared state, each `++` a load and a store, the unlocked read-back one atomic load. A
schedule is any sequence of thread choices; a worker that must wait stays where it is.
`LockProgress` decides which states are doomed, stuck or still able to complete a call,
`LockExit` which workers can still leave, and `LockDeadlock` whether the deadlock is still ahead,
all as tests on program counters and counters.
`LockProcess` adds `main` and the two idle threads and shows that the process runs this protocol
and nothing else. `LockProgram` is the program over mutable globals.

**The image writer (`simplefs/mkfs-simplefs.c`).** `Mkfs` is the sequence of five writes and two
relative seeks over an image and an offset. A plan gives the kernel's answer to every call, so
every pattern of failed and short calls is covered. `Painting` is a theory of objects stored at
absolute places; the program is proved to agree with the absolute layout, and `MkfsLayout` draws
the conclusions. Block size and structure sizes are parameters, and a structure is any bytes of
its size, so unassigned members and padding are covered (`simplefs/simple.h:12` and
`simplefs/simple.h:47` give 4096 and 2 for the block size and the root directory's block).
`MkfsProgram` is the program over a mutable descriptor.

**The leak loop (`mm_spinlock/mm_spinlock.c`).** `LeakLoop` runs the `MM_LEAK_DEBUG` loop over a
set of live blocks and an arbitrary allocator that looks at the whole history; `LeakProgram` is
the do-while loop.

**The retained buffer (`mm/mm_debug.c`).** `MmDebug` follows the 16-byte buffer and `mm_pid` over
any history of writes; `MmProgram` overwrites the array in place.

Findings:

- A worker that can complete no further call need not be deadlocked: both workers may be about
  to return 100000 with every lock free (`EndWithoutDoom`). `ExactDoom` therefore has two cases.
- Until a worker has read 100000, or both are bound to, the deadlock is still ahead
  (`ExactDeadlock`).
- Missing 100000 is possible without a deadlock, for one worker or for both
  (`LoneExitIsReachable`, `NoExitIsReachable`).
- `simplefs/README:16` puts the initial file in block two; the code puts its data in block three
  and the root directory's record in block two. The model follows the code.
- `write_superblock` compares with the block size and not with the size of what it writes, so
  mkfs can succeed exactly when the super block is at least a block long (`CanSucceed`).
- The number that `proc_mm_write` parses need not be the one that was written: after "345", a
  write of "12" is parsed as "125" (`LeftoverIsParsed`; `ParsesWhatWasWritten` says exactly when
  it is right).

## Model

| member | source | states |
|---|---|---|
| LockProtocol.OwnershipInvariant | app/lock.cpp:17-67 | in every reachable state each mutex's owner is fixed by the two program counters, the workers exclude each other, and a worker outside its function or exited owns nothing |
| LockProtocol.OwnerUnlocks | app/lock.cpp:24-38 | every unlock in every run is made by the mutex's owner |
| LockProtocol.NoLostUpdatesInvariant | app/lock.cpp:19-38 | with `++` split into load and store, each counter is the number of completed calls plus the calls in flight past their increment of it |
| LockProtocol.CounterAgreement | app/lock.cpp:20-36 | the counters differ exactly by who is between its two increments, so by at most one, and agree with the completed calls when both mutexes are free |
| LockProtocol.NextReturnedValue | app/lock.cpp:27-40 | a worker returns the completed-call total, plus one exactly when the other worker is past its increment but still holds a lock |
| LockProtocol.WaitsExactly | app/lock.cpp:19-35 | in every reachable state a worker's turn leaves it where it is if and only if it has exited or the mutex it is about to lock is held by the other worker |
| LockProtocol.CallAlone | app/lock.cpp:17-54 | an uninterrupted call from a state with both mutexes free is the sequential function: both counters plus one, mutexes free again, the new number of calls returned, and the loop left exactly on 100000 |
| LockProtocol.ReturnedValues | app/lock.cpp:27-66 | over any run one value per completed call, strictly increasing, within one of the total; a worker leaves its loop if and only if the newest value is 100000, and goes round again on any other |
| LockProgress.ProgressCharacterised | app/lock.cpp:17-67 | nobody can step if and only if both have exited or line 22 waits for line 35 |
| LockProgress.SurvivorNeverBlocks | app/lock.cpp:43-67 | after one worker has exited the other is never blocked, in any continuation |
| LockProgress.DoomIsInevitable | app/lock.cpp:19-35 | a doomed state stays doomed, completes no call, and every turn of a worker takes it one of at most three steps closer to its wait |
| LockProgress.DoomedBecomesDeadlocked | app/lock.cpp:19-35 | three turns of each worker turn a doomed state into the deadlock, in any order and whatever else is scheduled |
| LockProgress.DeadlockIsFrozen | app/lock.cpp:22-35 | the deadlock never changes and both counters stay at completed calls plus one |
| LockProgress.ExactDoom | app/lock.cpp:19-66 | some continuation completes a further call if and only if the state is not doomed and not both workers leave on 100000 or have left |
| LockProgress.DeadlockIsReachable | app/lock.cpp:19-35 | some run deadlocks |
| LockExit.ExactExit | app/lock.cpp:17-67 | from every reachable state, a worker exits in some continuation if and only if it has read 100000, or the state is not doomed and the earliest value it can return is at most 100000 |
| LockExit.ExitOutcome | app/lock.cpp:27-66 | when one worker returns 100000, the other can exit exactly when it is past its second increment and has not read, or has read 100000 |
| LockExit.ExitIsInevitable | app/lock.cpp:36-66 | in that case both exit in every continuation that gives each four turns |
| LockExit.OvershotNeverExits | app/lock.cpp:45-66 | a worker that has returned more than 100000 exits in no continuation |
| LockDeadlock.ExactDeadlock | app/lock.cpp:17-67 | from every reachable state some continuation deadlocks if and only if no worker has read 100000 and not both are past their second increment, unread, with both counters at 100000 |
| LockExit.LoneExitIsReachable | app/lock.cpp:43-67 | for either worker, some run lets it exit and the other one never |
| LockExit.BothExitIsReachable | app/lock.cpp:43-67 | some run lets both workers exit |
| LockExit.NoExitIsReachable | app/lock.cpp:43-67 | some run leaves both workers unable to exit in any continuation although calls can still complete |
| LockExit.EndWithoutDoom | app/lock.cpp:24-53 | some run leads to a state with nobody in a critical section where no further call completes |
| LockProcess.SameReachableStates | app/lock.cpp:91-111 | inside the process the workers reach exactly the states of the protocol |
| LockProcess.ProcessRunsProtocol | app/lock.cpp:91-122 | every run of the whole process is, for the workers, a run of the protocol |
| LockProcess.ProtocolRunsInProcess | app/lock.cpp:91-122 | once main has created the threads, every run of the protocol is one of the process |
| LockProcess.MainNeverDestroys | app/lock.cpp:69-122 | in no run does main reach a mutex destroy or return; it waits for thread3 at the latest, and only after both workers exited |
| LockProcess.MainInOrder | app/lock.cpp:94-124 | main goes through its four creates, the sleep, four joins, four destroys and the return in this order, and stays only at a join whose thread has not ended |
| LockProcess.FailedCreateAborts | app/lock.cpp:94-109 | a failed pthread_create ends the process: whatever is scheduled afterwards nothing changes |
| LockProcess.NoStepBeforeCreation | app/lock.cpp:94-109 | in every run the results of the creates so far fix where main stands, and a thread whose create has not succeeded is as new |
| LockProcess.TurnOfThread | app/lock.cpp:43-109 | after any run a thread's turn moves that thread alone if its create has succeeded and none has failed, and does nothing otherwise |
| LockProcess.FirstJoinPasses | app/lock.cpp:111-115 | main gets past its first join in some continuation if and only if thread1 can still exit, by the same test |
| LockProcess.MainCanReachThread3 | app/lock.cpp:114-117 | some run brings main to the join of thread3, where it stays in every continuation |
| LockProcess.DoomedMainWaits | app/lock.cpp:91-114 | once the workers are doomed main never passes its first join |
| LockProgram.Program.Thread1 | app/lock.cpp:17-54 | one statement of thread1 on the globals is one step of the protocol and touches no other thread |
| LockProgram.Program.Thread2 | app/lock.cpp:30-67 | the same for thread2 |
| LockProgram.Program.MainThread | app/lock.cpp:91-125 | one statement of main on the globals is the step of main that MainInOrder and FailedCreateAborts pin down |
| LockProgram.Program.Execute | app/lock.cpp:91-125 | under any scheduler the program follows the transition system; no update is lost, owners follow the program counters, no mutex is destroyed |
| Mkfs.StepPaints | simplefs/mkfs-simplefs.c:15-123 | a step that starts at its object's absolute place stores there what the kernel takes, succeeds exactly when the kernel takes all and lets the padding be skipped, and then leaves the offset at the next object's absolute place |
| Mkfs.PartialFailure | simplefs/mkfs-simplefs.c:153-171 | for every pattern of failures and short writes the steps before the first refused one are complete, the image is the old one with their objects at their absolute places and exactly what was taken of the refused one, and 0 is returned exactly when none is refused |
| Mkfs.CanSucceed | simplefs/mkfs-simplefs.c:28-34 | some pattern of answers makes mkfs succeed if and only if the super block is at least a block long |
| Mkfs.LongSuperBlock | simplefs/mkfs-simplefs.c:28-34 | a super block longer than a block stops mkfs with 1, even when all of it is written, unless the kernel cuts the write off at exactly the block size |
| MkfsLayout.DisjointExactlyWhenFits | simplefs/mkfs-simplefs.c:68-102 | the five written ranges are pairwise disjoint if and only if two inodes fit in the inode store and the record in its block |
| MkfsLayout.Frame | simplefs/mkfs-simplefs.c:76-102 | in every run a byte outside the completed objects and the written prefix keeps its value, and no byte of a later object is touched |
| MkfsLayout.LayoutAgreement | simplefs/mkfs-simplefs.c:28-116 | after success the objects are read back at 0, BS, BS + sizeof(inode), 2 BS and 3 BS |
| MkfsLayout.LookupExact | simplefs/mkfs-simplefs.c:40-106 | looking a file up yields a body if and only if the stored numbers lead from the first inode with the root's number through the first record with that name to the first inode with the record's number, a regular file with that body |
| MkfsLayout.ReadAtExact | simplefs/mkfs-simplefs.c:28-116 | reading back gives exactly the bytes of the image at that place, all of them or nothing |
| MkfsLayout.LookupRoundTrip | simplefs/mkfs-simplefs.c:40-165 | after success on any old image, looking the file up by name and following the stored numbers gives the body, for every encoding of the structures |
| MkfsLayout.RetryRecovers | simplefs/mkfs-simplefs.c:53-81 | "Retry your mkfs": after any earlier run a successful one gives the image that it gives on the untouched device |
| MkfsProgram.Descriptor.WriteInode | simplefs/mkfs-simplefs.c:63-87 | the method on the descriptor does the third step, padding seek included |
| MkfsProgram.Descriptor.WriteDirent | simplefs/mkfs-simplefs.c:88-111 | the method on the descriptor does the fourth step, padding seek included |
| MkfsProgram.Descriptor.MakeFilesystem | simplefs/mkfs-simplefs.c:153-171 | the do-break sequence leaves the objects before the first refused step and what was taken of the next, and returns 0 exactly when no step is refused |
| MkfsProgram.MkfsSimplefs | simplefs/mkfs-simplefs.c:125-172 | usage and open errors return -1 and change nothing; otherwise the image and result are those of the sequence |
| LeakLoop.IterationExact | mm_spinlock/mm_spinlock.c:130-138 | one iteration asks the allocator once, and again only if it got a block: the log and the live set for a refused first, a refused second and a freed second block |
| LeakLoop.LeakConservation | mm_spinlock/mm_spinlock.c:127-140 | whatever the allocator does: 128 iterations, each the outcome that its answers dictate in the heap the earlier ones lead to; the live set gains exactly the first blocks, all new, only second blocks are freed, once each; growth is 8192 bytes per first block, at most 1 MiB |
| LeakLoop.CallsOnlyLeak | mm_spinlock/mm_spinlock.c:105-145 | over any number of calls nothing live is lost and growth is at most 1 MiB a call |
| LeakLoop.CallsConsistent | mm_spinlock/mm_spinlock.c:130-138 | replaying the log of any number of calls meets no double free, no free of a dead block, no allocation of a live one, and ends in the live set |
| LeakLoop.LeakClosedForm | mm_spinlock/mm_spinlock.c:127-140 | n calls leave min(C, L0 + 128 n) of C blocks live |
| LeakLoop.ExhaustedAfter | mm_spinlock/mm_spinlock.c:127-140 | allocation fails after n calls if and only if 128 n is at least what was free |
| LeakLoop.CallByRoom | mm_spinlock/mm_spinlock.c:127-140 | in a heap of fixed capacity iteration k frees a second block if and only if two blocks are left, is refused one if and only if one is left, and allocates nothing if and only if none is |
| LeakLoop.RoomyCall | mm_spinlock/mm_spinlock.c:127-140 | with more than 128 blocks to spare one call logs 256 allocations and 128 frees, each of the block just allocated, and no failure |
| LeakLoop.CapacityIsPossible | mm_spinlock/mm_spinlock.c:130-135 | an allocator of every capacity exists |
| LeakProgram.Slab.WorkqueueProcStore | mm_spinlock/mm_spinlock.c:105-145 | the do-while loop leaves the heap of 128 iterations, each the outcome that the allocator's answers dictate and accounted for block by block, and returns its count |
| MmDebug.WriteByByte | mm/mm_debug.c:16-42 | every byte of the buffer and the result after one write: more than 16 bytes are refused with -14 and nothing changes; otherwise each byte is copied, zeroed or kept, and the count is returned exactly when all could be copied |
| MmDebug.WriteResult | mm/mm_debug.c:33-42 | each write stores a prefix of its bytes, padded with zeros at most up to its length, and leaves every byte behind the stored ones alone; the count is returned exactly when all its bytes are in the buffer, and only then can mm_pid change |
| MmDebug.OverlayHistory | mm/mm_debug.c:31-43 | byte i of the buffer is byte i of the most recent write that stored it |
| MmDebug.UntouchedHistory | mm/mm_debug.c:91-97 | a byte that no write stored is still 0 |
| MmDebug.TextExact | mm/mm_debug.c:40 | the text that is parsed is exactly what stands before the first NUL, and there is none if and only if there is no NUL |
| MmDebug.PidIsParsed | mm/mm_debug.c:36-42 | after a complete write mm_pid is the parse of the text then in the buffer, or what the overrun found if it has no NUL, and its old value if that is no number |
| MmDebug.PidHistory | mm/mm_debug.c:34-42 | after any history mm_pid is the parse of the text, or the result of the overrun, that the most recent complete write with a number left in the buffer |
| MmDebug.PidNeverSet | mm/mm_debug.c:19-42 | without such a write mm_pid is 0 |
| MmDebug.ParsesWhatWasWritten | mm/mm_debug.c:36-40 | a complete write is parsed as the text written if and only if it contains a terminator or the byte behind it is 0 |
| MmDebug.LeftoverIsParsed | mm/mm_debug.c:36-40 | "345" and then "12" is parsed as "125" |
| MmDebug.OverrunExactly | mm/mm_debug.c:36-40 | the buffer has no terminator if and only if all 16 bytes were last stored nonzero; never if no write stores the last byte |
| MmProgram.MmEntry.CopyFromUser | mm/mm_debug.c:36-39 | the copy into the array lays what was read over the old bytes and reports whether it was complete |
| MmProgram.MmEntry.Write | mm/mm_debug.c:31-43 | the new buffer, mm_pid and result, for rejected, incomplete, unparsable and parsed writes |
| MmProgram.MmEntry.WriteAll | mm/mm_debug.c:31-97 | any sequence of writes to a fresh module gives the replayed state |

## Left out

- Data races and signed overflow in `app/lock.cpp`: the unlocked reads are atomic loads and the counters are unbounded integers.
- Real time: `sleep`, `mdelay` and `msleep` are steps that do nothing, or are dropped.
- The buffers of `thread3` and `thread4`, and `mutex3` and `mutex4`: nothing else uses them.
- Joins that return an error: a join returns once its thread has terminated.
- `simplefs/simple.c`, `globalfifo/globalfifo.c`, `hook/hook.c`: the kernel side is not part of this model; the reader in `MkfsLayout` follows the numbers that mkfs stores and searches the inode store and the directory block in order.
- Encodings of the on-disk structures and the value of `free_blocks`: the results hold for every encoding, and the code itself marks block management as unimplemented.
- Wrap-around of the padding lengths: `size_t` differences that become a 64-bit `off_t` are integer differences.
- Writes that report an error after transferring bytes, and closing the descriptor: a failed write transfers nothing.
- Messages, proc registration, seq_file plumbing, work queues and code that is not compiled in.
- Concurrent calls of `workqueue_proc_store` and `proc_mm_write`: calls are taken one after the other.
- `kstrtoint`: an arbitrary partial function of the text before the terminator; without a terminator its result is an input.
- Mkfs.StepPaints: assumes, like every result on `Mkfs` and `MkfsLayout` except `Mkfs.CanSucceed`, `Mkfs.LongSuperBlock` and the reader's own lemmas, that both inodes have one size and that the super block fills its block (`Sizes`), as `simplefs/simple.h:56-65` and `simplefs/simple.h:76-87` make them.
- MkfsLayout.LayoutAgreement: assumes moreover that two inodes fit in a block and the record fits in one (`Fits`), and so do the last clause of `MkfsLayout.Frame` and `MkfsLayout.LookupRoundTrip`; by `MkfsLayout.DisjointExactlyWhenFits` the objects would overlap otherwise.
- MkfsLayout.LookupRoundTrip: assumes moreover that the two inode numbers differ, as `simplefs/simple.h:37` and `simplefs/mkfs-simplefs.c:13` make them.
