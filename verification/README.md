# libmandrews, modelled and proved

This project models the stateful core of libmandrews in Dafny and proves what that core is for. There are four parts.

**Thread pool and semaphore.** `Semaphore.dfy` models `Semaphore` as a state machine over the critical sections of
`mutex_`, with the wait set of the condition variable (sleeping and woken threads), spurious wake-ups and the wrap of
`uint64_t count_`. `Pool.dfy` is the step relation of `TaskMaster`: one position per worker, per client thread and for
the owner inside `cleanup`; `lock_` and `mutex_` have explicit holders; pushing and notifying are separate steps under
one hold of `lock_`; the two reads `cleanup` bases its decision on are separate steps. `PoolInvariant.dfy` is the
whole-system invariant, `PoolTheorems.dfy` what follows over every run, `PoolCalls.dfy` what a run owes to the callers of
`spawn`, `assign`, `occupy` and `occupied`, `CleanupWaking.dfy` what can end the wait of `cleanup` and how it gets to its
end, `TaskMaster.dfy` the class itself, one method per atomic section, each proved equal
to the step it performs, with the invariant and the shutdown guarantee stated of the object. `SemaphoreTest.dfy` is the
second client.

**Copy-on-write handles.** `SharedHandles.dfy` and `Arrays.dfy` are heap objects: handles, control blocks, buffers. A
`Graph` knows all handles and blocks, an `Arena` all arrays; every operation keeps their `Valid()`, so counts, flags and
sharing are right after any sequence of operations. Whether the buffers behind them are still allocated is a second
question: every handle carries the object its callback captured, the arena lists the buffers the callbacks have deleted,
and `Intact()` says that no attached array views a deleted one. Contents are only claimed for buffers not deleted.

**Bit tricks.** `Bits.dfy` defines `&`, `|` and shifts on binary expansions; `Subsets.dfy` is the `SUBSETS` loop;
`TypeCounter.dfy` and `TypeMasks.dfy` are the compile-time counter and the inheritance test of `type.h`.

**Log lines and ticker.** `Wrapping.dfy`, `Columns.dfy` and `Dump.dfy` are `Dump::Print`, `Output` and `Filename`;
`Ticker.dfy` is `interval_callback`.

## Assumptions

- Pool: once `cleanup` has begun only bodies of `func_` assign; only pool workers call `obey`; `spawn` is one step of
  the owner before `cleanup`; the queue stays shorter than 2^64 (implied by fewer than 2^64 notifications) and there are
  fewer than 2^31 threads (`Fits`). A body of `func_` may call `assign`, `occupy` and `occupied` any number of times and
  return whenever it is not inside one of them.
- A critical section whose last action releases its lock is one step with that release where nobody else can look
  in between; the re-acquisition and immediate release of `lock_` at the end of `wait_for` is merged with the next poll.
- Handles are used from one thread. `m_cnt` and `m_cow` are always set together and are one object, `Control`, which
  also records the callbacks run for it. A callback deletes the `m_ptr` its captured array has at that moment; when the
  captured array is gone the call is counted as stray and nothing more is said about it. An array in its own destructor
  still has its pointer.
- `Dump` and `interval_callback` meet an arbitrary text and arbitrary timing; the clock never runs backwards and sleeps
  last at least as long as asked.

## Where the code differs from what one might expect

- A callback is copied with its handle and keeps naming the array it was made for. So the end of `s` in
  `{ Array s = a + b; }` deletes the buffer of `a` (`SumOutOfScope`), and a copy that outlives its original runs a
  callback on a dead object (`CopyOutlivesOriginal`). `Array.Destroy` says exactly when a destructor does such damage.
- The exit test of `cleanup` is false when `notify_one` is issued, because the notifier is not counted; the worker may
  be counted again before `cleanup` looks. `LeavesTheWaitIff` says exactly when anything but the 100 ms poll can end the
  wait, `CleanupCanSleepInQuiescence` gives a run that depends on the poll. (With an empty `threads_` a queued task does
  not help: nobody pops it.)
- Copy-assigning a handle to itself is safe exactly when its block has another handle (`SourceSurvives`; `Assign`
  requires no more); move-assigning it to itself leaves it detached.
- A base name longer than 14 characters makes the first row seven columns wider than computed, because the dots are
  written over part of an escape sequence. The width contract states the exact excess.
- `Print` stops at the first empty line and after the first line that fills its rows completely. `NothingLostIff` says
  exactly for which texts that matters. A NUL hides the rest of its row and makes the loop skip one character of the
  line (`Shown`).
- `1 << n` is an `int` shift: a single bit for n < 31, for n = 31 sign-extended to the bits 31 to 63, and undefined from
  n = 32 on. The inheritance test is exact for up to 32 types all the same, and for no more
  (`ThirtyThreeTypesAreTooMany`).
- `register_type` lacks a `;` in `type.h:44`; the model follows the evident intent.

## Model

| member | source | states |
|---|---|---|
| Semaphores.SleeperNeverBlocksAPermit | semaphore.h:16-34 | no lost wake-up in any run: a thread sleeps unsignalled only while the semaphore runs and the permits do not exceed the woken threads; a woken thread can take a free permit |
| Semaphores.TeardownIsFinal | semaphore.h:22-34 | after teardown nobody sleeps again and every `wait` answers false, whatever happens |
| Semaphores.StepKeepsInv | semaphore.h:16-34 | every critical section and every spurious wake-up keeps the semaphore's invariant, wrap included |
| Semaphores.Semaphore.Post | semaphore.h:16-20 | the class adds one permit with 64-bit wrap and wakes one sleeper if there is any; it keeps the invariant: no wake-up is lost |
| Semaphores.Semaphore.Evaluate | semaphore.h:22-28 | one evaluation of the wait predicate: sleep if running without a permit, or else take one, with wrap, and answer `running_`; the invariant is kept |
| Semaphores.Semaphore.Shut | semaphore.h:30-34 | the class stops running, wakes every sleeper and leaves the permits alone |
| SemaphoreTest.PermitBound | semaphore.cpp:4-21 | for any number of permits and threads, at most that many threads are between a true `wait` and the matching `notify`, and the asserted `c >= 0` holds in every state, after teardown too |
| SemaphoreTest.RunsUntilTeardown | semaphore.cpp:16-20 | the semaphore runs until the owner's teardown and not a step longer, with the same threads all along |
| SemaphoreTest.TestNeverStalls | semaphore.cpp:7-14 | with a permit and a thread the loop never deadlocks |
| SemaphoreTest.EveryThreadLeaves | semaphore.cpp:18-20 | after teardown the run is bounded and can only end with every thread out of its loop, so every join returns |
| PoolInvariant.StepKeepsInv | taskmaster.h:35-89 | every step of every thread keeps the whole-system invariant (locks, wait set, accounting, history, phases) |
| PoolTheorems.PermitsMatchTasks | taskmaster.h:49-65 | until teardown `count_` + claimed-not-popped workers + (1 while an assigner is between push and notify) equals the queue length; `waiting_` counts the workers between `waiting_++` and `waiting_--` |
| PoolTheorems.PopNeverMeetsEmptyQueue | taskmaster.h:60-62 | `front` and `pop` never meet an empty queue |
| PoolTheorems.NotifyNeverWraps | semaphore.h:19 | `++count_` does not wrap while the semaphore runs, for it never exceeds the queue |
| PoolTheorems.WaitNeverWraps | semaphore.h:25-27 | while running a worker takes a permit exactly if there is one, and `--count_` does not wrap |
| PoolTheorems.ExactlyOnceInOrder | taskmaster.h:49-89 | tasks pushed = tasks popped, in order, followed by the queue; tasks popped = tasks running or finished, as multisets |
| PoolTheorems.OccupyBoundsTheQueue | taskmaster.h:71-80 | callers that only use `occupy` keep the queue at most one longer than the number of threads |
| PoolTheorems.SafeShutdown | taskmaster.h:38-48 | once the exit test succeeds, at teardown and ever after, every task pushed has been popped and its `func_` call has returned (`EveryTaskServed` says it of the calls made); when `cleanup` is done every worker has exited |
| PoolCalls.EverySpawnAddsAWorker | taskmaster.h:35-37 | in every run the number of workers is the number of `spawn`s, and one task is done for every return of `func_` |
| PoolCalls.EveryCallAccountedFor | taskmaster.h:49-80 | in every run, the tasks given to `assign` and those of the `occupy` calls that returned or will return true are exactly the tasks pushed and those of the assigns still on their way |
| PoolCalls.AssignNeverLoses | taskmaster.h:49-54 | in a run without `occupy`, the tasks assigned are exactly those pushed and those on their way |
| PoolCalls.UnderTheLock | taskmaster.h:49-80 | holding `lock_`, `assign` always appends its task; `occupy` appends exactly if the queue is not longer than the number of threads, and else answers false; `occupied` answers whether it is longer and changes nothing |
| PoolCalls.AnswersAreHonest | taskmaster.h:66-80 | whatever a call returns in any run was right at a moment of that call at which the caller held `lock_` |
| PoolCalls.HistoryOnlyGrows | taskmaster.h:49-65 | tasks are pushed and popped at the ends only; nothing is reordered later |
| PoolCalls.EveryTaskServed | taskmaster.h:38-65 | once the exit test succeeds, at teardown and ever after, the finished calls of `func_` are one for each task given to `assign` in the run and one for each task an `occupy` that returned true was given, and no others |
| PoolTheorems.ExitTestIsExact | taskmaster.h:41 | the two separately updated facts hold together exactly in a state with all workers waiting and an empty queue |
| PoolTheorems.QuiescenceIsClosed | taskmaster.h:39-65 | from a quiescent state nothing is pushed or run any more; only teardown ends the waiting |
| PoolTheorems.NotifierFailsTheTest | taskmaster.h:63 | whoever issues `no_tasks_.notify_one` is itself not counted, so the exit test is false; a sleeping `cleanup` is woken exactly when the queue is empty |
| PoolTheorems.OnlyThePollWakesCleanup | taskmaster.h:42 | asleep in a quiescent pool, `cleanup` is woken by nothing but the timeout or a spurious wake-up |
| PoolTheorems.CleanupCanSleepInQuiescence | taskmaster.h:39-43 | such a state is reachable |
| CleanupWaking.TestEndsOrWaits | taskmaster.h:39-43 | each look of the loop: on to the queue exactly if all workers are between `waiting_++` and `waiting_--`, out exactly if the queue is empty, and otherwise, with `lock_` released, into the wait, which a call, a spurious wake-up or the timeout ends |
| CleanupWaking.LeavesTheWaitIff | taskmaster.h:39-65 | asleep in its wait, `cleanup` can be got out by the workers alone exactly if there is a worker and a task is queued, just popped or being run; otherwise only the timeout or a spurious wake-up does (for a queue that leaves every worker room for a push) |
| CleanupWaking.WarmRun | taskmaster.h:39-65 | from every state that satisfies the condition, such a run, built step by step |
| CleanupWaking.ColdRun | taskmaster.h:39-65 | from every other state no run without timeout and spurious wake-up ends the wait or changes the condition |
| CleanupWaking.OnePollEndsIt | taskmaster.h:38-48 | once `cleanup` looks at a quiescent pool it never sleeps again: every run of the protocol's own steps is bounded in advance and can only end with all workers joined and `cleanup` returned |
| PoolTheorems.PoolNeverStalls | taskmaster.h:49-89 | with a worker and a task some worker or lock holder can always take a proper step: no deadlock between `lock_` and `mutex_`, no forgotten task |
| PoolTheorems.ShutdownTerminates | taskmaster.h:44-47 | after teardown every run is bounded by a measure known at teardown, and one that cannot continue has joined every worker |
| TaskMasters.TaskMaster.CallSection | taskmaster.h:49-80 | the sections of `assign`, `occupy` and `occupied` are the modelled steps; the one under `lock_` decides as `UnderTheLock` says |
| TaskMasters.TaskMaster.Spawn | taskmaster.h:35-37 | one more worker, at the beginning of its loop, behind the others |
| TaskMasters.TaskMaster.WorkerSection | taskmaster.h:55-65 | the sections of `obey` are the modelled steps |
| TaskMasters.TaskMaster.CleanupSection | taskmaster.h:38-48 | the sections of `cleanup` are the modelled steps |
| TaskMasters.TaskMaster.Run | taskmaster.h:31-99 | carrying out any schedule takes the object through exactly the states of the step relation, keeps the system invariant, adds a worker for every `spawn`, hands tasks out in order, and once the exit test has succeeded has served exactly the tasks of the schedule's calls |
| PoolTheorems.InvariantGuarantees | taskmaster.h:38-65 | what the invariant means for a single state: order, one owner per task, no pop from an empty queue, safe shutdown |
| SharedHandles.Shared.Unref | Shared.h:93-104 | the last handle deletes the block and runs its own `m_dtr` once; any other only decrements; a detached one does nothing |
| SharedHandles.Shared.Create | Shared.h:12-17 | a new handle is alone with a fresh, unflagged block and carries the callback given |
| SharedHandles.Shared.Copy | Shared.h:24-29 | copying keeps the graph invariant, shares and flags the block, and copies the callback |
| SharedHandles.Shared.Assign | Shared.h:38-47 | copy assignment keeps the graph invariant; the old callback runs if this was the last handle of its block, and no other ever does; the new one is the source's; self-assignment is covered when it is safe |
| SharedHandles.Shared.SourceSurvives | Shared.h:40-44 | the pointer `ref` reads through is non-null exactly for an attached source that is not the sole handle of its block assigned to itself |
| SharedHandles.Shared.MoveAssign | Shared.h:49-58 | move assignment keeps the graph invariant and detaches the source, self-moves and detached sources included |
| SharedHandles.Shared.Move | Shared.h:31-36 | move construction likewise |
| SharedHandles.Shared.Write | Shared.h:61-73 | after `write` the handle is alone with a block of count 1 and flag false, nobody else's pointer changed, every block still counts its handles, and no callback ran |
| SharedHandles.Shared.Destroy | Shared.h:19-22 | this handle's callback runs exactly for the block whose last handle this was |
| SharedHandles.Graph.SoleHandle | Shared.h:76-80 | no handle points to a deleted block; a count of one means nobody else points there |
| SharedHandles.AssignKeepsAccounts | Shared.h:38-47 | what one copy assignment does to any block keeps count, flag, life and callbacks in step with the handles |
| SharedHandles.MoveKeepsAccounts | Shared.h:49-58 | the same for a move, every overlap of the two handles and blocks included |
| SharedHandles.LeaveKeepsAccounts | Shared.h:93-104 | the same for a handle that leaves its block, and the block loses its last user exactly if the count was one |
| Arrays.Array.FromStatic | Array.h:63-69 | a deep copy: fresh buffer and block, same contents, a callback of its own |
| Arrays.Array.Copy | Array.h:71-75 | shares buffer, block and callback |
| Arrays.Array.Move | Array.h:77-81 | takes over contents, block and callback, detaches the source |
| Arrays.Array.AddAssign | Array.h:85-98 | the target becomes old contents + other's contents, also for `a += a` and shared buffers, and owns its block but keeps its callback; every other array keeps contents, block and callback; nothing is deleted |
| Arrays.Array.Plus | Array.h:116-121 | the result is the concatenation, on its own block, with the callback of the left operand; no existing array changes |
| Arrays.Array.CopyInto | Array.h:136-144 | a fresh buffer that starts with the elements of the view |
| Arrays.Array.Destroy | Array.h:133 | which buffer the callback deletes, if any; memory stays intact if and only if the array is not the last of its block, or its callback names an array that still exists and whose buffer is neither deleted already nor viewed by another attached array; sharing and callbacks of the rest stay as they were |
| Arrays.Arena.OwnCallbackIsHarmless | Array.h:63-69 | while memory is intact, destroying an array that has its own callback does no damage, however it has been written and copied |
| Arrays.Arena.MovedCallbackIsHarmless | Array.h:77-81 | nor does destroying one that was moved from its builder and still has that buffer |
| Arrays.Arena.ForeignCallbackHarms | Shared.h:93-104 | the last array of a block with the callback of another array in use, or of one that is gone, always does damage |
| Arrays.SumOutOfScope | Array.h:116-121 | for every `a` with its own callback and every `b`, the end of a scope holding `a + b` deletes the buffer `a` is using |
| Arrays.CopyOutlivesOriginal | Array.h:71-75 | destroying the original before its only copy makes the copy's destructor call back into a dead object |
| Subsets.StepIsPredecessor | macro.h:6 | `(i-1) & s` is the greatest submask of s below i |
| Subsets.StepCountsDown | macro.h:6 | in the numbering of submasks by their selected bits the step is minus one |
| Subsets.Enumerate | macro.h:4-6 | for every 64-bit s the loop visits each submask exactly once, 0 first and then strictly down from s, in 2^popcount(s) rounds |
| TypeCounter.ReadsCountIncrements | type.h:6-18 | whatever else uses `__COUNTER__`, each read yields the number of increments before it |
| TypeCounter.KthRegistrationReadsK | type.h:41-46 | the k-th `register_type` reads k |
| TypeCounter.UseInstantiates | type.h:6-18 | a read or an increment instantiates exactly the indices down to the nearest specialisation and sees the value written there |
| TypeCounter.RunTakes | type.h:6-18 | `__COUNTER__` goes up by one each time it is named |
| TypeCounter.SpecialisationComesFirst | type.h:6-18 | every walk ends at a specialisation and no index is specialised after it was instantiated |
| TypeMasks.ShiftIsOneBit | type.h:44 | of the 32 defined int shifts exactly those with n < 31 give a single bit |
| TypeMasks.ShiftedBits | type.h:44 | the 32nd gives the bits 31 to 63 |
| TypeMasks.MaskIsAncestors | type.h:28-46 | the bits of a type's mask are exactly its reflexive ancestors, over every inheritance DAG of up to 32 types |
| TypeMasks.RelatedIffCommonAncestor | type.h:48-49 | `is_related_to` holds exactly of types with a common reflexive ancestor |
| TypeMasks.DerivedIffAncestor | type.h:51-52 | `is_derived_of(D, B)` holds exactly when B is D or a transitive base of D |
| TypeMasks.MaskFits | type.h:20 | up to 31 types no mask needs more bits than there are types, and 32 types fit `type_t` |
| TypeMasks.NoThirtyThirdMask | type.h:44 | whatever int a 33rd shift gives, its mask is empty or meets an earlier one |
| TypeMasks.ThirtyThreeTypesAreTooMany | type.h:44-49 | so with 33 unrelated types the test errs |
| TypeMasks.InheritanceTestIsExact | type.h:6-52 | both tests are exact on the numbers a translation unit really reads from the counter |
| Wrapping.NothingLostIff | output.h:328-338 | nothing but a final newline is lost exactly when no line is empty and none but the last fills its rows |
| Wrapping.KeptIsPrefix | output.h:328-338 | what is printed of lines without NULs is a prefix of them, and where it stops |
| Wrapping.LinesJoin | output.h:328 | joining the lines with newlines gives the text back, and no line holds one |
| Wrapping.FillsIffMultiple | output.h:329 | filling its rows completely means having a multiple of `readLen` characters |
| Wrapping.PrintStep | output.h:328-332 | one turn of the loop keeps: rows so far, continued by what the rest will give, unwrap to what is to be printed |
| Dumping.Dump.Print | output.h:320-339 | for every text: which characters each row takes and shows, where the next row starts and where printing stops; the carat on the first row and behind every row that is not full, and nowhere else; prompt and blanks; unwrapping the rows gives, without NULs, the lines up to the first empty one or through the first that fills its rows |
| Wrapping.ShownIsKept | output.h:328-338 | the two descriptions agree on all lines without NULs |
| Dumping.Dump.Filename | output.h:358-372 | the exact bytes: the escape sequences around a field with the base name right-justified, or the last 14 characters of a longer one, and a field of blanks and digits that spell the line number; 40 bytes |
| Dumping.FilenameShows | output.h:358-372 | what is visible of it: name, colon, number, behind `...;36m` if the name was cut |
| Dumping.DecimalIsRight | output.h:368 | decimal notation: digits only, no leading zero, and read from left to right they give the number |
| Dumping.Dump.BaseStart | output.h:363-366 | finds the place behind the last slash, or the beginning if there is none |
| Dumping.Dump.MakePrompt | output.h:306-311 | the exact bytes of the prompt; visible are the tag, the file's fields in parentheses and the indentation; `real_len` is the width of that, less the excess a long base name causes |
| Dumping.Dump.Output | output.h:299-318 | the first row carries such a prompt and the others blanks; every row takes at most `maxTotalLength` columns plus that excess in the first row, exactly that for full plain rows |
| Columns.ColorIsInvisible | output.h:129-149 | every channel's colour is the one listed for it, seven bytes long, and takes no column |
| Ticker.SignedExactIff | timing.h:15 | the signed reading of `next - now()` is exact precisely while it fits a signed word |
| Ticker.CalledAsAsked | timing.h:13 | the callback is called again exactly as long as it returns true |
| Ticker.RoundByRound | timing.h:14-16 | no callback starts before the one before it returned; an overdue one starts at once, any other when it is due, but for the delays the world adds (while the lateness fits a signed word) |
| Ticker.NeverEarly | timing.h:13-17 | callback k never starts before start + k periods |
| Ticker.NoDrift | timing.h:13-17 | if callbacks are entered at most d after their sleeps should have ended and rounds fit a period, none is more than d late, for every k |
| Ticker.IntervalCallback | timing.h:9-18 | the loop on machine words: first callback, one more exactly for every round that asks for it, each placed as `RoundByRound` says, and both bounds; with a delay before the first callback, delays in rounds without a sleep, and negative periods included |

## Left out

- Networking, test runner, prompts, stream classes, terminal size: `socket.h`, `cases.h`, `testing.h` and the rest of `output.h` are system calls or plumbing.
- Reclaiming: nothing is claimed about buffers no callback names, such as the old buffer of a sole owner after `+=`.
- Concurrent use of `Shared`: testing for the last handle and decrementing are two actions, so handles are modelled sequentially.
- Arrays.Array.AddAssign: the overload for initializer lists, `m_capacity`, allocation failure and size overflow are not modelled.
- Element writes through `operator[]` bypass `write` and are visible through all sharers; they are no part of the value semantics.
- The constructors from `Args...` and from an initializer list, `Pointer<T>`, and the free `operator+` functions, which only combine a copy with `+=`.
- Dumping.Dump.Filename: line numbers above 9999 fail the source's own assertion and are excluded.
- `Profiler`, `MAP_REDUCE` and its relatives, and `IN`: plain sums and list folds, or undefined.
- Fairness of the scheduler: progress is stated as the absence of deadlock, and as termination from the last poll of a quiescent pool on.
- Ticker.IntervalCallback: `ms * 1000` is assumed to fit an `int`, positive or negative.
