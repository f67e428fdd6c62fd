# Verification of the shared-memory IPC layer

Dafny models of the lock-free protocols of the library and of the state machine that is built on them, with proofs
over every run. `dafny verify dfyconfig.toml` checks the project.

The library lets a realtime control process and its hardware modules work in lockstep over shared memory. Its core is
a stack of small protocols: a futex word with a token, a lockstep of two operations on two such futexes, a triple
buffer, a single-producer single-consumer ring and a future/promise pair. `HardwareModuleRuntime::CallbackHandler`
uses most of them to take a module through its states. Three smaller parts stand alone: the transfer of file
descriptors over a domain socket, the reference counters of memory segments and the order of the generated build
targets.

## How the protocols are modelled

A protocol is a module with a `State`, an `Event` for each atomic access (or system call) and a total function `Step`;
an event that is not the next access of its thread changes nothing. A run is therefore any sequence of events at all,
of any number of threads, and a theorem about `Run(Init(...), es)` is one about every interleaving. Histories (values
inserted, states committed, hooks called) are part of the state and are what most theorems speak about.

Beside each protocol stands the class with the fields of the C++ class. Each of its methods makes the accesses of its
C++ counterpart in order and lets a scheduled batch of other threads' accesses happen before each of them, so its
contract holds whatever the others do. `Valid()` says that the fields are what the protocol makes of all accesses so
far, which carries the theorems over to the objects. A step is one access that other threads can see, together with what
its thread does by itself until then. Where one protocol uses another it does so through what the other refines: the
futexes of the lockstep are tokens (`RunsProject` puts the two together again), the promise's queue is a slot
(`OneElementIsASlot`). A blocking wait ends when its condition holds or when the
schedule has nothing left, which stands for the deadline. The single accesses from which the calls are put together,
and the `Yield` methods, are helpers and have no row below.

| file | what it models |
|---|---|
| `collections.dfy` | options, and sequences read as sets |
| `binary_futex.dfy`, `lockable_futex.dfy` | `BinaryFutex`, `LockableBinaryFutex` |
| `lockstep.dfy`, `lockstep_tokens.dfy`, `lockstep_cancel.dfy`, `lockstep_reset.dfy`, `lockstep_stray.dfy`, `lockstep_class.dfy` | `Lockstep`, `RealtimeClock` |
| `lockstep_futexes.dfy` | `Lockstep` on its two futexes |
| `async_buffer.dfy` | `AsyncBuffer` |
| `rt_queue.dfy` | `RtQueueBuffer`, and `Pop` and `Insert` of `RealtimeQueue` |
| `rt_promise.dfy`, `rt_promise_class.dfy` | `FuturePromiseContext`, `RealtimePromise`, `RealtimeFuture` |
| `transition_guard.dfy` | `HardwareModuleTransitionGuard` |
| `callback_handler.dfy`, `callback_invariant.dfy`, `callback_theorems.dfy`, `callback_runs.dfy`, `callback_steps.dfy`, `callback_class.dfy` | `CallbackHandler`: the state machine, its invariant, what holds of every run, runs that exist, its steps one by one, the class |
| `fd_transfer.dfy` | fixed-size strings, message splitting, receiving and reassembly |
| `segment_refs.dfy` | `MemorySegment`, `SegmentHeader` |
| `build_order.dfy` | `topological_sort_targets` |

## Assumptions

- Atomic accesses are sequentially consistent, and contexts outlive their handles.
- `Disciplined` runs of the lockstep are those in which a `Reset` begins only while no other `Reset` is under way and no
  operation is held or ending, as `lockstep.h` asks, and in which no `EndOperation` of a thread that has not started the
  operation finds it running. `Undisturbed` runs are those without a Cancel and without such an `EndOperation`.
- A handle of a promise or future is used by one thread at a time.
- The callbacks that set the state directly (the realtime ones, the lifecycle ones, `Shutdown`, a failed
  initialisation) are serialised, as the comments at `SetStateDirectly` and `CancelPendingRequests` demand. They form
  one driver. The actions run beside it without restriction, and their wait for an answer may expire.
- What the module's own functions and hooks return, and the clock, which only has to be monotone, are inputs of the
  steps.

## Findings

- `StrayEndASafeExactlyWhen`, `StrayEndBSafeExactlyWhen`, `StrayEndOverlaps`: an `EndOperation` without its Start is not
  always refused, as `lockstep.h` says. If it finds the operation of another thread running, it ends that, returns OK,
  and both operations can run at once; it does no harm if and only if it does not find that.
- `EndOperationA`, `EndRefusedByCancel`: an `EndOperationA` with its Start returns FailedPrecondition, where `lockstep.h`
  says OK, if and only if a Cancel comes between its two loads.
- `CancelSticksExactlyWhen`, `CancelOverwritten`: `EndOperationA` is a load, a load and a store. A Cancel is
  overwritten if and only if an `EndOperationA` is between its check and its store; a run from the start shows it, with
  a `StartOperationB` that then starts as if nobody had cancelled.
- `StrandsExactlyWhen`, `TimedOutResetStrandsB`: a `Reset` whose second wait runs out has already consumed
  `a_finished_`. The lockstep is still cancelled, but a `StartOperationB` then waits instead of returning Aborted,
  until somebody cancels or resets again. This happens if and only if nobody else has posted `a_finished_` or is going
  to.
- `ResetSafeExactlyWhenIdle`, `ClockResetOverlapsUpdate`: the store of `Reset` keeps operations exclusive if and only
  if none is held and no `EndOperationA` is about to store. `RealtimeClock::Reset` after a tick that has timed out does not see to that, and both operations
  run at once.
- `WaitTrustedExactlyWhen`, `StalePostWakes`: `WaitUntil` may return OK although there is no value, by a post that
  comes after a `Get` has already taken the value. A call can be trusted if and only if, when it begins, there is a
  value or a cancellation, or `has_value_` is empty with no `Set` about to post it.
- `DeactivatedToFaulted`, `OnDeactivate`: a deactivation ends in kFaulted, not kDeactivated, when `Disabled()` fails on
  the way, although the module's `Deactivate()` has been called and has succeeded.
- `GrantedButFaulted`, `ChangeByRequest`: an action's request is answered OK also when a failing `Disabled()` has led
  to kFaulted; the closing request is then never applied (`FaultsWin`).
- `SlipsInExactlyWhen`, `SlipsBehindDeactivation`: a request can come in after a deactivation has cancelled all others,
  as the comment there says. It can if and only if an action is past its test for rejected requests and has not yet
  inserted. `Shutdown` excludes that by its lock (`ShutdownSeals`).
- `ReportedExactlyWhen`, `ReportedOnce`: `GetHardwareModuleState` returns a default state, kDeactivated, unless a state
  has been published since the last call.
- `FieldRoundTrip`: `StringCopy` truncates silently where its comment announces an error. Names come back if and only
  if they have at most 254 bytes and no NUL.

Where code and comments disagree the models follow the code. Besides the points above: `OnReadStatus` calls the
module in every state; the guard's edge from kFaulted to itself is unreachable behind the test for equality; a closed
futex makes `TryWait` return no value.

## Model

| member | source | states |
|---|---|---|
| `FutexProtocol.NoLostWakeup` | icon/interprocess/binary_futex.cc:67-127 | In every run: a posted word with a sleeper has a wake pending or an awake waiter about to retry; a closed word with a sleeper has a wake-all pending; tokens put in equal tokens taken, present and overwritten by Close |
| `FutexProtocol.NobodyStranded` | icon/interprocess/binary_futex.cc:67-127 | When every thread is idle or asleep and one is asleep, the word is empty and open |
| `FutexProtocol.TokenReachesAWaiter` | icon/interprocess/binary_futex.cc:151-183 | From any reachable state with a token and a sleeper, at most two steps that are already due let a waiter take the token |
| `FutexProtocol.ClosedIsFinal` | icon/interprocess/binary_futex.cc:239-266 | Closed is never left; no token is put in or taken afterwards |
| `LockProtocol.AtMostOneHolder` | icon/interprocess/lockable_binary_futex.h:63-94 | In every run at most one thread is between Lock and the end of its Unlock; the lock is free exactly if there is none; no holder fails the IsHeld test of Unlock |
| `LockProtocol.FreeLockIsTaken` | icon/interprocess/lockable_binary_futex.h:63-94 | In every run, a thread that locks a free lock holds it after its own two accesses, alone |
| `LockProtocol.HeldLockIsFreed` | icon/interprocess/lockable_binary_futex.h:63-94 | In every run, the holder's Unlock frees the lock by its own two accesses and is then about to wake a waiter |
| `LockProtocol.RunsOfTheFutex` | icon/interprocess/lockable_binary_futex.h:63-94 | Every run of the lock is a run of its futex, and a free lock with a sleeper has a wake pending or an awake waiter |
| `FutexProtocol.EveryRunKeepsInv` | icon/interprocess/binary_futex.cc:67-183 | The invariant behind these holds in every run |
| `BinaryFutexClass.BinaryFutex.TryWait` | icon/interprocess/binary_futex.cc:67-76 | One exchange that takes the token if it is there and reports what it saw |
| `BinaryFutexClass.BinaryFutex.Wait` | icon/interprocess/binary_futex.cc:82-127 | Among any interference: OK only by the caller's own exchange of a posted word, Aborted only on a closed word, DeadlineExceeded only out of a sleep that ran into the deadline, Internal only out of one whose system call failed; with nobody else running, each exactly so |
| `BinaryFutexClass.BinaryFutex.Post` | icon/interprocess/binary_futex.cc:151-183 | Aborted exactly if the word was closed; a posted or closed word stays as it is and nobody is woken; an empty one gets its token with the first access, and the last one wakes exactly one sleeper if there is one |
| `BinaryFutexClass.BinaryFutex.Close` | icon/interprocess/binary_futex.cc:239-266 | Leaves the word closed; the caller that closed it leaves nobody asleep |
| `LockstepProtocol.OperationsAlternate` | util/thread/lockstep.cc:40-158 | In every disciplined run with Cancel anywhere: at most one operation at a time, and the starts since the last Reset are A, B, A, B from A |
| `LockstepFutexes.RunsProject` | util/thread/lockstep.cc:40-158 | Every run of the lockstep in which each wait and post is made of the futex's own accesses and system calls is a run of the lockstep and of each of its futexes |
| `LockstepFutexes.EveryRunRealised` | icon/interprocess/binary_futex.cc:82-127 | Conversely every run of the lockstep in which no wait is given up with its token there, since the futex looks before it sleeps, is such a run |
| `LockstepFutexes.WaitsEndTogether` | icon/interprocess/binary_futex.cc:82-127 | A wait of the futex ends, with the token, by its deadline or by an error, exactly when the wait of the lockstep does |
| `LockstepFutexes.OrderlyOnFutexes` | util/thread/lockstep.cc:40-158 | So exclusion and alternation hold of these runs, and no wakeup is lost at either futex |
| `LockstepFutexes.NobodySleepsThroughItsTurn` | util/thread/lockstep.cc:40-125 | In every such undisturbed run, once every thread is idle, asleep or in an operation: an operation is running, or exactly one has its turn and nobody sleeps waiting to start it |
| `LockstepFutexes.NobodySleepsThroughACancel` | util/thread/lockstep.cc:127-139 | In every such run, while a cancellation sticks with no Reset under way, once every thread is idle, asleep or in an operation nobody is asleep |
| `LockstepFutexes.RunsKeepCoupled` | util/thread/lockstep.h:160-169 | In every such run the token of the lockstep is there exactly if its futex is posted, and whoever is in a wait of the futex is in the wait of the lockstep for it |
| `LockstepProtocol.StepKeepsInv` | util/thread/lockstep.cc:40-158 | Every access of Start, End, Cancel and Reset keeps the invariant behind this |
| `LockstepProtocol.StampIsStable` | icon/hal/realtime_clock.cc:95-113 | While an operation is active, nobody else changes the published timestamp |
| `LockstepProtocol.UpdateRanBetween` | icon/hal/realtime_clock.cc:88-113 | Between two starts of operation A without a Reset, operation B has started |
| `LockstepTokens.TokenConserved` | util/thread/lockstep.cc:40-125 | In undisturbed runs posted futexes, starters with a token and running or ending operations total exactly one, and no Start or matching End returns FailedPrecondition |
| `LockstepTokens.TokenComesRound` | util/thread/lockstep.cc:40-125 | The holder of the token can always bring it round to operation A |
| `LockstepTokens.AnyoneCanStartA` | util/thread/lockstep.cc:40-125 | From every state of an undisturbed run any idle thread can still come to run operation A |
| `LockstepCancel.CancelIsSticky` | util/thread/lockstep.cc:127-139 | After a Cancel with no EndOperationA about to store, until a Reset stores: the word stays cancelled, nothing starts and nobody new runs an operation. Until a Reset ends, each futex is posted, owed by a thread whose next accesses post it, or held by a Reset under way |
| `LockstepCancel.CancelSticksExactlyWhen` | util/thread/lockstep.cc:70-81 | The cancellation survives every continuation without the store of a Reset if and only if no EndOperationA is between its check and its store |
| `LockstepCancel.DebtsGetPaid` | util/thread/lockstep.cc:40-139 | From every state with a sticking cancellation and no Reset under way, accesses already due post both futexes |
| `LockstepCancel.EveryStartReturns` | util/thread/lockstep.cc:40-104 | From every such state, accesses already due bring every waiting start to its end; none has started its operation, run out of time or been refused, so each has returned Aborted |
| `LockstepReset.CancelOverwritten` | util/thread/lockstep.cc:70-81 | A disciplined run in which a Cancel is stored and has posted both futexes, an EndOperationA stores over it, and operation B starts |
| `LockstepReset.TimedOutResetStrandsB` | util/thread/lockstep.cc:141-158 | A disciplined run in which a timed-out Reset leaves a cancelled lockstep with everyone idle, and `a_finished_` stays empty in every continuation without another Cancel or the end of a Reset |
| `LockstepReset.StrandsExactlyWhen` | util/thread/lockstep.cc:149-157 | A Reset giving up its second wait does this if and only if `a_finished_` is empty and no thread is going to post it in the rest of its call |
| `LockstepReset.ResetSafeExactlyWhenIdle` | util/thread/lockstep.cc:155-158 | The store of Reset keeps operations exclusive in every disciplined continuation if and only if none is held and no EndOperationA is about to store |
| `LockstepReset.EndRefusedByCancel` | util/thread/lockstep.cc:70-81 | A disciplined run in which a Cancel comes between the loads of an EndOperationA with its Start, and the second load refuses it |
| `LockstepStray.StrayEndASafeExactlyWhen` | util/thread/lockstep.cc:70-81 | After any disciplined run, the second load of an EndOperationA without its Start keeps operations exclusive in every disciplined continuation if and only if it does not find operation A running |
| `LockstepStray.StrayEndBSafeExactlyWhen` | util/thread/lockstep.cc:111-125 | Likewise for the compare-exchange of an EndOperationB and operation B |
| `LockstepStray.StrayEndOverlaps` | util/thread/lockstep.cc:70-81 | A run in which such an EndOperationA ends the operation of another thread and both operations run at once |
| `LockstepReset.TickTimesOutDuringUpdate` | icon/hal/realtime_clock.cc:102-112 | A tick can give up while the control update is still going on |
| `LockstepReset.ClockResetOverlapsUpdate` | icon/hal/realtime_clock.cc:115-130 | Cancel, Reset and StartOperationA after such a tick let both operations run at once |
| `LockstepClass.Lockstep.constructor` | util/thread/lockstep.h:160-169 | Starts with `b_finished_` posted and operation A next |
| `LockstepClass.Lockstep.StartOperation` | util/thread/lockstep.cc:40-104 | By what the caller's own exchange finds: OK exactly the word that lets the operation start, and then the caller runs it, Aborted exactly a cancellation, with the token put back; DeadlineExceeded exactly if there was no exchange: the wait has used all its rounds and ends with the futex empty. FailedPrecondition only in a disturbed run; while a cancellation stands only Aborted or DeadlineExceeded; with nobody else running the word and the futex decide |
| `LockstepClass.Lockstep.EndOperationA` | util/thread/lockstep.cc:70-81 | With or without its Start, OK exactly if its first load found a cancellation or its second one operation A running, and then with `a_finished_` posted or the lockstep cancelled. In a disciplined run: with its Start refused exactly if a Cancel came between the loads, without it OK exactly if the first load found a cancellation. With nobody else running: a running operation A is finished and `a_finished_` posted, otherwise nothing changes |
| `LockstepClass.Lockstep.EndOperationB` | util/thread/lockstep.cc:111-125 | With or without its Start, OK exactly if it found a cancellation or operation B running, and then with `b_finished_` posted or the lockstep cancelled. In a disciplined run: with its Start always OK, without it exactly if it found a cancellation. With nobody else running: a running operation B is finished and `b_finished_` posted, otherwise nothing changes |
| `LockstepClass.Lockstep.Cancel` | util/thread/lockstep.cc:127-139 | The cancellation stands on return unless an EndOperationA was about to store or a Reset has stored meanwhile, and all futexes are accounted for unless a Reset has ended meanwhile; with nobody else running both are posted |
| `LockstepClass.Lockstep.Reset` | util/thread/lockstep.cc:141-158 | FailedPrecondition exactly if not cancelled; OK only with `b_finished_` posted and after a store of this call that made operation A the next one, with nothing started; DeadlineExceeded only after a wait that has used all its rounds and ends with its futex empty; with nobody else running OK exactly if cancelled with both futexes posted |
| `LockstepClass.RealtimeClock.constructor` | icon/hal/realtime_clock.cc:27-46 | A clock is up exactly if it holds operation A, as the last operation started; with nobody else running exactly if operation A was next |
| `LockstepClass.RealtimeClock.TickBlockingWithDeadline` | icon/hal/realtime_clock.cc:88-113 | In every disciplined run without the store of a Reset in the tick, whatever reads the timestamp from the moment it is published until the operation after the next one starts reads the one given to this tick; if the tick returns OK, the next operation started was the control update, and operation A started again after it. DeadlineExceeded only with `b_finished_` empty |
| `LockstepClass.StampStays` | icon/hal/realtime_clock.cc:95-113 | In every disciplined run, what a thread publishes last in operation A is what can be read up to the start of the operation after the next one |
| `AsyncBufferProtocol.BehavesAsRegister` | icon/utils/async_buffer.h:162-222 | In every interleaving of loads and exchanges the reads are those of a latest-value register, and say "new" exactly if something was committed since the last read |
| `AsyncBufferProtocol.NeverShared` | icon/utils/async_buffer.h:162-222 | Active, mailbox and free are always a permutation of 0..2; producer and consumer never hold the same buffer |
| `AsyncBufferProtocol.ViewIsStable` | icon/utils/async_buffer.h:168-194 | The buffer a read handed out keeps its contents until the next read |
| `AsyncBufferProtocol.ReadReturnsVersion` | icon/utils/async_buffer.h:168-194 | A read returns the commit that was the newest at that moment |
| `AsyncBufferProtocol.ReadsNeverGoBack` | icon/utils/async_buffer.h:168-194 | Of two reads the later returns the same commit or a newer one |
| `AsyncBufferProtocol.WholeCommitSwaps` | icon/utils/async_buffer.h:196-222 | A whole commit publishes its value and swaps free and mailbox, from any state of the consumer |
| `AsyncBufferProtocol.AbaIsHarmless` | icon/utils/async_buffer.h:172-182 | Two commits between the consumer's load and exchange restore the word; the exchange succeeds and returns the second commit |
| `AsyncBufferClass.AsyncBuffer.GetFreeBuffer` | icon/utils/async_buffer.h:162-166 | Hands out a buffer that the consumer does not hold |
| `AsyncBufferClass.AsyncBuffer.CommitFreeBuffer` | icon/utils/async_buffer.h:196-222 | Commits what was written exactly if a buffer was handed out, through any number of retries |
| `AsyncBufferClass.AsyncBuffer.GetActiveBuffer` | icon/utils/async_buffer.h:168-194 | Returns the latest committed value and whether it is unread; a null argument empties the mailbox and returns false |
| `RingProtocol.FirstInFirstOut` | platform/common/buffers/rt_queue_buffer.h:121-166 | At any capacity, zero included, and in every interleaving: popped is a prefix of inserted, and the size is what is in between |
| `RingProtocol.SlotsNeverMeet` | platform/common/buffers/rt_queue_buffer.h:121-166 | The reader's slot holds the oldest value; the writer's slot is another one |
| `RingProtocol.RefinesQueue` | platform/common/buffers/rt_queue_buffer.h:139-166 | Each access is a step of a bounded queue: the size update of an insertion appends, that of a removal drops the oldest, nothing else shows |
| `RingProtocol.RefusedExactlyWhen` | platform/common/buffers/rt_queue_buffer.h:121-157 | An insertion is refused exactly if the queue is full, a look at the front exactly if it is empty |
| `RingProtocol.OneElementIsASlot` | platform/common/buffers/rt_promise.h:127 | At capacity one the ring is the slot of the promise: filled by the size update of an insertion, emptied by that of a removal, with the tests for full and empty telling whether there is a value |
| `RingProtocol.StepKeepsInv` | platform/common/buffers/rt_queue_buffer.h:121-166 | Every access, with the size and the index updated apart, keeps the ring invariant |
| `RingClass.RtQueueBuffer.Front` | platform/common/buffers/rt_queue_buffer.h:121-131 | The oldest value, or none exactly if the queue is empty |
| `RingClass.RtQueueBuffer.KeepFront` | platform/common/buffers/rt_queue_buffer.h:133-137 | Gives the slot back and removes nothing |
| `RingClass.RtQueueBuffer.DropFront` | platform/common/buffers/rt_queue_buffer.h:139-145 | Removes what Front handed out, still the oldest value |
| `RingClass.RtQueueBuffer.PrepareInsert` | platform/common/buffers/rt_queue_buffer.h:147-157 | A slot that the reader does not hold, or none exactly if the queue is full |
| `RingClass.RtQueueBuffer.FinishInsert` | platform/common/buffers/rt_queue_buffer.h:159-166 | Appends what was filled in, whatever the reader does meanwhile |
| `RingClass.RtQueueBuffer.Pop` | platform/common/buffers/rt_queue.h:258-268 | The oldest value leaves the queue and is returned, or the queue was empty |
| `RingClass.RtQueueBuffer.Insert` | platform/common/buffers/rt_queue.h:270-278 | The value is appended, or nothing changes and the queue was full |
| `PromiseProtocol.ExactlyOnce` | platform/common/buffers/rt_promise.h:539-826 | In every run: values got are a prefix of values set, at most one behind, and the slot holds exactly the difference |
| `PromiseProtocol.OneHandleEach` | platform/common/buffers/rt_promise.h:183-231 | However many handles ask, at most one promise and one future are attached |
| `PromiseProtocol.TryLocksSucceed` | platform/common/buffers/rt_promise.h:545-549 | Without Reset no Set or Get is turned away by its try-lock |
| `PromiseProtocol.NoMissedNotification` | platform/common/buffers/rt_promise.h:888-920 | A blocked WaitUntil with a value or a cancellation to report has `has_value_` posted, or a Set or Cancel about to post it |
| `PromiseProtocol.WaitTrustedExactlyWhen` | platform/common/buffers/rt_promise.h:888-920 | For every reachable state with the future idle: being woken uncancelled means a value, in every continuation of that one WaitUntil, if and only if it begins with no stale post there or about to come |
| `PromiseProtocol.StalePostWakes` | platform/common/buffers/rt_promise.h:808-814 | A run in which WaitUntil is woken, not cancelled, with no value there |
| `PromiseProtocol.CancelStopsTransfer` | platform/common/buffers/rt_promise.h:302-312 | Cancelled is never left without Reset; once the calls past their check are over nothing is set or got again |
| `PromiseProtocol.BegunAfterCancelFails` | platform/common/buffers/rt_promise.h:551-555 | No Set or Get begun after a Cancel succeeds, in any continuation |
| `PromiseClass.FuturePromiseContext.Set` | platform/common/buffers/rt_promise.h:539-579 | Among any interference: OK exactly if the value was appended to the values set; cancelled before means Cancelled; ResourceExhausted only if a value was there; a one-shot promise detaches |
| `PromiseClass.FuturePromiseContext.Get` | platform/common/buffers/rt_promise.h:783-826 | A value exactly if it was taken, as the next one in order; cancelled before means Cancelled; Unavailable only if none was there; a one-shot future detaches |
| `PromiseClass.FuturePromiseContext.Peek` | platform/common/buffers/rt_promise.h:843-870 | Takes nothing and returns the value that the next Get would |
| `PromiseClass.FuturePromiseContext.WaitUntil` | platform/common/buffers/rt_promise.h:888-920 | Takes nothing; OK exactly out of a look that finds a value or of a post taken without a cancellation after it, and it means a value if the call began with no stale post there or about to come; cancelled before means Cancelled; it gives up only when nobody else has anything to do and `has_value_` is empty, and then with something to report only if a post is still to come |
| `PromiseClass.FuturePromiseContext.Cancel` | platform/common/buffers/rt_promise.h:302-312 | OK only with the context cancelled and `has_value_` posted; ResourceExhausted only if its try-lock found the lock taken; with nobody else running OK exactly if the lock was free |
| `TransitionGuard.DeadEnds` | icon/hal/hardware_module_util.cc:26-153 | No path of allowed transitions goes on from kFatallyFaulted, and only one step leads on from kInitFailed |
| `TransitionGuard.EnabledStepwise` | icon/hal/hardware_module_util.cc:71-105 | kMotionEnabled is reached only through kActivated and kMotionEnabling |
| `TransitionGuard.AllowedExactlyWhen` | icon/hal/hardware_module_util.cc:26-153 | From which states each state can be entered, and which changes are passed over because their goal is reached |
| `TransitionGuard.ReturnsExactlyWhen` | icon/hal/hardware_module_util.cc:26-153 | There is a path back to kDeactivated from exactly the states other than kInitFailed and kFatallyFaulted |
| `TransitionGuard.RepairedOnlyByClearing` | icon/hal/hardware_module_util.cc:123-145 | A path from kFaulted to kActivated that does not go round by kDeactivated begins with kClearingFaults |
| `CallbackInvariant.RunsKeepInv` | icon/hal/hardware_module_runtime.cc:185-815 | The joint invariant of state, queue, answers, hooks and actions holds in every run |
| `CallbackTheorems.LegalRuns` | icon/hal/hardware_module_runtime.cc:481-546 | Every run follows allowed transitions from kDeactivated. Code, time, shared memory and published buffer are stored one after the other: outside SetStateDirectly they agree; inside it shared memory and the buffer show the new state or the one before, the buffer never ahead of shared memory |
| `CallbackTheorems.FatalIsFinal` | icon/hal/hardware_module_util.cc:149-150 | Once fatally faulted, nothing is committed and no hook is called again |
| `CallbackTheorems.HookPairing` | icon/hal/hardware_module_runtime.cc:738-769 | Enabled and Disabled alternate, one for each entry to and exit from kMotionEnabled; ApplyCommand reaches the module only after a successful Enabled with no Disabled since |
| `CallbackTheorems.TraceAlternates` | icon/hal/hardware_module_runtime.cc:517-536 | In any lawful history entries to and exits from kMotionEnabled alternate |
| `CallbackTheorems.RequestConservation` | icon/hal/hardware_module_runtime.cc:698-736 | Requests leave in the order of insertion, each is answered once, and OK exactly if it has changed the state |
| `CallbackTheorems.ChangeByRequest` | icon/hal/hardware_module_runtime.cc:711-728 | A request changes the state at most once, from the state it names, to its target or to kFaulted exactly after a failing Disabled, and only if nothing was committed after its timestamp |
| `CallbackTheorems.ClosingFollowsEntry` | icon/hal/hardware_module_runtime.cc:297-366 | The commit that closes an action is always the very next one after the commit with which that action entered its transitional state |
| `CallbackTheorems.FaultsWin` | icon/hal/hardware_module_runtime.cc:297-366 | Once anything else is committed after an action's entry, or the entry has landed elsewhere, its closing request is never applied |
| `CallbackRuns.ActionCanFinish` | icon/hal/hardware_module_runtime.cc:297-366 | From any state at rest in which an action is allowed, it can be carried through to its end with exactly two commits, to its transitional state and to its final one |
| `CallbackRuns.EachActionDoesItsWork` | icon/hal/hardware_module_runtime.cc:297-366 | From kActivated motion can be enabled through kMotionEnabling, from kMotionEnabled disabled through kMotionDisabling back to kActivated, and from kFaulted the faults cleared through kClearingFaults to kActivated |
| `CallbackRuns.FaultsCanBeCleared` | icon/hal/hardware_module_runtime.cc:391-403 | From any state at rest that can fault, an ordinary error of ReadStatus leads to kFaulted, and clearing the faults from there to kActivated |
| `CallbackRuns.AbortedStays` | icon/hal/hardware_module_runtime.cc:391-403 | An aborted ReadStatus leads to kFatallyFaulted, which nothing leaves in any continuation |
| `CallbackRuns.GrantedButFaulted` | icon/hal/hardware_module_runtime.cc:711-728 | A run in which a request to disable motion is answered OK and the module is in kFaulted |
| `CallbackRuns.DeactivatedToFaulted` | icon/hal/hardware_module_runtime.cc:272-294 | A run in which a deactivation whose call of Deactivate succeeds ends in kFaulted |
| `CallbackRuns.SlipsBehindDeactivation` | icon/hal/hardware_module_runtime.cc:278-284 | A run in which a deactivation is over and a request is in the queue |
| `CallbackTheorems.NothingSlipsIn` | icon/hal/hardware_module_runtime.cc:645-659 | Once requests are rejected and no action is past its test, that stays so and none is inserted until the next activation |
| `CallbackTheorems.SlipsInExactlyWhen` | icon/hal/hardware_module_runtime.cc:278-284 | While requests are rejected, some continuation without an activation inserts one if and only if an action is past its test and has not inserted yet |
| `CallbackTheorems.ShutdownSeals` | icon/hal/hardware_module_runtime.cc:569-575 | In every run, a Shutdown that holds the lock has brought that about |
| `CallbackTheorems.HistoryGrows` | icon/hal/hardware_module_runtime.cc:536-545 | Commits are only ever appended |
| `CallbackTheorems.ReportedExactlyWhen` | icon/hal/hardware_module_runtime.cc:577-585 | There is a state to report exactly if one has been published since the last report |
| `CallbackRuns.ReportedOnce` | icon/hal/hardware_module_runtime.cc:577-585 | A run after which a first call reports kPrepared and a second one kDeactivated, with the module in kPrepared |
| `CallbackClass.CallbackHandler.constructor` | icon/hal/hardware_module_runtime.cc:196-207 | Starts deactivated with nothing committed |
| `CallbackClass.CallbackHandler.SetStateDirectly` | icon/hal/hardware_module_runtime.cc:481-536 | Changes the state exactly if the guard allows it, to the target or, from kMotionEnabled with a failing Disabled, to kFaulted; the text to be shown with a target is the one given, as far as the field holds it |
| `CallbackClass.CallbackHandler.ShowState` | icon/hal/hardware_module_runtime.cc:537-545 | Brings the update time, shared memory and then the published buffer up to the new state and its text, whatever the actions do meanwhile |
| `CallbackClass.CallbackHandler.CancelPendingRequests` | icon/hal/hardware_module_runtime.cc:550-567 | Ends with an empty queue and everything that was in it, or came in meanwhile, answered Cancelled |
| `CallbackClass.CallbackHandler.ProcessNextPendingRequest` | icon/hal/hardware_module_runtime.cc:698-736 | Answers the oldest request; the state changes at most once and only with the answer OK |
| `CallbackClass.CallbackHandler.OnReadStatus` | icon/hal/hardware_module_runtime.cc:369-404 | The oldest request is answered; a failing ReadStatus leaves the module in kFaulted, or in kFatallyFaulted if it was aborted, unless it is clearing faults or cannot fault; then its text is shown and every request so far has been answered |
| `CallbackClass.CallbackHandler.OnApplyCommand` | icon/hal/hardware_module_runtime.cc:424-459 | Reaches the module exactly in kMotionEnabled, after a successful Enabled; an ordinary error leads to kFaulted, an aborted call to kFatallyFaulted; elsewhere it faults, except while disabling. The text of the fault is shown |
| `CallbackClass.CallbackHandler.OnDeactivate` | icon/hal/hardware_module_runtime.cc:272-294 | Ends in kDeactivated, kFatallyFaulted or, after a failing Disabled, kFaulted, rejecting requests; or does nothing |
| `CallbackClass.CallbackHandler.OnPrepare` | icon/hal/hardware_module_runtime.cc:221-250 | A module that can be deactivated is, unless it is prepared already. If it then is deactivated, it ends in kPrepared or, when Prepare fails, kFatallyFaulted; otherwise where the deactivation has left it |
| `CallbackClass.CallbackHandler.OnActivate` | icon/hal/hardware_module_runtime.cc:253-269 | Takes a prepared module, and no other, to kActivated or kFatallyFaulted and accepts requests again |
| `CallbackClass.CallbackHandler.Shutdown` | icon/hal/hardware_module_runtime.cc:569-575 | Once it has the lock, it rejects new requests and has answered all old ones, and no action is left that could insert one; it gives up only when the lock is held and nobody else has anything to do |
| `CallbackClass.CallbackHandler.GetHardwareModuleState` | icon/hal/hardware_module_runtime.cc:577-585 | The state published last, which outside SetStateDirectly is the current one, or a default one if nothing is unread |
| `CallbackClass.CallbackHandler.OnAction` | icon/hal/hardware_module_runtime.cc:297-366 | Finished: the state has gone from the transitional state directly to kMotionEnabled or kActivated, to kFaulted after an ordinary error, to kFatallyFaulted after an aborted call. Interrupted: it has been entered and could not be left. Refused: the request was answered and changed nothing. Unanswered: it was not answered, and nobody else has anything to do. Rejected: requests are rejected or the queue is full. Prohibited: by the guard. Blocked: a lock is held, and nobody else has anything to do. With nobody else running the locks, the guard and the queue decide |
| `FixedString.FieldRoundTrip` | icon/flatbuffers/fixed_string.h:54-70 | A text survives StringCopy and StringView if and only if it is shorter than the array and has no NUL |
| `FixedString.StringCopy` | icon/flatbuffers/fixed_string.h:54-70 | The array holds as much of the text as leaves room for a NUL, then zeros |
| `FixedString.StringView` | icon/flatbuffers/fixed_string.h:91-107 | The bytes up to the first NUL, or all |
| `FdTransfer.PrepareMessages` | icon/interprocess/shared_memory_manager/domain_socket_server.cc:250-323 | An empty map is refused; any other is split into the least number of numbered messages of 1 to 200 entries that hold it in order |
| `FdTransfer.ReceiveBytes` | icon/interprocess/shared_memory_manager/domain_socket_utils.cc:216-255 | Succeeds if and only if some number of non-empty pieces makes up the message exactly, and then holds it |
| `FdTransfer.AnySplitCompletes` | icon/interprocess/shared_memory_manager/domain_socket_utils.cc:216-255 | Any division of a message into non-empty pieces is received, with nothing more and nothing less |
| `FdTransfer.GetNames` | icon/interprocess/shared_memory_manager/segment_info_utils.cc:58-73 | One name for each array, in order |
| `FdTransfer.Reassemble` | icon/interprocess/shared_memory_manager/domain_socket_utils.cc:402-455 | Succeeds if and only if messages 1 to n of n arrive in order for some n, with the map that they hold |
| `FdTransfer.DeliveredExactlyWhen` | icon/interprocess/shared_memory_manager/domain_socket_utils.cc:265-272 | What the server prepares is accepted if and only if the versions agree |
| `FdTransfer.TransferRoundTrip` | icon/interprocess/shared_memory_manager/domain_socket_utils.cc:402-455 | What a split map holds is the same map again, in any order of iteration, if and only if all names fit |
| `FdTransfer.Transfer` | icon/interprocess/shared_memory_manager/domain_socket_utils.cc:402-455 | From end to end, splitting, delivery and reassembly: an empty map is refused, any other is accepted if and only if the versions agree, and then comes back if and only if all names fit |
| `SegmentRefs.FairRemoved` | icon/interprocess/shared_memory_manager/memory_segment.cc:178-192 | A counted handle finds its counter above zero, so the clamp is never hit |
| `SegmentRefs.MemorySegment.constructor` | icon/interprocess/shared_memory_manager/memory_segment.cc:121-143 | All counters equal the live handles again with the new one |
| `SegmentRefs.MemorySegment.Move` | icon/interprocess/shared_memory_manager/memory_segment.cc:145-151 | Everything passes on, the old handle stands for nothing, and all counters stay right |
| `SegmentRefs.MemorySegment.MoveAssign` | icon/interprocess/shared_memory_manager/memory_segment.cc:153-164 | The same after giving up the own handle; self-assignment changes nothing |
| `SegmentRefs.MemorySegment.CleanUpSharedMemory` | icon/interprocess/shared_memory_manager/memory_segment.cc:178-203 | Without this handle all counters are right, its own lower by exactly one |
| `SegmentRefs.Perform` | icon/interprocess/shared_memory_manager/memory_segment.cc:119-203 | After any sequence of creations, moves, assignments and destructions the handles stand for what the operations make of them, and every counter equals the live handles of its kind |
| `BuildOrder.SortGraph` | bazel_to_cmake.py:643-656 | Each label after what it depends on and first by name among those ready, until nothing is ready; that is everything if and only if the graph is acyclic |
| `BuildOrder.CompleteExactlyWhen` | bazel_to_cmake.py:643-656 | A greedy order with nothing more ready is complete if and only if the graph is acyclic |
| `BuildOrder.GreedyIsTopological` | bazel_to_cmake.py:648-656 | A greedy order of everything is a topological order |
| `BuildOrder.GreedyIsLeast` | bazel_to_cmake.py:625-630 | With distinct names it is the least of all topological orders, compared name by name |
| `BuildOrder.StuckOnlyAtEnd` | bazel_to_cmake.py:648-654 | In an acyclic graph something is ready until everything is done |
| `BuildOrder.AcyclicMeansNoCycle` | bazel_to_cmake.py:643-644 | A set of labels that all depend on each other exists if and only if there is a cycle |
| `BuildOrder.OrderedIsAcyclic` | bazel_to_cmake.py:643-644 | Only an acyclic graph has a topological order |
| `BuildOrder.TopologicalSortTargets` | bazel_to_cmake.py:625-663 | CycleError if and only if some targets depend on each other in a circle. Otherwise the last target of each label comes once, after every other target that its `deps` name, and before whatever could have come there but has a later name; then the other targets with these labels. With distinct labels and names this is the least order by name |
| `BuildOrder.EdgesAreDependencies` | bazel_to_cmake.py:640-641 | The edges of the graph from the last target of a label are the labels of other targets in its `deps` |
| `BuildOrder.CirclesAreCycles` | bazel_to_cmake.py:640-644 | The graph has a cycle if and only if there is a circle of targets |
| `BuildOrder.BeforeExactlyWhen` | bazel_to_cmake.py:651 | One name comes before another if and only if they differ first where it ends or has the smaller character |

## Left out

- PromiseClass.FuturePromiseContext.WaitUntil: OK without a value is not excluded, because the code allows it; the contract says when it cannot happen.
- BuildOrder.TopologicalSortTargets: the source's sorter looks for a cycle before its first step; here one shows by what is left over at the end, with the same result.
- FdTransfer.Reassemble: fewer than 2^64 messages, beyond which the message index would wrap around.
- FdTransfer.ReceiveBytes: the byte layout of a message is the compiler's and not modelled; a message is what arrives in the buffer.
- SegmentRefs.Perform: counters are unbounded integers; the overflow of a 32-bit counter after 2^31 handles is not modelled.
- FuturePromiseContext::Reset, its destructor and the detach futexes: a stale detach post can satisfy them early; without Reset the try-locks of GetPromise and GetFuture always succeed and are not shown.
- RealtimeClock::Reset and its destructor as methods: the first is a Lockstep Reset with a start of operation A and appears as a run, `LockstepReset.ClockResetOverlapsUpdate`; the second is an `EndOperationA`.
- Orderings weaker than sequential consistency, and races with the destruction of an object.
- RealtimeQueueMultiWriter: its mutex makes of many writers the one writer that the ring is proved for. AsyncRequest appears as a request with a number and the answer to it.
- Sockets, descriptors' validity, memory mapping, thread creation and priorities, logging, status texts.
- HardwareModuleRuntime::Create, Connect, Run and Stop, the trigger servers, the `force` flag of SetStateDirectly (which commits nothing for the initial state), and the container for abandoned futures.
- Registry, traits and handles of interfaces, joint limits, command and state utilities: thin wrappers.
- The rest of bazel_to_cmake.py; the translation of labels to names is an input of the order.
