# Verified model of NeoGroupCaptchaBot's concurrency and utility core

This project models the parts of NeoGroupCaptchaBot whose correctness is not visible from any
one function, and proves what they promise, in Dafny 4.11. `dafny verify dfyconfig.toml` checks
all of it.

| files | what they model |
|---|---|
| `ThreadPool`, `ThreadPoolInvariants`, `ThreadPoolShutdown`, `ThreadPoolReach`, `ThreadPoolLimits`, `ThreadPoolWaits`, `ThreadPoolCalls`, `CachedThreadPool` | the cached thread pool: one step for each region that holds a lock and each read made without it, interleaved in any way; then the object whose methods perform those regions |
| `Binary32`, `Capacity`, `SharedBuffer`, `BufferRuns` | the byte buffer: the load-factor policy in exact binary32 arithmetic, the object and its handles, whole histories |
| `TextUtils`, `ProcessUtils` | `splitString` and the command-line decoder built on it |
| `Dispatch`, `DispatchProofs`, `SessionManager`, `ConcurrentHashMap` | request and response dispatch through a shared callback table, and the locked map |
| `ClientSession`, `LoginHistory` | the login state machine and the server clock; what a session's events alone say about it |
| `Totals`, `Options` | sums and bags over finite maps; the Some/None type |

The concurrent parts have two layers. The values `State`, `Action`, `Enabled` and `Apply` say what
each atomic step does, and all lemmas about runs are about them; a run is a sequence of actions, in
any order the guards allow, so a lemma about runs covers every interleaving. The classes `Impl` and
`SessionManager` do the same steps by assignments to the object's fields; each method's contract
says that its effect on the object, with ghost fields that record where every thread is, is the
`Apply` of its action.

## What is established

- **Thread pool, every configuration and any number of callers.** Each accepted task is in exactly
  one place; the queue is first in, first out; no wakeup is lost; the worker map is safe under reuse
  of thread ids; with k callers there are at most limit + k - 1 workers, the limit being the maximum
  size when 0 <= core <= max, and every pool but one of size 0 reaches that many for every k. After
  shutdown with no call in flight, tasks are drained *if and only if* the queue was empty or some
  worker was still going to look into it, termination is noticed *if and only if* there was a worker
  thread, and every step of a worker decreases a measure, so the workers do finish. Whether every
  such shutdown drains depends on the configuration and the number of callers only: for
  0 <= core <= max it does *if and only if* there is a single caller and core = max >= 1. In every
  other pool, the session manager's own of 4 and 16 included, a run strands a task. Core workers
  stay until shutdown as long as the pool has never outgrown its core; awaitTermination blocks until
  termination is noticed; an undisturbed execute does what its callers expect; nobody is ever stuck.
- **Buffer.** The policy `int(float(size) / 0.75f)` is the floor of 4/3 of the size below 6291456 and
  is defined exactly below 1610612672; capacity stays between the size and twice the size; over every
  history with sizes below 6291456 reallocation copies at most 4 times the total change of the size
  (4.00001 times for any sizes, where float rounding shows), and 3 is not enough; a history is a
  vector that grows by zeros as long as each shrink reallocates or cuts off zeros only, and a shrink
  that does neither is followed by some growth that is not.
- **Split.** For every string and delimiter nothing is lost, and the pieces are the only ones cut as
  early as possible; splitting and joining undo each other on all inputs *if and only if* the
  delimiter has no proper border, and for a given string exactly when the text after the last cut
  does not overhang. The command-line decoder inverts the kernel's encoding
  *if and only if* the argument list is not the single empty argument.
- **Dispatch.** Under every interleaving of senders and looper, before 2^64 requests: each callback is
  invoked exactly once per dispatched response, with its own response; no response is taken for an
  update; the pointer used outside the lock stays good; every update received is handled, once and
  in order.
- **Login.** Each state of a session, the credentials it holds and the requests it sends are
  characterised by its events alone. INITIALIZATION is never re-entered, the automatic attempt is
  made at most once, and any two login requests are separated by an entry into WAIT_TOKEN or
  BAD_TOKEN.

Where the documentation in the source and its code differ, the model follows the code: the header of
the pool calls the core size a minimum and the queue size a maximum (src/utils/CachedThreadPool.h:19-22),
but workers that time out may all leave and the queue size is stored and never read; the comment on
`getTask` says that it returns null once the pool is shut down (src/utils/CachedThreadPool.cpp:61-66),
but it goes on handing out tasks until the queue is empty.

## Model

| member | source | states |
|---|---|---|
| `TextUtils.Find` | src/utils/TextUtils.cpp:34-40 | `std::string::find`: the first occurrence, none exactly when there is no occurrence |
| `TextUtils.SplitString` | src/utils/TextUtils.cpp:28-43 | the destructive loop terminates for every non-empty delimiter and computes `Split`, about which the lemmas below speak |
| `TextUtils.SplitLosesNothing` | src/utils/TextUtils.cpp:33-41 | for any non-empty delimiter: each piece followed by the delimiter, then a remainder shorter than the delimiter, spell the input followed by the delimiter; pieces and remainder contain no delimiter |
| `TextUtils.SplitIff` | src/utils/TextUtils.cpp:33-41 | for any non-empty delimiter: the pieces and the remainder are the only ones that spell the input followed by the delimiter such that each piece is ended by the first delimiter there is and the remainder contains none |
| `TextUtils.RoundTripIffNoRemainder` | src/utils/TextUtils.cpp:33-41 | joining gives the string back exactly when nothing remains |
| `TextUtils.RoundTripIffNoOverhang` | src/utils/TextUtils.cpp:33-41 | for each string and delimiter: joining gives the string back if and only if the text after the last cut does not end with the delimiter less one of its borders |
| `TextUtils.BorderLosesText` | src/utils/TextUtils.cpp:33-41 | a bordered delimiter splits the string made of it without its border into one empty piece |
| `TextUtils.SplitThenJoin` | src/utils/TextUtils.cpp:28-43 | round trip on every non-empty string if and only if the delimiter has no proper border |
| `TextUtils.JoinThenSplit` | src/utils/TextUtils.cpp:28-43 | every list of delimiter-free pieces with a non-empty join is given back if and only if the delimiter has no proper border |
| `TextUtils.SingleCharacter` | src/utils/TextUtils.cpp:28-43 | every one-character delimiter is safe in both directions |
| `ProcessUtils.ProcessInfo.ReadCmdline` | src/utils/ProcessUtils.cpp:119-137 | gathers what `read` returns however it is cut up, strips one NUL, splits; argv0 is the first argument; an empty command line leaves the record as it was |
| `ProcessUtils.KernelRoundTrip` | src/utils/ProcessUtils.cpp:129-137 | NUL-free arguments, each followed by NUL, decode to themselves if and only if they are not the single empty argument |
| `ProcessUtils.ReadingRoundTrip` | src/utils/ProcessUtils.cpp:119-137 | however `read` cuts up what the kernel wrote, the arguments come back if and only if they are not the single empty one |
| `ProcessUtils.UnterminatedRoundTrip` | src/utils/ProcessUtils.cpp:129-137 | without the last terminator they do if and only if the last argument is not empty |
| `ProcessUtils.DecodeThenEncode` | src/utils/ProcessUtils.cpp:82-89 | encoding the decoded arguments gives the bytes back if and only if there are none, or they end with NUL and are more than that |
| `Binary32.RoundError` | src/utils/SharedBuffer.cpp:62 | rounding to binary32 is off by at most half a unit in the last place |
| `Binary32.RoundExact` | src/utils/SharedBuffer.cpp:62 | integers below 2^24 are represented exactly |
| `Binary32.RoundTie` | src/utils/SharedBuffer.cpp:62 | of two values equally near the one with the even significand is taken |
| `Capacity.NewSizeBounds` | src/utils/SharedBuffer.cpp:12-62 | for every size, rounding included: the new allocation holds the size, is at most twice it, and is between 5/4 and 10/7 of it up to a constant |
| `Capacity.NewSizeClose` | src/utils/SharedBuffer.cpp:12-62 | for every size: 4/3 of it up to a relative error of 2^-21 and the truncation |
| `Capacity.NewSizeExact` | src/utils/SharedBuffer.cpp:12-62 | below 6291456 the new size is floor(4 * size / 3) |
| `Capacity.NewSizeInexact` | src/utils/SharedBuffer.cpp:12-62 | at 6291458 it is one more |
| `Capacity.CastDefinedBelow` | src/utils/SharedBuffer.cpp:62 | the conversion to int is defined if and only if the size is below 1610612672 |
| `SharedBuffer.ReallocatesUnbounded` | src/utils/SharedBuffer.cpp:61 | the wrap-around of `size * 2` never decides the reallocation test |
| `SharedBuffer.UndefinedIff` | src/utils/SharedBuffer.cpp:60-62 | a resize is undefined exactly when it reallocates to a size from 1610612672 on |
| `SharedBuffer.ResizeCapacity` | src/utils/SharedBuffer.cpp:54-96 | after success with a non-zero size: size <= allocation <= 2 * size; after failure sizes are unchanged |
| `SharedBuffer.FailureChangesNothing` | src/utils/SharedBuffer.cpp:54-96 | a call that returns false leaves the buffer as it was; with memory left it fails only on an absurd first allocation or on size 0 of nothing |
| `SharedBuffer.SucceedsIff` | src/utils/SharedBuffer.cpp:54-96 | resizing succeeds, to 0, if and only if something is allocated; to another size, if and only if it fits in place or there is memory |
| `SharedBuffer.PrefixPreserved` | src/utils/SharedBuffer.cpp:54-96 | the first min(old, new) bytes survive a resize that keeps the content |
| `SharedBuffer.ResizeExtendsIff` | src/utils/SharedBuffer.cpp:54-96 | a successful resize that keeps the content pads with zeros if and only if it allocates or no stale byte is exposed |
| `SharedBuffer.ClearsIff` | src/utils/SharedBuffer.cpp:60-94 | a successful resize that does not keep the content leaves only zeros if and only if it allocates or the bytes left in place were zero; after an allocation the spare bytes are zero too |
| `SharedBuffer.Hysteresis` | src/utils/SharedBuffer.cpp:61-62 | after a reallocation to m bytes the next resize reallocates if and only if it leaves 2/3 to 4/3 of m; after a first allocation, m/2 to m |
| `SharedBuffer.StaleBytes` | src/utils/SharedBuffer.cpp:83-85 | from nothing, for every n >= 2: n bytes allocated and written, cut to n - 1 and grown back show the byte that was cut off |
| `SharedBuffer.EnsureShrinksIff` | src/utils/SharedBuffer.cpp:56-147 | ensureCapacity shrinks the allocation exactly when the buffer was emptied and is asked for less than half of what it holds, so never that of a non-empty buffer |
| `SharedBuffer.EnsureMeans` | src/utils/SharedBuffer.cpp:134-147 | ensureCapacity fails exactly when the buffer stays smaller than asked for; a large enough buffer is left alone; the contents stay, followed by zeros if memory was allocated |
| `SharedBuffer.SharedBufferImpl.constructor` | src/utils/SharedBuffer.cpp:16-22 | nothing allocated |
| `SharedBuffer.SharedBufferImpl.Reset` | src/utils/SharedBuffer.cpp:44-52 | back to nothing allocated |
| `SharedBuffer.SharedBufferImpl.ResetSize` | src/utils/SharedBuffer.cpp:54-96 | performs `Resized` in place; a replaced allocation is new memory, the old one is filled with 0xCC, any other is untouched; `memcpy` moves as many bytes as the cost results count |
| `SharedBuffer.SharedBufferImpl.Move` | src/utils/SharedBuffer.cpp:67-82 | the kept bytes followed by zeros in new memory, the old memory filled with 0xCC |
| `SharedBuffer.SharedBufferImpl.Reallocate` | src/utils/SharedBuffer.cpp:61-82 | the reallocation branch of `Resized`: without memory nothing changes, else the buffer is in new memory and the old memory filled with 0xCC |
| `SharedBuffer.SharedBuffer.EnsureCapacity` | src/utils/SharedBuffer.cpp:134-147 | creates the object when the handle has none, grows it only when it is smaller |
| `SharedBuffer.SharedBuffer.Copy` | src/utils/SharedBuffer.cpp:125-132 | a deep copy: same contents, nothing shared; fails exactly when the allocation does |
| `SharedBuffer.SharedBuffer.Share` | src/utils/SharedBuffer.cpp:101-103 | copying a handle shares the object |
| `SharedBuffer.SharedBuffer.ToVector` | src/utils/SharedBuffer.cpp:167-175 | the logical contents |
| `BufferRuns.AmortisedCost` | src/utils/SharedBuffer.cpp:44-96 | over every history with sizes below 6291456 reallocation copies at most 4 times the total change of the size |
| `BufferRuns.AmortisedCostAnySize` | src/utils/SharedBuffer.cpp:44-96 | over every history at most 4.00001 times, float rounding included |
| `BufferRuns.ThreeTimesIsNotEnough` | src/utils/SharedBuffer.cpp:44-96 | some history copies more than 3 times the total change |
| `BufferRuns.CleanIsVector` | src/utils/SharedBuffer.cpp:44-147 | a history whose shrinks each reallocate or cut off zeros only implements the vector that grows by zeros, and the spare bytes stay zero |
| `BufferRuns.GrowOnlyIsVector` | src/utils/SharedBuffer.cpp:54-147 | in particular every grow-only history does |
| `BufferRuns.GrowsAsVectorIff` | src/utils/SharedBuffer.cpp:54-96 | all grow-only histories from a buffer act as on the vector if and only if its spare bytes are zero |
| `BufferRuns.ShrinkForgetsIff` | src/utils/SharedBuffer.cpp:56-93 | after a shrink they do if and only if it moved to a new allocation or cut off zeros only |
| `ThreadPoolLimits.TaskConservation` | src/utils/CachedThreadPool.cpp:145-284 | in every reachable state each accepted task is in exactly one place, no two workers hold the same, and enqueued = dequeued followed by the queue |
| `ThreadPoolLimits.WorkerBound` | src/utils/CachedThreadPool.cpp:202-247 | with k callers never more than limit + k - 1 workers and calls that hold a count read below the limit, the limit being the maximum when 0 <= core <= max |
| `ThreadPoolLimits.WorkerBoundSharp` | src/utils/CachedThreadPool.cpp:202-247 | in every configuration with a limit of at least 1 and for every k some run reaches limit + k - 1 workers; with limit 0 no run has any |
| `ThreadPoolLimits.WorkConservation` | src/utils/CachedThreadPool.cpp:241-291 | while a worker is blocked, each queued task has a woken worker on its way |
| `ThreadPoolLimits.WorkerMapSafety` | src/utils/CachedThreadPool.cpp:202-332 | emplace never collides and inserts the id of a live thread; only a worker's own erase removes its key, and finds it |
| `ThreadPoolLimits.NobodyBlockedAfterTermination` | src/utils/CachedThreadPool.cpp:312-341 | once termination is noticed nobody is blocked in awaitTermination |
| `ThreadPoolLimits.TaskStranded` | src/utils/CachedThreadPool.cpp:155-157 | with more than one caller, a maximum above the core size or core size 0, a run strands a task behind limit + k - 1 workers that have all given up |
| `ThreadPoolLimits.TaskStrandedExamples` | src/core/manager/SessionManager.h:76 | so in the session manager's pool of 4 and 16, behind 15 + k workers, and with core 1, maximum 2 and one caller |
| `ThreadPoolLimits.DrainableIff` | src/utils/CachedThreadPool.cpp:145-291 | every shutdown with no call in flight finds the queue empty or a worker to empty it, if and only if the pool is none of those |
| `ThreadPoolLimits.DrainsIff` | src/utils/CachedThreadPool.cpp:145-341 | every run that is shut down with no call in flight has completed all accepted tasks once its last worker has exited, if and only if (for 0 <= core <= max) there is one caller and core = max >= 1 |
| `ThreadPoolLimits.ConstructedPool` | src/utils/CachedThreadPool.cpp:182-200 | in terms of the constructor's arguments: at most max + k - 1 workers, and draining if and only if there is one caller and core >= max >= 1; a negative keep-alive time counts as none |
| `ThreadPoolLimits.UnusedNeverTerminates` | src/utils/CachedThreadPool.cpp:286-341 | a pool shut down before its first task never terminates |
| `ThreadPoolWaits.CoreWorkersStay` | src/utils/CachedThreadPool.cpp:156-174 | in every configuration, as long as there have never been more workers than the core size, no worker has given up before shutdown, and the wait of an idle one ends only with the head of the queue or at shutdown |
| `ThreadPoolWaits.EmptyQueueLooks` | src/utils/CachedThreadPool.cpp:156-284 | a worker that finds the queue empty waits if and only if it had counted at most the core size or the keep-alive time is not 0; woken to an empty queue it waits again if and only if it had counted at most the core size; otherwise it gives up |
| `ThreadPoolWaits.AwaitBlocksUntilTermination` | src/utils/CachedThreadPool.cpp:312-341 | awaitTermination blocks if and only if termination has not been noticed, and stays blocked in every run until it is noticed or its own wait ends |
| `ThreadPoolWaits.NobodyStuck` | src/utils/CachedThreadPool.cpp:145-341 | in every reachable state every worker and every caller can go on, but for one that needs the lock while a worker is being started, and whoever holds that can |
| `ThreadPoolCalls.ExecuteAlone` | src/utils/CachedThreadPool.cpp:223-247 | an undisturbed call rejects the task after shutdown, starts a worker with it below the core size, or below the maximum with tasks queued, and else queues it and wakes one waiting worker if any waits |
| `ThreadPoolCalls.FirstInFirstOut` | src/utils/CachedThreadPool.cpp:241-284 | in every run the tasks pushed, in the order of the pushes, are those that workers fetch, in that order, followed by the queue |
| `ThreadPoolCalls.HistoriesAre` | src/utils/CachedThreadPool.cpp:145-284 | the histories of submitted, accepted, rejected, queued, fetched and completed tasks are those of the run's steps |
| `ThreadPoolInvariants.InvStep` | src/utils/CachedThreadPool.cpp:145-341 | every step keeps the map, flag, task, wakeup and bound invariants |
| `ThreadPoolShutdown.DrainExact` | src/utils/CachedThreadPool.cpp:249-341 | from a quiet state to one where termination is noticed: all accepted tasks completed exactly once if and only if the queue was empty or some worker was still active; otherwise the queue is stranded unchanged |
| `ThreadPoolShutdown.DrainOnShutdown` | src/utils/CachedThreadPool.cpp:145-341 | one caller and a core size of at least 1 that is the limit (core = max >= 1), shutdown with no call in flight: when termination is noticed all is drained, and it is noticed within a bounded number of worker steps if any task was accepted |
| `ThreadPoolShutdown.NoWorkerLeavesEarly` | src/utils/CachedThreadPool.cpp:153-174 | in that pool no worker leaves before shutdown |
| `ThreadPoolShutdown.TerminationDetected` | src/utils/CachedThreadPool.cpp:312-341 | with a worker registered at shutdown, an empty map and no call in flight mean that termination is noticed or some worker is between its erase and its check |
| `ThreadPoolShutdown.TerminationExact` | src/utils/CachedThreadPool.cpp:325-341 | once all workers have exited termination is noticed if and only if it was already or there was a worker thread |
| `ThreadPoolShutdown.QuietProgress` | src/utils/CachedThreadPool.cpp:145-341 | after shutdown every worker step decreases the measure and no other step changes it |
| `ThreadPoolShutdown.QuietTerminates` | src/utils/CachedThreadPool.cpp:145-341 | hence boundedly many worker steps, after which termination is noticed |
| `CachedThreadPool.Impl.constructor` | src/utils/CachedThreadPool.cpp:182-200 | core size capped by the maximum, negative keep-alive time replaced by 0, no worker |
| `CachedThreadPool.Impl.PassesShutdownCheck` | src/utils/CachedThreadPool.cpp:228-230 | rejects once shut down or terminated |
| `CachedThreadPool.Impl.ReadWorkerCount` | src/utils/CachedThreadPool.cpp:231-234 | the unlocked count, and the decision to start a core worker |
| `CachedThreadPool.Impl.ReadQueueSize` | src/utils/CachedThreadPool.cpp:236-240 | the unlocked queue size, and the decision between a worker and the queue |
| `CachedThreadPool.Impl.CreateWorkerThread` | src/utils/CachedThreadPool.cpp:203-214 | the thread runs before its entry is in the map |
| `CachedThreadPool.Impl.EmplaceWorker` | src/utils/CachedThreadPool.cpp:215-217 | inserts the entry and unlocks |
| `CachedThreadPool.Impl.PushTask` | src/utils/CachedThreadPool.cpp:241-245 | appends and wakes one waiting worker if there is one |
| `CachedThreadPool.Impl.TakeFirstTask` | src/utils/CachedThreadPool.cpp:146-150 | the worker's first task |
| `CachedThreadPool.Impl.ChooseTimeout` | src/utils/CachedThreadPool.cpp:156-157 | the keep-alive time above the core size, else -1 |
| `CachedThreadPool.Impl.TryGetTask` | src/utils/CachedThreadPool.cpp:249-284 | the head of the queue, a wait, or null, for each kind of timeout, before and after the wait |
| `CachedThreadPool.Impl.EraseWorker` | src/utils/CachedThreadPool.cpp:329-332 | removes the worker's entry |
| `CachedThreadPool.Impl.ReadShutdownFlag` | src/utils/CachedThreadPool.cpp:333 | only then goes on to check |
| `CachedThreadPool.Impl.TerminationRegion` | src/utils/CachedThreadPool.cpp:335-340 | sets the flag and wakes all waiters when the map is empty |
| `CachedThreadPool.Impl.ShutdownRegion` | src/utils/CachedThreadPool.cpp:286-291 | sets the flag and wakes all waiting workers |
| `CachedThreadPool.Impl.AwaitRegion` | src/utils/CachedThreadPool.cpp:312-323 | blocks unless terminated |
| `ConcurrentHashMap.ConcurrentHashMap.From` | src/utils/ConcurrentHashMap.h:55-62 | same contents, entries of its own |
| `ConcurrentHashMap.ConcurrentHashMap.EntrySet` | src/utils/ConcurrentHashMap.h:64-71 | the entries themselves |
| `ConcurrentHashMap.ConcurrentHashMap.Get` | src/utils/ConcurrentHashMap.h:87-95 | a pointer to the value under the key, null exactly when absent |
| `ConcurrentHashMap.ConcurrentHashMap.Put` | src/utils/ConcurrentHashMap.h:97-102 | sets the key, in a new entry that replaces the old |
| `ConcurrentHashMap.ConcurrentHashMap.PutIfAbsent` | src/utils/ConcurrentHashMap.h:104-110 | sets the key exactly when absent |
| `ConcurrentHashMap.ConcurrentHashMap.Remove` | src/utils/ConcurrentHashMap.h:112-115 | removes the key, true exactly when present |
| `ConcurrentHashMap.ConcurrentHashMap.Clear` | src/utils/ConcurrentHashMap.h:117-120 | the empty map |
| `ConcurrentHashMap.ConcurrentHashMap.PutAll` | src/utils/ConcurrentHashMap.h:122-130 | overrides this map by the other in any order of traversal, also by itself |
| `ConcurrentHashMap.WriteThrough` | src/utils/ConcurrentHashMap.h:31-42 | a write through a pointer shows exactly when the map still holds the entry |
| `DispatchProofs.NumbersUniqueIff` | src/core/manager/SessionManager.cpp:29-31 | the first n request ids are distinct and never 0 if and only if n < 2^64 |
| `DispatchProofs.InvStep` | src/core/manager/SessionManager.cpp:29-114 | every step keeps: each id in one place, the table holds exactly the callbacks put and not yet removed, the looper's pointer is good |
| `DispatchProofs.ExactlyOnce` | src/core/manager/SessionManager.cpp:29-114 | in every run below 2^64 requests each callback is invoked only with its own response, at most once, exactly once by the end of its dispatch; no response is taken for an update; no freed entry is followed |
| `DispatchProofs.UpdatesHandled` | src/core/manager/SessionManager.cpp:71-113 | the updates received are handled, each once and in order, but for one in the looper's hand |
| `DispatchProofs.HistoryIs` | src/core/manager/SessionManager.cpp:29-114 | what was asked for is what the senders asked for in the order of their numbers, and the answers dealt with are those received, in order |
| `DispatchProofs.TableMirrored` | src/utils/ConcurrentHashMap.h:97-115 | in every run, wrap-around included, each key leads to an entry that holds it and every entry not freed is reached by its key |
| `DispatchProofs.NobodyStuck` | src/core/manager/SessionManager.cpp:33-113 | a sender can always go on; an idle looper can receive anything that is due; any other looper has a next step, which brings it closer to idle |
| `DispatchProofs.NothingForgotten` | src/core/manager/SessionManager.cpp:29-114 | when all is answered and idle every callback has been invoked, every update has been handled and the table is empty |
| `DispatchProofs.LookUpFinds` | src/core/manager/SessionManager.cpp:93-102 | a response finds a callback exactly when its request had one |
| `DispatchProofs.PointerStable` | src/core/manager/SessionManager.cpp:94-98 | between lookup and move no sender's step frees or changes the entry |
| `SessionManager.SessionManager.NextQueryId` | src/core/manager/SessionManager.cpp:29-35 | hands out the number and advances modulo 2^64 |
| `SessionManager.SessionManager.Register` | src/core/manager/SessionManager.cpp:36-38 | puts a callback that is not empty |
| `SessionManager.SessionManager.FindCallback` | src/core/manager/SessionManager.cpp:93-113 | looks a non-zero id up; 0 is an update, which is handled |
| `SessionManager.SessionManager.MoveCallback` | src/core/manager/SessionManager.cpp:97 | moves the callback out through the pointer |
| `SessionManager.SessionManager.Remove` | src/core/manager/SessionManager.cpp:98 | removes and frees the entry |
| `ClientSession.InitializationOnlyOnce` | src/core/manager/ClientSession.cpp:371-420 | INITIALIZATION is never re-entered |
| `ClientSession.AutomaticAttemptOnce` | src/core/manager/ClientSession.cpp:371-420 | the automatic login attempt is made at most once |
| `ClientSession.LoginsSeparated` | src/core/manager/ClientSession.cpp:371-590 | between two login requests there is an entry into WAIT_TOKEN or BAD_TOKEN |
| `ClientSession.LoginsCounted` | src/core/manager/ClientSession.cpp:371-590 | at most one login request more than such entries |
| `ClientSession.TokenKeptUntilUsed` | src/core/manager/ClientSession.cpp:544-553 | during INITIALIZATION the stored token is the last one given |
| `LoginHistory.StateIff` | src/core/manager/ClientSession.cpp:355-590 | every state, from the events alone: INITIALIZATION as long as nothing has decided otherwise; any other state if and only if an event that leads to it has come and none since that leads away, with both kinds listed for each state |
| `LoginHistory.TokenWantedIff` | src/core/manager/ClientSession.cpp:371-590 | WAIT_TOKEN or BAD_TOKEN if and only if a blank line, a refusal or a later phone number wanted has come and nothing since that leads away from both |
| `LoginHistory.CredentialsHeld` | src/core/manager/ClientSession.cpp:371-590 | the phone number and the token held are the last ones given while not authorized, the token until the first phone number wanted uses it up |
| `LoginHistory.SentIff` | src/core/manager/ClientSession.cpp:355-590 | exactly which request each event sends, and with which token, number, code or password |
| `LoginHistory.StripIs` | src/core/manager/ClientSession.cpp:449-489 | stripping leaves no character of the set and changes nothing when there is none |
| `ClientSession.ClockModulo` | src/core/manager/ClientSession.cpp:530-651 | both clocks run on modulo 2^64 |
| `ClientSession.ClockExact` | src/core/manager/ClientSession.cpp:530-651 | they give the server's time if and only if it is representable in milliseconds |
| `ClientSession.ClientSession.constructor` | src/core/manager/ClientSession.h:128-132 | INITIALIZATION, no token, no phone number |
| `ClientSession.ClientSession.HandleUpdateAuthorizationState` | src/core/manager/ClientSession.cpp:355-521 | the state after each authorization update, and what it sends |
| `ClientSession.ClientSession.OnCodeTyped` | src/core/manager/ClientSession.cpp:449-461 | white space stripped; an empty code goes back to WAIT_TOKEN |
| `ClientSession.ClientSession.OnPasswordTyped` | src/core/manager/ClientSession.cpp:486-496 | newlines stripped; an empty password goes back to WAIT_TOKEN |
| `ClientSession.ClientSession.OnBotTokenReply` | src/core/manager/ClientSession.cpp:378-393 | AUTHORIZED or BAD_TOKEN |
| `ClientSession.ClientSession.OnSecretReply` | src/core/manager/ClientSession.cpp:461-511 | WAIT_RESPONSE or BAD_TOKEN |
| `ClientSession.ClientSession.LogInBot` | src/core/manager/ClientSession.cpp:544-559 | stores the token, and sends it when one is awaited |
| `ClientSession.ClientSession.LogInPhone` | src/core/manager/ClientSession.cpp:561-590 | stores the number, and sends it when a login is awaited; during INITIALIZATION sends the parameters again |
| `ClientSession.ClientSession.HandleUnixTime` | src/core/manager/ClientSession.cpp:530-533 | the difference of the clocks, modulo 2^64 |

## Left out

- TDLib, the network, message formatting and logging: the client is an environment that answers each request at most once, in any order; logging is not modelled.
- Data races as such: an unlocked read of a container's size is one atomic read whose value may be stale when it is used.
- Tasks that throw and threads that cannot be created: a rethrow from a worker ends the process, so tasks return and creation succeeds.
- Null tasks given to `execute` and null updates given to the session: they return at once and change nothing.
- The core flag of a worker and the maximum queue size: both are stored and never read.
- `SharedBufferImpl.ResetSize`, `ConcurrentHashMap` methods: each mutex-protected body is one atomic step; the mutex itself is not modelled.
- `SharedBuffer::at`: pointer arithmetic on the same memory; a write through it below the size is `SharedBufferImpl.Write`.
- The callback table inside `SessionManager` is a map from ids to entry addresses and a map from addresses to entries, not a `ConcurrentHashMap` object, so that an entry can be freed while a pointer to it is held.
- `createSession`: two first calls at once could start two loopers; one looper is assumed, and the sessions' own map is not modelled: an update counts as handled once the dispatch hands it on.
- `ClientSession`: two threads inside the same handler at once; every handler and callback is one atomic step. Events may come in any order, so the lemmas hold whatever TDLib does.
- The prompts for code and password are events that carry the line typed; the delay before going offline is an event.
- `splitString` with an empty delimiter and a non-empty string: the loop does not terminate, so the method requires otherwise.
- `parseInt32` and its siblings: calls to `std::from_chars`.
- `HashMap.h`, `FileMemMap`, `shared_memory`, `auto_close_fd`, `io_utils`, `file_utils`, `ConfigManager`, `startup`, `Rva`, `Uuid`, `Log` and the scan of the process directory: operating-system plumbing or easy members only.
