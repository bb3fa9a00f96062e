# FrankenPHP: a verified model of its protocols and bridges

FrankenPHP drives a fixed array of PHP thread slots from Go. This project models the parts of it where
correctness depends on several functions, goroutines or whole histories, and proves what they promise.
`dafny verify dfyconfig.toml` checks everything.

| file | what it models |
|---|---|
| `States`, `ThreadState` | the states of a thread and the `ThreadState` object: an in-place list of waiters under a lock |
| `Lifecycle`, `LifecycleInvariant`, `LifecycleSafety`, `LifecycleTheorems`, `LifecycleRace`, `LifecycleProgress`, `LifecycleTasks` | boot, handler change, reboot, forced reboot, failed reboot, restore, scaling and shutdown of all thread slots, with the main thread and the holder of `scalingMu` |
| `Scaling` | the list of autoscaled threads, the pools and their limits |
| `Dispatch` | handing requests to threads, the queue counters and the done channels |
| `GoBridge`, `GoCycles`, `GoRoundTrip` | PHP values to Go and back, over a heap graph with sharing and cycles |
| `PersistentZval`, `PersistentZvalProofs` | deep copies of PHP values into persistent memory, out of it, and their release |
| `Paths`, `ScriptSplit`, `EscapedPaths` | request paths: dot segments, joining under a root, script and PATH_INFO, percent encoding |
| `Registration` | `Validate` against the registration `Init` performs |
| `PhpInfo` | the borrowed, pinned tables of `phpinfo()` |
| `EnvLayers` | `putenv`, `getenv`, `$_ENV` and the prepared environments |

## How to read it

Interleaved code (thread lifecycle, dispatch, phpinfo) is a transition function over explicit events: one
event is one lock region, one channel operation, one arm of `beforeScriptExecution` up to its next blocking
wait (`LifecycleRace.ReadStaysCurrent` shows that reading and acting can be one event there), or the start or
end of a C thread. The one arm for which this would be wrong, the inactive handler's, has two events. `Run` applies any sequence of events; an event that is not enabled
is skipped, a panic is an explicit outcome. Theorems quantify over every started system and every event
sequence. In the lifecycle model each slot's invariant depends on the slot and on the role the holder of
`scalingMu` plays for it (`LifecycleInvariant.RoleOf`), so every step is checked one slot at a time.

Code that updates objects, tables or arrays in place is a class or a method with the same loops, tied by its
`ensures` to a function of the old state; the lemmas are about that function.

## Where the code does not do what one would expect

- The inactive handler reads its state and sets `Inactive` in two lock regions (threadinactive.go:22-27).
  After it has read `Inactive`, a change granted in between is overwritten
  (`LifecycleRace.LateSetIsHarmlessIff` gives the exact condition, `LifecycleRace.LostTransitionDeadlocks` a
  run from startup). From then on the goroutine that was granted the change waits forever and `scalingMu` is
  never released (`LifecycleRace.LossBlocksForever`). This, and a failed respawn of an unhealthy thread in a
  slot that is still needed, are all that can keep it locked for good
  (`LifecycleProgress.LockCanBeReleasedIff`). The safety results hold of these runs too: no panic,
  no engine torn down under a live thread. What fails is that the drain channel of an Inactive slot is open,
  and `LifecycleTheorems.DrainChannelDiscipline` says exactly when.
- A worker script that calls `frankenphp_handle_request()` inside a callback of it overwrites the request its
  handler holds; that request is never closed and its dispatcher never returns.
  `Dispatch.AbandonedIffOverwritten` is the exact condition, `Dispatch.NestedCallAbandons` a run.
- An empty Go slice comes back from PHP as an empty associative array; an order that repeats a key, lists a
  key without an entry or misses one is not given back either, and a map without an order comes back with
  one. `GoRoundTrip.RoundTripIsIdentityIff` says for which values the round trip is the identity,
  `GoRoundTrip.RoundTrip` what all others become.
- `cleanRequestPath` leaves a leading dot segment of a path without a leading slash alone when "/." does not
  occur in it (`Paths.NoDotSegmentLeftIff`, for example `Paths.DotDotIsLeftAlone`). With an empty split list, PATH_INFO may lack its slash
  (`ScriptSplit.PathInfoStartsWithSlashIff`, `ScriptSplit.PathInfoWithoutSlash`), and a script name found in an unrooted path gets a slash the
  path did not have (`ScriptSplit.ScriptAndPathInfoRebuildIff`, `ScriptSplit.UnrootedPathGainsSlash`).
- The comment at frankenphp.c:776-779 says that what a request passes to `putenv()` cannot reach other
  requests. In a worker the override table is kept until the script ends.
  `EnvLayers.PutenvOutlivesWorkerRequestIff` says exactly when a finished request is still seen,
  `EnvLayers.PutenvReachesNextRequest` is a history of a worker's boot and two requests.
- The comment at frankenphp.c:673-674 says that `$_ENV` does not capture a request's environment. That
  depends on the boot of the worker having prepared at least one entry
  (`EnvLayers.SuperglobalIgnoresRequestIff`), which worker.go:203 ensures
  (`EnvLayers.WorkerSuperglobalIsFixed`).

## Model

| member | source | states |
|---|---|---|
| `ThreadStates.Compact` | internal/state/state.go:138-148 | the in-place loop leaves exactly the unmatched waiters in order in the same buffer and closes exactly the matched channels in order |
| `ThreadStates.ThreadState.NotifySubscribers` | internal/state/state.go:133-149 | the object's waiters and closed channels after a notification |
| `ThreadStates.ThreadState.Set` | internal/state/state.go:126-131 | the new state, waiters and closed channels after Set |
| `ThreadStates.ThreadState.CompareAndSwap` | internal/state/state.go:102-112 | swaps and notifies if and only if the state was the expected one |
| `ThreadStates.ThreadState.Register` | internal/state/state.go:152-166 | blocks if and only if the current state is not awaited; a blocked caller is registered behind the others, an unblocked one is not |
| `ThreadStates.ThreadState.GiveUp` | internal/state/state.go:169-196 | a timeout removes the waiter of that channel and no other, order kept |
| `ThreadStates.ThreadState.TryRequestChange` | internal/state/state.go:201-214 | one attempt: refused in Reserved, ShuttingDown and Done, granted in Ready and Inactive, waiting otherwise |
| `ThreadStates.UnmatchedIsFilter` | internal/state/state.go:133-149 | what the compaction keeps is a subsequence of the waiters, and exactly those not waiting for the new state |
| `ThreadStates.MatchedAreClosedOnce` | internal/state/state.go:133-149 | the closed channels are exactly those of matching waiters, each once |
| `ThreadStates.WithoutChannelIsFilter` | internal/state/state.go:184-194 | what a timeout keeps is a subsequence, and exactly the other waiters |
| `ThreadStates.AlwaysSound` | internal/state/state.go:102-196 | in every interleaving no registered waiter waits for the current state, and no channel is closed twice |
| `ThreadStates.WakeNow` | internal/state/state.go:102-223 | one operation wakes a waiter exactly when it brings the state to one it waits for, and otherwise keeps it registered |
| `ThreadStates.WokenIffVisited` | internal/state/state.go:102-196 | no wake-up is lost and none is spurious: a waiter that does not give up has been woken exactly when the run visited a state it waits for |
| `ThreadStates.WaitRegisters` | internal/state/state.go:152-166 | for every list of states: a caller that has to wait is registered for all of them, with a channel nobody had, and the others stay in order |
| `ThreadStates.WaitForReturnsIff` | internal/state/state.go:152-166 | for every list of states and whatever the others do, a WaitFor that had to wait is woken exactly when one of its states is visited |
| `ThreadStates.StateIgnoresWaiters` | internal/state/state.go:102-223 | what each operation does to the state, whoever waits |
| `ThreadStates.NeverNotifiedAfterTimeout` | internal/state/state.go:169-196 | a waiter that gave up is never notified afterwards |
| `ThreadStates.StableIff` | internal/state/state.go:216-220 | the states waited for between two attempts are those in which an attempt is answered, but for ShuttingDown |
| `ThreadStates.RoundEndsIff` | internal/state/state.go:216-222 | the wait between two attempts is over exactly when a stable state was there or was visited, however briefly |
| `ThreadStates.RequestIsAnswered` | internal/state/state.go:200-223 | attempts and waits together, against any interference: every attempt before the last had to wait and was followed by a stable state; granted exactly if the last found Ready or Inactive, in one step; refused exactly if it found Reserved, ShuttingDown or Done; still waiting only if no stable state was there or visited since |
| `LifecycleInvariant.ArmOk` | threadworker.go:38-72 | every handler has an arm for every state its C thread can read, and the arm keeps the slot's invariant |
| `LifecycleInvariant.InactiveArmOk` | threadinactive.go:19-47 | the same for the inactive handler, whose Set(Inactive) is an event of its own |
| `LifecycleInvariant.LateSetOk` | threadinactive.go:26-27 | that Set keeps the invariant even when it overwrites a granted change: the slot is then lost to its owner |
| `LifecycleInvariant.RegularArmOk` | threadregular.go:43-70 | the same for the regular handler |
| `LifecycleInvariant.EntryOk` | threadworker.go:204-226 | reaching max_requests wins a reboot or goes on serving, and keeps the invariant either way |
| `LifecycleInvariant.ReportOk` | phpthread.go:396-408 | an ending C thread reports RebootReady, YieldingForReboot or Done as its slot's owner expects |
| `LifecycleInvariant.ScriptActOk` | frankenphp.c:1955-2013 | the end of a script, healthy or not, and the restart of an unhealthy thread keep the invariant; no script is finished by an inactive handler |
| `LifecycleInvariant.PhpStepOk` | frankenphp.c:1880-2013 | no action of a C thread panics or breaks the invariant of its slot |
| `LifecycleInvariant.RebooterStepOk` | phpthread.go:133-159 | starting the replacement, or releasing the slot after a failed one, keeps the invariant |
| `LifecycleInvariant.TransitionWonOk` | phpthread.go:269-276 | winning the state change makes the winner the owner of an open drain channel |
| `LifecycleInvariant.DrainClosedOk` | phpthread.go:278-280 | that channel is open when its owner closes it |
| `LifecycleInvariant.InstalledOk` | phpthread.go:280-283 | the handler and a fresh channel are installed while the C thread is parked |
| `LifecycleInvariant.CompletedOk` | phpthread.go:283-294 | completing the transition gives the slot back to its C thread |
| `LifecycleInvariant.ForcedClosedOk` | phpmainthread.go:168-174 | a forced reboot closes a drain channel that is still open |
| `LifecycleInvariant.ResumedOk` | phpmainthread.go:216-224 | after the reboot the slot has a fresh channel and one waiting rebooter |
| `LifecycleSafety.BootOk` | phpthread.go:71-94 | boot finds Reserved or BootRequested, and success and failure both keep the invariant |
| `LifecycleSafety.RebootAllOk` | phpmainthread.go:139-214 | forcing every thread, waiting for all to yield and restarting the main thread keep the invariant |
| `LifecycleSafety.RebootSlotOk` | phpmainthread.go:162-224 | the goroutine per rebooting slot, and resuming a slot, keep the invariant; the compare-and-swap after the reboot succeeds |
| `LifecycleSafety.ShutdownOk` | phpthread.go:222-242 | every phase of shutdown keeps the invariant, for threads that win the change and those that are refused |
| `LifecycleSafety.ControllerStepOk` | scaling.go:61-86 | no action under scalingMu panics or breaks the invariant |
| `LifecycleSafety.StepOk` | phpmainthread.go:93-262 | no event at all panics or breaks the invariant |
| `LifecycleSafety.NoPanic` | phpmainthread.go:216-224 | in every run after Init no protocol panic is reachable: unexpected states, boot, after a reboot, a script of an inactive handler, closing a nil or closed channel |
| `LifecycleSafety.EngineTeardownIsSafe` | phpmainthread.go:185-214 | in every run, from the moment the main thread is Rebooting or Done until it is Ready again, no slot has a live C thread |
| `LifecycleSafety.ThreadsStartWithEngineUp` | phpthread.go:133-139 | in every run, any event that starts a C thread (boot, replacement, respawn of an unhealthy thread) happens while the engine is up, and leaves it up |
| `LifecycleTheorems.RebootsAreConserved` | phpthread.go:97-159 | in every run each slot has at most one C thread, and won reboots = replacements + releases + the one still pending or lost |
| `LifecycleTheorems.DrainChannelDiscipline` | phpthread.go:222-286 | in every run the drain channel of a Ready or Inactive slot is open, exactly unless a granted change was overwritten and its owner closed it; it is closed exactly while its owner holds it closed; C threads select on the current one |
| `LifecycleTheorems.HandlerWrites` | phpthread.go:269-286 | only the steps of boot and setHandler change a handler |
| `LifecycleTheorems.HandlerReplacedWhileParked` | phpthread.go:269-294 | in every run a handler is replaced only while no C thread is live or it is parked in TransitionInProgress |
| `LifecycleRace.LateSetIsHarmlessIff` | threadinactive.go:22-27 | the Set(Inactive) leaves an ordinary slot if and only if no state change was granted since the read |
| `LifecycleRace.ReadStaysCurrent` | threadregular.go:43-70 | having read any state but Ready and Inactive, a C thread still finds that state when it acts, whatever the others do |
| `LifecycleRace.JustRebootedIsReachable` | phpmainthread.go:139-224 | a run from startup to the state in which the race can happen |
| `LifecycleRace.LostTransitionDeadlocks` | threadinactive.go:22-47 | a run from startup in which a granted transition is lost and no participant can act any more |
| `LifecycleRace.LossBlocksForever` | phpmainthread.go:162-208 | after any lost change, in every continuation, the slot stays parked, scalingMu is never released and the engine never torn down |
| `LifecycleProgress.SlotSettles` | frankenphp.c:1880-2013 | a slot whose C thread is there, or on its way, comes to rest by its own steps alone, without losing a change |
| `LifecycleProgress.AtRest` | internal/state/state.go:200-223 | at rest it is in the state the holder of scalingMu waits for, whatever that holder is doing |
| `LifecycleProgress.ReachesFree` | phpmainthread.go:93-234 | from every state without a stuck slot some continuation finishes the reboot, shutdown, boot or handler change and releases scalingMu |
| `LifecycleProgress.StuckKeepsLock` | phpthread.go:269-294 | a stuck slot keeps scalingMu locked in every continuation |
| `LifecycleProgress.LockCanBeReleasedIff` | phpmainthread.go:139-234 | in every reachable state scalingMu can be released if and only if no granted change was or is about to be overwritten and no slot still needed has lost its C thread to a failed respawn |
| `LifecycleTasks.AddingBeginsIff` | scaling.go:61-86 | when a thread may be added, for which handlers, to which slot, and what is asked for |
| `LifecycleTasks.OtherTasksBeginIff` | phpmainthread.go:93-156 | when a thread may be deactivated, everything rebooted or drained |
| `LifecycleTasks.TaskEnds` | phpthread.go:269-284 | in every run a handler change ends with exactly the handler that was asked for, or it was refused (never when a thread is added), or no C thread could be started |
| `LifecycleTasks.AddingReturnsWhenStable` | scaling.go:66-67 | whoever added a thread comes back only when its slot is Ready, Inactive or Reserved |
| `LifecycleTasks.AddedThreadBecomesReady` | scaling.go:72-86 | from every state without a stuck slot a thread that is being added can become Ready with the handler asked for |
| `LifecycleTasks.AddingCanSucceed` | scaling.go:61-86 | whenever a thread may be added and no granted change is lost, adding it can succeed |
| `LifecycleTasks.ArmPanicsIff` | threadinactive.go:46-51 | a handler panics exactly in the states it has no arm for |
| `LifecycleTasks.ScriptPanicsIff` | threadinactive.go:49-51 | when the end of a script, or its asking for a request, would panic |
| `LifecycleTasks.ControllerPanicsIff` | phpmainthread.go:216-224 | when boot, resuming a slot or closing a drain channel would panic |
| `LifecycleTasks.RebootIsWonIff` | phpthread.go:97-106 | at the request limit a thread wins its reboot exactly if it is Ready, with one rebooter for its handler |
| `LifecycleTasks.ScriptsAndRequests` | threadregular.go:87-121 | a regular script starts only for a received request; a worker waits for requests only inside its script |
| `LifecycleTasks.ReadyArms` | threadworker.go:46-54 | a ready or new worker runs its script, a regular thread waits for a request |
| `LifecycleTasks.DrainedIff` | threadworker.go:222-228 | a wait for requests ends without one exactly when its drain channel was closed |
| `LifecycleTasks.WakesIff` | threadinactive.go:29-32 | for which states parked threads wake |
| `LifecycleTasks.ReplacementOrRelease` | phpthread.go:133-159 | a created replacement is one C thread more; a failed one releases the slot as Reserved |
| `LifecycleTasks.RebooterWakesIff` | phpthread.go:133-135 | a rebooter goes on exactly when its slot is RebootReady |
| `LifecycleTasks.UnhealthyThreadIsReplaced` | frankenphp.c:1955-2013 | after a bailout a C thread only starts its replacement, or leaves the slot without one |
| `LifecycleTasks.BootOutcome` | phpthread.go:77-94 | a booting slot gets a C thread of the inactive handler and a new channel, or is Reserved again |
| `LifecycleTasks.ChannelsAreClosedOnce` | phpthread.go:278-283 | only the holder of scalingMu closes a drain channel, only an open one, and makes only new ones |
| `Scaling.DeactivateThreads` | scaling.go:230-270 | the backward pass with deletes in place leaves exactly the unremoved threads in order, and converts exactly the specified ones, at most 11 |
| `Scaling.DeleteAt` | scaling.go:237-250 | deleting one element in place shifts those behind it and keeps those before it |
| `Scaling.StoppedIsCapped` | scaling.go:242-250 | the running count is the number of eligible threads seen, capped at maxTerminationCount + 1 |
| `Scaling.ConvertedIff` | scaling.go:235-258 | a thread is converted if and only if it is idle long enough and at most 10 eligible ones are listed behind it; forgotten if and only if Reserved |
| `Scaling.RemainingKeepsOrder` | scaling.go:230-270 | what is left are the threads at increasing indices, in that order |
| `Scaling.KeptAtIff` | scaling.go:230-270 | an index is among them if and only if the pass keeps its thread |
| `Scaling.ConvertedInOrder` | scaling.go:246-250 | the converted threads are those at decreasing indices |
| `Scaling.ConvertedAtIff` | scaling.go:246-250 | an index is among them if and only if the pass converts its thread |
| `Scaling.Scaler.Track` | scaling.go:88-92 | appends unless listed, so the list stays duplicate-free |
| `Scaling.Scaler.PoolRestored` | phpthread.go:197-219 | restored if and only if enough configured threads or an autoscaled one to adopt; adopting takes exactly the last listed thread of the pool off the list |
| `Scaling.ConfiguredCounts` | phpthread.go:198-205 | the configured threads are counted by their positions |
| `Scaling.WorkerPool.AttachThread` | worker.go:248-252 | the thread comes last |
| `Scaling.WorkerPool.DetachThread` | worker.go:254-263 | the first occurrence goes and the rest stays in order |
| `Scaling.WorkerPool.IsAtThreadLimit` | worker.go:281-291 | full exactly if there is a maximum and it is reached |
| `Scaling.ScaleUpIff` | scaling.go:72-92 | a pool gains a thread exactly if it is below its maximum and the limit was checked; a scaled-up thread is then listed, a restored one not |
| `Scaling.DetachedLeavesOnce` | worker.go:254-263 | a detached thread leaves its pool once and nothing else changes |
| `Scaling.ListOperations` | scaling.go:163-176 | scaling is cleared exactly while the list has room; adoption and downscaling change the list only |
| `Scaling.ScalingStaysInBounds` | scaling.go:163-216 | over every sequence of limit checks, scale-ups, restores, adoptions, downscales and detachments the list stays duplicate-free and within maxThreads - numThreads, and no worker exceeds max(num, maxThreads) |
| `Dispatch.RunOk` | worker.go:293-360 | every interleaving keeps the dispatch invariant and never closes a closed channel |
| `Dispatch.NoDoubleClose` | context.go:201-212 | no done channel is closed twice in any run, and no regular script ends without its request |
| `Dispatch.EachRequestIsServedOnce` | threadregular.go:130-185 | a request goes to at most one thread, and its dispatcher returns from a delivery only after the done channel was closed, once |
| `Dispatch.DeliveredWithinPool` | worker.go:299-311 | in every run a request is delivered only to a waiting thread of its own pool, which then holds it |
| `Dispatch.HeldInOwnPool` | threadworker.go:231-234 | in every run what a handler holds belongs to its pool |
| `Dispatch.CanBeTakenIff` | worker.go:325-332 | a queued request can be taken, and an offered one given, exactly to the waiting threads of its pool |
| `Dispatch.ScansIfQueueIsEmpty` | threadregular.go:135-149 | a new request is offered around exactly if nobody of its pool is queued |
| `Dispatch.LeavesForItsReason` | worker.go:325-358 | a dispatcher leaves the queue for the reason it left the select |
| `Dispatch.FinishEarlyCloses` | threadworker.go:301-311 | ending a request early closes it at once, and its handler keeps it |
| `Dispatch.CanBeServed` | worker.go:293-332 | whatever the queue, a new request and a waiting thread of its pool can come together |
| `Dispatch.ArrivesAndConverts` | threadworker.go:28-36 | a request arrives in its own pool; a thread gets a new handler only between two scripts, holding nothing |
| `Dispatch.ClosePanicsIff` | context.go:201-212 | closing panics exactly if the channel was closed without being marked as done |
| `Dispatch.ThreadCanFinish` | threadworker.go:110-121 | a script can always be brought to its end, and then everything its thread held has been closed |
| `Dispatch.ThreadCanWaitAgain` | threadregular.go:72-101 | whatever it is doing, a thread can come to wait for a request again |
| `Dispatch.DispatcherCanReturnIff` | worker.go:293-360 | in every reachable state a dispatcher can come back if and only if its request was not overwritten while open |
| `Dispatch.ClosedBeforeWaitingAgain` | threadworker.go:254-296 | if no call nests, whenever a thread waits or its script has ended every request it was given has been closed exactly once |
| `Dispatch.AbandonedIffOverwritten` | threadworker.go:231-234 | a delivered request that is neither closed nor held any more is exactly one that a later receive of its thread overwrote while open |
| `Dispatch.AbandonedForever` | threadworker.go:269-296 | such a request is never closed and its dispatcher never returns |
| `Dispatch.ClosedWhenScriptEndedIff` | threadworker.go:110-121 | between two scripts every delivered request has been closed once, exactly unless it was overwritten; nested calls included |
| `Dispatch.NestedCallAbandons` | frankenphp.c:985-1060 | a nested call that gets a request abandons the outer one |
| `Dispatch.RequestsAreNotShared` | threadregular.go:87-128 | two handlers never hold the same request |
| `Dispatch.QueueCounterIsExact` | worker.go:315-360 | the queue counter equals the number of dispatchers between their increment and decrement |
| `GoBridge.Converter.ProtectRecursion` | types.go:470-478 | sets the flag if and only if it was not set |
| `GoBridge.Converter.GoValue` | types.go:289-388 | terminates on every heap, restores every recursion flag on success and on error, and computes the conversion |
| `GoBridge.Converter.GoBuckets` | types.go:93-232 | the loops over packed and hash arrays: the first failing element decides, holes are skipped |
| `GoCycles.ConvertSucceedsIff` | types.go:289-388 | succeeds if and only if neither a cycle nor an unsupported value is reachable; a reported error is really there |
| `GoCycles.RecursiveIffCycle` | types.go:470-478 | with supported types only, "recursive array" is reported exactly when a cycle is reachable; shared arrays are accepted |
| `GoCycles.ReferencesAreFollowed` | types.go:295-298 | a reference converts to what it refers to; a reference to a reference is unsupported |
| `GoCycles.ReferenceInArray` | types.go:183-232 | an array element behind a reference |
| `GoCycles.HolesAreSkipped` | types.go:205-232 | a table with holes converts like the same table without them |
| `GoCycles.LastValueWins` | types.go:152-178 | where keys coincide the last value wins, and the order lists the key each time |
| `GoCycles.DigitsAreDecimal` | types.go:152-158 | digits are the shortest decimal form of a number |
| `GoCycles.KeysAreDecimal` | types.go:152-158 | integer keys become their decimal form, string keys stay |
| `GoCycles.IntegerKeysStayApart` | types.go:152-158 | different integer keys stay different |
| `GoCycles.SuccessIsClean` | types.go:93-232 | success means that every path from the array is free of repeats, flagged arrays and unsupported values |
| `GoCycles.FailureHasPath` | types.go:93-232 | every failure has a path in the heap that explains it |
| `GoCycles.ValueIgnoresFlags` | types.go:289-388 | a shared array converts to the same value wherever it occurs |
| `GoRoundTrip.BuildReads` | types.go:399-443 | what phpValue wrote reads back, in every heap that keeps the written cells, as a value that may come back |
| `GoRoundTrip.RoundTrip` | types.go:244-277 | goValue after phpValue yields, for any value and any iteration order of its maps, one of the values that may come back for it |
| `GoRoundTrip.OrderedComesBackAsOne` | types.go:244-266 | for a value whose maps have orders only one value may come back |
| `GoRoundTrip.SelfIsFaithful` | types.go:244-277 | only a value without an empty slice whose orders list each key once may come back as itself |
| `GoRoundTrip.FaithfulIsSelf` | types.go:244-277 | and such a value comes back as nothing else |
| `GoRoundTrip.RoundTripIsIdentityIff` | types.go:289-443 | goValue(phpValue(v)) = v, key order included, if and only if v is such a value, whatever the iteration order of maps |
| `GoRoundTrip.EmptySliceComesBackAsMap` | types.go:268-277 | one family that is not given back |
| `GoRoundTrip.UnorderedMapComesBackOrdered` | types.go:256-263 | a map without an order comes back with the same keys and some order |
| `GoRoundTrip.BuiltKeys` | types.go:244-277 | the keys PHP sees: 0, 1, 2, ... for a slice; for an associative array its own keys as strings, numeric ones too, in the order they are first listed |
| `GoRoundTrip.Builder.PhpValue` | types.go:399-443 | writes the value into the heap as specified |
| `GoRoundTrip.Builder.PhpPackedArray` | types.go:268-277 | the loop filling a packed array |
| `GoRoundTrip.Builder.PhpArray` | types.go:244-266 | the loops filling a hash, in the given key order or as the map is iterated |
| `PersistentZval.ValidateIff` | zval.h:46-82 | validation accepts exactly the supported values whose nesting stays within the depth cap |
| `PersistentZval.Memory.PersistValue` | zval.h:91-168 | the loop that copies an array allocates and fills as specified |
| `PersistentZval.Memory.FreeValue` | zval.h:174-206 | the loop that releases an array frees as specified, and notices anything that is not a live cell |
| `PersistentZval.RestoreValue` | zval.h:212-298 | the loop that restores an array stops at the first unresolvable enum case |
| `PersistentZvalProofs.RoundTrip` | zval.h:91-298 | restoring a persisted value gives the value back, and throws if and only if one of its enum cases cannot be resolved |
| `PersistentZvalProofs.PartialRestore` | zval.h:250-298 | an array that throws holds the items in front of the first that cannot be resolved |
| `PersistentZvalProofs.PersistSpec` | zval.h:91-168 | a persisted value owns exactly the cells allocated for it, each once |
| `PersistentZvalProofs.FreeSpec` | zval.h:174-206 | free releases exactly the owned cells, each once, and nothing borrowed |
| `PersistentZvalProofs.PersistThenFree` | zval.h:91-206 | persist then free: memory as before, the cells released are exactly those allocated, each once |
| `PersistentZvalProofs.ValidatedDepthIsBounded` | zval.h:31-82 | recursion on a validated value is at most PERSISTENT_ZVAL_MAX_DEPTH + 1 deep |
| `Paths.EmptyAndDotVanish` | cgi.go:328-333 | path.Clean's rules for multiple slashes and "." hold of the walk over segments, anywhere in a path |
| `Paths.ParentCancels` | cgi.go:328-333 | path.Clean's rule for an inner ".." holds: it goes away with the segment in front of it |
| `Paths.ParentOfRootVanishes` | cgi.go:328-333 | path.Clean's rule for ".." at the root holds |
| `Paths.WalkIsCanonical` | cgi.go:484-509 | what is left has ".." segments only in front, none if rooted, and otherwise plain segments |
| `Paths.CanonicalIsFixed` | cgi.go:484-509 | such segments are left alone, so the rules are applied until none applies |
| `Paths.CleanIsIdempotent` | cgi.go:484-509 | cleaning a cleaned path changes nothing, and rootedness is kept |
| `Paths.CleanSegments` | cgi.go:328-333 | the segments of a cleaned path are exactly those the rules leave |
| `Paths.SlashDotIff` | cgi.go:308-316 | the "/." test holds exactly when a segment after the first starts with a dot |
| `Paths.CleanedSegments` | cgi.go:308-334 | where "/." occurs the result has exactly the segments the rules leave of the path, after a slash, and ends in a slash exactly if the path does or nothing is left; elsewhere the path is returned as it is |
| `Paths.NoDotSegmentLeftIff` | cgi.go:308-334 | cleaning leaves no dot segment if and only if "/." occurs or the first segment is none |
| `Paths.DotDotIsLeftAlone` | cgi.go:313-315 | the path ".." is left as it is |
| `Paths.RequestPathIsDotFree` | cgi.go:308-334 | a path with a leading slash keeps it and has no dot segment left |
| `Paths.CleanRequestPathIsIdempotent` | cgi.go:308-334 | cleaning twice is cleaning once, for every path |
| `Paths.JoinStaysUnderRoot` | cgi.go:484-509 | the joined path is the cleaned root continued by segments that are not empty, "." or "..", for every root and request path |
| `Paths.JoinedSegments` | cgi.go:484-509 | the same on segments: those of the root, those of the request path, and a final slash exactly as asked |
| `ScriptSplit.SplitPosIsFirst` | cgi.go:378-427 | the first list entry with a match ending the path or a segment, at its least index; -1 exactly if there is none |
| `ScriptSplit.FindSplitPos` | cgi.go:378-427 | the nested index loops compute that position |
| `ScriptSplit.SplitPosIgnoresCase` | cgi.go:378-427 | ASCII case never changes where a path is split |
| `ScriptSplit.SplitPosIgnoresUpperCase` | cgi.go:395-415 | a path written in upper case is split at the same place |
| `ScriptSplit.NormalizeSplitPath` | requestoptions.go:101-125 | accepts exactly ASCII entries, lower-cases in place, and stops at the first bad entry leaving the rest untouched |
| `ScriptSplit.NormalizedMatching` | requestoptions.go:101-125 | a normalized entry matches without regard to case on either side |
| `ScriptSplit.RequestContext.SplitCgiPath` | cgi.go:199-252 | the fields after the split, with and without a pre-assigned worker, and the failure when nothing splits |
| `ScriptSplit.ServerWorkerComesFirst` | cgi.go:246-249 | a worker of the server comes before a global one |
| `ScriptSplit.PathInfoStartsWithSlashIff` | cgi.go:199-252 | PATH_INFO is empty or starts with a slash, and exactly when not |
| `ScriptSplit.PathInfoWithoutSlash` | cgi.go:378-382 | the path "a" with an empty list |
| `ScriptSplit.ScriptAndPathInfoRebuildIff` | cgi.go:225-252 | script name plus PATH_INFO is the cleaned path if and only if the path is rooted or the list empty |
| `ScriptSplit.UnrootedPathGainsSlash` | cgi.go:236-239 | the path "a.php/b" |
| `ScriptSplit.RootedPathIsRebuilt` | cgi.go:199-252 | for every rooted request path and every list both hold |
| `EscapedPaths.UnescapeEscape` | cgi.go:337-358 | unescaping undoes the default encoding |
| `EscapedPaths.CleanEscape` | cgi.go:308-358 | cleaning commutes with the default encoding |
| `EscapedPaths.DefaultEncodingSelectsSameScript` | cgi.go:337-366 | the cleaned default encoding unescapes to the cleaned path, hence to the same script |
| `EscapedPaths.EarlyReturnIsSound` | cgi.go:337-366 | returning early on an empty RawPath never changes the answer |
| `EscapedPaths.SelectsAnotherScriptIff` | cgi.go:337-366 | another script is selected exactly if RawPath validly encodes the path and cleaning before decoding names a different script than cleaning after |
| `EscapedPaths.HexInEitherCase` | cgi.go:337-347 | hexadecimal digits are decoded in either case |
| `Registration.Validate` | frankenphp.go:329-350 | the loop over the declarations with the taken names and paths |
| `Registration.Registry.AddWorker` | worker.go:64-79 | one registration in the real tables |
| `Registration.Registry.InitWorkers` | worker.go:50-79 | the loop over the declarations on fresh tables |
| `Registration.RegisterAgrees` | server.go:133-148 | one registration answers as Validate does and overwrites no path |
| `Registration.ValidateAgreesWithInit` | worker.go:146-185 | both give the same answer, error included, on every list; addWorker's own duplicate error is unreachable |
| `Registration.AcceptedIff` | worker.go:146-166 | a list is accepted if and only if every file resolves, only scoped workers have a matcher, and any two have different names and do not share file and server without a matcher |
| `Registration.ReportedError` | worker.go:146-166 | which error is reported, and in which order they are checked |
| `Registration.ResolvesTo` | worker.go:114-144 | what a declaration is resolved to, and its default name |
| `Registration.RegisteredTables` | worker.go:60-79 | afterwards the workers are the resolved declarations in order, each found by its name and, unless it has a matcher, by its real and its declared path, and nothing else is found |
| `Registration.PathsAreNeverOverwritten` | server.go:133-148 | a path leads to the same worker for the rest of the registration |
| `PhpInfo.RunOk` | phpinfo.go:101-177 | every interleaving keeps the invariant of the tables |
| `PhpInfo.UnpinnedOnceWhenRetiredAndUnread` | phpinfo.go:158-177 | a table is unpinned exactly once, exactly when retired and unread; the retired list holds exactly the retired tables still borrowed |
| `PhpInfo.BorrowedTableStaysPinned` | phpinfo.go:134-156 | a borrowed table stays pinned, and its release finds that very table even if addresses are reused |
| `PhpInfo.BorrowShowsEarlierEntries` | phpinfo.go:42-47 | a borrow shows exactly the first registered entries, in order, and among them all that were registered before it began |
| `PhpInfo.EntriesAreRegistered` | phpinfo.go:42-47 | every registration counts, whatever is being built meanwhile |
| `PhpInfo.BorrowKnowsAll` | phpinfo.go:101-113 | a borrow knows all that was registered when it begins |
| `PhpInfo.CleanTableIsReused` | phpinfo.go:110-113 | an up-to-date table is handed out again, exactly then |
| `PhpInfo.DirtyFromAddToBorrow` | phpinfo.go:42-108 | a table is out of date from a registration until a borrow begins |
| `PhpInfo.BuildHandsOut` | phpinfo.go:115-129 | a borrow that builds a table hands out that table, made of the entries there were |
| `PhpInfo.InfoTables.AddPHPInfoEntry` | phpinfo.go:42-47 | the new entry and the dirty flag |
| `PhpInfo.InfoTables.BeginCollect` | phpinfo.go:101-113 | reads and clears the flag, and borrows the current table if it is up to date |
| `PhpInfo.InfoTables.CloneEntries` | phpinfo.go:49-52 | the entries are cloned after the flag was cleared |
| `PhpInfo.InfoTables.InstallTable` | phpinfo.go:118-128 | the new table becomes current with one reader, the old one is retired |
| `PhpInfo.InfoTables.LocateTable` | phpinfo.go:138-147 | the current table first, then the retired ones in order |
| `PhpInfo.InfoTables.ReleaseBorrow` | phpinfo.go:134-156 | ends a borrow and unpins if it was the last one of a retired table |
| `PhpInfo.InfoTables.RetireLocked` | phpinfo.go:158-166 | retires a table once |
| `PhpInfo.InfoTables.UnpinLocked` | phpinfo.go:168-177 | unpins a retired, unread table and takes it off the list |
| `EnvLayers.ParsesAssignment` | frankenphp.c:787-823 | putenv("NAME=value") assigns that value, whatever '=' it holds |
| `EnvLayers.ParsesUpToNul` | frankenphp.c:797-801 | the value ends where a NUL byte comes |
| `EnvLayers.ParsesRemoval` | frankenphp.c:797-813 | a name alone unsets it; what follows a NUL byte is ignored |
| `EnvLayers.Env.PutEnv` | frankenphp.c:780-823 | refuses exactly an empty setting or a leading '=', and otherwise changes the overrides only |
| `EnvLayers.Env.AddToPreparedEnv` | frankenphp.c:1809-1817 | adds to the prepared layer only |
| `EnvLayers.Env.WorkerRequestShutdown` | frankenphp.c:637-640 | drops the prepared layer only |
| `EnvLayers.Env.ShutdownDummyRequest` | frankenphp.c:646-656 | what was prepared for the boot becomes the worker layer |
| `EnvLayers.Env.EndScript` | frankenphp.c:1924-1951 | nothing is left, whatever the shutdown functions put |
| `EnvLayers.Env.GetEnv` | frankenphp.c:827-841 | the first layer that holds the name wins; an unset name gives false |
| `EnvLayers.Env.DupEnv` | frankenphp.c:843-862 | the merged environment agrees with single-name getenv for every name, unset ones included |
| `EnvLayers.Replay` | frankenphp.c:847-859 | replaying the overrides in any order gives their value, or removal, for each name |
| `EnvLayers.GetenvFollowsHistory` | frankenphp.c:637-666 | after every history getenv answers what the history says: last putenv of the script, else prepared for the request, else for the boot, else main |
| `EnvLayers.FinishedRequestLeavesNoPreparedEntry` | frankenphp.c:637-640 | taking away everything prepared for a finished request changes nothing of what comes after it |
| `EnvLayers.ScriptLeavesNothing` | frankenphp.c:1792-1805 | a whole script leaves a bare thread |
| `EnvLayers.PutenvOutlivesWorkerRequestIff` | frankenphp.c:591-643 | in every history a finished request leaves getenv(name) as it would be without it, if and only if it did not put the name, the script ended since, the name was put again, or the value is the one seen anyway |
| `EnvLayers.RequestChangesOverridesOnly` | frankenphp.c:591-643 | with and without a finished request only the overrides can differ |
| `EnvLayers.PutenvReachesNextRequest` | frankenphp.c:780-823 | after a worker boot, what one request put is seen by the next, and is not there without the first |
| `EnvLayers.UnmentionedNameIsMain` | frankenphp.c:827-841 | a name that nobody put or prepared is what it is in the main environment |
| `EnvLayers.SuperglobalIgnoresRequestIff` | frankenphp.c:668-679 | $_ENV takes nothing from a request if and only if the boot prepared something, or the request repeats the main environment |
| `EnvLayers.WorkerSuperglobalIsFixed` | frankenphp.c:668-679 | with an entry prepared at boot, $_ENV is the same whichever request first uses it |
| `EnvLayers.SuperglobalShows` | frankenphp.c:668-679 | what $_ENV shows for each name |

## Left out

- The Zend engine, cgo, pinning, signals, force-kill delivery, TSRM and fork handling: a C thread is live or not, a Zend array is an ordered table of buckets.
- Startup: the lifecycle model begins when `Init` has returned, with regular threads possibly still in their transition; worker scripts that failed to boot, or that reboot all threads while `Init` still runs, do not occur.
- Time: timeouts, back-off, idle and stall times are nondeterministic choices or parameters. What is proved about progress is that it stays possible, not that a fair schedule makes it.
- The main thread's failed recreation after a reboot (phpmainthread.go:211-213), which ends the process.
- The attachment of threads to pools is not part of the lifecycle model; in Scaling a thread is attached in the same step in which it is added.
- Dispatch: the order of waiting requests is the runtime's.
- GoBridge.Converter.GoValue: only the instance for `any`; immutable arrays, whose flag operations do nothing, are treated like others. Floats are copied, never computed with.
- PersistentZval: the storage of hash buckets is not a cell of its own; out-of-memory does not occur.
- Windows path branches, and request contexts that are not built from a URL.
- EscapedPaths.EarlyReturnIsSound: whether RawPath is a valid encoding is a parameter.
- Registration.ValidateAgreesWithInit: the file system does not change between the two and resolving a resolved name changes nothing; options of a worker other than name, file, server and matcher.
- PhpInfo: the rows taken from the Go build information and the sorting of the rows.
- EnvLayers: the order of the variables, and the failure of the handover outside a request.
- The watcher and its patterns, hot reload, Caddy, Mercure, metrics, logging, the extension generator and the command line: plumbing, or without a written specification.
