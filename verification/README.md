# Service kernel: a verified model of the runtime control plane

This project models the state machines and small protocols that drive a Rust
service kernel and proves what they promise over every input, every run and
every interleaving. `dafny verify dfyconfig.toml` checks all of it.

## What is modelled

- **Supervisor and circuit breakers** (`SupervisorModel`, `SupervisorGrowth`,
  `SupervisorInvariants`, `SupervisorRestarts`, `SupervisorTheorems`,
  `SupervisorRetries`, `SupervisorDecisions`, `SupervisorWindows`, `SupervisorTimeouts`,
  `SupervisorStamps`, class in `SupervisorObject`; breaker in `Circuit` and `CircuitWindows`, policies in
  `Policies`). One turn of the select loop is a function on a value; the class updates
  its maps in place and every method is proved equal to that function, so the results
  about runs apply to it. Task outcomes, clock readings, the walk order of hash maps,
  the set of timed-out workers and the moment of cancellation are supplied by the
  environment and are arbitrary.
- **Subsystem ordering, boot, rollback and shutdown** (`Dependencies`, `BuildOrder`,
  `Builder`, `KernelCalls`, `KernelObject`, `KernelClones`, `KernelProgress`,
  `Lifecycle`). Kahn's algorithm with
  its in-degree map and queue, the validation before it, the reordering after it,
  and the calls a kernel makes on its subsystems: one caller as a class, any number
  of clones as a state machine.
- **Event dispatcher** (`Dispatcher`, `DispatcherProtocol`). Used sequentially it
  refines a plain list; used concurrently it is a protocol of separate lock steps.
- **Health aggregate** (`Health`). The cached maximum, and exactly when a stale load
  breaks it, for one report and for every interleaving of reports.
- **Shutdown signal, coordinator and drain** (`ShutdownSignal`, `Coordinator`, `Drain`).

Readings of the monotonic clock are natural numbers of nanoseconds. Differences
saturate at zero, as `duration_since` does, so safety does not rest on the order in
which readings arrive. An order is assumed only where a result is about it:
`Coordinator.SkippingIsFinal`, the comparison of chains with sliding windows, and the
spacing of event stamps.

## Where the code differs from its documentation

The model follows the code. Where a documented promise (in italics) is not kept, lemmas
give an input that breaks it and say exactly when it holds.

- *A stopped worker is not spawned again.* The watchdog spawns the worker of an Open
  breaker whatever its restart policy says. A Stopped worker is final exactly when
  cancellation was seen or its breaker, if it has one, is not Open
  (`StoppedIsFinalExactlyWhen`), and `Never` means "spawned once" exactly when no
  single failure trips the breaker (`NeverRunsOnceExactlyWhen`, with the second run
  built in `NeverMayRunTwice`).
- *Failures are counted within a sliding window.* Both counters compare a failure only
  with the one before it, so they measure chains. A breaker trips wherever the window
  would fill up, and trips where it would not exactly when the last max(1, threshold)
  failures form a chain that is longer than the window (`TripsLikeWindowExactlyWhen`,
  input in `ChainTripsOutsideWindow`). It never differs from the window exactly when two
  failures suffice to trip it or its window is zero (`AlwaysLikeWindowExactlyWhen`). The
  restart counter differs from a window of 60 s in the same way
  (`RetriesLikeWindowExactlyWhen`, input in `ThreeFailuresStopOutsideWindow`).
- *`MaxRetries.window` sets that window.* It is never read; 60 s is used instead. The
  policy decides by its configured window in every run exactly when `retries` is at most
  1, or is 2 with a window of 60 s, or a single failure already trips the worker's
  breaker (`ConfiguredWindowIsKeptExactlyWhen`). With 2 retries in 10 s, two failures
  50 s apart stop the worker (`TenSecondWindowIsIgnored`).
- *A heartbeat-silent worker is treated as failed.* A timeout only cancels the worker's
  token, which is never renewed (`TokenStaysCancelled`). A timed-out worker may complete
  and is then recorded like any other that does (`TimedOutWorkerMayComplete`). At any
  loop head all continuations record the worker's next end of run as a failure exactly
  when there can be none: cancellation was seen, or the worker has no task and its
  breaker, if it has one, is not Open (`NextEndFailsExactlyWhen`).
- *`run` also ends once every worker has stopped permanently.* It ends only on
  cancellation. Inside a turn the loop sees cancellation exactly when a backoff is
  interrupted (`LoopLeavesExactlyWhen`), and with every worker stopped for good it goes
  on in every continuation (`StoppedLoopWaits`).
- *`open_duration` separates an opening from its trial.* It separates the breaker's own
  readings; the events are stamped later. The stamps are as far apart exactly when the
  opening was stamped without delay, the duration is zero, or the run was cancelled
  (`StampsAreSpacedExactlyWhen`).
- *The list reported with a dependency cycle is the cycle.* It is every subsystem from
  which a cycle can be reached, which is the members of cycles exactly when nothing
  outside them depends on them (`ReportIsCyclesExactlyWhen`, input in
  `DependentIsNotOnCycle`).
- *The cached health aggregate is the maximum.* `report` loads it before it takes the
  lock. It stays right at all times exactly when every locked step is harmless where it
  runs (`AlwaysRightExactlyWhenHarmless`, condition in `StaleCommitIsRightExactlyWhen`,
  input in `StaleLoadHidesCritical`).
- *Shutdown hooks never stop the sequence.* An error or a timeout does not, but a panic
  is not caught: Completed follows Started exactly when no hook that is started panics,
  and later calls still run nothing (`ShutdownCoordinator.Shutdown`).
- A panic joined after the deadline counts as aborted in `drain` and as drained in the
  supervisor's own shutdown; the two counts differ by exactly those
  (`CountingRulesDifferByLatePanics`).
- If the execution phase fails, the kernel stays Running and nothing is shut down
  (`KernelObject.Kernel.Run`).

## Model

| member | source | states |
|---|---|---|
| Circuit.HistoryIsConsistent | src/worker/policy/circuit.rs:176-268 | over every history of calls, `opened_at` is missing exactly in Closed and the counter never exceeds max(1, threshold), staying below it while Closed |
| Circuit.ClosedCountsLongestChain | src/worker/policy/circuit.rs:193-223 | in Closed, the counter is the length of the longest chain of failures since the last success whose neighbouring gaps are within the window, and the stored timestamp is the last of them |
| Circuit.TripsExactlyAtThreshold | src/worker/policy/circuit.rs:210-223 | a failure opens a Closed breaker if and only if the chain it ends has at least max(1, threshold) members |
| Circuit.ClosedExactlyWhenNotTripped | src/worker/policy/circuit.rs:176-244 | the state is Closed if and only if no chain long enough to trip has occurred since the last success |
| Circuit.OpenedAtIsLatestOpening | src/worker/policy/circuit.rs:181-191 | the stored timestamp is the latest opening the history has not recovered from |
| Circuit.TickLeavesOpenExactlyWhenElapsed | src/worker/policy/circuit.rs:248-268 | a tick leaves Open if and only if the open duration has elapsed since the latest opening; it never gets stuck on a missing timestamp |
| Circuit.TrialDecides | src/worker/policy/circuit.rs:176-244 | a failure in HalfOpen opens the breaker again as of that instant, one in Open changes nothing, and a success resets it from anywhere |
| Circuit.CounterNeverWraps | src/worker/policy/circuit.rs:210 | the u32 increment in Closed never overflows |
| Circuit.CircuitBreaker.constructor | src/worker/policy/circuit.rs:151-159 | a new breaker is that of the empty history |
| Circuit.CircuitBreaker.RecordFailureAt | src/worker/policy/circuit.rs:176-226 | the four fields move as the failure function, so they stay those of the history of calls that the lemmas are about |
| Circuit.CircuitBreaker.RecordSuccessNow | src/worker/policy/circuit.rs:229-244 | a success resets every field |
| Circuit.CircuitBreaker.TickAt | src/worker/policy/circuit.rs:248-268 | the fields move as the tick function and stay those of the history of calls |
| Circuit.RefusesExactlyUntilElapsed | src/worker/policy/circuit.rs:246-277 | over every history, work is refused if and only if the breaker has an opening it has not recovered from and no tick since has read the open duration as elapsed |
| CircuitWindows.ChainVersusWindow | src/worker/policy/circuit.rs:194-210 | a chain is never shorter than a sliding-window count, and equals it if and only if its oldest member is still within the window |
| CircuitWindows.TripsLikeWindowExactlyWhen | src/worker/policy/circuit.rs:193-223 | a Closed breaker trips wherever a sliding window fills up; the two disagree if and only if the last max(1, threshold) failures are a chain whose ends are further apart than the window |
| CircuitWindows.ChainTripsOutsideWindow | src/worker/policy/circuit.rs:193-223 | threshold 3, window 60: failures at 0, 40 and 80 open the breaker with two failures inside the window |
| CircuitWindows.AlwaysLikeWindowExactlyWhen | src/worker/policy/circuit.rs:193-223 | breaker and sliding window agree at every failure of every ordered history if and only if max(1, threshold) is at most 2 or the window is zero |
| Circuit.CircuitBreaker.Allow | src/worker/policy/circuit.rs:275-277 | on the breaker's own history, work is refused if and only if there is an opening not recovered from and no tick since has read the open duration as elapsed |
| Policies.ExponentialDelayIsExact | src/worker/policy/backoff.rs:39-53 | the saturating product and the u64/u32 split lose nothing: the delay is min(base * 2^min(attempt, 63), max) nanoseconds |
| Policies.DelayIsZeroExactlyWhen | src/worker/policy/backoff.rs:35-55 | there is no delay if and only if there is no backoff or it holds a zero; a fixed backoff is the same before every attempt |
| Policies.DelayIsCappedAndMonotone | src/worker/policy/backoff.rs:35-55 | the delay is nondecreasing in the attempt and never above the cap |
| Policies.DelayIsIdealExactlyWhen | src/worker/policy/backoff.rs:45-49 | capping the exponent at 63 is invisible if and only if attempt <= 63, the base is zero, or base * 2^63 reaches the cap |
| SupervisorInvariants.AdvanceCircuitRestoresInv | src/worker/supervisor.rs:510-554 | recording the outcome of a just-joined worker re-establishes the relation between breakers, events and tasks |
| SupervisorInvariants.MaybeRestartRestoresInv | src/worker/supervisor.rs:437-503 | the restart decision keeps that relation, restarting, stopping or cancelled in backoff |
| SupervisorInvariants.TickAllReachesMid | src/worker/supervisor.rs:274-284 | after the walk exactly the promoted workers are HalfOpen without a task, each once |
| SupervisorInvariants.StartTrialsConsumes | src/worker/supervisor.rs:285-294 | each announced and spawned trial completes one promoted worker, so that the relation holds again at the end |
| SupervisorInvariants.TurnKeepsInv | src/worker/supervisor.rs:202-248 | every turn of the loop keeps the invariant |
| SupervisorInvariants.EveryLoopHeadIsConsistent | src/worker/supervisor.rs:195-249 | the invariant holds at every loop head of every first run |
| SupervisorTheorems.BreakersAgreeWithTasks | src/worker/supervisor.rs:195-369 | at every loop head the task table is exactly the live tasks, no worker has two, an Open breaker has none and a HalfOpen breaker has one |
| SupervisorTheorems.NoOutcomeOnOpenBreaker | src/worker/supervisor.rs:371-428 | whichever task ends next, its worker is registered and its breaker is not Open |
| SupervisorTheorems.IdleCheckIsRedundant | src/worker/supervisor.rs:315-321 | dropping the idle check before trial runs changes no run |
| SupervisorTheorems.CircuitEventsFollowGrammar | src/worker/supervisor.rs:275-294 | a worker's circuit events follow Opened, HalfOpened, then Opened or Closed; openings and trials are at least the open duration apart on the breaker's clock; the last event determines the breaker's state |
| SupervisorStamps.StampsAreSpacedExactlyWhen | src/worker/supervisor.rs:275-294 | from any loop head with an Open breaker, the next circuit event in every continuation is a trial stamped at least the open duration after the opening if and only if the opening was stamped without delay, the duration is zero, or cancellation was seen |
| SupervisorStamps.LateStampIsCloser | src/worker/supervisor.rs:520-540 | otherwise one tick gives a closer pair of stamps |
| SupervisorGrowth.RunExtends | src/worker/supervisor.rs:195-249 | a run only adds events, keeps every worker with its specification and its token cancelled once it is, and cancels tokens by announced timeouts only |
| SupervisorTheorems.WatchdogReleasesExactlyWhenElapsed | src/worker/supervisor.rs:254-313 | a tick moves an Open breaker to HalfOpen and gives its worker a task if and only if the walk reads the open duration as elapsed; otherwise it stays Open and idle |
| SupervisorTheorems.EveryLoopHeadHasTrueStates | src/worker/supervisor.rs:340-359 | until cancellation is seen, a worker reads Running exactly while it has a task and Stopped otherwise |
| SupervisorTheorems.StoppedIsFinalExactlyWhen | src/worker/supervisor.rs:285-294 | at any loop head, a Stopped worker is left as it is by every continuation, never spawned again, if and only if cancellation was seen or its breaker, if any, is not Open |
| SupervisorTheorems.RetiredForever | src/worker/supervisor.rs:202-248 | from any consistent state, a worker without a task whose breaker, if any, is not Open is not touched by any script of turns |
| SupervisorTheorems.LoopLeavesExactlyWhen | src/worker/supervisor.rs:469-474 | a turn lets the loop see cancellation if and only if it interrupts the backoff of a restart |
| SupervisorTheorems.StoppedLoopWaits | src/worker/supervisor.rs:231-243 | once every worker has stopped for good the loop neither leaves nor starts anything in any continuation |
| SupervisorTimeouts.TokenStaysCancelled | src/worker/supervisor.rs:307-311 | a cancelled token stays cancelled through every restart and every trial |
| SupervisorTimeouts.CancelledExactlyWhenTimedOut | src/worker/supervisor.rs:297-312 | at every loop head a worker's token is cancelled if and only if a timeout of it was announced |
| SupervisorTimeouts.TimeoutsAreAnnounced | src/worker/supervisor.rs:297-312 | a tick ends by announcing every worker that timed out, in order and no other, and cancels the token of each that is registered |
| SupervisorTimeouts.TimedOutWorkerMayComplete | src/worker/supervisor.rs:296-312 | from any loop head, a running `OnFailure` worker may time out and complete: stopped, no failure counted, attempts zero, breaker reset, token cancelled |
| SupervisorTimeouts.NextEndFailsExactlyWhen | src/worker/supervisor.rs:371-411 | all continuations of a loop head record the worker's next end of run as a failure if and only if none can end: cancellation seen, or no task and no Open breaker |
| SupervisorTheorems.NeverRunsOnce | src/worker/policy/restart.rs:42-51 | a `Never` worker whose breaker a single failure does not trip is started once in every run |
| SupervisorTheorems.NeverMayRunTwice | src/worker/supervisor.rs:285-294 | otherwise one failure and one tick start it a second time |
| SupervisorTheorems.NeverRunsOnceExactlyWhen | src/worker/supervisor.rs:437-503 | `Never` means one start in all runs if and only if no single failure trips the breaker |
| SupervisorRetries.ChainBoundIsKept | src/worker/handle.rs:88-97 | over one end of run the u32 failure counter stays the length of the current chain of failures, the attempt number is that length after a failure and zero after a success, and fewer than max(retries, 1) restarts fall in the chain |
| SupervisorRetries.RetriesAreBounded | src/worker/supervisor.rs:437-503 | in every run a `MaxRetries` worker, with or without a circuit, is restarted at most max(retries, 1) - 1 times within any chain of failures at most 60 s apart |
| SupervisorDecisions.EveryoneIsStarted | src/worker/supervisor.rs:197-200 | at the first loop head every registered worker is Running with one task and has been started exactly once |
| SupervisorDecisions.EveryFailureIsCounted | src/worker/handle.rs:88-97 | in every run and under every policy, the failure counter is the number of failures in the current chain of the log, and the stored wall-clock reading that of the last |
| SupervisorDecisions.BreakersFollowTheirCalls | src/worker/supervisor.rs:202-284 | in every run each breaker is the one after exactly these calls: one failure or success for each end of its worker's runs, by the outcome, and a tick for each visit; so the results on histories hold of it |
| SupervisorDecisions.EndOfRunDecides | src/worker/supervisor.rs:371-503 | in every run, when a task of a worker ends: it runs again, with one more start, if and only if the policy asks for it (`Always`; `OnFailure` on a failure; `MaxRetries` on a failure while the chain is shorter than `retries`), its breaker, if any, is not Open afterwards, and no nonzero backoff is interrupted; state, attempt number and every event, in order and with its payload, are given for each case |
| SupervisorWindows.RetriesLikeWindowExactlyWhen | src/worker/handle.rs:88-97 | when a running worker that has not tripped fails, the policy never allows a restart that a 60 s window would refuse, and agrees with it if and only if the last `retries` failures are not a chain longer than 60 s (wall clock past zero and in order) |
| SupervisorWindows.ConfiguredWindowIsKeptExactlyWhen | src/worker/supervisor.rs:448-452 | over all runs, every failure of a running worker that has not tripped (wall clock past zero and in order) is decided by the configured window if and only if retries <= 1, or retries == 2 and the window is 60 s, or a single failure trips the worker's breaker |
| SupervisorWindows.TenSecondWindowIsIgnored | src/worker/supervisor.rs:448 | a run in which two retries in a configured 10 s are used up by two failures 50 s apart |
| SupervisorWindows.FailuresReach | src/worker/supervisor.rs:437-503 | any failure readings fewer than `retries` are those of some run that still goes on |
| SupervisorWindows.ThreeFailuresStopOutsideWindow | src/worker/policy/restart.rs:42-51 | a run in which three failures 50 s apart use up three retries although only two lie within 60 s |
| SupervisorRestarts.TurnLeaves | src/worker/supervisor.rs:202-248 | a turn that does not end a worker's task leaves that worker, its events and its task alone unless its breaker is Open |
| SupervisorRestarts.OwnTurn | src/worker/supervisor.rs:371-503 | for any worker, what the end of its run emits for it, in order, and its next state, in terms of the decision functions that `EndOfRunDecides` reads off policy, outcome and breaker |
| SupervisorObject.Supervisor.constructor | src/worker/supervisor.rs:103-122 | a new supervisor is a fresh starting point for runs |
| SupervisorObject.Supervisor.Register | src/worker/supervisor.rs:171-191 | registration adds one untouched worker under a new id and keeps the supervisor fresh |
| SupervisorObject.Supervisor.SpawnTask | src/worker/supervisor.rs:324-369 | the tables and the worker state move as the spawn function |
| SupervisorObject.Supervisor.SpawnTaskIfIdle | src/worker/supervisor.rs:315-321 | spawns only when no task of the worker is in the table |
| SupervisorObject.Supervisor.RecordOnCircuit | src/worker/supervisor.rs:510-554 | breaker and events move as the circuit function; the answer says whether the breaker is now Open |
| SupervisorObject.Supervisor.RestartOrStop | src/worker/supervisor.rs:437-503 | the fields move as the restart decision, whose answer over every run is `EndOfRunDecides` |
| SupervisorObject.Supervisor.OnJoined | src/worker/supervisor.rs:212-230 | a joined task is handled as the join function, whether it returned or panicked outside the catch |
| SupervisorObject.Supervisor.TickBreakers | src/worker/supervisor.rs:274-284 | the walk moves every breaker as the model's walk and lists those it moved to HalfOpen |
| SupervisorObject.Supervisor.SpawnTrials | src/worker/supervisor.rs:285-294 | each listed trial is announced and spawned, in order |
| SupervisorObject.Supervisor.CancelTimedOut | src/worker/supervisor.rs:297-312 | each timeout is announced and only cancels the worker's token |
| SupervisorObject.Supervisor.OnWatchdogTick | src/worker/supervisor.rs:254-313 | the three steps of a tick together are the watchdog function |
| SupervisorObject.Supervisor.MarkAll | src/worker/supervisor.rs:577-587 | each pass over the workers marks every one once and emits its event |
| SupervisorObject.MarkEventsInOrder | src/worker/supervisor.rs:577-587 | a pass emits one event per worker of its kind, in the order of its walk |
| SupervisorObject.Supervisor.JoinAll | src/worker/supervisor.rs:592-610 | every joined task leaves both tables and is counted once, as aborted if and only if it was cancelled |
| SupervisorObject.Supervisor.DrainAll | src/worker/supervisor.rs:589-632 | the set ends empty, every task is joined once, and the counts are those of the join results before the deadline and after the abort, late panics counting as drained |
| SupervisorObject.Supervisor.ShutdownAll | src/worker/supervisor.rs:576-650 | afterwards nothing is in flight, every worker is Stopped with its token cancelled, and the counts add up |
| SupervisorObject.Supervisor.TakeTurn | src/worker/supervisor.rs:203-246 | one turn is the turn function, and nothing once cancellation was seen |
| SupervisorObject.Supervisor.SpawnEveryone | src/worker/supervisor.rs:197-200 | the initial spawns are the spawn walk |
| SupervisorObject.Supervisor.TakeTurns | src/worker/supervisor.rs:202-248 | the loop is the composition of its turns |
| SupervisorObject.Supervisor.Run | src/worker/supervisor.rs:195-249 | after a first run both task tables are empty, every registered worker is Stopped, and the events are those of the last loop head followed by the two shutdown passes |
| Dependencies.OrderedNamesReachNoCycle | src/kernel/builder.rs:333-338 | no name of a list with dependencies first reaches a cycle |
| Dependencies.StuckNamesReachCycles | src/kernel/builder.rs:383-388 | a set whose members all depend on members contains a real cycle, reachable from each of them |
| Builder.BuildEdges | src/kernel/builder.rs:344-354 | in-degrees count dependency slots and dependents list one entry per slot, repeats included, in declaration order |
| Builder.ScanSlots | src/kernel/builder.rs:350-353 | scanning one subsystem counts each of its dependency slots in both maps |
| Builder.SeedQueue | src/kernel/builder.rs:356-363 | the queue starts with exactly the names of in-degree zero, each once, in declaration order |
| Builder.Release | src/kernel/builder.rs:369-379 | releasing dependents keeps in-degrees equal to unmet slots, never enqueues a name twice, and leaves everyone in turn: by when the last dependency is listed, then by declaration |
| Builder.TakeOne | src/kernel/builder.rs:367-370 | a popped name has all its dependencies already listed |
| Builder.PositiveIsCyclic | src/kernel/builder.rs:382-390 | when the queue is empty, the names of positive in-degree are exactly those that reach a cycle |
| Dependencies.ReachingIsOnCycleExactlyWhen | src/kernel/builder.rs:383-388 | reaching a cycle means being on one if and only if nothing outside the cycles depends on them |
| Dependencies.DependentIsNotOnCycle | src/kernel/builder.rs:383-388 | a subsystem that depends on a self-dependent one reaches a cycle without being on any |
| Builder.ReportIsCyclesExactlyWhen | src/kernel/builder.rs:382-390 | the reported names are the members of cycles if and only if nothing outside the cycles depends on them |
| Builder.ListStuck | src/kernel/builder.rs:384-388 | the report lists those names in declaration order |
| Builder.NamesInOrder | src/kernel/builder.rs:384-388 | the listed names are those of subsystems at increasing positions of the declaration |
| Builder.TopoSort | src/kernel/builder.rs:339-393 | the sort terminates and succeeds if and only if the graph is acyclic, with a permutation that puts every dependency strictly first and is in turn; otherwise the nonempty report is exactly the names that reach a cycle, in declaration order, each waiting for a reported one |
| Builder.BootOrderIsDetermined | src/kernel/builder.rs:356-380 | the boot sequence is deterministic: only one boot order of given declarations is in turn |
| BuildOrder.NeededIsLeast | src/kernel/builder.rs:367-380 | the turn of a name is set by the shortest prefix that lists all its dependencies |
| Builder.IndexByName | src/kernel/builder.rs:400-404 | the emptied vector is indexed by name, nothing lost |
| Builder.Reorder | src/kernel/builder.rs:396-409 | the subsystems come back in the given order with none lost or added |
| Builder.FindReserved | src/kernel/builder.rs:251-256 | finds the first reserved name in use, if and only if there is one |
| Builder.FindDuplicate | src/kernel/builder.rs:263-268 | finds the first repeated name, if and only if the names are not distinct |
| Builder.FindMissing | src/kernel/builder.rs:271-280 | finds the first unresolved dependency slot, if and only if there is one |
| Builder.Build | src/kernel/builder.rs:226-283 | building succeeds if and only if the name is nonempty, no reserved name is used, and all names are distinct, resolved and acyclic; each error arises exactly when its check is the first to fail, and names the first offender; the order built is the one boot order in turn |
| Lifecycle.PhasesNeverGoBack | src/lifecycle/transition.rs:48-80 | over any sequence of attempts phase ordinals never decrease and a terminal state is never left |
| Lifecycle.LegalExactlyWhen | src/lifecycle/transition.rs:48-80 | the legal moves are these thirteen and no others, none of them to the same state |
| Lifecycle.PhasesAdvanceOneByOne | src/lifecycle/state.rs:82-90 | phases run from Idle to Shutdown, and a legal move that does not fail stays in its phase or enters the next |
| Lifecycle.OnlySteadyStatesRepeat | src/lifecycle/transition.rs:62-70 | a state can be left and entered again only in the Exec phase |
| Lifecycle.LifecycleController.constructor | src/lifecycle/controller.rs:112-121 | a new controller is in Created with no events |
| Lifecycle.LifecycleController.Transition | src/lifecycle/controller.rs:187-220 | succeeds if and only if legal, changes nothing otherwise, and keeps the emitted transitions a legal chain from Created to the current state |
| Lifecycle.LifecycleController.Snapshot | src/lifecycle/controller.rs:162-172 | state, phase and time all belong to the latest transition emitted, or to Created before any |
| KernelCalls.TraceCallsOnce | src/kernel/core.rs:466-562 | no boot, load or shutdown call occurs twice |
| KernelCalls.TraceRespectsDependencies | src/kernel/core.rs:466-562 | around each dependency, the dependency boots and loads first and shuts down last, and no dependent is booted or loaded without it |
| KernelCalls.TraceIsInPhases | src/kernel/core.rs:466-562 | boots come before loads and loads before shutdowns, the first two in the order and the last in its reverse |
| KernelObject.RunRespectsDependencies | src/kernel/core.rs:277-302 | in every run over a boot order, whatever fails, calls are unique and respect dependencies, and no dependent is booted or loaded without its dependency |
| KernelObject.BootTraceIsRight | src/kernel/core.rs:219-256 | what `boot` computes is right by the outcomes alone: who is booted, who is loaded, and after a failed load exactly those that loaded are shut down; the error names the first that failed |
| KernelObject.RunTraceIsRight | src/kernel/core.rs:277-302 | what `run` computes is right by the outcomes alone: after a normal boot and execution every subsystem has been booted, loaded and shut down; state and result say which step failed, if any |
| KernelObject.LastFailingIsRight | src/kernel/core.rs:516-539 | the error that `run` keeps from shutdown is the first its reverse walk meets, and there is one if and only if some shutdown failed |
| KernelObject.Kernel.constructor | src/kernel/core.rs:95-102 | a new kernel has made no calls |
| KernelObject.Kernel.RunBootPhase | src/kernel/core.rs:466-484 | boots are the prefix of the order up to and including the first failure, which is reported |
| KernelObject.Kernel.RunLoadPhase | src/kernel/core.rs:486-504 | loads are such a prefix, and exactly the successes are recorded as loaded |
| KernelObject.Kernel.RunShutdownPhase | src/kernel/core.rs:509-540 | every subsystem is shut down in exact reverse; the first error met is returned |
| KernelObject.Kernel.RunShutdownPhaseToLoaded | src/kernel/core.rs:544-562 | exactly the loaded prefix is shut down, in reverse |
| KernelObject.Kernel.LoadOrRollBack | src/kernel/core.rs:242-255 | a subsystem is shut down if and only if it was loaded successfully and some load failed, in reverse of the loads; the state is Running if nothing failed and Failed otherwise |
| KernelObject.Kernel.Boot | src/kernel/core.rs:219-256 | each subsystem is booted if and only if all before it were, and loaded if and only if all booted and all before it loaded; shut down are exactly the successfully loaded ones when a load failed, in reverse, and none otherwise; the error names the first failure; the state ends Running or Failed; a second boot is refused without effect |
| KernelObject.Kernel.StopAll | src/kernel/core.rs:282-301 | after a normal execution every subsystem is shut down in exact reverse, the kernel is Stopped, and the first error met is returned |
| KernelObject.Kernel.Run | src/kernel/core.rs:277-302 | after a normal execution every subsystem is shut down, in exact reverse, and the state is Stopped; otherwise the calls are those of `boot`; the result is Ok if and only if everything returned normally, else it names the failure that ended the run or the first met in shutdown; the later illegal-transition returns are unreachable |
| KernelObject.BuildKernel | src/kernel/builder.rs:226-330 | what `build` accepts, exactly the valid configurations, becomes an unused kernel whose order is a boot order |
| KernelObject.BuildAndRun | src/kernel/core.rs:277-302 | a built kernel, run once, makes each call at most once and respects every declared dependency, whatever fails |
| KernelClones.OwnerMoves | src/kernel/core.rs:219-302 | each step of the one invocation past the first transition keeps the shared state in line with its position |
| KernelClones.EachCallHappensOnce | src/kernel/core.rs:219-302 | in every interleaving of any number of clones each subsystem's boot, load and shutdown happen at most once |
| KernelClones.InterleavedCallsRespectDependencies | src/kernel/core.rs:219-302 | across all clones calls respect dependencies, no dependent is booted or loaded without its dependency, and nothing is loaded or shut down before every boot |
| KernelClones.BuiltClonesRespectDependencies | src/kernel/core.rs:219-302 | any number of clones of a built kernel, in every interleaving, make each call at most once and respect every declared dependency |
| KernelClones.FinishedRunIsStopped | src/kernel/core.rs:282-301 | a finished `run` leaves the kernel Stopped after a complete reverse shutdown; no later illegal transition is ever met |
| KernelProgress.OkOwnerFinishes | src/kernel/core.rs:280-301 | whatever other clones do in between, an owner whose steps return normally finishes once it has taken as many as are left, the length of the order plus 3 from the execution phase: a `run` with the kernel Stopped after a complete reverse shutdown, a `boot` with it Running |
| KernelProgress.TroubledOwnerFails | src/kernel/core.rs:236-255 | an owner whose boot or load failed reports it after the steps left, with the kernel Failed and exactly the loaded prefix shut down |
| KernelProgress.FailingStepIsTrouble | src/kernel/core.rs:236-291 | a step that fails leads to the error path of its phase at once |
| KernelProgress.ErrorsHaveCauses | src/kernel/core.rs:219-302 | in every interleaving an invocation is at an error only if an earlier step of its own failed, in the phase and at the subsystem the error names |
| KernelProgress.FirstStepOwnsOrIsRefused | src/lifecycle/controller.rs:187-220 | the first step of an invocation makes it the owner if the kernel is in Created, and is refused without effect otherwise |
| KernelClones.OwnerIsForever | src/lifecycle/controller.rs:187-220 | whoever passes the first transition stays the only one to do so |
| KernelClones.InterleavedPhasesNeverGoBack | src/lifecycle/controller.rs:187-220 | phase ordinals never decrease in any interleaving |
| Dispatcher.WithoutOnTopic | src/events/dispatcher.rs:95-103 | deleting a subscription deletes one registration on its topic and nothing on others |
| Dispatcher.RoutesDelete | src/events/dispatcher.rs:95-103 | removing a position and then an empty list from the topic index matches deletion from the list |
| Dispatcher.IndexesAgree | src/events/dispatcher.rs:95-104 | an indexed id is always found in its route, so the final `false` is dead |
| Dispatcher.EventDispatcher.constructor | src/events/dispatcher.rs:51-57 | a new dispatcher is the empty list |
| Dispatcher.EventDispatcher.Subscribe | src/events/dispatcher.rs:59-77 | appends one entry under an unused id |
| Dispatcher.EventDispatcher.Unsubscribe | src/events/dispatcher.rs:79-105 | deletes the entry and answers true if and only if it existed |
| Dispatcher.EventDispatcher.SubscriberCount | src/events/dispatcher.rs:107-113 | the length of the list filtered by topic |
| Dispatcher.EventDispatcher.Emit | src/events/dispatcher.rs:115-129 | every handler on the topic is called exactly once in subscription order, whichever panic |
| Dispatcher.CaughtExactlyPanics | src/events/dispatcher.rs:121-128 | the panics caught while emitting are those of exactly the calls that panic |
| DispatcherProtocol.EveryInterleavingKeepsInv | src/events/dispatcher.rs:59-105 | every interleaving of the lock steps keeps the protocol invariant |
| DispatcherProtocol.IndexedIdsAreRoutedOnce | src/events/dispatcher.rs:59-105 | an indexed id stands exactly once in its topic's list and in no other, and no list is empty |
| DispatcherProtocol.SubscribeRegisters | src/events/dispatcher.rs:59-77 | in every interleaving a subscribe takes an unused id, appends it to its topic's list and then indexes it, whatever runs before each step |
| DispatcherProtocol.UnsubscribeAnswers | src/events/dispatcher.rs:79-105 | in every interleaving an unsubscribe of an id that is not indexed answers false and changes no index; one of an indexed id takes it out of both and answers true |
| DispatcherProtocol.TrueAtMostOncePerId | src/events/dispatcher.rs:79-105 | unsubscribe answers true at most once per id |
| DispatcherProtocol.FallThroughIsUnreachable | src/events/dispatcher.rs:104 | the final `false` is never reached |
| DispatcherProtocol.QuietIndexesAgree | src/events/dispatcher.rs:59-105 | with no operation under way the two indexes hold exactly the same ids |
| Health.IncrementalMaximum | src/health/registry.rs:91-103 | without a rescan, the decision still yields the maximum of the updated map |
| Health.WorstOf | src/health/registry.rs:96-100 | the rescan yields the maximum, Healthy for an empty map |
| Health.WorstIsWorst | src/health/status.rs:33-46 | the maximum is Unknown if any status is, else Critical, Unhealthy, Degraded, Healthy, in this order |
| Health.WorstIsUnique | src/health/registry.rs:96-100 | a map has only one maximum, so the aggregate is determined by the statuses |
| Health.HealthRegistry.constructor | src/health/registry.rs:48-54 | a new registry is empty and Healthy |
| Health.HealthRegistry.Update | src/health/registry.rs:82-110 | one status is replaced and the cell is again the maximum |
| Health.HealthRegistry.Report | src/health/registry.rs:80-133 | an uninterrupted report keeps the aggregate equal to the maximum, emits its change exactly when it moved, chains those events from Healthy to the current value, and drops none by returning early; each subsystem's events chain from Unknown to its current status without repeats, and an aggregate event follows the one that moved it |
| Health.HealthRegistry.Aggregate | src/health/registry.rs:56-58 | reads the maximum |
| Health.StaleCommitIsRightExactlyWhen | src/health/registry.rs:81-110 | with a possibly stale load, the cell stays the maximum if and only if the new status dominates the map, a rescan happens, or the old maximum survives |
| Health.CurrentCommitIsRight | src/health/registry.rs:81-110 | with a current load it always does |
| Health.StaleLoadHidesCritical | src/health/registry.rs:81-110 | an interleaving of two reports that load before either locks ends with a Critical subsystem hidden |
| Health.AlwaysRightExactlyWhenHarmless | src/health/registry.rs:80-110 | in every interleaving of loads and locked steps the cell is the maximum at all times if and only if every locked step is harmless where it runs |
| Health.CurrentLoadsAreAlwaysRight | src/health/registry.rs:80-110 | reports whose loads are still current when they lock keep the cell at the maximum |
| ShutdownSignal.EveryInterleavingKeepsInv | src/kernel/handles.rs:118-174 | every interleaving of signallers, waiters, spurious and timed wakeups keeps the protocol invariant |
| ShutdownSignal.NoLostWakeup | src/kernel/handles.rs:118-149 | if the flag is set and a waiter is parked, some signaller is still between its store and its notify |
| ShutdownSignal.ReturnsOnlyWhenSignalled | src/kernel/handles.rs:138-174 | a plain wait returns only with the flag set; a timed wait returns true only then (when it may return false is the next row) |
| ShutdownSignal.FalseOnlyAfterDeadline | src/kernel/handles.rs:157-174 | in every interleaving a wait returns false only if it is timed and its own deadline was seen to pass, by finding the flag unset too late or by the timeout of the condition variable |
| ShutdownSignal.SeenUnsetParksOrGivesUp | src/kernel/handles.rs:138-174 | a waiter that saw the flag unset frees the lock and parks, unless it is timed and its deadline has passed |
| ShutdownSignal.TimedOutWaiterReturns | src/kernel/handles.rs:164-172 | with the lock free, a timed-out waiter returns within three of its own steps, true if and only if the flag is set |
| ShutdownSignal.SignalWakesEveryone | src/kernel/handles.rs:118-128 | with the lock free, a signaller sets the flag and leaves nobody parked within four of its own steps |
| ShutdownSignal.MutualExclusion | src/kernel/handles.rs:118-174 | at most one thread is inside the lock |
| ShutdownSignal.AwakeWaiterReturns | src/kernel/handles.rs:138-149 | with the flag set and the lock free, an awake waiter returns true in at most three of its own steps |
| Coordinator.ReportSplitsHooks | src/shutdown/coordinator.rs:153-175 | the report splits the taken hooks into succeeded and failed, each in registration order, losing none |
| Coordinator.OutcomeIsRight | src/shutdown/coordinator.rs:157-175 | a hook is reported succeeded if and only if its turn came before the deadline and it finished; failed for the deadline, a timeout or an error if and only if its turn came too late, or it was started and timed out or erred |
| Coordinator.SkippingIsFinal | src/shutdown/coordinator.rs:158-163 | once a hook is skipped for the deadline all later ones are |
| Coordinator.StartedInOrder | src/shutdown/coordinator.rs:156-175 | hooks start in registration order, each at most once |
| Coordinator.StartedHooksAreRight | src/shutdown/coordinator.rs:156-165 | a hook is started if and only if its turn comes before the deadline |
| Coordinator.ShutdownCoordinator.constructor | src/shutdown/coordinator.rs:49-57 | a new coordinator has no hooks and has not shut down |
| Coordinator.ShutdownCoordinator.RegisterHook | src/shutdown/coordinator.rs:86-92 | appends one hook |
| Coordinator.ShutdownCoordinator.RunHooks | src/shutdown/coordinator.rs:153-175 | exactly the hooks whose turn comes before the deadline and after no panic are started; there is a report if and only if no started hook panics, and it gives every hook the verdict its own reading and end call for |
| Coordinator.ShutdownCoordinator.RunInTurn | src/shutdown/coordinator.rs:156-175 | the loop over the hooks computes the report and the starts that the two lemmas above are about |
| Coordinator.ShutdownCoordinator.ShutDownOnce | src/shutdown/coordinator.rs:134-198 | the effective call announces, signals, takes every hook and runs the pass |
| Coordinator.ShutdownCoordinator.Shutdown | src/shutdown/coordinator.rs:107-198 | the first call emits Started, and Completed after it if and only if no hook that is started panics; it starts the hooks `RunHooks` should and its report gives each the right verdict; later calls run nothing and emit nothing, whatever the first did; over any sequence of calls each hook starts at most once |
| Drain.DrainUntilDeadline | src/shutdown/drain.rs:86-106 | before the deadline a joined task counts as aborted if and only if it was cancelled |
| Drain.DrainAborted | src/shutdown/drain.rs:108-118 | after the abort every remaining task is joined and counts as drained if and only if it still returned a value |
| Drain.DrainSet | src/shutdown/drain.rs:66-125 | both loops terminate, every task is joined and counted exactly once, and the counts are those of the join results on each side of the deadline |
| Drain.CountingRulesDifferByLatePanics | src/worker/supervisor.rs:612-632 | on the same join results, the supervisor counts more drained and fewer aborted than a drain by exactly the late panics |

## Left out

- Construction of the async runtime, `select!` scheduling, OS signals and the blocking watcher: foreign code; the loop's choices are environment events and every order of them is covered.
- Heartbeat arithmetic of the watchdog: the set of timed-out workers is arbitrary.
- Metrics, `Display` and localised text, error codes, id newtypes and the error classifier: no branching to prove.
- The daemon adapter, PID files and working directory: file I/O.
- Lock poisoning: every lock recovers, so locks are never poisoned here.
- Wrap-around of 64-bit task, worker and subscription ids: ids are fresh.
- Aborts of supervisor tasks from outside before shutdown: a task removed that way would leave its worker without an outcome.
- A second run of the same supervisor: the theorems start from freshly registered workers.
- SupervisorObject.Supervisor: breakers and worker handles are values inside the registration map, so sharing of a handle's cells with other threads is not captured; only the supervisor writes them.
- The worker states Idle, Busy and Failed: the supervisor never sets them.
- Elapsed times and worker names in events and reports: carried through unchanged in the code.
- Circuit.CircuitBreaker: sequential use only, as the supervisor uses it; `record_failure` is not atomic across threads.
- Drain.DrainSet: the join set is a value, and `elapsed` is not part of the result.
- Coordinator.ShutdownCoordinator.Shutdown: hooks registered by another thread between the two locks are not interleaved; names of failures stand for their messages.
- The mutex held over a whole kernel phase: clones are interleaved call by call, more finely than it allows, so every real schedule is covered.
- KernelObject.Kernel.Run: the errors of a subsystem are reduced to the subsystem's name, and the execution phase to whether it returned normally; a panic that unwinds out of it ends the run there.
- Handlers in the dispatcher protocol: a route is its list of ids there. Emission and counting are single reads and change nothing.
- Fairness of the scheduler: progress is stated in a thread's own steps (`AwakeWaiterReturns`, `TimedOutWaiterReturns`, `SignalWakesEveryone`, `KernelProgress.OkOwnerFinishes`).
- Health snapshots read the cell and the map under one read lock and copy them.
