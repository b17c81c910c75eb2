/** The supervisor loop as a transition function on a value. Task outcomes,
    clock readings, the order in which a hash map is walked and the set of
    timed-out workers are chosen by the environment and arrive in events. */
module SupervisorModel {
  import opened Prelude
  import opened Circuit
  import opened Policies

  type WorkerId = nat
  type TaskId = nat

  /** 60 s in nanoseconds; passed to the failure counter instead of the
      window configured in `MaxRetries`. */
  const FAILURE_WINDOW_NANOS := 60 * NANOS_PER_SEC

  datatype WorkerState = Created | Starting | Running | Restarting | Stopping | Stopped

  datatype Criticality = Background | Optional | Essential | Critical

  datatype WorkerSpec = WorkerSpec(
    criticality: Criticality,
    restart: RestartPolicy,
    backoff: BackoffPolicy,
    circuit: Option<CircuitPolicy>)

  /** A registered worker together with the cells of its handle. */
  datatype Worker = Worker(
    spec: WorkerSpec,
    state: WorkerState,
    attempts: u32,
    failuresInWindow: u32,
    lastFailureNanos: nat,
    tokenCancelled: bool,
    breaker: Breaker)

  datatype Outcome = Completed | Errored | PanickedOut

  /** Everything the loop tells the outside. Circuit events carry `cause`, the
      reading the breaker acted on, and `at`, the later reading stamped on the
      event; failures carry the wall-clock reading the counter used. */
  datatype Event =
    | Started(id: WorkerId)
    | Ended(id: WorkerId)
    | FailedRun(id: WorkerId, wall: nat)
    | PanickedRun(id: WorkerId, wall: nat)
    | Restarted(id: WorkerId, attempt: u32)
    | CircuitOpened(id: WorkerId, failures: u32, cause: nat, at: nat)
    | CircuitHalfOpened(id: WorkerId, cause: nat, at: nat)
    | CircuitClosed(id: WorkerId, cause: nat, at: nat)
    | TimedOut(id: WorkerId)
    | StoppingWorker(id: WorkerId)
    | ShutdownSignalled(id: WorkerId)
    | HealthDegraded(id: WorkerId)
    | HealthUnhealthy(id: WorkerId)

  datatype State = State(
    registered: map<WorkerId, Worker>,
    joinSet: map<TaskId, WorkerId>,
    taskToWorker: map<TaskId, WorkerId>,
    nextTask: TaskId,
    cancelFired: bool,
    log: seq<Event>)

  function Emit(s: State, e: Event): State { s.(log := s.log + [e]) }

  function Put(s: State, id: WorkerId, w: Worker): State { s.(registered := s.registered[id := w]) }

  // ------------------------------------------------------------------ spawning

  function SpawnOne(s: State, id: WorkerId): State {
    if id !in s.registered then s
    else
      var running := Put(s, id, s.registered[id].(state := Running));
      Emit(running.(joinSet := s.joinSet[s.nextTask := id],
                    taskToWorker := s.taskToWorker[s.nextTask := id],
                    nextTask := s.nextTask + 1),
           Started(id))
  }

  function SpawnIfIdle(s: State, id: WorkerId): State {
    if exists t :: t in s.taskToWorker && s.taskToWorker[t] == id then s else SpawnOne(s, id)
  }

  function SpawnAll(s: State, order: seq<WorkerId>): State {
    if order == [] then s
    else SpawnOne(SpawnAll(s, order[..|order| - 1]), order[|order| - 1])
  }

  // ------------------------------------------------------------- task outcomes

  /** What the environment supplies when a task is joined: the breaker's clock
      reading, the reading stamped on events, the wall clock, and whether the
      cancellation token fires while the restart backoff is slept. */
  datatype Readings = Readings(now: nat, stamp: nat, wall: nat, cancelInBackoff: bool)

  function SaturatingSucc(n: u32): u32 { if n + 1 < U32_SIZE then n + 1 else n }

  /** Records the outcome on the worker's breaker and emits what changed. */
  function AdvanceCircuit(s: State, id: WorkerId, hasFailed: bool, r: Readings): State {
    if id !in s.registered || s.registered[id].spec.circuit.None? then s
    else
      var w := s.registered[id];
      var next := if hasFailed then RecordFailure(w.spec.circuit.value, w.breaker, r.now)
                  else RecordSuccess(w.breaker);
      var s1 := Put(s, id, w.(breaker := next));
      match (w.breaker.state, next.state)
      case (Closed, Open) => Emit(s1, CircuitOpened(id, SaturatingSucc(w.attempts), r.now, r.stamp))
      case (HalfOpen, Open) => Emit(s1, CircuitOpened(id, SaturatingSucc(w.attempts), r.now, r.stamp))
      case (HalfOpen, Closed) => Emit(s1, CircuitClosed(id, r.now, r.stamp))
      case _ => s1
  }

  predicate CircuitOpen(w: Worker) { w.spec.circuit.Some? && w.breaker.state == Open }

  /** `WorkerHandle::record_failure`: the counter restarts when there is no
      previous failure or the gap to it exceeds the window. */
  function CountFailure(w: Worker, wall: nat): Worker {
    var restarts := w.lastFailureNanos == 0 || wall - w.lastFailureNanos > FAILURE_WINDOW_NANOS;
    w.(lastFailureNanos := wall,
       failuresInWindow := if restarts then 1 else WrapU32(w.failuresInWindow + 1))
  }

  /** The bookkeeping both branches of the restart decision share. */
  function Account(w: Worker, hasFailed: bool, wall: nat): Worker {
    if hasFailed then
      var counted := CountFailure(w, wall);
      counted.(attempts := counted.failuresInWindow)
    else w.(attempts := 0)
  }

  function ApplyCriticality(s: State, id: WorkerId, c: Criticality): State {
    match c
    case Critical => Emit(s, ShutdownSignalled(id))
    case Essential => Emit(s, HealthUnhealthy(id))
    case Optional => Emit(s, HealthDegraded(id))
    case Background => s
  }

  /** The restart decision for a worker whose outcome is already accounted. */
  predicate Restarts(w: Worker, hasFailed: bool) {
    ShouldRestart(w.spec.restart, hasFailed, w.attempts) && !CircuitOpen(w)
  }

  predicate CancelledInBackoff(w: Worker, r: Readings) {
    AsNanos(Delay(w.spec.backoff, w.attempts)) != 0 && r.cancelInBackoff
  }

  function Restart(s: State, id: WorkerId, w: Worker, r: Readings): State {
    var s1 := Put(s, id, w.(state := Restarting));
    if CancelledInBackoff(w, r) then s1.(cancelFired := true)
    else SpawnOne(Emit(s1, Restarted(id, SaturatingSucc(w.attempts))), id)
  }

  function Stop(s: State, id: WorkerId, w: Worker, hasFailed: bool): State {
    var s1 := Emit(Put(s, id, w.(state := Stopped)), Ended(id));
    if hasFailed then ApplyCriticality(s1, id, w.spec.criticality) else s1
  }

  function MaybeRestart(s: State, id: WorkerId, hasFailed: bool, r: Readings): State {
    var s1 := AdvanceCircuit(s, id, hasFailed, r);
    if id !in s1.registered then s1
    else
      var w := Account(s1.registered[id], hasFailed, r.wall);
      if Restarts(w, hasFailed) then Restart(s1, id, w, r) else Stop(s1, id, w, hasFailed)
  }

  function OutcomeEvent(id: WorkerId, o: Outcome, wall: nat): Event {
    match o
    case Completed => Ended(id)
    case Errored => FailedRun(id, wall)
    case PanickedOut => PanickedRun(id, wall)
  }

  function HandleOutcome(s: State, id: WorkerId, o: Outcome, r: Readings): State {
    if id !in s.registered then s
    else MaybeRestart(Emit(s, OutcomeEvent(id, o, r.wall)), id, o != Completed, r)
  }

  function Forget(s: State, task: TaskId): State {
    s.(joinSet := s.joinSet - {task}, taskToWorker := s.taskToWorker - {task})
  }

  /** A task leaves the join set. A panic that was not caught inside the task
      arrives as a join error, and its worker is looked up by task id;
      otherwise the task itself returned the worker id. */
  function Joined(s: State, task: TaskId, o: Outcome, asJoinError: bool, r: Readings): State {
    if task !in s.joinSet then s
    else if !asJoinError then HandleOutcome(Forget(s, task), s.joinSet[task], o, r)
    else if task in s.taskToWorker then HandleOutcome(Forget(s, task), s.taskToWorker[task], PanickedOut, r)
    else Forget(s, task)
  }

  // ------------------------------------------------------------- watchdog tick

  /** One step of the walk over `registered`: the worker visited, the reading
      its breaker ticks with and the reading stamped on a resulting event. */
  datatype Visit = Visit(id: WorkerId, now: nat, stamp: nat)

  predicate Promotes(s: State, v: Visit) {
    && v.id in s.registered
    && s.registered[v.id].spec.circuit.Some?
    && s.registered[v.id].breaker.state == Open
    && Tick(s.registered[v.id].spec.circuit.value, s.registered[v.id].breaker, v.now).state == HalfOpen
  }

  function TickOne(s: State, v: Visit): State {
    if v.id in s.registered && s.registered[v.id].spec.circuit.Some? then
      var w := s.registered[v.id];
      Put(s, v.id, w.(breaker := Tick(w.spec.circuit.value, w.breaker, v.now)))
    else s
  }

  function TickAll(s: State, scan: seq<Visit>): State {
    if scan == [] then s else TickOne(TickAll(s, scan[..|scan| - 1]), scan[|scan| - 1])
  }

  /** The visits that moved a breaker from Open to HalfOpen, in walk order. */
  function Promoted(s: State, scan: seq<Visit>): seq<Visit> {
    if scan == [] then []
    else
      var before, v := scan[..|scan| - 1], scan[|scan| - 1];
      Promoted(s, before) + if Promotes(TickAll(s, before), v) then [v] else []
  }

  function TrialEvent(v: Visit): Event { CircuitHalfOpened(v.id, v.now, v.stamp) }

  function StartTrials(s: State, promoted: seq<Visit>): State {
    if promoted == [] then s
    else
      var v := promoted[|promoted| - 1];
      SpawnIfIdle(Emit(StartTrials(s, promoted[..|promoted| - 1]), TrialEvent(v)), v.id)
  }

  function TimeOutOne(s: State, id: WorkerId): State {
    var s1 := Emit(s, TimedOut(id));
    if id in s1.registered then Put(s1, id, s1.registered[id].(tokenCancelled := true)) else s1
  }

  function TimeOutAll(s: State, timeouts: seq<WorkerId>): State {
    if timeouts == [] then s
    else TimeOutOne(TimeOutAll(s, timeouts[..|timeouts| - 1]), timeouts[|timeouts| - 1])
  }

  function Watchdog(s: State, scan: seq<Visit>, timeouts: seq<WorkerId>): State {
    TimeOutAll(StartTrials(TickAll(s, scan), Promoted(s, scan)), timeouts)
  }

  // -------------------------------------------------------------------- a run

  datatype LoopEvent =
    | Join(task: TaskId, outcome: Outcome, asJoinError: bool, r: Readings)
    | WatchdogTick(scan: seq<Visit>, timeouts: seq<WorkerId>)

  /** One turn of the select loop. Once the cancellation token has fired the
      biased select takes the shutdown branch, so nothing more happens here. */
  function Turn(s: State, e: LoopEvent): State {
    if s.cancelFired then s
    else match e
      case Join(task, o, asJoinError, r) => Joined(s, task, o, asJoinError, r)
      case WatchdogTick(scan, timeouts) => Watchdog(s, scan, timeouts)
  }

  function Turns(s: State, script: seq<LoopEvent>): State {
    if script == [] then s
    else Turn(Turns(s, script[..|script| - 1]), script[|script| - 1])
  }

  /** The loop head reached from a supervisor after the initial spawns and a
      script of turns. */
  function LoopHead(s: State, order: seq<WorkerId>, script: seq<LoopEvent>): State {
    Turns(SpawnAll(s, order), script)
  }

  function FreshWorker(spec: WorkerSpec): Worker {
    Worker(spec, Created, 0, 0, 0, false, NEW_BREAKER)
  }

  /** A supervisor on which workers were registered and nothing was run. */
  ghost predicate Fresh(s: State) {
    && (forall id :: id in s.registered ==> s.registered[id] == FreshWorker(s.registered[id].spec))
    && s.joinSet == map[] && s.taskToWorker == map[]
    && !s.cancelFired && s.log == []
  }

  /** `order` is a walk of the hash map: every key once. */
  ghost predicate Enumerates(order: seq<WorkerId>, registered: map<WorkerId, Worker>) {
    Distinct(order) && forall id :: id in order <==> id in registered
  }
}
