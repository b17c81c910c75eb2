/** The supervisor object: one event loop that updates the registration map, the
    join set and the task table in place. Each method is tied to the transition
    function of SupervisorModel, so the results on runs apply to it. */
module SupervisorObject {
  import opened Prelude
  import opened Circuit
  import opened Policies
  import opened SupervisorGrowth
  import opened SupervisorModel
  import opened SupervisorInvariants

  import Drain

  /** The two passes over all workers at shutdown. */
  datatype Pass = ToStopping | ToStopped

  function Mark(w: Worker, pass: Pass): Worker {
    match pass
    case ToStopping => w.(state := Stopping, tokenCancelled := true)
    case ToStopped => w.(state := Stopped)
  }

  function MarkEvents(order: seq<WorkerId>, pass: Pass): seq<Event> {
    if order == [] then []
    else
      var id := order[|order| - 1];
      MarkEvents(order[..|order| - 1], pass) + [if pass == ToStopping then StoppingWorker(id) else Ended(id)]
  }

  /** Each pass announces every worker once, in the order of its walk. */
  lemma {:induction false} MarkEventsInOrder(order: seq<WorkerId>, pass: Pass)
    ensures |MarkEvents(order, pass)| == |order|
    ensures forall k :: 0 <= k < |order| ==>
      MarkEvents(order, pass)[k].id == order[k]
      && (if pass == ToStopping then MarkEvents(order, pass)[k].StoppingWorker? else MarkEvents(order, pass)[k].Ended?)
  {
    if order != [] {
      MarkEventsInOrder(order[..|order| - 1], pass);
    }
  }

  /** The workers visited so far are marked, the others are as they were. */
  ghost predicate MarkedUpTo(order: seq<WorkerId>, i: nat, was: map<WorkerId, Worker>, now: map<WorkerId, Worker>,
                             pass: Pass)
    requires i <= |order| && forall id :: id in order ==> id in was
  {
    && now.Keys == was.Keys
    && (forall j :: 0 <= j < i ==> now[order[j]] == Mark(was[order[j]], pass))
    && (forall j :: i <= j < |order| ==> now[order[j]] == was[order[j]])
  }

  lemma MarkOne(order: seq<WorkerId>, i: nat, was: map<WorkerId, Worker>, now: map<WorkerId, Worker>, pass: Pass)
    requires i < |order| && Distinct(order) && forall id :: id in order ==> id in was
    requires MarkedUpTo(order, i, was, now, pass)
    ensures order[i] in now
    ensures MarkedUpTo(order, i + 1, was, now[order[i] := Mark(now[order[i]], pass)], pass)
  {
    assert order[i] in order;
  }

  /** Removing the keys of two phases removes the keys of both. */
  lemma TwoPhases(all: set<TaskId>, first: set<TaskId>, left: set<TaskId>)
    requires left <= first
    ensures (all - (first - left)) - left == all - first
  {
  }

  class Supervisor {
    var registered: map<WorkerId, Worker>
    var joinSet: map<TaskId, WorkerId>
    var taskToWorker: map<TaskId, WorkerId>
    var nextTask: TaskId
    var nextWorker: WorkerId
    var cancelFired: bool
    var log: seq<Event>

    function Snapshot(): State
      reads this
    {
      State(registered, joinSet, taskToWorker, nextTask, cancelFired, log)
    }

    constructor ()
      ensures Fresh(Snapshot()) && registered == map[] && nextWorker == 0
    {
      registered, joinSet, taskToWorker := map[], map[], map[];
      nextTask, nextWorker, cancelFired, log := 0, 0, false, [];
    }

    method Register(spec: WorkerSpec) returns (id: WorkerId)
      requires forall j :: j in registered ==> j < nextWorker
      modifies this
      ensures id !in old(registered) && registered == old(registered)[id := FreshWorker(spec)]
      ensures forall j :: j in registered ==> j < nextWorker
      ensures old(Fresh(Snapshot())) ==> Fresh(Snapshot())
      ensures joinSet == old(joinSet) && taskToWorker == old(taskToWorker) && log == old(log)
    {
      id := nextWorker;
      nextWorker := nextWorker + 1;
      registered := registered[id := FreshWorker(spec)];
    }

    method SpawnTask(id: WorkerId)
      modifies this
      ensures Snapshot() == SpawnOne(old(Snapshot()), id) && nextWorker == old(nextWorker)
    {
      if id !in registered {
        return;
      }
      registered := registered[id := registered[id].(state := Starting)];
      var task := nextTask;
      nextTask := nextTask + 1;
      joinSet := joinSet[task := id];
      taskToWorker := taskToWorker[task := id];
      registered := registered[id := registered[id].(state := Running)];
      log := log + [Started(id)];
      assert registered == old(registered)[id := old(registered)[id].(state := Running)];
    }

    method SpawnTaskIfIdle(id: WorkerId)
      modifies this
      ensures Snapshot() == SpawnIfIdle(old(Snapshot()), id) && nextWorker == old(nextWorker)
    {
      var alreadyRunning := exists t :: t in taskToWorker && taskToWorker[t] == id;
      if !alreadyRunning {
        SpawnTask(id);
      }
    }

    method RecordOnCircuit(id: WorkerId, hasFailed: bool, r: Readings) returns (open: bool)
      modifies this
      ensures Snapshot() == AdvanceCircuit(old(Snapshot()), id, hasFailed, r) && nextWorker == old(nextWorker)
      ensures open <==> id in registered && CircuitOpen(registered[id])
    {
      if id !in registered || registered[id].spec.circuit.None? {
        return false;
      }
      var w := registered[id];
      var prior := w.breaker.state;
      var next := if hasFailed then RecordFailure(w.spec.circuit.value, w.breaker, r.now) else RecordSuccess(w.breaker);
      registered := registered[id := w.(breaker := next)];
      match (prior, next.state) {
        case (Closed, Open) => log := log + [CircuitOpened(id, SaturatingSucc(w.attempts), r.now, r.stamp)];
        case (HalfOpen, Open) => log := log + [CircuitOpened(id, SaturatingSucc(w.attempts), r.now, r.stamp)];
        case (HalfOpen, Closed) => log := log + [CircuitClosed(id, r.now, r.stamp)];
        case _ =>
      }
      return next.state == Open;
    }

    method RestartOrStop(id: WorkerId, hasFailed: bool, r: Readings)
      modifies this
      ensures Snapshot() == MaybeRestart(old(Snapshot()), id, hasFailed, r) && nextWorker == old(nextWorker)
    {
      var circuitOpen := RecordOnCircuit(id, hasFailed, r);
      if id !in registered {
        return;
      }
      var w := Account(registered[id], hasFailed, r.wall);
      var policyAllows := ShouldRestart(w.spec.restart, hasFailed, w.attempts);
      if policyAllows && !circuitOpen {
        registered := registered[id := w.(state := Restarting)];
        if AsNanos(Delay(w.spec.backoff, w.attempts)) != 0 && r.cancelInBackoff {
          cancelFired := true;
          return;
        }
        log := log + [Restarted(id, SaturatingSucc(w.attempts))];
        SpawnTask(id);
      } else {
        registered := registered[id := w.(state := Stopped)];
        log := log + [Ended(id)];
        if hasFailed {
          match w.spec.criticality {
            case Critical => log := log + [ShutdownSignalled(id)];
            case Essential => log := log + [HealthUnhealthy(id)];
            case Optional => log := log + [HealthDegraded(id)];
            case Background =>
          }
        }
      }
    }

    method OnJoined(task: TaskId, o: Outcome, asJoinError: bool, r: Readings)
      modifies this
      ensures Snapshot() == Joined(old(Snapshot()), task, o, asJoinError, r) && nextWorker == old(nextWorker)
    {
      if task !in joinSet {
        return;
      }
      var returned := joinSet[task];
      joinSet := joinSet - {task};
      if asJoinError {
        if task in taskToWorker {
          var id := taskToWorker[task];
          taskToWorker := taskToWorker - {task};
          if id in registered {
            log := log + [PanickedRun(id, r.wall)];
            RestartOrStop(id, true, r);
          }
        } else {
          taskToWorker := taskToWorker - {task};
        }
      } else {
        taskToWorker := taskToWorker - {task};
        if returned in registered {
          log := log + [OutcomeEvent(returned, o, r.wall)];
          RestartOrStop(returned, o != Completed, r);
        }
      }
    }

    /** The walk that ticks every breaker and notes the ones it moved. */
    method TickBreakers(scan: seq<Visit>) returns (promoted: seq<Visit>)
      modifies this
      ensures Snapshot() == TickAll(old(Snapshot()), scan) && nextWorker == old(nextWorker)
      ensures promoted == Promoted(old(Snapshot()), scan)
    {
      promoted := [];
      for i := 0 to |scan|
        invariant Snapshot() == TickAll(old(Snapshot()), scan[..i]) && nextWorker == old(nextWorker)
        invariant promoted == Promoted(old(Snapshot()), scan[..i])
      {
        assert scan[..i + 1][..i] == scan[..i];
        var v := scan[i];
        if v.id in registered && registered[v.id].spec.circuit.Some? {
          var w := registered[v.id];
          var after := Tick(w.spec.circuit.value, w.breaker, v.now);
          registered := registered[v.id := w.(breaker := after)];
          if w.breaker.state == Open && after.state == HalfOpen {
            promoted := promoted + [v];
          }
        }
      }
      assert scan[..|scan|] == scan;
    }

    method SpawnTrials(promoted: seq<Visit>)
      modifies this
      ensures Snapshot() == StartTrials(old(Snapshot()), promoted) && nextWorker == old(nextWorker)
    {
      for i := 0 to |promoted|
        invariant Snapshot() == StartTrials(old(Snapshot()), promoted[..i]) && nextWorker == old(nextWorker)
      {
        assert promoted[..i + 1][..i] == promoted[..i];
        log := log + [TrialEvent(promoted[i])];
        SpawnTaskIfIdle(promoted[i].id);
      }
      assert promoted[..|promoted|] == promoted;
    }

    method CancelTimedOut(timeouts: seq<WorkerId>)
      modifies this
      ensures Snapshot() == TimeOutAll(old(Snapshot()), timeouts) && nextWorker == old(nextWorker)
    {
      for i := 0 to |timeouts|
        invariant Snapshot() == TimeOutAll(old(Snapshot()), timeouts[..i]) && nextWorker == old(nextWorker)
      {
        assert timeouts[..i + 1][..i] == timeouts[..i];
        log := log + [TimedOut(timeouts[i])];
        if timeouts[i] in registered {
          registered := registered[timeouts[i] := registered[timeouts[i]].(tokenCancelled := true)];
        }
      }
      assert timeouts[..|timeouts|] == timeouts;
    }

    method OnWatchdogTick(scan: seq<Visit>, timeouts: seq<WorkerId>)
      modifies this
      ensures Snapshot() == Watchdog(old(Snapshot()), scan, timeouts) && nextWorker == old(nextWorker)
    {
      var promoted := TickBreakers(scan);
      SpawnTrials(promoted);
      CancelTimedOut(timeouts);
    }

    method MarkAll(order: seq<WorkerId>, pass: Pass)
      requires Enumerates(order, registered)
      modifies this`registered, this`log
      ensures registered.Keys == old(registered).Keys
      ensures forall id :: id in registered ==> registered[id] == Mark(old(registered)[id], pass)
      ensures log == old(log) + MarkEvents(order, pass)
    {
      ghost var was := registered;
      for i := 0 to |order|
        invariant MarkedUpTo(order, i, was, registered, pass)
        invariant log == old(log) + MarkEvents(order[..i], pass)
      {
        assert order[..i + 1][..i] == order[..i];
        var id := order[i];
        MarkOne(order, i, was, registered, pass);
        registered := registered[id := Mark(registered[id], pass)];
        log := log + [if pass == ToStopping then StoppingWorker(id) else Ended(id)];
      }
      assert order[..|order|] == order;
    }

    /** Joins tasks one by one, in whatever order, until the set is empty or, when
        `mayExpire`, the grace period ends; only cancellations count as aborted. */
    method JoinAll(ends: Drain.Endings, mayExpire: bool) returns (o: Drain.DrainOutcome, joined: seq<TaskId>)
      modifies this`joinSet, this`taskToWorker
      ensures Drain.Joins(old(joinSet).Keys, joined, joinSet.Keys)
      ensures Drain.Counts(o, joined, ends, {Drain.Value, Drain.Panicked})
      ensures taskToWorker.Keys == old(taskToWorker).Keys - (old(joinSet).Keys - joinSet.Keys)
      ensures !mayExpire ==> joinSet == map[] && taskToWorker.Keys == old(taskToWorker).Keys - old(joinSet).Keys
    {
      o, joined := Drain.DrainOutcome(0, 0), [];
      Drain.NothingJoined(joinSet.Keys);
      while joinSet != map[]
        invariant Drain.Joins(old(joinSet).Keys, joined, joinSet.Keys)
        invariant Drain.Counts(o, joined, ends, {Drain.Value, Drain.Panicked})
        invariant taskToWorker.Keys == old(taskToWorker).Keys - (old(joinSet).Keys - joinSet.Keys)
        decreases |joinSet.Keys|
      {
        var expired: bool := *;
        if mayExpire && expired {
          return;
        }
        var task :| task in joinSet;
        Drain.JoinOneMore(old(joinSet).Keys, joined, joinSet.Keys, task);
        joinSet := joinSet - {task};
        taskToWorker := taskToWorker - {task};
        if ends(task) == Drain.Cancelled {
          o := o.(aborted := o.aborted + 1);
        } else {
          o := o.(drained := o.drained + 1);
        }
        Drain.CountOneMore(joined, task, ends, {Drain.Value, Drain.Panicked});
        joined := joined + [task];
      }
    }

    /** Drains within the grace period, then aborts the stragglers and drains
        those; a late panic still counts as drained. */
    method DrainAll(ends: Drain.Endings, endsAfterAbort: Drain.Endings)
      returns (o: Drain.DrainOutcome, early: seq<TaskId>, late: seq<TaskId>)
      modifies this`joinSet, this`taskToWorker
      ensures joinSet == map[]
      ensures Drain.Reports(o, old(joinSet).Keys, early, late, ends, endsAfterAbort, {Drain.Value, Drain.Panicked})
      ensures taskToWorker.Keys == old(taskToWorker).Keys - old(joinSet).Keys
    {
      var first, second := Drain.DrainOutcome(0, 0), Drain.DrainOutcome(0, 0);
      first, early := JoinAll(ends, true);
      late := [];
      ghost var left := joinSet.Keys;
      TwoPhases(old(taskToWorker).Keys, old(joinSet).Keys, left);
      if joinSet == map[] {
        Drain.NothingJoined(left);
        assert left == {};
      } else {
        second, late := JoinAll(endsAfterAbort, false);
      }
      Drain.PhasesCompose(old(joinSet).Keys, early, left, late, first, second, ends, endsAfterAbort,
                          {Drain.Value, Drain.Panicked});
      o := Drain.Sum(first, second);
    }

    /** Cancels everyone, drains, and marks everyone Stopped. Every task in flight
        is counted exactly once. */
    method ShutdownAll(order: seq<WorkerId>, ends: Drain.Endings, endsAfterAbort: Drain.Endings)
      returns (o: Drain.DrainOutcome, early: seq<TaskId>, late: seq<TaskId>)
      requires Enumerates(order, registered)
      modifies this
      ensures joinSet == map[]
      ensures Drain.Reports(o, old(joinSet).Keys, early, late, ends, endsAfterAbort, {Drain.Value, Drain.Panicked})
      ensures taskToWorker.Keys == old(taskToWorker).Keys - old(joinSet).Keys
      ensures registered.Keys == old(registered).Keys
      ensures forall id :: id in registered ==>
        registered[id] == old(registered)[id].(state := Stopped, tokenCancelled := true)
      ensures log == old(log) + MarkEvents(order, ToStopping) + MarkEvents(order, ToStopped)
    {
      MarkAll(order, ToStopping);
      o, early, late := DrainAll(ends, endsAfterAbort);
      MarkAll(order, ToStopped);
    }

    /** One turn of the select loop; nothing once cancellation was seen. */
    method TakeTurn(e: LoopEvent)
      modifies this
      ensures Snapshot() == Turn(old(Snapshot()), e) && nextWorker == old(nextWorker)
    {
      if !cancelFired {
        match e {
          case Join(task, o, asJoinError, r) => OnJoined(task, o, asJoinError, r);
          case WatchdogTick(scan, timeouts) => OnWatchdogTick(scan, timeouts);
        }
      }
    }

    method SpawnEveryone(order: seq<WorkerId>)
      modifies this
      ensures Snapshot() == SpawnAll(old(Snapshot()), order) && nextWorker == old(nextWorker)
    {
      for i := 0 to |order|
        invariant Snapshot() == SpawnAll(old(Snapshot()), order[..i]) && nextWorker == old(nextWorker)
      {
        assert order[..i + 1][..i] == order[..i];
        SpawnTask(order[i]);
      }
      assert order[..|order|] == order;
    }

    method TakeTurns(script: seq<LoopEvent>)
      modifies this
      ensures Snapshot() == Turns(old(Snapshot()), script) && nextWorker == old(nextWorker)
    {
      for i := 0 to |script|
        invariant Snapshot() == Turns(old(Snapshot()), script[..i]) && nextWorker == old(nextWorker)
      {
        assert script[..i + 1][..i] == script[..i];
        TakeTurn(script[i]);
      }
      assert script[..|script|] == script;
    }

    /** A whole first run: the initial spawns, one turn per environment event
        until cancellation is seen, then the shutdown. */
    method Run(order: seq<WorkerId>, script: seq<LoopEvent>, atShutdown: seq<WorkerId>,
               ends: Drain.Endings, endsAfterAbort: Drain.Endings)
      requires Fresh(Snapshot()) && Enumerates(order, registered) && Enumerates(atShutdown, registered)
      modifies this
      ensures joinSet == map[] && taskToWorker == map[]
      ensures registered.Keys == old(registered).Keys
      ensures var h := LoopHead(old(Snapshot()), order, script);
        && h.registered.Keys == registered.Keys
        && (forall id :: id in registered ==>
              registered[id] == h.registered[id].(state := Stopped, tokenCancelled := true))
        && log == h.log + MarkEvents(atShutdown, ToStopping) + MarkEvents(atShutdown, ToStopped)
    {
      RunExtends(Snapshot(), order, script);
      EveryLoopHeadIsConsistent(Snapshot(), order, script);
      SpawnEveryone(order);
      TakeTurns(script);
      var _, _, _ := ShutdownAll(atShutdown, ends, endsAfterAbort);
    }
  }
}
