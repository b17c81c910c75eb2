/** What restart policies mean over whole runs: who is spawned again, how often,
    and where a circuit breaker overrides the policy. */
module SupervisorRestarts {
  import opened Circuit
  import opened SupervisorModel
  import opened SupervisorInvariants

  // --------------------------------------------------------- one worker's view

  /** The events of one worker; timeouts only cancel its token. */
  function Own(log: seq<Event>, id: WorkerId): seq<Event> {
    if log == [] then []
    else
      var before, e := Own(log[..|log| - 1], id), log[|log| - 1];
      if e.id == id && !e.TimedOut? then before + [e] else before
  }

  lemma OwnSnoc(log: seq<Event>, e: Event, id: WorkerId)
    ensures Own(log + [e], id) == if e.id == id && !e.TimedOut? then Own(log, id) + [e] else Own(log, id)
  {
    assert (log + [e])[..|log|] == log;
  }

  function Cell(w: Worker): Worker { w.(tokenCancelled := false) }

  /** Nothing that concerns worker `id` happened between the two states. */
  ghost predicate Untouched(s: State, s': State, id: WorkerId) {
    && id in s.registered && id in s'.registered
    && Cell(s'.registered[id]) == Cell(s.registered[id])
    && Own(s'.log, id) == Own(s.log, id)
    && (Busy(s', id) <==> Busy(s, id))
  }

  lemma EmitLeaves(s: State, e: Event, id: WorkerId)
    requires id in s.registered && (e.id != id || e.TimedOut?)
    ensures Untouched(s, Emit(s, e), id)
  {
    OwnSnoc(s.log, e, id);
  }

  lemma PutLeaves(s: State, j: WorkerId, w: Worker, id: WorkerId)
    requires id in s.registered && (j != id || Cell(w) == Cell(s.registered[id]))
    ensures Untouched(s, Put(s, j, w), id)
  {
  }

  lemma SpawnLeaves(s: State, j: WorkerId, id: WorkerId)
    requires id in s.registered && j != id && TasksOk(s)
    ensures Untouched(s, SpawnOne(s, j), id)
  {
    if j in s.registered {
      var s' := SpawnOne(s, j);
      OwnSnoc(s.log, Started(j), id);
      if Busy(s, id) {
        var t :| t in s.joinSet && s.joinSet[t] == id;
        assert s'.joinSet[t] == id;
      }
    }
  }

  lemma UntouchedIsTransitive(s1: State, s2: State, s3: State, id: WorkerId)
    requires Untouched(s1, s2, id) && Untouched(s2, s3, id)
    ensures Untouched(s1, s3, id)
  {
  }

  // ------------------------------------------------------- turns of the others

  lemma RestartLeaves(s: State, j: WorkerId, w: Worker, r: Readings, id: WorkerId)
    requires id in s.registered && j != id && TasksOk(s) && j in s.registered
    ensures Untouched(s, Restart(s, j, w, r), id)
  {
    var s1 := Put(s, j, w.(state := Restarting));
    PutLeaves(s, j, w.(state := Restarting), id);
    if !CancelledInBackoff(w, r) {
      var e := Restarted(j, SaturatingSucc(w.attempts));
      EmitLeaves(s1, e, id);
      SpawnLeaves(Emit(s1, e), j, id);
    }
  }

  lemma StopLeaves(s: State, j: WorkerId, w: Worker, hasFailed: bool, id: WorkerId)
    requires id in s.registered && j != id
    ensures Untouched(s, Stop(s, j, w, hasFailed), id)
  {
    var s1 := Put(s, j, w.(state := Stopped));
    PutLeaves(s, j, w.(state := Stopped), id);
    EmitLeaves(s1, Ended(j), id);
    var s2 := Emit(s1, Ended(j));
    EmitLeaves(s2, ShutdownSignalled(j), id);
    EmitLeaves(s2, HealthUnhealthy(j), id);
    EmitLeaves(s2, HealthDegraded(j), id);
  }

  lemma AdvanceLeaves(s: State, j: WorkerId, hasFailed: bool, r: Readings, id: WorkerId)
    requires id in s.registered && j != id && j in s.registered && TasksOk(s)
    ensures Untouched(s, AdvanceCircuit(s, j, hasFailed, r), id)
    ensures TasksOk(AdvanceCircuit(s, j, hasFailed, r)) && j in AdvanceCircuit(s, j, hasFailed, r).registered
  {
    if s.registered[j].spec.circuit.Some? {
      AdvanceCircuitShape(s, j, hasFailed, r);
      var w, s' := s.registered[j], AdvanceCircuit(s, j, hasFailed, r);
      var added := OutcomeEvents(w.breaker, s'.registered[j].breaker, j, SaturatingSucc(w.attempts), r);
      if added == [] {
        assert s'.log == s.log;
      } else {
        assert s'.log == s.log + [added[0]];
        OwnSnoc(s.log, added[0], id);
      }
    }
  }

  lemma JoinedLeaves(s: State, task: TaskId, o: Outcome, asJoinError: bool, r: Readings, id: WorkerId)
    requires TasksOk(s) && id in s.registered && task in s.joinSet ==> s.joinSet[task] != id
    requires TasksOk(s) && id in s.registered
    ensures Untouched(s, Joined(s, task, o, asJoinError, r), id)
  {
    if task in s.joinSet {
      var j := s.joinSet[task];
      var o' := if asJoinError then PanickedOut else o;
      ForgetFreesWorker(s, task);
      var e := OutcomeEvent(j, o', r.wall);
      EmitLeaves(Forget(s, task), e, id);
      var s1 := Emit(Forget(s, task), e);
      assert TasksOk(s1);
      AdvanceLeaves(s1, j, o' != Completed, r, id);
      var s2 := AdvanceCircuit(s1, j, o' != Completed, r);
      UntouchedIsTransitive(s, s1, s2, id);
      var w := Account(s2.registered[j], o' != Completed, r.wall);
      if Restarts(w, o' != Completed) {
        RestartLeaves(s2, j, w, r, id);
      } else {
        StopLeaves(s2, j, w, o' != Completed, id);
      }
      UntouchedIsTransitive(s, s2, MaybeRestart(s1, j, o' != Completed, r), id);
    }
  }

  /** A walk never moves a breaker that is not Open. */
  lemma {:induction false} TickAllLeaves(s: State, scan: seq<Visit>, id: WorkerId)
    requires Inv(s) && id in s.registered && !CircuitOpen(s.registered[id])
    ensures Untouched(s, TickAll(s, scan), id)
    ensures !IsPending(Promoted(s, scan), id)
  {
    if scan != [] {
      var before, v := scan[..|scan| - 1], scan[|scan| - 1];
      TickAllLeaves(s, before, id);
      var s1 := TickAll(s, before);
      if Promotes(s1, v) {
        assert v.id != id;
        assert Untouched(s1, TickOne(s1, v), id);
        var done := Promoted(s, before);
        assert Promoted(s, scan) == done + [v];
        assert forall i :: 0 <= i < |done| ==> (done + [v])[i] == done[i];
      } else {
        TickWithoutPromotion(s1, v);
        assert Promoted(s, scan) == Promoted(s, before);
      }
    }
  }

  lemma {:induction false} TrialsLeave(s: State, promoted: seq<Visit>, k: nat, id: WorkerId)
    requires k <= |promoted| && MidInv(s, promoted) && id in s.registered && !IsPending(promoted, id)
    ensures Untouched(s, StartTrials(s, promoted[..k]), id)
  {
    if k > 0 {
      TrialsLeave(s, promoted, k - 1, id);
      StartTrialsConsumes(s, promoted, k - 1);
      StartTrialsConsumes(s, promoted, k);
      assert promoted[..k][..k - 1] == promoted[..k - 1];
      var s1, v := StartTrials(s, promoted[..k - 1]), promoted[k - 1];
      EmitLeaves(s1, TrialEvent(v), id);
      var s2 := Emit(s1, TrialEvent(v));
      assert TasksOk(s2);
      SpawnLeaves(s2, v.id, id);
      assert StartTrials(s, promoted[..k]) == SpawnIfIdle(s2, v.id);
    }
  }

  lemma {:induction false} TimeOutsLeave(s: State, timeouts: seq<WorkerId>, id: WorkerId)
    requires id in s.registered
    ensures Untouched(s, TimeOutAll(s, timeouts), id)
  {
    if timeouts != [] {
      var before, j := timeouts[..|timeouts| - 1], timeouts[|timeouts| - 1];
      TimeOutsLeave(s, before, id);
      var s1 := TimeOutAll(s, before);
      EmitLeaves(s1, TimedOut(j), id);
      var s2 := Emit(s1, TimedOut(j));
      if j in s2.registered {
        PutLeaves(s2, j, s2.registered[j].(tokenCancelled := true), id);
      }
    }
  }

  lemma WatchdogLeaves(s: State, scan: seq<Visit>, timeouts: seq<WorkerId>, id: WorkerId)
    requires Inv(s) && id in s.registered && !CircuitOpen(s.registered[id])
    ensures Untouched(s, Watchdog(s, scan, timeouts), id)
  {
    var promoted := Promoted(s, scan);
    TickAllLeaves(s, scan, id);
    TickAllReachesMid(s, scan);
    var s1 := TickAll(s, scan);
    TrialsLeave(s1, promoted, |promoted|, id);
    assert promoted[..|promoted|] == promoted;
    TimeOutsLeave(StartTrials(s1, promoted), timeouts, id);
  }

  /** The event is the end of a task of worker `id`. */
  ghost predicate JoinsWorker(s: State, e: LoopEvent, id: WorkerId) {
    !s.cancelFired && e.Join? && e.task in s.joinSet && s.joinSet[e.task] == id
  }

  lemma TurnLeaves(s: State, e: LoopEvent, id: WorkerId)
    requires Inv(s) && id in s.registered && !CircuitOpen(s.registered[id]) && !JoinsWorker(s, e, id)
    ensures Untouched(s, Turn(s, e), id)
  {
    if !s.cancelFired {
      match e
      case Join(task, o, asJoinError, r) => JoinedLeaves(s, task, o, asJoinError, r, id);
      case WatchdogTick(scan, timeouts) => WatchdogLeaves(s, scan, timeouts, id);
    }
  }

  // ------------------------------------------------------------ a worker's own

  function CriticalityEvents(id: WorkerId, c: Criticality): seq<Event> {
    match c
    case Critical => [ShutdownSignalled(id)]
    case Essential => [HealthUnhealthy(id)]
    case Optional => [HealthDegraded(id)]
    case Background => []
  }

  /** What the restart decision adds to the log of its worker. */
  function Decision(id: WorkerId, hasFailed: bool, w: Worker, r: Readings): seq<Event> {
    if !Restarts(w, hasFailed) then
      [Ended(id)] + if hasFailed then CriticalityEvents(id, w.spec.criticality) else []
    else if CancelledInBackoff(w, r) then []
    else [Restarted(id, SaturatingSucc(w.attempts)), Started(id)]
  }

  function StateAfter(hasFailed: bool, w: Worker, r: Readings): WorkerState {
    if !Restarts(w, hasFailed) then Stopped else if CancelledInBackoff(w, r) then Restarting else Running
  }

  function ReportedOutcome(e: LoopEvent): Outcome
    requires e.Join?
  {
    if e.asJoinError then PanickedOut else e.outcome
  }

  lemma RestartOwn(s: State, id: WorkerId, w: Worker, r: Readings)
    requires id in s.registered && TasksOk(s) && !Busy(s, id)
    ensures var s' := Restart(s, id, w, r);
      && id in s'.registered
      && (Busy(s', id) <==> !CancelledInBackoff(w, r))
      && s'.registered[id] == w.(state := if CancelledInBackoff(w, r) then Restarting else Running)
      && Own(s'.log, id) == Own(s.log, id)
           + if CancelledInBackoff(w, r) then [] else [Restarted(id, SaturatingSucc(w.attempts)), Started(id)]
  {
    if !CancelledInBackoff(w, r) {
      var s1 := Put(s, id, w.(state := Restarting));
      var e := Restarted(id, SaturatingSucc(w.attempts));
      OwnSnoc(s1.log, e, id);
      OwnSnoc(s1.log + [e], Started(id), id);
      var s' := Restart(s, id, w, r);
      assert s'.joinSet[s.nextTask] == id;
      assert s'.log == s1.log + [e] + [Started(id)];
    }
  }

  lemma StopOwn(s: State, id: WorkerId, w: Worker, hasFailed: bool)
    requires id in s.registered && !Busy(s, id)
    ensures var s' := Stop(s, id, w, hasFailed);
      && id in s'.registered && !Busy(s', id) && s'.registered[id] == w.(state := Stopped)
      && Own(s'.log, id) == Own(s.log, id) + [Ended(id)]
           + (if hasFailed then CriticalityEvents(id, w.spec.criticality) else [])
  {
    var s1 := Emit(Put(s, id, w.(state := Stopped)), Ended(id));
    OwnSnoc(s.log, Ended(id), id);
    if hasFailed {
      CriticalityOwn(s1, id, w.spec.criticality);
    }
  }

  lemma CriticalityOwn(s: State, id: WorkerId, c: Criticality)
    ensures var s' := ApplyCriticality(s, id, c);
      && s' == s.(log := s'.log) && Own(s'.log, id) == Own(s.log, id) + CriticalityEvents(id, c)
  {
    match c
    case Critical => OwnSnoc(s.log, ShutdownSignalled(id), id);
    case Essential => OwnSnoc(s.log, HealthUnhealthy(id), id);
    case Optional => OwnSnoc(s.log, HealthDegraded(id), id);
    case Background =>
  }

  /** The worker after its outcome was recorded on its breaker and counted. */
  function Recorded(w: Worker, o: Outcome, r: Readings): Worker {
    var b := if w.spec.circuit.None? then w.breaker
             else if o == Completed then RecordSuccess(w.breaker)
             else RecordFailure(w.spec.circuit.value, w.breaker, r.now);
    Account(w.(breaker := b), o != Completed, r.wall)
  }

  /** What recording the outcome on the breaker, if there is one, adds to the log. */
  function CircuitPart(w: Worker, id: WorkerId, o: Outcome, r: Readings): seq<Event> {
    if w.spec.circuit.None? then []
    else OutcomeEvents(w.breaker, Recorded(w, o, r).breaker, id, SaturatingSucc(w.attempts), r)
  }

  /** The state in which the restart decision is taken. */
  function Advanced(s: State, task: TaskId, id: WorkerId, o: Outcome, r: Readings): State {
    AdvanceCircuit(Emit(Forget(s, task), OutcomeEvent(id, o, r.wall)), id, o != Completed, r)
  }

  lemma AdvancedOwn(s: State, task: TaskId, id: WorkerId, o: Outcome, r: Readings)
    requires TasksOk(s) && id in s.registered && task in s.joinSet && s.joinSet[task] == id
    ensures var s' := Advanced(s, task, id, o, r);
      && TasksOk(s') && !Busy(s', id) && id in s'.registered
      && Account(s'.registered[id], o != Completed, r.wall) == Recorded(s.registered[id], o, r)
      && Own(s'.log, id) == Own(s.log, id) + [OutcomeEvent(id, o, r.wall)] + CircuitPart(s.registered[id], id, o, r)
  {
    ForgetFreesWorker(s, task);
    var s1 := Emit(Forget(s, task), OutcomeEvent(id, o, r.wall));
    OwnSnoc(s.log, OutcomeEvent(id, o, r.wall), id);
    assert TasksOk(s1) && !Busy(s1, id);
    if s.registered[id].spec.circuit.Some? {
      AdvanceCircuitShape(s1, id, o != Completed, r);
      OwnAppend(s1.log, CircuitPart(s.registered[id], id, o, r), id);
    }
  }

  lemma OwnAppend(log: seq<Event>, added: seq<Event>, id: WorkerId)
    requires |added| <= 1 && forall i :: 0 <= i < |added| ==> added[i].id == id && !added[i].TimedOut?
    ensures Own(log + added, id) == Own(log, id) + added
  {
    if added == [] {
      assert log + added == log;
    } else {
      assert added == [added[0]];
      OwnSnoc(log, added[0], id);
    }
  }

  lemma DecisionOwn(s: State, id: WorkerId, w: Worker, hasFailed: bool, r: Readings)
    requires id in s.registered && TasksOk(s) && !Busy(s, id)
    ensures var s' := if Restarts(w, hasFailed) then Restart(s, id, w, r) else Stop(s, id, w, hasFailed);
      && id in s'.registered
      && (Busy(s', id) <==> StateAfter(hasFailed, w, r) == Running)
      && s'.registered[id] == w.(state := StateAfter(hasFailed, w, r))
      && Own(s'.log, id) == Own(s.log, id) + Decision(id, hasFailed, w, r)
  {
    if Restarts(w, hasFailed) {
      RestartOwn(s, id, w, r);
    } else {
      StopOwn(s, id, w, hasFailed);
    }
  }

  lemma TurnDecides(s: State, e: LoopEvent, id: WorkerId)
    requires TasksOk(s) && id in s.registered && JoinsWorker(s, e, id)
    ensures var o, s' := ReportedOutcome(e), Advanced(s, e.task, id, ReportedOutcome(e), e.r);
      && id in s'.registered
      && var w := Account(s'.registered[id], o != Completed, e.r.wall);
         Turn(s, e) == if Restarts(w, o != Completed) then Restart(s', id, w, e.r) else Stop(s', id, w, o != Completed)
  {
  }

  /** The turn that ends a worker's run, seen by that worker. */
  lemma OwnTurn(s: State, e: LoopEvent, id: WorkerId)
    requires TasksOk(s) && id in s.registered && JoinsWorker(s, e, id)
    ensures var s', o, w := Turn(s, e), ReportedOutcome(e), Recorded(s.registered[id], ReportedOutcome(e), e.r);
      && id in s'.registered
      && (Busy(s', id) <==> StateAfter(o != Completed, w, e.r) == Running)
      && s'.registered[id] == w.(state := StateAfter(o != Completed, w, e.r))
      && Own(s'.log, id) == Own(s.log, id) + [OutcomeEvent(id, o, e.r.wall)]
           + CircuitPart(s.registered[id], id, o, e.r) + Decision(id, o != Completed, w, e.r)
  {
    var o := ReportedOutcome(e);
    AdvancedOwn(s, e.task, id, o, e.r);
    TurnDecides(s, e, id);
    DecisionOwn(Advanced(s, e.task, id, o, e.r), id, Recorded(s.registered[id], o, e.r), o != Completed, e.r);
  }
}
