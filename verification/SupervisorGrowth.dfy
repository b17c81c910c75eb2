/** What no step of the supervisor ever does: take back an event, forget or add a
    worker, change its specification, or touch its token without a timeout. */
module SupervisorGrowth {
  import opened SupervisorModel
  import opened SupervisorInvariants

  /** The same workers with the same specifications; cancelled tokens stay so. */
  ghost predicate SameWorkers(a: map<WorkerId, Worker>, b: map<WorkerId, Worker>) {
    && a.Keys == b.Keys
    && forall id :: id in a ==> b[id].spec == a[id].spec && (a[id].tokenCancelled ==> b[id].tokenCancelled)
  }

  /** A token is cancelled exactly if a timeout of its worker was announced. */
  ghost predicate TokensMatch(s: State) {
    forall id :: id in s.registered ==> (s.registered[id].tokenCancelled <==> TimedOut(id) in s.log)
  }

  ghost predicate Extends(s: State, s': State) {
    s.log <= s'.log && SameWorkers(s.registered, s'.registered) && (TokensMatch(s) ==> TokensMatch(s'))
  }

  /** Anything that leaves tokens alone and adds no timeout to the log. */
  lemma QuietStepExtends(s: State, s': State, added: seq<Event>)
    requires s'.log == s.log + added && forall i :: 0 <= i < |added| ==> !added[i].TimedOut?
    requires s'.registered.Keys == s.registered.Keys
    requires forall id :: id in s.registered ==>
      s'.registered[id].spec == s.registered[id].spec
      && s'.registered[id].tokenCancelled == s.registered[id].tokenCancelled
    ensures Extends(s, s')
  {
    assert forall id :: TimedOut(id) in s.log + added <==> TimedOut(id) in s.log;
  }

  lemma ExtendsIsTransitive(s1: State, s2: State, s3: State)
    requires Extends(s1, s2) && Extends(s2, s3)
    ensures Extends(s1, s3)
  {
  }

  lemma SpawnExtends(s: State, id: WorkerId)
    ensures Extends(s, SpawnOne(s, id)) && Extends(s, SpawnIfIdle(s, id))
  {
    QuietStepExtends(s, s, []);
    QuietStepExtends(s, SpawnOne(s, id), if id in s.registered then [Started(id)] else []);
  }

  lemma EmitExtends(s: State, e: Event)
    requires !e.TimedOut?
    ensures Extends(s, Emit(s, e))
  {
    QuietStepExtends(s, Emit(s, e), [e]);
  }

  lemma PutExtends(s: State, id: WorkerId, w: Worker)
    requires id in s.registered
    requires w.spec == s.registered[id].spec && w.tokenCancelled == s.registered[id].tokenCancelled
    ensures Extends(s, Put(s, id, w))
  {
    QuietStepExtends(s, Put(s, id, w), []);
  }

  lemma AdvanceExtends(s: State, id: WorkerId, hasFailed: bool, r: Readings)
    ensures Extends(s, AdvanceCircuit(s, id, hasFailed, r))
    ensures AdvanceCircuit(s, id, hasFailed, r).cancelFired == s.cancelFired
  {
    QuietStepExtends(s, s, []);
    if id in s.registered && s.registered[id].spec.circuit.Some? {
      AdvanceCircuitShape(s, id, hasFailed, r);
      var w, s' := s.registered[id], AdvanceCircuit(s, id, hasFailed, r);
      var added := OutcomeEvents(w.breaker, s'.registered[id].breaker, id, SaturatingSucc(w.attempts), r);
      QuietStepExtends(s, s', added);
    }
  }

  lemma RestartExtends(s: State, id: WorkerId, w: Worker, r: Readings)
    requires id in s.registered
    requires w.spec == s.registered[id].spec && w.tokenCancelled == s.registered[id].tokenCancelled
    ensures Extends(s, Restart(s, id, w, r))
  {
    var s1 := Put(s, id, w.(state := Restarting));
    PutExtends(s, id, w.(state := Restarting));
    if !CancelledInBackoff(w, r) {
      EmitExtends(s1, Restarted(id, SaturatingSucc(w.attempts)));
      SpawnExtends(Emit(s1, Restarted(id, SaturatingSucc(w.attempts))), id);
    }
  }

  lemma StopExtends(s: State, id: WorkerId, w: Worker, hasFailed: bool)
    requires id in s.registered
    requires w.spec == s.registered[id].spec && w.tokenCancelled == s.registered[id].tokenCancelled
    ensures Extends(s, Stop(s, id, w, hasFailed))
  {
    var s1 := Put(s, id, w.(state := Stopped));
    PutExtends(s, id, w.(state := Stopped));
    EmitExtends(s1, Ended(id));
    var s2 := Emit(s1, Ended(id));
    EmitExtends(s2, ShutdownSignalled(id));
    EmitExtends(s2, HealthUnhealthy(id));
    EmitExtends(s2, HealthDegraded(id));
  }

  lemma MaybeRestartExtends(s: State, id: WorkerId, hasFailed: bool, r: Readings)
    ensures Extends(s, MaybeRestart(s, id, hasFailed, r))
  {
    AdvanceExtends(s, id, hasFailed, r);
    var s1 := AdvanceCircuit(s, id, hasFailed, r);
    if id in s1.registered {
      var w := Account(s1.registered[id], hasFailed, r.wall);
      if Restarts(w, hasFailed) {
        RestartExtends(s1, id, w, r);
      } else {
        StopExtends(s1, id, w, hasFailed);
      }
      ExtendsIsTransitive(s, s1, MaybeRestart(s, id, hasFailed, r));
    }
  }

  lemma HandleOutcomeExtends(s: State, id: WorkerId, o: Outcome, r: Readings)
    ensures Extends(s, HandleOutcome(s, id, o, r))
  {
    QuietStepExtends(s, s, []);
    if id in s.registered {
      EmitExtends(s, OutcomeEvent(id, o, r.wall));
      MaybeRestartExtends(Emit(s, OutcomeEvent(id, o, r.wall)), id, o != Completed, r);
    }
  }

  lemma JoinedExtends(s: State, task: TaskId, o: Outcome, asJoinError: bool, r: Readings)
    ensures Extends(s, Joined(s, task, o, asJoinError, r))
  {
    QuietStepExtends(s, s, []);
    if task in s.joinSet {
      QuietStepExtends(s, Forget(s, task), []);
      if !asJoinError {
        HandleOutcomeExtends(Forget(s, task), s.joinSet[task], o, r);
      } else if task in s.taskToWorker {
        HandleOutcomeExtends(Forget(s, task), s.taskToWorker[task], PanickedOut, r);
      }
    }
  }

  lemma TickExtends(s: State, v: Visit)
    ensures Extends(s, TickOne(s, v))
  {
    QuietStepExtends(s, TickOne(s, v), []);
  }

  lemma {:induction false} TicksExtend(s: State, scan: seq<Visit>)
    ensures Extends(s, TickAll(s, scan)) && TickAll(s, scan).cancelFired == s.cancelFired
  {
    QuietStepExtends(s, s, []);
    if scan != [] {
      var s1, v := TickAll(s, scan[..|scan| - 1]), scan[|scan| - 1];
      TicksExtend(s, scan[..|scan| - 1]);
      TickExtends(s1, v);
    }
  }

  lemma {:induction false} TrialsExtend(s: State, promoted: seq<Visit>)
    ensures Extends(s, StartTrials(s, promoted)) && StartTrials(s, promoted).cancelFired == s.cancelFired
  {
    QuietStepExtends(s, s, []);
    if promoted != [] {
      var before, v := promoted[..|promoted| - 1], promoted[|promoted| - 1];
      TrialsExtend(s, before);
      EmitExtends(StartTrials(s, before), TrialEvent(v));
      SpawnExtends(Emit(StartTrials(s, before), TrialEvent(v)), v.id);
    }
  }

  lemma TimeOutExtends(s: State, id: WorkerId)
    ensures Extends(s, TimeOutOne(s, id))
  {
    assert forall j :: TimedOut(j) in Emit(s, TimedOut(id)).log <==> TimedOut(j) in s.log || j == id;
  }

  lemma {:induction false} TimeOutsExtend(s: State, timeouts: seq<WorkerId>)
    ensures Extends(s, TimeOutAll(s, timeouts)) && TimeOutAll(s, timeouts).cancelFired == s.cancelFired
  {
    QuietStepExtends(s, s, []);
    if timeouts != [] {
      var before := timeouts[..|timeouts| - 1];
      TimeOutsExtend(s, before);
      TimeOutExtends(TimeOutAll(s, before), timeouts[|timeouts| - 1]);
    }
  }

  lemma TurnExtends(s: State, e: LoopEvent)
    ensures Extends(s, Turn(s, e))
    ensures e.WatchdogTick? ==> Turn(s, e).cancelFired == s.cancelFired
  {
    QuietStepExtends(s, s, []);
    if !s.cancelFired {
      match e
      case Join(task, o, asJoinError, r) => JoinedExtends(s, task, o, asJoinError, r);
      case WatchdogTick(scan, timeouts) =>
        var s1 := TickAll(s, scan);
        var s2 := StartTrials(s1, Promoted(s, scan));
        TicksExtend(s, scan);
        TrialsExtend(s1, Promoted(s, scan));
        TimeOutsExtend(s2, timeouts);
        ExtendsIsTransitive(s, s1, s2);
        ExtendsIsTransitive(s, s2, TimeOutAll(s2, timeouts));
    }
  }

  lemma {:induction false} TurnsExtend(s: State, script: seq<LoopEvent>)
    ensures Extends(s, Turns(s, script))
  {
    QuietStepExtends(s, s, []);
    if script != [] {
      var before := script[..|script| - 1];
      TurnsExtend(s, before);
      TurnExtends(Turns(s, before), script[|script| - 1]);
      ExtendsIsTransitive(s, Turns(s, before), Turns(s, script));
    }
  }

  lemma {:induction false} SpawnAllExtends(s: State, order: seq<WorkerId>)
    ensures Extends(s, SpawnAll(s, order))
  {
    QuietStepExtends(s, s, []);
    if order != [] {
      var before := order[..|order| - 1];
      SpawnAllExtends(s, before);
      SpawnExtends(SpawnAll(s, before), order[|order| - 1]);
      ExtendsIsTransitive(s, SpawnAll(s, before), SpawnAll(s, order));
    }
  }

  /** Every run only adds events, keeps every worker with its specification and its
      token cancelled once it is, and cancels tokens by announced timeouts only. */
  lemma RunExtends(s: State, order: seq<WorkerId>, script: seq<LoopEvent>)
    ensures Extends(s, LoopHead(s, order, script))
  {
    SpawnAllExtends(s, order);
    TurnsExtend(SpawnAll(s, order), script);
    ExtendsIsTransitive(s, SpawnAll(s, order), LoopHead(s, order, script));
  }
}
