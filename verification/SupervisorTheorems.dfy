/** The results about whole supervisor runs: breakers and tasks, worker states,
    and who is ever spawned again. A run starts from any fresh supervisor, with
    any walk order and any script of turns. */
module SupervisorTheorems {
  import opened Prelude
  import opened Circuit
  import opened Policies
  import opened SupervisorGrowth
  import opened SupervisorModel
  import opened SupervisorInvariants
  import opened SupervisorRestarts

  // ------------------------------------------------------- breakers and tasks

  /** The task table is exactly the live tasks, a worker has at most one, an
      Open breaker has none and a HalfOpen breaker has one. */
  lemma BreakersAgreeWithTasks(s: State, order: seq<WorkerId>, script: seq<LoopEvent>)
    requires Fresh(s) && Enumerates(order, s.registered)
    ensures var h := LoopHead(s, order, script);
      && h.taskToWorker == h.joinSet
      && (forall t, u :: t in h.joinSet && u in h.joinSet && h.joinSet[t] == h.joinSet[u] ==> t == u)
      && forall id :: id in h.registered && h.registered[id].spec.circuit.Some? ==>
           && (h.registered[id].breaker.state == Open ==> forall t :: t in h.joinSet ==> h.joinSet[t] != id)
           && (h.registered[id].breaker.state == HalfOpen ==> exists t :: t in h.joinSet && h.joinSet[t] == id)
  {
    EveryLoopHeadIsConsistent(s, order, script);
    var h := LoopHead(s, order, script);
    forall id | id in h.registered && h.registered[id].spec.circuit.Some?
      ensures h.registered[id].breaker.state == Open ==> forall t :: t in h.joinSet ==> h.joinSet[t] != id
      ensures h.registered[id].breaker.state == HalfOpen ==> exists t :: t in h.joinSet && h.joinSet[t] == id
    {
      assert WorkerOk(h, id);
    }
  }

  /** Whichever task ends next, its worker's breaker is not Open. */
  lemma NoOutcomeOnOpenBreaker(s: State, order: seq<WorkerId>, script: seq<LoopEvent>, task: TaskId)
    requires Fresh(s) && Enumerates(order, s.registered)
    requires task in LoopHead(s, order, script).joinSet
    ensures var h := LoopHead(s, order, script);
      h.joinSet[task] in h.registered && !CircuitOpen(h.registered[h.joinSet[task]])
  {
    EveryLoopHeadIsConsistent(s, order, script);
    var h := LoopHead(s, order, script);
    assert WorkerOk(h, h.joinSet[task]) && Busy(h, h.joinSet[task]);
  }

  /** Dropping the idle check before trial runs would change nothing. */
  lemma IdleCheckIsRedundant(s: State, order: seq<WorkerId>, script: seq<LoopEvent>, scan: seq<Visit>)
    requires Fresh(s) && Enumerates(order, s.registered)
    ensures var h := LoopHead(s, order, script);
      StartTrials(TickAll(h, scan), Promoted(h, scan)) == StartTrialsUnchecked(TickAll(h, scan), Promoted(h, scan))
  {
    EveryLoopHeadIsConsistent(s, order, script);
    var h := LoopHead(s, order, script);
    var promoted := Promoted(h, scan);
    TickAllReachesMid(h, scan);
    StartTrialsConsumes(TickAll(h, scan), promoted, |promoted|);
    assert promoted[..|promoted|] == promoted;
  }

  /** Circuit events of a worker follow one grammar, openings and trials are at
      least the open duration apart on the breaker's clock, and the last event
      determines the state. */
  lemma CircuitEventsFollowGrammar(s: State, order: seq<WorkerId>, script: seq<LoopEvent>, id: WorkerId)
    requires Fresh(s) && Enumerates(order, s.registered)
    requires id in LoopHead(s, order, script).registered
    requires LoopHead(s, order, script).registered[id].spec.circuit.Some?
    ensures var h := LoopHead(s, order, script);
      && Grammatical(CircuitLog(h.log, id), h.registered[id].spec.circuit.value)
      && LastEventDecides(CircuitLog(h.log, id), h.registered[id].breaker)
  {
    EveryLoopHeadIsConsistent(s, order, script);
    assert WorkerOk(LoopHead(s, order, script), id);
  }

  // ----------------------------------------------------- what a tick releases

  ghost predicate Elapses(v: Visit, id: WorkerId, b: Breaker, p: CircuitPolicy) {
    v.id == id && b.openedAt.Some? && Elapsed(v.now, b.openedAt.value) >= p.openDuration
  }

  ghost predicate SomeVisitElapses(scan: seq<Visit>, id: WorkerId, b: Breaker, p: CircuitPolicy) {
    exists i :: 0 <= i < |scan| && Elapses(scan[i], id, b, p)
  }

  lemma {:induction false} TickAllReleases(s: State, scan: seq<Visit>, id: WorkerId)
    requires id in s.registered && CircuitOpen(s.registered[id])
    ensures id in TickAll(s, scan).registered
    ensures TickAll(s, scan).registered[id] == s.registered[id].(breaker :=
      if SomeVisitElapses(scan, id, s.registered[id].breaker, s.registered[id].spec.circuit.value)
      then s.registered[id].breaker.(state := HalfOpen) else s.registered[id].breaker)
  {
    if scan != [] {
      var before, v := scan[..|scan| - 1], scan[|scan| - 1];
      TickAllReleases(s, before, id);
      var b, p := s.registered[id].breaker, s.registered[id].spec.circuit.value;
      assert scan == before + [v];
      assert SomeVisitElapses(scan, id, b, p) <==> SomeVisitElapses(before, id, b, p) || Elapses(v, id, b, p) by {
        if SomeVisitElapses(before, id, b, p) {
          var i :| 0 <= i < |before| && Elapses(before[i], id, b, p);
          assert Elapses(scan[i], id, b, p);
        }
        if Elapses(v, id, b, p) {
          assert Elapses(scan[|before|], id, b, p);
        }
      }
    }
  }

  lemma {:induction false} TrialsKeepBreaker(s: State, promoted: seq<Visit>, id: WorkerId)
    requires id in s.registered
    ensures id in StartTrials(s, promoted).registered
    ensures StartTrials(s, promoted).registered[id].breaker == s.registered[id].breaker
    ensures StartTrials(s, promoted).registered[id].spec == s.registered[id].spec
  {
    if promoted != [] {
      TrialsKeepBreaker(s, promoted[..|promoted| - 1], id);
    }
  }

  /** A watchdog tick starts the trial of an Open breaker exactly when the walk
      reads its open duration as elapsed; otherwise it stays Open and idle. */
  lemma WatchdogReleasesExactlyWhenElapsed(s: State, scan: seq<Visit>, timeouts: seq<WorkerId>, id: WorkerId)
    requires Inv(s) && id in s.registered && CircuitOpen(s.registered[id])
    ensures var w, s' := s.registered[id], Watchdog(s, scan, timeouts);
      && id in s'.registered
      && var elapsed := SomeVisitElapses(scan, id, w.breaker, w.spec.circuit.value);
      && s'.registered[id].breaker == w.breaker.(state := if elapsed then HalfOpen else Open)
      && (Busy(s', id) <==> elapsed)
  {
    var promoted := Promoted(s, scan);
    TickAllReleases(s, scan, id);
    TrialsKeepBreaker(TickAll(s, scan), promoted, id);
    TimeOutsLeave(StartTrials(TickAll(s, scan), promoted), timeouts, id);
    WatchdogKeepsInv(s, scan, timeouts);
    assert WorkerOk(Watchdog(s, scan, timeouts), id);
  }

  // ------------------------------------------------------------ worker states

  /** Until cancellation, a worker reads Running exactly while it has a task,
      and Stopped otherwise. */
  ghost predicate StatesOk(s: State) {
    !s.cancelFired ==>
      forall id :: id in s.registered ==> s.registered[id].state == if Busy(s, id) then Running else Stopped
  }

  lemma {:induction false} TicksKeepStates(s: State, scan: seq<Visit>)
    requires StatesOk(s)
    ensures StatesOk(TickAll(s, scan)) && TickAll(s, scan).joinSet == s.joinSet
    ensures TickAll(s, scan).cancelFired == s.cancelFired
  {
    if scan != [] {
      var before := scan[..|scan| - 1];
      TicksKeepStates(s, before);
      assert forall id :: Busy(TickAll(s, scan), id) <==> Busy(TickAll(s, before), id);
    }
  }

  lemma {:induction false} TrialsKeepStates(s: State, promoted: seq<Visit>, k: nat)
    requires k <= |promoted| && MidInv(s, promoted) && StatesOk(s)
    ensures StatesOk(StartTrials(s, promoted[..k]))
  {
    if k > 0 {
      TrialsKeepStates(s, promoted, k - 1);
      StartTrialsConsumes(s, promoted, k - 1);
      StartTrialsStep(s, promoted, k);
      TrialKeepsStates(StartTrials(s, promoted[..k - 1]), promoted[k - 1], promoted[k..]);
    }
  }

  lemma SpawnKeepsStates(s: State, id: WorkerId)
    requires TasksOk(s) && StatesOk(s) && id in s.registered && !Busy(s, id)
    ensures StatesOk(SpawnOne(s, id))
  {
    SpawnKeepsTasks(s, id);
  }

  lemma TrialKeepsStates(s: State, v: Visit, rest: seq<Visit>)
    requires MidInv(s, [v] + rest) && StatesOk(s)
    ensures StatesOk(SpawnIfIdle(Emit(s, TrialEvent(v)), v.id))
  {
    IdleCheckSucceeds(s, v, rest);
    assert ([v] + rest)[0] == v && Pending(s, v);
    var s1 := Emit(s, TrialEvent(v));
    assert forall id :: Busy(s1, id) <==> Busy(s, id);
    SpawnKeepsStates(s1, v.id);
  }

  lemma {:induction false} TimeOutsKeepStates(s: State, timeouts: seq<WorkerId>)
    requires StatesOk(s)
    ensures StatesOk(TimeOutAll(s, timeouts)) && TimeOutAll(s, timeouts).joinSet == s.joinSet
    ensures TimeOutAll(s, timeouts).cancelFired == s.cancelFired
  {
    if timeouts != [] {
      var before := timeouts[..|timeouts| - 1];
      TimeOutsKeepStates(s, before);
      assert forall id :: Busy(TimeOutAll(s, timeouts), id) <==> Busy(TimeOutAll(s, before), id);
    }
  }

  lemma JoinKeepsStates(s: State, e: LoopEvent)
    requires Inv(s) && StatesOk(s) && !s.cancelFired && e.Join? && e.task in s.joinSet
    ensures StatesOk(Turn(s, e))
  {
    var id, o := s.joinSet[e.task], ReportedOutcome(e);
    TurnDecides(s, e, id);
    var s1 := Advanced(s, e.task, id, o, e.r);
    JoinedWorkerIsReady(s, e.task, OutcomeEvent(id, o, e.r.wall));
    AdvanceCircuitRestoresInv(Emit(Forget(s, e.task), OutcomeEvent(id, o, e.r.wall)), id, o != Completed, e.r);
    DecisionOwn(s1, id, Account(s1.registered[id], o != Completed, e.r.wall), o != Completed, e.r);
    var s' := Turn(s, e);
    if !s'.cancelFired {
      JoinKeepsKeys(s, e, id);
      forall j | j in s'.registered ensures s'.registered[j].state == if Busy(s', j) then Running else Stopped {
        if j != id {
          JoinedLeaves(s, e.task, e.outcome, e.asJoinError, e.r, j);
        }
      }
    }
  }

  lemma JoinKeepsKeys(s: State, e: LoopEvent, id: WorkerId)
    requires TasksOk(s) && JoinsWorker(s, e, id)
    ensures Turn(s, e).registered.Keys == s.registered.Keys
    ensures var w := Account(Advanced(s, e.task, id, ReportedOutcome(e), e.r).registered[id],
                             ReportedOutcome(e) != Completed, e.r.wall);
      !Turn(s, e).cancelFired ==> StateAfter(ReportedOutcome(e) != Completed, w, e.r) != Restarting
  {
    var o := ReportedOutcome(e);
    var s1 := Advanced(s, e.task, id, o, e.r);
    TurnDecides(s, e, id);
    AdvanceExtends(Emit(Forget(s, e.task), OutcomeEvent(id, o, e.r.wall)), id, o != Completed, e.r);
    DecisionKeepsKeys(s1, id, Account(s1.registered[id], o != Completed, e.r.wall), o != Completed, e.r);
  }

  lemma DecisionKeepsKeys(s: State, id: WorkerId, w: Worker, hasFailed: bool, r: Readings)
    requires id in s.registered
    ensures var s' := if Restarts(w, hasFailed) then Restart(s, id, w, r) else Stop(s, id, w, hasFailed);
      && s'.registered.Keys == s.registered.Keys
      && (s'.cancelFired <==> s.cancelFired || StateAfter(hasFailed, w, r) == Restarting)
  {
  }

  lemma {:induction false} EveryLoopHeadHasTrueStates(s: State, order: seq<WorkerId>, script: seq<LoopEvent>)
    requires Fresh(s) && Enumerates(order, s.registered)
    ensures StatesOk(LoopHead(s, order, script))
    decreases |script|
  {
    if script == [] {
      SpawnAllReachesInv(s, order);
      SpawnAllWorkers(s, order);
    } else {
      var before, e := script[..|script| - 1], script[|script| - 1];
      EveryLoopHeadHasTrueStates(s, order, before);
      EveryLoopHeadIsConsistent(s, order, before);
      var h := LoopHead(s, order, before);
      if !h.cancelFired {
        match e
        case Join(task, _, _, _) =>
          if task in h.joinSet {
            JoinKeepsStates(h, e);
          }
        case WatchdogTick(scan, timeouts) =>
          var promoted := Promoted(h, scan);
          TicksKeepStates(h, scan);
          TickAllReachesMid(h, scan);
          TrialsKeepStates(TickAll(h, scan), promoted, |promoted|);
          assert promoted[..|promoted|] == promoted;
          TimeOutsKeepStates(StartTrials(TickAll(h, scan), promoted), timeouts);
      }
    }
  }

  // ----------------------------------------------------------- leaving the loop

  /** The turn ends a run whose restart is caught in its backoff by cancellation. */
  ghost predicate InterruptsBackoff(s: State, e: LoopEvent) {
    && e.Join? && e.task in s.joinSet && s.joinSet[e.task] in s.registered
    && var o := ReportedOutcome(e);
       StateAfter(o != Completed, Recorded(s.registered[s.joinSet[e.task]], o, e.r), e.r) == Restarting
  }

  /** Apart from the select itself, a turn lets the loop see cancellation exactly by
      interrupting a backoff; nothing else makes it leave. */
  lemma LoopLeavesExactlyWhen(s: State, e: LoopEvent)
    requires Inv(s)
    ensures Turn(s, e).cancelFired <==> s.cancelFired || InterruptsBackoff(s, e)
  {
    if e.WatchdogTick? {
      TurnExtends(s, e);
    } else if !s.cancelFired && e.task in s.joinSet {
      var id, o := s.joinSet[e.task], ReportedOutcome(e);
      TurnDecides(s, e, id);
      AdvancedOwn(s, e.task, id, o, e.r);
      var s1 := Advanced(s, e.task, id, o, e.r);
      AdvanceExtends(Emit(Forget(s, e.task), OutcomeEvent(id, o, e.r.wall)), id, o != Completed, e.r);
      DecisionKeepsKeys(s1, id, Recorded(s.registered[id], o, e.r), o != Completed, e.r);
    }
  }

  /** Every worker has stopped for good. */
  ghost predicate AllRetired(s: State) {
    forall id :: id in s.registered ==> !Busy(s, id) && !CircuitOpen(s.registered[id])
  }

  /** With every worker stopped for good the loop still goes on in every
      continuation: it neither leaves nor starts anything. */
  lemma {:induction false} RetiredLoopWaits(s: State, more: seq<LoopEvent>)
    requires Inv(s) && !s.cancelFired && AllRetired(s)
    ensures !Turns(s, more).cancelFired && Turns(s, more).joinSet == map[]
  {
    TurnsKeepInv(s, more);
    TurnsExtend(s, more);
    var s' := Turns(s, more);
    forall id | id in s'.registered ensures !Busy(s', id) {
      RetiredForever(s, more, id);
    }
    assert forall t :: t in s'.joinSet ==> Busy(s', s'.joinSet[t]);
    if more != [] {
      RetiredLoopWaits(s, more[..|more| - 1]);
      TurnsKeepInv(s, more[..|more| - 1]);
      LoopLeavesExactlyWhen(Turns(s, more[..|more| - 1]), more[|more| - 1]);
    }
  }

  /** In every run, once all workers have stopped for good only cancellation from
      outside ends the loop. */
  lemma StoppedLoopWaits(s: State, order: seq<WorkerId>, script: seq<LoopEvent>, more: seq<LoopEvent>)
    requires Fresh(s) && Enumerates(order, s.registered)
    requires var h := LoopHead(s, order, script);
      !h.cancelFired && forall id :: id in h.registered ==>
        h.registered[id].state == Stopped && !CircuitOpen(h.registered[id])
    ensures !LoopHead(s, order, script + more).cancelFired && LoopHead(s, order, script + more).joinSet == map[]
  {
    EveryLoopHeadIsConsistent(s, order, script);
    EveryLoopHeadHasTrueStates(s, order, script);
    TurnsCompose(SpawnAll(s, order), script, more);
    RetiredLoopWaits(LoopHead(s, order, script), more);
  }

  // ------------------------------------------------------------------ finality

  /** A worker that has no task and whose breaker, if it has one, is not Open is
      never touched again. */
  lemma {:induction false} RetiredForever(s: State, script: seq<LoopEvent>, id: WorkerId)
    requires Inv(s) && id in s.registered && !CircuitOpen(s.registered[id]) && !Busy(s, id)
    ensures Untouched(s, Turns(s, script), id)
  {
    if script != [] {
      var before, e := script[..|script| - 1], script[|script| - 1];
      RetiredForever(s, before, id);
      TurnsKeepInv(s, before);
      var s1 := Turns(s, before);
      assert JoinsWorker(s1, e, id) ==> Busy(s1, id);
      TurnLeaves(s1, e, id);
    }
  }

  lemma {:induction false} TurnsCompose(s: State, script: seq<LoopEvent>, more: seq<LoopEvent>)
    ensures Turns(s, script + more) == Turns(Turns(s, script), more)
  {
    if more == [] {
      assert script + more == script;
    } else {
      TurnsCompose(s, script, more[..|more| - 1]);
      assert (script + more)[..|script + more| - 1] == script + more[..|more| - 1];
    }
  }

  lemma {:induction false} CancelledLoopIsIdle(s: State, script: seq<LoopEvent>)
    requires s.cancelFired
    ensures Turns(s, script) == s
  {
    if script != [] {
      CancelledLoopIsIdle(s, script[..|script| - 1]);
    }
  }

  /** One visit late enough for the breaker of `id`. */
  function LateTick(id: WorkerId, b: Breaker, p: CircuitPolicy): LoopEvent
    requires b.openedAt.Some?
  {
    WatchdogTick([Visit(id, b.openedAt.value + p.openDuration, 0)], [])
  }

  lemma LateTickReleases(s: State, id: WorkerId)
    requires Inv(s) && !s.cancelFired && id in s.registered && CircuitOpen(s.registered[id])
    ensures s.registered[id].breaker.openedAt.Some?
    ensures var e := LateTick(id, s.registered[id].breaker, s.registered[id].spec.circuit.value);
      Busy(Turns(s, [e]), id) && !Busy(s, id)
  {
    assert WorkerOk(s, id);
    var b, p := s.registered[id].breaker, s.registered[id].spec.circuit.value;
    var e := LateTick(id, b, p);
    assert Elapses(e.scan[0], id, b, p);
    WatchdogReleasesExactlyWhenElapsed(s, e.scan, [], id);
    assert [e][..0] == [] && Turns(s, [e]) == Turn(s, e);
  }

  /** In every run, a worker that reads Stopped stays as it is in every
      continuation, never spawned again, exactly when cancellation was seen or its
      breaker, if it has one, is not Open. */
  lemma StoppedIsFinalExactlyWhen(s: State, order: seq<WorkerId>, script: seq<LoopEvent>, id: WorkerId)
    requires Fresh(s) && Enumerates(order, s.registered)
    requires var h := LoopHead(s, order, script); id in h.registered && h.registered[id].state == Stopped
    ensures var h := LoopHead(s, order, script);
      (forall more :: Untouched(h, LoopHead(s, order, script + more), id))
      <==> h.cancelFired || !CircuitOpen(h.registered[id])
  {
    var h := LoopHead(s, order, script);
    EveryLoopHeadIsConsistent(s, order, script);
    if !h.cancelFired && CircuitOpen(h.registered[id]) {
      LateTickReleases(h, id);
      var e := LateTick(id, h.registered[id].breaker, h.registered[id].spec.circuit.value);
      TurnsCompose(SpawnAll(s, order), script, [e]);
      assert !Untouched(h, LoopHead(s, order, script + [e]), id);
    } else {
      EveryLoopHeadHasTrueStates(s, order, script);
      forall more ensures Untouched(h, LoopHead(s, order, script + more), id) {
        TurnsCompose(SpawnAll(s, order), script, more);
        if h.cancelFired {
          CancelledLoopIsIdle(h, more);
        } else {
          RetiredForever(h, more, id);
        }
      }
    }
  }

  function Starts(own: seq<Event>): nat {
    if own == [] then 0
    else Starts(own[..|own| - 1]) + if own[|own| - 1].Started? then 1 else 0
  }

  lemma {:induction false} StartsConcat(a: seq<Event>, b: seq<Event>)
    ensures Starts(a + b) == Starts(a) + Starts(b)
  {
    if b == [] {
      assert a + b == a;
    } else {
      StartsConcat(a, b[..|b| - 1]);
      assert (a + b)[..|a + b| - 1] == a + b[..|b| - 1];
    }
  }

  lemma {:induction false} SpawnAllOwn(s: State, order: seq<WorkerId>, id: WorkerId)
    requires s.log == [] && Distinct(order) && forall j :: j in order ==> j in s.registered
    ensures Own(SpawnAll(s, order).log, id) == if id in order then [Started(id)] else []
  {
    if order != [] {
      var before, j := order[..|order| - 1], order[|order| - 1];
      assert order == before + [j];
      SpawnAllOwn(s, before, id);
      SpawnAllWorkers(s, before);
      SpawnOneOwn(SpawnAll(s, before), j, id);
      assert j !in before;
      assert SpawnAll(s, order) == SpawnOne(SpawnAll(s, before), j);
    }
  }

  lemma SpawnOneOwn(s: State, j: WorkerId, id: WorkerId)
    requires j in s.registered
    ensures Own(SpawnOne(s, j).log, id) == Own(s.log, id) + if j == id then [Started(j)] else []
  {
    OwnSnoc(s.log, Started(j), id);
  }

  // -------------------------------------------------------------------- Never

  /** A single failure already trips the worker's breaker. */
  predicate TripsAtOnce(spec: WorkerSpec) { spec.circuit.Some? && spec.circuit.value.failureThreshold <= 1 }

  /** A `Never` worker whose breaker does not trip at once: spawned once, and
      until its only run ends the breaker is untouched. */
  ghost predicate SpawnedOnce(w: Worker, own: seq<Event>, busy: bool) {
    && w.spec.restart == Never && !TripsAtOnce(w.spec)
    && Starts(own) == 1
    && w.breaker.state == Closed
    && (busy ==> w.breaker == NEW_BREAKER)
  }

  ghost predicate RunsOnce(s: State, id: WorkerId) {
    id in s.registered && SpawnedOnce(s.registered[id], Own(s.log, id), Busy(s, id))
  }

  /** The end of the only run: nothing trips and nothing is started. */
  lemma OnlyRunEnds(w: Worker, own: seq<Event>, id: WorkerId, o: Outcome, r: Readings)
    requires SpawnedOnce(w, own, true)
    ensures var next := Recorded(w, o, r);
      SpawnedOnce(next.(state := StateAfter(o != Completed, next, r)),
                  own + [OutcomeEvent(id, o, r.wall)] + CircuitPart(w, id, o, r)
                    + Decision(id, o != Completed, next, r),
                  StateAfter(o != Completed, next, r) == Running)
  {
    var next := Recorded(w, o, r);
    var first, rest := [OutcomeEvent(id, o, r.wall)], Decision(id, o != Completed, next, r);
    assert CircuitPart(w, id, o, r) == [];
    assert own + first + [] == own + first;
    StartsConcat(own, first);
    StartsConcat(own + first, rest);
    assert Starts(first) == 0 && Starts(rest) == 0;
  }

  lemma RunsOnceIsKept(s: State, e: LoopEvent, id: WorkerId)
    requires Inv(s) && RunsOnce(s, id)
    ensures RunsOnce(Turn(s, e), id)
  {
    if !JoinsWorker(s, e, id) {
      TurnLeaves(s, e, id);
    } else {
      assert Busy(s, id);
      OnlyRunEnds(s.registered[id], Own(s.log, id), id, ReportedOutcome(e), e.r);
      OwnTurn(s, e, id);
    }
  }

  lemma RunsOnceAtStart(s: State, order: seq<WorkerId>, id: WorkerId)
    requires Fresh(s) && Enumerates(order, s.registered) && id in s.registered
    requires s.registered[id].spec.restart == Never && !TripsAtOnce(s.registered[id].spec)
    ensures RunsOnce(SpawnAll(s, order), id)
  {
    SpawnAllWorkers(s, order);
    SpawnAllOwn(s, order, id);
    assert Starts([Started(id)]) == 1;
  }

  lemma {:induction false} NeverRunsOnce(s: State, order: seq<WorkerId>, script: seq<LoopEvent>, id: WorkerId)
    requires Fresh(s) && Enumerates(order, s.registered) && id in s.registered
    requires s.registered[id].spec.restart == Never && !TripsAtOnce(s.registered[id].spec)
    ensures RunsOnce(LoopHead(s, order, script), id)
    decreases |script|
  {
    if script == [] {
      RunsOnceAtStart(s, order, id);
    } else {
      var before := script[..|script| - 1];
      NeverRunsOnce(s, order, before, id);
      EveryLoopHeadIsConsistent(s, order, before);
      RunsOnceIsKept(LoopHead(s, order, before), script[|script| - 1], id);
    }
  }

  lemma {:induction false} StartsNeverDrop(log: seq<Event>, added: seq<Event>, id: WorkerId)
    ensures Starts(Own(log + added, id)) >= Starts(Own(log, id))
  {
    if added == [] {
      assert log + added == log;
    } else {
      var before, e := added[..|added| - 1], added[|added| - 1];
      StartsNeverDrop(log, before, id);
      assert log + added == (log + before) + [e];
      OwnSnoc(log + before, e, id);
      StartsConcat(Own(log + before, id), [e]);
    }
  }

  /** One failed run and one tick after the open duration. */
  function TrialScript(task: TaskId, id: WorkerId, p: CircuitPolicy): seq<LoopEvent> {
    [Join(task, Errored, false, Readings(0, 0, 0, false)),
     WatchdogTick([Visit(id, p.openDuration, p.openDuration)], [])]
  }

  lemma FirstFailureTrips(s: State, task: TaskId, id: WorkerId)
    requires Inv(s) && !s.cancelFired && id in s.registered && task in s.joinSet && s.joinSet[task] == id
    requires TripsAtOnce(s.registered[id].spec) && s.registered[id].spec.restart == Never
    requires s.registered[id].breaker == NEW_BREAKER
    ensures var s' := Turn(s, Join(task, Errored, false, Readings(0, 0, 0, false)));
      && id in s'.registered && CircuitOpen(s'.registered[id]) && !s'.cancelFired
      && s'.registered[id].breaker.openedAt == Some(0)
      && s'.registered[id].spec == s.registered[id].spec
      && s.log <= s'.log
  {
    var e := Join(task, Errored, false, Readings(0, 0, 0, false));
    TurnDecides(s, e, id);
    AdvanceCircuitShape(Emit(Forget(s, task), OutcomeEvent(id, Errored, 0)), id, true, e.r);
  }

  /** A single visit that finds the open duration elapsed announces and starts the
      trial. */
  lemma TickStartsTrial(s: State, id: WorkerId, v: Visit)
    requires Inv(s) && !s.cancelFired && id in s.registered && CircuitOpen(s.registered[id])
    requires Elapses(v, id, s.registered[id].breaker, s.registered[id].spec.circuit.value)
    ensures Turn(s, WatchdogTick([v], [])).log == s.log + [TrialEvent(v), Started(id)]
  {
    assert WorkerOk(s, id);
    assert [v][..0] == [] && TickAll(s, []) == s;
    assert Promotes(s, v);
    assert Promoted(s, [v]) == [v];
    var s1 := Emit(TickOne(s, v), TrialEvent(v));
    assert forall j :: Busy(s1, j) <==> Busy(s, j);
    assert forall t :: t in s1.taskToWorker && s1.taskToWorker[t] == id ==> Busy(s1, id);
    assert StartTrials(TickOne(s, v), [v]) == SpawnOne(s1, id);
    assert s1.log + [Started(id)] == s.log + [TrialEvent(v), Started(id)];
  }

  lemma TrialAddsStart(before: seq<Event>, log: seq<Event>, id: WorkerId, d: nat)
    requires before <= log
    ensures Starts(Own(log + [CircuitHalfOpened(id, d, d), Started(id)], id)) > Starts(Own(before, id))
  {
    var trial := CircuitHalfOpened(id, d, d);
    assert log == before + log[|before|..];
    StartsNeverDrop(before, log[|before|..], id);
    StartsNeverDrop(log, [trial], id);
    OwnSnoc(log + [trial], Started(id), id);
    StartsConcat(Own(log + [trial], id), [Started(id)]);
    assert log + [trial] + [Started(id)] == log + [trial, Started(id)];
  }

  lemma TwoTurns(s: State, script: seq<LoopEvent>)
    requires |script| == 2
    ensures Turns(s, script) == Turn(Turn(s, script[0]), script[1])
  {
    assert script[..1][..0] == [];
    assert Turns(s, script[..1]) == Turn(s, script[0]);
  }

  lemma NeverMayRunTwice(s: State, order: seq<WorkerId>, id: WorkerId) returns (script: seq<LoopEvent>)
    requires Fresh(s) && Enumerates(order, s.registered) && id in s.registered
    requires s.registered[id].spec.restart == Never && TripsAtOnce(s.registered[id].spec)
    ensures Starts(Own(LoopHead(s, order, script).log, id)) >= 2
  {
    SpawnAllReachesInv(s, order);
    SpawnAllWorkers(s, order);
    SpawnAllOwn(s, order, id);
    var s0 := SpawnAll(s, order);
    assert Busy(s0, id);
    var task :| task in s0.joinSet && s0.joinSet[task] == id;
    var p := s.registered[id].spec.circuit.value;
    script := TrialScript(task, id, p);
    var s1 := Turn(s0, script[0]);
    var s2 := Turn(s1, script[1]);
    FirstFailureTrips(s0, task, id);
    TurnKeepsInv(s0, script[0]);
    TickStartsTrial(s1, id, Visit(id, p.openDuration, p.openDuration));
    TrialAddsStart(s0.log, s1.log, id, p.openDuration);
    TwoTurns(s0, script);
  }

  /** `Never` means "spawned once" in every run exactly when the worker has no
      breaker that a single failure trips. */
  lemma NeverRunsOnceExactlyWhen(s: State, order: seq<WorkerId>, id: WorkerId)
    requires Fresh(s) && Enumerates(order, s.registered) && id in s.registered
    requires s.registered[id].spec.restart == Never
    ensures (forall script :: Starts(Own(LoopHead(s, order, script).log, id)) == 1)
        <==> !TripsAtOnce(s.registered[id].spec)
  {
    if TripsAtOnce(s.registered[id].spec) {
      var script := NeverMayRunTwice(s, order, id);
    } else {
      forall script ensures Starts(Own(LoopHead(s, order, script).log, id)) == 1 {
        NeverRunsOnce(s, order, script, id);
      }
    }
  }
}
