/** What `MaxRetries` means over whole runs. The failure counter measures chains of
    failures, each at most 60 s after the one before, and bounds the restarts in
    every chain, with or without a circuit breaker. */
module SupervisorRetries {
  import opened Prelude
  import opened Circuit
  import opened SupervisorModel
  import opened SupervisorInvariants
  import opened SupervisorRestarts
  import opened SupervisorTheorems

  // -------------------------------------------------------------------- chains

  /** Wall-clock reading of the last failure; zero stands for none. */
  function LastFailure(own: seq<Event>): nat {
    if own == [] then 0
    else match own[|own| - 1]
      case FailedRun(_, wall) => wall
      case PanickedRun(_, wall) => wall
      case _ => LastFailure(own[..|own| - 1])
  }

  predicate IsFailure(e: Event) { e.FailedRun? || e.PanickedRun? }

  /** The failure continues the chain: at most 60 s after the one before. */
  predicate Continues(own: seq<Event>, e: Event)
    requires IsFailure(e)
  {
    LastFailure(own) != 0 && e.wall - LastFailure(own) <= FAILURE_WINDOW_NANOS
  }

  /** Restarts since the current chain of failures began. */
  function ChainRestarts(own: seq<Event>): nat {
    if own == [] then 0
    else
      var before, e := own[..|own| - 1], own[|own| - 1];
      if IsFailure(e) && !Continues(before, e) then 0
      else ChainRestarts(before) + if e.Restarted? then 1 else 0
  }

  /** Failures in the current chain. */
  function ChainFailures(own: seq<Event>): nat {
    if own == [] then 0
    else
      var before, e := own[..|own| - 1], own[|own| - 1];
      if !IsFailure(e) then ChainFailures(before)
      else if Continues(before, e) then ChainFailures(before) + 1 else 1
  }

  lemma ChainSnoc(own: seq<Event>, e: Event)
    ensures LastFailure(own + [e]) == if IsFailure(e) then e.wall else LastFailure(own)
    ensures ChainRestarts(own + [e])
         == if IsFailure(e) then (if Continues(own, e) then ChainRestarts(own) else 0)
            else ChainRestarts(own) + if e.Restarted? then 1 else 0
    ensures ChainFailures(own + [e])
         == if IsFailure(e) then (if Continues(own, e) then ChainFailures(own) + 1 else 1) else ChainFailures(own)
  {
    assert (own + [e])[..|own|] == own;
  }

  /** Neither a failure nor a restart. */
  predicate Quiet(e: Event) { !IsFailure(e) && !e.Restarted? }

  ghost predicate SameChain(a: seq<Event>, b: seq<Event>) {
    LastFailure(a) == LastFailure(b) && ChainRestarts(a) == ChainRestarts(b) && ChainFailures(a) == ChainFailures(b)
  }

  lemma {:induction false} QuietAppend(own: seq<Event>, added: seq<Event>)
    requires forall i :: 0 <= i < |added| ==> Quiet(added[i])
    ensures SameChain(own, own + added)
  {
    if added == [] {
      assert own + added == own;
    } else {
      var n := |added| - 1;
      QuietAppend(own, added[..n]);
      ChainSnoc(own + added[..n], added[n]);
      assert own + added == (own + added[..n]) + [added[n]];
    }
  }

  /** The decision after an outcome adds at most one restart and no failure. */
  lemma DecisionChain(own: seq<Event>, id: WorkerId, hasFailed: bool, w: Worker, r: Readings)
    ensures var own' := own + Decision(id, hasFailed, w, r);
      && LastFailure(own') == LastFailure(own) && ChainFailures(own') == ChainFailures(own)
      && ChainRestarts(own') == ChainRestarts(own) + if StateAfter(hasFailed, w, r) == Running then 1 else 0
  {
    var d := Decision(id, hasFailed, w, r);
    if StateAfter(hasFailed, w, r) == Running {
      ChainSnoc(own, d[0]);
      QuietAppend(own + [d[0]], [d[1]]);
      assert own + d == own + [d[0]] + [d[1]];
    } else {
      QuietAppend(own, d);
    }
  }

  // ------------------------------------------------------------- one end of run

  /** The worker's breaker has opened and not closed since. */
  predicate Tripped(w: Worker) { w.spec.circuit.Some? && w.breaker.state != Closed }

  /** The counter of a worker is the length of its current chain of failures, in
      u32 arithmetic; the chain holds fewer than max(retries, 1) restarts; and a
      running worker that has not tripped has not used them up. */
  ghost predicate ChainBounded(w: Worker, own: seq<Event>, busy: bool, retries: u32) {
    && w.lastFailureNanos == LastFailure(own)
    && w.failuresInWindow == WrapU32(ChainFailures(own))
    && ChainRestarts(own) < Max(retries, 1)
    && (busy && !Tripped(w) ==> ChainFailures(own) < Max(retries, 1) && ChainRestarts(own) <= ChainFailures(own))
    && (w.spec.circuit.None? ==> ChainFailures(own) <= Max(retries, 1))
  }

  ghost predicate IsMaxRetries(w: Worker, retries: u32) {
    w.spec.restart.MaxRetries? && w.spec.restart.retries == retries
  }

  lemma WrapSucc(n: nat)
    ensures WrapU32(WrapU32(n) + 1) == WrapU32(n + 1)
  {
  }

  /** A failure is counted before the restart is decided. */
  lemma FailureIsChained(w: Worker, own: seq<Event>, id: WorkerId, o: Outcome, r: Readings, retries: u32)
    requires IsMaxRetries(w, retries) && ChainBounded(w, own, true, retries) && o != Completed
    ensures var next, own' := Recorded(w, o, r), own + [OutcomeEvent(id, o, r.wall)];
      && next.spec == w.spec
      && next.lastFailureNanos == LastFailure(own')
      && next.failuresInWindow == next.attempts == WrapU32(ChainFailures(own'))
      && ChainRestarts(own') <= ChainRestarts(own)
      && (!Tripped(next) ==> !Tripped(w)) && (Tripped(next) ==> CircuitOpen(next))
      && (!Tripped(w) ==> ChainFailures(own') <= Max(retries, 1) && ChainRestarts(own') < ChainFailures(own'))
  {
    ChainSnoc(own, OutcomeEvent(id, o, r.wall));
    WrapSucc(ChainFailures(own));
  }

  /** One end of run seen by the counter: counted, decided, still bounded. The
      attempt number is the length of the chain the run ended, zero after success. */
  lemma ChainBoundIsKept(w: Worker, own: seq<Event>, id: WorkerId, o: Outcome, r: Readings, retries: u32)
    requires IsMaxRetries(w, retries) && ChainBounded(w, own, true, retries)
    ensures Recorded(w, o, r).attempts
         == if o == Completed then 0 else WrapU32(ChainFailures(own + [OutcomeEvent(id, o, r.wall)]))
    ensures var next := Recorded(w, o, r);
      ChainBounded(next, own + [OutcomeEvent(id, o, r.wall)] + CircuitPart(w, id, o, r)
                           + Decision(id, o != Completed, next, r),
                   StateAfter(o != Completed, next, r) == Running, retries)
  {
    var own1, next := own + [OutcomeEvent(id, o, r.wall)], Recorded(w, o, r);
    var own2 := own1 + CircuitPart(w, id, o, r);
    QuietAppend(own1, CircuitPart(w, id, o, r));
    DecisionChain(own2, id, o != Completed, next, r);
    if o == Completed {
      ChainSnoc(own, Ended(id));
      SuccessIsBounded(w, next, own, own2 + Decision(id, false, next, r), r, retries);
    } else {
      FailureIsChained(w, own, id, o, r, retries);
      FailureIsBounded(w, next, own1, own2 + Decision(id, true, next, r), r, retries);
    }
  }

  /** A success is not restarted under `MaxRetries`, so nothing moves. */
  lemma SuccessIsBounded(w: Worker, next: Worker, own: seq<Event>, own': seq<Event>, r: Readings, retries: u32)
    requires IsMaxRetries(w, retries) && ChainBounded(w, own, true, retries) && SameChain(own, own')
    requires next.spec == w.spec && next.lastFailureNanos == w.lastFailureNanos
    requires next.failuresInWindow == w.failuresInWindow
    ensures ChainBounded(next, own', StateAfter(false, next, r) == Running, retries)
  {
  }

  /** A counted failure is restarted only below the bound. */
  lemma FailureIsBounded(w: Worker, next: Worker, own1: seq<Event>, own': seq<Event>, r: Readings, retries: u32)
    requires IsMaxRetries(w, retries) && next.spec == w.spec
    requires next.lastFailureNanos == LastFailure(own1)
    requires next.failuresInWindow == next.attempts == WrapU32(ChainFailures(own1))
    requires ChainRestarts(own1) < Max(retries, 1) && (Tripped(next) ==> CircuitOpen(next))
    requires !Tripped(next) ==> ChainFailures(own1) <= Max(retries, 1) && ChainRestarts(own1) < ChainFailures(own1)
    requires LastFailure(own') == LastFailure(own1) && ChainFailures(own') == ChainFailures(own1)
    requires ChainRestarts(own') == ChainRestarts(own1) + if StateAfter(true, next, r) == Running then 1 else 0
    ensures ChainBounded(next, own', StateAfter(true, next, r) == Running, retries)
  {
  }

  // ----------------------------------------------------------- ticks and chains

  /** The cells the counter and the decision use, and the chain, are as before. */
  ghost predicate ChainKept(s: State, s': State, id: WorkerId) {
    && id in s.registered && id in s'.registered
    && s'.registered[id].spec == s.registered[id].spec
    && s'.registered[id].lastFailureNanos == s.registered[id].lastFailureNanos
    && s'.registered[id].failuresInWindow == s.registered[id].failuresInWindow
    && SameChain(Own(s.log, id), Own(s'.log, id))
  }

  lemma EmitKeepsChain(s: State, e: Event, id: WorkerId)
    requires id in s.registered && Quiet(e)
    ensures ChainKept(s, Emit(s, e), id)
  {
    OwnSnoc(s.log, e, id);
    ChainSnoc(Own(s.log, id), e);
  }

  lemma SpawnIfIdleKeepsChain(s: State, j: WorkerId, id: WorkerId)
    requires id in s.registered
    ensures ChainKept(s, SpawnIfIdle(s, j), id)
  {
    EmitKeepsChain(s, Started(j), id);
  }

  lemma {:induction false} TickAllKeepsChain(s: State, scan: seq<Visit>, id: WorkerId)
    requires id in s.registered
    ensures ChainKept(s, TickAll(s, scan), id) && TickAll(s, scan).log == s.log
  {
    if scan != [] {
      TickAllKeepsChain(s, scan[..|scan| - 1], id);
    }
  }

  lemma {:induction false} TrialsKeepChain(s: State, promoted: seq<Visit>, id: WorkerId)
    requires id in s.registered
    ensures ChainKept(s, StartTrials(s, promoted), id)
  {
    if promoted != [] {
      var before, v := promoted[..|promoted| - 1], promoted[|promoted| - 1];
      TrialsKeepChain(s, before, id);
      var s1 := StartTrials(s, before);
      EmitKeepsChain(s1, TrialEvent(v), id);
      SpawnIfIdleKeepsChain(Emit(s1, TrialEvent(v)), v.id, id);
    }
  }

  lemma WatchdogKeepsChain(s: State, scan: seq<Visit>, timeouts: seq<WorkerId>, id: WorkerId)
    requires id in s.registered
    ensures ChainKept(s, Watchdog(s, scan, timeouts), id)
  {
    TickAllKeepsChain(s, scan, id);
    TrialsKeepChain(TickAll(s, scan), Promoted(s, scan), id);
    TimeOutsLeave(StartTrials(TickAll(s, scan), Promoted(s, scan)), timeouts, id);
  }

  // ------------------------------------------------------------------ whole runs

  ghost predicate Bounded(s: State, id: WorkerId, retries: u32) {
    && id in s.registered
    && IsMaxRetries(s.registered[id], retries)
    && ChainBounded(s.registered[id], Own(s.log, id), Busy(s, id), retries)
  }

  /** A tick on an Open breaker leaves it tripped, so it uses up nothing. */
  lemma OpenTickKeepsBound(s: State, scan: seq<Visit>, timeouts: seq<WorkerId>, id: WorkerId, retries: u32)
    requires Inv(s) && Bounded(s, id, retries) && CircuitOpen(s.registered[id])
    ensures Bounded(Watchdog(s, scan, timeouts), id, retries)
  {
    WatchdogKeepsChain(s, scan, timeouts, id);
    WatchdogReleasesExactlyWhenElapsed(s, scan, timeouts, id);
    assert Tripped(Watchdog(s, scan, timeouts).registered[id]);
  }

  lemma BoundedIsKept(s: State, e: LoopEvent, id: WorkerId, retries: u32)
    requires Inv(s) && Bounded(s, id, retries)
    ensures Bounded(Turn(s, e), id, retries)
  {
    if JoinsWorker(s, e, id) {
      assert Busy(s, id);
      OwnTurn(s, e, id);
      ChainBoundIsKept(s.registered[id], Own(s.log, id), id, ReportedOutcome(e), e.r, retries);
    } else if !s.cancelFired && e.WatchdogTick? && CircuitOpen(s.registered[id]) {
      OpenTickKeepsBound(s, e.scan, e.timeouts, id, retries);
    } else if !s.cancelFired && e.Join? {
      JoinedLeaves(s, e.task, e.outcome, e.asJoinError, e.r, id);
    } else if !s.cancelFired {
      TurnLeaves(s, e, id);
    }
  }

  lemma BoundedAtStart(s: State, order: seq<WorkerId>, id: WorkerId, retries: u32)
    requires Fresh(s) && Enumerates(order, s.registered) && id in s.registered
    requires IsMaxRetries(s.registered[id], retries)
    ensures Bounded(SpawnAll(s, order), id, retries)
  {
    SpawnAllWorkers(s, order);
    SpawnAllOwn(s, order, id);
    StartedIsBounded(s.registered[id].(state := Running), id, Busy(SpawnAll(s, order), id), retries);
  }

  lemma StartedIsBounded(w: Worker, id: WorkerId, busy: bool, retries: u32)
    requires w.lastFailureNanos == 0 && w.failuresInWindow == 0
    ensures ChainBounded(w, [Started(id)], busy, retries)
  {
    ChainSnoc([], Started(id));
    assert [] + [Started(id)] == [Started(id)];
  }

  /** In every run, whether or not the worker has a breaker, fewer than
      max(retries, 1) restarts fall within any chain of failures at most 60 s
      apart. */
  lemma {:induction false} RetriesAreBounded(
    s: State, order: seq<WorkerId>, script: seq<LoopEvent>, id: WorkerId, retries: u32)
    requires Fresh(s) && Enumerates(order, s.registered) && id in s.registered
    requires s.registered[id].spec.restart.MaxRetries? && s.registered[id].spec.restart.retries == retries
    ensures Bounded(LoopHead(s, order, script), id, retries)
    decreases |script|
  {
    if script == [] {
      BoundedAtStart(s, order, id, retries);
    } else {
      var before := script[..|script| - 1];
      RetriesAreBounded(s, order, before, id, retries);
      EveryLoopHeadIsConsistent(s, order, before);
      BoundedIsKept(LoopHead(s, order, before), script[|script| - 1], id, retries);
    }
  }
}
