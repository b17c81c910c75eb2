/** The restart counter against the sliding windows its documentation speaks of: a
    window of 60 s, and the window a policy is configured with. */
module SupervisorWindows {
  import opened Prelude
  import opened Circuit
  import opened CircuitWindows
  import opened Policies
  import opened SupervisorGrowth
  import opened SupervisorModel
  import opened SupervisorInvariants
  import opened SupervisorRestarts
  import opened SupervisorRetries
  import opened SupervisorTheorems

  // ------------------------------------------------ chains and sliding windows

  /** Wall-clock readings of the worker's failures. */
  function FailureWalls(own: seq<Event>): seq<nat> {
    if own == [] then []
    else
      var before, e := FailureWalls(own[..|own| - 1]), own[|own| - 1];
      if IsFailure(e) then before + [e.wall] else before
  }

  /** The counted chain is the longest in the sense of the breaker's rule, with 60 s
      for the window. */
  ghost predicate CountsLongest(own: seq<Event>) {
    && IsLongestChain(FailureWalls(own), ChainFailures(own), FAILURE_WINDOW_NANOS)
    && LastFailure(own) == if FailureWalls(own) == [] then 0 else FailureWalls(own)[|FailureWalls(own)| - 1]
  }

  lemma FailureWallsSnoc(own: seq<Event>, e: Event)
    ensures FailureWalls(own + [e]) == FailureWalls(own) + if IsFailure(e) then [e.wall] else []
  {
    assert (own + [e])[..|own|] == own;
  }

  /** Every reading is past the zero that stands for "no failure yet". */
  ghost predicate PastZero(ts: seq<nat>) {
    forall i :: 0 <= i < |ts| ==> ts[i] > 0
  }

  lemma EventKeepsLongest(own: seq<Event>, e: Event)
    requires CountsLongest(own) && PastZero(FailureWalls(own))
    ensures CountsLongest(own + [e])
  {
    ChainSnoc(own, e);
    FailureWallsSnoc(own, e);
    if IsFailure(e) {
      ChainExtends(FailureWalls(own), e.wall, ChainFailures(own), FAILURE_WINDOW_NANOS);
    } else {
      assert FailureWalls(own) + [] == FailureWalls(own);
    }
  }

  /** On a wall clock past its zero, every log counts its longest chain. */
  lemma {:induction false} ChainIsLongest(own: seq<Event>)
    requires PastZero(FailureWalls(own))
    ensures CountsLongest(own)
  {
    if own != [] {
      var before, e := own[..|own| - 1], own[|own| - 1];
      assert own == before + [e];
      FailureWallsSnoc(before, e);
      assert forall i :: 0 <= i < |FailureWalls(before)| ==> FailureWalls(before)[i] == FailureWalls(own)[i];
      ChainIsLongest(before);
      EventKeepsLongest(before, e);
    }
  }

  /** In every run, when a running worker that has not tripped fails, its policy
      allows a restart exactly while the chain the failure ends is shorter than
      `retries`. */
  lemma AllowsExactlyBelowChain(s: State, order: seq<WorkerId>, script: seq<LoopEvent>, id: WorkerId, retries: u32,
                                o: Outcome, r: Readings, k: int)
    requires Fresh(s) && Enumerates(order, s.registered) && id in s.registered
    requires s.registered[id].spec.restart.MaxRetries? && s.registered[id].spec.restart.retries == retries
    requires var h := LoopHead(s, order, script);
      id in h.registered && Busy(h, id) && !Tripped(h.registered[id]) && o != Completed
    requires var ts := FailureWalls(Own(LoopHead(s, order, script).log, id)) + [r.wall];
      PastZero(ts) && IsLongestChain(ts, k, FAILURE_WINDOW_NANOS)
    ensures var w := LoopHead(s, order, script).registered[id];
      ShouldRestart(w.spec.restart, true, Recorded(w, o, r).attempts) <==> k < retries
    ensures k <= Max(retries, 1)
  {
    RetriesAreBounded(s, order, script, id, retries);
    var h := LoopHead(s, order, script);
    BoundedAllowsBelow(h.registered[id], Own(h.log, id), id, retries, o, r, k);
  }

  lemma BoundedAllowsBelow(w: Worker, own: seq<Event>, id: WorkerId, retries: u32, o: Outcome, r: Readings, k: int)
    requires IsMaxRetries(w, retries) && ChainBounded(w, own, true, retries) && !Tripped(w) && o != Completed
    requires PastZero(FailureWalls(own) + [r.wall])
    requires IsLongestChain(FailureWalls(own) + [r.wall], k, FAILURE_WINDOW_NANOS)
    ensures ShouldRestart(w.spec.restart, true, Recorded(w, o, r).attempts) <==> k < retries
    ensures k <= Max(retries, 1)
  {
    FailureIsChained(w, own, id, o, r, retries);
    LongestIsCounted(own, OutcomeEvent(id, o, r.wall), k);
  }

  lemma LongestIsCounted(own: seq<Event>, e: Event, k: int)
    requires IsFailure(e) && PastZero(FailureWalls(own) + [e.wall])
    requires IsLongestChain(FailureWalls(own) + [e.wall], k, FAILURE_WINDOW_NANOS)
    ensures k == ChainFailures(own + [e])
  {
    FailureWallsSnoc(own, e);
    ChainIsLongest(own + [e]);
    LongestChainIsUnique(FailureWalls(own + [e]), k, ChainFailures(own + [e]), FAILURE_WINDOW_NANOS);
  }

  /** The counter never allows a restart that a sliding window of 60 s would refuse,
      and refuses one that it would allow exactly when the last `retries` failures
      are an overstretched chain. */
  lemma RetriesLikeWindowExactlyWhen(s: State, order: seq<WorkerId>, script: seq<LoopEvent>, id: WorkerId,
                                     retries: u32, o: Outcome, r: Readings)
    requires Fresh(s) && Enumerates(order, s.registered) && id in s.registered
    requires s.registered[id].spec.restart.MaxRetries? && s.registered[id].spec.restart.retries == retries
    requires var h := LoopHead(s, order, script);
      id in h.registered && Busy(h, id) && !Tripped(h.registered[id]) && o != Completed
    requires var ts := FailureWalls(Own(LoopHead(s, order, script).log, id)) + [r.wall];
      PastZero(ts) && Nondecreasing(ts)
    ensures var h := LoopHead(s, order, script);
      var ts := FailureWalls(Own(h.log, id)) + [r.wall];
      var allowed := ShouldRestart(h.registered[id].spec.restart, true, Recorded(h.registered[id], o, r).attempts);
      && (allowed ==> WindowCount(ts, FAILURE_WINDOW_NANOS) < retries)
      && ((allowed <==> WindowCount(ts, FAILURE_WINDOW_NANOS) < retries)
          <==> !Overstretched(ts, retries, FAILURE_WINDOW_NANOS))
  {
    var ts := FailureWalls(Own(LoopHead(s, order, script).log, id)) + [r.wall];
    var k := LongestChain(ts, FAILURE_WINDOW_NANOS);
    AllowsExactlyBelowChain(s, order, script, id, retries, o, r, k);
    if retries > 0 {
      RulesPartExactlyWhen(ts, k, retries, FAILURE_WINDOW_NANOS);
    }
  }

  /** The same against the window the policy is configured with, which the code
      never reads. */
  lemma RetriesAsConfiguredExactlyWhen(s: State, order: seq<WorkerId>, script: seq<LoopEvent>, id: WorkerId,
                                       retries: u32, o: Outcome, r: Readings)
    requires Fresh(s) && Enumerates(order, s.registered) && id in s.registered
    requires s.registered[id].spec.restart.MaxRetries? && s.registered[id].spec.restart.retries == retries > 0
    requires var h := LoopHead(s, order, script);
      id in h.registered && Busy(h, id) && !Tripped(h.registered[id]) && o != Completed
    requires var ts := FailureWalls(Own(LoopHead(s, order, script).log, id)) + [r.wall];
      PastZero(ts) && Nondecreasing(ts)
    ensures var h := LoopHead(s, order, script);
      var ts, window := FailureWalls(Own(h.log, id)) + [r.wall], s.registered[id].spec.restart.window;
      var allowed := ShouldRestart(h.registered[id].spec.restart, true, Recorded(h.registered[id], o, r).attempts);
      (allowed <==> WindowCount(ts, window) < retries)
      <==> (IsChain(ts, retries, FAILURE_WINDOW_NANOS) <==> SpansAtMost(ts, retries, window))
  {
    var ts := FailureWalls(Own(LoopHead(s, order, script).log, id)) + [r.wall];
    var k := LongestChain(ts, FAILURE_WINDOW_NANOS);
    AllowsExactlyBelowChain(s, order, script, id, retries, o, r, k);
    ShorterChain(ts, k, retries, FAILURE_WINDOW_NANOS);
    WindowFillsExactlyWhen(ts, retries, s.registered[id].spec.restart.window);
  }

  // --------------------------------------------------------- building a history

  lemma {:induction false} QuietKeepsWalls(own: seq<Event>, added: seq<Event>)
    requires forall i :: 0 <= i < |added| ==> !IsFailure(added[i])
    ensures FailureWalls(own + added) == FailureWalls(own)
  {
    if added == [] {
      assert own + added == own;
    } else {
      var n := |added| - 1;
      QuietKeepsWalls(own, added[..n]);
      FailureWallsSnoc(own + added[..n], added[n]);
      assert own + added == (own + added[..n]) + [added[n]];
    }
  }

  ghost predicate IsMaxRetriesWorker(s: State, id: WorkerId, retries: u32) {
    id in s.registered && IsMaxRetries(s.registered[id], retries) && !TripsAtOnce(s.registered[id].spec)
  }

  /** The worker runs, its breaker has not opened, and its failures are `ts`. */
  ghost predicate HasFailedAt(h: State, id: WorkerId, ts: seq<nat>) {
    && !h.cancelFired && id in h.registered && Busy(h, id) && !Tripped(h.registered[id])
    && FailureWalls(Own(h.log, id)) == ts
  }

  /** A reading late enough for the breaker to start its count anew. */
  function LateReading(w: Worker, wall: nat): Readings {
    var now := if w.spec.circuit.Some? && w.breaker.lastFailureAt.Some?
               then w.breaker.lastFailureAt.value + w.spec.circuit.value.failureWindow + 1 else 0;
    Readings(now, now, wall, false)
  }

  lemma LateFailureLeavesClosed(w: Worker, wall: nat, id: WorkerId)
    requires !Tripped(w) && !TripsAtOnce(w.spec)
    ensures var next := Recorded(w, Errored, LateReading(w, wall));
      !Tripped(next) && !CircuitOpen(next) && CircuitPart(w, id, Errored, LateReading(w, wall)) == []
  {
  }

  /** One more failure of a running worker: it goes on while the chain is short, and
      stops otherwise. */
  lemma FailOnce(s: State, order: seq<WorkerId>, script: seq<LoopEvent>, id: WorkerId, retries: u32,
                 ts: seq<nat>, wall: nat)
    returns (e: LoopEvent)
    requires Fresh(s) && Enumerates(order, s.registered) && IsMaxRetriesWorker(s, id, retries)
    requires HasFailedAt(LoopHead(s, order, script), id, ts) && PastZero(ts + [wall])
    ensures var h', goesOn := LoopHead(s, order, script + [e]), !IsChain(ts + [wall], retries, FAILURE_WINDOW_NANOS);
      && (goesOn ==> HasFailedAt(h', id, ts + [wall]))
      && (!goesOn ==> id in h'.registered && h'.registered[id].state == Stopped
                      && FailureWalls(Own(h'.log, id)) == ts + [wall])
  {
    var h := LoopHead(s, order, script);
    RetriesAreBounded(s, order, script, id, retries);
    RunExtends(s, order, script);
    EveryLoopHeadIsConsistent(s, order, script);
    var w := h.registered[id];
    var r := LateReading(w, wall);
    var task :| task in h.joinSet && h.joinSet[task] == id;
    e := Join(task, Errored, false, r);
    assert (script + [e])[..|script|] == script && LoopHead(s, order, script + [e]) == Turn(h, e);
    LateFailureDecides(w, Own(h.log, id), id, retries, wall);
    OwnTurn(h, e, id);
    LoopLeavesExactlyWhen(h, e);
  }

  /** What one late failure does to the worker and its events. */
  lemma LateFailureDecides(w: Worker, own: seq<Event>, id: WorkerId, retries: u32, wall: nat)
    requires IsMaxRetries(w, retries) && ChainBounded(w, own, true, retries) && !Tripped(w) && !TripsAtOnce(w.spec)
    requires PastZero(FailureWalls(own) + [wall])
    ensures var r := LateReading(w, wall);
      var next := Recorded(w, Errored, r);
      && !Tripped(next)
      && StateAfter(true, next, r)
         == (if IsChain(FailureWalls(own) + [wall], retries, FAILURE_WINDOW_NANOS) then Stopped else Running)
      && FailureWalls(own + [FailedRun(id, wall)] + CircuitPart(w, id, Errored, r) + Decision(id, true, next, r))
         == FailureWalls(own) + [wall]
  {
    var r, ts := LateReading(w, wall), FailureWalls(own) + [wall];
    var k := LongestChain(ts, FAILURE_WINDOW_NANOS);
    BoundedAllowsBelow(w, own, id, retries, Errored, r, k);
    ShorterChain(ts, k, retries, FAILURE_WINDOW_NANOS);
    LateFailureLeavesClosed(w, wall, id);
    FailureWallsSnoc(own, FailedRun(id, wall));
    var own1 := own + [FailedRun(id, wall)];
    assert own1 + [] == own1;
    QuietKeepsWalls(own1, Decision(id, true, Recorded(w, Errored, r), r));
  }

  lemma NothingFailedAtStart(s: State, order: seq<WorkerId>, id: WorkerId, retries: u32)
    requires Fresh(s) && Enumerates(order, s.registered) && IsMaxRetriesWorker(s, id, retries)
    ensures HasFailedAt(LoopHead(s, order, []), id, [])
  {
    SpawnAllReachesInv(s, order);
    SpawnAllWorkers(s, order);
    SpawnAllOwn(s, order, id);
    FailureWallsSnoc([], Started(id));
    assert [] + [Started(id)] == [Started(id)];
  }

  /** Any failure readings fewer than `retries` are those of some run. */
  lemma {:induction false} FailuresReach(s: State, order: seq<WorkerId>, id: WorkerId, retries: u32, ts: seq<nat>)
    returns (script: seq<LoopEvent>)
    requires Fresh(s) && Enumerates(order, s.registered) && IsMaxRetriesWorker(s, id, retries)
    requires PastZero(ts) && |ts| < retries
    ensures HasFailedAt(LoopHead(s, order, script), id, ts)
  {
    if ts == [] {
      script := [];
      NothingFailedAtStart(s, order, id, retries);
    } else {
      var before, wall := ts[..|ts| - 1], ts[|ts| - 1];
      script := FailuresReach(s, order, id, retries, before);
      assert ts == before + [wall];
      var e := FailOnce(s, order, script, id, retries, before, wall);
      script := script + [e];
    }
  }

  // ------------------------------------------------------- the configured window

  /** When the worker, running and not tripped, fails at this reading, it is allowed a
      restart exactly if fewer than `retries` failures lie in the configured window. */
  ghost predicate DecidesAsConfigured(s: State, order: seq<WorkerId>, script: seq<LoopEvent>, id: WorkerId,
                                      o: Outcome, r: Readings)
    requires id in s.registered && s.registered[id].spec.restart.MaxRetries?
  {
    var h, policy := LoopHead(s, order, script), s.registered[id].spec.restart;
    var ts := FailureWalls(Own(h.log, id)) + [r.wall];
    && id in h.registered && Busy(h, id) && !Tripped(h.registered[id]) && o != Completed
    && PastZero(ts) && Nondecreasing(ts)
    ==> (ShouldRestart(policy, true, Recorded(h.registered[id], o, r).attempts)
         <==> WindowCount(ts, policy.window) < policy.retries)
  }

  /** `n` failures 60 s apart when the window is too short for them, otherwise one gap
      just over 60 s. */
  function Telling(n: nat, window: nat): (ts: seq<nat>)
    ensures |ts| == n
  {
    if window < (n - 1) * FAILURE_WINDOW_NANOS then EvenTimes(1, FAILURE_WINDOW_NANOS, n)
    else seq(n, i => if i == 0 then 1 else FAILURE_WINDOW_NANOS + 2)
  }

  lemma TellingTells(n: nat, window: nat)
    requires n >= 3 || (n == 2 && window != FAILURE_WINDOW_NANOS)
    ensures var ts := Telling(n, window);
      && PastZero(ts) && Nondecreasing(ts)
      && !(IsChain(ts, n, FAILURE_WINDOW_NANOS) <==> SpansAtMost(ts, n, window))
  {
    var ts := Telling(n, window);
    if window < (n - 1) * FAILURE_WINDOW_NANOS {
      EvenTimesChain(1, FAILURE_WINDOW_NANOS, n);
      EvenTimesAt(1, FAILURE_WINDOW_NANOS, n, 0);
      assert forall i :: 0 <= i < n ==> ts[0] <= ts[i];
    } else {
      ScaledOrder(if n == 2 then 1 else 2, n - 1, FAILURE_WINDOW_NANOS);
      assert Elapsed(ts[1], ts[0]) > FAILURE_WINDOW_NANOS;
    }
  }

  /** A breaker that a single failure trips leaves a running worker nothing to count. */
  ghost predicate Untried(s: State, id: WorkerId) {
    && id in s.registered && s.registered[id].spec.restart.MaxRetries? && TripsAtOnce(s.registered[id].spec)
    && (Busy(s, id) && !Tripped(s.registered[id]) ==> FailureWalls(Own(s.log, id)) == [])
  }

  lemma UntriedRunEnds(w: Worker, o: Outcome, r: Readings)
    requires w.spec.restart.MaxRetries? && TripsAtOnce(w.spec) && Consistent(w.spec.circuit.value, w.breaker)
    ensures StateAfter(o != Completed, Recorded(w, o, r), r) == Stopped
  {
  }

  lemma UntriedIsKept(s: State, e: LoopEvent, id: WorkerId)
    requires Inv(s) && Untried(s, id)
    ensures Untried(Turn(s, e), id)
  {
    if JoinsWorker(s, e, id) {
      assert WorkerOk(s, id);
      OwnTurn(s, e, id);
      UntriedRunEnds(s.registered[id], ReportedOutcome(e), e.r);
    } else if !s.cancelFired && e.WatchdogTick? && CircuitOpen(s.registered[id]) {
      WatchdogReleasesExactlyWhenElapsed(s, e.scan, e.timeouts, id);
      WatchdogKeepsChain(s, e.scan, e.timeouts, id);
    } else if !s.cancelFired && e.Join? {
      JoinedLeaves(s, e.task, e.outcome, e.asJoinError, e.r, id);
    } else if !s.cancelFired {
      TurnLeaves(s, e, id);
    }
  }

  lemma {:induction false} StaysUntried(s: State, order: seq<WorkerId>, script: seq<LoopEvent>, id: WorkerId)
    requires Fresh(s) && Enumerates(order, s.registered) && id in s.registered
    requires s.registered[id].spec.restart.MaxRetries? && TripsAtOnce(s.registered[id].spec)
    ensures Untried(LoopHead(s, order, script), id)
    decreases |script|
  {
    if script == [] {
      SpawnAllWorkers(s, order);
      SpawnAllOwn(s, order, id);
      FailureWallsSnoc([], Started(id));
      assert [] + [Started(id)] == [Started(id)];
    } else {
      var before := script[..|script| - 1];
      StaysUntried(s, order, before, id);
      EveryLoopHeadIsConsistent(s, order, before);
      UntriedIsKept(LoopHead(s, order, before), script[|script| - 1], id);
    }
  }

  /** The settings under which code and configured window cannot be told apart. */
  predicate WindowIsMoot(spec: WorkerSpec)
    requires spec.restart.MaxRetries?
  {
    || spec.restart.retries <= 1
    || (spec.restart.retries == 2 && spec.restart.window == FAILURE_WINDOW_NANOS)
    || TripsAtOnce(spec)
  }

  lemma MootSettingsAgree(s: State, order: seq<WorkerId>, script: seq<LoopEvent>, id: WorkerId,
                          o: Outcome, r: Readings)
    requires Fresh(s) && Enumerates(order, s.registered) && id in s.registered
    requires s.registered[id].spec.restart.MaxRetries? && WindowIsMoot(s.registered[id].spec)
    ensures DecidesAsConfigured(s, order, script, id, o, r)
  {
    var h, spec := LoopHead(s, order, script), s.registered[id].spec;
    var ts := FailureWalls(Own(h.log, id)) + [r.wall];
    if id in h.registered && Busy(h, id) && !Tripped(h.registered[id]) && o != Completed
       && PastZero(ts) && Nondecreasing(ts) && spec.restart.retries > 0 {
      RunExtends(s, order, script);
      RetriesAsConfiguredExactlyWhen(s, order, script, id, spec.restart.retries, o, r);
      if TripsAtOnce(spec) {
        StaysUntried(s, order, script, id);
      }
      MootRulesAgree(ts, spec);
    }
  }

  lemma MootRulesAgree(ts: seq<nat>, spec: WorkerSpec)
    requires spec.restart.MaxRetries? && WindowIsMoot(spec) && spec.restart.retries > 0 && ts != []
    requires TripsAtOnce(spec) ==> |ts| == 1
    ensures IsChain(ts, spec.restart.retries, FAILURE_WINDOW_NANOS)
        <==> SpansAtMost(ts, spec.restart.retries, spec.restart.window)
  {
  }

  /** The policy decides by its configured window in every run, at every failure of a
      running worker that has not tripped, exactly when `retries` is at most 1, or is
      2 with a window of 60 s, or a single failure already trips the worker's
      breaker. */
  lemma ConfiguredWindowIsKeptExactlyWhen(s: State, order: seq<WorkerId>, id: WorkerId)
    requires Fresh(s) && Enumerates(order, s.registered) && id in s.registered
    requires s.registered[id].spec.restart.MaxRetries?
    ensures (forall script, o, r :: DecidesAsConfigured(s, order, script, id, o, r))
        <==> WindowIsMoot(s.registered[id].spec)
  {
    if WindowIsMoot(s.registered[id].spec) {
      forall script, o, r ensures DecidesAsConfigured(s, order, script, id, o, r) {
        MootSettingsAgree(s, order, script, id, o, r);
      }
    } else {
      var script, r := TellingRun(s, order, id);
    }
  }

  lemma TellingRun(s: State, order: seq<WorkerId>, id: WorkerId) returns (script: seq<LoopEvent>, r: Readings)
    requires Fresh(s) && Enumerates(order, s.registered) && id in s.registered
    requires s.registered[id].spec.restart.MaxRetries? && !WindowIsMoot(s.registered[id].spec)
    ensures !DecidesAsConfigured(s, order, script, id, Errored, r)
  {
    var policy := s.registered[id].spec.restart;
    var n, ts := policy.retries, Telling(policy.retries, policy.window);
    TellingTells(n, policy.window);
    assert ts == ts[..n - 1] + [ts[n - 1]];
    script := FailuresReach(s, order, id, n, ts[..n - 1]);
    r := Readings(0, 0, ts[n - 1], false);
    RunExtends(s, order, script);
    RetriesAsConfiguredExactlyWhen(s, order, script, id, n, Errored, r);
  }

  // ------------------------------------------------------------------ two inputs

  /** Failures at the given readings stop the worker at the last of them. */
  lemma FailuresStop(s: State, order: seq<WorkerId>, id: WorkerId, retries: u32, ts: seq<nat>)
    returns (script: seq<LoopEvent>)
    requires Fresh(s) && Enumerates(order, s.registered) && IsMaxRetriesWorker(s, id, retries)
    requires PastZero(ts) && |ts| == retries > 0 && IsChain(ts, retries, FAILURE_WINDOW_NANOS)
    ensures var h := LoopHead(s, order, script);
      id in h.registered && h.registered[id].state == Stopped && FailureWalls(Own(h.log, id)) == ts
  {
    var before, wall := ts[..retries - 1], ts[retries - 1];
    assert ts == before + [wall];
    script := FailuresReach(s, order, id, retries, before);
    var e := FailOnce(s, order, script, id, retries, before, wall);
    script := script + [e];
  }

  const FIFTY_SECONDS := 50 * NANOS_PER_SEC

  /** With three retries, three failures 50 s apart stop a worker although only two
      of them lie within 60 s. */
  lemma ThreeFailuresStopOutsideWindow(s: State, order: seq<WorkerId>, id: WorkerId) returns (script: seq<LoopEvent>)
    requires Fresh(s) && Enumerates(order, s.registered) && IsMaxRetriesWorker(s, id, 3)
    ensures var h := LoopHead(s, order, script);
      && id in h.registered && h.registered[id].state == Stopped
      && FailureWalls(Own(h.log, id)) != [] && WindowCount(FailureWalls(Own(h.log, id)), FAILURE_WINDOW_NANOS) == 2
  {
    var a, c := [FIFTY_SECONDS], [FIFTY_SECONDS, 2 * FIFTY_SECONDS];
    var d := [FIFTY_SECONDS, 2 * FIFTY_SECONDS, 3 * FIFTY_SECONDS];
    script := FailuresStop(s, order, id, 3, d);
    assert a[..0] == [] && c[..1] == a && d[..2] == c;
    assert CountWithin(a, 3 * FIFTY_SECONDS, FAILURE_WINDOW_NANOS) == 0;
    assert CountWithin(c, 3 * FIFTY_SECONDS, FAILURE_WINDOW_NANOS) == 1;
  }

  /** With two retries in a configured window of 10 s, two failures 50 s apart stop a
      worker although only one of them lies within that window. */
  lemma TenSecondWindowIsIgnored(s: State, order: seq<WorkerId>, id: WorkerId) returns (script: seq<LoopEvent>)
    requires Fresh(s) && Enumerates(order, s.registered) && IsMaxRetriesWorker(s, id, 2)
    requires s.registered[id].spec.restart.window == 10 * NANOS_PER_SEC
    ensures var h := LoopHead(s, order, script);
      && id in h.registered && h.registered[id].state == Stopped
      && FailureWalls(Own(h.log, id)) != []
      && WindowCount(FailureWalls(Own(h.log, id)), s.registered[id].spec.restart.window) == 1
  {
    var a, c := [FIFTY_SECONDS], [FIFTY_SECONDS, 2 * FIFTY_SECONDS];
    script := FailuresStop(s, order, id, 2, c);
    assert a[..0] == [] && c[..1] == a;
    assert CountWithin(a, 2 * FIFTY_SECONDS, 10 * NANOS_PER_SEC) == 0;
  }
}
