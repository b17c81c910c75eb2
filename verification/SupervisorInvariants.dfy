/** What every loop head of every run keeps: the task tables agree, and each
    breaker agrees with the tasks in flight and with the events emitted. */
module SupervisorInvariants {
  import opened Prelude
  import opened Circuit
  import opened SupervisorModel

  // ------------------------------------------------------------------- tables

  ghost predicate Busy(s: State, id: WorkerId) {
    exists t :: t in s.joinSet && s.joinSet[t] == id
  }

  /** The two tables are one, tasks belong to registered workers, and no worker
      has two. */
  ghost predicate TasksOk(s: State) {
    && s.taskToWorker == s.joinSet
    && (forall t :: t in s.joinSet ==> t < s.nextTask && s.joinSet[t] in s.registered)
    && (forall t, u :: t in s.joinSet && u in s.joinSet && s.joinSet[t] == s.joinSet[u] ==> t == u)
  }

  // ----------------------------------------------------------- circuit events

  predicate IsCircuitEvent(e: Event, id: WorkerId) {
    (e.CircuitOpened? || e.CircuitHalfOpened? || e.CircuitClosed?) && e.id == id
  }

  /** The circuit events of one worker, in emission order. */
  function CircuitLog(log: seq<Event>, id: WorkerId): (r: seq<Event>)
    ensures forall i :: 0 <= i < |r| ==> IsCircuitEvent(r[i], id)
  {
    if log == [] then []
    else
      var before, e := CircuitLog(log[..|log| - 1], id), log[|log| - 1];
      if IsCircuitEvent(e, id) then before + [e] else before
  }

  lemma CircuitLogSnoc(log: seq<Event>, e: Event, id: WorkerId)
    ensures CircuitLog(log + [e], id)
         == if IsCircuitEvent(e, id) then CircuitLog(log, id) + [e] else CircuitLog(log, id)
  {
    assert (log + [e])[..|log|] == log;
  }

  /** The grammar: after an opening only a half-opening, no sooner than the open
      duration; after a half-opening an opening or a closing; otherwise an
      opening. */
  ghost predicate MayFollow(a: Event, b: Event, p: CircuitPolicy) {
    match a
    case CircuitOpened(_, _, cause, _) => b.CircuitHalfOpened? && Elapsed(b.cause, cause) >= p.openDuration
    case CircuitHalfOpened(_, _, _) => b.CircuitOpened? || b.CircuitClosed?
    case _ => b.CircuitOpened?
  }

  ghost predicate Grammatical(evs: seq<Event>, p: CircuitPolicy) {
    && (evs != [] ==> evs[0].CircuitOpened?)
    && forall i :: 1 <= i < |evs| ==> MayFollow(evs[i - 1], evs[i], p)
  }

  /** The last event determines the state of the breaker. */
  ghost predicate LastEventDecides(evs: seq<Event>, b: Breaker) {
    if evs == [] then b.state == Closed
    else match evs[|evs| - 1]
      case CircuitOpened(_, _, cause, _) => b.state == Open && b.openedAt == Some(cause)
      case CircuitHalfOpened(_, _, _) => b.state == HalfOpen
      case _ => b.state == Closed
  }

  // --------------------------------------------------------------- invariants

  /** One breaker against the events of its worker and its tasks in flight. */
  ghost predicate BreakerOk(p: CircuitPolicy, b: Breaker, evs: seq<Event>, busy: bool) {
    && Consistent(p, b)
    && Grammatical(evs, p)
    && LastEventDecides(evs, b)
    && (b.state == Open ==> !busy)
    && (b.state == HalfOpen ==> busy)
  }

  ghost predicate WorkerOk(s: State, id: WorkerId)
    requires id in s.registered
  {
    var w := s.registered[id];
    w.spec.circuit.Some? ==> BreakerOk(w.spec.circuit.value, w.breaker, CircuitLog(s.log, id), Busy(s, id))
  }

  ghost predicate Inv(s: State) {
    TasksOk(s) && forall id :: id in s.registered ==> WorkerOk(s, id)
  }

  /** Between the walk that ticks breakers and the spawn of the trial run: the
      breaker is HalfOpen while its last event is still the opening. */
  ghost predicate BreakerPending(p: CircuitPolicy, b: Breaker, evs: seq<Event>, now: nat) {
    && Consistent(p, b)
    && b.state == HalfOpen
    && Grammatical(evs, p)
    && evs != []
    && evs[|evs| - 1].CircuitOpened?
    && Elapsed(now, evs[|evs| - 1].cause) >= p.openDuration
  }

  ghost predicate Pending(s: State, v: Visit) {
    && v.id in s.registered
    && !Busy(s, v.id)
    && s.registered[v.id].spec.circuit.Some?
    && BreakerPending(s.registered[v.id].spec.circuit.value, s.registered[v.id].breaker,
                      CircuitLog(s.log, v.id), v.now)
  }

  ghost predicate IsPending(rest: seq<Visit>, id: WorkerId) {
    exists i :: 0 <= i < |rest| && rest[i].id == id
  }

  ghost predicate MidInv(s: State, rest: seq<Visit>) {
    && TasksOk(s)
    && (forall i, j :: 0 <= i < j < |rest| ==> rest[i].id != rest[j].id)
    && (forall i :: 0 <= i < |rest| ==> Pending(s, rest[i]))
    && (forall id :: id in s.registered && !IsPending(rest, id) ==> WorkerOk(s, id))
  }

  // ----------------------------------------------------------------- spawning

  lemma SpawnKeepsTasks(s: State, id: WorkerId)
    requires TasksOk(s) && id in s.registered && !Busy(s, id)
    ensures TasksOk(SpawnOne(s, id))
    ensures forall j :: Busy(SpawnOne(s, id), j) <==> Busy(s, j) || j == id
  {
    var s' := SpawnOne(s, id);
    assert s'.joinSet[s.nextTask] == id;
    forall j | Busy(s, j) ensures Busy(s', j) {
      var t :| t in s.joinSet && s.joinSet[t] == j;
      assert t in s'.joinSet && s'.joinSet[t] == j;
    }
  }

  /** Other workers see nothing of an event or a table change that is not theirs. */
  lemma OthersUnaffected(s: State, s': State, id: WorkerId, j: WorkerId, e: Event)
    requires j in s.registered && j in s'.registered && WorkerOk(s, j)
    requires s'.registered[j].spec == s.registered[j].spec && s'.registered[j].breaker == s.registered[j].breaker
    requires Busy(s', j) <==> Busy(s, j)
    requires s'.log == s.log || (s'.log == s.log + [e] && !IsCircuitEvent(e, j))
    ensures WorkerOk(s', j)
  {
    CircuitLogSnoc(s.log, e, j);
  }

  /** Spawning an idle worker whose breaker is not Open keeps the invariant,
      with or without trials still pending. */
  lemma SpawnKeepsMid(s: State, id: WorkerId, rest: seq<Visit>)
    requires MidInv(s, rest) && id in s.registered && !Busy(s, id) && !IsPending(rest, id)
    requires !CircuitOpen(s.registered[id])
    ensures MidInv(SpawnOne(s, id), rest)
  {
    var s' := SpawnOne(s, id);
    SpawnKeepsTasks(s, id);
    forall j | j in s'.registered && !IsPending(rest, j) ensures WorkerOk(s', j) {
      if j != id {
        OthersUnaffected(s, s', id, j, Started(id));
      } else {
        CircuitLogSnoc(s.log, Started(id), id);
      }
    }
    forall i | 0 <= i < |rest| ensures Pending(s', rest[i]) {
      assert rest[i].id != id;
      CircuitLogSnoc(s.log, Started(id), rest[i].id);
    }
  }

  // ------------------------------------------------------------ task outcomes

  /** Removing a joined task leaves its worker idle and everyone else as is. */
  lemma ForgetFreesWorker(s: State, task: TaskId)
    requires TasksOk(s) && task in s.joinSet
    ensures TasksOk(Forget(s, task))
    ensures forall j :: Busy(Forget(s, task), j) <==> Busy(s, j) && j != s.joinSet[task]
  {
    var s' := Forget(s, task);
    assert forall t :: t in s'.joinSet <==> t in s.joinSet && t != task;
    assert forall t :: t in s'.joinSet ==> s'.joinSet[t] == s.joinSet[t];
    forall j | Busy(s, j) && j != s.joinSet[task] ensures Busy(s', j) {
      var t :| t in s.joinSet && s.joinSet[t] == j;
      assert t in s'.joinSet;
    }
    assert forall j :: Busy(s', j) ==> Busy(s, j);
  }

  /** A breaker whose trial or ordinary run has just ended. */
  ghost predicate BreakerJoined(p: CircuitPolicy, b: Breaker, evs: seq<Event>) {
    b.state != Open && Consistent(p, b) && Grammatical(evs, p) && LastEventDecides(evs, b)
  }

  /** A worker whose task was just joined: its breaker is not Open, it is idle,
      and its events still match its breaker. */
  ghost predicate JustJoined(s: State, id: WorkerId) {
    && TasksOk(s) && id in s.registered && !Busy(s, id)
    && (s.registered[id].spec.circuit.Some? ==>
          BreakerJoined(s.registered[id].spec.circuit.value, s.registered[id].breaker, CircuitLog(s.log, id)))
    && forall j :: j in s.registered && j != id ==> WorkerOk(s, j)
  }

  lemma JoinedWorkerIsReady(s: State, task: TaskId, e: Event)
    requires Inv(s) && task in s.joinSet
    requires forall j :: !IsCircuitEvent(e, j)
    ensures JustJoined(Emit(Forget(s, task), e), s.joinSet[task])
  {
    var id := s.joinSet[task];
    var s' := Emit(Forget(s, task), e);
    ForgetFreesWorker(s, task);
    assert Busy(s, id);
    assert forall j :: Busy(s', j) <==> Busy(Forget(s, task), j);
    CircuitLogSnoc(s.log, e, id);
    forall j | j in s'.registered && j != id ensures WorkerOk(s', j) {
      OthersUnaffected(s, s', id, j, e);
    }
  }

  /** The events one recorded outcome adds for its own worker. */
  function OutcomeEvents(b: Breaker, next: Breaker, id: WorkerId, failures: u32, r: Readings): seq<Event> {
    if b.state != Open && next.state == Open then [CircuitOpened(id, failures, r.now, r.stamp)]
    else if b.state == HalfOpen && next.state == Closed then [CircuitClosed(id, r.now, r.stamp)]
    else []
  }

  /** Recording an outcome on a breaker that is not Open leaves it Open or
      Closed, in step with the events it adds. */
  lemma OutcomeKeepsBreaker(p: CircuitPolicy, b: Breaker, evs: seq<Event>, next: Breaker,
                            hasFailed: bool, id: WorkerId, failures: u32, r: Readings)
    requires BreakerJoined(p, b, evs)
    requires next == if hasFailed then RecordFailure(p, b, r.now) else RecordSuccess(b)
    ensures BreakerOk(p, next, evs + OutcomeEvents(b, next, id, failures, r), false)
  {
    var added := OutcomeEvents(b, next, id, failures, r);
    if added == [] {
      assert evs + added == evs;
    } else {
      assert evs != [] ==> MayFollow(evs[|evs| - 1], added[0], p);
    }
  }

  lemma AdvanceCircuitShape(s: State, id: WorkerId, hasFailed: bool, r: Readings)
    requires id in s.registered && s.registered[id].spec.circuit.Some?
    ensures var w, s' := s.registered[id], AdvanceCircuit(s, id, hasFailed, r);
      && var next := if hasFailed then RecordFailure(w.spec.circuit.value, w.breaker, r.now)
                     else RecordSuccess(w.breaker);
      && s'.registered == s.registered[id := w.(breaker := next)]
      && s'.joinSet == s.joinSet && s'.taskToWorker == s.taskToWorker && s'.nextTask == s.nextTask
      && s'.cancelFired == s.cancelFired
      && s'.log == s.log + OutcomeEvents(w.breaker, next, id, SaturatingSucc(w.attempts), r)
  {
  }

  /** One worker's breaker changes together with its own log; the rest of the
      supervisor does not move. */
  lemma BreakerStepRestoresInv(s: State, s': State, id: WorkerId, added: seq<Event>)
    requires JustJoined(s, id) && s.registered[id].spec.circuit.Some?
    requires s'.registered.Keys == s.registered.Keys
    requires forall j :: j in s.registered && j != id ==> s'.registered[j] == s.registered[j]
    requires s'.registered[id].spec == s.registered[id].spec
    requires s'.joinSet == s.joinSet && s'.taskToWorker == s.taskToWorker && s'.nextTask == s.nextTask
    requires s'.log == s.log + added && |added| <= 1
    requires |added| == 1 ==> IsCircuitEvent(added[0], id)
    requires BreakerOk(s.registered[id].spec.circuit.value, s'.registered[id].breaker,
                       CircuitLog(s.log, id) + added, false)
    ensures Inv(s') && !Busy(s', id)
  {
    assert forall j :: Busy(s', j) <==> Busy(s, j);
    forall j | j in s'.registered ensures WorkerOk(s', j) {
      if added == [] {
        assert s'.log == s.log;
        assert CircuitLog(s.log, id) + added == CircuitLog(s.log, id);
      } else {
        assert added == [added[0]];
        CircuitLogSnoc(s.log, added[0], j);
      }
    }
  }

  /** Recording the outcome re-establishes the whole invariant: the breaker is
      now Open or Closed and the worker is idle. */
  lemma AdvanceCircuitRestoresInv(s: State, id: WorkerId, hasFailed: bool, r: Readings)
    requires JustJoined(s, id)
    ensures Inv(AdvanceCircuit(s, id, hasFailed, r))
    ensures !Busy(AdvanceCircuit(s, id, hasFailed, r), id)
  {
    var w := s.registered[id];
    if w.spec.circuit.Some? {
      AdvanceCircuitShape(s, id, hasFailed, r);
      var next := AdvanceCircuit(s, id, hasFailed, r).registered[id].breaker;
      OutcomeKeepsBreaker(w.spec.circuit.value, w.breaker, CircuitLog(s.log, id), next, hasFailed, id,
                          SaturatingSucc(w.attempts), r);
      BreakerStepRestoresInv(s, AdvanceCircuit(s, id, hasFailed, r), id,
                             OutcomeEvents(w.breaker, next, id, SaturatingSucc(w.attempts), r));
    } else {
      assert forall j :: j in s.registered ==> WorkerOk(s, j);
    }
  }

  lemma PutKeepsInv(s: State, id: WorkerId, w: Worker)
    requires Inv(s) && id in s.registered
    requires w.spec == s.registered[id].spec && w.breaker == s.registered[id].breaker
    ensures Inv(Put(s, id, w))
    ensures forall j :: Busy(Put(s, id, w), j) <==> Busy(s, j)
  {
    var s' := Put(s, id, w);
    forall j | j in s'.registered ensures WorkerOk(s', j) {
      OthersUnaffected(s, s', id, j, Started(0));
    }
  }

  lemma EmitKeepsInv(s: State, e: Event)
    requires Inv(s) && forall j :: !IsCircuitEvent(e, j)
    ensures Inv(Emit(s, e))
    ensures forall j :: Busy(Emit(s, e), j) <==> Busy(s, j)
  {
    var s' := Emit(s, e);
    forall j | j in s'.registered ensures WorkerOk(s', j) {
      OthersUnaffected(s, s', 0, j, e);
    }
  }

  lemma RestartKeepsInv(s: State, id: WorkerId, w: Worker, r: Readings)
    requires Inv(s) && id in s.registered && !Busy(s, id) && !CircuitOpen(w)
    requires w.spec == s.registered[id].spec && w.breaker == s.registered[id].breaker
    ensures Inv(Restart(s, id, w, r))
  {
    var s1 := Put(s, id, w.(state := Restarting));
    PutKeepsInv(s, id, w.(state := Restarting));
    if CancelledInBackoff(w, r) {
      var s2 := s1.(cancelFired := true);
      assert forall j :: Busy(s2, j) <==> Busy(s1, j);
      assert forall j :: j in s2.registered ==> WorkerOk(s1, j) && (WorkerOk(s2, j) <==> WorkerOk(s1, j));
    } else {
      var e := Restarted(id, SaturatingSucc(w.attempts));
      EmitKeepsInv(s1, e);
      InvIsMid(Emit(s1, e));
      SpawnKeepsMid(Emit(s1, e), id, []);
      InvIsMid(SpawnOne(Emit(s1, e), id));
    }
  }

  lemma StopKeepsInv(s: State, id: WorkerId, w: Worker, hasFailed: bool)
    requires Inv(s) && id in s.registered
    requires w.spec == s.registered[id].spec && w.breaker == s.registered[id].breaker
    ensures Inv(Stop(s, id, w, hasFailed))
  {
    var s1 := Put(s, id, w.(state := Stopped));
    PutKeepsInv(s, id, w.(state := Stopped));
    EmitKeepsInv(s1, Ended(id));
    var s2 := Emit(s1, Ended(id));
    if hasFailed {
      match w.spec.criticality
      case Critical => EmitKeepsInv(s2, ShutdownSignalled(id));
      case Essential => EmitKeepsInv(s2, HealthUnhealthy(id));
      case Optional => EmitKeepsInv(s2, HealthDegraded(id));
      case Background =>
    }
  }

  lemma InvIsMid(s: State)
    ensures MidInv(s, []) <==> Inv(s)
  {
    assert forall id :: !IsPending([], id);
  }

  lemma MaybeRestartRestoresInv(s: State, id: WorkerId, hasFailed: bool, r: Readings)
    requires JustJoined(s, id)
    ensures Inv(MaybeRestart(s, id, hasFailed, r))
  {
    var s1 := AdvanceCircuit(s, id, hasFailed, r);
    AdvanceCircuitRestoresInv(s, id, hasFailed, r);
    var w := Account(s1.registered[id], hasFailed, r.wall);
    if Restarts(w, hasFailed) {
      RestartKeepsInv(s1, id, w, r);
    } else {
      StopKeepsInv(s1, id, w, hasFailed);
    }
  }

  lemma JoinedKeepsInv(s: State, task: TaskId, o: Outcome, asJoinError: bool, r: Readings)
    requires Inv(s)
    ensures Inv(Joined(s, task, o, asJoinError, r))
  {
    if task in s.joinSet {
      var id := s.joinSet[task];
      var o' := if asJoinError then PanickedOut else o;
      var e := OutcomeEvent(id, o', r.wall);
      JoinedWorkerIsReady(s, task, e);
      MaybeRestartRestoresInv(Emit(Forget(s, task), e), id, o' != Completed, r);
    }
  }

  // ------------------------------------------------------------ watchdog tick

  lemma TickWithoutPromotion(s: State, v: Visit)
    requires !Promotes(s, v)
    ensures TickOne(s, v) == s
  {
    if v.id in s.registered {
      assert s.registered[v.id := s.registered[v.id]] == s.registered;
    }
  }

  /** Promoting an Open breaker turns its worker into a pending one. */
  lemma TickPromotes(s: State, v: Visit, done: seq<Visit>)
    requires MidInv(s, done) && Promotes(s, v)
    ensures MidInv(TickOne(s, v), done + [v])
  {
    var s' := TickOne(s, v);
    var rest := done + [v];
    assert forall j :: Busy(s', j) <==> Busy(s, j);
    assert forall i :: 0 <= i < |done| ==> done[i].id != v.id;
    assert !IsPending(done, v.id);
    assert WorkerOk(s, v.id);
    assert Pending(s', v);
    forall i | 0 <= i < |rest| ensures Pending(s', rest[i]) {
      if i < |done| {
        assert Pending(s, done[i]);
      }
    }
    forall j | j in s'.registered && !IsPending(rest, j) ensures WorkerOk(s', j) {
      assert rest[|done|].id != j;
      assert forall i :: 0 <= i < |done| ==> done[i] == rest[i];
      assert !IsPending(done, j);
      OthersUnaffected(s, s', v.id, j, Started(0));
    }
  }

  lemma {:induction false} TickAllReachesMid(s: State, scan: seq<Visit>)
    requires Inv(s)
    ensures MidInv(TickAll(s, scan), Promoted(s, scan))
  {
    if scan == [] {
      InvIsMid(s);
    } else {
      var before, v := scan[..|scan| - 1], scan[|scan| - 1];
      TickAllReachesMid(s, before);
      if Promotes(TickAll(s, before), v) {
        TickPromotes(TickAll(s, before), v, Promoted(s, before));
      } else {
        TickWithoutPromotion(TickAll(s, before), v);
        assert Promoted(s, scan) == Promoted(s, before);
      }
    }
  }

  lemma TrialKeepsBreaker(p: CircuitPolicy, b: Breaker, evs: seq<Event>, v: Visit)
    requires BreakerPending(p, b, evs, v.now)
    ensures BreakerOk(p, b, evs + [TrialEvent(v)], true)
  {
    assert MayFollow(evs[|evs| - 1], TrialEvent(v), p);
  }

  /** Worker `j` looks the same in both states. */
  ghost predicate SameFor(s: State, s': State, j: WorkerId) {
    && j in s.registered && j in s'.registered
    && s'.registered[j].spec == s.registered[j].spec
    && s'.registered[j].breaker == s.registered[j].breaker
    && CircuitLog(s'.log, j) == CircuitLog(s.log, j)
    && (Busy(s', j) <==> Busy(s, j))
  }

  lemma TrialEffect(s: State, v: Visit)
    requires TasksOk(s) && Pending(s, v)
    ensures var s' := SpawnOne(Emit(s, TrialEvent(v)), v.id);
      && TasksOk(s') && Busy(s', v.id)
      && s'.registered.Keys == s.registered.Keys
      && s'.registered[v.id].spec == s.registered[v.id].spec
      && s'.registered[v.id].breaker == s.registered[v.id].breaker
      && CircuitLog(s'.log, v.id) == CircuitLog(s.log, v.id) + [TrialEvent(v)]
      && forall j :: j in s.registered && j != v.id ==> SameFor(s, s', j)
  {
    var e := TrialEvent(v);
    var s1 := Emit(s, e);
    assert forall j :: Busy(s1, j) <==> Busy(s, j);
    SpawnKeepsTasks(s1, v.id);
    forall j
      ensures CircuitLog(SpawnOne(s1, v.id).log, j)
           == if j == v.id then CircuitLog(s.log, j) + [e] else CircuitLog(s.log, j)
    {
      CircuitLogSnoc(s.log, e, j);
      CircuitLogSnoc(s1.log, Started(v.id), j);
    }
  }

  /** Once one pending trial is announced and running, only the rest is pending. */
  lemma MidAdvances(s: State, s': State, v: Visit, rest: seq<Visit>)
    requires MidInv(s, [v] + rest)
    requires TasksOk(s') && s'.registered.Keys == s.registered.Keys
    requires v.id in s.registered && WorkerOk(s', v.id)
    requires forall j :: j in s.registered && j != v.id ==> SameFor(s, s', j)
    ensures MidInv(s', rest)
  {
    var all := [v] + rest;
    assert all[0] == v && forall i :: 0 <= i < |rest| ==> rest[i] == all[i + 1];
    forall i | 0 <= i < |rest| ensures Pending(s', rest[i]) {
      assert all[0].id != all[i + 1].id && Pending(s, all[i + 1]);
      PendingIsKept(s, s', rest[i]);
    }
    forall j | j in s'.registered && !IsPending(rest, j) ensures WorkerOk(s', j) {
      if j != v.id {
        NotPending(v, rest, j);
        WorkerIsKept(s, s', j);
      }
    }
  }

  lemma PendingIsKept(s: State, s': State, v: Visit)
    requires SameFor(s, s', v.id) && Pending(s, v)
    ensures Pending(s', v)
  {
  }

  lemma WorkerIsKept(s: State, s': State, j: WorkerId)
    requires SameFor(s, s', j) && WorkerOk(s, j)
    ensures WorkerOk(s', j)
  {
  }

  /** Announcing one pending trial and spawning it completes it. */
  lemma TrialCompletes(s: State, v: Visit, rest: seq<Visit>)
    requires MidInv(s, [v] + rest)
    ensures MidInv(SpawnOne(Emit(s, TrialEvent(v)), v.id), rest)
  {
    assert ([v] + rest)[0] == v && Pending(s, v);
    TrialEffect(s, v);
    TrialKeepsBreaker(s.registered[v.id].spec.circuit.value, s.registered[v.id].breaker, CircuitLog(s.log, v.id), v);
    MidAdvances(s, SpawnOne(Emit(s, TrialEvent(v)), v.id), v, rest);
  }

  lemma NotPending(v: Visit, rest: seq<Visit>, j: WorkerId)
    requires !IsPending(rest, j) && j != v.id
    ensures !IsPending([v] + rest, j)
  {
    var all := [v] + rest;
    assert forall i :: 0 <= i < |rest| ==> rest[i] == all[i + 1];
    assert forall i :: 1 <= i < |all| ==> all[i] == rest[i - 1];
  }

  /** The idle check before a trial run always finds the worker idle. */
  lemma IdleCheckSucceeds(s: State, v: Visit, rest: seq<Visit>)
    requires MidInv(s, [v] + rest)
    ensures SpawnIfIdle(Emit(s, TrialEvent(v)), v.id) == SpawnOne(Emit(s, TrialEvent(v)), v.id)
  {
    assert ([v] + rest)[0] == v && Pending(s, v);
    assert forall t :: t in s.taskToWorker && s.taskToWorker[t] == v.id ==> Busy(s, v.id);
  }

  /** Trials started without consulting the idle check. */
  function StartTrialsUnchecked(s: State, promoted: seq<Visit>): State {
    if promoted == [] then s
    else
      var v := promoted[|promoted| - 1];
      SpawnOne(Emit(StartTrialsUnchecked(s, promoted[..|promoted| - 1]), TrialEvent(v)), v.id)
  }

  /** One more trial: the unfolding of the two walks at position `k`. */
  lemma StartTrialsStep(s: State, promoted: seq<Visit>, k: nat)
    requires 0 < k <= |promoted|
    ensures var v := promoted[k - 1];
      && StartTrials(s, promoted[..k]) == SpawnIfIdle(Emit(StartTrials(s, promoted[..k - 1]), TrialEvent(v)), v.id)
      && StartTrialsUnchecked(s, promoted[..k])
         == SpawnOne(Emit(StartTrialsUnchecked(s, promoted[..k - 1]), TrialEvent(v)), v.id)
      && promoted[k - 1..] == [v] + promoted[k..]
  {
    assert promoted[..k][..k - 1] == promoted[..k - 1];
  }

  lemma TrialStep(s: State, v: Visit, rest: seq<Visit>)
    requires MidInv(s, [v] + rest)
    ensures MidInv(SpawnIfIdle(Emit(s, TrialEvent(v)), v.id), rest)
    ensures SpawnIfIdle(Emit(s, TrialEvent(v)), v.id) == SpawnOne(Emit(s, TrialEvent(v)), v.id)
  {
    TrialCompletes(s, v, rest);
    IdleCheckSucceeds(s, v, rest);
  }

  lemma {:induction false} StartTrialsConsumes(s: State, promoted: seq<Visit>, k: nat)
    requires k <= |promoted| && MidInv(s, promoted)
    ensures MidInv(StartTrials(s, promoted[..k]), promoted[k..])
    ensures StartTrials(s, promoted[..k]) == StartTrialsUnchecked(s, promoted[..k])
  {
    if k == 0 {
      assert promoted[0..] == promoted;
    } else {
      StartTrialsConsumes(s, promoted, k - 1);
      StartTrialsStep(s, promoted, k);
      TrialStep(StartTrials(s, promoted[..k - 1]), promoted[k - 1], promoted[k..]);
    }
  }

  lemma {:induction false} TimeOutsKeepInv(s: State, timeouts: seq<WorkerId>)
    requires Inv(s)
    ensures Inv(TimeOutAll(s, timeouts))
  {
    if timeouts != [] {
      var before, id := timeouts[..|timeouts| - 1], timeouts[|timeouts| - 1];
      TimeOutsKeepInv(s, before);
      EmitKeepsInv(TimeOutAll(s, before), TimedOut(id));
      var s1 := Emit(TimeOutAll(s, before), TimedOut(id));
      if id in s1.registered {
        PutKeepsInv(s1, id, s1.registered[id].(tokenCancelled := true));
      }
    }
  }

  lemma WatchdogKeepsInv(s: State, scan: seq<Visit>, timeouts: seq<WorkerId>)
    requires Inv(s)
    ensures Inv(Watchdog(s, scan, timeouts))
  {
    var promoted := Promoted(s, scan);
    TickAllReachesMid(s, scan);
    StartTrialsConsumes(TickAll(s, scan), promoted, |promoted|);
    assert promoted[..|promoted|] == promoted && promoted[|promoted|..] == [];
    var s1 := StartTrials(TickAll(s, scan), promoted);
    InvIsMid(s1);
    TimeOutsKeepInv(s1, timeouts);
  }

  // --------------------------------------------------------------- whole runs

  lemma TurnKeepsInv(s: State, e: LoopEvent)
    requires Inv(s)
    ensures Inv(Turn(s, e))
  {
    if !s.cancelFired {
      match e
      case Join(task, o, asJoinError, r) => JoinedKeepsInv(s, task, o, asJoinError, r);
      case WatchdogTick(scan, timeouts) => WatchdogKeepsInv(s, scan, timeouts);
    }
  }

  lemma {:induction false} SpawnAllWorkers(s: State, order: seq<WorkerId>)
    requires forall id :: id in order ==> id in s.registered
    ensures SpawnAll(s, order).registered.Keys == s.registered.Keys
    ensures SpawnAll(s, order).cancelFired == s.cancelFired
    ensures forall id :: id in s.registered ==>
      SpawnAll(s, order).registered[id]
      == if id in order then s.registered[id].(state := Running) else s.registered[id]
  {
    if order != [] {
      var before, id := order[..|order| - 1], order[|order| - 1];
      SpawnAllWorkers(s, before);
      assert order == before + [id];
    }
  }

  /** A spawn that is not the last of a walk finds its worker idle and untripped. */
  lemma SpawnKeepsInv(s: State, id: WorkerId)
    requires Inv(s) && id in s.registered && !Busy(s, id) && !CircuitOpen(s.registered[id])
    ensures Inv(SpawnOne(s, id))
    ensures forall j :: Busy(SpawnOne(s, id), j) <==> Busy(s, j) || j == id
  {
    SpawnKeepsTasks(s, id);
    InvIsMid(s);
    assert !IsPending([], id);
    SpawnKeepsMid(s, id, []);
    InvIsMid(SpawnOne(s, id));
  }

  lemma FreshIsConsistent(s: State)
    requires Fresh(s)
    ensures Inv(s) && forall id :: !Busy(s, id)
  {
    assert forall id :: CircuitLog(s.log, id) == [];
  }

  lemma {:induction false} SpawnAllReachesInv(s: State, order: seq<WorkerId>)
    requires Fresh(s) && Distinct(order) && forall id :: id in order ==> id in s.registered
    ensures Inv(SpawnAll(s, order))
    ensures forall id :: Busy(SpawnAll(s, order), id) <==> id in order
  {
    if order == [] {
      FreshIsConsistent(s);
    } else {
      var before, id := order[..|order| - 1], order[|order| - 1];
      SpawnAllReachesInv(s, before);
      SpawnAllWorkers(s, before);
      assert order == before + [id];
      SpawnKeepsInv(SpawnAll(s, before), id);
    }
  }

  lemma {:induction false} TurnsKeepInv(s: State, script: seq<LoopEvent>)
    requires Inv(s)
    ensures Inv(Turns(s, script))
  {
    if script != [] {
      TurnsKeepInv(s, script[..|script| - 1]);
      TurnKeepsInv(Turns(s, script[..|script| - 1]), script[|script| - 1]);
    }
  }

  /** At every loop head of a first run, whatever the outcomes, clocks, walk
      orders and timeouts were, the invariant holds. */
  lemma EveryLoopHeadIsConsistent(s: State, order: seq<WorkerId>, script: seq<LoopEvent>)
    requires Fresh(s) && Enumerates(order, s.registered)
    ensures Inv(LoopHead(s, order, script))
  {
    SpawnAllReachesInv(s, order);
    TurnsKeepInv(SpawnAll(s, order), script);
  }
}
