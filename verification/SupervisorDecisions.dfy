/** What the end of a run leads to, read off the worker's specification, its breaker
    and the failures logged so far: who runs again, what is counted and what is
    reported. The breaker itself is that of the calls the script made on it. */
module SupervisorDecisions {
  import opened Prelude
  import opened Circuit
  import opened Policies
  import opened SupervisorModel
  import opened SupervisorInvariants
  import opened SupervisorRestarts
  import opened SupervisorRetries
  import opened SupervisorTheorems

  // ------------------------------------------------------------------- counting

  /** The cells of the failure counter agree with the failures in the log. */
  ghost predicate CountsChain(w: Worker, own: seq<Event>) {
    w.lastFailureNanos == LastFailure(own) && w.failuresInWindow == WrapU32(ChainFailures(own))
  }

  /** The outcome is counted before anything is decided. */
  lemma OutcomeIsCounted(w: Worker, own: seq<Event>, id: WorkerId, o: Outcome, r: Readings)
    requires CountsChain(w, own)
    ensures var next, own1 := Recorded(w, o, r), own + [OutcomeEvent(id, o, r.wall)];
      && next.spec == w.spec && CountsChain(next, own1)
      && next.attempts == if o == Completed then 0 else WrapU32(ChainFailures(own1))
  {
    ChainSnoc(own, OutcomeEvent(id, o, r.wall));
    WrapSucc(ChainFailures(own));
  }

  lemma EndIsCounted(w: Worker, own: seq<Event>, id: WorkerId, o: Outcome, r: Readings)
    requires CountsChain(w, own)
    ensures var next, own1 := Recorded(w, o, r), own + [OutcomeEvent(id, o, r.wall)];
      CountsChain(next, own1 + CircuitPart(w, id, o, r) + Decision(id, o != Completed, next, r))
  {
    var own1 := own + [OutcomeEvent(id, o, r.wall)];
    OutcomeIsCounted(w, own, id, o, r);
    QuietAppend(own1, CircuitPart(w, id, o, r));
    DecisionChain(own1 + CircuitPart(w, id, o, r), id, o != Completed, Recorded(w, o, r), r);
  }

  lemma StartIsCounted(w: Worker, id: WorkerId)
    requires w.lastFailureNanos == 0 && w.failuresInWindow == 0
    ensures CountsChain(w, [Started(id)])
  {
    ChainSnoc([], Started(id));
    assert [] + [Started(id)] == [Started(id)];
  }

  lemma CountIsKept(s: State, e: LoopEvent, id: WorkerId)
    requires Inv(s) && id in s.registered && CountsChain(s.registered[id], Own(s.log, id))
    ensures id in Turn(s, e).registered && CountsChain(Turn(s, e).registered[id], Own(Turn(s, e).log, id))
  {
    if JoinsWorker(s, e, id) {
      OwnTurn(s, e, id);
      EndIsCounted(s.registered[id], Own(s.log, id), id, ReportedOutcome(e), e.r);
    } else if !s.cancelFired && e.WatchdogTick? {
      WatchdogKeepsChain(s, e.scan, e.timeouts, id);
    } else if !s.cancelFired {
      JoinedLeaves(s, e.task, e.outcome, e.asJoinError, e.r, id);
    }
  }

  /** In every run, under every policy, the counter of a worker holds the number of
      failures in its current chain and the wall-clock reading of the last one. */
  lemma {:induction false} EveryFailureIsCounted(
    s: State, order: seq<WorkerId>, script: seq<LoopEvent>, id: WorkerId)
    requires Fresh(s) && Enumerates(order, s.registered) && id in s.registered
    ensures var h := LoopHead(s, order, script); id in h.registered && CountsChain(h.registered[id], Own(h.log, id))
    decreases |script|
  {
    if script == [] {
      EveryoneIsStarted(s, order, id);
      StartIsCounted(FreshWorker(s.registered[id].spec).(state := Running), id);
    } else {
      var before := script[..|script| - 1];
      EveryFailureIsCounted(s, order, before, id);
      EveryLoopHeadIsConsistent(s, order, before);
      CountIsKept(LoopHead(s, order, before), script[|script| - 1], id);
    }
  }

  /** When the loop is entered every worker runs its first task and has been started
      once, and nothing else has happened to it. */
  lemma EveryoneIsStarted(s: State, order: seq<WorkerId>, id: WorkerId)
    requires Fresh(s) && Enumerates(order, s.registered) && id in s.registered
    ensures var h := LoopHead(s, order, []);
      && id in h.registered && Busy(h, id) && h.registered[id] == s.registered[id].(state := Running)
      && Own(h.log, id) == [Started(id)]
  {
    SpawnAllReachesInv(s, order);
    SpawnAllWorkers(s, order);
    SpawnAllOwn(s, order, id);
  }

  // ------------------------------------------------------------------- breakers

  predicate Fails(e: LoopEvent)
    requires e.Join?
  {
    e.asJoinError || e.outcome != Completed
  }

  /** The ticks a walk makes on the breaker of `id`. */
  function TicksOf(scan: seq<Visit>, id: WorkerId): seq<Call> {
    if scan == [] then []
    else
      var v := scan[|scan| - 1];
      TicksOf(scan[..|scan| - 1], id) + if v.id == id then [Ticked(v.now)] else []
  }

  /** What one turn calls on the breaker of `id`. */
  function CallsInTurn(s: State, e: LoopEvent, id: WorkerId): seq<Call> {
    if s.cancelFired then []
    else
      match e
      case Join(task, _, _, r) =>
        if task !in s.joinSet || s.joinSet[task] != id then []
        else if Fails(e) then [Failure(r.now)] else [Success]
      case WatchdogTick(scan, _) => TicksOf(scan, id)
  }

  /** Every call on the breaker of `id` since the loop was entered in `s`. */
  function BreakerCalls(s: State, script: seq<LoopEvent>, id: WorkerId): seq<Call> {
    if script == [] then []
    else
      var before := script[..|script| - 1];
      BreakerCalls(s, before, id) + CallsInTurn(Turns(s, before), script[|script| - 1], id)
  }

  ghost predicate BreakerIs(s: State, id: WorkerId, p: CircuitPolicy, calls: seq<Call>) {
    id in s.registered && s.registered[id].spec.circuit == Some(p) && s.registered[id].breaker == After(p, calls)
  }

  lemma AfterSnoc(p: CircuitPolicy, calls: seq<Call>, c: Call)
    ensures After(p, calls + [c]) == Apply(p, After(p, calls), c)
  {
    assert (calls + [c])[..|calls|] == calls;
  }

  lemma {:induction false} TickAllTicks(s: State, scan: seq<Visit>, id: WorkerId, p: CircuitPolicy, calls: seq<Call>)
    requires BreakerIs(s, id, p, calls)
    ensures BreakerIs(TickAll(s, scan), id, p, calls + TicksOf(scan, id))
  {
    if scan == [] {
      assert calls + TicksOf(scan, id) == calls;
    } else {
      var before, v := scan[..|scan| - 1], scan[|scan| - 1];
      TickAllTicks(s, before, id, p, calls);
      if v.id == id {
        AfterSnoc(p, calls + TicksOf(before, id), Ticked(v.now));
        assert calls + TicksOf(scan, id) == (calls + TicksOf(before, id)) + [Ticked(v.now)];
      } else {
        assert TicksOf(scan, id) == TicksOf(before, id);
      }
    }
  }

  lemma TurnCallsBreaker(s: State, e: LoopEvent, id: WorkerId, p: CircuitPolicy, calls: seq<Call>)
    requires Inv(s) && BreakerIs(s, id, p, calls)
    ensures BreakerIs(Turn(s, e), id, p, calls + CallsInTurn(s, e, id))
  {
    if JoinsWorker(s, e, id) {
      OwnTurn(s, e, id);
      AfterSnoc(p, calls, if Fails(e) then Failure(e.r.now) else Success);
    } else if !s.cancelFired && e.WatchdogTick? {
      var promoted := Promoted(s, e.scan);
      TickAllTicks(s, e.scan, id, p, calls);
      TrialsKeepBreaker(TickAll(s, e.scan), promoted, id);
      TimeOutsLeave(StartTrials(TickAll(s, e.scan), promoted), e.timeouts, id);
    } else {
      assert calls + CallsInTurn(s, e, id) == calls;
      if !s.cancelFired {
        JoinedLeaves(s, e.task, e.outcome, e.asJoinError, e.r, id);
      }
    }
  }

  /** In every run, each breaker is the one reached by the calls the script makes on
      it: a failure or success for each end of its worker's runs, and its ticks. */
  lemma {:induction false} BreakersFollowTheirCalls(
    s: State, order: seq<WorkerId>, script: seq<LoopEvent>, id: WorkerId, p: CircuitPolicy)
    requires Fresh(s) && Enumerates(order, s.registered) && id in s.registered
    requires s.registered[id].spec.circuit == Some(p)
    ensures BreakerIs(LoopHead(s, order, script), id, p, BreakerCalls(SpawnAll(s, order), script, id))
    decreases |script|
  {
    if script == [] {
      SpawnAllWorkers(s, order);
    } else {
      var before, s0 := script[..|script| - 1], SpawnAll(s, order);
      BreakersFollowTheirCalls(s, order, before, id, p);
      EveryLoopHeadIsConsistent(s, order, before);
      TurnCallsBreaker(LoopHead(s, order, before), script[|script| - 1], id, p, BreakerCalls(s0, before, id));
    }
  }

  // ------------------------------------------------------------------ decisions

  /** The end event of a run, as the environment reports it. */
  function EndEvent(e: LoopEvent, id: WorkerId): Event
    requires e.Join?
  {
    if e.asJoinError || e.outcome.PanickedOut? then PanickedRun(id, e.r.wall)
    else if e.outcome.Errored? then FailedRun(id, e.r.wall) else Ended(id)
  }

  /** The attempt number: failures in the chain the run ended, zero after a success. */
  function AttemptNumber(own: seq<Event>, e: LoopEvent, id: WorkerId): u32
    requires e.Join?
  {
    if Fails(e) then WrapU32(ChainFailures(own + [EndEvent(e, id)])) else 0
  }

  /** The policy asks for another run. */
  predicate AsksAgain(spec: WorkerSpec, failed: bool, number: u32) {
    || spec.restart == Always
    || (spec.restart == OnFailure && failed)
    || (spec.restart.MaxRetries? && failed && number < spec.restart.retries)
  }

  /** What the end of a run of worker `id` in `h` has done in `h'`: `again` says that
      the worker runs again, `interrupted` that cancellation was seen in its backoff. */
  ghost predicate EndedRightly(h: State, e: LoopEvent, id: WorkerId, h': State)
    requires e.Join? && id in h.registered && id in h'.registered
  {
    var w, w' := h.registered[id], h'.registered[id];
    var own, number := Own(h.log, id), AttemptNumber(Own(h.log, id), e, id);
    var tripped := w.spec.circuit.Some? && w'.breaker.state == Open;
    var asked := AsksAgain(w.spec, Fails(e), number) && !tripped;
    var interrupted := asked && e.r.cancelInBackoff && AsNanos(Delay(w.spec.backoff, number)) != 0;
    var again := asked && !interrupted;
    && (Busy(h', id) <==> again)
    && (h'.cancelFired <==> interrupted)
    && w'.state == (if again then Running else if interrupted then Restarting else Stopped)
    && w'.attempts == number
    && Starts(Own(h'.log, id)) == Starts(own) + (if again then 1 else 0)
    && Own(h'.log, id) == own + [EndEvent(e, id)] + BreakerReport(w, w'.breaker, id, e.r)
         + (if again then [Restarted(id, Min(number + 1, U32_SIZE - 1)), Started(id)]
            else if interrupted then []
            else [Ended(id)] + if Fails(e) then Escalation(w.spec.criticality, id) else [])
  }

  /** What is reported of a breaker whose worker's run ended. */
  function BreakerReport(w: Worker, next: Breaker, id: WorkerId, r: Readings): seq<Event> {
    if w.spec.circuit.None? || next.state == w.breaker.state then []
    else if next.state == Open then [CircuitOpened(id, Min(w.attempts + 1, U32_SIZE - 1), r.now, r.stamp)]
    else [CircuitClosed(id, r.now, r.stamp)]
  }

  /** What a worker that stops on a failure sets off. */
  function Escalation(c: Criticality, id: WorkerId): seq<Event> {
    if c == Critical then [ShutdownSignalled(id)]
    else if c == Essential then [HealthUnhealthy(id)]
    else if c == Optional then [HealthDegraded(id)]
    else []
  }

  /** The accounted worker carries the attempt number, and its breaker the report. */
  lemma AccountIsRight(w: Worker, own: seq<Event>, e: LoopEvent, id: WorkerId)
    requires e.Join? && CountsChain(w, own) && !CircuitOpen(w)
    ensures var o, next := ReportedOutcome(e), Recorded(w, ReportedOutcome(e), e.r);
      && OutcomeEvent(id, o, e.r.wall) == EndEvent(e, id)
      && next.spec == w.spec && next.attempts == AttemptNumber(own, e, id)
      && CircuitPart(w, id, o, e.r) == BreakerReport(w, next.breaker, id, e.r)
  {
    OutcomeIsCounted(w, own, id, ReportedOutcome(e), e.r);
  }

  /** The decision about an accounted worker. */
  lemma DecisionIsRight(w: Worker, e: LoopEvent, id: WorkerId)
    requires e.Join?
    ensures var asked := AsksAgain(w.spec, Fails(e), w.attempts) && !CircuitOpen(w);
      var interrupted := asked && e.r.cancelInBackoff && AsNanos(Delay(w.spec.backoff, w.attempts)) != 0;
      && StateAfter(Fails(e), w, e.r) == (if !asked then Stopped else if interrupted then Restarting else Running)
      && Decision(id, Fails(e), w, e.r)
         == (if asked && !interrupted then [Restarted(id, Min(w.attempts + 1, U32_SIZE - 1)), Started(id)]
             else if interrupted then []
             else [Ended(id)] + if Fails(e) then Escalation(w.spec.criticality, id) else [])
  {
    assert Restarts(w, Fails(e)) <==> AsksAgain(w.spec, Fails(e), w.attempts) && !CircuitOpen(w);
  }

  /** `h'` is what recording, accounting for and deciding on the end leads to. */
  ghost predicate EndedBy(h: State, e: LoopEvent, id: WorkerId, h': State)
    requires e.Join? && id in h.registered && id in h'.registered
  {
    var w, o := h.registered[id], ReportedOutcome(e);
    var next := Recorded(w, o, e.r);
    var after := StateAfter(o != Completed, next, e.r);
    && h'.registered[id] == next.(state := after)
    && (Busy(h', id) <==> after == Running) && (h'.cancelFired <==> after == Restarting)
    && Own(h'.log, id) == Own(h.log, id) + [OutcomeEvent(id, o, e.r.wall)] + CircuitPart(w, id, o, e.r)
         + Decision(id, o != Completed, next, e.r)
  }

  lemma TurnEnds(s: State, e: LoopEvent, id: WorkerId)
    requires Inv(s) && id in s.registered && JoinsWorker(s, e, id)
    ensures id in Turn(s, e).registered && EndedBy(s, e, id, Turn(s, e)) && !CircuitOpen(s.registered[id])
  {
    assert WorkerOk(s, id) && Busy(s, id);
    OwnTurn(s, e, id);
    LoopLeavesExactlyWhen(s, e);
  }

  lemma EndDecides(h: State, e: LoopEvent, id: WorkerId, h': State)
    requires e.Join? && id in h.registered && id in h'.registered && EndedBy(h, e, id, h')
    requires CountsChain(h.registered[id], Own(h.log, id)) && !CircuitOpen(h.registered[id])
    ensures EndedRightly(h, e, id, h')
  {
    var w, own := h.registered[id], Own(h.log, id);
    AccountIsRight(w, own, e, id);
    DecisionIsRight(Recorded(w, ReportedOutcome(e), e.r), e, id);
    StartsOfEnd(own, w, e, id);
  }

  /** In every run: when a run of worker `id` ends, it is run again, with one more
      start, exactly if its policy asks for that, its breaker, if it has one, is not
      Open afterwards and no backoff is interrupted; it is stopped otherwise. */
  lemma EndOfRunDecides(s: State, order: seq<WorkerId>, script: seq<LoopEvent>, e: LoopEvent, id: WorkerId)
    requires Fresh(s) && Enumerates(order, s.registered) && id in s.registered
    requires JoinsWorker(LoopHead(s, order, script), e, id)
    ensures var h, h' := LoopHead(s, order, script), LoopHead(s, order, script + [e]);
      id in h.registered && id in h'.registered && EndedRightly(h, e, id, h')
  {
    EveryFailureIsCounted(s, order, script, id);
    EveryLoopHeadIsConsistent(s, order, script);
    assert (script + [e])[..|script|] == script;
    TurnEnds(LoopHead(s, order, script), e, id);
    EndDecides(LoopHead(s, order, script), e, id, LoopHead(s, order, script + [e]));
  }

  lemma NoneStarted(events: seq<Event>)
    requires |events| <= 1 && forall i :: 0 <= i < |events| ==> !events[i].Started?
    ensures Starts(events) == 0
  {
    assert |events| == 1 ==> events[..0] == [];
  }

  /** Only a restart that is not interrupted starts anything. */
  lemma DecisionStarts(id: WorkerId, hasFailed: bool, w: Worker, r: Readings)
    ensures Starts(Decision(id, hasFailed, w, r)) == if StateAfter(hasFailed, w, r) == Running then 1 else 0
  {
    var d := Decision(id, hasFailed, w, r);
    if StateAfter(hasFailed, w, r) == Running {
      NoneStarted(d[..1]);
      assert d == d[..1] + [d[1]];
    } else {
      var ends: seq<Event> := if Restarts(w, hasFailed) then [] else [Ended(id)];
      NoneStarted(ends);
      NoneStarted(d[|ends|..]);
      StartsConcat(ends, d[|ends|..]);
      assert d == ends + d[|ends|..];
    }
  }

  lemma StartsLast(own: seq<Event>, first: seq<Event>, second: seq<Event>, last: seq<Event>)
    requires |first| <= 1 && forall i :: 0 <= i < |first| ==> !first[i].Started?
    requires |second| <= 1 && forall i :: 0 <= i < |second| ==> !second[i].Started?
    ensures Starts(own + first + second + last) == Starts(own) + Starts(last)
  {
    StartsConcat(own, first);
    StartsConcat(own + first, second);
    StartsConcat(own + first + second, last);
    NoneStarted(first);
    NoneStarted(second);
  }

  lemma StartsOfEnd(own: seq<Event>, w: Worker, e: LoopEvent, id: WorkerId)
    requires e.Join?
    ensures var o, next := ReportedOutcome(e), Recorded(w, ReportedOutcome(e), e.r);
      Starts(own + [OutcomeEvent(id, o, e.r.wall)] + CircuitPart(w, id, o, e.r)
                 + Decision(id, o != Completed, next, e.r))
      == Starts(own) + if StateAfter(o != Completed, next, e.r) == Running then 1 else 0
  {
    var o, next := ReportedOutcome(e), Recorded(w, ReportedOutcome(e), e.r);
    var first, second := [OutcomeEvent(id, o, e.r.wall)], CircuitPart(w, id, o, e.r);
    StartsLast(own, first, second, Decision(id, o != Completed, next, e.r));
    DecisionStarts(id, o != Completed, next, e.r);
  }
}
