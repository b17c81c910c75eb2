/** Time stamps on circuit events. A breaker is released by its own clock readings;
    the events are stamped by later readings, which may lie closer together. */
module SupervisorStamps {
  import opened Prelude
  import opened Circuit
  import opened SupervisorGrowth
  import opened SupervisorModel
  import opened SupervisorInvariants
  import opened SupervisorTheorems

  // ------------------------------------------------------------- growing logs

  lemma {:induction false} CircuitLogGrows(log: seq<Event>, added: seq<Event>, id: WorkerId)
    ensures CircuitLog(log, id) <= CircuitLog(log + added, id)
  {
    if added == [] {
      assert log + added == log;
    } else {
      var n := |added| - 1;
      CircuitLogGrows(log, added[..n], id);
      CircuitLogSnoc(log + added[..n], added[n], id);
      assert log + added == (log + added[..n]) + [added[n]];
    }
  }

  lemma CircuitLogContinues(s: State, more: seq<LoopEvent>, id: WorkerId)
    ensures CircuitLog(s.log, id) <= CircuitLog(Turns(s, more).log, id)
  {
    TurnsExtend(s, more);
    var now, later := s.log, Turns(s, more).log;
    assert later == now + later[|now|..];
    CircuitLogGrows(now, later[|now|..], id);
  }

  // ----------------------------------------------------------- spacing of stamps

  /** The opening that the worker's breaker is in, read off its events. */
  function Opening(s: State, id: WorkerId): Event
    requires CircuitLog(s.log, id) != []
  {
    CircuitLog(s.log, id)[|CircuitLog(s.log, id)| - 1]
  }

  /** In the continuation, the event after the opening, if there is one, is a trial
      stamped at least `gap` later, provided the readings arrived in order. */
  ghost predicate StampsSpaced(s: State, more: seq<LoopEvent>, id: WorkerId, gap: nat)
    requires CircuitLog(s.log, id) != [] && Opening(s, id).CircuitOpened?
  {
    var n, later := |CircuitLog(s.log, id)|, CircuitLog(Turns(s, more).log, id);
    |later| > n ==>
      && later[n].CircuitHalfOpened?
      && (Opening(s, id).at <= later[n].cause <= later[n].at ==> later[n].at - Opening(s, id).at >= gap)
  }

  lemma OpenHasOpening(s: State, id: WorkerId)
    requires Inv(s) && id in s.registered && CircuitOpen(s.registered[id])
    ensures CircuitLog(s.log, id) != [] && Opening(s, id).CircuitOpened?
    ensures s.registered[id].breaker.openedAt == Some(Opening(s, id).cause)
  {
    assert WorkerOk(s, id);
  }

  /** A single visit that finds the open duration elapsed announces the trial. */
  lemma VisitAnnounces(s: State, id: WorkerId, v: Visit)
    requires Inv(s) && !s.cancelFired && id in s.registered && CircuitOpen(s.registered[id]) && v.id == id
    requires Elapses(v, id, s.registered[id].breaker, s.registered[id].spec.circuit.value)
    ensures CircuitLog(Turns(s, [WatchdogTick([v], [])]).log, id) == CircuitLog(s.log, id) + [TrialEvent(v)]
  {
    var e := WatchdogTick([v], []);
    assert [e][..0] == [] && Turns(s, [e]) == Turn(s, e);
    TickStartsTrial(s, id, v);
    assert s.log + [TrialEvent(v), Started(id)] == s.log + [TrialEvent(v)] + [Started(id)];
    CircuitLogSnoc(s.log, TrialEvent(v), id);
    CircuitLogSnoc(s.log + [TrialEvent(v)], Started(id), id);
  }

  lemma GrammarSpacesStamps(s: State, more: seq<LoopEvent>, id: WorkerId, p: CircuitPolicy)
    requires CircuitLog(s.log, id) != [] && Opening(s, id).CircuitOpened?
    requires Grammatical(CircuitLog(Turns(s, more).log, id), p)
    requires Opening(s, id).at == Opening(s, id).cause || p.openDuration == 0
    ensures StampsSpaced(s, more, id, p.openDuration)
  {
    CircuitLogContinues(s, more, id);
    var n, later := |CircuitLog(s.log, id)|, CircuitLog(Turns(s, more).log, id);
    if |later| > n {
      assert later[n - 1] == Opening(s, id);
      assert MayFollow(later[n - 1], later[n], p);
    }
  }

  lemma LateStampIsCloser(s: State, id: WorkerId) returns (more: seq<LoopEvent>)
    requires Inv(s) && !s.cancelFired && id in s.registered && CircuitOpen(s.registered[id])
    requires CircuitLog(s.log, id) != [] && Opening(s, id).CircuitOpened?
    requires Opening(s, id).cause < Opening(s, id).at && s.registered[id].spec.circuit.value.openDuration > 0
    ensures !StampsSpaced(s, more, id, s.registered[id].spec.circuit.value.openDuration)
  {
    OpenHasOpening(s, id);
    var o, d := Opening(s, id), s.registered[id].spec.circuit.value.openDuration;
    var now := Max(o.at, o.cause + d);
    var v := Visit(id, now, now);
    VisitAnnounces(s, id, v);
    more := [WatchdogTick([v], [])];
  }

  /** In every run, the trial of an Open breaker is stamped at least the open
      duration after its opening in all continuations exactly when the opening was
      stamped without delay, the duration is zero, or cancellation was seen. */
  lemma StampsAreSpacedExactlyWhen(s: State, order: seq<WorkerId>, script: seq<LoopEvent>, id: WorkerId)
    requires Fresh(s) && Enumerates(order, s.registered)
    requires var h := LoopHead(s, order, script); id in h.registered && CircuitOpen(h.registered[id])
    ensures var h := LoopHead(s, order, script);
      && CircuitLog(h.log, id) != [] && Opening(h, id).CircuitOpened?
      && var o, d := Opening(h, id), h.registered[id].spec.circuit.value.openDuration;
         o.cause <= o.at ==>
           ((forall more :: StampsSpaced(h, more, id, d)) <==> o.at == o.cause || d == 0 || h.cancelFired)
  {
    var h := LoopHead(s, order, script);
    EveryLoopHeadIsConsistent(s, order, script);
    OpenHasOpening(h, id);
    var o, p := Opening(h, id), h.registered[id].spec.circuit.value;
    if o.cause <= o.at {
      if h.cancelFired {
        forall more ensures StampsSpaced(h, more, id, p.openDuration) {
          CancelledLoopIsIdle(h, more);
        }
      } else if o.at == o.cause || p.openDuration == 0 {
        forall more ensures StampsSpaced(h, more, id, p.openDuration) {
          TurnsKeepInv(h, more);
          TurnsExtend(h, more);
          assert WorkerOk(Turns(h, more), id);
          GrammarSpacesStamps(h, more, id, p);
        }
      } else {
        var more := LateStampIsCloser(h, id);
      }
    }
  }
}
