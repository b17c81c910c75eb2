/** Timed-out workers. A timeout cancels the worker's token, which is never renewed,
    and has no say in how the run it interrupts is recorded. */
module SupervisorTimeouts {
  import opened Prelude
  import opened Circuit
  import opened SupervisorGrowth
  import opened SupervisorModel
  import opened SupervisorInvariants
  import opened SupervisorRestarts
  import opened SupervisorRetries
  import opened SupervisorTheorems

  // --------------------------------------------------------------------- tokens

  /** A cancelled token stays cancelled through every restart and every trial. */
  lemma TokenStaysCancelled(s: State, script: seq<LoopEvent>, id: WorkerId)
    requires id in s.registered && s.registered[id].tokenCancelled
    ensures id in Turns(s, script).registered && Turns(s, script).registered[id].tokenCancelled
  {
    TurnsExtend(s, script);
  }

  /** The log grew by events none of which announces a timeout. */
  ghost predicate GrewQuietly(log: seq<Event>, log': seq<Event>) {
    log <= log' && forall i :: |log| <= i < |log'| ==> !log'[i].TimedOut?
  }

  lemma {:induction false} TrialsAreQuiet(s: State, promoted: seq<Visit>)
    ensures GrewQuietly(s.log, StartTrials(s, promoted).log)
  {
    if promoted != [] {
      TrialsAreQuiet(s, promoted[..|promoted| - 1]);
    }
  }

  lemma {:induction false} TimeOutsAnnounce(s: State, timeouts: seq<WorkerId>)
    ensures var s' := TimeOutAll(s, timeouts);
      && s.log <= s'.log && |s'.log| == |s.log| + |timeouts| && s'.registered.Keys == s.registered.Keys
      && (forall k :: 0 <= k < |timeouts| ==> s'.log[|s.log| + k] == TimedOut(timeouts[k]))
      && forall id :: id in timeouts && id in s.registered ==> s'.registered[id].tokenCancelled
  {
    if timeouts != [] {
      var before, last := timeouts[..|timeouts| - 1], timeouts[|timeouts| - 1];
      TimeOutsAnnounce(s, before);
      assert timeouts == before + [last];
    }
  }

  /** A tick ends by announcing every worker that timed out, in order and no other,
      and cancels the token of each that is registered. */
  lemma TimeoutsAreAnnounced(s: State, scan: seq<Visit>, timeouts: seq<WorkerId>)
    requires !s.cancelFired
    ensures var s' := Turn(s, WatchdogTick(scan, timeouts));
      var n := |s'.log| - |timeouts|;
      && 0 <= n && GrewQuietly(s.log, s'.log[..n])
      && (forall k :: 0 <= k < |timeouts| ==> s'.log[n + k] == TimedOut(timeouts[k]))
      && forall id :: id in timeouts && id in s.registered ==> id in s'.registered && s'.registered[id].tokenCancelled
  {
    var s2 := StartTrials(TickAll(s, scan), Promoted(s, scan));
    BeforeTimeouts(s, scan);
    TimeOutsAnnounce(s2, timeouts);
    assert TimeOutAll(s2, timeouts).log[..|s2.log|] == s2.log;
  }

  lemma BeforeTimeouts(s: State, scan: seq<Visit>)
    ensures var s' := StartTrials(TickAll(s, scan), Promoted(s, scan));
      GrewQuietly(s.log, s'.log) && s'.registered.Keys == s.registered.Keys
  {
    TicksExtend(s, scan);
    TicksAreSilent(s, scan);
    TrialsExtend(TickAll(s, scan), Promoted(s, scan));
    TrialsAreQuiet(TickAll(s, scan), Promoted(s, scan));
  }

  lemma {:induction false} TicksAreSilent(s: State, scan: seq<Visit>)
    ensures TickAll(s, scan).log == s.log
  {
    if scan != [] {
      TicksAreSilent(s, scan[..|scan| - 1]);
    }
  }

  /** In every run, before shutdown, a worker's token is cancelled exactly if a
      timeout of the worker was announced at some time. */
  lemma CancelledExactlyWhenTimedOut(s: State, order: seq<WorkerId>, script: seq<LoopEvent>, id: WorkerId)
    requires Fresh(s) && Enumerates(order, s.registered) && id in LoopHead(s, order, script).registered
    ensures var h := LoopHead(s, order, script);
      h.registered[id].tokenCancelled <==> TimedOut(id) in h.log
  {
    RunExtends(s, order, script);
  }

  // ---------------------------------------------------------- ends after a timeout

  /** The end of a run: what a task's outcome emits for its worker. */
  predicate IsEnd(e: Event) { e.Ended? || IsFailure(e) }

  /** The first end of a run among a worker's events. */
  function FirstEnd(own: seq<Event>): Option<Event> {
    if own == [] then None
    else
      var before := FirstEnd(own[..|own| - 1]);
      if before.Some? then before else if IsEnd(own[|own| - 1]) then Some(own[|own| - 1]) else None
  }

  lemma {:induction false} FirstEndIsFirst(quiet: seq<Event>, e: Event, rest: seq<Event>)
    requires IsEnd(e) && FirstEnd(quiet).None?
    ensures FirstEnd(quiet + [e] + rest) == Some(e)
  {
    var all := quiet + [e] + rest;
    if rest == [] {
      assert all[..|all| - 1] == quiet;
    } else {
      FirstEndIsFirst(quiet, e, rest[..|rest| - 1]);
      assert all[..|all| - 1] == quiet + [e] + rest[..|rest| - 1];
    }
  }

  lemma {:induction false} OwnGrows(log: seq<Event>, added: seq<Event>, id: WorkerId)
    ensures Own(log, id) <= Own(log + added, id)
  {
    if added == [] {
      assert log + added == log;
    } else {
      var n := |added| - 1;
      OwnGrows(log, added[..n], id);
      OwnSnoc(log + added[..n], added[n], id);
      assert log + added == (log + added[..n]) + [added[n]];
    }
  }

  /** What the later log has beyond the earlier one. */
  function Since(earlier: seq<Event>, later: seq<Event>): seq<Event> {
    if |earlier| <= |later| then later[|earlier|..] else []
  }

  lemma OwnContinues(s: State, more: seq<LoopEvent>, id: WorkerId)
    ensures Own(s.log, id) + Since(Own(s.log, id), Own(Turns(s, more).log, id)) == Own(Turns(s, more).log, id)
  {
    TurnsExtend(s, more);
    OwnOfPrefix(s.log, Turns(s, more).log, id);
    PrefixSince(Own(s.log, id), Own(Turns(s, more).log, id));
  }

  lemma OwnOfPrefix(log: seq<Event>, later: seq<Event>, id: WorkerId)
    requires log <= later
    ensures Own(log, id) <= Own(later, id)
  {
    assert later == log + later[|log|..];
    OwnGrows(log, later[|log|..], id);
  }

  lemma PrefixSince(earlier: seq<Event>, later: seq<Event>)
    requires earlier <= later
    ensures earlier + Since(earlier, later) == later
  {
  }

  /** The continuation records the worker's next end of run, if there is one, as a
      failure. */
  ghost predicate NextEndFails(s: State, more: seq<LoopEvent>, id: WorkerId) {
    var end := FirstEnd(Since(Own(s.log, id), Own(Turns(s, more).log, id)));
    end.Some? ==> IsFailure(end.value)
  }

  /** A completed run of a worker that has a task. */
  function Completion(task: TaskId): LoopEvent { Join(task, Completed, false, Readings(0, 0, 1, false)) }

  lemma CompletionEndsRun(s: State, task: TaskId, id: WorkerId)
    requires Inv(s) && !s.cancelFired && task in s.joinSet && s.joinSet[task] == id
    ensures var own, own' := Own(s.log, id), Own(Turn(s, Completion(task)).log, id);
      own + [Ended(id)] <= own'
  {
    assert Busy(s, id);
    OwnTurn(s, Completion(task), id);
  }

  lemma EndIsRecorded(own: seq<Event>, quiet: seq<Event>, own': seq<Event>, id: WorkerId)
    requires own + quiet + [Ended(id)] <= own' && FirstEnd(quiet).None?
    ensures FirstEnd(Since(own, own')) == Some(Ended(id))
  {
    var rest := own'[|own| + |quiet| + 1..];
    assert own'[|own|..] == quiet + [Ended(id)] + rest;
    FirstEndIsFirst(quiet, Ended(id), rest);
  }

  lemma EndIsRecordedAtOnce(own: seq<Event>, own': seq<Event>, id: WorkerId)
    requires own + [Ended(id)] <= own'
    ensures FirstEnd(Since(own, own')) == Some(Ended(id))
  {
    assert own + [] + [Ended(id)] == own + [Ended(id)];
    EndIsRecorded(own, [], own', id);
  }

  lemma OneTurn(s: State, e: LoopEvent)
    ensures Turns(s, [e]) == Turn(s, e)
  {
    assert [e][..0] == [];
  }

  /** A running worker may complete. */
  lemma RunningMayComplete(s: State, id: WorkerId) returns (more: seq<LoopEvent>)
    requires Inv(s) && !s.cancelFired && Busy(s, id)
    ensures !NextEndFails(s, more, id)
  {
    var task :| task in s.joinSet && s.joinSet[task] == id;
    more := [Completion(task)];
    OneTurn(s, Completion(task));
    CompletionEndsRun(s, task, id);
    EndIsRecordedAtOnce(Own(s.log, id), Own(Turns(s, more).log, id), id);
  }

  lemma TrialBeginsQuietly(s: State, id: WorkerId, v: Visit)
    requires Inv(s) && !s.cancelFired && id in s.registered && CircuitOpen(s.registered[id])
    requires Elapses(v, id, s.registered[id].breaker, s.registered[id].spec.circuit.value)
    ensures Own(Turn(s, WatchdogTick([v], [])).log, id) == Own(s.log, id) + [TrialEvent(v), Started(id)]
  {
    TickStartsTrial(s, id, v);
    OwnSnoc(s.log, TrialEvent(v), id);
    OwnSnoc(s.log + [TrialEvent(v)], Started(id), id);
    assert s.log + [TrialEvent(v), Started(id)] == s.log + [TrialEvent(v)] + [Started(id)];
    var own := Own(s.log, id);
    assert own + [TrialEvent(v)] + [Started(id)] == own + [TrialEvent(v), Started(id)];
  }

  lemma TrialHasNotEnded(v: Visit)
    ensures FirstEnd([TrialEvent(v), Started(v.id)]).None?
  {
    var one, two := [TrialEvent(v)], [TrialEvent(v), Started(v.id)];
    assert one[..0] == [] && FirstEnd(one).None?;
    assert two[..1] == one;
  }

  lemma CompletionIsFirstEnd(s: State, task: TaskId, id: WorkerId, own: seq<Event>, quiet: seq<Event>)
    requires Inv(s) && !s.cancelFired && task in s.joinSet && s.joinSet[task] == id
    requires Own(s.log, id) == own + quiet && FirstEnd(quiet).None?
    ensures FirstEnd(Since(own, Own(Turn(s, Completion(task)).log, id))) == Some(Ended(id))
  {
    CompletionEndsRun(s, task, id);
    EndIsRecorded(own, quiet, Own(Turn(s, Completion(task)).log, id), id);
  }

  lemma TrialBegins(s: State, id: WorkerId) returns (e: LoopEvent, quiet: seq<Event>)
    requires Inv(s) && !s.cancelFired && id in s.registered && CircuitOpen(s.registered[id])
    ensures Inv(Turn(s, e)) && !Turn(s, e).cancelFired && Busy(Turn(s, e), id)
    ensures Own(Turn(s, e).log, id) == Own(s.log, id) + quiet && FirstEnd(quiet).None?
  {
    LateTickReleases(s, id);
    e := LateTick(id, s.registered[id].breaker, s.registered[id].spec.circuit.value);
    var v := e.scan[0];
    quiet := [TrialEvent(v), Started(id)];
    OneTurn(s, e);
    TrialBeginsQuietly(s, id, v);
    TrialHasNotEnded(v);
    TurnKeepsInv(s, e);
    TurnExtends(s, e);
  }

  /** The trial of an Open breaker may complete. */
  lemma TrialMayComplete(s: State, id: WorkerId) returns (more: seq<LoopEvent>)
    requires Inv(s) && !s.cancelFired && id in s.registered && CircuitOpen(s.registered[id])
    ensures !NextEndFails(s, more, id)
  {
    var e, quiet := TrialBegins(s, id);
    var s1 := Turn(s, e);
    var task :| task in s1.joinSet && s1.joinSet[task] == id;
    more := [e, Completion(task)];
    TwoTurns(s, more);
    CompletionIsFirstEnd(s1, task, id, Own(s.log, id), quiet);
  }

  /** At every loop head, also right after a timeout was announced, all continuations
      record the worker's next end of run as a failure exactly when none can end:
      cancellation was seen, or the worker has no task and its breaker, if it has
      one, is not Open. */
  lemma NextEndFailsExactlyWhen(s: State, order: seq<WorkerId>, script: seq<LoopEvent>, id: WorkerId)
    requires Fresh(s) && Enumerates(order, s.registered) && id in LoopHead(s, order, script).registered
    ensures var h := LoopHead(s, order, script);
      forall more :: Own(h.log, id) + Since(Own(h.log, id), Own(Turns(h, more).log, id)) == Own(Turns(h, more).log, id)
    ensures var h := LoopHead(s, order, script);
      (forall more :: NextEndFails(h, more, id))
      <==> h.cancelFired || (!Busy(h, id) && !CircuitOpen(h.registered[id]))
  {
    var h := LoopHead(s, order, script);
    EveryLoopHeadIsConsistent(s, order, script);
    forall more
      ensures Own(h.log, id) + Since(Own(h.log, id), Own(Turns(h, more).log, id)) == Own(Turns(h, more).log, id)
    {
      OwnContinues(h, more, id);
    }
    if h.cancelFired || (!Busy(h, id) && !CircuitOpen(h.registered[id])) {
      forall more ensures NextEndFails(h, more, id) {
        if h.cancelFired {
          CancelledLoopIsIdle(h, more);
        } else {
          RetiredForever(h, more, id);
        }
        assert Since(Own(h.log, id), Own(Turns(h, more).log, id)) == [];
      }
    } else if Busy(h, id) {
      var more := RunningMayComplete(h, id);
    } else {
      var more := TrialMayComplete(h, id);
    }
  }

  /** The input that shows it: a running `OnFailure` worker times out and then
      completes. Its token is cancelled, yet it stops like any completed worker, with
      no failure counted, its attempts at zero and its breaker reset. */
  lemma TimedOutWorkerMayComplete(s: State, order: seq<WorkerId>, script: seq<LoopEvent>, id: WorkerId)
    returns (more: seq<LoopEvent>)
    requires Fresh(s) && Enumerates(order, s.registered)
    requires var h := LoopHead(s, order, script);
      !h.cancelFired && id in h.registered && Busy(h, id) && h.registered[id].spec.restart == Policies.OnFailure
    ensures var h, h' := LoopHead(s, order, script), LoopHead(s, order, script + more);
      && |more| == 2 && more[0] == WatchdogTick([], [id])
      && id in h'.registered && h'.registered[id].tokenCancelled
      && h'.registered[id].state == Stopped && h'.registered[id].attempts == 0
      && h'.registered[id].failuresInWindow == h.registered[id].failuresInWindow
      && (h'.registered[id].spec.circuit.Some? ==> h'.registered[id].breaker == NEW_BREAKER)
      && FirstEnd(Since(Own(h.log, id), Own(h'.log, id))) == Some(Ended(id))
  {
    var h := LoopHead(s, order, script);
    EveryLoopHeadIsConsistent(s, order, script);
    var tick := WatchdogTick([], [id]);
    var h1 := Turn(h, tick);
    TimeoutOnlyCancels(h, id);
    TurnKeepsInv(h, tick);
    var task :| task in h1.joinSet && h1.joinSet[task] == id;
    more := [tick, Completion(task)];
    TwoTurns(h, more);
    TurnsCompose(SpawnAll(s, order), script, more);
    OwnTurn(h1, Completion(task), id);
    CompletionEndsRun(h1, task, id);
    TurnExtends(h1, Completion(task));
    EndIsRecordedAtOnce(Own(h.log, id), Own(LoopHead(s, order, script + more).log, id), id);
  }

  /** A timeout of one worker, seen by that worker. */
  lemma TimeoutOnlyCancels(s: State, id: WorkerId)
    requires Inv(s) && !s.cancelFired && id in s.registered && Busy(s, id)
    ensures var s' := Turn(s, WatchdogTick([], [id]));
      && !s'.cancelFired && id in s'.registered && Busy(s', id)
      && s'.registered[id] == s.registered[id].(tokenCancelled := true)
      && Own(s'.log, id) == Own(s.log, id)
  {
    var s' := Turn(s, WatchdogTick([], [id]));
    assert TickAll(s, []) == s && Promoted(s, []) == [] && StartTrials(s, []) == s;
    assert [id][..0] == [] && TimeOutAll(s, []) == s;
    assert s' == TimeOutAll(s, [id]) == TimeOutOne(s, id);
    OwnSnoc(s.log, TimedOut(id), id);
    var task :| task in s.joinSet && s.joinSet[task] == id;
    assert s'.joinSet[task] == id;
  }
}
