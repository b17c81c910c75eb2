/** The kernel object: boot, load, execution, shutdown and the rollback after a
    failed load. What each subsystem call returns, and whether the execution
    phase returns normally, is supplied by the environment. */
module KernelObject {
  import opened Prelude
  import opened Dependencies
  import opened Builder
  import opened KernelCalls
  import opened Lifecycle

  /** `CrashedOut` is a caught panic. */
  datatype Outcome = Returned | Errored | CrashedOut

  datatype Environment = Environment(
    boot: Name -> Outcome,
    load: Name -> Outcome,
    shutdown: Name -> Outcome,
    execReturns: bool)

  datatype KernelError =
    | IllegalMove(error: TransitionError)
    | SubsystemFailed(name: Name)
    | ExecFailed

  /** How many leading names succeed. */
  function Succeeding(order: seq<Name>, f: Name -> Outcome): (k: nat)
    ensures k <= |order|
    ensures forall i :: 0 <= i < k ==> f(order[i]) == Returned
    ensures k < |order| ==> f(order[k]) != Returned
  {
    if order == [] then 0
    else
      var k := Succeeding(order[..|order| - 1], f);
      if k < |order| - 1 || f(order[|order| - 1]) != Returned then k else |order|
  }

  /** The first failing shutdown in the order the shutdowns are made. */
  ghost function LastFailing(order: seq<Name>, f: Name -> Outcome): Option<Name> {
    if order == [] then None
    else if f(order[|order| - 1]) != Returned then Some(order[|order| - 1])
    else LastFailing(order[..|order| - 1], f)
  }

  /** Calls attempted in a phase: the successes and the first failure. */
  function Attempted(order: seq<Name>, f: Name -> Outcome): (k: nat)
    ensures k <= |order|
  {
    Min(Succeeding(order, f) + 1, |order|)
  }

  predicate AllSucceed(order: seq<Name>, f: Name -> Outcome) { Succeeding(order, f) == |order| }

  /** The calls of `boot`, from a kernel that has made none. */
  function BootTrace(order: seq<Name>, e: Environment): seq<Call> {
    if !AllSucceed(order, e.boot) then Trace(order, Attempted(order, e.boot), 0, 0, 0)
    else if !AllSucceed(order, e.load) then
      Trace(order, |order|, Attempted(order, e.load), 0, Succeeding(order, e.load))
    else Trace(order, |order|, |order|, 0, 0)
  }

  function BootState(order: seq<Name>, e: Environment): KernelState {
    if AllSucceed(order, e.boot) && AllSucceed(order, e.load) then Running else Failed
  }

  function BootResult(order: seq<Name>, e: Environment): Result<(), KernelError> {
    if !AllSucceed(order, e.boot) then Err(SubsystemFailed(order[Succeeding(order, e.boot)]))
    else if !AllSucceed(order, e.load) then Err(SubsystemFailed(order[Succeeding(order, e.load)]))
    else Ok(())
  }

  /** The calls of `run`, from a kernel that has made none. */
  function RunTrace(order: seq<Name>, e: Environment): seq<Call> {
    if BootResult(order, e).Ok? && e.execReturns then Trace(order, |order|, |order|, 0, |order|)
    else BootTrace(order, e)
  }

  function RunState(order: seq<Name>, e: Environment): KernelState {
    if BootResult(order, e).Ok? && e.execReturns then Stopped else BootState(order, e)
  }

  ghost function RunResult(order: seq<Name>, e: Environment): Result<(), KernelError> {
    if BootResult(order, e).Err? then BootResult(order, e)
    else if !e.execReturns then Err(ExecFailed)
    else match LastFailing(order, e.shutdown) case None => Ok(()) case Some(n) => Err(SubsystemFailed(n))
  }

  /** Whatever fails, no subsystem is called twice in the same role, and around
      every dependency of `x` on `y`, `y` boots and loads first and shuts down
      last. */
  lemma RunRespectsDependencies(subs: seq<Subsystem>, order: seq<Name>, e: Environment, x: Name, y: Name)
    requires IsBootOrder(subs, order) && DependsOn(subs, x, y) && x in order
    ensures RespectsDependency(RunTrace(order, e), x, y)
  {
    var n, b, l := |order|, Attempted(order, e.boot), Attempted(order, e.load);
    TraceRespectsDependencies(subs, order, n, n, 0, n, x, y);
    TraceRespectsDependencies(subs, order, n, n, 0, 0, x, y);
    TraceRespectsDependencies(subs, order, b, 0, 0, 0, x, y);
    TraceRespectsDependencies(subs, order, n, l, 0, Succeeding(order, e.load), x, y);
    TraceCallsOnce(order, n, n, 0, n);
    TraceCallsOnce(order, n, n, 0, 0);
    TraceCallsOnce(order, b, 0, 0, 0);
    TraceCallsOnce(order, n, l, 0, Succeeding(order, e.load));
  }

  // ------------------------------------------------------ what must be called

  ghost predicate AllReturn(order: seq<Name>, f: Name -> Outcome) {
    forall i :: 0 <= i < |order| ==> f(order[i]) == Returned
  }

  ghost predicate ReturnUpTo(order: seq<Name>, f: Name -> Outcome, i: nat)
    requires i <= |order|
  {
    forall j :: 0 <= j < i ==> f(order[j]) == Returned
  }

  ghost predicate IsFirstFailing(order: seq<Name>, f: Name -> Outcome, n: Name) {
    exists i :: 0 <= i < |order| && order[i] == n && f(n) != Returned && ReturnUpTo(order, f, i)
  }

  /** The last in `order` to fail, so the first met by a walk in reverse. */
  ghost predicate IsLastFailing(order: seq<Name>, f: Name -> Outcome, n: Name) {
    exists i :: 0 <= i < |order| && order[i] == n && f(n) != Returned
      && forall j :: i < j < |order| ==> f(order[j]) == Returned
  }

  /** `boot`: each subsystem is booted if all before it did, and loaded if all were
      booted and all before it loaded. Shut down are exactly those that loaded when
      some other did not. */
  ghost predicate BootCallsAreRight(order: seq<Name>, e: Environment, calls: seq<Call>) {
    && InPhases(order, calls)
    && forall i :: 0 <= i < |order| ==>
         && (BootCall(order[i]) in calls <==> ReturnUpTo(order, e.boot, i))
         && (LoadCall(order[i]) in calls <==> AllReturn(order, e.boot) && ReturnUpTo(order, e.load, i))
         && (ShutdownCall(order[i]) in calls
             <==> LoadCall(order[i]) in calls && e.load(order[i]) == Returned && !AllReturn(order, e.load))
  }

  ghost predicate BootReturns(order: seq<Name>, e: Environment) {
    AllReturn(order, e.boot) && AllReturn(order, e.load)
  }

  /** `run`: the calls of `boot`; and if that and the execution return normally,
      every subsystem is shut down. */
  ghost predicate RunCallsAreRight(order: seq<Name>, e: Environment, calls: seq<Call>) {
    if BootReturns(order, e) && e.execReturns then
      && InPhases(order, calls)
      && forall n :: n in order ==> BootCall(n) in calls && LoadCall(n) in calls && ShutdownCall(n) in calls
    else BootCallsAreRight(order, e, calls)
  }

  /** The error of `boot` names the first subsystem that failed. */
  ghost predicate BootErrorIsRight(order: seq<Name>, e: Environment, error: KernelError) {
    && error.SubsystemFailed?
    && if !AllReturn(order, e.boot) then IsFirstFailing(order, e.boot, error.name)
       else IsFirstFailing(order, e.load, error.name)
  }

  /** How far a phase gets is where its first failure is. */
  lemma ReturnsUpToFirstFailure(order: seq<Name>, f: Name -> Outcome)
    ensures forall i :: 0 <= i <= |order| ==> (ReturnUpTo(order, f, i) <==> i <= Succeeding(order, f))
    ensures AllReturn(order, f) <==> AllSucceed(order, f)
    ensures !AllSucceed(order, f) ==> IsFirstFailing(order, f, order[Succeeding(order, f)])
  {
    assert AllReturn(order, f) <==> ReturnUpTo(order, f, |order|);
    assert !AllSucceed(order, f) ==> ReturnUpTo(order, f, Succeeding(order, f));
  }

  /** What `boot` called, where it left the kernel and what it returned. */
  ghost predicate BootIsRight(order: seq<Name>, e: Environment, calls: seq<Call>, state: KernelState,
                              r: Result<(), KernelError>)
  {
    && BootCallsAreRight(order, e, calls)
    && state == (if BootReturns(order, e) then Running else Failed)
    && (r.Ok? <==> BootReturns(order, e))
    && (r.Err? ==> BootErrorIsRight(order, e, r.error))
  }

  /** What `run` called, where it left the kernel and what it returned. */
  ghost predicate RunIsRight(order: seq<Name>, e: Environment, calls: seq<Call>, state: KernelState,
                             r: Result<(), KernelError>)
  {
    && RunCallsAreRight(order, e, calls)
    && state == (if !BootReturns(order, e) then Failed else if e.execReturns then Stopped else Running)
    && (r.Ok? <==> BootReturns(order, e) && e.execReturns && AllReturn(order, e.shutdown))
    && (r.Err? ==>
          if !BootReturns(order, e) then BootErrorIsRight(order, e, r.error)
          else if !e.execReturns then r.error == ExecFailed
          else r.error.SubsystemFailed? && IsLastFailing(order, e.shutdown, r.error.name))
  }

  lemma BootTraceIsRight(order: seq<Name>, e: Environment)
    requires Distinct(order)
    ensures BootIsRight(order, e, BootTrace(order, e), BootState(order, e), BootResult(order, e))
  {
    ReturnsUpToFirstFailure(order, e.boot);
    ReturnsUpToFirstFailure(order, e.load);
    BootTraceCallsRight(order, e);
  }

  lemma BootTraceCallsRight(order: seq<Name>, e: Environment)
    requires Distinct(order)
    ensures BootCallsAreRight(order, e, BootTrace(order, e))
  {
    var n, l := |order|, Succeeding(order, e.load);
    ReturnsUpToFirstFailure(order, e.boot);
    ReturnsUpToFirstFailure(order, e.load);
    TraceIsInPhases(order, Attempted(order, e.boot), 0, 0, 0);
    TraceIsInPhases(order, n, Attempted(order, e.load), 0, l);
    TraceIsInPhases(order, n, n, 0, 0);
    forall i | 0 <= i < n
      ensures BootCall(order[i]) in BootTrace(order, e) <==> ReturnUpTo(order, e.boot, i)
      ensures LoadCall(order[i]) in BootTrace(order, e) <==> AllReturn(order, e.boot) && ReturnUpTo(order, e.load, i)
      ensures ShutdownCall(order[i]) in BootTrace(order, e)
         <==> LoadCall(order[i]) in BootTrace(order, e) && e.load(order[i]) == Returned && !AllReturn(order, e.load)
    {
      TraceMembers(order, Attempted(order, e.boot), 0, 0, 0, i);
      TraceMembers(order, n, Attempted(order, e.load), 0, l, i);
      TraceMembers(order, n, n, 0, 0, i);
    }
  }

  lemma RunTraceIsRight(order: seq<Name>, e: Environment)
    requires Distinct(order)
    ensures RunIsRight(order, e, RunTrace(order, e), RunState(order, e), RunResult(order, e))
  {
    BootTraceIsRight(order, e);
    LastFailingIsRight(order, e.shutdown);
    if BootReturns(order, e) && e.execReturns {
      CompleteTraceIsRight(order, e);
    }
  }

  lemma CompleteTraceIsRight(order: seq<Name>, e: Environment)
    requires Distinct(order) && BootReturns(order, e) && e.execReturns
    ensures RunCallsAreRight(order, e, Trace(order, |order|, |order|, 0, |order|))
  {
    var n := |order|;
    TraceIsInPhases(order, n, n, 0, n);
    forall x | x in order
      ensures var t := Trace(order, n, n, 0, n); BootCall(x) in t && LoadCall(x) in t && ShutdownCall(x) in t
    {
      var i :| 0 <= i < n && order[i] == x;
      TraceMembers(order, n, n, 0, n, i);
    }
  }

  lemma {:induction false} LastFailingIsRight(order: seq<Name>, f: Name -> Outcome)
    ensures LastFailing(order, f).None? <==> AllReturn(order, f)
    ensures LastFailing(order, f).Some? ==> IsLastFailing(order, f, LastFailing(order, f).value)
  {
    if order != [] {
      var n := |order| - 1;
      LastFailingIsRight(order[..n], f);
      if f(order[n]) == Returned {
        LaterSuccessChangesNothing(order, f);
      } else {
        assert IsLastFailing(order, f, order[n]);
      }
    }
  }

  lemma LaterSuccessChangesNothing(order: seq<Name>, f: Name -> Outcome)
    requires order != [] && f(order[|order| - 1]) == Returned
    ensures AllReturn(order, f) <==> AllReturn(order[..|order| - 1], f)
    ensures forall n :: IsLastFailing(order[..|order| - 1], f, n) ==> IsLastFailing(order, f, n)
  {
    var before := order[..|order| - 1];
    assert forall j :: 0 <= j < |before| ==> order[j] == before[j];
    forall n | IsLastFailing(before, f, n) ensures IsLastFailing(order, f, n) {
      var i :| 0 <= i < |before| && before[i] == n && f(n) != Returned
        && forall j :: i < j < |before| ==> f(before[j]) == Returned;
      assert order[i] == n;
    }
  }

  class Kernel {
    const order: seq<Name>
    const lifecycle: LifecycleController
    var booted: set<Name>
    var loaded: set<Name>
    var calls: seq<Call>

    ghost predicate Valid()
      reads this, lifecycle
    {
      && Distinct(order)
      && lifecycle.Valid()
      && (lifecycle.state == KernelState.Created ==> booted == {} && loaded == {} && calls == [])
    }

    constructor (order: seq<Name>, lifecycle: LifecycleController)
      requires Distinct(order) && lifecycle.Valid() && lifecycle.state == KernelState.Created
      ensures Valid() && this.order == order && this.lifecycle == lifecycle && calls == []
    {
      this.order, this.lifecycle := order, lifecycle;
      booted, loaded, calls := {}, {}, [];
    }

    method RunBootPhase(e: Environment) returns (r: Result<(), KernelError>)
      modifies this
      ensures r.Ok? <==> AllSucceed(order, e.boot)
      ensures r.Err? ==> r.error == SubsystemFailed(order[Succeeding(order, e.boot)])
      ensures calls == old(calls) + Boots(order[..Attempted(order, e.boot)])
      ensures loaded == old(loaded)
    {
      for i := 0 to |order|
        invariant Succeeding(order, e.boot) >= i && loaded == old(loaded)
        invariant calls == old(calls) + Boots(order[..i])
      {
        BootGrows(order, i);
        calls := calls + [BootCall(order[i])];
        if e.boot(order[i]) != Returned {
          return Err(SubsystemFailed(order[i]));
        }
        booted := booted + {order[i]};
      }
      return Ok(());
    }

    method RunLoadPhase(e: Environment) returns (r: Result<(), KernelError>)
      modifies this
      ensures r.Ok? <==> AllSucceed(order, e.load)
      ensures r.Err? ==> r.error == SubsystemFailed(order[Succeeding(order, e.load)])
      ensures calls == old(calls) + Loads(order[..Attempted(order, e.load)])
      ensures loaded == old(loaded) + set n | n in order[..Succeeding(order, e.load)]
    {
      for i := 0 to |order|
        invariant Succeeding(order, e.load) >= i
        invariant calls == old(calls) + Loads(order[..i])
        invariant loaded == old(loaded) + set n | n in order[..i]
      {
        LoadGrows(order, 0, i);
        calls := calls + [LoadCall(order[i])];
        if e.load(order[i]) != Returned {
          return Err(SubsystemFailed(order[i]));
        }
        loaded := loaded + {order[i]};
        assert order[..i + 1] == order[..i] + [order[i]];
      }
      return Ok(());
    }

    /** Shuts everything down in reverse, whatever fails; reports the first error. */
    method RunShutdownPhase(e: Environment) returns (r: Result<(), KernelError>)
      modifies this
      ensures calls == old(calls) + Downs(order[0..|order|])
      ensures r == (match LastFailing(order, e.shutdown) case None => Ok(()) case Some(n) => Err(SubsystemFailed(n)))
      ensures r.Ok? <==> AllReturn(order, e.shutdown)
      ensures r.Err? ==> r.error.SubsystemFailed? && IsLastFailing(order, e.shutdown, r.error.name)
    {
      LastFailingIsRight(order, e.shutdown);
      var firstErr: Option<Name> := None;
      var i := |order|;
      assert order[..|order|] == order;
      while i > 0
        invariant 0 <= i <= |order|
        invariant calls == old(calls) + Downs(order[i..|order|])
        invariant LastFailing(order, e.shutdown)
               == if firstErr.Some? then firstErr else LastFailing(order[..i], e.shutdown)
      {
        i := i - 1;
        DownsFromEnd(order, i, |order|);
        assert order[..i + 1][..i] == order[..i];
        calls := calls + [ShutdownCall(order[i])];
        if e.shutdown(order[i]) != Returned && firstErr.None? {
          firstErr := Some(order[i]);
        }
      }
      assert order[0..|order|] == order;
      match firstErr {
        case None => return Ok(());
        case Some(n) => return Err(SubsystemFailed(n));
      }
    }

    /** Shuts down in reverse those subsystems that are recorded as loaded. */
    method RunShutdownPhaseToLoaded(ghost l: nat)
      requires Distinct(order) && l <= |order| && loaded == set n | n in order[..l]
      modifies this
      ensures calls == old(calls) + Downs(order[0..l])
    {
      var i := |order|;
      while i > 0
        invariant 0 <= i <= |order| && loaded == old(loaded)
        invariant calls == old(calls) + Downs(order[Min(i, l)..l])
      {
        i := i - 1;
        PrefixMember(order, i, l);
        if order[i] in loaded {
          DownsFromEnd(order, i, l);
          calls := calls + [ShutdownCall(order[i])];
        }
      }
    }

    /** The second half of `boot`: load, and roll back what was loaded if that fails. */
    method LoadOrRollBack(e: Environment, now: nat) returns (r: Result<(), KernelError>)
      requires Valid() && lifecycle.state == Loading && AllSucceed(order, e.boot)
      requires calls == Boots(order[..|order|]) && loaded == {}
      modifies this, lifecycle
      ensures Valid()
      ensures calls == BootTrace(order, e) && lifecycle.state == BootState(order, e) && r == BootResult(order, e)
      ensures BootIsRight(order, e, calls, lifecycle.state, r)
    {
      BootTraceIsRight(order, e);
      r := RunLoadPhase(e);
      TraceParts(order, |order|, Attempted(order, e.load), Succeeding(order, e.load));
      if r.Err? {
        RunShutdownPhaseToLoaded(Succeeding(order, e.load));
        var _ := lifecycle.Transition(KernelState.Failed, now);
        return;
      }
      var moved := lifecycle.Transition(Running, now);
      if moved.Err? {
        assert false;
      }
      return Ok(());
    }

    method Boot(e: Environment, now: nat) returns (r: Result<(), KernelError>)
      requires Valid()
      modifies this, lifecycle
      ensures Valid()
      ensures old(lifecycle.state) == KernelState.Created ==>
        calls == BootTrace(order, e) && lifecycle.state == BootState(order, e) && r == BootResult(order, e)
      ensures old(lifecycle.state) == KernelState.Created ==> BootIsRight(order, e, calls, lifecycle.state, r)
      ensures old(lifecycle.state) != KernelState.Created ==>
        r == Err(IllegalMove(TransitionError(old(lifecycle.state), Booting)))
        && calls == old(calls) && lifecycle.state == old(lifecycle.state)
    {
      var moved := lifecycle.Transition(Booting, now);
      if moved.Err? {
        return Err(IllegalMove(moved.error));
      }
      r := RunBootPhase(e);
      TraceParts(order, Attempted(order, e.boot), 0, 0);
      BootTraceIsRight(order, e);
      if r.Err? {
        var _ := lifecycle.Transition(KernelState.Failed, now);
        return;
      }
      moved := lifecycle.Transition(Loading, now);
      if moved.Err? {
        assert false;
      }
      r := LoadOrRollBack(e, now);
    }

    /** The last part of `run`, after a normal execution phase. */
    method StopAll(e: Environment, now: nat) returns (r: Result<(), KernelError>)
      requires Valid() && lifecycle.state == Running && calls == Trace(order, |order|, |order|, 0, 0)
      modifies this, lifecycle
      ensures Valid() && lifecycle.state == Stopped && calls == Trace(order, |order|, |order|, 0, |order|)
      ensures r == match LastFailing(order, e.shutdown) case None => Ok(()) case Some(n) => Err(SubsystemFailed(n))
    {
      var moved := lifecycle.Transition(Stopping, now);
      if moved.Err? {
        assert false;
      }
      TraceParts(order, |order|, |order|, |order|);
      r := RunShutdownPhase(e);
      moved := lifecycle.Transition(Stopped, now);
      if moved.Err? {
        assert false;
      }
    }

    /** A whole run. After a normal execution phase everything is shut down in
        reverse and the kernel ends Stopped; if execution fails the kernel is
        left Running and nothing is shut down. */
    method Run(e: Environment, now: nat) returns (r: Result<(), KernelError>)
      requires Valid()
      modifies this, lifecycle
      ensures Valid()
      ensures old(lifecycle.state) == KernelState.Created ==>
        calls == RunTrace(order, e) && lifecycle.state == RunState(order, e) && r == RunResult(order, e)
      ensures old(lifecycle.state) == KernelState.Created ==> RunIsRight(order, e, calls, lifecycle.state, r)
      ensures old(lifecycle.state) != KernelState.Created ==>
        r.Err? && calls == old(calls) && lifecycle.state == old(lifecycle.state)
    {
      RunTraceIsRight(order, e);
      r := Boot(e, now);
      if r.Err? {
        return;
      }
      if !e.execReturns {
        return Err(ExecFailed);
      }
      r := StopAll(e, now);
    }
  }

  /** Building a kernel: what `Build` accepts becomes a kernel that has done nothing
      yet and will call its subsystems in a boot order. */
  method BuildKernel(name: Name, registered: seq<Subsystem>, now: nat) returns (r: Result<Kernel, BuildError>)
    ensures var all := BUILTINS + registered;
      r.Ok? <==> name != [] && !UsesReserved(registered) && DistinctNames(all) && Resolved(all) && Acyclic(all)
    ensures r.Ok? ==>
      && r.value.Valid() && fresh(r.value) && fresh(r.value.lifecycle)
      && r.value.lifecycle.state == KernelState.Created && r.value.calls == []
      && IsBootOrder(BUILTINS + registered, r.value.order)
  {
    var built := Build(name, registered);
    if built.Err? {
      return Err(built.error);
    }
    var lifecycle := new LifecycleController(now);
    var kernel := new Kernel(Names(built.value), lifecycle);
    return Ok(kernel);
  }

  /** A freshly built kernel, run once: whatever fails, each call is made at most once
      and every declared dependency is respected. */
  method BuildAndRun(name: Name, registered: seq<Subsystem>, e: Environment, now: nat)
    returns (r: Result<Kernel, BuildError>)
    ensures r.Ok? ==> r.value.calls == RunTrace(r.value.order, e)
    ensures r.Ok? ==> forall x, y :: DependsOn(BUILTINS + registered, x, y) ==>
      RespectsDependency(r.value.calls, x, y)
  {
    r := BuildKernel(name, registered, now);
    if r.Ok? {
      var _ := r.value.Run(e, now);
      forall x, y | DependsOn(BUILTINS + registered, x, y) ensures RespectsDependency(r.value.calls, x, y) {
        assert x in NameSet(BUILTINS + registered);
        RunRespectsDependencies(BUILTINS + registered, r.value.order, e, x, y);
      }
    }
  }

  lemma PrefixMember(order: seq<Name>, i: nat, l: nat)
    requires Distinct(order) && i < |order| && l <= |order|
    ensures order[i] in order[..l] <==> i < l
  {
    if i < l {
      assert order[..l][i] == order[i];
    }
  }
}
