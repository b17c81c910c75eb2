/** Any number of clones calling `boot` and `run` at once, as a state machine
    whose steps are single lifecycle transitions and single subsystem calls. */
module KernelClones {
  import opened Prelude
  import opened Dependencies
  import opened KernelCalls
  import opened Lifecycle

  import Builder

  type CallId = nat

  datatype Kind = BootOnly | BootAndRun

  /** Where one invocation stands. `Refused` met an illegal transition at its
      very first step, `LateIllegal` at a later one. */
  datatype Pc =
    | Start
    | BootingAt(k: nat)
    | BootBroken(k: nat)
    | LoadingAt(k: nat)
    | RollingBack(l: nat, k: nat)
    | Executing
    | ToStop
    | StoppingAt(k: nat)
    | Finished
    | BootError(b: nat)
    | LoadError(l: nat)
    | ExecError
    | Refused
    | LateIllegal

  datatype Invocation = Invocation(kind: Kind, pc: Pc)

  datatype Shared = Shared(
    state: KernelState,
    loaded: set<Name>,
    calls: seq<Call>,
    invocations: map<CallId, Invocation>)

  const INITIAL := Shared(KernelState.Created, {}, [], map[])

  function At(g: Shared, t: CallId, pc: Pc): Shared
    requires t in g.invocations
  {
    g.(invocations := g.invocations[t := g.invocations[t].(pc := pc)])
  }

  /** A lifecycle transition taken by `t`; `no` is where an illegal one leads. */
  function Move(g: Shared, t: CallId, to: KernelState, yes: Pc, no: Pc): Shared
    requires t in g.invocations
  {
    if IsLegal(g.state, to) then At(g.(state := to), t, yes) else At(g, t, no)
  }

  function Record(g: Shared, c: Call): Shared { g.(calls := g.calls + [c]) }

  /** One step of invocation `t`; `ok` says whether the subsystem or the
      execution phase returned normally. */
  function Step(order: seq<Name>, g: Shared, t: CallId, ok: bool): Shared {
    if t !in g.invocations then g
    else
      match g.invocations[t].pc
      case Start => Move(g, t, Booting, BootingAt(0), Refused)
      case BootingAt(k) =>
        if k < |order| then At(Record(g, BootCall(order[k])), t, if ok then BootingAt(k + 1) else BootBroken(k + 1))
        else Move(g, t, Loading, LoadingAt(0), LateIllegal)
      case BootBroken(k) => Move(g, t, KernelState.Failed, BootError(k), BootError(k))
      case LoadingAt(k) =>
        if k < |order| then
          var called := Record(g, LoadCall(order[k]));
          if ok then At(called.(loaded := g.loaded + {order[k]}), t, LoadingAt(k + 1))
          else At(called, t, RollingBack(k, |order|))
        else Move(g, t, Running, if g.invocations[t].kind == BootOnly then Finished else Executing, LateIllegal)
      case RollingBack(l, k) =>
        if 0 < k <= |order| then
          At(if order[k - 1] in g.loaded then Record(g, ShutdownCall(order[k - 1])) else g, t, RollingBack(l, k - 1))
        else Move(g, t, KernelState.Failed, LoadError(l), LoadError(l))
      case Executing => At(g, t, if ok then ToStop else ExecError)
      case ToStop => Move(g, t, Stopping, StoppingAt(|order|), LateIllegal)
      case StoppingAt(k) =>
        if 0 < k <= |order| then At(Record(g, ShutdownCall(order[k - 1])), t, StoppingAt(k - 1))
        else Move(g, t, Stopped, Finished, LateIllegal)
      case _ => g
  }

  datatype Action = Invoke(t: CallId, kind: Kind) | Advance(t: CallId, ok: bool)

  function Act(order: seq<Name>, g: Shared, a: Action): Shared {
    match a
    case Invoke(t, kind) =>
      if t in g.invocations then g else g.(invocations := g.invocations[t := Invocation(kind, Start)])
    case Advance(t, ok) => Step(order, g, t, ok)
  }

  function Interleave(order: seq<Name>, actions: seq<Action>): Shared {
    if actions == [] then INITIAL
    else Act(order, Interleave(order, actions[..|actions| - 1]), actions[|actions| - 1])
  }

  // ------------------------------------------------------------------ invariant

  /** An invocation that has not passed its first transition. */
  predicate Outside(pc: Pc) { pc == Start || pc == Refused }

  ghost function Prefix(order: seq<Name>, k: nat): set<Name>
    requires k <= |order|
  {
    set n | n in order[..k]
  }

  /** What the shared state looks like when its owner stands at `pc`. */
  ghost predicate Position(order: seq<Name>, kind: Kind, pc: Pc, state: KernelState, loaded: set<Name>,
                           calls: seq<Call>)
  {
    var n := |order|;
    match pc
    case BootingAt(k) => k <= n && state == Booting && loaded == {} && calls == Trace(order, k, 0, 0, 0)
    case BootBroken(k) => 0 < k <= n && state == Booting && calls == Trace(order, k, 0, 0, 0)
    case LoadingAt(k) => k <= n && state == Loading && loaded == Prefix(order, k) && calls == Trace(order, n, k, 0, 0)
    case RollingBack(l, k) =>
      l < n && k <= n && state == Loading && loaded == Prefix(order, l)
      && calls == Trace(order, n, l + 1, Min(k, l), l)
    case Executing => kind == BootAndRun && state == Running && calls == Trace(order, n, n, 0, 0)
    case ToStop => kind == BootAndRun && state == Running && calls == Trace(order, n, n, 0, 0)
    case StoppingAt(k) => kind == BootAndRun && k <= n && state == Stopping && calls == Trace(order, n, n, k, n)
    case Finished =>
      if kind == BootOnly then state == Running && calls == Trace(order, n, n, 0, 0)
      else state == Stopped && calls == Trace(order, n, n, 0, n)
    case BootError(b) => 0 < b <= n && state == KernelState.Failed && calls == Trace(order, b, 0, 0, 0)
    case LoadError(l) => l < n && state == KernelState.Failed && calls == Trace(order, n, l + 1, 0, l)
    case ExecError => kind == BootAndRun && state == Running && calls == Trace(order, n, n, 0, 0)
    case _ => false
  }

  /** Nobody is past the first transition and nothing has happened. */
  ghost predicate Untouched(g: Shared) {
    && g.state == KernelState.Created && g.loaded == {} && g.calls == []
    && forall t :: t in g.invocations ==> g.invocations[t].pc == Start
  }

  /** `o` alone is past the first transition and determines the shared state. */
  ghost predicate OwnedBy(order: seq<Name>, g: Shared, o: CallId) {
    && o in g.invocations
    && Position(order, g.invocations[o].kind, g.invocations[o].pc, g.state, g.loaded, g.calls)
    && forall t :: t in g.invocations && t != o ==> Outside(g.invocations[t].pc)
  }

  ghost predicate OwnPosition(order: seq<Name>, g: Shared, o: CallId) {
    && o in g.invocations
    && Position(order, g.invocations[o].kind, g.invocations[o].pc, g.state, g.loaded, g.calls)
  }

  lemma StepTouchesOnlyItself(order: seq<Name>, g: Shared, t: CallId, ok: bool)
    ensures var g' := Step(order, g, t, ok);
      && g'.invocations.Keys == g.invocations.Keys
      && forall u :: u in g.invocations && u != t ==> g'.invocations[u] == g.invocations[u]
  {
  }

  lemma BootingMoves(order: seq<Name>, g: Shared, o: CallId, ok: bool)
    requires OwnPosition(order, g, o) && (g.invocations[o].pc.BootingAt? || g.invocations[o].pc.BootBroken?)
    ensures OwnPosition(order, Step(order, g, o, ok), o)
  {
    var k, n := g.invocations[o].pc.k, |order|;
    if g.invocations[o].pc.BootingAt? {
      if k < n {
        BootGrows(order, k);
      } else {
        assert Trace(order, n, 0, 0, 0) == g.calls && Prefix(order, 0) == {};
      }
    }
  }

  lemma LoadingMoves(order: seq<Name>, g: Shared, o: CallId, ok: bool)
    requires OwnPosition(order, g, o) && g.invocations[o].pc.LoadingAt?
    ensures OwnPosition(order, Step(order, g, o, ok), o)
  {
    var k, n := g.invocations[o].pc.k, |order|;
    if k < n {
      LoadGrows(order, n, k);
      NoDownsYet(order, n, k + 1, k);
      assert order[..k + 1] == order[..k] + [order[k]];
      assert Prefix(order, k + 1) == Prefix(order, k) + {order[k]};
    }
  }

  lemma RollingBackMoves(order: seq<Name>, g: Shared, o: CallId, ok: bool)
    requires Distinct(order) && OwnPosition(order, g, o) && g.invocations[o].pc.RollingBack?
    ensures OwnPosition(order, Step(order, g, o, ok), o)
  {
    var l, k := g.invocations[o].pc.l, g.invocations[o].pc.k;
    if 0 < k {
      RollBackStep(order, g.loaded, g.calls, l, k);
      var g' := Step(order, g, o, ok);
      assert g'.invocations[o].pc == RollingBack(l, k - 1) && g'.state == g.state && g'.loaded == g.loaded;
    }
  }

  lemma RollBackStep(order: seq<Name>, loaded: set<Name>, calls: seq<Call>, l: nat, k: nat)
    requires Distinct(order) && l < |order| && 0 < k <= |order| && loaded == Prefix(order, l)
    requires calls == Trace(order, |order|, l + 1, Min(k, l), l)
    ensures (if order[k - 1] in loaded then calls + [ShutdownCall(order[k - 1])] else calls)
         == Trace(order, |order|, l + 1, Min(k - 1, l), l)
  {
    InPrefix(order, k - 1, l);
    if k - 1 < l {
      DownGrows(order, |order|, l + 1, k, l);
    }
  }

  lemma StoppingMoves(order: seq<Name>, g: Shared, o: CallId, ok: bool)
    requires OwnPosition(order, g, o) && (g.invocations[o].pc.ToStop? || g.invocations[o].pc.StoppingAt?)
    ensures OwnPosition(order, Step(order, g, o, ok), o)
  {
    var n := |order|;
    NoDownsYet(order, n, n, n);
    if g.invocations[o].pc.StoppingAt? && 0 < g.invocations[o].pc.k {
      DownGrows(order, n, n, g.invocations[o].pc.k, n);
    }
  }

  lemma OwnerMoves(order: seq<Name>, g: Shared, o: CallId, ok: bool)
    requires Distinct(order) && OwnedBy(order, g, o)
    ensures OwnedBy(order, Step(order, g, o, ok), o)
  {
    StepTouchesOnlyItself(order, g, o, ok);
    assert OwnPosition(order, Step(order, g, o, ok), o) by {
      match g.invocations[o].pc
      case BootingAt(_) => BootingMoves(order, g, o, ok);
      case BootBroken(_) => BootingMoves(order, g, o, ok);
      case LoadingAt(_) => LoadingMoves(order, g, o, ok);
      case RollingBack(_, _) => RollingBackMoves(order, g, o, ok);
      case ToStop => StoppingMoves(order, g, o, ok);
      case StoppingAt(_) => StoppingMoves(order, g, o, ok);
      case _ =>
    }
  }

  lemma InPrefix(order: seq<Name>, i: nat, l: nat)
    requires Distinct(order) && i < |order| && l <= |order|
    ensures order[i] in Prefix(order, l) <==> i < l
  {
    if i < l {
      assert order[..l][i] == order[i];
    }
  }

  lemma ActKeepsOwnership(order: seq<Name>, g: Shared, a: Action)
    requires Distinct(order) && (Untouched(g) || exists o :: OwnedBy(order, g, o))
    ensures var g' := Act(order, g, a); Untouched(g') || exists o :: OwnedBy(order, g', o)
    ensures forall o :: OwnedBy(order, g, o) ==> OwnedBy(order, Act(order, g, a), o)
  {
    var g' := Act(order, g, a);
    if Untouched(g) && a.Advance? && a.t in g.invocations {
      assert OwnedBy(order, g', a.t);
    }
    forall o | OwnedBy(order, g, o) ensures OwnedBy(order, g', o) {
      if a.Advance? && a.t == o {
        OwnerMoves(order, g, o, a.ok);
      } else if a.Advance? && a.t in g.invocations {
        assert Outside(g.invocations[a.t].pc);
        assert !IsLegal(g.state, Booting);
      }
    }
  }

  lemma {:induction false} EveryInterleavingIsOwned(order: seq<Name>, actions: seq<Action>)
    requires Distinct(order)
    ensures var g := Interleave(order, actions); Untouched(g) || exists o :: OwnedBy(order, g, o)
  {
    if actions != [] {
      EveryInterleavingIsOwned(order, actions[..|actions| - 1]);
      ActKeepsOwnership(order, Interleave(order, actions[..|actions| - 1]), actions[|actions| - 1]);
    }
  }

  // ------------------------------------------------------------- consequences

  /** Across all clones, no subsystem's boot, load or shutdown is called twice. */
  lemma EachCallHappensOnce(order: seq<Name>, actions: seq<Action>)
    requires Distinct(order)
    ensures Distinct(Interleave(order, actions).calls)
  {
    EveryInterleavingIsOwned(order, actions);
    var g := Interleave(order, actions);
    if !Untouched(g) {
      var o :| OwnedBy(order, g, o);
      var b, l, lo, hi := PositionIsTrace(order, g, o);
      TraceCallsOnce(order, b, l, lo, hi);
    }
  }

  /** Across all clones, around every dependency of `x` on `y`, `y` boots and
      loads first and shuts down last, and nothing is loaded or shut down before
      every subsystem was booted. */
  lemma InterleavedCallsRespectDependencies(subs: seq<Subsystem>, order: seq<Name>, actions: seq<Action>,
                                            x: Name, y: Name)
    requires Distinct(order) && DependenciesFirst(subs, order) && DependsOn(subs, x, y) && x in order
    ensures var t := Interleave(order, actions).calls;
      && Precedes(t, BootCall(y), BootCall(x))
      && Precedes(t, LoadCall(y), LoadCall(x))
      && Precedes(t, ShutdownCall(x), ShutdownCall(y))
      && (BootCall(x) in t ==> BootCall(y) in t)
      && (LoadCall(x) in t ==> LoadCall(y) in t)
      && forall i :: 0 <= i < |t| && !t[i].BootCall? ==>
           |order| <= i && forall k :: 0 <= k < |order| ==> t[k] == BootCall(order[k])
  {
    EveryInterleavingIsOwned(order, actions);
    var g := Interleave(order, actions);
    if !Untouched(g) {
      var o :| OwnedBy(order, g, o);
      var b, l, lo, hi := PositionIsTrace(order, g, o);
      TraceRespectsDependencies(subs, order, b, l, lo, hi, x, y);
      BootsComeFirst(order, b, l, lo, hi);
    }
  }

  /** A kernel built from these subsystems and shared by any number of clones calls
      each of them at most once and respects every declared dependency. */
  lemma BuiltClonesRespectDependencies(subs: seq<Subsystem>, ordered: seq<Subsystem>, actions: seq<Action>,
                                       x: Name, y: Name)
    requires Builder.IsBootOrder(subs, Names(ordered)) && DependsOn(subs, x, y)
    ensures RespectsDependency(Interleave(Names(ordered), actions).calls, x, y)
  {
    assert x in Builder.NameSet(subs);
    EachCallHappensOnce(Names(ordered), actions);
    InterleavedCallsRespectDependencies(subs, Names(ordered), actions, x, y);
  }

  lemma BootsComeFirst(order: seq<Name>, b: nat, l: nat, lo: nat, hi: nat)
    requires b <= |order| && l <= |order| && lo <= hi <= |order|
    requires l > 0 || hi > lo ==> b == |order|
    ensures var t := Trace(order, b, l, lo, hi);
      forall i :: 0 <= i < |t| && !t[i].BootCall? ==>
        |order| <= i && forall k :: 0 <= k < |order| ==> t[k] == BootCall(order[k])
  {
    var t := Trace(order, b, l, lo, hi);
    forall i | 0 <= i < |t| && !t[i].BootCall?
      ensures |order| <= i && forall k :: 0 <= k < |order| ==> t[k] == BootCall(order[k])
    {
      TraceAt(order, b, l, lo, hi, i);
    }
  }

  lemma PositionIsTrace(order: seq<Name>, g: Shared, o: CallId) returns (b: nat, l: nat, lo: nat, hi: nat)
    requires OwnedBy(order, g, o)
    ensures b <= |order| && l <= |order| && lo <= hi <= |order| && g.calls == Trace(order, b, l, lo, hi)
    ensures l > 0 || hi > lo ==> b == |order|
  {
    var n := |order|;
    match g.invocations[o].pc
    case BootingAt(k) => b, l, lo, hi := k, 0, 0, 0;
    case BootBroken(k) => b, l, lo, hi := k, 0, 0, 0;
    case LoadingAt(k) => b, l, lo, hi := n, k, 0, 0;
    case RollingBack(f, k) => b, l, lo, hi := n, f + 1, Min(k, f), f;
    case StoppingAt(k) => b, l, lo, hi := n, n, k, n;
    case Finished => b, l, lo, hi := n, n, 0, if g.invocations[o].kind == BootOnly then 0 else n;
    case BootError(k) => b, l, lo, hi := k, 0, 0, 0;
    case LoadError(f) => b, l, lo, hi := n, f + 1, 0, f;
    case Executing => b, l, lo, hi := n, n, 0, 0;
    case ToStop => b, l, lo, hi := n, n, 0, 0;
    case ExecError => b, l, lo, hi := n, n, 0, 0;
    case _ => assert false;
  }

  /** A `run` that finishes leaves the kernel Stopped with everything shut down in
      reverse, and no invocation ever meets an illegal transition after its
      first step. */
  lemma FinishedRunIsStopped(order: seq<Name>, actions: seq<Action>, t: CallId)
    requires Distinct(order) && t in Interleave(order, actions).invocations
    ensures var g := Interleave(order, actions);
      && g.invocations[t].pc != LateIllegal
      && (g.invocations[t] == Invocation(BootAndRun, Finished) ==>
            g.state == Stopped && g.calls == Trace(order, |order|, |order|, 0, |order|))
  {
    EveryInterleavingIsOwned(order, actions);
    var g := Interleave(order, actions);
    if !Untouched(g) {
      var o :| OwnedBy(order, g, o);
    }
  }

  /** Whoever gets past the first transition stays the only one to do so. */
  lemma {:induction false} OwnerIsForever(order: seq<Name>, actions: seq<Action>, k: nat, o: CallId)
    requires Distinct(order) && k <= |actions| && OwnedBy(order, Interleave(order, actions[..k]), o)
    ensures OwnedBy(order, Interleave(order, actions), o)
    decreases |actions| - k
  {
    if k == |actions| {
      assert actions[..k] == actions;
    } else {
      assert actions[..k + 1][..k] == actions[..k];
      EveryInterleavingIsOwned(order, actions[..k]);
      ActKeepsOwnership(order, Interleave(order, actions[..k]), actions[k]);
      OwnerIsForever(order, actions, k + 1, o);
    }
  }

  /** In every interleaving the phase ordinal never decreases. */
  lemma {:induction false} InterleavedPhasesNeverGoBack(order: seq<Name>, actions: seq<Action>, k: nat)
    requires k <= |actions|
    ensures Ordinal(PhaseOf(Interleave(order, actions[..k]).state))
         <= Ordinal(PhaseOf(Interleave(order, actions).state))
    decreases |actions| - k
  {
    if k == |actions| {
      assert actions[..k] == actions;
    } else {
      assert actions[..k + 1][..k] == actions[..k];
      StepMovesForward(order, Interleave(order, actions[..k]), actions[k]);
      InterleavedPhasesNeverGoBack(order, actions, k + 1);
    }
  }

  lemma StepMovesForward(order: seq<Name>, g: Shared, a: Action)
    ensures var s' := Act(order, g, a).state; s' == g.state || IsLegal(g.state, s')
  {
  }
}
