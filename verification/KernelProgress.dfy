/** What becomes of the one invocation that gets past its first transition, whatever
    other clones do in between: how far its own steps take it, and why it ends in
    an error if it does. */
module KernelProgress {
  import opened Prelude
  import opened Dependencies
  import opened KernelCalls
  import opened KernelClones
  import opened Lifecycle

  /** On the way to finishing. */
  predicate OnTrack(pc: Pc) {
    pc.BootingAt? || pc.LoadingAt? || pc.Executing? || pc.ToStop? || pc.StoppingAt? || pc.Finished?
  }

  /** On the way to reporting a failed boot or load. */
  predicate InTrouble(pc: Pc) { pc.BootBroken? || pc.BootError? || pc.RollingBack? || pc.LoadError? }

  /** Own steps left until the invocation is done with. */
  function StepsLeft(n: nat, kind: Kind, pc: Pc): nat {
    var exec := if kind == BootOnly then 0 else n + 3;
    match pc
    case BootingAt(k) => n - Min(k, n) + 1 + n + 1 + exec
    case LoadingAt(k) => n - Min(k, n) + 1 + exec
    case Executing => n + 3
    case ToStop => n + 2
    case StoppingAt(k) => k + 1
    case BootBroken(_) => 1
    case RollingBack(_, k) => k + 1
    case _ => 0
  }

  function OwnSteps(more: seq<Action>, o: CallId): nat {
    if more == [] then 0
    else
      var a := more[|more| - 1];
      OwnSteps(more[..|more| - 1], o) + if a.Advance? && a.t == o then 1 else 0
  }

  ghost predicate AllOk(more: seq<Action>, o: CallId) {
    forall i :: 0 <= i < |more| && more[i].Advance? && more[i].t == o ==> more[i].ok
  }

  lemma InterleaveConcat(order: seq<Name>, actions: seq<Action>, more: seq<Action>, a: Action)
    ensures Interleave(order, actions + (more + [a])) == Act(order, Interleave(order, actions + more), a)
  {
    assert (actions + (more + [a]))[..|actions| + |more|] == actions + more;
  }

  // ------------------------------------------------------------------- progress

  /** From `pc` the invocation stays on its way and is one step nearer at `next`. */
  predicate Nearer(n: nat, kind: Kind, pc: Pc, next: Pc) {
    && (OnTrack(pc) <==> OnTrack(next)) && (InTrouble(pc) <==> InTrouble(next))
    && StepsLeft(n, kind, next) == Max(StepsLeft(n, kind, pc) - 1, 0)
  }

  /** A step of the owner that returns normally brings it one step nearer. */
  lemma OkStepAdvances(order: seq<Name>, g: Shared, o: CallId, ok: bool)
    requires OwnedBy(order, g, o)
    requires (OnTrack(g.invocations[o].pc) && ok) || InTrouble(g.invocations[o].pc)
    ensures var i, next := g.invocations[o], Step(order, g, o, ok).invocations[o];
      next.kind == i.kind && Nearer(|order|, i.kind, i.pc, next.pc)
  {
    var pc := g.invocations[o].pc;
    if pc.BootingAt? || pc.LoadingAt? {
      OkBootOrLoadAdvances(order, g, o);
    } else if InTrouble(pc) {
      TroubleAdvances(order, g, o, ok);
    } else {
      OkStopAdvances(order, g, o);
    }
  }

  lemma OkBootOrLoadAdvances(order: seq<Name>, g: Shared, o: CallId)
    requires OwnedBy(order, g, o)
    requires g.invocations[o].pc.BootingAt? || g.invocations[o].pc.LoadingAt?
    ensures var i, next := g.invocations[o], Step(order, g, o, true).invocations[o];
      next.kind == i.kind && Nearer(|order|, i.kind, i.pc, next.pc)
  {
  }

  lemma OkStopAdvances(order: seq<Name>, g: Shared, o: CallId)
    requires OwnedBy(order, g, o)
    requires var pc := g.invocations[o].pc; pc.Executing? || pc.ToStop? || pc.StoppingAt? || pc.Finished?
    ensures var i, next := g.invocations[o], Step(order, g, o, true).invocations[o];
      next.kind == i.kind && Nearer(|order|, i.kind, i.pc, next.pc)
  {
  }

  lemma TroubleAdvances(order: seq<Name>, g: Shared, o: CallId, ok: bool)
    requires OwnedBy(order, g, o) && InTrouble(g.invocations[o].pc)
    ensures var i, next := g.invocations[o], Step(order, g, o, ok).invocations[o];
      next.kind == i.kind && Nearer(|order|, i.kind, i.pc, next.pc)
  {
  }

  /** `i` has come to `next` by `steps` own steps, or all that were left. */
  predicate Came(n: nat, i: Invocation, next: Invocation, steps: nat) {
    && next.kind == i.kind
    && (OnTrack(i.pc) <==> OnTrack(next.pc)) && (InTrouble(i.pc) <==> InTrouble(next.pc))
    && StepsLeft(n, i.kind, next.pc) == Max(StepsLeft(n, i.kind, i.pc) - steps, 0)
  }

  lemma CameOneFurther(n: nat, i: Invocation, mid: Invocation, next: Invocation, steps: nat)
    requires Came(n, i, mid, steps) && next.kind == mid.kind && Nearer(n, mid.kind, mid.pc, next.pc)
    ensures Came(n, i, next, steps + 1)
  {
  }

  /** Whatever the others do, the owner is as far on as its own steps took it. */
  lemma {:induction false} StepsAreCounted(order: seq<Name>, actions: seq<Action>, more: seq<Action>, o: CallId)
    requires Distinct(order) && OwnedBy(order, Interleave(order, actions), o)
    requires var pc := Interleave(order, actions).invocations[o].pc; (OnTrack(pc) && AllOk(more, o)) || InTrouble(pc)
    ensures OwnedBy(order, Interleave(order, actions + more), o)
    ensures Came(|order|, Interleave(order, actions).invocations[o], Interleave(order, actions + more).invocations[o],
                 OwnSteps(more, o))
  {
    if more == [] {
      assert actions + more == actions;
    } else {
      var before, a := more[..|more| - 1], more[|more| - 1];
      StepsAreCounted(order, actions, before, o);
      assert more == before + [a];
      InterleaveConcat(order, actions, before, a);
      var g := Interleave(order, actions + before);
      ActKeepsOwnership(order, g, a);
      if a.Advance? && a.t == o {
        OkStepAdvances(order, g, o, a.ok);
        CameOneFurther(|order|, Interleave(order, actions).invocations[o], g.invocations[o],
                       Step(order, g, o, a.ok).invocations[o], OwnSteps(before, o));
      } else {
        OthersLeaveIt(order, g, a, o);
      }
    }
  }

  lemma OthersLeaveIt(order: seq<Name>, g: Shared, a: Action, o: CallId)
    requires o in g.invocations && !(a.Advance? && a.t == o)
    ensures o in Act(order, g, a).invocations && Act(order, g, a).invocations[o] == g.invocations[o]
  {
    if a.Advance? {
      StepTouchesOnlyItself(order, g, a.t, a.ok);
    }
  }

  /** An owner on track whose steps all return normally finishes as soon as it has
      taken enough of them: a `run` with the kernel Stopped and everything shut down in
      reverse, a `boot` with it Running. An owner at the execution phase needs
      |order| + 3. */
  lemma OkOwnerFinishes(order: seq<Name>, actions: seq<Action>, more: seq<Action>, o: CallId)
    requires Distinct(order) && OwnedBy(order, Interleave(order, actions), o)
    requires var i := Interleave(order, actions).invocations[o];
      OnTrack(i.pc) && AllOk(more, o) && OwnSteps(more, o) >= StepsLeft(|order|, i.kind, i.pc)
    ensures var n, g' := |order|, Interleave(order, actions + more);
      && o in g'.invocations && g'.invocations[o].pc == Finished
      && g'.invocations[o].kind == Interleave(order, actions).invocations[o].kind
      && (g'.invocations[o].kind == BootAndRun ==> g'.state == Stopped && g'.calls == Trace(order, n, n, 0, n))
      && (g'.invocations[o].kind == BootOnly ==> g'.state == Running && g'.calls == Trace(order, n, n, 0, 0))
  {
    StepsAreCounted(order, actions, more, o);
  }

  /** An owner in trouble reports it once it has taken enough steps, with the kernel
      Failed: after a failed load everything that loaded is shut down in reverse,
      after a failed boot nothing is. */
  lemma TroubledOwnerFails(order: seq<Name>, actions: seq<Action>, more: seq<Action>, o: CallId)
    requires Distinct(order) && OwnedBy(order, Interleave(order, actions), o)
    requires var i := Interleave(order, actions).invocations[o];
      InTrouble(i.pc) && OwnSteps(more, o) >= StepsLeft(|order|, i.kind, i.pc)
    ensures var n, g' := |order|, Interleave(order, actions + more);
      && o in g'.invocations && g'.state == KernelState.Failed
      && match g'.invocations[o].pc
         case BootError(b) => b <= n && g'.calls == Trace(order, b, 0, 0, 0)
         case LoadError(l) => l < n && g'.calls == Trace(order, n, l + 1, 0, l)
         case _ => false
  {
    StepsAreCounted(order, actions, more, o);
  }

  /** The first step of an invocation: it becomes the owner if the kernel is still in
      Created, and is refused otherwise. */
  lemma FirstStepOwnsOrIsRefused(order: seq<Name>, actions: seq<Action>, t: CallId, ok: bool)
    requires Distinct(order) && t in Interleave(order, actions).invocations
    requires Interleave(order, actions).invocations[t].pc == Start
    ensures var g, g' := Interleave(order, actions), Interleave(order, actions + [Advance(t, ok)]);
      && t in g'.invocations
      && (g.state == KernelState.Created ==> OwnedBy(order, g', t) && g'.invocations[t].pc == BootingAt(0))
      && (g.state != KernelState.Created ==>
            g'.invocations[t].pc == Refused && g'.calls == g.calls && g'.state == g.state)
  {
    EveryInterleavingIsOwned(order, actions);
    assert (actions + [Advance(t, ok)])[..|actions|] == actions;
    var g := Interleave(order, actions);
    if Untouched(g) {
      assert OwnedBy(order, Act(order, g, Advance(t, ok)), t);
    }
  }

  /** A step that does not return normally: boot and load go into trouble at once,
      execution ends the invocation. */
  lemma FailingStepIsTrouble(order: seq<Name>, actions: seq<Action>, o: CallId)
    requires Distinct(order) && OwnedBy(order, Interleave(order, actions), o)
    ensures var g, g' := Interleave(order, actions), Interleave(order, actions + [Advance(o, false)]);
      && o in g'.invocations
      && match g.invocations[o].pc
         case BootingAt(k) => k < |order| ==> g'.invocations[o].pc == BootBroken(k + 1)
         case LoadingAt(k) => k < |order| ==> g'.invocations[o].pc == RollingBack(k, |order|)
         case Executing => g'.invocations[o].pc == ExecError
         case _ => true
  {
    assert (actions + [Advance(o, false)])[..|actions|] == actions;
  }

  // --------------------------------------------------------------------- causes

  /** `pc` is the mark of a step that did not return normally, taken at `before`. */
  predicate MarksFailure(before: Pc, pc: Pc) {
    match pc
    case BootBroken(b) => b > 0 && before == BootingAt(b - 1)
    case BootError(b) => b > 0 && before == BootingAt(b - 1)
    case RollingBack(l, _) => before == LoadingAt(l)
    case LoadError(l) => before == LoadingAt(l)
    case ExecError => before == Executing
    case _ => false
  }

  predicate IsErrorPc(pc: Pc) { InTrouble(pc) || pc == ExecError }

  /** At action `k`, `t` took a step that did not return normally, marked by `pc`. */
  ghost predicate FailedAt(order: seq<Name>, actions: seq<Action>, k: nat, t: CallId, pc: Pc)
    requires k < |actions|
  {
    var g := Interleave(order, actions[..k]);
    actions[k] == Advance(t, false) && t in g.invocations && MarksFailure(g.invocations[t].pc, pc)
  }

  ghost predicate HasCause(order: seq<Name>, actions: seq<Action>, t: CallId, pc: Pc) {
    exists k :: 0 <= k < |actions| && FailedAt(order, actions, k, t, pc)
  }

  lemma ErrorsArise(order: seq<Name>, g: Shared, a: Action, t: CallId)
    requires t in Act(order, g, a).invocations && IsErrorPc(Act(order, g, a).invocations[t].pc)
    requires t in g.invocations ==> WellPlaced(order, g.invocations[t].pc)
    ensures var pc := Act(order, g, a).invocations[t].pc;
      t in g.invocations
      && ((a == Advance(t, false) && MarksFailure(g.invocations[t].pc, pc))
          || (IsErrorPc(g.invocations[t].pc)
              && forall before :: MarksFailure(before, g.invocations[t].pc) ==> MarksFailure(before, pc)))
  {
  }

  /** Indices stay within the order. */
  predicate WellPlaced(order: seq<Name>, pc: Pc) {
    match pc
    case BootBroken(b) => b > 0
    case BootError(b) => b > 0
    case _ => true
  }

  lemma CausePersists(order: seq<Name>, actions: seq<Action>, t: CallId, before: Pc, pc: Pc)
    requires actions != [] && HasCause(order, actions[..|actions| - 1], t, before)
    requires forall at :: MarksFailure(at, before) ==> MarksFailure(at, pc)
    ensures HasCause(order, actions, t, pc)
  {
    var earlier := actions[..|actions| - 1];
    var k :| 0 <= k < |earlier| && FailedAt(order, earlier, k, t, before);
    assert earlier[..k] == actions[..k];
    assert FailedAt(order, actions, k, t, pc);
  }

  /** In every interleaving, an invocation stands at an error only because a step of
      its own did not return normally, where that error comes from. */
  lemma {:induction false} ErrorsHaveCauses(order: seq<Name>, actions: seq<Action>, t: CallId)
    requires Distinct(order) && t in Interleave(order, actions).invocations
    requires IsErrorPc(Interleave(order, actions).invocations[t].pc)
    ensures HasCause(order, actions, t, Interleave(order, actions).invocations[t].pc)
  {
    var before, a := actions[..|actions| - 1], actions[|actions| - 1];
    var g, pc := Interleave(order, before), Interleave(order, actions).invocations[t].pc;
    PlacesAreOwned(order, before, t);
    ErrorsArise(order, g, a, t);
    if a == Advance(t, false) && MarksFailure(g.invocations[t].pc, pc) {
      assert FailedAt(order, actions, |actions| - 1, t, pc);
    } else {
      ErrorsHaveCauses(order, before, t);
      CausePersists(order, actions, t, g.invocations[t].pc, pc);
    }
  }

  lemma PlacesAreOwned(order: seq<Name>, actions: seq<Action>, t: CallId)
    requires Distinct(order)
    ensures var g := Interleave(order, actions); t in g.invocations ==> WellPlaced(order, g.invocations[t].pc)
  {
    EveryInterleavingIsOwned(order, actions);
    var g := Interleave(order, actions);
    if !Untouched(g) {
      var o :| OwnedBy(order, g, o);
    }
  }
}
