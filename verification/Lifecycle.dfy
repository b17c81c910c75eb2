/** The lifecycle controller and its table of legal transitions. */
module Lifecycle {
  import opened Prelude

  datatype KernelState = Created | Booting | Loading | Running | Degraded | Stopping | Stopped | Failed

  datatype Phase = Idle | Boot | Load | Exec | Shutdown

  function PhaseOf(s: KernelState): Phase {
    match s
    case Created => Idle
    case Booting => Boot
    case Loading => Load
    case Running => Exec
    case Degraded => Exec
    case _ => Shutdown
  }

  function Ordinal(p: Phase): nat {
    match p
    case Idle => 0
    case Boot => 1
    case Load => 2
    case Exec => 3
    case Shutdown => 4
  }

  predicate IsTerminal(s: KernelState) { s == Stopped || s == Failed }

  predicate IsLegal(from: KernelState, to: KernelState) {
    match from
    case Created => to == Booting
    case Booting => to == Loading || to == Failed
    case Loading => to == Running || to == Failed
    case Running => to == Degraded || to == Stopping || to == Failed
    case Degraded => to == Running || to == Stopping || to == Failed
    case Stopping => to == Stopped || to == Failed
    case Stopped => false
    case Failed => false
  }

  /** The legal moves. */
  const LEGAL_MOVES: set<(KernelState, KernelState)> := {
    (Created, Booting),
    (Booting, Loading), (Booting, Failed),
    (Loading, Running), (Loading, Failed),
    (Running, Degraded), (Running, Stopping), (Running, Failed),
    (Degraded, Running), (Degraded, Stopping), (Degraded, Failed),
    (Stopping, Stopped), (Stopping, Failed)}

  /** The table has these thirteen moves and no others, and no move stays put. */
  lemma LegalExactlyWhen(from: KernelState, to: KernelState)
    ensures IsLegal(from, to) <==> (from, to) in LEGAL_MOVES
    ensures IsLegal(from, to) ==> from != to
  {
  }

  /** The phases begin at Idle, a legal move that does not fail stays in its phase or
      enters the next one, and a failed or stopped kernel is in the last. */
  lemma PhasesAdvanceOneByOne(from: KernelState, to: KernelState)
    ensures Ordinal(PhaseOf(Created)) == 0 && Ordinal(PhaseOf(Stopped)) == Ordinal(PhaseOf(KernelState.Failed)) == 4
    ensures IsLegal(from, to) && to != Failed ==>
      var stays := from == Stopping || {from, to} == {Running, Degraded};
      Ordinal(PhaseOf(to)) == Ordinal(PhaseOf(from)) + if stays then 0 else 1
  {
  }

  datatype TransitionError = TransitionError(from: KernelState, to: KernelState)

  function AssertLegal(from: KernelState, to: KernelState): (r: Result<(), TransitionError>)
    ensures r.Ok? <==> IsLegal(from, to)
  {
    if IsLegal(from, to) then Ok(()) else Err(TransitionError(from, to))
  }

  // --------------------------------------------------- sequences of attempts

  /** The state after one attempt; an illegal one changes nothing. */
  function Attempt(s: KernelState, to: KernelState): KernelState {
    if IsLegal(s, to) then to else s
  }

  /** The states visited by a sequence of attempts, one more than attempts. */
  function Visited(s: KernelState, attempts: seq<KernelState>): (r: seq<KernelState>)
    ensures |r| == |attempts| + 1
  {
    if attempts == [] then [s]
    else
      var before := Visited(s, attempts[..|attempts| - 1]);
      before + [Attempt(before[|before| - 1], attempts[|attempts| - 1])]
  }

  /** Phase ordinals never decrease, and a terminal state is never left. */
  lemma {:induction false} PhasesNeverGoBack(s: KernelState, attempts: seq<KernelState>, i: nat, j: nat)
    requires i <= j <= |attempts|
    ensures Ordinal(PhaseOf(Visited(s, attempts)[i])) <= Ordinal(PhaseOf(Visited(s, attempts)[j]))
    ensures IsTerminal(Visited(s, attempts)[i]) ==> Visited(s, attempts)[j] == Visited(s, attempts)[i]
    decreases |attempts|
  {
    if attempts != [] {
      var before := attempts[..|attempts| - 1];
      if j == |attempts| && i < j {
        PhasesNeverGoBack(s, before, i, j - 1);
      } else if j < |attempts| {
        PhasesNeverGoBack(s, before, i, j);
      }
    }
  }

  /** A state that is left can be entered again only if it is Running or
      Degraded. */
  lemma OnlySteadyStatesRepeat(s: KernelState, attempts: seq<KernelState>, i: nat, j: nat, k: nat)
    requires i < j < k <= |attempts|
    requires Visited(s, attempts)[i] == Visited(s, attempts)[k] != Visited(s, attempts)[j]
    ensures PhaseOf(Visited(s, attempts)[i]) == Exec
  {
    RanksNeverDrop(s, attempts, i, j);
    RanksNeverDrop(s, attempts, j, k);
  }

  function Rank(s: KernelState): nat {
    match s
    case Created => 0
    case Booting => 1
    case Loading => 2
    case Running => 3
    case Degraded => 3
    case Stopping => 4
    case Stopped => 5
    case Failed => 6
  }

  lemma {:induction false} RanksNeverDrop(s: KernelState, attempts: seq<KernelState>, i: nat, j: nat)
    requires i <= j <= |attempts|
    ensures Rank(Visited(s, attempts)[i]) <= Rank(Visited(s, attempts)[j])
    decreases |attempts|
  {
    if attempts != [] {
      var before := attempts[..|attempts| - 1];
      if j == |attempts| && i < j {
        RanksNeverDrop(s, before, i, j - 1);
      } else if j < |attempts| {
        RanksNeverDrop(s, before, i, j);
      }
    }
  }

  // ---------------------------------------------------------------- controller

  datatype TransitionEvent = TransitionEvent(from: KernelState, to: KernelState, at: nat)

  datatype LifecycleSnapshot = LifecycleSnapshot(state: KernelState, phase: Phase, lastTransition: nat)

  class LifecycleController {
    var state: KernelState
    var lastTransition: nat
    var emitted: seq<TransitionEvent>

    /** The events chain from Created to the current state by legal moves. */
    ghost predicate Valid()
      reads this
    {
      && (forall i :: 0 <= i < |emitted| ==> IsLegal(emitted[i].from, emitted[i].to))
      && (forall i :: 1 <= i < |emitted| ==> emitted[i].from == emitted[i - 1].to)
      && (if emitted == [] then state == Created
          else emitted[0].from == Created && state == emitted[|emitted| - 1].to
               && lastTransition == emitted[|emitted| - 1].at)
    }

    constructor (now: nat)
      ensures Valid() && state == Created && emitted == [] && lastTransition == now
    {
      state, lastTransition, emitted := Created, now, [];
    }

    method Transition(to: KernelState, now: nat) returns (r: Result<(), TransitionError>)
      requires Valid()
      modifies this
      ensures Valid()
      ensures r.Ok? <==> IsLegal(old(state), to)
      ensures state == Attempt(old(state), to)
      ensures r.Ok? ==> emitted == old(emitted) + [TransitionEvent(old(state), to, now)] && lastTransition == now
      ensures r.Err? ==> r.error == TransitionError(old(state), to)
                         && emitted == old(emitted) && lastTransition == old(lastTransition)
    {
      r := AssertLegal(state, to);
      if r.Err? {
        return;
      }
      var from := state;
      state := to;
      lastTransition := now;
      emitted := emitted + [TransitionEvent(from, to, now)];
    }

    /** State, phase and time all belong to the latest transition emitted. */
    method Snapshot() returns (s: LifecycleSnapshot)
      requires Valid()
      ensures s.phase == PhaseOf(s.state)
      ensures if emitted == [] then s.state == Created
              else emitted[|emitted| - 1] == TransitionEvent(emitted[|emitted| - 1].from, s.state, s.lastTransition)
    {
      s := LifecycleSnapshot(state, PhaseOf(state), lastTransition);
    }
  }
}
