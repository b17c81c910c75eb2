/** The shutdown flag with its mutex and condition variable, as a state machine
    over the atomic steps of any number of signallers and waiters. */
module ShutdownSignal {
  import opened Prelude

  type Thread = nat

  /** Where a thread stands. A signaller locks, stores, unlocks and notifies; a
      waiter locks, checks, and parks in one step with releasing the lock. A
      parked waiter may also be woken spuriously or, if timed, by its timeout. */
  datatype Pc =
    | WantsToSignal
    | HoldsToSignal
    | HoldsStored
    | MustNotify
    | Signalled
    | WantsToCheck(timed: bool)
    | Checking(timed: bool)
    | SawUnset(timed: bool)
    | Parked(timed: bool)
    | Woken(timed: bool, timedOut: bool)
    | Rechecking(timed: bool, timedOut: bool)
    | Returned(timed: bool, result: bool)

  datatype State = State(flag: bool, holder: Option<Thread>, threads: map<Thread, Pc>)

  const INITIAL := State(false, None, map[])

  datatype Action =
    | StartSignal(t: Thread)
    | StartWait(t: Thread, timed: bool)
    | Proceed(t: Thread, deadlinePassed: bool)
    | Wake(t: Thread, byTimeout: bool)

  function At(s: State, t: Thread, pc: Pc): State { s.(threads := s.threads[t := pc]) }

  function Lock(s: State, t: Thread, pc: Pc): State {
    if s.holder.None? then At(s, t, pc).(holder := Some(t)) else s
  }

  function Unlock(s: State, t: Thread, pc: Pc): State { At(s, t, pc).(holder := None) }

  /** Every parked waiter is woken at once. */
  function NotifyAll(s: State): State {
    s.(threads := map t | t in s.threads ::
         if s.threads[t].Parked? then Woken(s.threads[t].timed, false) else s.threads[t])
  }

  function Advance(s: State, t: Thread, deadlinePassed: bool): State
    requires t in s.threads
  {
    match s.threads[t]
    case WantsToSignal => Lock(s, t, HoldsToSignal)
    case HoldsToSignal => At(s, t, HoldsStored).(flag := true)
    case HoldsStored => Unlock(s, t, MustNotify)
    case MustNotify => At(NotifyAll(s), t, Signalled)
    case WantsToCheck(timed) => Lock(s, t, Checking(timed))
    case Checking(timed) => if s.flag then Unlock(s, t, Returned(timed, true)) else At(s, t, SawUnset(timed))
    case SawUnset(timed) =>
      if timed && deadlinePassed then Unlock(s, t, Returned(timed, false)) else Unlock(s, t, Parked(timed))
    case Woken(timed, timedOut) => Lock(s, t, Rechecking(timed, timedOut))
    case Rechecking(timed, timedOut) =>
      if timedOut && !s.flag then Unlock(s, t, Returned(timed, false)) else At(s, t, Checking(timed))
    case _ => s
  }

  function Step(s: State, a: Action): State {
    match a
    case StartSignal(t) => if t in s.threads then s else At(s, t, WantsToSignal)
    case StartWait(t, timed) => if t in s.threads then s else At(s, t, WantsToCheck(timed))
    case Proceed(t, deadlinePassed) => if t in s.threads then Advance(s, t, deadlinePassed) else s
    case Wake(t, byTimeout) =>
      if t in s.threads && s.threads[t].Parked? then
        At(s, t, Woken(s.threads[t].timed, byTimeout && s.threads[t].timed))
      else s
  }

  function Run(actions: seq<Action>): State {
    if actions == [] then INITIAL
    else Step(Run(actions[..|actions| - 1]), actions[|actions| - 1])
  }

  // ------------------------------------------------------------------ invariant

  predicate InLock(pc: Pc) {
    pc.HoldsToSignal? || pc.HoldsStored? || pc.Checking? || pc.SawUnset? || pc.Rechecking?
  }

  /** Between its store and its notify. */
  predicate Owes(pc: Pc) { pc.HoldsStored? || pc.MustNotify? }

  ghost predicate SomeoneOwes(s: State) {
    exists t :: t in s.threads && Owes(s.threads[t])
  }

  ghost predicate MutexOk(s: State) {
    && (s.holder.Some? ==> s.holder.value in s.threads)
    && forall t :: t in s.threads ==> (InLock(s.threads[t]) <==> s.holder == Some(t))
  }

  /** A thread in the critical section that saw the flag unset is still right; a
      waiter that returned true, or an untimed one that returned, saw it set. */
  ghost predicate FlagOk(s: State) {
    forall t :: t in s.threads ==>
      && (s.threads[t].SawUnset? ==> !s.flag)
      && (Owes(s.threads[t]) || s.threads[t].Signalled? ==> s.flag)
      && (s.threads[t].Woken? && s.threads[t].timedOut ==> s.threads[t].timed)
      && (s.threads[t].Rechecking? && s.threads[t].timedOut ==> s.threads[t].timed)
      && (s.threads[t].Returned? && (s.threads[t].result || !s.threads[t].timed) ==> s.threads[t].result && s.flag)
  }

  /** With the flag set and no notify outstanding, nobody is parked. */
  ghost predicate NobodyMissed(s: State) {
    s.flag && !SomeoneOwes(s) ==> forall t :: t in s.threads ==> !s.threads[t].Parked?
  }

  ghost predicate Inv(s: State) { MutexOk(s) && FlagOk(s) && NobodyMissed(s) }

  lemma StepKeepsMutex(s: State, a: Action)
    requires Inv(s)
    ensures MutexOk(Step(s, a))
  {
  }

  lemma StepKeepsFlag(s: State, a: Action)
    requires Inv(s)
    ensures FlagOk(Step(s, a))
  {
  }

  /** A step other than a notify keeps every outstanding notify outstanding. */
  lemma OwingPersists(s: State, a: Action)
    requires SomeoneOwes(s)
    requires !(a.Proceed? && a.t in s.threads && s.threads[a.t].MustNotify?)
    ensures SomeoneOwes(Step(s, a))
  {
    var u :| u in s.threads && Owes(s.threads[u]);
    assert Owes(Step(s, a).threads[u]);
  }

  lemma StepKeepsWakeups(s: State, a: Action)
    requires Inv(s)
    ensures NobodyMissed(Step(s, a))
  {
    var s' := Step(s, a);
    if a.Proceed? && a.t in s.threads && s.threads[a.t].MustNotify? {
      assert forall t :: t in s'.threads ==> !s'.threads[t].Parked?;
    } else if a.Proceed? && a.t in s.threads && s.threads[a.t].HoldsToSignal? {
      assert Owes(s'.threads[a.t]);
    } else if SomeoneOwes(s) {
      OwingPersists(s, a);
    } else if s.flag {
      assert forall t :: t in s'.threads && t in s.threads && s'.threads[t].Parked? ==> s.threads[t].SawUnset?;
    }
  }

  lemma {:induction false} EveryInterleavingKeepsInv(actions: seq<Action>)
    ensures Inv(Run(actions))
  {
    if actions != [] {
      var before, a := actions[..|actions| - 1], actions[|actions| - 1];
      EveryInterleavingKeepsInv(before);
      StepKeepsMutex(Run(before), a);
      StepKeepsFlag(Run(before), a);
      StepKeepsWakeups(Run(before), a);
    }
  }

  // ------------------------------------------------------------- consequences

  /** No lost wakeup: once the flag is set and no signaller stands between its
      store and its notify, no waiter is parked. */
  lemma NoLostWakeup(actions: seq<Action>, t: Thread)
    requires Run(actions).flag && t in Run(actions).threads && Run(actions).threads[t].Parked?
    ensures exists u :: u in Run(actions).threads && Owes(Run(actions).threads[u])
  {
    EveryInterleavingKeepsInv(actions);
  }

  /** A plain wait returns only with the flag set; a timed wait returns true only
      with the flag set. */
  lemma ReturnsOnlyWhenSignalled(actions: seq<Action>, t: Thread)
    requires t in Run(actions).threads && Run(actions).threads[t].Returned?
    ensures Run(actions).threads[t].result ==> Run(actions).flag
    ensures !Run(actions).threads[t].timed ==> Run(actions).threads[t].result
  {
    EveryInterleavingKeepsInv(actions);
  }

  /** The critical section holds at most one thread. */
  lemma MutualExclusion(actions: seq<Action>, t: Thread, u: Thread)
    requires t in Run(actions).threads && u in Run(actions).threads
    requires InLock(Run(actions).threads[t]) && InLock(Run(actions).threads[u])
    ensures t == u
  {
    EveryInterleavingKeepsInv(actions);
  }

  /** The steps a waiter still needs while the lock is free and the flag is set. */
  function StepsLeft(pc: Pc): nat {
    match pc
    case Woken(_, _) => 3
    case WantsToCheck(_) => 2
    case Rechecking(_, _) => 2
    case Checking(_) => 1
    case _ => 0
  }

  function Proceeds(s: State, t: Thread, n: nat): State {
    if n == 0 then s else Step(Proceeds(s, t, n - 1), Proceed(t, false))
  }

  lemma OneMoreStep(s: State, t: Thread, n: nat)
    ensures Proceeds(s, t, n + 1) == Step(Proceeds(s, t, n), Proceed(t, false))
  {
  }

  /** A waiter that is awake when the flag is set and the lock is free returns true
      in at most three of its own steps. */
  lemma AwakeWaiterReturns(actions: seq<Action>, t: Thread)
    requires var s := Run(actions);
      && s.flag && s.holder.None? && t in s.threads
      && (s.threads[t].Woken? || s.threads[t].WantsToCheck?)
    ensures var s := Run(actions);
      && t in Proceeds(s, t, StepsLeft(s.threads[t])).threads
      && Proceeds(s, t, StepsLeft(s.threads[t])).threads[t].Returned?
      && Proceeds(s, t, StepsLeft(s.threads[t])).threads[t].result
  {
    var s := Run(actions);
    var s1 := Step(s, Proceed(t, false));
    var s2 := Step(s1, Proceed(t, false));
    assert Proceeds(s, t, 1) == s1 && Proceeds(s, t, 2) == s2;
    if s.threads[t].Woken? {
      assert s2.threads[t].Checking? && s2.flag;
      assert Proceeds(s, t, 3) == Step(s2, Proceed(t, false));
    } else {
      assert s1.threads[t].Checking?;
    }
  }

  // ----------------------------------------------------- waits that give up

  /** The action lets `t` notice that its deadline has passed: it finds the flag
      unset at or after the deadline, or the condition variable times it out. */
  predicate Expires(s: State, a: Action, t: Thread) {
    && t in s.threads
    && ((s.threads[t] == SawUnset(true) && a == Proceed(t, true))
        || (s.threads[t] == Parked(true) && a == Wake(t, true)))
  }

  ghost predicate HasExpired(actions: seq<Action>, t: Thread) {
    exists k :: 0 <= k < |actions| && Expires(Run(actions[..k]), actions[k], t)
  }

  /** The waiter has given up, or is on its way to. */
  predicate GivesUp(pc: Pc) {
    (pc.Returned? && !pc.result) || (pc.Woken? && pc.timedOut) || (pc.Rechecking? && pc.timedOut)
  }

  lemma ExpiryPersists(actions: seq<Action>, t: Thread)
    requires actions != [] && HasExpired(actions[..|actions| - 1], t)
    ensures HasExpired(actions, t)
  {
    var before := actions[..|actions| - 1];
    var k :| 0 <= k < |before| && Expires(Run(before[..k]), before[k], t);
    assert before[..k] == actions[..k];
  }

  lemma GivingUpNeedsExpiry(s: State, a: Action, t: Thread)
    requires t in Step(s, a).threads && GivesUp(Step(s, a).threads[t])
    ensures Expires(s, a, t) || (t in s.threads && GivesUp(s.threads[t]))
  {
  }

  /** In every interleaving, a wait returns false only if its own deadline was seen
      to pass: it was timed, and found the flag unset too late or was timed out. */
  lemma {:induction false} FalseOnlyAfterDeadline(actions: seq<Action>, t: Thread)
    requires t in Run(actions).threads && GivesUp(Run(actions).threads[t])
    ensures HasExpired(actions, t)
  {
    var before, a := actions[..|actions| - 1], actions[|actions| - 1];
    GivingUpNeedsExpiry(Run(before), a, t);
    if Expires(Run(before), a, t) {
      assert Expires(Run(actions[..|actions| - 1]), actions[|actions| - 1], t);
    } else {
      FalseOnlyAfterDeadline(before, t);
      ExpiryPersists(actions, t);
    }
  }

  /** A waiter that has seen the flag unset parks and frees the lock, unless it is
      timed and its deadline has passed, in which case it returns false with the flag
      still unset. */
  lemma SeenUnsetParksOrGivesUp(actions: seq<Action>, t: Thread, deadlinePassed: bool)
    requires t in Run(actions).threads && Run(actions).threads[t].SawUnset?
    ensures var pc, s' := Run(actions).threads[t], Run(actions + [Proceed(t, deadlinePassed)]);
      && s'.holder.None? && !s'.flag && t in s'.threads
      && s'.threads[t] == if pc.timed && deadlinePassed then Returned(true, false) else Parked(pc.timed)
  {
    EveryInterleavingKeepsInv(actions);
    assert (actions + [Proceed(t, deadlinePassed)])[..|actions|] == actions;
  }

  /** A waiter that the condition variable timed out returns in at most three of its
      own steps, true exactly if the flag is set. */
  lemma TimedOutWaiterReturns(actions: seq<Action>, t: Thread)
    requires var s := Run(actions); s.holder.None? && t in s.threads && s.threads[t] == Woken(true, true)
    ensures var s := Run(actions);
      var s' := Proceeds(s, t, if s.flag then 3 else 2);
      t in s'.threads && s'.threads[t] == Returned(true, s.flag)
  {
    var s := Run(actions);
    var s1 := Step(s, Proceed(t, false));
    var s2 := Step(s1, Proceed(t, false));
    assert Proceeds(s, t, 1) == s1 && Proceeds(s, t, 2) == s2 && Proceeds(s, t, 3) == Step(s2, Proceed(t, false));
  }

  /** A signaller that finds the lock free sets the flag and leaves nobody parked in
      four of its own steps. */
  lemma SignalWakesEveryone(actions: seq<Action>, t: Thread)
    requires var s := Run(actions); s.holder.None? && t in s.threads && s.threads[t] == WantsToSignal
    ensures var s' := Proceeds(Run(actions), t, 4);
      && s'.flag && s'.holder.None? && t in s'.threads && s'.threads[t] == Signalled
      && forall u :: u in s'.threads ==> !s'.threads[u].Parked?
  {
    var s := Run(actions);
    var s1 := Step(s, Proceed(t, false));
    var s2 := Step(s1, Proceed(t, false));
    var s3 := Step(s2, Proceed(t, false));
    assert s1.threads[t] == HoldsToSignal && s2.threads[t] == HoldsStored && s3.threads[t] == MustNotify;
    OneMoreStep(s, t, 0);
    OneMoreStep(s, t, 1);
    OneMoreStep(s, t, 2);
    OneMoreStep(s, t, 3);
  }
}
