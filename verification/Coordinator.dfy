/** The shutdown coordinator: hooks run once, in registration order, under one
    shared deadline. */
module Coordinator {
  import opened Prelude

  /** Hooks are told apart by registration number; `name` is what reports show. */
  datatype Hook = Hook(number: nat, name: string)

  /** How one hook run ends. Nothing catches a panic: it unwinds the shutdown. */
  datatype HookEnd = Finished | Errored | TimedOut | Crashed

  /** The clock read before a hook and how the hook would end. */
  datatype Reading = Reading(now: nat, end: HookEnd)

  datatype Milestone = ShutdownStarted | ShutdownCompleted

  datatype Failure = Failure(hook: Hook, why: Why)

  datatype Why = DeadlineExpired | HookFailed | HookTimedOut

  datatype Report = Report(succeeded: seq<Hook>, failed: seq<Failure>)

  const EMPTY_REPORT := Report([], [])

  // ----------------------------------------------------- what a sequence means

  /** The hook is not started: its remaining time is zero. */
  predicate Skipped(deadline: nat, r: Reading) { Elapsed(deadline, r.now) == 0 }

  predicate Succeeds(deadline: nat, r: Reading) { !Skipped(deadline, r) && r.end == Finished }

  function Reason(deadline: nat, r: Reading): Why {
    if Skipped(deadline, r) then DeadlineExpired
    else if r.end == TimedOut then HookTimedOut else HookFailed
  }

  predicate Crashes(deadline: nat, r: Reading) { !Skipped(deadline, r) && r.end == Crashed }

  /** How many hooks are done with when the pass ends: all of them, or those before
      the first one that panics. */
  function Completes(readings: seq<Reading>, deadline: nat): (k: nat)
    ensures k <= |readings| && forall i :: 0 <= i < k ==> !Crashes(deadline, readings[i])
    ensures k < |readings| ==> Crashes(deadline, readings[k])
  {
    if readings == [] then 0
    else
      var n := |readings| - 1;
      var k := Completes(readings[..n], deadline);
      if k < n || Crashes(deadline, readings[n]) then k else n + 1
  }

  /** How many hooks are taken up: those done with and the one that panics. */
  function Taken(readings: seq<Reading>, deadline: nat): (k: nat)
    ensures k <= |readings|
  {
    Min(Completes(readings, deadline) + 1, |readings|)
  }

  /** The report of a pass over `hooks`, in registration order. */
  function Outcome(hooks: seq<Hook>, readings: seq<Reading>, deadline: nat): Report
    requires |hooks| == |readings|
  {
    if hooks == [] then EMPTY_REPORT
    else
      var n := |hooks| - 1;
      var before := Outcome(hooks[..n], readings[..n], deadline);
      if Succeeds(deadline, readings[n]) then before.(succeeded := before.succeeded + [hooks[n]])
      else before.(failed := before.failed + [Failure(hooks[n], Reason(deadline, readings[n]))])
  }

  /** The numbers of the hooks that are started. */
  function StartedHooks(hooks: seq<Hook>, readings: seq<Reading>, deadline: nat): seq<nat>
    requires |hooks| == |readings|
  {
    if hooks == [] then []
    else
      var n := |hooks| - 1;
      StartedHooks(hooks[..n], readings[..n], deadline)
        + if Skipped(deadline, readings[n]) then [] else [hooks[n].number]
  }

  function FailedHooks(failed: seq<Failure>): seq<Hook> {
    seq(|failed|, i requires 0 <= i < |failed| => failed[i].hook)
  }

  ghost predicate Ordered(hooks: seq<Hook>) {
    forall i, j :: 0 <= i < j < |hooks| ==> hooks[i].number < hooks[j].number
  }

  /** The report splits the hooks in two ordered parts that lose none. */
  ghost predicate Splits(r: Report, hooks: seq<Hook>) {
    && multiset(r.succeeded) + multiset(FailedHooks(r.failed)) == multiset(hooks)
    && Ordered(r.succeeded) && Ordered(FailedHooks(r.failed))
  }

  lemma SplitMembers(r: Report, hooks: seq<Hook>)
    requires Splits(r, hooks)
    ensures forall h :: h in r.succeeded || h in FailedHooks(r.failed) <==> h in hooks
  {
    forall h ensures h in r.succeeded || h in FailedHooks(r.failed) <==> h in hooks {
      assert h in hooks <==> h in multiset(hooks);
      assert h in r.succeeded <==> h in multiset(r.succeeded);
      assert h in FailedHooks(r.failed) <==> h in multiset(FailedHooks(r.failed));
    }
  }

  lemma SplitGrows(r: Report, hooks: seq<Hook>, h: Hook, why: Why)
    requires Splits(r, hooks) && Ordered(hooks + [h])
    ensures Splits(r.(succeeded := r.succeeded + [h]), hooks + [h])
    ensures Splits(r.(failed := r.failed + [Failure(h, why)]), hooks + [h])
  {
    SplitMembers(r, hooks);
    EarlierNumbers(hooks, h, r.succeeded);
    EarlierNumbers(hooks, h, FailedHooks(r.failed));
    assert FailedHooks(r.failed + [Failure(h, why)]) == FailedHooks(r.failed) + [h];
  }

  /** Succeeded and failed together are the hooks taken, each in order. */
  lemma {:induction false} ReportSplitsHooks(hooks: seq<Hook>, readings: seq<Reading>, deadline: nat)
    requires |hooks| == |readings| && Ordered(hooks)
    ensures Splits(Outcome(hooks, readings, deadline), hooks)
  {
    if hooks == [] {
      assert FailedHooks([]) == [];
    } else {
      var n := |hooks| - 1;
      ReportSplitsHooks(hooks[..n], readings[..n], deadline);
      assert hooks == hooks[..n] + [hooks[n]];
      SplitGrows(Outcome(hooks[..n], readings[..n], deadline), hooks[..n], hooks[n], Reason(deadline, readings[n]));
    }
  }

  // ----------------------------------------------------------- what is reported

  /** The hook was started before the deadline and ended in `end`. */
  predicate StartedAndEnded(r: Reading, deadline: nat, end: HookEnd) { r.now < deadline && r.end == end }

  /** Where one hook stands in the report, by the clock and its own end alone. */
  ghost predicate VerdictIsRight(report: Report, h: Hook, r: Reading, deadline: nat) {
    && (h in report.succeeded <==> StartedAndEnded(r, deadline, Finished))
    && (Failure(h, DeadlineExpired) in report.failed <==> r.now >= deadline)
    && (Failure(h, HookTimedOut) in report.failed <==> StartedAndEnded(r, deadline, TimedOut))
    && (Failure(h, HookFailed) in report.failed <==> StartedAndEnded(r, deadline, Errored))
  }

  ghost predicate VerdictsAreRight(report: Report, hooks: seq<Hook>, readings: seq<Reading>, deadline: nat)
    requires |hooks| == |readings|
  {
    forall i :: 0 <= i < |hooks| ==> VerdictIsRight(report, hooks[i], readings[i], deadline)
  }

  ghost predicate NobodyCrashes(readings: seq<Reading>, deadline: nat, k: nat)
    requires k <= |readings|
  {
    forall i :: 0 <= i < k ==> !StartedAndEnded(readings[i], deadline, Crashed)
  }

  /** A hook is started if its turn comes before the deadline and no hook started
      before it panics. */
  ghost predicate StartsAreRight(started: seq<nat>, hooks: seq<Hook>, readings: seq<Reading>, deadline: nat)
    requires |hooks| == |readings|
  {
    forall i :: 0 <= i < |hooks| ==>
      (hooks[i].number in started <==> readings[i].now < deadline && NobodyCrashes(readings, deadline, i))
  }

  /** A pass over the hooks: who is started, whether there is a report, and what
      it says. */
  ghost predicate PassIsRight(report: Option<Report>, started: seq<nat>, hooks: seq<Hook>, readings: seq<Reading>,
                              deadline: nat)
    requires |hooks| == |readings|
  {
    && StartsAreRight(started, hooks, readings, deadline)
    && (report.Some? <==> NobodyCrashes(readings, deadline, |readings|))
    && (report.Some? ==>
          Splits(report.value, hooks) && VerdictsAreRight(report.value, hooks, readings, deadline))
  }

  /** The numbers increase and stay below the next one to be given. */
  ghost predicate NumbersBelow(s: seq<nat>, bound: nat) {
    IncreasingNumbers(s) && forall i :: 0 <= i < |s| ==> s[i] < bound
  }

  lemma NewHookIsAbsent(r: Report, hooks: seq<Hook>, h: Hook)
    requires Splits(r, hooks) && Ordered(hooks + [h])
    ensures h !in r.succeeded && forall why :: Failure(h, why) !in r.failed
  {
    SplitMembers(r, hooks);
    forall i | 0 <= i < |hooks| ensures hooks[i] != h {
      assert (hooks + [h])[i].number < (hooks + [h])[|hooks|].number;
    }
    forall k | 0 <= k < |r.failed| ensures r.failed[k].hook != h {
      assert FailedHooks(r.failed)[k] in FailedHooks(r.failed);
    }
  }

  /** One more hook: its own verdict, and none of the others moves. */
  lemma OneMoreVerdict(before: Report, hooks: seq<Hook>, h: Hook, r: Reading, deadline: nat)
    requires Splits(before, hooks) && Ordered(hooks + [h]) && !StartedAndEnded(r, deadline, Crashed)
    ensures var after := if Succeeds(deadline, r) then before.(succeeded := before.succeeded + [h])
                         else before.(failed := before.failed + [Failure(h, Reason(deadline, r))]);
      && VerdictIsRight(after, h, r, deadline)
      && forall i :: 0 <= i < |hooks| ==>
           && (hooks[i] in after.succeeded <==> hooks[i] in before.succeeded)
           && forall why :: Failure(hooks[i], why) in after.failed <==> Failure(hooks[i], why) in before.failed
  {
    NewHookIsAbsent(before, hooks, h);
    forall i | 0 <= i < |hooks| ensures hooks[i] != h {
      assert (hooks + [h])[i].number < (hooks + [h])[|hooks|].number;
    }
  }

  lemma {:induction false} OutcomeIsRight(hooks: seq<Hook>, readings: seq<Reading>, deadline: nat)
    requires |hooks| == |readings| && Ordered(hooks) && NobodyCrashes(readings, deadline, |readings|)
    ensures VerdictsAreRight(Outcome(hooks, readings, deadline), hooks, readings, deadline)
  {
    if hooks != [] {
      var n := |hooks| - 1;
      var before := Outcome(hooks[..n], readings[..n], deadline);
      OutcomeIsRight(hooks[..n], readings[..n], deadline);
      ReportSplitsHooks(hooks[..n], readings[..n], deadline);
      assert hooks == hooks[..n] + [hooks[n]];
      OneMoreVerdict(before, hooks[..n], hooks[n], readings[n], deadline);
      forall i | 0 <= i < n
        ensures VerdictIsRight(Outcome(hooks, readings, deadline), hooks[i], readings[i], deadline)
      {
        assert VerdictIsRight(before, hooks[..n][i], readings[..n][i], deadline);
      }
    }
  }

  lemma {:induction false} StartedHooksAreRight(hooks: seq<Hook>, readings: seq<Reading>, k: nat, deadline: nat)
    requires k <= |hooks| == |readings| && Ordered(hooks)
    ensures forall i :: 0 <= i < |hooks| ==>
      (hooks[i].number in StartedHooks(hooks[..k], readings[..k], deadline) <==> i < k && readings[i].now < deadline)
  {
    if k > 0 {
      StartedHooksAreRight(hooks, readings, k - 1, deadline);
      assert hooks[..k][..k - 1] == hooks[..k - 1] && readings[..k][..k - 1] == readings[..k - 1];
      forall i | 0 <= i < |hooks| && i != k - 1 ensures hooks[i].number != hooks[k - 1].number {
      }
    }
  }

  lemma TakenAreRight(readings: seq<Reading>, deadline: nat)
    ensures Completes(readings, deadline) == |readings| <==> NobodyCrashes(readings, deadline, |readings|)
    ensures forall i :: 0 <= i < |readings| ==>
      (i < Taken(readings, deadline) <==> NobodyCrashes(readings, deadline, i))
  {
    var c := Completes(readings, deadline);
    assert forall i :: 0 <= i < |readings| ==>
      (Crashes(deadline, readings[i]) <==> StartedAndEnded(readings[i], deadline, Crashed));
    if c < |readings| {
      assert StartedAndEnded(readings[c], deadline, Crashed);
    }
  }

  lemma EarlierNumbers(hooks: seq<Hook>, h: Hook, some: seq<Hook>)
    requires Ordered(hooks + [h]) && Ordered(some) && forall x :: x in some ==> x in hooks
    ensures Ordered(some + [h])
  {
    forall i | 0 <= i < |some| ensures some[i].number < h.number {
      assert some[i] in some;
      var j :| 0 <= j < |hooks| && hooks[j] == some[i];
      assert (hooks + [h])[j] == hooks[j] && (hooks + [h])[|hooks|] == h;
    }
  }

  /** On a clock that does not run backwards, once one hook is skipped all later
      ones are. */
  lemma SkippingIsFinal(readings: seq<Reading>, deadline: nat, i: nat, j: nat)
    requires forall a, b :: 0 <= a <= b < |readings| ==> readings[a].now <= readings[b].now
    requires i <= j < |readings| && Skipped(deadline, readings[i])
    ensures Skipped(deadline, readings[j])
  {
    assert readings[i].now <= readings[j].now;
  }

  ghost predicate IncreasingNumbers(s: seq<nat>) {
    forall i, j :: 0 <= i < j < |s| ==> s[i] < s[j]
  }

  lemma {:induction false} StartedInOrder(hooks: seq<Hook>, readings: seq<Reading>, deadline: nat)
    requires |hooks| == |readings| && Ordered(hooks)
    ensures IncreasingNumbers(StartedHooks(hooks, readings, deadline))
    ensures forall k :: k in StartedHooks(hooks, readings, deadline) ==>
      exists i :: 0 <= i < |hooks| && hooks[i].number == k
  {
    if hooks != [] {
      var n := |hooks| - 1;
      StartedInOrder(hooks[..n], readings[..n], deadline);
      forall k | k in StartedHooks(hooks[..n], readings[..n], deadline)
        ensures k < hooks[n].number && exists i :: 0 <= i < |hooks| && hooks[i].number == k
      {
        var i :| 0 <= i < n && hooks[..n][i].number == k;
        assert hooks[i].number == k;
      }
      var before := StartedHooks(hooks[..n], readings[..n], deadline);
      forall j | 0 <= j < |before| ensures before[j] < hooks[n].number {
        assert before[j] in before;
      }
    }
  }

  // -------------------------------------------------------------- the coordinator

  /** Started once, and Completed at most once, after it. */
  predicate AreMilestones(ms: seq<Milestone>) {
    ms == [ShutdownStarted] || ms == [ShutdownStarted, ShutdownCompleted]
  }

  class ShutdownCoordinator {
    const grace: nat
    var hooks: seq<Hook>
    var completed: bool
    var tokenSignalled: bool
    var milestones: seq<Milestone>
    var started: seq<nat>
    var nextNumber: nat

    /** Hooks carry increasing numbers above every one ever started, and the
        milestones record whether the one effective shutdown has happened. */
    ghost predicate Valid()
      reads this
    {
      && Ordered(hooks) && NumbersBelow(started, nextNumber)
      && (forall i :: 0 <= i < |hooks| ==> hooks[i].number < nextNumber)
      && (completed ==> tokenSignalled && AreMilestones(milestones))
      && (!completed ==> milestones == [] && started == [])
    }

    constructor (grace: nat)
      ensures Valid() && !completed && hooks == [] && this.grace == grace
    {
      this.grace := grace;
      hooks, completed, tokenSignalled, milestones, started, nextNumber := [], false, false, [], [], 0;
    }

    method RegisterHook(name: string) returns (number: nat)
      requires Valid()
      modifies this`hooks, this`nextNumber
      ensures Valid() && hooks == old(hooks) + [Hook(number, name)]
    {
      number := nextNumber;
      nextNumber := nextNumber + 1;
      hooks := hooks + [Hook(number, name)];
    }

    /** The first call runs the hooks; every later one changes nothing and returns
        an empty report, even if the first was unwound by a panicking hook, which
        returns none. Completed follows Started exactly when no started hook
        panics, and each registered hook is started at most once, ever. */
    method Shutdown(startedAt: nat, readings: seq<Reading>) returns (report: Option<Report>)
      requires Valid() && |readings| == |hooks|
      modifies this
      ensures Valid() && completed && nextNumber == old(nextNumber)
      ensures old(completed) ==>
        && report == Some(EMPTY_REPORT) && started == old(started)
        && milestones == old(milestones) && hooks == old(hooks)
      ensures !old(completed) ==>
        && hooks == [] && (ShutdownCompleted in milestones <==> report.Some?)
        && PassIsRight(report, started, old(hooks), readings, startedAt + grace)
    {
      var alreadyDone := completed;
      completed := true;
      if alreadyDone {
        return Some(EMPTY_REPORT);
      }
      report := ShutDownOnce(readings, startedAt + grace);
    }

    /** The effective shutdown: announce, signal, take the hooks and run them. */
    method ShutDownOnce(readings: seq<Reading>, deadline: nat) returns (report: Option<Report>)
      requires |readings| == |hooks| && Ordered(hooks) && started == [] && milestones == []
      requires forall i :: 0 <= i < |hooks| ==> hooks[i].number < nextNumber
      modifies this`milestones, this`tokenSignalled, this`hooks, this`started
      ensures hooks == [] && tokenSignalled && NumbersBelow(started, nextNumber)
      ensures milestones == if report.Some? then [ShutdownStarted, ShutdownCompleted] else [ShutdownStarted]
      ensures PassIsRight(report, started, old(hooks), readings, deadline)
    {
      milestones := milestones + [ShutdownStarted];
      tokenSignalled := true;
      var taken := hooks;
      hooks := [];
      report := RunHooks(taken, readings, deadline);
      if report.Some? {
        milestones := milestones + [ShutdownCompleted];
      }
    }

    /** The pass over the hooks that were taken; a panic ends it without a report. */
    method RunHooks(taken: seq<Hook>, readings: seq<Reading>, deadline: nat) returns (report: Option<Report>)
      requires |readings| == |taken| && started == [] && Ordered(taken)
      requires forall i :: 0 <= i < |taken| ==> taken[i].number < nextNumber
      modifies this`started
      ensures PassIsRight(report, started, taken, readings, deadline) && NumbersBelow(started, nextNumber)
    {
      report := RunInTurn(taken, readings, deadline);
      PassComputesRight(taken, readings, deadline, nextNumber);
    }

    method RunInTurn(taken: seq<Hook>, readings: seq<Reading>, deadline: nat) returns (report: Option<Report>)
      requires |readings| == |taken| && started == []
      modifies this`started
      ensures report == Passed(taken, readings, deadline)
      ensures var k := Taken(readings, deadline);
        started == StartedHooks(taken[..k], readings[..k], deadline)
    {
      var succeeded: seq<Hook>, failed: seq<Failure> := [], [];
      for i := 0 to |taken|
        invariant Completes(readings, deadline) >= i
        invariant Report(succeeded, failed) == Outcome(taken[..i], readings[..i], deadline)
        invariant started == StartedHooks(taken[..i], readings[..i], deadline)
      {
        assert taken[..i + 1][..i] == taken[..i] && readings[..i + 1][..i] == readings[..i];
        var hook, reading := taken[i], readings[i];
        var remaining := Elapsed(deadline, reading.now);
        if remaining == 0 {
          failed := failed + [Failure(hook, DeadlineExpired)];
          continue;
        }
        started := started + [hook.number];
        match reading.end {
          case Finished => succeeded := succeeded + [hook];
          case Errored => failed := failed + [Failure(hook, HookFailed)];
          case TimedOut => failed := failed + [Failure(hook, HookTimedOut)];
          case Crashed => return None;
        }
      }
      assert taken[..|taken|] == taken && readings[..|readings|] == readings;
      return Some(Report(succeeded, failed));
    }
  }

  /** What a pass returns: a report unless a hook panics. */
  function Passed(hooks: seq<Hook>, readings: seq<Reading>, deadline: nat): Option<Report>
    requires |hooks| == |readings|
  {
    if Completes(readings, deadline) == |readings| then Some(Outcome(hooks, readings, deadline)) else None
  }

  lemma StartedAreValid(hooks: seq<Hook>, readings: seq<Reading>, k: nat, deadline: nat, bound: nat)
    requires k <= |hooks| == |readings| && Ordered(hooks)
    requires forall i :: 0 <= i < |hooks| ==> hooks[i].number < bound
    ensures NumbersBelow(StartedHooks(hooks[..k], readings[..k], deadline), bound)
  {
    StartedInOrder(hooks[..k], readings[..k], deadline);
    var started := StartedHooks(hooks[..k], readings[..k], deadline);
    forall i | 0 <= i < |started| ensures started[i] < bound {
      assert started[i] in started;
      var j :| 0 <= j < k && hooks[..k][j].number == started[i];
      assert hooks[j].number < bound;
    }
  }

  lemma PassComputesRight(hooks: seq<Hook>, readings: seq<Reading>, deadline: nat, bound: nat)
    requires |hooks| == |readings| && Ordered(hooks)
    requires forall i :: 0 <= i < |hooks| ==> hooks[i].number < bound
    ensures var k := Taken(readings, deadline);
      && PassIsRight(Passed(hooks, readings, deadline), StartedHooks(hooks[..k], readings[..k], deadline),
                     hooks, readings, deadline)
      && NumbersBelow(StartedHooks(hooks[..k], readings[..k], deadline), bound)
  {
    var k := Taken(readings, deadline);
    TakenAreRight(readings, deadline);
    StartedHooksAreRight(hooks, readings, k, deadline);
    StartedAreValid(hooks, readings, k, deadline, bound);
    ReportSplitsHooks(hooks, readings, deadline);
    if Completes(readings, deadline) == |readings| {
      OutcomeIsRight(hooks, readings, deadline);
    }
  }
}
