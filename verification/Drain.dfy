/** Draining a join set: wait for tasks until the grace period ends, then abort
    the rest. When the deadline fires, and how each task ends, is not known; the
    abort may change how the remaining tasks end. */
module Drain {
  type Task = nat

  /** What joining a task yields: its value, a cancellation, or a panic. */
  datatype Joined = Value | Cancelled | Panicked

  /** How each task ends. */
  type Endings = Task -> Joined

  datatype DrainOutcome = DrainOutcome(drained: nat, aborted: nat)

  function Sum(a: DrainOutcome, b: DrainOutcome): DrainOutcome {
    DrainOutcome(a.drained + b.drained, a.aborted + b.aborted)
  }

  function Total(o: DrainOutcome): nat { o.drained + o.aborted }

  /** How many of the joined tasks end in one of `which`. */
  function CountIn(joined: seq<Task>, ends: Endings, which: set<Joined>): nat {
    if joined == [] then 0
    else
      CountIn(joined[..|joined| - 1], ends, which) + if ends(joined[|joined| - 1]) in which then 1 else 0
  }

  lemma CountOneMore(joined: seq<Task>, t: Task, ends: Endings, which: set<Joined>)
    ensures CountIn(joined + [t], ends, which)
         == CountIn(joined, ends, which) + if ends(t) in which then 1 else 0
  {
    assert (joined + [t])[..|joined|] == joined;
  }

  /** `joined` lists, once each, the tasks of `all` that are not `left`. */
  ghost predicate Joins(all: set<Task>, joined: seq<Task>, left: set<Task>) {
    && left <= all && |joined| + |left| == |all|
    && forall t :: t in all <==> t in left || t in joined
  }

  lemma NothingJoined(all: set<Task>)
    ensures Joins(all, [], all)
  {
  }

  lemma JoinOneMore(all: set<Task>, joined: seq<Task>, left: set<Task>, t: Task)
    requires Joins(all, joined, left) && t in left
    ensures Joins(all, joined + [t], left - {t})
  {
  }

  /** Every joined task is counted, as drained exactly if it ends in `which`. */
  predicate Counts(o: DrainOutcome, joined: seq<Task>, ends: Endings, which: set<Joined>) {
    o.drained == CountIn(joined, ends, which) && Total(o) == |joined|
  }

  /** Until the deadline or the set empties; only cancellations count as aborted. */
  method DrainUntilDeadline(tasks: set<Task>, ends: Endings)
    returns (o: DrainOutcome, joined: seq<Task>, left: set<Task>)
    ensures Joins(tasks, joined, left) && Counts(o, joined, ends, {Value, Panicked})
  {
    o, joined, left := DrainOutcome(0, 0), [], tasks;
    NothingJoined(tasks);
    while left != {}
      invariant Joins(tasks, joined, left) && Counts(o, joined, ends, {Value, Panicked})
      decreases |left|
    {
      var deadline: bool := *;
      if deadline {
        break;
      }
      var t :| t in left;
      match ends(t) {
        case Value => o := o.(drained := o.drained + 1);
        case Cancelled => o := o.(aborted := o.aborted + 1);
        case Panicked => o := o.(drained := o.drained + 1);
      }
      CountOneMore(joined, t, ends, {Value, Panicked});
      JoinOneMore(tasks, joined, left, t);
      left, joined := left - {t}, joined + [t];
    }
  }

  /** The aborted set is joined to the end; panics count as aborted as well. */
  method DrainAborted(tasks: set<Task>, ends: Endings) returns (o: DrainOutcome, joined: seq<Task>)
    ensures Joins(tasks, joined, {}) && Counts(o, joined, ends, {Value})
  {
    o, joined := DrainOutcome(0, 0), [];
    var left := tasks;
    NothingJoined(tasks);
    while left != {}
      invariant Joins(tasks, joined, left) && Counts(o, joined, ends, {Value})
      decreases |left|
    {
      var t :| t in left;
      match ends(t) {
        case Value => o := o.(drained := o.drained + 1);
        case Cancelled => o := o.(aborted := o.aborted + 1);
        case Panicked => o := o.(aborted := o.aborted + 1);
      }
      CountOneMore(joined, t, ends, {Value});
      JoinOneMore(tasks, joined, left, t);
      left, joined := left - {t}, joined + [t];
    }
  }

  /** The report of a drain that joined `early` before the deadline and `late` after
      the abort, where tasks ending in `lateRule` still count as drained. */
  function ReportOf(early: seq<Task>, late: seq<Task>, ends: Endings, endsAfterAbort: Endings, lateRule: set<Joined>)
    : (o: DrainOutcome)
    ensures Total(o) == |early| + |late|
  {
    CountIsBounded(early, ends, {Value, Panicked});
    CountIsBounded(late, endsAfterAbort, lateRule);
    var drained := CountIn(early, ends, {Value, Panicked}) + CountIn(late, endsAfterAbort, lateRule);
    DrainOutcome(drained, |early| + |late| - drained)
  }

  lemma {:induction false} CountIsBounded(joined: seq<Task>, ends: Endings, which: set<Joined>)
    ensures CountIn(joined, ends, which) <= |joined|
  {
    if joined != [] {
      CountIsBounded(joined[..|joined| - 1], ends, which);
    }
  }

  lemma PhasesReport(first: DrainOutcome, second: DrainOutcome, early: seq<Task>, late: seq<Task>, ends: Endings,
                     endsAfterAbort: Endings, lateRule: set<Joined>)
    requires Counts(first, early, ends, {Value, Panicked}) && Counts(second, late, endsAfterAbort, lateRule)
    ensures Sum(first, second) == ReportOf(early, late, ends, endsAfterAbort, lateRule)
  {
  }

  lemma JoinsCompose(all: set<Task>, early: seq<Task>, left: set<Task>, late: seq<Task>)
    requires Joins(all, early, left) && Joins(left, late, {})
    ensures Joins(all, early + late, {}) && |early| + |late| == |all|
  {
    assert forall t :: t in early + late <==> t in early || t in late;
  }

  /** A drain of `all` that joined `early` before the deadline and `late` after the
      abort reports `o`. */
  ghost predicate Reports(o: DrainOutcome, all: set<Task>, early: seq<Task>, late: seq<Task>, ends: Endings,
                          endsAfterAbort: Endings, lateRule: set<Joined>)
  {
    && Joins(all, early + late, {}) && Total(o) == |all|
    && o == ReportOf(early, late, ends, endsAfterAbort, lateRule)
  }

  lemma PhasesCompose(all: set<Task>, early: seq<Task>, left: set<Task>, late: seq<Task>, first: DrainOutcome,
                      second: DrainOutcome, ends: Endings, endsAfterAbort: Endings, lateRule: set<Joined>)
    requires Joins(all, early, left) && Joins(left, late, {})
    requires Counts(first, early, ends, {Value, Panicked}) && Counts(second, late, endsAfterAbort, lateRule)
    ensures Reports(Sum(first, second), all, early, late, ends, endsAfterAbort, lateRule)
  {
    JoinsCompose(all, early, left, late);
    PhasesReport(first, second, early, late, ends, endsAfterAbort, lateRule);
  }

  lemma NothingToDrain(all: set<Task>, ends: Endings, endsAfterAbort: Endings, lateRule: set<Joined>)
    requires |all| == 0
    ensures Reports(DrainOutcome(0, 0), all, [], [], ends, endsAfterAbort, lateRule)
  {
    assert all == {};
    NothingJoined(all);
  }

  /** The two phases in turn. Every task is joined and counted exactly once, by the
      side of the deadline it falls on. */
  method DrainSet(tasks: set<Task>, ends: Endings, endsAfterAbort: Endings)
    returns (o: DrainOutcome, early: seq<Task>, late: seq<Task>)
    ensures Reports(o, tasks, early, late, ends, endsAfterAbort, {Value})
  {
    if tasks == {} {
      NothingToDrain(tasks, ends, endsAfterAbort, {Value});
      return DrainOutcome(0, 0), [], [];
    }
    var first, second: DrainOutcome;
    var left: set<Task>;
    first, early, left := DrainUntilDeadline(tasks, ends);
    second, late := DrainAborted(left, endsAfterAbort);
    PhasesCompose(tasks, early, left, late, first, second, ends, endsAfterAbort, {Value});
    return Sum(first, second), early, late;
  }

  lemma {:induction false} RulesDiffer(joined: seq<Task>, ends: Endings)
    ensures CountIn(joined, ends, {Value, Panicked})
         == CountIn(joined, ends, {Value}) + CountIn(joined, ends, {Panicked})
  {
    if joined != [] {
      RulesDiffer(joined[..|joined| - 1], ends);
    }
  }

  /** On the same join results, the supervisor's own shutdown, which counts late
      panics as drained, differs from a drain by exactly those panics. */
  lemma CountingRulesDifferByLatePanics(early: seq<Task>, late: seq<Task>, ends: Endings, endsAfterAbort: Endings)
    ensures var panics := CountIn(late, endsAfterAbort, {Panicked});
      var drain := ReportOf(early, late, ends, endsAfterAbort, {Value});
      var supervisor := ReportOf(early, late, ends, endsAfterAbort, {Value, Panicked});
      supervisor.drained == drain.drained + panics && drain.aborted == supervisor.aborted + panics
  {
    RulesDiffer(late, endsAfterAbort);
  }
}
