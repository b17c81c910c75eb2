/** The health registry: per-subsystem statuses and a cached worst status that is
    updated incrementally by every report. */
module Health {
  import opened Prelude

  type Name = string

  datatype HealthStatus = Healthy | Degraded | Unhealthy | Critical | Unknown

  function Severity(s: HealthStatus): nat {
    match s
    case Healthy => 0
    case Degraded => 1
    case Unhealthy => 2
    case Critical => 3
    case Unknown => 4
  }

  type Statuses = map<Name, HealthStatus>

  /** `a` is the worst status in the map; an empty map is Healthy. */
  ghost predicate IsWorst(m: Statuses, a: HealthStatus) {
    && (forall k :: k in m ==> Severity(m[k]) <= Severity(a))
    && (if m == map[] then a == Healthy else exists k :: k in m && m[k] == a)
  }

  lemma WorstIsUnique(m: Statuses, a: HealthStatus, b: HealthStatus)
    requires IsWorst(m, a) && IsWorst(m, b)
    ensures a == b
  {
    if m != map[] {
      var i :| i in m && m[i] == a;
      var j :| j in m && m[j] == b;
      assert Severity(m[i]) <= Severity(b) && Severity(m[j]) <= Severity(a);
    }
  }

  function Previous(m: Statuses, name: Name): Option<HealthStatus> {
    if name in m then Some(m[name]) else None
  }

  datatype Event =
    | SubsystemChanged(name: Name, from: HealthStatus, to: HealthStatus)
    | AggregateChanged(from: HealthStatus, to: HealthStatus)

  /** The aggregate changes in an event log, in order. */
  function AggregateChanges(log: seq<Event>): (r: seq<Event>)
    ensures forall i :: 0 <= i < |r| ==> r[i].AggregateChanged?
  {
    if log == [] then []
    else
      var before, e := AggregateChanges(log[..|log| - 1]), log[|log| - 1];
      if e.AggregateChanged? then before + [e] else before
  }

  lemma AggregateChangesSnoc(log: seq<Event>, e: Event)
    ensures AggregateChanges(log + [e]) == AggregateChanges(log) + if e.AggregateChanged? then [e] else []
  {
    assert (log + [e])[..|log|] == log;
  }

  /** Aggregate events start at Healthy, each starts where the one before ended,
      each moves, and the last ends at `now`. */
  ghost predicate Chains(changes: seq<Event>, now: HealthStatus)
    requires forall i :: 0 <= i < |changes| ==> changes[i].AggregateChanged?
  {
    && (forall i :: 0 <= i < |changes| ==> changes[i].from != changes[i].to)
    && (forall i :: 1 <= i < |changes| ==> changes[i].from == changes[i - 1].to)
    && (if changes == [] then now == Healthy
        else changes[0].from == Healthy && changes[|changes| - 1].to == now)
  }

  lemma ChainsExtend(changes: seq<Event>, a: HealthStatus, b: HealthStatus)
    requires forall i :: 0 <= i < |changes| ==> changes[i].AggregateChanged?
    requires Chains(changes, a)
    ensures a != b ==> Chains(changes + [AggregateChanged(a, b)], b)
  {
  }

  /** What one report announces. */
  function ReportEvents(m: Statuses, name: Name, status: HealthStatus, a: HealthStatus, b: HealthStatus): seq<Event> {
    (if Previous(m, name) == Some(status) then []
     else [SubsystemChanged(name, if name in m then m[name] else Unknown, status)])
    + (if a == b then [] else [AggregateChanged(a, b)])
  }

  lemma ReportKeepsChain(log: seq<Event>, m: Statuses, name: Name, status: HealthStatus, a: HealthStatus,
                         b: HealthStatus)
    requires Chains(AggregateChanges(log), a)
    ensures Chains(AggregateChanges(log + ReportEvents(m, name, status, a, b)), b)
  {
    var change := SubsystemChanged(name, if name in m then m[name] else Unknown, status);
    var announced := if Previous(m, name) == Some(status) then log else log + [change];
    AggregateChangesSnoc(log, change);
    assert AggregateChanges(announced) == AggregateChanges(log);
    if a == b {
      assert log + ReportEvents(m, name, status, a, b) == announced;
    } else {
      assert log + ReportEvents(m, name, status, a, b) == announced + [AggregateChanged(a, b)];
      AggregateChangesSnoc(announced, AggregateChanged(a, b));
      ChainsExtend(AggregateChanges(log), a, b);
    }
  }

  /** The status of `name` as it was last announced. */
  function Announced(log: seq<Event>, name: Name): Option<HealthStatus> {
    if log == [] then None
    else
      var e := log[|log| - 1];
      if e.SubsystemChanged? && e.name == name then Some(e.to) else Announced(log[..|log| - 1], name)
  }

  /** A subsystem's event moves it from the status announced before, Unknown at first;
      the aggregate's comes right after the subsystem's that moved it. */
  ghost predicate EventIsRight(log: seq<Event>, e: Event) {
    match e
    case SubsystemChanged(name, from, to) =>
      match Announced(log, name) {
        case None => from == Unknown
        case Some(before) => from == before && to != before
      }
    case AggregateChanged(_, _) => log != [] && log[|log| - 1].SubsystemChanged?
  }

  ghost predicate EventsAreRight(log: seq<Event>) {
    forall i :: 0 <= i < |log| ==> EventIsRight(log[..i], log[i])
  }

  /** Every event is right, and the map holds what was last announced. */
  ghost predicate Follows(log: seq<Event>, m: Statuses) {
    EventsAreRight(log) && forall name :: Announced(log, name) == Previous(m, name)
  }

  lemma EventsSnoc(log: seq<Event>, e: Event)
    requires EventsAreRight(log) && EventIsRight(log, e)
    ensures EventsAreRight(log + [e])
  {
    var next := log + [e];
    forall i | 0 <= i < |next| ensures EventIsRight(next[..i], next[i]) {
      assert next[..i] == log[..i];
      assert log[..|log|] == log;
    }
  }

  lemma SubsystemFollows(log: seq<Event>, m: Statuses, name: Name, from: HealthStatus, status: HealthStatus)
    requires Follows(log, m) && Previous(m, name) != Some(status)
    requires from == if name in m then m[name] else Unknown
    ensures Follows(log + [SubsystemChanged(name, from, status)], m[name := status])
  {
    var e := SubsystemChanged(name, from, status);
    assert Announced(log, name) == Previous(m, name);
    EventsSnoc(log, e);
    forall n ensures Announced(log + [e], n) == Previous(m[name := status], n) {
      assert (log + [e])[..|log|] == log && Announced(log, n) == Previous(m, n);
    }
  }

  lemma AggregateFollows(log: seq<Event>, m: Statuses, a: HealthStatus, b: HealthStatus)
    requires Follows(log, m) && log != [] && log[|log| - 1].SubsystemChanged?
    ensures Follows(log + [AggregateChanged(a, b)], m)
  {
    var e := AggregateChanged(a, b);
    EventsSnoc(log, e);
    assert (log + [e])[..|log|] == log;
  }

  lemma ReportFollows(log: seq<Event>, m: Statuses, name: Name, status: HealthStatus, a: HealthStatus, b: HealthStatus)
    requires Follows(log, m) && (Previous(m, name) == Some(status) ==> a == b)
    ensures Follows(log + ReportEvents(m, name, status, a, b), m[name := status])
  {
    if Previous(m, name) == Some(status) {
      assert log + ReportEvents(m, name, status, a, b) == log;
      assert m[name := status] == m;
    } else {
      var from := if name in m then m[name] else Unknown;
      var announced := log + [SubsystemChanged(name, from, status)];
      SubsystemFollows(log, m, name, from, status);
      if a == b {
        assert log + ReportEvents(m, name, status, a, b) == announced;
      } else {
        AggregateFollows(announced, m[name := status], a, b);
        assert log + ReportEvents(m, name, status, a, b) == announced + [AggregateChanged(a, b)];
      }
    }
  }

  // -------------------------------------------------- the incremental decision

  /** Whether the rescan branch is taken. */
  predicate Rescans(prevAggregate: HealthStatus, previous: Option<HealthStatus>, status: HealthStatus) {
    Severity(status) <= Severity(prevAggregate) && previous == Some(prevAggregate)
    && Severity(status) < Severity(prevAggregate)
  }

  /** Replacing one status: a worse one becomes the maximum, and only replacing a
      holder of the maximum by a better one can lower it. */
  lemma IncrementalMaximum(m: Statuses, a: HealthStatus, name: Name, status: HealthStatus)
    requires IsWorst(m, a)
    ensures Severity(status) > Severity(a) ==> IsWorst(m[name := status], status)
    ensures Severity(status) <= Severity(a) && !Rescans(a, Previous(m, name), status) ==> IsWorst(m[name := status], a)
  {
    var next := m[name := status];
    assert next[name] == status;
    if Severity(status) <= Severity(a) && !Rescans(a, Previous(m, name), status) && m != map[] {
      var k :| k in m && m[k] == a;
      assert k in next && (k != name ==> next[k] == a);
      assert k == name ==> status == a;
    }
  }

  method WorstOf(m: Statuses) returns (a: HealthStatus)
    ensures IsWorst(m, a)
  {
    a := Healthy;
    var rest := m.Keys;
    while rest != {}
      invariant rest <= m.Keys
      invariant forall k :: k in m && k !in rest ==> Severity(m[k]) <= Severity(a)
      invariant if rest == m.Keys then a == Healthy else exists k :: k in m && k !in rest && m[k] == a
      decreases rest
    {
      var k :| k in rest;
      if rest == m.Keys || Severity(m[k]) > Severity(a) {
        a := m[k];
      }
      rest := rest - {k};
    }
  }

  class HealthRegistry {
    var subsystems: Statuses
    var aggregate: HealthStatus
    var log: seq<Event>

    /** The cached aggregate is the maximum, and the events lead to it and to the
        statuses. */
    ghost predicate Valid()
      reads this
    {
      IsWorst(subsystems, aggregate) && Chains(AggregateChanges(log), aggregate) && Follows(log, subsystems)
    }

    constructor ()
      ensures Valid() && subsystems == map[] && aggregate == Healthy && log == []
    {
      subsystems, aggregate, log := map[], Healthy, [];
    }

    /** The locked part of a report: insert, decide, store the cell if it moved. */
    method Update(name: Name, status: HealthStatus) returns (previous: Option<HealthStatus>)
      requires IsWorst(subsystems, aggregate)
      modifies this`subsystems, this`aggregate
      ensures subsystems == old(subsystems)[name := status] && IsWorst(subsystems, aggregate)
      ensures previous == Previous(old(subsystems), name)
      ensures previous == Some(status) ==> aggregate == old(aggregate)
    {
      var prevAggregate := aggregate;
      previous := Previous(subsystems, name);
      IncrementalMaximum(subsystems, aggregate, name, status);
      subsystems := subsystems[name := status];
      if Severity(status) > Severity(prevAggregate) {
        aggregate := status;
      } else if previous == Some(prevAggregate) && Severity(status) < Severity(prevAggregate) {
        var newAggregate := WorstOf(subsystems);
        if newAggregate != prevAggregate {
          aggregate := newAggregate;
        }
      }
    }

    /** An uninterrupted report: a repeated status is silent and cannot move the
        aggregate; otherwise the change is announced, followed by the aggregate's
        exactly when that moved. */
    method Report(name: Name, status: HealthStatus)
      requires Valid()
      modifies this
      ensures Valid() && subsystems == old(subsystems)[name := status]
      ensures log == old(log) + ReportEvents(old(subsystems), name, status, old(aggregate), aggregate)
      ensures Previous(old(subsystems), name) == Some(status) ==> aggregate == old(aggregate)
    {
      var prevAggregate := aggregate;
      var previous := Update(name, status);
      ReportKeepsChain(log, old(subsystems), name, status, prevAggregate, aggregate);
      ReportFollows(log, old(subsystems), name, status, prevAggregate, aggregate);
      if previous == Some(status) {
        assert log + [] == log;
        return;
      }
      var from := if previous.Some? then previous.value else Unknown;
      log := log + [SubsystemChanged(name, from, status)];
      if aggregate != prevAggregate {
        log := log + [AggregateChanged(prevAggregate, aggregate)];
      }
      assert log == old(log) + ReportEvents(old(subsystems), name, status, prevAggregate, aggregate);
    }

    method Aggregate() returns (a: HealthStatus)
      requires Valid()
      ensures IsWorst(subsystems, a)
    {
      a := aggregate;
    }
  }

  // ------------------------------------------------------- interleaved reports

  /** The cell and the map, shared by reports that load the cell first and take
      the map lock later. */
  datatype Shared = Shared(statuses: Statuses, aggregate: HealthStatus)

  /** The status a locked step computes from the aggregate it loaded earlier. */
  ghost function Computed(m: Statuses, loaded: HealthStatus, name: Name, status: HealthStatus, rescan: HealthStatus)
    : HealthStatus
  {
    if Severity(status) > Severity(loaded) then status
    else if Rescans(loaded, Previous(m, name), status) then rescan
    else loaded
  }

  /** The locked step of a report; the cell is stored only if the computed value
      differs from the loaded one. */
  ghost predicate Commits(s: Shared, s': Shared, loaded: HealthStatus, name: Name, status: HealthStatus) {
    && s'.statuses == s.statuses[name := status]
    && exists rescan :: IsWorst(s'.statuses, rescan) && CommitsWith(s, s', loaded, name, status, rescan)
  }

  ghost predicate CommitsWith(s: Shared, s': Shared, loaded: HealthStatus, name: Name, status: HealthStatus,
                              rescan: HealthStatus)
  {
    var next := Computed(s.statuses, loaded, name, status, rescan);
    s'.aggregate == if next != loaded then next else s.aggregate
  }

  /** Every other subsystem is at most as bad as `status`. */
  ghost predicate Dominates(m: Statuses, name: Name, status: HealthStatus) {
    forall k :: k in m && k != name ==> Severity(m[k]) <= Severity(status)
  }

  /** Some other subsystem is already as bad as `a`. */
  ghost predicate HeldElsewhere(m: Statuses, name: Name, a: HealthStatus) {
    exists k :: k in m && k != name && m[k] == a
  }

  /** The condition under which one locked step with a possibly stale aggregate
      keeps the cell at the maximum: a status above the loaded value must
      dominate the map; one that leaves the cell alone must neither exceed it nor
      remove its last holder. A rescan is always right. */
  ghost predicate StaleIsHarmless(s: Shared, loaded: HealthStatus, name: Name, status: HealthStatus) {
    if Severity(status) > Severity(loaded) then Dominates(s.statuses, name, status)
    else if Rescans(loaded, Previous(s.statuses, name), status) then true
    else status == s.aggregate
         || (Severity(status) < Severity(s.aggregate)
             && (HeldElsewhere(s.statuses, name, s.aggregate)))
  }

  lemma StaleCommitIsRightExactlyWhen(s: Shared, s': Shared, loaded: HealthStatus, name: Name, status: HealthStatus)
    requires IsWorst(s.statuses, s.aggregate) && Commits(s, s', loaded, name, status)
    ensures IsWorst(s'.statuses, s'.aggregate) <==> StaleIsHarmless(s, loaded, name, status)
  {
    var rescan :| IsWorst(s'.statuses, rescan) && CommitsWith(s, s', loaded, name, status, rescan);
    if Severity(status) > Severity(loaded) {
      RaisedCell(s.statuses, name, status);
    } else if Rescans(loaded, Previous(s.statuses, name), status) {
      if rescan == loaded {
        RescanOfHolder(s, loaded, name, status);
      }
    } else {
      KeptCell(s.statuses, s.aggregate, name, status);
    }
  }

  lemma RaisedCell(m: Statuses, name: Name, status: HealthStatus)
    ensures IsWorst(m[name := status], status) <==> Dominates(m, name, status)
  {
    var next := m[name := status];
    assert next[name] == status;
    assert forall k :: k in next <==> k in m || k == name;
  }

  lemma KeptCell(m: Statuses, a: HealthStatus, name: Name, status: HealthStatus)
    requires IsWorst(m, a)
    ensures IsWorst(m[name := status], a)
        <==> status == a || (Severity(status) < Severity(a) && HeldElsewhere(m, name, a))
  {
    var next := m[name := status];
    assert next[name] == status;
    if HeldElsewhere(m, name, a) {
      var k :| k in m && k != name && m[k] == a;
      assert next[k] == a;
    }
    if IsWorst(next, a) && status != a {
      var k :| k in next && next[k] == a;
      assert k != name && k in m && m[k] == a;
    }
  }

  /** If the replaced holder of the loaded value was not at the maximum, the
      maximum is held elsewhere. */
  lemma RescanOfHolder(s: Shared, loaded: HealthStatus, name: Name, status: HealthStatus)
    requires IsWorst(s.statuses, s.aggregate) && Rescans(loaded, Previous(s.statuses, name), status)
    requires IsWorst(s.statuses[name := status], loaded)
    ensures IsWorst(s.statuses[name := status], s.aggregate)
  {
    var k :| k in s.statuses && s.statuses[k] == s.aggregate;
    if k != name {
      assert s.statuses[name := status][k] == s.aggregate;
    }
  }

  /** With a current aggregate a locked step is always right. */
  lemma CurrentCommitIsRight(s: Shared, s': Shared, name: Name, status: HealthStatus)
    requires IsWorst(s.statuses, s.aggregate) && Commits(s, s', s.aggregate, name, status)
    ensures IsWorst(s'.statuses, s'.aggregate)
  {
    var rescan :| IsWorst(s'.statuses, rescan) && CommitsWith(s, s', s.aggregate, name, status, rescan);
    IncrementalMaximum(s.statuses, s.aggregate, name, status);
  }

  // ------------------------------------------------- sequences of split reports

  type Thread = nat

  /** A report loads the cell in one step and takes the lock in another; any other
      steps may run between the two. */
  datatype Action = Load(t: Thread) | Lock(t: Thread, name: Name, status: HealthStatus)

  datatype Running = Running(shared: Shared, loaded: map<Thread, HealthStatus>)

  const IDLE := Running(Shared(map[], Healthy), map[])

  ghost predicate Holds(m: Statuses, a: HealthStatus) {
    exists k :: k in m && m[k] == a
  }

  /** The maximum a rescan finds. */
  ghost function Worst(m: Statuses): HealthStatus {
    if Holds(m, Unknown) then Unknown
    else if Holds(m, Critical) then Critical
    else if Holds(m, Unhealthy) then Unhealthy
    else if Holds(m, Degraded) then Degraded
    else Healthy
  }

  lemma WorstIsWorst(m: Statuses)
    ensures IsWorst(m, Worst(m))
  {
    forall k | k in m ensures Severity(m[k]) <= Severity(Worst(m)) && Holds(m, m[k]) {
    }
    if m != map[] {
      assert m.Keys != {};
      var k :| k in m.Keys;
      assert Holds(m, m[k]);
    }
  }

  /** The locked step as a function. */
  ghost function Commit(s: Shared, loaded: HealthStatus, name: Name, status: HealthStatus): Shared {
    var statuses := s.statuses[name := status];
    var next := Computed(s.statuses, loaded, name, status, Worst(statuses));
    Shared(statuses, if next != loaded then next else s.aggregate)
  }

  ghost function Step(r: Running, a: Action): Running {
    match a
    case Load(t) => if t in r.loaded then r else r.(loaded := r.loaded[t := r.shared.aggregate])
    case Lock(t, name, status) =>
      if t !in r.loaded then r
      else Running(Commit(r.shared, r.loaded[t], name, status), r.loaded - {t})
  }

  ghost function Run(actions: seq<Action>): Running {
    if actions == [] then IDLE else Step(Run(actions[..|actions| - 1]), actions[|actions| - 1])
  }

  ghost predicate IsRight(r: Running) { IsWorst(r.shared.statuses, r.shared.aggregate) }

  /** The step does no harm: if it is the locked step of a report, what that report
      loaded does not mislead it. */
  ghost predicate Harmless(r: Running, a: Action) {
    a.Lock? && a.t in r.loaded ==> StaleIsHarmless(r.shared, r.loaded[a.t], a.name, a.status)
  }

  ghost predicate AlwaysRight(actions: seq<Action>) {
    forall k :: 0 <= k <= |actions| ==> IsRight(Run(actions[..k]))
  }

  ghost predicate AlwaysHarmless(actions: seq<Action>) {
    forall k :: 0 <= k < |actions| ==> Harmless(Run(actions[..k]), actions[k])
  }

  lemma StepIsRightExactlyWhen(r: Running, a: Action)
    requires IsRight(r)
    ensures IsRight(Step(r, a)) <==> Harmless(r, a)
  {
    if a.Lock? && a.t in r.loaded {
      var s' := Step(r, a).shared;
      WorstIsWorst(s'.statuses);
      assert CommitsWith(r.shared, s', r.loaded[a.t], a.name, a.status, Worst(s'.statuses));
      StaleCommitIsRightExactlyWhen(r.shared, s', r.loaded[a.t], a.name, a.status);
    }
  }

  lemma Unfolds(actions: seq<Action>, k: nat)
    requires k < |actions|
    ensures Run(actions[..k + 1]) == Step(Run(actions[..k]), actions[k])
  {
    assert actions[..k + 1][..k] == actions[..k];
  }

  /** In every interleaving of split reports, the cell is the maximum at all times
      exactly when every locked step is harmless where it runs. */
  lemma AlwaysRightExactlyWhenHarmless(actions: seq<Action>)
    ensures AlwaysRight(actions) <==> AlwaysHarmless(actions)
  {
    if AlwaysRight(actions) {
      forall k | 0 <= k < |actions| ensures Harmless(Run(actions[..k]), actions[k]) {
        Unfolds(actions, k);
        StepIsRightExactlyWhen(Run(actions[..k]), actions[k]);
        assert IsRight(Run(actions[..k + 1]));
      }
    } else if AlwaysHarmless(actions) {
      forall k | 0 <= k <= |actions| ensures IsRight(Run(actions[..k])) {
        HarmlessPrefixIsRight(actions, k);
      }
    }
  }

  lemma {:induction false} HarmlessPrefixIsRight(actions: seq<Action>, k: nat)
    requires k <= |actions| && AlwaysHarmless(actions)
    ensures IsRight(Run(actions[..k]))
  {
    if k == 0 {
      assert actions[..0] == [];
    } else {
      HarmlessPrefixIsRight(actions, k - 1);
      Unfolds(actions, k - 1);
      StepIsRightExactlyWhen(Run(actions[..k - 1]), actions[k - 1]);
    }
  }

  /** Every locked step runs with the cell as its report loaded it. */
  ghost predicate LoadsAreCurrent(actions: seq<Action>) {
    forall k :: 0 <= k < |actions| ==> IsCurrent(Run(actions[..k]), actions[k])
  }

  ghost predicate IsCurrent(r: Running, a: Action) {
    a.Lock? && a.t in r.loaded ==> r.loaded[a.t] == r.shared.aggregate
  }

  /** Interleaved reports whose loads are still current when they lock keep the cell
      at the maximum. */
  lemma {:induction false} CurrentLoadsAreAlwaysRight(actions: seq<Action>, k: nat)
    requires k <= |actions| && LoadsAreCurrent(actions)
    ensures IsRight(Run(actions[..k]))
  {
    if k == 0 {
      assert actions[..0] == [];
    } else {
      CurrentLoadsAreAlwaysRight(actions, k - 1);
      Unfolds(actions, k - 1);
      var r, a := Run(actions[..k - 1]), actions[k - 1];
      assert IsCurrent(r, a);
      if a.Lock? && a.t in r.loaded {
        var s' := Step(r, a).shared;
        WorstIsWorst(s'.statuses);
        assert CommitsWith(r.shared, s', r.loaded[a.t], a.name, a.status, Worst(s'.statuses));
        CurrentCommitIsRight(r.shared, s', a.name, a.status);
      }
    }
  }

  /** Two reports that both load Healthy before either locks: the milder one locks
      second, overwrites the cell and hides the worse one. */
  lemma StaleLoadHidesCritical()
    ensures var r := Run([Load(0), Load(1), Lock(0, "a", Critical), Lock(1, "b", Degraded)]);
      && r.shared.statuses == map["a" := Critical, "b" := Degraded] && r.shared.aggregate == Degraded
      && !IsRight(r)
  {
    var actions := [Load(0), Load(1), Lock(0, "a", Critical), Lock(1, "b", Degraded)];
    assert actions[..0] == [] && actions[..4] == actions;
    Unfolds(actions, 0);
    Unfolds(actions, 1);
    Unfolds(actions, 2);
    Unfolds(actions, 3);
    var loaded: map<Thread, HealthStatus> := map[0 := Healthy, 1 := Healthy];
    assert Run(actions[..2]) == Running(Shared(map[], Healthy), loaded);
    var s1 := Shared(map["a" := Critical], Critical);
    assert Run(actions[..3]) == Running(s1, loaded - {0});
    assert Commit(s1, Healthy, "b", Degraded).aggregate == Degraded;
    assert Run(actions).shared.statuses["a"] == Critical;
  }
}
