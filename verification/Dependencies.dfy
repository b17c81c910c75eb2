/** The dependency graph of a list of subsystems: paths, cycles, and what a
    boot order means. */
module Dependencies {
  import opened Prelude

  type Name = string

  datatype Subsystem = Subsystem(name: Name, deps: seq<Name>)

  function Names(subs: seq<Subsystem>): seq<Name> {
    seq(|subs|, i requires 0 <= i < |subs| => subs[i].name)
  }

  ghost predicate DistinctNames(subs: seq<Subsystem>) {
    forall i, j :: 0 <= i < j < |subs| ==> subs[i].name != subs[j].name
  }

  ghost predicate HasName(subs: seq<Subsystem>, n: Name) {
    exists i :: 0 <= i < |subs| && subs[i].name == n
  }

  ghost predicate Resolved(subs: seq<Subsystem>) {
    forall i, k :: 0 <= i < |subs| && 0 <= k < |subs[i].deps| ==> HasName(subs, subs[i].deps[k])
  }

  /** `a` declares a dependency on `b`. */
  ghost predicate DependsOn(subs: seq<Subsystem>, a: Name, b: Name) {
    exists i :: 0 <= i < |subs| && subs[i].name == a && b in subs[i].deps
  }

  ghost predicate Linked(subs: seq<Subsystem>, p: seq<Name>, i: nat)
    requires i + 1 < |p|
  {
    DependsOn(subs, p[i], p[i + 1])
  }

  ghost predicate IsPath(subs: seq<Subsystem>, p: seq<Name>) {
    p != [] && forall i: nat {:trigger Linked(subs, p, i)} :: i + 1 < |p| ==> Linked(subs, p, i)
  }

  ghost predicate IsCycle(subs: seq<Subsystem>, p: seq<Name>) {
    |p| >= 2 && IsPath(subs, p) && p[0] == p[|p| - 1]
  }

  ghost predicate Acyclic(subs: seq<Subsystem>) {
    forall p :: !IsCycle(subs, p)
  }

  /** A path that runs from `a` into a cycle. */
  ghost predicate EntersCycle(subs: seq<Subsystem>, a: Name, path: seq<Name>, cycle: seq<Name>) {
    IsPath(subs, path) && path[0] == a && IsCycle(subs, cycle) && path[|path| - 1] == cycle[0]
  }

  ghost predicate ReachesCycle(subs: seq<Subsystem>, a: Name) {
    exists path, cycle :: EntersCycle(subs, a, path, cycle)
  }

  /** Every dependency of a listed name is listed strictly before it. */
  ghost predicate DependenciesFirst(subs: seq<Subsystem>, order: seq<Name>) {
    forall j, b :: 0 <= j < |order| && DependsOn(subs, order[j], b) ==> b in order[..j]
  }

  lemma PathSlice(subs: seq<Subsystem>, p: seq<Name>, i: nat, j: nat)
    requires IsPath(subs, p) && i < j <= |p|
    ensures IsPath(subs, p[i..j])
  {
    var q := p[i..j];
    forall k: nat | k + 1 < |q| ensures Linked(subs, q, k) {
      assert Linked(subs, p, i + k);
    }
  }

  lemma PathPrepend(subs: seq<Subsystem>, a: Name, p: seq<Name>)
    requires IsPath(subs, p) && DependsOn(subs, a, p[0])
    ensures IsPath(subs, [a] + p)
  {
    var q := [a] + p;
    forall k: nat | k + 1 < |q| ensures Linked(subs, q, k) {
      if k > 0 {
        assert Linked(subs, p, k - 1);
      }
    }
  }

  // -------------------------------------------- ordered names reach no cycle

  /** A path that starts inside an ordered list stays before its start. */
  lemma {:induction false} PathDescends(subs: seq<Subsystem>, order: seq<Name>, p: seq<Name>, j: nat)
    requires DependenciesFirst(subs, order) && IsPath(subs, p)
    requires j < |order| && order[j] == p[0]
    ensures p[|p| - 1] in order[..j + 1]
    ensures |p| >= 2 ==> p[|p| - 1] in order[..j]
    decreases |p|
  {
    if |p| >= 2 {
      assert Linked(subs, p, 0);
      var k :| 0 <= k < j && order[k] == p[1];
      PathSlice(subs, p, 1, |p|);
      assert p[1..] == p[1..|p|];
      PathDescends(subs, order, p[1..], k);
    }
  }

  lemma OrderedNamesReachNoCycle(subs: seq<Subsystem>, order: seq<Name>, a: Name)
    requires DependenciesFirst(subs, order) && Distinct(order) && a in order
    ensures !ReachesCycle(subs, a)
  {
    if ReachesCycle(subs, a) {
      var path, cycle :| EntersCycle(subs, a, path, cycle);
      var j :| 0 <= j < |order| && order[j] == a;
      PathDescends(subs, order, path, j);
      var k :| 0 <= k < j + 1 && order[k] == cycle[0];
      PathDescends(subs, order, cycle, k);
      assert false;
    }
  }

  // --------------------------------------------- a closed set contains a cycle

  ghost predicate WaitsFor(subs: seq<Subsystem>, a: Name, stuck: set<Name>) {
    exists b :: b in stuck && DependsOn(subs, a, b)
  }

  /** Every member of the set depends on a member of the set. */
  ghost predicate Stuck(subs: seq<Subsystem>, stuck: set<Name>) {
    forall a {:trigger WaitsFor(subs, a, stuck)} :: a in stuck ==> WaitsFor(subs, a, stuck)
  }

  lemma {:induction false} Walk(subs: seq<Subsystem>, stuck: set<Name>, a: Name, n: nat) returns (p: seq<Name>)
    requires Stuck(subs, stuck) && a in stuck
    ensures |p| == n + 1 && IsPath(subs, p) && p[0] == a && forall x :: x in p ==> x in stuck
    decreases n
  {
    if n == 0 {
      p := [a];
    } else {
      assert WaitsFor(subs, a, stuck);
      var b :| b in stuck && DependsOn(subs, a, b);
      var q := Walk(subs, stuck, b, n - 1);
      p := [a] + q;
      PathPrepend(subs, a, q);
    }
  }

  lemma StuckNamesReachCycles(subs: seq<Subsystem>, stuck: set<Name>, a: Name)
    requires Stuck(subs, stuck) && a in stuck
    ensures ReachesCycle(subs, a)
  {
    var p := Walk(subs, stuck, a, |stuck|);
    if Distinct(p) {
      DistinctFits(p, stuck);
      assert false;
    }
    var i, j :| 0 <= i < j < |p| && p[i] == p[j];
    PathSlice(subs, p, 0, i + 1);
    PathSlice(subs, p, i, j + 1);
    assert EntersCycle(subs, a, p[0..i + 1], p[i..j + 1]);
  }

  lemma CycleMembersReachCycles(subs: seq<Subsystem>, p: seq<Name>)
    requires IsCycle(subs, p)
    ensures ReachesCycle(subs, p[0])
  {
    assert EntersCycle(subs, p[0], [p[0]], p);
  }

  // ------------------------------------------------ on a cycle, or only near one

  ghost predicate OnCycle(subs: seq<Subsystem>, n: Name) {
    exists p :: IsCycle(subs, p) && p[0] == n
  }

  /** Whatever depends on a member of a cycle is itself on one. */
  ghost predicate CyclesAreClosed(subs: seq<Subsystem>) {
    forall a, c :: DependsOn(subs, a, c) && OnCycle(subs, c) ==> OnCycle(subs, a)
  }

  lemma {:induction false} PathIntoClosedCycles(subs: seq<Subsystem>, p: seq<Name>)
    requires CyclesAreClosed(subs) && IsPath(subs, p) && OnCycle(subs, p[|p| - 1])
    ensures OnCycle(subs, p[0])
    decreases |p|
  {
    if |p| >= 2 {
      PathSlice(subs, p, 1, |p|);
      PathIntoClosedCycles(subs, p[1..|p|]);
      assert Linked(subs, p, 0);
    }
  }

  /** Reaching a cycle means being on one exactly when nothing outside the cycles
      depends on them. */
  lemma ReachingIsOnCycleExactlyWhen(subs: seq<Subsystem>)
    ensures (forall n :: ReachesCycle(subs, n) ==> OnCycle(subs, n)) <==> CyclesAreClosed(subs)
    ensures forall n :: OnCycle(subs, n) ==> ReachesCycle(subs, n)
  {
    forall n | OnCycle(subs, n) ensures ReachesCycle(subs, n) {
      var p :| IsCycle(subs, p) && p[0] == n;
      CycleMembersReachCycles(subs, p);
    }
    if CyclesAreClosed(subs) {
      forall n | ReachesCycle(subs, n) ensures OnCycle(subs, n) {
        var path, cycle :| EntersCycle(subs, n, path, cycle);
        PathIntoClosedCycles(subs, path);
      }
    } else {
      var a, c :| DependsOn(subs, a, c) && OnCycle(subs, c) && !OnCycle(subs, a);
      var cycle :| IsCycle(subs, cycle) && cycle[0] == c;
      assert Linked(subs, [a, c], 0);
      assert EntersCycle(subs, a, [a, c], cycle);
    }
  }

  /** One subsystem that depends on a self-dependent one reaches a cycle without
      being on any. */
  lemma DependentIsNotOnCycle()
    ensures var subs := [Subsystem("a", ["b"]), Subsystem("b", ["b"])];
      ReachesCycle(subs, "a") && !OnCycle(subs, "a")
  {
    var subs := [Subsystem("a", ["b"]), Subsystem("b", ["b"])];
    assert subs[0].name == "a" && "b" in subs[0].deps && subs[1].name == "b" && "b" in subs[1].deps;
    assert Linked(subs, ["a", "b"], 0) && Linked(subs, ["b", "b"], 0);
    assert EntersCycle(subs, "a", ["a", "b"], ["b", "b"]);
    assert forall x :: !DependsOn(subs, x, "a");
    if OnCycle(subs, "a") {
      CycleMembersAreNeeded(subs, "a");
      assert false;
    }
  }

  lemma CycleMembersAreNeeded(subs: seq<Subsystem>, n: Name)
    requires OnCycle(subs, n)
    ensures exists x :: DependsOn(subs, x, n)
  {
    var p :| IsCycle(subs, p) && p[0] == n;
    assert Linked(subs, p, |p| - 2);
  }
}
