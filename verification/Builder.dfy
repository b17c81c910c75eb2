/** Building a kernel: validation of the registered subsystems, Kahn's
    algorithm over an in-degree map and a queue, and the final reordering. */
module Builder {
  import opened Prelude
  import opened Dependencies
  import opened BuildOrder

  // ----------------------------------------------------------- specification

  ghost function NameSet(subs: seq<Subsystem>): set<Name> {
    set i | 0 <= i < |subs| :: subs[i].name
  }

  /** How often `x` occurs in `s`. */
  function CountOf(s: seq<Name>, x: Name): nat { multiset(s)[x] }

  /** Dependency slots that are not yet satisfied by `done`. */
  ghost function Unmet(deps: seq<Name>, done: seq<Name>): nat {
    if deps == [] then 0
    else Unmet(deps[..|deps| - 1], done) + if deps[|deps| - 1] in done then 0 else 1
  }

  /** The names in `keep`, in declaration order. */
  ghost function NamesIn(subs: seq<Subsystem>, keep: set<Name>): seq<Name> {
    if subs == [] then []
    else
      var last := subs[|subs| - 1].name;
      NamesIn(subs[..|subs| - 1], keep) + if last in keep then [last] else []
  }

  /** The subsystems from which a dependency cycle can be reached. */
  ghost function CyclicNames(subs: seq<Subsystem>): set<Name> {
    set n | n in NameSet(subs) && ReachesCycle(subs, n)
  }

  /** A boot order: each name once, every dependency strictly before. */
  ghost predicate IsBootOrder(subs: seq<Subsystem>, order: seq<Name>) {
    && Distinct(order)
    && (forall n :: n in order <==> n in NameSet(subs))
    && DependenciesFirst(subs, order)
  }

  // ------------------------------------------------------------ small lemmas

  lemma {:induction false} UnmetWhenDoneGrows(deps: seq<Name>, done: seq<Name>, x: Name)
    requires x !in done
    ensures Unmet(deps, done) == Unmet(deps, done + [x]) + CountOf(deps, x)
  {
    if deps != [] {
      var before, last := deps[..|deps| - 1], deps[|deps| - 1];
      UnmetWhenDoneGrows(before, done, x);
      assert deps == before + [last];
    }
  }

  lemma {:induction false} UnmetIsZero(deps: seq<Name>, done: seq<Name>)
    ensures Unmet(deps, done) == 0 <==> forall d :: d in deps ==> d in done
  {
    if deps != [] {
      UnmetIsZero(deps[..|deps| - 1], done);
      assert deps == deps[..|deps| - 1] + [deps[|deps| - 1]];
    }
  }

  lemma {:induction false} NothingMet(deps: seq<Name>)
    ensures Unmet(deps, []) == |deps|
  {
    if deps != [] {
      NothingMet(deps[..|deps| - 1]);
    }
  }

  lemma {:induction false} NameCount(subs: seq<Subsystem>)
    requires DistinctNames(subs)
    ensures |NameSet(subs)| == |subs|
  {
    if subs == [] {
      assert NameSet(subs) == {};
    } else {
      var before := subs[..|subs| - 1];
      var last := subs[|subs| - 1].name;
      NameCount(before);
      assert last !in NameSet(before);
      assert NameSet(subs) == NameSet(before) + {last};
    }
  }

  lemma {:induction false} NamesInMembers(subs: seq<Subsystem>, keep: set<Name>)
    ensures forall n :: n in NamesIn(subs, keep) <==> n in NameSet(subs) && n in keep
  {
    if subs != [] {
      var before := subs[..|subs| - 1];
      NamesInMembers(before, keep);
      assert NameSet(subs) == NameSet(before) + {subs[|subs| - 1].name};
    }
  }

  /** The `k`-th name is that of the subsystem declared at `at[k]`, in that order. */
  ghost predicate DeclaredAt(subs: seq<Subsystem>, at: seq<nat>, names: seq<Name>) {
    && |at| == |names|
    && (forall k :: 0 <= k < |at| ==> at[k] < |subs| && subs[at[k]].name == names[k])
    && (forall j, k :: 0 <= j < k < |at| ==> at[j] < at[k])
  }

  lemma DeclaredNext(subs: seq<Subsystem>, at: seq<nat>, names: seq<Name>, n: nat)
    requires n < |subs| && DeclaredAt(subs[..n], at, names)
    ensures DeclaredAt(subs, at, names) && DeclaredAt(subs, at + [n], names + [subs[n].name])
  {
    assert forall k :: 0 <= k < |at| ==> subs[..n][at[k]] == subs[at[k]];
  }

  /** The list takes the kept names in the order in which they are declared. */
  lemma {:induction false} NamesInOrder(subs: seq<Subsystem>, keep: set<Name>) returns (at: seq<nat>)
    ensures DeclaredAt(subs, at, NamesIn(subs, keep))
  {
    at := [];
    if subs != [] {
      var n := |subs| - 1;
      var before := NamesInOrder(subs[..n], keep);
      DeclaredNext(subs, before, NamesIn(subs[..n], keep), n);
      at := if subs[n].name in keep then before + [n] else before;
      assert subs[n].name !in keep ==> NamesIn(subs, keep) == NamesIn(subs[..n], keep);
    }
  }

  // ------------------------------------------------------------- edge building

  /** The dependency slots of subsystem `j` that the scan, now at slot `k` of
      subsystem `i`, has passed. */
  function Scanned(subs: seq<Subsystem>, j: nat, i: nat, k: nat): seq<Name>
    requires j < |subs| && (i < |subs| ==> k <= |subs[i].deps|)
  {
    if j < i then subs[j].deps else if j == i then subs[i].deps[..k] else []
  }

  ghost predicate DegreesScanned(subs: seq<Subsystem>, indegree: map<Name, nat>, i: nat, k: nat)
    requires i < |subs| ==> k <= |subs[i].deps|
  {
    && indegree.Keys == NameSet(subs)
    && forall j :: 0 <= j < |subs| ==> indegree[subs[j].name] == |Scanned(subs, j, i, k)|
  }

  ghost predicate SlotsScanned(subs: seq<Subsystem>, dependents: map<Name, seq<Name>>, i: nat, k: nat)
    requires i < |subs| ==> k <= |subs[i].deps|
  {
    && dependents.Keys == NameSet(subs)
    && AllNamed(subs, dependents)
    && forall b, j :: b in dependents && 0 <= j < |subs| ==>
         CountOf(dependents[b], subs[j].name) == CountOf(Scanned(subs, j, i, k), b)
  }

  ghost predicate AllNamed(subs: seq<Subsystem>, dependents: map<Name, seq<Name>>) {
    forall b, n :: b in dependents && n in dependents[b] ==> n in NameSet(subs)
  }

  lemma PushKeepsNamed(subs: seq<Subsystem>, dependents: map<Name, seq<Name>>, dep: Name, n: Name)
    requires AllNamed(subs, dependents) && dep in dependents && n in NameSet(subs)
    ensures AllNamed(subs, dependents[dep := dependents[dep] + [n]])
  {
  }

  lemma ScannedStep(subs: seq<Subsystem>, j: nat, i: nat, k: nat)
    requires j < |subs| && i < |subs| && k < |subs[i].deps|
    ensures Scanned(subs, j, i, k + 1)
         == if j == i then Scanned(subs, j, i, k) + [subs[i].deps[k]] else Scanned(subs, j, i, k)
  {
  }

  lemma SlotCounted(subs: seq<Subsystem>, dependents: map<Name, seq<Name>>, i: nat, k: nat, b: Name, j: nat)
    requires DistinctNames(subs) && i < |subs| && k < |subs[i].deps| && j < |subs|
    requires b in dependents && subs[i].deps[k] in dependents
    requires CountOf(dependents[b], subs[j].name) == CountOf(Scanned(subs, j, i, k), b)
    ensures var n, dep := subs[i].name, subs[i].deps[k];
      CountOf(dependents[dep := dependents[dep] + [n]][b], subs[j].name) == CountOf(Scanned(subs, j, i, k + 1), b)
  {
    ScannedStep(subs, j, i, k);
  }

  lemma SlotsCounted(subs: seq<Subsystem>, dependents: map<Name, seq<Name>>, i: nat, k: nat)
    requires DistinctNames(subs) && i < |subs| && k < |subs[i].deps| && subs[i].deps[k] in dependents
    requires SlotsScanned(subs, dependents, i, k) && subs[i].name in NameSet(subs)
    ensures var n, dep := subs[i].name, subs[i].deps[k];
      SlotsScanned(subs, dependents[dep := dependents[dep] + [n]], i, k + 1)
  {
    var n, dep := subs[i].name, subs[i].deps[k];
    var pushed := dependents[dep := dependents[dep] + [n]];
    assert pushed.Keys == dependents.Keys;
    PushKeepsNamed(subs, dependents, dep, n);
    forall b, j | b in pushed && 0 <= j < |subs|
      ensures CountOf(pushed[b], subs[j].name) == CountOf(Scanned(subs, j, i, k + 1), b)
    {
      assert b in dependents;
      SlotCounted(subs, dependents, i, k, b, j);
    }
  }

  lemma DegreeCounted(subs: seq<Subsystem>, indegree: map<Name, nat>, i: nat, k: nat)
    requires DistinctNames(subs) && i < |subs| && k < |subs[i].deps| && subs[i].name in indegree
    requires DegreesScanned(subs, indegree, i, k)
    ensures DegreesScanned(subs, indegree[subs[i].name := indegree[subs[i].name] + 1], i, k + 1)
  {
    var counted := indegree[subs[i].name := indegree[subs[i].name] + 1];
    assert counted.Keys == indegree.Keys;
    forall j | 0 <= j < |subs|
      ensures subs[j].name in indegree
      ensures |Scanned(subs, j, i, k + 1)| == |Scanned(subs, j, i, k)| + if j == i then 1 else 0
    {
      assert subs[j].name in NameSet(subs);
      ScannedStep(subs, j, i, k);
    }
  }

  lemma SlotPassed(subs: seq<Subsystem>, indegree: map<Name, nat>, dependents: map<Name, seq<Name>>, i: nat, k: nat)
    requires DistinctNames(subs) && Resolved(subs) && i < |subs| && k < |subs[i].deps|
    requires DegreesScanned(subs, indegree, i, k) && SlotsScanned(subs, dependents, i, k)
    ensures var n, dep := subs[i].name, subs[i].deps[k];
      && n in indegree && dep in dependents
      && DegreesScanned(subs, indegree[n := indegree[n] + 1], i, k + 1)
      && SlotsScanned(subs, dependents[dep := dependents[dep] + [n]], i, k + 1)
  {
    assert HasName(subs, subs[i].deps[k]) && subs[i].name in NameSet(subs);
    DegreeCounted(subs, indegree, i, k);
    SlotsCounted(subs, dependents, i, k);
  }

  lemma NextSubsystem(subs: seq<Subsystem>, indegree: map<Name, nat>, dependents: map<Name, seq<Name>>, i: nat)
    requires i < |subs|
    requires DegreesScanned(subs, indegree, i, |subs[i].deps|) && SlotsScanned(subs, dependents, i, |subs[i].deps|)
    ensures DegreesScanned(subs, indegree, i + 1, 0) && SlotsScanned(subs, dependents, i + 1, 0)
  {
    forall j | 0 <= j < |subs|
      ensures Scanned(subs, j, i + 1, 0) == Scanned(subs, j, i, |subs[i].deps|)
    {
    }
  }

  /** The lists of dependents are in declaration order, all declared before `i`. */
  ghost predicate ListsInOrder(subs: seq<Subsystem>, dependents: map<Name, seq<Name>>, i: nat) {
    forall b :: b in dependents ==>
      InDeclarationOrder(subs, dependents[b]) && forall n :: n in dependents[b] ==> Declared(subs, n) < i
  }

  lemma PushKeepsOrder(subs: seq<Subsystem>, dependents: map<Name, seq<Name>>, dep: Name, i: nat)
    requires DistinctNames(subs) && i < |subs| && dep in dependents && ListsInOrder(subs, dependents, i + 1)
    ensures ListsInOrder(subs, dependents[dep := dependents[dep] + [subs[i].name]], i + 1)
  {
    DeclaredIs(subs, i);
    var pushed := dependents[dep] + [subs[i].name];
    forall p, q | 0 <= p < q < |pushed| ensures Declared(subs, pushed[p]) <= Declared(subs, pushed[q]) {
      assert pushed[p] in dependents[dep];
      assert q < |dependents[dep]| ==> pushed[q] == dependents[dep][q];
    }
  }

  method ZeroEntries(subs: seq<Subsystem>) returns (indegree: map<Name, nat>, dependents: map<Name, seq<Name>>)
    ensures EdgesScanned(subs, indegree, dependents, 0, 0)
  {
    indegree, dependents := map[], map[];
    for i := 0 to |subs|
      invariant indegree.Keys == dependents.Keys == NameSet(subs[..i])
      invariant forall n :: n in indegree ==> indegree[n] == 0 && dependents[n] == []
    {
      assert NameSet(subs[..i + 1]) == NameSet(subs[..i]) + {subs[i].name};
      indegree := indegree[subs[i].name := 0];
      dependents := dependents[subs[i].name := []];
    }
    assert subs[..|subs|] == subs;
    forall j | 0 <= j < |subs| ensures subs[j].name in indegree && Scanned(subs, j, 0, 0) == [] {
      assert subs[j].name in NameSet(subs);
    }
  }

  /** The two maps agree with a scan that has come to slot `k` of subsystem `i`. */
  ghost predicate EdgesScanned(subs: seq<Subsystem>, indegree: map<Name, nat>, dependents: map<Name, seq<Name>>,
                               i: nat, k: nat)
    requires i < |subs| ==> k <= |subs[i].deps|
  {
    && DegreesScanned(subs, indegree, i, k) && SlotsScanned(subs, dependents, i, k)
    && ListsInOrder(subs, dependents, i + 1)
  }

  /** The dependency slots of one subsystem. */
  method ScanSlots(subs: seq<Subsystem>, i: nat, indegree0: map<Name, nat>, dependents0: map<Name, seq<Name>>)
    returns (indegree: map<Name, nat>, dependents: map<Name, seq<Name>>)
    requires DistinctNames(subs) && Resolved(subs) && i < |subs|
    requires EdgesScanned(subs, indegree0, dependents0, i, 0)
    ensures EdgesScanned(subs, indegree, dependents, i + 1, 0)
  {
    indegree, dependents := indegree0, dependents0;
    for k := 0 to |subs[i].deps|
      invariant EdgesScanned(subs, indegree, dependents, i, k)
    {
      var n, dep := subs[i].name, subs[i].deps[k];
      SlotPassed(subs, indegree, dependents, i, k);
      PushKeepsOrder(subs, dependents, dep, i);
      indegree := indegree[n := indegree[n] + 1];
      dependents := dependents[dep := dependents[dep] + [n]];
    }
    NextSubsystem(subs, indegree, dependents, i);
  }

  method BuildEdges(subs: seq<Subsystem>) returns (indegree: map<Name, nat>, dependents: map<Name, seq<Name>>)
    requires DistinctNames(subs) && Resolved(subs)
    ensures EdgesScanned(subs, indegree, dependents, |subs|, 0)
  {
    indegree, dependents := ZeroEntries(subs);
    for i := 0 to |subs|
      invariant EdgesScanned(subs, indegree, dependents, i, 0)
    {
      indegree, dependents := ScanSlots(subs, i, indegree, dependents);
    }
  }

  /** What the main loop starts from. */
  lemma EdgesGiveDegrees(subs: seq<Subsystem>, indegree: map<Name, nat>, dependents: map<Name, seq<Name>>)
    requires DegreesScanned(subs, indegree, |subs|, 0) && SlotsScanned(subs, dependents, |subs|, 0)
    ensures EdgesComplete(subs, dependents) && Degrees(subs, indegree, [], [])
  {
    forall j | 0 <= j < |subs|
      ensures Scanned(subs, j, |subs|, 0) == subs[j].deps && Unmet(subs[j].deps, []) == |subs[j].deps|
    {
      NothingMet(subs[j].deps);
    }
  }

  // ------------------------------------------------------------- the main loop

  /** In-degrees count the slots not met by `sorted`, plus those of the popped
      name that are still to be released through `children`. */
  ghost predicate Degrees(subs: seq<Subsystem>, indegree: map<Name, nat>, sorted: seq<Name>, children: seq<Name>) {
    && indegree.Keys == NameSet(subs)
    && forall j :: 0 <= j < |subs| ==>
         indegree[subs[j].name] == Unmet(subs[j].deps, sorted) + CountOf(children, subs[j].name)
  }

  /** The names taken or waiting are exactly those of in-degree zero, each once. */
  ghost predicate Frontier(indegree: map<Name, nat>, sorted: seq<Name>, queue: seq<Name>) {
    && Distinct(sorted + queue)
    && forall n :: n in sorted + queue <==> n in indegree && indegree[n] == 0
  }

  lemma ReleaseOne(subs: seq<Subsystem>, indegree: map<Name, nat>, sorted: seq<Name>, child: Name, rest: seq<Name>)
    requires DistinctNames(subs) && child in NameSet(subs)
    requires Degrees(subs, indegree, sorted, [child] + rest)
    ensures indegree[child] > 0
    ensures Degrees(subs, indegree[child := indegree[child] - 1], sorted, rest)
  {
    forall j | 0 <= j < |subs|
      ensures CountOf([child] + rest, subs[j].name)
           == CountOf(rest, subs[j].name) + if subs[j].name == child then 1 else 0
    {
    }
  }

  lemma DropFromFrontier(indegree: map<Name, nat>, sorted: seq<Name>, queue: seq<Name>, child: Name)
    requires Frontier(indegree, sorted, queue) && child in indegree && indegree[child] > 0
    ensures var dropped := indegree[child := indegree[child] - 1];
      Frontier(dropped, sorted, if dropped[child] == 0 then queue + [child] else queue)
  {
    assert child !in sorted + queue;
    assert sorted + (queue + [child]) == (sorted + queue) + [child];
  }

  /** Everyone listed or waiting is in turn, and ahead of those the popped name, the
      last in `sorted`, is still to release through `children`. */
  ghost predicate Turns(subs: seq<Subsystem>, sorted: seq<Name>, queue: seq<Name>, children: seq<Name>) {
    && InTurn(subs, sorted, sorted + queue) && AllAhead(subs, sorted, sorted + queue, children)
    && InDeclarationOrder(subs, children) && JustReady(subs, sorted, children)
    && forall n :: n in sorted + queue ==> HasName(subs, n)
  }

  /** Everyone in `children` depends on the last name in `sorted`. */
  ghost predicate JustReady(subs: seq<Subsystem>, sorted: seq<Name>, children: seq<Name>) {
    && sorted != []
    && forall n :: n in children ==> HasName(subs, n) && !Met(DepsOf(subs, n), sorted[..|sorted| - 1])
  }

  lemma TurnsStep(subs: seq<Subsystem>, sorted: seq<Name>, queue: seq<Name>, child: Name, rest: seq<Name>,
                  released: bool)
    requires DistinctNames(subs) && Turns(subs, sorted, queue, [child] + rest)
    requires released ==> child !in sorted + queue
    ensures Turns(subs, sorted, if released then queue + [child] else queue, rest)
  {
    NextChild(subs, sorted, sorted + queue, child, rest);
    assert child in [child] + rest;
    if released {
      ReleasedInTurn(subs, sorted, sorted + queue, child, rest);
      assert sorted + (queue + [child]) == (sorted + queue) + [child];
    }
  }

  lemma FrontierIsReady(subs: seq<Subsystem>, indegree: map<Name, nat>, sorted: seq<Name>, queue: seq<Name>)
    requires DistinctNames(subs) && Degrees(subs, indegree, sorted, []) && Frontier(indegree, sorted, queue)
    ensures AllReady(subs, sorted, sorted + queue)
  {
    forall n | n in sorted + queue ensures HasName(subs, n) && Met(DepsOf(subs, n), sorted) {
      var j :| 0 <= j < |subs| && subs[j].name == n;
      DeclaredIs(subs, j);
      UnmetIsZero(subs[j].deps, sorted);
    }
  }

  lemma DependentsJustReady(subs: seq<Subsystem>, dependents: map<Name, seq<Name>>, sorted: seq<Name>, name: Name)
    requires DistinctNames(subs) && EdgesComplete(subs, dependents) && name in dependents && name !in sorted
    ensures JustReady(subs, sorted + [name], dependents[name])
  {
    assert (sorted + [name])[..|sorted|] == sorted;
    forall n | n in dependents[name] ensures HasName(subs, n) && !Met(DepsOf(subs, n), sorted) {
      assert n in NameSet(subs);
      var j :| 0 <= j < |subs| && subs[j].name == n;
      DeclaredIs(subs, j);
      assert CountOf(dependents[name], subs[j].name) == CountOf(subs[j].deps, name);
      assert name in subs[j].deps;
    }
  }

  /** The queue's head is taken; its dependents are about to be released. */
  lemma TakeTurn(subs: seq<Subsystem>, indegree: map<Name, nat>, dependents: map<Name, seq<Name>>,
                 sorted: seq<Name>, queue: seq<Name>)
    requires DistinctNames(subs) && EdgesComplete(subs, dependents) && ListsInOrder(subs, dependents, |subs| + 1)
    requires Degrees(subs, indegree, sorted, []) && Frontier(indegree, sorted, queue) && queue != []
    requires InTurn(subs, sorted, sorted + queue)
    ensures queue[0] in dependents && Turns(subs, sorted + [queue[0]], queue[1..], dependents[queue[0]])
  {
    PopKeepsFrontier(indegree, sorted, queue);
    FrontierIsReady(subs, indegree, sorted, queue);
    TakeReady(subs, dependents, sorted, queue);
  }

  lemma TakeReady(subs: seq<Subsystem>, dependents: map<Name, seq<Name>>, sorted: seq<Name>, queue: seq<Name>)
    requires DistinctNames(subs) && EdgesComplete(subs, dependents) && ListsInOrder(subs, dependents, |subs| + 1)
    requires queue != [] && queue[0] in dependents && queue[0] !in sorted
    requires InTurn(subs, sorted, sorted + queue) && AllReady(subs, sorted, sorted + queue)
    ensures Turns(subs, sorted + [queue[0]], queue[1..], dependents[queue[0]])
  {
    var name := queue[0];
    TakenInTurn(subs, sorted, sorted + queue, name, dependents[name]);
    assert (sorted + [name]) + queue[1..] == sorted + queue;
    DependentsJustReady(subs, dependents, sorted, name);
    assert InDeclarationOrder(subs, dependents[name]);
  }

  method Release(subs: seq<Subsystem>, children: seq<Name>, indegree0: map<Name, nat>, queue0: seq<Name>,
                 ghost sorted: seq<Name>)
    returns (indegree: map<Name, nat>, queue: seq<Name>)
    requires DistinctNames(subs)
    requires Degrees(subs, indegree0, sorted, children) && Frontier(indegree0, sorted, queue0)
    requires forall n :: n in children ==> n in NameSet(subs)
    requires Turns(subs, sorted, queue0, children)
    ensures Degrees(subs, indegree, sorted, []) && Frontier(indegree, sorted, queue)
    ensures InTurn(subs, sorted, sorted + queue)
  {
    indegree, queue := indegree0, queue0;
    for k := 0 to |children|
      invariant Degrees(subs, indegree, sorted, children[k..]) && Frontier(indegree, sorted, queue)
      invariant Turns(subs, sorted, queue, children[k..])
    {
      var child := children[k];
      assert children[k..] == [child] + children[k + 1..];
      ReleaseOne(subs, indegree, sorted, child, children[k + 1..]);
      DropFromFrontier(indegree, sorted, queue, child);
      TurnsStep(subs, sorted, queue, child, children[k + 1..], indegree[child] == 1);
      if indegree[child] > 0 {
        indegree := indegree[child := indegree[child] - 1];
      }
      if indegree[child] == 0 {
        queue := queue + [child];
      }
    }
    assert children[|children|..] == [];
  }

  /** Taking a name of in-degree zero: its dependencies are all listed, and its
      dependents account for the slots it meets. */
  lemma TakeOne(subs: seq<Subsystem>, indegree: map<Name, nat>, dependents: map<Name, seq<Name>>,
                sorted: seq<Name>, name: Name)
    requires DistinctNames(subs) && EdgesComplete(subs, dependents)
    requires Degrees(subs, indegree, sorted, []) && name in indegree && indegree[name] == 0
    requires name !in sorted && DependenciesFirst(subs, sorted)
    ensures Degrees(subs, indegree, sorted + [name], dependents[name])
    ensures DependenciesFirst(subs, sorted + [name])
  {
    forall j | 0 <= j < |subs|
      ensures indegree[subs[j].name]
           == Unmet(subs[j].deps, sorted + [name]) + CountOf(dependents[name], subs[j].name)
    {
      UnmetWhenDoneGrows(subs[j].deps, sorted, name);
    }
    var order := sorted + [name];
    forall j, b | 0 <= j < |order| && DependsOn(subs, order[j], b) ensures b in order[..j] {
      if j < |sorted| {
        assert order[..j] == sorted[..j];
      } else {
        var i :| 0 <= i < |subs| && subs[i].name == name && b in subs[i].deps;
        UnmetIsZero(subs[i].deps, sorted);
        assert order[..j] == sorted;
      }
    }
  }

  ghost predicate EdgesComplete(subs: seq<Subsystem>, dependents: map<Name, seq<Name>>) {
    && dependents.Keys == NameSet(subs)
    && (forall b, j :: b in dependents && 0 <= j < |subs| ==>
          CountOf(dependents[b], subs[j].name) == CountOf(subs[j].deps, b))
    && AllNamed(subs, dependents)
  }

  ghost function Positive(indegree: map<Name, nat>): set<Name> {
    set n | n in indegree && indegree[n] > 0
  }

  lemma PositiveIsStuck(subs: seq<Subsystem>, indegree: map<Name, nat>, sorted: seq<Name>)
    requires Resolved(subs) && Degrees(subs, indegree, sorted, [])
    requires forall n :: n in sorted <==> n in indegree && indegree[n] == 0
    ensures Stuck(subs, Positive(indegree))
  {
    forall a | a in Positive(indegree) ensures WaitsFor(subs, a, Positive(indegree)) {
      var j :| 0 <= j < |subs| && subs[j].name == a;
      UnmetIsZero(subs[j].deps, sorted);
      var d :| d in subs[j].deps && d !in sorted;
      var k :| 0 <= k < |subs[j].deps| && subs[j].deps[k] == d;
      assert HasName(subs, d) && DependsOn(subs, a, d);
    }
  }

  lemma PositiveIsCyclic(subs: seq<Subsystem>, indegree: map<Name, nat>, sorted: seq<Name>)
    requires indegree.Keys == NameSet(subs) && Stuck(subs, Positive(indegree))
    requires Distinct(sorted) && DependenciesFirst(subs, sorted)
    requires forall n :: n in sorted <==> n in indegree && indegree[n] == 0
    ensures Positive(indegree) == CyclicNames(subs)
  {
    forall n | n in NameSet(subs) ensures ReachesCycle(subs, n) <==> n in Positive(indegree) {
      if n in Positive(indegree) {
        StuckNamesReachCycles(subs, Positive(indegree), n);
      } else {
        OrderedNamesReachNoCycle(subs, sorted, n);
      }
    }
  }

  lemma LengthTellsStuck(subs: seq<Subsystem>, indegree: map<Name, nat>, sorted: seq<Name>)
    requires DistinctNames(subs) && indegree.Keys == NameSet(subs) && Distinct(sorted)
    requires forall n :: n in sorted <==> n in indegree && indegree[n] == 0
    ensures |sorted| == |subs| <==> Positive(indegree) == {}
  {
    var taken := set n | n in sorted;
    DistinctCardinality(sorted);
    NameCount(subs);
    assert NameSet(subs) == taken + Positive(indegree) && taken * Positive(indegree) == {};
  }

  lemma EmptyQueue(indegree: map<Name, nat>, sorted: seq<Name>)
    requires Frontier(indegree, sorted, [])
    ensures Distinct(sorted) && forall n :: n in sorted <==> n in indegree && indegree[n] == 0
  {
    assert sorted + [] == sorted;
  }

  /** What the loop leaves behind when the queue is empty: the names of positive
      in-degree wait for each other and are exactly those that reach a cycle. */
  lemma RemainderIsCyclic(subs: seq<Subsystem>, indegree: map<Name, nat>, sorted: seq<Name>)
    requires DistinctNames(subs) && Resolved(subs) && DependenciesFirst(subs, sorted)
    requires Degrees(subs, indegree, sorted, []) && Distinct(sorted)
    requires forall n :: n in sorted <==> n in indegree && indegree[n] == 0
    ensures Stuck(subs, Positive(indegree)) && Positive(indegree) == CyclicNames(subs)
    ensures |sorted| == |subs| <==> CyclicNames(subs) == {}
  {
    PositiveIsStuck(subs, indegree, sorted);
    PositiveIsCyclic(subs, indegree, sorted);
    LengthTellsStuck(subs, indegree, sorted);
  }

  lemma EmptyRemainderIsBootOrder(subs: seq<Subsystem>, indegree: map<Name, nat>, sorted: seq<Name>)
    requires indegree.Keys == NameSet(subs) && Positive(indegree) == {}
    requires DependenciesFirst(subs, sorted) && Distinct(sorted)
    requires forall n :: n in sorted <==> n in indegree && indegree[n] == 0
    ensures IsBootOrder(subs, sorted)
  {
    assert forall n :: n in indegree ==> n !in Positive(indegree);
  }

  lemma CyclesNeedCyclicNames(subs: seq<Subsystem>)
    ensures Acyclic(subs) <==> CyclicNames(subs) == {}
  {
    if !Acyclic(subs) {
      var p :| IsCycle(subs, p);
      CycleMembersReachCycles(subs, p);
      assert Linked(subs, p, 0);
      assert p[0] in CyclicNames(subs);
    }
    if CyclicNames(subs) != {} {
      var n :| n in CyclicNames(subs);
      var path, cycle :| EntersCycle(subs, n, path, cycle);
    }
  }

  /** The names a failed sort reports are the members of cycles exactly when nothing
      outside the cycles depends on them. */
  lemma ReportIsCyclesExactlyWhen(subs: seq<Subsystem>)
    ensures CyclicNames(subs) == (set n | n in NameSet(subs) && OnCycle(subs, n)) <==> CyclesAreClosed(subs)
  {
    ReachingIsOnCycleExactlyWhen(subs);
    forall n | ReachesCycle(subs, n) ensures n in NameSet(subs) {
      var path, cycle :| EntersCycle(subs, n, path, cycle);
      assert |path| >= 2 ==> Linked(subs, path, 0);
      assert Linked(subs, cycle, 0);
    }
    if CyclicNames(subs) == (set n | n in NameSet(subs) && OnCycle(subs, n)) {
      assert forall n :: ReachesCycle(subs, n) ==> n in CyclicNames(subs);
    } else {
      var n :| n in CyclicNames(subs) <==> n !in (set m | m in NameSet(subs) && OnCycle(subs, m));
    }
  }

  method ListStuck(subs: seq<Subsystem>, indegree: map<Name, nat>) returns (stuck: seq<Name>)
    requires indegree.Keys == NameSet(subs)
    ensures stuck == NamesIn(subs, Positive(indegree))
  {
    stuck := [];
    for i := 0 to |subs|
      invariant stuck == NamesIn(subs[..i], Positive(indegree))
    {
      assert subs[i].name in NameSet(subs);
      assert subs[..i + 1][..i] == subs[..i];
      if indegree[subs[i].name] > 0 {
        stuck := stuck + [subs[i].name];
      }
    }
    assert subs[..|subs|] == subs;
  }

  /** The names waiting at the start are in turn, all declared before `i`. */
  ghost predicate SeededUpTo(subs: seq<Subsystem>, queue: seq<Name>, i: nat) {
    InTurn(subs, [], queue) && forall p :: 0 <= p < |queue| ==> Declared(subs, queue[p]) < i
  }

  lemma SeedOneMore(subs: seq<Subsystem>, queue: seq<Name>, i: nat)
    requires DistinctNames(subs) && i < |subs| && SeededUpTo(subs, queue, i)
    ensures SeededUpTo(subs, queue, i + 1) && SeededUpTo(subs, queue + [subs[i].name], i + 1)
  {
    DeclaredIs(subs, i);
    InTurnSnoc(subs, [], queue, subs[i].name);
  }

  method SeedQueue(subs: seq<Subsystem>, indegree: map<Name, nat>) returns (queue: seq<Name>)
    requires DistinctNames(subs) && indegree.Keys == NameSet(subs)
    ensures Frontier(indegree, [], queue) && InTurn(subs, [], queue)
  {
    queue := [];
    for i := 0 to |subs|
      invariant Distinct(queue)
      invariant SeededUpTo(subs, queue, i)
      invariant forall n :: n in queue <==> n in (set j | 0 <= j < i :: subs[j].name) && indegree[n] == 0
    {
      SeedOneMore(subs, queue, i);
      if indegree[subs[i].name] == 0 {
        queue := queue + [subs[i].name];
      }
    }
    assert [] + queue == queue;
  }

  /** Kahn's algorithm. It succeeds exactly on acyclic graphs, with the boot order in
      which every name comes as early as its dependencies and its turn allow;
      otherwise it reports, in declaration order, exactly the subsystems from
      which a cycle can be reached, each of which waits for a reported one. */
  method TopoSort(subs: seq<Subsystem>) returns (r: Result<seq<Name>, seq<Name>>)
    requires DistinctNames(subs) && Resolved(subs)
    ensures r.Ok? <==> Acyclic(subs)
    ensures r.Ok? ==> IsBootOrder(subs, r.value) && |r.value| == |subs|
    ensures r.Ok? ==> InTurn(subs, r.value, r.value)
    ensures r.Err? ==> r.error == NamesIn(subs, CyclicNames(subs)) && r.error != []
    ensures r.Err? ==> Stuck(subs, CyclicNames(subs))
  {
    var indegree, dependents := BuildEdges(subs);
    EdgesGiveDegrees(subs, indegree, dependents);
    var queue := SeedQueue(subs, indegree);
    var sorted: seq<Name> := [];
    assert [] + queue == queue;
    while queue != []
      invariant Degrees(subs, indegree, sorted, []) && Frontier(indegree, sorted, queue)
      invariant DependenciesFirst(subs, sorted) && InTurn(subs, sorted, sorted + queue)
      decreases |subs| - |sorted|
    {
      var name := queue[0];
      PopKeepsFrontier(indegree, sorted, queue);
      TakeTurn(subs, indegree, dependents, sorted, queue);
      queue := queue[1..];
      TakeOne(subs, indegree, dependents, sorted, name);
      sorted := sorted + [name];
      FrontierFits(subs, indegree, sorted, queue);
      indegree, queue := Release(subs, dependents[name], indegree, queue, sorted);
    }
    EmptyQueue(indegree, sorted);
    assert sorted + [] == sorted;
    RemainderIsCyclic(subs, indegree, sorted);
    CyclesNeedCyclicNames(subs);
    if |sorted| != |subs| {
      var stuck := ListStuck(subs, indegree);
      SomeStuckListed(subs, Positive(indegree));
      return Err(stuck);
    }
    EmptyRemainderIsBootOrder(subs, indegree, sorted);
    return Ok(sorted);
  }

  /** The declarations determine the boot order: no other one is in turn. */
  lemma BootOrderIsDetermined(subs: seq<Subsystem>, a: seq<Name>, b: seq<Name>)
    requires IsBootOrder(subs, a) && InTurn(subs, a, a) && IsBootOrder(subs, b) && InTurn(subs, b, b)
    ensures a == b
  {
    DistinctCardinality(a);
    DistinctCardinality(b);
    assert (set n | n in a) == NameSet(subs) == (set n | n in b);
    TurnsAgree(subs, a, b, |a|);
    assert a[..|a|] == a && b[..|b|] == b;
  }

  lemma PopKeepsFrontier(indegree: map<Name, nat>, sorted: seq<Name>, queue: seq<Name>)
    requires Frontier(indegree, sorted, queue) && queue != []
    ensures Frontier(indegree, sorted + [queue[0]], queue[1..])
    ensures queue[0] in indegree && indegree[queue[0]] == 0 && queue[0] !in sorted
  {
    assert (sorted + [queue[0]]) + queue[1..] == sorted + queue;
    assert (sorted + queue)[|sorted|] == queue[0];
    assert queue[0] in sorted + queue;
    forall i | 0 <= i < |sorted| ensures sorted[i] != queue[0] {
      assert (sorted + queue)[i] == sorted[i];
    }
  }

  lemma SomeStuckListed(subs: seq<Subsystem>, stuck: set<Name>)
    requires stuck != {} && stuck <= NameSet(subs)
    ensures NamesIn(subs, stuck) != []
  {
    NamesInMembers(subs, stuck);
    var n :| n in stuck;
    assert n in NamesIn(subs, stuck);
  }

  lemma FrontierFits(subs: seq<Subsystem>, indegree: map<Name, nat>, sorted: seq<Name>, queue: seq<Name>)
    requires DistinctNames(subs) && indegree.Keys == NameSet(subs) && Frontier(indegree, sorted, queue)
    ensures |sorted| <= |subs|
  {
    NameCount(subs);
    DistinctFits(sorted + queue, NameSet(subs));
  }

  // ----------------------------------------------------------------- reordering

  ghost predicate Indexed(subs: seq<Subsystem>, indexed: map<Name, Subsystem>, keep: set<Name>) {
    && indexed.Keys == keep
    && forall n :: n in indexed ==> indexed[n].name == n && indexed[n] in subs
  }

  lemma IndexGrows(subs: seq<Subsystem>, indexed: map<Name, Subsystem>, n: nat)
    requires n < |subs| && Indexed(subs, indexed, NameSet(subs[n + 1..]))
    ensures Indexed(subs, indexed[subs[n].name := subs[n]], NameSet(subs[n..]))
  {
    var all, tail := subs[n..], subs[n + 1..];
    assert all == [subs[n]] + tail;
    assert NameSet(all) == NameSet(tail) + {subs[n].name} by {
      forall i | 0 <= i < |tail| ensures tail[i].name in NameSet(all) {
        assert all[i + 1] == tail[i];
      }
      assert all[0] == subs[n];
    }
  }

  /** Empties the vector from the back into a map. */
  method IndexByName(subs: seq<Subsystem>) returns (indexed: map<Name, Subsystem>)
    ensures Indexed(subs, indexed, NameSet(subs))
  {
    indexed := map[];
    var rest := subs;
    assert subs[|subs|..] == [];
    while rest != []
      invariant rest == subs[..|rest|] && Indexed(subs, indexed, NameSet(subs[|rest|..]))
      decreases |rest|
    {
      var s := rest[|rest| - 1];
      rest := rest[..|rest| - 1];
      IndexGrows(subs, indexed, |rest|);
      indexed := indexed[s.name := s];
    }
    assert subs[0..] == subs;
  }

  /** The names not yet taken out after `i` steps. */
  ghost function Untaken(subs: seq<Subsystem>, order: seq<Name>, i: nat): set<Name>
    requires i <= |order|
  {
    set n | n in NameSet(subs) && n !in order[..i]
  }

  lemma TakeOut(subs: seq<Subsystem>, indexed: map<Name, Subsystem>, order: seq<Name>, i: nat)
    requires Distinct(order) && (forall n :: n in order <==> n in NameSet(subs)) && i < |order|
    requires Indexed(subs, indexed, Untaken(subs, order, i))
    ensures order[i] in indexed && indexed[order[i]].name == order[i] && indexed[order[i]] in subs
    ensures Indexed(subs, indexed - {order[i]}, Untaken(subs, order, i + 1))
  {
    assert order[i] in order && order[i] !in order[..i];
    assert order[..i + 1] == order[..i] + [order[i]];
  }

  /** The subsystems, taken out of the index by name. */
  method Reorder(subs: seq<Subsystem>, order: seq<Name>) returns (ordered: seq<Subsystem>)
    requires DistinctNames(subs) && Distinct(order) && forall n :: n in order <==> n in NameSet(subs)
    ensures Names(ordered) == order && |ordered| == |subs|
    ensures forall s :: s in ordered <==> s in subs
  {
    var indexed := IndexByName(subs);
    assert Untaken(subs, order, 0) == NameSet(subs);
    ordered := [];
    for i := 0 to |order|
      invariant Names(ordered) == order[..i] && forall s :: s in ordered ==> s in subs
      invariant Indexed(subs, indexed, Untaken(subs, order, i))
    {
      TakeOut(subs, indexed, order, i);
      if order[i] in indexed {
        NamesSnoc(ordered, indexed[order[i]]);
        assert order[..i + 1] == order[..i] + [order[i]];
        ordered := ordered + [indexed[order[i]]];
        indexed := indexed - {order[i]};
      }
    }
    OrderedIsComplete(subs, order, ordered);
  }

  lemma NamesSnoc(ordered: seq<Subsystem>, s: Subsystem)
    ensures Names(ordered + [s]) == Names(ordered) + [s.name]
  {
  }

  lemma OrderedIsComplete(subs: seq<Subsystem>, order: seq<Name>, ordered: seq<Subsystem>)
    requires DistinctNames(subs) && Distinct(order) && forall n :: n in order <==> n in NameSet(subs)
    requires Names(ordered) == order[..|order|] && forall s :: s in ordered ==> s in subs
    ensures Names(ordered) == order && |ordered| == |subs|
    ensures forall s :: s in ordered <==> s in subs
  {
    assert order[..|order|] == order;
    NameCount(subs);
    DistinctCardinality(order);
    assert (set n | n in order) == NameSet(subs);
    SameNamesSameSubsystems(subs, ordered);
  }

  lemma SameNamesSameSubsystems(subs: seq<Subsystem>, ordered: seq<Subsystem>)
    requires DistinctNames(subs) && forall s :: s in ordered ==> s in subs
    requires forall n :: n in Names(ordered) <==> n in NameSet(subs)
    ensures forall s :: s in ordered <==> s in subs
  {
    forall s | s in subs ensures s in ordered {
      var i :| 0 <= i < |subs| && subs[i] == s;
      assert s.name in NameSet(subs);
      var k :| 0 <= k < |ordered| && Names(ordered)[k] == s.name;
      assert ordered[k] in subs;
      var j :| 0 <= j < |subs| && subs[j] == ordered[k];
    }
  }

  // ------------------------------------------------------------------ building

  const BUILTINS := [
    Subsystem("lifecycle", []),
    Subsystem("events", ["lifecycle"]),
    Subsystem("errors", ["events"]),
    Subsystem("health", ["events"]),
    Subsystem("metrics", ["lifecycle"]),
    Subsystem("workers", ["metrics", "events", "errors"]),
    Subsystem("shutdown", ["lifecycle", "events"])]

  datatype BuildError =
    | EmptyName
    | ReservedName(name: Name)
    | DuplicateSubsystem(name: Name)
    | MissingDependency(subsystem: Name, dependency: Name)
    | DependencyCycle(cycle: seq<Name>)

  ghost predicate UsesReserved(subs: seq<Subsystem>) {
    exists i :: 0 <= i < |subs| && subs[i].name in NameSet(BUILTINS)
  }

  /** The first registered subsystem with a reserved name is `subs[i]`. */
  ghost predicate FirstReserved(subs: seq<Subsystem>, i: int) {
    && 0 <= i < |subs| && subs[i].name in NameSet(BUILTINS)
    && forall j :: 0 <= j < i ==> subs[j].name !in NameSet(BUILTINS)
  }

  /** The first subsystem whose name an earlier one has is `subs[i]`. */
  ghost predicate FirstRepeated(subs: seq<Subsystem>, i: int) {
    && 0 <= i < |subs| && (exists j :: 0 <= j < i && subs[j].name == subs[i].name)
    && forall j, k :: 0 <= j < k < i ==> subs[j].name != subs[k].name
  }

  /** The first dependency that no subsystem has is slot `k` of `subs[i]`. */
  ghost predicate FirstMissing(subs: seq<Subsystem>, i: int, k: int) {
    && 0 <= i < |subs| && 0 <= k < |subs[i].deps| && !HasName(subs, subs[i].deps[k])
    && (forall j, m :: 0 <= j < i && 0 <= m < |subs[j].deps| ==> HasName(subs, subs[j].deps[m]))
    && forall m :: 0 <= m < k ==> HasName(subs, subs[i].deps[m])
  }

  method FindReserved(subs: seq<Subsystem>) returns (found: Option<Name>)
    ensures found.None? <==> !UsesReserved(subs)
    ensures found.Some? ==> exists i :: FirstReserved(subs, i) && subs[i].name == found.value
  {
    var builtins := set i | 0 <= i < |BUILTINS| :: BUILTINS[i].name;
    assert builtins == NameSet(BUILTINS);
    for i := 0 to |subs|
      invariant forall j :: 0 <= j < i ==> subs[j].name !in builtins
    {
      if subs[i].name in builtins {
        assert FirstReserved(subs, i);
        return Some(subs[i].name);
      }
    }
    return None;
  }

  method FindDuplicate(subs: seq<Subsystem>) returns (found: Option<Name>, seen: set<Name>)
    ensures found.None? <==> DistinctNames(subs)
    ensures found.None? ==> seen == NameSet(subs)
    ensures found.Some? ==> exists i :: FirstRepeated(subs, i) && subs[i].name == found.value
  {
    seen := {};
    for i := 0 to |subs|
      invariant seen == set j | 0 <= j < i :: subs[j].name
      invariant forall j, k :: 0 <= j < k < i ==> subs[j].name != subs[k].name
    {
      if subs[i].name in seen {
        assert FirstRepeated(subs, i);
        return Some(subs[i].name), seen;
      }
      seen := seen + {subs[i].name};
    }
    return None, seen;
  }

  method FindMissing(subs: seq<Subsystem>, seen: set<Name>) returns (found: Option<(Name, Name)>)
    requires seen == NameSet(subs)
    ensures found.None? <==> Resolved(subs)
    ensures found.Some? ==>
      exists i, k :: FirstMissing(subs, i, k) && found.value == (subs[i].name, subs[i].deps[k])
  {
    for i := 0 to |subs|
      invariant forall j, k :: 0 <= j < i && 0 <= k < |subs[j].deps| ==> HasName(subs, subs[j].deps[k])
    {
      for k := 0 to |subs[i].deps|
        invariant forall m :: 0 <= m < k ==> HasName(subs, subs[i].deps[m])
      {
        if subs[i].deps[k] !in seen {
          assert FirstMissing(subs, i, k);
          return Some((subs[i].name, subs[i].deps[k]));
        }
      }
    }
    return None;
  }

  /** Validation and ordering of a whole kernel: it succeeds exactly on a named,
      reserved-free, duplicate-free, resolved and acyclic configuration, and then
      lists every built-in and registered subsystem after its dependencies. */
  method Build(name: Name, registered: seq<Subsystem>) returns (r: Result<seq<Subsystem>, BuildError>)
    ensures var all := BUILTINS + registered;
      r.Ok? <==> name != [] && !UsesReserved(registered) && DistinctNames(all) && Resolved(all) && Acyclic(all)
    ensures r.Ok? ==>
      && IsBootOrder(BUILTINS + registered, Names(r.value)) && |r.value| == |BUILTINS + registered|
      && InTurn(BUILTINS + registered, Names(r.value), Names(r.value))
      && forall s :: s in r.value <==> s in BUILTINS + registered
    ensures r == Err(EmptyName) <==> name == []
    ensures r.Err? && r.error.ReservedName? <==> name != [] && UsesReserved(registered)
    ensures r.Err? && r.error.ReservedName? ==>
      exists i :: FirstReserved(registered, i) && registered[i].name == r.error.name
    ensures r.Err? && r.error.DuplicateSubsystem? <==>
      name != [] && !UsesReserved(registered) && !DistinctNames(BUILTINS + registered)
    ensures r.Err? && r.error.DuplicateSubsystem? ==>
      exists i :: FirstRepeated(BUILTINS + registered, i) && (BUILTINS + registered)[i].name == r.error.name
    ensures var all := BUILTINS + registered;
      r.Err? && r.error.MissingDependency? <==>
      name != [] && !UsesReserved(registered) && DistinctNames(all) && !Resolved(all)
    ensures var all := BUILTINS + registered;
      r.Err? && r.error.MissingDependency? ==>
      exists i, k :: FirstMissing(all, i, k) && r.error == MissingDependency(all[i].name, all[i].deps[k])
    ensures r.Err? && r.error.DependencyCycle? ==>
      r.error.cycle == NamesIn(BUILTINS + registered, CyclicNames(BUILTINS + registered)) && r.error.cycle != []
  {
    if name == [] {
      return Err(EmptyName);
    }
    var reserved := FindReserved(registered);
    if reserved.Some? {
      return Err(ReservedName(reserved.value));
    }
    var combined := BUILTINS + registered;
    var duplicate, seen := FindDuplicate(combined);
    if duplicate.Some? {
      return Err(DuplicateSubsystem(duplicate.value));
    }
    var missing := FindMissing(combined, seen);
    if missing.Some? {
      return Err(MissingDependency(missing.value.0, missing.value.1));
    }
    var sorted := TopoSort(combined);
    if sorted.Err? {
      return Err(DependencyCycle(sorted.error));
    }
    var ordered := Reorder(combined, sorted.value);
    return Ok(ordered);
  }
}
