/** The one order that sorting with a first-in, first-out queue can produce: names go
    by how early the last of their dependencies is listed, then by declaration. */
module BuildOrder {
  import opened Prelude
  import opened Dependencies

  /** Where `n` is declared. */
  ghost function Declared(subs: seq<Subsystem>, n: Name): nat {
    if subs == [] || subs[0].name == n then 0 else 1 + Declared(subs[1..], n)
  }

  lemma {:induction false} DeclaredIs(subs: seq<Subsystem>, i: nat)
    requires DistinctNames(subs) && i < |subs|
    ensures Declared(subs, subs[i].name) == i
  {
    if i > 0 {
      DeclaredIs(subs[1..], i - 1);
    }
  }

  ghost predicate Met(deps: seq<Name>, order: seq<Name>) {
    forall d :: d in deps ==> d in order
  }

  /** How much of `order` it takes to list all of `deps`. */
  ghost function Needed(deps: seq<Name>, order: seq<Name>): (k: nat)
    ensures k <= |order|
  {
    if order != [] && Met(deps, order[..|order| - 1]) then Needed(deps, order[..|order| - 1]) else |order|
  }

  ghost function DepsOf(subs: seq<Subsystem>, n: Name): seq<Name> {
    if Declared(subs, n) < |subs| then subs[Declared(subs, n)].deps else []
  }

  /** `a` goes before `b`: its last dependency is listed earlier, or both become ready
      at once and it is declared earlier. */
  ghost predicate Before(subs: seq<Subsystem>, order: seq<Name>, a: Name, b: Name) {
    var x, y := Needed(DepsOf(subs, a), order), Needed(DepsOf(subs, b), order);
    x < y || (x == y && Declared(subs, a) < Declared(subs, b))
  }

  /** The names listed and waiting are in their turn. */
  ghost predicate InTurn(subs: seq<Subsystem>, order: seq<Name>, listed: seq<Name>) {
    forall p, q :: 0 <= p < q < |listed| ==> Before(subs, order, listed[p], listed[q])
  }

  lemma {:induction false} NeededIsLeast(deps: seq<Name>, order: seq<Name>)
    requires Met(deps, order)
    ensures Met(deps, order[..Needed(deps, order)])
    ensures forall k :: 0 <= k < Needed(deps, order) ==> !Met(deps, order[..k])
  {
    if order != [] && Met(deps, order[..|order| - 1]) {
      var before := order[..|order| - 1];
      NeededIsLeast(deps, before);
      assert forall k :: 0 <= k <= |before| ==> order[..k] == before[..k];
    } else {
      assert order[..|order|] == order;
      forall k | 0 <= k < |order| ensures !Met(deps, order[..k]) {
        assert forall d :: d in order[..k] ==> d in order[..|order| - 1];
      }
    }
  }

  lemma {:induction false} NeededOfPrefix(deps: seq<Name>, order: seq<Name>, k: nat)
    requires k <= |order| && Met(deps, order[..k])
    ensures Needed(deps, order) == Needed(deps, order[..k])
  {
    if k == |order| {
      assert order[..k] == order;
    } else {
      var before := order[..|order| - 1];
      assert before[..k] == order[..k];
      assert forall d :: d in order[..k] ==> d in before;
      NeededOfPrefix(deps, before, k);
    }
  }

  // ------------------------------------------------------------------ the queue

  /** What is listed so far goes before everything released from `children` on. */
  ghost predicate AheadOf(subs: seq<Subsystem>, sorted: seq<Name>, n: Name, children: seq<Name>) {
    || Needed(DepsOf(subs, n), sorted) < |sorted|
    || forall l :: 0 <= l < |children| ==> Declared(subs, n) <= Declared(subs, children[l])
  }

  ghost predicate AllAhead(subs: seq<Subsystem>, sorted: seq<Name>, listed: seq<Name>, children: seq<Name>) {
    forall n :: n in listed ==> AheadOf(subs, sorted, n, children)
  }

  ghost predicate AllReady(subs: seq<Subsystem>, sorted: seq<Name>, listed: seq<Name>) {
    forall n :: n in listed ==> HasName(subs, n) && Met(DepsOf(subs, n), sorted)
  }

  /** Listing one more name does not change whose turn it is among those ready, and
      they are ahead of everyone it releases. */
  lemma TakenInTurn(subs: seq<Subsystem>, sorted: seq<Name>, listed: seq<Name>, name: Name, children: seq<Name>)
    requires InTurn(subs, sorted, listed) && AllReady(subs, sorted, listed)
    ensures InTurn(subs, sorted + [name], listed) && AllAhead(subs, sorted + [name], listed, children)
  {
    assert (sorted + [name])[..|sorted|] == sorted;
    forall p, q | 0 <= p < q < |listed| ensures Before(subs, sorted + [name], listed[p], listed[q]) {
      assert Before(subs, sorted, listed[p], listed[q]);
      assert listed[p] in listed && listed[q] in listed;
    }
  }

  /** The names of one list of dependents, in the order they are declared. */
  ghost predicate InDeclarationOrder(subs: seq<Subsystem>, children: seq<Name>) {
    forall p, q :: 0 <= p < q < |children| ==> Declared(subs, children[p]) <= Declared(subs, children[q])
  }

  lemma NextChild(subs: seq<Subsystem>, sorted: seq<Name>, listed: seq<Name>, child: Name, rest: seq<Name>)
    requires AllAhead(subs, sorted, listed, [child] + rest) && InDeclarationOrder(subs, [child] + rest)
    ensures AllAhead(subs, sorted, listed, rest) && AheadOf(subs, sorted, child, rest)
    ensures InDeclarationOrder(subs, rest)
  {
    var all := [child] + rest;
    assert all[1..] == rest;
    forall p, q | 0 <= p < q < |rest| ensures Declared(subs, rest[p]) <= Declared(subs, rest[q]) {
      assert Declared(subs, all[p + 1]) <= Declared(subs, all[q + 1]);
    }
    forall l | 0 <= l < |rest| ensures Declared(subs, child) <= Declared(subs, rest[l]) {
      assert Declared(subs, all[0]) <= Declared(subs, all[l + 1]);
    }
    forall n | n in listed ensures AheadOf(subs, sorted, n, rest) {
      AheadOfRest(subs, sorted, n, all);
    }
  }

  lemma AheadOfRest(subs: seq<Subsystem>, sorted: seq<Name>, n: Name, children: seq<Name>)
    requires AheadOf(subs, sorted, n, children) && children != []
    ensures AheadOf(subs, sorted, n, children[1..])
  {
    assert forall l :: 0 <= l < |children| - 1 ==> children[1..][l] == children[l + 1];
  }

  /** A name that becomes ready with the last one listed goes to the end. */
  lemma ReleasedInTurn(subs: seq<Subsystem>, sorted: seq<Name>, listed: seq<Name>, child: Name, rest: seq<Name>)
    requires DistinctNames(subs) && HasName(subs, child) && forall n :: n in listed ==> HasName(subs, n)
    requires InTurn(subs, sorted, listed) && AllAhead(subs, sorted, listed, [child] + rest)
    requires child !in listed && Needed(DepsOf(subs, child), sorted) == |sorted|
    ensures InTurn(subs, sorted, listed + [child])
  {
    assert ([child] + rest)[0] == child;
    forall p | 0 <= p < |listed| ensures Before(subs, sorted, listed[p], child) {
      assert listed[p] in listed && AheadOf(subs, sorted, listed[p], [child] + rest);
      DeclaredApart(subs, listed[p], child);
    }
    InTurnSnoc(subs, sorted, listed, child);
  }

  lemma InTurnSnoc(subs: seq<Subsystem>, sorted: seq<Name>, listed: seq<Name>, n: Name)
    requires InTurn(subs, sorted, listed) && forall p :: 0 <= p < |listed| ==> Before(subs, sorted, listed[p], n)
    ensures InTurn(subs, sorted, listed + [n])
  {
    var next := listed + [n];
    forall p, q | 0 <= p < q < |next| ensures Before(subs, sorted, next[p], next[q]) {
      assert q < |listed| ==> next[q] == listed[q];
    }
  }

  lemma DeclaredApart(subs: seq<Subsystem>, a: Name, b: Name)
    requires DistinctNames(subs) && HasName(subs, a) && HasName(subs, b) && a != b
    ensures Declared(subs, a) != Declared(subs, b)
  {
    var i :| 0 <= i < |subs| && subs[i].name == a;
    var j :| 0 <= j < |subs| && subs[j].name == b;
    DeclaredIs(subs, i);
    DeclaredIs(subs, j);
  }

  // ----------------------------------------------------------------- uniqueness

  lemma {:induction false} DeclaredHasName(subs: seq<Subsystem>, n: Name)
    requires Declared(subs, n) < |subs|
    ensures subs[Declared(subs, n)].name == n
  {
    if subs[0].name != n {
      DeclaredHasName(subs[1..], n);
    }
  }

  /** In a boot order a name is ready where it stands. */
  lemma ReadyWhereListed(subs: seq<Subsystem>, order: seq<Name>, k: nat)
    requires DependenciesFirst(subs, order) && k < |order|
    ensures Met(DepsOf(subs, order[k]), order[..k])
  {
    if Declared(subs, order[k]) < |subs| {
      DeclaredHasName(subs, order[k]);
      forall d | d in DepsOf(subs, order[k]) ensures d in order[..k] {
        assert DependsOn(subs, order[k], d);
      }
    }
  }

  /** Two boot orders of the same names in which every name has its turn agree. */
  lemma {:induction false} TurnsAgree(subs: seq<Subsystem>, a: seq<Name>, b: seq<Name>, k: nat)
    requires Distinct(a) && Distinct(b) && |a| == |b| && forall n :: n in a <==> n in b
    requires DependenciesFirst(subs, a) && DependenciesFirst(subs, b)
    requires InTurn(subs, a, a) && InTurn(subs, b, b)
    requires k <= |a|
    ensures a[..k] == b[..k]
  {
    if k > 0 {
      var i := k - 1;
      TurnsAgree(subs, a, b, i);
      if a[i] != b[i] {
        TurnComesFirst(subs, a, b, i);
        TurnComesFirst(subs, b, a, i);
        ReadyWhereListed(subs, a, i);
        ReadyWhereListed(subs, b, i);
        SameTurn(subs, a, b, a[i], b[i], i);
        assert false;
      }
    }
  }

  /** Among names ready within a common prefix the turn is the same. */
  lemma SameTurn(subs: seq<Subsystem>, a: seq<Name>, b: seq<Name>, x: Name, y: Name, i: nat)
    requires i <= |a| && i <= |b| && a[..i] == b[..i]
    requires Met(DepsOf(subs, x), a[..i]) && Met(DepsOf(subs, y), a[..i])
    ensures Before(subs, a, y, x) <==> Before(subs, b, y, x)
    ensures !Before(subs, a, x, y) || !Before(subs, a, y, x)
  {
    NeededOfPrefix(DepsOf(subs, x), a, i);
    NeededOfPrefix(DepsOf(subs, x), b, i);
    NeededOfPrefix(DepsOf(subs, y), a, i);
    NeededOfPrefix(DepsOf(subs, y), b, i);
  }

  /** If `a` and `b` agree before `i` and differ there, `a[i]` goes before `b[i]`
      in `a`. */
  lemma TurnComesFirst(subs: seq<Subsystem>, a: seq<Name>, b: seq<Name>, i: nat)
    requires Distinct(b) && i < |a| == |b| && a[..i] == b[..i] && a[i] != b[i] && b[i] in a
    requires InTurn(subs, a, a)
    ensures Before(subs, a, a[i], b[i])
  {
    var p :| 0 <= p < |a| && a[p] == b[i];
    assert a[p] !in b[..i];
  }
}
