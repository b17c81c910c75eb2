/** The calls a kernel makes on its subsystems: what a trace of boots, loads and
    shutdowns looks like and why its order respects dependencies. */
module KernelCalls {
  import opened Prelude
  import opened Dependencies

  datatype Call = BootCall(name: Name) | LoadCall(name: Name) | ShutdownCall(name: Name)

  function Boots(names: seq<Name>): seq<Call> {
    seq(|names|, i requires 0 <= i < |names| => BootCall(names[i]))
  }

  function Loads(names: seq<Name>): seq<Call> {
    seq(|names|, i requires 0 <= i < |names| => LoadCall(names[i]))
  }

  /** Shutdown calls in reverse. */
  function Downs(names: seq<Name>): seq<Call> {
    seq(|names|, i requires 0 <= i < |names| => ShutdownCall(names[|names| - 1 - i]))
  }

  /** The first `b` names booted, the first `l` loaded, then the names from
      `lo` up to `hi` shut down from the last to the first. */
  function Trace(order: seq<Name>, b: nat, l: nat, lo: nat, hi: nat): seq<Call>
    requires b <= |order| && l <= |order| && lo <= hi <= |order|
  {
    Boots(order[..b]) + Loads(order[..l]) + Downs(order[lo..hi])
  }

  // ------------------------------------------------------------ growing a trace

  lemma BootGrows(order: seq<Name>, b: nat)
    requires b < |order|
    ensures Boots(order[..b + 1]) == Boots(order[..b]) + [BootCall(order[b])]
    ensures Trace(order, b + 1, 0, 0, 0) == Trace(order, b, 0, 0, 0) + [BootCall(order[b])]
  {
  }

  lemma LoadGrows(order: seq<Name>, b: nat, l: nat)
    requires b <= |order| && l < |order|
    ensures Loads(order[..l + 1]) == Loads(order[..l]) + [LoadCall(order[l])]
    ensures Trace(order, b, l + 1, 0, 0) == Trace(order, b, l, 0, 0) + [LoadCall(order[l])]
  {
  }

  lemma DownGrows(order: seq<Name>, b: nat, l: nat, lo: nat, hi: nat)
    requires b <= |order| && l <= |order| && 0 < lo <= hi <= |order|
    ensures Downs(order[lo - 1..hi]) == Downs(order[lo..hi]) + [ShutdownCall(order[lo - 1])]
    ensures Trace(order, b, l, lo - 1, hi) == Trace(order, b, l, lo, hi) + [ShutdownCall(order[lo - 1])]
  {
    assert order[lo - 1..hi] == [order[lo - 1]] + order[lo..hi];
  }

  lemma NoDownsYet(order: seq<Name>, b: nat, l: nat, hi: nat)
    requires b <= |order| && l <= |order| && hi <= |order|
    ensures Trace(order, b, l, hi, hi) == Trace(order, b, l, 0, 0)
  {
  }

  lemma DownsFromEnd(order: seq<Name>, i: nat, hi: nat)
    requires i < hi <= |order|
    ensures Downs(order[i..hi]) == Downs(order[i + 1..hi]) + [ShutdownCall(order[i])]
  {
    assert order[i..hi] == [order[i]] + order[i + 1..hi];
  }

  lemma TraceParts(order: seq<Name>, b: nat, l: nat, d: nat)
    requires b <= |order| && l <= |order| && d <= |order|
    ensures Trace(order, b, 0, 0, 0) == Boots(order[..b])
    ensures Trace(order, b, l, 0, 0) == Boots(order[..b]) + Loads(order[..l])
    ensures Trace(order, b, l, 0, d) == Boots(order[..b]) + Loads(order[..l]) + Downs(order[0..d])
  {
  }

  // ------------------------------------------------------ what a trace promises

  /** No call is made twice. */
  lemma TraceCallsOnce(order: seq<Name>, b: nat, l: nat, lo: nat, hi: nat)
    requires Distinct(order) && b <= |order| && l <= |order| && lo <= hi <= |order|
    ensures Distinct(Trace(order, b, l, lo, hi))
  {
    var t := Trace(order, b, l, lo, hi);
    forall i, j | 0 <= i < j < |t| ensures t[i] != t[j] {
    }
  }

  /** Call `first` does not come after call `second`. */
  ghost predicate Precedes(t: seq<Call>, first: Call, second: Call) {
    forall i, j :: 0 <= i < |t| && 0 <= j < |t| && t[i] == first && t[j] == second ==> i < j
  }

  /** Each call at most once; around the dependency of `x` on `y`, `y` boots and loads
      first and shuts down last, and `x` is not booted or loaded without it. */
  ghost predicate RespectsDependency(t: seq<Call>, x: Name, y: Name) {
    && Distinct(t)
    && Precedes(t, BootCall(y), BootCall(x))
    && Precedes(t, LoadCall(y), LoadCall(x))
    && Precedes(t, ShutdownCall(x), ShutdownCall(y))
    && (BootCall(x) in t ==> BootCall(y) in t)
    && (LoadCall(x) in t ==> LoadCall(y) in t)
  }

  /** What stands at each position of a trace. */
  lemma TraceAt(order: seq<Name>, b: nat, l: nat, lo: nat, hi: nat, k: nat)
    requires b <= |order| && l <= |order| && lo <= hi <= |order|
    requires k < |Trace(order, b, l, lo, hi)|
    ensures |Trace(order, b, l, lo, hi)| == b + l + hi - lo
    ensures Trace(order, b, l, lo, hi)[k]
         == if k < b then BootCall(order[k]) else if k < b + l then LoadCall(order[k - b])
            else ShutdownCall(order[hi - 1 - (k - b - l)])
  {
  }

  lemma OnlyTheseInTrace(order: seq<Name>, b: nat, l: nat, lo: nat, hi: nat, i: nat, c: Call)
    requires Distinct(order) && b <= |order| && l <= |order| && lo <= hi <= |order| && i < |order|
    requires c in Trace(order, b, l, lo, hi) && c.name == order[i]
    ensures match c
            case BootCall(_) => i < b
            case LoadCall(_) => i < l
            case ShutdownCall(_) => lo <= i < hi
  {
    var t := Trace(order, b, l, lo, hi);
    var k :| 0 <= k < |t| && t[k] == c;
    TraceAt(order, b, l, lo, hi, k);
  }

  lemma TheseInTrace(order: seq<Name>, b: nat, l: nat, lo: nat, hi: nat, i: nat)
    requires b <= |order| && l <= |order| && lo <= hi <= |order| && i < |order|
    ensures i < b ==> BootCall(order[i]) in Trace(order, b, l, lo, hi)
    ensures i < l ==> LoadCall(order[i]) in Trace(order, b, l, lo, hi)
    ensures lo <= i < hi ==> ShutdownCall(order[i]) in Trace(order, b, l, lo, hi)
  {
    if i < b {
      TraceAt(order, b, l, lo, hi, i);
    }
    if i < l {
      TraceAt(order, b, l, lo, hi, b + i);
    }
    if lo <= i < hi {
      TraceAt(order, b, l, lo, hi, b + l + hi - 1 - i);
    }
  }

  /** Which calls a trace holds. */
  lemma TraceMembers(order: seq<Name>, b: nat, l: nat, lo: nat, hi: nat, i: nat)
    requires Distinct(order) && b <= |order| && l <= |order| && lo <= hi <= |order| && i < |order|
    ensures BootCall(order[i]) in Trace(order, b, l, lo, hi) <==> i < b
    ensures LoadCall(order[i]) in Trace(order, b, l, lo, hi) <==> i < l
    ensures ShutdownCall(order[i]) in Trace(order, b, l, lo, hi) <==> lo <= i < hi
  {
    TheseInTrace(order, b, l, lo, hi, i);
    forall c | c in Trace(order, b, l, lo, hi) && c.name == order[i]
      ensures match c
              case BootCall(_) => i < b
              case LoadCall(_) => i < l
              case ShutdownCall(_) => lo <= i < hi
    {
      OnlyTheseInTrace(order, b, l, lo, hi, i, c);
    }
  }

  /** Calls on the names of `order` only, none twice: first boots, then loads, both
      in order, then shutdowns in reverse. */
  ghost predicate InPhases(order: seq<Name>, t: seq<Call>) {
    && Distinct(t)
    && (forall c :: c in t ==> c.name in order)
    && (forall i, j :: 0 <= i < j < |order| ==> ListedInPhases(t, order[i], order[j]))
    && forall x, y :: x in order && y in order ==> PhasesInTurn(t, x, y)
  }

  ghost predicate ListedInPhases(t: seq<Call>, x: Name, y: Name) {
    && Precedes(t, BootCall(x), BootCall(y)) && Precedes(t, LoadCall(x), LoadCall(y))
    && Precedes(t, ShutdownCall(y), ShutdownCall(x))
  }

  ghost predicate PhasesInTurn(t: seq<Call>, x: Name, y: Name) {
    && Precedes(t, BootCall(x), LoadCall(y)) && Precedes(t, BootCall(x), ShutdownCall(y))
    && Precedes(t, LoadCall(x), ShutdownCall(y))
  }

  lemma TraceIsInPhases(order: seq<Name>, b: nat, l: nat, lo: nat, hi: nat)
    requires Distinct(order) && b <= |order| && l <= |order| && lo <= hi <= |order|
    ensures InPhases(order, Trace(order, b, l, lo, hi))
  {
    var t := Trace(order, b, l, lo, hi);
    TraceCallsOnce(order, b, l, lo, hi);
    forall k | 0 <= k < |t| ensures t[k].name in order {
      TraceAt(order, b, l, lo, hi, k);
    }
    forall i, j | 0 <= i < j < |order| ensures ListedInPhases(t, order[i], order[j]) {
      PositionsRespect(order, b, l, lo, hi, order[j], order[i], j, i);
    }
    forall x, y | x in order && y in order ensures PhasesInTurn(t, x, y) {
      KindsInTurn(order, b, l, lo, hi, x, y);
    }
  }

  lemma KindsInTurn(order: seq<Name>, b: nat, l: nat, lo: nat, hi: nat, x: Name, y: Name)
    requires b <= |order| && l <= |order| && lo <= hi <= |order|
    ensures PhasesInTurn(Trace(order, b, l, lo, hi), x, y)
  {
    var t := Trace(order, b, l, lo, hi);
    forall k, m | 0 <= k < |t| && 0 <= m < |t|
      ensures t[k].BootCall? && !t[m].BootCall? ==> k < m
      ensures t[k].LoadCall? && t[m].ShutdownCall? ==> k < m
    {
      TraceAt(order, b, l, lo, hi, k);
      TraceAt(order, b, l, lo, hi, m);
    }
  }

  lemma PositionsRespect(order: seq<Name>, b: nat, l: nat, lo: nat, hi: nat, x: Name, y: Name, i: nat, j: nat)
    requires Distinct(order) && b <= |order| && l <= |order| && lo <= hi <= |order|
    requires j < i < |order| && order[i] == x && order[j] == y
    ensures Precedes(Trace(order, b, l, lo, hi), BootCall(y), BootCall(x))
    ensures Precedes(Trace(order, b, l, lo, hi), LoadCall(y), LoadCall(x))
    ensures Precedes(Trace(order, b, l, lo, hi), ShutdownCall(x), ShutdownCall(y))
  {
    var t := Trace(order, b, l, lo, hi);
    forall k, m | 0 <= k < |t| && 0 <= m < |t|
      ensures t[k] == BootCall(y) && t[m] == BootCall(x) ==> k < m
      ensures t[k] == LoadCall(y) && t[m] == LoadCall(x) ==> k < m
      ensures t[k] == ShutdownCall(x) && t[m] == ShutdownCall(y) ==> k < m
    {
      TraceAt(order, b, l, lo, hi, k);
      TraceAt(order, b, l, lo, hi, m);
    }
  }

  lemma EarlierIncluded(order: seq<Name>, b: nat, l: nat, lo: nat, hi: nat, i: nat, j: nat)
    requires Distinct(order) && b <= |order| && l <= |order| && lo <= hi <= |order| && j < i < |order|
    ensures var t := Trace(order, b, l, lo, hi);
      && (BootCall(order[i]) in t ==> BootCall(order[j]) in t)
      && (LoadCall(order[i]) in t ==> LoadCall(order[j]) in t)
  {
    var t := Trace(order, b, l, lo, hi);
    forall k | 0 <= k < |t| && t[k] == BootCall(order[i]) ensures BootCall(order[j]) in t {
      TraceAt(order, b, l, lo, hi, k);
      TraceAt(order, b, l, lo, hi, j);
      assert t[j] in t;
    }
    forall k | 0 <= k < |t| && t[k] == LoadCall(order[i]) ensures LoadCall(order[j]) in t {
      TraceAt(order, b, l, lo, hi, k);
      TraceAt(order, b, l, lo, hi, b + j);
      assert t[b + j] in t;
    }
  }

  lemma DependencyIsEarlier(subs: seq<Subsystem>, order: seq<Name>, x: Name, y: Name) returns (i: nat, j: nat)
    requires DependenciesFirst(subs, order) && DependsOn(subs, x, y) && x in order
    ensures j < i < |order| && order[i] == x && order[j] == y
  {
    i :| 0 <= i < |order| && order[i] == x;
    assert y in order[..i];
    j :| 0 <= j < |order[..i]| && order[..i][j] == y;
  }

  /** Around a dependency of `x` on `y`: `y` boots and loads first and shuts down
      last, and `x` is never booted or loaded without `y`. */
  lemma TraceRespectsDependencies(subs: seq<Subsystem>, order: seq<Name>, b: nat, l: nat, lo: nat, hi: nat,
                                  x: Name, y: Name)
    requires Distinct(order) && DependenciesFirst(subs, order) && DependsOn(subs, x, y) && x in order
    requires b <= |order| && l <= |order| && lo <= hi <= |order|
    ensures var t := Trace(order, b, l, lo, hi);
      && Precedes(t, BootCall(y), BootCall(x))
      && Precedes(t, LoadCall(y), LoadCall(x))
      && Precedes(t, ShutdownCall(x), ShutdownCall(y))
      && (BootCall(x) in t ==> BootCall(y) in t)
      && (LoadCall(x) in t ==> LoadCall(y) in t)
  {
    var i, j := DependencyIsEarlier(subs, order, x, y);
    PositionsRespect(order, b, l, lo, hi, x, y, i, j);
    EarlierIncluded(order, b, l, lo, hi, i, j);
  }
}
