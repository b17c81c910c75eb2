/** The per-worker circuit breaker: its state machine as functions on a value,
    and the class whose methods update the four fields in place.
    Clock readings are arguments; no order between them is assumed, because
    the code measures every gap with a saturating difference. */
module Circuit {
  import opened Prelude

  datatype CircuitState = Closed | Open | HalfOpen

  datatype CircuitPolicy = CircuitPolicy(failureThreshold: u32, failureWindow: nat, openDuration: nat)

  datatype Breaker = Breaker(
    state: CircuitState,
    failures: u32,
    lastFailureAt: Option<nat>,
    openedAt: Option<nat>)

  const NEW_BREAKER := Breaker(Closed, 0, None, None)

  function RecordFailure(p: CircuitPolicy, b: Breaker, now: nat): Breaker {
    match b.state
    case HalfOpen => b.(state := Open, openedAt := Some(now))
    case Open => b
    case Closed =>
      var inWindow := b.lastFailureAt.Some? && Elapsed(now, b.lastFailureAt.value) <= p.failureWindow;
      var count := WrapU32((if inWindow then b.failures else 0) + 1);
      var counted := b.(failures := count, lastFailureAt := Some(now));
      if count >= p.failureThreshold then counted.(state := Open, openedAt := Some(now)) else counted
  }

  function RecordSuccess(b: Breaker): Breaker { Breaker(Closed, 0, None, None) }

  function Tick(p: CircuitPolicy, b: Breaker, now: nat): Breaker {
    if b.state == Open && b.openedAt.Some? && Elapsed(now, b.openedAt.value) >= p.openDuration
    then b.(state := HalfOpen)
    else b
  }

  /** The number of consecutive failures that trips the breaker. */
  function TripCount(p: CircuitPolicy): u32 { Max(1, p.failureThreshold) }

  // ---------------------------------------------------------------- histories

  datatype Call = Failure(now: nat) | Success | Ticked(now: nat)

  function Apply(p: CircuitPolicy, b: Breaker, c: Call): Breaker {
    match c
    case Failure(now) => RecordFailure(p, b, now)
    case Success => RecordSuccess(b)
    case Ticked(now) => Tick(p, b, now)
  }

  /** The breaker after a whole history of calls on a new one. */
  function After(p: CircuitPolicy, calls: seq<Call>): Breaker {
    if calls == [] then NEW_BREAKER
    else Apply(p, After(p, calls[..|calls| - 1]), calls[|calls| - 1])
  }

  /** Clock readings of the failures recorded since the last success. */
  function FailureTimes(calls: seq<Call>): seq<nat> {
    if calls == [] then []
    else
      var before := FailureTimes(calls[..|calls| - 1]);
      match calls[|calls| - 1]
      case Failure(now) => before + [now]
      case Success => []
      case Ticked(_) => before
  }

  /** The last `k` failures form a chain: neighbours are within the window. */
  ghost predicate IsChain(ts: seq<nat>, k: int, window: nat) {
    0 <= k <= |ts| && forall i :: |ts| - k < i < |ts| ==> Elapsed(ts[i], ts[i - 1]) <= window
  }

  /** `k` is the length of the longest chain that ends the sequence. */
  ghost predicate IsLongestChain(ts: seq<nat>, k: int, window: nat) {
    IsChain(ts, k, window) && forall j :: IsChain(ts, j, window) ==> j <= k
  }

  /** The instant of the opening that the breaker has not recovered from. */
  ghost function LatestOpening(p: CircuitPolicy, calls: seq<Call>): Option<nat> {
    if calls == [] then None
    else
      var before := calls[..|calls| - 1];
      match calls[|calls| - 1]
      case Success => None
      case Failure(now) =>
        if After(p, before).state != Open && After(p, calls).state == Open
        then Some(now) else LatestOpening(p, before)
      case Ticked(_) => LatestOpening(p, before)
  }

  // ------------------------------------------------------------ chain lemmas

  lemma ChainExtends(ts: seq<nat>, now: nat, k: int, window: nat)
    requires IsLongestChain(ts, k, window)
    ensures ts != [] && Elapsed(now, ts[|ts| - 1]) <= window ==> IsLongestChain(ts + [now], k + 1, window)
    ensures ts == [] || Elapsed(now, ts[|ts| - 1]) > window ==> IsLongestChain(ts + [now], 1, window)
  {
    var next := ts + [now];
    forall j | IsChain(next, j, window) && j >= 2
      ensures ts != [] && Elapsed(now, ts[|ts| - 1]) <= window && IsChain(ts, j - 1, window)
    {
      assert Elapsed(next[|ts|], next[|ts| - 1]) <= window;
      forall i | |ts| - (j - 1) < i < |ts| ensures Elapsed(ts[i], ts[i - 1]) <= window {
        assert Elapsed(next[i], next[i - 1]) <= window;
      }
    }
    assert IsChain(next, 1, window);
  }

  lemma LongestChainIsUnique(ts: seq<nat>, j: int, k: int, window: nat)
    requires IsLongestChain(ts, j, window) && IsLongestChain(ts, k, window)
    ensures j == k
  {
  }

  // ------------------------------------------------------------ main theorems

  /** What every history keeps: the timestamp is missing exactly in Closed, the
      counter stays within the trip count, and while Closed it is the length
      of the longest chain of failures since the last success. */
  ghost predicate Consistent(p: CircuitPolicy, b: Breaker) {
    && (b.openedAt.None? <==> b.state == Closed)
    && b.failures <= TripCount(p)
    && (b.state == Closed ==> b.failures < TripCount(p))
  }

  lemma {:induction false} HistoryIsConsistent(p: CircuitPolicy, calls: seq<Call>)
    ensures Consistent(p, After(p, calls))
  {
    if calls != [] {
      HistoryIsConsistent(p, calls[..|calls| - 1]);
    }
  }

  /** The counter is the length of the longest chain that ends the failures, and
      the timestamp is that of the last one. */
  ghost predicate Counts(p: CircuitPolicy, b: Breaker, ts: seq<nat>) {
    && IsLongestChain(ts, b.failures, p.failureWindow)
    && b.lastFailureAt == if ts == [] then None else Some(ts[|ts| - 1])
  }

  lemma FailureIsCounted(p: CircuitPolicy, b: Breaker, ts: seq<nat>, now: nat)
    requires b.state == Closed && Consistent(p, b) && Counts(p, b, ts)
    ensures Counts(p, RecordFailure(p, b, now), ts + [now])
  {
    ChainExtends(ts, now, b.failures, p.failureWindow);
  }

  lemma {:induction false} ClosedCountsLongestChain(p: CircuitPolicy, calls: seq<Call>)
    ensures After(p, calls).state == Closed ==> Counts(p, After(p, calls), FailureTimes(calls))
  {
    if calls != [] {
      var before, last := calls[..|calls| - 1], calls[|calls| - 1];
      ClosedCountsLongestChain(p, before);
      HistoryIsConsistent(p, before);
      if last.Failure? && After(p, before).state == Closed {
        FailureIsCounted(p, After(p, before), FailureTimes(before), last.now);
      }
    }
  }

  /** A failure trips a Closed breaker exactly when the chain it ends reaches
      max(1, threshold). */
  lemma TripsExactlyAtThreshold(p: CircuitPolicy, calls: seq<Call>, now: nat, k: int)
    requires After(p, calls).state == Closed
    requires IsLongestChain(FailureTimes(calls) + [now], k, p.failureWindow)
    ensures After(p, calls + [Failure(now)]).state == Open <==> k >= TripCount(p)
    ensures After(p, calls + [Failure(now)]).state != HalfOpen
  {
    var next := calls + [Failure(now)];
    assert next[..|calls|] == calls;
    ClosedCountsLongestChain(p, calls);
    HistoryIsConsistent(p, calls);
    var ts := FailureTimes(calls);
    var b := After(p, calls);
    ChainExtends(ts, now, b.failures, p.failureWindow);
    var inWindow := ts != [] && Elapsed(now, ts[|ts| - 1]) <= p.failureWindow;
    LongestChainIsUnique(ts + [now], k, if inWindow then b.failures + 1 else 1, p.failureWindow);
  }

  /** Some prefix of the failures ends in a chain long enough to trip. */
  ghost predicate HasTripped(ts: seq<nat>, p: CircuitPolicy) {
    exists i :: 0 <= i <= |ts| && IsChain(ts[..i], TripCount(p), p.failureWindow)
  }

  /** The state read off the history alone: Closed exactly when no chain of
      max(1, threshold) failures has occurred since the last success. */
  lemma {:induction false} ClosedExactlyWhenNotTripped(p: CircuitPolicy, calls: seq<Call>)
    ensures After(p, calls).state == Closed <==> !HasTripped(FailureTimes(calls), p)
  {
    if calls == [] {
      assert forall i :: 0 <= i <= 0 ==> !IsChain([][..i], TripCount(p), p.failureWindow);
    } else {
      var before, last := calls[..|calls| - 1], calls[|calls| - 1];
      ClosedExactlyWhenNotTripped(p, before);
      if last.Success? {
        assert FailureTimes(calls) == [];
      } else if last.Failure? {
        var ts := FailureTimes(before);
        FailureExtendsTripped(ts, last.now, p);
        if After(p, before).state == Closed {
          ClosedCountsLongestChain(p, before);
          HistoryIsConsistent(p, before);
          ChainExtends(ts, last.now, After(p, before).failures, p.failureWindow);
          var inWindow := ts != [] && Elapsed(last.now, ts[|ts| - 1]) <= p.failureWindow;
          var k := if inWindow then After(p, before).failures + 1 else 1;
          assert calls == before + [Failure(last.now)];
          TripsExactlyAtThreshold(p, before, last.now, k);
          ShorterChain(ts + [last.now], k, TripCount(p), p.failureWindow);
        }
      }
    }
  }

  lemma ShorterChain(ts: seq<nat>, k: int, j: int, window: nat)
    requires IsLongestChain(ts, k, window) && 0 <= j
    ensures IsChain(ts, j, window) <==> j <= k
  {
  }

  lemma FailureExtendsTripped(ts: seq<nat>, now: nat, p: CircuitPolicy)
    ensures HasTripped(ts + [now], p)
        <==> HasTripped(ts, p) || IsChain(ts + [now], TripCount(p), p.failureWindow)
  {
    var next := ts + [now];
    assert next[..|next|] == next;
    assert forall i :: 0 <= i <= |ts| ==> next[..i] == ts[..i];
  }

  /** The stored timestamp is the opening the history has not recovered from,
      so a tick leaves Open exactly when the open duration has elapsed since. */
  lemma {:induction false} OpenedAtIsLatestOpening(p: CircuitPolicy, calls: seq<Call>)
    ensures After(p, calls).openedAt == LatestOpening(p, calls)
    ensures After(p, calls).state == Open ==> LatestOpening(p, calls).Some?
  {
    HistoryIsConsistent(p, calls);
    if calls != [] {
      OpenedAtIsLatestOpening(p, calls[..|calls| - 1]);
      HistoryIsConsistent(p, calls[..|calls| - 1]);
    }
  }

  lemma TickLeavesOpenExactlyWhenElapsed(p: CircuitPolicy, calls: seq<Call>, now: nat)
    requires After(p, calls).state == Open
    ensures LatestOpening(p, calls).Some?
    ensures After(p, calls + [Ticked(now)]).state
         == if Elapsed(now, LatestOpening(p, calls).value) >= p.openDuration then HalfOpen else Open
  {
    assert (calls + [Ticked(now)])[..|calls|] == calls;
    OpenedAtIsLatestOpening(p, calls);
  }

  /** A trial decides: a failure in HalfOpen opens the breaker again as of that
      instant, while one in Open is ignored; a success closes it from anywhere. */
  lemma TrialDecides(p: CircuitPolicy, calls: seq<Call>, now: nat)
    ensures After(p, calls).state == HalfOpen ==>
      && After(p, calls + [Failure(now)]).state == Open
      && LatestOpening(p, calls + [Failure(now)]) == Some(now)
    ensures After(p, calls).state == Open ==> After(p, calls + [Failure(now)]) == After(p, calls)
    ensures After(p, calls + [Success]) == After(p, [])
  {
    assert (calls + [Failure(now)])[..|calls|] == calls;
    assert (calls + [Success])[..|calls|] == calls;
  }

  /** The u32 counter never wraps: in Closed its successor is representable. */
  lemma CounterNeverWraps(p: CircuitPolicy, calls: seq<Call>)
    ensures After(p, calls).state == Closed ==>
      WrapU32(After(p, calls).failures + 1) == After(p, calls).failures + 1
  {
    HistoryIsConsistent(p, calls);
  }

  // ---------------------------------------------------------- refusing work

  /** Readings of the ticks since the latest opening. */
  ghost function TicksSinceOpening(p: CircuitPolicy, calls: seq<Call>): seq<nat> {
    if calls == [] then []
    else
      var before := calls[..|calls| - 1];
      match calls[|calls| - 1]
      case Success => []
      case Failure(now) =>
        if After(p, before).state != Open && After(p, calls).state == Open
        then [] else TicksSinceOpening(p, before)
      case Ticked(now) => TicksSinceOpening(p, before) + [now]
  }

  /** Work is refused exactly from an opening until a tick reads the open duration
      as elapsed, or a success. */
  lemma {:induction false} RefusesExactlyUntilElapsed(p: CircuitPolicy, calls: seq<Call>)
    ensures After(p, calls).state == Open <==>
      && LatestOpening(p, calls).Some?
      && NoneElapsed(TicksSinceOpening(p, calls), LatestOpening(p, calls).value, p.openDuration)
  {
    OpenedAtIsLatestOpening(p, calls);
    HistoryIsConsistent(p, calls);
    if calls != [] {
      var before, last := calls[..|calls| - 1], calls[|calls| - 1];
      RefusesExactlyUntilElapsed(p, before);
      OpenedAtIsLatestOpening(p, before);
      HistoryIsConsistent(p, before);
      if last.Ticked? {
        if LatestOpening(p, before).Some? {
          NoneElapsedSnoc(TicksSinceOpening(p, before), last.now, LatestOpening(p, before).value, p.openDuration);
        }
      }
    }
  }

  ghost predicate NoneElapsed(ticks: seq<nat>, since: nat, openDuration: nat) {
    forall i :: 0 <= i < |ticks| ==> Elapsed(ticks[i], since) < openDuration
  }

  lemma NoneElapsedSnoc(ticks: seq<nat>, now: nat, since: nat, openDuration: nat)
    ensures NoneElapsed(ticks + [now], since, openDuration)
        <==> NoneElapsed(ticks, since, openDuration) && Elapsed(now, since) < openDuration
  {
    var all := ticks + [now];
    assert all[|ticks|] == now;
    assert forall i :: 0 <= i < |ticks| ==> all[i] == ticks[i];
  }

  // ---------------------------------------------------------------- the class

  class CircuitBreaker {
    var state: CircuitState
    var failures: u32
    var lastFailureAt: Option<nat>
    var openedAt: Option<nat>
    const policy: CircuitPolicy
    ghost var calls: seq<Call>

    function Value(): Breaker
      reads this
    {
      Breaker(state, failures, lastFailureAt, openedAt)
    }

    /** The fields are those after the calls made so far. */
    ghost predicate Valid()
      reads this
    {
      Value() == After(policy, calls)
    }

    constructor (policy: CircuitPolicy)
      ensures Valid() && this.policy == policy && calls == []
    {
      this.policy := policy;
      state, failures, lastFailureAt, openedAt := Closed, 0, None, None;
      calls := [];
    }

    method RecordFailureAt(now: nat) returns (after: CircuitState)
      requires Valid()
      modifies this
      ensures Valid() && calls == old(calls) + [Failure(now)]
      ensures Value() == RecordFailure(policy, old(Value()), now)
      ensures after == state
    {
      calls := calls + [Failure(now)];
      assert calls[..|calls| - 1] == old(calls);
      match state {
        case HalfOpen =>
          state := Open;
          openedAt := Some(now);
          return Open;
        case Open =>
          return Open;
        case Closed =>
          var inWindow := lastFailureAt.Some? && Elapsed(now, lastFailureAt.value) <= policy.failureWindow;
          lastFailureAt := Some(now);
          if !inWindow {
            failures := 0;
          }
          failures := WrapU32(failures + 1);
          if failures >= policy.failureThreshold {
            state := Open;
            openedAt := Some(now);
            return Open;
          }
          return Closed;
      }
    }

    method RecordSuccessNow() returns (after: CircuitState)
      requires Valid()
      modifies this
      ensures Valid() && calls == old(calls) + [Success]
      ensures Value() == RecordSuccess(old(Value())) && after == state == Closed
    {
      calls := calls + [Success];
      failures := 0;
      state := Closed;
      openedAt := None;
      lastFailureAt := None;
      return Closed;
    }

    method TickAt(now: nat) returns (after: CircuitState)
      requires Valid()
      modifies this
      ensures Valid() && calls == old(calls) + [Ticked(now)]
      ensures Value() == Tick(policy, old(Value()), now)
      ensures after == state
    {
      calls := calls + [Ticked(now)];
      assert calls[..|calls| - 1] == old(calls);
      if state != Open {
        return state;
      }
      if openedAt.Some? && Elapsed(now, openedAt.value) >= policy.openDuration {
        state := HalfOpen;
        return HalfOpen;
      }
      return Open;
    }

    /** Refuses work exactly from an opening until a tick since has read the open
        duration as elapsed. */
    method Allow() returns (allowed: bool)
      requires Valid()
      ensures !allowed <==>
        && LatestOpening(policy, calls).Some?
        && NoneElapsed(TicksSinceOpening(policy, calls), LatestOpening(policy, calls).value, policy.openDuration)
    {
      RefusesExactlyUntilElapsed(policy, calls);
      allowed := state != Open;
    }
  }
}
