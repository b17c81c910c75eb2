/** The breaker's chains of failures against the sliding window its documentation
    speaks of. */
module CircuitWindows {
  import opened Prelude
  import opened Circuit

  ghost predicate Nondecreasing(ts: seq<nat>) {
    forall i, j :: 0 <= i <= j < |ts| ==> ts[i] <= ts[j]
  }

  /** How many of the readings lie within the window of `now`. */
  function CountWithin(ts: seq<nat>, now: nat, window: nat): nat {
    if ts == [] then 0
    else
      var last := ts[|ts| - 1];
      CountWithin(ts[..|ts| - 1], now, window) + if Elapsed(now, last) <= window then 1 else 0
  }

  /** What a sliding window counts at the latest failure. */
  function WindowCount(ts: seq<nat>, window: nat): nat
    requires ts != []
  {
    CountWithin(ts, ts[|ts| - 1], window)
  }

  lemma {:induction false} CountSplits(a: seq<nat>, b: seq<nat>, now: nat, window: nat)
    ensures CountWithin(a + b, now, window) == CountWithin(a, now, window) + CountWithin(b, now, window)
  {
    if b == [] {
      assert a + b == a;
    } else {
      CountSplits(a, b[..|b| - 1], now, window);
      assert (a + b)[..|a + b| - 1] == a + b[..|b| - 1];
    }
  }

  lemma {:induction false} CountBounds(ts: seq<nat>, now: nat, window: nat)
    ensures CountWithin(ts, now, window) <= |ts|
    ensures CountWithin(ts, now, window) == |ts| <==> forall i :: 0 <= i < |ts| ==> Elapsed(now, ts[i]) <= window
    ensures (forall i :: 0 <= i < |ts| ==> Elapsed(now, ts[i]) > window) ==> CountWithin(ts, now, window) == 0
  {
    if ts != [] {
      var before := ts[..|ts| - 1];
      CountBounds(before, now, window);
      assert forall i :: 0 <= i < |before| ==> before[i] == ts[i];
      assert ts == before + [ts[|ts| - 1]];
    }
  }

  /** Nothing older than the longest chain lies within the window. */
  lemma BeforeChainIsOld(ts: seq<nat>, k: int, window: nat)
    requires ts != [] && Nondecreasing(ts) && IsLongestChain(ts, k, window)
    ensures forall i :: 0 <= i < |ts| - k ==> Elapsed(ts[|ts| - 1], ts[i]) > window
  {
    var m := |ts| - k;
    assert IsChain(ts, 1, window);
    if m > 0 {
      assert Elapsed(ts[m], ts[m - 1]) > window by {
        if Elapsed(ts[m], ts[m - 1]) <= window {
          assert IsChain(ts, k + 1, window);
        }
      }
    }
  }

  /** A chain is never shorter than the window count, and the two agree exactly
      when the oldest member of the chain is still within the window. */
  lemma ChainVersusWindow(ts: seq<nat>, k: int, window: nat)
    requires ts != [] && Nondecreasing(ts) && IsLongestChain(ts, k, window)
    ensures 1 <= k && WindowCount(ts, window) <= k
    ensures WindowCount(ts, window) == k <==> Elapsed(ts[|ts| - 1], ts[|ts| - k]) <= window
  {
    assert IsChain(ts, 1, window);
    BeforeChainIsOld(ts, k, window);
    WindowOfSuffix(ts, |ts| - k, window);
  }

  /** When everything before a position is too old, the window count is taken from
      the rest. */
  lemma WindowOfSuffix(ts: seq<nat>, m: nat, window: nat)
    requires m < |ts| && Nondecreasing(ts)
    requires forall i :: 0 <= i < m ==> Elapsed(ts[|ts| - 1], ts[i]) > window
    ensures WindowCount(ts, window) <= |ts| - m
    ensures WindowCount(ts, window) == |ts| - m <==> Elapsed(ts[|ts| - 1], ts[m]) <= window
  {
    assert ts == ts[..m] + ts[m..];
    CountSplits(ts[..m], ts[m..], ts[|ts| - 1], window);
    OldPrefix(ts, m, ts[|ts| - 1], window);
    SuffixWithin(ts, m, window);
  }

  lemma OldPrefix(ts: seq<nat>, m: nat, now: nat, window: nat)
    requires m <= |ts| && forall i :: 0 <= i < m ==> Elapsed(now, ts[i]) > window
    ensures CountWithin(ts[..m], now, window) == 0
  {
    CountBounds(ts[..m], now, window);
  }

  /** A whole suffix lies within the window exactly when its oldest member does. */
  lemma SuffixWithin(ts: seq<nat>, m: nat, window: nat)
    requires m < |ts| && Nondecreasing(ts)
    ensures CountWithin(ts[m..], ts[|ts| - 1], window) <= |ts| - m
    ensures CountWithin(ts[m..], ts[|ts| - 1], window) == |ts| - m <==> Elapsed(ts[|ts| - 1], ts[m]) <= window
  {
    var tail, now := ts[m..], ts[|ts| - 1];
    CountBounds(tail, now, window);
    assert tail[0] == ts[m];
    forall i | 0 <= i < |tail| && Elapsed(now, tail[0]) <= window ensures Elapsed(now, tail[i]) <= window {
      assert tail[i] == ts[m + i] && ts[m] <= ts[m + i];
    }
  }

  lemma {:induction false} LongestChain(ts: seq<nat>, window: nat) returns (k: int)
    ensures IsLongestChain(ts, k, window)
  {
    if ts == [] {
      k := 0;
    } else {
      var before, now := ts[..|ts| - 1], ts[|ts| - 1];
      k := LongestChain(before, window);
      ChainExtends(before, now, k, window);
      assert ts == before + [now];
      k := if before != [] && Elapsed(now, before[|before| - 1]) <= window then k + 1 else 1;
    }
  }

  /** The last `count` failures exist and lie within the window. */
  ghost predicate SpansAtMost(ts: seq<nat>, count: int, window: nat) {
    1 <= count <= |ts| && Elapsed(ts[|ts| - 1], ts[|ts| - count]) <= window
  }

  lemma WindowFillsExactlyWhen(ts: seq<nat>, count: int, window: nat)
    requires ts != [] && Nondecreasing(ts) && 1 <= count
    ensures WindowCount(ts, window) >= count <==> SpansAtMost(ts, count, window)
  {
    var now := ts[|ts| - 1];
    if count <= |ts| {
      var m := |ts| - count;
      SuffixWithin(ts, m, window);
      assert ts == ts[..m] + ts[m..];
      CountSplits(ts[..m], ts[m..], now, window);
      if Elapsed(now, ts[m]) > window {
        OldPrefix(ts, m, now, window);
      }
    } else {
      CountBounds(ts, now, window);
    }
  }

  /** The neighbours of the last `count` failures are within the window, but the
      first and the last of them are not. */
  ghost predicate Overstretched(ts: seq<nat>, count: int, window: nat) {
    1 <= count && IsChain(ts, count, window) && Elapsed(ts[|ts| - 1], ts[|ts| - count]) > window
  }

  /** For a count that no shorter history reached, chain and window rule part
      exactly on overstretched chains. */
  lemma RulesPartExactlyWhen(ts: seq<nat>, k: int, count: int, window: nat)
    requires ts != [] && Nondecreasing(ts) && IsLongestChain(ts, k, window) && 1 <= count && k <= count
    ensures WindowCount(ts, window) >= count ==> k >= count
    ensures (k >= count <==> WindowCount(ts, window) >= count) <==> !Overstretched(ts, count, window)
  {
    ChainVersusWindow(ts, k, window);
    ShorterChain(ts, k, count, window);
  }

  /** A Closed breaker trips whenever a sliding window of failures fills up, and
      trips where it would not exactly on an overstretched chain. */
  lemma TripsLikeWindowExactlyWhen(p: CircuitPolicy, calls: seq<Call>, now: nat)
    requires After(p, calls).state == Closed && Nondecreasing(FailureTimes(calls) + [now])
    ensures var ts, trips := FailureTimes(calls) + [now], After(p, calls + [Failure(now)]).state == Open;
      && (WindowCount(ts, p.failureWindow) >= TripCount(p) ==> trips)
      && ((trips <==> WindowCount(ts, p.failureWindow) >= TripCount(p))
          <==> !Overstretched(ts, TripCount(p), p.failureWindow))
  {
    ClosedCountsLongestChain(p, calls);
    HistoryIsConsistent(p, calls);
    var ts, b := FailureTimes(calls), After(p, calls);
    ChainExtends(ts, now, b.failures, p.failureWindow);
    var inWindow := ts != [] && Elapsed(now, ts[|ts| - 1]) <= p.failureWindow;
    var k := if inWindow then b.failures + 1 else 1;
    TripsExactlyAtThreshold(p, calls, now, k);
    RulesPartExactlyWhen(ts + [now], k, TripCount(p), p.failureWindow);
  }

  /** Three failures trip a breaker although only two lie within its window. */
  lemma ChainTripsOutsideWindow()
    ensures var p := CircuitPolicy(3, 60, 30);
      && After(p, [Failure(0), Failure(40), Failure(80)]).state == Open
      && WindowCount(FailureTimes([Failure(0), Failure(40), Failure(80)]), p.failureWindow) == 2
  {
    var p := CircuitPolicy(3, 60, 30);
    var c1, c2, c3 := [Failure(0)], [Failure(0), Failure(40)], [Failure(0), Failure(40), Failure(80)];
    assert c1[..0] == [] && c2[..1] == c1 && c3[..2] == c2;
    assert FailureTimes(c1) == [0] && FailureTimes(c2) == [0, 40] && FailureTimes(c3) == [0, 40, 80];
    assert After(p, c1) == Breaker(Closed, 1, Some(0), None);
    assert After(p, c2) == Breaker(Closed, 2, Some(40), None);
    var t1, t2, t3 := [0], [0, 40], [0, 40, 80];
    assert t1[..0] == [] && t2[..1] == t1 && t3[..2] == t2;
    assert CountWithin(t1, 80, 60) == 0 && CountWithin(t2, 80, 60) == 1;
  }

  /** The breaker decides at this failure as a sliding window would. */
  ghost predicate DecidesLikeWindow(p: CircuitPolicy, calls: seq<Call>, now: nat) {
    After(p, calls).state == Closed && Nondecreasing(FailureTimes(calls) + [now]) ==>
      (After(p, calls + [Failure(now)]).state == Open
       <==> WindowCount(FailureTimes(calls) + [now], p.failureWindow) >= TripCount(p))
  }

  /** `m` readings from `first` on, `gap` apart. */
  function EvenTimes(first: nat, gap: nat, m: nat): (ts: seq<nat>)
    ensures |ts| == m
  {
    if m == 0 then [] else EvenTimes(first, gap, m - 1) + [first + (m - 1) * gap]
  }

  lemma {:induction false} EvenTimesAt(first: nat, gap: nat, m: nat, i: nat)
    requires i < m
    ensures EvenTimes(first, gap, m)[i] == first + i * gap
  {
    if i < m - 1 {
      EvenTimesAt(first, gap, m - 1, i);
    }
  }

  lemma OneMoreGap(i: nat, gap: nat)
    ensures (i + 1) * gap == i * gap + gap
  {
  }

  lemma ScaledOrder(i: nat, j: nat, gap: nat)
    requires i <= j
    ensures i * gap <= j * gap
  {
  }

  /** Evenly spaced readings are in order and form one chain as long as the gap
      is within the window. */
  lemma EvenTimesChain(first: nat, gap: nat, m: nat)
    requires m > 0
    ensures Nondecreasing(EvenTimes(first, gap, m)) && IsLongestChain(EvenTimes(first, gap, m), m, gap)
    ensures EvenTimes(first, gap, m)[m - 1] - EvenTimes(first, gap, m)[0] == (m - 1) * gap
  {
    var ts := EvenTimes(first, gap, m);
    forall i, j | 0 <= i <= j < m ensures ts[i] <= ts[j] {
      EvenTimesAt(first, gap, m, i);
      EvenTimesAt(first, gap, m, j);
      ScaledOrder(i, j, gap);
    }
    forall i | 0 < i < m ensures Elapsed(ts[i], ts[i - 1]) <= gap {
      EvenTimesAt(first, gap, m, i);
      EvenTimesAt(first, gap, m, i - 1);
      OneMoreGap(i - 1, gap);
    }
    EvenTimesAt(first, gap, m, 0);
    EvenTimesAt(first, gap, m, m - 1);
  }

  function Failures(ts: seq<nat>): seq<Call> {
    if ts == [] then [] else Failures(ts[..|ts| - 1]) + [Failure(ts[|ts| - 1])]
  }

  lemma HistorySnoc(p: CircuitPolicy, calls: seq<Call>, now: nat)
    ensures After(p, calls + [Failure(now)]) == RecordFailure(p, After(p, calls), now)
    ensures FailureTimes(calls + [Failure(now)]) == FailureTimes(calls) + [now]
  {
    assert (calls + [Failure(now)])[..|calls|] == calls;
  }

  lemma EarlyFailureStaysClosed(p: CircuitPolicy, b: Breaker, now: nat)
    requires b.state == Closed && b.failures + 1 < TripCount(p)
    ensures RecordFailure(p, b, now).state == Closed && RecordFailure(p, b, now).failures <= b.failures + 1
  {
  }

  /** Fewer failures than the trip count leave the breaker Closed. */
  lemma {:induction false} FewFailuresStayClosed(p: CircuitPolicy, ts: seq<nat>)
    requires |ts| < TripCount(p)
    ensures After(p, Failures(ts)).state == Closed && FailureTimes(Failures(ts)) == ts
    ensures After(p, Failures(ts)).failures <= |ts|
  {
    if ts != [] {
      var before, now := ts[..|ts| - 1], ts[|ts| - 1];
      FewFailuresStayClosed(p, before);
      HistorySnoc(p, Failures(before), now);
      EarlyFailureStaysClosed(p, After(p, Failures(before)), now);
    }
  }

  lemma {:induction false} ZeroWindowChain(ts: seq<nat>, k: int)
    requires Nondecreasing(ts) && 1 <= k && IsChain(ts, k, 0)
    ensures ts[|ts| - k] == ts[|ts| - 1]
    decreases k
  {
    if k > 1 {
      assert Elapsed(ts[|ts| - k + 1], ts[|ts| - k]) <= 0;
      ZeroWindowChain(ts, k - 1);
    }
  }

  /** A breaker decides like a sliding window at every failure of every ordered
      history exactly when two failures suffice to trip it or its window is zero. */
  lemma AlwaysLikeWindowExactlyWhen(p: CircuitPolicy)
    ensures (forall calls, now :: DecidesLikeWindow(p, calls, now)) <==> TripCount(p) <= 2 || p.failureWindow == 0
  {
    if TripCount(p) <= 2 || p.failureWindow == 0 {
      forall calls, now ensures DecidesLikeWindow(p, calls, now) {
        ShortChainsFit(p, calls, now);
      }
    } else {
      var calls, now := SlowFailuresTrip(p);
    }
  }

  lemma ShortChainsFit(p: CircuitPolicy, calls: seq<Call>, now: nat)
    requires TripCount(p) <= 2 || p.failureWindow == 0
    ensures DecidesLikeWindow(p, calls, now)
  {
    var ts := FailureTimes(calls) + [now];
    if After(p, calls).state == Closed && Nondecreasing(ts) {
      TripsLikeWindowExactlyWhen(p, calls, now);
      if p.failureWindow == 0 && IsChain(ts, TripCount(p), 0) {
        ZeroWindowChain(ts, TripCount(p));
      }
    }
  }

  /** Failures one window apart, as many as trip the breaker. */
  lemma SlowFailuresTrip(p: CircuitPolicy) returns (calls: seq<Call>, now: nat)
    requires TripCount(p) > 2 && p.failureWindow > 0
    ensures !DecidesLikeWindow(p, calls, now)
  {
    var n, window := TripCount(p), p.failureWindow;
    var ts := EvenTimes(0, window, n - 1);
    calls, now := Failures(ts), (n - 1) * window;
    FewFailuresStayClosed(p, ts);
    EvenTimesChain(0, window, n);
    assert EvenTimes(0, window, n) == ts + [now];
    TripsLikeWindowExactlyWhen(p, calls, now);
    OneMoreGap(1, window);
    ScaledOrder(2, n - 1, window);
    assert Overstretched(ts + [now], n, window);
  }
}
