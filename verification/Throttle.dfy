/** recordAndCheckThrottle of internal/alert/notifier.go: a sliding window over alert times. */
module Throttle {

  const MINUTE := 60_000_000_000
  const MOST := 5

  // ---- What the list holds ----

  /** The calls of the last minute before `now`. */
  function Recent(times: seq<int>, now: int): seq<int> {
    if times == [] then []
    else (if times[0] > now - MINUTE then [times[0]] else []) + Recent(times[1..], now)
  }

  predicate Ordered(times: seq<int>) {
    forall i, j :: 0 <= i < j < |times| ==> times[i] <= times[j]
  }

  lemma {:induction false} RecentAppend(times: seq<int>, t: int, now: int)
    ensures Recent(times + [t], now) == Recent(times, now) + (if t > now - MINUTE then [t] else [])
  {
    if times == [] {
    } else {
      assert (times + [t])[1..] == times[1..] + [t];
      RecentAppend(times[1..], t, now);
    }
  }

  /** Pruning twice is pruning once with the later clock. */
  lemma {:induction false} RecentTwice(times: seq<int>, before: int, now: int)
    requires before <= now
    ensures Recent(Recent(times, before), now) == Recent(times, now)
  {
    if times == [] {
    } else {
      RecentTwice(times[1..], before, now);
      var rest := Recent(times[1..], before);
      assert ([times[0]] + rest)[1..] == rest && [] + rest == rest;
      assert [] + Recent(times[1..], now) == Recent(times[1..], now);
    }
  }

  /** The calls, by their number, of the 60 seconds before `now`. */
  function CallsSince(times: seq<int>, now: int): set<nat> {
    set k: nat | k < |times| && times[k] > now - 60_000_000_000
  }

  lemma {:induction false} RecentCounts(times: seq<int>, now: int)
    ensures |Recent(times, now)| == |CallsSince(times, now)|
  {
    if times == [] {
    } else {
      var n := |times| - 1;
      var front := times[..n];
      assert times == front + [times[n]];
      RecentAppend(front, times[n], now);
      RecentCounts(front, now);
      assert CallsSince(times, now) ==
             CallsSince(front, now) + (if times[n] > now - 60_000_000_000 then {n} else {});
    }
  }

  // ---- Windows over a whole history ----

  /** Whether call `i` of a history is throttled: more than five calls in the minute up to it. */
  predicate Throttled(times: seq<int>, i: nat)
    requires i < |times|
  {
    |Recent(times[..i + 1], times[i])| > MOST
  }

  /** A call is throttled exactly if, with itself, there were more than five in the 60 seconds up to it. */
  lemma ThrottledInFigures(times: seq<int>, i: nat)
    requires i < |times|
    ensures Throttled(times, i) <==> |CallsSince(times[..i + 1], times[i])| > 5
  {
    RecentCounts(times[..i + 1], times[i]);
  }

  /** The alerts with a time in (t - 60s, t] that got through among the first `n` calls. */
  function Through(times: seq<int>, t: int, n: nat): nat
    requires n <= |times|
  {
    if n == 0 then 0
    else
      var counts := t - 60_000_000_000 < times[n - 1] <= t && !Throttled(times, n - 1);
      Through(times, t, n - 1) + (if counts then 1 else 0)
  }

  lemma {:induction false} ThroughIsRecent(times: seq<int>, t: int, now: int, n: nat)
    requires n <= |times| && now <= t
    ensures Through(times, t, n) <= |Recent(times[..n], now)|
  {
    if n > 0 {
      ThroughIsRecent(times, t, now, n - 1);
      assert times[..n] == times[..n - 1] + [times[n - 1]];
      RecentAppend(times[..n - 1], times[n - 1], now);
    }
  }

  /** No window of a minute contains more than five alerts that got through. */
  lemma {:induction false} AtMostFive(times: seq<int>, t: int, n: nat)
    requires Ordered(times) && n <= |times|
    ensures Through(times, t, n) <= 5
  {
    if n > 0 {
      AtMostFive(times, t, n - 1);
      var now := times[n - 1];
      if t - MINUTE < now <= t && !Throttled(times, n - 1) {
        ThroughIsRecent(times, t, now, n);
      }
    }
  }

  // ---- The notifier ----

  /** The loop over the list. */
  method Prune(times: seq<int>, now: int) returns (recent: seq<int>)
    ensures recent == Recent(times, now)
  {
    recent := [];
    for i := 0 to |times|
      invariant recent == Recent(times[..i], now)
    {
      assert times[..i + 1] == times[..i] + [times[i]];
      RecentAppend(times[..i], times[i], now);
      if times[i] > now - MINUTE {
        recent := recent + [times[i]];
      }
    }
    assert times[..|times|] == times;
  }

  /** Pruning what an earlier call left is pruning the whole history. */
  lemma Pruned(history: seq<int>, now: int)
    requires history != [] ==> history[|history| - 1] <= now
    ensures var left := if history == [] then [] else Recent(history, history[|history| - 1]);
            Recent(left, now) + [now] == Recent(history + [now], now)
  {
    if history != [] {
      RecentTwice(history, history[|history| - 1], now);
    }
    RecentAppend(history, now, now);
  }

  lemma Appended(history: seq<int>, now: int)
    requires Ordered(history) && (history != [] ==> history[|history| - 1] <= now)
    ensures var all := history + [now];
            && all != [] && all[|all| - 1] == now && Ordered(all)
            && Throttled(all, |all| - 1) == (|Recent(all, now)| > MOST)
  {
    var all := history + [now];
    assert all[..|all|] == all;
  }

  class Notifier {
    var alertTimes: seq<int>
    // Every call so far.
    ghost var history: seq<int>

    /** The list is the history restricted to the minute before the last call. */
    ghost predicate Valid() reads this {
      && Ordered(history)
      && alertTimes == if history == [] then [] else Recent(history, history[|history| - 1])
    }

    constructor ()
      ensures Valid() && history == []
    {
      alertTimes, history := [], [];
    }

    method RecordAndCheckThrottle(now: int) returns (throttled: bool, count: nat)
      requires Valid() && (history != [] ==> history[|history| - 1] <= now)
      modifies this
      ensures Valid() && history == old(history) + [now]
      ensures alertTimes == Recent(history, now) && count == |alertTimes|
      ensures throttled == Throttled(history, |history| - 1)
      ensures throttled <==> |CallsSince(history, now)| > 5
    {
      RecentCounts(history + [now], now);
      var recent := Prune(alertTimes, now);
      Pruned(history, now);
      Appended(history, now);
      recent := recent + [now];
      alertTimes := recent;
      history := history + [now];
      return |recent| > MOST, |recent|;
    }
  }
}
