/** internal/ratelimit/limiter.go: one token bucket a key, refilled whole when its window is over.
    Times are nanoseconds. */
module RateLimit {
  import opened Basics

  const SECOND := 1_000_000_000
  const MINUTE := 60 * SECOND

  datatype Bucket = Bucket(tokens: int, lastRefill: int)

  // ---- One bucket ----

  /** The bucket a call at `now` works on. */
  function Refilled(b: Option<Bucket>, limit: int, window: int, now: int): Bucket {
    if b.None? || now - b.value.lastRefill >= window then Bucket(limit, now) else b.value
  }

  function Take(b: Option<Bucket>, limit: int, window: int, now: int): (bool, Bucket) {
    var r := Refilled(b, limit, window, now);
    if r.tokens > 0 then (true, r.(tokens := r.tokens - 1)) else (false, r)
  }

  datatype Call = Call(key: string, at: int)

  /** The clock does not go backwards. */
  predicate Ordered(calls: seq<Call>) {
    forall i, j :: 0 <= i < j < |calls| ==> calls[i].at <= calls[j].at
  }

  /** Allowed calls with a time from `from` to `to`. */
  function Allowed(b: Option<Bucket>, limit: int, window: int, calls: seq<Call>, from: int, to: int): nat
    decreases |calls|
  {
    if calls == [] then 0
    else
      var (ok, next) := Take(b, limit, window, calls[0].at);
      (if ok && from <= calls[0].at <= to then 1 else 0) + Allowed(Some(next), limit, window, calls[1..], from, to)
  }

  lemma OrderedTail(calls: seq<Call>)
    requires Ordered(calls) && calls != []
    ensures Ordered(calls[1..]) && forall i :: 0 <= i < |calls[1..]| ==> calls[0].at <= calls[1..][i].at
  {
    assert forall i :: 0 <= i < |calls[1..]| ==> calls[1..][i] == calls[i + 1];
  }

  lemma LateCallsOutside(b: Option<Bucket>, limit: int, window: int, calls: seq<Call>, from: int, to: int)
    requires Ordered(calls) && calls != [] && calls[0].at > to
    ensures Allowed(b, limit, window, calls, from, to) == 0
    decreases |calls|
  {
    if |calls| > 1 {
      OrderedTail(calls);
      assert calls[1..][0] == calls[1];
      LateCallsOutside(Some(Take(b, limit, window, calls[0].at).1), limit, window, calls[1..], from, to);
    }
  }

  /** `limit` for each whole window in a time span: limit * (span / window), without the products. */
  function Budget(limit: nat, span: int, window: int): nat
    requires window > 0
    decreases if span < 0 then 0 else span
  {
    if span < window then 0 else limit + Budget(limit, span - window, window)
  }

  lemma {:induction false} BudgetMonotone(limit: nat, x: int, y: int, window: int)
    requires window > 0 && x <= y
    ensures Budget(limit, x, window) <= Budget(limit, y, window)
    ensures 0 <= x <= y - window ==> limit + Budget(limit, x, window) <= Budget(limit, y, window)
    decreases if y < 0 then 0 else y
  {
    if x >= window {
      BudgetMonotone(limit, x - window, y - window, window);
    }
  }

  lemma {:induction false} BudgetIsProduct(limit: nat, span: nat, window: int)
    requires window > 0
    ensures Budget(limit, span, window) == limit * (span / window)
  {
    if span < window {
      assert span / window == 0;
    } else {
      BudgetIsProduct(limit, span - window, window);
      DivLess(span, window);
      Distribute(limit, span / window - 1);
    }
  }

  lemma DivLess(x: int, d: int)
    requires 0 < d <= x
    ensures (x - d) / d == x / d - 1
  {
    var q, r := x / d, x % d;
    assert x == q * d + r;
    assert (q - 1) * d == q * d - d;
    DivUnique(x - d, d, q - 1, r);
  }

  lemma DivUnique(x: int, d: int, q: int, r: int)
    requires d > 0 && x == q * d + r && 0 <= r < d
    ensures x / d == q
  {
    var k := x / d - q;
    assert x == (x / d) * d + x % d;
    assert k * d == r - x % d by {
      assert (x / d - q) * d == (x / d) * d - q * d;
    }
    MultipleFar(k, d);
  }

  lemma MultipleFar(k: int, d: int)
    requires d > 0
    ensures k >= 1 ==> k * d >= d
    ensures k <= -1 ==> k * d <= -d
  {
    if k >= 1 {
      assert (k - 1) * d >= 0;
    } else if k <= -1 {
      assert (-k - 1) * d >= 0;
    }
  }

  lemma Distribute(limit: int, n: int)
    ensures limit + limit * n == limit * (n + 1)
  {
  }

  /** From a refill on, only the tokens left and those of later refills are given out. */
  lemma {:induction false} AllowedSinceRefill(b: Bucket, limit: int, window: int, calls: seq<Call>, from: int, to: int)
    requires limit > 0 && window > 0 && 0 <= b.tokens <= limit && Ordered(calls)
    requires b.lastRefill <= to && forall i :: 0 <= i < |calls| ==> b.lastRefill <= calls[i].at
    ensures Allowed(Some(b), limit, window, calls, from, to) <= b.tokens + Budget(limit, to - b.lastRefill, window)
    decreases |calls|
  {
    if calls == [] {
    } else if calls[0].at > to {
      LateCallsOutside(Some(b), limit, window, calls, from, to);
    } else {
      var now, next := calls[0].at, Take(Some(b), limit, window, calls[0].at).1;
      OrderedTail(calls);
      AllowedSinceRefill(next, limit, window, calls[1..], from, to);
      BudgetMonotone(limit, to - now, to - b.lastRefill, window);
    }
  }

  /** From the first call inside an interval on, wherever in its window the bucket is. */
  lemma {:induction false} AllowedInside(b: Bucket, limit: int, window: int, calls: seq<Call>, from: int, to: int)
    requires limit > 0 && window > 0 && 0 <= b.tokens <= limit && Ordered(calls) && from <= to
    requires forall i :: 0 <= i < |calls| ==> from <= calls[i].at
    ensures Allowed(Some(b), limit, window, calls, from, to) <= b.tokens + limit + Budget(limit, to - from, window)
    decreases |calls|
  {
    if calls == [] {
    } else if calls[0].at > to {
      LateCallsOutside(Some(b), limit, window, calls, from, to);
    } else {
      var now, next := calls[0].at, Take(Some(b), limit, window, calls[0].at).1;
      OrderedTail(calls);
      if now - b.lastRefill >= window {
        AllowedSinceRefill(next, limit, window, calls[1..], from, to);
        BudgetMonotone(limit, to - now, to - from, window);
      } else {
        AllowedInside(next, limit, window, calls[1..], from, to);
      }
    }
  }

  lemma {:induction false} BudgetBound(b: Option<Bucket>, limit: int, window: int, calls: seq<Call>, from: int, to: int)
    requires limit > 0 && window > 0 && Ordered(calls) && from <= to
    requires b.Some? ==> 0 <= b.value.tokens <= limit
    ensures Allowed(b, limit, window, calls, from, to) <= 2 * limit + Budget(limit, to - from, window)
    decreases |calls|
  {
    if calls == [] {
    } else {
      var now, next := calls[0].at, Take(b, limit, window, calls[0].at).1;
      OrderedTail(calls);
      if now < from {
        BudgetBound(Some(next), limit, window, calls[1..], from, to);
      } else {
        AllowedInside(next, limit, window, calls[1..], from, to);
      }
    }
  }

  /** In every interval at most the limit times the number of windows it can touch is allowed. */
  lemma RateBound(b: Option<Bucket>, limit: int, window: int, calls: seq<Call>, from: int, to: int)
    requires limit > 0 && window > 0 && Ordered(calls) && from <= to
    requires b.Some? ==> 0 <= b.value.tokens <= limit
    ensures Allowed(b, limit, window, calls, from, to) <= limit * ((to - from) / window + 2)
  {
    BudgetBound(b, limit, window, calls, from, to);
    BudgetIsProduct(limit, to - from, window);
    Distribute(limit, (to - from) / window);
    Distribute(limit, (to - from) / window + 1);
  }

  // ---- Why a call is denied ----

  function BucketAfter(limit: int, window: int, calls: seq<Call>): Option<Bucket>
    decreases |calls|
  {
    if calls == [] then None
    else
      var n := |calls| - 1;
      Some(Take(BucketAfter(limit, window, calls[..n]), limit, window, calls[n].at).1)
  }

  predicate Answer(limit: int, window: int, calls: seq<Call>, i: nat)
    requires i < |calls|
  {
    Take(BucketAfter(limit, window, calls[..i]), limit, window, calls[i].at).0
  }

  /** Call `i` finds the bucket missing or its window over. */
  predicate Refills(limit: int, window: int, calls: seq<Call>, i: nat)
    requires i < |calls|
  {
    var b := BucketAfter(limit, window, calls[..i]);
    b.None? || calls[i].at - b.value.lastRefill >= window
  }

  /** Calls allowed among those from `j` up to before `i`. */
  function Given(limit: int, window: int, calls: seq<Call>, j: nat, i: nat): nat
    requires j <= i <= |calls|
  {
    if i == j then 0
    else Given(limit, window, calls, j, i - 1) + (if Answer(limit, window, calls, i - 1) then 1 else 0)
  }

  lemma {:induction false} GivenPrefix(limit: int, window: int, calls: seq<Call>, n: nat, j: nat, i: nat)
    requires j <= i <= n <= |calls|
    ensures Given(limit, window, calls[..n], j, i) == Given(limit, window, calls, j, i)
  {
    if i > j {
      GivenPrefix(limit, window, calls, n, j, i - 1);
      assert calls[..n][..i - 1] == calls[..i - 1];
    }
  }

  /** The tokens missing from the bucket were given out since its refill. */
  lemma {:induction false} TokensAccounted(limit: int, window: int, calls: seq<Call>) returns (j: nat)
    requires limit > 0 && window > 0 && calls != []
    ensures j < |calls| && Refills(limit, window, calls, j)
    ensures var b := BucketAfter(limit, window, calls).value;
            && b.lastRefill == calls[j].at && b.tokens >= 0
            && Given(limit, window, calls, j, |calls|) + b.tokens == limit
    decreases |calls|
  {
    var n := |calls| - 1;
    var front := calls[..n];
    if Refills(limit, window, calls, n) {
      j := n;
      assert Given(limit, window, calls, n, n) == 0;
    } else {
      j := TokensAccounted(limit, window, front);
      GivenPrefix(limit, window, calls, n, j, n);
      assert front[..j] == calls[..j];
    }
  }

  /** A denied call finds exactly the limit given out since a refill less than a window ago. */
  lemma DenialExplained(limit: int, window: int, calls: seq<Call>, i: nat) returns (j: nat)
    requires limit > 0 && window > 0 && i < |calls| && !Answer(limit, window, calls, i)
    ensures j < i && Refills(limit, window, calls, j) && calls[i].at - calls[j].at < window
    ensures Given(limit, window, calls, j, i) == limit
  {
    j := TokensAccounted(limit, window, calls[..i]);
    GivenPrefix(limit, window, calls, i, j, i);
    assert calls[..i][..j] == calls[..j];
  }

  // ---- Many keys ----

  function Get(buckets: map<string, Bucket>, key: string): Option<Bucket> {
    if key in buckets then Some(buckets[key]) else None
  }

  function Only(calls: seq<Call>, key: string): seq<Call> {
    if calls == [] then []
    else (if calls[0].key == key then [calls[0]] else []) + Only(calls[1..], key)
  }

  /** The allowed calls for `key`, when the calls of all keys go through one limiter. */
  function AllowedKey(buckets: map<string, Bucket>, limit: int, calls: seq<Call>, key: string, from: int, to: int): nat
    decreases |calls|
  {
    if calls == [] then 0
    else
      var c := calls[0];
      var (ok, next) := Take(Get(buckets, c.key), limit, MINUTE, c.at);
      (if c.key == key && ok && from <= c.at <= to then 1 else 0)
      + AllowedKey(buckets[c.key := next], limit, calls[1..], key, from, to)
  }

  /** A key is served as if its calls were the only ones. */
  lemma {:induction false} KeysAreIndependent(buckets: map<string, Bucket>, limit: int, calls: seq<Call>, key: string,
                                              from: int, to: int)
    ensures AllowedKey(buckets, limit, calls, key, from, to) ==
            Allowed(Get(buckets, key), limit, MINUTE, Only(calls, key), from, to)
    decreases |calls|
  {
    if calls == [] {
    } else {
      var c := calls[0];
      var next := Take(Get(buckets, c.key), limit, MINUTE, c.at).1;
      KeysAreIndependent(buckets[c.key := next], limit, calls[1..], key, from, to);
      var rest := Only(calls[1..], key);
      assert ([c] + rest)[1..] == rest && [] + rest == rest;
    }
  }

  predicate NotBefore(calls: seq<Call>, at: int) {
    forall i :: 0 <= i < |calls| ==> at <= calls[i].at
  }

  lemma OrderedCons(c: Call, calls: seq<Call>)
    requires Ordered(calls) && NotBefore(calls, c.at)
    ensures Ordered([c] + calls)
  {
  }

  lemma NotBeforeTail(calls: seq<Call>, at: int)
    requires calls != [] && NotBefore(calls, at)
    ensures NotBefore(calls[1..], at)
  {
    assert forall i :: 0 <= i < |calls[1..]| ==> calls[1..][i] == calls[i + 1];
  }

  lemma {:induction false} OnlyNotBefore(calls: seq<Call>, key: string, at: int)
    requires NotBefore(calls, at)
    ensures NotBefore(Only(calls, key), at)
    decreases |calls|
  {
    if calls == [] {
    } else {
      NotBeforeTail(calls, at);
      OnlyNotBefore(calls[1..], key, at);
    }
  }

  lemma {:induction false} OnlyOrdered(calls: seq<Call>, key: string)
    requires Ordered(calls)
    ensures Ordered(Only(calls, key))
    decreases |calls|
  {
    if calls == [] {
    } else {
      var rest := Only(calls[1..], key);
      OrderedTail(calls);
      OnlyOrdered(calls[1..], key);
      OnlyNotBefore(calls[1..], key, calls[0].at);
      OrderedCons(calls[0], rest);
      assert [] + rest == rest;
    }
  }

  /** The bound for each key over any trace of calls, from a new limiter. */
  lemma KeyRateBound(limit: int, calls: seq<Call>, key: string, from: int, to: int)
    requires limit > 0 && Ordered(calls) && from <= to
    ensures AllowedKey(map[], limit, calls, key, from, to) <= limit * ((to - from) / 60_000_000_000 + 2)
  {
    KeysAreIndependent(map[], limit, calls, key, from, to);
    OnlyOrdered(calls, key);
    RateBound(None, limit, MINUTE, Only(calls, key), from, to);
  }

  // ---- Why a call is denied, among the calls of all keys ----

  /** The buckets after the calls, from a new limiter. */
  function BucketsAfter(limit: int, calls: seq<Call>): map<string, Bucket>
    decreases |calls|
  {
    if calls == [] then map[]
    else
      var n := |calls| - 1;
      var before := BucketsAfter(limit, calls[..n]);
      before[calls[n].key := Take(Get(before, calls[n].key), limit, MINUTE, calls[n].at).1]
  }

  predicate AnswerAmong(limit: int, calls: seq<Call>, i: nat)
    requires i < |calls|
  {
    Take(Get(BucketsAfter(limit, calls[..i]), calls[i].key), limit, MINUTE, calls[i].at).0
  }

  /** Call `i` finds the bucket of its key missing or its window over. */
  predicate RefillsAmong(limit: int, calls: seq<Call>, i: nat)
    requires i < |calls|
  {
    var b := Get(BucketsAfter(limit, calls[..i]), calls[i].key);
    b.None? || calls[i].at - b.value.lastRefill >= MINUTE
  }

  /** Calls allowed for `key` among those from `j` up to before `i`. */
  function GivenTo(limit: int, calls: seq<Call>, key: string, j: nat, i: nat): nat
    requires j <= i <= |calls|
  {
    if i == j then 0
    else GivenTo(limit, calls, key, j, i - 1)
         + (if calls[i - 1].key == key && AnswerAmong(limit, calls, i - 1) then 1 else 0)
  }

  lemma {:induction false} GivenToPrefix(limit: int, calls: seq<Call>, key: string, n: nat, j: nat, i: nat)
    requires j <= i <= n <= |calls|
    ensures GivenTo(limit, calls[..n], key, j, i) == GivenTo(limit, calls, key, j, i)
  {
    if i > j {
      GivenToPrefix(limit, calls, key, n, j, i - 1);
      assert calls[..n][..i - 1] == calls[..i - 1];
    }
  }

  /** The tokens missing from the bucket of a key were given to that key since its refill, whatever the
      other keys did in between. */
  lemma {:induction false} KeyTokensAccounted(limit: int, calls: seq<Call>, key: string) returns (j: nat)
    requires limit > 0 && key in BucketsAfter(limit, calls)
    ensures j < |calls| && calls[j].key == key && RefillsAmong(limit, calls, j)
    ensures var b := BucketsAfter(limit, calls)[key];
            && b.lastRefill == calls[j].at && b.tokens >= 0
            && GivenTo(limit, calls, key, j, |calls|) + b.tokens == limit
    decreases |calls|
  {
    var n := |calls| - 1;
    var front := calls[..n];
    if calls[n].key == key && RefillsAmong(limit, calls, n) {
      j := n;
      assert GivenTo(limit, calls, key, n, n) == 0;
    } else {
      j := KeyTokensAccounted(limit, front, key);
      GivenToPrefix(limit, calls, key, n, j, n);
      assert front[..j] == calls[..j];
    }
  }

  /** A denied call finds exactly the limit given to its own key since a refill of that key's bucket less
      than a minute ago. */
  lemma KeyDenialExplained(limit: int, calls: seq<Call>, i: nat) returns (j: nat)
    requires limit > 0 && i < |calls| && !AnswerAmong(limit, calls, i)
    ensures j < i && calls[j].key == calls[i].key
    ensures RefillsAmong(limit, calls, j) && calls[i].at - calls[j].at < 60_000_000_000
    ensures GivenTo(limit, calls, calls[i].key, j, i) == limit
  {
    j := KeyTokensAccounted(limit, calls[..i], calls[i].key);
    GivenToPrefix(limit, calls, calls[i].key, i, j, i);
    assert calls[..i][..j] == calls[..j];
  }

  // ---- The limiter ----

  class Limiter {
    var buckets: map<string, Bucket>
    var globalBucket: Option<Bucket>

    constructor ()
      ensures buckets == map[] && globalBucket == None
    {
      buckets, globalBucket := map[], None;
    }

    /** The reset time is at most a minute ahead: the clock did not go backwards since the refill. */
    method Allow(key: string, limitRpm: int, now: int) returns (ok: bool, remaining: int, reset: int)
      requires key in buckets ==> buckets[key].lastRefill <= now
      modifies this
      ensures globalBucket == old(globalBucket)
      ensures limitRpm <= 0 ==> ok && remaining == 100 && buckets == old(buckets)
      ensures limitRpm > 0 ==>
                var (allowed, next) := Take(Get(old(buckets), key), limitRpm, 60_000_000_000, now);
                ok == allowed && buckets == old(buckets)[key := next] && (ok ==> remaining == next.tokens)
      ensures !ok ==> remaining == 0
      ensures reset == ((if limitRpm > 0 then buckets[key].lastRefill else now) + MINUTE) / SECOND
      ensures 0 <= reset - now / SECOND <= 60
    {
      if limitRpm <= 0 {
        return true, 100, (now + MINUTE) / SECOND;
      }
      var b := Bucket(limitRpm, now);
      if key in buckets {
        b := buckets[key];
      }
      if now - b.lastRefill >= MINUTE {
        b := Bucket(limitRpm, now);
      }
      reset := (b.lastRefill + MINUTE) / SECOND;
      if b.tokens > 0 {
        b := b.(tokens := b.tokens - 1);
        buckets := buckets[key := b];
        return true, b.tokens, reset;
      }
      buckets := buckets[key := b];
      return false, 0, reset;
    }

    /** The limit for all callers together works on a window of one second. */
    method AllowGlobal(limitRps: int, now: int) returns (ok: bool)
      modifies this
      ensures buckets == old(buckets)
      ensures limitRps <= 0 ==> ok && globalBucket == old(globalBucket)
      ensures limitRps > 0 ==>
                var (allowed, next) := Take(old(globalBucket), limitRps, 1_000_000_000, now);
                ok == allowed && globalBucket == Some(next)
    {
      if limitRps <= 0 {
        return true;
      }
      if globalBucket == None || now - globalBucket.value.lastRefill >= SECOND {
        globalBucket := Some(Bucket(limitRps, now));
      }
      if globalBucket.value.tokens > 0 {
        globalBucket := Some(globalBucket.value.(tokens := globalBucket.value.tokens - 1));
        return true;
      }
      return false;
    }
  }
}
