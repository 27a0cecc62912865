// The per-minute request limiter on the Lua path. Times are milliseconds on one clock.
module RateLimit {
  const MINUTE := 60_000
  const KEY_TTL := 120_000

  // One ps:rate key: INCR counter and expiry.
  datatype Counter = Counter(count: nat, expires: nat)

  function Bucket(now: nat): nat { now / MINUTE }

  // The counter that INCR returns; an expired key counts from zero.
  function Count(keys: map<nat, Counter>, now: nat): nat {
    var b := Bucket(now);
    if b in keys && now < keys[b].expires then keys[b].count + 1 else 1
  }

  function Bump(keys: map<nat, Counter>, now: nat): map<nat, Counter> {
    var b, n := Bucket(now), Count(keys, now);
    keys[b := Counter(n, if n == 1 then now + KEY_TTL else keys[b].expires)]
  }

  // n more calls of the key at one time.
  function BumpAll(keys: map<nat, Counter>, now: nat, n: nat): map<nat, Counter> {
    if n == 0 then keys else Bump(BumpAll(keys, now, n - 1), now)
  }

  lemma {:induction false} CountAll(keys: map<nat, Counter>, now: nat, n: nat)
    requires n > 0
    ensures var b, after := Bucket(now), BumpAll(keys, now, n);
            b in after && now < after[b].expires && after[b].count == Count(keys, now) + n - 1
  {
    if n > 1 {
      CountAll(keys, now, n - 1);
    }
  }

  class Limiter {
    var keys: map<nat, Counter>

    // The Lua script: INCR, EXPIRE on the first count, compare.
    method Script(now: nat, limit: nat) returns (allowed: bool)
      modifies this
      ensures keys == Bump(old(keys), now) && allowed == (Count(old(keys), now) <= limit)
    {
      var b := Bucket(now);
      if b in keys && keys[b].expires <= now {
        keys := keys - {b};
      }
      var count := if b in keys then keys[b].count + 1 else 1;
      var expires := if b in keys then keys[b].expires else 0;
      if count == 1 {
        expires := now + KEY_TTL;
      }
      keys := keys[b := Counter(count, expires)];
      assert keys == Bump(old(keys), now);
      allowed := count <= limit;
    }

    // check_rate_limit: the script, then a GET of the counter, with `others` calls
    // of the same key in between. The answer is the script's; the count may be later.
    method CheckRateLimit(now: nat, limit: nat, others: nat) returns (allowed: bool, count: nat)
      modifies this
      ensures keys == BumpAll(old(keys), now, others + 1)
      ensures allowed == (Count(old(keys), now) <= limit) && count == Count(old(keys), now) + others
    {
      assert BumpAll(keys, now, 0) == keys;
      allowed := Script(now, limit);
      for n := 0 to others
        invariant keys == BumpAll(old(keys), now, n + 1)
      {
        var _ := Script(now, limit);
      }
      CountAll(old(keys), now, others + 1);
      count := keys[Bucket(now)].count;
    }
  }

  // A run of calls at the given times: the keys after it.
  function After(times: seq<nat>): map<nat, Counter> {
    if times == [] then map[] else Bump(After(times[..|times| - 1]), times[|times| - 1])
  }

  // Whether call i of the run is let through.
  function Allowed(times: seq<nat>, limit: nat, i: nat): bool
    requires i < |times|
  {
    Count(After(times[..i]), times[i]) <= limit
  }

  predicate Ordered(times: seq<nat>) {
    forall i, j :: 0 <= i < j < |times| ==> times[i] <= times[j]
  }

  // Calls in one minute bucket.
  function Calls(times: seq<nat>, b: nat): nat {
    if times == [] then 0
    else Calls(times[..|times| - 1], b) + if Bucket(times[|times| - 1]) == b then 1 else 0
  }

  // The key of the latest bucket counts every call of that bucket, and cannot
  // expire within its own minute; later buckets are untouched.
  ghost predicate Faithful(times: seq<nat>, keys: map<nat, Counter>) {
    forall b: nat :: (times == [] || Bucket(times[|times| - 1]) <= b) ==>
      && (b in keys <==> Calls(times, b) > 0)
      && (b in keys ==> keys[b].count == Calls(times, b) && keys[b].expires >= (b + 1) * MINUTE)
  }

  lemma InBucket(now: nat)
    ensures Bucket(now) * MINUTE <= now < (Bucket(now) + 1) * MINUTE
  {
  }

  lemma {:induction false} AfterFaithful(times: seq<nat>)
    requires Ordered(times)
    ensures Faithful(times, After(times))
    decreases |times|
  {
    if times != [] {
      var before, now := times[..|times| - 1], times[|times| - 1];
      AfterFaithful(before);
      InBucket(now);
      var keys := After(before);
      assert before != [] ==> Bucket(before[|before| - 1]) <= Bucket(now);
      forall b: nat | Bucket(now) <= b
        ensures b in After(times) <==> Calls(times, b) > 0
        ensures b in After(times) ==>
                  After(times)[b].count == Calls(times, b) && After(times)[b].expires >= (b + 1) * MINUTE
      {
        assert b in keys <==> Calls(before, b) > 0;
      }
    }
  }

  // A call is let through exactly when it is among the first `limit` calls of
  // its minute.
  lemma AllowedExact(times: seq<nat>, limit: nat, i: nat)
    requires Ordered(times) && i < |times|
    ensures Allowed(times, limit, i) <==> Calls(times[..i + 1], Bucket(times[i])) <= limit
  {
    var before, b := times[..i], Bucket(times[i]);
    AfterFaithful(before);
    InBucket(times[i]);
    assert times[..i + 1][..i] == before;
    assert before != [] ==> Bucket(before[|before| - 1]) <= b;
    assert b in After(before) <==> Calls(before, b) > 0;
  }

  lemma {:induction false} KeysStay(times: seq<nat>, i: nat)
    requires i < |times|
    ensures Bucket(times[i]) in After(times)
    decreases |times|
  {
    if i < |times| - 1 {
      KeysStay(times[..|times| - 1], i);
    }
  }

  // A counter expires two minutes after the first call of its minute.
  lemma {:induction false} KeyExpires(times: seq<nat>, b: nat) returns (i: nat)
    requires Ordered(times) && b in After(times)
    ensures i < |times| && Bucket(times[i]) == b && forall j :: 0 <= j < i ==> Bucket(times[j]) != b
    ensures After(times)[b].expires == times[i] + 120_000
    decreases |times|
  {
    var n := |times| - 1;
    var before, now := times[..n], times[n];
    AfterFaithful(before);
    InBucket(now);
    assert before != [] ==> Bucket(before[n - 1]) <= Bucket(now);
    if b in After(before) {
      i := KeyExpires(before, b);
      assert Bucket(now) == b ==> now < After(before)[b].expires && After(before)[b].count == Calls(before, b) > 0;
    } else {
      i := n;
      forall j | 0 <= j < n ensures Bucket(times[j]) != b {
        KeysStay(before, j);
      }
    }
  }

  // Calls let through at times from lo up to hi, among the first n.
  function Passed(times: seq<nat>, limit: nat, lo: nat, hi: nat, n: nat): nat
    requires n <= |times|
  {
    if n == 0 then 0
    else Passed(times, limit, lo, hi, n - 1)
         + if lo <= times[n - 1] < hi && Allowed(times, limit, n - 1) then 1 else 0
  }

  lemma {:induction false} BucketBound(times: seq<nat>, limit: nat, b: nat, n: nat)
    requires Ordered(times) && n <= |times|
    ensures Passed(times, limit, b * MINUTE, (b + 1) * MINUTE, n) <= limit
    ensures Passed(times, limit, b * MINUTE, (b + 1) * MINUTE, n) <= Calls(times[..n], b)
    decreases n
  {
    if n > 0 {
      BucketBound(times, limit, b, n - 1);
      AllowedExact(times, limit, n - 1);
      InBucket(times[n - 1]);
      assert times[..n][..n - 1] == times[..n - 1];
      if b * MINUTE <= times[n - 1] < (b + 1) * MINUTE {
        SameBucket(times[n - 1], b);
      }
    }
  }

  lemma SameBucket(now: nat, b: nat)
    requires b * MINUTE <= now < (b + 1) * MINUTE
    ensures Bucket(now) == b
  {
  }

  lemma {:induction false} PassedSplit(times: seq<nat>, limit: nat, lo: nat, hi: nat, a: nat, b: nat, c: nat, n: nat)
    requires n <= |times| && a <= lo && hi <= c && a <= b <= c
    ensures Passed(times, limit, lo, hi, n) <= Passed(times, limit, a, b, n) + Passed(times, limit, b, c, n)
    decreases n
  {
    if n > 0 {
      PassedSplit(times, limit, lo, hi, a, b, c, n - 1);
    }
  }

  // At most `limit` calls pass in one minute bucket, and at most twice as many
  // in any window of sixty seconds.
  lemma WindowBound(times: seq<nat>, limit: nat, start: nat)
    requires Ordered(times)
    ensures Passed(times, limit, start, start + 60_000, |times|) <= 2 * limit
    ensures start % 60_000 == 0 ==> Passed(times, limit, start, start + 60_000, |times|) <= limit
  {
    var b := Bucket(start);
    InBucket(start);
    BucketBound(times, limit, b, |times|);
    BucketBound(times, limit, b + 1, |times|);
    PassedSplit(times, limit, start, start + MINUTE, b * MINUTE, (b + 1) * MINUTE, (b + 2) * MINUTE, |times|);
  }

  // ---- When sixty seconds see more than the limit ----

  // n calls at time t, then m calls at time u.
  function Burst(n: nat, t: nat, m: nat, u: nat): (r: seq<nat>)
    ensures |r| == n + m && forall i :: 0 <= i < n + m ==> r[i] == if i < n then t else u
  {
    seq(n + m, i => if i < n then t else u)
  }

  lemma {:induction false} BurstCalls(times: seq<nat>, n: nat, b: nat)
    requires forall i :: 0 <= i < |times| ==> (Bucket(times[i]) == b <==> i >= n)
    ensures Calls(times, b) == if |times| <= n then 0 else |times| - n
    decreases |times|
  {
    if times != [] {
      BurstCalls(times[..|times| - 1], n, b);
    }
  }

  // In two bursts of `limit` calls, each within one minute, every call passes.
  lemma {:induction false} BurstPasses(limit: nat, t: nat, u: nat, lo: nat, hi: nat, n: nat)
    requires t < u && Bucket(t) < Bucket(u) && lo <= t && u < hi && n <= 2 * limit
    ensures Passed(Burst(limit, t, limit, u), limit, lo, hi, n) == n
    decreases n
  {
    if n > 0 {
      BurstPasses(limit, t, u, lo, hi, n - 1);
      var times := Burst(limit, t, limit, u);
      AllowedExact(times, limit, n - 1);
      var seen := times[..n];
      if n <= limit {
        BurstCalls(seen, 0, Bucket(t));
      } else {
        BurstCalls(seen, limit, Bucket(u));
      }
    }
  }

  // A sixty-second window that is not a minute bucket sees twice the limit: the
  // last millisecond of one minute and the first of the next.
  lemma TwiceTheLimit(limit: nat, start: nat) returns (times: seq<nat>)
    requires start % 60_000 != 0
    ensures Ordered(times) && Passed(times, limit, start, start + 60_000, |times|) == 2 * limit
  {
    var u := (Bucket(start) + 1) * MINUTE;
    InBucket(start);
    InBucket(u);
    SameBucket(u - 1, Bucket(start));
    SameBucket(u, Bucket(start) + 1);
    times := Burst(limit, u - 1, limit, u);
    BurstPasses(limit, u - 1, u, start, start + MINUTE, 2 * limit);
  }

  // The promise of a sliding window holds exactly for the minute buckets
  // themselves, and when nothing is ever allowed.
  lemma SlidingIffBucket(limit: nat, start: nat)
    ensures (forall times :: Ordered(times) ==> Passed(times, limit, start, start + 60_000, |times|) <= limit)
       <==> start % 60_000 == 0 || limit == 0
  {
    if start % MINUTE != 0 && limit > 0 {
      var times := TwiceTheLimit(limit, start);
    } else {
      forall times | Ordered(times) ensures Passed(times, limit, start, start + MINUTE, |times|) <= limit {
        WindowBound(times, limit, start);
      }
    }
  }
}
