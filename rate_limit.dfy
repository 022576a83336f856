/** The in-memory sliding-window rate limiter: for each key, the times of
    the recent hits. A check first forgets the hits that left the window,
    then either refuses (recording nothing) or records the new hit. */
module RateLimit {
  import opened Text

  datatype RateLimitResult = RateLimitResult(allowed: bool, remaining: int, retryAfterSeconds: int)

  /** `pruneExpired`: the hits newer than `now - windowMs`, in order. */
  function PruneExpired(hits: seq<int>, now: int, windowMs: int): (r: seq<int>)
    ensures IsSubsequence(r, hits)
    ensures forall t :: t in r <==> t in hits && t > now - windowMs
    ensures forall t :: multiset(r)[t] == if t > now - windowMs then multiset(hits)[t] else 0
  {
    var recent := Newer(now - windowMs);
    FilterIsSubsequence(hits, recent);
    FilterCounts(hits, recent);
    Filter(hits, recent)
  }

  /** The test a remembered hit must pass to stay. */
  function Newer(lowerBound: int): int -> bool {
    (t: int) => t > lowerBound
  }

  /** `Math.min(...s)` for a non-empty list. */
  function Min(s: seq<int>): (m: int)
    requires s != []
    ensures m in s && forall t | t in s :: m <= t
    decreases |s|
  {
    if |s| == 1 then s[0]
    else
      var rest := Min(s[1..]);
      assert forall t | t in s :: t == s[0] || t in s[1..];
      if s[0] <= rest then s[0] else rest
  }

  /** `Math.ceil(ms / 1000)` for a non-negative number of milliseconds. */
  function CeilSeconds(ms: nat): (r: nat)
    ensures r * 1000 >= ms && (r - 1) * 1000 < ms
  {
    (ms + 999) / 1000
  }

  /** What one check decides, given the key's stored hits: the result and
      the hits stored afterwards. */
  function Decide(hits: seq<int>, limit: int, windowMs: int, now: int): (d: (RateLimitResult, seq<int>))
    requires limit >= 1
    ensures var pruned := PruneExpired(hits, now, windowMs);
      && (d.0.allowed <==> |pruned| < limit)
      && (d.0.allowed ==> d.1 == pruned + [now] && |d.1| <= limit
                          && d.0.remaining == limit - |d.1| && d.0.retryAfterSeconds == 0)
      && (!d.0.allowed ==> d.1 == pruned && d.0.remaining == 0 && d.0.retryAfterSeconds >= 1)
  {
    var pruned := PruneExpired(hits, now, windowMs);
    if |pruned| >= limit then
      var oldest := Min(pruned);
      var retryAfterMs := if oldest + windowMs - now > 0 then oldest + windowMs - now else 0;
      (RateLimitResult(false, 0, CeilSeconds(retryAfterMs)), pruned)
    else
      var recorded := pruned + [now];
      (RateLimitResult(true, if limit - |recorded| > 0 then limit - |recorded| else 0, 0), recorded)
  }

  /** On refusal, the wait is the time until the oldest remembered hit
      leaves the window, rounded up to whole seconds. */
  lemma RetryAfterIsWaitForOldest(hits: seq<int>, limit: int, windowMs: int, now: int)
    requires limit >= 1
    requires !Decide(hits, limit, windowMs, now).0.allowed
    ensures var pruned := PruneExpired(hits, now, windowMs);
      var wait := Min(pruned) + windowMs - now;
      var s := Decide(hits, limit, windowMs, now).0.retryAfterSeconds;
      wait > 0 && s * 1000 >= wait && (s - 1) * 1000 < wait
  {
  }

  class RateLimiter {
    /** The module-level `bucket` map: each key's hit times. */
    var bucket: map<string, seq<int>>

    constructor ()
      ensures bucket == map[]
    {
      bucket := map[];
    }

    /** The hits stored for a key; a key never seen has none. */
    function Hits(key: string): seq<int>
      reads this
    {
      if key in bucket then bucket[key] else []
    }

    /** `checkRateLimit`: prunes the key's hits, then refuses when `limit`
        remain, or records `now`; only this key's entry changes. */
    method CheckRateLimit(key: string, limit: int, windowMs: int, now: int) returns (result: RateLimitResult)
      requires limit >= 1
      modifies this
      ensures key in bucket && (result, bucket[key]) == Decide(old(Hits(key)), limit, windowMs, now)
      ensures bucket == old(bucket)[key := Decide(old(Hits(key)), limit, windowMs, now).1]
      ensures forall k | k != key :: Hits(k) == old(Hits(k))
    {
      var hits := if key in bucket then bucket[key] else [];
      hits := PruneExpired(hits, now, windowMs);
      if |hits| >= limit {
        var oldest := Min(hits);
        var retryAfterMs := if oldest + windowMs - now > 0 then oldest + windowMs - now else 0;
        bucket := bucket[key := hits];
        result := RateLimitResult(false, 0, CeilSeconds(retryAfterMs));
        return;
      }
      hits := hits + [now];
      bucket := bucket[key := hits];
      result := RateLimitResult(true, if limit - |hits| > 0 then limit - |hits| else 0, 0);
    }

    /** `clearRateLimitBucket`: forgets every key. */
    method Clear()
      modifies this
      ensures bucket == map[]
      ensures forall k :: Hits(k) == []
    {
      bucket := map[];
    }
  }

  /** Three hits at once with a limit of three per second: the third uses
      the last slot, a fourth half a second later is told to wait a
      second, and once the first hits have left the window a new one is
      let through. */
  method BurstThenRecover() returns (results: seq<RateLimitResult>)
    ensures results == [
      RateLimitResult(true, 2, 0), RateLimitResult(true, 1, 0), RateLimitResult(true, 0, 0),
      RateLimitResult(false, 0, 1), RateLimitResult(true, 2, 0)]
  {
    var limiter := new RateLimiter();
    FirstHit();
    var r1 := limiter.CheckRateLimit("client", 3, 1000, 0);
    SecondHit();
    var r2 := limiter.CheckRateLimit("client", 3, 1000, 0);
    ThirdHit();
    var r3 := limiter.CheckRateLimit("client", 3, 1000, 0);
    RefusedHit();
    var r4 := limiter.CheckRateLimit("client", 3, 1000, 500);
    HitAfterWindow();
    var r5 := limiter.CheckRateLimit("client", 3, 1000, 1001);
    results := [r1, r2, r3, r4, r5];
  }

  lemma FirstHit()
    ensures Decide([], 3, 1000, 0) == (RateLimitResult(true, 2, 0), [0])
  {
    assert PruneExpired([], 0, 1000) == [];
    var d := Decide([], 3, 1000, 0);
    assert d.1 == [0];
    assert d.0 == RateLimitResult(true, 2, 0);
  }

  lemma SecondHit()
    ensures Decide([0], 3, 1000, 0) == (RateLimitResult(true, 1, 0), [0, 0])
  {
    PruneKeepsRecent([0], 0, 1000);
    var d := Decide([0], 3, 1000, 0);
    assert d.1 == [0, 0];
    assert d.0 == RateLimitResult(true, 1, 0);
  }

  lemma ThirdHit()
    ensures Decide([0, 0], 3, 1000, 0) == (RateLimitResult(true, 0, 0), [0, 0, 0])
  {
    PruneKeepsRecent([0, 0], 0, 1000);
    var d := Decide([0, 0], 3, 1000, 0);
    assert d.1 == [0, 0, 0];
    assert d.0 == RateLimitResult(true, 0, 0);
  }

  lemma RefusedHit()
    ensures Decide([0, 0, 0], 3, 1000, 500) == (RateLimitResult(false, 0, 1), [0, 0, 0])
  {
    PruneKeepsRecent([0, 0, 0], 500, 1000);
    assert Min([0, 0, 0]) == 0;
    var d := Decide([0, 0, 0], 3, 1000, 500);
    assert d.1 == [0, 0, 0];
    assert d.0 == RateLimitResult(false, 0, 1);
  }

  lemma HitAfterWindow()
    ensures Decide([0, 0, 0], 3, 1000, 1001) == (RateLimitResult(true, 2, 0), [1001])
  {
    PruneDropsOld([0, 0, 0], 1001, 1000);
    var d := Decide([0, 0, 0], 3, 1000, 1001);
    assert d.1 == [1001];
    assert d.0 == RateLimitResult(true, 2, 0);
  }

  lemma PruneKeepsRecent(hits: seq<int>, now: int, windowMs: int)
    requires forall i | 0 <= i < |hits| :: hits[i] > now - windowMs
    ensures PruneExpired(hits, now, windowMs) == hits
  {
    FilterKeepsAll(hits, Newer(now - windowMs));
  }

  lemma PruneDropsOld(hits: seq<int>, now: int, windowMs: int)
    requires forall i | 0 <= i < |hits| :: hits[i] <= now - windowMs
    ensures PruneExpired(hits, now, windowMs) == []
  {
    var r := PruneExpired(hits, now, windowMs);
    assert forall t :: t !in r;
    assert multiset(r) == multiset{};
  }
}
