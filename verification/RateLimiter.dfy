/**
 The token-bucket rate limiter (middleware/rate_limit.go): its state as a value, one request as a
 function on that value, and the class whose methods change it in place.  Tokens are reals, times are
 whole nanoseconds.
 */
module RateLimiter {
  import opened Prelude

  datatype Config = Config(requests: int, window: int, burst: int, maxKeys: int)

  const DEFAULT_MAX_KEYS := 10_000

  /** The rules of newRateLimiter; `Burst <= Requests` is the one that makes forgetting safe. */
  function Normalize(c: Config): (r: Option<Config>)
    ensures r.Some? <==> c.requests > 0 && c.window > 0 && 0 <= c.burst <= c.requests && 0 <= c.maxKeys
    ensures r.Some? ==> Sound(r.value) && r.value.requests == c.requests && r.value.window == c.window
  {
    if c.requests <= 0 then None
    else if c.window <= 0 then None
    else if c.burst < 0 then None
    else
      var burst := if c.burst == 0 then c.requests else c.burst;
      if burst > c.requests then None
      else if c.maxKeys < 0 then None
      else Some(Config(c.requests, c.window, burst, if c.maxKeys == 0 then DEFAULT_MAX_KEYS else c.maxKeys))
  }

  predicate Positive(c: Config) {
    c.requests > 0 && c.window > 0
  }

  predicate Sound(c: Config) {
    Positive(c) && 1 <= c.burst <= c.requests && c.maxKeys >= 1
  }

  /** `updated` and `seen` are absent in the zero bucket. */
  datatype Bucket = Bucket(tokens: real, updated: Option<int>, seen: Option<int>)

  const ZERO := Bucket(0.0, None, None)

  datatype Limiter = Limiter(c: Config, buckets: map<string, Bucket>, overflow: Bucket, nextCleanup: Option<int>)

  datatype Decision = Decision(allowed: bool, retryAfter: int)

  datatype Request = Request(key: string, now: int)

  function RealMin(a: real, b: real): real {
    if a <= b then a else b
  }

  function Ceil(x: real): (n: int)
    ensures x <= n as real < x + 1.0
  {
    -((-x).Floor)
  }

  /** Tokens gained over a span of time. */
  function Refill(c: Config, elapsed: int): real
    requires c.window > 0
  {
    elapsed as real * c.requests as real / c.window as real
  }

  function Initialized(c: Config, b: Bucket, now: int): Bucket {
    if b.updated.None? then Bucket(c.burst as real, Some(now), None) else b
  }

  /** What a request at `now` finds in the bucket, before it takes a token. */
  function Filled(c: Config, b: Bucket, now: int): Bucket
    requires c.window > 0
  {
    var b' := Initialized(c, b, now);
    var elapsed := now - b'.updated.value;
    var tokens := if elapsed > 0 then RealMin(c.burst as real, b'.tokens + Refill(c, elapsed)) else b'.tokens;
    b'.(tokens := tokens, updated := Some(now))
  }

  function Take(b: Bucket, now: int): Bucket {
    if b.tokens >= 1.0 then b.(tokens := b.tokens - 1.0, seen := Some(now)) else b
  }

  /** The time, not rounded, in which the missing part of a token is refilled. */
  function Wait(c: Config, tokens: real): real
    requires c.requests > 0
  {
    (1.0 - tokens) * c.window as real / c.requests as real
  }

  function RetryAfter(c: Config, tokens: real): int
    requires c.requests > 0
  {
    Max(Ceil(Wait(c, tokens)), 1)
  }

  function Decide(c: Config, filled: Bucket): Decision
    requires c.requests > 0
  {
    if filled.tokens >= 1.0 then Decision(true, 0) else Decision(false, RetryAfter(c, filled.tokens))
  }

  /** A bucket last used a window ago is forgotten; the zero time counts as infinitely long ago. */
  predicate Stale(c: Config, b: Bucket, now: int) {
    b.seen.None? || now - b.seen.value >= c.window
  }

  predicate CleanupDue(l: Limiter, now: int) {
    l.nextCleanup.Some? && now >= l.nextCleanup.value
  }

  function Kept(c: Config, buckets: map<string, Bucket>, now: int): map<string, Bucket> {
    map key | key in buckets && !Stale(c, buckets[key], now) :: buckets[key]
  }

  function Cleaned(l: Limiter, now: int): Limiter {
    if l.nextCleanup.None? then l.(nextCleanup := Some(now + l.c.window))
    else if !CleanupDue(l, now) then l
    else l.(buckets := Kept(l.c, l.buckets, now), nextCleanup := Some(now + l.c.window))
  }

  /** The request is served from the overflow bucket. */
  predicate Shared(l: Limiter, r: Request) {
    var l' := Cleaned(l, r.now);
    r.key !in l'.buckets && |l'.buckets| >= l.c.maxKeys
  }

  function BucketFor(l: Limiter, r: Request): Bucket {
    var l' := Cleaned(l, r.now);
    if Shared(l, r) then l.overflow
    else if r.key in l'.buckets then l'.buckets[r.key]
    else ZERO
  }

  function Answer(l: Limiter, r: Request): Decision
    requires Positive(l.c)
  {
    Decide(l.c, Filled(l.c, BucketFor(l, r), r.now))
  }

  function Next(l: Limiter, r: Request): Limiter
    requires Positive(l.c)
  {
    var l' := Cleaned(l, r.now);
    var b := Take(Filled(l.c, BucketFor(l, r), r.now), r.now);
    if Shared(l, r) then l'.(overflow := b) else l'.(buckets := l'.buckets[r.key := b])
  }

  const SECOND := 1_000_000_000

  function RetryAfterSeconds(duration: int): (seconds: int)
    ensures seconds >= 1 && seconds * SECOND >= duration
    ensures seconds == 1 || (seconds - 1) * SECOND < duration
  {
    Max(Ceil(duration as real / SECOND as real), 1)
  }

  class TokenBuckets {
    const c: Config
    var buckets: map<string, Bucket>
    var overflow: Bucket
    var nextCleanup: Option<int>

    function View(): Limiter
      reads this
    {
      Limiter(c, buckets, overflow, nextCleanup)
    }

    constructor (c: Config)
      requires Sound(c)
      ensures View() == Limiter(c, map[], ZERO, None)
    {
      this.c, buckets, overflow, nextCleanup := c, map[], ZERO, None;
    }

    method Cleanup(now: int)
      modifies this
      ensures View() == Cleaned(old(View()), now)
    {
      if nextCleanup.None? {
        nextCleanup := Some(now + c.window);
        return;
      }
      if now < nextCleanup.value {
        return;
      }
      var left := buckets.Keys;
      while left != {}
        invariant left <= old(buckets).Keys
        invariant left <= buckets.Keys <= old(buckets).Keys
        invariant forall key :: key in old(buckets) ==>
                    (key in buckets <==> key in left || !Stale(c, old(buckets)[key], now))
        invariant forall key :: key in buckets ==> buckets[key] == old(buckets)[key]
        invariant overflow == old(overflow) && nextCleanup == old(nextCleanup)
        decreases left
      {
        var key :| key in left;
        left := left - {key};
        if buckets[key].seen.None? || now - buckets[key].seen.value >= c.window {
          buckets := buckets - {key};
        }
      }
      nextCleanup := Some(now + c.window);
      assert buckets == Kept(c, old(buckets), now);
    }

    method Allow(key: string, now: int) returns (allowed: bool, retryAfter: int)
      requires Sound(c)
      modifies this
      ensures Decision(allowed, retryAfter) == Answer(old(View()), Request(key, now))
      ensures View() == Next(old(View()), Request(key, now))
    {
      Cleanup(now);
      var known := key in buckets;
      var shared := !known && |buckets| >= c.maxKeys;
      var bucket := if known then buckets[key] else ZERO;
      if shared {
        bucket := overflow;
      }
      if bucket.updated.None? {
        bucket := Bucket(c.burst as real, Some(now), None);
      }
      var elapsed := now - bucket.updated.value;
      if elapsed > 0 {
        bucket := bucket.(tokens := RealMin(c.burst as real, bucket.tokens + Refill(c, elapsed)));
      }
      bucket := bucket.(updated := Some(now));
      ghost var filled := bucket;
      assert filled == Filled(c, BucketFor(old(View()), Request(key, now)), now);
      assert Answer(old(View()), Request(key, now)) == Decide(c, filled);
      allowed := bucket.tokens >= 1.0;
      if allowed {
        bucket := bucket.(tokens := bucket.tokens - 1.0, seen := Some(now));
      }
      assert bucket == Take(Filled(c, BucketFor(old(View()), Request(key, now)), now), now);
      if shared {
        overflow := bucket;
      } else {
        buckets := buckets[key := bucket];
      }
      if allowed {
        return true, 0;
      }
      retryAfter := RetryAfter(c, bucket.tokens);
    }
  }
}
