/**
 What the rate limiter guarantees over whole runs: a rate bound that holds in any order of times, and the delays, for
 times that do not decrease.
 */
module RateTheorems {
  import opened Prelude
  import opened RateLimiter

  // ----- arithmetic of refilling -----

  lemma RefillAdd(c: Config, a: int, b: int)
    requires c.window > 0
    ensures Refill(c, a + b) == Refill(c, a) + Refill(c, b)
  {
    var r, w := c.requests as real, c.window as real;
    assert (a + b) as real * r == a as real * r + b as real * r;
  }

  lemma RefillMonotone(c: Config, a: int, b: int)
    requires c.window > 0 && c.requests > 0 && a <= b
    ensures Refill(c, a) <= Refill(c, b)
    ensures a >= 0 ==> Refill(c, a) >= 0.0
  {
    var r, w := c.requests as real, c.window as real;
    assert a as real * r <= b as real * r;
  }

  lemma RefillWindow(c: Config)
    requires c.window > 0
    ensures Refill(c, c.window) == c.requests as real && Refill(c, 0) == 0.0
  {
  }

  /** The announced delay is the least whole number of nanoseconds that refills one token. */
  lemma DelayExact(c: Config, tokens: real, elapsed: int)
    requires c.window > 0 && c.requests > 0 && tokens < 1.0
    ensures tokens + Refill(c, elapsed) >= 1.0 <==> elapsed >= RetryAfter(c, tokens)
  {
    var wait := Wait(c, tokens);
    Proportion(elapsed as real, c.requests as real, c.window as real, 1.0 - tokens, Refill(c, elapsed), wait);
    WholeAbove(wait, elapsed);
  }

  lemma Proportion(e: real, r: real, w: real, need: real, gain: real, wait: real)
    requires r > 0.0 && w > 0.0 && need > 0.0 && gain == e * r / w && wait == need * w / r
    ensures gain >= need <==> e >= wait
    ensures wait > 0.0
  {
    Divide(e * r, need, w);
    Divide(need * w, e, r);
    ProductPositive(need, w);
    Divide(need * w, 0.0, r);
  }

  lemma ProductPositive(a: real, b: real)
    requires a > 0.0 && b > 0.0
    ensures a * b > 0.0
  {
  }

  lemma WholeAbove(x: real, n: int)
    requires x > 0.0
    ensures n as real >= x <==> n >= Max(Ceil(x), 1)
  {
  }

  lemma Divide(x: real, y: real, w: real)
    requires w > 0.0
    ensures x / w >= y <==> x >= y * w
    ensures x / w > y <==> x > y * w
  {
    var q := x / w;
    assert q * w == x;
    if q > y {
      assert q * w > y * w;
    } else if q < y {
      assert q * w < y * w;
    }
  }

  // ----- one bucket -----

  function Level(c: Config, b: Bucket, t: int): real
    requires c.window > 0
  {
    Filled(c, b, t).tokens
  }

  /** A stored bucket holds at least what its last use alone would have left it to refill. */
  predicate BucketSound(c: Config, b: Bucket)
    requires c.window > 0
  {
    && b.updated.Some? && b.seen.Some?
    && 0.0 <= b.tokens <= c.burst as real
    && b.tokens >= RealMin(c.burst as real, Refill(c, b.updated.value - b.seen.value))
  }

  /** A sound bucket whose times lie in order and not after `last`. */
  predicate BucketOk(c: Config, b: Bucket, last: int)
    requires c.window > 0
  {
    BucketSound(c, b) && b.seen.value <= b.updated.value <= last
  }

  predicate ZeroOrSound(c: Config, b: Bucket)
    requires c.window > 0
  {
    b == ZERO || BucketSound(c, b)
  }

  predicate ZeroOrOk(c: Config, b: Bucket, last: int)
    requires c.window > 0
  {
    b == ZERO || BucketOk(c, b, last)
  }

  lemma LevelBounds(c: Config, b: Bucket, t: int)
    requires Sound(c) && ZeroOrSound(c, b)
    ensures 0.0 <= Level(c, b, t) <= c.burst as real
  {
    if b != ZERO && b.updated.value <= t {
      RefillMonotone(c, 0, t - b.updated.value);
      RefillWindow(c);
    }
  }

  /** While times are in order, a level only grows by the refill, up to the burst. */
  lemma LevelLater(c: Config, b: Bucket, t1: int, t2: int)
    requires Sound(c) && ZeroOrOk(c, b, t1) && t1 <= t2
    ensures Level(c, b, t2) == RealMin(c.burst as real, Level(c, b, t1) + Refill(c, t2 - t1))
    ensures Refill(c, t2 - t1) >= 0.0
  {
    RefillWindow(c);
    RefillMonotone(c, 0, t2 - t1);
    if b != ZERO {
      RefillMonotone(c, 0, t1 - b.updated.value);
      RefillAdd(c, t1 - b.updated.value, t2 - t1);
    }
  }

  /** Between any two times, in either order, a level grows at most by the refill of the step forward. */
  lemma LevelMoves(c: Config, b: Bucket, t1: int, t2: int)
    requires Sound(c) && ZeroOrSound(c, b)
    ensures Level(c, b, t2) <= Level(c, b, t1) + Refill(c, Max(0, t2 - t1))
  {
    RefillWindow(c);
    RefillMonotone(c, 0, Max(0, t2 - t1));
    if b != ZERO {
      var u := b.updated.value;
      LevelBounds(c, b, t1);
      if u < t2 {
        if u < t1 {
          RefillAdd(c, t1 - u, t2 - t1);
          RefillMonotone(c, t2 - t1, Max(0, t2 - t1));
        } else {
          RefillMonotone(c, t2 - u, t2 - t1);
        }
      } else if u < t1 {
        RefillMonotone(c, 0, t1 - u);
      }
    }
  }

  /** Since its last use a bucket gained at least the refill of that span, whatever was denied meanwhile. */
  lemma LevelSinceSeen(c: Config, b: Bucket, t: int)
    requires Sound(c) && BucketSound(c, b)
    ensures Level(c, b, t) >= RealMin(c.burst as real, Refill(c, t - b.seen.value))
  {
    var u, v := b.updated.value - b.seen.value, t - b.updated.value;
    RefillWindow(c);
    if v > 0 {
      RefillMonotone(c, 0, v);
      RefillAdd(c, u, v);
    } else {
      RefillMonotone(c, t - b.seen.value, u);
    }
  }

  lemma StaleIsFull(c: Config, b: Bucket, t: int)
    requires Sound(c) && BucketSound(c, b) && Stale(c, b, t)
    ensures Level(c, b, t) == c.burst as real
  {
    LevelSinceSeen(c, b, t);
    LevelBounds(c, b, t);
    RefillMonotone(c, c.window, t - b.seen.value);
    RefillWindow(c);
  }

  lemma TakeSound(c: Config, b: Bucket, now: int)
    requires Sound(c) && ZeroOrSound(c, b)
    ensures BucketSound(c, Take(Filled(c, b, now), now))
  {
    LevelBounds(c, b, now);
    RefillWindow(c);
    if b != ZERO {
      LevelSinceSeen(c, b, now);
    }
  }

  lemma TakeOk(c: Config, b: Bucket, now: int)
    requires Sound(c) && ZeroOrOk(c, b, now)
    ensures BucketOk(c, Take(Filled(c, b, now), now), now)
  {
    TakeSound(c, b, now);
  }

  // ----- the whole limiter -----

  /** What holds of the limiter after any requests, in whatever order their times come. */
  predicate LimiterSound(l: Limiter) {
    && Sound(l.c)
    && (forall key :: key in l.buckets ==> BucketSound(l.c, l.buckets[key]))
    && ZeroOrSound(l.c, l.overflow)
    && |l.buckets| <= l.c.maxKeys
  }

  /** What holds besides while times do not decrease. */
  predicate LimiterOk(l: Limiter, last: int) {
    && Sound(l.c)
    && (forall key :: key in l.buckets ==> BucketOk(l.c, l.buckets[key], last))
    && ZeroOrOk(l.c, l.overflow, last)
    && |l.buckets| <= l.c.maxKeys
  }

  lemma OkIsSound(l: Limiter, last: int)
    requires LimiterOk(l, last)
    ensures LimiterSound(l)
  {
  }

  /** A key's private bucket, across deletions and re-creations, or the shared overflow bucket. */
  datatype Slot = Private(key: string) | Overflow

  function SlotOf(l: Limiter, r: Request): Slot {
    if Shared(l, r) then Overflow else Private(r.key)
  }

  function BucketAt(l: Limiter, slot: Slot): Bucket {
    match slot
    case Overflow => l.overflow
    case Private(key) => if key in l.buckets then l.buckets[key] else ZERO
  }

  function SlotLevel(l: Limiter, slot: Slot, t: int): real
    requires l.c.window > 0
  {
    Level(l.c, BucketAt(l, slot), t)
  }

  lemma CleanedSmaller(l: Limiter, now: int)
    ensures |Cleaned(l, now).buckets| <= |l.buckets|
  {
    assert Cleaned(l, now).buckets.Keys <= l.buckets.Keys;
    SubsetSize(Cleaned(l, now).buckets.Keys, l.buckets.Keys);
  }

  /** The table never grows beyond its bound. */
  lemma NextBounded(l: Limiter, r: Request)
    requires Sound(l.c) && |l.buckets| <= l.c.maxKeys
    ensures |Next(l, r).buckets| <= l.c.maxKeys
  {
    CleanedSmaller(l, r.now);
    var l' := Cleaned(l, r.now);
    if !Shared(l, r) && r.key !in l'.buckets {
      assert Next(l, r).buckets.Keys == l'.buckets.Keys + {r.key};
    } else if !Shared(l, r) {
      assert Next(l, r).buckets.Keys == l'.buckets.Keys;
    }
  }

  /** Forgetting a bucket does not change its level: it was full, and an absent bucket counts as full. */
  lemma CleanedLevel(l: Limiter, now: int, slot: Slot)
    requires LimiterSound(l)
    ensures SlotLevel(Cleaned(l, now), slot, now) == SlotLevel(l, slot, now)
  {
    if slot.Private? && slot.key in l.buckets && Stale(l.c, l.buckets[slot.key], now) {
      StaleIsFull(l.c, l.buckets[slot.key], now);
    }
  }

  lemma NextSound(l: Limiter, r: Request)
    requires LimiterSound(l)
    ensures LimiterSound(Next(l, r))
  {
    NextBounded(l, r);
    TakeSound(l.c, BucketFor(l, r), r.now);
  }

  lemma NextOk(l: Limiter, r: Request)
    requires LimiterOk(l, r.now)
    ensures LimiterOk(Next(l, r), r.now)
  {
    NextBounded(l, r);
    TakeOk(l.c, BucketFor(l, r), r.now);
  }

  /** The answer depends only on the level of the slot that serves the request. */
  lemma AnswerFromLevel(l: Limiter, r: Request)
    requires LimiterSound(l)
    ensures var level := SlotLevel(l, SlotOf(l, r), r.now);
            Answer(l, r) == if level >= 1.0 then Decision(true, 0) else Decision(false, RetryAfter(l.c, level))
  {
    CleanedLevel(l, r.now, SlotOf(l, r));
  }

  function Cost(l: Limiter, r: Request, slot: Slot): real
    requires Positive(l.c)
  {
    if SlotOf(l, r) == slot && Answer(l, r).allowed then 1.0 else 0.0
  }

  lemma LevelAfterTake(c: Config, filled: Bucket, now: int)
    requires c.window > 0 && filled.updated == Some(now)
    ensures Level(c, Take(filled, now), now) == filled.tokens - if filled.tokens >= 1.0 then 1.0 else 0.0
  {
  }

  /** A request lowers the level of its own slot by one token if it is allowed, and no other level. */
  lemma NextLevel(l: Limiter, r: Request, slot: Slot)
    requires LimiterSound(l)
    ensures SlotLevel(Next(l, r), slot, r.now) == SlotLevel(l, slot, r.now) - Cost(l, r, slot)
  {
    CleanedLevel(l, r.now, slot);
    if SlotOf(l, r) == slot {
      LevelAfterTake(l.c, Filled(l.c, BucketFor(l, r), r.now), r.now);
    }
  }

  lemma OkAt(l: Limiter, t1: int, t2: int)
    requires LimiterOk(l, t1) && t1 <= t2
    ensures LimiterOk(l, t2)
  {
  }

  lemma SlotLater(l: Limiter, slot: Slot, t1: int, t2: int)
    requires LimiterOk(l, t1) && t1 <= t2
    ensures SlotLevel(l, slot, t2) == RealMin(l.c.burst as real, SlotLevel(l, slot, t1) + Refill(l.c, t2 - t1))
    ensures 0.0 <= SlotLevel(l, slot, t1) <= l.c.burst as real && Refill(l.c, t2 - t1) >= 0.0
  {
    LevelLater(l.c, BucketAt(l, slot), t1, t2);
    LevelBounds(l.c, BucketAt(l, slot), t1);
  }

  // ----- runs -----

  /** Times do not decrease and stay within [from, to]. */
  predicate Within(rs: seq<Request>, from: int, to: int) {
    from <= to && (rs != [] ==> from <= rs[0].now && Within(rs[1..], rs[0].now, to))
  }

  function After(l: Limiter, rs: seq<Request>): (l': Limiter)
    requires Positive(l.c)
    ensures l'.c == l.c
    decreases |rs|
  {
    if rs == [] then l else After(Next(l, rs[0]), rs[1..])
  }

  lemma {:induction false} AfterAppend(l: Limiter, a: seq<Request>, b: seq<Request>)
    requires Positive(l.c)
    ensures After(l, a + b) == After(After(l, a), b)
    decreases |a|
  {
    if a == [] {
      assert a + b == b;
    } else {
      assert (a + b)[0] == a[0] && (a + b)[1..] == a[1..] + b;
      AfterAppend(Next(l, a[0]), a[1..], b);
    }
  }

  function Accepted(l: Limiter, rs: seq<Request>, slot: Slot): real
    requires Positive(l.c)
    decreases |rs|
  {
    if rs == [] then 0.0 else Cost(l, rs[0], slot) + Accepted(Next(l, rs[0]), rs[1..], slot)
  }

  lemma {:induction false} RunSound(l: Limiter, rs: seq<Request>)
    requires LimiterSound(l)
    ensures LimiterSound(After(l, rs))
    decreases |rs|
  {
    if rs != [] {
      NextSound(l, rs[0]);
      RunSound(Next(l, rs[0]), rs[1..]);
    }
  }

  lemma {:induction false} RunOk(l: Limiter, rs: seq<Request>, from: int, to: int)
    requires LimiterOk(l, from) && Within(rs, from, to)
    ensures LimiterOk(After(l, rs), to)
    decreases |rs|
  {
    if rs == [] {
      OkAt(l, from, to);
    } else {
      OkAt(l, from, rs[0].now);
      NextOk(l, rs[0]);
      RunOk(Next(l, rs[0]), rs[1..], rs[0].now, to);
    }
  }

  // ----- the rate bound -----

  /** All steps forward in time that a run takes, starting at `from`. */
  function Rises(from: int, rs: seq<Request>): nat
    decreases |rs|
  {
    if rs == [] then 0 else Max(0, rs[0].now - from) + Rises(rs[0].now, rs[1..])
  }

  lemma {:induction false} RisesWithin(from: int, rs: seq<Request>, to: int)
    requires Within(rs, from, to)
    ensures Rises(from, rs) <= to - from
    decreases |rs|
  {
    if rs != [] {
      RisesWithin(rs[0].now, rs[1..], to);
    }
  }

  /** What was spent is covered by a level and the refill of some time. */
  predicate Covered(c: Config, spent: real, level: real, elapsed: int)
    requires c.window > 0
  {
    spent <= level + Refill(c, elapsed)
  }

  /** One request pays for itself out of the level of its slot and the refill of the step to its time. */
  lemma StepWithinLevel(l: Limiter, r: Request, slot: Slot, from: int)
    requires LimiterSound(l)
    ensures LimiterSound(Next(l, r)) && Next(l, r).c == l.c
    ensures Covered(l.c, Cost(l, r, slot) + SlotLevel(Next(l, r), slot, r.now), SlotLevel(l, slot, from),
        Max(0, r.now - from))
  {
    NextSound(l, r);
    NextLevel(l, r, slot);
    LevelMoves(l.c, BucketAt(l, slot), from, r.now);
  }

  lemma NoneWithinLevel(l: Limiter, slot: Slot, from: int)
    requires LimiterSound(l)
    ensures Covered(l.c, 0.0, SlotLevel(l, slot, from), 0)
  {
    LevelBounds(l.c, BucketAt(l, slot), from);
    RefillWindow(l.c);
  }

  lemma CoveredTwice(c: Config, cost: real, rest: real, level: real, left: real, d1: int, d2: int)
    requires Sound(c) && Covered(c, cost + left, level, d1) && Covered(c, rest, left, d2)
    ensures Covered(c, cost + rest, level, d1 + d2)
  {
    RefillAdd(c, d1, d2);
  }

  lemma {:induction false} AcceptedWithinLevel(l: Limiter, rs: seq<Request>, slot: Slot, from: int)
    requires LimiterSound(l)
    ensures Covered(l.c, Accepted(l, rs, slot), SlotLevel(l, slot, from), Rises(from, rs))
    decreases |rs|
  {
    if rs == [] {
      NoneWithinLevel(l, slot, from);
    } else {
      var l', t := Next(l, rs[0]), rs[0].now;
      StepWithinLevel(l, rs[0], slot, from);
      AcceptedWithinLevel(l', rs[1..], slot, t);
      AcceptedCons(l, rs, slot, SlotLevel(l, slot, from), SlotLevel(l', slot, t), from);
    }
  }

  lemma AcceptedCons(l: Limiter, rs: seq<Request>, slot: Slot, level: real, left: real, from: int)
    requires Sound(l.c) && rs != []
    requires Covered(l.c, Cost(l, rs[0], slot) + left, level, Max(0, rs[0].now - from))
    requires Covered(l.c, Accepted(Next(l, rs[0]), rs[1..], slot), left, Rises(rs[0].now, rs[1..]))
    ensures Covered(l.c, Accepted(l, rs, slot), level, Rises(from, rs))
  {
    CoveredTwice(l.c, Cost(l, rs[0], slot), Accepted(Next(l, rs[0]), rs[1..], slot), level, left,
                 Max(0, rs[0].now - from), Rises(rs[0].now, rs[1..]));
  }

  function Fresh(c: Config): Limiter {
    Limiter(c, map[], ZERO, None)
  }

  /** The steps forward between the requests of a run. */
  function StepsForward(rs: seq<Request>): nat {
    if rs == [] then 0 else Rises(rs[0].now, rs[1..])
  }

  lemma RisesFromFirst(rs: seq<Request>)
    ensures StepsForward(rs) == Rises(if rs == [] then 0 else rs[0].now, rs)
  {
  }

  /**
   Rate bound, in whatever order times come.  At any point of any run, and for any one bucket, the requests
   accepted from there on number at most burst + requests * (the sum of the steps forward in time) / window;
   tokens stay within the burst and the table within MaxKeys.
   */
  lemma RateBoundAnyOrder(c: Config, before: seq<Request>, run: seq<Request>, slot: Slot, t: int)
    requires Sound(c)
    ensures Accepted(After(Fresh(c), before), run, slot) <= c.burst as real + Refill(c, StepsForward(run))
    ensures |After(Fresh(c), before).buckets| <= c.maxKeys
    ensures 0.0 <= SlotLevel(After(Fresh(c), before), slot, t) <= c.burst as real
  {
    RunSound(Fresh(c), before);
    var l, from := After(Fresh(c), before), if run == [] then 0 else run[0].now;
    AcceptedWithinLevel(l, run, slot, from);
    RisesFromFirst(run);
    LevelBounds(c, BucketAt(l, slot), from);
    LevelBounds(c, BucketAt(l, slot), t);
  }

  /**
   Rate bound.  In any run, and for any one bucket, the requests accepted in [t1, t2] number at most
   burst + requests * (t2 - t1) / window; the table never exceeds MaxKeys.
   */
  lemma RateBound(c: Config, before: seq<Request>, within: seq<Request>, slot: Slot, t1: int, t2: int)
    requires Sound(c) && Within(within, t1, t2)
    ensures Accepted(After(Fresh(c), before), within, slot) <= c.burst as real + Refill(c, t2 - t1)
    ensures |After(Fresh(c), before).buckets| <= c.maxKeys
    ensures 0.0 <= SlotLevel(After(Fresh(c), before), slot, t1) <= c.burst as real
  {
    RateBoundAnyOrder(c, before, within, slot, t1);
    StepsWithin(within, t1, t2);
    RefillMonotone(c, StepsForward(within), t2 - t1);
  }

  lemma StepsWithin(rs: seq<Request>, from: int, to: int)
    requires Within(rs, from, to)
    ensures StepsForward(rs) <= to - from
  {
    if rs != [] {
      RisesWithin(rs[0].now, rs[1..], to);
    }
  }

  // ----- the announced delay -----

  predicate NoneFor(rs: seq<Request>, key: string) {
    forall i :: 0 <= i < |rs| ==> rs[i].key != key
  }

  /** A level that only gained the refill of some time. */
  predicate Grown(c: Config, before: real, after: real, elapsed: int)
    requires c.window > 0
  {
    after == RealMin(c.burst as real, before + Refill(c, elapsed))
  }

  /** A request of another key only lets time pass for this one. */
  lemma OtherLevelStays(l: Limiter, r: Request, key: string)
    requires LimiterOk(l, r.now) && r.key != key
    ensures LimiterOk(Next(l, r), r.now) && Next(l, r).c == l.c
    ensures SlotLevel(Next(l, r), Private(key), r.now) == SlotLevel(l, Private(key), r.now)
  {
    NextOk(l, r);
    OkIsSound(l, r.now);
    NextLevel(l, r, Private(key));
  }

  lemma OtherKeepsLevel(l: Limiter, r: Request, key: string, from: int)
    requires LimiterOk(l, from) && from <= r.now && r.key != key
    ensures LimiterOk(Next(l, r), r.now) && Next(l, r).c == l.c
    ensures Grown(l.c, SlotLevel(l, Private(key), from), SlotLevel(Next(l, r), Private(key), r.now), r.now - from)
  {
    OkAt(l, from, r.now);
    OtherLevelStays(l, r, key);
    SlotLater(l, Private(key), from, r.now);
  }

  lemma GrownTwice(c: Config, level: real, between: real, end: real, t0: int, t1: int, t2: int)
    requires Sound(c) && t1 <= t2 && Grown(c, level, between, t1 - t0) && Grown(c, between, end, t2 - t1)
    ensures Grown(c, level, end, t2 - t0)
  {
    assert (t1 - t0) + (t2 - t1) == t2 - t0;
    RefillAdd(c, t1 - t0, t2 - t1);
    RefillMonotone(c, 0, t2 - t1);
    RefillWindow(c);
  }

  lemma {:induction false} OthersKeepLevel(l: Limiter, rs: seq<Request>, key: string, from: int, to: int)
    requires LimiterOk(l, from) && Within(rs, from, to) && NoneFor(rs, key)
    ensures Grown(l.c, SlotLevel(l, Private(key), from), SlotLevel(After(l, rs), Private(key), to), to - from)
    decreases |rs|
  {
    if rs == [] {
      SlotLater(l, Private(key), from, to);
    } else {
      var l', t := Next(l, rs[0]), rs[0].now;
      OtherKeepsLevel(l, rs[0], key, from);
      OthersKeepLevel(l', rs[1..], key, t, to);
      GrownTwice(l.c, SlotLevel(l, Private(key), from), SlotLevel(l', Private(key), t),
                 SlotLevel(After(l', rs[1..]), Private(key), to), from, t, to);
    }
  }

  /** Once a denied key's level has only grown by the refill since, the announced delay decides. */
  lemma AllowedAfterDelay(l: Limiter, r: Request, end: Limiter, again: Request)
    requires LimiterOk(l, r.now) && !Shared(l, r) && !Answer(l, r).allowed
    requires LimiterOk(end, again.now) && end.c == l.c && again.key == r.key && !Shared(end, again)
    requires Grown(l.c, SlotLevel(l, Private(r.key), r.now), SlotLevel(end, Private(r.key), again.now),
        again.now - r.now)
    ensures Answer(end, again).allowed <==> again.now - r.now >= Answer(l, r).retryAfter
  {
    OkIsSound(l, r.now);
    OkIsSound(end, again.now);
    AnswerFromLevel(l, r);
    AnswerFromLevel(end, again);
    DelayExact(l.c, SlotLevel(l, Private(r.key), r.now), again.now - r.now);
  }

  /** A denied request takes nothing from its slot. */
  lemma DeniedKeepsLevel(l: Limiter, r: Request)
    requires LimiterOk(l, r.now) && !Shared(l, r) && !Answer(l, r).allowed
    ensures LimiterOk(Next(l, r), r.now) && Next(l, r).c == l.c
    ensures SlotLevel(Next(l, r), Private(r.key), r.now) == SlotLevel(l, Private(r.key), r.now)
  {
    NextOk(l, r);
    OkIsSound(l, r.now);
    NextLevel(l, r, Private(r.key));
  }

  /**
   The delay is exact.  After a denial on a private bucket, and whatever other keys ask meanwhile, the
   next request of the key is allowed if and only if at least the announced delay has passed, provided
   it is again served from its private bucket.
   */
  lemma RetryDelayExact(l: Limiter, r: Request, others: seq<Request>, again: Request)
    requires LimiterOk(l, r.now) && !Shared(l, r) && !Answer(l, r).allowed
    requires Within(others, r.now, again.now) && NoneFor(others, r.key) && again.key == r.key
    requires !Shared(After(Next(l, r), others), again)
    ensures Answer(After(Next(l, r), others), again).allowed <==> again.now - r.now >= Answer(l, r).retryAfter
  {
    DeniedKeepsLevel(l, r);
    OthersKeepLevel(Next(l, r), others, r.key, r.now, again.now);
    RunOk(Next(l, r), others, r.now, again.now);
    AllowedAfterDelay(l, r, After(Next(l, r), others), again);
  }

  /** With no request in between the key keeps a bucket of its own, so the delay is exact without proviso. */
  lemma RetryDelayExactNext(l: Limiter, r: Request, again: Request)
    requires LimiterOk(l, r.now) && !Shared(l, r) && !Answer(l, r).allowed
    requires again.key == r.key && r.now <= again.now
    ensures Answer(Next(l, r), again).allowed <==> again.now - r.now >= Answer(l, r).retryAfter
    ensures again.now - r.now >= RetryAfterSeconds(Answer(l, r).retryAfter) * SECOND ==>
        Answer(Next(l, r), again).allowed
  {
    NextOk(l, r);
    assert !Shared(Next(l, r), again) by {
      var l1 := Next(l, r);
      assert r.key in l1.buckets;
      var l2 := Cleaned(l1, again.now);
      if r.key !in l2.buckets {
        assert l2.buckets.Keys <= l1.buckets.Keys - {r.key};
        SubsetSize(l2.buckets.Keys, l1.buckets.Keys - {r.key});
      }
    }
    RetryDelayExact(l, r, [], again);
  }

  /** On the overflow bucket waiting the delay suffices: the request is served there again or from a fresh bucket. */
  lemma OverflowDelaySuffices(l: Limiter, r: Request, again: Request)
    requires LimiterOk(l, r.now) && Shared(l, r) && !Answer(l, r).allowed
    requires again.key == r.key && again.now - r.now >= Answer(l, r).retryAfter
    ensures Answer(Next(l, r), again).allowed
  {
    var l1 := Next(l, r);
    OkIsSound(l, r.now);
    AnswerFromLevel(l, r);
    NextOk(l, r);
    NextLevel(l, r, Overflow);
    DelayExact(l.c, SlotLevel(l, Overflow, r.now), again.now - r.now);
    OkAt(l1, r.now, again.now);
    SlotLater(l1, Overflow, r.now, again.now);
    OkIsSound(l1, again.now);
    AnswerFromLevel(l1, again);
    assert r.key !in l1.buckets;
  }
}
