/** Deleting idle buckets changes no answer, and the rule Burst <= Requests is exactly what makes it so. */
module RateForgetting {
  import opened Prelude
  import opened RateLimiter
  import opened RateTheorems

  // ----- the limiter that never forgets -----

  /** A limiter that never deletes a bucket; which requests share the overflow bucket is told to it. */
  datatype Memory = Memory(buckets: map<string, Bucket>, overflow: Bucket)

  function Remembered(m: Memory, key: string, shared: bool): Bucket {
    if shared then m.overflow else if key in m.buckets then m.buckets[key] else ZERO
  }

  function MemoryNext(c: Config, m: Memory, r: Request, shared: bool): Memory
    requires Positive(c)
  {
    var b := Take(Filled(c, Remembered(m, r.key, shared), r.now), r.now);
    if shared then m.(overflow := b) else m.(buckets := m.buckets[r.key := b])
  }

  function MemoryAnswers(c: Config, m: Memory, rs: seq<Request>, shared: seq<bool>): (ds: seq<Decision>)
    requires Positive(c) && |shared| == |rs|
    ensures |ds| == |rs|
    decreases |rs|
  {
    if rs == [] then []
    else [Decide(c, Filled(c, Remembered(m, rs[0].key, shared[0]), rs[0].now))] +
         MemoryAnswers(c, MemoryNext(c, m, rs[0], shared[0]), rs[1..], shared[1..])
  }

  function Answers(l: Limiter, rs: seq<Request>): (ds: seq<Decision>)
    requires Positive(l.c)
    ensures |ds| == |rs|
    decreases |rs|
  {
    if rs == [] then [] else [Answer(l, rs[0])] + Answers(Next(l, rs[0]), rs[1..])
  }

  function Routing(l: Limiter, rs: seq<Request>): (flags: seq<bool>)
    requires Positive(l.c)
    ensures |flags| == |rs|
    decreases |rs|
  {
    if rs == [] then [] else [Shared(l, rs[0])] + Routing(Next(l, rs[0]), rs[1..])
  }

  // ----- requests that come in time -----

  /** The time of the last cleanup, after a request. */
  function LastCleanup(l: Limiter, last: Option<int>, r: Request): Option<int> {
    if CleanupDue(l, r.now) then Some(r.now) else last
  }

  /** No request is earlier than the last cleanup before it; otherwise times may come in any order. */
  predicate Timely(l: Limiter, last: Option<int>, rs: seq<Request>)
    requires Positive(l.c)
    decreases |rs|
  {
    rs == [] ||
    ((last.Some? ==> last.value <= rs[0].now) && Timely(Next(l, rs[0]), LastCleanup(l, last, rs[0]), rs[1..]))
  }

  lemma {:induction false} OrderedIsTimely(l: Limiter, last: Option<int>, rs: seq<Request>, from: int, to: int)
    requires Positive(l.c) && Within(rs, from, to) && (last.Some? ==> last.value <= from)
    ensures Timely(l, last, rs)
    decreases |rs|
  {
    if rs != [] {
      OrderedIsTimely(Next(l, rs[0]), LastCleanup(l, last, rs[0]), rs[1..], rs[0].now, to);
    }
  }

  // ----- forgetting -----

  /** The limiter's buckets are the remembered ones, except some that were full at the last cleanup. */
  predicate Forgets(l: Limiter, m: Memory, last: Option<int>) {
    && LimiterSound(l)
    && l.overflow == m.overflow
    && (forall key :: key in l.buckets ==> key in m.buckets && m.buckets[key] == l.buckets[key])
    && (forall key :: key in m.buckets ==> BucketSound(l.c, m.buckets[key]))
    && (forall key :: key in m.buckets && key !in l.buckets ==>
          last.Some? && Level(l.c, m.buckets[key], last.value) == l.c.burst as real)
  }

  lemma FullStays(c: Config, b: Bucket, t1: int, t2: int)
    requires Sound(c) && BucketSound(c, b) && t1 <= t2 && Level(c, b, t1) == c.burst as real
    ensures Level(c, b, t2) == c.burst as real
  {
    if b.updated.value < t2 {
      RefillWindow(c);
      RefillMonotone(c, 0, t2 - b.updated.value);
      RefillMonotone(c, t1 - b.updated.value, t2 - b.updated.value);
    }
  }

  lemma CleanedForgets(l: Limiter, m: Memory, last: Option<int>, r: Request)
    requires Forgets(l, m, last) && (last.Some? ==> last.value <= r.now)
    ensures Forgets(Cleaned(l, r.now), m, LastCleanup(l, last, r))
  {
    CleanedSmaller(l, r.now);
    forall key | key in m.buckets && key !in Cleaned(l, r.now).buckets
      ensures LastCleanup(l, last, r).Some?
      ensures Level(l.c, m.buckets[key], LastCleanup(l, last, r).value) == l.c.burst as real
    {
      if key in l.buckets {
        StaleIsFull(l.c, l.buckets[key], r.now);
      } else {
        FullStays(l.c, m.buckets[key], last.value, r.now);
      }
    }
  }

  /** A full bucket and an absent one are the same after the next request, which both allow. */
  lemma FullIsFresh(c: Config, b: Bucket, now: int)
    requires Sound(c) && BucketSound(c, b) && Level(c, b, now) == c.burst as real
    ensures Decide(c, Filled(c, b, now)) == Decide(c, Filled(c, ZERO, now))
    ensures Take(Filled(c, b, now), now) == Take(Filled(c, ZERO, now), now)
  {
  }

  /** The bucket that serves a request and the remembered one give the same answer and the same next bucket. */
  lemma SameBucket(l: Limiter, m: Memory, last: Option<int>, r: Request)
    requires Forgets(l, m, last) && (last.Some? ==> last.value <= r.now)
    ensures var b := Remembered(m, r.key, Shared(l, r));
            && Answer(l, r) == Decide(l.c, Filled(l.c, b, r.now))
            && Take(Filled(l.c, BucketFor(l, r), r.now), r.now) == Take(Filled(l.c, b, r.now), r.now)
  {
    CleanedForgets(l, m, last, r);
    if !Shared(l, r) && r.key !in Cleaned(l, r.now).buckets && r.key in m.buckets {
      FullStays(l.c, m.buckets[r.key], LastCleanup(l, last, r).value, r.now);
      FullIsFresh(l.c, m.buckets[r.key], r.now);
    }
  }

  lemma StepForgets(l: Limiter, m: Memory, last: Option<int>, r: Request)
    requires Forgets(l, m, last) && (last.Some? ==> last.value <= r.now)
    ensures Answer(l, r) == Decide(l.c, Filled(l.c, Remembered(m, r.key, Shared(l, r)), r.now))
    ensures Forgets(Next(l, r), MemoryNext(l.c, m, r, Shared(l, r)), LastCleanup(l, last, r))
  {
    SameBucket(l, m, last, r);
    CleanedForgets(l, m, last, r);
    NextSound(l, r);
    TakeSound(l.c, BucketFor(l, r), r.now);
  }

  lemma {:induction false} RunForgets(l: Limiter, m: Memory, last: Option<int>, rs: seq<Request>)
    requires Forgets(l, m, last) && Timely(l, last, rs)
    ensures Answers(l, rs) == MemoryAnswers(l.c, m, rs, Routing(l, rs))
    decreases |rs|
  {
    if rs != [] {
      StepForgets(l, m, last, rs[0]);
      assert Routing(l, rs)[1..] == Routing(Next(l, rs[0]), rs[1..]);
      RunForgets(Next(l, rs[0]), MemoryNext(l.c, m, rs[0], Shared(l, rs[0])), LastCleanup(l, last, rs[0]), rs[1..]);
    }
  }

  /** Every answer of a run equals that of a limiter that never deletes a bucket and shares the same requests. */
  predicate Unnoticed(c: Config, rs: seq<Request>)
    requires Positive(c)
  {
    Answers(Fresh(c), rs) == MemoryAnswers(c, Memory(map[], ZERO), rs, Routing(Fresh(c), rs))
  }

  /**
   Forgetting is invisible: every decision and retry delay equals that of a limiter that never deletes a bucket
   and serves the same requests from the overflow bucket.  Times may be out of order, as long as no request is
   earlier than the last cleanup.
   */
  lemma ForgettingInvisible(c: Config, rs: seq<Request>)
    requires Sound(c) && Timely(Fresh(c), None, rs)
    ensures Unnoticed(c, rs)
  {
    RunForgets(Fresh(c), Memory(map[], ZERO), None, rs);
  }

  /** The times do not decrease. */
  ghost predicate InOrder(rs: seq<Request>) {
    exists from, to :: Within(rs, from, to)
  }

  /** In particular when times do not decrease. */
  lemma ForgettingInvisibleInOrder(c: Config, rs: seq<Request>)
    requires Sound(c) && InOrder(rs)
    ensures Unnoticed(c, rs)
  {
    var from, to :| Within(rs, from, to);
    OrderedIsTimely(Fresh(c), None, rs, from, to);
    ForgettingInvisible(c, rs);
  }

  function AllPrivate(n: nat): seq<bool> {
    seq(n, _ => false)
  }

  lemma NoSharing(l: Limiter, rs: seq<Request>)
    requires Sound(l.c) && forall i :: 0 <= i < |rs| ==> !Routing(l, rs)[i]
    ensures Routing(l, rs) == AllPrivate(|rs|)
  {
  }

  /** While the table stays below MaxKeys the reference is the plain limiter with one bucket per key, for ever. */
  lemma ForgettingInvisibleBelowMaxKeys(c: Config, rs: seq<Request>)
    requires Sound(c) && Timely(Fresh(c), None, rs)
    requires forall i :: 0 <= i < |rs| ==> |After(Fresh(c), rs[..i]).buckets| < c.maxKeys
    ensures Answers(Fresh(c), rs) == MemoryAnswers(c, Memory(map[], ZERO), rs, AllPrivate(|rs|))
  {
    forall i | 0 <= i < |rs| ensures !Routing(Fresh(c), rs)[i] {
      RoutingAt(Fresh(c), rs, i);
      SmallIsPrivate(After(Fresh(c), rs[..i]), rs[i]);
    }
    NoSharing(Fresh(c), rs);
    ForgettingInvisible(c, rs);
  }

  lemma {:induction false} RoutingAt(l: Limiter, rs: seq<Request>, i: nat)
    requires Sound(l.c) && i < |rs|
    ensures Routing(l, rs)[i] == Shared(After(l, rs[..i]), rs[i])
    decreases |rs|
  {
    if i == 0 {
      assert rs[..0] == [];
    } else {
      RoutingAt(Next(l, rs[0]), rs[1..], i - 1);
      assert rs[..i][1..] == rs[1..][..i - 1];
    }
  }

  lemma SmallIsPrivate(l: Limiter, r: Request)
    requires |l.buckets| < l.c.maxKeys
    ensures !Shared(l, r)
  {
    assert Cleaned(l, r.now).buckets.Keys <= l.buckets.Keys;
    SubsetSize(Cleaned(l, r.now).buckets.Keys, l.buckets.Keys);
  }

  // ----- the rule Burst <= Requests -----

  const K := "k"

  /** `n` requests of one key at one time. */
  function Volley(t: int, n: nat): seq<Request> {
    if n == 0 then [] else [Request(K, t)] + Volley(t, n - 1)
  }

  predicate OneKey(rs: seq<Request>) {
    forall i :: 0 <= i < |rs| ==> rs[i].key == K
  }

  lemma {:induction false} VolleyFacts(t: int, n: nat)
    ensures |Volley(t, n)| == n && forall i :: 0 <= i < n ==> Volley(t, n)[i] == Request(K, t)
  {
    if n > 0 {
      VolleyFacts(t, n - 1);
    }
  }

  lemma VolleyTake(t: int, n: nat, k: nat)
    requires k <= n
    ensures |Volley(t, n)| == n && Volley(t, n)[..k] == Volley(t, k)
  {
    VolleyFacts(t, n);
    VolleyFacts(t, k);
  }

  /** A table with one bucket, last used at `t`. */
  function Holding(c: Config, tokens: real, t: int, nextCleanup: int): Limiter {
    Limiter(c, map[K := Bucket(tokens, Some(t), Some(t))], ZERO, Some(nextCleanup))
  }

  function Remembering(tokens: real, t: int): Memory {
    Memory(map[K := Bucket(tokens, Some(t), Some(t))], ZERO)
  }

  lemma {:induction false} AnswersAt(l: Limiter, rs: seq<Request>, i: nat)
    requires Positive(l.c) && i < |rs|
    ensures Answers(l, rs)[i] == Answer(After(l, rs[..i]), rs[i])
    decreases |rs|
  {
    if i > 0 {
      AnswersAt(Next(l, rs[0]), rs[1..], i - 1);
      assert rs[..i][1..] == rs[1..][..i - 1];
    }
  }

  /** The reference limiter's state when every key has its own bucket. */
  function MemoryAfter(c: Config, m: Memory, rs: seq<Request>): Memory
    requires Positive(c)
    decreases |rs|
  {
    if rs == [] then m else MemoryAfter(c, MemoryNext(c, m, rs[0], false), rs[1..])
  }

  lemma {:induction false} MemoryAppend(c: Config, m: Memory, a: seq<Request>, b: seq<Request>)
    requires Positive(c)
    ensures MemoryAfter(c, m, a + b) == MemoryAfter(c, MemoryAfter(c, m, a), b)
    decreases |a|
  {
    if a == [] {
      assert a + b == b;
    } else {
      assert (a + b)[0] == a[0] && (a + b)[1..] == a[1..] + b;
      MemoryAppend(c, MemoryNext(c, m, a[0], false), a[1..], b);
    }
  }

  lemma {:induction false} MemoryAnswersAt(c: Config, m: Memory, rs: seq<Request>, shared: seq<bool>, i: nat)
    requires Positive(c) && i < |rs| == |shared| && forall k :: 0 <= k < |shared| ==> !shared[k]
    ensures MemoryAnswers(c, m, rs, shared)[i]
         == Decide(c, Filled(c, Remembered(MemoryAfter(c, m, rs[..i]), rs[i].key, false), rs[i].now))
    decreases |rs|
  {
    if i > 0 {
      MemoryAnswersAt(c, MemoryNext(c, m, rs[0], false), rs[1..], shared[1..], i - 1);
      assert rs[..i][1..] == rs[1..][..i - 1];
    }
  }

  /** A single key always has a bucket of its own. */
  lemma {:induction false} OneKeyPrivate(l: Limiter, rs: seq<Request>)
    requires Positive(l.c) && l.c.maxKeys >= 1 && OneKey(rs) && l.buckets.Keys <= {K}
    ensures forall i :: 0 <= i < |rs| ==> !Routing(l, rs)[i]
    decreases |rs|
  {
    if rs != [] {
      OneKeyStep(l, rs[0]);
      OneKeyPrivate(Next(l, rs[0]), rs[1..]);
    }
  }

  lemma OneKeyStep(l: Limiter, r: Request)
    requires Positive(l.c) && l.c.maxKeys >= 1 && r.key == K && l.buckets.Keys <= {K}
    ensures !Shared(l, r) && Next(l, r).buckets.Keys <= {K}
  {
    var l' := Cleaned(l, r.now);
    assert l'.buckets.Keys <= l.buckets.Keys;
    if K !in l'.buckets {
      assert l'.buckets.Keys == {};
      assert |l'.buckets| == |l'.buckets.Keys|;
    }
  }

  /** Each allowed request at the same time takes one token. */
  lemma {:induction false} VolleySpends(c: Config, tokens: real, t: int, nextCleanup: int, n: nat)
    requires Positive(c) && t < nextCleanup && tokens >= n as real
    ensures After(Holding(c, tokens, t, nextCleanup), Volley(t, n)) == Holding(c, tokens - n as real, t, nextCleanup)
    decreases n
  {
    if n > 0 {
      var l := Holding(c, tokens, t, nextCleanup);
      var next := Next(l, Request(K, t));
      assert next.buckets == Holding(c, tokens - 1.0, t, nextCleanup).buckets;
      assert Volley(t, n)[1..] == Volley(t, n - 1);
      VolleySpends(c, tokens - 1.0, t, nextCleanup, n - 1);
      assert tokens - 1.0 - (n - 1) as real == tokens - n as real;
    }
  }

  lemma {:induction false} VolleySpendsRemembered(c: Config, tokens: real, t: int, n: nat)
    requires Positive(c) && tokens >= n as real
    ensures MemoryAfter(c, Remembering(tokens, t), Volley(t, n)) == Remembering(tokens - n as real, t)
    decreases n
  {
    if n > 0 {
      var next := MemoryNext(c, Remembering(tokens, t), Request(K, t), false);
      assert next.buckets == Remembering(tokens - 1.0, t).buckets;
      assert Volley(t, n)[1..] == Volley(t, n - 1);
      VolleySpendsRemembered(c, tokens - 1.0, t, n - 1);
      assert tokens - 1.0 - (n - 1) as real == tokens - n as real;
    }
  }

  /** A volley on an absent bucket starts from the whole burst. */
  lemma VolleyOnAbsent(l: Limiter, t: int, nextCleanup: int, n: nat)
    requires Positive(l.c) && l.c.maxKeys >= 1 && t < nextCleanup && 1 <= n <= l.c.burst
    requires Cleaned(l, t) == Limiter(l.c, map[], ZERO, Some(nextCleanup))
    ensures After(l, Volley(t, n)) == Holding(l.c, (l.c.burst - n) as real, t, nextCleanup)
  {
    var tokens := l.c.burst as real - 1.0;
    var next := Next(l, Request(K, t));
    assert next.buckets == Holding(l.c, tokens, t, nextCleanup).buckets;
    assert next == Holding(l.c, tokens, t, nextCleanup);
    assert Volley(t, n)[0] == Request(K, t) && Volley(t, n)[1..] == Volley(t, n - 1);
    VolleySpends(l.c, tokens, t, nextCleanup, n - 1);
    assert tokens - (n - 1) as real == (l.c.burst - n) as real;
  }

  /** A volley on a remembered bucket starts from what that bucket refilled. */
  lemma VolleyOnRemembered(c: Config, m: Memory, t: int, level: real, n: nat)
    requires Positive(c) && n >= 1 && level >= n as real && m.overflow == ZERO && m.buckets.Keys <= {K}
    requires Filled(c, Remembered(m, K, false), t).tokens == level
    ensures MemoryAfter(c, m, Volley(t, n)) == Remembering(level - n as real, t)
  {
    var next := MemoryNext(c, m, Request(K, t), false);
    assert next.buckets == Remembering(level - 1.0, t).buckets;
    assert Volley(t, n)[0] == Request(K, t) && Volley(t, n)[1..] == Volley(t, n - 1);
    VolleySpendsRemembered(c, level - 1.0, t, n - 1);
    assert level - 1.0 - (n - 1) as real == level - n as real;
  }

  /** One burst now, and one request more than a window refills when the window is over. */
  function TwoVolleys(c: Config): seq<Request>
    requires c.burst >= 0 && c.requests >= 0
  {
    Volley(0, c.burst) + Volley(c.window, c.requests + 1)
  }

  lemma TwoVolleysFacts(c: Config)
    requires c.burst >= 0 && c.requests >= 0 && c.window > 0
    ensures |TwoVolleys(c)| == c.burst + c.requests + 1 && OneKey(TwoVolleys(c))
    ensures TwoVolleys(c)[..c.burst + c.requests] == Volley(0, c.burst) + Volley(c.window, c.requests)
    ensures TwoVolleys(c)[c.burst + c.requests] == Request(K, c.window)
    ensures Within(TwoVolleys(c), 0, c.window)
  {
    VolleyFacts(0, c.burst);
    VolleyFacts(c.window, c.requests + 1);
    VolleyTake(c.window, c.requests + 1, c.requests);
    VolleyFacts(c.window, c.requests);
    VolleyWithin(c.window, c.requests + 1, c.window);
    TwoWithin(0, c.burst, c.window, Volley(c.window, c.requests + 1));
  }

  lemma {:induction false} VolleyWithin(t: int, n: nat, from: int)
    requires from <= t
    ensures Within(Volley(t, n), from, t)
  {
    if n > 0 {
      assert Volley(t, n)[1..] == Volley(t, n - 1);
      VolleyWithin(t, n - 1, t);
    }
  }

  lemma {:induction false} TwoWithin(t: int, n: nat, to: int, rest: seq<Request>)
    requires t <= to && Within(rest, to, to)
    ensures Within(Volley(t, n) + rest, t, to)
  {
    if n == 0 {
      assert Volley(t, n) + rest == rest;
    } else {
      assert (Volley(t, n) + rest)[0] == Request(K, t);
      assert (Volley(t, n) + rest)[1..] == Volley(t, n - 1) + rest;
      TwoWithin(t, n - 1, to, rest);
    }
  }

  lemma ForgottenAllows(c: Config)
    requires Positive(c) && c.burst > c.requests && c.maxKeys >= 1
    ensures |TwoVolleys(c)| == c.burst + c.requests + 1
    ensures Answers(Fresh(c), TwoVolleys(c))[c.burst + c.requests].allowed
  {
    TwoVolleysFacts(c);
    AnswersAt(Fresh(c), TwoVolleys(c), c.burst + c.requests);
    AfterAppend(Fresh(c), Volley(0, c.burst), Volley(c.window, c.requests));
    VolleyOnAbsent(Fresh(c), 0, c.window, c.burst);
    var spent := Holding(c, 0.0, 0, c.window);
    assert Cleaned(spent, c.window).buckets == map[];
    VolleyOnAbsent(spent, c.window, 2 * c.window, c.requests);
  }

  lemma RememberedDenies(c: Config)
    requires Positive(c) && c.burst > c.requests && c.maxKeys >= 1
    ensures |TwoVolleys(c)| == c.burst + c.requests + 1
    ensures !MemoryAnswers(c, Memory(map[], ZERO), TwoVolleys(c),
        Routing(Fresh(c), TwoVolleys(c)))[c.burst + c.requests].allowed
  {
    TwoVolleysFacts(c);
    OneKeyPrivate(Fresh(c), TwoVolleys(c));
    var m := Memory(map[], ZERO);
    MemoryAnswersAt(c, m, TwoVolleys(c), Routing(Fresh(c), TwoVolleys(c)), c.burst + c.requests);
    MemoryAppend(c, m, Volley(0, c.burst), Volley(c.window, c.requests));
    VolleyOnRemembered(c, m, 0, c.burst as real, c.burst);
    RefillWindow(c);
    VolleyOnRemembered(c, Remembering(0.0, 0), c.window, c.requests as real, c.requests);
  }

  /** With a larger burst forgetting always shows: some run is answered otherwise than if its bucket had been kept. */
  lemma LargeBurstShows(c: Config)
    requires Positive(c) && c.burst > c.requests && c.maxKeys >= 1
    ensures Within(TwoVolleys(c), 0, c.window)
    ensures !Unnoticed(c, TwoVolleys(c))
  {
    TwoVolleysFacts(c);
    ForgottenAllows(c);
    RememberedDenies(c);
  }

  /**
   Forgetting is invisible in every timely run if and only if the burst is at most the request count, and so it is
   already in the runs whose times do not decrease.
   */
  lemma ForgettingInvisibleIff(c: Config)
    requires Positive(c) && c.burst >= 1 && c.maxKeys >= 1
    ensures (forall rs :: Timely(Fresh(c), None, rs) ==> Unnoticed(c, rs)) <==> c.burst <= c.requests
    ensures (forall rs :: InOrder(rs) ==> Unnoticed(c, rs)) <==> c.burst <= c.requests
  {
    if c.burst <= c.requests {
      forall rs: seq<Request> | Timely(Fresh(c), None, rs) ensures Unnoticed(c, rs) {
        ForgettingInvisible(c, rs);
      }
      forall rs: seq<Request> | InOrder(rs) ensures Unnoticed(c, rs) {
        ForgettingInvisibleInOrder(c, rs);
      }
    } else {
      LargeBurstShows(c);
      OrderedIsTimely(Fresh(c), None, TwoVolleys(c), 0, c.window);
      assert InOrder(TwoVolleys(c)) && !Unnoticed(c, TwoVolleys(c));
    }
  }

  // ----- a request before the last cleanup -----

  lemma {:induction false} OneKeyAfter(l: Limiter, rs: seq<Request>)
    requires Positive(l.c) && l.c.maxKeys >= 1 && OneKey(rs) && l.buckets.Keys <= {K}
    ensures After(l, rs).buckets.Keys <= {K}
    decreases |rs|
  {
    if rs != [] {
      OneKeyStep(l, rs[0]);
      OneKeyAfter(Next(l, rs[0]), rs[1..]);
    }
  }

  const OTHER := "other"

  /** One burst, another key's request when the window is over, and the first key again at the earlier time. */
  function EarlyRequest(c: Config): seq<Request>
    requires c.burst >= 0
  {
    Volley(0, c.burst) + [Request(OTHER, c.window), Request(K, 0)]
  }

  lemma EarlyRequestFacts(c: Config)
    requires c.burst >= 0
    ensures |EarlyRequest(c)| == c.burst + 2 && EarlyRequest(c)[c.burst + 1] == Request(K, 0)
    ensures EarlyRequest(c)[c.burst] == Request(OTHER, c.window)
    ensures EarlyRequest(c)[..c.burst] == Volley(0, c.burst)
    ensures EarlyRequest(c)[..c.burst + 1] == Volley(0, c.burst) + [Request(OTHER, c.window)]
    ensures forall i :: 0 <= i < c.burst ==>
              EarlyRequest(c)[i] == Request(K, 0) && EarlyRequest(c)[..i] == Volley(0, c.burst)[..i]
  {
    VolleyFacts(0, c.burst);
  }

  /** The limiter when the first key comes back: its bucket is gone, the other one is there. */
  lemma EarlyState(c: Config) returns (l: Limiter)
    requires Sound(c) && c.maxKeys >= 2
    ensures l == After(Fresh(c), Volley(0, c.burst) + [Request(OTHER, c.window)])
    ensures !Shared(After(Fresh(c), Volley(0, c.burst)), Request(OTHER, c.window))
    ensures !Shared(l, Request(K, 0)) && Answer(l, Request(K, 0)).allowed
  {
    VolleyOnAbsent(Fresh(c), 0, c.window, c.burst);
    AfterAppend(Fresh(c), Volley(0, c.burst), [Request(OTHER, c.window)]);
    var spent := Holding(c, 0.0, 0, c.window);
    assert Cleaned(spent, c.window).buckets == map[];
    l := Next(spent, Request(OTHER, c.window));
    var one := [Request(OTHER, c.window)];
    assert one[1..] == [] && After(spent, one) == l;
    assert l.buckets.Keys == {OTHER} && l.nextCleanup == Some(2 * c.window);
    assert |l.buckets| == |l.buckets.Keys| == 1;
  }

  lemma EarlyPrivate(c: Config)
    requires Sound(c) && c.maxKeys >= 2
    ensures forall i :: 0 <= i < |EarlyRequest(c)| ==> !Routing(Fresh(c), EarlyRequest(c))[i]
  {
    EarlyRequestFacts(c);
    VolleyFacts(0, c.burst);
    var l := EarlyState(c);
    forall i | 0 <= i < |EarlyRequest(c)| ensures !Routing(Fresh(c), EarlyRequest(c))[i] {
      RoutingAt(Fresh(c), EarlyRequest(c), i);
      if i < c.burst {
        OneKeyAfter(Fresh(c), Volley(0, c.burst)[..i]);
        OneKeyStep(After(Fresh(c), Volley(0, c.burst)[..i]), Request(K, 0));
      }
    }
  }

  lemma EarlyRemembered(c: Config)
    requires Sound(c) && c.maxKeys >= 2
    ensures |EarlyRequest(c)| == c.burst + 2
    ensures !MemoryAnswers(c, Memory(map[], ZERO), EarlyRequest(c),
        Routing(Fresh(c), EarlyRequest(c)))[c.burst + 1].allowed
  {
    EarlyRequestFacts(c);
    EarlyPrivate(c);
    var m, other := Memory(map[], ZERO), Request(OTHER, c.window);
    MemoryAnswersAt(c, m, EarlyRequest(c), Routing(Fresh(c), EarlyRequest(c)), c.burst + 1);
    MemoryAppend(c, m, Volley(0, c.burst), [other]);
    VolleyOnRemembered(c, m, 0, c.burst as real, c.burst);
    var one := [other];
    assert one[1..] == [];
    assert MemoryAfter(c, Remembering(0.0, 0), one) == MemoryNext(c, Remembering(0.0, 0), other, false);
  }

  /** With room for two keys, a request before the last cleanup is answered otherwise than if nothing were deleted. */
  lemma EarlyRequestShows(c: Config)
    requires Sound(c) && c.maxKeys >= 2
    ensures !Timely(Fresh(c), None, EarlyRequest(c)) && !Unnoticed(c, EarlyRequest(c))
  {
    EarlyRequestFacts(c);
    AnswersAt(Fresh(c), EarlyRequest(c), c.burst + 1);
    var l := EarlyState(c);
    EarlyRemembered(c);
    if Timely(Fresh(c), None, EarlyRequest(c)) {
      ForgettingInvisible(c, EarlyRequest(c));
    }
  }
}
