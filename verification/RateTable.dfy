/**
 Which keys the limiter remembers.  Idle buckets are dropped once per window, so a key in the table was allowed within
 the last two windows, and a new key has to share the overflow bucket only while MaxKeys others were.
 */
module RateTable {
  import opened Prelude
  import opened RateLimiter
  import opened RateTheorems

  // ----- how old buckets can be -----

  /** Every bucket was last used within the window before the current one began. */
  predicate Recent(l: Limiter, last: int) {
    if l.nextCleanup.None? then l.buckets == map[]
    else
      && l.nextCleanup.value - l.c.window <= last < l.nextCleanup.value
      && forall key :: key in l.buckets ==>
           l.buckets[key].seen.Some? && l.buckets[key].seen.value > l.nextCleanup.value - 2 * l.c.window
  }

  /** A private bucket that is new is full, so its first request is allowed. */
  lemma NewIsAllowed(l: Limiter, r: Request)
    requires Sound(l.c) && r.key !in l.buckets && r.key in Next(l, r).buckets
    ensures Answer(l, r).allowed && Next(l, r).buckets[r.key].seen == Some(r.now)
  {
  }

  lemma NextRecent(l: Limiter, r: Request, last: int)
    requires Sound(l.c) && Recent(l, last) && (l.nextCleanup.None? || last <= r.now)
    ensures Recent(Next(l, r), r.now) && Next(l, r).nextCleanup.Some?
  {
    var l' := Next(l, r);
    forall key | key in l'.buckets
      ensures l'.buckets[key].seen.Some? && l'.buckets[key].seen.value > l'.nextCleanup.value - 2 * l'.c.window
    {
      if key != r.key {
        assert key in l.buckets && l'.buckets[key] == l.buckets[key];
      }
    }
  }

  lemma {:induction false} RunRecent(l: Limiter, rs: seq<Request>, last: int, to: int)
    requires Sound(l.c) && Recent(l, last) && Within(rs, last, to) && rs != []
    ensures Recent(After(l, rs), Last(rs).now) && After(l, rs).nextCleanup.Some?
    decreases |rs|
  {
    NextRecent(l, rs[0], last);
    if |rs| > 1 {
      RunRecent(Next(l, rs[0]), rs[1..], rs[0].now, to);
    } else {
      assert rs[1..] == [];
    }
  }

  // ----- what a bucket's time says about the run -----

  /** The request at position `i` was allowed from its key's own bucket. */
  predicate AllowedOwn(c: Config, rs: seq<Request>, i: nat)
    requires Sound(c) && i < |rs|
  {
    Answer(After(Fresh(c), rs[..i]), rs[i]).allowed && rs[i].key in After(Fresh(c), rs[..i + 1]).buckets
  }

  predicate SeenAt(c: Config, rs: seq<Request>, key: string, i: nat)
    requires Sound(c) && key in After(Fresh(c), rs).buckets
  {
    i < |rs| && rs[i].key == key && AllowedOwn(c, rs, i) && After(Fresh(c), rs).buckets[key].seen == Some(rs[i].now)
  }

  lemma AfterLast(l: Limiter, rs: seq<Request>)
    requires Positive(l.c) && rs != []
    ensures After(l, rs) == Next(After(l, Front(rs)), Last(rs))
  {
    assert rs == Front(rs) + [Last(rs)];
    AfterAppend(l, Front(rs), [Last(rs)]);
    var one := [Last(rs)];
    assert one[1..] == [];
  }

  /** A bucket that a request finds and does not use keeps its time. */
  lemma KeptSeen(l: Limiter, r: Request, key: string)
    requires Sound(l.c) && key in Next(l, r).buckets && (key != r.key || !Answer(l, r).allowed)
    ensures key in l.buckets && Next(l, r).buckets[key].seen == l.buckets[key].seen
  {
    if key == r.key && key !in l.buckets {
      NewIsAllowed(l, r);
    }
  }

  lemma KeptOrUsed(l: Limiter, r: Request, key: string)
    requires Sound(l.c) && key in Next(l, r).buckets && key == r.key && Answer(l, r).allowed
    ensures Next(l, r).buckets[key].seen == Some(r.now)
  {
  }

  /** The time of a bucket is that of an allowed request. */
  lemma {:induction false} SeenMeans(c: Config, rs: seq<Request>, key: string) returns (i: nat)
    requires Sound(c) && key in After(Fresh(c), rs).buckets
    ensures SeenAt(c, rs, key, i)
    decreases |rs|
  {
    AfterLast(Fresh(c), rs);
    var l, r := After(Fresh(c), Front(rs)), Last(rs);
    if key == r.key && Answer(l, r).allowed {
      KeptOrUsed(l, r, key);
      i := |rs| - 1;
      assert rs[..i] == Front(rs) && rs[..i + 1] == rs;
    } else {
      KeptSeen(l, r, key);
      i := SeenMeans(c, Front(rs), key);
      assert rs[..i] == Front(rs)[..i] && rs[..i + 1] == Front(rs)[..i + 1];
    }
  }

  // ----- the table and the routing -----

  /** A request of the key was allowed from its own bucket less than two windows before `t`. */
  predicate RecentlyAllowed(c: Config, rs: seq<Request>, key: string, t: int)
    requires Sound(c)
  {
    exists i :: 0 <= i < |rs| && rs[i].key == key && AllowedOwn(c, rs, i) && t - 2 * c.window < rs[i].now <= t
  }

  lemma {:induction false} LastWithin(rs: seq<Request>, from: int, to: int, i: nat)
    requires Within(rs, from, to) && i < |rs|
    ensures rs[i].now <= Last(rs).now && Within(rs, rs[0].now, to)
    decreases |rs|
  {
    if |rs| > 1 {
      LastWithin(rs[1..], rs[0].now, to, if i > 0 then i - 1 else 0);
      assert Last(rs) == Last(rs[1..]);
    }
  }

  /** Every key in the table was allowed less than two windows ago. */
  lemma TableIsRecent(c: Config, rs: seq<Request>, from: int, to: int, key: string)
    requires Sound(c) && Within(rs, from, to) && rs != [] && key in After(Fresh(c), rs).buckets
    ensures RecentlyAllowed(c, rs, key, Last(rs).now)
  {
    RunRecent(Fresh(c), rs, from, to);
    var i := SeenMeans(c, rs, key);
    LastWithin(rs, from, to, i);
  }

  /** A request leaves its key in the table, or is served from overflow because the table is full of others. */
  lemma OutsideMeansFull(l: Limiter, r: Request)
    requires Sound(l.c)
    ensures r.key !in Next(l, r).buckets <==> Shared(l, r)
    ensures r.key !in Next(l, r).buckets ==> |Next(l, r).buckets.Keys| >= l.c.maxKeys
  {
    assert |Next(l, r).buckets.Keys| == |Next(l, r).buckets|;
  }

  /**
   The last request of a run has no bucket of its own only if MaxKeys other keys were allowed within the last two
   windows.
   */
  lemma OverflowOnlyWhenFull(c: Config, rs: seq<Request>, from: int, to: int) returns (others: set<string>)
    requires Sound(c) && Within(rs, from, to) && rs != [] && Last(rs).key !in After(Fresh(c), rs).buckets
    ensures |others| >= c.maxKeys && Last(rs).key !in others
    ensures forall key :: key in others ==> RecentlyAllowed(c, rs, key, Last(rs).now)
  {
    AfterLast(Fresh(c), rs);
    OutsideMeansFull(After(Fresh(c), Front(rs)), Last(rs));
    others := After(Fresh(c), rs).buckets.Keys;
    forall key | key in others ensures RecentlyAllowed(c, rs, key, Last(rs).now) {
      TableIsRecent(c, rs, from, to, key);
    }
  }
}
