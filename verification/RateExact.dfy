/** The limiter denies no more than its rate demands: with the rate bound, the exact condition for every answer. */
module RateExact {
  import opened Prelude
  import opened RateLimiter
  import opened RateTheorems

  /** The level is at least what `start` tokens, refilled for a span, leave after `spent`. */
  predicate Left(c: Config, level: real, start: real, elapsed: int, spent: real)
    requires c.window > 0
  {
    level >= start + Refill(c, elapsed) - spent
  }

  /** The level at the end is what a full bucket leaves, counted from the request at position `k` on. */
  predicate FullAt(l: Limiter, rs: seq<Request>, slot: Slot, to: int, k: nat)
    requires Positive(l.c) && k < |rs|
  {
    Left(l.c, SlotLevel(After(l, rs), slot, to), l.c.burst as real, to - rs[k].now,
         Accepted(After(l, rs[..k]), rs[k..], slot))
  }

  lemma FirstLevel(l: Limiter, r: Request, slot: Slot, from: int)
    requires LimiterOk(l, from) && from <= r.now
    ensures LimiterOk(Next(l, r), r.now)
    ensures SlotLevel(Next(l, r), slot, r.now) ==
            RealMin(l.c.burst as real, SlotLevel(l, slot, from) + Refill(l.c, r.now - from)) - Cost(l, r, slot)
  {
    OkAt(l, from, r.now);
    NextOk(l, r);
    OkIsSound(l, r.now);
    NextLevel(l, r, slot);
    SlotLater(l, slot, from, r.now);
  }

  lemma LeftTwice(c: Config, level: real, start: real, next: real, cost: real, rest: real, t0: int, t1: int, t2: int)
    requires Sound(c) && t0 <= t1 <= t2 && Left(c, level, next, t2 - t1, rest)
    requires next == RealMin(c.burst as real, start + Refill(c, t1 - t0)) - cost
    ensures Left(c, level, start, t2 - t0, cost + rest) || Left(c, level, c.burst as real, t2 - t1, cost + rest)
  {
    RefillAdd(c, t1 - t0, t2 - t1);
    assert (t1 - t0) + (t2 - t1) == t2 - t0;
  }

  lemma Later(l: Limiter, rs: seq<Request>, slot: Slot, to: int, k: nat)
    requires Positive(l.c) && 0 < k < |rs| && FullAt(Next(l, rs[0]), rs[1..], slot, to, k - 1)
    ensures FullAt(l, rs, slot, to, k)
  {
    assert rs[..k][1..] == rs[1..][..k - 1] && rs[..k][0] == rs[0];
    assert rs[k..] == rs[1..][k - 1..];
  }

  lemma AtFirst(l: Limiter, rs: seq<Request>, slot: Slot, to: int)
    requires Positive(l.c) && rs != []
    requires Left(l.c, SlotLevel(After(l, rs), slot, to), l.c.burst as real, to - rs[0].now,
        Cost(l, rs[0], slot) + Accepted(Next(l, rs[0]), rs[1..], slot))
    ensures FullAt(l, rs, slot, to, 0)
  {
    assert rs[..0] == [] && rs[0..] == rs;
  }

  /** What the first request leaves over is what the starting level leaves over, or a full bucket at that request. */
  lemma WitnessStep(l: Limiter, rs: seq<Request>, slot: Slot, from: int, to: int)
    requires rs != [] && LimiterOk(l, from) && from <= rs[0].now <= to
    requires Left(l.c, SlotLevel(After(l, rs), slot, to), SlotLevel(Next(l, rs[0]), slot, rs[0].now), to - rs[0].now,
        Accepted(Next(l, rs[0]), rs[1..], slot))
    ensures Left(l.c, SlotLevel(After(l, rs), slot, to), SlotLevel(l, slot, from), to - from, Accepted(l, rs, slot))
            || FullAt(l, rs, slot, to, 0)
  {
    var next, level, rest := Next(l, rs[0]), SlotLevel(After(l, rs), slot, to), Accepted(Next(l, rs[0]), rs[1..], slot);
    FirstLevel(l, rs[0], slot, from);
    LeftTwice(l.c, level, SlotLevel(l, slot, from), SlotLevel(next, slot, rs[0].now), Cost(l, rs[0], slot), rest, from,
              rs[0].now, to);
    if Left(l.c, level, l.c.burst as real, to - rs[0].now, Cost(l, rs[0], slot) + rest) {
      AtFirst(l, rs, slot, to);
    }
  }

  /** A level is full, or what the starting level leaves, or what a full bucket at one of the requests leaves. */
  predicate Explained(l: Limiter, rs: seq<Request>, slot: Slot, from: int, to: int, k: nat)
    requires Positive(l.c)
  {
    || SlotLevel(After(l, rs), slot, to) >= l.c.burst as real
    || Left(l.c, SlotLevel(After(l, rs), slot, to), SlotLevel(l, slot, from), to - from, Accepted(l, rs, slot))
    || (k < |rs| && FullAt(l, rs, slot, to, k))
  }

  lemma FirstExplained(l: Limiter, rs: seq<Request>, slot: Slot, from: int, to: int)
    requires rs != [] && LimiterOk(l, from) && from <= rs[0].now <= to
    requires var next, t, level := Next(l, rs[0]), rs[0].now, SlotLevel(After(l, rs), slot, to);
             || level >= l.c.burst as real
             || Left(l.c, level, SlotLevel(next, slot, t), to - t, Accepted(next, rs[1..], slot))
    ensures Explained(l, rs, slot, from, to, 0)
  {
    if SlotLevel(After(l, rs), slot, to) < l.c.burst as real {
      WitnessStep(l, rs, slot, from, to);
    }
  }

  lemma ExplainedStep(l: Limiter, rs: seq<Request>, slot: Slot, from: int, to: int, j: nat) returns (k: nat)
    requires rs != [] && LimiterOk(l, from) && from <= rs[0].now <= to
    requires Explained(Next(l, rs[0]), rs[1..], slot, rs[0].now, to, j)
    ensures Explained(l, rs, slot, from, to, k)
  {
    if j < |rs[1..]| && FullAt(Next(l, rs[0]), rs[1..], slot, to, j) {
      Later(l, rs, slot, to, j + 1);
      return j + 1;
    }
    FirstExplained(l, rs, slot, from, to);
    return 0;
  }

  lemma NoneExplained(l: Limiter, slot: Slot, from: int, to: int)
    requires LimiterOk(l, from) && from <= to
    ensures Explained(l, [], slot, from, to, 0)
  {
    SlotLater(l, slot, from, to);
  }

  lemma {:induction false} LevelWitness(l: Limiter, rs: seq<Request>, slot: Slot, from: int, to: int)
    returns (k: nat)
    requires LimiterOk(l, from) && Within(rs, from, to)
    ensures Explained(l, rs, slot, from, to, k)
    decreases |rs|
  {
    if rs == [] {
      NoneExplained(l, slot, from, to);
      return 0;
    }
    OkAt(l, from, rs[0].now);
    NextOk(l, rs[0]);
    WithinOrder(rs, from, to);
    var j := LevelWitness(Next(l, rs[0]), rs[1..], slot, rs[0].now, to);
    k := ExplainedStep(l, rs, slot, from, to, j);
  }

  lemma {:induction false} WithinOrder(rs: seq<Request>, from: int, to: int)
    requires Within(rs, from, to)
    ensures rs != [] ==> from <= rs[0].now <= to
    decreases |rs|
  {
    if rs != [] {
      WithinOrder(rs[1..], rs[0].now, to);
    }
  }

  // ----- the exact condition -----

  lemma {:induction false} WithinSuffix(rs: seq<Request>, from: int, to: int, k: nat)
    requires Within(rs, from, to) && k < |rs|
    ensures Within(rs[k..], rs[k].now, to)
    decreases |rs|
  {
    if k == 0 {
      assert rs[0..] == rs;
    } else {
      WithinSuffix(rs[1..], rs[0].now, to, k - 1);
      assert rs[k..] == rs[1..][k - 1..];
    }
  }

  lemma {:induction false} AcceptedAppend(l: Limiter, a: seq<Request>, b: seq<Request>, slot: Slot)
    requires Positive(l.c)
    ensures Accepted(l, a + b, slot) == Accepted(l, a, slot) + Accepted(After(l, a), b, slot)
    decreases |a|
  {
    if a == [] {
      assert a + b == b;
    } else {
      assert (a + b)[0] == a[0] && (a + b)[1..] == a[1..] + b;
      AcceptedAppend(Next(l, a[0]), a[1..], b, slot);
    }
  }

  lemma {:induction false} WithinAppend(rs: seq<Request>, r: Request, from: int)
    requires Within(rs, from, r.now)
    ensures Within(rs + [r], from, r.now)
    decreases |rs|
  {
    if rs == [] {
      assert rs + [r] == [r] && [r][1..] == [];
    } else {
      assert (rs + [r])[0] == rs[0] && (rs + [r])[1..] == rs[1..] + [r];
      WithinAppend(rs[1..], r, rs[0].now);
    }
  }

  /** Accepting one more request of the bucket keeps its rate since the request at position `k`. */
  predicate RoomSince(c: Config, rs: seq<Request>, slot: Slot, t: int, k: nat)
    requires Sound(c) && k < |rs|
  {
    Accepted(After(Fresh(c), rs[..k]), rs[k..], slot) + 1.0 <= c.burst as real + Refill(c, t - rs[k].now)
  }

  lemma OneMoreAccepted(l: Limiter, rs: seq<Request>, r: Request)
    requires Positive(l.c) && Answer(After(l, rs), r).allowed
    ensures var slot := SlotOf(After(l, rs), r); Accepted(l, rs + [r], slot) == Accepted(l, rs, slot) + 1.0
  {
    var slot, one := SlotOf(After(l, rs), r), [r];
    AcceptedAppend(l, rs, one, slot);
    assert one[1..] == [] && Accepted(After(l, rs), one, slot) == 1.0 + 0.0;
  }

  /** One more accepted request stays within the rate since any earlier state. */
  lemma BoundWithOneMore(c: Config, before: seq<Request>, since: seq<Request>, r: Request, from: int)
    requires Sound(c) && Within(since, from, r.now) && Answer(After(After(Fresh(c), before), since), r).allowed
    ensures var l := After(Fresh(c), before);
            Accepted(l, since, SlotOf(After(l, since), r)) + 1.0 <= c.burst as real + Refill(c, r.now - from)
  {
    var l := After(Fresh(c), before);
    WithinAppend(since, r, from);
    RateBound(c, before, since + [r], SlotOf(After(l, since), r), from, r.now);
    OneMoreAccepted(l, since, r);
  }

  lemma Cut(c: Config, rs: seq<Request>, k: nat)
    requires Positive(c) && k < |rs|
    ensures After(Fresh(c), rs) == After(After(Fresh(c), rs[..k]), rs[k..])
  {
    assert rs == rs[..k] + rs[k..];
    AfterAppend(Fresh(c), rs[..k], rs[k..]);
  }

  lemma AllowedKeepsRate(c: Config, rs: seq<Request>, r: Request, from: int, k: nat)
    requires Sound(c) && Within(rs, from, r.now) && k < |rs| && Answer(After(Fresh(c), rs), r).allowed
    ensures RoomSince(c, rs, SlotOf(After(Fresh(c), rs), r), r.now, k)
  {
    Cut(c, rs, k);
    WithinSuffix(rs, from, r.now, k);
    BoundWithOneMore(c, rs[..k], rs[k..], r, rs[k].now);
  }

  lemma FreshFull(c: Config, slot: Slot, t: int)
    requires Sound(c)
    ensures SlotLevel(Fresh(c), slot, t) == c.burst as real && After(Fresh(c), []) == Fresh(c)
  {
  }

  lemma DeniedLevel(c: Config, rs: seq<Request>, r: Request, from: int)
    requires Sound(c) && Within(rs, from, r.now) && !Answer(After(Fresh(c), rs), r).allowed
    ensures SlotLevel(After(Fresh(c), rs), SlotOf(After(Fresh(c), rs), r), r.now) < 1.0
    ensures rs != []
  {
    RunOk(Fresh(c), rs, from, r.now);
    OkIsSound(After(Fresh(c), rs), r.now);
    AnswerFromLevel(After(Fresh(c), rs), r);
    FreshFull(c, SlotOf(After(Fresh(c), rs), r), r.now);
  }

  lemma StartsFull(c: Config, rs: seq<Request>, slot: Slot, t: int)
    requires Sound(c) && rs != []
    requires Left(c, SlotLevel(After(Fresh(c), rs), slot, t), SlotLevel(Fresh(c), slot, rs[0].now), t - rs[0].now,
        Accepted(Fresh(c), rs, slot))
    ensures FullAt(Fresh(c), rs, slot, t, 0)
  {
    FreshFull(c, slot, rs[0].now);
    assert rs[0..] == rs && rs[..0] == [];
  }

  lemma ExplainedBreaks(c: Config, rs: seq<Request>, slot: Slot, t: int, k: nat) returns (j: nat)
    requires Sound(c) && rs != [] && SlotLevel(After(Fresh(c), rs), slot, t) < 1.0
    requires Explained(Fresh(c), rs, slot, rs[0].now, t, k)
    ensures j < |rs| && !RoomSince(c, rs, slot, t, j)
  {
    if k < |rs| && FullAt(Fresh(c), rs, slot, t, k) {
      return k;
    }
    StartsFull(c, rs, slot, t);
    return 0;
  }

  lemma DeniedBreaksRate(c: Config, rs: seq<Request>, r: Request, from: int) returns (k: nat)
    requires Sound(c) && Within(rs, from, r.now) && !Answer(After(Fresh(c), rs), r).allowed
    ensures k < |rs| && !RoomSince(c, rs, SlotOf(After(Fresh(c), rs), r), r.now, k)
  {
    DeniedLevel(c, rs, r, from);
    WithinSuffix(rs, from, r.now, 0);
    assert rs[0..] == rs;
    var slot := SlotOf(After(Fresh(c), rs), r);
    k := LevelWitness(Fresh(c), rs, slot, rs[0].now, r.now);
    k := ExplainedBreaks(c, rs, slot, r.now, k);
  }

  /**
   The exact answer.  When times do not decrease, a request is allowed if and only if accepting it keeps its bucket
   within burst + requests * elapsed / window over every span that ends now.
   */
  lemma AllowedIff(c: Config, rs: seq<Request>, r: Request, from: int)
    requires Sound(c) && Within(rs, from, r.now)
    ensures Answer(After(Fresh(c), rs), r).allowed <==>
            forall k :: 0 <= k < |rs| ==> RoomSince(c, rs, SlotOf(After(Fresh(c), rs), r), r.now, k)
  {
    if Answer(After(Fresh(c), rs), r).allowed {
      forall k | 0 <= k < |rs| ensures RoomSince(c, rs, SlotOf(After(Fresh(c), rs), r), r.now, k) {
        AllowedKeepsRate(c, rs, r, from, k);
      }
    } else {
      var k := DeniedBreaksRate(c, rs, r, from);
    }
  }
}
