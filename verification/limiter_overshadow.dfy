/** A global limit in front of the actors' own: it never lets through what a deleted and restored bucket holds more. */
module LimiterOvershadow {
  import opened Collections
  import opened TokenBucket
  import opened LimiterModel
  import opened LimiterBounds

  /** The global limit stands in front of the actors' own: it lets nothing through at all; or it refills no faster than
      an actor's bucket, and within the idle timeout falls behind it by all that it could hold more. */
  ghost predicate Overshadowed(c: Config) {
    && c.globalRps > 0.0
    && (GlobalBurst(c) == 0
        || (c.rate >= c.globalRps
            && (c.rate - c.globalRps) * c.idleTimeout as real >= GlobalBurst(c) as real - c.burst as real))
  }

  // ---- buckets as time passes ----

  lemma AvailableAt(c: Config, buckets: Buckets, actor: string, t1: real, t2: real)
    requires Sensible(c) && t1 <= t2
    ensures Available(c, buckets, actor, t2)
         == Min(c.burst as real, Available(c, buckets, actor, t1) + Earned(t1, t2, c.rate))
  {
    hide Earned;
    EarnedGrows(t1, t2, c.rate);
    if actor in buckets { EarnedAdds(buckets[actor].last, t1, t2, c.rate); }
  }

  lemma GlobalAt(c: Config, g: Bucket, t1: real, t2: real)
    requires c.globalRps > 0.0 && t1 <= t2
    ensures GlobalAvailable(c, g, t2)
         == Min(GlobalBurst(c) as real, GlobalAvailable(c, g, t1) + Earned(t1, t2, c.globalRps))
  {
    hide Earned, GlobalBurst;
    EarnedGrows(t1, t2, c.globalRps);
    EarnedAdds(g.last, t1, t2, c.globalRps);
  }

  lemma FasterEarnsMore(t1: real, t2: real, slow: real, fast: real)
    requires t1 <= t2 && slow <= fast
    ensures Earned(t1, t2, fast) - Earned(t1, t2, slow) == (fast - slow) * (t2 - t1) >= 0.0
  {
    var d, more := t2 - t1, fast - slow;
    assert d * more >= 0.0;
    assert d * (slow + more) == d * slow + d * more;
  }

  // ---- in the shadow of the global limit deletion cannot be noticed ----

  /** What a bucket lacked when it was last used, the global bucket lacked as well, and it has only refilled since. */
  ghost predicate Owed(c: Config, b: Bucket, g: Bucket, now: real) {
    GlobalBurst(c) > 0 ==>
      c.burst as real - b.tokens
      <= GlobalBurst(c) as real - GlobalAvailable(c, g, now) + Earned(b.last, now, c.globalRps)
  }

  /** The deleting limiter may hold more for an actor, but what it holds more the global bucket does not let through. */
  ghost predicate Hidden(mine: real, kept: real, global: real) {
    kept <= mine && (kept == mine || kept >= global)
  }

  ghost predicate Shadows(c: Config, mine: Buckets, kept: Buckets, g: Bucket, now: real) {
    && Healthy(kept, now)
    && (forall a | a in mine :: a in kept && mine[a].last == kept[a].last)
    && (forall a | a in kept :: Owed(c, kept[a], g, now))
    && (forall a | a in kept ::
          Hidden(Available(c, mine, a, now), Available(c, kept, a, now), GlobalAvailable(c, g, now)))
  }

  lemma ShadowsAt(c: Config, mine: Buckets, kept: Buckets, g: Bucket, now: real, a: string)
    requires Shadows(c, mine, kept, g, now)
    ensures a in mine ==> a in kept && mine[a].last == kept[a].last
    ensures a in kept ==> kept[a].tokens >= 0.0 && kept[a].last <= now && Owed(c, kept[a], g, now)
    ensures Hidden(Available(c, mine, a, now), Available(c, kept, a, now), GlobalAvailable(c, g, now))
  {
    hide Owed, Hidden, Level, GlobalAvailable;
    assert a !in kept ==> a !in mine;
    SameIsHidden(c.burst as real, GlobalAvailable(c, g, now));
  }

  lemma SameIsHidden(x: real, global: real)
    ensures Hidden(x, x, global)
  {
  }

  lemma OwedLater(c: Config, b: Bucket, g: Bucket, t1: real, t2: real)
    requires Overshadowed(c) && Owed(c, b, g, t1) && t1 <= t2
    ensures Owed(c, b, g, t2)
  {
    hide GlobalAvailable, Earned, GlobalBurst, Overshadowed;
    assert c.globalRps > 0.0 by { IsLimited(c); }
    GlobalAt(c, g, t1, t2);
    EarnedAdds(b.last, t1, t2, c.globalRps);
  }

  lemma IsLimited(c: Config)
    requires Overshadowed(c)
    ensures c.globalRps > 0.0 && GlobalBurst(c) >= 0
    ensures GlobalBurst(c) > 0 ==> c.rate >= c.globalRps
  {
  }

  lemma HiddenLater(c: Config, mine: Buckets, kept: Buckets, g: Bucket, a: string, t1: real, t2: real)
    requires Sensible(c) && Overshadowed(c) && t1 <= t2 && Available(c, kept, a, t1) >= 0.0
    requires Hidden(Available(c, mine, a, t1), Available(c, kept, a, t1), GlobalAvailable(c, g, t1))
    ensures Hidden(Available(c, mine, a, t2), Available(c, kept, a, t2), GlobalAvailable(c, g, t2))
  {
    hide Available, GlobalAvailable, GlobalBurst, Earned, Overshadowed;
    IsLimited(c);
    AvailableAt(c, mine, a, t1, t2);
    AvailableAt(c, kept, a, t1, t2);
    GlobalAt(c, g, t1, t2);
    EarnedGrows(t1, t2, c.rate);
    if GlobalBurst(c) > 0 { FasterEarnsMore(t1, t2, c.globalRps, c.rate); }
  }

  lemma KeptIsPositive(c: Config, kept: Buckets, a: string, now: real)
    requires Sensible(c) && Healthy(kept, now)
    ensures 0.0 <= Available(c, kept, a, now) <= c.burst as real
  {
    hide Earned;
    if a in kept { EarnedGrows(kept[a].last, now, c.rate); }
  }

  lemma ShadowsLater(c: Config, mine: Buckets, kept: Buckets, g: Bucket, t1: real, t2: real)
    requires Sensible(c) && Overshadowed(c) && Shadows(c, mine, kept, g, t1) && t1 <= t2
    ensures Shadows(c, mine, kept, g, t2)
  {
    hide Owed, Hidden, Available, GlobalAvailable, Sensible, Overshadowed;
    forall a | a in kept
      ensures Owed(c, kept[a], g, t2)
      ensures Hidden(Available(c, mine, a, t2), Available(c, kept, a, t2), GlobalAvailable(c, g, t2))
    {
      KeptIsPositive(c, kept, a, t1);
      OwedLater(c, kept[a], g, t1, t2);
      HiddenLater(c, mine, kept, g, a, t1, t2);
    }
  }

  /** A bucket falls short by no more than the global one. */
  lemma LacksNoMore(c: Config, kept: Buckets, g: Bucket, a: string, now: real)
    requires Sensible(c) && Overshadowed(c) && GlobalBurst(c) > 0
    requires a in kept ==> kept[a].last <= now && Owed(c, kept[a], g, now)
    ensures c.burst as real - Available(c, kept, a, now) <= GlobalBurst(c) as real - GlobalAvailable(c, g, now)
  {
    hide Earned, GlobalBurst;
    if a in kept { FasterEarnsMore(kept[a].last, now, c.globalRps, c.rate); }
  }

  /** What an idle bucket still lacks is more than the global one lets through. */
  lemma IdleIsHidden(c: Config, kept: Buckets, g: Bucket, a: string, now: real)
    requires Sensible(c) && Overshadowed(c) && a in kept && Owed(c, kept[a], g, now)
    requires kept[a].tokens >= 0.0 && kept[a].last < now - c.idleTimeout as real
    ensures Hidden(c.burst as real, Available(c, kept, a, now), GlobalAvailable(c, g, now))
  {
    hide Earned, GlobalBurst;
    var b, idle := kept[a], c.idleTimeout as real;
    EarnedGrows(b.last, now, c.rate);
    if GlobalBurst(c) > 0 {
      FasterEarnsMore(b.last, now, c.globalRps, c.rate);
      var more, d := c.rate - c.globalRps, now - b.last - idle;
      assert more * d >= 0.0;
      assert more * (idle + d) == more * idle + more * d;
    }
  }

  lemma SweepShadows(c: Config, mine: Buckets, kept: Buckets, g: Bucket, now: real)
    requires Sensible(c) && Overshadowed(c) && Shadows(c, mine, kept, g, now)
    ensures Shadows(c, Cleanup(c, mine, now), kept, g, now)
  {
    hide Owed, Hidden, Level, GlobalAvailable, Sensible, Overshadowed;
    var swept := Cleanup(c, mine, now);
    forall a | a in kept
      ensures Hidden(Available(c, swept, a, now), Available(c, kept, a, now), GlobalAvailable(c, g, now))
    {
      if a in mine && a !in swept { IdleIsHidden(c, kept, g, a, now); }
    }
  }

  /** One charge on both sides: the same answer, and `g'` is the global bucket that paid for it. */
  lemma PutShadows(c: Config, mine: Buckets, kept: Buckets, g: Bucket, a: string, n: real, now: real)
    requires Sensible(c) && Overshadowed(c) && Shadows(c, mine, kept, g, now)
    requires 0.0 <= n <= GlobalAvailable(c, g, now)
    ensures var g' := Consume(g, c.globalRps, GlobalBurst(c) as real, n, now).0;
            var (b, ok) := Consume(Own(c, mine, a, now), c.rate, c.burst as real, n, now);
            var (b', ok') := Consume(Own(c, kept, a, now), c.rate, c.burst as real, n, now);
            ok == ok' && Shadows(c, mine[a := b], kept[a := b'], g', now)
  {
    hide Owed, Hidden, Consume, Level, GlobalAvailable, GlobalBurst, Sensible, Overshadowed, Available, Own, Healthy;
    var g' := Consume(g, c.globalRps, GlobalBurst(c) as real, n, now).0;
    var (b, ok) := Consume(Own(c, mine, a, now), c.rate, c.burst as real, n, now);
    var (b', ok') := Consume(Own(c, kept, a, now), c.rate, c.burst as real, n, now);
    GlobalPays(c, g, n, now);
    PaidIsHidden(c, mine, kept, g, a, n, now);
    PaidIsHealthy(c, kept, a, n, now);
    var mine', kept' := mine[a := b], kept[a := b'];
    forall x | x in kept'
      ensures Owed(c, kept'[x], g', now)
      ensures Hidden(Available(c, mine', x, now), Available(c, kept', x, now), GlobalAvailable(c, g', now))
    {
      if x != a {
        OthersHidden(c, mine, kept, g, g', x, now, n);
        PutElsewhere(c, mine, a, b, x, now);
        PutElsewhere(c, kept, a, b', x, now);
      }
    }
    forall x | x in mine' ensures x in kept' && mine'[x].last == kept'[x].last {
      if x != a { ShadowsAt(c, mine, kept, g, now, x); }
    }
  }

  /** The bucket a request is charged to. */
  function Own(c: Config, buckets: Buckets, a: string, now: real): Bucket {
    if a in buckets then buckets[a] else Fresh(c.burst as real, now)
  }

  lemma OwnIs(c: Config, buckets: Buckets, a: string, now: real)
    ensures Level(c, Own(c, buckets, a, now), now) == Available(c, buckets, a, now)
  {
    FreshLevel(c.rate, c.burst as real, now);
  }

  lemma PutElsewhere(c: Config, buckets: Buckets, a: string, b: Bucket, x: string, now: real)
    requires x != a
    ensures Available(c, buckets[a := b], x, now) == Available(c, buckets, x, now)
  {
    hide Level;
  }

  lemma GlobalPays(c: Config, g: Bucket, n: real, now: real)
    requires 0.0 <= n <= GlobalAvailable(c, g, now)
    ensures var (g', ok) := Consume(g, c.globalRps, GlobalBurst(c) as real, n, now);
            ok && GlobalAvailable(c, g', now) == GlobalAvailable(c, g, now) - n
  {
    hide GlobalBurst, Consume, Refill;
    ConsumeCosts(g, c.globalRps, GlobalBurst(c) as real, n, now);
  }

  lemma OthersHidden(c: Config, mine: Buckets, kept: Buckets, g: Bucket, g': Bucket, x: string, now: real, n: real)
    requires Shadows(c, mine, kept, g, now) && x in kept
    requires n >= 0.0 && GlobalAvailable(c, g', now) == GlobalAvailable(c, g, now) - n
    ensures Owed(c, kept[x], g', now)
    ensures Hidden(Available(c, mine, x, now), Available(c, kept, x, now), GlobalAvailable(c, g', now))
  {
    hide GlobalBurst, GlobalAvailable, Level, Earned, Shadows;
    ShadowsAt(c, mine, kept, g, now, x);
  }

  lemma PaidIsHealthy(c: Config, kept: Buckets, a: string, n: real, now: real)
    requires Sensible(c) && Healthy(kept, now)
    ensures var b := Consume(Own(c, kept, a, now), c.rate, c.burst as real, n, now).0; Healthy(kept[a := b], now)
  {
    hide Consume;
    FreshIsSound(c, now);
    ConsumeNonNegative(c, Own(c, kept, a, now), n, now);
  }

  lemma PaidIsHidden(c: Config, mine: Buckets, kept: Buckets, g: Bucket, a: string, n: real, now: real)
    requires Sensible(c) && Overshadowed(c) && Shadows(c, mine, kept, g, now)
    requires 0.0 <= n <= GlobalAvailable(c, g, now)
    ensures var g' := Consume(g, c.globalRps, GlobalBurst(c) as real, n, now).0;
            var (b, ok) := Consume(Own(c, mine, a, now), c.rate, c.burst as real, n, now);
            var (b', ok') := Consume(Own(c, kept, a, now), c.rate, c.burst as real, n, now);
            && ok == ok' && b.last == b'.last == now
            && Owed(c, b', g', now)
            && Hidden(Available(c, mine[a := b], a, now), Available(c, kept[a := b'], a, now),
                      GlobalAvailable(c, g', now))
  {
    hide Consume, Refill, Available, GlobalAvailable, GlobalBurst, Sensible, Overshadowed, Shadows, Own, Owed, Earned;
    ShadowsAt(c, mine, kept, g, now, a);
    GlobalPays(c, g, n, now);
    OwnIs(c, mine, a, now);
    OwnIs(c, kept, a, now);
    ConsumeCosts(Own(c, mine, a, now), c.rate, c.burst as real, n, now);
    ConsumeCosts(Own(c, kept, a, now), c.rate, c.burst as real, n, now);
    var g' := Consume(g, c.globalRps, GlobalBurst(c) as real, n, now).0;
    var b := Consume(Own(c, mine, a, now), c.rate, c.burst as real, n, now).0;
    var b' := Consume(Own(c, kept, a, now), c.rate, c.burst as real, n, now).0;
    PutHere(c, mine, a, b, now);
    PutHere(c, kept, a, b', now);
    TokensAfter(Own(c, kept, a, now), c.rate, c.burst as real, n, now);
    if GlobalBurst(c) > 0 { LacksNoMore(c, kept, g, a, now); }
    OwedAtOnce(c, b', g');
  }

  lemma TokensAfter(b: Bucket, rate: real, burst: real, n: real, now: real)
    ensures var (b', ok) := Consume(b, rate, burst, n, now);
            b'.tokens == Refill(b, rate, burst, now).tokens - if ok then n else 0.0
  {
  }

  lemma OwedAtOnce(c: Config, b: Bucket, g: Bucket)
    requires GlobalBurst(c) > 0 ==> c.burst as real - b.tokens <= GlobalBurst(c) as real - GlobalAvailable(c, g, b.last)
    ensures Owed(c, b, g, b.last)
  {
    hide GlobalBurst, GlobalAvailable, Earned;
    EarnedAdds(b.last, b.last, b.last, c.globalRps);
  }

  lemma PutHere(c: Config, buckets: Buckets, a: string, b: Bucket, now: real)
    ensures Available(c, buckets[a := b], a, now) == Level(c, b, now)
  {
  }

  lemma RequestShadows(c: Config, s: Limiter, k: Limiter, a: string, n: real, now: real)
    requires Sensible(c) && Overshadowed(c) && s.global.Some? && s.global == k.global && n >= 0.0
    requires Shadows(c, s.buckets, k.buckets, s.global.value, now)
    ensures var (s', ok) := Allow(c, true, s, a, n, now);
            var (k', ok') := Allow(c, false, k, a, n, now);
            && ok == ok' && s'.global.Some? && s'.global == k'.global
            && Shadows(c, s'.buckets, k'.buckets, s'.global.value, now)
  {
    hide Shadows, Cleanup, Sensible, Overshadowed, Consume, GlobalBurst, GlobalAvailable;
    var g := s.global.value;
    AskGlobal(c, g, n, now);
    var (g', enough) := Consume(g, c.globalRps, GlobalBurst(c) as real, n, now);
    if enough {
      var swept := if a !in s.buckets && |s.buckets| >= c.maxActors then Cleanup(c, s.buckets, now) else s.buckets;
      SweepShadows(c, s.buckets, k.buckets, g, now);
      PutShadows(c, swept, k.buckets, g, a, n, now);
      SweptIsGone(c, s.buckets, a, now);
      var b := Consume(Own(c, swept, a, now), c.rate, c.burst as real, n, now).0;
      var b' := Consume(Own(c, k.buckets, a, now), c.rate, c.burst as real, n, now).0;
      SweepShadows(c, swept[a := b], k.buckets[a := b'], g', now);
    } else {
      RefusedShadows(c, s.buckets, k.buckets, g, g', now);
    }
  }

  lemma SweptIsGone(c: Config, buckets: Buckets, a: string, now: real)
    ensures a !in buckets ==> a !in Cleanup(c, buckets, now)
  {
  }

  lemma AskGlobal(c: Config, g: Bucket, n: real, now: real)
    requires n >= 0.0
    ensures var (g', ok) := Consume(g, c.globalRps, GlobalBurst(c) as real, n, now);
            && (ok <==> n <= GlobalAvailable(c, g, now))
            && (!ok ==> GlobalAvailable(c, g', now) == GlobalAvailable(c, g, now))
  {
    hide GlobalBurst, Consume, Refill;
    ConsumeCosts(g, c.globalRps, GlobalBurst(c) as real, n, now);
  }

  lemma RefusedShadows(c: Config, mine: Buckets, kept: Buckets, g: Bucket, g': Bucket, now: real)
    requires Shadows(c, mine, kept, g, now) && GlobalAvailable(c, g', now) == GlobalAvailable(c, g, now)
    ensures Shadows(c, mine, kept, g', now)
  {
    hide GlobalAvailable, Available, Hidden, GlobalBurst;
  }

  lemma StatusShadows(c: Config, s: Limiter, k: Limiter, a: string, now: real)
    requires Sensible(c) && Overshadowed(c) && s.global.Some? && s.global == k.global
    requires Shadows(c, s.buckets, k.buckets, s.global.value, now)
    ensures var s', k' := GetStatus(c, s, a, now), GetStatus(c, k, a, now);
            s'.global == k'.global == s.global && Shadows(c, s'.buckets, k'.buckets, s.global.value, now)
  {
    hide GlobalAvailable, Hidden, GlobalBurst, Sensible, Overshadowed, Owed, Refill, Shadows;
    var g := s.global.value;
    if a in k.buckets {
      var b := Refill(k.buckets[a], c.rate, c.burst as real, now);
      ShadowsAt(c, s.buckets, k.buckets, g, now, a);
      RefillNow(k.buckets[a], c.rate, c.burst as real, now);
      KeptIsHealthy(c, s.buckets, k.buckets, g, now);
      KeptIsPositive(c, k.buckets, a, now);
      if GlobalBurst(c) > 0 { LacksNoMore(c, k.buckets, g, a, now); }
      OwedAtOnce(c, b, g);
      if a in s.buckets { RefillNow(s.buckets[a], c.rate, c.burst as real, now); }
      LookedAtShadows(c, s.buckets, k.buckets, g, a, now);
    } else {
      ShadowsAt(c, s.buckets, k.buckets, g, now, a);
    }
  }

  lemma KeptIsHealthy(c: Config, mine: Buckets, kept: Buckets, g: Bucket, now: real)
    requires Shadows(c, mine, kept, g, now)
    ensures Healthy(kept, now)
  {
  }

  lemma RefillNow(b: Bucket, rate: real, burst: real, now: real)
    ensures var b' := Refill(b, rate, burst, now); b'.last == now && Refill(b', rate, burst, now) == b'
  {
    hide Earned;
    EarnedAdds(now, now, now, rate);
  }

  lemma LookedAtShadows(c: Config, mine: Buckets, kept: Buckets, g: Bucket, a: string, now: real)
    requires Sensible(c) && Shadows(c, mine, kept, g, now) && a in kept
    requires var b := Refill(kept[a], c.rate, c.burst as real, now);
             && b.tokens >= 0.0 && b.last == now && Owed(c, b, g, now) && Refill(b, c.rate, c.burst as real, now) == b
    requires a in mine ==> var b := Refill(mine[a], c.rate, c.burst as real, now);
                           b.last == now && Refill(b, c.rate, c.burst as real, now) == b
    ensures Shadows(c, if a in mine then mine[a := Refill(mine[a], c.rate, c.burst as real, now)] else mine,
                    kept[a := Refill(kept[a], c.rate, c.burst as real, now)], g, now)
  {
    hide GlobalAvailable, Hidden, GlobalBurst, Sensible, Owed, Refill;
  }

  lemma StepShadows(c: Config, s: Limiter, k: Limiter, e: Event)
    requires Sensible(c) && Overshadowed(c) && s.global.Some? && s.global == k.global
    requires e.Request? ==> e.amount >= 0.0
    requires Shadows(c, s.buckets, k.buckets, s.global.value, e.now)
    ensures var (s', ok) := Step(c, true, s, e);
            var (k', ok') := Step(c, false, k, e);
            && ok == ok' && s'.global.Some? && s'.global == k'.global
            && Shadows(c, s'.buckets, k'.buckets, s'.global.value, e.now)
  {
    hide Shadows, Allow, GetStatus, Sensible, Overshadowed;
    match e
    case Request(a, n, now) => RequestShadows(c, s, k, a, n, now);
    case StatusQuery(a, now) => StatusShadows(c, s, k, a, now);
  }

  lemma {:induction false} ShadowedAnswers(c: Config, s: Limiter, k: Limiter, from: real, events: seq<Event>)
    requires Sensible(c) && Overshadowed(c) && s.global.Some? && s.global == k.global
    requires Shadows(c, s.buckets, k.buckets, s.global.value, from)
    requires Timed(from, events) && AmountsOk(events)
    ensures Answers(c, true, s, events) == Answers(c, false, k, events)
    decreases |events|
  {
    hide Step, Shadows, Sensible, Overshadowed;
    if events != [] {
      var e := events[0];
      ShadowsLater(c, s.buckets, k.buckets, s.global.value, from, e.now);
      StepShadows(c, s, k, e);
      ShadowedAnswers(c, Step(c, true, s, e).0, Step(c, false, k, e).0, e.now, events[1..]);
    }
  }

  lemma NothingIsShadowed(c: Config, start: real)
    requires Sensible(c) && Overshadowed(c)
    ensures var s := Start(c, start); s.global.Some? && Shadows(c, s.buckets, s.buckets, s.global.value, start)
  {
    hide GlobalBurst;
  }

  /** In the shadow of the global limit deletion cannot be noticed, however short the idle timeout. */
  lemma OvershadowedIsInvisible(c: Config, start: real, events: seq<Event>)
    requires Sensible(c) && Overshadowed(c) && Timed(start, events) && AmountsOk(events)
    ensures Answers(c, true, Start(c, start), events) == Answers(c, false, Start(c, start), events)
  {
    hide GlobalBurst;
    ShadowedAnswers(c, Start(c, start), Start(c, start), start, events);
  }

  /** The state of a deleting limiter at any moment of a run has a keeping counterpart. */
  lemma {:induction false} RunStaysShadowed(c: Config, s: Limiter, k: Limiter, from: real, events: seq<Event>)
    requires Sensible(c) && Overshadowed(c) && s.global.Some? && s.global == k.global
    requires Shadows(c, s.buckets, k.buckets, s.global.value, from)
    requires Timed(from, events) && AmountsOk(events)
    ensures var s', k', now := Run(c, true, s, events), Run(c, false, k, events), LastNow(from, events);
            s'.global.Some? && s'.global == k'.global && Shadows(c, s'.buckets, k'.buckets, s'.global.value, now)
    decreases |events|
  {
    hide Step, Shadows, Sensible, Overshadowed;
    if events != [] {
      var e := events[0];
      ShadowsLater(c, s.buckets, k.buckets, s.global.value, from, e.now);
      StepShadows(c, s, k, e);
      RunStaysShadowed(c, Step(c, true, s, e).0, Step(c, false, k, e).0, e.now, events[1..]);
    }
  }

  lemma AmountsSplit(before: seq<Event>, window: seq<Event>)
    requires AmountsOk(before + window)
    ensures AmountsOk(before) && AmountsOk(window)
  {
    var all := before + window;
    forall k | 0 <= k < |before| && before[k].Request? ensures before[k].amount >= 0.0 { assert all[k] == before[k]; }
    forall k | 0 <= k < |window| && window[k].Request? ensures window[k].amount >= 0.0 {
      assert all[|before| + k] == window[k];
    }
  }

  /** The rate limit of one actor holds in the shadow of the global limit as well. */
  lemma ShadowedActorBound(c: Config, start: real, before: seq<Event>, window: seq<Event>, actor: string)
    requires Sensible(c) && Overshadowed(c)
    requires Timed(start, before + window) && AmountsOk(before + window) && window != []
    ensures Admitted(c, true, Run(c, true, Start(c, start), before), window, Some(actor))
         <= c.burst as real + Earned(window[0].now, window[|window| - 1].now, c.rate)
  {
    hide Shadows, Sensible, Overshadowed, Earned, Admitted, Answers, Run, Start;
    var s0 := Start(c, start);
    AmountsSplit(before, window);
    NothingIsShadowed(c, start);
    TimedSplits(start, before, window);
    var t0, t1 := LastNow(start, before), window[0].now;
    RunStaysShadowed(c, s0, s0, start, before);
    var s, k := Run(c, true, s0, before), Run(c, false, s0, before);
    ShadowsLater(c, s.buckets, k.buckets, s.global.value, t0, t1);
    assert Timed(t1, window) && t0 <= t1;
    ShadowedAnswers(c, s, k, t1, window);
    AdmittedFollowsAnswers(c, s, k, window, Some(actor));
    KeptIsHealthy(c, s.buckets, k.buckets, s.global.value, t1);
    KeepBudget(c, k, actor, t1, window);
    AvailableNonNegative(c, k, actor, t1);
  }
}
