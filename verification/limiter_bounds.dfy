/** How much the two-level limiter can let through: the rate limit of one actor and of all together, over any window
    of any run. */
module LimiterBounds {
  import opened Collections
  import opened TokenBucket
  import opened LimiterModel

  ghost predicate AmountsOk(events: seq<Event>) {
    forall k | 0 <= k < |events| && events[k].Request? :: events[k].amount >= 0.0
  }

  /** Tokens admitted to `actor`, or to everyone, over a stretch of events. */
  function Admitted(c: Config, evict: bool, s: Limiter, events: seq<Event>, who: Option<string>): real
    decreases |events|
  {
    if events == [] then 0.0
    else
      var (s', ok) := Step(c, evict, s, events[0]);
      (if events[0].Request? && ok && (who.None? || who == Some(events[0].actor)) then events[0].amount else 0.0)
      + Admitted(c, evict, s', events[1..], who)
  }

  /** What an actor could spend at once. */
  function Available(c: Config, buckets: Buckets, actor: string, now: real): real {
    if actor in buckets then Level(c, buckets[actor], now) else c.burst as real
  }

  function GlobalAvailable(c: Config, g: Bucket, now: real): real {
    Refill(g, c.globalRps, GlobalBurst(c) as real, now).tokens
  }

  /** A request is admitted exactly when the global bucket, if there is one, and then the actor's own hold enough. */
  lemma AllowedIff(c: Config, evict: bool, s: Limiter, actor: string, n: real, now: real)
    ensures Allow(c, evict, s, actor, n, now).1 <==>
            && (s.global.Some? ==> GlobalAvailable(c, s.global.value, now) >= n)
            && Available(c, s.buckets, actor, now) >= n
  {
    hide Earned, Cleanup, GlobalBurst;
    EarnedAdds(now, now, now, c.rate);
  }

  lemma ConsumeCosts(b: Bucket, rate: real, burst: real, n: real, now: real)
    requires n >= 0.0
    ensures var (b', ok) := Consume(b, rate, burst, n, now);
            && b'.last == now && (ok <==> Refill(b, rate, burst, now).tokens >= n)
            && Refill(b', rate, burst, now).tokens == Refill(b, rate, burst, now).tokens - if ok then n else 0.0
  {
    hide Earned;
    EarnedAdds(now, now, now, rate);
  }

  lemma FreshLevel(rate: real, burst: real, now: real)
    ensures Refill(Fresh(burst, now), rate, burst, now).tokens == burst
  {
    hide Earned;
    EarnedAdds(now, now, now, rate);
  }

  /** What a request costs: the global bucket pays whenever it holds enough, even if the actor's own bucket then
      refuses; the actor pays for what is admitted. */
  lemma RequestCosts(c: Config, evict: bool, s: Limiter, actor: string, n: real, now: real)
    requires n >= 0.0 && c.idleTimeout >= 0
    ensures var (s', ok) := Allow(c, evict, s, actor, n, now);
            && Available(c, s'.buckets, actor, now) == Available(c, s.buckets, actor, now) - (if ok then n else 0.0)
            && (s.global.Some? ==>
                  s'.global.Some?
                  && GlobalAvailable(c, s'.global.value, now)
                     == GlobalAvailable(c, s.global.value, now)
                        - if GlobalAvailable(c, s.global.value, now) >= n then n else 0.0)
  {
    hide Refill, Consume, Fresh, GlobalBurst;
    if s.global.Some? { ConsumeCosts(s.global.value, c.globalRps, GlobalBurst(c) as real, n, now); }
    var own := if actor in s.buckets then s.buckets[actor] else Fresh(c.burst as real, now);
    ConsumeCosts(own, c.rate, c.burst as real, n, now);
    FreshLevel(c.rate, c.burst as real, now);
  }

  lemma RefillLater(b: Bucket, rate: real, burst: real, t1: real, t2: real)
    requires rate >= 0.0 && t1 <= t2
    ensures Refill(b, rate, burst, t2).tokens <= Refill(b, rate, burst, t1).tokens + Earned(t1, t2, rate)
  {
    hide Earned;
    EarnedAdds(b.last, t1, t2, rate);
    EarnedGrows(t1, t2, rate);
  }

  lemma AfterConsume(b: Bucket, rate: real, burst: real, n: real, now: real)
    requires n >= 0.0
    ensures var (b', ok) := Consume(b, rate, burst, n, now);
            Refill(b', rate, burst, now).tokens + (if ok then n else 0.0) <= Refill(b, rate, burst, now).tokens
  {
    hide Earned;
    EarnedAdds(now, now, now, rate);
  }

  function LastNow(from: real, events: seq<Event>): real {
    if events == [] then from else events[|events| - 1].now
  }

  /** The keeping limiter: one event takes from the actor what it admits. */
  lemma KeepStepBudget(c: Config, k: Limiter, actor: string, e: Event)
    requires Sensible(c) && (e.Request? ==> e.amount >= 0.0)
    ensures var (k', ok) := Step(c, false, k, e);
            Available(c, k'.buckets, actor, e.now) + (if e.Request? && ok && e.actor == actor then e.amount else 0.0)
            <= Available(c, k.buckets, actor, e.now)
  {
    hide Earned;
    EarnedAdds(e.now, e.now, e.now, c.rate);
    match e
    case Request(a, n, now) =>
      var b := if a in k.buckets then k.buckets[a] else Fresh(c.burst as real, now);
      AfterConsume(b, c.rate, c.burst as real, n, now);
    case StatusQuery(a, now) =>
      if a in k.buckets { RefillTwice(k.buckets[a], c.rate, c.burst as real, now, now); }
  }

  lemma KeepStepHealthy(c: Config, k: Limiter, e: Event)
    requires Sensible(c) && Healthy(k.buckets, e.now)
    ensures Healthy(Step(c, false, k, e).0.buckets, e.now)
  {
    match e
    case Request(a, n, now) =>
      FreshIsSound(c, now);
      ConsumeNonNegative(c, if a in k.buckets then k.buckets[a] else Fresh(c.burst as real, now), n, now);
    case StatusQuery(a, now) =>
      if a in k.buckets { EarnedGrows(k.buckets[a].last, now, c.rate); }
  }

  lemma AvailableNonNegative(c: Config, k: Limiter, actor: string, now: real)
    requires Sensible(c) && Healthy(k.buckets, now)
    ensures 0.0 <= Available(c, k.buckets, actor, now) <= c.burst as real
  {
    hide Earned;
    if actor in k.buckets { EarnedGrows(k.buckets[actor].last, now, c.rate); }
  }

  lemma {:induction false} KeepBudget(c: Config, k: Limiter, actor: string, from: real, events: seq<Event>)
    requires Sensible(c) && Timed(from, events) && AmountsOk(events) && Healthy(k.buckets, from)
    ensures Admitted(c, false, k, events, Some(actor))
         <= Available(c, k.buckets, actor, from) + Earned(from, LastNow(from, events), c.rate)
    decreases |events|
  {
    hide Earned, Step, Available;
    if events == [] {
      EarnedAdds(from, from, from, c.rate);
      AvailableNonNegative(c, k, actor, from);
    } else {
      var e, rest := events[0], events[1..];
      KeepStepBudget(c, k, actor, e);
      KeepStepHealthy(c, k, e);
      KeepBudget(c, Step(c, false, k, e).0, actor, e.now, rest);
      AvailableLater(c, k, actor, from, e.now);
      EarnedAdds(from, e.now, LastNow(from, events), c.rate);
    }
  }

  lemma AvailableLater(c: Config, k: Limiter, actor: string, t1: real, t2: real)
    requires Sensible(c) && t1 <= t2
    ensures Available(c, k.buckets, actor, t2) <= Available(c, k.buckets, actor, t1) + Earned(t1, t2, c.rate)
  {
    hide Earned;
    EarnedGrows(t1, t2, c.rate);
    if actor in k.buckets { RefillLater(k.buckets[actor], c.rate, c.burst as real, t1, t2); }
  }

  // ---- the bounds ----

  lemma {:induction false} AdmittedFollowsAnswers(c: Config, s: Limiter, k: Limiter, events: seq<Event>,
                                                  who: Option<string>)
    requires Answers(c, true, s, events) == Answers(c, false, k, events)
    ensures Admitted(c, true, s, events, who) == Admitted(c, false, k, events, who)
    decreases |events|
  {
    hide Step;
    if events != [] {
      var (s', ok) := Step(c, true, s, events[0]);
      var (k', ok') := Step(c, false, k, events[0]);
      var x, y := Answers(c, true, s', events[1..]), Answers(c, false, k', events[1..]);
      assert ([ok] + x)[0] == ([ok'] + y)[0] && ([ok] + x)[1..] == x && ([ok'] + y)[1..] == y;
      AdmittedFollowsAnswers(c, s', k', events[1..], who);
    }
  }

  /** The state of a deleting limiter at any moment of a run has a keeping counterpart. */
  lemma {:induction false} RunStaysMirrored(c: Config, s: Limiter, k: Limiter, from: real, events: seq<Event>)
    requires Sensible(c) && FillsWhileIdle(c) && s.global == k.global && Mirrors(c, s.buckets, k.buckets, from)
    requires Timed(from, events)
    ensures Run(c, true, s, events).global == Run(c, false, k, events).global
    ensures Mirrors(c, Run(c, true, s, events).buckets, Run(c, false, k, events).buckets, LastNow(from, events))
    decreases |events|
  {
    hide Mirrors, Step, Sensible, FillsWhileIdle;
    if events != [] {
      var e := events[0];
      MirrorsLater(c, s.buckets, k.buckets, from, e.now);
      StepMirrors(c, s, k, e);
      RunStaysMirrored(c, Step(c, true, s, e).0, Step(c, false, k, e).0, e.now, events[1..]);
    }
  }

  lemma {:induction false} TimedSplits(from: real, before: seq<Event>, window: seq<Event>)
    requires Timed(from, before + window)
    ensures Timed(from, before) && Timed(LastNow(from, before), window)
    decreases |before|
  {
    if before == [] {
      assert before + window == window;
    } else {
      assert (before + window)[1..] == before[1..] + window;
      TimedSplits(before[0].now, before[1..], window);
    }
  }

  /** The rate limit of one actor. Whatever came before, over any window of a run at most burst + rate * T tokens are
      admitted for an actor, T being the time from the first to the last event of the window. */
  lemma ActorBound(c: Config, start: real, before: seq<Event>, window: seq<Event>, actor: string)
    requires Sensible(c) && FillsWhileIdle(c)
    requires Timed(start, before + window) && AmountsOk(window) && window != []
    ensures Admitted(c, true, Run(c, true, Start(c, start), before), window, Some(actor))
         <= c.burst as real + Earned(window[0].now, window[|window| - 1].now, c.rate)
  {
    hide Mirrors, Sensible, FillsWhileIdle, Earned, Admitted, Answers, Run;
    var s0 := Start(c, start);
    assert Mirrors(c, s0.buckets, s0.buckets, start) by { NothingMirrorsItself(c, start); }
    TimedSplits(start, before, window);
    var t0, t1 := LastNow(start, before), window[0].now;
    RunStaysMirrored(c, s0, s0, start, before);
    var s, k := Run(c, true, s0, before), Run(c, false, s0, before);
    MirrorsLater(c, s.buckets, k.buckets, t0, t1);
    assert Timed(t1, window) && t0 <= t1;
    RunMirrors(c, s, k, t1, window);
    AdmittedFollowsAnswers(c, s, k, window, Some(actor));
    MirroredIsHealthy(c, s.buckets, k.buckets, t1);
    KeepBudget(c, k, actor, t1, window);
    AvailableNonNegative(c, k, actor, t1);
  }

  lemma NothingMirrorsItself(c: Config, now: real)
    ensures Mirrors(c, Start(c, now).buckets, Start(c, now).buckets, now)
  {
  }

  lemma MirroredIsHealthy(c: Config, mine: Buckets, kept: Buckets, now: real)
    requires Mirrors(c, mine, kept, now)
    ensures Healthy(kept, now)
  {
  }

  // ---- everyone together ----

  lemma GlobalStepBudget(c: Config, s: Limiter, e: Event)
    requires c.globalRps > 0.0 && s.global.Some? && (e.Request? ==> e.amount >= 0.0)
    ensures var (s', ok) := Step(c, true, s, e);
            && s'.global.Some?
            && GlobalAvailable(c, s'.global.value, e.now) + (if e.Request? && ok then e.amount else 0.0)
               <= GlobalAvailable(c, s.global.value, e.now)
  {
    hide Charge, Cleanup, Earned, GlobalBurst;
    match e
    case Request(a, n, now) => AfterConsume(s.global.value, c.globalRps, GlobalBurst(c) as real, n, now);
    case StatusQuery(a, now) =>
  }

  ghost predicate HealthyGlobal(s: Limiter, now: real) {
    s.global.Some? && s.global.value.tokens >= 0.0 && s.global.value.last <= now
  }

  lemma GlobalBurstPositive(c: Config)
    requires c.globalRps > 0.0
    ensures GlobalBurst(c) >= 0
  {
  }

  lemma GlobalStepHealthy(c: Config, s: Limiter, e: Event)
    requires c.globalRps > 0.0 && HealthyGlobal(s, e.now)
    ensures HealthyGlobal(Step(c, true, s, e).0, e.now)
  {
    hide Charge, Cleanup, Earned, GlobalBurst;
    GlobalBurstPositive(c);
    EarnedGrows(s.global.value.last, e.now, c.globalRps);
  }

  lemma GlobalAvailableNonNegative(c: Config, s: Limiter, now: real)
    requires c.globalRps > 0.0 && HealthyGlobal(s, now)
    ensures 0.0 <= GlobalAvailable(c, s.global.value, now) <= GlobalBurst(c) as real
  {
    hide Earned, GlobalBurst;
    GlobalBurstPositive(c);
    EarnedGrows(s.global.value.last, now, c.globalRps);
  }

  lemma {:induction false} GlobalBudget(c: Config, s: Limiter, from: real, events: seq<Event>)
    requires c.globalRps > 0.0 && HealthyGlobal(s, from) && Timed(from, events) && AmountsOk(events)
    ensures Admitted(c, true, s, events, None)
         <= GlobalAvailable(c, s.global.value, from) + Earned(from, LastNow(from, events), c.globalRps)
    decreases |events|
  {
    hide Earned, Step, GlobalBurst, Refill;
    if events == [] {
      EarnedAdds(from, from, from, c.globalRps);
      GlobalAvailableNonNegative(c, s, from);
    } else {
      var e, rest := events[0], events[1..];
      GlobalStepBudget(c, s, e);
      GlobalStepHealthy(c, s, e);
      GlobalBudget(c, Step(c, true, s, e).0, e.now, rest);
      RefillLater(s.global.value, c.globalRps, GlobalBurst(c) as real, from, e.now);
      EarnedAdds(from, e.now, LastNow(from, events), c.globalRps);
    }
  }

  lemma {:induction false} RunHealthyGlobal(c: Config, s: Limiter, from: real, events: seq<Event>)
    requires c.globalRps > 0.0 && HealthyGlobal(s, from) && Timed(from, events)
    ensures HealthyGlobal(Run(c, true, s, events), LastNow(from, events))
    decreases |events|
  {
    hide Step;
    if events != [] {
      GlobalStepHealthy(c, s, events[0]);
      RunHealthyGlobal(c, Step(c, true, s, events[0]).0, events[0].now, events[1..]);
    }
  }

  /** The global rate limit, with or without idle deletion: over any window of a run, all actors together are admitted
      at most the global burst and what the window has earned. */
  lemma GlobalBound(c: Config, start: real, before: seq<Event>, window: seq<Event>)
    requires c.globalRps > 0.0
    requires Timed(start, before + window) && AmountsOk(window) && window != []
    ensures Admitted(c, true, Run(c, true, Start(c, start), before), window, None)
         <= GlobalBurst(c) as real + Earned(window[0].now, window[|window| - 1].now, c.globalRps)
  {
    GlobalBurstPositive(c);
    var s0 := Start(c, start);
    assert HealthyGlobal(s0, start);
    hide Earned, Admitted, Run, GlobalBurst, Start, GlobalAvailable;
    TimedSplits(start, before, window);
    RunHealthyGlobal(c, s0, start, before);
    var s, t := Run(c, true, s0, before), window[0].now;
    assert HealthyGlobal(s, t) && Timed(t, window);
    GlobalBudget(c, s, t, window);
    GlobalAvailableNonNegative(c, s, t);
  }

  // ---- the effect of a request, bucket by bucket ----

  /** The global bucket holds what is earned in ten seconds, rounded down, and so it starts. */
  lemma GlobalBurstIs(c: Config, now: real)
    ensures GlobalBurst(c) as real <= 10.0 * c.globalRps < GlobalBurst(c) as real + 1.0
    ensures var s := Start(c, now);
            && s.buckets == map[] && s.lastCleanup == now
            && (s.global.Some? <==> c.globalRps > 0.0)
            && (s.global.Some? ==> s.global.value == Bucket(GlobalBurst(c) as real, now))
  {
  }

  /** What a bucket holds at a moment. */
  ghost predicate Holds(b: Bucket, rate: real, burst: real, now: real, held: real) {
    var earned := b.tokens + rate * (now - b.last);
    held == if earned < burst then earned else burst
  }

  lemma HeldPays(b: Bucket, rate: real, burst: real, n: real, now: real, held: real)
    requires Holds(b, rate, burst, now, held)
    ensures Consume(b, rate, burst, n, now) == (Bucket(if n <= held then held - n else held, now), n <= held)
  {
    hide Consume;
    ConsumeIff(b, rate, burst, n, now);
  }

  lemma FreshHolds(rate: real, burst: real, now: real)
    ensures Holds(Fresh(burst, now), rate, burst, now, burst)
  {
  }

  lemma ChargedBuckets(c: Config, buckets: Buckets, actor: string, n: real, now: real, held: real)
    requires if actor in buckets then Holds(buckets[actor], c.rate, c.burst as real, now, held)
             else held == c.burst as real
    ensures var (after, ok) := Charge(c, true, buckets, actor, n, now);
            var full := actor !in buckets && |buckets| >= c.maxActors;
            && (ok <==> n <= held)
            && after == (if full then Cleanup(c, buckets, now) else buckets)
                        [actor := Bucket(if ok then held - n else held, now)]
  {
    hide Consume, Holds, Cleanup;
    FreshHolds(c.rate, c.burst as real, now);
    HeldPays(if actor in buckets then buckets[actor] else Fresh(c.burst as real, now), c.rate, c.burst as real, n, now,
             held);
  }

  lemma SweptTwice(c: Config, buckets: Buckets, actor: string, b: Bucket, now: real, full: bool, late: bool)
    requires c.idleTimeout >= 0 && b.last == now
    ensures var charged := (if full then Cleanup(c, buckets, now) else buckets)[actor := b];
            var after := if late then Cleanup(c, charged, now) else charged;
            && actor in after && after[actor] == b
            && (forall x | x != actor ::
                  x in after <==>
                    x in buckets && !((late || full) && buckets[x].last < now - c.idleTimeout as real))
            && (forall x | x in after && x != actor :: after[x] == buckets[x])
  {
  }

  /** A request that the global bucket grants, or that there is none for: the actor's bucket, a full one if it has
      none, decides and pays. The others stay as they are, except that idle ones are deleted when more than a minute
      has passed since that was last done, or when a new actor comes and there are already `maxActors`. */
  lemma GrantedRequest(c: Config, s: Limiter, actor: string, n: real, now: real, globally: real, held: real)
    requires c.idleTimeout >= 0
    requires s.global.Some? ==>
               Holds(s.global.value, c.globalRps, GlobalBurst(c) as real, now, globally) && n <= globally
    requires if actor in s.buckets then Holds(s.buckets[actor], c.rate, c.burst as real, now, held)
             else held == c.burst as real
    ensures var (s', ok) := Allow(c, true, s, actor, n, now);
            var late := now - s.lastCleanup > 60.0;
            var swept := late || (actor !in s.buckets && |s.buckets| >= c.maxActors);
            && (ok <==> n <= held)
            && actor in s'.buckets && s'.buckets[actor] == Bucket(if ok then held - n else held, now)
            && (forall x | x != actor ::
                  x in s'.buckets <==>
                    x in s.buckets && !(swept && s.buckets[x].last < now - c.idleTimeout as real))
            && (forall x | x in s'.buckets && x != actor :: s'.buckets[x] == s.buckets[x])
            && s'.lastCleanup == (if late then now else s.lastCleanup)
            && s'.global == if s.global.Some? then Some(Bucket(globally - n, now)) else None
  {
    hide Charge, Consume, Holds, Cleanup, GlobalBurst;
    if s.global.Some? { HeldPays(s.global.value, c.globalRps, GlobalBurst(c) as real, n, now, globally); }
    ChargedBuckets(c, s.buckets, actor, n, now, held);
    var late, full := now - s.lastCleanup > 60.0, actor !in s.buckets && |s.buckets| >= c.maxActors;
    SweptTwice(c, s.buckets, actor, Bucket(if n <= held then held - n else held, now), now, full, late);
  }

  /** A request that the global bucket refuses leaves every actor's bucket alone. */
  lemma RefusedRequest(c: Config, s: Limiter, actor: string, n: real, now: real, globally: real)
    requires s.global.Some? && Holds(s.global.value, c.globalRps, GlobalBurst(c) as real, now, globally) && n > globally
    ensures Allow(c, true, s, actor, n, now) == (s.(global := Some(Bucket(globally, now))), false)
  {
    hide Consume, GlobalBurst, Holds;
    HeldPays(s.global.value, c.globalRps, GlobalBurst(c) as real, n, now, globally);
  }

  // ---- how many actors are tracked ----

  /** A sweep would delete nothing. */
  ghost predicate NoneIdle(c: Config, buckets: Buckets, now: real) {
    forall a | a in buckets :: !(buckets[a].last < now - c.idleTimeout as real)
  }

  lemma CleanupShrinks(c: Config, buckets: Buckets, now: real)
    ensures Cleanup(c, buckets, now).Keys <= buckets.Keys && |Cleanup(c, buckets, now)| <= |buckets|
    ensures |Cleanup(c, buckets, now)| == |buckets| <==> NoneIdle(c, buckets, now)
  {
    var swept := Cleanup(c, buckets, now);
    SubsetCard(swept.Keys, buckets.Keys);
    if NoneIdle(c, buckets, now) { assert swept.Keys == buckets.Keys; }
  }

  lemma SubsetCard(a: set<string>, b: set<string>)
    requires a <= b
    ensures |a| <= |b| && (|a| == |b| <==> a == b)
  {
    assert b == a + (b - a);
  }

  lemma PutCard(buckets: Buckets, a: string, b: Bucket)
    ensures |buckets[a := b]| == |buckets| + if a in buckets then 0 else 1
  {
    assert buckets[a := b].Keys == buckets.Keys + {a};
    if a in buckets { assert buckets[a := b].Keys == buckets.Keys; }
  }

  lemma PutKeeps(c: Config, buckets: Buckets, a: string, b: Bucket, now: real)
    requires b.last == now && c.idleTimeout >= 0
    ensures a in Cleanup(c, buckets[a := b], now)
    ensures NoneIdle(c, buckets, now) ==> NoneIdle(c, buckets[a := b], now)
  {
  }

  /** `max_actors` is no maximum: a request leads beyond it exactly when it is admitted globally, its actor is new, the
      limit is reached and no bucket is idle. */
  lemma TrackedIff(c: Config, s: Limiter, a: string, n: real, now: real)
    requires c.idleTimeout >= 0 && |s.buckets| <= c.maxActors
    ensures |Allow(c, true, s, a, n, now).0.buckets| <= c.maxActors
       <==> !(ChargeGlobal(c, s.global, n, now).1 && a !in s.buckets && |s.buckets| == c.maxActors
              && NoneIdle(c, s.buckets, now))
  {
    hide Cleanup, Consume, ChargeGlobal, NoneIdle;
    if ChargeGlobal(c, s.global, n, now).1 {
      var full := a !in s.buckets && |s.buckets| >= c.maxActors;
      var swept := if full then Cleanup(c, s.buckets, now) else s.buckets;
      var own := if a in s.buckets then s.buckets[a] else Fresh(c.burst as real, now);
      var b := Consume(own, c.rate, c.burst as real, n, now).0;
      ConsumedNow(own, c.rate, c.burst as real, n, now);
      CleanupShrinks(c, s.buckets, now);
      CleanupShrinks(c, swept[a := b], now);
      PutCard(swept, a, b);
      PutKeeps(c, s.buckets, a, b, now);
      if NoneIdle(c, s.buckets, now) { NothingSwept(c, s.buckets, now); }
    }
  }

  lemma ConsumedNow(b: Bucket, rate: real, burst: real, n: real, now: real)
    ensures Consume(b, rate, burst, n, now).0.last == now
  {
  }

  lemma NothingSwept(c: Config, buckets: Buckets, now: real)
    requires NoneIdle(c, buckets, now)
    ensures Cleanup(c, buckets, now) == buckets
  {
  }

  /** One request each, at one moment. */
  function Crowd(actors: seq<string>, now: real): (events: seq<Event>)
    ensures |events| == |actors|
  {
    seq(|actors|, i requires 0 <= i < |actors| => Request(actors[i], 0.0, now))
  }

  /** Any number of actors at one moment are all tracked, whatever `max_actors` says. */
  lemma CrowdIsTracked(c: Config, actors: seq<string>, now: real)
    requires c.idleTimeout >= 0 && Distinct(actors)
    ensures |Run(c, true, Start(c, now), Crowd(actors, now)).buckets| == |actors|
  {
    hide GlobalBurst;
    if c.globalRps > 0.0 { GlobalBurstPositive(c); }
    CrowdJoins(c, Start(c, now), actors, now);
  }

  ghost predicate AllNow(s: Limiter, now: real) {
    && (forall a | a in s.buckets :: s.buckets[a].last == now)
    && (s.global.Some? ==> s.global.value.tokens >= 0.0 && s.global.value.last == now)
  }

  lemma {:induction false} CrowdJoins(c: Config, s: Limiter, actors: seq<string>, now: real)
    requires c.idleTimeout >= 0 && Distinct(actors) && AllNow(s, now) && (c.globalRps > 0.0 ==> GlobalBurst(c) >= 0)
    requires s.global.Some? ==> c.globalRps > 0.0
    requires forall a | a in actors :: a !in s.buckets
    ensures |Run(c, true, s, Crowd(actors, now)).buckets| == |s.buckets| + |actors|
    decreases |actors|
  {
    hide GlobalBurst, Allow;
    if actors != [] {
      var a, rest := actors[0], actors[1..];
      JoinsNow(c, s, a, now);
      var s' := Allow(c, true, s, a, 0.0, now).0;
      assert Crowd(actors, now)[0] == Request(a, 0.0, now) && Crowd(actors, now)[1..] == Crowd(rest, now);
      CrowdJoins(c, s', rest, now);
    }
  }

  lemma JoinsNow(c: Config, s: Limiter, a: string, now: real)
    requires c.idleTimeout >= 0 && AllNow(s, now) && (c.globalRps > 0.0 ==> GlobalBurst(c) >= 0)
    requires (s.global.Some? ==> c.globalRps > 0.0) && a !in s.buckets
    ensures var s' := Allow(c, true, s, a, 0.0, now).0;
            && AllNow(s', now) && s'.buckets.Keys == s.buckets.Keys + {a} && |s'.buckets| == |s.buckets| + 1
            && (s'.global.Some? <==> s.global.Some?)
  {
    hide GlobalBurst, Earned, Cleanup;
    EarnedAdds(now, now, now, c.globalRps);
    var b := Consume(Fresh(c.burst as real, now), c.rate, c.burst as real, 0.0, now).0;
    NothingSwept(c, s.buckets, now);
    NothingSwept(c, s.buckets[a := b], now);
    PutCard(s.buckets, a, b);
  }
}
