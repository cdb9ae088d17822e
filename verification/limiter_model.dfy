/** The two-level limiter of `ratelimit/limiter.py` as a function of its requests: the global bucket, one bucket
    per actor, and the deletion of idle buckets. `TokenBucketLimiter` is compared with one that never deletes. */
module LimiterModel {
  import opened Collections
  import opened TokenBucket

  datatype Config = Config(rate: real, burst: int, maxActors: int, idleTimeout: int, globalRps: real)

  type Buckets = map<string, Bucket>

  datatype Limiter = Limiter(buckets: Buckets, global: Option<Bucket>, lastCleanup: real)

  datatype Event = Request(actor: string, amount: real, now: real) | StatusQuery(actor: string, now: real)

  /** `int(global_rps * 10)`: truncation, which for the positive rates that have a bucket is the floor. */
  function GlobalBurst(c: Config): int { (c.globalRps * 10.0).Floor }

  function Start(c: Config, now: real): Limiter {
    Limiter(map[], if c.globalRps > 0.0 then Some(Fresh(GlobalBurst(c) as real, now)) else None, now)
  }

  function Cleanup(c: Config, buckets: Buckets, now: real): Buckets {
    map a | a in buckets && !(buckets[a].last < now - c.idleTimeout as real) :: buckets[a]
  }

  /** The per-actor check. A first request makes a bucket, at capacity after a sweep for idle ones.
      With `evict` off, idle buckets are never deleted. */
  function Charge(c: Config, evict: bool, buckets: Buckets, actor: string, n: real, now: real): (Buckets, bool) {
    if actor in buckets then
      var (b, allowed) := Consume(buckets[actor], c.rate, c.burst as real, n, now);
      (buckets[actor := b], allowed)
    else
      var swept := if evict && |buckets| >= c.maxActors then Cleanup(c, buckets, now) else buckets;
      var (b, allowed) := Consume(Fresh(c.burst as real, now), c.rate, c.burst as real, n, now);
      (swept[actor := b], allowed)
  }

  /** The global check. */
  function ChargeGlobal(c: Config, global: Option<Bucket>, n: real, now: real): (Option<Bucket>, bool) {
    match global
    case None => (None, true)
    case Some(g) => var (g', allowed) := Consume(g, c.globalRps, GlobalBurst(c) as real, n, now); (Some(g'), allowed)
  }

  /** Global bucket first: it is charged even when the actor's own bucket then refuses. */
  function Allow(c: Config, evict: bool, s: Limiter, actor: string, n: real, now: real): (Limiter, bool) {
    var (global, ok) := ChargeGlobal(c, s.global, n, now);
    if !ok then (s.(global := global), false)
    else
      var (charged, allowed) := Charge(c, evict, s.buckets, actor, n, now);
      if evict && now - s.lastCleanup > 60.0
      then (Limiter(Cleanup(c, charged, now), global, now), allowed)
      else (Limiter(charged, global, s.lastCleanup), allowed)
  }

  function GetStatus(c: Config, s: Limiter, actor: string, now: real): Limiter {
    if actor in s.buckets
    then s.(buckets := s.buckets[actor := Refill(s.buckets[actor], c.rate, c.burst as real, now)])
    else s
  }

  function Step(c: Config, evict: bool, s: Limiter, e: Event): (Limiter, bool) {
    match e
    case Request(actor, n, now) => Allow(c, evict, s, actor, n, now)
    case StatusQuery(actor, now) => (GetStatus(c, s, actor, now), true)
  }

  function Run(c: Config, evict: bool, s: Limiter, events: seq<Event>): Limiter
    decreases |events|
  {
    if events == [] then s else Run(c, evict, Step(c, evict, s, events[0]).0, events[1..])
  }

  function Answers(c: Config, evict: bool, s: Limiter, events: seq<Event>): seq<bool>
    decreases |events|
  {
    if events == [] then []
    else var (s', ok) := Step(c, evict, s, events[0]); [ok] + Answers(c, evict, s', events[1..])
  }

  /** A clock that never runs backwards. */
  ghost predicate Timed(from: real, events: seq<Event>)
    decreases |events|
  {
    events != [] ==> from <= events[0].now && Timed(events[0].now, events[1..])
  }

  ghost predicate Sensible(c: Config) {
    c.rate >= 0.0 && c.burst >= 0 && c.idleTimeout >= 0
  }

  /** An idle bucket has had time to fill up before it is deleted. */
  ghost predicate FillsWhileIdle(c: Config) {
    c.rate * c.idleTimeout as real >= c.burst as real
  }

  // ---- deleting idle buckets cannot be noticed ----

  /** What a bucket would hold if it were refilled now. */
  function Level(c: Config, b: Bucket, now: real): real {
    Refill(b, c.rate, c.burst as real, now).tokens
  }

  ghost predicate Full(c: Config, b: Bucket, now: real) {
    Level(c, b, now) == c.burst as real
  }

  ghost predicate Healthy(buckets: Buckets, now: real) {
    forall a | a in buckets :: buckets[a].tokens >= 0.0 && buckets[a].last <= now
  }

  /** The deleting limiter has some of the buckets of the keeping one, unchanged,
      and those it has not would be full by now. */
  ghost predicate Mirrors(c: Config, mine: Buckets, kept: Buckets, now: real) {
    && (forall a | a in mine :: a in kept && mine[a] == kept[a])
    && Healthy(kept, now)
    && (forall a | a in kept && a !in mine :: Full(c, kept[a], now))
  }

  lemma FullStaysFull(c: Config, b: Bucket, t1: real, t2: real)
    requires c.rate >= 0.0 && t1 <= t2 && Full(c, b, t1)
    ensures Full(c, b, t2)
  {
    hide Earned;
    RefillTwice(b, c.rate, c.burst as real, t1, t2);
    EarnedGrows(t1, t2, c.rate);
  }

  lemma IdleIsFull(c: Config, b: Bucket, now: real)
    requires Sensible(c) && FillsWhileIdle(c) && b.tokens >= 0.0 && b.last < now - c.idleTimeout as real
    ensures Full(c, b, now)
  {
    EarnedAdds(b.last, now - c.idleTimeout as real, now, c.rate);
    EarnedGrows(b.last, now - c.idleTimeout as real, c.rate);
    assert Earned(now - c.idleTimeout as real, now, c.rate) == c.rate * c.idleTimeout as real;
  }

  lemma MirrorsLater(c: Config, mine: Buckets, kept: Buckets, t1: real, t2: real)
    requires Sensible(c) && Mirrors(c, mine, kept, t1) && t1 <= t2
    ensures Mirrors(c, mine, kept, t2)
  {
    hide Full;
    forall a | a in kept && a !in mine ensures Full(c, kept[a], t2) {
      FullStaysFull(c, kept[a], t1, t2);
    }
  }

  lemma CleanupMirrors(c: Config, mine: Buckets, kept: Buckets, now: real)
    requires Sensible(c) && FillsWhileIdle(c) && Mirrors(c, mine, kept, now)
    ensures Mirrors(c, Cleanup(c, mine, now), kept, now)
  {
    hide Full, Sensible, FillsWhileIdle;
    forall a | a in kept && a !in Cleanup(c, mine, now) ensures Full(c, kept[a], now) {
      if a in mine { IdleIsFull(c, kept[a], now); }
    }
  }

  /** A full bucket that was deleted and made anew consumes like the one that was kept. */
  lemma FreshLikeFull(c: Config, b: Bucket, n: real, now: real)
    requires Full(c, b, now)
    ensures Consume(b, c.rate, c.burst as real, n, now)
         == Consume(Fresh(c.burst as real, now), c.rate, c.burst as real, n, now)
  {
    hide Earned;
    EarnedAdds(now, now, now, c.rate);
  }

  lemma ConsumeNonNegative(c: Config, b: Bucket, n: real, now: real)
    requires Sensible(c) && b.tokens >= 0.0 && b.last <= now
    ensures Consume(b, c.rate, c.burst as real, n, now).0.tokens >= 0.0
    ensures Consume(b, c.rate, c.burst as real, n, now).0.last == now
  {
    hide Earned;
    EarnedGrows(b.last, now, c.rate);
  }

  lemma ChargeMirrors(c: Config, mine: Buckets, kept: Buckets, actor: string, n: real, now: real)
    requires Sensible(c) && FillsWhileIdle(c) && Mirrors(c, mine, kept, now)
    ensures Charge(c, true, mine, actor, n, now).1 == Charge(c, false, kept, actor, n, now).1
    ensures Mirrors(c, Charge(c, true, mine, actor, n, now).0, Charge(c, false, kept, actor, n, now).0, now)
  {
    hide Consume, Cleanup, Sensible, FillsWhileIdle, Fresh, Mirrors, Full;
    CleanupMirrors(c, mine, kept, now);
    FreshIsSound(c, now);
    MirrorsAt(c, mine, kept, actor, now);
    var own := if actor in kept then kept[actor] else Fresh(c.burst as real, now);
    ConsumeNonNegative(c, own, n, now);
    if actor in kept && actor !in mine { FreshLikeFull(c, kept[actor], n, now); }
    var b := Consume(own, c.rate, c.burst as real, n, now).0;
    PutMirrors(c, mine, kept, actor, b, now);
    PutMirrors(c, Cleanup(c, mine, now), kept, actor, b, now);
  }

  lemma MirrorsAt(c: Config, mine: Buckets, kept: Buckets, actor: string, now: real)
    requires Mirrors(c, mine, kept, now)
    ensures actor in mine ==> actor in kept && mine[actor] == kept[actor]
    ensures actor in kept ==> kept[actor].tokens >= 0.0 && kept[actor].last <= now
    ensures actor in kept && actor !in mine ==> Full(c, kept[actor], now)
  {
    hide Full;
  }

  lemma PutMirrors(c: Config, mine: Buckets, kept: Buckets, actor: string, b: Bucket, now: real)
    requires Mirrors(c, mine, kept, now) && b.tokens >= 0.0 && b.last <= now
    ensures Mirrors(c, mine[actor := b], kept[actor := b], now)
  {
    hide Full;
  }

  lemma FreshIsSound(c: Config, now: real)
    requires Sensible(c)
    ensures Fresh(c.burst as real, now).tokens >= 0.0 && Fresh(c.burst as real, now).last == now
  {
  }

  lemma StepMirrors(c: Config, s: Limiter, k: Limiter, e: Event)
    requires Sensible(c) && FillsWhileIdle(c) && s.global == k.global && Mirrors(c, s.buckets, k.buckets, e.now)
    ensures Step(c, true, s, e).1 == Step(c, false, k, e).1
    ensures Step(c, true, s, e).0.global == Step(c, false, k, e).0.global
    ensures Mirrors(c, Step(c, true, s, e).0.buckets, Step(c, false, k, e).0.buckets, e.now)
  {
    hide Mirrors, Charge, ChargeGlobal, Cleanup, Sensible, FillsWhileIdle, GetStatus;
    match e
    case Request(actor, n, now) =>
      ChargeMirrors(c, s.buckets, k.buckets, actor, n, now);
      CleanupMirrors(c, Charge(c, true, s.buckets, actor, n, now).0, Charge(c, false, k.buckets, actor, n, now).0, now);
    case StatusQuery(actor, now) => StatusMirrors(c, s, k, actor, now);
  }

  lemma StatusMirrors(c: Config, s: Limiter, k: Limiter, actor: string, now: real)
    requires Sensible(c) && Mirrors(c, s.buckets, k.buckets, now)
    ensures Mirrors(c, GetStatus(c, s, actor, now).buckets, GetStatus(c, k, actor, now).buckets, now)
    ensures GetStatus(c, s, actor, now).global == s.global && GetStatus(c, k, actor, now).global == k.global
  {
    hide Earned;
    if actor in k.buckets {
      RefillTwice(k.buckets[actor], c.rate, c.burst as real, now, now);
      EarnedGrows(k.buckets[actor].last, now, c.rate);
    }
  }

  lemma {:induction false} RunMirrors(c: Config, s: Limiter, k: Limiter, from: real, events: seq<Event>)
    requires Sensible(c) && FillsWhileIdle(c) && s.global == k.global && Mirrors(c, s.buckets, k.buckets, from)
    requires Timed(from, events)
    ensures Answers(c, true, s, events) == Answers(c, false, k, events)
    decreases |events|
  {
    hide Mirrors, Step, Sensible, FillsWhileIdle;
    if events != [] {
      var e := events[0];
      MirrorsLater(c, s.buckets, k.buckets, from, e.now);
      StepMirrors(c, s, k, e);
      RunMirrors(c, Step(c, true, s, e).0, Step(c, false, k, e).0, e.now, events[1..]);
    }
  }

  /** If a bucket fills up within the idle timeout, deleting idle buckets cannot be noticed: every request sequence
      gets the answers of a limiter that keeps them all. */
  lemma EvictionInvisible(c: Config, start: real, events: seq<Event>)
    requires Sensible(c) && FillsWhileIdle(c) && Timed(start, events)
    ensures Answers(c, true, Start(c, start), events) == Answers(c, false, Start(c, start), events)
  {
    RunMirrors(c, Start(c, start), Start(c, start), start, events);
  }
}
