/** The mutable side of `ratelimit/limiter.py`: bucket objects and the limiter that owns them. */
module Limiters {
  import opened Collections
  import TB = TokenBucket
  import LM = LimiterModel

  class TokenBucket {
    var tokens: real
    var lastRefill: real
    const rate: real
    const burst: int

    ghost function Value(): TB.Bucket
      reads this
    {
      TB.Bucket(tokens, lastRefill)
    }

    constructor (rate: real, burst: int, now: real)
      ensures Value() == TB.Fresh(burst as real, now) && this.rate == rate && this.burst == burst
    {
      tokens := burst as real;
      lastRefill := now;
      this.rate := rate;
      this.burst := burst;
    }

    method Refill(now: real)
      modifies this
      ensures Value() == TB.Refill(old(Value()), rate, burst as real, now)
      ensures lastRefill == now
      ensures var earned := old(tokens) + (now - old(lastRefill)) * rate;
              tokens == if earned < burst as real then earned else burst as real
    {
      var elapsed := now - lastRefill;
      assert elapsed * rate == TB.Earned(lastRefill, now, rate);
      tokens := TB.Min(burst as real, tokens + elapsed * rate);
      lastRefill := now;
    }

    method Consume(amount: real, now: real) returns (allowed: bool)
      modifies this
      ensures (Value(), allowed) == TB.Consume(old(Value()), rate, burst as real, amount, now)
      ensures lastRefill == now
      ensures var earned := old(tokens) + (now - old(lastRefill)) * rate;
              var held := if earned < burst as real then earned else burst as real;
              (allowed <==> amount <= held) && tokens == if allowed then held - amount else held
    {
      Refill(now);
      if tokens >= amount {
        tokens := tokens - amount;
        return true;
      }
      return false;
    }
  }

  class TokenBucketLimiter {
    const config: LM.Config
    var buckets: map<string, TokenBucket>
    var globalBucket: TokenBucket?
    var lastCleanup: real
    ghost var cells: set<TokenBucket>

    /** Every actor has a bucket of its own, made by this limiter, and none of them is the global one. */
    ghost predicate Valid()
      reads this, cells, globalBucket
    {
      && (forall a | a in buckets :: buckets[a] in cells)
      && (forall a, b | a in buckets && b in buckets && a != b :: buckets[a] != buckets[b])
      && (forall a | a in buckets :: buckets[a].rate == config.rate && buckets[a].burst == config.burst)
      && globalBucket !in cells
      && (globalBucket != null ==>
            globalBucket.rate == config.globalRps && globalBucket.burst == LM.GlobalBurst(config))
    }

    ghost function Buckets(): LM.Buckets
      reads this, cells
    {
      map a | a in buckets && buckets[a] in cells :: buckets[a].Value()
    }

    ghost function Global(): Option<TB.Bucket>
      reads this, globalBucket
    {
      if globalBucket == null then None else Some(globalBucket.Value())
    }

    ghost function State(): LM.Limiter
      reads this, cells, globalBucket
      requires Valid()
    {
      LM.Limiter(Buckets(), Global(), lastCleanup)
    }

    constructor (config: LM.Config, now: real)
      ensures Valid() && State() == LM.Start(config, now) && this.config == config
      ensures fresh(cells) && (globalBucket == null || fresh(globalBucket))
      ensures buckets == map[] && lastCleanup == now && (globalBucket != null <==> config.globalRps > 0.0)
      ensures globalBucket != null ==>
                && globalBucket.rate == config.globalRps
                && globalBucket.burst as real <= 10.0 * config.globalRps < globalBucket.burst as real + 1.0
                && globalBucket.tokens == globalBucket.burst as real && globalBucket.lastRefill == now
    {
      this.config := config;
      buckets, cells := map[], {};
      lastCleanup := now;
      globalBucket := null;
      new;
      if config.globalRps > 0.0 {
        globalBucket := new TokenBucket(config.globalRps, LM.GlobalBurst(config), now);
      }
    }

    /** Deletes the buckets of idle actors. */
    method CleanupStale(now: real)
      requires Valid()
      modifies `buckets
      ensures Valid() && buckets.Keys <= old(buckets.Keys)
      ensures Buckets() == LM.Cleanup(config, old(Buckets()), now)
      ensures forall a :: a in buckets <==>
                a in old(buckets) && old(buckets)[a].lastRefill >= now - config.idleTimeout as real
      ensures forall a | a in buckets :: buckets[a] == old(buckets)[a]
    {
      var cutoff := now - config.idleTimeout as real;
      var stale := set a | a in buckets && buckets[a].lastRefill < cutoff;
      buckets := buckets - stale;
    }

    method Allow(actor: string, amount: real, now: real) returns (allowed: bool)
      requires Valid()
      modifies this, cells, globalBucket
      ensures Valid() && globalBucket == old(globalBucket) && fresh(cells - old(cells))
      ensures State() == LM.Allow(config, true, old(State()), actor, amount, now).0
      ensures allowed == LM.Allow(config, true, old(State()), actor, amount, now).1
    {
      hide LM.Charge, LM.Cleanup, LM.GlobalBurst, TB.Consume;
      var ok := true;
      if globalBucket != null {
        ok := globalBucket.Consume(amount, now);
      }
      assert Buckets() == old(Buckets());
      if !ok { return false; }
      allowed := ChargeActor(actor, amount, now);
      if now - lastCleanup > 60.0 {
        CleanupStale(now);
        lastCleanup := now;
      }
    }

    /** A full bucket for a new actor. */
    method Register(actor: string, now: real)
      requires Valid() && actor !in buckets
      modifies `buckets, `cells
      ensures Valid() && fresh(cells - old(cells)) && actor in buckets
      ensures Buckets() == old(Buckets())[actor := TB.Fresh(config.burst as real, now)]
    {
      var b := new TokenBucket(config.rate, config.burst, now);
      buckets := buckets[actor := b];
      cells := cells + {b};
    }

    method Spend(actor: string, amount: real, now: real) returns (allowed: bool)
      requires Valid() && actor in buckets
      modifies cells
      ensures Valid() && Global() == old(Global())
      ensures var was := old(Buckets());
              Buckets() == was[actor := TB.Consume(was[actor], config.rate, config.burst as real, amount, now).0]
      ensures allowed == TB.Consume(old(Buckets())[actor], config.rate, config.burst as real, amount, now).1
    {
      hide TB.Consume;
      allowed := buckets[actor].Consume(amount, now);
    }

    /** The per-actor half of a request. */
    method ChargeActor(actor: string, amount: real, now: real) returns (allowed: bool)
      requires Valid()
      modifies `buckets, `cells, cells
      ensures Valid() && fresh(cells - old(cells))
      ensures Global() == old(Global())
      ensures Buckets() == LM.Charge(config, true, old(Buckets()), actor, amount, now).0
      ensures allowed == LM.Charge(config, true, old(Buckets()), actor, amount, now).1
    {
      hide TB.Consume, LM.Cleanup, TB.Fresh, Valid, Buckets;
      SameSize();
      if actor in buckets {
        allowed := Spend(actor, amount, now);
      } else {
        if |buckets| >= config.maxActors {
          CleanupStale(now);
        }
        Register(actor, now);
        allowed := Spend(actor, amount, now);
      }
    }

    lemma SameSize()
      requires Valid()
      ensures Buckets().Keys == buckets.Keys && |Buckets()| == |buckets|
    {
      assert Buckets().Keys == buckets.Keys;
      assert |Buckets()| == |Buckets().Keys| && |buckets| == |buckets.Keys|;
    }

    /** Reading an actor's status refills its bucket. The figure shown is rounded, the flag is not. */
    method GetStatus(actor: string, now: real) returns (available: real, limited: bool)
      requires Valid()
      modifies cells
      ensures Valid()
      ensures State() == LM.GetStatus(config, old(State()), actor, now)
      ensures available == if actor in buckets then Rounded(Buckets()[actor].tokens) else config.burst as real
      ensures limited <==> actor in buckets && Buckets()[actor].tokens < 1.0
    {
      if actor in buckets {
        buckets[actor].Refill(now);
        available := Rounded(buckets[actor].tokens);
        limited := buckets[actor].tokens < 1.0;
      } else {
        available := config.burst as real;
        limited := false;
      }
    }
  }

  /** The nearest number of hundredths, the even one of two. */
  function Hundredths(x: real): (n: int)
    ensures -0.5 <= n as real - x * 100.0 <= 0.5
    ensures n as real - x * 100.0 == 0.5 || x * 100.0 - n as real == 0.5 ==> n % 2 == 0
  {
    var h := (x * 100.0).Floor;
    var d := x * 100.0 - h as real;
    if d < 0.5 || (d == 0.5 && h % 2 == 0) then h else h + 1
  }

  /** `round(x, 2)`. */
  function Rounded(x: real): (r: real)
    ensures -0.005 <= r - x <= 0.005
  {
    Hundredths(x) as real / 100.0
  }
}
