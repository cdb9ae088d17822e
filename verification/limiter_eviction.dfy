/** When the deletion of idle buckets can be noticed, and when it breaks the rate limit of an actor: exactly, for every
    configuration. */
module LimiterEviction {
  import opened Collections
  import opened TokenBucket
  import opened LimiterModel
  import opened LimiterBounds
  import opened LimiterOvershadow

  // ---- otherwise some run lets an actor overspend ----

  /** A run in which "a" is admitted more than the limiter `k` could have admitted: all it holds, and all that is
      earned. */
  ghost predicate Exceeds(c: Config, s: Limiter, k: Limiter, from: real, events: seq<Event>) {
    && Timed(from, events) && AmountsOk(events)
    && Admitted(c, true, s, events, Some("a"))
       > Available(c, k.buckets, "a", from) + Earned(from, LastNow(from, events), c.rate)
  }

  /** What "a" spends in one step. */
  function Spend(c: Config, evict: bool, s: Limiter, e: Event): real {
    if e.Request? && e.actor == "a" && Step(c, evict, s, e).1 then e.amount else 0.0
  }

  lemma Consed(from: real, e: Event, t: real, rest: seq<Event>)
    requires from <= e.now <= t && (e.Request? ==> e.amount >= 0.0) && Timed(t, rest) && AmountsOk(rest)
    ensures Timed(from, [e] + rest) && AmountsOk([e] + rest)
  {
    var events := [e] + rest;
    assert events[0] == e && events[1..] == rest;
    assert Timed(e.now, rest);
    forall k | 0 <= k < |events| && events[k].Request? ensures events[k].amount >= 0.0 {
      if k > 0 { assert events[k] == rest[k - 1]; }
    }
  }

  lemma FirstSpend(c: Config, s: Limiter, e: Event, rest: seq<Event>)
    ensures Admitted(c, true, s, [e] + rest, Some("a"))
         == Spend(c, true, s, e) + Admitted(c, true, Step(c, true, s, e).0, rest, Some("a"))
  {
    hide Step;
    assert ([e] + rest)[0] == e && ([e] + rest)[1..] == rest;
  }

  lemma LastOf(from: real, e: Event, t: real, rest: seq<Event>)
    requires rest != []
    ensures LastNow(from, [e] + rest) == LastNow(t, rest)
  {
  }

  lemma ExceedsNow(c: Config, s: Limiter, k: Limiter, e: Event)
    requires e.Request? && e.actor == "a" && e.amount >= 0.0 && Step(c, true, s, e).1
    requires e.amount > Available(c, k.buckets, "a", e.now)
    ensures Exceeds(c, s, k, e.now, [e])
  {
    hide Step, Earned, Available;
    assert [e] + [] == [e];
    FirstSpend(c, s, e, []);
    Consed(e.now, e, e.now, []);
    EarnedAdds(e.now, e.now, e.now, c.rate);
  }

  /** Nothing is lost to a full bucket between two steps, so what exceeds later exceeds now. */
  lemma ExceedsLater(c: Config, s: Limiter, k: Limiter, from: real, e: Event, t: real, rest: seq<Event>)
    requires from <= e.now <= t && (e.Request? ==> e.amount >= 0.0) && rest != []
    requires Available(c, Step(c, false, k, e).0.buckets, "a", t) + Spend(c, true, s, e)
          == Available(c, k.buckets, "a", from) + Earned(from, t, c.rate)
    requires Exceeds(c, Step(c, true, s, e).0, Step(c, false, k, e).0, t, rest)
    ensures Exceeds(c, s, k, from, [e] + rest)
  {
    hide Step, Earned, Available, Admitted, Spend;
    FirstSpend(c, s, e, rest);
    Consed(from, e, t, rest);
    LastOf(from, e, t, rest);
    EarnedAdds(from, t, LastNow(t, rest), c.rate);
  }

  // ---- a bucket that is restored, and what that shows ----

  /** Limiters that differ in what actor "a" may spend. */
  ghost predicate Ahead(c: Config, s: Limiter, k: Limiter, now: real, gap: real) {
    && s.global.Some? && s.global == k.global && GlobalAvailable(c, s.global.value, now) >= gap
    && 0.0 <= Available(c, k.buckets, "a", now) <= Available(c, s.buckets, "a", now) - gap
  }

  /** Where the global bucket refills faster than an actor's own, an actor can spend both down to the difference. */
  lemma {:induction false} AheadExceeds(c: Config, s: Limiter, k: Limiter, t: real, gap: real, wait: real, n: nat)
    returns (events: seq<Event>)
    requires Sensible(c) && 0.0 < gap <= GlobalBurst(c) as real && c.globalRps > 0.0
    requires wait > 0.0 && wait * c.globalRps == gap && Earned(0.0, wait, c.rate) < gap
    requires Ahead(c, s, k, t, gap)
    requires Available(c, k.buckets, "a", t) <= n as real * (gap - Earned(0.0, wait, c.rate))
    ensures events != [] && Exceeds(c, s, k, t, events)
    decreases n
  {
    hide Allow, Sensible, Available, GlobalAvailable, GlobalBurst, Exceeds, Earned;
    var e := Request("a", gap, t);
    SpendsGap(c, s, k, t, gap);
    if Available(c, k.buckets, "a", t) < gap {
      ExceedsNow(c, s, k, e);
      events := [e];
    } else {
      var s', k' := Step(c, true, s, e).0, Step(c, false, k, e).0;
      StaysAhead(c, s', k', t, gap, wait);
      FewerSteps(n, Available(c, k.buckets, "a", t), gap - Earned(0.0, wait, c.rate));
      var rest := AheadExceeds(c, s', k', t + wait, gap, wait, n - 1);
      EarnedIn(t, wait, c.rate);
      ExceedsLater(c, s, k, t, e, t + wait, rest);
      events := [e] + rest;
    }
  }

  lemma FewerSteps(n: nat, x: real, step: real)
    requires 0.0 < step <= x <= n as real * step
    ensures n > 0 && x - step <= (n - 1) as real * step
  {
    assert n > 0;
    assert (n - 1) as real * step == n as real * step - step;
  }

  lemma SpendsGap(c: Config, s: Limiter, k: Limiter, t: real, gap: real)
    requires Sensible(c) && gap > 0.0 && Ahead(c, s, k, t, gap)
    ensures var (s', ok) := Allow(c, true, s, "a", gap, t);
            var (k', ok') := Allow(c, false, k, "a", gap, t);
            && (ok' <==> Available(c, k.buckets, "a", t) >= gap)
            && ok
            && s'.global.Some? && s'.global == k'.global
            && (ok && ok' ==>
                 && GlobalAvailable(c, s'.global.value, t) == GlobalAvailable(c, s.global.value, t) - gap
                 && Available(c, s'.buckets, "a", t) == Available(c, s.buckets, "a", t) - gap
                 && Available(c, k'.buckets, "a", t) == Available(c, k.buckets, "a", t) - gap)
            && (ok && ok' ==> Available(c, s'.buckets, "a", t) <= c.burst as real - gap)
  {
    hide Available, GlobalAvailable, GlobalBurst, Allow;
    AllowedIff(c, true, s, "a", gap, t);
    AllowedIff(c, false, k, "a", gap, t);
    RequestCosts(c, true, s, "a", gap, t);
    RequestCosts(c, false, k, "a", gap, t);
    SameGlobal(c, s, k, "a", gap, t);
    AtMostBurst(c, s.buckets, "a", t);
  }

  lemma AtMostBurst(c: Config, buckets: Buckets, a: string, t: real)
    ensures Available(c, buckets, a, t) <= c.burst as real
  {
    hide Earned;
  }

  lemma SameGlobal(c: Config, s: Limiter, k: Limiter, a: string, n: real, t: real)
    requires s.global == k.global
    ensures Allow(c, true, s, a, n, t).0.global == Allow(c, false, k, a, n, t).0.global
         == ChargeGlobal(c, s.global, n, t).0
  {
    hide Charge, Consume, Cleanup, GlobalBurst;
  }

  lemma StaysAhead(c: Config, s: Limiter, k: Limiter, t: real, gap: real, wait: real)
    requires Sensible(c) && 0.0 < gap <= GlobalBurst(c) as real && c.globalRps > 0.0
    requires wait > 0.0 && wait * c.globalRps == gap && Earned(0.0, wait, c.rate) < gap
    requires s.global.Some? && s.global == k.global && GlobalAvailable(c, s.global.value, t) >= 0.0
    requires 0.0 <= Available(c, k.buckets, "a", t) <= Available(c, s.buckets, "a", t) - gap
    requires Available(c, s.buckets, "a", t) <= c.burst as real - gap
    ensures Ahead(c, s, k, t + wait, gap)
    ensures Available(c, k.buckets, "a", t + wait) == Available(c, k.buckets, "a", t) + Earned(0.0, wait, c.rate)
  {
    hide Available, GlobalAvailable, GlobalBurst;
    AvailableAt(c, s.buckets, "a", t, t + wait);
    AvailableAt(c, k.buckets, "a", t, t + wait);
    GlobalAt(c, s.global.value, t, t + wait);
    EarnedIn(t, wait, c.rate);
    EarnedIn(t, wait, c.globalRps);
    EarnedGrows(t, t + wait, c.rate);
    assert Earned(0.0, wait, c.globalRps) == gap;
  }

  lemma EarnedIn(t: real, wait: real, rate: real)
    ensures Earned(t, t + wait, rate) == Earned(0.0, wait, rate)
  {
    assert (t + wait) - t == wait - 0.0;
  }

  // ---- the actor "a" is drained, forgotten and restored ----

  /** How much too short the idle timeout is. */
  function Margin(c: Config): real {
    var own := c.burst as real - c.rate * c.idleTimeout as real;
    if c.globalRps > 0.0 && c.rate >= c.globalRps
    then Min(own, GlobalBurst(c) as real - c.burst as real - (c.rate - c.globalRps) * c.idleTimeout as real)
    else own
  }

  /** How much longer than the idle timeout, without earning back more than half the margin. */
  function Extra(c: Config): real {
    if c.rate == 0.0 then 1.0 else Margin(c) / (2.0 * c.rate)
  }

  function Pause(c: Config): real { c.idleTimeout as real + Extra(c) }

  lemma ExtraEarns(c: Config)
    requires Sensible(c) && Margin(c) > 0.0
    ensures Extra(c) > 0.0
    ensures c.rate > 0.0 ==> Extra(c) * c.rate == Margin(c) / 2.0
  {
    hide Margin;
    if c.rate > 0.0 {
      var m, r := Margin(c), c.rate;
      HalfOver(m, r);
    }
  }

  lemma HalfOver(m: real, r: real)
    requires m > 0.0 && r > 0.0
    ensures var d := m / (2.0 * r); d > 0.0 && d * r == m / 2.0
  {
    var d := m / (2.0 * r);
    assert d * (2.0 * r) == m;
  }

  lemma EarnedOver(idle: real, d: real, rate: real)
    ensures Earned(0.0, idle + d, rate) == rate * idle + d * rate
  {
  }

  lemma Product(x: real, y: real)
    requires x >= 0.0 && y > 0.0
    ensures x * y >= 0.0 && (x > 0.0 ==> x * y > 0.0)
  {
  }

  lemma Difference(a: real, b: real, x: real)
    ensures (a - b) * x == a * x - b * x
  {
  }

  lemma PauseIsShort(c: Config)
    requires Sensible(c) && Margin(c) > 0.0
    ensures Pause(c) > c.idleTimeout as real && Earned(0.0, Pause(c), c.rate) < c.burst as real
  {
    hide GlobalBurst, Extra, Earned;
    ExtraEarns(c);
    EarnedOver(c.idleTimeout as real, Extra(c), c.rate);
  }

  lemma PauseFallsBehind(c: Config)
    requires Sensible(c) && Margin(c) > 0.0 && c.globalRps > 0.0 && c.rate >= c.globalRps
    ensures Earned(0.0, Pause(c), c.rate)
          < GlobalBurst(c) as real - c.burst as real + Earned(0.0, Pause(c), c.globalRps)
  {
    hide GlobalBurst, Extra, Earned;
    ExtraEarns(c);
    EarnedOver(c.idleTimeout as real, Extra(c), c.rate);
    EarnedOver(c.idleTimeout as real, Extra(c), c.globalRps);
    Product(c.globalRps, Extra(c));
    Difference(c.rate, c.globalRps, c.idleTimeout as real);
  }

  /** Both limiters hold an empty bucket for "a" alone, a minute after the last sweep. */
  ghost predicate Spent(s: Limiter, k: Limiter, t: real) {
    && s.buckets == k.buckets == map["a" := Bucket(0.0, t)]
    && s.lastCleanup == t - 60.0 && s.global == k.global
  }

  lemma ForgetsBucket(c: Config, s: Limiter, k: Limiter, t: real, u: real)
    requires Sensible(c) && Spent(s, k, t) && t + c.idleTimeout as real < u
    requires ChargeGlobal(c, s.global, 0.0, u).1
    ensures "a" !in Allow(c, true, s, "b", 0.0, u).0.buckets
    ensures var r := Allow(c, false, k, "b", 0.0, u).0.buckets; "a" in r && r["a"] == Bucket(0.0, t)
  {
    hide ChargeGlobal, Consume;
  }

  /** A request of "b" makes the one limiter forget that "a" has spent its burst. */
  lemma Forgets(c: Config, s: Limiter, k: Limiter, t: real, u: real)
    requires Sensible(c) && Spent(s, k, t) && t + c.idleTimeout as real < u
    requires s.global.Some? ==> GlobalAvailable(c, s.global.value, u) >= 0.0
    ensures var s', k' := Allow(c, true, s, "b", 0.0, u).0, Allow(c, false, k, "b", 0.0, u).0;
            && s'.global == k'.global && (s.global.Some? <==> s'.global.Some?)
            && (s.global.Some? ==> GlobalAvailable(c, s'.global.value, u) == GlobalAvailable(c, s.global.value, u))
            && Available(c, s'.buckets, "a", u) == c.burst as real
            && Available(c, k'.buckets, "a", u) == Min(c.burst as real, Earned(t, u, c.rate))
  {
    hide Allow, GlobalAvailable, GlobalBurst, Earned;
    SameGlobal(c, s, k, "b", 0.0, u);
    RequestCosts(c, true, s, "b", 0.0, u);
    NothingIsGranted(c, s.global, u);
    ForgetsBucket(c, s, k, t, u);
  }

  lemma NothingIsGranted(c: Config, global: Option<Bucket>, u: real)
    requires global.Some? ==> GlobalAvailable(c, global.value, u) >= 0.0
    ensures ChargeGlobal(c, global, 0.0, u).1 && (global.Some? <==> ChargeGlobal(c, global, 0.0, u).0.Some?)
  {
    hide Earned, GlobalBurst;
  }

  lemma EmptyHolds(c: Config, s: Limiter, k: Limiter, t: real)
    requires Sensible(c) && Spent(s, k, t)
    ensures Available(c, k.buckets, "a", t) == 0.0
  {
    hide Earned;
    EarnedAdds(t, t, t, c.rate);
  }

  /** Where the global bucket lets enough through, one more request exceeds. */
  lemma SpentExceeds(c: Config, s: Limiter, k: Limiter, t: real, ask: real) returns (events: seq<Event>)
    requires Sensible(c) && Margin(c) > 0.0 && Spent(s, k, t)
    requires Earned(0.0, Pause(c), c.rate) < ask <= c.burst as real
    requires s.global.Some? ==> GlobalAvailable(c, s.global.value, t + Pause(c)) >= ask
    ensures events != [] && Exceeds(c, s, k, t, events)
  {
    hide Allow, Available, GlobalAvailable, GlobalBurst, Earned, Margin, Pause, Exceeds;
    var u := t + Pause(c);
    PauseIsShort(c);
    EarnedGrows(0.0, Pause(c), c.rate);
    EarnedIn(t, Pause(c), c.rate);
    Forgets(c, s, k, t, u);
    EmptyHolds(c, s, k, t);
    var e, f := Request("b", 0.0, u), Request("a", ask, u);
    var s', k' := Step(c, true, s, e).0, Step(c, false, k, e).0;
    AllowedIff(c, true, s', "a", ask, u);
    ExceedsNow(c, s', k', f);
    ExceedsLater(c, s, k, t, e, u, [f]);
    events := [e] + [f];
  }

  /** Where the global bucket refills faster, further requests do. */
  lemma SpentExceedsSlowly(c: Config, s: Limiter, k: Limiter, t: real) returns (events: seq<Event>)
    requires Sensible(c) && Margin(c) > 0.0 && Spent(s, k, t)
    requires c.globalRps > c.rate && GlobalBurst(c) > 0
    requires s.global.Some? && GlobalAvailable(c, s.global.value, t) >= 0.0
    ensures events != [] && Exceeds(c, s, k, t, events)
  {
    hide Allow, Available, GlobalAvailable, GlobalBurst, Margin, Pause, Exceeds, Earned, Ahead;
    var u := t + Pause(c);
    PauseIsShort(c);
    EarnedIn(t, Pause(c), c.rate);
    EarnedGrows(t, u, c.rate);
    EmptyHolds(c, s, k, t);
    var e := Request("b", 0.0, u);
    var s', k' := Step(c, true, s, e).0, Step(c, false, k, e).0;
    var gap := GetsAhead(c, s, k, t);
    var wait := WaitFor(gap, c.rate, c.globalRps);
    var n := Enough(Available(c, k'.buckets, "a", u), gap - Earned(0.0, wait, c.rate));
    var rest := AheadExceeds(c, s', k', u, gap, wait, n);
    ExceedsLater(c, s, k, t, e, u, rest);
    events := [e] + rest;
  }

  lemma GetsAhead(c: Config, s: Limiter, k: Limiter, t: real) returns (gap: real)
    requires Sensible(c) && Margin(c) > 0.0 && Spent(s, k, t)
    requires c.globalRps > c.rate && GlobalBurst(c) > 0
    requires s.global.Some? && GlobalAvailable(c, s.global.value, t) >= 0.0
    ensures 0.0 < gap <= GlobalBurst(c) as real
    ensures var u := t + Pause(c);
            var s', k' := Allow(c, true, s, "b", 0.0, u).0, Allow(c, false, k, "b", 0.0, u).0;
            Ahead(c, s', k', u, gap) && Available(c, k'.buckets, "a", u) == Earned(t, u, c.rate) >= 0.0
  {
    hide Allow, Available, GlobalAvailable, GlobalBurst, Margin, Pause, Earned;
    var u := t + Pause(c);
    PauseIsShort(c);
    EarnedIn(t, Pause(c), c.rate);
    EarnedIn(t, Pause(c), c.globalRps);
    EarnedGrows(t, u, c.rate);
    EarnsSome(Pause(c), c.globalRps);
    GlobalAt(c, s.global.value, t, u);
    Forgets(c, s, k, t, u);
    gap := Min(c.burst as real - Earned(0.0, Pause(c), c.rate),
               Min(GlobalBurst(c) as real, Earned(0.0, Pause(c), c.globalRps)));
  }

  lemma EarnsSome(wait: real, rate: real)
    requires wait > 0.0 && rate > 0.0
    ensures Earned(0.0, wait, rate) > 0.0
  {
    assert wait * rate > 0.0;
  }

  lemma WaitFor(gap: real, rate: real, fast: real) returns (wait: real)
    requires gap > 0.0 && 0.0 <= rate < fast
    ensures wait > 0.0 && wait * fast == gap && Earned(0.0, wait, rate) < gap
  {
    wait := gap / fast;
    assert wait > 0.0;
    assert wait * (fast - rate) > 0.0;
    assert wait * (fast - rate) == wait * fast - wait * rate;
  }

  lemma Enough(x: real, step: real) returns (n: nat)
    requires x >= 0.0 && step > 0.0
    ensures x <= n as real * step
  {
    var q := x / step;
    assert q >= 0.0 && q * step == x;
    n := q.Floor + 1;
    var d := n as real - q;
    assert d > 0.0 && d * step >= 0.0;
    assert n as real * step == (q + d) * step == q * step + d * step;
  }

  // ---- draining an actor under a global limit that refills faster ----

  /** A limiter that knows only the actor "a". */
  function Alone(x: real, g: real, t: real, lastCleanup: real): Limiter {
    Limiter(map["a" := Bucket(x, t)], Some(Bucket(g, t)), lastCleanup)
  }

  /** A minute in `m` parts of length `d`, in which neither bucket could fill up. */
  ghost predicate Fine(c: Config, d: real, m: nat) {
    && d > 0.0 && m as real * d == 60.0
    && Earned(0.0, d, c.rate) <= c.burst as real
    && Earned(0.0, d, c.rate) < Earned(0.0, d, c.globalRps) <= GlobalBurst(c) as real
  }

  lemma Finely(c: Config) returns (d: real, m: nat)
    requires Sensible(c) && c.burst > 0 && c.globalRps > c.rate && GlobalBurst(c) > 0
    ensures Fine(c, d, m)
  {
    var n := Enough(60.0 * c.rate, c.burst as real);
    m := n + 12;
    d := 60.0 / m as real;
    MinuteParts(m, d, c.rate, c.burst as real);
    MinuteParts(m, d, c.globalRps, GlobalBurst(c) as real) by { FiveSecondsFit(c, m); }
    WaitMore(d, c.rate, c.globalRps);
  }

  lemma FiveSecondsFit(c: Config, m: nat)
    requires c.globalRps > 0.0 && GlobalBurst(c) > 0 && m >= 12
    ensures 60.0 * c.globalRps <= m as real * GlobalBurst(c) as real
  {
    var g := GlobalBurst(c) as real;
    assert c.globalRps * 10.0 < g + 1.0 <= 2.0 * g;
    Product(m as real - 12.0, g);
    assert m as real * g == 12.0 * g + (m as real - 12.0) * g;
  }

  lemma MinuteParts(m: nat, d: real, rate: real, burst: real)
    requires m > 0 && d == 60.0 / m as real && 60.0 * rate <= m as real * burst
    ensures d > 0.0 && m as real * d == 60.0 && Earned(0.0, d, rate) <= burst
  {
    assert m as real * d == 60.0;
    if d * rate > burst {
      Product(d * rate - burst, m as real);
      assert (d * rate - burst) * m as real == (m as real * d) * rate - m as real * burst;
    }
  }

  lemma WaitMore(d: real, rate: real, fast: real)
    requires d > 0.0 && rate < fast
    ensures Earned(0.0, d, rate) < Earned(0.0, d, fast)
  {
    Product(fast - rate, d);
    Difference(fast, rate, d);
    assert Earned(0.0, d, rate) == rate * d && Earned(0.0, d, fast) == fast * d;
  }

  /** What "a" takes after every part: what the global bucket earned meanwhile, as far as its own goes. */
  function Sip(c: Config, d: real, x: real): real {
    Min(Earned(0.0, d, c.globalRps), Min(c.burst as real, x + Earned(0.0, d, c.rate)))
  }

  /** What is left to "a" then. */
  function Rest(c: Config, d: real, x: real): real {
    Min(c.burst as real, x + Earned(0.0, d, c.rate)) - Sip(c, d, x)
  }

  lemma SipGlobal(c: Config, d: real, m: nat, g: real, t: real, n: real) returns (g': real)
    requires Fine(c, d, m) && 0.0 <= g <= GlobalBurst(c) as real && 0.0 <= n <= Earned(0.0, d, c.globalRps)
    ensures 0.0 <= g' <= GlobalBurst(c) as real
    ensures ChargeGlobal(c, Some(Bucket(g, t)), n, t + d) == (Some(Bucket(g', t + d)), true)
  {
    hide GlobalBurst, Earned;
    EarnedIn(t, d, c.globalRps);
    g' := Min(GlobalBurst(c) as real, g + Earned(0.0, d, c.globalRps)) - n;
  }

  lemma SipOwn(c: Config, evict: bool, d: real, x: real, t: real)
    requires Sensible(c)
    ensures var (r, ok) := Charge(c, evict, map["a" := Bucket(x, t)], "a", Sip(c, d, x), t + d);
            ok && r == map["a" := Bucket(Rest(c, d, x), t + d)] && Cleanup(c, r, t + d) == r
  {
    hide Earned;
    EarnedIn(t, d, c.rate);
    var was: Buckets := map["a" := Bucket(x, t)];
    var b := Bucket(Rest(c, d, x), t + d);
    assert Consume(was["a"], c.rate, c.burst as real, Sip(c, d, x), t + d) == (b, true);
    assert was["a" := b] == map["a" := b];
    assert Cleanup(c, map["a" := b], t + d) == map["a" := b];
  }

  lemma SipStep(c: Config, d: real, m: nat, x: real, g: real, t: real, cleaned: real, cleanedToo: real)
    returns (g': real)
    requires Sensible(c) && Fine(c, d, m) && x >= 0.0 && 0.0 <= g <= GlobalBurst(c) as real
    ensures Sip(c, d, x) >= 0.0 && 0.0 <= g' <= GlobalBurst(c) as real
    ensures Allow(c, true, Alone(x, g, t, cleaned), "a", Sip(c, d, x), t + d)
         == (Alone(Rest(c, d, x), g', t + d, if t + d - cleaned > 60.0 then t + d else cleaned), true)
    ensures Allow(c, false, Alone(x, g, t, cleanedToo), "a", Sip(c, d, x), t + d)
         == (Alone(Rest(c, d, x), g', t + d, cleanedToo), true)
  {
    hide GlobalBurst, Charge, ChargeGlobal, Cleanup, Rest, Sip;
    SipIsSome(c, d, m, x);
    g' := SipGlobal(c, d, m, g, t, Sip(c, d, x));
    SipOwn(c, true, d, x, t);
    SipOwn(c, false, d, x, t);
  }

  lemma SipIsSome(c: Config, d: real, m: nat, x: real)
    requires Sensible(c) && Fine(c, d, m) && x >= 0.0
    ensures 0.0 <= Sip(c, d, x) <= Earned(0.0, d, c.globalRps)
  {
    EarnedGrows(0.0, d, c.rate);
    hide GlobalBurst, Earned;
  }

  /** A sip takes more than what is earned until the next, and nothing is lost to a full bucket. */
  lemma RestShrinks(c: Config, d: real, m: nat, x: real, n: nat)
    requires Sensible(c) && Fine(c, d, m) && x + Earned(0.0, d, c.rate) <= c.burst as real
    requires 0.0 <= x <= n as real * (Earned(0.0, d, c.globalRps) - Earned(0.0, d, c.rate))
    ensures 0.0 <= Rest(c, d, x) && (x == 0.0 ==> Rest(c, d, x) == 0.0)
    ensures Rest(c, d, x) + Sip(c, d, x) == x + Earned(0.0, d, c.rate)
    ensures Rest(c, d, x) + Earned(0.0, d, c.rate) <= c.burst as real
    ensures x > 0.0 ==>
              n > 0 && Rest(c, d, x) <= (n - 1) as real * (Earned(0.0, d, c.globalRps) - Earned(0.0, d, c.rate))
  {
    EarnedGrows(0.0, d, c.rate);
    hide GlobalBurst, Earned;
    var step := Earned(0.0, d, c.globalRps) - Earned(0.0, d, c.rate);
    if x > 0.0 { OneStepLess(n, step); }
  }

  lemma OneStepLess(n: nat, step: real)
    requires step > 0.0 && n as real * step > 0.0
    ensures n > 0 && (n - 1) as real * step == n as real * step - step >= 0.0
  {
    assert n > 0;
    assert (n - 1) as real * step >= 0.0;
  }

  lemma HoldsSome(c: Config, g: real, t: real)
    requires 0.0 <= g <= GlobalBurst(c) as real
    ensures GlobalAvailable(c, Bucket(g, t), t) == g
  {
    hide GlobalBurst, Earned;
    EarnedAdds(t, t, t, c.globalRps);
  }

  lemma AloneHolds(c: Config, x: real, g: real, t: real, cleaned: real)
    requires x <= c.burst as real
    ensures Available(c, Alone(x, g, t, cleaned).buckets, "a", t) == x
  {
    hide Earned;
    EarnedAdds(t, t, t, c.rate);
  }

  lemma NextPart(i: nat, m: nat, d: real, t: real)
    requires d > 0.0 && m as real * d == 60.0 && i <= m
    ensures t + d - (t - i as real * d) > 60.0 <==> i == m
    ensures t - i as real * d == (t + d) - (i + 1) as real * d
    ensures t + d == (t + d) - 0 as real * d
  {
    assert (i + 1) as real * d == i as real * d + d;
    if i < m {
      Product((m - i - 1) as real, d);
      assert m as real * d == (i + 1) as real * d + (m - i - 1) as real * d;
    }
  }

  /** Sip after sip "a" is drained, and kept empty until a minute after a sweep. */
  lemma {:induction false} DrainExceeds(c: Config, d: real, m: nat, x: real, g: real, t: real, k: Limiter, i: nat,
                                        n: nat)
    returns (events: seq<Event>)
    requires Sensible(c) && Margin(c) > 0.0 && c.globalRps > c.rate && GlobalBurst(c) > 0 && Fine(c, d, m)
    requires 0.0 <= x <= n as real * (Earned(0.0, d, c.globalRps) - Earned(0.0, d, c.rate))
    requires x + Earned(0.0, d, c.rate) <= c.burst as real && 0.0 <= g <= GlobalBurst(c) as real
    requires i <= m && k == Alone(x, g, t, k.lastCleanup)
    ensures events != [] && Exceeds(c, Alone(x, g, t, t - i as real * d), k, t, events)
    decreases n, m - i
  {
    hide GlobalBurst, Allow, Exceeds, Margin, Sip, Rest, Sensible, Earned, Available;
    var s := Alone(x, g, t, t - i as real * d);
    NextPart(i, m, d, t);
    if x == 0.0 && i == m {
      HoldsSome(c, g, t);
      events := SpentExceedsSlowly(c, s, k, t);
    } else {
      RestShrinks(c, d, m, x, n);
      var g' := SipStep(c, d, m, x, g, t, s.lastCleanup, k.lastCleanup);
      var e := Request("a", Sip(c, d, x), t + d);
      var s', k' := Step(c, true, s, e).0, Step(c, false, k, e).0;
      var j := if i == m then 0 else i + 1;
      assert s'.lastCleanup == (t + d) - j as real * d;
      var rest := DrainExceeds(c, d, m, Rest(c, d, x), g', t + d, k', j, if x > 0.0 then n - 1 else n);
      SipLosesNothing(c, d, x, g, t, k);
      AloneHolds(c, Rest(c, d, x), g', t + d, k.lastCleanup);
      ExceedsLater(c, s, k, t, e, t + d, rest);
      events := [e] + rest;
    }
  }

  lemma SipLosesNothing(c: Config, d: real, x: real, g: real, t: real, k: Limiter)
    requires Sensible(c) && d > 0.0 && k == Alone(x, g, t, k.lastCleanup)
    requires x + Earned(0.0, d, c.rate) <= c.burst as real
    ensures Available(c, k.buckets, "a", t) == x && Earned(t, t + d, c.rate) == Earned(0.0, d, c.rate)
  {
    EarnedGrows(0.0, d, c.rate);
    EarnedIn(t, d, c.rate);
    hide Earned;
    AloneHolds(c, x, g, t, k.lastCleanup);
  }

  // ---- the two overspending runs ----

  /** "a" spends its whole burst a minute after the start. */
  lemma SpendAtOnce(c: Config, evict: bool)
    requires Sensible(c) && (c.globalRps > 0.0 ==> GlobalBurst(c) >= c.burst)
    ensures var (s', ok) := Allow(c, evict, Start(c, 0.0), "a", c.burst as real, 60.0);
            && ok && s'.buckets == map["a" := Bucket(0.0, 60.0)] && s'.lastCleanup == 0.0
            && s'.global == ChargeGlobal(c, Start(c, 0.0).global, c.burst as real, 60.0).0
  {
    hide GlobalBurst;
    if c.globalRps > 0.0 { StartGlobal(c); }
    var none: Buckets := map[];
    assert Cleanup(c, none, 60.0) == none;
    var x := c.burst as real;
    assert Consume(Fresh(x, 60.0), c.rate, x, x, 60.0) == (Bucket(0.0, 60.0), true);
    assert none["a" := Bucket(0.0, 60.0)] == map["a" := Bucket(0.0, 60.0)];
  }

  lemma StartGlobal(c: Config)
    requires c.globalRps > 0.0 && 0 <= c.burst <= GlobalBurst(c)
    ensures ChargeGlobal(c, Start(c, 0.0).global, c.burst as real, 60.0)
         == (Some(Bucket(GlobalBurst(c) as real - c.burst as real, 60.0)), true)
  {
    hide GlobalBurst;
  }

  /** A run from the start and its last stretch, in which "a" is admitted more than the limit allows. */
  ghost predicate Overspends(c: Config, before: seq<Event>, window: seq<Event>) {
    && window != [] && Timed(0.0, before + window) && AmountsOk(before + window)
    && var s, k, from := Run(c, true, Start(c, 0.0), before), Run(c, false, Start(c, 0.0), before), window[0].now;
       && Exceeds(c, s, k, from, window)
       && Healthy(k.buckets, from) && Available(c, k.buckets, "a", from) == c.burst as real
  }

  lemma SpendsAtOnce(c: Config) returns (window: seq<Event>)
    requires Sensible(c) && Margin(c) > 0.0 && (c.globalRps > 0.0 ==> c.rate >= c.globalRps)
    ensures Overspends(c, [], window)
  {
    hide GlobalBurst, Allow, Exceeds, Pause, Earned, GlobalAvailable, ChargeGlobal, Margin;
    var start, e := Start(c, 0.0), Request("a", c.burst as real, 60.0);
    PauseIsShort(c);
    MarginFits(c);
    SpendAtOnce(c, true);
    SpendAtOnce(c, false);
    var s, k := Step(c, true, start, e).0, Step(c, false, start, e).0;
    var ask := Asks(c, s);
    var rest := SpentExceeds(c, s, k, 60.0, ask);
    EmptyHolds(c, s, k, 60.0);
    EarnedAdds(60.0, 60.0, 60.0, c.rate);
    ExceedsLater(c, start, start, 60.0, e, 60.0, rest);
    window := [e] + rest;
    FromTheStart(c, window, 60.0);
  }

  lemma FromTheStart(c: Config, window: seq<Event>, from: real)
    requires window != [] && window[0].now == from >= 0.0 && Exceeds(c, Start(c, 0.0), Start(c, 0.0), from, window)
    ensures Overspends(c, [], window)
  {
    hide Admitted, Earned, GlobalBurst;
    assert [] + window == window;
  }

  /** How much "a" asks for again: its burst, or what the global bucket holds by then. */
  lemma Asks(c: Config, s: Limiter) returns (ask: real)
    requires Sensible(c) && Margin(c) > 0.0 && (c.globalRps > 0.0 ==> c.rate >= c.globalRps)
    requires s.global == ChargeGlobal(c, Start(c, 0.0).global, c.burst as real, 60.0).0
    ensures Earned(0.0, Pause(c), c.rate) < ask <= c.burst as real
    ensures s.global.Some? ==> GlobalAvailable(c, s.global.value, 60.0 + Pause(c)) >= ask
  {
    hide GlobalBurst, Pause, Earned, GlobalAvailable, ChargeGlobal, Margin;
    PauseIsShort(c);
    MarginFits(c);
    ask := c.burst as real;
    if c.globalRps > 0.0 {
      PauseFallsBehind(c);
      StartGlobal(c);
      HoldsSome(c, GlobalBurst(c) as real - c.burst as real, 60.0);
      GlobalAt(c, s.global.value, 60.0, 60.0 + Pause(c));
      EarnedIn(60.0, Pause(c), c.globalRps);
      ask := Min(ask, GlobalBurst(c) as real - c.burst as real + Earned(0.0, Pause(c), c.globalRps));
    } else {
      NoGlobal(c, c.burst as real, 60.0);
    }
  }

  lemma NoGlobal(c: Config, n: real, now: real)
    requires c.globalRps <= 0.0
    ensures ChargeGlobal(c, Start(c, 0.0).global, n, now).0 == None
  {
  }

  lemma MarginFits(c: Config)
    requires Sensible(c) && Margin(c) > 0.0
    ensures c.globalRps > 0.0 && c.rate >= c.globalRps ==> GlobalBurst(c) > c.burst
  {
    hide GlobalBurst;
    if c.rate >= c.globalRps { assert (c.rate - c.globalRps) * c.idleTimeout as real >= 0.0; }
  }

  lemma FirstLook(c: Config, evict: bool)
    requires Sensible(c) && c.globalRps > 0.0
    ensures Allow(c, evict, Start(c, 0.0), "a", 0.0, 0.0)
         == (Alone(c.burst as real, GlobalBurst(c) as real, 0.0, 0.0), true)
  {
    GlobalBurstPositive(c);
    hide GlobalBurst;
    var none: Buckets := map[];
    assert Cleanup(c, none, 0.0) == none;
    assert none["a" := Bucket(c.burst as real, 0.0)] == map["a" := Bucket(c.burst as real, 0.0)];
  }

  lemma SpendsSlowly(c: Config) returns (before: seq<Event>, window: seq<Event>)
    requires Sensible(c) && Margin(c) > 0.0 && c.globalRps > c.rate && GlobalBurst(c) > 0
    ensures Overspends(c, before, window)
  {
    hide GlobalBurst, Allow, Exceeds, Margin, Start, Earned, Sip, Rest, Available, Overspends;
    BurstIsSome(c);
    var d, m := Finely(c);
    var e := Request("a", 0.0, 0.0);
    FirstLook(c, true);
    FirstLook(c, false);
    var s := Alone(c.burst as real, GlobalBurst(c) as real, 0.0, 0.0);
    window := FirstSip(c, d, m, s);
    before := [e];
    AfterFirstLook(c, e, window);
  }

  lemma BurstIsSome(c: Config)
    requires Sensible(c) && Margin(c) > 0.0
    ensures c.burst > 0
  {
    hide GlobalBurst;
    if c.rate > 0.0 && c.idleTimeout > 0 { Product(c.rate, c.idleTimeout as real); }
  }

  /** The first sip is taken from a full bucket, and the window starts with it. */
  lemma FirstSip(c: Config, d: real, m: nat, s: Limiter) returns (window: seq<Event>)
    requires Sensible(c) && Margin(c) > 0.0 && c.globalRps > c.rate && GlobalBurst(c) > 0 && c.burst > 0
    requires Fine(c, d, m)
    requires s == Alone(c.burst as real, GlobalBurst(c) as real, 0.0, 0.0)
    ensures window != [] && window[0].now == d && Exceeds(c, s, s, d, window)
  {
    hide GlobalBurst, Allow, Exceeds, Margin, Earned, Sip, Rest, Available;
    var x := c.burst as real;
    var g' := SipStep(c, d, m, x, GlobalBurst(c) as real, 0.0, 0.0, 0.0);
    FullRest(c, d, m);
    NextPart(0, m, d, 0.0);
    assert m as real * d == 60.0 && m > 0;
    var e := Request("a", Sip(c, d, x), d);
    assert 0.0 + d == d;
    var k' := Step(c, false, s, e).0;
    var n := Enough(Rest(c, d, x), Earned(0.0, d, c.globalRps) - Earned(0.0, d, c.rate));
    var rest := DrainExceeds(c, d, m, Rest(c, d, x), g', d, k', 1, n);
    FullHolds(c, GlobalBurst(c) as real, d);
    AloneHolds(c, Rest(c, d, x), g', d, k'.lastCleanup);
    EarnedAdds(d, d, d, c.rate);
    assert 1.0 * d == d;
    ExceedsLater(c, s, s, d, e, d, rest);
    window := [e] + rest;
  }

  lemma FullRest(c: Config, d: real, m: nat)
    requires Sensible(c) && Fine(c, d, m)
    ensures var x := c.burst as real;
            && 0.0 <= Rest(c, d, x) == x - Sip(c, d, x) && Rest(c, d, x) + Earned(0.0, d, c.rate) <= x
  {
    EarnedGrows(0.0, d, c.rate);
    hide GlobalBurst, Earned;
  }

  lemma FullHolds(c: Config, g: real, d: real)
    requires Sensible(c) && d > 0.0
    ensures Available(c, Alone(c.burst as real, g, 0.0, 0.0).buckets, "a", d) == c.burst as real
  {
    EarnedGrows(0.0, d, c.rate);
    hide Earned;
  }

  lemma AfterFirstLook(c: Config, e: Event, window: seq<Event>)
    requires Sensible(c) && c.globalRps > 0.0 && e == Request("a", 0.0, 0.0) && window != [] && window[0].now > 0.0
    requires var s := Alone(c.burst as real, GlobalBurst(c) as real, 0.0, 0.0); Exceeds(c, s, s, window[0].now, window)
    ensures Overspends(c, [e], window)
  {
    hide GlobalBurst, Allow, Earned, Start, Admitted;
    FirstLook(c, true);
    FirstLook(c, false);
    FullHolds(c, GlobalBurst(c) as real, window[0].now);
    Consed(0.0, e, window[0].now, window);
    RunOfOne(c, true, Start(c, 0.0), e);
    RunOfOne(c, false, Start(c, 0.0), e);
  }

  lemma RunOfOne(c: Config, evict: bool, s: Limiter, e: Event)
    ensures Run(c, evict, s, [e]) == Step(c, evict, s, e).0
  {
    hide Step;
    assert [e][1..] == [];
    assert Run(c, evict, Step(c, evict, s, e).0, []) == Step(c, evict, s, e).0;
  }

  lemma MarginIff(c: Config)
    requires Sensible(c) && !FillsWhileIdle(c) && !Overshadowed(c)
    ensures Margin(c) > 0.0 && (c.globalRps > 0.0 ==> GlobalBurst(c) > 0)
  {
    if c.globalRps > 0.0 { GlobalBurstPositive(c); }
    hide GlobalBurst;
  }

  lemma Overspending(c: Config) returns (before: seq<Event>, window: seq<Event>)
    requires Sensible(c) && !FillsWhileIdle(c) && !Overshadowed(c)
    ensures Overspends(c, before, window)
  {
    hide Sensible, FillsWhileIdle, Overshadowed, Margin, GlobalBurst, Overspends;
    MarginIff(c);
    if c.globalRps > 0.0 && c.globalRps > c.rate {
      before, window := SpendsSlowly(c);
    } else {
      before := [];
      window := SpendsAtOnce(c);
    }
  }

  // ---- exactly when ----

  lemma {:induction false} AnswersConcat(c: Config, evict: bool, s: Limiter, before: seq<Event>, window: seq<Event>)
    ensures Answers(c, evict, s, before + window)
         == Answers(c, evict, s, before) + Answers(c, evict, Run(c, evict, s, before), window)
    ensures |Answers(c, evict, s, before)| == |before|
    decreases |before|
  {
    hide Step;
    if before == [] {
      assert before + window == window;
    } else {
      assert (before + window)[0] == before[0] && (before + window)[1..] == before[1..] + window;
      AnswersConcat(c, evict, Step(c, evict, s, before[0]).0, before[1..], window);
    }
  }

  lemma ExceedingTells(c: Config, s: Limiter, k: Limiter, from: real, events: seq<Event>)
    requires Sensible(c) && Exceeds(c, s, k, from, events) && Healthy(k.buckets, from)
    ensures Answers(c, true, s, events) != Answers(c, false, k, events)
  {
    hide Admitted, Answers, Earned, Available, Sensible;
    KeepBudget(c, k, "a", from, events);
    if Answers(c, true, s, events) == Answers(c, false, k, events) {
      AdmittedFollowsAnswers(c, s, k, events, Some("a"));
    }
  }

  lemma OverspendingTells(c: Config, before: seq<Event>, window: seq<Event>)
    requires Sensible(c) && Overspends(c, before, window)
    ensures Answers(c, true, Start(c, 0.0), before + window) != Answers(c, false, Start(c, 0.0), before + window)
  {
    hide Exceeds, Answers, Run, Start, Available, Sensible;
    var s, k := Run(c, true, Start(c, 0.0), before), Run(c, false, Start(c, 0.0), before);
    ExceedingTells(c, s, k, window[0].now, window);
    AnswersConcat(c, true, Start(c, 0.0), before, window);
    AnswersConcat(c, false, Start(c, 0.0), before, window);
    var x, y := Answers(c, true, Start(c, 0.0), before + window), Answers(c, false, Start(c, 0.0), before + window);
    assert x[|before|..] == Answers(c, true, s, window) && y[|before|..] == Answers(c, false, k, window);
  }

  /** Every run of requests gets the answers that a limiter without deletion would have given. */
  ghost predicate Invisible(c: Config) {
    forall start, events | Timed(start, events) && AmountsOk(events) ::
      Answers(c, true, Start(c, start), events) == Answers(c, false, Start(c, start), events)
  }

  lemma SensibleIs(c: Config)
    requires c.rate >= 0.0 && c.burst >= 0 && c.idleTimeout >= 0
    ensures Sensible(c)
  {
  }

  /** Whatever the limits are, deleting idle buckets changes no answer of any run if and only if an actor's bucket
      fills up within the idle timeout, or the global limit stands in front of it. */
  lemma EvictionInvisibleIff(c: Config)
    requires c.rate >= 0.0 && c.burst >= 0 && c.idleTimeout >= 0
    ensures Invisible(c) <==> FillsWhileIdle(c) || Overshadowed(c)
  {
    hide Sensible, FillsWhileIdle, Overshadowed, Start, Answers, Exceeds, Run, Available;
    SensibleIs(c);
    if FillsWhileIdle(c) || Overshadowed(c) {
      forall start, events | Timed(start, events) && AmountsOk(events)
        ensures Answers(c, true, Start(c, start), events) == Answers(c, false, Start(c, start), events)
      {
        if FillsWhileIdle(c) {
          EvictionInvisible(c, start, events);
        } else {
          OvershadowedIsInvisible(c, start, events);
        }
      }
    } else {
      var before, window := Overspending(c);
      OverspendingTells(c, before, window);
    }
  }

  /** Over any window of any run no actor is admitted more than burst + rate * T, T being the time from the first to the
      last event of the window. */
  ghost predicate RateLimited(c: Config) {
    forall start: real, before: seq<Event>, window: seq<Event>, actor: string |
      Timed(start, before + window) && AmountsOk(before + window) && window != [] ::
      Admitted(c, true, Run(c, true, Start(c, start), before), window, Some(actor))
      <= c.burst as real + Earned(window[0].now, window[|window| - 1].now, c.rate)
  }

  /** The rate limit of an actor holds under exactly the same condition. */
  lemma RateLimitedIff(c: Config)
    requires c.rate >= 0.0 && c.burst >= 0 && c.idleTimeout >= 0
    ensures RateLimited(c) <==> FillsWhileIdle(c) || Overshadowed(c)
  {
    hide Sensible, FillsWhileIdle, Overshadowed, Start, Admitted, Run, Available, Earned;
    SensibleIs(c);
    if FillsWhileIdle(c) || Overshadowed(c) {
      forall start: real, before: seq<Event>, window: seq<Event>, actor: string |
        Timed(start, before + window) && AmountsOk(before + window) && window != []
        ensures Admitted(c, true, Run(c, true, Start(c, start), before), window, Some(actor))
             <= c.burst as real + Earned(window[0].now, window[|window| - 1].now, c.rate)
      {
        AmountsSplit(before, window);
        if FillsWhileIdle(c) {
          ActorBound(c, start, before, window, actor);
        } else {
          ShadowedActorBound(c, start, before, window, actor);
        }
      }
    } else {
      var before, window := Overspending(c);
      assert LastNow(window[0].now, window) == window[|window| - 1].now;
    }
  }
}
