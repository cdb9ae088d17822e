/** One token bucket: lazy refill and consumption (`ratelimit/limiter.py`), and the same bucket as the Lua script
    of `ratelimit/redis_limiter.py` keeps it in Redis. Amounts and clocks are real numbers. */
module TokenBucket {
  import opened Collections

  datatype Bucket = Bucket(tokens: real, last: real)

  function Min(a: real, b: real): real { if a <= b then a else b }

  /** What the time between two clock readings earns. */
  function Earned(from: real, to: real, rate: real): real { (to - from) * rate }

  lemma EarnedAdds(a: real, b: real, c: real, rate: real)
    ensures Earned(a, b, rate) + Earned(b, c, rate) == Earned(a, c, rate)
    ensures Earned(a, a, rate) == 0.0
  {
  }

  lemma EarnedGrows(a: real, b: real, rate: real)
    requires a <= b && rate >= 0.0
    ensures Earned(a, b, rate) >= 0.0
  {
    var d := b - a;
    assert d >= 0.0 && d * rate >= 0.0;
  }

  function Refill(b: Bucket, rate: real, burst: real, now: real): Bucket {
    Bucket(Min(burst, b.tokens + Earned(b.last, now, rate)), now)
  }

  function Consume(b: Bucket, rate: real, burst: real, n: real, now: real): (Bucket, bool) {
    var r := Refill(b, rate, burst, now);
    if r.tokens >= n then (r.(tokens := r.tokens - n), true) else (r, false)
  }

  function Fresh(burst: real, now: real): Bucket { Bucket(burst, now) }

  /** What a bucket holds by now: `rate` tokens more for every second since it was last used, and no more than `burst`.
      A request for no more than that is granted and paid for; a refused one costs nothing. */
  lemma ConsumeIff(b: Bucket, rate: real, burst: real, n: real, now: real)
    ensures var earned := b.tokens + rate * (now - b.last);
            var held := if earned < burst then earned else burst;
            var (b', ok) := Consume(b, rate, burst, n, now);
            (ok <==> n <= held) && b'.last == now && b'.tokens == if ok then held - n else held
  {
    assert rate * (now - b.last) == (now - b.last) * rate;
  }

  /** Refilling at t1 and again at t2 is refilling once at t2: when a bucket was looked at in between does not
      matter. */
  lemma RefillTwice(b: Bucket, rate: real, burst: real, t1: real, t2: real)
    requires rate >= 0.0 && t1 <= t2
    ensures Refill(Refill(b, rate, burst, t1), rate, burst, t2) == Refill(b, rate, burst, t2)
  {
    hide Earned;
    EarnedAdds(b.last, t1, t2, rate);
    EarnedGrows(t1, t2, rate);
  }

  // ---- the Lua script ----

  /** The script on a stored hash: a missing one counts as full since now, and time that does not advance
      neither refills nor moves `last_refill`. */
  function Script(data: Option<Bucket>, rate: real, burst: real, n: real, now: real): (Bucket, bool) {
    var tokens := if data.Some? then data.value.tokens else burst;
    var last := if data.Some? then data.value.last else now;
    var b :=
      if now - last > 0.0 then Bucket(Min(burst, tokens + Earned(last, now, rate)), now) else Bucket(tokens, last);
    if b.tokens >= n then (b.(tokens := b.tokens - n), true) else (b, false)
  }

  /** What the script does on any clock: a key it does not know counts as full, one whose time has not advanced is
      neither refilled nor stamped. */
  lemma ScriptIff(data: Option<Bucket>, rate: real, burst: real, n: real, now: real)
    ensures var (b', ok) := Script(data, rate, burst, n, now);
            match data
            case None => (ok <==> n <= burst) && b' == Bucket(if ok then burst - n else burst, now)
            case Some(b) =>
              if now <= b.last
              then (ok <==> n <= b.tokens) && b' == Bucket(if ok then b.tokens - n else b.tokens, b.last)
              else
                var earned := b.tokens + rate * (now - b.last);
                var held := if earned < burst then earned else burst;
                (ok <==> n <= held) && b' == Bucket(if ok then held - n else held, now)
  {
    if data.Some? { assert rate * (now - data.value.last) == (now - data.value.last) * rate; }
  }

  ghost predicate Within(b: Bucket, burst: real) { 0.0 <= b.tokens <= burst }

  lemma ScriptStaysWithin(data: Option<Bucket>, rate: real, burst: real, n: real, now: real)
    requires rate >= 0.0 && burst >= 0.0 && n >= 0.0 && (data.Some? ==> Within(data.value, burst))
    ensures Within(Script(data, rate, burst, n, now).0, burst)
  {
    hide Earned;
    if data.Some? && now - data.value.last > 0.0 { EarnedGrows(data.value.last, now, rate); }
  }

  /** While the clock does not run backwards, the script answers and stores exactly what the in-memory bucket does. */
  lemma ScriptRefinesConsume(data: Option<Bucket>, rate: real, burst: real, n: real, now: real)
    requires data.Some? ==> Within(data.value, burst) && data.value.last <= now
    ensures Script(data, rate, burst, n, now)
         == Consume(if data.Some? then data.value else Fresh(burst, now), rate, burst, n, now)
  {
    hide Earned;
    EarnedAdds(now, now, now, rate);
  }

  datatype Call = Call(amount: real, now: real)

  /** The stored hash after a run of calls, from no hash. */
  function ScriptRun(calls: seq<Call>, rate: real, burst: real): Option<Bucket> {
    if calls == [] then None
    else
      var last := calls[|calls| - 1];
      Some(Script(ScriptRun(calls[..|calls| - 1], rate, burst), rate, burst, last.amount, last.now).0)
  }

  /** The answer to call k of a run. */
  function ScriptAnswer(calls: seq<Call>, k: nat, rate: real, burst: real): bool
    requires k < |calls|
  {
    Script(ScriptRun(calls[..k], rate, burst), rate, burst, calls[k].amount, calls[k].now).1
  }

  function ConsumeRun(calls: seq<Call>, rate: real, burst: real): Bucket
    requires calls != []
  {
    var init, last := calls[..|calls| - 1], calls[|calls| - 1];
    var b := if init == [] then Fresh(burst, last.now) else ConsumeRun(init, rate, burst);
    Consume(b, rate, burst, last.amount, last.now).0
  }

  ghost predicate Ordered(calls: seq<Call>) {
    forall i, j | 0 <= i < j < |calls| :: calls[i].now <= calls[j].now
  }

  ghost predicate Amounts(calls: seq<Call>) {
    forall i | 0 <= i < |calls| :: calls[i].amount >= 0.0
  }

  /** The running maximum of the clock. */
  function MaxNow(calls: seq<Call>): real
    requires calls != []
  {
    var init, now := calls[..|calls| - 1], calls[|calls| - 1].now;
    if init == [] then now else if MaxNow(init) < now then now else MaxNow(init)
  }

  function Consumed(calls: seq<Call>, rate: real, burst: real): real {
    if calls == [] then 0.0
    else
      var init, last := calls[..|calls| - 1], calls[|calls| - 1];
      Consumed(init, rate, burst)
      + if Script(ScriptRun(init, rate, burst), rate, burst, last.amount, last.now).1 then last.amount else 0.0
  }

  lemma ScriptTurn(data: Option<Bucket>, rate: real, burst: real, n: real, now: real)
    requires rate >= 0.0 && burst >= 0.0 && n >= 0.0 && data.Some? && Within(data.value, burst)
    ensures var (b, ok) := Script(data, rate, burst, n, now);
            var newMax := if data.value.last < now then now else data.value.last;
            && b.last == newMax
            && b.tokens + (if ok then n else 0.0) <= data.value.tokens + Earned(data.value.last, newMax, rate)
  {
    hide Earned;
    EarnedAdds(data.value.last, data.value.last, now, rate);
  }

  lemma ScriptFirst(rate: real, burst: real, n: real, now: real)
    ensures var (b, ok) := Script(None, rate, burst, n, now);
            b.last == now && b.tokens + (if ok then n else 0.0) == burst
  {
  }

  /** On clocks that jump about, even backwards: the tokens stay within the bucket, `last_refill` is the running maximum
      of the clock, and what was handed out is at most a full bucket and what the latest time has earned. */
  lemma {:induction false} ScriptOnAnyClock(calls: seq<Call>, rate: real, burst: real)
    requires rate >= 0.0 && burst >= 0.0 && Amounts(calls) && calls != []
    ensures var s := ScriptRun(calls, rate, burst);
            && s.Some? && Within(s.value, burst)
            && s.value.last == MaxNow(calls)
            && Consumed(calls, rate, burst) + s.value.tokens <= burst + Earned(calls[0].now, MaxNow(calls), rate)
    decreases |calls|
  {
    var init, last := calls[..|calls| - 1], calls[|calls| - 1];
    var s := ScriptRun(init, rate, burst);
    hide Earned, Script, Within;
    EarnedAdds(last.now, last.now, last.now, rate);
    if init == [] {
      assert s == None && Consumed(init, rate, burst) == 0.0;
      ScriptStaysWithin(None, rate, burst, last.amount, last.now);
      ScriptFirst(rate, burst, last.amount, last.now);
    } else {
      ScriptOnAnyClock(init, rate, burst);
      ScriptStaysWithin(s, rate, burst, last.amount, last.now);
      ScriptTurn(s, rate, burst, last.amount, last.now);
      EarnedAdds(calls[0].now, MaxNow(init), MaxNow(calls), rate);
    }
  }

  /** ... so the total handed out is at most burst + rate * (latest time - first time). */
  lemma ScriptBound(calls: seq<Call>, rate: real, burst: real)
    requires rate >= 0.0 && burst >= 0.0 && Amounts(calls) && calls != []
    ensures Consumed(calls, rate, burst) <= burst + Earned(calls[0].now, MaxNow(calls), rate)
  {
    ScriptOnAnyClock(calls, rate, burst);
  }

  /** On a clock that never runs backwards, the stored hash is the in-memory bucket after every run. */
  lemma {:induction false} ScriptStoreRefines(calls: seq<Call>, rate: real, burst: real)
    requires rate >= 0.0 && burst >= 0.0 && Amounts(calls) && Ordered(calls) && calls != []
    ensures ScriptRun(calls, rate, burst) == Some(ConsumeRun(calls, rate, burst))
    ensures ConsumeRun(calls, rate, burst).last == calls[|calls| - 1].now
    ensures Within(ConsumeRun(calls, rate, burst), burst)
    decreases |calls|
  {
    var init, last := calls[..|calls| - 1], calls[|calls| - 1];
    if init == [] {
      ScriptRefinesConsume(None, rate, burst, last.amount, last.now);
      ScriptStaysWithin(None, rate, burst, last.amount, last.now);
    } else {
      ScriptStoreRefines(init, rate, burst);
      var s := ScriptRun(init, rate, burst);
      ScriptRefinesConsume(s, rate, burst, last.amount, last.now);
      ScriptStaysWithin(s, rate, burst, last.amount, last.now);
    }
  }

  /** The answer of the in-memory bucket to call k of a run. */
  function ConsumeAnswer(calls: seq<Call>, k: nat, rate: real, burst: real): bool
    requires k < |calls|
  {
    Consume(if k == 0 then Fresh(burst, calls[0].now) else ConsumeRun(calls[..k], rate, burst), rate, burst,
            calls[k].amount, calls[k].now).1
  }

  lemma ScriptAnswerRefines(calls: seq<Call>, k: nat, rate: real, burst: real)
    requires rate >= 0.0 && burst >= 0.0 && Amounts(calls) && Ordered(calls) && k < |calls|
    ensures ScriptAnswer(calls, k, rate, burst) == ConsumeAnswer(calls, k, rate, burst)
  {
    hide Script, Consume, ConsumeRun;
    if k == 0 {
      assert calls[..0] == [];
      ScriptRefinesConsume(None, rate, burst, calls[0].amount, calls[0].now);
    } else {
      ScriptStoreRefines(calls[..k], rate, burst);
      ScriptRefinesConsume(ScriptRun(calls[..k], rate, burst), rate, burst, calls[k].amount, calls[k].now);
    }
  }

  /** On a clock that never runs backwards, the script and the in-memory bucket cannot be told apart: every call of
      every run gets the same answer, and the stored hash is the bucket. */
  lemma ScriptRunRefines(calls: seq<Call>, rate: real, burst: real)
    requires rate >= 0.0 && burst >= 0.0 && Amounts(calls) && Ordered(calls)
    ensures forall k | 0 <= k < |calls| :: ScriptAnswer(calls, k, rate, burst) == ConsumeAnswer(calls, k, rate, burst)
    ensures calls != [] ==> ScriptRun(calls, rate, burst) == Some(ConsumeRun(calls, rate, burst))
  {
    hide Script, Consume, ConsumeRun, ScriptAnswer, ConsumeAnswer;
    forall k | 0 <= k < |calls| ensures ScriptAnswer(calls, k, rate, burst) == ConsumeAnswer(calls, k, rate, burst) {
      ScriptAnswerRefines(calls, k, rate, burst);
    }
    if calls != [] { ScriptStoreRefines(calls, rate, burst); }
  }

  /** The script's key in Redis. */
  class RedisBucket {
    var data: Option<Bucket>

    method TokenBucketScript(rate: real, burst: real, consume: real, now: real) returns (allowed: bool)
      modifies this
      ensures data == Some(Script(old(data), rate, burst, consume, now).0)
      ensures allowed == Script(old(data), rate, burst, consume, now).1
    {
      var tokens := if data.Some? then data.value.tokens else burst;
      var lastRefill := if data.Some? then data.value.last else now;
      var elapsed := now - lastRefill;
      if elapsed > 0.0 {
        assert elapsed * rate == Earned(lastRefill, now, rate);
        tokens := Min(burst, tokens + elapsed * rate);
        lastRefill := now;
      }
      if tokens >= consume {
        tokens := tokens - consume;
        data := Some(Bucket(tokens, lastRefill));
        allowed := true;
      } else {
        data := Some(Bucket(tokens, lastRefill));
        allowed := false;
      }
    }
  }
}
