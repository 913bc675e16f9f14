/** The global token-bucket limiter: whole seconds are credited at each request, and the bounds on
    admissions this gives. Times are nanoseconds. */
module TokenBucket {
  import opened Common

  const SECOND: nat := 1_000_000_000

  datatype RawConfig = Config(perSecond: nat, max: nat)

  type Config = c: RawConfig | 1 <= c.perSecond && 1 <= c.max witness Config(5, 10)

  datatype Bucket = Bucket(tokens: int, last: nat)

  // `duration_since(..).as_secs()`
  function Elapsed(now: nat, last: nat): nat {
    if last <= now then (now - last) / SECOND else 0
  }

  function Refill(c: Config, b: Bucket, now: nat): Bucket {
    var elapsed := Elapsed(now, b.last);
    if elapsed > 0 then
      var more := b.tokens + elapsed * c.perSecond;
      Bucket(if more < c.max then more else c.max, now)
    else b
  }

  function Take(c: Config, b: Bucket, now: nat): (Bucket, bool) {
    var filled := Refill(c, b, now);
    if filled.tokens > 0 then (filled.(tokens := filled.tokens - 1), true) else (filled, false)
  }

  type Buckets = map<string, Bucket>

  function Check(c: Config, buckets: Buckets, key: string, now: nat): (Buckets, bool) {
    var (b, ok) := Take(c, if key in buckets then buckets[key] else Bucket(c.max, now), now);
    (buckets[key := b], ok)
  }

  class RateLimiter {
    var buckets: Buckets
    const config: Config

    constructor (perSecond: nat, max: nat)
      requires 1 <= perSecond && 1 <= max
      ensures buckets == map[] && config == Config(perSecond, max)
    {
      buckets := map[];
      config := Config(perSecond, max);
    }

    method CheckRate(key: string, now: nat) returns (ok: bool)
      modifies this`buckets
      ensures (buckets, ok) == Check(config, old(buckets), key, now)
    {
      if key !in buckets {
        buckets := buckets[key := Bucket(config.max, now)];
      }
      var tokens, last := buckets[key].tokens, buckets[key].last;
      var elapsed := Elapsed(now, last);
      if elapsed > 0 {
        tokens := tokens + elapsed * config.perSecond;
        if tokens > config.max {
          tokens := config.max;
        }
        last := now;
      }
      ok := tokens > 0;
      if ok {
        tokens := tokens - 1;
      }
      buckets := buckets[key := Bucket(tokens, last)];
      assert buckets == old(buckets)[key := Bucket(tokens, last)];
    }
  }

  // ---------- Runs over all keys ----------

  datatype Request = Request(key: string, time: nat)

  ghost predicate Monotone(reqs: seq<Request>) {
    forall i, j :: 0 <= i < j < |reqs| ==> reqs[i].time <= reqs[j].time
  }

  function Run(c: Config, reqs: seq<Request>): (Buckets, seq<bool>) {
    if reqs == [] then (map[], [])
    else
      var n := |reqs| - 1;
      var before := Run(c, reqs[..n]);
      var (buckets, ok) := Check(c, before.0, reqs[n].key, reqs[n].time);
      (buckets, before.1 + [ok])
  }

  // Requests of a key admitted at or after a time.
  function Admitted(c: Config, reqs: seq<Request>, key: string, from: nat): nat {
    if reqs == [] then 0
    else
      var n := |reqs| - 1;
      var ok := Check(c, Run(c, reqs[..n]).0, reqs[n].key, reqs[n].time).1;
      Admitted(c, reqs[..n], key, from) + (if ok && reqs[n].key == key && from <= reqs[n].time then 1 else 0)
  }

  // Whole seconds add up to no more than the whole seconds of the whole span.
  lemma {:induction false} ElapsedAdds(a: nat, b: nat, t: nat)
    requires a <= b <= t
    ensures Elapsed(b, a) + Elapsed(t, b) <= Elapsed(t, a)
  {
    var x, y := Elapsed(b, a), Elapsed(t, b);
    assert b - a >= x * SECOND && t - b >= y * SECOND;
    assert t - a >= (x + y) * SECOND;
  }

  lemma {:induction false} ElapsedMonotone(a: nat, s: nat, t: nat)
    requires a <= s <= t
    ensures Elapsed(s, a) <= Elapsed(t, a)
    ensures Elapsed(t, s) <= Elapsed(t, a)
  {
  }

  // At most one extra whole second when the span starts less than a second earlier.
  lemma {:induction false} ElapsedEarlier(a: nat, s: nat, t: nat)
    requires a <= s <= t && s < a + SECOND
    ensures Elapsed(t, a) <= Elapsed(t, s) + 1
  {
  }

  // ---------- One key ----------

  // Tokens credited for a number of whole seconds.
  function Credit(c: Config, seconds: nat): nat {
    if seconds == 0 then 0 else Credit(c, seconds - 1) + c.perSecond
  }

  lemma {:induction false} CreditIsProduct(c: Config, seconds: nat)
    ensures Credit(c, seconds) == seconds * c.perSecond
  {
    if seconds > 0 {
      CreditIsProduct(c, seconds - 1);
    }
  }

  lemma {:induction false} CreditAdds(c: Config, m: nat, n: nat)
    ensures Credit(c, m + n) == Credit(c, m) + Credit(c, n)
  {
    if n > 0 {
      CreditAdds(c, m, n - 1);
    }
  }

  lemma {:induction false} CreditMonotone(c: Config, m: nat, n: nat)
    requires m <= n
    ensures Credit(c, m) <= Credit(c, n)
  {
    CreditAdds(c, m, n - m);
  }

  // What a refill adds, up to the maximum.
  lemma {:induction false} RefillIsCredit(c: Config, b: Bucket, now: nat)
    ensures var e, r := Elapsed(now, b.last), Refill(c, b, now);
            && (e == 0 ==> r == b)
            && (e > 0 ==>
                  && r.last == now
                  && (r.tokens == b.tokens + Credit(c, e) <= c.max || r.tokens == c.max <= b.tokens + Credit(c, e)))
  {
    CreditIsProduct(c, Elapsed(now, b.last));
  }

  ghost predicate BucketOk(c: Config, b: Bucket, clock: nat) {
    0 <= b.tokens <= c.max && b.last <= clock
  }

  /** Tokens stay within 0 and the maximum over every run, for every key. */
  lemma {:induction false} TokensInRange(c: Config, reqs: seq<Request>, key: string, clock: nat)
    requires Monotone(reqs) && (forall r :: r in reqs ==> r.time <= clock)
    ensures key in Run(c, reqs).0 ==> BucketOk(c, Run(c, reqs).0[key], clock)
  {
    if reqs != [] {
      var n := |reqs| - 1;
      forall r | r in reqs[..n] ensures r.time <= reqs[n].time {}
      TokensInRange(c, reqs[..n], key, reqs[n].time);
      assert reqs[n] in reqs;
    }
  }

  // Time of the key's first request.
  function First(reqs: seq<Request>, key: string): Option<nat> {
    if reqs == [] then None
    else
      var n := |reqs| - 1;
      match First(reqs[..n], key)
      case Some(t) => Some(t)
      case None => if reqs[n].key == key then Some(reqs[n].time) else None
  }

  lemma {:induction false} LastIsLatest(reqs: seq<Request>, n: nat)
    requires Monotone(reqs) && |reqs| == n + 1
    ensures Monotone(reqs[..n]) && forall r :: r in reqs[..n] ==> r.time <= reqs[n].time
  {
  }

  // Refilling never credits more than the whole seconds since `start`, however they are split.
  lemma {:induction false} RefillBound(c: Config, b: Bucket, start: nat, now: nat, spent: int, bound: int)
    requires start <= b.last <= now
    requires b.tokens + spent <= bound + Credit(c, Elapsed(b.last, start))
    ensures start <= Refill(c, b, now).last <= now
    ensures Refill(c, b, now).tokens + spent <= bound + Credit(c, Elapsed(Refill(c, b, now).last, start))
  {
    var e1, e2 := Elapsed(b.last, start), Elapsed(now, b.last);
    ElapsedAdds(start, b.last, now);
    CreditAdds(c, e1, e2);
    CreditMonotone(c, e1 + e2, Elapsed(now, start));
    RefillIsCredit(c, b, now);
  }

  ghost predicate FirstBound(c: Config, b: Bucket, start: nat, admitted: nat, clock: nat) {
    start <= b.last <= clock && 0 <= b.tokens && b.tokens + admitted <= c.max + Credit(c, Elapsed(b.last, start))
  }

  lemma {:induction false} TakeKeepsFirst(c: Config, b: Bucket, start: nat, admitted: nat, now: nat)
    requires FirstBound(c, b, start, admitted, now)
    ensures var (b', ok) := Take(c, b, now); FirstBound(c, b', start, admitted + (if ok then 1 else 0), now)
  {
    RefillBound(c, b, start, now, admitted, c.max);
    RefillIsCredit(c, b, now);
  }

  lemma {:induction false} RunFirstBound(c: Config, reqs: seq<Request>, key: string, clock: nat)
    requires Monotone(reqs) && (forall r :: r in reqs ==> r.time <= clock)
    ensures var buckets := Run(c, reqs).0;
            match First(reqs, key)
            case None => key !in buckets && Admitted(c, reqs, key, 0) == 0
            case Some(start) => key in buckets && FirstBound(c, buckets[key], start, Admitted(c, reqs, key, 0), clock)
  {
    if reqs != [] {
      var n := |reqs| - 1;
      var now := reqs[n].time;
      LastIsLatest(reqs, n);
      assert reqs[n] in reqs;
      RunFirstBound(c, reqs[..n], key, now);
      var buckets := Run(c, reqs[..n]).0;
      if reqs[n].key == key {
        if key in buckets {
          TakeKeepsFirst(c, buckets[key], First(reqs[..n], key).value, Admitted(c, reqs[..n], key, 0), now);
        } else {
          TakeKeepsFirst(c, Bucket(c.max, now), now, 0, now);
        }
      }
    }
  }

  /** From a key's first request at t0 up to t, at most the maximum plus one refill per whole
      second elapsed since t0 requests are admitted, across all interleavings of keys. */
  lemma {:induction false} AdmittedSinceFirst(c: Config, reqs: seq<Request>, key: string, t: nat)
    requires Monotone(reqs) && (forall r :: r in reqs ==> r.time <= t)
    requires First(reqs, key).Some?
    ensures Admitted(c, reqs, key, 0) <= c.max + Elapsed(t, First(reqs, key).value) * c.perSecond
  {
    RunFirstBound(c, reqs, key, t);
    var start, last := First(reqs, key).value, Run(c, reqs).0[key].last;
    ElapsedMonotone(start, last, t);
    CreditMonotone(c, Elapsed(last, start), Elapsed(t, start));
    CreditIsProduct(c, Elapsed(t, start));
  }

  // Before the first refill at or after s, less than the maximum is left to spend; after it,
  // at most one second more than the whole seconds since s has been credited.
  ghost predicate SpanBound(c: Config, b: Bucket, s: nat, admitted: nat) {
    && 0 <= b.tokens < c.max
    && (b.last < s ==> b.tokens + admitted < c.max && (admitted > 0 ==> s < b.last + SECOND))
    && (s <= b.last ==> b.tokens + admitted < c.max + Credit(c, Elapsed(b.last, s) + 1))
  }

  lemma {:induction false} SpanAfterRefill(c: Config, b: Bucket, s: nat, now: nat, admitted: nat)
    requires SpanBound(c, b, s, admitted) && b.last <= now && s <= now && Elapsed(now, b.last) > 0
    ensures Refill(c, b, now).last == now && 0 < Refill(c, b, now).tokens <= c.max
    ensures Refill(c, b, now).tokens + admitted < c.max + Credit(c, Elapsed(now, s) + 1)
  {
    var e := Elapsed(now, b.last);
    RefillIsCredit(c, b, now);
    CreditMonotone(c, 1, e);
    CreditMonotone(c, 1, Elapsed(now, s) + 1);
    assert Credit(c, 1) == c.perSecond;
    if s <= b.last {
      ElapsedAdds(s, b.last, now);
      CreditAdds(c, Elapsed(b.last, s) + 1, e);
      CreditMonotone(c, Elapsed(b.last, s) + 1 + e, Elapsed(now, s) + 1);
    } else if admitted > 0 {
      ElapsedEarlier(b.last, s, now);
      CreditMonotone(c, e, Elapsed(now, s) + 1);
    }
  }

  lemma {:induction false} TakeKeepsSpan(c: Config, b: Bucket, s: nat, now: nat, admitted: nat)
    requires SpanBound(c, b, s, admitted) && b.last <= now
    requires now < s ==> admitted == 0
    ensures var (b', ok) := Take(c, b, now);
            b'.last <= now && SpanBound(c, b', s, admitted + (if ok && s <= now then 1 else 0))
  {
    RefillIsCredit(c, b, now);
    if s <= now && Elapsed(now, b.last) > 0 {
      SpanAfterRefill(c, b, s, now, admitted);
    } else if Elapsed(now, b.last) > 0 {
      CreditMonotone(c, 1, Elapsed(now, b.last));
    }
  }

  lemma {:induction false} NewBucketSpan(c: Config, s: nat, now: nat)
    ensures var (b, ok) := Take(c, Bucket(c.max, now), now);
            SpanBound(c, b, s, if ok && s <= now then 1 else 0) && b.last == now
  {
    CreditMonotone(c, 1, Elapsed(now, s) + 1);
  }

  lemma {:induction false} RunSpanBound(c: Config, reqs: seq<Request>, key: string, s: nat, clock: nat)
    requires Monotone(reqs) && (forall r :: r in reqs ==> r.time <= clock)
    ensures var buckets := Run(c, reqs).0;
            && (key !in buckets ==> Admitted(c, reqs, key, s) == 0)
            && (key in buckets ==>
                  buckets[key].last <= clock && SpanBound(c, buckets[key], s, Admitted(c, reqs, key, s)))
    ensures clock < s ==> Admitted(c, reqs, key, s) == 0
  {
    if reqs != [] {
      var n := |reqs| - 1;
      LastIsLatest(reqs, n);
      assert reqs[n] in reqs;
      RunSpanBound(c, reqs[..n], key, s, reqs[n].time);
      var buckets := Run(c, reqs[..n]).0;
      if reqs[n].key == key && key in buckets {
        TakeKeepsSpan(c, buckets[key], s, reqs[n].time, Admitted(c, reqs[..n], key, s));
      } else if reqs[n].key == key {
        NewBucketSpan(c, s, reqs[n].time);
      }
    }
  }

  /** Over any closed interval from s to t, fewer requests of a key are admitted than the maximum
      plus one refill per whole second of the interval plus one more. */
  lemma {:induction false} AdmittedInSpan(c: Config, reqs: seq<Request>, key: string, s: nat, t: nat)
    requires Monotone(reqs) && s <= t && (forall r :: r in reqs ==> r.time <= t)
    ensures Admitted(c, reqs, key, s) < c.max + (Elapsed(t, s) + 1) * c.perSecond
  {
    RunSpanBound(c, reqs, key, s, t);
    var buckets := Run(c, reqs).0;
    if key in buckets && s <= buckets[key].last {
      ElapsedMonotone(s, buckets[key].last, t);
      CreditMonotone(c, Elapsed(buckets[key].last, s) + 1, Elapsed(t, s) + 1);
    }
    CreditIsProduct(c, Elapsed(t, s) + 1);
  }

  // ---------- The bound is attained ----------

  function Repeat(r: Request, n: nat): seq<Request> {
    if n == 0 then [] else Repeat(r, n - 1) + [r]
  }

  lemma {:induction false} CheckLast(c: Config, before: seq<Request>, r: Request, s: nat)
    ensures Run(c, before + [r]).0 == Check(c, Run(c, before).0, r.key, r.time).0
    ensures Admitted(c, before + [r], r.key, s)
            == Admitted(c, before, r.key, s)
               + (if Check(c, Run(c, before).0, r.key, r.time).1 && s <= r.time then 1 else 0)
  {
    assert (before + [r])[..|before|] == before;
  }

  lemma {:induction false} CheckSpends(c: Config, buckets: Buckets, r: Request, tokens: nat, last: nat)
    requires r.key in buckets && buckets[r.key] == Bucket(tokens, last) && 0 < tokens && Elapsed(r.time, last) == 0
    ensures Check(c, buckets, r.key, r.time) == (buckets[r.key := Bucket(tokens - 1, last)], true)
  {
  }

  lemma {:induction false} CheckRefills(c: Config, buckets: Buckets, r: Request, last: nat)
    requires r.key in buckets && buckets[r.key] == Bucket(0, last) && Elapsed(r.time, last) == 1 && c.perSecond <= c.max
    ensures Check(c, buckets, r.key, r.time) == (buckets[r.key := Bucket(c.perSecond - 1, r.time)], true)
  {
  }

  // After the run, the key has this bucket and this many admissions since s.
  ghost predicate Reached(c: Config, reqs: seq<Request>, key: string, s: nat, b: Bucket, admitted: int) {
    key in Run(c, reqs).0 && Run(c, reqs).0[key] == b && Admitted(c, reqs, key, s) == admitted
  }

  // n requests at one moment, with n tokens in the bucket and no whole second since the last
  // refill, are all admitted.
  lemma {:induction false} Burst(
      c: Config, reqs: seq<Request>, r: Request, s: nat, tokens: nat, last: nat, admitted: nat, n: nat)
    requires s <= r.time && Elapsed(r.time, last) == 0 && n <= tokens
    requires Reached(c, reqs, r.key, s, Bucket(tokens, last), admitted)
    ensures Reached(c, reqs + Repeat(r, n), r.key, s, Bucket(tokens - n, last), admitted + n)
  {
    if n == 0 {
      assert reqs + Repeat(r, 0) == reqs;
    } else {
      Burst(c, reqs, r, s, tokens, last, admitted, n - 1);
      var before := reqs + Repeat(r, n - 1);
      CheckSpends(c, Run(c, before).0, r, tokens - n + 1, last);
      CheckLast(c, before, r, s);
      assert reqs + Repeat(r, n) == before + [r];
    }
  }

  lemma {:induction false} RefillReached(c: Config, reqs: seq<Request>, r: Request, s: nat, last: nat, admitted: nat)
    requires s <= r.time && Elapsed(r.time, last) == 1 && c.perSecond <= c.max
    requires Reached(c, reqs, r.key, s, Bucket(0, last), admitted)
    ensures Reached(c, reqs + [r], r.key, s, Bucket(c.perSecond - 1, r.time), admitted + 1)
  {
    CheckRefills(c, Run(c, reqs).0, r, last);
    CheckLast(c, reqs, r, s);
  }

  lemma {:induction false} FirstReached(c: Config, key: string, s: nat)
    requires 0 < s
    ensures Reached(c, [Request(key, 0)], key, s, Bucket(c.max - 1, 0), 0)
  {
    CheckLast(c, [], Request(key, 0), s);
    assert [] + [Request(key, 0)] == [Request(key, 0)];
  }

  lemma {:induction false} SpentReached(c: Config, key: string, s: nat)
    requires 0 < s && Elapsed(s, 0) == 0
    ensures Reached(c, [Request(key, 0)] + Repeat(Request(key, s), c.max - 1), key, s, Bucket(0, 0), c.max - 1)
  {
    FirstReached(c, key, s);
    Burst(c, [Request(key, 0)], Request(key, s), s, c.max - 1, 0, 0, c.max - 1);
  }

  lemma {:induction false} RefillAndBurst(
      c: Config, spent: seq<Request>, r: Request, s: nat, last: nat, admitted: nat)
    requires c.perSecond <= c.max && s <= r.time && Elapsed(r.time, last) == 1 && Elapsed(r.time, r.time) == 0
    requires Reached(c, spent, r.key, s, Bucket(0, last), admitted)
    ensures Reached(c, spent + [r] + Repeat(r, c.perSecond - 1), r.key, s, Bucket(0, r.time), admitted + c.perSecond)
  {
    RefillReached(c, spent, r, s, last, admitted);
    Burst(c, spent + [r], r, s, c.perSecond - 1, r.time, admitted + 1, c.perSecond - 1);
  }

  lemma {:induction false} SecondsApart(k: nat)
    ensures Elapsed((k + 1) * SECOND, k * SECOND) == 1
    ensures Elapsed((k + 1) * SECOND, (k + 1) * SECOND) == 0
    ensures Elapsed((k + 1) * SECOND, SECOND - 1) == k
  {
    assert (k + 1) * SECOND - k * SECOND == SECOND;
    assert (k + 1) * SECOND - (SECOND - 1) == k * SECOND + 1;
  }

  // One early request, and the rest of the bucket one nanosecond before the first whole second.
  function Opening(c: Config, key: string): seq<Request> {
    [Request(key, 0)] + Repeat(Request(key, SECOND - 1), c.max - 1)
  }

  // A whole refill at one moment.
  function Round(front: seq<Request>, r: Request, n: nat): seq<Request>
    requires 0 < n
  {
    front + [r] + Repeat(r, n - 1)
  }

  lemma {:induction false} RoundReached(c: Config, front: seq<Request>, key: string, k: nat, admitted: nat)
    requires c.perSecond <= c.max && Reached(c, front, key, SECOND - 1, Bucket(0, k * SECOND), admitted)
    ensures Reached(c, Round(front, Request(key, (k + 1) * SECOND), c.perSecond), key, SECOND - 1,
                    Bucket(0, (k + 1) * SECOND), admitted + c.perSecond)
  {
    SecondsApart(k);
    RefillAndBurst(c, front, Request(key, (k + 1) * SECOND), SECOND - 1, k * SECOND, admitted);
  }

  ghost predicate MonotoneUpTo(reqs: seq<Request>, t: nat) {
    Monotone(reqs) && forall i :: 0 <= i < |reqs| ==> reqs[i].time <= t
  }

  lemma {:induction false} RepeatMonotone(front: seq<Request>, r: Request, n: nat)
    requires MonotoneUpTo(front, r.time)
    ensures MonotoneUpTo(front + Repeat(r, n), r.time)
  {
    if n == 0 {
      assert front + Repeat(r, n) == front;
    } else {
      RepeatMonotone(front, r, n - 1);
      assert front + Repeat(r, n) == (front + Repeat(r, n - 1)) + [r];
    }
  }

  lemma {:induction false} RoundMonotone(front: seq<Request>, s: nat, r: Request, n: nat)
    requires MonotoneUpTo(front, s) && s <= r.time && 0 < n
    ensures MonotoneUpTo(Round(front, r, n), r.time)
  {
    assert MonotoneUpTo(front + [r], r.time);
    RepeatMonotone(front + [r], r, n - 1);
  }

  lemma {:induction false} OpeningReached(c: Config, key: string)
    ensures Reached(c, Opening(c, key), key, SECOND - 1, Bucket(0, 0), c.max - 1)
    ensures MonotoneUpTo(Opening(c, key), SECOND - 1)
  {
    SpentReached(c, key, SECOND - 1);
    assert MonotoneUpTo([Request(key, 0)], SECOND - 1);
    RepeatMonotone([Request(key, 0)], Request(key, SECOND - 1), c.max - 1);
  }

  // The opening, and a whole refill at each of the following k + 1 seconds.
  lemma {:induction false} SharpRun(c: Config, key: string, k: nat) returns (run: seq<Request>)
    requires c.perSecond <= c.max
    ensures Reached(c, run, key, SECOND - 1, Bucket(0, (k + 1) * SECOND), c.max - 1 + Credit(c, k + 1))
    ensures MonotoneUpTo(run, (k + 1) * SECOND)
  {
    if k == 0 {
      OpeningReached(c, key);
      run := Opening(c, key);
      RoundReached(c, run, key, 0, c.max - 1);
      RoundMonotone(run, SECOND - 1, Request(key, SECOND), c.perSecond);
      run := Round(run, Request(key, SECOND), c.perSecond);
    } else {
      run := SharpRun(c, key, k - 1);
      RoundReached(c, run, key, k, c.max - 1 + Credit(c, k));
      RoundMonotone(run, k * SECOND, Request(key, (k + 1) * SECOND), c.perSecond);
      run := Round(run, Request(key, (k + 1) * SECOND), c.perSecond);
    }
  }

  /** The bound is sharp for every number k of whole seconds: from one nanosecond before a whole second
      on, a key can get max - 1 admissions and k + 1 whole refills. */
  lemma {:induction false} SpanBoundAttained(c: Config, key: string, k: nat) returns (run: seq<Request>)
    requires c.perSecond <= c.max
    ensures var s, t := SECOND - 1, (k + 1) * SECOND;
            && Elapsed(t, s) == k
            && MonotoneUpTo(run, t)
            && Admitted(c, run, key, s) == c.max + (Elapsed(t, s) + 1) * c.perSecond - 1
  {
    SecondsApart(k);
    CreditIsProduct(c, k + 1);
    run := SharpRun(c, key, k);
  }

  // ---------- Fractions of a second ----------

  lemma {:induction false} EmptyBucketWaits(c: Config, buckets: Buckets, key: string, last: nat, u: nat)
    requires key in buckets && buckets[key] == Bucket(0, last) && last <= u
    ensures Check(c, buckets, key, u).1 <==> last + SECOND <= u
  {
    if last + SECOND <= u {
      assert Elapsed(u, last) >= 1;
      CreditIsProduct(c, Elapsed(u, last));
      CreditMonotone(c, 1, Elapsed(u, last));
    }
  }

  /** Fractions of a second are lost: the wait for the next refill starts at the request that triggered the
      last one, wherever in its second it came. Once spent again, nothing passes for a whole second
      from then. */
  lemma {:induction false} RefillRestartsClock(c: Config, key: string, t: nat, u: nat) returns (run: seq<Request>)
    requires c.perSecond <= c.max && SECOND <= t < 2 * SECOND && t <= u
    ensures MonotoneUpTo(run, t)
    ensures Check(c, Run(c, run).0, key, u).1 <==> t + SECOND <= u
  {
    OpeningReached(c, key);
    var r := Request(key, t);
    RefillAndBurst(c, Opening(c, key), r, SECOND - 1, 0, c.max - 1);
    RoundMonotone(Opening(c, key), SECOND - 1, r, c.perSecond);
    run := Round(Opening(c, key), r, c.perSecond);
    EmptyBucketWaits(c, Run(c, run).0, key, t, u);
  }
}
