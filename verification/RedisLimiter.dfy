/** The Redis script of the auth limiter on the same millisecond clock, and its agreement with
    the in-process log at every step of every run. */
module RedisLimiter {
  import opened AuthLimiter

  // A sorted set maps each member to its score; `expireAt` is the deadline set by PEXPIRE.
  type ZSet = map<string, nat>
  datatype Entry = Entry(zset: ZSet, expireAt: nat)
  type Store = map<string, Entry>

  function ZSetOf(store: Store, key: string): ZSet {
    if key in store then store[key].zset else map[]
  }

  // What ZREMRANGEBYSCORE from -inf to `now - window` leaves behind.
  function Young(z: ZSet, now: nat, window: nat): ZSet {
    map m | m in z && now < z[m] + window :: z[m]
  }

  ghost predicate IsMinScore(z: ZSet, score: nat) {
    (exists m :: m in z && z[m] == score) && forall m :: m in z ==> score <= z[m]
  }

  lemma {:induction false} MinScoreExists(z: ZSet)
    requires z != map[]
    ensures exists s :: IsMinScore(z, s)
    decreases |z|
  {
    var m :| m in z;
    var rest := z - {m};
    if rest == map[] {
      assert forall k :: k in z ==> k == m by {
        forall k | k in z ensures k == m { assert k == m || k in rest; }
      }
      assert IsMinScore(z, z[m]);
    } else {
      assert m !in rest && z == rest[m := z[m]];
      assert |z| == |rest| + 1;
      MinScoreExists(rest);
      var s :| IsMinScore(rest, s);
      var least := if z[m] < s then z[m] else s;
      forall k | k in z ensures least <= z[k] { assert k == m || k in rest; }
      assert IsMinScore(z, least) by {
        if least != z[m] {
          var k :| k in rest && rest[k] == s;
          assert k in z;
        }
      }
    }
  }

  // ZRANGE 0 0 WITHSCORES on a non-empty set.
  ghost function MinScore(z: ZSet): (score: nat)
    requires z != map[]
    ensures IsMinScore(z, score)
  {
    MinScoreExists(z);
    var s :| IsMinScore(z, s);
    s
  }

  function AtLeastOne(x: int): nat {
    if x < 1 then 1 else x
  }

  // What the script finds under the key; `reaped`: the server has already dropped the key,
  // which it may do once its deadline has come.
  function Found(store: Store, r: Request, reaped: bool): ZSet {
    if r.key in store && !(reaped && store[r.key].expireAt <= r.time) then store[r.key].zset else map[]
  }

  ghost function RedisStep(c: Config, store: Store, r: Request, reaped: bool): (Store, Decision) {
    var z := Young(Found(store, r, reaped), r.time, c.window);
    if |z| < c.max then
      (store[r.key := Entry(z[r.member := r.time], r.time + c.window)], Allowed)
    else
      (store[r.key := store[r.key].(zset := z)],
       Limited(AtLeastOne(AtLeastOne(MinScore(z) + c.window - r.time))))
  }

  ghost function RedisRun(c: Config, reqs: seq<Request>, reaped: seq<bool>): (Store, seq<Decision>)
    requires |reqs| == |reaped|
  {
    if reqs == [] then (map[], [])
    else
      var n := |reqs| - 1;
      var before := RedisRun(c, reqs[..n], reaped[..n]);
      var (store, d) := RedisStep(c, before.0, reqs[n], reaped[n]);
      (store, before.1 + [d])
  }

  // Stores that differ at one key only agree again once that key is written.
  lemma {:induction false} Rewritten(before: Store, after: Store, key: string, e: Entry)
    requires after - {key} == before - {key}
    ensures after[key := e] == before[key := e]
    ensures key in after && after[key] == e ==> after == before[key := e]
  {
    forall k | k != key ensures (k in after <==> k in before) && (k in after ==> after[k] == before[k]) {
      assert k in after - {key} <==> k in before - {key};
    }
  }

  class RedisServer {
    var store: Store

    // ZREMRANGEBYSCORE and ZCARD: drop what has left the window, and look at the rest.
    method TrimKey(r: Request, reaped: bool, window: nat) returns (z: ZSet)
      modifies this
      ensures z == Young(Found(old(store), r, reaped), r.time, window)
      ensures store - {r.key} == old(store) - {r.key}
      ensures r.key in store ==> r.key in old(store) && store[r.key] == old(store)[r.key].(zset := z)
      ensures z != map[] ==> r.key in store
    {
      if reaped && r.key in store && store[r.key].expireAt <= r.time {
        store := store - {r.key};
      }
      z := map[];
      if r.key in store {
        z := Young(store[r.key].zset, r.time, window);
        store := store[r.key := store[r.key].(zset := z)];
      }
    }

    // The script body. A key with an empty sorted set and a missing key look the same to it.
    method EvalSlidingWindow(c: Config, r: Request, reaped: bool) returns (allowed: bool, retryAfter: nat)
      modifies this
      ensures (store, if allowed then Allowed else Limited(AtLeastOne(retryAfter)))
              == RedisStep(c, old(store), r, reaped)
    {
      ghost var start := store;
      var z := TrimKey(r, reaped, c.window);
      if |z| < c.max {
        var entry := Entry(z[r.member := r.time], r.time + c.window);
        Rewritten(start, store, r.key, entry);
        store := store[r.key := entry];
        return true, 0;
      }
      var oldest := OldestScore(z);
      Rewritten(start, store, r.key, store[r.key]);
      return false, AtLeastOne(oldest + c.window - r.time);
    }

    // The lowest score, over the members in any order.
    method OldestScore(z: ZSet) returns (score: nat)
      requires z != map[]
      ensures score == MinScore(z)
    {
      var m :| m in z;
      score := z[m];
      var rest := z.Keys - {m};
      while rest != {}
        invariant rest <= z.Keys
        invariant exists k :: k in z && z[k] == score
        invariant forall k :: k in z.Keys - rest ==> score <= z[k]
      {
        var k :| k in rest;
        if z[k] < score {
          score := z[k];
        }
        rest := rest - {k};
      }
    }
  }

  // ---------- The sorted set as a list of admitted requests ----------

  function LiveReqs(h: seq<Request>, key: string, now: nat, window: nat): seq<Request> {
    if h == [] then []
    else
      var n := |h| - 1;
      LiveReqs(h[..n], key, now, window)
      + (if h[n].key == key && Age(now, h[n].time) < window then [h[n]] else [])
  }

  function TimesOf(reqs: seq<Request>): seq<nat> {
    seq(|reqs|, i requires 0 <= i < |reqs| => reqs[i].time)
  }

  function ToZSet(reqs: seq<Request>): ZSet {
    if reqs == [] then map[]
    else ToZSet(reqs[..|reqs| - 1])[reqs[|reqs| - 1].member := reqs[|reqs| - 1].time]
  }

  ghost predicate DistinctMembers(reqs: seq<Request>) {
    forall i, j :: 0 <= i < j < |reqs| ==> reqs[i].member != reqs[j].member
  }

  lemma {:induction false} LiveReqsFacts(h: seq<Request>, key: string, now: nat, window: nat)
    ensures TimesOf(LiveReqs(h, key, now, window)) == Live(Times(h, key), now, window)
    ensures forall r :: r in LiveReqs(h, key, now, window) ==> r in h
    ensures DistinctMembers(h) ==> DistinctMembers(LiveReqs(h, key, now, window))
  {
    if h != [] {
      var n := |h| - 1;
      LiveReqsFacts(h[..n], key, now, window);
      var own := if h[n].key == key then [h[n].time] else [];
      LiveAppend(Times(h[..n], key), own, now, window);
      var before := LiveReqs(h[..n], key, now, window);
      if DistinctMembers(h) {
        forall i | 0 <= i < |before| ensures before[i].member != h[n].member {
          assert before[i] in h[..n];
        }
      }
    }
  }

  lemma {:induction false} ToZSetFrom(reqs: seq<Request>, m: string)
    requires m in ToZSet(reqs)
    ensures exists i :: 0 <= i < |reqs| && reqs[i].member == m
  {
    var n := |reqs| - 1;
    if reqs[n].member != m {
      ToZSetFrom(reqs[..n], m);
      var i :| 0 <= i < n && reqs[..n][i].member == m;
      assert reqs[i].member == m;
    }
  }

  lemma {:induction false} ToZSetHas(reqs: seq<Request>, i: nat)
    requires DistinctMembers(reqs) && i < |reqs|
    ensures reqs[i].member in ToZSet(reqs) && ToZSet(reqs)[reqs[i].member] == reqs[i].time
  {
    var n := |reqs| - 1;
    if i < n {
      ToZSetHas(reqs[..n], i);
    }
  }

  lemma {:induction false} ToZSetSize(reqs: seq<Request>)
    requires DistinctMembers(reqs)
    ensures |ToZSet(reqs)| == |reqs|
  {
    if reqs != [] {
      var front, last := reqs[..|reqs| - 1], reqs[|reqs| - 1];
      ToZSetSize(front);
      if last.member in ToZSet(front) {
        ToZSetFrom(front, last.member);
        assert false;
      }
    }
  }

  lemma {:induction false} ToZSetFacts(reqs: seq<Request>)
    requires DistinctMembers(reqs)
    ensures |ToZSet(reqs)| == |reqs|
    ensures forall r :: r in reqs ==> r.member in ToZSet(reqs) && ToZSet(reqs)[r.member] == r.time
    ensures forall m :: m in ToZSet(reqs) ==> exists i :: 0 <= i < |reqs| && reqs[i].member == m
  {
    ToZSetSize(reqs);
    forall r | r in reqs ensures r.member in ToZSet(reqs) && ToZSet(reqs)[r.member] == r.time {
      var i :| 0 <= i < |reqs| && reqs[i] == r;
      ToZSetHas(reqs, i);
    }
    forall m | m in ToZSet(reqs) ensures exists i :: 0 <= i < |reqs| && reqs[i].member == m {
      ToZSetFrom(reqs, m);
    }
  }

  lemma {:induction false} LiveReqsSnoc(h: seq<Request>, r: Request, key: string, now: nat, window: nat)
    ensures LiveReqs(h + [r], key, now, window)
            == LiveReqs(h, key, now, window) + (if r.key == key && Age(now, r.time) < window then [r] else [])
  {
    assert (h + [r])[..|h|] == h;
  }

  lemma {:induction false} ToZSetSnoc(reqs: seq<Request>, r: Request)
    ensures ToZSet(reqs + [r]) == ToZSet(reqs)[r.member := r.time]
  {
    assert (reqs + [r])[..|reqs|] == reqs;
  }

  // The smallest score of the live sorted set is the time of the oldest live request.
  lemma {:induction false} OldestIsMinScore(live: seq<Request>)
    requires live != [] && DistinctMembers(live) && Sorted(TimesOf(live))
    ensures ToZSet(live) != map[] && MinScore(ToZSet(live)) == live[0].time
  {
    var z := ToZSet(live);
    ToZSetFacts(live);
    assert live[0] in live;
    var m :| m in z && z[m] == MinScore(z);
    var i :| 0 <= i < |live| && live[i].member == m;
    assert live[i] in live;
    assert TimesOf(live)[0] <= TimesOf(live)[i];
  }

  // ---------- The script refines the full-history rule ----------

  function Members(h: seq<Request>): set<string> {
    set r | r in h :: r.member
  }

  // The sorted set and the admitted history look the same to every later trim.
  ghost predicate ZAgrees(z: ZSet, h: seq<Request>, key: string, clock: nat, c: Config) {
    && z.Keys <= Members(h)
    && (forall m :: m in z ==> z[m] <= clock)
    && (forall now | clock <= now ::
          Young(z, now, c.window) == ToZSet(LiveReqs(h, key, now, c.window)))
  }

  ghost predicate Deadlines(store: Store, c: Config) {
    forall key, m :: key in store && m in store[key].zset ==> store[key].zset[m] + c.window <= store[key].expireAt
  }

  ghost predicate RedisAgrees(c: Config, store: Store, h: seq<Request>, clock: nat) {
    && (forall key :: ZAgrees(ZSetOf(store, key), h, key, clock, c))
    && Deadlines(store, c)
  }

  lemma {:induction false} YoungLater(z: ZSet, now: nat, later: nat, window: nat)
    requires now <= later
    ensures Young(Young(z, now, window), later, window) == Young(z, later, window)
  {
  }

  lemma {:induction false} TrimmedAgrees(z: ZSet, h: seq<Request>, key: string, now: nat, c: Config)
    requires ZAgrees(z, h, key, now, c)
    ensures ZAgrees(Young(z, now, c.window), h, key, now, c)
  {
    forall later | now <= later
      ensures Young(Young(z, now, c.window), later, c.window) == ToZSet(LiveReqs(h, key, later, c.window))
    {
      YoungLater(z, now, later, c.window);
    }
  }

  // Dropping a key past its deadline changes nothing the script can see.
  lemma {:induction false} ReapedAgrees(z: ZSet, h: seq<Request>, key: string, now: nat, c: Config)
    requires ZAgrees(z, h, key, now, c)
    requires forall m :: m in z ==> z[m] + c.window <= now
    ensures ZAgrees(map[], h, key, now, c)
  {
    forall later | now <= later
      ensures Young(map[], later, c.window) == ToZSet(LiveReqs(h, key, later, c.window))
    {
      assert Young(z, later, c.window) == Young(map[], later, c.window);
    }
  }

  lemma {:induction false} YoungAdded(z: ZSet, m: string, t: nat, later: nat, window: nat)
    requires m !in z
    ensures Young(z[m := t], later, window)
            == if later < t + window then Young(z, later, window)[m := t] else Young(z, later, window)
  {
  }

  lemma {:induction false} LiveAdded(h: seq<Request>, r: Request, later: nat, window: nat)
    requires r.time <= later
    ensures ToZSet(LiveReqs(h + [r], r.key, later, window))
            == if later < r.time + window then ToZSet(LiveReqs(h, r.key, later, window))[r.member := r.time]
               else ToZSet(LiveReqs(h, r.key, later, window))
  {
    var live := LiveReqs(h, r.key, later, window);
    LiveReqsSnoc(h, r, r.key, later, window);
    if later < r.time + window {
      assert LiveReqs(h + [r], r.key, later, window) == live + [r];
      ToZSetSnoc(live, r);
    } else {
      assert LiveReqs(h + [r], r.key, later, window) == live;
    }
  }

  lemma {:induction false} AddedAgrees(z: ZSet, h: seq<Request>, r: Request, c: Config)
    requires ZAgrees(z, h, r.key, r.time, c) && r.member !in Members(h)
    ensures ZAgrees(z[r.member := r.time], h + [r], r.key, r.time, c)
  {
    forall later | r.time <= later
      ensures Young(z[r.member := r.time], later, c.window) == ToZSet(LiveReqs(h + [r], r.key, later, c.window))
    {
      YoungAdded(z, r.member, r.time, later, c.window);
      LiveAdded(h, r, later, c.window);
      assert Young(z, later, c.window) == ToZSet(LiveReqs(h, r.key, later, c.window));
    }
    assert Members(h + [r]) == Members(h) + {r.member};
  }

  lemma {:induction false} OtherKeyAgrees(z: ZSet, h: seq<Request>, r: Request, key: string, c: Config)
    requires ZAgrees(z, h, key, r.time, c) && key != r.key
    ensures ZAgrees(z, h + [r], key, r.time, c)
  {
    forall later | r.time <= later
      ensures Young(z, later, c.window) == ToZSet(LiveReqs(h + [r], key, later, c.window))
    {
      LiveReqsSnoc(h, r, key, later, c.window);
      assert LiveReqs(h, key, later, c.window) + [] == LiveReqs(h, key, later, c.window);
    }
    assert Members(h + [r]) == Members(h) + {r.member};
  }

  lemma {:induction false} LiveReqsSorted(h: seq<Request>, key: string, now: nat, window: nat)
    requires Monotone(h) && (forall x :: x in h ==> x.time <= now)
    ensures Sorted(TimesOf(LiveReqs(h, key, now, window)))
  {
    LiveReqsFacts(h, key, now, window);
    TimesFacts(h, key, now);
    TrimIsLive(Times(h, key), now, window);
    TrimIsSuffix(Times(h, key), now, window);
  }

  // Counting the trimmed set, and its smallest score, decide like the rule.
  lemma {:induction false} TrimmedDecides(c: Config, z: ZSet, h: seq<Request>, r: Request)
    requires ZAgrees(z, h, r.key, r.time, c)
    requires DistinctMembers(h) && Monotone(h) && (forall x :: x in h ==> x.time <= r.time)
    ensures |Young(z, r.time, c.window)| == |Live(Times(h, r.key), r.time, c.window)|
    ensures Young(z, r.time, c.window) != map[] ==>
              MinScore(Young(z, r.time, c.window)) == Live(Times(h, r.key), r.time, c.window)[0]
  {
    var live := LiveReqs(h, r.key, r.time, c.window);
    assert Young(z, r.time, c.window) == ToZSet(live);
    LiveReqsFacts(h, r.key, r.time, c.window);
    ToZSetFacts(live);
    assert |TimesOf(live)| == |live|;
    if live != [] {
      LiveReqsSorted(h, r.key, r.time, c.window);
      OldestIsMinScore(live);
      assert TimesOf(live)[0] == live[0].time;
    }
  }

  lemma {:induction false} FoundAgrees(c: Config, store: Store, h: seq<Request>, r: Request, reaped: bool)
    requires RedisAgrees(c, store, h, r.time)
    ensures ZAgrees(Found(store, r, reaped), h, r.key, r.time, c)
  {
    assert ZAgrees(ZSetOf(store, r.key), h, r.key, r.time, c);
    if r.key in store && reaped && store[r.key].expireAt <= r.time {
      ReapedAgrees(store[r.key].zset, h, r.key, r.time, c);
    }
  }

  lemma {:induction false} StepDecides(c: Config, store: Store, h: seq<Request>, r: Request, reaped: bool)
    requires RedisAgrees(c, store, h, r.time)
    requires DistinctMembers(h) && Monotone(h) && (forall x :: x in h ==> x.time <= r.time)
    ensures RedisStep(c, store, r, reaped).1 == Rule(c, h, r)
  {
    FoundAgrees(c, store, h, r, reaped);
    TrimmedDecides(c, Found(store, r, reaped), h, r);
    var live := Live(Times(h, r.key), r.time, c.window);
    if live != [] {
      LiveMember(Times(h, r.key), r.time, c.window, 0);
    }
  }

  lemma {:induction false} StepAgrees(c: Config, store: Store, h: seq<Request>, r: Request, reaped: bool)
    requires RedisAgrees(c, store, h, r.time) && r.member !in Members(h)
    ensures var (store', d) := RedisStep(c, store, r, reaped);
            RedisAgrees(c, store', if d.Allowed? then h + [r] else h, r.time)
  {
    var (store', d) := RedisStep(c, store, r, reaped);
    var found := Found(store, r, reaped);
    FoundAgrees(c, store, h, r, reaped);
    TrimmedAgrees(found, h, r.key, r.time, c);
    var young := Young(found, r.time, c.window);
    forall key ensures ZAgrees(ZSetOf(store', key), if d.Allowed? then h + [r] else h, key, r.time, c) {
      assert ZAgrees(ZSetOf(store, key), h, key, r.time, c);
      if key != r.key {
        OtherKeyAgrees(ZSetOf(store, key), h, r, key, c);
      } else if d.Allowed? {
        AddedAgrees(young, h, r, c);
      }
    }
  }

  lemma {:induction false} LaterAgrees(c: Config, store: Store, h: seq<Request>, clock: nat, later: nat)
    requires RedisAgrees(c, store, h, clock) && clock <= later
    ensures RedisAgrees(c, store, h, later)
  {
    forall key ensures ZAgrees(ZSetOf(store, key), h, key, later, c) {
      assert ZAgrees(ZSetOf(store, key), h, key, clock, c);
    }
  }

  lemma {:induction false} LastIsFresh(reqs: seq<Request>, n: nat)
    requires Monotone(reqs) && DistinctMembers(reqs) && |reqs| == n + 1
    ensures Monotone(reqs[..n]) && DistinctMembers(reqs[..n])
    ensures forall x :: x in reqs[..n] ==> x.time <= reqs[n].time
    ensures reqs[n].member !in Members(reqs[..n])
  {
  }

  lemma {:induction false} RedisRefinesRule(c: Config, reqs: seq<Request>, reaped: seq<bool>, clock: nat)
    requires |reqs| == |reaped| && Monotone(reqs) && DistinctMembers(reqs)
    requires forall r :: r in reqs ==> r.time <= clock
    ensures RedisRun(c, reqs, reaped).1 == RuleDecisions(c, reqs)
    ensures RedisAgrees(c, RedisRun(c, reqs, reaped).0, Admitted(c, reqs), clock)
    ensures DistinctMembers(Admitted(c, reqs))
  {
    if reqs == [] {
      forall key ensures ZAgrees(ZSetOf(map[], key), [], key, clock, c) {}
    } else {
      var n := |reqs| - 1;
      var r, h := reqs[n], Admitted(c, reqs[..n]);
      LastIsFresh(reqs, n);
      RedisRefinesRule(c, reqs[..n], reaped[..n], r.time);
      AdmittedFacts(c, reqs[..n], r.time);
      assert Members(h) <= Members(reqs[..n]);
      var store := RedisRun(c, reqs[..n], reaped[..n]).0;
      StepDecides(c, store, h, r, reaped[n]);
      StepAgrees(c, store, h, r, reaped[n]);
      assert DistinctMembers(h + [r]) by {
        assert forall i :: 0 <= i < |h| ==> h[i].member in Members(h);
      }
      assert reqs[n] in reqs;
      LaterAgrees(c, RedisRun(c, reqs, reaped).0, Admitted(c, reqs), r.time, clock);
    }
  }

  /** On one clock, the script and the in-process log give the same decisions and the same
      waiting times at every step of every run, whenever the server reaps expired keys. */
  lemma {:induction false} RedisAndLocalAgree(c: Config, reqs: seq<Request>, reaped: seq<bool>)
    requires |reqs| == |reaped| && Monotone(reqs) && DistinctMembers(reqs)
    ensures RedisRun(c, reqs, reaped).1 == LocalRun(c, reqs).1
  {
    if reqs != [] {
      var last := reqs[|reqs| - 1].time;
      RedisRefinesRule(c, reqs, reaped, last);
      LocalRefinesRule(c, reqs, last);
    }
  }
}
