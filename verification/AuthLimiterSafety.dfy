/** What the auth limiter guarantees over whole runs: the sliding-window bound, the exactness
    of the advertised waiting time, and exactly how far times may step back. */
module AuthLimiterSafety {
  import opened AuthLimiter

  // The requests of a run that were let through.
  function Passed(reqs: seq<Request>, ds: seq<Decision>): seq<Request>
    requires |reqs| == |ds|
  {
    if reqs == [] then []
    else
      var n := |reqs| - 1;
      Passed(reqs[..n], ds[..n]) + (if ds[n].Allowed? then [reqs[n]] else [])
  }

  // How many of the times fall into [from, from + length).
  function Within(ts: seq<nat>, from: nat, length: nat): nat {
    if ts == [] then 0
    else (if from <= ts[0] < from + length then 1 else 0) + Within(ts[1..], from, length)
  }

  lemma {:induction false} LocalPassedIsAdmitted(c: Config, reqs: seq<Request>)
    requires Monotone(reqs)
    ensures Passed(reqs, LocalRun(c, reqs).1) == Admitted(c, reqs)
  {
    if reqs != [] {
      var n := |reqs| - 1;
      LocalPassedIsAdmitted(c, reqs[..n]);
      LocalRefinesRule(c, reqs, reqs[n].time);
      LocalRefinesRule(c, reqs[..n], reqs[n].time);
      assert LocalRun(c, reqs).1[..n] == LocalRun(c, reqs[..n]).1;
    }
  }

  lemma {:induction false} WithinSnoc(ts: seq<nat>, t: nat, from: nat, length: nat)
    ensures Within(ts + [t], from, length) == Within(ts, from, length) + (if from <= t < from + length then 1 else 0)
  {
    if ts != [] {
      assert (ts + [t])[1..] == ts[1..] + [t];
      WithinSnoc(ts[1..], t, from, length);
    }
  }

  // Everything inside an interval of one window length that contains `now` is live at `now`.
  lemma {:induction false} WithinIsLive(ts: seq<nat>, from: nat, now: nat, window: nat)
    requires from <= now < from + window
    ensures Within(ts, from, window) <= |Live(ts, now, window)|
  {
    if ts != [] {
      WithinIsLive(ts[1..], from, now, window);
    }
  }

  lemma {:induction false} AdmittedBound(c: Config, reqs: seq<Request>, key: string, from: nat)
    ensures Within(Times(Admitted(c, reqs), key), from, c.window) <= c.max
  {
    if reqs != [] {
      var n := |reqs| - 1;
      var h, r := Admitted(c, reqs[..n]), reqs[n];
      AdmittedBound(c, reqs[..n], key, from);
      if Rule(c, h, r).Allowed? && r.key == key {
        TimesSnoc(h, r, key);
        WithinSnoc(Times(h, key), r.time, from, c.window);
        if from <= r.time < from + c.window {
          WithinIsLive(Times(h, key), from, r.time, c.window);
        }
      }
      TimesSnoc(h, r, key);
      assert Times(h, key) + [] == Times(h, key);
    }
  }

  /** However keys and prunings interleave, no half-open interval of one window length
      contains more than `max` requests that the limiter let through for one key. */
  lemma {:induction false} SlidingWindowBound(c: Config, reqs: seq<Request>, key: string, from: nat)
    requires Monotone(reqs)
    ensures Within(Times(Passed(reqs, LocalRun(c, reqs).1), key), from, c.window) <= c.max
  {
    LocalPassedIsAdmitted(c, reqs);
    AdmittedBound(c, reqs, key, from);
  }

  lemma {:induction false} AdmittedIgnoresPruning(c: Config, pruneAt: nat, reqs: seq<Request>)
    ensures Admitted(c.(pruneAt := pruneAt), reqs) == Admitted(c, reqs)
  {
    if reqs != [] {
      AdmittedIgnoresPruning(c, pruneAt, reqs[..|reqs| - 1]);
    }
  }

  lemma {:induction false} RuleIgnoresPruning(c: Config, pruneAt: nat, reqs: seq<Request>)
    ensures RuleDecisions(c.(pruneAt := pruneAt), reqs) == RuleDecisions(c, reqs)
  {
    if reqs != [] {
      AdmittedIgnoresPruning(c, pruneAt, reqs[..|reqs| - 1]);
      RuleIgnoresPruning(c, pruneAt, reqs[..|reqs| - 1]);
    }
  }

  /** Pruning never changes a decision: any two thresholds give the same run. */
  lemma {:induction false} PruningIsInvisible(c: Config, pruneAt: nat, reqs: seq<Request>)
    requires Monotone(reqs)
    ensures LocalRun(c.(pruneAt := pruneAt), reqs).1 == LocalRun(c, reqs).1
  {
    if reqs != [] {
      var last := reqs[|reqs| - 1].time;
      LocalRefinesRule(c, reqs, last);
      LocalRefinesRule(c.(pruneAt := pruneAt), reqs, last);
      RuleIgnoresPruning(c, pruneAt, reqs);
    }
  }

  // ---------- The waiting time ----------

  lemma {:induction false} LiveShorter(ts: seq<nat>, now: nat, window: nat)
    ensures |Live(ts, now, window)| <= |ts|
  {
    if ts != [] {
      LiveShorter(ts[1..], now, window);
    }
  }

  // With the limit just reached, the key opens up exactly when its oldest live entry expires.
  lemma {:induction false} OpensWhenOldestExpires(live: seq<nat>, now: nat, later: nat, window: nat)
    requires live != [] && Sorted(live) && now <= later
    requires forall i :: 0 <= i < |live| ==> live[i] <= now && now - live[i] < window
    ensures |Live(live, later, window)| < |live| <==> live[0] + window <= later
  {
    if live[0] + window <= later {
      LiveShorter(live[1..], later, window);
    } else {
      AllLive(live, later, window);
    }
  }

  lemma {:induction false} LiveOfLog(log: seq<nat>, now: nat, window: nat)
    requires Sorted(log) && forall i :: 0 <= i < |log| ==> log[i] <= now
    ensures var live := Live(log, now, window);
            && |live| <= |log| && Sorted(live)
            && forall i :: 0 <= i < |live| ==> live[i] <= now && now - live[i] < window
  {
    var live := Live(log, now, window);
    TrimIsLive(log, now, window);
    TrimIsSuffix(log, now, window);
    forall i | 0 <= i < |live| ensures live[i] <= now && now - live[i] < window {
      LiveMember(log, now, window, i);
    }
  }

  lemma {:induction false} LiveOfRun(c: Config, reqs: seq<Request>, key: string, now: nat)
    requires Monotone(reqs) && (forall r :: r in reqs ==> r.time <= now)
    ensures var live := Live(Times(Admitted(c, reqs), key), now, c.window);
            && |live| <= c.max && Sorted(live)
            && forall i :: 0 <= i < |live| ==> live[i] <= now && now - live[i] < c.window
  {
    LocalRefinesRule(c, reqs, now);
    LiveOfAgreed(c, LogOf(LocalRun(c, reqs).0, key), Times(Admitted(c, reqs), key), now);
  }

  lemma {:induction false} LiveOfAgreed(c: Config, log: seq<nat>, times: seq<nat>, now: nat)
    requires LogAgrees(log, times, now, c)
    ensures var live := Live(times, now, c.window);
            && |live| <= c.max && Sorted(live)
            && forall i :: 0 <= i < |live| ==> live[i] <= now && now - live[i] < c.window
  {
    LiveOfLog(log, now, c.window);
    assert Live(log, now, c.window) == Live(times, now, c.window);
  }

  lemma {:induction false} OpensAfterWaiting(c: Config, before: seq<Request>, r: Request, later: nat)
    requires Monotone(before) && (forall x :: x in before ==> x.time <= r.time) && r.time <= later
    requires Rule(c, Admitted(c, before), r).Limited?
    ensures |Live(Times(Admitted(c, before), r.key), later, c.window)| < c.max
            <==> r.time + Rule(c, Admitted(c, before), r).retryAfter <= later
  {
    LiveOfRun(c, before, r.key, r.time);
    var ts := Times(Admitted(c, before), r.key);
    OpensWhenOldestExpires(Live(ts, r.time, c.window), r.time, later, c.window);
    LiveLater(ts, r.time, later, c.window);
  }

  lemma {:induction false} PrefixEarlier(run: seq<Request>, i: nat)
    requires Monotone(run) && i < |run|
    ensures Monotone(run[..i]) && forall x :: x in run[..i] ==> x.time <= run[i].time
  {
  }

  lemma {:induction false} BoundedByLast(run: seq<Request>, n: nat)
    requires Monotone(run) && |run| == n + 1
    ensures forall x :: x in run ==> x.time <= run[n].time
  {
  }

  lemma {:induction false} DecisionOfRun(c: Config, run: seq<Request>, i: nat)
    requires Monotone(run) && i < |run|
    ensures LocalRun(c, run).1[i] == Rule(c, Admitted(c, run[..i]), run[i])
  {
    BoundedByLast(run, |run| - 1);
    LocalRefinesRule(c, run, run[|run| - 1].time);
    DecisionAt(c, run, i);
  }

  /** After a limited request i, the last request of the run, if it is of the same key and nothing
      of that key was admitted in between, is allowed if and only if the waiting time advertised
      to i has passed. */
  lemma {:induction false} RetryAfterIsExact(c: Config, run: seq<Request>, i: nat, n: nat)
    requires Monotone(run) && i < n && |run| == n + 1 && run[n].key == run[i].key
    requires LocalRun(c, run).1[i].Limited?
    requires Times(Admitted(c, run[..n]), run[i].key) == Times(Admitted(c, run[..i]), run[i].key)
    ensures LocalRun(c, run).1[n].Allowed? <==> run[i].time + LocalRun(c, run).1[i].retryAfter <= run[n].time
  {
    DecisionOfRun(c, run, i);
    DecisionOfRun(c, run, n);
    PrefixEarlier(run, i);
    OpensAfterWaiting(c, run[..i], run[i], run[n].time);
  }

  lemma {:induction false} OneDecisionEach(c: Config, reqs: seq<Request>)
    ensures |RuleDecisions(c, reqs)| == |reqs|
  {
    if reqs != [] {
      OneDecisionEach(c, reqs[..|reqs| - 1]);
    }
  }

  lemma {:induction false} DecisionAt(c: Config, reqs: seq<Request>, i: nat)
    requires i < |reqs|
    ensures |RuleDecisions(c, reqs)| == |reqs|
    ensures RuleDecisions(c, reqs)[i] == Rule(c, Admitted(c, reqs[..i]), reqs[i])
  {
    var front := reqs[..|reqs| - 1];
    OneDecisionEach(c, reqs);
    OneDecisionEach(c, front);
    if i < |front| {
      DecisionAt(c, front, i);
      assert front[..i] == reqs[..i];
    }
  }

  // Where the window that ends at `now`, inclusive, begins.
  function WindowStart(now: nat, window: nat): nat {
    if window <= now + 1 then now + 1 - window else 0
  }

  lemma {:induction false} LiveIsWithin(ts: seq<nat>, now: nat, window: nat)
    requires forall t :: t in ts ==> t <= now
    ensures var from := WindowStart(now, window); |Live(ts, now, window)| == Within(ts, from, now + 1 - from)
  {
    if ts != [] {
      assert ts[0] in ts;
      forall t | t in ts[1..] ensures t <= now {
        assert t in ts;
      }
      LiveIsWithin(ts[1..], now, window);
    }
  }

  lemma {:induction false} DecisionAfter(c: Config, before: seq<Request>, r: Request)
    requires Monotone(before) && forall x :: x in before ==> x.time <= r.time
    ensures LocalStep(c, LocalRun(c, before).0, r).1 == Rule(c, Admitted(c, before), r)
  {
    LocalRefinesRule(c, before, r.time);
    StepRefines(c, LocalRun(c, before).0, Admitted(c, before), r.time, r);
  }

  /** Every decision after every monotone run, in terms of what was let through before: allowed if and only
      if fewer than `max` requests of the key lie in the window that ends at the request. */
  lemma {:induction false} AllowedIffRoom(c: Config, before: seq<Request>, r: Request)
    requires Monotone(before) && forall x :: x in before ==> x.time <= r.time
    ensures var from := WindowStart(r.time, c.window);
            var passed := Times(Passed(before, LocalRun(c, before).1), r.key);
            LocalStep(c, LocalRun(c, before).0, r).1.Allowed? <==> Within(passed, from, r.time + 1 - from) < c.max
  {
    DecisionAfter(c, before, r);
    AdmittedIsEarlier(c, before, r);
    RuleIffRoom(c, Admitted(c, before), r);
    LocalPassedIsAdmitted(c, before);
  }

  lemma {:induction false} RuleIffRoom(c: Config, h: seq<Request>, r: Request)
    requires forall t :: t in Times(h, r.key) ==> t <= r.time
    ensures var from := WindowStart(r.time, c.window);
            Rule(c, h, r).Allowed? <==> Within(Times(h, r.key), from, r.time + 1 - from) < c.max
  {
    LiveIsWithin(Times(h, r.key), r.time, c.window);
  }

  lemma {:induction false} AdmittedIsEarlier(c: Config, before: seq<Request>, r: Request)
    requires Monotone(before) && forall x :: x in before ==> x.time <= r.time
    ensures forall t :: t in Times(Admitted(c, before), r.key) ==> t <= r.time
  {
    AdmittedFacts(c, before, r.time);
    TimesFacts(Admitted(c, before), r.key, r.time);
  }

  /** The auth routes let at most ten requests of a key through in any minute. */
  lemma {:induction false} TenPerMinute(run: seq<Request>, key: string, from: nat)
    requires Monotone(run)
    ensures Within(Times(Passed(run, LocalRun(AUTH_CONFIG, run).1), key), from, 60_000) <= 10
  {
    SlidingWindowBound(AUTH_CONFIG, run, key, from);
  }

  // `rate_limited_response`: milliseconds rounded up to seconds, at least one.
  function RetryAfterSecs(retryAfter: nat): nat {
    var secs := (retryAfter + 999) / 1000;
    if secs < 1 then 1 else secs
  }

  /** The `Retry-After` header is the least whole number of seconds after which a retry passes. */
  lemma {:induction false} RetryHeaderIsLeast(c: Config, before: seq<Request>, r: Request, secs: nat)
    requires Monotone(before) && (forall x :: x in before ==> x.time <= r.time)
    requires Rule(c, Admitted(c, before), r).Limited?
    ensures Rule(c, Admitted(c, before), r.(time := r.time + 1000 * secs)).Allowed?
            <==> RetryAfterSecs(Rule(c, Admitted(c, before), r).retryAfter) <= secs
  {
    OpensAfterWaiting(c, before, r, r.time + 1000 * secs);
    LiveOfRun(c, before, r.key, r.time);
  }

  // ---------- Why times must not step back ----------

  // A request may carry a time at most `d` earlier than one that took the lock before it.
  ghost predicate StepsBackAtMost(reqs: seq<Request>, d: nat) {
    forall i, j :: 0 <= i < j < |reqs| ==> reqs[i].time <= reqs[j].time + d
  }

  function PassedTimes(c: Config, reqs: seq<Request>, key: string): seq<nat> {
    Times(Passed(reqs, LocalRun(c, reqs).1), key)
  }

  ghost predicate KeepsBound(c: Config, reqs: seq<Request>) {
    forall key, from :: Within(PassedTimes(c, reqs, key), from, c.window) <= c.max
  }

  // The request passes and turns one state of the logs into another.
  ghost predicate Passes(c: Config, logs: Logs, r: Request, next: Logs) {
    LocalStep(c, logs, r) == (next, Allowed)
  }

  ghost predicate PassesAt(c: Config, reqs: seq<Request>, states: seq<Logs>, i: nat)
    requires i < |reqs| && |states| == |reqs| + 1
  {
    Passes(c, states[i], reqs[i], states[i + 1])
  }

  // Every request passes, and these are the logs before and after each.
  ghost predicate Trace(c: Config, reqs: seq<Request>, states: seq<Logs>) {
    && |states| == |reqs| + 1 && states[0] == map[]
    && forall i :: 0 <= i < |reqs| ==> PassesAt(c, reqs, states, i)
  }

  ghost predicate AllPass(c: Config, reqs: seq<Request>, logs: Logs) {
    exists states :: Trace(c, reqs, states) && states[|reqs|] == logs
  }

  lemma {:induction false} NonePass(c: Config)
    ensures AllPass(c, [], map[])
  {
    var none: Logs := map[];
    assert Trace(c, [], [none]);
  }

  lemma {:induction false} OneMorePasses(c: Config, reqs: seq<Request>, logs: Logs, r: Request, next: Logs)
    requires AllPass(c, reqs, logs) && Passes(c, logs, r, next)
    ensures AllPass(c, reqs + [r], next)
  {
    var states :| Trace(c, reqs, states) && states[|reqs|] == logs;
    var all, more := reqs + [r], states + [next];
    forall i | 0 <= i < |all| ensures PassesAt(c, all, more, i) {
      assert i < |reqs| ==> PassesAt(c, reqs, states, i);
    }
    assert Trace(c, all, more);
  }

  lemma {:induction false} TracePrefix(c: Config, reqs: seq<Request>, states: seq<Logs>)
    requires Trace(c, reqs, states) && reqs != []
    ensures Trace(c, reqs[..|reqs| - 1], states[..|reqs|])
  {
    var n := |reqs| - 1;
    var front, before := reqs[..n], states[..n + 1];
    forall i | 0 <= i < n ensures PassesAt(c, front, before, i) {
      assert PassesAt(c, reqs, states, i);
    }
  }

  lemma {:induction false} TraceRuns(c: Config, reqs: seq<Request>, states: seq<Logs>)
    requires Trace(c, reqs, states)
    ensures LocalRun(c, reqs).0 == states[|reqs|] && Passed(reqs, LocalRun(c, reqs).1) == reqs
  {
    if reqs != [] {
      var n := |reqs| - 1;
      var front, before := reqs[..n], states[..n + 1];
      TracePrefix(c, reqs, states);
      TraceRuns(c, front, before);
      assert PassesAt(c, reqs, states, n);
      assert LocalRun(c, reqs).1[..n] == LocalRun(c, front).1;
      assert reqs == front + [reqs[n]];
    }
  }

  lemma {:induction false} AllPassed(c: Config, reqs: seq<Request>, logs: Logs, count: nat)
    requires AllPass(c, reqs, logs) && Within(Times(reqs, "k"), 0, c.window) == count
    ensures Within(PassedTimes(c, reqs, "k"), 0, c.window) == count
  {
    var states :| Trace(c, reqs, states);
    TraceRuns(c, reqs, states);
  }

  lemma {:induction false} RetainFresh(logs: Logs, now: nat, window: nat)
    requires 1 <= window
    requires forall k :: k in logs ==> logs[k] != [] && now <= logs[k][|logs[k]| - 1]
    ensures Retain(logs, now, window) == logs
  {
  }

  lemma {:induction false} TrimAllOld(log: seq<nat>, now: nat, window: nat)
    requires forall i :: 0 <= i < |log| ==> log[i] + window <= now
    ensures Trim(log, now, window) == []
  {
    if log != [] {
      TrimAllOld(log[1..], now, window);
    }
  }

  function Zeros(n: nat): seq<nat> {
    seq(n, _ => 0)
  }

  lemma {:induction false} WithinZeros(n: nat, window: nat)
    requires 1 <= window
    ensures Within(Zeros(n), 0, window) == n
  {
    if n > 0 {
      assert Zeros(n)[1..] == Zeros(n - 1);
      WithinZeros(n - 1, window);
    }
  }

  function At(time: nat): Request { Request("k", time, "") }

  function Burst(n: nat): seq<Request> {
    seq(n, _ => At(0))
  }

  function LogsAfterBurst(n: nat): Logs {
    if n == 0 then map[] else map["k" := Zeros(n)]
  }

  lemma {:induction false} BurstStep(c: Config, n: nat)
    requires n < c.max && 1 <= c.window
    ensures Passes(c, LogsAfterBurst(n), At(0), LogsAfterBurst(n + 1))
  {
    var logs := LogsAfterBurst(n);
    RetainFresh(logs, 0, c.window);
    assert Prune(c, logs, 0) == logs;
    assert Zeros(n) + [0] == Zeros(n + 1);
    assert LogOf(logs, "k") == Zeros(n);
    assert logs["k" := Zeros(n + 1)] == map["k" := Zeros(n + 1)];
  }

  lemma {:induction false} BurstSnoc(n: nat)
    ensures Burst(n) + [At(0)] == Burst(n + 1) && Zeros(n) + [0] == Zeros(n + 1)
  {
  }

  lemma {:induction false} BurstTimes(n: nat)
    ensures Times(Burst(n), "k") == Zeros(n)
  {
    if n == 0 {
      assert Burst(n) == [] && Zeros(n) == [];
    } else {
      BurstTimes(n - 1);
      BurstSnoc(n - 1);
      TimesSnoc(Burst(n - 1), At(0), "k");
      assert At(0).key == "k" && At(0).time == 0;
    }
  }

  lemma {:induction false} BurstPasses(c: Config, n: nat)
    requires n <= c.max && 1 <= c.window
    ensures AllPass(c, Burst(n), LogsAfterBurst(n))
  {
    if n == 0 {
      NonePass(c);
      assert Burst(n) == [];
    } else {
      BurstPasses(c, n - 1);
      BurstStep(c, n - 1);
      BurstSnoc(n - 1);
      OneMorePasses(c, Burst(n - 1), LogsAfterBurst(n - 1), At(0), LogsAfterBurst(n));
    }
  }

  lemma {:induction false} BurstExpires(c: Config)
    ensures Passes(c, LogsAfterBurst(c.max), At(c.window), map["k" := [c.window]])
  {
    var logs := LogsAfterBurst(c.max);
    var kept := Prune(c, logs, c.window);
    TrimAllOld(LogOf(kept, "k"), c.window, c.window);
    assert [] + [c.window] == [c.window];
    assert kept["k" := [c.window]] == map["k" := [c.window]];
  }

  lemma {:induction false} LatecomerPasses(c: Config)
    requires 2 <= c.max && 1 <= c.window
    ensures Passes(c, map["k" := [c.window]], At(c.window - 1), map["k" := [c.window, c.window - 1]])
  {
    var logs: Logs := map["k" := [c.window]];
    RetainFresh(logs, c.window - 1, c.window);
    assert Prune(c, logs, c.window - 1) == logs && LogOf(logs, "k") == [c.window];
    assert [c.window] + [c.window - 1] == [c.window, c.window - 1];
    assert logs["k" := [c.window, c.window - 1]] == map["k" := [c.window, c.window - 1]];
  }

  // A full burst, a request that makes the log forget it, and one that is a millisecond late.
  function LateRun(c: Config): seq<Request>
    requires 1 <= c.window
  {
    Burst(c.max) + [At(c.window)] + [At(c.window - 1)]
  }

  // Only the last request of the run is late, and by a millisecond.
  lemma {:induction false} OneLate(front: seq<Request>, last: Request, window: nat)
    requires Monotone(front) && last.time + 1 == window && forall i :: 0 <= i < |front| ==> front[i].time <= window
    ensures StepsBackAtMost(front + [last], 1)
  {
  }

  lemma {:induction false} LateRunIsLate(c: Config)
    requires 1 <= c.window
    ensures StepsBackAtMost(LateRun(c), 1)
  {
    OneLate(Burst(c.max) + [At(c.window)], At(c.window - 1), c.window);
  }

  lemma {:induction false} TwoMorePass(
      c: Config, reqs: seq<Request>, logs: Logs, q: Request, mid: Logs, r: Request, next: Logs)
    requires AllPass(c, reqs, logs) && Passes(c, logs, q, mid) && Passes(c, mid, r, next)
    ensures AllPass(c, reqs + [q] + [r], next)
  {
    OneMorePasses(c, reqs, logs, q, mid);
    OneMorePasses(c, reqs + [q], mid, r, next);
  }

  lemma {:induction false} ExpiryPasses(c: Config, burst: seq<Request>)
    requires AllPass(c, burst, LogsAfterBurst(c.max))
    ensures AllPass(c, burst + [At(c.window)], map["k" := [c.window]])
  {
    BurstExpires(c);
    OneMorePasses(c, burst, LogsAfterBurst(c.max), At(c.window), map["k" := [c.window]]);
  }

  lemma {:induction false} LatePasses(c: Config, reqs: seq<Request>)
    requires 2 <= c.max && 1 <= c.window && AllPass(c, reqs, map["k" := [c.window]])
    ensures AllPass(c, reqs + [At(c.window - 1)], map["k" := [c.window, c.window - 1]])
  {
    LatecomerPasses(c);
    OneMorePasses(c, reqs, map["k" := [c.window]], At(c.window - 1), map["k" := [c.window, c.window - 1]]);
  }

  lemma {:induction false} LateRunPasses(c: Config)
    requires 2 <= c.max && 1 <= c.window
    ensures AllPass(c, LateRun(c), map["k" := [c.window, c.window - 1]])
  {
    BurstPasses(c, c.max);
    ExpiryPasses(c, Burst(c.max));
    LatePasses(c, Burst(c.max) + [At(c.window)]);
  }

  lemma {:induction false} TimesOfTwo(h: seq<Request>, q: Request, r: Request)
    requires r.key == "k"
    ensures Times(h + [q] + [r], "k") == Times(h, "k") + (if q.key == "k" then [q.time] else []) + [r.time]
  {
    TimesSnoc(h, q, "k");
    TimesSnoc(h + [q], r, "k");
  }

  lemma {:induction false} OneTooMany(n: nat, w: nat)
    requires 1 <= w
    ensures Within(Zeros(n) + [w] + [w - 1], 0, w) == n + 1
  {
    WithinZeros(n, w);
    WithinSnoc(Zeros(n), w, 0, w);
    WithinSnoc(Zeros(n) + [w], w - 1, 0, w);
  }

  lemma {:induction false} LateRunCounts(c: Config)
    requires 1 <= c.window
    ensures Within(Times(LateRun(c), "k"), 0, c.window) == c.max + 1
  {
    BurstTimes(c.max);
    TimesOfTwo(Burst(c.max), At(c.window), At(c.window - 1));
    OneTooMany(c.max, c.window);
  }

  /** From a limit of two on, with any pruning threshold, a single request one millisecond out of order
      breaks the bound: popping has forgotten a burst that is still in its window. */
  lemma {:induction false} BackwardClockBreaksBound(c: Config)
    requires 2 <= c.max && 1 <= c.window
    ensures StepsBackAtMost(LateRun(c), 1)
    ensures Within(PassedTimes(c, LateRun(c), "k"), 0, c.window) == c.max + 1
  {
    LateRunIsLate(c);
    LateRunPasses(c);
    LateRunCounts(c);
    AllPassed(c, LateRun(c), map["k" := [c.window, c.window - 1]], c.max + 1);
  }

  // ---------- A limit of one ----------

  function Filler(i: nat, time: nat): Request {
    Request(seq(i + 1, _ => 'f'), time, "")
  }

  lemma {:induction false} FillersDiffer(i: nat, j: nat)
    ensures Filler(i, 0).key == Filler(j, 0).key ==> i == j
    ensures Filler(i, 0).key != "k"
  {
    assert Filler(i, 0).key[0] == 'f' && |Filler(i, 0).key| == i + 1 && |Filler(j, 0).key| == j + 1;
  }

  predicate AllAtZero(reqs: seq<Request>) {
    forall i :: 0 <= i < |reqs| ==> reqs[i].time == 0
  }

  // Every key has sent one request, at zero.
  ghost predicate Crowded(logs: Logs, n: nat) {
    && |logs| == n + 1
    && (forall k :: k in logs ==> logs[k] == [0])
    && forall i: nat :: n <= i ==> Filler(i, 0).key !in logs
  }

  lemma {:induction false} CrowdStep(c: Config, logs: Logs, n: nat)
    requires 1 <= c.window && Crowded(logs, n)
    ensures LocalStep(c, logs, Filler(n, 0)).1.Allowed? && Crowded(LocalStep(c, logs, Filler(n, 0)).0, n + 1)
  {
    var key := Filler(n, 0).key;
    RetainFresh(logs, 0, c.window);
    assert Prune(c, logs, 0) == logs && LogOf(logs, key) == [] && [] + [0] == [0];
    var next := logs[key := [0]];
    assert LocalStep(c, logs, Filler(n, 0)).0 == next;
    assert next - {key} == logs;
    forall i: nat | n + 1 <= i ensures Filler(i, 0).key !in next {
      FillersDiffer(i, n);
    }
  }

  lemma {:induction false} FirstOfCrowd(c: Config)
    requires 1 <= c.window
    ensures AllPass(c, [At(0)], map["k" := [0]]) && Crowded(map["k" := [0]], 0) && Times([At(0)], "k") == [0]
  {
    BurstPasses(c, 1);
    BurstTimes(1);
    assert Burst(1) == [At(0)] && Zeros(1) == [0];
    forall i: nat ensures Filler(i, 0).key != "k" {
      FillersDiffer(i, i);
    }
  }

  lemma {:induction false} CrowdGrows(c: Config, crowd: seq<Request>, logs: Logs, n: nat)
    requires 1 <= c.window && AllPass(c, crowd, logs) && Crowded(logs, n) && Times(crowd, "k") == [0]
    ensures var f := Filler(n, 0);
            var next := LocalStep(c, logs, f).0;
            AllPass(c, crowd + [f], next) && Crowded(next, n + 1) && Times(crowd + [f], "k") == [0]
  {
    var f := Filler(n, 0);
    CrowdStep(c, logs, n);
    FillersDiffer(n, n);
    OneMorePasses(c, crowd, logs, f, LocalStep(c, logs, f).0);
    TimesSnoc(crowd, f, "k");
    assert [0] + [] == [0];
  }

  // Requests at zero, one of "k" and one of each of n other keys, all pass.
  lemma {:induction false} CrowdPasses(c: Config, n: nat) returns (crowd: seq<Request>, logs: Logs)
    requires 1 <= c.window
    ensures AllAtZero(crowd) && AllPass(c, crowd, logs) && Crowded(logs, n) && Times(crowd, "k") == [0]
  {
    FirstOfCrowd(c);
    crowd, logs := [At(0)], map["k" := [0]];
    for i := 0 to n
      invariant AllAtZero(crowd) && AllPass(c, crowd, logs) && Crowded(logs, i) && Times(crowd, "k") == [0]
    {
      CrowdGrows(c, crowd, logs, i);
      crowd, logs := crowd + [Filler(i, 0)], LocalStep(c, logs, Filler(i, 0)).0;
    }
  }

  lemma {:induction false} CrowdExpires(c: Config, logs: Logs, n: nat)
    requires 1 <= c.window && Crowded(logs, n) && c.pruneAt <= n
    ensures var f := Filler(n, c.window); Passes(c, logs, f, map[f.key := [c.window]])
  {
    assert Prune(c, logs, c.window) == map[];
    assert [] + [c.window] == [c.window];
  }

  lemma {:induction false} ForgottenPasses(c: Config, logs: Logs, time: nat)
    requires "k" !in logs
    ensures LocalStep(c, logs, At(time)).1 == Allowed
  {
    assert LogOf(Prune(c, logs, time), "k") == [];
  }

  lemma {:induction false} TwoInWindow(w: nat)
    requires 1 <= w
    ensures Within([0] + [w - 1], 0, w) == 2
  {
    assert Zeros(1) == [0];
    WithinZeros(1, w);
    WithinSnoc([0], w - 1, 0, w);
  }

  lemma {:induction false} PrunedRunIsLate(crowd: seq<Request>, f: Request, w: nat)
    requires 1 <= w && AllAtZero(crowd) && f.time == w
    ensures StepsBackAtMost(crowd + [f] + [At(w - 1)], 1)
  {
    OneLate(crowd + [f], At(w - 1), w);
  }

  // From a crowd on: pruning forgets it, and the late request passes.
  lemma {:induction false} CrowdThenLate(c: Config, crowd: seq<Request>, logs: Logs, n: nat)
    returns (last: Logs)
    requires 1 <= c.window && c.pruneAt <= n && AllPass(c, crowd, logs) && Crowded(logs, n)
    ensures AllPass(c, crowd + [Filler(n, c.window)] + [At(c.window - 1)], last)
  {
    var w, f := c.window, Filler(n, c.window);
    var after := map[f.key := [w]];
    CrowdExpires(c, logs, n);
    FillersDiffer(n, n);
    ForgottenPasses(c, after, w - 1);
    last := LocalStep(c, after, At(w - 1)).0;
    TwoMorePass(c, crowd, logs, f, after, At(w - 1), last);
  }

  lemma {:induction false} CrowdTimes(crowd: seq<Request>, f: Request, w: nat)
    requires 1 <= w && Times(crowd, "k") == [0] && f.key != "k"
    ensures Within(Times(crowd + [f] + [At(w - 1)], "k"), 0, w) == 2
  {
    TimesOfTwo(crowd, f, At(w - 1));
    assert [0] + [] == [0];
    TwoInWindow(w);
  }

  lemma {:induction false} LateAfterCrowd(
      c: Config, crowd: seq<Request>, f: Request, last: Logs, run: seq<Request>)
    requires 1 <= c.window && run == crowd + [f] + [At(c.window - 1)] && AllPass(c, run, last)
    requires AllAtZero(crowd) && Times(crowd, "k") == [0] && f.key != "k" && f.time == c.window
    ensures StepsBackAtMost(run, 1) && Within(PassedTimes(c, run, "k"), 0, c.window) == 2
  {
    CrowdTimes(crowd, f, c.window);
    PrunedRunIsLate(crowd, f, c.window);
    AllPassed(c, run, last, 2);
  }

  /** With a limit of one a log cannot forget, but pruning can: after enough other keys, one of which
      triggers the pruning, the same late request breaks the bound. */
  lemma {:induction false} PruningBreaksBound(c: Config) returns (run: seq<Request>)
    requires 1 <= c.window
    ensures StepsBackAtMost(run, 1)
    ensures Within(PassedTimes(c, run, "k"), 0, c.window) == 2
  {
    var crowd, logs := CrowdPasses(c, c.pruneAt);
    var last := CrowdThenLate(c, crowd, logs, c.pruneAt);
    var f := Filler(c.pruneAt, c.window);
    FillersDiffer(c.pruneAt, c.pruneAt);
    run := crowd + [f] + [At(c.window - 1)];
    LateAfterCrowd(c, crowd, f, last, run);
  }

  lemma {:induction false} NothingWithin(ts: seq<nat>, from: nat)
    ensures Within(ts, from, 0) == 0
  {
    if ts != [] {
      NothingWithin(ts[1..], from);
    }
  }

  /** The exact condition, for every configuration: all runs whose times step back by at most d keep
      the bound if and only if d is zero, or the window is empty and there is nothing to bound. */
  lemma {:induction false} ClockBoundIff(c: Config, d: nat)
    ensures (forall reqs :: StepsBackAtMost(reqs, d) ==> KeepsBound(c, reqs)) <==> d == 0 || c.window == 0
  {
    if d == 0 || c.window == 0 {
      forall reqs | StepsBackAtMost(reqs, d) ensures KeepsBound(c, reqs) {
        forall key, from ensures Within(PassedTimes(c, reqs, key), from, c.window) <= c.max {
          if d == 0 {
            SlidingWindowBound(c, reqs, key, from);
          } else {
            NothingWithin(PassedTimes(c, reqs, key), from);
          }
        }
      }
    } else if c.max == 1 {
      var run := PruningBreaksBound(c);
      assert StepsBackAtMost(run, d) && !KeepsBound(c, run);
    } else {
      BackwardClockBreaksBound(c);
      assert StepsBackAtMost(LateRun(c), d) && !KeepsBound(c, LateRun(c));
    }
  }
}
