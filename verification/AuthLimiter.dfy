/** The sliding-window limiter of the public auth routes: the full-history rule it
    promises, and the in-process log that refines it. Times are whole milliseconds. */
module AuthLimiter {
  datatype RawConfig = Config(max: nat, window: nat, pruneAt: nat)

  // A limit of zero would make the source's "log is at the limit, so non-empty" panic.
  type Config = c: RawConfig | 1 <= c.max witness Config(1, 0, 0)

  const AUTH_CONFIG: Config := Config(10, 60_000, 10_000)

  // `member` is the unique sorted-set member the Redis path generates per request.
  datatype Request = Request(key: string, time: nat, member: string)

  datatype Decision = Allowed | Limited(retryAfter: nat)

  // ---------- The full-history rule ----------

  // `Instant::duration_since` saturates at zero.
  function Age(now: nat, t: nat): nat {
    if t <= now then now - t else 0
  }

  function Times(h: seq<Request>, key: string): seq<nat> {
    if h == [] then []
    else
      var n := |h| - 1;
      Times(h[..n], key) + (if h[n].key == key then [h[n].time] else [])
  }

  function Live(ts: seq<nat>, now: nat, window: nat): seq<nat> {
    if ts == [] then []
    else (if Age(now, ts[0]) < window then [ts[0]] else []) + Live(ts[1..], now, window)
  }

  lemma {:induction false} LiveMember(ts: seq<nat>, now: nat, window: nat, i: nat)
    requires i < |Live(ts, now, window)|
    ensures Live(ts, now, window)[i] in ts && Age(now, Live(ts, now, window)[i]) < window
  {
    if Age(now, ts[0]) >= window {
      LiveMember(ts[1..], now, window, i);
    } else if i > 0 {
      LiveMember(ts[1..], now, window, i - 1);
    }
  }

  /** Allowed iff fewer than `max` admitted requests of this key are younger than the window. */
  function Rule(c: Config, admitted: seq<Request>, r: Request): Decision {
    var live := Live(Times(admitted, r.key), r.time, c.window);
    if |live| < c.max then Allowed
    else
      LiveMember(Times(admitted, r.key), r.time, c.window, 0);
      Limited(live[0] + c.window - r.time)
  }

  function Admitted(c: Config, reqs: seq<Request>): seq<Request> {
    if reqs == [] then []
    else
      var n := |reqs| - 1;
      var h := Admitted(c, reqs[..n]);
      if Rule(c, h, reqs[n]).Allowed? then h + [reqs[n]] else h
  }

  function RuleDecisions(c: Config, reqs: seq<Request>): seq<Decision> {
    if reqs == [] then []
    else
      var n := |reqs| - 1;
      RuleDecisions(c, reqs[..n]) + [Rule(c, Admitted(c, reqs[..n]), reqs[n])]
  }

  ghost predicate Sorted(ts: seq<nat>) {
    forall i, j :: 0 <= i < j < |ts| ==> ts[i] <= ts[j]
  }

  ghost predicate Monotone(reqs: seq<Request>) {
    forall i, j :: 0 <= i < j < |reqs| ==> reqs[i].time <= reqs[j].time
  }

  // ---------- The in-process log ----------

  type Logs = map<string, seq<nat>>

  function LogOf(logs: Logs, key: string): seq<nat> {
    if key in logs then logs[key] else []
  }

  // `HashMap::retain`: keep the keys whose newest entry is younger than the window.
  function Retain(logs: Logs, now: nat, window: nat): Logs {
    map k | k in logs && logs[k] != [] && Age(now, logs[k][|logs[k]| - 1]) < window :: logs[k]
  }

  function Prune(c: Config, logs: Logs, now: nat): Logs {
    if |logs| >= c.pruneAt then Retain(logs, now, c.window) else logs
  }

  function Trim(log: seq<nat>, now: nat, window: nat): seq<nat> {
    if log != [] && window <= Age(now, log[0]) then Trim(log[1..], now, window) else log
  }

  function LocalStep(c: Config, logs: Logs, r: Request): (Logs, Decision) {
    var kept := Prune(c, logs, r.time);
    var log := Trim(LogOf(kept, r.key), r.time, c.window);
    if |log| < c.max then (kept[r.key := log + [r.time]], Allowed)
    else
      var due := log[0] + c.window;
      (kept[r.key := log], Limited(if r.time <= due then due - r.time else 0))
  }

  function LocalRun(c: Config, reqs: seq<Request>): (run: (Logs, seq<Decision>))
    ensures |run.1| == |reqs|
  {
    if reqs == [] then (map[], [])
    else
      var n := |reqs| - 1;
      var before := LocalRun(c, reqs[..n]);
      var (logs, d) := LocalStep(c, before.0, reqs[n]);
      (logs, before.1 + [d])
  }

  class AuthRateLimiter {
    var local: Logs
    const config: Config

    constructor ()
      ensures local == map[] && config == AUTH_CONFIG
    {
      local := map[];
      config := AUTH_CONFIG;
    }

    method CheckLocal(key: string, now: nat, ghost member: string) returns (decision: Decision)
      modifies this`local
      ensures (local, decision) == LocalStep(config, old(local), Request(key, now, member))
    {
      if |local| >= config.pruneAt {
        local := Retain(local, now, config.window);
      }
      var log := PopOld(if key in local then local[key] else [], now);
      if |log| < config.max {
        log := log + [now];
        decision := Allowed;
      } else {
        var due := log[0] + config.window;
        decision := Limited(if now <= due then due - now else 0);
      }
      local := local[key := log];
    }

    // The `while log.front()` loop.
    method PopOld(entries: seq<nat>, now: nat) returns (log: seq<nat>)
      ensures log == Trim(entries, now, config.window)
    {
      log := entries;
      while log != [] && Age(now, log[0]) >= config.window
        invariant Trim(log, now, config.window) == Trim(entries, now, config.window)
        decreases |log|
      {
        log := log[1..];
      }
    }
  }

  // ---------- Facts about live entries ----------

  lemma {:induction false} LiveAppend(a: seq<nat>, b: seq<nat>, now: nat, window: nat)
    ensures Live(a + b, now, window) == Live(a, now, window) + Live(b, now, window)
  {
    if a == [] {
      assert a + b == b;
    } else {
      assert (a + b)[0] == a[0] && (a + b)[1..] == a[1..] + b;
      LiveAppend(a[1..], b, now, window);
    }
  }

  lemma {:induction false} LiveLater(ts: seq<nat>, now: nat, later: nat, window: nat)
    requires now <= later
    ensures Live(Live(ts, now, window), later, window) == Live(ts, later, window)
  {
    if ts != [] {
      LiveLater(ts[1..], now, later, window);
      var head := if Age(now, ts[0]) < window then [ts[0]] else [];
      LiveAppend(head, Live(ts[1..], now, window), later, window);
    }
  }

  // On a sorted log, popping the front while it is old keeps exactly the live entries.
  lemma {:induction false} TrimIsLive(log: seq<nat>, now: nat, window: nat)
    requires Sorted(log)
    ensures Trim(log, now, window) == Live(log, now, window)
  {
    if log != [] {
      if window <= Age(now, log[0]) {
        TrimIsLive(log[1..], now, window);
      } else {
        AllLive(log, now, window);
      }
    }
  }

  lemma {:induction false} AllLive(log: seq<nat>, now: nat, window: nat)
    requires forall t :: t in log ==> Age(now, t) < window
    ensures Live(log, now, window) == log
  {
    if log != [] {
      AllLive(log[1..], now, window);
    }
  }

  lemma {:induction false} NoneLive(log: seq<nat>, now: nat, window: nat)
    requires forall t :: t in log ==> window <= Age(now, t)
    ensures Live(log, now, window) == []
  {
    if log != [] {
      NoneLive(log[1..], now, window);
    }
  }

  lemma {:induction false} TimesFacts(h: seq<Request>, key: string, clock: nat)
    requires Monotone(h)
    requires forall r :: r in h ==> r.time <= clock
    ensures Sorted(Times(h, key))
    ensures forall t :: t in Times(h, key) ==> t <= clock
  {
    if h != [] {
      var n := |h| - 1;
      forall r | r in h[..n] ensures r.time <= h[n].time {}
      TimesFacts(h[..n], key, h[n].time);
      assert h[n] in h;
      var before := Times(h[..n], key);
      forall i | 0 <= i < |before| ensures before[i] <= h[n].time {
        assert before[i] in before;
      }
    }
  }

  lemma {:induction false} TimesSnoc(h: seq<Request>, r: Request, key: string)
    ensures Times(h + [r], key) == Times(h, key) + (if r.key == key then [r.time] else [])
  {
    assert (h + [r])[..|h|] == h;
  }

  lemma {:induction false} AdmittedFacts(c: Config, reqs: seq<Request>, clock: nat)
    requires Monotone(reqs)
    requires forall r :: r in reqs ==> r.time <= clock
    ensures Monotone(Admitted(c, reqs))
    ensures forall r :: r in Admitted(c, reqs) ==> r in reqs && r.time <= clock
  {
    if reqs != [] {
      var n := |reqs| - 1;
      forall r | r in reqs[..n] ensures r.time <= reqs[n].time {}
      AdmittedFacts(c, reqs[..n], reqs[n].time);
      assert reqs[n] in reqs;
    }
  }

  // ---------- The in-process log refines the full-history rule ----------

  ghost predicate LogAgrees(log: seq<nat>, times: seq<nat>, clock: nat, c: Config) {
    && Sorted(log)
    && |log| <= c.max
    && (forall i :: 0 <= i < |log| ==> log[i] <= clock)
    && (forall now | clock <= now :: Live(log, now, c.window) == Live(times, now, c.window))
  }

  ghost predicate Refines(c: Config, logs: Logs, h: seq<Request>, clock: nat) {
    forall key :: LogAgrees(LogOf(logs, key), Times(h, key), clock, c)
  }

  // A log whose newest entry is old has no live entry any more.
  lemma {:induction false} OldLogIsDead(log: seq<nat>, now: nat, later: nat, window: nat)
    requires Sorted(log) && now <= later
    requires log != [] ==> window <= Age(now, log[|log| - 1])
    requires forall i :: 0 <= i < |log| ==> log[i] <= now
    ensures Live(log, later, window) == []
  {
    forall t | t in log ensures window <= Age(later, t) {
      var i :| 0 <= i < |log| && log[i] == t;
      assert log[i] <= log[|log| - 1];
    }
    NoneLive(log, later, window);
  }

  lemma {:induction false} DroppedAgrees(c: Config, log: seq<nat>, times: seq<nat>, clock: nat, now: nat)
    requires clock <= now && LogAgrees(log, times, clock, c)
    requires log != [] ==> c.window <= Age(now, log[|log| - 1])
    ensures LogAgrees([], times, now, c)
  {
    forall later | now <= later ensures Live([], later, c.window) == Live(times, later, c.window) {
      OldLogIsDead(log, now, later, c.window);
    }
  }

  lemma {:induction false} PrunedLog(c: Config, logs: Logs, now: nat, key: string)
    ensures var log, kept := LogOf(logs, key), LogOf(Prune(c, logs, now), key);
            kept == log || (kept == [] && (log != [] ==> c.window <= Age(now, log[|log| - 1])))
  {
  }

  lemma {:induction false} PruneKeepsAgreement(c: Config, logs: Logs, h: seq<Request>, clock: nat, now: nat)
    requires clock <= now && Refines(c, logs, h, clock)
    ensures Refines(c, Prune(c, logs, now), h, now)
  {
    forall key ensures LogAgrees(LogOf(Prune(c, logs, now), key), Times(h, key), now, c) {
      var log, times := LogOf(logs, key), Times(h, key);
      assert LogAgrees(log, times, clock, c);
      PrunedLog(c, logs, now, key);
      if LogOf(Prune(c, logs, now), key) != log {
        DroppedAgrees(c, log, times, clock, now);
      }
    }
  }

  lemma {:induction false} TrimIsSuffix(log: seq<nat>, now: nat, window: nat)
    ensures |Trim(log, now, window)| <= |log|
    ensures Trim(log, now, window) == log[|log| - |Trim(log, now, window)|..]
  {
    if log != [] && window <= Age(now, log[0]) {
      TrimIsSuffix(log[1..], now, window);
    }
  }

  lemma {:induction false} LiveAfterTrim(
      log: seq<nat>, times: seq<nat>, tail: seq<nat>, now: nat, later: nat, window: nat)
    requires Sorted(log) && now <= later
    requires Live(log, later, window) == Live(times, later, window)
    ensures Live(Trim(log, now, window) + tail, later, window) == Live(times + tail, later, window)
  {
    TrimIsLive(log, now, window);
    LiveAppend(Trim(log, now, window), tail, later, window);
    LiveAppend(times, tail, later, window);
    LiveLater(log, now, later, window);
  }

  lemma {:induction false} TrimAppendSorted(log: seq<nat>, now: nat, window: nat, tail: seq<nat>)
    requires Sorted(log) && forall i :: 0 <= i < |log| ==> log[i] <= now
    requires tail == [] || tail == [now]
    ensures var next := Trim(log, now, window) + tail;
            Sorted(next) && forall i :: 0 <= i < |next| ==> next[i] <= now
  {
    TrimIsSuffix(log, now, window);
  }

  // Trimming at `now`, then perhaps recording `now`, keeps a log in agreement.
  lemma {:induction false} TrimAppendAgrees(c: Config, log: seq<nat>, times: seq<nat>, now: nat, tail: seq<nat>)
    requires LogAgrees(log, times, now, c)
    requires tail == [] || (tail == [now] && |Trim(log, now, c.window)| < c.max)
    ensures LogAgrees(Trim(log, now, c.window) + tail, times + tail, now, c)
  {
    var next := Trim(log, now, c.window) + tail;
    TrimAppendSorted(log, now, c.window, tail);
    assert |next| <= c.max by { TrimIsSuffix(log, now, c.window); }
    forall later | now <= later ensures Live(next, later, c.window) == Live(times + tail, later, c.window) {
      LiveAfterTrim(log, times, tail, now, later, c.window);
    }
  }

  lemma {:induction false} DecisionAgrees(c: Config, logs: Logs, h: seq<Request>, r: Request)
    requires LogAgrees(LogOf(Prune(c, logs, r.time), r.key), Times(h, r.key), r.time, c)
    ensures LocalStep(c, logs, r).1 == Rule(c, h, r)
  {
    TrimIsLive(LogOf(Prune(c, logs, r.time), r.key), r.time, c.window);
  }

  lemma {:induction false} OwnLog(c: Config, logs: Logs, r: Request)
    ensures var (logs', d) := LocalStep(c, logs, r);
            var rest := Trim(LogOf(Prune(c, logs, r.time), r.key), r.time, c.window);
            && LogOf(logs', r.key) == rest + (if d.Allowed? then [r.time] else [])
            && (d.Allowed? <==> |rest| < c.max)
            && forall key :: key != r.key ==> LogOf(logs', key) == LogOf(Prune(c, logs, r.time), key)
  {
    var rest := Trim(LogOf(Prune(c, logs, r.time), r.key), r.time, c.window);
    assert rest + [] == rest;
  }

  lemma {:induction false} KeyAgrees(c: Config, logs: Logs, h: seq<Request>, r: Request, key: string)
    requires LogAgrees(LogOf(Prune(c, logs, r.time), key), Times(h, key), r.time, c)
    ensures var (logs', d) := LocalStep(c, logs, r);
            LogAgrees(LogOf(logs', key), Times(if d.Allowed? then h + [r] else h, key), r.time, c)
  {
    var log, times := LogOf(Prune(c, logs, r.time), key), Times(h, key);
    var d := LocalStep(c, logs, r).1;
    OwnLog(c, logs, r);
    TimesSnoc(h, r, key);
    assert times + [] == times;
    if key == r.key {
      TrimAppendAgrees(c, log, times, r.time, if d.Allowed? then [r.time] else []);
    }
  }

  lemma {:induction false} StepRefines(c: Config, logs: Logs, h: seq<Request>, clock: nat, r: Request)
    requires clock <= r.time && Refines(c, logs, h, clock)
    ensures var (logs', d) := LocalStep(c, logs, r);
            && d == Rule(c, h, r)
            && Refines(c, logs', if d.Allowed? then h + [r] else h, r.time)
  {
    PruneKeepsAgreement(c, logs, h, clock, r.time);
    DecisionAgrees(c, logs, h, r);
    var (logs', d) := LocalStep(c, logs, r);
    forall key
      ensures LogAgrees(LogOf(logs', key), Times(if d.Allowed? then h + [r] else h, key), r.time, c)
    {
      KeyAgrees(c, logs, h, r, key);
    }
  }

  /** For every monotone run the pruned, lazily popped logs decide like the full-history rule,
      and every log stays sorted and within the limit. */
  lemma {:induction false} LocalRefinesRule(c: Config, reqs: seq<Request>, clock: nat)
    requires Monotone(reqs)
    requires forall r :: r in reqs ==> r.time <= clock
    ensures LocalRun(c, reqs).1 == RuleDecisions(c, reqs)
    ensures Refines(c, LocalRun(c, reqs).0, Admitted(c, reqs), clock)
  {
    if reqs != [] {
      var n := |reqs| - 1;
      forall r | r in reqs[..n] ensures r.time <= reqs[n].time {}
      LocalRefinesRule(c, reqs[..n], reqs[n].time);
      StepRefines(c, LocalRun(c, reqs[..n]).0, Admitted(c, reqs[..n]), reqs[n].time, reqs[n]);
      assert reqs[n] in reqs && reqs[n].time <= clock;
      var logs, h := LocalRun(c, reqs).0, Admitted(c, reqs);
      forall key ensures LogAgrees(LogOf(logs, key), Times(h, key), clock, c) {
        assert LogAgrees(LogOf(logs, key), Times(h, key), reqs[n].time, c);
      }
    }
  }
}
