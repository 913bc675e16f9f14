/** Tracking of one bridged deposit: submissions, status requests and the background poller race
    on a database row through separate read, poll and write steps, while the upstream answer
    evolves. */
module BridgeStatus {
  import opened Common

  datatype Status = Pending | Success | Failed

  predicate Terminal(s: Status) {
    s != Pending
  }

  datatype Row = Row(status: Status, confirmations: int)

  // What a reader saw of the row; what it then heard from upstream.
  datatype Agent =
    | Reading(poller: bool, known: int)
    | Polled(poller: bool, known: int, heard: Row)

  // `upstream` is the answer the service would give now.
  datatype System = System(row: Option<Row>, upstream: Row, agents: map<nat, Agent>)

  datatype Event =
    | Submit
    | Read(agent: nat, poller: bool)
    | Poll(agent: nat)
    | PollFails(agent: nat)
    | Write(agent: nat)
    | Upstream(answer: Row)

  function Max(a: int, b: int): int {
    if a < b then b else a
  }

  // What an agent writes back, if anything: a handler always writes, the poller only when
  // something changed.
  function Writes(a: Agent): Option<Row>
    requires a.Polled?
  {
    var written := Row(a.heard.status, Max(a.heard.confirmations, a.known));
    if !a.poller || written.status != Pending || written.confirmations != a.known then Some(written) else None
  }

  predicate Enabled(s: System, e: Event) {
    match e
    case Submit => true
    case Read(a, _) => a !in s.agents && s.row.Some? && !Terminal(s.row.value.status)
    case Poll(a) => a in s.agents && s.agents[a].Reading?
    case PollFails(a) => a in s.agents && s.agents[a].Reading?
    case Write(a) => a in s.agents && s.agents[a].Polled?
    case Upstream(_) => true
  }

  // INSERT ... ON CONFLICT DO UPDATE SET updated_at
  function Submitted(row: Option<Row>): Option<Row> {
    if row.Some? then row else Some(Row(Pending, 0))
  }

  function Step(s: System, e: Event): System {
    if !Enabled(s, e) then s
    else
      match e
      case Submit => s.(row := Submitted(s.row))
      case Read(a, poller) => s.(agents := s.agents[a := Reading(poller, s.row.value.confirmations)])
      case Poll(a) => s.(agents := s.agents[a := Polled(s.agents[a].poller, s.agents[a].known, s.upstream)])
      case PollFails(a) => s.(agents := s.agents - {a})
      case Write(a) =>
        var w := Writes(s.agents[a]);
        s.(agents := s.agents - {a}, row := if w.Some? && s.row.Some? then w else s.row)
      case Upstream(answer) => s.(upstream := answer)
  }

  function Run(s: System, es: seq<Event>): System {
    if es == [] then s else Step(Run(s, es[..|es| - 1]), es[|es| - 1])
  }

  lemma {:induction false} RunConcat(s: System, es: seq<Event>, more: seq<Event>)
    ensures Run(s, es + more) == Run(Run(s, es), more)
  {
    if more == [] {
      assert es + more == es;
    } else {
      var n := |more| - 1;
      assert (es + more)[..|es| + n] == es + more[..n];
      RunConcat(s, es, more[..n]);
    }
  }

  function Initial(upstream: Row): System {
    System(None, upstream, map[])
  }

  // ---------- Interleavings ----------

  // The upstream answer never leaves a terminal status.
  predicate Sticky(s: System, e: Event) {
    e.Upstream? && Terminal(s.upstream.status) ==> e.answer.status == s.upstream.status
  }

  predicate AllSticky(s: System, es: seq<Event>) {
    es == [] || (AllSticky(s, es[..|es| - 1]) && Sticky(Run(s, es[..|es| - 1]), es[|es| - 1]))
  }

  // Every terminal status in the row or in flight is upstream's.
  ghost predicate Agrees(s: System) {
    && (s.row.Some? && Terminal(s.row.value.status) ==> s.row.value.status == s.upstream.status)
    && (forall a :: a in s.agents && s.agents[a].Polled? && Terminal(s.agents[a].heard.status) ==>
          s.agents[a].heard.status == s.upstream.status)
  }

  lemma {:induction false} RunFrom(s: System, es: seq<Event>)
    requires Agrees(s) && AllSticky(s, es)
    ensures Agrees(Run(s, es))
  {
    if es != [] {
      RunFrom(s, es[..|es| - 1]);
    }
  }

  /** Over every interleaving, if upstream never leaves a terminal answer, a terminal status in the
      row is that answer: Success and Failed are never confused. */
  lemma {:induction false} TerminalIsUpstreams(upstream: Row, es: seq<Event>)
    requires AllSticky(Initial(upstream), es)
    ensures var t := Run(Initial(upstream), es);
            t.row.Some? && Terminal(t.row.value.status) ==> t.row.value.status == t.upstream.status
  {
    RunFrom(Initial(upstream), es);
  }

  /** Re-submission, however often, never changes a row that exists. */
  lemma {:induction false} ResubmitKeepsRow(s: System, es: seq<Event>)
    requires s.row.Some? && forall i :: 0 <= i < |es| ==> es[i].Submit?
    ensures Run(s, es) == s
  {
    if es != [] {
      ResubmitKeepsRow(s, es[..|es| - 1]);
      assert es[|es| - 1].Submit?;
    }
  }

  // ---------- When a terminal row can be lost ----------

  // An agent that will write PENDING back.
  predicate Stale(a: Agent) {
    a.Polled? && Writes(a).Some? && Writes(a).value.status == Pending
  }

  ghost predicate NoStale(s: System) {
    forall a :: a in s.agents ==> !Stale(s.agents[a])
  }

  lemma {:induction false} StepKeepsTerminal(s: System, e: Event, status: Status)
    requires Terminal(status) && s.row.Some? && s.row.value.status == status == s.upstream.status
    requires Agrees(s) && NoStale(s) && Sticky(s, e)
    ensures var t := Step(s, e);
            t.row.Some? && t.row.value.status == status == t.upstream.status && NoStale(t) && Agrees(t)
  {
    if e.Write? && Enabled(s, e) {
      assert !Stale(s.agents[e.agent]);
    }
  }

  lemma {:induction false} RunKeepsTerminal(s: System, es: seq<Event>, status: Status)
    requires Terminal(status) && s.row.Some? && s.row.value.status == status == s.upstream.status
    requires Agrees(s) && NoStale(s) && AllSticky(s, es)
    ensures var t := Run(s, es);
            t.row.Some? && t.row.value.status == status == t.upstream.status && NoStale(t) && Agrees(t)
  {
    if es != [] {
      RunKeepsTerminal(s, es[..|es| - 1], status);
      StepKeepsTerminal(Run(s, es[..|es| - 1]), es[|es| - 1], status);
    }
  }

  ghost predicate Absorbed(s: System) {
    s.row.Some? && Terminal(s.row.value.status) && s.row.value.status == s.upstream.status
  }

  lemma {:induction false} StaleWriteLoses(s: System, a: nat)
    requires Absorbed(s) && a in s.agents && Stale(s.agents[a])
    ensures AllSticky(s, [Write(a)])
    ensures Run(s, [Write(a)]).row.Some? && Run(s, [Write(a)]).row.value.status == Pending
  {
    assert [Write(a)][..0] == [] && Run(s, []) == s && AllSticky(s, []);
    assert Run(s, [Write(a)]) == Step(s, Write(a));
  }

  // The row still has its status after the events.
  ghost predicate Holds(s: System, es: seq<Event>) {
    Run(s, es).row.Some? && s.row.Some? && Run(s, es).row.value.status == s.row.value.status
  }

  /** A terminal row can be lost in some continuation exactly when an agent is still on its way to
      write PENDING back. */
  lemma {:induction false} TerminalLostIffStale(s: System)
    requires Absorbed(s) && Agrees(s)
    ensures NoStale(s) <==> forall es :: AllSticky(s, es) ==> Holds(s, es)
  {
    if NoStale(s) {
      forall es | AllSticky(s, es) ensures Holds(s, es) {
        RunKeepsTerminal(s, es, s.row.value.status);
      }
    } else {
      var a :| a in s.agents && Stale(s.agents[a]);
      StaleWriteLoses(s, a);
      assert !Holds(s, [Write(a)]);
    }
  }

  // ---------- A run that loses a terminal row ----------

  ghost predicate Reaches(s: System, es: seq<Event>, t: System) {
    AllSticky(s, es) && Run(s, es) == t
  }

  lemma {:induction false} ReachesNext(s: System, es: seq<Event>, t: System, e: Event)
    requires Reaches(s, es, t) && Sticky(t, e)
    ensures Reaches(s, es + [e], Step(t, e))
  {
    assert (es + [e])[..|es|] == es;
  }

  const QUIET := Row(Pending, 0)
  const DONE := Row(Success, 3)

  // Two status requests: the first hears PENDING, the second hears and stores SUCCESS.
  const OVERTAKEN: seq<Event> :=
    [] + [Submit] + [Read(0, false)] + [Poll(0)] + [Read(1, false)] + [Upstream(DONE)] + [Poll(1)] + [Write(1)]

  function WithAgents(row: Row, upstream: Row, agents: map<nat, Agent>): System {
    System(Some(row), upstream, agents)
  }

  lemma {:induction false} FirstHearsPending()
    ensures Reaches(Initial(QUIET), [] + [Submit] + [Read(0, false)] + [Poll(0)],
                    WithAgents(QUIET, QUIET, map[0 := Polled(false, 0, QUIET)]))
  {
    assert Reaches(Initial(QUIET), [], Initial(QUIET));
    ReachesNext(Initial(QUIET), [], Initial(QUIET), Submit);
    ReachesNext(Initial(QUIET), [] + [Submit], WithAgents(QUIET, QUIET, map[]), Read(0, false));
    ReachesNext(Initial(QUIET), [] + [Submit] + [Read(0, false)],
                WithAgents(QUIET, QUIET, map[0 := Reading(false, 0)]), Poll(0));
  }

  lemma {:induction false} SecondStoresSuccess(s: System, es: seq<Event>)
    requires Reaches(s, es, WithAgents(QUIET, QUIET, map[0 := Polled(false, 0, QUIET)]))
    ensures Reaches(s, es + [Read(1, false)] + [Upstream(DONE)] + [Poll(1)] + [Write(1)],
                    WithAgents(DONE, DONE, map[0 := Polled(false, 0, QUIET)]))
  {
    var first := Polled(false, 0, QUIET);
    var es1 := es + [Read(1, false)];
    var es2 := es1 + [Upstream(DONE)];
    ReachesNext(s, es, WithAgents(QUIET, QUIET, map[0 := first]), Read(1, false));
    ReachesNext(s, es1, WithAgents(QUIET, QUIET, map[0 := first, 1 := Reading(false, 0)]), Upstream(DONE));
    ReachesNext(s, es2, WithAgents(QUIET, DONE, map[0 := first, 1 := Reading(false, 0)]), Poll(1));
    var last := map[0 := first, 1 := Polled(false, 0, DONE)];
    assert last - {1} == map[0 := first];
    ReachesNext(s, es2 + [Poll(1)], WithAgents(QUIET, DONE, last), Write(1));
  }

  /** Such an agent does occur: two overlapping status requests, the first with an older answer, lead
      from the start to a terminal row, and the first one's write takes it back to PENDING. */
  lemma {:induction false} OvertakenRequestLoses()
    ensures var t := Run(Initial(QUIET), OVERTAKEN);
            && AllSticky(Initial(QUIET), OVERTAKEN) && Absorbed(t) && Agrees(t) && !NoStale(t)
            && Run(t, [Write(0)]).row == Some(QUIET)
  {
    FirstHearsPending();
    SecondStoresSuccess(Initial(QUIET), [] + [Submit] + [Read(0, false)] + [Poll(0)]);
    var t := Run(Initial(QUIET), OVERTAKEN);
    assert t == WithAgents(DONE, DONE, map[0 := Polled(false, 0, QUIET)]);
    assert Stale(t.agents[0]);
    assert [Write(0)][..0] == [] && Run(t, [Write(0)]) == Step(t, Write(0));
  }

  // ---------- Serialized runs ----------

  // One read-poll-write of a handler or the poller with nothing in between.
  function Cycle(row: Row, poller: bool, answer: Option<Row>): Row {
    if Terminal(row.status) || answer.None? then row
    else
      match Writes(Polled(poller, row.confirmations, answer.value))
      case Some(w) => w
      case None => row
  }

  lemma {:induction false} CycleIsSteps(s: System, a: nat, poller: bool)
    requires a !in s.agents && s.row.Some? && !Terminal(s.row.value.status)
    ensures Step(Step(Step(s, Read(a, poller)), Poll(a)), Write(a))
            == s.(row := Some(Cycle(s.row.value, poller, Some(s.upstream))))
  {
    assert s.agents[a := Reading(poller, s.row.value.confirmations)]
                   [a := Polled(poller, s.row.value.confirmations, s.upstream)] - {a} == s.agents;
  }

  datatype Turn = Turn(poller: bool, answer: Option<Row>)

  function Turns(row: Row, ts: seq<Turn>): Row {
    if ts == [] then row else Cycle(Turns(row, ts[..|ts| - 1]), ts[|ts| - 1].poller, ts[|ts| - 1].answer)
  }

  lemma {:induction false} TurnsAreMonotone(row: Row, ts: seq<Turn>)
    ensures row.confirmations <= Turns(row, ts).confirmations
    ensures Terminal(row.status) ==> Turns(row, ts) == row
  {
    if ts != [] {
      TurnsAreMonotone(row, ts[..|ts| - 1]);
    }
  }

  // One agent's steps without interruption, with the answer that upstream then gives.
  function TurnEvents(a: nat, turn: Turn): seq<Event> {
    match turn.answer
    case None => [Read(a, turn.poller)] + [PollFails(a)]
    case Some(answer) => [Upstream(answer)] + [Read(a, turn.poller)] + [Poll(a)] + [Write(a)]
  }

  function Serial(a: nat, ts: seq<Turn>): seq<Event> {
    if ts == [] then [] else Serial(a, ts[..|ts| - 1]) + TurnEvents(a, ts[|ts| - 1])
  }

  lemma {:induction false} RunOne(s: System, e: Event)
    ensures Run(s, [e]) == Step(s, e)
  {
    assert [e][..0] == [] && Run(s, []) == s;
  }

  lemma {:induction false} RunTwo(s: System, d: Event, e: Event)
    ensures Run(s, [d] + [e]) == Step(Step(s, d), e)
  {
    RunConcat(s, [d], [e]);
    RunOne(s, d);
    RunOne(Step(s, d), e);
  }

  lemma {:induction false} RunFour(s: System, c: Event, d: Event, e: Event, f: Event)
    ensures Run(s, [c] + [d] + [e] + [f]) == Step(Step(Step(Step(s, c), d), e), f)
  {
    RunTwo(s, c, d);
    RunTwo(Step(Step(s, c), d), e, f);
    RunConcat(s, [c] + [d], [e] + [f]);
    assert [c] + [d] + [e] + [f] == ([c] + [d]) + ([e] + [f]);
  }

  lemma {:induction false} AnsweredTurn(s: System, a: nat, poller: bool, answer: Row)
    requires s.row.Some? && a !in s.agents
    ensures var t := Step(Step(Step(Step(s, Upstream(answer)), Read(a, poller)), Poll(a)), Write(a));
            t.row == Some(Cycle(s.row.value, poller, Some(answer))) && t.agents == s.agents
  {
    if !Terminal(s.row.value.status) {
      CycleIsSteps(s.(upstream := answer), a, poller);
    }
  }

  lemma {:induction false} TurnIsCycle(s: System, a: nat, turn: Turn)
    requires s.row.Some? && a !in s.agents
    ensures var t := Run(s, TurnEvents(a, turn));
            t.row == Some(Cycle(s.row.value, turn.poller, turn.answer)) && t.agents == s.agents
  {
    match turn.answer
    case None =>
      RunTwo(s, Read(a, turn.poller), PollFails(a));
      assert s.agents[a := Reading(turn.poller, s.row.value.confirmations)] - {a} == s.agents;
    case Some(answer) =>
      RunFour(s, Upstream(answer), Read(a, turn.poller), Poll(a), Write(a));
      AnsweredTurn(s, a, turn.poller, answer);
  }

  lemma {:induction false} SerialIsTurns(s: System, a: nat, ts: seq<Turn>)
    requires s.row.Some? && a !in s.agents
    ensures var t := Run(s, Serial(a, ts)); t.row == Some(Turns(s.row.value, ts)) && t.agents == s.agents
  {
    if ts != [] {
      var front, turn := ts[..|ts| - 1], ts[|ts| - 1];
      SerialIsTurns(s, a, front);
      RunConcat(s, Serial(a, front), TurnEvents(a, turn));
      TurnIsCycle(Run(s, Serial(a, front)), a, turn);
    }
  }

  /** In every run in which each read-poll-write is serialized, a terminal row never changes again and
      confirmations never decrease, whatever upstream answers. */
  lemma {:induction false} SerializedIsMonotone(s: System, a: nat, ts: seq<Turn>)
    requires s.row.Some? && a !in s.agents
    ensures var t := Run(s, Serial(a, ts));
            && t.row.Some?
            && s.row.value.confirmations <= t.row.value.confirmations
            && (Terminal(s.row.value.status) ==> t.row == s.row)
  {
    SerialIsTurns(s, a, ts);
    TurnsAreMonotone(s.row.value, ts);
  }

  // A non-terminal row takes the answer that is heard, whoever asked: the poller skips only writes that
  // would change nothing.
  lemma {:induction false} CycleHears(row: Row, poller: bool, answer: Row)
    requires !Terminal(row.status)
    ensures Cycle(row, poller, Some(answer))
            == Row(answer.status,
                   if answer.confirmations < row.confirmations then row.confirmations else answer.confirmations)
  {
  }

  predicate HearsTerminal(turn: Turn) {
    turn.answer.Some? && Terminal(turn.answer.value.status)
  }

  // Confirmations are the most that the row or one of the first n answers had.
  ghost predicate MostOf(most: int, row: Row, ts: seq<Turn>, n: nat)
    requires n <= |ts|
  {
    && row.confirmations <= most
    && (forall i :: 0 <= i < n && ts[i].answer.Some? ==> ts[i].answer.value.confirmations <= most)
    && (most == row.confirmations
        || exists i :: 0 <= i < n && ts[i].answer.Some? && ts[i].answer.value.confirmations == most)
  }

  lemma {:induction false} MostOfSnoc(before: int, most: int, row: Row, ts: seq<Turn>, n: nat)
    requires n < |ts| && MostOf(before, row, ts[..|ts| - 1], n)
    requires match ts[n].answer
             case None => most == before
             case Some(a) => most == if a.confirmations < before then before else a.confirmations
    ensures MostOf(most, row, ts, n + 1)
  {
    var front := ts[..|ts| - 1];
    forall i | 0 <= i < n + 1 && ts[i].answer.Some? ensures ts[i].answer.value.confirmations <= most {
      assert i < n ==> ts[i] == front[i];
    }
    if most != row.confirmations && most == before {
      var i :| 0 <= i < n && front[i].answer.Some? && front[i].answer.value.confirmations == most;
      assert ts[i].answer.value.confirmations == most;
    }
  }

  lemma {:induction false} QuietTurns(row: Row, ts: seq<Turn>)
    requires !Terminal(row.status) && forall i :: 0 <= i < |ts| ==> !HearsTerminal(ts[i])
    ensures Turns(row, ts).status == Pending && MostOf(Turns(row, ts).confirmations, row, ts, |ts|)
  {
    if ts != [] {
      var n := |ts| - 1;
      var before := Turns(row, ts[..n]);
      QuietTurns(row, ts[..n]);
      assert !HearsTerminal(ts[n]);
      if ts[n].answer.Some? {
        CycleHears(before, ts[n].poller, ts[n].answer.value);
      }
      MostOfSnoc(before.confirmations, Turns(row, ts).confirmations, row, ts, n);
    }
  }

  lemma {:induction false} DecidedTurns(row: Row, ts: seq<Turn>, n: nat)
    requires !Terminal(row.status) && n < |ts| && HearsTerminal(ts[n])
    requires forall i :: 0 <= i < n ==> !HearsTerminal(ts[i])
    ensures Turns(row, ts).status == ts[n].answer.value.status
    ensures MostOf(Turns(row, ts).confirmations, row, ts, n + 1)
  {
    var front := ts[..|ts| - 1];
    var before := Turns(row, front);
    if n == |ts| - 1 {
      QuietTurns(row, front);
      CycleHears(before, ts[n].poller, ts[n].answer.value);
      MostOfSnoc(before.confirmations, Turns(row, ts).confirmations, row, ts, n);
    } else {
      DecidedTurns(row, front, n);
      var most := before.confirmations;
      forall i | 0 <= i < n + 1 && ts[i].answer.Some? ensures ts[i].answer.value.confirmations <= most {
        assert front[i] == ts[i];
      }
      if most != row.confirmations {
        var i :| 0 <= i < n + 1 && front[i].answer.Some? && front[i].answer.value.confirmations == most;
        assert ts[i].answer.value.confirmations == most;
      }
    }
  }

  /** Where a serialized run ends: the row has the first terminal answer that was heard, else it is still
      PENDING; and the most confirmations heard up to then. */
  lemma {:induction false} SerialOutcome(s: System, a: nat, ts: seq<Turn>, n: nat)
    requires s.row.Some? && !Terminal(s.row.value.status) && a !in s.agents
    requires n <= |ts| && (forall i :: 0 <= i < n ==> !HearsTerminal(ts[i])) && (n < |ts| ==> HearsTerminal(ts[n]))
    ensures var t := Run(s, Serial(a, ts));
            && t.row.Some?
            && t.row.value.status == (if n < |ts| then ts[n].answer.value.status else Pending)
            && MostOf(t.row.value.confirmations, s.row.value, ts, if n < |ts| then n + 1 else n)
  {
    SerialIsTurns(s, a, ts);
    if n < |ts| {
      DecidedTurns(s.row.value, ts, n);
    } else {
      QuietTurns(s.row.value, ts);
    }
  }

  // ---------- The source's operations ----------

  class BridgeStore {
    var rows: map<string, Row>

    function Get(hash: string): Option<Row>
      reads this
    {
      if hash in rows then Some(rows[hash]) else None
    }

    method SubmitBridgeTx(hash: string) returns (status: Status)
      modifies this
      ensures Get(hash) == Submitted(old(Get(hash))) && status == rows[hash].status
      ensures forall h :: h != hash ==> Get(h) == old(Get(h))
    {
      if hash !in rows {
        rows := rows[hash := Row(Pending, 0)];
      }
      status := rows[hash].status;
    }

    method UpdateStatus(hash: string, status: Status, confirmations: int)
      modifies this
      ensures rows == if hash in old(rows) then old(rows)[hash := Row(status, confirmations)] else old(rows)
    {
      if hash in rows {
        rows := rows[hash := Row(status, confirmations)];
      }
    }

    // A status request; `answer` is what upstream says, or none when the poll fails.
    method GetBridgeStatus(hash: string, answer: Option<Row>) returns (r: Option<Row>)
      modifies this
      ensures r == Get(hash)
      ensures hash in old(rows) ==> r == Some(Cycle(old(rows)[hash], false, answer))
      ensures forall h :: h != hash ==> Get(h) == old(Get(h))
      ensures hash !in old(rows) ==> r == None
    {
      if hash !in rows {
        return None;
      }
      var stored := rows[hash];
      var status, confirmations := stored.status, stored.confirmations;
      if !Terminal(stored.status) && answer.Some? {
        status := answer.value.status;
        confirmations := Max(answer.value.confirmations, confirmations);
        UpdateStatus(hash, status, confirmations);
      }
      return Some(Row(status, confirmations));
    }

    // One tick of the poller over the rows it loaded, in any order.
    method PollerTick(pending: seq<string>, answers: map<string, Row>)
      requires forall i :: 0 <= i < |pending| ==> pending[i] in rows && !Terminal(rows[pending[i]].status)
      requires forall i, j :: 0 <= i < j < |pending| ==> pending[i] != pending[j]
      modifies this
      ensures rows.Keys == old(rows).Keys
      ensures forall h :: h in rows ==>
                rows[h] == if h in pending
                           then Cycle(old(rows)[h], true, if h in answers then Some(answers[h]) else None)
                           else old(rows)[h]
    {
      var loaded := rows;
      var known: seq<int> :=
        seq(|pending|, i requires 0 <= i < |pending| && pending[i] in loaded => loaded[pending[i]].confirmations);
      for i := 0 to |pending|
        invariant rows.Keys == old(rows).Keys
        invariant forall h :: h in rows ==>
                    rows[h] == if h in pending[..i]
                               then Cycle(old(rows)[h], true, if h in answers then Some(answers[h]) else None)
                               else old(rows)[h]
      {
        var hash := pending[i];
        if hash in answers {
          var answer := answers[hash];
          var newConf := Max(answer.confirmations, known[i]);
          if answer.status != Pending || newConf != known[i] {
            UpdateStatus(hash, answer.status, newConf);
          }
        }
        assert pending[..i + 1] == pending[..i] + [hash];
      }
      assert pending[..|pending|] == pending;
    }
  }

  // ---------- The upstream answer ----------

  // One leg of the service's reply; `failed` when its status text names a failure.
  datatype Leg = Leg(confirmations: Option<int>, failed: bool)

  // `as i32` keeps the low 32 bits.
  function AsI32(n: int): int {
    (n + 0x8000_0000) % 0x1_0000_0000 - 0x8000_0000
  }

  function LegConfirmations(leg: Option<Leg>): int {
    if leg.Some? && leg.value.confirmations.Some? then leg.value.confirmations.value else 0
  }

  function LegFailed(leg: Option<Leg>): bool {
    leg.Some? && leg.value.failed
  }

  function IntoTransferStatus(send: Option<Leg>, receive: Option<Leg>): Row {
    var confirmations := Max(Max(LegConfirmations(send), LegConfirmations(receive)), 0);
    Row(if LegFailed(send) || LegFailed(receive) then Failed
        else if receive.Some? then Success
        else Pending,
        AsI32(confirmations))
  }

  // A leg only moves on: it appears, its failure stays.
  predicate Progresses(before: Option<Leg>, after: Option<Leg>) {
    before.Some? ==> after.Some? && (before.value.failed ==> after.value.failed)
  }

  // The service has not indexed the transfer yet, or replies with its legs.
  datatype Reply = NotFound | Body(send: Option<Leg>, receive: Option<Leg>)

  // `poll_transaction_status`
  function PollAnswer(reply: Reply): Row {
    match reply
    case NotFound => Row(Pending, 0)
    case Body(send, receive) => IntoTransferStatus(send, receive)
  }

  predicate Reports(leg: Option<Leg>, n: int) {
    leg.Some? && leg.value.confirmations == Some(n)
  }

  predicate Fails(leg: Option<Leg>) {
    leg.Some? && leg.value.failed
  }

  /** What an answer says: SUCCESS if and only if the receiving leg is there and no leg failed, FAILED
      if and only if some leg failed. */
  lemma {:induction false} AnswerSays(reply: Reply)
    ensures PollAnswer(reply).status == Success
            <==> reply.Body? && reply.receive.Some? && !Fails(reply.send) && !Fails(reply.receive)
    ensures PollAnswer(reply).status == Failed <==> reply.Body? && (Fails(reply.send) || Fails(reply.receive))
    ensures reply.NotFound? ==> PollAnswer(reply) == Row(Pending, 0)
  {
  }

  /** Its confirmations are the larger of the two legs', and at least zero, when they fit 31 bits. */
  lemma {:induction false} AnswerCounts(reply: Reply)
    requires reply.Body?
    requires forall n :: Reports(reply.send, n) || Reports(reply.receive, n) ==> n < 0x8000_0000
    ensures var most := PollAnswer(reply).confirmations;
            && 0 <= most
            && (forall n :: Reports(reply.send, n) || Reports(reply.receive, n) ==> n <= most)
            && (most == 0 || Reports(reply.send, most) || Reports(reply.receive, most))
  {
    assert LegConfirmations(reply.send) != 0 ==> Reports(reply.send, LegConfirmations(reply.send));
    assert LegConfirmations(reply.receive) != 0 ==> Reports(reply.receive, LegConfirmations(reply.receive));
  }

  /** A delivered transfer is stored as SUCCESS by the first uninterrupted turn that hears of it, of a
      handler or the poller, and one with a failed leg as FAILED. */
  lemma {:induction false} DeliveryIsStored(s: System, a: nat, poller: bool, reply: Reply)
    requires s.row.Some? && !Terminal(s.row.value.status) && a !in s.agents && reply.Body?
    ensures var t := Run(s, TurnEvents(a, Turn(poller, Some(PollAnswer(reply)))));
            && t.row.Some?
            && (t.row.value.status == Success
                <==> reply.receive.Some? && !Fails(reply.send) && !Fails(reply.receive))
            && (t.row.value.status == Failed <==> Fails(reply.send) || Fails(reply.receive))
  {
    TurnIsCycle(s, a, Turn(poller, Some(PollAnswer(reply))));
    CycleHears(s.row.value, poller, PollAnswer(reply));
    AnswerSays(reply);
  }

  ghost predicate LegsProgress(replies: seq<Reply>) {
    forall i, j :: 0 <= i < j < |replies| && replies[i].Body? && replies[j].Body? ==>
      Progresses(replies[i].send, replies[j].send) && Progresses(replies[i].receive, replies[j].receive)
  }

  // A later reply takes a terminal answer back if it has no legs, or reports a failure after delivery.
  predicate TakesBack(before: Reply, after: Reply) {
    && Terminal(PollAnswer(before).status)
    && (after.NotFound?
        || (PollAnswer(before).status == Success && (LegFailed(after.send) || LegFailed(after.receive))))
  }

  lemma {:induction false} TakenBackIff(before: Reply, after: Reply)
    requires LegsProgress([before, after]) && Terminal(PollAnswer(before).status)
    ensures PollAnswer(after).status == PollAnswer(before).status <==> !TakesBack(before, after)
  {
    var both := [before, after];
    assert both[0].Body? && both[1].Body? ==>
        Progresses(both[0].send, both[1].send) && Progresses(both[0].receive, both[1].receive);
  }

  // The answers among the events of an interleaving.
  function Answers(es: seq<Event>): seq<Row> {
    if es == [] then []
    else Answers(es[..|es| - 1]) + (if es[|es| - 1].Upstream? then [es[|es| - 1].answer] else [])
  }

  // Once terminal, every later answer has the same status.
  ghost predicate Steady(rows: seq<Row>) {
    forall i, j :: 0 <= i < j < |rows| && Terminal(rows[i].status) ==> rows[j].status == rows[i].status
  }

  lemma {:induction false} SteadySnoc(rows: seq<Row>, r: Row)
    requires rows != []
    ensures Steady(rows + [r])
            <==> Steady(rows) && (Terminal(rows[|rows| - 1].status) ==> r.status == rows[|rows| - 1].status)
  {
    var all, n := rows + [r], |rows| - 1;
    assert all[n] == rows[n] && all[n + 1] == r && forall i :: 0 <= i < |rows| ==> all[i] == rows[i];
    if Steady(rows) && (Terminal(rows[n].status) ==> r.status == rows[n].status) {
      forall i, j | 0 <= i < j < |all| && Terminal(all[i].status) ensures all[j].status == all[i].status {
        assert i < n ==> rows[n].status == rows[i].status;
      }
    }
    if Steady(all) {
      forall i, j | 0 <= i < j < |rows| && Terminal(rows[i].status) ensures rows[j].status == rows[i].status {
        assert all[j].status == all[i].status;
      }
    }
  }

  lemma {:induction false} StickyIsSteady(s: System, es: seq<Event>)
    ensures var rows := [s.upstream] + Answers(es);
            Run(s, es).upstream == rows[|rows| - 1] && (AllSticky(s, es) <==> Steady(rows))
  {
    if es != [] {
      var front, e := es[..|es| - 1], es[|es| - 1];
      StickyIsSteady(s, front);
      var rows := [s.upstream] + Answers(front);
      if e.Upstream? {
        SteadySnoc(rows, e.answer);
        assert [s.upstream] + Answers(es) == rows + [e.answer];
      } else {
        assert Answers(es) == Answers(front);
      }
    }
  }

  /** When upstream is sticky, in terms of its replies: in any interleaving whose answers come from
      replies with progressing legs, a terminal answer is kept if and only if no later reply is
      "not found" and none reports a failure after a delivery. */
  lemma {:induction false} AnswersStickyIff(s: System, es: seq<Event>, replies: seq<Reply>)
    requires LegsProgress(replies)
    requires [s.upstream] + Answers(es) == seq(|replies|, i requires 0 <= i < |replies| => PollAnswer(replies[i]))
    ensures AllSticky(s, es)
            <==> forall i, j :: 0 <= i < j < |replies| ==> !TakesBack(replies[i], replies[j])
  {
    StickyIsSteady(s, es);
    var rows := seq(|replies|, i requires 0 <= i < |replies| => PollAnswer(replies[i]));
    forall i, j | 0 <= i < j < |replies|
      ensures TakesBack(replies[i], replies[j])
              <==> Terminal(rows[i].status) && rows[j].status != rows[i].status
    {
      if Terminal(PollAnswer(replies[i]).status) {
        assert LegsProgress([replies[i], replies[j]]);
        TakenBackIff(replies[i], replies[j]);
      }
    }
  }
}
