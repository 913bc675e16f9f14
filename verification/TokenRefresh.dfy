/** Single-flight refreshing of the dashboard's access token. Each event is one stretch of the
    client's code between two awaits, so a run is any interleaving of requests, replies,
    logins and logouts. */
module TokenRefresh {
  import opened Common

  type Token = string

  datatype Message =
    | Api(request: nat, bearer: Option<Token>)
    | Refresh(call: nat, token: Token)

  // A refresh call and, once its promise has resolved, the value every joiner receives.
  datatype Outcome = Pending | Resolved(token: Option<Token>)
  datatype Call = Call(spent: Token, outcome: Outcome)

  datatype Phase =
    | First                                  // the original request is on the wire
    | Waiting(call: nat)                     // got a 401, awaiting a refresh call
    | Second(call: nat)                      // the replay is on the wire
    | Settled(via: Option<nat>, replayed: bool)

  // `Lost`: the call or its body failed; `Rejected`: a non-2xx answer.
  datatype Reply = Lost | Rejected | Accepted(access: Option<Token>, refresh: Option<Token>)

  datatype Client = Client(
    access: Option<Token>,
    refresh: Option<Token>,
    inFlight: Option<nat>,
    calls: seq<Call>,
    requests: map<nat, Phase>,
    wire: seq<Message>)

  datatype Event =
    | Start(request: nat)
    | Answer(request: nat, unauthorized: bool)
    | Settle(reply: Reply)
    | Resume(request: nat)
    | Replayed(request: nat)
    | Login(access: Token, refresh: Option<Token>)
    | Logout

  // JavaScript treats both null and the empty string as absent.
  predicate Truthy(t: Option<Token>) {
    t.Some? && t.value != ""
  }

  function StoreSession(s: Client, access: Token, refresh: Option<Token>): Client {
    s.(access := Some(access), refresh := if Truthy(refresh) then refresh else s.refresh)
  }

  function ClearSession(s: Client): Client {
    s.(access := None, refresh := None)
  }

  function Resolve(s: Client, token: Option<Token>): Client
    requires s.inFlight.Some? && s.inFlight.value < |s.calls|
  {
    var c := s.inFlight.value;
    s.(calls := s.calls[c := s.calls[c].(outcome := Resolved(token))], inFlight := None)
  }

  // Up to its first await, `refreshAccessToken` joins, gives up, or submits the stored token.
  function BeginRefresh(s: Client, r: nat): Client {
    if s.inFlight.Some? then
      s.(requests := s.requests[r := Waiting(s.inFlight.value)])
    else if !Truthy(s.refresh) then
      s.(requests := s.requests[r := Settled(None, false)])
    else
      var c := |s.calls|;
      s.(inFlight := Some(c),
         calls := s.calls + [Call(s.refresh.value, Pending)],
         wire := s.wire + [Refresh(c, s.refresh.value)],
         requests := s.requests[r := Waiting(c)])
  }

  function OnReply(s: Client, reply: Reply): Client
    requires s.inFlight.Some? && s.inFlight.value < |s.calls|
  {
    match reply
    case Lost => Resolve(s, None)
    case Rejected => Resolve(ClearSession(s), None)
    case Accepted(access, refresh) =>
      if !Truthy(access) then Resolve(ClearSession(s), None)
      else Resolve(StoreSession(s, access.value, refresh), access)
  }

  predicate Enabled(s: Client, e: Event) {
    match e
    case Start(r) => r !in s.requests
    case Answer(r, _) => r in s.requests && s.requests[r] == First
    case Settle(_) => s.inFlight.Some? && s.inFlight.value < |s.calls|
    case Resume(r) =>
      r in s.requests && s.requests[r].Waiting? && s.requests[r].call < |s.calls|
      && s.calls[s.requests[r].call].outcome.Resolved?
    case Replayed(r) => r in s.requests && s.requests[r].Second?
    case Login(_, _) => true
    case Logout => true
  }

  function Step(s: Client, e: Event): Client {
    if !Enabled(s, e) then s
    else
      match e
      case Start(r) => s.(requests := s.requests[r := First], wire := s.wire + [Api(r, s.access)])
      case Answer(r, unauthorized) =>
        if unauthorized then BeginRefresh(s, r) else s.(requests := s.requests[r := Settled(None, false)])
      case Settle(reply) => OnReply(s, reply)
      case Resume(r) =>
        var c := s.requests[r].call;
        var token := s.calls[c].outcome.token;
        if !Truthy(token) then s.(requests := s.requests[r := Settled(Some(c), false)])
        else s.(requests := s.requests[r := Second(c)], wire := s.wire + [Api(r, token)])
      case Replayed(r) => s.(requests := s.requests[r := Settled(Some(s.requests[r].call), true)])
      case Login(access, refresh) => StoreSession(s, access, refresh)
      case Logout => ClearSession(s)
  }

  function Run(s: Client, es: seq<Event>): Client {
    if es == [] then s else Step(Run(s, es[..|es| - 1]), es[|es| - 1])
  }

  predicate Fresh(s: Client) {
    s.inFlight == None && s.calls == [] && s.requests == map[] && s.wire == []
  }

  // ---------- The client's code ----------

  // What a request that got a 401 does next.
  function AfterRefresh(joined: Option<nat>): Phase {
    match joined case Some(c) => Waiting(c) case None => Settled(None, false)
  }

  class ApiClient {
    var access: Option<Token>
    var refresh: Option<Token>
    var refreshInFlight: Option<nat>
    var calls: seq<Call>
    var requests: map<nat, Phase>
    var wire: seq<Message>

    function State(): Client
      reads this
    {
      Client(access, refresh, refreshInFlight, calls, requests, wire)
    }

    method StoreTokens(token: Token, refreshToken: Option<Token>)
      modifies this
      ensures State() == Step(old(State()), Login(token, refreshToken))
    {
      access := Some(token);
      if Truthy(refreshToken) {
        refresh := refreshToken;
      }
    }

    method ClearTokens()
      modifies this
      ensures State() == Step(old(State()), Logout)
    {
      access := None;
      refresh := None;
    }

    // `authedFetch`, up to the response of the original request.
    method StartRequest(r: nat)
      requires Enabled(State(), Start(r))
      modifies this
      ensures State() == Step(old(State()), Start(r))
    {
      wire := wire + [Api(r, access)];
      requests := requests[r := First];
    }

    // The promise joined or created, or none when there is nothing to exchange.
    method RefreshAccessToken() returns (joined: Option<nat>)
      modifies this`refreshInFlight, this`calls, this`wire
      ensures forall r :: State().(requests := requests[r := AfterRefresh(joined)]) == BeginRefresh(old(State()), r)
    {
      if refreshInFlight.Some? {
        return refreshInFlight;
      }
      if !Truthy(refresh) {
        return None;
      }
      var c := |calls|;
      wire := wire + [Refresh(c, refresh.value)];
      calls := calls + [Call(refresh.value, Pending)];
      refreshInFlight := Some(c);
      return refreshInFlight;
    }

    method OnAnswer(r: nat, unauthorized: bool)
      requires Enabled(State(), Answer(r, unauthorized))
      modifies this
      ensures State() == Step(old(State()), Answer(r, unauthorized))
    {
      if !unauthorized {
        requests := requests[r := Settled(None, false)];
        return;
      }
      var joined := RefreshAccessToken();
      requests := requests[r := AfterRefresh(joined)];
    }

    // The rest of the refresh call, with its `finally`.
    method OnRefreshReply(reply: Reply)
      requires Enabled(State(), Settle(reply))
      modifies this
      ensures State() == Step(old(State()), Settle(reply))
    {
      var c := refreshInFlight.value;
      var result: Option<Token> := None;
      match reply {
        case Lost =>
        case Rejected => ClearTokens();
        case Accepted(newAccess, newRefresh) =>
          if !Truthy(newAccess) {
            ClearTokens();
          } else {
            StoreTokens(newAccess.value, newRefresh);
            result := newAccess;
          }
      }
      calls := calls[c := calls[c].(outcome := Resolved(result))];
      refreshInFlight := None;
    }

    method OnRefreshed(r: nat)
      requires Enabled(State(), Resume(r))
      modifies this
      ensures State() == Step(old(State()), Resume(r))
    {
      var c := requests[r].call;
      var token := calls[c].outcome.token;
      if !Truthy(token) {
        requests := requests[r := Settled(Some(c), false)];
        return;
      }
      wire := wire + [Api(r, token)];
      requests := requests[r := Second(c)];
    }

    method OnReplayed(r: nat)
      requires Enabled(State(), Replayed(r))
      modifies this
      ensures State() == Step(old(State()), Replayed(r))
    {
      requests := requests[r := Settled(Some(requests[r].call), true)];
    }
  }

  // ---------- What every run keeps ----------

  // The bearers sent for one request, in order.
  function Sends(wire: seq<Message>, r: nat): seq<Option<Token>> {
    if wire == [] then []
    else
      var last := wire[|wire| - 1];
      Sends(wire[..|wire| - 1], r) + (if last.Api? && last.request == r then [last.bearer] else [])
  }

  // The refresh tokens submitted, in order.
  function Submissions(wire: seq<Message>): seq<Token> {
    if wire == [] then []
    else
      var last := wire[|wire| - 1];
      Submissions(wire[..|wire| - 1]) + (if last.Refresh? then [last.token] else [])
  }

  function Spent(calls: seq<Call>): seq<Token> {
    seq(|calls|, i requires 0 <= i < |calls| => calls[i].spent)
  }

  ghost predicate PhaseOk(s: Client, r: nat) {
    var sends := Sends(s.wire, r);
    if r !in s.requests then sends == []
    else
      match s.requests[r]
      case First => |sends| == 1
      case Waiting(c) => |sends| == 1 && c < |s.calls|
      case Second(c) =>
        |sends| == 2 && c < |s.calls| && s.calls[c].outcome == Resolved(sends[1]) && Truthy(sends[1])
      case Settled(None, replayed) => |sends| == 1 && !replayed
      case Settled(Some(c), replayed) =>
        && c < |s.calls| && s.calls[c].outcome.Resolved?
        && replayed == Truthy(s.calls[c].outcome.token)
        && (if replayed then |sends| == 2 && sends[1] == s.calls[c].outcome.token else |sends| == 1)
  }

  ghost predicate FlightOk(s: Client) {
    && (s.inFlight.Some? ==> s.inFlight.value < |s.calls|)
    && (forall c :: 0 <= c < |s.calls| ==> (s.calls[c].outcome.Pending? <==> s.inFlight == Some(c)))
    && Submissions(s.wire) == Spent(s.calls)
  }

  ghost predicate Inv(s: Client) {
    FlightOk(s) && forall r :: PhaseOk(s, r)
  }

  lemma {:induction false} WireSnoc(wire: seq<Message>, m: Message, r: nat)
    ensures Sends(wire + [m], r) == Sends(wire, r) + (if m.Api? && m.request == r then [m.bearer] else [])
    ensures Submissions(wire + [m]) == Submissions(wire) + (if m.Refresh? then [m.token] else [])
  {
    assert (wire + [m])[..|wire|] == wire;
  }

  lemma {:induction false} AnswerKeepsPhase(s: Client, q: nat, unauthorized: bool, r: nat)
    requires FlightOk(s) && PhaseOk(s, r) && Enabled(s, Answer(q, unauthorized))
    ensures PhaseOk(Step(s, Answer(q, unauthorized)), r)
  {
    if Truthy(s.refresh) {
      WireSnoc(s.wire, Refresh(|s.calls|, s.refresh.value), r);
      assert Sends(s.wire, r) + [] == Sends(s.wire, r);
    }
  }

  lemma {:induction false} SettleKeepsPhase(s: Client, reply: Reply, r: nat)
    requires FlightOk(s) && PhaseOk(s, r) && Enabled(s, Settle(reply))
    ensures PhaseOk(Step(s, Settle(reply)), r)
  {
  }

  lemma {:induction false} StartKeepsPhase(s: Client, q: nat, r: nat)
    requires PhaseOk(s, r) && Enabled(s, Start(q))
    ensures PhaseOk(Step(s, Start(q)), r)
  {
    WireSnoc(s.wire, Api(q, s.access), r);
    assert Sends(s.wire, r) + [] == Sends(s.wire, r);
  }

  lemma {:induction false} ResumeKeepsPhase(s: Client, q: nat, r: nat)
    requires PhaseOk(s, r) && Enabled(s, Resume(q))
    ensures PhaseOk(Step(s, Resume(q)), r)
  {
    WireSnoc(s.wire, Api(q, s.calls[s.requests[q].call].outcome.token), r);
    assert Sends(s.wire, r) + [] == Sends(s.wire, r);
  }

  lemma {:induction false} StepKeepsPhase(s: Client, e: Event, r: nat)
    requires FlightOk(s) && PhaseOk(s, r) && Enabled(s, e)
    ensures PhaseOk(Step(s, e), r)
  {
    match e
    case Start(q) => StartKeepsPhase(s, q, r);
    case Answer(q, unauthorized) => AnswerKeepsPhase(s, q, unauthorized, r);
    case Settle(reply) => SettleKeepsPhase(s, reply, r);
    case Resume(q) => ResumeKeepsPhase(s, q, r);
    case Replayed(q) =>
    case Login(_, _) =>
    case Logout =>
  }

  lemma {:induction false} AnswerKeepsFlight(s: Client, r: nat)
    requires FlightOk(s) && Enabled(s, Answer(r, true)) && s.inFlight.None? && Truthy(s.refresh)
    ensures FlightOk(BeginRefresh(s, r))
  {
    var call := Call(s.refresh.value, Pending);
    WireSnoc(s.wire, Refresh(|s.calls|, s.refresh.value), 0);
    assert Spent(s.calls + [call]) == Spent(s.calls) + [s.refresh.value];
  }

  lemma {:induction false} SettleKeepsFlight(s: Client, reply: Reply)
    requires FlightOk(s) && Enabled(s, Settle(reply))
    ensures FlightOk(OnReply(s, reply))
  {
    assert Spent(OnReply(s, reply).calls) == Spent(s.calls);
  }

  lemma {:induction false} StepKeepsFlight(s: Client, e: Event)
    requires FlightOk(s) && Enabled(s, e)
    ensures FlightOk(Step(s, e))
  {
    match e
    case Start(q) => WireSnoc(s.wire, Api(q, s.access), 0);
    case Answer(q, unauthorized) =>
      if unauthorized && s.inFlight.None? && Truthy(s.refresh) {
        AnswerKeepsFlight(s, q);
      }
    case Settle(reply) => SettleKeepsFlight(s, reply);
    case Resume(q) =>
      WireSnoc(s.wire, Api(q, s.calls[s.requests[q].call].outcome.token), 0);
    case Replayed(q) =>
    case Login(_, _) =>
    case Logout =>
  }

  lemma {:induction false} RunKeepsInv(s: Client, es: seq<Event>)
    requires Fresh(s)
    ensures Inv(Run(s, es))
  {
    if es != [] {
      var n := |es| - 1;
      RunKeepsInv(s, es[..n]);
      var t := Run(s, es[..n]);
      if Enabled(t, es[n]) {
        StepKeepsFlight(t, es[n]);
        forall r ensures PhaseOk(Step(t, es[n]), r) {
          assert PhaseOk(t, r);
          StepKeepsPhase(t, es[n], r);
        }
      }
    }
  }

  /** Over every interleaving at most one refresh call is outstanding, and the submissions on
      the wire are exactly those calls. */
  lemma {:induction false} SingleFlight(s: Client, es: seq<Event>, c: nat, d: nat)
    requires Fresh(s)
    ensures var t := Run(s, es);
            && (c < |t.calls| && d < |t.calls| && t.calls[c].outcome.Pending? && t.calls[d].outcome.Pending? ==> c == d)
            && Submissions(t.wire) == Spent(t.calls)
  {
    RunKeepsInv(s, es);
  }

  // The refresh call that a request has joined.
  function Joined(p: Phase): Option<nat> {
    match p
    case First => None
    case Waiting(c) => Some(c)
    case Second(c) => Some(c)
    case Settled(via, _) => via
  }

  // A request that was sent again: on the wire, or settled by its replay.
  predicate Resent(p: Phase) {
    p.Second? || (p.Settled? && p.replayed)
  }

  /** Each request is sent at most twice; it is sent a second time exactly when the refresh call
      it joined produced a token, and then with that token. */
  lemma {:induction false} SentAtMostTwice(s: Client, es: seq<Event>, r: nat)
    requires Fresh(s)
    ensures var t := Run(s, es);
            var sends := Sends(t.wire, r);
            && |sends| <= 2
            && (|sends| == 2 <==> r in t.requests && Resent(t.requests[r]))
            && (|sends| == 2 ==>
                  match Joined(t.requests[r])
                  case Some(c) => c < |t.calls| && t.calls[c].outcome == Resolved(sends[1]) && Truthy(sends[1])
                  case None => false)
            && (r in t.requests && t.requests[r].Settled? ==>
                  match Joined(t.requests[r])
                  case Some(c) =>
                    c < |t.calls| && t.calls[c].outcome.Resolved?
                    && (|sends| == 2 <==> Truthy(t.calls[c].outcome.token))
                  case None => |sends| == 1)
  {
    RunKeepsInv(s, es);
    assert PhaseOk(Run(s, es), r);
  }

  /** Everyone who joined the same refresh call received the same result. */
  lemma {:induction false} JoinersAgree(s: Client, es: seq<Event>, q: nat, r: nat)
    requires Fresh(s)
    requires var t := Run(s, es);
             && q in t.requests && t.requests[q].Settled? && t.requests[q].via.Some?
             && r in t.requests && t.requests[r].Settled? && t.requests[r].via == t.requests[q].via
    ensures var t := Run(s, es);
            && t.requests[q].replayed == t.requests[r].replayed
            && (t.requests[q].replayed ==>
                  |Sends(t.wire, q)| == |Sends(t.wire, r)| == 2 && Sends(t.wire, q)[1] == Sends(t.wire, r)[1])
  {
    RunKeepsInv(s, es);
    assert PhaseOk(Run(s, es), q) && PhaseOk(Run(s, es), r);
  }

  /** No request is stranded: one that waits either waits for the outstanding call or can go on. */
  lemma {:induction false} NobodyStranded(s: Client, es: seq<Event>, r: nat)
    requires Fresh(s)
    requires r in Run(s, es).requests && Run(s, es).requests[r].Waiting?
    ensures var t := Run(s, es);
            t.inFlight == Some(t.requests[r].call) || Enabled(t, Resume(r))
  {
    RunKeepsInv(s, es);
    assert PhaseOk(Run(s, es), r);
  }

  /** A stored refresh token never outlives its access token: over every run, logins, replies and
      logouts store or clear the two together. */
  lemma {:induction false} SessionWhole(s: Client, es: seq<Event>)
    requires s.refresh.Some? ==> s.access.Some?
    ensures Run(s, es).refresh.Some? ==> Run(s, es).access.Some?
  {
    if es != [] {
      SessionWhole(s, es[..|es| - 1]);
    }
  }

  // Logins, logouts and refresh replies are the only events that touch the stored session.
  predicate TouchesSession(e: Event) {
    e.Login? || e.Logout? || e.Settle?
  }

  /** While nothing touches the session, every new request is sent with the token that the last
      successful refresh stored, the one its joiners replay with. */
  lemma {:induction false} NewRequestsUseRefreshed(
      s: Client, access: Token, refresh: Option<Token>, es: seq<Event>, r: nat)
    requires Inv(s) && s.inFlight.Some? && access != ""
    requires forall i :: 0 <= i < |es| ==> !TouchesSession(es[i])
    requires var t := Run(Step(s, Settle(Accepted(Some(access), refresh))), es); Enabled(t, Start(r))
    ensures var t := Run(Step(s, Settle(Accepted(Some(access), refresh))), es);
            && t.access == Some(access)
            && Sends(Step(t, Start(r)).wire, r) == Sends(t.wire, r) + [Some(access)]
            && s.inFlight.value < |t.calls|
            && t.calls[s.inFlight.value].outcome == Resolved(Some(access))
  {
    var settled := Step(s, Settle(Accepted(Some(access), refresh)));
    UntouchedSession(settled, es, s.inFlight.value);
    var t := Run(settled, es);
    WireSnoc(t.wire, Api(r, t.access), r);
  }

  lemma {:induction false} UntouchedSession(s: Client, es: seq<Event>, c: nat)
    requires c < |s.calls| && s.calls[c].outcome.Resolved?
    requires forall i :: 0 <= i < |es| ==> !TouchesSession(es[i])
    ensures Run(s, es).access == s.access && Run(s, es).refresh == s.refresh
    ensures c < |Run(s, es).calls| && Run(s, es).calls[c] == s.calls[c]
  {
    if es != [] {
      UntouchedSession(s, es[..|es| - 1], c);
      assert !TouchesSession(es[|es| - 1]);
    }
  }

  // ---------- What is stored, and what calls answer ----------

  // A token that is neither missing nor empty.
  predicate Given(t: Option<Token>) {
    t != None && t != Some("")
  }

  datatype Session = Session(access: Option<Token>, refresh: Option<Token>)

  // The access token of the last login or good reply, and the last refresh token that one of them
  // brought, since the last logout, rejection or reply without an access token.
  function LastSession(s: Client, es: seq<Event>): Session {
    if es == [] then Session(s.access, s.refresh)
    else
      var n := |es| - 1;
      var before := LastSession(s, es[..n]);
      match es[n]
      case Login(access, refresh) => Session(Some(access), if Given(refresh) then refresh else before.refresh)
      case Logout => Session(None, None)
      case Settle(reply) =>
        if Run(s, es[..n]).inFlight == None then before
        else
          (match reply
           case Lost => before
           case Rejected => Session(None, None)
           case Accepted(access, refresh) =>
             if !Given(access) then Session(None, None)
             else Session(access, if Given(refresh) then refresh else before.refresh))
      case _ => before
  }

  /** Over every run the stored session is the last one issued: in particular a login or a reply without
      a refresh token keeps the stored one. */
  lemma {:induction false} StoredIsLastIssued(s: Client, es: seq<Event>)
    requires Fresh(s)
    ensures Session(Run(s, es).access, Run(s, es).refresh) == LastSession(s, es)
  {
    if es != [] {
      StoredIsLastIssued(s, es[..|es| - 1]);
      RunKeepsInv(s, es[..|es| - 1]);
      StepSession(Run(s, es[..|es| - 1]), es[|es| - 1]);
    }
  }

  lemma {:induction false} StepSession(s: Client, e: Event)
    requires FlightOk(s)
    ensures var t := Step(s, e);
            match e
            case Login(access, refresh) =>
              t.access == Some(access) && t.refresh == if Given(refresh) then refresh else s.refresh
            case Logout => t.access == t.refresh == None
            case Settle(reply) =>
              if s.inFlight == None || reply == Lost then t.access == s.access && t.refresh == s.refresh
              else if reply == Rejected || !Given(reply.access) then t.access == t.refresh == None
              else t.access == reply.access && t.refresh == if Given(reply.refresh) then reply.refresh else s.refresh
            case _ => t.access == s.access && t.refresh == s.refresh
  {
  }

  // The replies that reached an outstanding call, in order.
  function Heard(s: Client, es: seq<Event>): seq<Reply> {
    if es == [] then []
    else
      var n := |es| - 1;
      Heard(s, es[..n])
      + (if es[n].Settle? && Run(s, es[..n]).inFlight.Some? then [es[n].reply] else [])
  }

  // What the joiners of a call receive after a reply.
  function Promised(reply: Reply): Option<Token> {
    match reply
    case Accepted(access, _) => if Given(access) then access else None
    case _ => None
  }

  // The first calls have been answered in order; at most one more is outstanding.
  ghost predicate Answered(s: Client, heard: seq<Reply>) {
    && |heard| <= |s.calls| <= |heard| + 1
    && (forall i :: 0 <= i < |heard| ==> s.calls[i].outcome == Resolved(Promised(heard[i])))
    && (|s.calls| > |heard| ==> s.inFlight == Some(|heard|))
    && (|s.calls| == |heard| ==> s.inFlight == None)
  }

  lemma {:induction false} StepAnswers(s: Client, e: Event, heard: seq<Reply>)
    requires FlightOk(s) && Answered(s, heard)
    ensures Answered(Step(s, e), heard + (if e.Settle? && s.inFlight.Some? then [e.reply] else []))
  {
    if e.Settle? && s.inFlight.Some? {
      SettleAnswers(s, e.reply, heard);
    } else {
      assert heard + [] == heard;
    }
  }

  lemma {:induction false} SettleAnswers(s: Client, reply: Reply, heard: seq<Reply>)
    requires FlightOk(s) && Answered(s, heard) && s.inFlight.Some?
    ensures Answered(OnReply(s, reply), heard + [reply])
  {
    var t := OnReply(s, reply);
    assert t.calls == s.calls[|heard| := Call(s.calls[|heard|].spent, Resolved(Promised(reply)))];
  }

  /** Over every run the k-th reply answers the k-th refresh call: with its access token if it was accepted
      and brought one, with nothing otherwise. */
  lemma {:induction false} CallsAreAnswered(s: Client, es: seq<Event>)
    requires Fresh(s)
    ensures Answered(Run(s, es), Heard(s, es))
  {
    if es != [] {
      CallsAreAnswered(s, es[..|es| - 1]);
      RunKeepsInv(s, es[..|es| - 1]);
      StepAnswers(Run(s, es[..|es| - 1]), es[|es| - 1], Heard(s, es[..|es| - 1]));
    }
  }

  // ---------- Logging out ----------

  predicate NoLogin(es: seq<Event>) {
    forall i :: 0 <= i < |es| ==> !es[i].Login?
  }

  predicate LoggedOut(s: Client) {
    s.access.None? && s.refresh.None?
  }

  lemma {:induction false} StaysLoggedOut(s: Client, es: seq<Event>)
    requires LoggedOut(s) && s.inFlight.None? && NoLogin(es)
    ensures LoggedOut(Run(s, es)) && Run(s, es).inFlight.None?
  {
    if es != [] {
      StaysLoggedOut(s, es[..|es| - 1]);
      assert !es[|es| - 1].Login?;
    }
  }

  /** After a logout the session stays empty in every continuation without a login if and only if no
      refresh call was outstanding: an accepted one stores a session again. */
  lemma {:induction false} LogoutHoldsIff(s: Client)
    requires Inv(s)
    ensures (forall es :: NoLogin(es) ==> LoggedOut(Run(Step(s, Logout), es))) <==> s.inFlight.None?
  {
    var t := Step(s, Logout);
    if s.inFlight.None? {
      forall es | NoLogin(es) ensures LoggedOut(Run(t, es)) {
        StaysLoggedOut(t, es);
      }
    } else {
      var late := Settle(Accepted(Some("t"), None));
      assert [late][..0] == [] && Run(t, [late]) == Step(t, late);
      assert NoLogin([late]) && Run(t, [late]).access == Some("t");
    }
  }

  lemma {:induction false} RunNext(s: Client, es: seq<Event>, e: Event)
    ensures Run(s, es + [e]) == Step(Run(s, es), e)
  {
    assert (es + [e])[..|es|] == es;
  }

  const NEW_CLIENT := Client(None, None, None, [], map[], [])

  // A logout while a refresh is under way, and then its reply.
  const LATE_REPLY: seq<Event> :=
    [] + [Login("a", Some("r"))] + [Start(0)] + [Answer(0, true)] + [Logout] + [Settle(Accepted(Some("b"), Some("q")))]

  lemma {:induction false} RefreshUnderWay()
    ensures var t := Run(NEW_CLIENT, [] + [Login("a", Some("r"))] + [Start(0)] + [Answer(0, true)]);
            t.inFlight == Some(0) && |t.calls| == 1
  {
    RunNext(NEW_CLIENT, [], Login("a", Some("r")));
    RunNext(NEW_CLIENT, [] + [Login("a", Some("r"))], Start(0));
    RunNext(NEW_CLIENT, [] + [Login("a", Some("r"))] + [Start(0)], Answer(0, true));
  }

  /** It happens: from a new client, one request and its 401, a logout, and the refresh's reply end
      with the user logged in again. */
  lemma {:induction false} LateReplyLogsIn()
    ensures var t := Run(NEW_CLIENT, LATE_REPLY); t.access == Some("b") && t.refresh == Some("q")
  {
    var before := [] + [Login("a", Some("r"))] + [Start(0)] + [Answer(0, true)];
    RefreshUnderWay();
    RunNext(NEW_CLIENT, before, Logout);
    RunNext(NEW_CLIENT, before + [Logout], Settle(Accepted(Some("b"), Some("q"))));
  }
}
