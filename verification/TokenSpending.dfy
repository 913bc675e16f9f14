/** When a single-use refresh token is submitted twice: over every run, exactly when a 401 starts a
    refresh while a token that has been spent is still stored. */
module TokenSpending {
  import opened Common
  import opened TokenRefresh

  // ---------- Fresh tokens ----------

  // The refresh token a reply or a login hands to the client, when it is going to be stored.
  function Issued(e: Event): Option<Token> {
    match e
    case Settle(Accepted(access, refresh)) => if Truthy(access) && Truthy(refresh) then refresh else None
    case Login(_, refresh) => if Truthy(refresh) then refresh else None
    case _ => None
  }

  function IssuedSet(e: Event): set<Token> {
    if Issued(e).Some? then {Issued(e).value} else {}
  }

  // Tokens the client has ever held.
  function Held(s: Client, es: seq<Event>): set<Token> {
    if es == [] then (if Truthy(s.refresh) then {s.refresh.value} else {})
    else Held(s, es[..|es| - 1]) + IssuedSet(es[|es| - 1])
  }

  // The server never hands out a refresh token the client has held before.
  predicate FreshTokens(s: Client, es: seq<Event>) {
    es == [] ||
    var n := |es| - 1;
    FreshTokens(s, es[..n]) && IssuedSet(es[n]) !! Held(s, es[..n])
  }

  ghost predicate Distinct(ts: seq<Token>) {
    forall i, j :: 0 <= i < j < |ts| ==> ts[i] != ts[j]
  }

  // ---------- A spent token left behind ----------

  // A reply that leaves the submitted token in storage: lost, or accepted without rotation.
  predicate Retains(reply: Reply) {
    match reply
    case Lost => true
    case Rejected => false
    case Accepted(access, refresh) => Truthy(access) && !Truthy(refresh)
  }

  predicate RetainsToken(e: Event) {
    e.Settle? && Retains(e.reply)
  }

  // The outstanding call has submitted the token that is stored.
  predicate SpendsStored(s: Client) {
    && s.inFlight.Some? && s.inFlight.value < |s.calls|
    && Truthy(s.refresh) && s.refresh.value == s.calls[s.inFlight.value].spent
  }

  // Whether the stored token is left behind after the event: a reply that retains it leaves it
  // behind; any other reply, a logout, and a login that brings a token put an end to it.
  predicate LeavesBehind(s: Client, e: Event, before: bool) {
    if !Enabled(s, e) then before
    else
      match e
      case Settle(reply) => Retains(reply) && SpendsStored(s)
      case Logout => false
      case Login(_, refresh) => before && !Truthy(refresh)
      case _ => before
  }

  predicate LeftBehind(s: Client, es: seq<Event>) {
    if es == [] then false
    else LeavesBehind(Run(s, es[..|es| - 1]), es[|es| - 1], LeftBehind(s, es[..|es| - 1]))
  }

  // A 401 that starts a refresh.
  predicate Submits(s: Client, e: Event) {
    Enabled(s, e) && e.Answer? && e.unauthorized && s.inFlight.None? && Truthy(s.refresh)
  }

  // No 401 starts a refresh while the stored token is left behind.
  predicate NeverRespends(s: Client, es: seq<Event>) {
    es == [] ||
    var n := |es| - 1;
    NeverRespends(s, es[..n]) && !(Submits(Run(s, es[..n]), es[n]) && LeftBehind(s, es[..n]))
  }

  // ---------- The invariant ----------

  // With no call outstanding, the stored token has been spent exactly when it is left behind; with
  // one outstanding, a spent stored token is that call's.
  ghost predicate StoredTracked(s: Client, left: bool) {
    Truthy(s.refresh) ==>
      if s.inFlight.None? then s.refresh.value in Spent(s.calls) <==> left
      else s.refresh.value in Spent(s.calls) ==> SpendsStored(s)
  }

  ghost predicate Tracked(s: Client, held: set<Token>, left: bool) {
    && Distinct(Spent(s.calls))
    && (forall t :: t in Spent(s.calls) ==> t in held)
    && (Truthy(s.refresh) ==> s.refresh.value in held)
    && StoredTracked(s, left)
  }

  lemma {:induction false} SettleSpent(s: Client, reply: Reply)
    requires Enabled(s, Settle(reply))
    ensures Spent(Step(s, Settle(reply)).calls) == Spent(s.calls)
  {
  }

  lemma {:induction false} SubmitSpent(s: Client, e: Event)
    requires Submits(s, e)
    ensures Spent(Step(s, e).calls) == Spent(s.calls) + [s.refresh.value]
    ensures Step(s, e).refresh == s.refresh && SpendsStored(Step(s, e))
  {
  }

  lemma {:induction false} OtherSpent(s: Client, e: Event)
    requires !Submits(s, e)
    ensures Spent(Step(s, e).calls) == Spent(s.calls)
  {
    if e.Settle? && Enabled(s, e) {
      SettleSpent(s, e.reply);
    }
  }

  lemma {:induction false} CallIsSpent(s: Client)
    requires SpendsStored(s)
    ensures s.refresh.value in Spent(s.calls)
  {
    assert Spent(s.calls)[s.inFlight.value] == s.refresh.value;
  }

  lemma {:induction false} SettleTracks(s: Client, reply: Reply, held: set<Token>, left: bool)
    requires Tracked(s, held, left) && Enabled(s, Settle(reply)) && IssuedSet(Settle(reply)) !! held
    ensures StoredTracked(Step(s, Settle(reply)), LeavesBehind(s, Settle(reply), left))
  {
    SettleSpent(s, reply);
    if SpendsStored(s) {
      CallIsSpent(s);
    }
  }

  lemma {:induction false} SubmitTracks(s: Client, e: Event, held: set<Token>)
    requires Tracked(s, held, false) && Submits(s, e)
    ensures Tracked(Step(s, e), held, false)
  {
    SubmitSpent(s, e);
  }

  lemma {:induction false} StepTracks(s: Client, e: Event, held: set<Token>, left: bool)
    requires Tracked(s, held, left) && IssuedSet(e) !! held && !(Submits(s, e) && left)
    ensures Tracked(Step(s, e), held + IssuedSet(e), LeavesBehind(s, e, left))
  {
    if Enabled(s, e) {
      if Submits(s, e) {
        SubmitTracks(s, e, held);
      } else {
        OtherSpent(s, e);
        if e.Settle? {
          SettleTracks(s, e.reply, held, left);
        }
      }
    }
  }

  lemma {:induction false} RunTracks(s: Client, es: seq<Event>)
    requires Fresh(s) && FreshTokens(s, es) && NeverRespends(s, es)
    ensures Tracked(Run(s, es), Held(s, es), LeftBehind(s, es))
  {
    if es != [] {
      var n := |es| - 1;
      RunTracks(s, es[..n]);
      StepTracks(Run(s, es[..n]), es[n], Held(s, es[..n]), LeftBehind(s, es[..n]));
    }
  }

  // ---------- The exact condition ----------

  lemma {:induction false} SubmissionsAreSpent(s: Client, es: seq<Event>)
    requires Fresh(s)
    ensures Submissions(Run(s, es).wire) == Spent(Run(s, es).calls)
  {
    RunKeepsInv(s, es);
  }

  lemma {:induction false} SpentGrows(s: Client, e: Event)
    ensures Spent(s.calls) <= Spent(Step(s, e).calls)
  {
    if Submits(s, e) {
      SubmitSpent(s, e);
    } else {
      OtherSpent(s, e);
    }
  }

  lemma {:induction false} PrefixDistinct(a: seq<Token>, b: seq<Token>)
    requires a <= b && Distinct(b)
    ensures Distinct(a)
  {
    forall i, j | 0 <= i < j < |a| ensures a[i] != a[j] {
      assert b[i] != b[j];
    }
  }

  // Submitting a token left behind submits it again.
  lemma {:induction false} RespendRepeats(s: Client, e: Event, held: set<Token>)
    requires Tracked(s, held, true) && Submits(s, e)
    ensures !Distinct(Spent(Step(s, e).calls))
  {
    SubmitSpent(s, e);
    var spent, again := Spent(s.calls), Spent(Step(s, e).calls);
    var i :| 0 <= i < |spent| && spent[i] == s.refresh.value;
    assert again[i] == again[|spent|];
  }

  lemma {:induction false} SpentOnceIff(s: Client, es: seq<Event>)
    requires Fresh(s) && FreshTokens(s, es)
    ensures Distinct(Spent(Run(s, es).calls)) <==> NeverRespends(s, es)
  {
    if NeverRespends(s, es) {
      RunTracks(s, es);
    } else {
      var n := |es| - 1;
      var t := Run(s, es[..n]);
      if NeverRespends(s, es[..n]) {
        RunTracks(s, es[..n]);
        RespendRepeats(t, es[n], Held(s, es[..n]));
      } else {
        SpentOnceIff(s, es[..n]);
        SpentGrows(t, es[n]);
        if Distinct(Spent(Step(t, es[n]).calls)) {
          PrefixDistinct(Spent(t.calls), Spent(Step(t, es[n]).calls));
        }
      }
    }
  }

  /** For every run with fresh tokens, any logins and logouts included: no refresh token is submitted
      twice if and only if no 401 starts a refresh while a spent token has been left behind. */
  lemma {:induction false} RespentIffLeftBehind(s: Client, es: seq<Event>)
    requires Fresh(s) && FreshTokens(s, es)
    ensures Distinct(Submissions(Run(s, es).wire)) <==> NeverRespends(s, es)
  {
    SubmissionsAreSpent(s, es);
    SpentOnceIff(s, es);
  }

  lemma {:induction false} NothingLeftBehind(s: Client, es: seq<Event>)
    requires forall i :: 0 <= i < |es| ==> !RetainsToken(es[i])
    ensures !LeftBehind(s, es) && NeverRespends(s, es)
  {
    if es != [] {
      NothingLeftBehind(s, es[..|es| - 1]);
      assert !RetainsToken(es[|es| - 1]);
    }
  }

  /** In particular, if the server never repeats a refresh token and no reply is lost or accepted
      without rotation, no refresh token is ever submitted twice. */
  lemma {:induction false} NeverSpentTwice(s: Client, es: seq<Event>)
    requires Fresh(s) && FreshTokens(s, es)
    requires forall i :: 0 <= i < |es| ==> !RetainsToken(es[i])
    ensures Distinct(Submissions(Run(s, es).wire))
  {
    NothingLeftBehind(s, es);
    RespentIffLeftBehind(s, es);
  }

  // ---------- A run that spends a token twice ----------

  const TWO_REQUESTS: seq<Event> := [] + [Login("a", Some("r"))] + [Start(0)] + [Start(1)]

  // Two requests are refused; in between, the refresh that the first one starts gets this reply.
  function RefusedTwice(reply: Reply): seq<Event> {
    TWO_REQUESTS + [Answer(0, true)] + [Settle(reply)] + [Answer(1, true)]
  }

  const NOT_ROTATED := Accepted(Some("b"), None)

  // A session with two requests on the wire.
  ghost predicate TwoWaiting(t: Client) {
    t.inFlight == None && t.refresh == Some("r") && t.calls == [] && t.requests == map[0 := First, 1 := First]
  }

  lemma {:induction false} TwoStarts()
    ensures TwoWaiting(Step(Step(Step(NEW_CLIENT, Login("a", Some("r"))), Start(0)), Start(1)))
  {
    var t := Step(NEW_CLIENT, Login("a", Some("r")));
    assert t.requests == map[] && t.refresh == Some("r");
    assert Step(t, Start(0)).requests == map[0 := First];
  }

  lemma {:induction false} RunThreeMore(s: Client, es: seq<Event>, d: Event, e: Event, f: Event)
    ensures Run(s, es + [d] + [e] + [f]) == Step(Step(Step(Run(s, es), d), e), f)
  {
    RunNext(s, es, d);
    RunNext(s, es + [d], e);
    RunNext(s, es + [d] + [e], f);
  }

  lemma {:induction false} BothSent()
    ensures TwoWaiting(Run(NEW_CLIENT, TWO_REQUESTS))
  {
    TwoStarts();
    RunThreeMore(NEW_CLIENT, [], Login("a", Some("r")), Start(0), Start(1));
  }

  lemma {:induction false} RetainedThenAgain(t: Client, reply: Reply)
    requires TwoWaiting(t) && Retains(reply)
    ensures Spent(Step(Step(Step(t, Answer(0, true)), Settle(reply)), Answer(1, true)).calls) == ["r", "r"]
  {
    var settled := Step(Step(t, Answer(0, true)), Settle(reply));
    SubmitSpent(t, Answer(0, true));
    SettleSpent(Step(t, Answer(0, true)), reply);
    SubmitSpent(settled, Answer(1, true));
  }

  lemma {:induction false} RetainedReplyRespends(reply: Reply)
    requires Retains(reply)
    ensures Submissions(Run(NEW_CLIENT, RefusedTwice(reply)).wire) == ["r", "r"]
    ensures !NeverRespends(NEW_CLIENT, RefusedTwice(reply))
  {
    BothSent();
    RetainedThenAgain(Run(NEW_CLIENT, TWO_REQUESTS), reply);
    RunThreeMore(NEW_CLIENT, TWO_REQUESTS, Answer(0, true), Settle(reply), Answer(1, true));
    SubmissionsAreSpent(NEW_CLIENT, RefusedTwice(reply));
    RetainedReplyIsFresh(reply);
    RespentIffLeftBehind(NEW_CLIENT, RefusedTwice(reply));
    assert ["r", "r"][0] == ["r", "r"][1];
  }

  /** The failing inputs, from a new client: the refresh of the first 401 is lost, or accepted without a
      new refresh token, and the next 401 submits the same token again. */
  lemma {:induction false} LostReplyRespends()
    ensures Submissions(Run(NEW_CLIENT, RefusedTwice(Lost)).wire) == ["r", "r"]
    ensures Submissions(Run(NEW_CLIENT, RefusedTwice(NOT_ROTATED)).wire) == ["r", "r"]
    ensures !NeverRespends(NEW_CLIENT, RefusedTwice(Lost)) && !NeverRespends(NEW_CLIENT, RefusedTwice(NOT_ROTATED))
  {
    RetainedReplyRespends(Lost);
    RetainedReplyRespends(NOT_ROTATED);
  }

  lemma {:induction false} FreshSnoc(s: Client, es: seq<Event>, e: Event)
    requires FreshTokens(s, es) && IssuedSet(e) !! Held(s, es)
    ensures FreshTokens(s, es + [e])
  {
    assert (es + [e])[..|es|] == es;
  }

  lemma {:induction false} RetainedReplyIsFresh(reply: Reply)
    requires Retains(reply)
    ensures FreshTokens(NEW_CLIENT, RefusedTwice(reply))
  {
    var es := [] + [Login("a", Some("r"))];
    FreshSnoc(NEW_CLIENT, [], Login("a", Some("r")));
    FreshSnoc(NEW_CLIENT, es, Start(0));
    FreshSnoc(NEW_CLIENT, es + [Start(0)], Start(1));
    FreshSnoc(NEW_CLIENT, TWO_REQUESTS, Answer(0, true));
    FreshSnoc(NEW_CLIENT, TWO_REQUESTS + [Answer(0, true)], Settle(reply));
    FreshSnoc(NEW_CLIENT, TWO_REQUESTS + [Answer(0, true)] + [Settle(reply)], Answer(1, true));
  }
}
