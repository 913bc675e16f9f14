/** What payout batches guarantee: the terminal transition, uploads that stop early, and that none is
    left open. */
module PayoutSafety {
  import opened Common
  import opened PayoutBatch
  import opened PayoutCounters

  // ---------- Terminal batches and stopped uploads ----------

  lemma {:induction false} StepStatus(db: Db, e: Event, b: nat)
    requires b < |db.batches|
    ensures b < |Step(db, e).batches| && Step(db, e).batches[b].total == db.batches[b].total
    ensures db.batches[b].status != Open ==> Step(db, e).batches[b].status == db.batches[b].status
  {
  }

  /** Once a batch has a terminal status, no event of any interleaving changes it. */
  lemma {:induction false} TerminalIsForever(db: Db, es: seq<Event>, b: nat)
    requires b < |db.batches| && db.batches[b].status != Open
    ensures b < |Run(db, es).batches| && Run(db, es).batches[b].status == db.batches[b].status
  {
    if es != [] {
      TerminalIsForever(db, es[..|es| - 1], b);
      StepStatus(Run(db, es[..|es| - 1]), es[|es| - 1], b);
    }
  }

  // The insert loop ended with recipients missing.
  ghost predicate StoppedEarly(db: Db, b: nat) {
    b < |db.batches| && db.batches[b].toInsert == [] && CountRows(db.rows, b) < db.batches[b].total
  }

  lemma {:induction false} StepKeepsTodo(db: Db, e: Event, b: nat)
    requires b < |db.batches| && db.batches[b].toInsert == []
    ensures b < |Step(db, e).batches| && Step(db, e).batches[b].toInsert == []
  {
  }

  lemma {:induction false} StepKeepsRowCount(db: Db, e: Event, b: nat)
    requires b < |db.batches| && db.batches[b].toInsert == []
    ensures CountRows(Step(db, e).rows, b) == CountRows(db.rows, b)
  {
    if Enabled(db, e) {
      match e
      case Insert(c) => CountAppend(db.rows, NewRow(c, db.batches[c].toInsert[0]), b, Confirmed);
      case Update(_, hook, _) => UpdateKeepsRowCount(db.rows, hook, b);
      case _ =>
    }
  }

  lemma {:induction false} StepKeepsStopped(db: Db, e: Event, b: nat)
    requires StoppedEarly(db, b)
    ensures StoppedEarly(Step(db, e), b)
  {
    StepStatus(db, e, b);
    StepKeepsTodo(db, e, b);
    StepKeepsRowCount(db, e, b);
  }

  /** A batch whose insert loop stopped early never becomes terminal, whatever webhooks arrive. */
  lemma {:induction false} StoppedNeverTerminal(db: Db, es: seq<Event>, b: nat)
    requires Inv(db) && StoppedEarly(db, b)
    ensures StoppedEarly(Run(db, es), b) && Run(db, es).batches[b].status == Open
  {
    RunKeepsInv(db, es);
    if es != [] {
      StoppedNeverTerminal(db, es[..|es| - 1], b);
      StepKeepsStopped(Run(db, es[..|es| - 1]), es[|es| - 1], b);
    }
    assert BatchOk(Run(db, es), b);
  }

  /** The table's check on the counters never rejects a recount. */
  lemma {:induction false} CheckNeverFails(es: seq<Event>, b: nat)
    requires b < |Run(EMPTY, es).batches|
    ensures var db := Run(EMPTY, es); Count(db.rows, b, Confirmed) + Count(db.rows, b, Failed) <= db.batches[b].total
  {
    RunKeepsInv(EMPTY, es);
    CountWithinRows(Run(EMPTY, es).rows, b);
    assert BatchOk(Run(EMPTY, es), b);
  }

  // ---------- The terminal transition ----------

  ghost predicate Settled(db: Db, b: nat) {
    forall i :: 0 <= i < |db.rows| && db.rows[i].batch == b ==>
      db.rows[i].status == Confirmed || db.rows[i].status == Failed
  }

  ghost predicate Any(db: Db, b: nat, status: RecipientStatus) {
    exists i :: 0 <= i < |db.rows| && db.rows[i].batch == b && db.rows[i].status == status
  }

  // A terminal status says which outcomes the recipients had.
  ghost predicate Tells(db: Db, b: nat, status: BatchStatus) {
    match status
    case Open => false
    case Completed => Any(db, b, Confirmed) && !Any(db, b, Failed)
    case AllFailed => !Any(db, b, Confirmed) && Any(db, b, Failed)
    case PartiallyFailed => Any(db, b, Confirmed) && Any(db, b, Failed)
  }

  // Non-empty, complete and settled, with the outcomes that this status tells.
  ghost predicate SettledAs(db: Db, b: nat, status: BatchStatus) {
    b < |db.batches| && 0 < db.batches[b].total == CountRows(db.rows, b) && Settled(db, b) && Tells(db, b, status)
  }

  lemma {:induction false} CountIsSome(rows: seq<Recipient>, b: nat, status: RecipientStatus)
    ensures Count(rows, b, status) > 0
            <==> exists i :: 0 <= i < |rows| && rows[i].batch == b && rows[i].status == status
  {
    if rows != [] {
      var n := |rows| - 1;
      CountIsSome(rows[..n], b, status);
      if Count(rows[..n], b, status) > 0 {
        var i :| 0 <= i < n && rows[..n][i].batch == b && rows[..n][i].status == status;
        assert rows[i].batch == b && rows[i].status == status;
      }
      forall i | 0 <= i < |rows| && rows[i].batch == b && rows[i].status == status
        ensures Count(rows, b, status) > 0
      {
        assert i < n ==> rows[..n][i] == rows[i];
      }
    }
  }

  // Rows whose outcomes fill the batch are all there and settled.
  lemma {:induction false} FullIsSettled(db: Db, b: nat)
    requires Inv(db) && b < |db.batches|
    requires Count(db.rows, b, Confirmed) + Count(db.rows, b, Failed) >= db.batches[b].total
    ensures db.batches[b].total == CountRows(db.rows, b) && Settled(db, b)
  {
    assert BatchOk(db, b);
    CountWithinRows(db.rows, b);
    AllSettled(db.rows, b);
  }

  lemma {:induction false} FinishTells(db: Db, b: nat, batch: Batch)
    requires batch.status == Open && FinishBatch(batch).status != Open
    requires batch.succeeded == Count(db.rows, b, Confirmed) && batch.failed == Count(db.rows, b, Failed)
    ensures Tells(db, b, FinishBatch(batch).status)
  {
    CountIsSome(db.rows, b, Confirmed);
    CountIsSome(db.rows, b, Failed);
  }

  // Only a recount changes the counters of an existing batch, and it makes them exact.
  lemma {:induction false} CountersMove(db: Db, e: Event, b: nat)
    requires Inv(db) && b < |db.batches|
    ensures var before, after := db.batches[b], Step(db, e).batches[b];
            && after.total == before.total
            && (Exact(Step(db, e), b) || (after.succeeded == before.succeeded && after.failed == before.failed))
  {
    if e.Recount? && Enabled(db, e) {
      RecountIsExact(db, e.id);
    }
  }

  // The rows had these counts after the first k events.
  ghost predicate CountedAt(es: seq<Event>, k: nat, b: nat, succeeded: nat, failed: nat) {
    && k <= |es|
    && var db := Run(EMPTY, es[..k]);
       b < |db.batches| && Count(db.rows, b, Confirmed) == succeeded && Count(db.rows, b, Failed) == failed
  }

  // Totals never change, and counters were exact at some moment.
  lemma {:induction false} CountersWereExact(es: seq<Event>, b: nat) returns (k: nat)
    requires b < |Run(EMPTY, es).batches|
    ensures var batch := Run(EMPTY, es).batches[b];
            && CountedAt(es, k, b, batch.succeeded, batch.failed)
            && Run(EMPTY, es[..k]).batches[b].total == batch.total
  {
    var n := |es| - 1;
    var db, t := Run(EMPTY, es[..n]), Run(EMPTY, es);
    RunKeepsInv(EMPTY, es[..n]);
    assert es[..|es|] == es;
    if Exact(t, b) {
      k := |es|;
    } else if b < |db.batches| {
      CountersMove(db, es[n], b);
      k := CountersWereExact(es[..n], b);
      assert es[..n][..k] == es[..k];
    } else {
      NoRows(db.rows, b);
      assert false;
    }
  }

  lemma {:induction false} TerminalStep(db: Db, e: Event, b: nat)
    requires b < |Step(db, e).batches| && Step(db, e).batches[b].status != Open
    ensures b < |db.batches|
    ensures db.batches[b].status != Open
            || (e.Finish? && 0 < db.batches[b].total <= db.batches[b].succeeded + db.batches[b].failed
                && Step(db, e).batches[b].status == FinishBatch(db.batches[b]).status)
  {
  }

  lemma {:induction false} FullWasSettled(es: seq<Event>, b: nat) returns (k: nat)
    requires b < |Run(EMPTY, es).batches|
    requires var batch := Run(EMPTY, es).batches[b];
             batch.status == Open && 0 < batch.total <= batch.succeeded + batch.failed
    ensures k <= |es| && SettledAs(Run(EMPTY, es[..k]), b, FinishBatch(Run(EMPTY, es).batches[b]).status)
  {
    k := CountersWereExact(es, b);
    RunKeepsInv(EMPTY, es[..k]);
    FullIsSettled(Run(EMPTY, es[..k]), b);
    FinishTells(Run(EMPTY, es[..k]), b, Run(EMPTY, es).batches[b]);
  }

  /** In every interleaving whatsoever, a batch has a terminal status only if at some earlier moment
      it was non-empty, complete and settled, and the status is the one its recipients' outcomes
      gave at that moment. */
  lemma {:induction false} TerminalOnlyWhenSettled(es: seq<Event>, b: nat)
    requires b < |Run(EMPTY, es).batches| && Run(EMPTY, es).batches[b].status != Open
    ensures exists k :: 0 <= k <= |es| && SettledAs(Run(EMPTY, es[..k]), b, Run(EMPTY, es).batches[b].status)
  {
    var n := |es| - 1;
    var db := Run(EMPTY, es[..n]);
    TerminalStep(db, es[n], b);
    if db.batches[b].status != Open {
      TerminalOnlyWhenSettled(es[..n], b);
      StepStatus(db, es[n], b);
      var k: nat :| k <= n && SettledAs(Run(EMPTY, es[..n][..k]), b, db.batches[b].status);
      assert es[..n][..k] == es[..k];
    } else {
      var k := FullWasSettled(es[..n], b);
      assert es[..n][..k] == es[..k];
    }
  }

  /** At the moment a batch becomes terminal, which is the end of a webhook, its recipients are
      still settled that way if no other webhook is half-way through it. */
  lemma {:induction false} SettledWhenQuiet(es: seq<Event>, e: Event, b: nat)
    requires AllHarmless(es)
    requires var db := Run(EMPTY, es);
             b < |db.batches| && db.batches[b].status == Open && Step(db, e).batches[b].status != Open
    ensures e.Finish?
    ensures Quiet(Run(EMPTY, es), b) ==> SettledAs(Run(EMPTY, es), b, Step(Run(EMPTY, es), e).batches[b].status)
  {
    var db := Run(EMPTY, es);
    RunKeepsInv(EMPTY, es);
    HarmlessIsCounted(es);
    TerminalStep(db, e, b);
    if Quiet(db, b) {
      assert Exact(db, b);
      FullIsSettled(db, b);
      FinishTells(db, b, db.batches[b]);
    }
  }

  // A recipient confirmed by one webhook and set back by another before the first one finishes.
  const CONFIRM := Webhook(Some(0), None, Confirmed)
  const SET_BACK := Webhook(Some(0), None, Pending)
  const RACE: seq<Event> :=
    UploadEvents("a", 0) + [Update(0, CONFIRM, 0), Recount(0)] + [Update(1, SET_BACK, 0), Finish(0)]

  function OneRow(succeeded: nat, status: BatchStatus, row: RecipientStatus, webhooks: map<nat, Stage>): Db {
    Db([Batch(1, 1, succeeded, 0, status, [])], [Recipient(0, "a", 1, row, None)], webhooks)
  }

  lemma {:induction false} ConfirmCounts()
    ensures Run(OneRow(0, Open, Pending, map[]), [Update(0, CONFIRM, 0), Recount(0)])
            == OneRow(1, Open, Confirmed, map[0 := Recounted(0)])
  {
    var db := OneRow(0, Open, Pending, map[]);
    RunTwo(db, Update(0, CONFIRM, 0), Recount(0));
    var t := Step(db, Update(0, CONFIRM, 0));
    assert t == OneRow(0, Open, Confirmed, map[0 := Updated(0)]);
    assert t.rows[..0] == [] && Count([], 0, Confirmed) == 0 && Count([], 0, Failed) == 0;
    assert Count(t.rows, 0, Confirmed) == 1 && Count(t.rows, 0, Failed) == 0;
  }

  lemma {:induction false} SetBackThenFinish()
    ensures Run(OneRow(1, Open, Confirmed, map[0 := Recounted(0)]), [Update(1, SET_BACK, 0), Finish(0)])
            == OneRow(1, Completed, Pending, map[1 := Updated(0)])
  {
    var db := OneRow(1, Open, Confirmed, map[0 := Recounted(0)]);
    RunTwo(db, Update(1, SET_BACK, 0), Finish(0));
    var t := Step(db, Update(1, SET_BACK, 0));
    assert t == OneRow(1, Open, Pending, map[0 := Recounted(0), 1 := Updated(0)]);
    assert t.webhooks - {0} == map[1 := Updated(0)];
  }

  /** Without that, it can be otherwise: a batch turns COMPLETED while its only recipient has gone
      back to PENDING, settled though it was when the webhook counted. */
  lemma {:induction false} TerminalWhilePending()
    ensures var db := Run(EMPTY, RACE);
            |db.batches| == |db.rows| == 1 && db.batches[0].status == Completed && db.rows[0].status == Pending
  {
    var uploaded, counted := UploadEvents("a", 0), [Update(0, CONFIRM, 0), Recount(0)];
    UploadOne(EMPTY, "a");
    assert Run(EMPTY, uploaded) == OneRow(0, Open, Pending, map[]);
    RunConcat(EMPTY, uploaded, counted);
    ConfirmCounts();
    RunConcat(EMPTY, uploaded + counted, [Update(1, SET_BACK, 0), Finish(0)]);
    SetBackThenFinish();
  }

  // ---------- No batch is left behind ----------

  // While counters fill an open batch, the webhook that will close it is under way.
  ghost predicate Closing(db: Db, b: nat) {
    b < |db.batches| && db.batches[b].status == Open && 0 < db.batches[b].total
    && db.batches[b].total <= db.batches[b].succeeded + db.batches[b].failed ==>
      exists id :: id in db.webhooks && db.webhooks[id] == Recounted(b)
  }

  lemma {:induction false} StepKeepsClosing(db: Db, e: Event, b: nat)
    requires Closing(db, b)
    ensures Closing(Step(db, e), b)
  {
    var t := Step(db, e);
    if Enabled(db, e) {
      if e.Recount? && db.webhooks[e.id].batch == b {
        assert t.webhooks[e.id] == Recounted(b);
      } else if id :| id in db.webhooks && db.webhooks[id] == Recounted(b) {
        if !(e.Finish? && e.id == id) {
          assert id in t.webhooks && t.webhooks[id] == Recounted(b);
        }
      }
    }
  }

  lemma {:induction false} RunKeepsClosing(es: seq<Event>, b: nat)
    ensures Closing(Run(EMPTY, es), b)
  {
    if es != [] {
      RunKeepsClosing(es[..|es| - 1], b);
      StepKeepsClosing(Run(EMPTY, es[..|es| - 1]), es[|es| - 1], b);
    }
  }

  /** In every harmless interleaving, an open batch that is non-empty, complete and settled still
      has a webhook under way: none is left open for good. */
  lemma {:induction false} NeverStuck(es: seq<Event>, b: nat)
    requires AllHarmless(es)
    requires var db := Run(EMPTY, es);
             b < |db.batches| && db.batches[b].status == Open
             && 0 < db.batches[b].total == CountRows(db.rows, b) && Settled(db, b)
    ensures var db := Run(EMPTY, es); exists id :: id in db.webhooks && db.webhooks[id].batch == b
  {
    var db := Run(EMPTY, es);
    HarmlessIsCounted(es);
    RunKeepsClosing(es, b);
    if Quiet(db, b) {
      assert Exact(db, b);
      AllSettled(db.rows, b);
      var id :| id in db.webhooks && db.webhooks[id] == Recounted(b);
      assert db.webhooks[id].batch == b;
    } else {
      var id :| id in db.webhooks && db.webhooks[id] == Updated(b);
      assert db.webhooks[id].batch == b;
    }
  }

  /** One uninterrupted webhook, whatever rows it matches: the counters of the batch it recounts are
      exact afterwards, and that batch, if open, becomes terminal if and only if it is non-empty,
      complete and settled. */
  lemma {:induction false} WebhookOutcome(db: Db, id: nat, hook: Webhook, row: nat)
    requires Inv(db) && Enabled(db, Update(id, hook, row)) && db.batches[db.rows[row].batch].status == Open
    ensures var t := Serve(db, id, hook, row);
            var b := db.rows[row].batch;
            && Exact(t, b)
            && (t.batches[b].status != Open <==> 0 < t.batches[b].total == CountRows(t.rows, b) && Settled(t, b))
            && (t.batches[b].status != Open ==> Tells(t, b, t.batches[b].status))
  {
    var b := db.rows[row].batch;
    var t := Serve(db, id, hook, row);
    ServeEffect(db, id, hook, row);
    assert BatchOk(db, b);
    UpdateKeepsRowCount(db.rows, hook, b);
    CountWithinRows(t.rows, b);
    AllSettled(t.rows, b);
    if t.batches[b].status != Open {
      FinishTells(t, b, RecountBatch(db.(rows := t.rows), b));
    }
  }
}
