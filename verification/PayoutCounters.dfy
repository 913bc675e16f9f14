/** When the counters of payout batches are exact: over every interleaving of webhooks, if and only
    if no webhook changes an outcome in a batch that nobody is about to recount. */
module PayoutCounters {
  import opened Common
  import opened PayoutBatch

  ghost predicate Exact(db: Db, b: nat) {
    b < |db.batches| ==>
      && db.batches[b].succeeded == Count(db.rows, b, Confirmed)
      && db.batches[b].failed == Count(db.rows, b, Failed)
  }

  // No webhook has updated a row of the batch without recounting it yet.
  ghost predicate Quiet(db: Db, b: nat) {
    forall id :: id in db.webhooks ==> db.webhooks[id] != Updated(b)
  }

  ghost predicate Counted(db: Db) {
    forall b :: Quiet(db, b) ==> Exact(db, b)
  }

  // ---------- What an update does to the counts ----------

  // Both count as confirmed, both as failed, or neither counts.
  predicate SameOutcome(a: RecipientStatus, b: RecipientStatus) {
    (a == Confirmed <==> b == Confirmed) && (a == Failed <==> b == Failed)
  }

  ghost predicate KeepsOutcomes(rows: seq<Recipient>, hook: Webhook, b: nat) {
    forall i :: 0 <= i < |rows| && rows[i].batch == b && Matches(i, rows[i], hook) ==>
      SameOutcome(rows[i].status, hook.status)
  }

  // No row of the batch that the webhook matches passes into the status or out of it.
  ghost predicate Keeps(rows: seq<Recipient>, hook: Webhook, b: nat, status: RecipientStatus) {
    forall i :: 0 <= i < |rows| && rows[i].batch == b && Matches(i, rows[i], hook) ==>
      (rows[i].status == status <==> hook.status == status)
  }

  lemma {:induction false} KeepsSnoc(rows: seq<Recipient>, r: Recipient, hook: Webhook, b: nat, status: RecipientStatus)
    ensures Keeps(rows + [r], hook, b, status)
            <==> Keeps(rows, hook, b, status)
                 && (r.batch == b && Matches(|rows|, r, hook) ==> (r.status == status <==> hook.status == status))
  {
    var all := rows + [r];
    assert all[|rows|] == r && forall i :: 0 <= i < |rows| ==> all[i] == rows[i];
  }

  lemma {:induction false} UpdateSnoc(rows: seq<Recipient>, r: Recipient, hook: Webhook)
    ensures UpdateRows(rows + [r], hook) == UpdateRows(rows, hook) + [UpdateRow(|rows|, r, hook)]
  {
  }

  // All matched rows move the same way, so a count stays only if no row moves.
  lemma {:induction false} UpdateCount(rows: seq<Recipient>, hook: Webhook, b: nat, status: RecipientStatus)
    ensures var before, after := Count(rows, b, status), Count(UpdateRows(rows, hook), b, status);
            && (before == after <==> Keeps(rows, hook, b, status))
            && if hook.status == status then before <= after else after <= before
  {
    if rows != [] {
      var front, r := rows[..|rows| - 1], rows[|rows| - 1];
      assert rows == front + [r];
      UpdateCount(front, hook, b, status);
      KeepsSnoc(front, r, hook, b, status);
      UpdateSnoc(front, r, hook);
      CountAppend(front, r, b, status);
      CountAppend(UpdateRows(front, hook), UpdateRow(|front|, r, hook), b, status);
    }
  }

  lemma {:induction false} CountsKeptIff(rows: seq<Recipient>, hook: Webhook, b: nat)
    ensures var t := UpdateRows(rows, hook);
            (Count(t, b, Confirmed) == Count(rows, b, Confirmed) && Count(t, b, Failed) == Count(rows, b, Failed))
            <==> KeepsOutcomes(rows, hook, b)
  {
    UpdateCount(rows, hook, b, Confirmed);
    UpdateCount(rows, hook, b, Failed);
  }

  // ---------- Every step ----------

  // A row that the update matches outside the batch it will recount keeps its outcome, unless
  // another webhook is about to recount there.
  ghost predicate Harmless(db: Db, e: Event) {
    e.Update? && Enabled(db, e) ==>
      forall i :: 0 <= i < |db.rows| && Matches(i, db.rows[i], e.hook)
                  && db.rows[i].batch != db.rows[e.row].batch && Quiet(db, db.rows[i].batch) ==>
        SameOutcome(db.rows[i].status, e.hook.status)
  }

  lemma {:induction false} QuietAfterUpdate(db: Db, e: Event, c: nat)
    requires e.Update? && Enabled(db, e)
    ensures Quiet(Step(db, e), c) <==> Quiet(db, c) && c != db.rows[e.row].batch
  {
    var t := Step(db, e);
    assert t.webhooks[e.id] == Updated(db.rows[e.row].batch);
    if Quiet(t, c) {
      forall id | id in db.webhooks ensures db.webhooks[id] != Updated(c) {
        assert id in t.webhooks && t.webhooks[id] == db.webhooks[id];
      }
    }
  }

  lemma {:induction false} UpdateCountedIff(db: Db, e: Event)
    requires Inv(db) && Counted(db) && e.Update? && Enabled(db, e)
    ensures Counted(Step(db, e)) <==> Harmless(db, e)
  {
    var t, b := Step(db, e), db.rows[e.row].batch;
    if Harmless(db, e) {
      forall c | Quiet(t, c) ensures Exact(t, c) {
        QuietAfterUpdate(db, e, c);
        assert Exact(db, c);
        CountsKeptIff(db.rows, e.hook, c);
      }
    }
    if Counted(t) {
      forall i | 0 <= i < |db.rows| && Matches(i, db.rows[i], e.hook)
                 && db.rows[i].batch != b && Quiet(db, db.rows[i].batch)
        ensures SameOutcome(db.rows[i].status, e.hook.status)
      {
        var c := db.rows[i].batch;
        QuietAfterUpdate(db, e, c);
        assert Exact(db, c) && Exact(t, c);
        CountsKeptIff(db.rows, e.hook, c);
      }
    }
  }

  lemma {:induction false} InsertKeepsExact(db: Db, c: nat, b: nat)
    requires Exact(db, b) && Enabled(db, Insert(c))
    ensures Exact(Step(db, Insert(c)), b)
  {
    var r := NewRow(c, db.batches[c].toInsert[0]);
    CountAppend(db.rows, r, b, Confirmed);
    CountAppend(db.rows, r, b, Failed);
  }

  lemma {:induction false} RecountIsExact(db: Db, id: nat)
    requires Inv(db) && Enabled(db, Recount(id))
    ensures Exact(Step(db, Recount(id)), db.webhooks[id].batch)
  {
    var b := db.webhooks[id].batch;
    assert BatchOk(db, b);
    CountWithinRows(db.rows, b);
  }

  lemma {:induction false} RecountKeepsExact(db: Db, id: nat, b: nat)
    requires Inv(db) && Counted(db) && Enabled(db, Recount(id)) && Quiet(Step(db, Recount(id)), b)
    ensures Exact(Step(db, Recount(id)), b)
  {
    var t := Step(db, Recount(id));
    RecountIsExact(db, id);
    if db.webhooks[id].batch != b {
      forall k | k in db.webhooks ensures db.webhooks[k] != Updated(b) {
        assert k in t.webhooks;
      }
      assert Exact(db, b);
    }
  }

  lemma {:induction false} StepCounts(db: Db, e: Event, b: nat)
    requires Inv(db) && Counted(db) && Enabled(db, e) && !e.Update? && Quiet(Step(db, e), b)
    ensures Exact(Step(db, e), b)
  {
    match e
    case Recount(id) => RecountKeepsExact(db, id, b);
    case Insert(c) =>
      assert Exact(db, b);
      InsertKeepsExact(db, c, b);
    case Upload(_, _) =>
      assert Exact(db, b);
      if b == |db.batches| {
        NoRows(db.rows, b);
      }
    case Abort(_) => assert Exact(db, b);
    case Finish(id) =>
      forall k | k in db.webhooks ensures db.webhooks[k] != Updated(b) {
        assert k != id ==> k in Step(db, e).webhooks;
      }
      assert Exact(db, b);
  }

  /** One step of any interleaving keeps the counters exact if and only if it is harmless. */
  lemma {:induction false} StepCountedIff(db: Db, e: Event)
    requires Inv(db) && Counted(db)
    ensures Counted(Step(db, e)) <==> Harmless(db, e)
  {
    if Enabled(db, e) {
      if e.Update? {
        UpdateCountedIff(db, e);
      } else {
        forall b | Quiet(Step(db, e), b) ensures Exact(Step(db, e), b) {
          StepCounts(db, e, b);
        }
      }
    }
  }

  // ---------- Every run ----------

  ghost predicate AllHarmless(es: seq<Event>) {
    es == [] || (AllHarmless(es[..|es| - 1]) && Harmless(Run(EMPTY, es[..|es| - 1]), es[|es| - 1]))
  }

  // The counters are exact after every event, where no webhook is half-way.
  ghost predicate AlwaysCounted(es: seq<Event>) {
    Counted(Run(EMPTY, es)) && (es != [] ==> AlwaysCounted(es[..|es| - 1]))
  }

  /** In every interleaving, the counters of a batch are exact at every moment at which no webhook is
      between updating and recounting it, if and only if all events are harmless. */
  lemma {:induction false} CountersExactIff(es: seq<Event>)
    ensures AlwaysCounted(es) <==> AllHarmless(es)
  {
    if es != [] {
      CountersExactIff(es[..|es| - 1]);
      RunKeepsInv(EMPTY, es[..|es| - 1]);
      if AlwaysCounted(es[..|es| - 1]) {
        assert Counted(Run(EMPTY, es[..|es| - 1]));
        StepCountedIff(Run(EMPTY, es[..|es| - 1]), es[|es| - 1]);
      }
    }
  }

  lemma {:induction false} HarmlessIsCounted(es: seq<Event>)
    requires AllHarmless(es)
    ensures Counted(Run(EMPTY, es))
  {
    CountersExactIff(es);
  }

  // No row that the webhook matches outside the recounted batch changes its outcome.
  ghost predicate StaysHome(rows: seq<Recipient>, hook: Webhook, b: nat) {
    forall i :: 0 <= i < |rows| && Matches(i, rows[i], hook) && rows[i].batch != b ==>
      SameOutcome(rows[i].status, hook.status)
  }

  /** After one uninterrupted webhook all counters are exact again if and only if every row it matched
      outside the recounted batch keeps its outcome. */
  lemma {:induction false} ServeExactIff(db: Db, id: nat, hook: Webhook, row: nat)
    requires Inv(db) && Enabled(db, Update(id, hook, row)) && forall c: nat :: Exact(db, c)
    ensures (forall c: nat :: Exact(Serve(db, id, hook, row), c)) <==> StaysHome(db.rows, hook, db.rows[row].batch)
  {
    var b, t := db.rows[row].batch, Serve(db, id, hook, row);
    ServeEffect(db, id, hook, row);
    forall c: nat ensures Exact(t, c) <==> c >= |db.batches| || c == b || KeepsOutcomes(db.rows, hook, c) {
      assert Exact(db, c);
      ServeExactAt(db, id, hook, row, c);
    }
    if forall c: nat :: Exact(t, c) {
      forall i | 0 <= i < |db.rows| && Matches(i, db.rows[i], hook) && db.rows[i].batch != b
        ensures SameOutcome(db.rows[i].status, hook.status)
      {
        assert Exact(t, db.rows[i].batch);
        assert KeepsOutcomes(db.rows, hook, db.rows[i].batch);
      }
    }
  }

  lemma {:induction false} ServeExactAt(db: Db, id: nat, hook: Webhook, row: nat, c: nat)
    requires Inv(db) && Enabled(db, Update(id, hook, row)) && Exact(db, c)
    ensures Exact(Serve(db, id, hook, row), c)
            <==> c >= |db.batches| || c == db.rows[row].batch || KeepsOutcomes(db.rows, hook, c)
  {
    ServeEffect(db, id, hook, row);
    if c == db.rows[row].batch {
      var t := Step(db, Update(id, hook, row));
      StepKeepsInv(db, Update(id, hook, row));
      RecountIsExact(t, id);
    } else {
      CountsKeptIff(db.rows, hook, c);
    }
  }

  // ---------- A payment id shared by two batches ----------

  const UPLOADS: seq<Event> := UploadEvents("a", 0) + UploadEvents("b", 1)
  const FIRST := Webhook(Some(0), Some("p"), Pending)
  const SECOND := Webhook(Some(1), Some("p"), Pending)
  const BOTH := Webhook(None, Some("p"), Confirmed)

  // Both recipients get the payment id; then a webhook by that id alone confirms them.
  const SHARED: seq<Event> :=
    UPLOADS + Served(0, FIRST, 0) + Served(1, SECOND, 1) + Served(2, BOTH, 0)

  function TwoBatches(first: Option<string>, second: Option<string>): Db {
    Db([Batch(1, 1, 0, 0, Open, []), Batch(1, 1, 0, 0, Open, [])],
       [Recipient(0, "a", 1, Pending, first), Recipient(1, "b", 1, Pending, second)], map[])
  }

  lemma {:induction false} RunTwo(db: Db, d: Event, e: Event)
    ensures Run(db, [d, e]) == Step(Step(db, d), e)
  {
    assert [d, e][..1] == [d] && [d][..0] == [];
    assert Run(db, [d]) == Step(db, d);
  }

  // The database after the upload of one record and its insert.
  function WithUpload(db: Db, destination: string): Db {
    Db(db.batches + [Batch(1, 1, 0, 0, Open, [])],
       db.rows + [Recipient(|db.batches|, destination, 1, Pending, None)],
       db.webhooks)
  }

  function UploadEvents(destination: string, b: nat): seq<Event> {
    [Upload([Record(destination, 1)], 1), Insert(b)]
  }

  lemma {:induction false} UploadOne(db: Db, destination: string)
    requires |destination| <= 56 && forall i :: 0 <= i < |db.rows| ==> db.rows[i].batch < |db.batches|
    ensures Run(db, UploadEvents(destination, |db.batches|)) == WithUpload(db, destination)
  {
    var r, b := Record(destination, 1), |db.batches|;
    RunTwo(db, Upload([r], 1), Insert(b));
    var t := Step(db, Upload([r], 1));
    assert t.batches[b].toInsert == [r] && [r][1..] == [];
    assert Insertable(t.rows, b, r);
    assert Step(t, Insert(b)).batches == db.batches + [Batch(1, 1, 0, 0, Open, [])];
  }

  lemma {:induction false} PendingCounts(rows: seq<Recipient>, b: nat)
    requires forall i :: 0 <= i < |rows| ==> rows[i].status == Pending
    ensures Count(rows, b, Confirmed) == Count(rows, b, Failed) == 0
  {
    if rows != [] {
      PendingCounts(rows[..|rows| - 1], b);
    }
  }

  // A pending webhook hands out the payment id and changes no counter.
  lemma {:induction false} HandOut(es: seq<Event>, db: Db, id: nat, hook: Webhook, row: nat, t: Db)
    requires Run(EMPTY, es) == db && db.webhooks == map[] && row < |db.rows| && Matches(row, db.rows[row], hook)
    requires db.rows[row].batch < |db.batches| && db.batches[db.rows[row].batch] == Batch(1, 1, 0, 0, Open, [])
    requires t == db.(rows := UpdateRows(db.rows, hook))
    requires forall i :: 0 <= i < |t.rows| ==> t.rows[i].status == Pending
    ensures Run(EMPTY, es + Served(id, hook, row)) == t
  {
    RunConcat(EMPTY, es, Served(id, hook, row));
    RunServes(db, id, hook, row);
    ServeEffect(db, id, hook, row);
    PendingCounts(t.rows, db.rows[row].batch);
  }

  lemma {:induction false} BothUploaded()
    ensures Run(EMPTY, UPLOADS) == TwoBatches(None, None)
  {
    UploadOne(EMPTY, "a");
    UploadOne(WithUpload(EMPTY, "a"), "b");
    RunConcat(EMPTY, UploadEvents("a", 0), UploadEvents("b", 1));
  }

  lemma {:induction false} BeforeSharing()
    ensures Run(EMPTY, UPLOADS + Served(0, FIRST, 0) + Served(1, SECOND, 1)) == TwoBatches(Some("p"), Some("p"))
  {
    BothUploaded();
    HandOut(UPLOADS, TwoBatches(None, None), 0, FIRST, 0, TwoBatches(Some("p"), None));
    HandOut(UPLOADS + Served(0, FIRST, 0), TwoBatches(Some("p"), None), 1, SECOND, 1, TwoBatches(Some("p"), Some("p")));
  }

  lemma {:induction false} SecondLosesCount(db: Db)
    requires db == TwoBatches(Some("p"), Some("p")) && Inv(db)
    ensures Serve(db, 2, BOTH, 0).webhooks == map[] && !Exact(Serve(db, 2, BOTH, 0), 1)
  {
    ServeEffect(db, 2, BOTH, 0);
    PendingCounts(db.rows, 1);
    ServeExactAt(db, 2, BOTH, 0, 1);
    assert Matches(1, db.rows[1], BOTH) && !KeepsOutcomes(db.rows, BOTH, 1);
  }

  /** A run in which the condition fails: uploads of two one-recipient batches, one payment id for
      both, and a confirmation by that id. No webhook is left, and the second batch has lost count. */
  lemma {:induction false} SharedPaymentIdMiscounts()
    ensures Run(EMPTY, SHARED).webhooks == map[] && !Exact(Run(EMPTY, SHARED), 1) && !AllHarmless(SHARED)
  {
    var before := UPLOADS + Served(0, FIRST, 0) + Served(1, SECOND, 1);
    BeforeSharing();
    RunKeepsInv(EMPTY, before);
    RunConcat(EMPTY, before, Served(2, BOTH, 0));
    RunServes(Run(EMPTY, before), 2, BOTH, 0);
    SecondLosesCount(Run(EMPTY, before));
    if AllHarmless(SHARED) {
      HarmlessIsCounted(SHARED);
      assert Quiet(Run(EMPTY, SHARED), 1);
    }
  }
}
