/** Payout batches and their reconciliation: the upload's insert loop and the three statements of
    a webhook, interleaved in any order. Table rows are numbered by their position. */
module PayoutBatch {
  import opened Common

  datatype RecipientStatus = Pending | Submitted | Confirmed | Failed
  datatype BatchStatus = Open | Completed | PartiallyFailed | AllFailed

  datatype Recipient = Recipient(
    batch: nat, destination: string, amount: int, status: RecipientStatus, sdpId: Option<string>)

  // One accepted upload record, and what is stored of it: `micros` is the amount in micro-units.
  datatype Payout = Payout(destination: string, amount: real)
  datatype Record = Record(destination: string, micros: int)

  // `toInsert` is process state: the records the insert loop has still to reach.
  datatype Batch = Batch(
    total: nat, amount: int, succeeded: nat, failed: nat, status: BatchStatus, toInsert: seq<Record>)

  // A webhook between its statements, with the batch its update returned.
  datatype Stage = Updated(batch: nat) | Recounted(batch: nat)

  datatype Db = Db(batches: seq<Batch>, rows: seq<Recipient>, webhooks: map<nat, Stage>)

  datatype Webhook = Webhook(recipient: Option<nat>, sdpId: Option<string>, status: RecipientStatus)

  datatype Event =
    | Upload(records: seq<Record>, amount: int)
    | Insert(batch: nat)
    | Abort(batch: nat)
    | Update(id: nat, hook: Webhook, row: nat)
    | Recount(id: nat)
    | Finish(id: nat)

  // ---------- Amounts ----------

  // `f64::round` on exact values: to nearest, halves away from zero.
  function Round(x: real): int {
    if x >= 0.0 then (x + 0.5).Floor else -((-x + 0.5).Floor)
  }

  function Micros(amount: real): int {
    Round(amount * 1000000.0)
  }

  function Sum(payouts: seq<Payout>): real {
    if payouts == [] then 0.0 else Sum(payouts[..|payouts| - 1]) + payouts[|payouts| - 1].amount
  }

  function RecordsOf(payouts: seq<Payout>): (records: seq<Record>)
    ensures |records| == |payouts|
  {
    seq(|payouts|, i requires 0 <= i < |payouts| => Record(payouts[i].destination, Micros(payouts[i].amount)))
  }

  // The batch row counts the records and adds up their amounts before rounding.
  function UploadOf(payouts: seq<Payout>): Event {
    Upload(RecordsOf(payouts), Micros(Sum(payouts)))
  }

  // ---------- Counting ----------

  function CountRows(rows: seq<Recipient>, batch: nat): nat {
    if rows == [] then 0
    else CountRows(rows[..|rows| - 1], batch) + (if rows[|rows| - 1].batch == batch then 1 else 0)
  }

  function Count(rows: seq<Recipient>, batch: nat, status: RecipientStatus): nat {
    if rows == [] then 0
    else
      var last := rows[|rows| - 1];
      Count(rows[..|rows| - 1], batch, status) + (if last.batch == batch && last.status == status then 1 else 0)
  }

  // ---------- Statements ----------

  // The CHECK, VARCHAR(56) and UNIQUE constraints of `batch_recipients`.
  predicate Insertable(rows: seq<Recipient>, batch: nat, r: Record) {
    && 0 < r.micros
    && |r.destination| <= 56
    && forall i :: 0 <= i < |rows| ==> !(rows[i].batch == batch && rows[i].destination == r.destination)
  }

  function NewRow(batch: nat, r: Record): Recipient {
    Recipient(batch, r.destination, r.micros, Pending, None)
  }

  function SetTodo(db: Db, b: nat, todo: seq<Record>): Db
    requires b < |db.batches|
  {
    db.(batches := db.batches[b := db.batches[b].(toInsert := todo)])
  }

  // The next INSERT of the loop; its error ends the loop and leaves the rows already written.
  function InsertNext(db: Db, b: nat): Db
    requires b < |db.batches| && db.batches[b].toInsert != []
  {
    var todo := db.batches[b].toInsert;
    if Insertable(db.rows, b, todo[0]) then
      SetTodo(db, b, todo[1..]).(rows := db.rows + [NewRow(b, todo[0])])
    else SetTodo(db, b, [])
  }

  // The WHERE clauses of the three update statements.
  predicate Matches(i: nat, row: Recipient, hook: Webhook) {
    || hook.recipient == Some(i)
    || (hook.sdpId.Some? && row.sdpId == hook.sdpId)
  }

  function UpdateRow(i: nat, row: Recipient, hook: Webhook): Recipient {
    if !Matches(i, row, hook) then row
    else row.(status := hook.status,
              sdpId := if hook.recipient.Some? && hook.sdpId.Some? then hook.sdpId else row.sdpId)
  }

  function UpdateRows(rows: seq<Recipient>, hook: Webhook): seq<Recipient> {
    seq(|rows|, i requires 0 <= i < |rows| => UpdateRow(i, rows[i], hook))
  }

  // Counters from sub-selects; a violated CHECK leaves the row as it was.
  function RecountBatch(db: Db, b: nat): Batch
    requires b < |db.batches|
  {
    var succeeded, failed := Count(db.rows, b, Confirmed), Count(db.rows, b, Failed);
    if succeeded + failed <= db.batches[b].total
    then db.batches[b].(succeeded := succeeded, failed := failed)
    else db.batches[b]
  }

  function FinishBatch(b: Batch): Batch {
    if b.status == Open && b.succeeded + b.failed >= b.total && b.total > 0
    then b.(status := if b.failed == 0 then Completed else if b.succeeded == 0 then AllFailed else PartiallyFailed)
    else b
  }

  predicate Enabled(db: Db, e: Event) {
    match e
    case Upload(_, _) => true
    case Insert(b) => b < |db.batches| && db.batches[b].toInsert != []
    case Abort(b) => b < |db.batches|
    case Update(id, hook, row) => id !in db.webhooks && row < |db.rows| && Matches(row, db.rows[row], hook)
    case Recount(id) => id in db.webhooks && db.webhooks[id].Updated? && db.webhooks[id].batch < |db.batches|
    case Finish(id) => id in db.webhooks && db.webhooks[id].Recounted? && db.webhooks[id].batch < |db.batches|
  }

  function Step(db: Db, e: Event): Db {
    if !Enabled(db, e) then db
    else
      match e
      case Upload(records, amount) =>
        db.(batches := db.batches + [Batch(|records|, amount, 0, 0, Open, records)])
      case Insert(b) => InsertNext(db, b)
      case Abort(b) => SetTodo(db, b, [])
      case Update(id, hook, row) =>
        db.(rows := UpdateRows(db.rows, hook), webhooks := db.webhooks[id := Updated(db.rows[row].batch)])
      case Recount(id) =>
        var b := db.webhooks[id].batch;
        db.(batches := db.batches[b := RecountBatch(db, b)], webhooks := db.webhooks[id := Recounted(b)])
      case Finish(id) =>
        var b := db.webhooks[id].batch;
        db.(batches := db.batches[b := FinishBatch(db.batches[b])], webhooks := db.webhooks - {id})
  }

  function Run(db: Db, es: seq<Event>): Db {
    if es == [] then db else Step(Run(db, es[..|es| - 1]), es[|es| - 1])
  }

  lemma {:induction false} RunConcat(db: Db, es: seq<Event>, more: seq<Event>)
    ensures Run(db, es + more) == Run(Run(db, es), more)
  {
    if more == [] {
      assert es + more == es;
    } else {
      var n := |more| - 1;
      assert (es + more)[..|es| + n] == es + more[..n];
      RunConcat(db, es, more[..n]);
    }
  }

  const EMPTY := Db([], [], map[])

  // A webhook whose statements run one after the other.
  function Serve(db: Db, id: nat, hook: Webhook, row: nat): Db {
    Step(Step(Step(db, Update(id, hook, row)), Recount(id)), Finish(id))
  }

  function Served(id: nat, hook: Webhook, row: nat): seq<Event> {
    [Update(id, hook, row), Recount(id), Finish(id)]
  }

  // ---------- The source's operations ----------

  class PayoutStore {
    var batches: seq<Batch>
    var rows: seq<Recipient>
    var webhooks: map<nat, Stage>

    function State(): Db
      reads this
    {
      Db(batches, rows, webhooks)
    }

    // `persist_batch` on validated records; `stop` bounds the inserts the process lives to make.
    method PersistBatch(payouts: seq<Payout>, stop: nat) returns (ok: bool, b: nat)
      requires forall i :: 0 <= i < |payouts| ==> payouts[i].amount > 0.0
      modifies this
      ensures b == |old(batches)|
      ensures State() == InsertLoop(Step(old(State()), UploadOf(payouts)), b, stop)
      ensures ok <==> |rows| == |old(rows)| + |payouts|
    {
      b := |batches|;
      batches := batches + [Batch(|payouts|, Micros(Sum(payouts)), 0, 0, Open, RecordsOf(payouts))];
      ghost var start := State();
      var left := stop;
      while batches[b].toInsert != []
        invariant |batches| == b + 1
        invariant InsertLoop(State(), b, left) == InsertLoop(start, b, stop)
        invariant |rows| + |batches[b].toInsert| == |old(rows)| + |payouts|
        decreases |batches[b].toInsert|
      {
        var todo := batches[b].toInsert;
        if left == 0 || !Insertable(rows, b, todo[0]) {
          batches := batches[b := batches[b].(toInsert := [])];
          return false, b;
        }
        rows := rows + [NewRow(b, todo[0])];
        batches := batches[b := batches[b].(toInsert := todo[1..])];
        left := left - 1;
      }
      return true, b;
    }

    // Step 5: one UPDATE over all rows, returning some updated row.
    method UpdateRecipients(hook: Webhook) returns (found: Option<nat>)
      modifies this`rows
      ensures rows == UpdateRows(old(rows), hook)
      ensures found.Some? ==> found.value < |rows| && Matches(found.value, old(rows)[found.value], hook)
      ensures found.None? ==> rows == old(rows)
    {
      found := None;
      var updated: seq<Recipient> := [];
      for i := 0 to |rows|
        invariant rows == old(rows)
        invariant |updated| == i && forall k :: 0 <= k < i ==> updated[k] == UpdateRow(k, rows[k], hook)
        invariant found.Some? ==> found.value < i && Matches(found.value, rows[found.value], hook)
        invariant found.None? ==> updated == rows[..i]
      {
        if Matches(i, rows[i], hook) {
          found := Some(i);
        }
        updated := updated + [UpdateRow(i, rows[i], hook)];
      }
      rows := updated;
    }

    method CountStatus(b: nat, status: RecipientStatus) returns (n: nat)
      ensures n == Count(rows, b, status)
    {
      n := 0;
      for i := 0 to |rows|
        invariant n == Count(rows[..i], b, status)
      {
        assert rows[..i + 1][..i] == rows[..i];
        if rows[i].batch == b && rows[i].status == status {
          n := n + 1;
        }
      }
      assert rows[..|rows|] == rows;
    }

    // Step 7: recompute the counters, then close the batch when they cover it.
    method ReconcileParent(b: nat)
      requires b < |batches|
      modifies this`batches
      ensures batches == old(batches)[b := FinishBatch(RecountBatch(old(State()), b))]
    {
      var succeeded := CountStatus(b, Confirmed);
      var failed := CountStatus(b, Failed);
      var batch := batches[b];
      if succeeded + failed <= batch.total {
        batch := batch.(succeeded := succeeded, failed := failed);
      }
      if batch.status == Open && batch.succeeded + batch.failed >= batch.total && batch.total > 0 {
        batch := batch.(status := if batch.failed == 0 then Completed
                                  else if batch.succeeded == 0 then AllFailed
                                  else PartiallyFailed);
      }
      batches := batches[b := batch];
    }

    // Steps 5 and 7 without interruption.
    method SdpReconciliationWebhook(id: nat, hook: Webhook) returns (found: Option<nat>)
      requires id !in webhooks
      requires forall i :: 0 <= i < |rows| ==> rows[i].batch < |batches|
      modifies this
      ensures found.None? ==> State() == old(State())
      ensures found.Some? ==> Enabled(old(State()), Update(id, hook, found.value))
                              && State() == Serve(old(State()), id, hook, found.value)
    {
      ghost var s0 := State();
      found := UpdateRecipients(hook);
      if found.Some? {
        ServeEffect(s0, id, hook, found.value);
        ReconcileParent(rows[found.value].batch);
      }
    }
  }

  lemma {:induction false} RunServes(db: Db, id: nat, hook: Webhook, row: nat)
    ensures Run(db, Served(id, hook, row)) == Serve(db, id, hook, row)
  {
    var es := Served(id, hook, row);
    assert es[..2][..1] == [es[0]] && es[..2] == [es[0], es[1]] && es[..1] == [es[0]] && es[..0] == [];
    assert Run(db, es[..1]) == Step(db, es[0]);
    assert Run(db, es[..2]) == Step(Step(db, es[0]), es[1]);
  }

  // The three statements in one go.
  lemma {:induction false} ServeEffect(db: Db, id: nat, hook: Webhook, row: nat)
    requires Enabled(db, Update(id, hook, row)) && db.rows[row].batch < |db.batches|
    ensures var b := db.rows[row].batch;
            var updated := db.(rows := UpdateRows(db.rows, hook));
            Serve(db, id, hook, row)
            == updated.(batches := db.batches[b := FinishBatch(RecountBatch(updated, b))])
  {
    var b := db.rows[row].batch;
    assert db.webhooks[id := Updated(b)][id := Recounted(b)] - {id} == db.webhooks;
  }

  // Inserting until the records run out, an insert fails, or the process stops.
  function InsertLoop(db: Db, b: nat, stop: nat): Db
    requires b < |db.batches|
    decreases |db.batches[b].toInsert|
  {
    if db.batches[b].toInsert == [] then db
    else if stop == 0 then Step(db, Abort(b))
    else InsertLoop(Step(db, Insert(b)), b, stop - 1)
  }

  // ---------- Counting facts ----------

  lemma {:induction false} CountAppend(rows: seq<Recipient>, r: Recipient, b: nat, status: RecipientStatus)
    ensures CountRows(rows + [r], b) == CountRows(rows, b) + (if r.batch == b then 1 else 0)
    ensures Count(rows + [r], b, status)
            == Count(rows, b, status) + (if r.batch == b && r.status == status then 1 else 0)
  {
    assert (rows + [r])[..|rows|] == rows;
  }

  lemma {:induction false} CountWithinRows(rows: seq<Recipient>, b: nat)
    ensures Count(rows, b, Confirmed) + Count(rows, b, Failed) <= CountRows(rows, b)
  {
    if rows != [] {
      CountWithinRows(rows[..|rows| - 1], b);
    }
  }

  // Everyone is counted as confirmed or failed exactly when everyone is.
  lemma {:induction false} AllSettled(rows: seq<Recipient>, b: nat)
    ensures Count(rows, b, Confirmed) + Count(rows, b, Failed) == CountRows(rows, b)
            <==> forall i :: 0 <= i < |rows| && rows[i].batch == b ==>
                   rows[i].status == Confirmed || rows[i].status == Failed
  {
    if rows != [] {
      var n := |rows| - 1;
      AllSettled(rows[..n], b);
      CountWithinRows(rows[..n], b);
      assert forall i :: 0 <= i < n ==> rows[..n][i] == rows[i];
    }
  }

  // Updates keep rows in their batches.
  lemma {:induction false} UpdateKeepsRowCount(rows: seq<Recipient>, hook: Webhook, b: nat)
    ensures CountRows(UpdateRows(rows, hook), b) == CountRows(rows, b)
  {
    if rows != [] {
      var n := |rows| - 1;
      UpdateKeepsRowCount(rows[..n], hook, b);
      assert UpdateRows(rows, hook)[..n] == UpdateRows(rows[..n], hook);
    }
  }

  // ---------- What every interleaving keeps ----------

  ghost predicate BatchOk(db: Db, b: nat)
    requires b < |db.batches|
  {
    var batch := db.batches[b];
    && CountRows(db.rows, b) + |batch.toInsert| <= batch.total
    && batch.succeeded + batch.failed <= CountRows(db.rows, b)
    && (batch.status != Open ==> 0 < batch.total == CountRows(db.rows, b))
  }

  ghost predicate Inv(db: Db) {
    && (forall i :: 0 <= i < |db.rows| ==> db.rows[i].batch < |db.batches|)
    && (forall id :: id in db.webhooks ==> db.webhooks[id].batch < |db.batches|)
    && (forall b :: 0 <= b < |db.batches| ==> BatchOk(db, b))
  }

  lemma {:induction false} NoRows(rows: seq<Recipient>, b: nat)
    requires forall i :: 0 <= i < |rows| ==> rows[i].batch != b
    ensures CountRows(rows, b) == 0 && Count(rows, b, Confirmed) == 0 && Count(rows, b, Failed) == 0
  {
    if rows != [] {
      NoRows(rows[..|rows| - 1], b);
    }
  }

  // What an insert does to the rows and to one batch.
  lemma {:induction false} InsertEffect(db: Db, c: nat, b: nat)
    requires Enabled(db, Insert(c)) && b < |db.batches|
    ensures var t, todo := Step(db, Insert(c)), db.batches[c].toInsert;
            && b < |t.batches|
            && (b != c ==> t.batches[b] == db.batches[b])
            && if t.rows == db.rows then t.batches[c] == db.batches[c].(toInsert := [])
               else
                 && t.rows == db.rows + [NewRow(c, todo[0])]
                 && t.batches[c] == db.batches[c].(toInsert := todo[1..])
  {
  }

  lemma {:induction false} InsertKeepsBatch(db: Db, c: nat, b: nat)
    requires Enabled(db, Insert(c)) && b < |db.batches| && BatchOk(db, b) && BatchOk(db, c)
    ensures BatchOk(Step(db, Insert(c)), b)
  {
    InsertEffect(db, c, b);
    CountAppend(db.rows, NewRow(c, db.batches[c].toInsert[0]), b, Confirmed);
  }

  lemma {:induction false} StepKeepsBatch(db: Db, e: Event, b: nat)
    requires Inv(db) && Enabled(db, e) && b < |Step(db, e).batches|
    ensures BatchOk(Step(db, e), b)
  {
    assert b < |db.batches| ==> BatchOk(db, b);
    match e
    case Upload(_, _) =>
      if b == |db.batches| {
        NoRows(db.rows, b);
      }
    case Insert(c) => InsertKeepsBatch(db, c, b);
    case Abort(_) =>
    case Update(_, hook, _) => UpdateKeepsRowCount(db.rows, hook, b);
    case Recount(_) => CountWithinRows(db.rows, b);
    case Finish(_) =>
  }

  lemma {:induction false} StepKeepsInv(db: Db, e: Event)
    requires Inv(db)
    ensures Inv(Step(db, e))
  {
    if Enabled(db, e) {
      forall b | 0 <= b < |Step(db, e).batches| ensures BatchOk(Step(db, e), b) {
        StepKeepsBatch(db, e, b);
      }
    }
  }

  lemma {:induction false} RunKeepsInv(db: Db, es: seq<Event>)
    requires Inv(db)
    ensures Inv(Run(db, es))
  {
    if es != [] {
      RunKeepsInv(db, es[..|es| - 1]);
      StepKeepsInv(Run(db, es[..|es| - 1]), es[|es| - 1]);
    }
  }
}
