/** What an upload leaves in the database: which records are stored, with what in each row, when all
    are, and how the stored total relates to them. And what webhooks make of a row afterwards. */
module PayoutUploads {
  import opened Common
  import opened PayoutBatch

  // ---------- The stored rows ----------

  predicate HoldsRecord(row: Recipient, b: nat, r: Record) {
    && row.batch == b && row.destination == r.destination && row.amount == r.micros
    && row.status == Pending && row.sdpId == None
  }

  // The new rows are the first k records, in order.
  ghost predicate Stored(before: seq<Recipient>, after: seq<Recipient>, b: nat, records: seq<Record>, k: nat) {
    && k <= |records|
    && |after| == |before| + k
    && (forall i :: 0 <= i < |before| ==> after[i] == before[i])
    && (forall i :: 0 <= i < k ==> HoldsRecord(after[|before| + i], b, records[i]))
  }

  lemma {:induction false} StoredCons(
      before: seq<Recipient>, row: Recipient, after: seq<Recipient>, b: nat, records: seq<Record>, k: nat)
    requires records != [] && Stored(before + [row], after, b, records[1..], k)
    requires HoldsRecord(row, b, records[0])
    ensures Stored(before, after, b, records, k + 1)
  {
    var more := before + [row];
    forall i | 0 <= i < |before| ensures after[i] == before[i] {
      assert after[i] == more[i];
    }
    forall i | 0 <= i < k + 1 ensures HoldsRecord(after[|before| + i], b, records[i]) {
      if i == 0 {
        assert after[|before|] == more[|before|];
      } else {
        assert records[1..][i - 1] == records[i];
        assert HoldsRecord(after[|more| + (i - 1)], b, records[1..][i - 1]);
      }
    }
  }

  // Why record k was not stored: the process had stopped, or a constraint refuses it.
  ghost predicate Refused(rows: seq<Recipient>, b: nat, r: Record) {
    || r.micros <= 0
    || |r.destination| > 56
    || exists i :: 0 <= i < |rows| && rows[i].batch == b && rows[i].destination == r.destination
  }

  lemma {:induction false} LoopStores(db: Db, b: nat, stop: nat) returns (k: nat)
    requires b < |db.batches|
    ensures var t, todo := InsertLoop(db, b, stop), db.batches[b].toInsert;
            && Stored(db.rows, t.rows, b, todo, k)
            && (k < |todo| ==> k == stop || Refused(t.rows, b, todo[k]))
            && t.batches == db.batches[b := db.batches[b].(toInsert := [])] && t.webhooks == db.webhooks
    decreases |db.batches[b].toInsert|
  {
    var todo := db.batches[b].toInsert;
    if todo == [] || stop == 0 || !Insertable(db.rows, b, todo[0]) {
      k := 0;
      NothingStored(db, b, stop);
    } else {
      var next := Step(db, Insert(b));
      assert next.rows == db.rows + [NewRow(b, todo[0])] && next.batches[b].toInsert == todo[1..];
      k := LoopStores(next, b, stop - 1);
      StoredCons(db.rows, NewRow(b, todo[0]), InsertLoop(next, b, stop - 1).rows, b, todo, k);
      k := k + 1;
    }
  }

  lemma {:induction false} NothingStored(db: Db, b: nat, stop: nat)
    requires b < |db.batches|
    requires var todo := db.batches[b].toInsert; todo == [] || stop == 0 || !Insertable(db.rows, b, todo[0])
    ensures var t, todo := InsertLoop(db, b, stop), db.batches[b].toInsert;
            && t.rows == db.rows && t.webhooks == db.webhooks
            && t.batches == db.batches[b := db.batches[b].(toInsert := [])]
            && (todo != [] ==> stop == 0 || Refused(db.rows, b, todo[0]))
  {
    var todo := db.batches[b].toInsert;
    if todo == [] {
      assert db.batches[b := db.batches[b].(toInsert := [])] == db.batches;
    } else if stop != 0 {
      var next := Step(db, Insert(b));
      assert next == SetTodo(db, b, []);
      assert InsertLoop(next, b, stop - 1) == next;
    }
  }

  function Persisted(db: Db, payouts: seq<Payout>, stop: nat): Db {
    InsertLoop(Step(db, UploadOf(payouts)), |db.batches|, stop)
  }

  /** Whatever the upload, its stopping point and the refusals: afterwards there is one new open batch
      with the number of records and their rounded total, and the rows are the old ones followed by
      the first k records in order, each with its own destination and rounded amount, pending and
      without a payment id. Where k falls short, the process stopped there or the record is refused. */
  lemma {:induction false} UploadStores(db: Db, payouts: seq<Payout>, stop: nat) returns (k: nat)
    ensures var t, records := Persisted(db, payouts, stop), RecordsOf(payouts);
            && t.batches == db.batches + [Batch(|payouts|, Micros(Sum(payouts)), 0, 0, Open, [])]
            && t.webhooks == db.webhooks
            && Stored(db.rows, t.rows, |db.batches|, records, k)
            && (k < |payouts| ==> k == stop || Refused(t.rows, |db.batches|, records[k]))
  {
    k := LoopStores(Step(db, UploadOf(payouts)), |db.batches|, stop);
  }

  // ---------- Complete uploads ----------

  predicate Payable(r: Record) {
    0 < r.micros && |r.destination| <= 56
  }

  predicate Distinct(records: seq<Record>) {
    forall i, j :: 0 <= i < j < |records| ==> records[i].destination != records[j].destination
  }

  // No row of the batch has this destination yet.
  predicate Unused(rows: seq<Recipient>, b: nat, records: seq<Record>) {
    forall i, k :: 0 <= i < |rows| && rows[i].batch == b && 0 <= k < |records| ==>
      rows[i].destination != records[k].destination
  }

  predicate AllInsertable(rows: seq<Recipient>, b: nat, records: seq<Record>) {
    (forall k :: 0 <= k < |records| ==> Payable(records[k])) && Distinct(records) && Unused(rows, b, records)
  }

  lemma {:induction false} AllInsertableStep(rows: seq<Recipient>, b: nat, records: seq<Record>)
    requires records != []
    ensures AllInsertable(rows, b, records)
            <==> Insertable(rows, b, records[0]) && AllInsertable(rows + [NewRow(b, records[0])], b, records[1..])
  {
    var more := rows + [NewRow(b, records[0])];
    if Insertable(rows, b, records[0]) && AllInsertable(more, b, records[1..]) {
      assert more[|rows|].destination == records[0].destination;
      forall k | 1 <= k < |records| ensures Payable(records[k]) && records[k].destination != records[0].destination {
        assert records[1..][k - 1] == records[k];
      }
      forall i, j | 0 <= i < j < |records| ensures records[i].destination != records[j].destination {
        assert i > 0 ==> records[1..][i - 1] == records[i] && records[1..][j - 1] == records[j];
      }
      forall i, k | 0 <= i < |rows| && rows[i].batch == b && 0 <= k < |records|
        ensures rows[i].destination != records[k].destination
      {
        assert more[i] == rows[i] && (k > 0 ==> records[1..][k - 1] == records[k]);
      }
    }
    if AllInsertable(rows, b, records) {
      forall i, k | 0 <= i < |more| && more[i].batch == b && 0 <= k < |records[1..]|
        ensures more[i].destination != records[1..][k].destination
      {
        assert records[1..][k] == records[k + 1];
      }
    }
  }

  lemma {:induction false} LoopCompletes(db: Db, b: nat, stop: nat)
    requires b < |db.batches|
    ensures var todo := db.batches[b].toInsert;
            |InsertLoop(db, b, stop).rows| == |db.rows| + |todo| <==> |todo| <= stop && AllInsertable(db.rows, b, todo)
    ensures |InsertLoop(db, b, stop).rows| <= |db.rows| + |db.batches[b].toInsert|
    decreases |db.batches[b].toInsert|
  {
    var todo := db.batches[b].toInsert;
    if todo != [] && stop > 0 {
      AllInsertableStep(db.rows, b, todo);
      var next := Step(db, Insert(b));
      LoopCompletes(next, b, stop - 1);
    }
  }

  lemma {:induction false} RecordsCompleteIff(db: Db, records: seq<Record>, amount: int, stop: nat)
    requires Inv(db)
    ensures var b := |db.batches|;
            |InsertLoop(Step(db, Upload(records, amount)), b, stop).rows| == |db.rows| + |records|
            <==> |records| <= stop && Distinct(records) && forall k :: 0 <= k < |records| ==> Payable(records[k])
  {
    LoopCompletes(Step(db, Upload(records, amount)), |db.batches|, stop);
  }

  lemma {:induction false} HalfMicro(amount: real)
    ensures 0 < Micros(amount) <==> 0.5 <= amount * 1000000.0
  {
  }

  predicate FullyStored(db: Db, payouts: seq<Payout>, stop: nat) {
    |Persisted(db, payouts, stop).rows| == |db.rows| + |payouts|
  }

  /** An upload stores all its recipients if and only if the process lives to insert them, every
      destination fits and none repeats, and every amount is at least half a micro-unit. A smaller
      positive amount passes validation and leaves the batch behind, stopped early. */
  lemma {:induction false} UploadCompletesIff(db: Db, payouts: seq<Payout>, stop: nat)
    requires Inv(db)
    ensures var n := |payouts|;
            FullyStored(db, payouts, stop)
            <==> && n <= stop
                 && (forall i :: 0 <= i < n ==>
                       |payouts[i].destination| <= 56 && 0.5 <= payouts[i].amount * 1000000.0)
                 && (forall i, j :: 0 <= i < j < n ==> payouts[i].destination != payouts[j].destination)
  {
    var n, records := |payouts|, RecordsOf(payouts);
    RecordsCompleteIff(db, records, Micros(Sum(payouts)), stop);
    forall i | 0 <= i < n
      ensures Payable(records[i]) <==> |payouts[i].destination| <= 56 && 0.5 <= payouts[i].amount * 1000000.0
    {
      HalfMicro(payouts[i].amount);
    }
    if Distinct(records) {
      forall i, j | 0 <= i < j < n ensures payouts[i].destination != payouts[j].destination {
        assert records[i].destination != records[j].destination;
      }
    }
  }

  // ---------- The stored total ----------

  // SUM(amount) over the recipients of a batch.
  function RowSum(rows: seq<Recipient>, b: nat): int {
    if rows == [] then 0
    else
      var last := rows[|rows| - 1];
      RowSum(rows[..|rows| - 1], b) + (if last.batch == b then last.amount else 0)
  }

  function RecordSum(records: seq<Record>): int {
    if records == [] then 0 else RecordSum(records[..|records| - 1]) + records[|records| - 1].micros
  }

  lemma {:induction false} NoRowSum(rows: seq<Recipient>, b: nat)
    requires forall i :: 0 <= i < |rows| ==> rows[i].batch != b
    ensures RowSum(rows, b) == 0
  {
    if rows != [] {
      NoRowSum(rows[..|rows| - 1], b);
    }
  }

  lemma {:induction false} StoredSum(
      before: seq<Recipient>, after: seq<Recipient>, b: nat, records: seq<Record>, k: nat)
    requires Stored(before, after, b, records, k)
    ensures RowSum(after, b) == RowSum(before, b) + RecordSum(records[..k])
  {
    if k == 0 {
      assert after == before;
    } else {
      var n := |after| - 1;
      forall i | 0 <= i < k - 1 ensures HoldsRecord(after[..n][|before| + i], b, records[i]) {
        assert HoldsRecord(after[|before| + i], b, records[i]);
      }
      StoredSum(before, after[..n], b, records, k - 1);
      assert HoldsRecord(after[|before| + (k - 1)], b, records[k - 1]);
      assert records[..k][..k - 1] == records[..k - 1];
    }
  }

  lemma {:induction false} RecordsSnoc(payouts: seq<Payout>)
    requires payouts != []
    ensures var n := |payouts| - 1;
            RecordSum(RecordsOf(payouts)) == RecordSum(RecordsOf(payouts[..n])) + Micros(payouts[n].amount)
  {
    var n := |payouts| - 1;
    assert RecordsOf(payouts)[..n] == RecordsOf(payouts[..n]);
  }

  // The rows of a complete upload add up to its rounded amounts.
  lemma {:induction false} UploadSum(db: Db, payouts: seq<Payout>, stop: nat)
    requires Inv(db) && FullyStored(db, payouts, stop)
    ensures RowSum(Persisted(db, payouts, stop).rows, |db.batches|) == RecordSum(RecordsOf(payouts))
    ensures |db.batches| < |Persisted(db, payouts, stop).batches|
    ensures Persisted(db, payouts, stop).batches[|db.batches|].amount == Micros(Sum(payouts))
  {
    var k := UploadStores(db, payouts, stop);
    var records := RecordsOf(payouts);
    StoredSum(db.rows, Persisted(db, payouts, stop).rows, |db.batches|, records, k);
    NoRowSum(db.rows, |db.batches|);
    assert records[..k] == records;
  }

  lemma {:induction false} RecordSumNear(payouts: seq<Payout>)
    ensures var d := RecordSum(RecordsOf(payouts)) as real - Sum(payouts) * 1000000.0;
            -(|payouts| as real) <= 2.0 * d <= |payouts| as real
  {
    if payouts != [] {
      RecordSumNear(payouts[..|payouts| - 1]);
      RecordsSnoc(payouts);
    }
  }

  /** The stored batch total differs from the sum of its n stored recipient amounts by at most
      (n+1)/2 micro-units. */
  lemma {:induction false} TotalWithinRounding(db: Db, payouts: seq<Payout>, stop: nat)
    requires Inv(db) && FullyStored(db, payouts, stop)
    ensures var t, b := Persisted(db, payouts, stop), |db.batches|;
            b < |t.batches| && -(|payouts| + 1) <= 2 * (t.batches[b].amount - RowSum(t.rows, b)) <= |payouts| + 1
  {
    UploadSum(db, payouts, stop);
    RecordSumNear(payouts);
  }

  predicate SixDecimals(amount: real) {
    (amount * 1000000.0).Floor as real == amount * 1000000.0
  }

  lemma {:induction false} RoundInteger(n: int, x: real)
    requires x == n as real
    ensures Round(x) == n
  {
  }

  lemma {:induction false} RecordSumExact(payouts: seq<Payout>)
    requires forall i :: 0 <= i < |payouts| ==> SixDecimals(payouts[i].amount)
    ensures RecordSum(RecordsOf(payouts)) as real == Sum(payouts) * 1000000.0
  {
    if payouts != [] {
      var last := payouts[|payouts| - 1];
      assert SixDecimals(last.amount);
      RoundInteger((last.amount * 1000000.0).Floor, last.amount * 1000000.0);
      RecordSumExact(payouts[..|payouts| - 1]);
      RecordsSnoc(payouts);
    }
  }

  /** With at most six decimal places in every amount, the two agree exactly, and both are the exact
      sum of the uploaded amounts. */
  lemma {:induction false} TotalExact(db: Db, payouts: seq<Payout>, stop: nat)
    requires Inv(db) && FullyStored(db, payouts, stop)
    requires forall i :: 0 <= i < |payouts| ==> SixDecimals(payouts[i].amount)
    ensures var t, b := Persisted(db, payouts, stop), |db.batches|;
            && b < |t.batches| && t.batches[b].amount == RowSum(t.rows, b)
            && t.batches[b].amount as real == Sum(payouts) * 1000000.0
  {
    UploadSum(db, payouts, stop);
    RecordSumExact(payouts);
    RoundInteger(RecordSum(RecordsOf(payouts)), Sum(payouts) * 1000000.0);
  }

  // ---------- What becomes of a row ----------

  datatype Report = Report(status: RecipientStatus, sdpId: Option<string>)

  // The last status reported for recipient i, by its id or by the payment id it had then, and the last
  // payment id given with a recipient id.
  function Reported(es: seq<Event>, i: nat): Report {
    if es == [] then Report(Pending, None)
    else
      var n := |es| - 1;
      var last, db := Reported(es[..n], i), Run(EMPTY, es[..n]);
      if !es[n].Update? || !Enabled(db, es[n]) || i >= |db.rows| then last
      else
        var hook := es[n].hook;
        if hook.recipient == Some(i) || (hook.sdpId.Some? && last.sdpId == hook.sdpId)
        then Report(hook.status, if hook.recipient.Some? && hook.sdpId.Some? then hook.sdpId else last.sdpId)
        else last
  }

  lemma {:induction false} StepKeepsRow(db: Db, e: Event, i: nat)
    requires i < |db.rows|
    ensures var t := Step(db, e);
            && i < |t.rows|
            && t.rows[i].batch == db.rows[i].batch && t.rows[i].destination == db.rows[i].destination
            && t.rows[i].amount == db.rows[i].amount
            && (!e.Update? ==> t.rows[i] == db.rows[i])
  {
  }

  lemma {:induction false} NewRowsArePending(db: Db, e: Event, i: nat)
    requires |db.rows| <= i < |Step(db, e).rows|
    ensures Step(db, e).rows[i].status == Pending && Step(db, e).rows[i].sdpId == None && !e.Update?
  {
  }

  lemma {:induction false} NothingReported(es: seq<Event>, i: nat)
    requires |Run(EMPTY, es).rows| <= i
    ensures Reported(es, i) == Report(Pending, None)
  {
    if es != [] {
      var n := |es| - 1;
      var db := Run(EMPTY, es[..n]);
      if i < |db.rows| {
        StepKeepsRow(db, es[n], i);
        assert false;
      }
      NothingReported(es[..n], i);
    }
  }

  /** Over every interleaving, a recipient's row holds the last status and payment id reported for it. */
  lemma {:induction false} RowIsLastReport(es: seq<Event>, i: nat)
    requires i < |Run(EMPTY, es).rows|
    ensures var row := Run(EMPTY, es).rows[i]; Report(row.status, row.sdpId) == Reported(es, i)
  {
    var n := |es| - 1;
    var db := Run(EMPTY, es[..n]);
    if i < |db.rows| {
      RowIsLastReport(es[..n], i);
      StepKeepsRow(db, es[n], i);
    } else {
      NothingReported(es[..n], i);
      NewRowsArePending(db, es[n], i);
    }
  }

  /** And it keeps its batch, destination and amount for good. */
  lemma {:induction false} RowIsKept(db: Db, es: seq<Event>, i: nat)
    requires i < |db.rows|
    ensures var t := Run(db, es);
            && i < |t.rows|
            && t.rows[i].batch == db.rows[i].batch && t.rows[i].destination == db.rows[i].destination
            && t.rows[i].amount == db.rows[i].amount
  {
    if es != [] {
      RowIsKept(db, es[..|es| - 1], i);
      StepKeepsRow(Run(db, es[..|es| - 1]), es[|es| - 1], i);
    }
  }
}
