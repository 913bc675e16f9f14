/** The two CSV writers, the payout export and the dashboard's transaction export, against a
    quote-aware reader of section 2 of RFC 4180 with LF as the record separator. */
module CsvExport {
  import opened Common
  import opened Text

  // ---------- The reader ----------

  datatype Mode =
    | FieldStart
    | Plain
    | Quoted
    | QuoteSeen   // a quote inside a quoted field: its end, or the first half of an escaped one
    | Malformed

  datatype Reader = Reader(mode: Mode, field: string, record: seq<string>, records: seq<seq<string>>)

  const START := Reader(FieldStart, "", [], [])

  function EndField(r: Reader): Reader {
    Reader(FieldStart, "", r.record + [r.field], r.records)
  }

  function EndRecord(r: Reader): Reader {
    Reader(FieldStart, "", [], r.records + [r.record + [r.field]])
  }

  function Next(r: Reader, c: char): Reader {
    match r.mode
    case FieldStart =>
      if c == '"' then r.(mode := Quoted)
      else if c == ',' then EndField(r)
      else if c == '\n' then EndRecord(r)
      else r.(mode := Plain, field := r.field + [c])
    case Plain =>
      if c == '"' then r.(mode := Malformed)
      else if c == ',' then EndField(r)
      else if c == '\n' then EndRecord(r)
      else r.(field := r.field + [c])
    case Quoted =>
      if c == '"' then r.(mode := QuoteSeen) else r.(field := r.field + [c])
    case QuoteSeen =>
      if c == '"' then r.(mode := Quoted, field := r.field + [c])
      else if c == ',' then EndField(r)
      else if c == '\n' then EndRecord(r)
      else r.(mode := Malformed)
    case Malformed => r
  }

  function Feed(r: Reader, text: string): Reader {
    if text == "" then r else Next(Feed(r, text[..|text| - 1]), text[|text| - 1])
  }

  // A final line break is optional.
  function Finish(r: Reader): Option<seq<seq<string>>> {
    if r.mode == Malformed || r.mode == Quoted then None
    else if r.mode == FieldStart && r.record == [] then Some(r.records)
    else Some(r.records + [r.record + [r.field]])
  }

  function ReadCsv(text: string): Option<seq<seq<string>>> {
    Finish(Feed(START, text))
  }

  lemma {:induction false} FeedConcat(r: Reader, a: string, b: string)
    ensures Feed(r, a + b) == Feed(Feed(r, a), b)
  {
    if b == "" {
      assert a + b == a;
    } else {
      assert (a + b)[..|a + b| - 1] == a + b[..|b| - 1];
      FeedConcat(r, a, b[..|b| - 1]);
    }
  }

  lemma {:induction false} FeedOne(r: Reader, c: char)
    ensures Feed(r, [c]) == Next(r, c)
  {
    assert [c][..0] == "";
  }

  // ---------- Fields ----------

  // `replace('"', "\"\"")`
  function DoubleQuotes(s: string): string {
    if s == "" then ""
    else DoubleQuotes(s[..|s| - 1]) + (if s[|s| - 1] == '"' then "\"\"" else [s[|s| - 1]])
  }

  function Enquote(s: string): string {
    "\"" + DoubleQuotes(s) + "\""
  }

  predicate Special(c: char) {
    c == ',' || c == '"' || c == '\n' || c == '\r'
  }

  predicate NeedsQuotes(s: string) {
    exists i :: 0 <= i < |s| && Special(s[i])
  }

  // `csv_field`
  function CsvField(s: string): string {
    if NeedsQuotes(s) then Enquote(s) else s
  }

  lemma {:induction false} FeedEscaped(q: Reader, c: char)
    requires q.mode == Quoted
    ensures Feed(q, if c == '"' then "\"\"" else [c]) == q.(field := q.field + [c])
  {
    if c == '"' {
      assert "\"\"" == ['"'] + ['"'];
      FeedConcat(q, ['"'], ['"']);
      FeedOne(q, '"');
      FeedOne(Next(q, '"'), '"');
    } else {
      FeedOne(q, c);
    }
  }

  lemma {:induction false} FeedDoubled(r: Reader, s: string)
    requires r.mode == Quoted
    ensures Feed(r, DoubleQuotes(s)) == r.(field := r.field + s)
  {
    if s == "" {
      assert r.field + s == r.field;
    } else {
      var n := |s| - 1;
      FeedDoubled(r, s[..n]);
      FeedConcat(r, DoubleQuotes(s[..n]), if s[n] == '"' then "\"\"" else [s[n]]);
      FeedEscaped(r.(field := r.field + s[..n]), s[n]);
      assert r.field + s[..n] + [s[n]] == r.field + s;
    }
  }

  lemma {:induction false} FeedPlain(r: Reader, s: string)
    requires (r.mode == FieldStart || r.mode == Plain) && !NeedsQuotes(s)
    ensures Feed(r, s) == (if s == "" then r else r.(mode := Plain, field := r.field + s))
  {
    if s != "" {
      var n := |s| - 1;
      assert !Special(s[n]);
      assert forall i :: 0 <= i < n ==> s[..n][i] == s[i];
      FeedPlain(r, s[..n]);
      assert r.field + s[..n] + [s[n]] == r.field + s;
      assert n == 0 ==> s[..n] == "";
    }
  }

  // A written field leaves the reader with exactly that value, ready for a separator.
  ghost predicate Holds(r: Reader, before: Reader, value: string) {
    && r.mode != Malformed && r.mode != Quoted
    && r.field == value && r.record == before.record && r.records == before.records
    && (value != "" ==> r.mode != FieldStart)
  }

  lemma {:induction false} FeedEnquoted(r: Reader, s: string)
    requires r.mode == FieldStart && r.field == ""
    ensures Feed(r, Enquote(s)) == r.(mode := QuoteSeen, field := s)
  {
    var q := r.(mode := Quoted);
    FeedOne(r, '"');
    FeedConcat(r, ['"'], DoubleQuotes(s));
    FeedConcat(r, ['"'] + DoubleQuotes(s), ['"']);
    FeedDoubled(q, s);
    assert q.field + s == s;
    FeedOne(q.(field := s), '"');
    assert Enquote(s) == ['"'] + DoubleQuotes(s) + ['"'];
  }

  lemma {:induction false} FeedCsvField(r: Reader, s: string)
    requires r.mode == FieldStart && r.field == ""
    ensures Holds(Feed(r, CsvField(s)), r, s)
  {
    if NeedsQuotes(s) {
      FeedEnquoted(r, s);
    } else {
      FeedPlain(r, s);
      assert r.field + s == s;
    }
  }

  // ---------- Records ----------

  // How a list of written fields is joined by commas.
  function Join(fields: seq<string>): string {
    if fields == [] then ""
    else if |fields| == 1 then fields[0]
    else Join(fields[..|fields| - 1]) + "," + fields[|fields| - 1]
  }

  // A way to write the value.
  predicate Writes(text: string, value: string) {
    text == CsvField(value) || text == Enquote(value)
  }

  // Each text is a way to write the value next to it.
  ghost predicate Written(texts: seq<string>, values: seq<string>) {
    |texts| == |values| && forall i :: 0 <= i < |texts| ==> Writes(texts[i], values[i])
  }

  lemma {:induction false} FeedField(r: Reader, text: string, value: string)
    requires r.mode == FieldStart && r.field == "" && Writes(text, value)
    ensures Holds(Feed(r, text), r, value)
  {
    if text == CsvField(value) {
      FeedCsvField(r, value);
    } else {
      FeedEnquoted(r, value);
    }
  }

  predicate Complete(r: Reader) {
    r.mode != Malformed && r.mode != Quoted
  }

  // From r, the text reads as the values of one unfinished record.
  ghost predicate ReadsAs(r: Reader, text: string, values: seq<string>) {
    var t := Feed(r, text);
    Complete(t) && t.record + [t.field] == values && t.records == r.records
  }

  lemma {:induction false} FeedCommaField(r: Reader, prefix: string, values: seq<string>, text: string, value: string)
    requires ReadsAs(r, prefix, values) && Writes(text, value)
    ensures ReadsAs(r, prefix + "," + text, values + [value])
  {
    var t := Feed(r, prefix);
    FeedConcat(r, prefix, ",");
    FeedOne(t, ',');
    FeedConcat(r, prefix + ",", text);
    FeedField(EndField(t), text, value);
  }

  lemma {:induction false} JoinSnoc(front: seq<string>, last: string)
    requires front != []
    ensures Join(front + [last]) == Join(front) + "," + last
  {
    assert (front + [last])[..|front|] == front;
  }

  lemma {:induction false} WrittenSplit(texts: seq<string>, values: seq<string>, n: nat)
    requires Written(texts, values) && |texts| == n + 1
    ensures Written(texts[..n], values[..n])
    ensures Writes(texts[n], values[n])
    ensures texts == texts[..n] + [texts[n]] && values == values[..n] + [values[n]]
  {
    var ts, vs := texts[..n], values[..n];
    forall i | 0 <= i < n ensures Writes(ts[i], vs[i]) {
      assert ts[i] == texts[i] && vs[i] == values[i];
    }
  }

  lemma {:induction false} FeedRecord(r: Reader, texts: seq<string>, values: seq<string>)
    requires r.mode == FieldStart && r.field == "" && r.record == []
    requires texts != [] && Written(texts, values)
    ensures ReadsAs(r, Join(texts), values)
    decreases |texts|
  {
    var n := |texts| - 1;
    WrittenSplit(texts, values, n);
    if n == 0 {
      FeedField(r, texts[0], values[0]);
    } else {
      FeedRecord(r, texts[..n], values[..n]);
      FeedCommaField(r, Join(texts[..n]), values[..n], texts[n], values[n]);
      JoinSnoc(texts[..n], texts[n]);
    }
  }

  lemma {:induction false} FeedLine(r: Reader, texts: seq<string>, values: seq<string>)
    requires r.mode == FieldStart && r.field == "" && r.record == []
    requires texts != [] && Written(texts, values)
    ensures Feed(r, Join(texts) + "\n") == r.(records := r.records + [values])
  {
    FeedRecord(r, texts, values);
    FeedConcat(r, Join(texts), "\n");
    FeedOne(Feed(r, Join(texts)), '\n');
  }

  /** An exported field is written as it is if and only if it has none of the four special characters. */
  lemma {:induction false} PlainIffHarmless(s: string)
    ensures CsvField(s) == s
            <==> forall i :: 0 <= i < |s| ==> s[i] != ',' && s[i] != '"' && s[i] != '\n' && s[i] != '\r'
  {
    if NeedsQuotes(s) {
      DoubledIsLonger(s);
      var i :| 0 <= i < |s| && Special(s[i]);
      assert s[i] == ',' || s[i] == '"' || s[i] == '\n' || s[i] == '\r';
    } else {
      forall i | 0 <= i < |s| ensures !Special(s[i]) {
      }
    }
  }

  lemma {:induction false} DoubledIsLonger(s: string)
    ensures |s| <= |DoubleQuotes(s)|
  {
    if s != "" {
      DoubledIsLonger(s[..|s| - 1]);
    }
  }

  // ---------- Cells by their column's name ----------

  // Under the first record as header, this record has this value in the column of this name.
  ghost predicate Shows(records: seq<seq<string>>, i: nat, name: string, value: string) {
    && 0 < i < |records|
    && exists j :: 0 <= j < |records[0]| && j < |records[i]| && records[0][j] == name && records[i][j] == value
  }

  lemma {:induction false} ShowsAt(records: seq<seq<string>>, i: nat, j: nat)
    requires 0 < i < |records| && j < |records[0]| && j < |records[i]|
    ensures Shows(records, i, records[0][j], records[i][j])
  {
  }

  // ---------- The payout export ----------

  datatype PayoutRow = PayoutRow(recipient: Option<string>, amount: int, status: string, txHash: Option<string>)

  function OrEmpty(s: Option<string>): string {
    if s.Some? then s.value else ""
  }

  lemma {:induction false} DecimalPlain(n: int)
    ensures CsvField(Decimal(n)) == Decimal(n)
  {
    DigitsPlain(if n < 0 then -n else n);
  }

  const EXPORT_HEADER := ["recipient", "amount", "status", "tx_hash"]

  function ExportFields(row: PayoutRow): seq<string> {
    [OrEmpty(row.recipient), Decimal(row.amount), row.status, OrEmpty(row.txHash)]
  }

  function ExportRecords(rows: seq<PayoutRow>): seq<seq<string>> {
    if rows == [] then [] else ExportRecords(rows[..|rows| - 1]) + [ExportFields(rows[|rows| - 1])]
  }

  lemma {:induction false} JoinFour(a: string, b: string, c: string, d: string)
    ensures Join([a, b, c, d]) == a + "," + b + "," + c + "," + d
  {
    assert [a, b, c, d][..3] == [a, b, c] && [a, b, c][..2] == [a, b] && [a, b][..1] == [a];
    assert Join([a, b]) == a + "," + b;
    assert Join([a, b, c]) == a + "," + b + "," + c;
  }

  lemma {:induction false} PlainWritten(texts: seq<string>)
    requires forall i :: 0 <= i < |texts| ==> !NeedsQuotes(texts[i])
    ensures Written(texts, texts)
  {
    forall i | 0 <= i < |texts| ensures Writes(texts[i], texts[i]) {
    }
  }

  lemma {:induction false} ExportHeaderWritten()
    ensures Written(EXPORT_HEADER, EXPORT_HEADER)
  {
    assert !NeedsQuotes("recipient");
    assert !NeedsQuotes("amount");
    assert !NeedsQuotes("status");
    assert !NeedsQuotes("tx_hash");
    PlainWritten(EXPORT_HEADER);
  }

  const HEADER_LINE := "recipient,amount,status,tx_hash\n"

  lemma {:induction false} HeaderLineJoins()
    ensures Join(EXPORT_HEADER) + "\n" == HEADER_LINE
  {
    JoinFour("recipient", "amount", "status", "tx_hash");
  }

  lemma {:induction false} HeaderReads()
    ensures Feed(START, HEADER_LINE) == START.(records := [EXPORT_HEADER])
  {
    HeaderLineJoins();
    ExportHeaderWritten();
    FeedLine(START, EXPORT_HEADER, EXPORT_HEADER);
    assert START.records + [EXPORT_HEADER] == [EXPORT_HEADER];
  }

  // The line format of `export_batch`.
  function ExportLine(row: PayoutRow): string {
    CsvField(OrEmpty(row.recipient)) + "," + Decimal(row.amount) + ","
    + CsvField(row.status) + "," + CsvField(OrEmpty(row.txHash)) + "\n"
  }

  // Adding one row's line adds one record.
  lemma {:induction false} FeedRow(csv: string, row: PayoutRow, records: seq<seq<string>>)
    requires Feed(START, csv) == START.(records := records)
    ensures Feed(START, csv + ExportLine(row)) == START.(records := records + [ExportFields(row)])
  {
    var a, b := CsvField(OrEmpty(row.recipient)), Decimal(row.amount);
    var c, d := CsvField(row.status), CsvField(OrEmpty(row.txHash));
    DecimalPlain(row.amount);
    JoinFour(a, b, c, d);
    var line := [a, b, c, d];
    assert Written(line, ExportFields(row)) by {
      assert Writes(a, OrEmpty(row.recipient)) && Writes(b, Decimal(row.amount));
      assert Writes(c, row.status) && Writes(d, OrEmpty(row.txHash));
    }
    FeedConcat(START, csv, Join(line) + "\n");
    FeedLine(Feed(START, csv), line, ExportFields(row));
  }

  lemma {:induction false} ExportSnoc(rows: seq<PayoutRow>, i: nat)
    requires i < |rows|
    ensures [EXPORT_HEADER] + ExportRecords(rows[..i + 1])
            == [EXPORT_HEADER] + ExportRecords(rows[..i]) + [ExportFields(rows[i])]
  {
    assert rows[..i + 1][..i] == rows[..i];
  }

  // Record i of the table is this recipient's, by the header's names; missing values are empty.
  ghost predicate ShowsPayout(records: seq<seq<string>>, i: nat, row: PayoutRow) {
    && Shows(records, i, "recipient", match row.recipient case Some(r) => r case None => "")
    && Shows(records, i, "amount", Decimal(row.amount))
    && Shows(records, i, "status", row.status)
    && Shows(records, i, "tx_hash", match row.txHash case Some(h) => h case None => "")
  }

  lemma {:induction false} ExportedRecord(rows: seq<PayoutRow>, i: nat)
    requires i < |rows|
    ensures |ExportRecords(rows)| == |rows| && ExportRecords(rows)[i] == ExportFields(rows[i])
  {
    var n := |rows| - 1;
    ExportSize(rows);
    ExportSize(rows[..n]);
    if i < n {
      ExportedRecord(rows[..n], i);
    }
  }

  lemma {:induction false} ExportShows(rows: seq<PayoutRow>, i: nat)
    requires i < |rows|
    ensures ShowsPayout([EXPORT_HEADER] + ExportRecords(rows), i + 1, rows[i])
  {
    ExportedRecord(rows, i);
    var records := [EXPORT_HEADER] + ExportRecords(rows);
    assert records[0] == EXPORT_HEADER && records[i + 1] == ExportFields(rows[i]);
    ShowsAt(records, i + 1, 0);
    ShowsAt(records, i + 1, 1);
    ShowsAt(records, i + 1, 2);
    ShowsAt(records, i + 1, 3);
  }

  /** `export_batch`: reading the exported text returns the four named columns and, recipient by
      recipient in order, exactly their values, for arbitrary recipients, statuses and hashes. */
  method ExportBatch(rows: seq<PayoutRow>) returns (csv: string)
    ensures ReadCsv(csv).Some?
    ensures var records := ReadCsv(csv).value;
            && |records| == |rows| + 1
            && records[0] == ["recipient", "amount", "status", "tx_hash"]
            && forall i :: 0 <= i < |rows| ==> ShowsPayout(records, i + 1, rows[i])
  {
    csv := HEADER_LINE;
    HeaderReads();
    for i := 0 to |rows|
      invariant Feed(START, csv) == START.(records := [EXPORT_HEADER] + ExportRecords(rows[..i]))
    {
      FeedRow(csv, rows[i], [EXPORT_HEADER] + ExportRecords(rows[..i]));
      ExportSnoc(rows, i);
      csv := csv + ExportLine(rows[i]);
    }
    assert rows[..|rows|] == rows;
    ExportSize(rows);
    forall i | 0 <= i < |rows| ensures ShowsPayout([EXPORT_HEADER] + ExportRecords(rows), i + 1, rows[i]) {
      ExportShows(rows, i);
    }
  }

  lemma {:induction false} ExportSize(rows: seq<PayoutRow>)
    ensures |ExportRecords(rows)| == |rows|
  {
    if rows != [] {
      ExportSize(rows[..|rows| - 1]);
    }
  }

  // ---------- The dashboard export ----------

  // A transaction with its values converted by `String(v)`.
  datatype Transaction = Transaction(
    id: string, createdAt: string, fromAddress: string, sendAsset: string, sendAmount: string,
    receiveAmount: Option<string>, status: string, memo: Option<string>)

  const DASHBOARD_HEADER :=
    ["id", "created_at", "from_address", "send_asset", "send_amount", "receive_amount", "status", "memo"]

  function EnquoteAll(values: seq<string>): seq<string> {
    seq(|values|, i requires 0 <= i < |values| => Enquote(values[i]))
  }

  function JoinLines(lines: seq<string>): string {
    if lines == [] then ""
    else if |lines| == 1 then lines[0]
    else JoinLines(lines[..|lines| - 1]) + "\n" + lines[|lines| - 1]
  }

  function CsvLines(rows: seq<seq<string>>): seq<string> {
    [Join(DASHBOARD_HEADER)] + seq(|rows|, i requires 0 <= i < |rows| => Join(EnquoteAll(rows[i])))
  }

  function ToCsv(rows: seq<seq<string>>): string {
    JoinLines(CsvLines(rows))
  }

  // The reader after a text without a final line break: all but the last record are complete.
  ghost predicate EndsWith(r: Reader, records: seq<seq<string>>) {
    && records != [] && r.mode != Malformed && r.mode != Quoted
    && r.records + [r.record + [r.field]] == records
    && (r.mode == FieldStart ==> r.record != [])
  }

  lemma {:induction false} RecordEnds(r: Reader, texts: seq<string>, values: seq<string>)
    requires r.mode == FieldStart && r.field == "" && r.record == []
    requires |texts| > 1 && Written(texts, values)
    ensures EndsWith(Feed(r, Join(texts)), r.records + [values])
  {
    FeedRecord(r, texts, values);
  }

  lemma {:induction false} DashboardHeaderWritten()
    ensures Written(DASHBOARD_HEADER, DASHBOARD_HEADER)
  {
    assert !NeedsQuotes("id");
    assert !NeedsQuotes("created_at");
    assert !NeedsQuotes("from_address");
    assert !NeedsQuotes("send_asset");
    assert !NeedsQuotes("send_amount");
    assert !NeedsQuotes("receive_amount");
    assert !NeedsQuotes("status");
    assert !NeedsQuotes("memo");
    PlainWritten(DASHBOARD_HEADER);
  }

  lemma {:induction false} HeaderRead()
    ensures EndsWith(Feed(START, Join(DASHBOARD_HEADER)), [DASHBOARD_HEADER])
  {
    DashboardHeaderWritten();
    RecordEnds(START, DASHBOARD_HEADER, DASHBOARD_HEADER);
  }

  // One more line after a text that ends in a complete record.
  lemma {:induction false} LineRead(before: string, records: seq<seq<string>>, row: seq<string>)
    requires EndsWith(Feed(START, before), records) && |row| == 8
    ensures EndsWith(Feed(START, before + "\n" + Join(EnquoteAll(row))), records + [row])
  {
    var r, last := Feed(START, before), EnquoteAll(row);
    FeedConcat(START, before, "\n");
    FeedOne(r, '\n');
    FeedConcat(START, before + "\n", Join(last));
    RecordEnds(EndRecord(r), last, row);
  }

  lemma {:induction false} CsvSnoc(rows: seq<seq<string>>, row: seq<string>)
    ensures ToCsv(rows + [row]) == ToCsv(rows) + "\n" + Join(EnquoteAll(row))
  {
    var lines := CsvLines(rows + [row]);
    assert lines[..|lines| - 1] == CsvLines(rows) && lines[|lines| - 1] == Join(EnquoteAll(row));
  }

  lemma {:induction false} LinesRead(rows: seq<seq<string>>)
    requires forall i :: 0 <= i < |rows| ==> |rows[i]| == 8
    ensures EndsWith(Feed(START, ToCsv(rows)), [DASHBOARD_HEADER] + rows)
  {
    if rows == [] {
      HeaderRead();
      assert CsvLines(rows) == [Join(DASHBOARD_HEADER)];
      assert [DASHBOARD_HEADER] + rows == [DASHBOARD_HEADER];
    } else {
      var front, row := rows[..|rows| - 1], rows[|rows| - 1];
      assert rows == front + [row];
      LinesRead(front);
      LineRead(ToCsv(front), [DASHBOARD_HEADER] + front, row);
      CsvSnoc(front, row);
      assert [DASHBOARD_HEADER] + rows == [DASHBOARD_HEADER] + front + [row];
    }
  }

  function CellsOf(t: Transaction): seq<string> {
    [t.id, t.createdAt, t.fromAddress, t.sendAsset, t.sendAmount, OrEmpty(t.receiveAmount), t.status, OrEmpty(t.memo)]
  }

  function Quotes(s: string): nat {
    if s == "" then 0 else Quotes(s[..|s| - 1]) + (if s[|s| - 1] == '"' then 1 else 0)
  }

  lemma {:induction false} DoubledLength(s: string)
    ensures |DoubleQuotes(s)| == |s| + Quotes(s)
  {
    if s != "" {
      DoubledLength(s[..|s| - 1]);
    }
  }

  /** Every cell of the dashboard export is quoted, also a plain one: its text is longer by the two
      enclosing quotes and by one for each quote inside. */
  lemma {:induction false} EveryCellQuoted(values: seq<string>, i: nat)
    requires i < |values|
    ensures var text := EnquoteAll(values)[i];
            && |text| == |values[i]| + Quotes(values[i]) + 2
            && text[0] == text[|text| - 1] == '"'
  {
    DoubledLength(values[i]);
  }

  // `toCSV`
  function TransactionsCsv(ts: seq<Transaction>): string {
    ToCsv(seq(|ts|, i requires 0 <= i < |ts| => CellsOf(ts[i])))
  }

  ghost predicate ShowsTransaction(records: seq<seq<string>>, i: nat, t: Transaction) {
    && Shows(records, i, "id", t.id)
    && Shows(records, i, "created_at", t.createdAt)
    && Shows(records, i, "from_address", t.fromAddress)
    && Shows(records, i, "send_asset", t.sendAsset)
    && Shows(records, i, "send_amount", t.sendAmount)
    && Shows(records, i, "receive_amount", match t.receiveAmount case Some(a) => a case None => "")
    && Shows(records, i, "status", t.status)
    && Shows(records, i, "memo", match t.memo case Some(m) => m case None => "")
  }

  lemma {:induction false} CellsShow(records: seq<seq<string>>, i: nat, t: Transaction)
    requires 0 < i < |records| && records[0] == DASHBOARD_HEADER && records[i] == CellsOf(t)
    ensures ShowsTransaction(records, i, t)
  {
    ShowsAt(records, i, 0);
    ShowsAt(records, i, 1);
    ShowsAt(records, i, 2);
    ShowsAt(records, i, 3);
    ShowsAt(records, i, 4);
    ShowsAt(records, i, 5);
    ShowsAt(records, i, 6);
    ShowsAt(records, i, 7);
  }

  /** `toCSV`: reading its text returns the eight named columns and, transaction by transaction in order,
      exactly their values, for arbitrary strings including commas, quotes and line breaks. */
  lemma {:induction false} TransactionsRead(ts: seq<Transaction>)
    ensures ReadCsv(TransactionsCsv(ts)).Some?
    ensures var records := ReadCsv(TransactionsCsv(ts)).value;
            |records| == |ts| + 1 && forall i :: 0 <= i < |ts| ==> ShowsTransaction(records, i + 1, ts[i])
  {
    var rows := seq(|ts|, i requires 0 <= i < |ts| => CellsOf(ts[i]));
    ToCsvReads(rows);
    var records := [DASHBOARD_HEADER] + rows;
    forall i | 0 <= i < |ts| ensures ShowsTransaction(records, i + 1, ts[i]) {
      assert records[i + 1] == rows[i];
      CellsShow(records, i + 1, ts[i]);
    }
  }

  lemma {:induction false} ToCsvReads(rows: seq<seq<string>>)
    requires forall i :: 0 <= i < |rows| ==> |rows[i]| == 8
    ensures ReadCsv(ToCsv(rows)) == Some([DASHBOARD_HEADER] + rows)
  {
    LinesRead(rows);
  }
}
