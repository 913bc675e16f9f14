/** The payout upload's CSV reader: header row in any order, rows split at the leading commas. */
module CsvUpload {
  import opened Common
  import opened Text

  datatype PayoutRecord = PayoutRecord(destination: string, amount: string, memo: Option<string>)

  datatype CsvError = NotUtf8 | EmptyFile | MissingDestination | MissingAmount

  // ---------- String operations ----------

  // First index of a character, or the length.
  function IndexOf(s: string, c: char): (i: nat)
    ensures i <= |s| && (i < |s| ==> s[i] == c) && (forall k :: 0 <= k < i ==> s[k] != c)
  {
    if s == "" || s[0] == c then 0 else 1 + IndexOf(s[1..], c)
  }

  // `str::lines`: a line break ends a line, and a carriage return before it is dropped.
  function Lines(text: string): seq<string>
    decreases |text|
  {
    if text == "" then []
    else
      var i := IndexOf(text, '\n');
      if i == |text| then [text] else [StripCr(text[..i])] + Lines(text[i + 1..])
  }

  function StripCr(line: string): string {
    if line != "" && line[|line| - 1] == '\r' then line[..|line| - 1] else line
  }

  // `splitn(n, ',')`: at most n parts, the last one holding the rest.
  function SplitN(s: string, n: nat): seq<string>
    requires n > 0
    decreases n
  {
    var i := IndexOf(s, ',');
    if n == 1 || i == |s| then [s] else [s[..i]] + SplitN(s[i + 1..], n - 1)
  }

  // `split(',')`
  function Split(s: string): seq<string> {
    SplitN(s, |s| + 1)
  }

  // Unicode White_Space.
  predicate IsSpace(c: char) {
    var n := c as int;
    || 0x09 <= n <= 0x0D || n == 0x20 || n == 0x85 || n == 0xA0 || n == 0x1680
    || 0x2000 <= n <= 0x200A || n == 0x2028 || n == 0x2029 || n == 0x202F || n == 0x205F || n == 0x3000
  }

  function TrimStart(s: string): string {
    if s != "" && IsSpace(s[0]) then TrimStart(s[1..]) else s
  }

  function TrimEnd(s: string): string {
    if s != "" && IsSpace(s[|s| - 1]) then TrimEnd(s[..|s| - 1]) else s
  }

  function Trim(s: string): string {
    TrimEnd(TrimStart(s))
  }

  // The first column whose lower-cased header is `name`.
  function Position(headers: seq<string>, name: string): (p: Option<nat>)
    ensures p.Some? ==> p.value < |headers| && Lower(headers[p.value]) == name
  {
    if headers == [] then None
    else if Lower(headers[0]) == name then Some(0)
    else
      match Position(headers[1..], name)
      case Some(i) => Some(i + 1)
      case None => None
  }

  // ---------- The reader ----------

  function TrimAll(parts: seq<string>): seq<string> {
    seq(|parts|, i requires 0 <= i < |parts| => Trim(parts[i]))
  }

  datatype Columns = Columns(count: nat, destination: nat, amount: nat, memo: Option<nat>)

  function Cell(cols: seq<string>, i: nat): string {
    if i < |cols| then Trim(cols[i]) else ""
  }

  function RecordOf(c: Columns, cols: seq<string>): PayoutRecord {
    PayoutRecord(
      Cell(cols, c.destination),
      Cell(cols, c.amount),
      if c.memo.Some? && Cell(cols, c.memo.value) != "" then Some(Cell(cols, c.memo.value)) else None)
  }

  function RecordsOf(c: Columns, lines: seq<string>): seq<PayoutRecord>
    requires c.count > 0
  {
    if lines == [] then []
    else
      var n := |lines| - 1;
      RecordsOf(c, lines[..n])
      + (if Trim(lines[n]) == "" then [] else [RecordOf(c, SplitN(Trim(lines[n]), c.count))])
  }

  function ColumnsOf(headers: seq<string>): Result<Columns, CsvError> {
    match Position(headers, "destination")
    case None => Err(MissingDestination)
    case Some(d) =>
      match Position(headers, "amount")
      case None => Err(MissingAmount)
      case Some(a) => Ok(Columns(|headers|, d, a, Position(headers, "memo")))
  }

  function Parsed(text: Option<string>): Result<seq<PayoutRecord>, CsvError> {
    if text.None? then Err(NotUtf8)
    else
      var lines := Lines(text.value);
      if lines == [] then Err(EmptyFile)
      else
        match ColumnsOf(TrimAll(Split(lines[0])))
        case Err(e) => Err(e)
        case Ok(c) => Ok(RecordsOf(c, lines[1..]))
  }

  // `text` is the upload decoded as UTF-8, if it is UTF-8.
  method ParseCsv(text: Option<string>) returns (r: Result<seq<PayoutRecord>, CsvError>)
    ensures r == Parsed(text)
  {
    if text.None? {
      return Err(NotUtf8);
    }
    var lines := Lines(text.value);
    if lines == [] {
      return Err(EmptyFile);
    }
    var headers := TrimAll(Split(lines[0]));
    var dest := Position(headers, "destination");
    if dest.None? {
      return Err(MissingDestination);
    }
    var amount := Position(headers, "amount");
    if amount.None? {
      return Err(MissingAmount);
    }
    var memo := Position(headers, "memo");
    ghost var c := Columns(|headers|, dest.value, amount.value, memo);
    var rest := lines[1..];
    var records: seq<PayoutRecord> := [];
    for i := 0 to |rest|
      invariant records == RecordsOf(c, rest[..i])
    {
      assert rest[..i + 1][..i] == rest[..i];
      var line := Trim(rest[i]);
      if line == "" {
        continue;
      }
      var cols := SplitN(line, |headers|);
      var memoCell := if memo.Some? then Cell(cols, memo.value) else "";
      records := records + [PayoutRecord(Cell(cols, dest.value), Cell(cols, amount.value),
                                         if memoCell != "" then Some(memoCell) else None)];
    }
    assert rest[..|rest|] == rest;
    return Ok(records);
  }

  // ---------- Which columns the header names ----------

  // The first header with this name, whatever its letter case.
  ghost predicate FirstNamed(headers: seq<string>, name: string, i: nat) {
    i < |headers| && Lower(headers[i]) == name && forall j :: 0 <= j < i ==> Lower(headers[j]) != name
  }

  ghost predicate Unnamed(headers: seq<string>, name: string) {
    forall i :: 0 <= i < |headers| ==> Lower(headers[i]) != name
  }

  lemma {:induction false} PositionIsFirst(headers: seq<string>, name: string)
    ensures match Position(headers, name)
            case Some(i) => FirstNamed(headers, name, i)
            case None => Unnamed(headers, name)
  {
    if headers != [] && Lower(headers[0]) != name {
      PositionIsFirst(headers[1..], name);
      assert forall i :: 1 <= i < |headers| ==> headers[i] == headers[1..][i - 1];
    }
  }

  // These are the columns of the header.
  ghost predicate Names(headers: seq<string>, c: Columns) {
    && c.count == |headers|
    && FirstNamed(headers, "destination", c.destination)
    && FirstNamed(headers, "amount", c.amount)
    && match c.memo case Some(m) => FirstNamed(headers, "memo", m) case None => Unnamed(headers, "memo")
  }

  /** The reader takes the first destination, amount and memo columns, wherever they are, and refuses a
      header without a destination or without an amount. */
  lemma {:induction false} ColumnsAreNamed(headers: seq<string>)
    ensures match ColumnsOf(headers)
            case Ok(c) => Names(headers, c)
            case Err(e) =>
              if Unnamed(headers, "destination") then e == MissingDestination
              else e == MissingAmount && Unnamed(headers, "amount")
  {
    PositionIsFirst(headers, "destination");
    PositionIsFirst(headers, "amount");
    PositionIsFirst(headers, "memo");
  }

  lemma {:induction false} NamesDecide(headers: seq<string>, c: Columns)
    requires Names(headers, c)
    ensures ColumnsOf(headers) == Ok(c)
  {
    ColumnsAreNamed(headers);
  }
}
