/** The upload reader undoes plain comma-joined writing: rows of cells with any white space around them,
    any column order, short rows, blank lines, either line ending, with or without the last one. */
module CsvUploadInverse {
  import opened Common
  import opened Text
  import opened CsvUpload

  predicate Free(s: string, c: char) {
    forall i :: 0 <= i < |s| ==> s[i] != c
  }

  predicate White(s: string) {
    forall i :: 0 <= i < |s| ==> IsSpace(s[i])
  }

  predicate Trimmed(s: string) {
    s != "" ==> !IsSpace(s[0]) && !IsSpace(s[|s| - 1])
  }

  // ---------- Trimming ----------

  lemma {:induction false} StartDrops(p: string, s: string)
    requires White(p)
    ensures TrimStart(p + s) == TrimStart(s)
  {
    if p == "" {
      assert p + s == s;
    } else {
      assert (p + s)[1..] == p[1..] + s;
      StartDrops(p[1..], s);
    }
  }

  lemma {:induction false} EndDrops(s: string, q: string)
    requires White(q)
    ensures TrimEnd(s + q) == TrimEnd(s)
  {
    if q == "" {
      assert s + q == s;
    } else {
      var n := |q| - 1;
      assert (s + q)[..|s| + n] == s + q[..n];
      EndDrops(s, q[..n]);
    }
  }

  lemma {:induction false} WhiteStarts(q: string)
    requires White(q)
    ensures TrimStart(q) == ""
  {
    StartDrops(q, "");
    assert q + "" == q;
  }

  /** Trimming takes exactly the white space around a trimmed text. */
  lemma {:induction false} TrimPadded(p: string, s: string, q: string)
    requires White(p) && White(q) && Trimmed(s)
    ensures Trim(p + s + q) == s
  {
    assert p + s + q == p + (s + q);
    StartDrops(p, s + q);
    if s == "" {
      assert s + q == q;
      WhiteStarts(q);
    } else {
      assert (s + q)[0] == s[0];
      EndDrops(s, q);
    }
  }

  // ---------- Rows as they are written ----------

  // A cell with white space before and after it.
  datatype Padded = Padded(left: string, cell: string, right: string)

  function TextOf(p: Padded): string {
    p.left + p.cell + p.right
  }

  predicate PaddedOk(p: Padded) {
    White(p.left) && White(p.right) && Trimmed(p.cell) && Free(TextOf(p), '\n')
  }

  // Only the last cell may contain commas, and only if that is allowed.
  predicate RowOk(row: seq<Padded>, commasInLast: bool) {
    && row != []
    && (forall i :: 0 <= i < |row| ==> PaddedOk(row[i]))
    && (forall i :: 0 <= i < |row| && (i < |row| - 1 || !commasInLast) ==> Free(row[i].cell, ','))
  }

  function Texts(row: seq<Padded>): seq<string> {
    seq(|row|, i requires 0 <= i < |row| => TextOf(row[i]))
  }

  function CellsOf(row: seq<Padded>): seq<string> {
    seq(|row|, i requires 0 <= i < |row| => row[i].cell)
  }

  function Joined(fields: seq<string>): string {
    if fields == [] then ""
    else if |fields| == 1 then fields[0]
    else fields[0] + "," + Joined(fields[1..])
  }

  lemma {:induction false} JoinedCons(head: string, tail: seq<string>)
    requires tail != []
    ensures Joined([head] + tail) == head + "," + Joined(tail)
  {
    assert ([head] + tail)[1..] == tail;
  }

  lemma {:induction false} JoinedSnoc(front: seq<string>, last: string)
    requires front != []
    ensures Joined(front + [last]) == Joined(front) + "," + last
  {
    var all := front + [last];
    if |front| == 1 {
      assert all[1..] == [last];
    } else {
      assert all[1..] == front[1..] + [last];
      JoinedSnoc(front[1..], last);
    }
  }

  // ---------- Splitting ----------

  predicate NoCommas(fields: seq<string>, commasInLast: bool) {
    forall i :: 0 <= i < |fields| && (i < |fields| - 1 || !commasInLast) ==> Free(fields[i], ',')
  }

  lemma {:induction false} IndexAfter(a: string, c: char, b: string)
    requires Free(a, c)
    ensures IndexOf(a + [c] + b, c) == |a|
  {
    var s := a + [c] + b;
    assert s[|a|] == c;
    assert forall k :: 0 <= k < |a| ==> s[k] == a[k];
  }

  lemma {:induction false} SplitStep(a: string, rest: string, n: nat)
    requires Free(a, ',') && 1 < n
    ensures SplitN(a + "," + rest, n) == [a] + SplitN(rest, n - 1)
  {
    var s := a + [','] + rest;
    IndexAfter(a, ',', rest);
    assert s == a + "," + rest && s[..|a|] == a && s[|a| + 1..] == rest;
  }

  lemma {:induction false} SplitOne(s: string, n: nat)
    requires 0 < n && (n == 1 || Free(s, ','))
    ensures SplitN(s, n) == [s]
  {
    assert Free(s, ',') ==> IndexOf(s, ',') == |s|;
  }

  lemma {:induction false} SplitCons(head: string, tail: seq<string>, n: nat)
    requires tail != [] && Free(head, ',') && 1 < n
    ensures SplitN(Joined([head] + tail), n) == [head] + SplitN(Joined(tail), n - 1)
  {
    JoinedCons(head, tail);
    SplitStep(head, Joined(tail), n);
  }

  lemma {:induction false} TailNoCommas(head: string, tail: seq<string>, commasInLast: bool)
    requires tail != [] && NoCommas([head] + tail, commasInLast)
    ensures Free(head, ',') && NoCommas(tail, commasInLast)
  {
    var all := [head] + tail;
    assert all[0] == head;
    forall i | 0 <= i < |tail| && (i < |tail| - 1 || !commasInLast) ensures Free(tail[i], ',') {
      assert all[i + 1] == tail[i];
    }
  }

  ghost predicate SplitsBack(fields: seq<string>, n: nat) {
    0 < n && SplitN(Joined(fields), n) == fields
  }

  lemma {:induction false} SplitsBackCons(head: string, tail: seq<string>, n: nat)
    requires tail != [] && Free(head, ',') && 1 < n && SplitsBack(tail, n - 1)
    ensures SplitsBack([head] + tail, n)
  {
    SplitCons(head, tail, n);
  }

  lemma {:induction false} SplitsBackOne(s: string, n: nat)
    requires 0 < n && (n == 1 || Free(s, ','))
    ensures SplitsBack([s], n)
  {
    SplitOne(s, n);
  }

  // Splitting into as many parts as there are fields gives them back; so does splitting into
  // more, when the last field has no comma either.
  lemma {:induction false} SplitJoined(fields: seq<string>, commasInLast: bool, n: nat)
    requires fields != [] && NoCommas(fields, commasInLast)
    requires |fields| <= n && (commasInLast ==> n == |fields|)
    ensures SplitsBack(fields, n)
    decreases |fields|
  {
    var head, tail := fields[0], fields[1..];
    if tail == [] {
      SplitsBackOne(head, n);
      assert fields == [head];
    } else {
      assert fields == [head] + tail;
      TailNoCommas(head, tail, commasInLast);
      SplitJoined(tail, commasInLast, n - 1);
      SplitsBackCons(head, tail, n);
    }
  }

  // ---------- A row's text, trimmed ----------

  // Same text and cell, all the white space of an empty cell on one side.
  function WhiteLeft(p: Padded): Padded {
    if p.cell == "" then Padded(p.left + p.right, "", "") else p
  }

  function WhiteRight(p: Padded): Padded {
    if p.cell == "" then Padded("", "", p.left + p.right) else p
  }

  // White space of empty cells at either end belongs to the outside.
  predicate Normal(row: seq<Padded>)
    requires row != []
  {
    && (row[0].cell == "" ==> row[0].right == "")
    && (row[|row| - 1].cell == "" ==> row[|row| - 1].left == "")
    && (|row| == 1 ==> row[0].cell != "")
  }

  function Normalized(row: seq<Padded>): seq<Padded>
    requires row != []
  {
    if |row| == 1 then row
    else [WhiteLeft(row[0])] + row[1..|row| - 1] + [WhiteRight(row[|row| - 1])]
  }

  lemma {:induction false} SamePadded(p: Padded)
    requires PaddedOk(p)
    ensures PaddedOk(WhiteLeft(p)) && TextOf(WhiteLeft(p)) == TextOf(p) && WhiteLeft(p).cell == p.cell
    ensures PaddedOk(WhiteRight(p)) && TextOf(WhiteRight(p)) == TextOf(p) && WhiteRight(p).cell == p.cell
  {
    if p.cell == "" {
      var white := p.left + p.right;
      assert TextOf(p) == white && white + "" + "" == white && "" + "" + white == white;
    }
  }

  lemma {:induction false} NormalizedAt(row: seq<Padded>, commasInLast: bool, i: nat)
    requires RowOk(row, commasInLast) && i < |row|
    ensures |Normalized(row)| == |row|
    ensures var p := Normalized(row)[i]; PaddedOk(p) && TextOf(p) == TextOf(row[i]) && p.cell == row[i].cell
  {
    assert PaddedOk(row[i]);
    SamePadded(row[i]);
    var other, n := Normalized(row), |row| - 1;
    if n > 0 {
      assert other[0] == WhiteLeft(row[0]) && other[n] == WhiteRight(row[n]);
      assert 0 < i < n ==> other[i] == row[1..n][i - 1] == row[i];
    }
  }

  lemma {:induction false} NormalizedSame(row: seq<Padded>, commasInLast: bool)
    requires RowOk(row, commasInLast) && (|row| > 1 || row[0].cell != "")
    ensures RowOk(Normalized(row), commasInLast) && Normal(Normalized(row))
    ensures |Normalized(row)| == |row|
    ensures Texts(Normalized(row)) == Texts(row) && CellsOf(Normalized(row)) == CellsOf(row)
  {
    var other := Normalized(row);
    forall i | 0 <= i < |row|
      ensures PaddedOk(other[i]) && TextOf(other[i]) == TextOf(row[i]) && other[i].cell == row[i].cell
    {
      NormalizedAt(row, commasInLast, i);
    }
  }

  // A cell's text without the white space outside the row.
  function Inside(row: seq<Padded>, i: nat): string
    requires i < |row|
  {
    (if i == 0 then "" else row[i].left) + row[i].cell + (if i == |row| - 1 then "" else row[i].right)
  }

  function Insides(row: seq<Padded>): seq<string> {
    seq(|row|, i requires 0 <= i < |row| => Inside(row, i))
  }

  lemma {:induction false} JoinedLeft(p: string, a: string, rest: seq<string>)
    ensures Joined([p + a] + rest) == p + Joined([a] + rest)
  {
    if rest != [] {
      JoinedCons(p + a, rest);
      JoinedCons(a, rest);
    }
  }

  lemma {:induction false} JoinedRight(front: seq<string>, b: string, q: string)
    ensures Joined(front + [b + q]) == Joined(front + [b]) + q
  {
    if front == [] {
      assert front + [b + q] == [b + q] && front + [b] == [b];
    } else {
      JoinedSnoc(front, b + q);
      JoinedSnoc(front, b);
    }
  }

  lemma {:induction false} JoinedOuter(p: string, a: string, mid: seq<string>, b: string, q: string)
    ensures Joined([p + a] + mid + [b + q]) == p + Joined([a] + mid + [b]) + q
  {
    JoinedRight([p + a] + mid, b, q);
    JoinedLeft(p, a, mid + [b]);
    assert [p + a] + mid + [b] == [p + a] + (mid + [b]) && [a] + mid + [b] == [a] + (mid + [b]);
  }

  lemma {:induction false} RowParts(row: seq<Padded>)
    requires |row| > 1
    ensures var n := |row| - 1;
            var a, mid, b := row[0].cell + row[0].right, Texts(row[1..n]), row[n].left + row[n].cell;
            && Texts(row) == [row[0].left + a] + mid + [b + row[n].right]
            && Insides(row) == [a] + mid + [b]
  {
    var n := |row| - 1;
    var a, mid, b := row[0].cell + row[0].right, Texts(row[1..n]), row[n].left + row[n].cell;
    var texts, insides := Texts(row), Insides(row);
    var texts', insides' := [row[0].left + a] + mid + [b + row[n].right], [a] + mid + [b];
    assert |texts| == |texts'| == |insides| == |insides'| == n + 1;
    forall i | 0 <= i <= n ensures texts[i] == texts'[i] && insides[i] == insides'[i] {
      if 0 < i < n {
        assert texts'[i] == mid[i - 1] == TextOf(row[i]) && insides'[i] == mid[i - 1];
      }
    }
  }

  // The row's text is what is inside, with the outer white space around it.
  lemma {:induction false} RowText(row: seq<Padded>)
    requires row != []
    ensures Joined(Texts(row)) == row[0].left + Joined(Insides(row)) + row[|row| - 1].right
  {
    var n := |row| - 1;
    if n == 0 {
      assert Insides(row)[0] == row[0].cell;
    } else {
      RowParts(row);
      JoinedOuter(row[0].left, row[0].cell + row[0].right, Texts(row[1..n]), row[n].left + row[n].cell, row[n].right);
    }
  }

  lemma {:induction false} JoinedStarts(head: string, tail: seq<string>)
    requires tail != [] && (head != "" ==> !IsSpace(head[0]))
    ensures var text := Joined([head] + tail); text != "" && !IsSpace(text[0])
  {
    JoinedCons(head, tail);
    assert (head + "," + Joined(tail))[0] == if head == "" then ',' else head[0];
  }

  lemma {:induction false} JoinedEnds(front: seq<string>, last: string)
    requires front != [] && (last != "" ==> !IsSpace(last[|last| - 1]))
    ensures var text := Joined(front + [last]); text != "" && !IsSpace(text[|text| - 1])
  {
    JoinedSnoc(front, last);
    var text := Joined(front) + "," + last;
    assert text[|text| - 1] == if last == "" then ',' else last[|last| - 1];
  }

  lemma {:induction false} FirstInside(row: seq<Padded>, commasInLast: bool)
    requires RowOk(row, commasInLast) && Normal(row) && |row| > 1
    ensures Inside(row, 0) != "" ==> !IsSpace(Inside(row, 0)[0])
  {
    assert PaddedOk(row[0]);
    assert Inside(row, 0) == row[0].cell + row[0].right;
  }

  lemma {:induction false} LastInside(row: seq<Padded>, commasInLast: bool)
    requires RowOk(row, commasInLast) && Normal(row) && |row| > 1
    ensures var last := Inside(row, |row| - 1); last != "" ==> !IsSpace(last[|last| - 1])
  {
    var p := row[|row| - 1];
    assert PaddedOk(p);
    assert Inside(row, |row| - 1) == p.left + p.cell;
  }

  lemma {:induction false} JoinedTrimmed(fields: seq<string>)
    requires |fields| > 1
    requires fields[0] != "" ==> !IsSpace(fields[0][0])
    requires var last := fields[|fields| - 1]; last != "" ==> !IsSpace(last[|last| - 1])
    ensures Joined(fields) != "" && Trimmed(Joined(fields))
  {
    var n := |fields| - 1;
    assert fields == [fields[0]] + fields[1..];
    JoinedStarts(fields[0], fields[1..]);
    assert fields == fields[..n] + [fields[n]];
    JoinedEnds(fields[..n], fields[n]);
  }

  lemma {:induction false} InsidesTrimmed(row: seq<Padded>, commasInLast: bool)
    requires RowOk(row, commasInLast) && Normal(row)
    ensures Joined(Insides(row)) != "" && Trimmed(Joined(Insides(row)))
  {
    if |row| == 1 {
      assert PaddedOk(row[0]) && Insides(row)[0] == row[0].cell;
    } else {
      FirstInside(row, commasInLast);
      LastInside(row, commasInLast);
      JoinedTrimmed(Insides(row));
    }
  }

  lemma {:induction false} InsidesNoCommas(row: seq<Padded>, commasInLast: bool)
    requires RowOk(row, commasInLast)
    ensures NoCommas(Insides(row), commasInLast)
  {
  }

  lemma {:induction false} InsideTrims(row: seq<Padded>, commasInLast: bool, i: nat)
    requires RowOk(row, commasInLast) && i < |row|
    ensures Trim(Inside(row, i)) == row[i].cell
  {
    assert PaddedOk(row[i]);
    TrimPadded(if i == 0 then "" else row[i].left, row[i].cell, if i == |row| - 1 then "" else row[i].right);
  }

  // The cell of a column; a short row has empty ones at the end.
  function CellAt(row: seq<Padded>, i: nat): string {
    if i < |row| then row[i].cell else ""
  }

  lemma {:induction false} RowTrims(row: seq<Padded>, commasInLast: bool)
    requires RowOk(row, commasInLast) && Normal(row)
    ensures Joined(Insides(row)) != "" && Trim(Joined(Texts(row))) == Joined(Insides(row))
  {
    RowText(row);
    InsidesTrimmed(row, commasInLast);
    assert PaddedOk(row[0]) && PaddedOk(row[|row| - 1]);
    TrimPadded(row[0].left, Joined(Insides(row)), row[|row| - 1].right);
  }

  lemma {:induction false} NormalRowReads(row: seq<Padded>, count: nat, i: nat)
    requires 0 < |row| <= count && RowOk(row, |row| == count) && Normal(row)
    ensures Trim(Joined(Texts(row))) != ""
    ensures Cell(SplitN(Trim(Joined(Texts(row))), count), i) == CellAt(row, i)
  {
    RowTrims(row, |row| == count);
    InsidesNoCommas(row, |row| == count);
    SplitJoined(Insides(row), |row| == count, count);
    if i < |row| {
      InsideTrims(row, |row| == count, i);
    }
  }

  lemma {:induction false} RowReads(row: seq<Padded>, count: nat, i: nat)
    requires 0 < |row| <= count && RowOk(row, |row| == count) && (|row| > 1 || row[0].cell != "")
    ensures Trim(Joined(Texts(row))) != ""
    ensures Cell(SplitN(Trim(Joined(Texts(row))), count), i) == CellAt(row, i)
  {
    var normal := Normalized(row);
    NormalizedSame(row, |row| == count);
    NormalRowReads(normal, count, i);
    if i < |row| {
      assert CellsOf(normal)[i] == CellsOf(row)[i];
    }
  }

  // ---------- Dropping a carriage return ----------

  // The same cell with the last character of its text gone, when that is a carriage return.
  function Chopped(p: Padded): Padded {
    if p.right != "" && p.right[|p.right| - 1] == '\r' then p.(right := p.right[..|p.right| - 1])
    else if p.right == "" && p.cell == "" && p.left != "" && p.left[|p.left| - 1] == '\r'
    then p.(left := p.left[..|p.left| - 1])
    else p
  }

  lemma {:induction false} LastOf(a: string, b: string)
    requires b != ""
    ensures (a + b)[|a + b| - 1] == b[|b| - 1] && (a + b)[..|a + b| - 1] == a + b[..|b| - 1]
  {
  }

  lemma {:induction false} ChoppedText(p: Padded)
    requires PaddedOk(p)
    ensures TextOf(Chopped(p)) == StripCr(TextOf(p)) && Chopped(p).cell == p.cell
  {
    if p.right != "" {
      LastOf(p.left + p.cell, p.right);
    } else if p.cell != "" {
      LastOf(p.left, p.cell);
      assert p.left + p.cell + "" == p.left + p.cell && IsSpace('\r');
    } else {
      assert p.left + "" + "" == p.left;
    }
  }

  lemma {:induction false} ChoppedOk(p: Padded)
    requires PaddedOk(p)
    ensures PaddedOk(Chopped(p)) && Chopped(p).cell == p.cell && TextOf(Chopped(p)) == StripCr(TextOf(p))
  {
    ChoppedText(p);
    var text := TextOf(p);
    assert forall i :: 0 <= i < |StripCr(text)| ==> StripCr(text)[i] == text[i];
  }

  function ChoppedRow(row: seq<Padded>): seq<Padded>
    requires row != []
  {
    row[|row| - 1 := Chopped(row[|row| - 1])]
  }

  lemma {:induction false} StripJoined(front: seq<string>, last: string)
    ensures StripCr(Joined(front + [last])) == Joined(front + [StripCr(last)])
  {
    if front == [] {
      assert front + [last] == [last] && front + [StripCr(last)] == [StripCr(last)];
    } else {
      JoinedSnoc(front, last);
      JoinedSnoc(front, StripCr(last));
      var text := Joined(front) + "," + last;
      if last == "" {
        assert text[|text| - 1] == ',';
      } else {
        assert text[|text| - 1] == last[|last| - 1];
        assert text[..|text| - 1] == Joined(front) + "," + last[..|last| - 1];
      }
    }
  }

  lemma {:induction false} ChoppedRowOk(row: seq<Padded>, commasInLast: bool)
    requires RowOk(row, commasInLast)
    ensures RowOk(ChoppedRow(row), commasInLast) && CellsOf(ChoppedRow(row)) == CellsOf(row)
    ensures Joined(Texts(ChoppedRow(row))) == StripCr(Joined(Texts(row)))
  {
    var n := |row| - 1;
    ChoppedOk(row[n]);
    var texts, chopped := Texts(row), Texts(ChoppedRow(row));
    assert texts == texts[..n] + [texts[n]];
    assert chopped == texts[..n] + [StripCr(texts[n])];
    StripJoined(texts[..n], texts[n]);
  }

  // ---------- Lines ----------

  // A line of the file: cells, or white space that the reader skips.
  datatype Line = Cells(row: seq<Padded>) | Blank(text: string)

  function LineText(line: Line): string {
    match line
    case Cells(row) => Joined(Texts(row))
    case Blank(text) => text
  }

  // At most `count` cells, at least one of them not empty if there is only one.
  predicate LineOk(line: Line, count: nat) {
    match line
    case Cells(row) => |row| <= count && RowOk(row, |row| == count) && (|row| > 1 || row[0].cell != "")
    case Blank(text) => White(text) && Free(text, '\n')
  }

  // Every line ended; the last one only if the file is closed.
  function FileText(lines: seq<Line>, eol: string, closed: bool): string {
    if lines == [] then ""
    else if |lines| == 1 && !closed then LineText(lines[0])
    else LineText(lines[0]) + eol + FileText(lines[1..], eol, closed)
  }

  // What `lines` makes of line i: before a single line feed it loses a carriage return.
  function ReadBack(text: string, eol: string, ended: bool): string {
    if ended && eol == "\n" then StripCr(text) else text
  }

  function ReadEach(lines: seq<Line>, eol: string, closed: bool): seq<string> {
    seq(|lines|, i requires 0 <= i < |lines| =>
      ReadBack(LineText(lines[i]), eol, closed || i < |lines| - 1))
  }

  lemma {:induction false} JoinedFree(fields: seq<string>)
    requires forall i :: 0 <= i < |fields| ==> Free(fields[i], '\n')
    ensures Free(Joined(fields), '\n')
  {
    if |fields| > 1 {
      JoinedFree(fields[1..]);
    }
  }

  lemma {:induction false} LineFree(line: Line, count: nat)
    requires LineOk(line, count)
    ensures Free(LineText(line), '\n')
  {
    if line.Cells? {
      forall i | 0 <= i < |line.row| ensures Free(Texts(line.row)[i], '\n') {
        assert PaddedOk(line.row[i]);
      }
      JoinedFree(Texts(line.row));
    }
  }

  lemma {:induction false} LinesHead(text: string, eol: string, rest: string)
    requires Free(text, '\n') && (eol == "\n" || eol == "\r\n")
    ensures Lines(text + eol + rest) == [ReadBack(text, eol, true)] + Lines(rest)
  {
    var line := if eol == "\n" then text else text + ['\r'];
    var all := line + ['\n'] + rest;
    assert all == text + eol + rest;
    IndexAfter(line, '\n', rest);
    assert all[..|line|] == line && all[|line| + 1..] == rest;
    assert (text + ['\r'])[..|text|] == text;
  }

  lemma {:induction false} LinesLast(text: string)
    requires Free(text, '\n') && text != ""
    ensures Lines(text) == [text]
  {
    assert IndexOf(text, '\n') == |text|;
  }

  lemma {:induction false} ReadEachCons(line: Line, rest: seq<Line>, eol: string, closed: bool)
    ensures ReadEach([line] + rest, eol, closed)
            == [ReadBack(LineText(line), eol, closed || rest != [])] + ReadEach(rest, eol, closed)
  {
  }

  predicate Writable(lines: seq<Line>, eol: string, closed: bool) {
    (eol == "\n" || eol == "\r\n") && (closed || lines == [] || LineText(lines[|lines| - 1]) != "")
  }

  lemma {:induction false} LinesOfFile(lines: seq<Line>, eol: string, closed: bool, count: nat)
    requires Writable(lines, eol, closed) && forall i :: 0 <= i < |lines| ==> LineOk(lines[i], count)
    ensures Lines(FileText(lines, eol, closed)) == ReadEach(lines, eol, closed)
  {
    if lines != [] {
      var line, rest := lines[0], lines[1..];
      assert lines == [line] + rest;
      LineFree(line, count);
      ReadEachCons(line, rest, eol, closed);
      if rest == [] && !closed {
        LinesLast(LineText(line));
      } else {
        LinesOfFile(rest, eol, closed, count);
        LinesHead(LineText(line), eol, FileText(rest, eol, closed));
      }
    }
  }

  // ---------- Records ----------

  function RowsIn(lines: seq<Line>): seq<seq<Padded>> {
    if lines == [] then []
    else
      var last := lines[|lines| - 1];
      RowsIn(lines[..|lines| - 1]) + (if last.Cells? then [last.row] else [])
  }

  // The record that a row stands for; an empty memo is none.
  function Expected(c: Columns, row: seq<Padded>): PayoutRecord {
    PayoutRecord(
      CellAt(row, c.destination), CellAt(row, c.amount),
      match c.memo
      case Some(m) => (if CellAt(row, m) == "" then None else Some(CellAt(row, m)))
      case None => None)
  }

  function ExpectedAll(c: Columns, rows: seq<seq<Padded>>): seq<PayoutRecord> {
    seq(|rows|, i requires 0 <= i < |rows| => Expected(c, rows[i]))
  }

  lemma {:induction false} TextReads(c: Columns, row: seq<Padded>)
    requires 0 < |row| <= c.count && RowOk(row, |row| == c.count) && (|row| > 1 || row[0].cell != "")
    ensures var line := Trim(Joined(Texts(row)));
            line != "" && RecordOf(c, SplitN(line, c.count)) == Expected(c, row)
  {
    RowReads(row, c.count, c.destination);
    RowReads(row, c.count, c.amount);
    if c.memo.Some? {
      RowReads(row, c.count, c.memo.value);
    }
  }

  lemma {:induction false} SameCells(c: Columns, row: seq<Padded>, other: seq<Padded>)
    requires CellsOf(row) == CellsOf(other)
    ensures |row| == |other| && Expected(c, row) == Expected(c, other)
  {
    assert |row| == |CellsOf(row)| == |other|;
    forall i: nat ensures CellAt(row, i) == CellAt(other, i) {
      if i < |row| {
        assert CellsOf(row)[i] == CellsOf(other)[i];
      }
    }
  }

  lemma {:induction false} LineReads(c: Columns, row: seq<Padded>, eol: string, ended: bool)
    requires 0 < |row| <= c.count && RowOk(row, |row| == c.count) && (|row| > 1 || row[0].cell != "")
    ensures var line := Trim(ReadBack(Joined(Texts(row)), eol, ended));
            line != "" && RecordOf(c, SplitN(line, c.count)) == Expected(c, row)
  {
    if ended && eol == "\n" {
      ChoppedRowOk(row, |row| == c.count);
      SameCells(c, row, ChoppedRow(row));
      assert CellsOf(ChoppedRow(row))[0] == CellsOf(row)[0];
      TextReads(c, ChoppedRow(row));
    } else {
      TextReads(c, row);
    }
  }

  lemma {:induction false} BlankReads(text: string, eol: string, ended: bool)
    requires White(text)
    ensures Trim(ReadBack(text, eol, ended)) == ""
  {
    var read := ReadBack(text, eol, ended);
    TrimPadded(read, "", "");
    assert read + "" + "" == read;
  }

  lemma {:induction false} RecordsSnoc(c: Columns, lines: seq<string>, line: string)
    requires c.count > 0
    ensures RecordsOf(c, lines + [line])
            == RecordsOf(c, lines) + (if Trim(line) == "" then [] else [RecordOf(c, SplitN(Trim(line), c.count))])
  {
    assert (lines + [line])[..|lines|] == lines;
  }

  lemma {:induction false} ReadEachSnoc(lines: seq<Line>, line: Line, eol: string, closed: bool)
    ensures ReadEach(lines + [line], eol, closed)
            == ReadEach(lines, eol, true) + [ReadBack(LineText(line), eol, closed)]
    ensures RowsIn(lines + [line]) == RowsIn(lines) + (if line.Cells? then [line.row] else [])
  {
    assert (lines + [line])[..|lines|] == lines;
  }

  lemma {:induction false} RowsRead(c: Columns, lines: seq<Line>, eol: string, closed: bool)
    requires c.count > 0 && forall i :: 0 <= i < |lines| ==> LineOk(lines[i], c.count)
    ensures RecordsOf(c, ReadEach(lines, eol, closed)) == ExpectedAll(c, RowsIn(lines))
  {
    if lines != [] {
      var front, last := lines[..|lines| - 1], lines[|lines| - 1];
      assert lines == front + [last];
      RowsRead(c, front, eol, true);
      ReadEachSnoc(front, last, eol, closed);
      RecordsSnoc(c, ReadEach(front, eol, true), ReadBack(LineText(last), eol, closed));
      assert LineOk(last, c.count);
      match last
      case Cells(row) => LineReads(c, row, eol, closed);
      case Blank(text) => BlankReads(text, eol, closed);
    }
  }

  // ---------- The header ----------

  lemma {:induction false} TextsRead(header: seq<Padded>)
    requires RowOk(header, false)
    ensures TrimAll(Split(Joined(Texts(header)))) == CellsOf(header)
  {
    var texts := Texts(header);
    TextsNoCommas(header);
    JoinedLength(texts);
    SplitJoined(texts, false, |Joined(texts)| + 1);
    forall i | 0 <= i < |texts| ensures Trim(texts[i]) == header[i].cell {
      assert PaddedOk(header[i]);
      TrimPadded(header[i].left, header[i].cell, header[i].right);
    }
  }

  lemma {:induction false} TextsNoCommas(header: seq<Padded>)
    requires RowOk(header, false)
    ensures NoCommas(Texts(header), false)
  {
    forall i | 0 <= i < |header| ensures Free(Texts(header)[i], ',') {
      assert PaddedOk(header[i]) && Free(header[i].cell, ',') && !IsSpace(',');
    }
  }

  lemma {:induction false} JoinedLength(fields: seq<string>)
    ensures |fields| <= |Joined(fields)| + 1
  {
    if |fields| > 1 {
      JoinedLength(fields[1..]);
    }
  }

  lemma {:induction false} HeaderReads(header: seq<Padded>, eol: string, ended: bool)
    requires RowOk(header, false)
    ensures TrimAll(Split(ReadBack(Joined(Texts(header)), eol, ended))) == CellsOf(header)
  {
    if ended && eol == "\n" {
      ChoppedRowOk(header, false);
      TextsRead(ChoppedRow(header));
    } else {
      TextsRead(header);
    }
  }

  // ---------- Whole files ----------

  // A header line, and lines with at most as many cells.
  ghost predicate FileOk(header: seq<Padded>, lines: seq<Line>, eol: string, closed: bool) {
    && RowOk(header, false) && (|header| > 1 || header[0].cell != "")
    && (forall i :: 0 <= i < |lines| ==> LineOk(lines[i], |header|))
    && Writable([Cells(header)] + lines, eol, closed)
  }

  lemma {:induction false} FileLines(header: seq<Padded>, lines: seq<Line>, eol: string, closed: bool)
    requires FileOk(header, lines, eol, closed)
    ensures Lines(FileText([Cells(header)] + lines, eol, closed))
            == [ReadBack(Joined(Texts(header)), eol, closed || lines != [])] + ReadEach(lines, eol, closed)
  {
    var all := [Cells(header)] + lines;
    forall i | 0 <= i < |all| ensures LineOk(all[i], |header|) {
      assert i > 0 ==> all[i] == lines[i - 1];
    }
    LinesOfFile(all, eol, closed, |header|);
    ReadEachCons(Cells(header), lines, eol, closed);
  }

  lemma {:induction false} ParsedFile(header: seq<Padded>, lines: seq<Line>, eol: string, closed: bool)
    requires FileOk(header, lines, eol, closed)
    ensures Parsed(Some(FileText([Cells(header)] + lines, eol, closed)))
            == match ColumnsOf(CellsOf(header))
               case Err(e) => Err(e)
               case Ok(c) => Ok(ExpectedAll(c, RowsIn(lines)))
  {
    var first := ReadBack(Joined(Texts(header)), eol, closed || lines != []);
    var texts := [first] + ReadEach(lines, eol, closed);
    FileLines(header, lines, eol, closed);
    HeaderReads(header, eol, closed || lines != []);
    ColumnsAreNamed(CellsOf(header));
    assert texts[0] == first && texts[1..] == ReadEach(lines, eol, closed);
    match ColumnsOf(CellsOf(header))
    case Err(_) =>
    case Ok(c) => RowsRead(c, lines, eol, closed);
  }

  /** Reading a written file gives, row by row, exactly the cells under the first columns named
      destination, amount and memo: whatever the column order and the white space around cells, with
      blank lines anywhere, short rows, either line ending, closed or not, and commas in the last column.
      Cells must be trimmed and free of line breaks, and of commas in other columns. */
  lemma {:induction false} ParseInvertsWrite(
      header: seq<Padded>, c: Columns, lines: seq<Line>, eol: string, closed: bool)
    requires FileOk(header, lines, eol, closed) && Names(CellsOf(header), c)
    ensures Parsed(Some(FileText([Cells(header)] + lines, eol, closed))) == Ok(ExpectedAll(c, RowsIn(lines)))
  {
    NamesDecide(CellsOf(header), c);
    ParsedFile(header, lines, eol, closed);
  }

  /** A file whose header lacks a destination or an amount is refused with that error, whatever follows. */
  lemma {:induction false} ParseRefuses(header: seq<Padded>, lines: seq<Line>, eol: string, closed: bool)
    requires FileOk(header, lines, eol, closed)
    ensures var r := Parsed(Some(FileText([Cells(header)] + lines, eol, closed)));
            && (Unnamed(CellsOf(header), "destination") <==> r == Err(MissingDestination))
            && (!Unnamed(CellsOf(header), "destination") && Unnamed(CellsOf(header), "amount")
                <==> r == Err(MissingAmount))
  {
    ColumnsAreNamed(CellsOf(header));
    ParsedFile(header, lines, eol, closed);
  }

  /** The other two errors: no UTF-8, and no line at all. */
  lemma {:induction false} ParseEmpty(text: Option<string>)
    ensures Parsed(text) == Err(NotUtf8) <==> text == None
    ensures Parsed(text) == Err(EmptyFile) <==> text == Some("")
  {
    if text.Some? && Lines(text.value) != [] {
      ColumnsAreNamed(TrimAll(Split(Lines(text.value)[0])));
    }
  }
}
