/** Export of a table as Prometheus text into a bounded buffer, deleting what is emitted. */
module Exporter {
  import opened Words
  import opened Numbers
  import opened Records
  import opened Tables

  const LABELS_SIZE: nat := 512
  const PERIOD_RECORDS: nat := 100

  /** What a scrape of one table depends on besides its rows. */
  datatype Env = Env(tblName: string, machineId: string, hostName: string, now: nat, timeout: nat)

  // ---- the text of a row

  predicate IsLabel(m: Metric) {
    m.typ == "label" || m.typ == "key"
  }

  predicate IsExported(m: Metric) {
    m.typ == "counter" || m.typ == "gauge" || m.typ == "histogram" || m.typ == "summary"
  }

  function Pair(m: Metric): string {
    m.name + "=\"" + m.val + "\""
  }

  predicate AnyLabel(ms: seq<Metric>) {
    exists i :: 0 <= i < |ms| && IsLabel(ms[i])
  }

  /** The label metrics, separated by commas. */
  function Pairs(ms: seq<Metric>): string {
    if ms == [] then ""
    else
      var front, last := ms[..|ms| - 1], ms[|ms| - 1];
      if !IsLabel(last) then Pairs(front)
      else Pairs(front) + ((if AnyLabel(front) then "," else "") + Pair(last))
  }

  function LabelText(env: Env, ms: seq<Metric>): string {
    "{" + Pairs(ms) + (",machine_id=\"" + env.machineId + "\",hostname=\"" + env.hostName + "\"") + "}"
  }

  function MetricName(env: Env, m: Metric): string {
    "gala_gopher_" + env.tblName + "_" + m.name
  }

  function Sample(env: Env, m: Metric, labels: string): string {
    labels + " " + m.val + " " + Decimal(env.now * 1000) + "\n"
  }

  function Line(env: Env, m: Metric, labels: string): (r: string)
    ensures |r| > 0 && r[|r| - 1] == '\n'
  {
    MetricName(env, m) + Sample(env, m, labels)
  }

  /** One line per exportable metric, in order. */
  function Lines(env: Env, ms: seq<Metric>, labels: string): seq<string> {
    if ms == [] then []
    else if IsExported(ms[0]) then [Line(env, ms[0], labels)] + Lines(env, ms[1..], labels)
    else Lines(env, ms[1..], labels)
  }

  function Concat(lines: seq<string>): string {
    if lines == [] then "" else lines[0] + Concat(lines[1..])
  }

  /** How many lines fit one after the other, each leaving a byte for the terminating NUL. */
  function Fit(lines: seq<string>, size: int): (n: nat)
    ensures n <= |lines|
  {
    if lines == [] || |lines[0]| >= size then 0 else 1 + Fit(lines[1..], size - |lines[0]|)
  }

  function RowLines(env: Env, row: Row): seq<string> {
    Lines(env, row.metrics, LabelText(env, row.metrics))
  }

  /** How many lines of the row a buffer of this size takes; none if the labels overflow their own buffer. */
  function RowFit(env: Env, row: Row, size: int): (n: nat)
    ensures n <= |RowLines(env, row)|
  {
    if |LabelText(env, row.metrics)| >= LABELS_SIZE then 0 else Fit(RowLines(env, row), size)
  }

  function RowText(env: Env, row: Row, size: int): string {
    Concat(RowLines(env, row)[..RowFit(env, row, size)])
  }

  lemma {:induction false} ConcatAppend(a: seq<string>, b: seq<string>)
    ensures Concat(a + b) == Concat(a) + Concat(b)
  {
    if a == [] {
      assert a + b == b;
    } else {
      assert (a + b)[1..] == a[1..] + b;
      ConcatAppend(a[1..], b);
    }
  }

  /** All lines fit exactly when together they leave a byte free. */
  lemma {:induction false} FitsWhole(lines: seq<string>, size: int)
    ensures Fit(lines, size) == |lines| <==> lines == [] || |Concat(lines)| < size
    ensures Fit(lines, size) > 0 ==> |Concat(lines[..Fit(lines, size)])| < size
  {
    if lines != [] && |lines[0]| < size {
      FitsWhole(lines[1..], size - |lines[0]|);
      var n := Fit(lines, size);
      assert lines[..n][1..] == lines[1..][..n - 1];
      if n == 1 {
        assert Concat(lines[..1][1..]) == "";
      }
    }
  }

  lemma LinesNotEmpty(env: Env, ms: seq<Metric>, labels: string)
    ensures forall i :: 0 <= i < |Lines(env, ms, labels)| ==> Lines(env, ms, labels)[i] != ""
  {
  }

  /** A row yields no text exactly if its labels overflow, it has nothing to export, or its first line does not fit. */
  lemma NoText(env: Env, row: Row, size: int)
    ensures RowText(env, row, size) == "" <==>
      || |LabelText(env, row.metrics)| >= LABELS_SIZE
      || RowLines(env, row) == []
      || |RowLines(env, row)[0]| >= size
  {
    var n := RowFit(env, row, size);
    var lines := RowLines(env, row);
    LinesNotEmpty(env, row.metrics, LabelText(env, row.metrics));
    if n > 0 {
      assert lines[..n][0] == lines[0];
    }
  }

  // ---- the scrape of a table

  predicate Expired(env: Env, row: Row) {
    row.updateTime + env.timeout < env.now
  }

  /** A failed scrape leaves the rows it had not reached; a successful one also has a text. */
  datatype Outcome = Failed(left: seq<Row>) | Done(text: string, left: seq<Row>)

  function ScrapeRows(env: Env, rows: seq<Row>, size: int, index: nat): Outcome
    decreases |rows|
  {
    if rows == [] || index >= PERIOD_RECORDS then Done("", rows)
    else if Expired(env, rows[0]) then ScrapeRows(env, rows[1..], size, index)
    else
      var text := RowText(env, rows[0], size);
      if text == "" then Failed(rows)
      else Behind(text, ScrapeRows(env, rows[1..], size - |text|, index + 1))
  }

  function Behind(text: string, o: Outcome): Outcome {
    match o
    case Failed(_) => o
    case Done(t, left) => Done(text + t, left)
  }

  /** An empty table yields nothing; any other its lines and one blank line. */
  function ScrapeTable(env: Env, rows: seq<Row>, size: int): Outcome {
    if rows == [] then Done("", [])
    else
      match ScrapeRows(env, rows, size, 0)
      case Failed(left) => Failed(left)
      case Done(text, left) => Done(text + "\n", left)
  }

  function Live(env: Env, rows: seq<Row>): seq<Row> {
    if rows == [] then []
    else if Expired(env, rows[0]) then Live(env, rows[1..])
    else [rows[0]] + Live(env, rows[1..])
  }

  /** Row by row, the first `counts[i]` lines of each. */
  function LinesOf(env: Env, rows: seq<Row>, counts: seq<nat>): seq<string>
    requires |counts| == |rows|
    requires forall i :: 0 <= i < |rows| ==> counts[i] <= |RowLines(env, rows[i])|
  {
    if rows == [] then [] else RowLines(env, rows[0])[..counts[0]] + LinesOf(env, rows[1..], counts[1..])
  }

  /** Every exported row contributes at least its first line, and whole lines only. */
  ghost predicate Emits(env: Env, rows: seq<Row>, counts: seq<nat>, text: string) {
    && |counts| == |rows|
    && (forall i :: 0 <= i < |rows| ==> 0 < counts[i] <= |RowLines(env, rows[i])|)
    && text == Concat(LinesOf(env, rows, counts))
  }

  lemma EmitsOneMore(env: Env, row: Row, n: nat, rows: seq<Row>, counts: seq<nat>, text: string)
    requires 0 < n <= |RowLines(env, row)| && Emits(env, rows, counts, text)
    ensures Emits(env, [row] + rows, [n] + counts, Concat(RowLines(env, row)[..n]) + text)
  {
    hide RowLines, Concat;
    var rs, cs := [row] + rows, [n] + counts;
    assert rs[1..] == rows && cs[1..] == counts;
    ConcatAppend(RowLines(env, row)[..n], LinesOf(env, rows, counts));
  }

  lemma {:induction false} RowsSplit(env: Env, rows: seq<Row>, size: int, index: nat) returns (n: nat, counts: seq<nat>)
    requires ScrapeRows(env, rows, size, index).Done?
    ensures n <= |rows| && ScrapeRows(env, rows, size, index).left == rows[n..]
    ensures |Live(env, rows[..n])| <= Max(0, PERIOD_RECORDS - index)
    ensures n < |rows| ==> |Live(env, rows[..n])| == Max(0, PERIOD_RECORDS - index)
    ensures Emits(env, Live(env, rows[..n]), counts, ScrapeRows(env, rows, size, index).text)
    decreases |rows|
  {
    hide RowLines, Concat, RowText, Emits, Expired, RowFit;
    n, counts := 0, [];
    if rows == [] || index >= PERIOD_RECORDS {
      EmitsNothing(env);
    } else {
      var size', index' := size, index;
      var text := RowText(env, rows[0], size);
      if !Expired(env, rows[0]) {
        size', index' := size - |text|, index + 1;
      }
      var m, cs := RowsSplit(env, rows[1..], size', index');
      n, counts := m + 1, cs;
      assert rows[..n][1..] == rows[1..][..m];
      if !Expired(env, rows[0]) {
        FittingRow(env, rows[0], size);
        EmitsOneMore(env, rows[0], RowFit(env, rows[0], size), Live(env, rows[1..][..m]), cs,
                     ScrapeRows(env, rows[1..], size', index').text);
        counts := [RowFit(env, rows[0], size)] + cs;
      }
    }
  }

  lemma EmitsNothing(env: Env)
    ensures Emits(env, [], [], "")
  {
  }

  lemma FittingRow(env: Env, row: Row, size: int)
    ensures RowText(env, row, size) == Concat(RowLines(env, row)[..RowFit(env, row, size)])
    ensures RowText(env, row, size) != "" ==> 0 < RowFit(env, row, size) <= |RowLines(env, row)|
  {
  }

  /** A successful scrape splits the rows into a processed prefix and an untouched suffix. The live rows of the prefix,
      at most 100, are all exported and only in whole lines; something is left over only if it was exactly 100. */
  lemma ScrapeSplits(env: Env, rows: seq<Row>, size: int) returns (n: nat, counts: seq<nat>, body: string)
    requires ScrapeTable(env, rows, size).Done? && rows != []
    ensures n <= |rows| && ScrapeTable(env, rows, size).left == rows[n..]
    ensures |Live(env, rows[..n])| <= PERIOD_RECORDS
    ensures n < |rows| ==> |Live(env, rows[..n])| == PERIOD_RECORDS
    ensures ScrapeTable(env, rows, size).text == body + "\n"
    ensures Emits(env, Live(env, rows[..n]), counts, body)
  {
    n, counts := RowsSplit(env, rows, size, 0);
    body := ScrapeRows(env, rows, size, 0).text;
  }

  lemma {:induction false} LiveNotMore(env: Env, rows: seq<Row>)
    ensures |Live(env, rows)| <= |rows|
  {
    if rows != [] {
      LiveNotMore(env, rows[1..]);
    }
  }

  /** All lines of all rows. */
  function AllLines(env: Env, rows: seq<Row>): seq<string> {
    if rows == [] then [] else RowLines(env, rows[0]) + AllLines(env, rows[1..])
  }

  /** No row is one the exporter can never print: labels fit, and there is something to export. */
  ghost predicate Printable(env: Env, rows: seq<Row>) {
    forall i :: 0 <= i < |rows| ==> |LabelText(env, rows[i].metrics)| < LABELS_SIZE && RowLines(env, rows[i]) != []
  }

  lemma AllLinesHead(env: Env, row: Row, rows: seq<Row>)
    ensures Concat(AllLines(env, [row] + rows)) == Concat(RowLines(env, row)) + Concat(AllLines(env, rows))
  {
    hide RowLines, Concat;
    assert ([row] + rows)[1..] == rows;
    ConcatAppend(RowLines(env, row), AllLines(env, rows));
  }

  lemma WholeRow(env: Env, row: Row, size: int)
    requires |LabelText(env, row.metrics)| < LABELS_SIZE && RowLines(env, row) != []
    ensures Concat(RowLines(env, row)) != ""
    ensures |Concat(RowLines(env, row))| < size ==> RowText(env, row, size) == Concat(RowLines(env, row))
  {
    var lines := RowLines(env, row);
    LinesNotEmpty(env, row.metrics, LabelText(env, row.metrics));
    FitsWhole(lines, size);
    assert lines[..|lines|] == lines;
  }

  lemma RowLeavesRoom(env: Env, row: Row, size: int)
    ensures RowText(env, row, size) != "" ==> |RowText(env, row, size)| < size
  {
    FitsWhole(RowLines(env, row), size);
    assert RowLines(env, row)[..0] == [];
  }

  /** Whatever is written, at least one byte of the buffer stays free. */
  lemma {:induction false} TextLeavesRoom(env: Env, rows: seq<Row>, size: int, index: nat)
    requires ScrapeRows(env, rows, size, index).Done? && ScrapeRows(env, rows, size, index).text != ""
    ensures |ScrapeRows(env, rows, size, index).text| < size
    decreases |rows|
  {
    hide RowText, Expired;
    if Expired(env, rows[0]) {
      TextLeavesRoom(env, rows[1..], size, index);
    } else {
      var text := RowText(env, rows[0], size);
      RowLeavesRoom(env, rows[0], size);
      if ScrapeRows(env, rows[1..], size - |text|, index + 1).text != "" {
        TextLeavesRoom(env, rows[1..], size - |text|, index + 1);
      }
    }
  }

  lemma {:induction false} EnoughRoom(env: Env, rows: seq<Row>, size: int, index: nat)
    requires index + |Live(env, rows)| <= PERIOD_RECORDS && Printable(env, Live(env, rows))
    requires Live(env, rows) == [] || |Concat(AllLines(env, Live(env, rows)))| < size
    ensures ScrapeRows(env, rows, size, index).Done?
    ensures ScrapeRows(env, rows, size, index).text == Concat(AllLines(env, Live(env, rows)))
    decreases |rows|
  {
    hide RowText, Expired, Concat, RowLines, LabelText;
    if rows != [] && Expired(env, rows[0]) {
      EnoughRoom(env, rows[1..], size, index);
      NothingToSay(env);
    } else if rows != [] {
      var live := Live(env, rows[1..]);
      assert Live(env, rows) == [rows[0]] + live;
      assert Printable(env, live) by {
        assert forall i :: 0 <= i < |live| ==> live[i] == Live(env, rows)[i + 1];
      }
      AllLinesHead(env, rows[0], live);
      WholeRow(env, rows[0], size);
      EnoughRoom(env, rows[1..], size - |RowText(env, rows[0], size)|, index + 1);
    } else {
      NothingToSay(env);
    }
  }

  lemma NothingToSay(env: Env)
    ensures Concat(AllLines(env, [])) == ""
  {
  }

  /** A successful scrape has printed every live row it had to, so each of them is one that can be printed. */
  lemma {:induction false} DoneIsPrintable(env: Env, rows: seq<Row>, size: int, index: nat)
    requires index + |Live(env, rows)| <= PERIOD_RECORDS && ScrapeRows(env, rows, size, index).Done?
    ensures Printable(env, Live(env, rows))
    decreases |rows|
  {
    hide RowText, Expired, RowLines, LabelText;
    if rows != [] && Expired(env, rows[0]) {
      DoneIsPrintable(env, rows[1..], size, index);
    } else if rows != [] {
      DoneIsPrintable(env, rows[1..], size - |RowText(env, rows[0], size)|, index + 1);
      NoText(env, rows[0], size);
      var live := Live(env, rows[1..]);
      assert forall i :: 0 < i < |live| + 1 ==> Live(env, rows)[i] == live[i - 1];
    }
  }

  /** No line of the live rows is lost exactly when each of them can be printed and all their lines together leave a
      byte free. Otherwise the scrape fails, or drops the last lines of a row that it deletes all the same. */
  lemma LosslessIff(env: Env, rows: seq<Row>, size: int)
    requires |Live(env, rows)| <= PERIOD_RECORDS
    ensures var live := Live(env, rows);
            var all := Concat(AllLines(env, live));
            var o := ScrapeRows(env, rows, size, 0);
            o.Done? && o.text == all <==> Printable(env, live) && (live == [] || |all| < size)
  {
    hide Concat, AllLines, Printable, Live;
    var live := Live(env, rows);
    var all := Concat(AllLines(env, live));
    var o := ScrapeRows(env, rows, size, 0);
    if Printable(env, live) && (live == [] || |all| < size) {
      EnoughRoom(env, rows, size, 0);
    }
    if o.Done? && o.text == all {
      DoneIsPrintable(env, rows, size, 0);
      SomethingToSay(env, live);
      if o.text != "" {
        TextLeavesRoom(env, rows, size, 0);
      }
    }
  }

  lemma SomethingToSay(env: Env, rows: seq<Row>)
    requires Printable(env, rows)
    ensures rows != [] ==> Concat(AllLines(env, rows)) != ""
  {
    hide RowText, Concat, RowLines, LabelText;
    if rows != [] {
      assert rows == [rows[0]] + rows[1..];
      AllLinesHead(env, rows[0], rows[1..]);
      WholeRow(env, rows[0], 0);
    }
  }

  // ---- failure

  /** Row `n` stops the scrape: it is live, its turn comes within the 100, the rows before it go through, and the room
      they leave is such that it yields no text. */
  ghost predicate FailsAt(env: Env, rows: seq<Row>, size: int, index: nat, n: nat) {
    && n < |rows|
    && !Expired(env, rows[n])
    && index + |Live(env, rows[..n])| < PERIOD_RECORDS
    && var o := ScrapeRows(env, rows[..n], size, index);
       o.Done? && RowText(env, rows[n], size - |o.text|) == ""
  }

  lemma FailsAtHead(env: Env, rows: seq<Row>, size: int, index: nat)
    ensures FailsAt(env, rows, size, index, 0) <==>
            rows != [] && !Expired(env, rows[0]) && index < PERIOD_RECORDS && RowText(env, rows[0], size) == ""
  {
    hide RowText, Expired;
    if rows != [] {
      assert rows[..0] == [];
    }
  }

  lemma FailsAtNext(env: Env, rows: seq<Row>, size: int, index: nat, n: nat)
    requires rows != []
    ensures Expired(env, rows[0]) && index < PERIOD_RECORDS ==>
              (FailsAt(env, rows, size, index, n + 1) <==> FailsAt(env, rows[1..], size, index, n))
    ensures !Expired(env, rows[0]) && index < PERIOD_RECORDS ==>
              var text := RowText(env, rows[0], size);
              (FailsAt(env, rows, size, index, n + 1) <==>
               text != "" && FailsAt(env, rows[1..], size - |text|, index + 1, n))
  {
    hide RowText, Expired;
    if n + 1 < |rows| {
      assert rows[..n + 1][1..] == rows[1..][..n];
      assert rows[..n + 1][0] == rows[0];
    }
  }

  /** When a scrape fails, and what it leaves: everything before the row that stops it is already deleted, that row and
      the ones behind it stay. */
  lemma {:induction false} FailureSplits(env: Env, rows: seq<Row>, size: int, index: nat)
    ensures ScrapeRows(env, rows, size, index).Failed? <==> exists n: nat :: FailsAt(env, rows, size, index, n)
    ensures forall n: nat ::
              FailsAt(env, rows, size, index, n) ==> ScrapeRows(env, rows, size, index) == Failed(rows[n..])
    decreases |rows|
  {
    hide RowText, Expired, Live;
    var o := ScrapeRows(env, rows, size, index);
    FailsAtHead(env, rows, size, index);
    if rows != [] && index < PERIOD_RECORDS {
      var text := RowText(env, rows[0], size);
      var size', index' := size, index;
      if !Expired(env, rows[0]) {
        size', index' := size - |text|, index + 1;
      }
      FailureSplits(env, rows[1..], size', index');
      forall n: nat
        ensures FailsAt(env, rows, size, index, n + 1) <==>
                (Expired(env, rows[0]) || text != "") && FailsAt(env, rows[1..], size', index', n)
        ensures n + 1 <= |rows| ==> rows[1..][n..] == rows[n + 1..]
      {
        FailsAtNext(env, rows, size, index, n);
      }
      forall n: nat | FailsAt(env, rows, size, index, n)
        ensures o == Failed(rows[n..])
      {
        if n > 0 {
          assert FailsAt(env, rows[1..], size', index', n - 1);
          assert rows[1..][n - 1..] == rows[n..];
        }
      }
      if o.Failed? && (Expired(env, rows[0]) || text != "") {
        var n: nat :| FailsAt(env, rows[1..], size', index', n);
        assert FailsAt(env, rows, size, index, n + 1);
      }
    }
  }

  /** A live first row without text blocks the table: the scrape fails and removes nothing. */
  lemma BlockedHead(env: Env, rows: seq<Row>, size: int)
    requires rows != [] && !Expired(env, rows[0])
    ensures ScrapeTable(env, rows, size) == Failed(rows) <==> RowText(env, rows[0], size) == ""
  {
    hide RowText, Expired, ScrapeRows, FailsAt;
    FailsAtHead(env, rows, size, 0);
    FailureSplits(env, rows, size, 0);
    if ScrapeTable(env, rows, size) == Failed(rows) {
      var n: nat :| FailsAt(env, rows, size, 0, n);
      FailsWithin(env, rows, size, 0, n);
    }
  }

  lemma FailsWithin(env: Env, rows: seq<Row>, size: int, index: nat, n: nat)
    requires FailsAt(env, rows, size, index, n)
    ensures n < |rows| && |rows[n..]| == |rows| - n
  {
  }
}
