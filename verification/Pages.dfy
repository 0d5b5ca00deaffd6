/** What whole scrapes and whole runs of upserts and scrapes guarantee. */
module Pages {
  import opened Records
  import opened Tables
  import opened Exporter
  import opened Scrape

  // ---- a scraped page is made of whole lines

  /** A sample line of an exportable metric of one of the rows. */
  ghost predicate IsSample(env: Env, rows: seq<Row>, line: string) {
    exists row, m :: SampleOf(env, rows, line, row, m)
  }

  ghost predicate SampleOf(env: Env, rows: seq<Row>, line: string, row: Row, m: Metric) {
    row in rows && m in row.metrics && IsExported(m) && line == Line(env, m, LabelText(env, row.metrics))
  }

  ghost predicate IsPageLine(jobs: seq<Job>, line: string) {
    line == "\n" || exists j :: 0 <= j < |jobs| && IsSample(jobs[j].env, jobs[j].rows, line)
  }

  function Blanks(lines: seq<string>): nat {
    if lines == [] then 0 else (if lines[0] == "\n" then 1 else 0) + Blanks(lines[1..])
  }

  function NonEmpty(jobs: seq<Job>): nat {
    if jobs == [] then 0 else (if jobs[0].rows == [] then 0 else 1) + NonEmpty(jobs[1..])
  }

  lemma {:induction false} BlanksAppend(a: seq<string>, b: seq<string>)
    ensures Blanks(a + b) == Blanks(a) + Blanks(b)
  {
    if a == [] {
      assert a + b == b;
    } else {
      assert (a + b)[1..] == a[1..] + b;
      BlanksAppend(a[1..], b);
    }
  }

  lemma {:induction false} LinesAreSamples(env: Env, ms: seq<Metric>, labels: string)
    ensures forall line :: line in Lines(env, ms, labels) ==>
              exists m :: m in ms && IsExported(m) && line == Line(env, m, labels)
  {
    if ms != [] {
      LinesAreSamples(env, ms[1..], labels);
      forall line | line in Lines(env, ms, labels)
        ensures exists m :: m in ms && IsExported(m) && line == Line(env, m, labels)
      {
        if line in Lines(env, ms[1..], labels) {
          var m :| m in ms[1..] && IsExported(m) && line == Line(env, m, labels);
          assert m in ms;
        } else {
          assert ms[0] in ms;
        }
      }
    }
  }

  lemma RowLinesAreSamples(env: Env, rows: seq<Row>, row: Row)
    requires row in rows
    ensures forall line :: line in RowLines(env, row) ==> IsSample(env, rows, line)
  {
    var labels := LabelText(env, row.metrics);
    LinesAreSamples(env, row.metrics, labels);
    forall line | line in RowLines(env, row)
      ensures IsSample(env, rows, line)
    {
      var m :| m in row.metrics && IsExported(m) && line == Line(env, m, labels);
      assert SampleOf(env, rows, line, row, m);
    }
  }

  lemma SampleIsNotBlank(env: Env, rows: seq<Row>, line: string)
    requires IsSample(env, rows, line)
    ensures line != "\n"
  {
    var row, m :| SampleOf(env, rows, line, row, m);
    assert |MetricName(env, m)| > 1;
  }

  lemma {:induction false} LiveWithin(env: Env, rows: seq<Row>)
    ensures forall i :: 0 <= i < |Live(env, rows)| ==> Live(env, rows)[i] in rows
  {
    if rows != [] {
      LiveWithin(env, rows[1..]);
    }
  }

  lemma {:induction false} LinesOfAreSamples(env: Env, all: seq<Row>, rows: seq<Row>, counts: seq<nat>)
    requires |counts| == |rows|
    requires forall i :: 0 <= i < |rows| ==> counts[i] <= |RowLines(env, rows[i])| && rows[i] in all
    ensures forall line :: line in LinesOf(env, rows, counts) ==> IsSample(env, all, line)
    ensures Blanks(LinesOf(env, rows, counts)) == 0
  {
    hide RowLines, IsSample;
    if rows != [] {
      var head := RowLines(env, rows[0])[..counts[0]];
      RowLinesAreSamples(env, all, rows[0]);
      assert forall line :: line in head ==> line in RowLines(env, rows[0]);
      NoBlanks(env, all, head);
      LinesOfAreSamples(env, all, rows[1..], counts[1..]);
      BlanksAppend(head, LinesOf(env, rows[1..], counts[1..]));
    }
  }

  lemma {:induction false} NoBlanks(env: Env, all: seq<Row>, lines: seq<string>)
    requires forall line :: line in lines ==> IsSample(env, all, line)
    ensures Blanks(lines) == 0
  {
    if lines != [] {
      SampleIsNotBlank(env, all, lines[0]);
      NoBlanks(env, all, lines[1..]);
    }
  }

  /** A scraped table is its sample lines and one blank line; an empty table is nothing at all. */
  lemma TablePage(job: Job, size: int) returns (lines: seq<string>)
    requires ScrapeTable(job.env, job.rows, size).Done?
    ensures ScrapeTable(job.env, job.rows, size).text == Concat(lines)
    ensures forall line :: line in lines ==> line == "\n" || IsSample(job.env, job.rows, line)
    ensures Blanks(lines) == if job.rows == [] then 0 else 1
  {
    lines := [];
    if job.rows != [] {
      hide IsSample, RowLines, Blanks;
      var n, counts, body := ScrapeSplits(job.env, job.rows, size);
      var live := Live(job.env, job.rows[..n]);
      LiveWithin(job.env, job.rows[..n]);
      var samples := LinesOf(job.env, live, counts);
      forall i | 0 <= i < |live|
        ensures live[i] in job.rows
      {
        assert live[i] in job.rows[..n];
      }
      LinesOfAreSamples(job.env, job.rows, live, counts);
      ConcatAppend(samples, ["\n"]);
      BlanksAppend(samples, ["\n"]);
      lines := samples + ["\n"];
      OneBlank();
    }
  }

  lemma OneBlank()
    ensures Blanks(["\n"]) == 1 && Concat(["\n"]) == "\n"
  {
    assert ["\n"][1..] == [];
    assert "\n" + "" == "\n";
  }

  /** A page is a concatenation of whole sample lines and one blank line per non-empty table, never a cut line,
      and a byte of the buffer stays free. */
  lemma {:induction false} PageIsWholeLines(jobs: seq<Job>, room: nat) returns (lines: seq<string>)
    requires ScrapeDb(jobs, room).ok
    ensures ScrapeDb(jobs, room).text == Concat(lines)
    ensures forall line :: line in lines ==> IsPageLine(jobs, line)
    ensures Blanks(lines) == NonEmpty(jobs)
    ensures jobs != [] ==> |ScrapeDb(jobs, room).text| < room
  {
    lines := [];
    if jobs != [] {
      hide IsSample, Blanks, Concat, ScrapeTable;
      var o := ScrapeTable(jobs[0].env, jobs[0].rows, room);
      var first := TablePage(jobs[0], room);
      var rest := PageIsWholeLines(jobs[1..], room - |o.text|);
      ConcatAppend(first, rest);
      BlanksAppend(first, rest);
      lines := first + rest;
      forall line | line in lines
        ensures IsPageLine(jobs, line)
      {
        if line in rest && line != "\n" {
          var j :| 0 <= j < |jobs[1..]| && IsSample(jobs[1..][j].env, jobs[1..][j].rows, line);
          assert jobs[1..][j] == jobs[j + 1];
        }
      }
    } else {
      NothingBlank();
    }
  }

  lemma NothingBlank()
    ensures Blanks([]) == 0 && Concat([]) == ""
  {
  }

  // ---- a page that loses nothing

  /** Everything a table has to say: all lines of its live rows and the blank line. */
  function JobText(job: Job): string {
    if job.rows == [] then "" else Concat(AllLines(job.env, Live(job.env, job.rows))) + "\n"
  }

  function AllText(jobs: seq<Job>): string {
    if jobs == [] then "" else JobText(jobs[0]) + AllText(jobs[1..])
  }

  ghost predicate AllPrintable(jobs: seq<Job>) {
    forall j :: 0 <= j < |jobs| ==> Printable(jobs[j].env, Live(jobs[j].env, jobs[j].rows))
  }

  lemma RowNotLonger(env: Env, row: Row, size: int)
    ensures |RowText(env, row, size)| <= |Concat(RowLines(env, row))|
  {
    var lines, n := RowLines(env, row), RowFit(env, row, size);
    assert lines == lines[..n] + lines[n..];
    ConcatAppend(lines[..n], lines[n..]);
  }

  lemma {:induction false} RowsNotLonger(env: Env, rows: seq<Row>, size: int, index: nat)
    requires ScrapeRows(env, rows, size, index).Done?
    ensures |ScrapeRows(env, rows, size, index).text| <= |Concat(AllLines(env, Live(env, rows)))|
    decreases |rows|
  {
    hide RowText, Expired, Concat, RowLines, AllLines;
    if rows != [] && index < PERIOD_RECORDS {
      if Expired(env, rows[0]) {
        RowsNotLonger(env, rows[1..], size, index);
      } else {
        RowNotLonger(env, rows[0], size);
        RowsNotLonger(env, rows[1..], size - |RowText(env, rows[0], size)|, index + 1);
        AllLinesHead(env, rows[0], Live(env, rows[1..]));
      }
    }
  }

  lemma TableNotLonger(job: Job, size: int)
    requires ScrapeTable(job.env, job.rows, size).Done?
    ensures |ScrapeTable(job.env, job.rows, size).text| <= |JobText(job)|
  {
    hide ScrapeRows, Concat;
    if job.rows != [] {
      RowsNotLonger(job.env, job.rows, size, 0);
    }
  }

  lemma {:induction false} PageNotLonger(jobs: seq<Job>, room: nat)
    requires ScrapeDb(jobs, room).ok
    ensures |ScrapeDb(jobs, room).text| <= |AllText(jobs)|
  {
    hide ScrapeTable, JobText;
    if jobs != [] {
      TableNotLonger(jobs[0], room);
      PageNotLonger(jobs[1..], room - |ScrapeTable(jobs[0].env, jobs[0].rows, room).text|);
    }
  }

  lemma TableLosslessIff(job: Job, room: nat)
    requires |Live(job.env, job.rows)| <= PERIOD_RECORDS
    ensures var o := ScrapeTable(job.env, job.rows, room);
            o.Done? && o.text == JobText(job) && |o.text| < room <==>
            Printable(job.env, Live(job.env, job.rows)) && |JobText(job)| < room
  {
    hide ScrapeRows, Concat, AllLines, Printable, Live;
    LosslessIff(job.env, job.rows, room);
    var o := ScrapeRows(job.env, job.rows, room, 0);
    if job.rows == [] {
      NoneLive(job.env);
    } else if o.Done? {
      SameBeforeBlank(o.text, Concat(AllLines(job.env, Live(job.env, job.rows))));
    }
  }

  lemma NoneLive(env: Env)
    ensures Printable(env, Live(env, []))
  {
  }

  lemma SameBeforeBlank(a: string, b: string)
    ensures a + "\n" == b + "\n" <==> a == b
  {
    if a + "\n" == b + "\n" {
      assert a == (a + "\n")[..|a|] && b == (b + "\n")[..|b|];
    }
  }

  /** A page is complete, for every list of tables with at most 100 live rows each, exactly if every live row can be
      printed and all lines and blank lines together leave a byte free. */
  lemma {:induction false} PageLosslessIff(jobs: seq<Job>, room: nat)
    requires forall j :: 0 <= j < |jobs| ==> |Live(jobs[j].env, jobs[j].rows)| <= PERIOD_RECORDS
    ensures var o := ScrapeDb(jobs, room);
            o.ok && o.text == AllText(jobs) <==> AllPrintable(jobs) && (jobs == [] || |AllText(jobs)| < room)
    decreases |jobs|
  {
    hide ScrapeTable, JobText, Printable, Live;
    if jobs != [] {
      var o, all := ScrapeTable(jobs[0].env, jobs[0].rows, room), JobText(jobs[0]);
      var rest := jobs[1..];
      TableLosslessIff(jobs[0], room);
      PrintableHead(jobs);
      if o.Done? && |o.text| < room {
        var left := room - |o.text|;
        PageLosslessIff(rest, left);
        TableNotLonger(jobs[0], room);
        if ScrapeDb(rest, left).ok {
          PageNotLonger(rest, left);
          SameParts(o.text, all, ScrapeDb(rest, left).text, AllText(rest));
        }
      }
    }
  }

  lemma PrintableHead(jobs: seq<Job>)
    requires jobs != []
    ensures AllPrintable(jobs) <==>
            Printable(jobs[0].env, Live(jobs[0].env, jobs[0].rows)) && AllPrintable(jobs[1..])
  {
    hide Printable, Live;
    assert forall j :: 1 <= j < |jobs| ==> jobs[j] == jobs[1..][j - 1];
  }

  lemma SameParts(a: string, a': string, b: string, b': string)
    requires |a| <= |a'| && |b| <= |b'|
    ensures a + b == a' + b' <==> a == a' && b == b'
  {
    if a + b == a' + b' {
      assert |a| == |a'|;
      assert a == (a + b)[..|a|] && a' == (a' + b')[..|a|];
      assert b == (a + b)[|a|..] && b' == (a' + b')[|a|..];
    }
  }

  // ---- how long a row can wait

  /** An upsert, or a scrape of the table with room for `size` bytes. */
  datatype Op = Put(row: Row) | Export(env: Env, size: nat)

  /** The rows after one operation; a scrape may fail. */
  function After(rows: seq<Row>, capability: nat, op: Op): seq<Row> {
    match op
    case Put(row) => Upsert(rows, capability, row).1
    case Export(env, size) => ScrapeTable(env, rows, size).left
  }

  function AfterAll(rows: seq<Row>, capability: nat, ops: seq<Op>): seq<Row>
    decreases |ops|
  {
    if ops == [] then rows else After(AfterAll(rows, capability, ops[..|ops| - 1]), capability, ops[|ops| - 1])
  }

  predicate Succeeds(rows: seq<Row>, op: Op) {
    op.Export? && ScrapeTable(op.env, rows, op.size).Done?
  }

  /** How many scrapes of the run succeed. */
  function Successes(rows: seq<Row>, capability: nat, ops: seq<Op>): nat
    decreases |ops|
  {
    if ops == [] then 0
    else
      var front := ops[..|ops| - 1];
      Successes(rows, capability, front)
      + if Succeeds(AfterAll(rows, capability, front), ops[|ops| - 1]) then 1 else 0
  }

  ghost predicate Untouched(ops: seq<Op>, key: string) {
    forall i :: 0 <= i < |ops| && ops[i].Put? ==> ops[i].row.key != key
  }

  lemma {:induction false} FindInSuffix(rows: seq<Row>, n: nat, key: string)
    requires Distinct(rows) && n <= |rows| && HasKey(rows, key)
    ensures if Find(rows, key) < n then !HasKey(rows[n..], key)
            else HasKey(rows[n..], key) && Find(rows[n..], key) == Find(rows, key) - n
  {
    assert rows == rows[..n] + rows[n..];
    FindAppend(rows[..n], rows[n..], key);
    var p := Find(rows, key);
    if p < n {
      RowHasKey(rows[..n], p);
      forall q | 0 <= q < |rows[n..]|
        ensures rows[n..][q].key != key
      {
        assert rows[n..][q] == rows[n + q];
      }
    }
  }

  /** A successful scrape takes a key out of the table or moves it at least 100 places forward. */
  lemma ExportMovesForward(env: Env, rows: seq<Row>, size: nat, key: string)
    requires Distinct(rows) && HasKey(rows, key) && ScrapeTable(env, rows, size).Done?
    ensures var left := ScrapeTable(env, rows, size).left;
            Distinct(left) && (HasKey(left, key) ==> Find(left, key) + PERIOD_RECORDS <= Find(rows, key))
  {
    hide ScrapeTable;
    var n, counts, body := ScrapeSplits(env, rows, size);
    FindInSuffix(rows, n, key);
    LiveNotMore(env, rows[..n]);
    var left := rows[n..];
    assert forall i :: 0 <= i < |left| ==> left[i] == rows[n + i];
  }

  /** Any scrape, failed or not, leaves the rows from some place on. */
  lemma ScrapeLeavesSuffix(env: Env, rows: seq<Row>, size: int) returns (n: nat)
    ensures n <= |rows| && ScrapeTable(env, rows, size).left == rows[n..]
  {
    n := 0;
    if rows != [] {
      if ScrapeTable(env, rows, size).Done? {
        var m, _, _ := ScrapeSplits(env, rows, size);
        n := m;
      } else {
        FailureSplits(env, rows, size, 0);
        n :| FailsAt(env, rows, size, 0, n);
      }
    }
  }

  lemma ScrapeKeepsOrder(env: Env, rows: seq<Row>, size: int, capability: nat, key: string)
    requires TableInv(rows, capability)
    ensures var left := ScrapeTable(env, rows, size).left;
            && TableInv(left, capability)
            && (HasKey(left, key) ==> HasKey(rows, key) && Find(left, key) <= Find(rows, key))
  {
    var n := ScrapeLeavesSuffix(env, rows, size);
    var left := rows[n..];
    assert forall i :: 0 <= i < |left| ==> left[i] == rows[n + i];
    if HasKey(rows, key) {
      FindInSuffix(rows, n, key);
    } else {
      assert rows == rows[..n] + left;
      FindAppend(rows[..n], left, key);
    }
  }

  lemma ExportAdvances(env: Env, rows: seq<Row>, size: nat, capability: nat, key: string)
    requires TableInv(rows, capability) && HasKey(rows, key) && ScrapeTable(env, rows, size).Done?
    ensures var left := ScrapeTable(env, rows, size).left;
            HasKey(left, key) ==> Find(left, key) + PERIOD_RECORDS <= Find(rows, key)
  {
    hide Find, ScrapeTable;
    ExportMovesForward(env, rows, size, key);
  }

  /** Where a row nobody upserts can be after a run: nowhere new, and at least 100 places further forward for every
      scrape that succeeded; a failed scrape in between never sets it back. */
  lemma {:induction false} PositionAfter(rows: seq<Row>, capability: nat, ops: seq<Op>, key: string)
    requires TableInv(rows, capability) && Untouched(ops, key)
    ensures var after := AfterAll(rows, capability, ops);
            && TableInv(after, capability)
            && (HasKey(after, key) ==>
                  HasKey(rows, key)
                  && Find(after, key) + PERIOD_RECORDS * Successes(rows, capability, ops) <= Find(rows, key))
    decreases |ops|
  {
    hide Find, ScrapeTable, Upsert, TableInv;
    if ops != [] {
      var front, op := ops[..|ops| - 1], ops[|ops| - 1];
      var s := AfterAll(rows, capability, front);
      PositionAfter(rows, capability, front, key);
      match op
      case Put(row) =>
        UpsertRefinesMap(s, capability, row);
        UpsertMovesForward(s, capability, row, key);
      case Export(env, size) =>
        ScrapeKeepsOrder(env, s, size, capability, key);
        if HasKey(s, key) && Succeeds(s, op) {
          ExportAdvances(env, s, size, capability, key);
        }
    }
  }

  /** A row nobody upserts again is exported or expired once `position / 100 + 1` scrapes have succeeded, however many
      other rows arrive and however many scrapes fail in between: nothing is ever inserted ahead of it. */
  lemma RowLeavesInTime(rows: seq<Row>, capability: nat, ops: seq<Op>, key: string)
    requires TableInv(rows, capability) && Untouched(ops, key)
    requires HasKey(rows, key) ==> Successes(rows, capability, ops) >= Find(rows, key) / PERIOD_RECORDS + 1
    ensures !HasKey(AfterAll(rows, capability, ops), key)
  {
    hide Find, AfterAll, Successes;
    PositionAfter(rows, capability, ops, key);
  }

  // ---- a row that can never leave

  function Puts(ops: seq<Op>): seq<Op>
    decreases |ops|
  {
    if ops == [] then []
    else Puts(ops[..|ops| - 1]) + if ops[|ops| - 1].Put? then [ops[|ops| - 1]] else []
  }

  /** Nobody upserts the row, and no scrape finds it expired or gets a text from it. */
  ghost predicate Stuck(row: Row, ops: seq<Op>) {
    forall i :: 0 <= i < |ops| ==> StuckFor(row, ops[i])
  }

  ghost predicate StuckFor(row: Row, op: Op) {
    match op
    case Put(other) => other.key != row.key
    case Export(env, size) => !Expired(env, row) && RowText(env, row, size) == ""
  }

  ghost predicate Fails(rows: seq<Row>, op: Op) {
    op.Export? ==> ScrapeTable(op.env, rows, op.size).Failed?
  }

  lemma UpsertKeepsHead(rows: seq<Row>, capability: nat, row: Row)
    requires rows != [] && rows[0].key != row.key
    ensures var after := Upsert(rows, capability, row).1; after != [] && after[0] == rows[0]
  {
  }

  lemma {:induction false} HeadStays(rows: seq<Row>, capability: nat, ops: seq<Op>)
    requires rows != [] && Stuck(rows[0], ops)
    ensures var after := AfterAll(rows, capability, ops);
            && after != [] && after[0] == rows[0]
            && after == AfterAll(rows, capability, Puts(ops))
    decreases |ops|
  {
    hide Upsert, ScrapeTable, RowText, Expired;
    if ops != [] {
      var front, op := ops[..|ops| - 1], ops[|ops| - 1];
      assert StuckFor(rows[0], ops[|ops| - 1]);
      assert Stuck(rows[0], front);
      HeadStays(rows, capability, front);
      var s := AfterAll(rows, capability, front);
      match op
      case Put(row) =>
        UpsertKeepsHead(s, capability, row);
        var p := Puts(front);
        assert (p + [op])[..|p|] == p;
      case Export(env, size) =>
        BlockedHead(env, s, size);
        assert Puts(ops) == Puts(front) + [] == Puts(front);
    }
  }

  /** A first row that is neither expired nor printable blocks its table over any run in which nobody upserts it: every
      scrape fails, and the scrapes remove nothing, so the rows are those the other upserts alone would give. */
  lemma TableStaysBlocked(rows: seq<Row>, capability: nat, ops: seq<Op>)
    requires rows != [] && Stuck(rows[0], ops)
    ensures AfterAll(rows, capability, ops) == AfterAll(rows, capability, Puts(ops))
    ensures forall i :: 0 <= i < |ops| ==> Fails(AfterAll(rows, capability, ops[..i]), ops[i])
  {
    hide AfterAll, ScrapeTable, RowText, Expired;
    HeadStays(rows, capability, ops);
    forall i | 0 <= i < |ops|
      ensures Fails(AfterAll(rows, capability, ops[..i]), ops[i])
    {
      assert StuckFor(rows[0], ops[i]);
      assert forall j :: 0 <= j < i ==> ops[..i][j] == ops[j];
      HeadStays(rows, capability, ops[..i]);
      if ops[i].Export? {
        BlockedHead(ops[i].env, AfterAll(rows, capability, ops[..i]), ops[i].size);
      }
    }
  }
}
