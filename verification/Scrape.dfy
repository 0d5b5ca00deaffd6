/** The exporter as it runs: a cursor and a remaining length walking over the web server's buffer. */
module Scrape {
  import opened Words
  import opened Numbers
  import opened Records
  import opened Tables
  import opened Exporter

  /** A formatted write at the cursor: it succeeds only if the text and its NUL fit, and only then moves the cursor. */
  method Snprintf(buf: array<char>, cursor: nat, size: int, text: string) returns (ok: bool, next: nat, left: int)
    requires cursor + Max(0, size) <= buf.Length
    modifies buf
    ensures ok <==> |text| < size
    ensures next + left == cursor + size
    ensures ok ==> next == cursor + |text| && buf[..next] == old(buf[..cursor]) + text
    ensures !ok ==> next == cursor && buf[..next] == old(buf[..cursor])
  {
    if size <= 0 {
      return false, cursor, size;
    }
    var n := Min(|text|, size - 1);
    forall j | 0 <= j < n {
      buf[cursor + j] := text[j];
    }
    buf[cursor + n] := '\0';
    if |text| >= size {
      return false, cursor, size;
    }
    assert buf[cursor..cursor + n] == text;
    assert buf[..cursor + n] == buf[..cursor] + buf[cursor..cursor + n];
    return true, cursor + |text|, size - |text|;
  }

  /** The labels of a row, built in a buffer of their own. */
  method BuildLabel(env: Env, ms: seq<Metric>) returns (ok: bool, labels: string)
    ensures ok <==> |LabelText(env, ms)| < LABELS_SIZE
    ensures ok ==> labels == LabelText(env, ms)
  {
    hide Pair, IsLabel;
    var buf := new char[LABELS_SIZE](_ => '\0');
    var p, size, first := 0, LABELS_SIZE, true;
    labels := "";
    ok, p, size := Snprintf(buf, p, size, "{");
    var i := 0;
    while i < |ms|
      invariant 0 <= i <= |ms| && p + size == LABELS_SIZE && size > 0 && p >= 0
      invariant buf[..p] == "{" + Pairs(ms[..i])
      invariant first <==> !AnyLabel(ms[..i])
    {
      PairsStep(ms, i);
      if IsLabel(ms[i]) {
        ok, p, size := Snprintf(buf, p, size, (if first then "" else ",") + Pair(ms[i]));
        if !ok {
          PairsGrow(ms, i + 1);
          return false, "";
        }
        first := false;
      }
      i := i + 1;
    }
    assert ms[..|ms|] == ms;
    ghost var pairs := buf[..p];
    ok, p, size := Snprintf(buf, p, size, ",machine_id=\"" + env.machineId + "\",hostname=\"" + env.hostName + "\"");
    if ok {
      ok, p, size := Snprintf(buf, p, size, "}");
    }
    if ok {
      labels := buf[..p];
      assert labels == LabelText(env, ms);
    }
  }

  lemma PairsStep(ms: seq<Metric>, i: nat)
    requires i < |ms|
    ensures AnyLabel(ms[..i + 1]) <==> AnyLabel(ms[..i]) || IsLabel(ms[i])
    ensures Pairs(ms[..i + 1])
         == if IsLabel(ms[i]) then Pairs(ms[..i]) + ((if AnyLabel(ms[..i]) then "," else "") + Pair(ms[i]))
            else Pairs(ms[..i])
  {
    assert ms[..i + 1][..i] == ms[..i];
    if AnyLabel(ms[..i]) {
      var j :| 0 <= j < i && IsLabel(ms[..i][j]);
      assert ms[..i + 1][j] == ms[..i][j];
    }
    if IsLabel(ms[i]) {
      assert ms[..i + 1][i] == ms[i];
    }
    if AnyLabel(ms[..i + 1]) {
      var j :| 0 <= j < i + 1 && IsLabel(ms[..i + 1][j]);
      assert j < i ==> ms[..i][j] == ms[j];
    }
  }

  lemma {:induction false} PairsGrow(ms: seq<Metric>, i: nat)
    requires i <= |ms|
    ensures |Pairs(ms[..i])| <= |Pairs(ms)|
    decreases |ms| - i
  {
    if i < |ms| {
      PairsStep(ms, i);
      PairsGrow(ms, i + 1);
    } else {
      assert ms[..i] == ms;
    }
  }

  /** One sample line; -1 leaves the cursor where it was, whatever has been scribbled behind it. */
  method BuildPrometheusMetrics(env: Env, m: Metric, labels: string, buf: array<char>, cursor: nat, maxLen: nat)
    returns (ret: int)
    requires cursor + maxLen <= buf.Length
    modifies buf
    ensures ret == if |Line(env, m, labels)| < maxLen then |Line(env, m, labels)| else -1
    ensures ret >= 0 ==> buf[..cursor + ret] == old(buf[..cursor]) + Line(env, m, labels)
    ensures ret < 0 ==> buf[..cursor] == old(buf[..cursor])
  {
    hide Sample, MetricName;
    var ok, p, size := Snprintf(buf, cursor, maxLen, MetricName(env, m));
    if !ok {
      return -1;
    }
    ghost var named := buf[..p];
    ok, p, size := Snprintf(buf, p, size, Sample(env, m, labels));
    if !ok {
      assert buf[..cursor] == named[..cursor];
      return -1;
    }
    ret := maxLen - size;
  }

  /** The lines of one row until one does not fit; the number of bytes written. */
  method Rec2Prometheus(env: Env, row: Row, buf: array<char>, cursor: nat, maxLen: nat) returns (total: nat)
    requires cursor + maxLen <= buf.Length
    modifies buf
    ensures total <= maxLen && total == |RowText(env, row, maxLen)|
    ensures buf[..cursor + total] == old(buf[..cursor]) + RowText(env, row, maxLen)
  {
    hide Line, LabelText;
    total := 0;
    var ok, labels := BuildLabel(env, row.metrics);
    if !ok {
      assert RowLines(env, row)[..0] == [];
      return;
    }
    var ms := row.metrics;
    ghost var goal := RowText(env, row, maxLen);
    ghost var start := buf[..cursor];
    ghost var written := "";
    var i: nat, room: nat := 0, maxLen;
    assert ms[0..] == ms && goal == written + goal && start == start + written;
    while i < |ms|
      invariant 0 <= i <= |ms| && total + room == maxLen && total == |written|
      invariant RowAt(env, ms, labels, i, room, written, goal)
      invariant buf[..cursor + total] == start + written
    {
      hide *;
      RowStep(env, ms, labels, i, room, written, goal);
      if IsExported(ms[i]) {
        var ret := BuildPrometheusMetrics(env, ms[i], labels, buf, cursor + total, room);
        if ret < 0 {
          return;
        }
        Regroup3(start, written, Line(env, ms[i], labels));
        written := written + Line(env, ms[i], labels);
        total, room := total + ret, room - ret;
      }
      i := i + 1;
    }
    assert ms[i..] == [] && written + "" == written;
  }

  /** The loop at metric `i`: what is written and what still fits make up the row's text. */
  ghost predicate RowAt(env: Env, ms: seq<Metric>, labels: string, i: nat, room: nat, written: string, goal: string) {
    i <= |ms| && written + FitText(Lines(env, ms[i..], labels), room) == goal
  }

  lemma RowStep(env: Env, ms: seq<Metric>, labels: string, i: nat, room: nat, written: string, goal: string)
    requires i < |ms| && RowAt(env, ms, labels, i, room, written, goal)
    ensures !IsExported(ms[i]) ==> RowAt(env, ms, labels, i + 1, room, written, goal)
    ensures IsExported(ms[i]) && |Line(env, ms[i], labels)| >= room ==> goal == written
    ensures IsExported(ms[i]) && |Line(env, ms[i], labels)| < room ==>
      RowAt(env, ms, labels, i + 1, room - |Line(env, ms[i], labels)|, written + Line(env, ms[i], labels), goal)
  {
    hide Line, FitText;
    assert ms[i..][0] == ms[i] && ms[i..][1..] == ms[i + 1..];
    if IsExported(ms[i]) {
      var line := Line(env, ms[i], labels);
      FitTextStep(line, Lines(env, ms[i + 1..], labels), room);
      Regroup3(written, line, FitText(Lines(env, ms[i + 1..], labels), room - |line|));
    }
  }

  /** The lines that fit, as one text. */
  ghost function FitText(lines: seq<string>, size: int): string {
    Concat(lines[..Fit(lines, size)])
  }

  lemma FitTextStep(line: string, lines: seq<string>, size: int)
    ensures FitText([line] + lines, size) == if |line| < size then line + FitText(lines, size - |line|) else ""
  {
    var all := [line] + lines;
    assert all[1..] == lines;
    if |line| < size {
      var n := Fit(all, size);
      assert all[..n][1..] == lines[..n - 1];
    } else {
      assert all[..0] == [];
    }
  }

  lemma Regroup3(a: string, b: string, c: string)
    ensures a + (b + c) == a + b + c
  {
  }

  /** What the loop of a table scrape still has to do. */
  ghost predicate Continues(env: Env, rows: seq<Row>, room: nat, index: nat, written: string, goal: Outcome) {
    Behind(written, ScrapeRows(env, rows, room, index)) == goal
  }

  lemma ContinueExpired(env: Env, rows: seq<Row>, room: nat, index: nat, written: string, goal: Outcome)
    requires rows != [] && index < PERIOD_RECORDS && Expired(env, rows[0])
    requires Continues(env, rows, room, index, written, goal)
    ensures Continues(env, rows[1..], room, index, written, goal)
  {
  }

  lemma ContinueLive(env: Env, rows: seq<Row>, room: nat, index: nat, written: string, goal: Outcome)
    requires rows != [] && index < PERIOD_RECORDS && !Expired(env, rows[0])
    requires Continues(env, rows, room, index, written, goal)
    ensures var text := RowText(env, rows[0], room);
            if text == "" then goal == Failed(rows)
            else |text| < room && Continues(env, rows[1..], room - |text|, index + 1, written + text, goal)
  {
    hide RowText;
    RowLeavesRoom(env, rows[0], room);
    var text := RowText(env, rows[0], room);
    if text != "" && ScrapeRows(env, rows[1..], room - |text|, index + 1).Done? {
      Regroup3(written, text, ScrapeRows(env, rows[1..], room - |text|, index + 1).text);
    }
  }

  /** One table into the buffer. The blank line is counted even when it no longer fits, which the caller detects. */
  method Tbl2Prometheus(env: Env, table: Table, buf: array<char>, cursor: nat, maxLen: nat) returns (ret: int)
    requires table.Valid() && cursor + maxLen <= buf.Length
    modifies buf, table`records
    ensures table.Valid()
    ensures var o := ScrapeTable(env, old(table.records), maxLen);
            && table.records == o.left
            && ret == (if o.Done? then |o.text| else -1)
            && (0 <= ret < maxLen ==> buf[..cursor + ret] == old(buf[..cursor]) + o.text)
  {
    if |table.records| == 0 {
      assert buf[..cursor] == old(buf[..cursor]) + "";
      return 0;
    }
    ghost var goal := ScrapeRows(env, table.records, maxLen, 0);
    ghost var written := "";
    ghost var start := buf[..cursor];
    assert Behind(written, goal) == goal by {
      if goal.Done? {
        assert "" + goal.text == goal.text;
      }
    }
    var p: nat, room: nat, index: nat := cursor, maxLen, 0;
    assert start == start + written;
    while |table.records| > 0
      invariant table.Valid()
      invariant p == cursor + |written| && p + room == cursor + maxLen
      invariant buf[..p] == start + written
      invariant Continues(env, table.records, room, index, written, goal)
      decreases |table.records|
    {
      hide RowText, Continues, ScrapeRows, Expired, TableInv;
      if index >= PERIOD_RECORDS {
        break;
      }
      var record := table.records[0];
      SuffixInv(table.records, table.capability);
      if Expired(env, record) {
        ContinueExpired(env, table.records, room, index, written, goal);
        table.records := table.records[1..];
        continue;
      }
      ContinueLive(env, table.records, room, index, written, goal);
      var total := Rec2Prometheus(env, record, buf, p, room);
      if total <= 0 {
        return -1;
      }
      ghost var text := RowText(env, record, room);
      Regroup3(start, written, text);
      written := written + text;
      p, room := p + total, room - total;
      table.records := table.records[1..];
      index := index + 1;
    }
    assert goal == Done(written, table.records) by {
      assert written + "" == written;
    }
    var ok, _, _ := Snprintf(buf, p, room, "\n");
    ret := p + 1 - cursor;
    Regroup3(start, written, "\n");
  }

  lemma SuffixInv(rows: seq<Row>, capability: nat)
    requires TableInv(rows, capability) && rows != []
    ensures TableInv(rows[1..], capability)
  {
  }

  // ---- the whole database

  /** A table's scrape environment and its rows. */
  datatype Job = Job(env: Env, rows: seq<Row>)

  datatype DbOutcome = DbOutcome(ok: bool, text: string, left: seq<seq<Row>>)

  /** Table after table; the first one that fails or fills the buffer ends the scrape, the ones behind it are
      untouched. */
  function ScrapeDb(jobs: seq<Job>, room: nat): (o: DbOutcome)
    ensures |o.left| == |jobs|
  {
    if jobs == [] then DbOutcome(true, "", [])
    else
      var o := ScrapeTable(jobs[0].env, jobs[0].rows, room);
      if o.Failed? || |o.text| >= room then
        DbOutcome(false, "", [o.left] + seq(|jobs| - 1, i requires 0 <= i < |jobs| - 1 => jobs[i + 1].rows))
      else
        var rest := ScrapeDb(jobs[1..], room - |o.text|);
        DbOutcome(rest.ok, o.text + rest.text, [o.left] + rest.left)
  }

  ghost predicate DistinctTables(tables: seq<Table>) {
    forall i, j :: 0 <= i < j < |tables| ==> tables[i] != tables[j]
  }

  function EnvFor(table: Table, env: Env): Env {
    env.(tblName := table.name)
  }

  ghost function JobsOf(tables: seq<Table>, env: Env): (jobs: seq<Job>)
    reads tables
    ensures |jobs| == |tables|
    ensures forall i :: 0 <= i < |tables| ==> jobs[i] == Job(env.(tblName := tables[i].name), tables[i].records)
  {
    seq(|tables|, i requires 0 <= i < |tables| reads tables => Job(EnvFor(tables[i], env), tables[i].records))
  }

  ghost predicate AllValid(tables: seq<Table>)
    reads tables
  {
    forall i :: 0 <= i < |tables| ==> tables[i].Valid()
  }

  /** The row lists of the tables, one by one. */
  ghost predicate Hold(tables: seq<Table>, lists: seq<seq<Row>>)
    reads tables
  {
    |lists| == |tables| && forall i :: 0 <= i < |tables| ==> tables[i].records == lists[i]
  }

  /** One table of the list into the buffer; all others stay as they are. */
  method ScrapeOne(tables: seq<Table>, i: nat, ghost lists: seq<seq<Row>>, env: Env, buf: array<char>, cursor: nat,
                   room: nat)
    returns (ret: int)
    requires i < |tables| && DistinctTables(tables) && AllValid(tables) && Hold(tables, lists)
    requires cursor + room <= buf.Length
    modifies tables, buf
    ensures AllValid(tables)
    ensures var o := ScrapeTable(EnvFor(tables[i], env), lists[i], room);
            && Hold(tables, lists[i := o.left])
            && ret == (if o.Done? then |o.text| else -1)
            && (0 <= ret < room ==> buf[..cursor + ret] == old(buf[..cursor]) + o.text)
  {
    hide ScrapeTable;
    ret := Tbl2Prometheus(EnvFor(tables[i], env), tables[i], buf, cursor, room);
  }

  ghost function RowsOf(jobs: seq<Job>): (r: seq<seq<Row>>)
    ensures |r| == |jobs| && forall i :: 0 <= i < |jobs| ==> r[i] == jobs[i].rows
  {
    seq(|jobs|, i requires 0 <= i < |jobs| => jobs[i].rows)
  }

  /** One round of the loop over the tables. */
  method ScrapeStep(tables: seq<Table>, env: Env, i: nat, buf: array<char>, cursor: nat, room: nat,
                    ghost jobs: seq<Job>, ghost written: string, ghost lists: seq<seq<Row>>, ghost goal: DbOutcome)
    returns (ret: int, ghost text: string, ghost next: seq<seq<Row>>)
    requires i < |tables| == |jobs| && DistinctTables(tables) && AllValid(tables) && Hold(tables, lists)
    requires jobs[i].env == EnvFor(tables[i], env)
    requires cursor + room <= buf.Length && cursor == |written| && buf[..cursor] == written
    requires DbAt(jobs, i, room, written, lists, goal)
    modifies tables, buf
    ensures AllValid(tables) && Hold(tables, next)
    ensures ret < 0 || ret >= room ==> !goal.ok && goal.left == next
    ensures 0 <= ret < room ==>
      DbAt(jobs, i + 1, room - ret, text, next, goal) && |text| == cursor + ret && buf[..cursor + ret] == text
  {
    hide ScrapeTable, DbAt, AllValid, Hold, DistinctTables, EnvFor;
    DbStep(jobs, i, room, written, lists, goal);
    ghost var o := ScrapeTable(EnvFor(tables[i], env), lists[i], room);
    next, text := lists[i := o.left], if o.Done? then written + o.text else written;
    ret := ScrapeOne(tables, i, lists, env, buf, cursor, room);
  }

  /** The scrape of a table list from the start of the buffer; `env` carries everything but the table name. */
  method DataBase2Prometheus(tables: seq<Table>, env: Env, buf: array<char>, maxLen: nat)
    returns (ret: int, bufLen: nat)
    requires DistinctTables(tables) && AllValid(tables)
    requires maxLen <= buf.Length
    modifies tables, buf
    ensures AllValid(tables)
    ensures var o := ScrapeDb(old(JobsOf(tables, env)), maxLen);
            && ret == (if o.ok then 0 else -1)
            && (ret == 0 ==> bufLen == |o.text| <= maxLen && buf[..bufLen] == o.text)
            && Hold(tables, o.left)
  {
    hide ScrapeDb, DbAt, JobsOf;
    ghost var jobs := JobsOf(tables, env);
    ghost var goal := ScrapeDb(jobs, maxLen);
    ghost var written := "";
    ghost var lists := RowsOf(jobs);
    var cursor: nat, room: nat, i: nat := 0, maxLen, 0;
    DbStart(jobs, maxLen, lists);
    while i < |tables|
      invariant 0 <= i <= |tables| && cursor + room == maxLen && cursor == |written|
      invariant AllValid(tables) && Hold(tables, lists)
      invariant buf[..cursor] == written
      invariant DbAt(jobs, i, room, written, lists, goal)
    {
      assert jobs[i].env == EnvFor(tables[i], env);
      hide *;
      ret, written, lists := ScrapeStep(tables, env, i, buf, cursor, room, jobs, written, lists, goal);
      if ret < 0 || ret >= room {
        return -1, 0;
      }
      cursor, room, i := cursor + ret, room - ret, i + 1;
    }
    DbEnd(jobs, i, room, written, lists, goal);
    return 0, cursor;
  }

  /** What lies behind the cursor put in front of what is still to come. */
  ghost function Ahead(written: string, done: seq<seq<Row>>, o: DbOutcome): DbOutcome {
    DbOutcome(o.ok, written + o.text, done + o.left)
  }

  /** The loop at table `i`: `lists` has the new rows in front and the old ones from `i` on. */
  ghost predicate DbAt(jobs: seq<Job>, i: nat, room: nat, written: string, lists: seq<seq<Row>>, goal: DbOutcome) {
    && i <= |jobs| == |lists|
    && (forall j :: i <= j < |jobs| ==> lists[j] == jobs[j].rows)
    && Ahead(written, lists[..i], ScrapeDb(jobs[i..], room)) == goal
  }

  lemma DbStart(jobs: seq<Job>, room: nat, lists: seq<seq<Row>>)
    requires |lists| == |jobs| && forall j :: 0 <= j < |jobs| ==> lists[j] == jobs[j].rows
    ensures DbAt(jobs, 0, room, "", lists, ScrapeDb(jobs, room))
  {
    hide ScrapeDb;
    assert jobs[0..] == jobs;
    var o := ScrapeDb(jobs, room);
    assert "" + o.text == o.text && [] + o.left == o.left;
  }

  lemma AheadStep(written: string, done: seq<seq<Row>>, text: string, left: seq<Row>, rest: DbOutcome)
    ensures Ahead(written, done, Ahead(text, [left], rest)) == Ahead(written + text, done + [left], rest)
  {
    Regroup3(written, text, rest.text);
    assert done + ([left] + rest.left) == done + [left] + rest.left;
  }

  /** One table: either the outcome is settled, or the rest of the list decides it from the advanced cursor. */
  lemma DbStep(jobs: seq<Job>, i: nat, room: nat, written: string, lists: seq<seq<Row>>, goal: DbOutcome)
    requires i < |jobs| && DbAt(jobs, i, room, written, lists, goal)
    ensures |lists| == |jobs| && lists[i] == jobs[i].rows
    ensures var o := ScrapeTable(jobs[i].env, jobs[i].rows, room);
            if o.Failed? || |o.text| >= room then !goal.ok && goal.left == lists[i := o.left]
            else DbAt(jobs, i + 1, room - |o.text|, written + o.text, lists[i := o.left], goal)
  {
    hide ScrapeTable;
    assert jobs[i..][0] == jobs[i] && jobs[i..][1..] == jobs[i + 1..];
    var o := ScrapeTable(jobs[i].env, jobs[i].rows, room);
    if o.Done? && |o.text| < room {
      AheadStep(written, lists[..i], o.text, o.left, ScrapeDb(jobs[i + 1..], room - |o.text|));
      assert lists[i := o.left][..i + 1] == lists[..i] + [o.left];
    }
  }

  lemma DbEnd(jobs: seq<Job>, i: nat, room: nat, written: string, lists: seq<seq<Row>>, goal: DbOutcome)
    requires i >= |jobs| && DbAt(jobs, i, room, written, lists, goal)
    ensures goal.ok && goal.text == written && goal.left == lists
  {
    assert lists[..i] == lists;
  }
}
