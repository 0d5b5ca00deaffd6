/** Reading a scraped page back: what a client of the text format sees in each sample line. */
module PromText {
  import opened Options
  import opened Text
  import opened Numbers
  import opened Records
  import opened Exporter
  import SsParser

  /** A sample as it is read: metric name, label text, value, and time stamp in milliseconds. */
  datatype Reading = Reading(name: string, labels: string, value: string, stamp: int)

  /** The name ends at the first brace, the value and the stamp stand behind the last two spaces, the newline ends the
      line. */
  function ReadSample(line: string): Option<Reading> {
    if line == "" || line[|line| - 1] != '\n' then None
    else
      var body := line[..|line| - 1];
      var i, k := IndexOf(body, '{'), SsParser.LastIndexOf(body, ' ');
      if k < 0 then None
      else
        var j := SsParser.LastIndexOf(body[..k], ' ');
        if j < i then None
        else Some(Reading(body[..i], body[i..j], body[j + 1..k], ReadDigits(body[k + 1..], 10, 0)))
  }

  /** What a sample of the metric should be read as. */
  function SampleOf(env: Env, m: Metric, labels: string): Reading {
    Reading("gala_gopher_" + env.tblName + "_" + m.name, labels, m.val, 1000 * env.now)
  }

  predicate CleanSample(env: Env, m: Metric) {
    '{' !in env.tblName && '{' !in m.name && ' ' !in m.val
  }

  lemma StampReads(n: nat)
    ensures ' ' !in Decimal(n) && '\n' !in Decimal(n) && ReadDigits(Decimal(n), 10, 0) == n
  {
    DecimalDigits(n);
    NumeralReads(n, 10, false);
    var s := Decimal(n);
    assert s + "" == s;
    ReadsAll(s, "", 10, 0);
  }

  function Body(name: string, labels: string, value: string, stamp: string): string {
    (name + labels) + ([' '] + (value + ([' '] + stamp)))
  }

  lemma Regroup(a: string, b: string, c: string, d: string)
    ensures a + ([' '] + (c + ([' '] + d))) == (a + ([' '] + c)) + [' '] + d
    ensures (a + ([' '] + c)) == a + [' '] + c
  {
  }

  lemma LastSpaces(front: string, value: string, stamp: string)
    requires ' ' !in stamp
    ensures var body := front + ([' '] + (value + ([' '] + stamp)));
            var k := SsParser.LastIndexOf(body, ' ');
            && k == |front| + 1 + |value| && body[k + 1..] == stamp && body[|front| + 1..k] == value
            && body[..k] == front + ([' '] + value)
            && (' ' !in value ==> SsParser.LastIndexOf(body[..k], ' ') == |front|)
  {
    hide SsParser.LastIndexOf;
    Regroup(front, "", value, stamp);
    var body, ahead := front + ([' '] + (value + ([' '] + stamp))), front + ([' '] + value);
    assert body == ahead + [' '] + stamp;
    SsParser.LastIndexOfAppend(ahead, ' ', stamp);
    assert body[..|ahead|] == ahead;
    if ' ' !in value {
      SsParser.LastIndexOfAppend(front, ' ', value);
    }
  }

  lemma FirstBrace(name: string, labels: string, rest: string)
    requires labels != "" && labels[0] == '{'
    ensures var body := (name + labels) + rest;
            && (IndexOf(body, '{') == |name| <==> '{' !in name)
            && body[..|name|] == name && body[|name|..|name| + |labels|] == labels
  {
    var body := (name + labels) + rest;
    assert body[..|name|] == name;
    if '{' !in name {
      assert body == name + ['{'] + (labels[1..] + rest);
      IndexOfAppend(name, '{', labels[1..] + rest);
    }
  }

  lemma ReadAt(body: string, i: nat, j: nat, k: nat)
    requires i == IndexOf(body, '{') && k == SsParser.LastIndexOf(body, ' ')
    requires i <= j == SsParser.LastIndexOf(body[..k], ' ')
    ensures ReadSample(body + "\n")
            == Some(Reading(body[..i], body[i..j], body[j + 1..k], ReadDigits(body[k + 1..], 10, 0)))
  {
    hide IndexOf, SsParser.LastIndexOf, ReadDigits;
    assert (body + "\n")[..|body|] == body;
  }

  lemma ReadBody(name: string, labels: string, value: string, stamp: string)
    requires labels != "" && labels[0] == '{' && ' ' !in stamp
    ensures var r := ReadSample(Body(name, labels, value, stamp) + "\n");
            r == Some(Reading(name, labels, value, ReadDigits(stamp, 10, 0))) <==> '{' !in name && ' ' !in value
  {
    hide IndexOf, SsParser.LastIndexOf, ReadDigits, ReadSample;
    var body := Body(name, labels, value, stamp);
    if '{' !in name && ' ' !in value {
      LastSpaces(name + labels, value, stamp);
      FirstBrace(name, labels, [' '] + (value + ([' '] + stamp)));
      ReadAt(body, |name|, |name + labels|, |name + labels| + 1 + |value|);
    } else {
      ReadIsClean(body + "\n");
    }
  }

  lemma ReadIsClean(line: string)
    ensures var r := ReadSample(line);
            r.Some? ==> '{' !in r.value.name && ' ' !in r.value.value
  {
    if ReadSample(line).Some? {
      var body := line[..|line| - 1];
      var k := SsParser.LastIndexOf(body, ' ');
      var j := SsParser.LastIndexOf(body[..k], ' ');
      assert body[j + 1..k] == body[..k][j + 1..];
    }
  }

  lemma LineIsBody(env: Env, m: Metric, labels: string)
    ensures Line(env, m, labels) == Body(MetricName(env, m), labels, m.val, Decimal(env.now * 1000)) + "\n"
  {
    hide Decimal;
    var n, d := MetricName(env, m), Decimal(env.now * 1000);
    assert Line(env, m, labels) == n + (labels + " " + m.val + " " + d + "\n");
    assert labels + " " + m.val + " " + d + "\n" == labels + ([' '] + (m.val + ([' '] + d))) + "\n";
  }

  /** A sample line is read as the name, labels, value and time it was printed with exactly if there is no brace in the
      name and no space in the value. */
  lemma SampleReadsBackIff(env: Env, m: Metric, labels: string)
    requires labels != "" && labels[0] == '{'
    ensures ReadSample(Line(env, m, labels)) == Some(SampleOf(env, m, labels)) <==> CleanSample(env, m)
  {
    hide ReadSample, Line, Decimal, ReadDigits, Body;
    LineIsBody(env, m, labels);
    StampReads(env.now * 1000);
    ReadBody(MetricName(env, m), labels, m.val, Decimal(env.now * 1000));
    var n := MetricName(env, m);
    assert n == "gala_gopher_" + env.tblName + "_" + m.name;
  }

  // ---- the lines of a row

  predicate Exposes(m: Metric) {
    m.typ == "counter" || m.typ == "gauge" || m.typ == "histogram" || m.typ == "summary"
  }

  /** The metrics of a row that a client sees, in order. */
  function Exposed(ms: seq<Metric>): seq<Metric> {
    if ms == [] then []
    else
      var m := ms[|ms| - 1];
      Exposed(ms[..|ms| - 1]) + if Exposes(m) then [m] else []
  }

  lemma {:induction false} LinesAppend(env: Env, a: seq<Metric>, b: seq<Metric>, labels: string)
    ensures Lines(env, a + b, labels) == Lines(env, a, labels) + Lines(env, b, labels)
  {
    hide Line;
    if a == [] {
      assert a + b == b;
    } else {
      assert (a + b)[1..] == a[1..] + b;
      LinesAppend(env, a[1..], b, labels);
    }
  }

  /** One line per counter, gauge, histogram or summary, in order. */
  lemma {:induction false} LinesAreExposed(env: Env, ms: seq<Metric>, labels: string)
    ensures |Lines(env, ms, labels)| == |Exposed(ms)|
    ensures forall i :: 0 <= i < |Exposed(ms)| ==> Lines(env, ms, labels)[i] == Line(env, Exposed(ms)[i], labels)
    decreases |ms|
  {
    hide Line;
    if ms != [] {
      var front, m := ms[..|ms| - 1], ms[|ms| - 1];
      LinesAreExposed(env, front, labels);
      LinesAppend(env, front, [m], labels);
      assert ms == front + [m];
      assert Lines(env, [m], labels) == if Exposes(m) then [Line(env, m, labels)] else [];
    }
  }

  /** The lines of a row are read as its exposed metrics, each with its name, the row's labels, its value and the time,
      exactly if none of them has a brace in its name or a space in its value. */
  lemma RowReadsBackIff(env: Env, row: Row)
    ensures |RowLines(env, row)| == |Exposed(row.metrics)|
    ensures (forall i :: 0 <= i < |RowLines(env, row)| ==>
               ReadSample(RowLines(env, row)[i])
               == Some(SampleOf(env, Exposed(row.metrics)[i], LabelText(env, row.metrics)))) <==>
            forall i :: 0 <= i < |Exposed(row.metrics)| ==> CleanSample(env, Exposed(row.metrics)[i])
  {
    hide ReadSample, Line, CleanSample, Pairs;
    var labels, seen := LabelText(env, row.metrics), Exposed(row.metrics);
    assert labels[0] == '{';
    LinesAreExposed(env, row.metrics, labels);
    forall i | 0 <= i < |seen|
      ensures ReadSample(RowLines(env, row)[i]) == Some(SampleOf(env, seen[i], labels)) <==> CleanSample(env, seen[i])
    {
      SampleReadsBackIff(env, seen[i], labels);
    }
  }

  // ---- labels

  datatype Label = Label(name: string, val: string)

  /** One label: the name up to an equals sign, the value between quotes; and what stands behind it. */
  function ReadLabel(s: string): Option<(Label, string)> {
    var i := IndexOf(s, '=');
    if |s| < i + 2 || s[i + 1] != '"' then None
    else
      var j := IndexOf(s[i + 2..], '"');
      if j == |s[i + 2..]| then None
      else Some((Label(s[..i], s[i + 2..][..j]), s[i + 2..][j + 1..]))
  }

  /** Labels separated by commas. */
  function ReadLabels(s: string): Option<seq<Label>>
    decreases |s|
  {
    match ReadLabel(s)
    case None => None
    case Some((l, rest)) =>
      if rest == "" then Some([l])
      else if rest[0] != ',' then None
      else
        match ReadLabels(rest[1..])
        case None => None
        case Some(ls) => Some([l] + ls)
  }

  /** The labels between the braces; a row without labels of its own has a comma in front. */
  function ReadLabelText(s: string): Option<seq<Label>> {
    if |s| < 2 || s[0] != '{' || s[|s| - 1] != '}' then None
    else
      var body := s[1..|s| - 1];
      ReadLabels(if body != "" && body[0] == ',' then body[1..] else body)
  }

  function OwnLabels(ms: seq<Metric>): seq<Label> {
    if ms == [] then []
    else
      var m := ms[|ms| - 1];
      OwnLabels(ms[..|ms| - 1]) + if m.typ == "label" || m.typ == "key" then [Label(m.name, m.val)] else []
  }

  function LabelsOf(env: Env, ms: seq<Metric>): seq<Label> {
    OwnLabels(ms) + NodeLabels(env)
  }

  function NodeLabels(env: Env): seq<Label> {
    [Label("machine_id", env.machineId), Label("hostname", env.hostName)]
  }

  predicate CleanLabels(ls: seq<Label>) {
    forall i :: 0 <= i < |ls| ==> '=' !in ls[i].name && '"' !in ls[i].val
  }

  function LabelPair(l: Label): string {
    l.name + "=\"" + l.val + "\""
  }

  function JoinedLabels(ls: seq<Label>): string
    requires ls != []
  {
    LabelPair(ls[0]) + if |ls| == 1 then "" else "," + JoinedLabels(ls[1..])
  }

  lemma {:induction false} JoinedAppend(a: seq<Label>, b: seq<Label>)
    requires a != [] && b != []
    ensures JoinedLabels(a + b) == JoinedLabels(a) + ("," + JoinedLabels(b))
  {
    hide LabelPair;
    if |a| == 1 {
      assert (a + b)[1..] == b && (a + b)[0] == a[0];
      assert LabelPair(a[0]) + "" == LabelPair(a[0]);
    } else {
      assert (a + b)[1..] == a[1..] + b && (a + b)[0] == a[0];
      JoinedAppend(a[1..], b);
    }
  }

  lemma AnySnoc(front: seq<Metric>, m: Metric)
    ensures AnyLabel(front + [m]) <==> AnyLabel(front) || IsLabel(m)
  {
    hide IsLabel;
    var ms := front + [m];
    assert ms[|front|] == m && forall i :: 0 <= i < |front| ==> ms[i] == front[i];
  }

  lemma OwnSnoc(front: seq<Metric>, m: Metric)
    ensures OwnLabels(front + [m]) == if IsLabel(m) then OwnLabels(front) + [Label(m.name, m.val)] else OwnLabels(front)
    ensures Pairs(front + [m])
            == if IsLabel(m) then
                 Pairs(front) + ((if AnyLabel(front) then "," else "") + LabelPair(Label(m.name, m.val)))
               else Pairs(front)
  {
    assert (front + [m])[..|front|] == front;
    hide AnyLabel;
  }

  lemma {:induction false} PairsAreJoined(ms: seq<Metric>)
    ensures AnyLabel(ms) <==> OwnLabels(ms) != []
    ensures Pairs(ms) == if OwnLabels(ms) == [] then "" else JoinedLabels(OwnLabels(ms))
    decreases |ms|
  {
    if ms != [] {
      var front, m := ms[..|ms| - 1], ms[|ms| - 1];
      PairsAreJoined(front);
      AnySnoc(front, m);
      OwnSnoc(front, m);
      assert ms == front + [m];
      hide AnyLabel, JoinedLabels, OwnLabels, Pairs, LabelPair, IsLabel;
      var l := Label(m.name, m.val);
      if IsLabel(m) {
        OneJoined(l);
        if OwnLabels(front) != [] {
          JoinedAppend(OwnLabels(front), [l]);
        } else {
          assert OwnLabels(ms) == [l];
        }
      }
    }
  }

  lemma OneJoined(l: Label)
    ensures JoinedLabels([l]) == LabelPair(l) == "" + ("" + LabelPair(l))
  {
    hide LabelPair;
  }

  /** The machine and the host are the last two labels. */
  lemma LabelTextSplits(env: Env, ms: seq<Metric>)
    ensures LabelText(env, ms) == "{" + Pairs(ms) + ("," + JoinedLabels(NodeLabels(env))) + "}"
  {
    hide Pairs;
    var a, b := Label("machine_id", env.machineId), Label("hostname", env.hostName);
    assert [a, b][1..] == [b];
    assert JoinedLabels([b]) == LabelPair(b);
    assert JoinedLabels([a, b]) == LabelPair(a) + ("," + LabelPair(b));
    assert ",machine_id=\"" + env.machineId + "\",hostname=\"" + env.hostName + "\""
        == "," + (LabelPair(a) + ("," + LabelPair(b)));
  }

  lemma LabelTextJoined(env: Env, ms: seq<Metric>)
    ensures LabelText(env, ms)
            == "{" + ((if OwnLabels(ms) == [] then "," else "") + JoinedLabels(LabelsOf(env, ms))) + "}"
  {
    PairsAreJoined(ms);
    LabelTextSplits(env, ms);
    var own, last := OwnLabels(ms), NodeLabels(env);
    assert last != [];
    hide JoinedLabels, Pairs, LabelText, NodeLabels, OwnLabels;
    if own != [] {
      JoinedAppend(own, last);
      Around(JoinedLabels(own), "," + JoinedLabels(last));
    } else {
      assert own + last == last;
      Around("", "," + JoinedLabels(last));
    }
  }

  lemma Around(a: string, b: string)
    ensures "{" + a + b + "}" == "{" + (a + b) + "}" && "" + b == b
  {
  }

  lemma ReadOne(l: Label, rest: string)
    requires '=' !in l.name && '"' !in l.val
    ensures ReadLabel(LabelPair(l) + rest) == Some((l, rest))
  {
    hide IndexOf;
    var s := LabelPair(l) + rest;
    var y := l.val + ['"'] + rest;
    assert s == l.name + ['='] + ("\"" + y);
    IndexOfAppend(l.name, '=', "\"" + y);
    assert s[|l.name| + 2..] == y;
    IndexOfAppend(l.val, '"', rest);
    assert s[..|l.name|] == l.name && s[|l.name| + 1] == '"';
    assert y[..|l.val|] == l.val && y[|l.val| + 1..] == rest;
  }

  lemma {:induction false} JoinedReads(ls: seq<Label>)
    requires ls != [] && CleanLabels(ls)
    ensures ReadLabels(JoinedLabels(ls)) == Some(ls)
  {
    hide ReadLabel, LabelPair;
    var rest := if |ls| == 1 then "" else "," + JoinedLabels(ls[1..]);
    ReadOne(ls[0], rest);
    assert JoinedLabels(ls) == LabelPair(ls[0]) + rest;
    if |ls| > 1 {
      JoinedReads(ls[1..]);
      assert rest[1..] == JoinedLabels(ls[1..]) && [ls[0]] + ls[1..] == ls;
    } else {
      assert [ls[0]] == ls;
    }
  }

  lemma {:induction false} ReadsClean(s: string)
    ensures ReadLabels(s).Some? ==> CleanLabels(ReadLabels(s).value)
    decreases |s|
  {
    hide IndexOf;
    if ReadLabel(s).Some? {
      var rest := ReadLabel(s).value.1;
      if rest != "" {
        ReadsClean(rest[1..]);
      }
    }
  }

  /** The label text of a row is read as its label and key metrics, in order, and the machine and host behind them,
      exactly if no name holds an equals sign, no value a quote, and the first name does not begin with a comma. */
  lemma LabelsReadBackIff(env: Env, ms: seq<Metric>)
    ensures ReadLabelText(LabelText(env, ms)) == Some(LabelsOf(env, ms)) <==>
            && CleanLabels(LabelsOf(env, ms))
            && (OwnLabels(ms) != [] ==> !("," <= OwnLabels(ms)[0].name))
  {
    hide ReadLabels, JoinedLabels;
    var own, ls := OwnLabels(ms), LabelsOf(env, ms);
    LabelTextJoined(env, ms);
    var j := JoinedLabels(ls);
    var body := (if own == [] then "," else "") + j;
    assert ("{" + body + "}")[1..|body| + 1] == body;
    FirstName(ls);
    ReadsClean(j);
    if own == [] {
      assert body[1..] == j;
      if CleanLabels(ls) {
        JoinedReads(ls);
      }
    } else {
      assert body == j && ls[0] == own[0];
      if "," <= j {
        ReadsClean(j[1..]);
        CommaLost(ls);
      } else if CleanLabels(ls) {
        JoinedReads(ls);
      }
    }
  }

  lemma FirstName(ls: seq<Label>)
    requires ls != []
    ensures JoinedLabels(ls) != "" && ("," <= JoinedLabels(ls) <==> "," <= ls[0].name)
  {
    var j, n := JoinedLabels(ls), ls[0].name;
    assert j[0] == if n == "" then '=' else n[0];
  }

  lemma NameBefore(s: string, k: nat)
    requires k < |s| && s[k] == '='
    ensures ReadLabels(s).Some? ==> ReadLabels(s).value != [] && |ReadLabels(s).value[0].name| <= k
  {
    var i := IndexOf(s, '=');
    assert forall m :: 0 <= m < i ==> s[m] == s[..i][m];
    assert i <= k;
  }

  /** A comma in front of the first name is taken for the one of a row without labels. */
  lemma CommaLost(ls: seq<Label>)
    requires ls != [] && "," <= ls[0].name
    ensures ReadLabels(JoinedLabels(ls)[1..]) != Some(ls)
  {
    hide ReadLabels;
    var j, k := JoinedLabels(ls), |ls[0].name|;
    assert j[k] == '=' && j[1..][k - 1] == '=';
    NameBefore(j[1..], k - 1);
  }
}
