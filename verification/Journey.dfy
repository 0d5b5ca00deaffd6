/** From a probe's printf call to the sample a client reads off the page. */
module Journey {
  import opened Options
  import opened Words
  import opened Text
  import opened Records
  import opened Tables
  import opened Exporter
  import opened Ingress
  import RoundTrip
  import Printf
  import opened Lifecycle
  import opened PromText

  lemma {:induction false} ExposedHas(ms: seq<Metric>, i: nat) returns (k: nat)
    requires i < |ms| && Exposes(ms[i])
    ensures k < |Exposed(ms)| && Exposed(ms)[k] == ms[i]
    decreases |ms|
  {
    if i == |ms| - 1 {
      k := |Exposed(ms)| - 1;
    } else {
      k := ExposedHas(ms[..|ms| - 1], i);
    }
  }

  lemma SampleInRow(env: Env, row: Row, i: nat) returns (k: nat)
    requires i < |row.metrics| && Exposes(row.metrics[i]) && CleanSample(env, row.metrics[i])
    ensures k < |RowLines(env, row)|
    ensures ReadSample(RowLines(env, row)[k]) == Some(SampleOf(env, row.metrics[i], LabelText(env, row.metrics)))
  {
    hide ReadSample, Line, CleanSample, Pairs;
    var labels := LabelText(env, row.metrics);
    assert labels[0] == '{';
    k := ExposedHas(row.metrics, i);
    LinesAreExposed(env, row.metrics, labels);
    SampleReadsBackIff(env, row.metrics[i], labels);
  }

  /** The field is exported, and its name and the printed text fit and hold nothing a reader stumbles over. */
  predicate Readable(f: FieldDef, table: string, text: string) {
    && (f.typ == "counter" || f.typ == "gauge" || f.typ == "histogram" || f.typ == "summary")
    && |f.name| < NAME_LEN && '{' !in f.name && '{' !in table
    && |text| < VAL_LEN && ' ' !in text
  }

  /** The whole way. A probe prints one value per field of its table; the line is routed to the table and upserted at
      `t`; a scrape at `env.now` reaches the row with room while it is at most the timeout old. Then the page ends with
      the row's lines, and for every exported field one of them is read back as the field's name, the printed text and
      the time of the scrape. */
  lemma PrintedValueIsRead(items: seq<RoundTrip.Item>, fields: seq<FieldDef>, capability: nat, rows: seq<Row>, t: int,
                           env: Env, size: int, ahead: string, line: string, i: nat) returns (k: nat)
    requires var name := env.tblName; name != "" && '|' !in name && |name| < TABLE_NAME_LEN
    requires |items| == |fields| > 0 && RoundTrip.Clean(RoundTrip.Texts(items)) && RoundTrip.Texts(items)[0] != ""
    requires i < |items| && Readable(fields[i], env.tblName, NullFor(RoundTrip.ItemText(items[i])))
    requires var all := [RoundTrip.StrItem(env.tblName)] + items;
             Printf.Format(RoundTrip.LineFormat(all), RoundTrip.Args(all)) == Some(line)
    requires KeyCount(MetaOf(fields)) > 0 && Distinct(rows)
    requires var row := RowOf(MetaOf(fields), ContentFor(line, env.tblName), t);
             && Upsert(rows, capability, row).0
             && Printable(env, [row]) && |ahead| + |Concat(RowLines(env, row))| < size
    requires var after := Inserted(MetaOf(fields), capability, rows, ContentFor(line, env.tblName), t);
             var front := after[..|after| - 1];
             && ScrapeRows(env, front, size, 0) == Done(ahead, [])
             && |Recent(front, env.now, env.timeout)| < PERIOD_RECORDS
    requires env.now <= t + env.timeout
    ensures AddressedTo(line, env.tblName)
    ensures var after := Inserted(MetaOf(fields), capability, rows, ContentFor(line, env.tblName), t);
            var row := RowOf(MetaOf(fields), ContentFor(line, env.tblName), t);
            && ScrapeTable(env, after, size) == Done(ahead + Concat(RowLines(env, row)) + "\n", [])
            && k < |RowLines(env, row)|
            && ReadSample(RowLines(env, row)[k])
               == Some(Reading("gala_gopher_" + env.tblName + "_" + fields[i].name, LabelText(env, row.metrics),
                               NullFor(RoundTrip.ItemText(items[i])), 1000 * env.now))
  {
    hide *;
    var content := ContentFor(line, env.tblName);
    var row := RowOf(MetaOf(fields), content, t);
    var l := RoundTrip.EndToEnd(env.tblName, items, MetaOf(fields), t);
    StoredThenScraped(fields, capability, rows, content, t, env, size, ahead);
    FieldIsMetric(fields, i, env.tblName, NullFor(RoundTrip.ItemText(items[i])), env, LabelText(env, row.metrics));
    k := SampleInRow(env, row, i);
  }

  lemma FieldIsMetric(fields: seq<FieldDef>, i: nat, table: string, text: string, env: Env, labels: string)
    requires i < |fields| && Readable(fields[i], table, text) && table == env.tblName
    ensures var m := MetricOf(MetaOf(fields)[i], text);
            && Exposes(m) && CleanSample(env, m)
            && SampleOf(env, m, labels)
               == Reading("gala_gopher_" + table + "_" + fields[i].name, labels, text, 1000 * env.now)
  {
    BoundedTwice(fields[i].description, DESC_LEN);
  }
}
