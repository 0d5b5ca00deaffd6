/** The life of a row: from the configured fields and the content of a message to the stored row, and from there to the
    scraped page or to its expiry, in plain numbers. */
module Lifecycle {
  import opened Text
  import opened Records
  import opened Tables
  import opened Exporter

  // ---- the stored row

  /** What is stored for a content: one metric per value, named and typed as the field was configured, holding the
      value, stamped with the time. */
  ghost predicate IsRowFor(row: Row, fields: seq<FieldDef>, vals: seq<string>, now: int) {
    && row.updateTime == now
    && |row.metrics| == |vals| <= |fields|
    && forall i :: 0 <= i < |vals| ==>
         && row.metrics[i].name == Bounded(fields[i].name, NAME_LEN)
         && row.metrics[i].description == Bounded(fields[i].description, DESC_LEN)
         && row.metrics[i].typ == Bounded(fields[i].typ, TYPE_LEN)
         && row.metrics[i].val == Bounded(vals[i], VAL_LEN)
  }

  lemma BoundedTwice(s: string, size: nat)
    requires size > 0
    ensures Bounded(Bounded(s, size), size) == Bounded(s, size)
  {
  }

  lemma RowOfFields(fields: seq<FieldDef>, content: string, now: int)
    ensures IsRowFor(RowOf(MetaOf(fields), content, now), fields, ParsedValues(Split(content, '|'), |fields|), now)
  {
    hide Bounded, ParsedValues, Split, EncodeKey, KeyValues, KeyCount;
    var meta, vals := MetaOf(fields), ParsedValues(Split(content, '|'), |fields|);
    forall i | 0 <= i < |vals|
      ensures var m := MakeMetrics(meta, vals)[i];
              && m.name == Bounded(fields[i].name, NAME_LEN)
              && m.description == Bounded(fields[i].description, DESC_LEN)
              && m.typ == Bounded(fields[i].typ, TYPE_LEN) && m.val == Bounded(vals[i], VAL_LEN)
    {
      BoundedTwice(fields[i].name, NAME_LEN);
      BoundedTwice(fields[i].description, DESC_LEN);
      BoundedTwice(fields[i].typ, TYPE_LEN);
    }
  }

  /** How many key fields come before field `i`. */
  function KeyRank(fields: seq<FieldDef>, i: nat): nat
    requires i <= |fields|
  {
    if i == 0 then 0 else KeyRank(fields, i - 1) + if fields[i - 1].typ == "key" then 1 else 0
  }

  lemma {:induction false} RankIsCount(fields: seq<FieldDef>, i: nat)
    requires i <= |fields|
    ensures KeyCount(MetaOf(fields)[..i]) == KeyRank(fields, i)
    decreases i
  {
    if i > 0 {
      RankIsCount(fields, i - 1);
      assert MetaOf(fields)[..i][..i - 1] == MetaOf(fields)[..i - 1];
    }
  }

  lemma {:induction false} KeyValueAt(meta: seq<Metric>, vals: seq<string>, i: nat)
    requires i < |vals| <= |meta| && IsKey(meta[i])
    ensures KeyCount(meta[..i]) < |KeyValues(meta, vals)| && KeyValues(meta, vals)[KeyCount(meta[..i])] == vals[i]
    decreases |vals|
  {
    var n := |vals| - 1;
    assert meta[..n + 1][..n] == meta[..n];
    if i < n {
      KeyValueAt(meta, vals[..n], i);
    }
  }

  lemma {:induction false} CountGrows(meta: seq<Metric>, n: nat)
    requires n <= |meta|
    ensures KeyCount(meta[..n]) <= KeyCount(meta)
    decreases |meta|
  {
    if n < |meta| {
      CountGrows(meta[..|meta| - 1], n);
      assert meta[..|meta| - 1][..n] == meta[..n];
    } else {
      assert meta[..n] == meta;
    }
  }

  /** The key of a row holds the value of each key field in the slot of its rank, cut to what fits and ended by a
      NUL. */
  lemma KeySlots(fields: seq<FieldDef>, content: string, now: int, i: nat)
    requires i < |ParsedValues(Split(content, '|'), |fields|)| && fields[i].typ == "key"
    ensures var row, r := RowOf(MetaOf(fields), content, now), KeyRank(fields, i);
            var v := Bounded(ParsedValues(Split(content, '|'), |fields|)[i], VAL_LEN);
            && |row.key| == KeyRank(fields, |fields|) * VAL_LEN
            && r * VAL_LEN + |v| < |row.key|
            && row.key[r * VAL_LEN..r * VAL_LEN + |v|] == v && row.key[r * VAL_LEN + |v|] == '\0'
  {
    hide ParsedValues, Split, EncodeKey, KeyChar, Bounded;
    var meta, vals := MetaOf(fields), ParsedValues(Split(content, '|'), |fields|);
    var key, r := EncodeKey(KeyValues(meta, vals), KeyCount(meta)), KeyRank(fields, i);
    RankIsCount(fields, i);
    RankIsCount(fields, |fields|);
    assert meta[..|fields|] == meta;
    KeyValueAt(meta, vals, i);
    CountGrows(meta, |vals|);
    SlotIs(KeyValues(meta, vals), KeyCount(meta), r);
  }

  lemma SlotIs(vals: seq<string>, slots: nat, r: nat)
    requires r < |vals| <= slots
    ensures var key, v := EncodeKey(vals, slots), Bounded(vals[r], VAL_LEN);
            && r * VAL_LEN + |v| < |key|
            && key[r * VAL_LEN..r * VAL_LEN + |v|] == v && key[r * VAL_LEN + |v|] == '\0'
  {
    var key, v := EncodeKey(vals, slots), SlotText(vals, r);
    SlotEnds(vals, r);
    SlotChar(vals, slots, r, |v|);
    forall o: nat | o < |v|
      ensures r * VAL_LEN + o < |key| && key[r * VAL_LEN + o] == v[o]
    {
      SlotChar(vals, slots, r, o);
    }
  }

  /** Whoever is stored is stored last, and the rows of other keys stay in front of it, in their order. */
  ghost predicate StoredLast(before: seq<Row>, after: seq<Row>, row: Row) {
    && after != [] && after[|after| - 1] == row
    && var kept := after[..|after| - 1];
       && (kept == before || exists i :: 0 <= i < |before| && before[i].key == row.key
                                         && kept == before[..i] + before[i + 1..])
       && forall j :: 0 <= j < |kept| ==> kept[j].key != row.key
  }

  lemma UpsertGoesLast(rows: seq<Row>, capability: nat, row: Row)
    requires Distinct(rows)
    ensures Upsert(rows, capability, row).0 ==> StoredLast(rows, Upsert(rows, capability, row).1, row)
  {
    var i, kept := Find(rows, row.key), Without(rows, row.key);
    var (ok, after) := Upsert(rows, capability, row);
    if ok {
      WithoutKeepsOthers(rows, row.key);
      assert after[..|after| - 1] == kept;
      forall j | 0 <= j < |kept|
        ensures kept[j].key != row.key
      {
        RowHasKey(kept, j);
      }
    }
  }

  // ---- recent and stale rows

  /** The rows that are not older than the timeout. */
  function Recent(rows: seq<Row>, now: int, timeout: int): seq<Row> {
    if rows == [] then []
    else
      var last := rows[|rows| - 1];
      Recent(rows[..|rows| - 1], now, timeout) + if now <= last.updateTime + timeout then [last] else []
  }

  lemma {:induction false} LiveAppend(env: Env, a: seq<Row>, b: seq<Row>)
    ensures Live(env, a + b) == Live(env, a) + Live(env, b)
  {
    hide Expired;
    if a == [] {
      assert a + b == b;
    } else {
      assert (a + b)[1..] == a[1..] + b;
      LiveAppend(env, a[1..], b);
    }
  }

  /** The rows a scrape works on are those whose last upsert is at most the timeout ago. */
  lemma {:induction false} LiveIsRecent(env: Env, rows: seq<Row>)
    ensures Live(env, rows) == Recent(rows, env.now, env.timeout)
    decreases |rows|
  {
    if rows != [] {
      var front, last := rows[..|rows| - 1], rows[|rows| - 1];
      LiveIsRecent(env, front);
      LiveAppend(env, front, [last]);
      assert rows == front + [last];
    }
  }

  /** A scrape of two lists one behind the other. */
  lemma {:induction false} ScrapeAppend(env: Env, a: seq<Row>, b: seq<Row>, size: int, index: nat)
    requires ScrapeRows(env, a, size, index).Done? && ScrapeRows(env, a, size, index).left == []
    requires index + |Live(env, a)| < PERIOD_RECORDS
    ensures var text := ScrapeRows(env, a, size, index).text;
            ScrapeRows(env, a + b, size, index)
            == Behind(text, ScrapeRows(env, b, size - |text|, index + |Live(env, a)|))
    decreases |a|
  {
    hide RowText, Expired;
    if a == [] {
      assert a + b == b;
      BehindNothing(ScrapeRows(env, b, size, index));
    } else {
      assert (a + b)[1..] == a[1..] + b;
      if Expired(env, a[0]) {
        ScrapeAppend(env, a[1..], b, size, index);
      } else {
        var text := RowText(env, a[0], size);
        ScrapeAppend(env, a[1..], b, size - |text|, index + 1);
        var more := ScrapeRows(env, a[1..], size - |text|, index + 1).text;
        BehindTwice(text, more,
                    ScrapeRows(env, b, size - |text| - |more|, index + |Live(env, a)|));
      }
    }
  }

  lemma BehindNothing(o: Outcome)
    ensures Behind("", o) == o
  {
    if o.Done? {
      assert "" + o.text == o.text;
    }
  }

  lemma BehindTwice(a: string, b: string, o: Outcome)
    ensures Behind(a, Behind(b, o)) == Behind(a + b, o)
  {
    if o.Done? {
      assert a + (b + o.text) == a + b + o.text;
    }
  }

  /** What becomes of a stored row. A content is upserted at `t`, and the table is scraped at `env.now`; the rows ahead
      of it go through and fewer than 100 of them are recent. Then exactly if the row is at most the timeout old it is
      printed, all its lines, as long as they leave a byte free; otherwise it is deleted without a trace. */
  lemma StoredThenScraped(fields: seq<FieldDef>, capability: nat, rows: seq<Row>, content: string, t: int, env: Env,
                          size: int, text: string)
    requires Distinct(rows) && KeyCount(MetaOf(fields)) > 0
    requires Upsert(rows, capability, RowOf(MetaOf(fields), content, t)).0
    requires var after := Inserted(MetaOf(fields), capability, rows, content, t);
             var ahead := after[..|after| - 1];
             && ScrapeRows(env, ahead, size, 0) == Done(text, [])
             && |Recent(ahead, env.now, env.timeout)| < PERIOD_RECORDS
    requires var row := RowOf(MetaOf(fields), content, t);
             && Printable(env, [row])
             && |text| + |Concat(RowLines(env, row))| < size
    ensures var row := RowOf(MetaOf(fields), content, t);
            ScrapeTable(env, Inserted(MetaOf(fields), capability, rows, content, t), size)
            == Done(text + (if env.now <= t + env.timeout then Concat(RowLines(env, row)) else "") + "\n", [])
  {
    hide ScrapeRows, ScrapeTable, Upsert, RowOf, RowLines, Concat, Recent, Printable, MetaOf, KeyCount, Distinct;
    var row, after := RowOf(MetaOf(fields), content, t), Inserted(MetaOf(fields), capability, rows, content, t);
    UpsertGoesLast(rows, capability, row);
    RowOfFields(fields, content, t);
    var ahead := after[..|after| - 1];
    assert after == ahead + [row];
    LastRowScraped(env, ahead, row, size, text);
  }

  lemma LastRowScraped(env: Env, ahead: seq<Row>, row: Row, size: int, text: string)
    requires ScrapeRows(env, ahead, size, 0) == Done(text, []) && |Recent(ahead, env.now, env.timeout)| < PERIOD_RECORDS
    requires Printable(env, [row]) && |text| + |Concat(RowLines(env, row))| < size
    ensures ScrapeTable(env, ahead + [row], size)
            == Done(text + (if env.now <= row.updateTime + env.timeout then Concat(RowLines(env, row)) else "") + "\n",
                    [])
  {
    hide ScrapeRows, RowLines, Concat, Recent, Printable, Live;
    LiveIsRecent(env, ahead);
    ScrapeAppend(env, ahead, [row], size, 0);
    OneRow(env, row, size - |text|, |Live(env, ahead)|);
  }

  lemma OneRow(env: Env, row: Row, size: int, index: nat)
    requires Printable(env, [row]) && |Concat(RowLines(env, row))| < size && index < PERIOD_RECORDS
    ensures ScrapeRows(env, [row], size, index)
            == Done(if env.now <= row.updateTime + env.timeout then Concat(RowLines(env, row)) else "", [])
  {
    hide RowText, RowLines, Concat;
    assert [row][0] == row && [row][1..] == [];
    WholeRow(env, row, size);
    assert ScrapeRows(env, [], size, index) == Done("", []);
    assert Concat(RowLines(env, row)) + "" == Concat(RowLines(env, row));
  }
}
