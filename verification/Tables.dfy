/** A table of the in-memory database: a bounded list of rows in insertion order, upserted by key. */
module Tables {
  import opened Text
  import opened Records

  // ---- the list of rows

  /** Position of the row with this key, or the length if there is none. */
  function Find(rows: seq<Row>, key: string): (i: nat)
    ensures i <= |rows|
    ensures i < |rows| ==> rows[i].key == key
    ensures forall j :: 0 <= j < i ==> rows[j].key != key
  {
    if rows == [] || rows[0].key == key then 0 else 1 + Find(rows[1..], key)
  }

  predicate HasKey(rows: seq<Row>, key: string) {
    Find(rows, key) < |rows|
  }

  function Without(rows: seq<Row>, key: string): seq<Row> {
    var i := Find(rows, key);
    if i < |rows| then rows[..i] + rows[i + 1..] else rows
  }

  /** Delete the old row, refuse if that leaves no room, otherwise append. */
  function Upsert(rows: seq<Row>, capability: nat, row: Row): (bool, seq<Row>) {
    var kept := Without(rows, row.key);
    if |kept| >= capability then (false, kept) else (true, kept + [row])
  }

  ghost predicate Distinct(rows: seq<Row>) {
    forall i, j :: 0 <= i < j < |rows| ==> rows[i].key != rows[j].key
  }

  ghost predicate TableInv(rows: seq<Row>, capability: nat) {
    Distinct(rows) && |rows| <= capability
  }

  /** The finite map a list of rows stands for. */
  function AsMap(rows: seq<Row>): map<string, Row> {
    if rows == [] then map[] else AsMap(rows[..|rows| - 1])[rows[|rows| - 1].key := rows[|rows| - 1]]
  }

  /** `m` holds exactly the rows, each under its key. */
  ghost predicate IsMapOf(rows: seq<Row>, m: map<string, Row>) {
    && |m| == |rows|
    && (forall i :: 0 <= i < |rows| ==> rows[i].key in m && m[rows[i].key] == rows[i])
    && (forall k :: k in m ==> HasKey(rows, k))
  }

  lemma RowHasKey(rows: seq<Row>, j: nat)
    requires j < |rows|
    ensures HasKey(rows, rows[j].key) && Find(rows, rows[j].key) <= j
  {
  }

  lemma InsertSize(m: map<string, Row>, k: string, row: Row)
    requires k !in m
    ensures |m[k := row]| == |m| + 1
  {
    assert m[k := row].Keys == m.Keys + {k};
  }

  lemma AppendToMap(rows: seq<Row>, m: map<string, Row>, row: Row)
    requires IsMapOf(rows, m) && !HasKey(rows, row.key)
    ensures IsMapOf(rows + [row], m[row.key := row])
  {
    hide Find;
    var m' := m[row.key := row];
    NoSuchKey(rows, m, row.key);
    InsertSize(m, row.key, row);
    forall i | 0 <= i < |rows| + 1
      ensures (rows + [row])[i].key in m' && m'[(rows + [row])[i].key] == (rows + [row])[i]
    {
      if i < |rows| {
        assert rows[i].key in m;
      }
    }
    forall k | k in m'
      ensures HasKey(rows + [row], k)
    {
      FindAppend(rows, [row], k);
      RowHasKey([row], 0);
    }
  }

  lemma {:induction false} MapLookup(rows: seq<Row>)
    requires Distinct(rows)
    ensures IsMapOf(rows, AsMap(rows))
  {
    hide Find;
    if rows != [] {
      var n := |rows| - 1;
      var front := rows[..n];
      MapLookup(front);
      NotInFront(rows);
      assert rows == front + [rows[n]];
      AppendToMap(front, AsMap(front), rows[n]);
    }
  }

  lemma NotInFront(rows: seq<Row>)
    requires Distinct(rows) && rows != []
    ensures !HasKey(rows[..|rows| - 1], rows[|rows| - 1].key)
  {
    var front, key := rows[..|rows| - 1], rows[|rows| - 1].key;
    var i := Find(front, key);
  }

  lemma SameMap(rows: seq<Row>, m: map<string, Row>, m': map<string, Row>)
    requires IsMapOf(rows, m) && IsMapOf(rows, m')
    ensures m == m'
  {
    forall k | k in m || k in m'
      ensures k in m && k in m' && m[k] == m'[k]
    {
      var i := Find(rows, k);
      assert rows[i].key == k;
    }
  }

  /** The rows left after removing a key, one by one. */
  lemma WithoutAt(rows: seq<Row>, key: string, j: nat)
    requires j < |Without(rows, key)|
    ensures Without(rows, key)[j] == if j < Find(rows, key) then rows[j] else rows[j + 1]
  {
  }

  lemma WithoutKeepsOthers(rows: seq<Row>, key: string)
    requires Distinct(rows)
    ensures Distinct(Without(rows, key)) && !HasKey(Without(rows, key), key)
  {
    var kept := Without(rows, key);
    forall j | 0 <= j < |kept|
      ensures kept[j].key != key
    {
      WithoutAt(rows, key, j);
    }
  }

  /** Removing a row never moves another one backwards, and forward by at most one place. */
  lemma PositionAfterRemoval(rows: seq<Row>, key: string, k: string)
    requires k != key
    ensures var kept := Without(rows, key);
            && Find(kept, k) == (if Find(rows, key) < Find(rows, k) then Find(rows, k) - 1 else Find(rows, k))
            && (HasKey(kept, k) <==> HasKey(rows, k))
  {
    var i := Find(rows, key);
    if i < |rows| {
      var a, b := rows[..i], rows[i + 1..];
      assert rows == a + ([rows[i]] + b);
      FindAppend(a, b, k);
      FindAppend(a, [rows[i]] + b, k);
      FindAppend([rows[i]], b, k);
      assert Find([rows[i]], k) == 1;
    }
  }

  lemma RemoveFromMap(rows: seq<Row>, m: map<string, Row>, key: string)
    requires Distinct(rows) && IsMapOf(rows, m)
    ensures IsMapOf(Without(rows, key), m - {key})
  {
    hide Find;
    var kept, m' := Without(rows, key), m - {key};
    WithoutKeepsOthers(rows, key);
    if HasKey(rows, key) {
      assert rows[Find(rows, key)].key in m;
      assert m'.Keys == m.Keys - {key};
    } else {
      NoSuchKey(rows, m, key);
      assert m' == m;
    }
    forall j | 0 <= j < |kept|
      ensures kept[j].key in m' && m'[kept[j].key] == kept[j]
    {
      WithoutAt(rows, key, j);
      RowHasKey(kept, j);
    }
    forall k | k in m'
      ensures HasKey(kept, k)
    {
      PositionAfterRemoval(rows, key, k);
    }
  }

  lemma NoSuchKey(rows: seq<Row>, m: map<string, Row>, key: string)
    requires IsMapOf(rows, m) && !HasKey(rows, key)
    ensures key !in m
  {
  }

  lemma {:induction false} FindAppend(a: seq<Row>, b: seq<Row>, k: string)
    ensures Find(a + b, k) == if HasKey(a, k) then Find(a, k) else |a| + Find(b, k)
  {
    if a == [] {
      assert a + b == b;
    } else {
      assert (a + b)[1..] == a[1..] + b;
      FindAppend(a[1..], b, k);
    }
  }

  /** The upsert is the update of a bounded finite map: an existing key never fails, a failure changes nothing. */
  lemma UpsertRefinesMap(rows: seq<Row>, capability: nat, row: Row)
    requires TableInv(rows, capability)
    ensures var (ok, rows') := Upsert(rows, capability, row);
            && TableInv(rows', capability)
            && (ok <==> row.key in AsMap(rows) || |AsMap(rows)| < capability)
            && (ok ==> AsMap(rows') == AsMap(rows)[row.key := row])
            && (!ok ==> rows' == rows)
  {
    hide Find, AsMap;
    var kept := Without(rows, row.key);
    var m := AsMap(rows);
    WithoutKeepsOthers(rows, row.key);
    MapLookup(rows);
    RemoveFromMap(rows, m, row.key);
    var (ok, rows') := Upsert(rows, capability, row);
    if HasKey(rows, row.key) {
      assert rows[Find(rows, row.key)].key in m;
    } else {
      NoSuchKey(rows, m, row.key);
    }
    if ok {
      ReplacedRow(kept, m, row);
    }
  }

  lemma ReplacedRow(kept: seq<Row>, m: map<string, Row>, row: Row)
    requires Distinct(kept) && !HasKey(kept, row.key) && IsMapOf(kept, m - {row.key})
    ensures Distinct(kept + [row]) && AsMap(kept + [row]) == m[row.key := row]
  {
    hide Find, AsMap, IsMapOf;
    AppendToMap(kept, m - {row.key}, row);
    assert (m - {row.key})[row.key := row] == m[row.key := row];
    AppendKeepsDistinct(kept, row);
    MapLookup(kept + [row]);
    SameMap(kept + [row], AsMap(kept + [row]), m[row.key := row]);
  }

  lemma AppendKeepsDistinct(rows: seq<Row>, row: Row)
    requires Distinct(rows) && !HasKey(rows, row.key)
    ensures Distinct(rows + [row])
  {
  }

  /** Over an upsert the row of any other key keeps its content and only ever moves forward. */
  lemma UpsertMovesForward(rows: seq<Row>, capability: nat, row: Row, k: string)
    requires k != row.key
    ensures var rows' := Upsert(rows, capability, row).1;
            (HasKey(rows', k) <==> HasKey(rows, k)) && (HasKey(rows, k) ==> Find(rows', k) <= Find(rows, k))
  {
    PositionAfterRemoval(rows, row.key, k);
    FindAppend(Without(rows, row.key), [row], k);
  }

  // ---- the table object

  /** A field of a measurement as the configuration gives it. */
  datatype FieldDef = FieldDef(name: string, description: string, typ: string)

  function MetaOf(fields: seq<FieldDef>): (meta: seq<Metric>)
    ensures |meta| == |fields|
  {
    seq(|fields|, i requires 0 <= i < |fields| => MetricCreate(fields[i].name, fields[i].description, fields[i].typ))
  }

  const TABLE_NAME_LEN: nat := 32

  /** The row a content string stands for in a table with this meta. */
  function RowOf(meta: seq<Metric>, content: string, now: int): Row {
    var vals := ParsedValues(Split(content, '|'), |meta|);
    Row(EncodeKey(KeyValues(meta, vals), KeyCount(meta)), MakeMetrics(meta, vals), now)
  }

  /** The rows after parsing and inserting a content string; unchanged if there are no key fields or no room. */
  function Inserted(meta: seq<Metric>, capability: nat, rows: seq<Row>, content: string, now: int): seq<Row> {
    var (ok, after) := Upsert(rows, capability, RowOf(meta, content, now));
    if KeyCount(meta) > 0 && ok then after else rows
  }

  class Table {
    const name: string
    const capability: nat
    var meta: seq<Metric>
    var recordKeySize: nat
    var records: seq<Row>

    ghost predicate Valid()
      reads this
    {
      TableInv(records, capability) && recordKeySize == KeyCount(meta) * VAL_LEN
    }

    constructor (name: string, capability: nat)
      ensures Valid() && this.name == Bounded(name, TABLE_NAME_LEN) && this.capability == capability
      ensures meta == [] && records == []
    {
      this.name := Bounded(name, TABLE_NAME_LEN);
      this.capability := capability;
      meta, recordKeySize, records := [], 0, [];
    }

    /** Loading a measurement fixes the meta and sizes the key by its key-typed fields; no fields is an error. */
    method Load(fields: seq<FieldDef>) returns (ret: int)
      requires Valid()
      modifies this`meta, this`recordKeySize
      ensures Valid()
      ensures ret == (if fields == [] then -1 else 0)
      ensures ret == 0 ==> meta == MetaOf(fields)
      ensures ret != 0 ==> meta == old(meta)
    {
      if |fields| == 0 {
        return -1;
      }
      var rec := new Record(|fields|, 0);
      var keyNum, i := 0, 0;
      while i < |fields|
        invariant 0 <= i <= |fields| && rec.Valid() && fresh(rec)
        invariant rec.metrics == MetaOf(fields)[..i]
        invariant keyNum == KeyCount(rec.metrics)
      {
        ghost var before := rec.metrics;
        var metric := MetricCreate(fields[i].name, fields[i].description, fields[i].typ);
        ret := rec.AddMetric(metric);
        assert rec.metrics[..|rec.metrics| - 1] == before;
        if fields[i].typ == "key" {
          keyNum := keyNum + 1;
        }
        i := i + 1;
      }
      meta := rec.metrics;
      recordKeySize := keyNum * VAL_LEN;
      ret := 0;
    }

    method AddRecord(record: Row, now: int) returns (ret: int)
      requires Valid()
      modifies this`records
      ensures Valid()
      ensures var (ok, rows) := Upsert(old(records), capability, record.(updateTime := now));
              ret == (if ok then 0 else -1) && records == rows
    {
      var row := record.(updateTime := now);
      UpsertRefinesMap(records, capability, row);
      var i := Find(records, record.key);
      if i < |records| {
        records := records[..i] + records[i + 1..];
      }
      if |records| >= capability {
        return -1;
      }
      records := records + [row];
      ret := 0;
    }

    /** Parse and insert. It fails only for a table without key fields or a full table, and then changes nothing. */
    method CreateRec(content: string, now: int) returns (ok: bool)
      requires Valid() && '%' !in content
      modifies this`records
      ensures Valid()
      ensures ok <==> KeyCount(meta) > 0 && Upsert(old(records), capability, RowOf(meta, content, now)).0
      ensures records == Inserted(meta, capability, old(records), content, now)
    {
      if recordKeySize == 0 {
        return false;
      }
      var record := new Record(|meta|, recordKeySize);
      var ret := ParseContent(meta, record, content, true);
      if ret != 0 {
        return false;
      }
      ghost var row := RowOf(meta, content, now);
      assert record.View().(updateTime := now) == row;
      UpsertRefinesMap(records, capability, row);
      ret := AddRecord(record.View(), now);
      ok := ret == 0;
    }
  }
}
