/** The ingress thread's routing: table name off the line, table by name, row into the table. */
module Ingress {
  import opened Text
  import opened Records
  import opened Tables

  /** `buf` is a bar, a table name, and a content that starts with the next bar. */
  ghost predicate IsLine(buf: string, name: string, content: string) {
    && buf == "|" + name + content
    && name != "" && '|' !in name && |name| < TABLE_NAME_LEN
    && content != "" && content[0] == '|'
  }

  /** Succeeds exactly on lines, and then name and content put together are the line again. */
  method GetTableNameAndContent(buf: string) returns (ret: int, tblName: string, content: string)
    ensures ret == 0 || ret == -1
    ensures ret == 0 ==> IsLine(buf, tblName, content)
    ensures ret != 0 ==> forall n, c :: !IsLine(buf, n, c)
  {
    tblName, content := "", "";
    if buf == "" || buf[0] != '|' {
      return -1, tblName, content;
    }
    var p1 := buf[1..];
    var len := IndexOf(p1, '|');
    forall n, c | IsLine(buf, n, c)
      ensures |n| == len < |p1|
    {
      LineSplitsOnce(buf, n, c);
    }
    if len == |p1| || len == 0 || len >= TABLE_NAME_LEN {
      return -1, tblName, content;
    }
    tblName := p1[..len];
    content := p1[len..];
    assert buf == "|" + tblName + content;
    ret := 0;
  }

  lemma LineSplitsOnce(buf: string, name: string, content: string)
    requires IsLine(buf, name, content)
    ensures IndexOf(buf[1..], '|') == |name| < |buf[1..]|
  {
    assert content == ['|'] + content[1..];
    assert buf[1..] == name + ['|'] + content[1..];
    IndexOfAppend(name, '|', content[1..]);
  }

  /** A line has one name and one content. */
  lemma LineIsUnique(buf: string, n: string, c: string, n': string, c': string)
    requires IsLine(buf, n, c) && IsLine(buf, n', c')
    ensures n == n' && c == c'
  {
    LineSplitsOnce(buf, n, c);
    LineSplitsOnce(buf, n', c');
    assert buf[1..] == n + c == n' + c';
    assert n == buf[1..][..|n|] && n' == buf[1..][..|n'|];
    assert c == buf[1..][|n|..] && c' == buf[1..][|n'|..];
  }

  class Database {
    const tblsCapability: nat
    const webServerOn: bool
    const egressOn: bool
    var tables: seq<Table>

    ghost predicate Valid()
      reads this, tables
    {
      && |tables| <= tblsCapability
      && (forall i :: 0 <= i < |tables| ==> tables[i].Valid())
      && (forall i, j :: 0 <= i < j < |tables| ==> tables[i].name != tables[j].name)
    }

    constructor (capacity: nat, webServerOn: bool, egressOn: bool)
      ensures Valid() && tables == [] && tblsCapability == capacity
      ensures this.webServerOn == webServerOn && this.egressOn == egressOn
    {
      tblsCapability, this.webServerOn, this.egressOn, tables := capacity, webServerOn, egressOn, [];
    }

    /** Refused when the database is full or has a table of that name. */
    method AddTable(table: Table) returns (ret: int)
      requires Valid() && table.Valid()
      modifies this`tables
      ensures Valid()
      ensures ret == 0 <==>
              && |old(tables)| < tblsCapability
              && forall i :: 0 <= i < |old(tables)| ==> old(tables)[i].name != table.name
      ensures tables == (if ret == 0 then old(tables) + [table] else old(tables))
    {
      if |tables| == tblsCapability {
        return -1;
      }
      var i := FindTable(table.name);
      if i < |tables| {
        return -1;
      }
      tables := tables + [table];
      ret := 0;
    }

    /** The index of the table of this name, or the number of tables. */
    method FindTable(name: string) returns (i: nat)
      ensures i <= |tables|
      ensures i < |tables| ==> tables[i].name == name
      ensures forall j :: 0 <= j < i ==> tables[j].name != name
    {
      i := 0;
      while i < |tables|
        invariant i <= |tables| && forall j :: 0 <= j < i ==> tables[j].name != name
      {
        if tables[i].name == name {
          return;
        }
        i := i + 1;
      }
    }

    /** One message off the fifo. Only the table named on the line can change, and it by one upsert of the line's row;
        dirty lines, unknown tables, tables without keys and a switched-off web server change nothing. It goes on to
        the egress thread exactly if that is on and the message is for a table that did not refuse it. */
    method Process(dataStr: string, now: int) returns (forwarded: bool)
      requires Valid() && '%' !in dataStr
      modifies tables
      ensures Valid()
      ensures forall i :: 0 <= i < |tables| ==>
                && tables[i].meta == old(tables[i].meta)
                && tables[i].records
                   == if webServerOn && AddressedTo(dataStr, tables[i].name) then
                        Inserted(tables[i].meta, tables[i].capability, old(tables[i].records),
                                 ContentFor(dataStr, tables[i].name), now)
                      else old(tables[i].records)
      ensures forwarded <==> egressOn && exists i ::
                && 0 <= i < |tables|
                && AddressedTo(dataStr, tables[i].name)
                && (webServerOn && KeyCount(tables[i].meta) > 0 ==>
                      Upsert(old(tables[i].records), tables[i].capability,
                             RowOf(tables[i].meta, ContentFor(dataStr, tables[i].name), now)).0)
    {
      hide Inserted, IsLine, TableInv, AddressedTo, ContentFor, KeyCount, RowOf, Upsert;
      var ret, tblName, content := GetTableNameAndContent(dataStr);
      AddressedOnce(dataStr, tblName, content, ret == 0);
      if ret < 0 {
        return false;
      }
      var k := FindTable(tblName);
      if k == |tables| {
        return false;
      }
      var ok := true;
      if tables[k].recordKeySize > 0 && webServerOn {
        ok := tables[k].CreateRec(content, now);
      } else {
        NoKeysNoRows(tables[k].meta, tables[k].capability, tables[k].records, content, now);
      }
      forwarded := ok && egressOn;
      assert forall i :: 0 <= i < |tables| ==> (i == k <==> tables[i].name == tblName);
    }
  }

  lemma NoKeysNoRows(meta: seq<Metric>, capability: nat, rows: seq<Row>, content: string, now: int)
    ensures KeyCount(meta) == 0 ==> Inserted(meta, capability, rows, content, now) == rows
  {
  }

  /** What follows the name. */
  function ContentFor(dataStr: string, name: string): string {
    if |dataStr| > 1 + |name| then dataStr[1 + |name|..] else ""
  }

  /** The message is a line for the table of this name. */
  ghost predicate AddressedTo(dataStr: string, name: string) {
    IsLine(dataStr, name, ContentFor(dataStr, name))
  }

  lemma AddressedOnce(dataStr: string, tblName: string, content: string, ok: bool)
    requires ok ==> IsLine(dataStr, tblName, content)
    requires !ok ==> forall n, c :: !IsLine(dataStr, n, c)
    ensures forall name :: AddressedTo(dataStr, name) <==> ok && name == tblName
    ensures ok ==> ContentFor(dataStr, tblName) == content
    ensures ok && '%' !in dataStr ==> '%' !in content
  {
    if ok {
      assert ContentFor(dataStr, tblName) == content;
      forall name | AddressedTo(dataStr, name)
        ensures name == tblName
      {
        LineIsUnique(dataStr, name, ContentFor(dataStr, name), tblName, content);
      }
      assert forall i :: 0 <= i < |content| ==> content[i] == dataStr[1 + |tblName| + i];
    }
  }
}
