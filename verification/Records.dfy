/** Records of the in-memory database: metrics, fixed-width keys, and the parser that fills them from a line. */
module Records {
  import opened Text

  const VAL_LEN: nat := 512
  const NAME_LEN: nat := 32
  const DESC_LEN: nat := 1024
  const TYPE_LEN: nat := 32
  const INVALID_VALUE := "(null)"

  datatype Metric = Metric(name: string, description: string, typ: string, val: string)

  function MetricCreate(name: string, description: string, typ: string): Metric {
    Metric(Bounded(name, NAME_LEN), Bounded(description, DESC_LEN), Bounded(typ, TYPE_LEN), "")
  }

  /** The record as the table keeps it. */
  datatype Row = Row(key: string, metrics: seq<Metric>, updateTime: int)

  predicate IsKey(m: Metric) {
    m.typ == "key"
  }

  function KeyCount(meta: seq<Metric>): (n: nat)
    ensures n <= |meta|
  {
    if meta == [] then 0 else KeyCount(meta[..|meta| - 1]) + (if IsKey(meta[|meta| - 1]) then 1 else 0)
  }

  // ---- what a line means

  /** Tokens before the first one that is just a newline. */
  function UpToNewline(tokens: seq<string>): seq<string> {
    if tokens == [] || tokens[0] == "\n" then [] else [tokens[0]] + UpToNewline(tokens[1..])
  }

  function DropEmpty(tokens: seq<string>): seq<string> {
    if tokens != [] && tokens[0] == "" then DropEmpty(tokens[1..]) else tokens
  }

  function Take<T>(s: seq<T>, n: int): (r: seq<T>)
    ensures r <= s
    ensures n >= |s| ==> r == s
    ensures |r| <= n || r == []
  {
    if n <= 0 then [] else if n < |s| then s[..n] else s
  }

  function NullFor(t: string): (r: string)
    ensures r != ""
  {
    if t == "" then INVALID_VALUE else t
  }

  function NullForAll(tokens: seq<string>): (r: seq<string>)
    ensures |r| == |tokens| && forall i :: 0 <= i < |r| ==> r[i] == NullFor(tokens[i])
  {
    seq(|tokens|, i requires 0 <= i < |tokens| => NullFor(tokens[i]))
  }

  /** The values of a line: cut at the newline token, leading empty tokens dropped, at most one value per meta field. */
  function ParsedValues(tokens: seq<string>, fields: nat): (r: seq<string>)
    ensures |r| <= fields
  {
    NullForAll(Take(DropEmpty(UpToNewline(tokens)), fields))
  }

  function MetricOf(m: Metric, v: string): Metric {
    MetricCreate(m.name, m.description, m.typ).(val := Bounded(v, VAL_LEN))
  }

  function MakeMetrics(meta: seq<Metric>, vals: seq<string>): (r: seq<Metric>)
    requires |vals| <= |meta|
    ensures |r| == |vals|
  {
    seq(|vals|, i requires 0 <= i < |vals| => MetricOf(meta[i], vals[i]))
  }

  /** The values of the key-typed fields, in order. */
  function KeyValues(meta: seq<Metric>, vals: seq<string>): (r: seq<string>)
    requires |vals| <= |meta|
    ensures |r| == KeyCount(meta[..|vals|])
  {
    if vals == [] then []
    else
      var n := |vals| - 1;
      assert meta[..n + 1][..n] == meta[..n];
      KeyValues(meta, vals[..n]) + (if IsKey(meta[n]) then [vals[n]] else [])
  }

  // ---- fixed-width keys

  function KeyChar(vals: seq<string>, k: nat, o: nat): char {
    if k < |vals| && o < |Bounded(vals[k], VAL_LEN)| then vals[k][o] else '\0'
  }

  /** One slot of `VAL_LEN` characters per key field, zero behind the text. */
  function EncodeKey(vals: seq<string>, slots: nat): (r: string)
    ensures |r| == slots * VAL_LEN
  {
    seq(slots * VAL_LEN, j requires 0 <= j => KeyChar(vals, j / VAL_LEN, j % VAL_LEN))
  }

  /** The text a slot holds, cut to what fits; absent fields leave it empty. */
  function SlotText(vals: seq<string>, k: nat): string {
    if k < |vals| then Bounded(vals[k], VAL_LEN) else ""
  }

  lemma SlotChar(vals: seq<string>, slots: nat, k: nat, o: nat)
    requires k < slots && o < VAL_LEN
    ensures k * VAL_LEN + o < slots * VAL_LEN
    ensures EncodeKey(vals, slots)[k * VAL_LEN + o] == KeyChar(vals, k, o)
  {
    var j := k * VAL_LEN + o;
    assert j / VAL_LEN == k && j % VAL_LEN == o;
  }

  /** A slot holds its text and then a NUL. */
  lemma SlotEnds(vals: seq<string>, k: nat)
    ensures var t := SlotText(vals, k);
            |t| < VAL_LEN && KeyChar(vals, k, |t|) == '\0' && forall o: nat :: o < |t| ==> KeyChar(vals, k, o) == t[o]
  {
  }

  lemma NotLonger(a: seq<string>, b: seq<string>, k: nat)
    requires NulFree(SlotText(b, k))
    requires forall o :: 0 <= o < VAL_LEN ==> KeyChar(a, k, o) == KeyChar(b, k, o)
    ensures |SlotText(b, k)| <= |SlotText(a, k)|
  {
    SlotEnds(a, k);
    SlotEnds(b, k);
    var n: nat := |SlotText(a, k)|;
    var t := SlotText(b, k);
    assert KeyChar(a, k, n) == KeyChar(b, k, n);
    assert n < |t| ==> KeyChar(b, k, n) in t;
  }

  lemma SameSlotText(a: seq<string>, b: seq<string>, k: nat)
    requires NulFree(SlotText(a, k)) && NulFree(SlotText(b, k))
    requires forall o :: 0 <= o < VAL_LEN ==> KeyChar(a, k, o) == KeyChar(b, k, o)
    ensures SlotText(a, k) == SlotText(b, k)
  {
    NotLonger(a, b, k);
    NotLonger(b, a, k);
    SlotEnds(a, k);
    SlotEnds(b, k);
    var s, t := SlotText(a, k), SlotText(b, k);
    forall o | 0 <= o < |s|
      ensures s[o] == t[o]
    {
      assert KeyChar(a, k, o) == KeyChar(b, k, o);
    }
  }

  /** Two tuples share a key exactly when every slot holds the same text: only the cut at 511 characters loses
      anything. */
  lemma KeyInjective(a: seq<string>, b: seq<string>, slots: nat)
    requires forall k :: 0 <= k < slots ==> NulFree(SlotText(a, k)) && NulFree(SlotText(b, k))
    ensures EncodeKey(a, slots) == EncodeKey(b, slots) <==>
            forall k :: 0 <= k < slots ==> SlotText(a, k) == SlotText(b, k)
  {
    if EncodeKey(a, slots) == EncodeKey(b, slots) {
      forall k | 0 <= k < slots
        ensures SlotText(a, k) == SlotText(b, k)
      {
        forall o | 0 <= o < VAL_LEN
          ensures KeyChar(a, k, o) == KeyChar(b, k, o)
        {
          SlotChar(a, slots, k, o);
          SlotChar(b, slots, k, o);
        }
        SameSlotText(a, b, k);
      }
    }
    if forall k :: 0 <= k < slots ==> SlotText(a, k) == SlotText(b, k) {
      forall j | 0 <= j < slots * VAL_LEN
        ensures EncodeKey(a, slots)[j] == EncodeKey(b, slots)[j]
      {
        var k, o := j / VAL_LEN, j % VAL_LEN;
        assert SlotText(a, k) == SlotText(b, k);
        assert KeyChar(a, k, o) == if o < |SlotText(a, k)| then SlotText(a, k)[o] else '\0';
        assert KeyChar(b, k, o) == if o < |SlotText(b, k)| then SlotText(b, k)[o] else '\0';
      }
    }
  }

  /** Key tuples as the parser builds them, full or cut short, are told apart as long as every value fits its slot. */
  lemma ShortKeysInjective(a: seq<string>, b: seq<string>, slots: nat)
    requires |a| <= slots && |b| <= slots
    requires forall k :: 0 <= k < |a| ==> NulFree(a[k]) && 0 < |a[k]| < VAL_LEN
    requires forall k :: 0 <= k < |b| ==> NulFree(b[k]) && 0 < |b[k]| < VAL_LEN
    ensures EncodeKey(a, slots) == EncodeKey(b, slots) <==> a == b
  {
    KeyInjective(a, b, slots);
    if EncodeKey(a, slots) == EncodeKey(b, slots) {
      assert forall k :: 0 <= k < slots ==> SlotText(a, k) == SlotText(b, k);
      if |a| < slots {
        assert SlotText(a, |a|) == SlotText(b, |a|);
      }
      if |b| < slots {
        assert SlotText(a, |b|) == SlotText(b, |b|);
      }
      forall k | 0 <= k < |a|
        ensures a[k] == b[k]
      {
        assert SlotText(a, k) == SlotText(b, k);
      }
    }
  }

  // ---- records

  function Overwrite(s: string, off: nat, t: string): string
    requires off + |t| <= |s|
  {
    s[..off] + t + s[off + |t|..]
  }

  class Record {
    const capacity: nat
    const keySize: nat
    var metrics: seq<Metric>
    var key: array<char>
    var updateTime: int

    ghost predicate Valid()
      reads this
    {
      key.Length == keySize && |metrics| <= capacity
    }

    constructor (capacity: nat, keySize: nat)
      ensures Valid() && fresh(key) && this.capacity == capacity && this.keySize == keySize
      ensures metrics == [] && forall j :: 0 <= j < keySize ==> key[j] == '\0'
    {
      this.capacity := capacity;
      this.keySize := keySize;
      metrics, updateTime := [], 0;
      key := new char[keySize](_ => '\0');
    }

    method AddMetric(m: Metric) returns (ret: int)
      requires Valid()
      modifies this`metrics
      ensures Valid()
      ensures ret == (if |old(metrics)| == capacity then -1 else 0)
      ensures metrics == (if ret == 0 then old(metrics) + [m] else old(metrics))
    {
      if |metrics| == capacity {
        return -1;
      }
      metrics := metrics + [m];
      ret := 0;
    }

    method AppendKey(keyIdx: nat, val: string) returns (ret: int)
      requires Valid()
      modifies key
      ensures ret == (if keyIdx * VAL_LEN + VAL_LEN > keySize then -1 else 0)
      ensures ret == 0 ==> key[..] == Overwrite(old(key[..]), keyIdx * VAL_LEN, Bounded(val, VAL_LEN) + "\0")
      ensures ret != 0 ==> key[..] == old(key[..])
    {
      var offset := keyIdx * VAL_LEN;
      if offset + VAL_LEN > keySize {
        return -1;
      }
      var text := Bounded(val, VAL_LEN) + "\0";
      forall j | 0 <= j < |text| {
        key[offset + j] := text[j];
      }
      ret := 0;
    }

    function View(): Row
      reads this, key
    {
      Row(key[..], metrics, updateTime)
    }
  }

  /** Filling the next slot of a key is encoding one value more. */
  lemma SlotFilled(vals: seq<string>, val: string, slots: nat)
    requires |vals| < slots
    ensures |vals| * VAL_LEN + |Bounded(val, VAL_LEN) + "\0"| <= slots * VAL_LEN
    ensures Overwrite(EncodeKey(vals, slots), |vals| * VAL_LEN, Bounded(val, VAL_LEN) + "\0")
            == EncodeKey(vals + [val], slots)
  {
    var off := |vals| * VAL_LEN;
    var text := Bounded(val, VAL_LEN) + "\0";
    var r := Overwrite(EncodeKey(vals, slots), off, text);
    forall j | 0 <= j < slots * VAL_LEN
      ensures r[j] == EncodeKey(vals + [val], slots)[j]
    {
      var k, o := j / VAL_LEN, j % VAL_LEN;
      if k == |vals| {
        assert j == off + o;
      }
    }
  }

  // ---- the parser

  /** `strsep` on one separator: the next token, and what follows the separator if there is one. */
  method Strsep(buffer: string) returns (token: string, rest: string, more: bool)
    ensures Split(buffer, '|') == [token] + (if more then Split(rest, '|') else [])
    ensures more ==> |rest| < |buffer|
  {
    var i := IndexOf(buffer, '|');
    more := i < |buffer|;
    token := buffer[..i];
    rest := if more then buffer[i + 1..] else "";
    assert !more ==> token == buffer;
  }

  /** What the loop will still collect once `index` values are there. */
  ghost function Collects(tokens: seq<string>, fields: nat, index: nat): seq<string> {
    if tokens == [] || tokens[0] == "\n" then []
    else if tokens[0] == "" && index == 0 then Collects(tokens[1..], fields, index)
    else if index >= fields then []
    else [NullFor(tokens[0])] + Collects(tokens[1..], fields, index + 1)
  }

  lemma {:induction false} CollectsRest(tokens: seq<string>, fields: nat, index: nat)
    requires index > 0
    ensures Collects(tokens, fields, index) == NullForAll(Take(UpToNewline(tokens), fields - index))
  {
    if tokens != [] && tokens[0] != "\n" && index < fields {
      CollectsRest(tokens[1..], fields, index + 1);
      var u := UpToNewline(tokens);
      assert Take(u, fields - index) == [u[0]] + Take(u[1..], fields - index - 1);
    }
  }

  lemma {:induction false} CollectsAll(tokens: seq<string>, fields: nat)
    ensures Collects(tokens, fields, 0) == ParsedValues(tokens, fields)
  {
    if tokens != [] && tokens[0] != "\n" {
      if tokens[0] == "" {
        CollectsAll(tokens[1..], fields);
        assert UpToNewline(tokens)[1..] == UpToNewline(tokens[1..]);
      } else if fields > 0 {
        CollectsRest(tokens[1..], fields, 1);
        var u := UpToNewline(tokens);
        assert Take(u, fields) == [u[0]] + Take(u[1..], fields - 1);
      }
    }
  }

  /** The values in hand followed by those the loop will still collect. */
  ghost function Gather(vals: seq<string>, tokens: seq<string>, fields: nat): seq<string> {
    vals + Collects(tokens, fields, |vals|)
  }

  /** The loop's cases, one iteration at a time. */
  lemma GatherStep(vals: seq<string>, tokens: seq<string>, fields: nat)
    requires tokens != []
    ensures tokens[0] == "\n" ==> Gather(vals, tokens, fields) == vals
    ensures tokens[0] == "" && vals == [] ==> Gather(vals, tokens, fields) == Gather(vals, tokens[1..], fields)
    ensures tokens[0] != "" && |vals| >= fields ==> Gather(vals, tokens, fields) == vals
    ensures tokens[0] == "" && vals != [] && |vals| >= fields ==> Gather(vals, tokens, fields) == vals
    ensures tokens[0] != "\n" && tokens[0] != "" && |vals| < fields ==>
      Gather(vals, tokens, fields) == Gather(vals + [tokens[0]], tokens[1..], fields)
    ensures tokens[0] == "" && vals != [] && |vals| < fields ==>
      Gather(vals, tokens, fields) == Gather(vals + [INVALID_VALUE], tokens[1..], fields)
  {
    var t := NullFor(tokens[0]);
    AppendMoves(vals, t, Collects(tokens[1..], fields, |vals| + 1));
  }

  lemma GatherNone(vals: seq<string>, fields: nat)
    ensures Gather(vals, [], fields) == vals
  {
  }

  /** The record built so far is exactly what `vals` makes of the meta. */
  ghost predicate Built(meta: seq<Metric>, record: Record, vals: seq<string>, needKey: bool)
    reads record, record.key
  {
    && record.Valid()
    && |vals| <= |meta|
    && record.metrics == MakeMetrics(meta, vals)
    && (needKey ==> record.key[..] == EncodeKey(KeyValues(meta, vals), KeyCount(meta)))
  }

  lemma {:induction false} KeyCountPrefix(meta: seq<Metric>, n: nat)
    requires n < |meta|
    ensures KeyCount(meta[..n + 1]) == KeyCount(meta[..n]) + (if IsKey(meta[n]) then 1 else 0) <= KeyCount(meta)
    decreases |meta| - n
  {
    assert meta[..n + 1][..n] == meta[..n];
    if n + 1 < |meta| {
      KeyCountPrefix(meta, n + 1);
    } else {
      assert meta[..n + 1] == meta;
    }
  }

  /** One value into the record: its metric, and its key slot if the field is a key. It never fails. */
  method AddValue(meta: seq<Metric>, record: Record, ghost vals: seq<string>, token: string, index: nat, keyIdx: nat,
                  needKey: bool)
    returns (ret: int, nextKeyIdx: nat)
    requires record.capacity == |meta| && index == |vals| < |meta|
    requires Built(meta, record, vals, needKey)
    requires needKey ==> record.keySize == KeyCount(meta) * VAL_LEN && keyIdx == KeyCount(meta[..index])
    modifies record`metrics, record.key
    ensures ret == 0 && Built(meta, record, vals + [token], needKey)
    ensures needKey ==> nextKeyIdx == KeyCount(meta[..index + 1])
  {
    hide MakeMetrics, KeyValues, KeyCount, EncodeKey, Overwrite, Bounded, MetricCreate;
    nextKeyIdx := keyIdx;
    var metric := MetricCreate(meta[index].name, meta[index].description, meta[index].typ);
    metric := metric.(val := Bounded(token, VAL_LEN));
    ret := record.AddMetric(metric);
    KeyCountPrefix(meta, index);
    OneValueMore(meta, vals, token);
    if needKey && IsKey(meta[index]) {
      SlotFilled(KeyValues(meta, vals), token, KeyCount(meta));
      ret := record.AppendKey(keyIdx, token);
      nextKeyIdx := keyIdx + 1;
    }
  }

  lemma OneValueMore(meta: seq<Metric>, vals: seq<string>, token: string)
    requires |vals| < |meta|
    ensures MakeMetrics(meta, vals + [token]) == MakeMetrics(meta, vals) + [MetricOf(meta[|vals|], token)]
    ensures KeyValues(meta, vals + [token])
         == if IsKey(meta[|vals|]) then KeyValues(meta, vals) + [token] else KeyValues(meta, vals)
  {
    hide MetricOf, IsKey, KeyCount;
    var more := vals + [token];
    assert more[..|vals|] == vals;
    assert more[|vals|] == token;
    assert MakeMetrics(meta, more) == MakeMetrics(meta, vals) + [MetricOf(meta[|vals|], token)] by {
      hide KeyValues;
    }
    KeyValuesStep(meta, more);
  }

  lemma KeyValuesStep(meta: seq<Metric>, vals: seq<string>)
    requires 0 < |vals| <= |meta|
    ensures var n := |vals| - 1;
            KeyValues(meta, vals)
            == if IsKey(meta[n]) then KeyValues(meta, vals[..n]) + [vals[n]] else KeyValues(meta, vals[..n])
  {
  }

  lemma AppendMoves(vals: seq<string>, t: string, rest: seq<string>)
    ensures vals + ([t] + rest) == vals + [t] + rest
  {
  }

  /** Splits `content` and fills an empty record; with a loaded meta no step of it can fail. */
  method ParseContent(meta: seq<Metric>, record: Record, content: string, needKey: bool) returns (ret: int)
    requires '%' !in content
    requires record.Valid() && record.metrics == [] && record.capacity == |meta|
    requires needKey ==> record.keySize == KeyCount(meta) * VAL_LEN
    requires needKey ==> forall j :: 0 <= j < record.keySize ==> record.key[j] == '\0'
    modifies record`metrics, record.key
    ensures ret == 0
    ensures Built(meta, record, ParsedValues(Split(content, '|'), |meta|), needKey)
  {
    ghost var vals: seq<string> := [];
    var index, keyIdx := 0, 0;
    var buffer, more := content, true;
    assert needKey ==> record.key[..] == EncodeKey([], KeyCount(meta));
    assert Built(meta, record, vals, needKey);
    ghost var goal := ParsedValues(Split(content, '|'), |meta|);
    CollectsAll(Split(content, '|'), |meta|);
    assert goal == Gather(vals, Split(content, '|'), |meta|);
    var fields := |meta|;
    hide *;
    while more
      invariant index == |vals| <= fields
      invariant needKey ==> keyIdx == KeyCount(meta[..index])
      invariant Built(meta, record, vals, needKey)
      invariant goal == Gather(vals, if more then Split(buffer, '|') else [], fields)
      decreases more, |buffer|
    {
      GatherStep(vals, Split(buffer, '|'), fields);
      ghost var tokens := Split(buffer, '|');
      var token;
      token, buffer, more := Strsep(buffer);
      assert tokens[1..] == if more then Split(buffer, '|') else [];
      if token == "\n" {
        GatherNone(vals, fields);
        break;
      }
      if token == "" {
        if index == 0 {
          continue;
        }
        token := INVALID_VALUE;
      }
      if index >= fields {
        GatherNone(vals, fields);
        break;
      }
      ret, keyIdx := AddValue(meta, record, vals, token, index, keyIdx, needKey);
      vals := vals + [token];
      index := index + 1;
    }
    GatherNone(vals, fields);
    ret := 0;
  }
}
