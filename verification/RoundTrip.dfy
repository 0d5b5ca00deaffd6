/** From a probe's printf call to the metrics of a record: the two routes a line can take, and what survives them. */
module RoundTrip {
  import opened Options
  import opened Words
  import opened Text
  import opened Numbers
  import opened Printf
  import opened Records
  import opened Tables
  import opened Ingress

  // ---- the line a probe prints: |table|v1|...|vm|

  /** A field printed with %s, or with %d or %u under any qualifier. */
  datatype Item = StrItem(s: string) | IntItem(qualifier: Qualifier, sign: bool, v: int)

  function QualifierText(q: Qualifier): string {
    match q
    case Plain => ""
    case Short => "h"
    case Long => "l"
    case Big => "L"
    case LongLong => "ll"
  }

  function ConversionText(it: Item): string {
    match it
    case StrItem(_) => "s"
    case IntItem(q, sign, _) => QualifierText(q) + (if sign then "d" else "u")
  }

  function ArgOf(it: Item): Arg {
    match it
    case StrItem(s) => StrArg(s)
    case IntItem(_, _, v) => IntArg(v)
  }

  function ItemFlags(sign: bool): Flags {
    NO_FLAGS.(sign := sign)
  }

  function ItemText(it: Item): string {
    match it
    case StrItem(s) => s
    case IntItem(q, sign, v) => Field(FetchWord(v, q, sign), 10, -1, -1, ItemFlags(sign))
  }

  function LineFormat(items: seq<Item>): string {
    if items == [] then "|\n" else "|%" + ConversionText(items[0]) + LineFormat(items[1..])
  }

  function Args(items: seq<Item>): (r: seq<Arg>)
    ensures |r| == |items|
  {
    seq(|items|, i requires 0 <= i < |items| => ArgOf(items[i]))
  }

  function Texts(items: seq<Item>): (r: seq<string>)
    ensures |r| == |items| && forall i :: 0 <= i < |r| ==> r[i] == ItemText(items[i])
  {
    seq(|items|, i requires 0 <= i < |items| => ItemText(items[i]))
  }

  lemma NoPadding(s: string, left: bool)
    ensures Justify(Truncated(s, -1), -1, left) == s
  {
    assert Repeat(' ', -1 - |s|) == "";
  }

  lemma PlainDirective(it: Item, rest: string, args: seq<Arg>)
    requires StartsWith(rest, '|')
    ensures Directive(ConversionText(it) + rest, [ArgOf(it)] + args) == Some((ItemText(it), rest, args))
  {
    hide Field, FetchWord, Justify, Truncated;
    var s := ConversionText(it) + rest;
    var conv := if it.StrItem? then 's' else if it.sign then 'd' else 'u';
    var q := if it.StrItem? then Plain else it.qualifier;
    assert ScanFlags(s, NO_FLAGS) == (NO_FLAGS, s);
    assert ScanWidth(s, NO_FLAGS, [ArgOf(it)] + args) == Some((-1, NO_FLAGS, s, [ArgOf(it)] + args));
    assert ScanPrecision(s, [ArgOf(it)] + args) == Some((-1, s, [ArgOf(it)] + args));
    QualifierScans(q, conv, rest);
    assert ScanQualifier(s) == (q, [conv] + rest);
    assert ([conv] + rest)[1..] == rest;
    assert ([ArgOf(it)] + args)[1..] == args;
    if it.StrItem? {
      NoPadding(it.s, false);
    }
  }

  lemma QualifierScans(q: Qualifier, conv: char, rest: string)
    requires conv == 's' || conv == 'd' || conv == 'u'
    ensures ScanQualifier(QualifierText(q) + [conv] + rest) == (q, [conv] + rest)
    ensures QualifierText(q) + ([conv] + rest) == QualifierText(q) + [conv] + rest
  {
    var s := QualifierText(q) + [conv] + rest;
    assert q == LongLong ==> s[2..] == [conv] + rest;
    assert q == Short || q == Long || q == Big ==> s[1..] == [conv] + rest;
    assert q == Plain ==> s == [conv] + rest;
  }

  lemma BareNewline()
    ensures Format("|\n", []) == Some("|\n")
  {
    var a, b := "|\n", "\n";
    assert a[1..] == b && b[1..] == "" && [a[0]] == "|" && [b[0]] == "\n";
    assert Format(b, []) == Prepend([b[0]], Format(b[1..], []));
    assert Format(a, []) == Prepend([a[0]], Format(a[1..], []));
    assert "|" + ("\n" + "") == a;
  }

  /** One field: the bar is copied, the directive consumes its argument. */
  lemma FieldPrints(it: Item, rest: string, args: seq<Arg>)
    requires StartsWith(rest, '|')
    ensures Format("|%" + ConversionText(it) + rest, [ArgOf(it)] + args)
         == Prepend("|", Prepend(ItemText(it), Format(rest, args)))
  {
    hide Directive, ItemText, ConversionText, ArgOf;
    PlainDirective(it, rest, args);
    var body := ConversionText(it) + rest;
    var f := "|%" + ConversionText(it) + rest;
    assert f == "|" + ("%" + body);
    assert f[1..] == "%" + body && ("%" + body)[1..] == body;
    assert Format("%" + body, [ArgOf(it)] + args) == Prepend(ItemText(it), Format(rest, args));
    assert [f[0]] == "|";
    assert Format(f, [ArgOf(it)] + args) == Prepend([f[0]], Format(f[1..], [ArgOf(it)] + args));
  }

  /** The printf engine turns a line format and its arguments into the line. */
  lemma {:induction false} LinePrints(items: seq<Item>)
    ensures Format(LineFormat(items), Args(items)) == Some(Fields(Texts(items), '|') + "|\n")
  {
    hide Format, ItemText, ArgOf, ConversionText;
    if items == [] {
      BareNewline();
      assert Args([]) == [] && Fields(Texts([]), '|') + "|\n" == "|\n";
    } else {
      var text := ItemText(items[0]);
      LinePrints(items[1..]);
      assert Args(items) == [ArgOf(items[0])] + Args(items[1..]);
      FieldPrints(items[0], LineFormat(items[1..]), Args(items[1..]));
      assert Texts(items)[1..] == Texts(items[1..]);
      var tail := Fields(Texts(items[1..]), '|');
      assert "|" + (text + (tail + "|\n")) == ['|'] + text + tail + "|\n";
    }
  }

  // ---- integer fields

  /** The C value of an integer argument after the conversion its qualifier implies. */
  function CValue(it: Item): int
    requires it.IntItem?
  {
    Meaning(FetchWord(it.v, it.qualifier, it.sign), ItemFlags(it.sign))
  }

  /** A printed integer is a non-empty text of digits with at most a sign, and reads back as the argument's C value. */
  lemma IntegerField(it: Item)
    requires it.IntItem?
    ensures ItemText(it) != ""
    ensures forall i :: 0 <= i < |ItemText(it)| ==> ItemText(it)[i] == '-' || '0' <= ItemText(it)[i] <= '9'
    ensures Strtoll(ItemText(it), 10) == CValue(it)
  {
    hide FetchWord, Numeral, Strtoll, Field, Meaning, AllDigits, ValueOf;
    var num := FetchWord(it.v, it.qualifier, it.sign);
    var flags := ItemFlags(it.sign);
    FieldReadsBack(num, 10, -1, -1, flags);
    var v := Meaning(num, flags);
    DecimalDigits(Abs(v));
    NumeralReads(Abs(v), 10, false);
    var numeral := Numeral(Abs(v), 10, false);
    BareField(num, flags, v, numeral);
  }

  lemma BareField(num: nat, flags: Flags, v: int, numeral: string)
    requires num < TWO64 && flags == ItemFlags(flags.sign)
    requires v == Meaning(num, flags) && numeral == Numeral(Abs(v), 10, false)
    ensures Field(num, 10, -1, -1, flags) == SignText(v, flags) + numeral
  {
    assert Repeat('0', -1 - |numeral|) == "";
    assert PrefixText(10, flags) == "";
  }

  function BitsOf(q: Qualifier): (bits: nat)
    ensures bits > 0
  {
    match q
    case Short => 16
    case Plain | Big => 32
    case Long | LongLong => 64
  }

  /** The argument lies within the C type its qualifier and signedness name. */
  predicate InRange(it: Item)
    requires it.IntItem?
  {
    var bits := BitsOf(it.qualifier);
    if it.sign then 0 - Power2(bits - 1) <= it.v < Power2(bits - 1) else 0 <= it.v < Power2(bits)
  }

  lemma SmallPowers()
    ensures Power2(16) == 65536 && Power2(32) == TWO32 && Power2(64) == TWO64
    ensures Power2(16) == 2 * Power2(15) && Power2(32) == 2 * Power2(31) && Power2(64) == 2 * Power2(63)
  {
    WordPowers();
    assert Power2(8) == 256 by {
      assert Power2(4) == 16;
    }
    PowerAdds(8, 8);
  }

  /** Truncation to `bits` and sign extension give back what fits. */
  lemma ExtendExact(v: int, bits: nat, sign: bool)
    requires bits > 0
    requires if sign then 0 - Power2(bits - 1) <= v < Power2(bits - 1) else 0 <= v < Power2(bits)
    ensures 0 <= v % Power2(bits)
    ensures sign ==> Extend(v % Power2(bits), bits) == v
    ensures !sign ==> v % Power2(bits) == v
  {
    var m := Power2(bits);
    RemainderUnique(v, m, if v < 0 then -1 else 0, if v < 0 then v + m else v);
  }

  lemma Signed64Exact(v: int)
    requires 0 - TWO64 / 2 <= v < TWO64 / 2
    ensures Signed64(U64(v)) == v
  {
    RemainderUnique(v, TWO64, if v < 0 then -1 else 0, if v < 0 then v + TWO64 else v);
  }

  /** Arguments within the range of their type print as themselves. */
  lemma InRangeIsExact(it: Item)
    requires it.IntItem? && InRange(it)
    ensures CValue(it) == it.v
  {
    hide Power2, U64, U32, Signed64;
    SmallPowers();
    ExtendExact(it.v, BitsOf(it.qualifier), it.sign);
    if it.sign {
      Signed64Exact(it.v);
    } else {
      Unsigned64Exact(it.v);
    }
    LowBits(it.v);
  }

  lemma Unsigned64Exact(v: int)
    ensures 0 <= v < TWO64 ==> U64(v) == v
  {
  }

  lemma LowBits(v: int)
    ensures U32(v) == v % TWO32 && U64(v) == v % TWO64
  {
  }

  // ---- parsing the line back

  /** Values that the separator and the newline token cannot break. */
  predicate Clean(vals: seq<string>) {
    FreeOf(vals, '|') && forall i :: 0 <= i < |vals| ==> vals[i] != "\n"
  }

  /** What reaches the parser: over the built-in route the newline is still there, the other route has stripped it. */
  function BuiltinContent(vals: seq<string>): string {
    Fields(vals, '|') + "|\n"
  }

  function ExtendContent(vals: seq<string>): string {
    Fields(vals, '|') + "|"
  }

  lemma BuiltinTokens(vals: seq<string>)
    requires Clean(vals)
    ensures Split(BuiltinContent(vals), '|') == [""] + vals + ["\n"]
  {
    var all := vals + ["\n"];
    FieldsAppend(vals, ["\n"], '|');
    assert Fields(["\n"], '|') == "|\n" by {
      assert ["\n"][1..] == [];
      assert ['|'] + "\n" + "" == "|\n";
    }
    assert "" + Fields(all, '|') == BuiltinContent(vals);
    SplitFields("", all, '|');
    assert [""] + all == [""] + vals + ["\n"];
  }

  lemma ExtendTokens(vals: seq<string>)
    requires Clean(vals)
    ensures Split(ExtendContent(vals), '|') == [""] + vals + [""]
  {
    var all := vals + [""];
    FieldsAppend(vals, [""], '|');
    assert Fields([""], '|') == "|" by {
      assert [""][1..] == [];
      assert ['|'] + "" + "" == "|";
    }
    assert "" + Fields(all, '|') == ExtendContent(vals);
    SplitFields("", all, '|');
    assert [""] + all == [""] + vals + [""];
  }

  lemma {:induction false} UpToStops(vals: seq<string>, rest: seq<string>)
    requires forall i :: 0 <= i < |vals| ==> vals[i] != "\n"
    ensures UpToNewline(vals + rest) == vals + UpToNewline(rest)
  {
    if vals == [] {
      assert vals + rest == rest;
    } else {
      assert (vals + rest)[1..] == vals[1..] + rest;
      UpToStops(vals[1..], rest);
    }
  }

  lemma {:induction false} DropThrough(vals: seq<string>, rest: seq<string>)
    ensures DropEmpty(vals + rest) == if DropEmpty(vals) == [] then DropEmpty(rest) else DropEmpty(vals) + rest
  {
    if vals == [] {
      assert vals + rest == rest;
    } else if vals[0] == "" {
      assert (vals + rest)[1..] == vals[1..] + rest;
      DropThrough(vals[1..], rest);
    }
  }

  /** What the parser makes of a line: the values from the first non-empty one on, as many as the table has fields. */
  lemma BuiltinParsed(vals: seq<string>, fields: nat)
    requires Clean(vals)
    ensures ParsedValues(Split(BuiltinContent(vals), '|'), fields) == NullForAll(Take(DropEmpty(vals), fields))
  {
    BuiltinTokens(vals);
    assert [""] + vals + ["\n"] == ([""] + vals) + ["\n"];
    UpToStops([""] + vals, ["\n"]);
    assert UpToNewline(["\n"]) == [];
    assert ([""] + vals) + [] == [""] + vals;
    assert ([""] + vals)[1..] == vals;
  }

  lemma ExtendParsed(vals: seq<string>, fields: nat)
    requires Clean(vals)
    ensures ParsedValues(Split(ExtendContent(vals), '|'), fields)
         == NullForAll(Take(if DropEmpty(vals) == [] then [] else DropEmpty(vals) + [""], fields))
  {
    ExtendTokens(vals);
    var tokens := [""] + vals + [""];
    UpToStops(tokens, []);
    assert tokens + [] == tokens && UpToNewline([]) == [];
    assert tokens[1..] == vals + [""];
    DropThrough(vals, [""]);
    assert [""][1..] == [] && DropEmpty([]) == [];
  }

  /** A full line comes back value by value exactly when its first value is not empty. */
  lemma FullLineComesBack(vals: seq<string>)
    requires Clean(vals) && vals != []
    ensures ParsedValues(Split(BuiltinContent(vals), '|'), |vals|) == NullForAll(vals) <==> vals[0] != ""
  {
    BuiltinParsed(vals, |vals|);
    DropShortens(vals);
  }

  lemma {:induction false} DropShortens(vals: seq<string>)
    ensures |DropEmpty(vals)| <= |vals|
    ensures vals != [] && vals[0] == "" ==> |DropEmpty(vals)| < |vals|
  {
    if vals != [] && vals[0] == "" {
      DropShortens(vals[1..]);
    }
  }

  /** Both routes give the same values exactly for lines with no value at all or at least as many as the table has
      fields; a shorter line gains one "(null)" over the stripped route. */
  lemma RoutesAgreeIff(vals: seq<string>, fields: nat)
    requires Clean(vals)
    ensures ParsedValues(Split(BuiltinContent(vals), '|'), fields)
            == ParsedValues(Split(ExtendContent(vals), '|'), fields)
            <==> DropEmpty(vals) == [] || fields <= |DropEmpty(vals)|
  {
    BuiltinParsed(vals, fields);
    ExtendParsed(vals, fields);
    var d := DropEmpty(vals);
    if d != [] && fields <= |d| {
      assert Take(d + [""], fields) == Take(d, fields);
    }
  }

  // ---- the extend probe's line assembly

  const MAX_DATA_STR_LEN: nat := 2048

  predicate Led(buffer: string) {
    buffer != "" && buffer[0] == '|'
  }

  predicate Ended(buffer: string) {
    buffer != "" && buffer[|buffer| - 1] == '\n'
  }

  /** What one `fgets` buffer does to the text carried over from the ones before it: the new carried text, and the lines
      handed on. Output that does not begin with a bar is skipped. */
  function Fed(carried: string, buffer: string): (string, seq<string>) {
    if !Led(buffer) then (carried, [])
    else if Ended(buffer) then ("", [carried + buffer[..|buffer| - 1]])
    else (carried + buffer, [])
  }

  /** Every write of the buffer, the NUL for its newline included, stays inside the allocation. */
  predicate Fits(carried: string, buffer: string) {
    Led(buffer) ==> |carried| + |buffer| <= MAX_DATA_STR_LEN
  }

  /** One buffer as `fgets` delivers it: at most 2047 characters, a newline only at its end. */
  ghost predicate FgetsBuffer(buffer: string) {
    0 < |buffer| < MAX_DATA_STR_LEN && forall i :: 0 <= i < |buffer| - 1 ==> buffer[i] != '\n'
  }

  /** The carried text and the lines handed on after the first `i` characters of a buffer that begins with a bar. */
  function Partial(carried: string, buffer: string, i: nat): (string, seq<string>)
    requires i <= |buffer|
  {
    if i == |buffer| && Ended(buffer) then ("", [carried + buffer[..i - 1]]) else (carried + buffer[..i], [])
  }

  lemma PartialStep(carried: string, buffer: string, i: nat)
    requires FgetsBuffer(buffer) && i < |buffer|
    ensures Partial(carried, buffer, i) == (carried + buffer[..i], [])
    ensures buffer[i] == '\n' ==> Partial(carried, buffer, i + 1) == ("", [carried + buffer[..i]])
    ensures buffer[i] != '\n' ==> Partial(carried, buffer, i + 1) == (carried + buffer[..i] + [buffer[i]], [])
  {
    assert carried + buffer[..i] + [buffer[i]] == carried + buffer[..i + 1];
  }

  lemma PartialEnds(carried: string, buffer: string)
    requires Led(buffer)
    ensures Partial(carried, buffer, 0) == (carried, [])
    ensures Partial(carried, buffer, |buffer|) == Fed(carried, buffer)
  {
    assert buffer[..|buffer|] == buffer && carried + buffer[..0] == carried;
  }

  /** The allocation an extend probe's output line grows in; null while there is none. Writes are not checked against
      its end, so `inside` tells whether they all stay within it; what happens otherwise is not modelled. */
  class ExtendProbe {
    var dataStr: array?<char>
    var index: nat

    ghost predicate Valid()
      reads this
    {
      dataStr != null ==> dataStr.Length == MAX_DATA_STR_LEN && index <= MAX_DATA_STR_LEN
    }

    ghost function Buffer(): set<object>
      reads this
    {
      if dataStr == null then {} else {dataStr}
    }

    ghost function Carried(): string
      requires Valid()
      reads this, Buffer()
    {
      if dataStr == null then "" else dataStr[..index]
    }

    constructor ()
      ensures Valid() && Carried() == "" && Buffer() == {}
    {
      dataStr, index := null, 0;
    }

    /** One turn of the loop over the buffer's characters. */
    method Accept(c: char) returns (inside: bool, emitted: seq<string>)
      requires Valid()
      modifies this, Buffer()
      ensures Valid() && fresh(Buffer() - old(Buffer()))
      ensures inside <==> |old(Carried())| < MAX_DATA_STR_LEN
      ensures inside && c == '\n' ==> Carried() == "" && emitted == [old(Carried())]
      ensures inside && c != '\n' ==> Carried() == old(Carried()) + [c] && emitted == []
    {
      emitted := [];
      if dataStr == null {
        dataStr, index := new char[MAX_DATA_STR_LEN], 0;
      }
      if index >= MAX_DATA_STR_LEN {
        return false, emitted;
      }
      inside := true;
      if c == '\n' {
        dataStr[index] := '\0';
        emitted := [dataStr[..index]];
        dataStr := null;
      } else {
        dataStr[index] := c;
        index := index + 1;
      }
    }

    method Feed(buffer: string) returns (inside: bool, emitted: seq<string>)
      requires Valid() && FgetsBuffer(buffer)
      modifies this, Buffer()
      ensures Valid() && fresh(Buffer() - old(Buffer()))
      ensures inside <==> Fits(old(Carried()), buffer)
      ensures inside ==> (Carried(), emitted) == Fed(old(Carried()), buffer)
    {
      inside, emitted := true, [];
      if buffer[0] != '|' {
        return;
      }
      ghost var carried := Carried();
      hide FgetsBuffer, Partial;
      PartialEnds(carried, buffer);
      var i := 0;
      while i < |buffer|
        invariant 0 <= i <= |buffer| && Valid() && fresh(Buffer() - old(Buffer()))
        invariant 0 < i ==> |carried| + i <= MAX_DATA_STR_LEN
        invariant (Carried(), emitted) == Partial(carried, buffer, i)
      {
        PartialStep(carried, buffer, i);
        inside, emitted := Accept(buffer[i]);
        if !inside {
          return;
        }
        i := i + 1;
      }
    }

    /** All of a probe's output, up to the first write outside the allocation. */
    method Run(buffers: seq<string>) returns (inside: bool, emitted: seq<string>)
      requires Valid() && Carried() == "" && forall k :: 0 <= k < |buffers| ==> FgetsBuffer(buffers[k])
      modifies this, Buffer()
      ensures inside <==> AllFit(buffers)
      ensures inside ==> emitted == Assembled(buffers).1
    {
      emitted := [];
      assert buffers[..0] == [];
      for k := 0 to |buffers|
        invariant Valid() && fresh(Buffer() - old(Buffer()))
        invariant AllFit(buffers[..k]) && (Carried(), emitted) == Assembled(buffers[..k])
      {
        assert buffers[..k + 1][..k] == buffers[..k];
        var ok, e := Feed(buffers[k]);
        if !ok {
          AllFitPrefix(buffers, k + 1);
          return false, emitted;
        }
        emitted := emitted + e;
      }
      assert buffers[..|buffers|] == buffers;
      inside := true;
    }
  }

  /** Carried text and lines after a run of buffers. */
  function Assembled(buffers: seq<string>): (string, seq<string>) {
    if buffers == [] then ("", [])
    else
      var (c, lines) := Assembled(buffers[..|buffers| - 1]);
      var (c', more) := Fed(c, buffers[|buffers| - 1]);
      (c', lines + more)
  }

  predicate AllFit(buffers: seq<string>) {
    buffers != [] ==>
      var front := buffers[..|buffers| - 1];
      AllFit(front) && Fits(Assembled(front).0, buffers[|buffers| - 1])
  }

  lemma {:induction false} AllFitPrefix(buffers: seq<string>, n: nat)
    requires n <= |buffers|
    ensures AllFit(buffers) ==> AllFit(buffers[..n])
    decreases |buffers|
  {
    if n < |buffers| {
      var front := buffers[..|buffers| - 1];
      assert front[..n] == buffers[..n];
      AllFitPrefix(front, n);
    } else {
      assert buffers[..n] == buffers;
    }
  }

  /** The buffers a stream arrives in: one without a newline is full, unless it is the last before the end. */
  ghost predicate Stream(buffers: seq<string>) {
    forall k :: 0 <= k < |buffers| ==>
      FgetsBuffer(buffers[k]) && (Ended(buffers[k]) || |buffers[k]| == MAX_DATA_STR_LEN - 1 || k == |buffers| - 1)
  }

  /** No buffer that begins with a bar comes behind one that begins with a bar and has no newline; only a lone bar at
      the end of the stream may. */
  ghost predicate NoneBehindOpen(buffers: seq<string>) {
    forall i, j :: 0 <= i < j < |buffers| && Led(buffers[i]) && !Ended(buffers[i]) && Led(buffers[j]) ==>
      buffers[j] == "|"
  }

  /** The lines that arrive in one buffer. */
  function Complete(buffers: seq<string>): seq<string> {
    if buffers == [] then []
    else
      var b := buffers[|buffers| - 1];
      Complete(buffers[..|buffers| - 1]) + if Led(b) && Ended(b) then [b[..|b| - 1]] else []
  }

  ghost predicate SomeOpen(buffers: seq<string>) {
    exists i :: 0 <= i < |buffers| && Led(buffers[i]) && !Ended(buffers[i])
  }

  lemma StreamFront(buffers: seq<string>)
    requires Stream(buffers) && buffers != []
    ensures var front := buffers[..|buffers| - 1];
            && Stream(front)
            && forall k :: 0 <= k < |front| ==> Ended(front[k]) || |front[k]| == MAX_DATA_STR_LEN - 1
  {
    var front := buffers[..|buffers| - 1];
    assert forall k :: 0 <= k < |front| ==> front[k] == buffers[k];
  }

  lemma OpenSnoc(front: seq<string>, b: string)
    ensures NoneBehindOpen(front + [b]) <==> NoneBehindOpen(front) && (SomeOpen(front) && Led(b) ==> b == "|")
    ensures SomeOpen(front + [b]) <==> SomeOpen(front) || (Led(b) && !Ended(b))
  {
    var all := front + [b];
    assert all[|front|] == b && forall i :: 0 <= i < |front| ==> all[i] == front[i];
  }

  /** As long as everything fits, what is carried is a full open buffer if there was one, and nothing otherwise. */
  lemma {:induction false} CarriedIs(buffers: seq<string>)
    requires Stream(buffers) && AllFit(buffers)
    requires forall k :: 0 <= k < |buffers| ==> Ended(buffers[k]) || |buffers[k]| == MAX_DATA_STR_LEN - 1
    ensures |Assembled(buffers).0| == if SomeOpen(buffers) then MAX_DATA_STR_LEN - 1 else 0
    decreases |buffers|
  {
    hide FgetsBuffer;
    if buffers != [] {
      var front, b := buffers[..|buffers| - 1], buffers[|buffers| - 1];
      StreamFront(buffers);
      CarriedIs(front);
      OpenSnoc(front, b);
      assert buffers == front + [b];
      assert FgetsBuffer(buffers[|buffers| - 1]);
      LedEnded(b);
    }
  }

  lemma LedEnded(b: string)
    requires FgetsBuffer(b)
    ensures Led(b) && Ended(b) ==> |b| >= 2
    ensures |b| < MAX_DATA_STR_LEN
  {
  }

  /** When the writes stay inside: for every stream, exactly if no buffer that begins with a bar comes behind one that
      begins with a bar and has no newline. */
  lemma {:induction false} InsideIff(buffers: seq<string>)
    requires Stream(buffers)
    ensures AllFit(buffers) <==> NoneBehindOpen(buffers)
    decreases |buffers|
  {
    hide FgetsBuffer;
    if buffers != [] {
      var front, b := buffers[..|buffers| - 1], buffers[|buffers| - 1];
      StreamFront(buffers);
      InsideIff(front);
      OpenSnoc(front, b);
      assert buffers == front + [b];
      assert FgetsBuffer(buffers[|buffers| - 1]);
      LedEnded(b);
      if AllFit(front) {
        CarriedIs(front);
      }
    }
  }

  /** What comes out of such a stream: exactly the lines that arrive in one buffer, each whole and in order. */
  lemma {:induction false} EmitsComplete(buffers: seq<string>)
    requires Stream(buffers) && NoneBehindOpen(buffers)
    ensures Assembled(buffers).1 == Complete(buffers)
    decreases |buffers|
  {
    hide FgetsBuffer;
    if buffers != [] {
      var front, b := buffers[..|buffers| - 1], buffers[|buffers| - 1];
      StreamFront(buffers);
      OpenSnoc(front, b);
      assert buffers == front + [b];
      EmitsComplete(front);
      InsideIff(front);
      CarriedIs(front);
      if Led(b) && Ended(b) && !SomeOpen(front) {
        assert Assembled(front).0 + b[..|b| - 1] == b[..|b| - 1];
      }
    }
  }

  // from lines to buffers

  /** The buffers of one line of output, newline included. */
  function BuffersOf(text: string): (r: seq<string>)
    ensures text != "" ==> r != []
    decreases |text|
  {
    if text == "" then []
    else if |text| < MAX_DATA_STR_LEN then [text]
    else [text[..MAX_DATA_STR_LEN - 1]] + BuffersOf(text[MAX_DATA_STR_LEN - 1..])
  }

  function StreamOf(lines: seq<string>): seq<string> {
    if lines == [] then [] else StreamOf(lines[..|lines| - 1]) + BuffersOf(lines[|lines| - 1] + "\n")
  }

  function LastBuffer(line: string): string {
    var r := BuffersOf(line + "\n");
    r[|r| - 1]
  }

  function LedLines(lines: seq<string>): seq<string> {
    if lines == [] then []
    else
      var l := lines[|lines| - 1];
      LedLines(lines[..|lines| - 1]) + if Led(l) then [l] else []
  }

  ghost predicate Whole(lines: seq<string>) {
    forall k :: 0 <= k < |lines| ==> '\n' !in lines[k]
  }

  predicate Overlong(line: string) {
    |line| >= MAX_DATA_STR_LEN - 1
  }

  lemma {:induction false} CompleteAppend(a: seq<string>, b: seq<string>)
    ensures Complete(a + b) == Complete(a) + Complete(b)
    decreases |b|
  {
    if b == [] {
      assert a + b == a && Complete(a) + [] == Complete(a);
    } else {
      var n := |b| - 1;
      assert (a + b)[..|a + b| - 1] == a + b[..n] && (a + b)[|a + b| - 1] == b[n];
      CompleteAppend(a, b[..n]);
    }
  }

  lemma FirstBuffer(text: string)
    requires |text| >= MAX_DATA_STR_LEN && forall i :: 0 <= i < |text| - 1 ==> text[i] != '\n'
    ensures var head, rest := text[..MAX_DATA_STR_LEN - 1], text[MAX_DATA_STR_LEN - 1..];
            && BuffersOf(text) == [head] + BuffersOf(rest)
            && Complete([head]) == []
            && (Ended(text) <==> Ended(rest))
  {
    var head := text[..MAX_DATA_STR_LEN - 1];
    assert head[MAX_DATA_STR_LEN - 2] == text[MAX_DATA_STR_LEN - 2];
    var none: seq<string> := [];
    assert [head][..0] == none && Complete(none) == [];
  }

  /** Of the buffers of one text only the last can be complete. */
  lemma {:induction false} OneComplete(text: string)
    requires text != "" && forall i :: 0 <= i < |text| - 1 ==> text[i] != '\n'
    ensures var r := BuffersOf(text);
            var last := r[|r| - 1];
            && Complete(r) == (if Led(last) && Ended(last) then [last[..|last| - 1]] else [])
            && |last| < MAX_DATA_STR_LEN && (Ended(text) <==> Ended(last))
    decreases |text|
  {
    if |text| < MAX_DATA_STR_LEN {
      assert [text][..0] == [];
    } else {
      hide BuffersOf, Complete, Led, Ended;
      var head, rest := text[..MAX_DATA_STR_LEN - 1], text[MAX_DATA_STR_LEN - 1..];
      FirstBuffer(text);
      OneComplete(rest);
      var r := BuffersOf(rest);
      assert ([head] + r)[|r|] == r[|r| - 1];
      CompleteAppend([head], r);
    }
  }

  lemma LineComplete(line: string)
    requires '\n' !in line
    ensures var last := LastBuffer(line);
            && Complete(BuffersOf(line + "\n")) == (if Led(last) then [last[..|last| - 1]] else [])
            && 0 < |last| < MAX_DATA_STR_LEN
            && (!Overlong(line) ==> last == line + "\n" && last[..|last| - 1] == line && (Led(last) <==> Led(line)))
  {
    OneComplete(line + "\n");
    assert (line + "\n")[..|line|] == line;
  }

  lemma {:induction false} ShortOutput(lines: seq<string>)
    requires Whole(lines)
    ensures forall x :: x in Complete(StreamOf(lines)) ==> |x| < MAX_DATA_STR_LEN - 1
  {
    if lines != [] {
      var front, l := lines[..|lines| - 1], lines[|lines| - 1];
      ShortOutput(front);
      LineComplete(l);
      CompleteAppend(StreamOf(front), BuffersOf(l + "\n"));
    }
  }

  lemma {:induction false} LedLineIsListed(lines: seq<string>, k: nat)
    requires k < |lines| && Led(lines[k])
    ensures lines[k] in LedLines(lines)
    decreases |lines|
  {
    if k < |lines| - 1 {
      LedLineIsListed(lines[..|lines| - 1], k);
    }
  }

  /** Without long lines that begin with a bar, the output has at least as many lines as it should have, and the same
      ones exactly if no long line has a last buffer that looks like one. */
  lemma {:induction false} ShortLines(lines: seq<string>)
    requires Whole(lines) && forall k :: 0 <= k < |lines| && Overlong(lines[k]) ==> !Led(lines[k])
    ensures |Complete(StreamOf(lines))| >= |LedLines(lines)|
    ensures var clean := forall k :: 0 <= k < |lines| && Overlong(lines[k]) ==> !Led(LastBuffer(lines[k]));
            && (clean ==> Complete(StreamOf(lines)) == LedLines(lines))
            && (!clean ==> |Complete(StreamOf(lines))| > |LedLines(lines)|)
    decreases |lines|
  {
    hide Overlong, LastBuffer, BuffersOf;
    if lines != [] {
      var front, l := lines[..|lines| - 1], lines[|lines| - 1];
      assert lines == front + [l];
      ShortLines(front);
      LineComplete(l);
      CompleteAppend(StreamOf(front), BuffersOf(l + "\n"));
    }
  }

  /** The lines that begin with a bar come out, all of them, whole and alone, exactly if every line of 2047 characters
      or more neither begins with a bar nor has a last buffer that does. */
  lemma OutputIff(lines: seq<string>)
    requires Whole(lines)
    ensures Complete(StreamOf(lines)) == LedLines(lines) <==>
            forall k :: 0 <= k < |lines| && Overlong(lines[k]) ==> !Led(lines[k]) && !Led(LastBuffer(lines[k]))
  {
    hide LastBuffer, BuffersOf, Complete, StreamOf, LedLines;
    ShortOutput(lines);
    if k :| 0 <= k < |lines| && Overlong(lines[k]) && Led(lines[k]) {
      LedLineIsListed(lines, k);
    } else {
      ShortLines(lines);
    }
  }

  lemma {:induction false} BuffersAreStream(text: string)
    requires text != "" && Ended(text) && forall i :: 0 <= i < |text| - 1 ==> text[i] != '\n'
    ensures forall b :: b in BuffersOf(text) ==> FgetsBuffer(b) && (Ended(b) || |b| == MAX_DATA_STR_LEN - 1)
    decreases |text|
  {
    if |text| >= MAX_DATA_STR_LEN {
      BuffersAreStream(text[MAX_DATA_STR_LEN - 1..]);
    }
  }

  /** Lines of output arrive as a stream. */
  lemma {:induction false} LinesAreStream(lines: seq<string>)
    requires Whole(lines)
    ensures forall b :: b in StreamOf(lines) ==> FgetsBuffer(b) && (Ended(b) || |b| == MAX_DATA_STR_LEN - 1)
    ensures Stream(StreamOf(lines))
    decreases |lines|
  {
    hide FgetsBuffer, BuffersOf;
    if lines != [] {
      LinesAreStream(lines[..|lines| - 1]);
      BuffersAreStream(lines[|lines| - 1] + "\n");
    }
  }

  /** What a probe's output comes to: as long as the writes stay inside, the lines handed on are those that begin with a
      bar, whole and in order, exactly under the condition of `OutputIff`. */
  lemma LinesComeOutIff(lines: seq<string>)
    requires Whole(lines) && AllFit(StreamOf(lines))
    ensures Assembled(StreamOf(lines)).1 == LedLines(lines) <==>
            forall k :: 0 <= k < |lines| && Overlong(lines[k]) ==> !Led(lines[k]) && !Led(LastBuffer(lines[k]))
  {
    hide StreamOf, Assembled, AllFit, Stream, LastBuffer, Overlong, LedLines;
    LinesAreStream(lines);
    InsideIff(StreamOf(lines));
    EmitsComplete(StreamOf(lines));
    OutputIff(lines);
  }

  // ---- end to end

  lemma LineIsAddressed(name: string, vals: seq<string>)
    requires name != "" && '|' !in name && |name| < TABLE_NAME_LEN
    ensures var line := Fields([name] + vals, '|') + "|\n";
            AddressedTo(line, name) && ContentFor(line, name) == BuiltinContent(vals)
    ensures var line := Fields([name] + vals, '|') + "|";
            AddressedTo(line, name) && ContentFor(line, name) == ExtendContent(vals)
  {
    assert ([name] + vals)[1..] == vals;
    var head := ['|'] + name;
    var a, b := Fields([name] + vals, '|') + "|\n", Fields([name] + vals, '|') + "|";
    assert a == head + BuiltinContent(vals) && b == head + ExtendContent(vals);
    assert a == "|" + name + BuiltinContent(vals) && b == "|" + name + ExtendContent(vals);
    assert Fields(vals, '|') != "" ==> Fields(vals, '|')[0] == '|';
  }

  /** From the printf call to the record. A line with one field per meta field is routed to its table, and its record
      has the table's names with the printed values, empty later ones as "(null)", iff the first is not empty. */
  lemma EndToEnd(name: string, items: seq<Item>, meta: seq<Metric>, now: int) returns (line: string)
    requires name != "" && '|' !in name && |name| < TABLE_NAME_LEN
    requires |items| == |meta| > 0 && Clean(Texts(items))
    ensures Format(LineFormat([StrItem(name)] + items), Args([StrItem(name)] + items)) == Some(line)
    ensures AddressedTo(line, name)
    ensures ParsedValues(Split(ContentFor(line, name), '|'), |meta|) == NullForAll(Texts(items)) <==>
            Texts(items)[0] != ""
    ensures Texts(items)[0] != "" ==>
      var row := RowOf(meta, ContentFor(line, name), now);
      && |row.metrics| == |meta|
      && forall i :: 0 <= i < |meta| ==> row.metrics[i] == MetricOf(meta[i], NullFor(ItemText(items[i])))
  {
    hide Format, ItemText, MetricOf, AddressedTo, ContentFor, Split, ParsedValues, LineFormat, Args;
    hide EncodeKey, KeyValues;
    var all := [StrItem(name)] + items;
    LinePrints(all);
    NameText(name, items);
    line := Fields([name] + Texts(items), '|') + "|\n";
    LineIsAddressed(name, Texts(items));
    FullLineComesBack(Texts(items));
  }

  lemma NameText(name: string, items: seq<Item>)
    ensures Texts([StrItem(name)] + items) == [name] + Texts(items)
  {
  }

  /** The same line read from an extend probe's output and stripped of its newline yields the same row. */
  lemma StrippedLineSameRow(name: string, vals: seq<string>, meta: seq<Metric>, now: int)
    requires name != "" && '|' !in name && |name| < TABLE_NAME_LEN
    requires Clean(vals) && vals != [] && vals[0] != "" && |meta| <= |vals|
    ensures var line := Fields([name] + vals, '|') + "|\n";
            var stripped := line[..|line| - 1];
            AddressedTo(stripped, name)
            && RowOf(meta, ContentFor(stripped, name), now) == RowOf(meta, ContentFor(line, name), now)
  {
    hide AddressedTo, ContentFor, Split, ParsedValues, EncodeKey, KeyValues, MakeMetrics, Fields;
    LineIsAddressed(name, vals);
    RoutesAgreeIff(vals, |meta|);
    var line := Fields([name] + vals, '|') + "|\n";
    assert line[..|line| - 1] == Fields([name] + vals, '|') + "|";
  }
}
