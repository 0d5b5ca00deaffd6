/** Decoding what the client packs, and the characters the recogniser takes for letters and digits. */
module RespDecode {
  import opened Options
  import opened Text
  import opened Numbers
  import opened Resp

  // ---- characters

  /** Letters are A to Z and a to z, and small ones are recorded as capitals. */
  lemma LettersAre(c: char)
    ensures Letter(c) <==> 65 <= c as int <= 90 || 97 <= c as int <= 122
    ensures Upper(c) as int == if 97 <= c as int <= 122 then c as int - 32 else c as int
    ensures Digit(c) <==> 48 <= c as int <= 57
  {
  }

  // ---- decoding a request

  /** A line up to its carriage return and newline, and what follows. */
  function ReadLine(s: string): Option<(string, string)> {
    var i := IndexOf(s, '\r');
    if i + 1 < |s| && s[i + 1] == '\n' then Some((s[..i], s[i + 2..])) else None
  }

  /** A bulk string: a dollar sign and its length on a line, then that many characters and a line end. */
  function ReadBulk(s: string): Option<(string, string)> {
    if s == "" || s[0] != '$' then None
    else
      match ReadLine(s[1..])
      case None => None
      case Some((digits, rest)) =>
        var n := ReadDigits(digits, 10, 0);
        if n < 0 || |rest| < n + 2 || rest[n] != '\r' || rest[n + 1] != '\n' then None
        else Some((rest[..n], rest[n + 2..]))
  }

  function ReadBulks(s: string, n: nat): Option<(seq<string>, string)> {
    if n == 0 then Some(([], s))
    else
      match ReadBulk(s)
      case None => None
      case Some((arg, rest)) =>
        match ReadBulks(rest, n - 1)
        case None => None
        case Some((args, left)) => Some(([arg] + args, left))
  }

  /** A request: a star and the number of its strings on a line, then the strings and nothing more. */
  function ReadRequest(s: string): Option<seq<string>> {
    if s == "" || s[0] != '*' then None
    else
      match ReadLine(s[1..])
      case None => None
      case Some((digits, rest)) =>
        var n := ReadDigits(digits, 10, 0);
        if n < 0 then None
        else
          match ReadBulks(rest, n)
          case None => None
          case Some((args, left)) => if left == "" then Some(args) else None
  }

  lemma LineReads(digits: string, rest: string)
    requires '\r' !in digits
    ensures ReadLine(digits + ("\r\n" + rest)) == Some((digits, rest))
  {
    var s := digits + ("\r\n" + rest);
    assert s == digits + ['\r'] + ("\n" + rest);
    IndexOfAppend(digits, '\r', "\n" + rest);
    hide IndexOf;
    assert s[|digits| + 1] == '\n' && s[..|digits|] == digits && s[|digits| + 2..] == rest;
  }

  lemma NumberReads(n: nat, rest: string)
    ensures ReadLine(Decimal(n) + ("\r\n" + rest)) == Some((Decimal(n), rest)) && ReadDigits(Decimal(n), 10, 0) == n
  {
    DecimalDigits(n);
    NumeralReads(n, 10, false);
    var s := Decimal(n);
    assert s + "" == s;
    ReadsAll(s, "", 10, 0);
    hide Decimal;
    LineReads(s, rest);
  }

  lemma BulkReads(arg: string, rest: string)
    ensures ReadBulk(Bulk(arg) + rest) == Some((arg, rest))
  {
    NumberReads(|arg|, arg + ("\r\n" + rest));
    hide Decimal, ReadDigits, ReadLine;
    var tail := arg + ("\r\n" + rest);
    DollarLine(Decimal(|arg|), arg, rest);
    assert tail[|arg|] == '\r' && tail[|arg| + 1] == '\n' && tail[..|arg|] == arg && tail[|arg| + 2..] == rest;
  }

  lemma DollarLine(digits: string, arg: string, rest: string)
    ensures var s := "$" + digits + "\r\n" + arg + "\r\n" + rest;
            s != "" && s[0] == '$' && s[1..] == digits + ("\r\n" + (arg + ("\r\n" + rest)))
  {
    assert "\r\n" + (arg + ("\r\n" + rest)) == "\r\n" + arg + "\r\n" + rest;
  }

  lemma {:induction false} BulksFront(args: seq<string>)
    requires args != []
    ensures Bulks(args) == Bulk(args[0]) + Bulks(args[1..])
    decreases |args|
  {
    hide Bulk;
    if |args| == 1 {
      assert args[..0] == [] && args[1..] == [];
      assert "" + Bulk(args[0]) == Bulk(args[0]) + "";
    } else {
      var front, last := args[..|args| - 1], args[|args| - 1];
      BulksFront(front);
      assert args[1..][..|args| - 2] == front[1..];
      PackStep(Bulk(args[0]), Bulks(front[1..]), Bulk(last));
    }
  }

  lemma {:induction false} BulksRead(args: seq<string>)
    ensures ReadBulks(Bulks(args), |args|) == Some((args, ""))
    decreases |args|
  {
    hide ReadBulk, Bulk;
    if args != [] {
      BulksFront(args);
      BulkReads(args[0], Bulks(args[1..]));
      BulksRead(args[1..]);
      assert [args[0]] + args[1..] == args;
    }
  }

  /** Decoding undoes packing, whatever the strings hold. */
  lemma RequestDecodes(args: seq<string>)
    ensures ReadRequest(Packed(args)) == Some(args)
  {
    NumberReads(|args|, Bulks(args));
    BulksRead(args);
    hide Decimal, ReadDigits, ReadLine, Bulks, ReadBulks;
    StarLine(Decimal(|args|), Bulks(args));
  }

  lemma StarLine(digits: string, rest: string)
    ensures var s := "*" + digits + "\r\n" + rest;
            s != "" && s[0] == '*' && s[1..] == digits + ("\r\n" + rest)
  {
  }

  // ---- what the client was asked to send

  function ReadInt(s: string): int {
    if s != "" && s[0] == '-' then 0 - ReadDigits(s[1..], 10, 0) else ReadDigits(s, 10, 0)
  }

  /** The text stands for the value: it is the text of bytes, text or a float, and reads as the number of an integer. */
  predicate StandsFor(v: Value, s: string) {
    match v
    case Bytes(text) => s == text
    case Str(text) => s == text
    case Float(shown) => s == shown
    case Int(n) => ReadInt(s) == n && forall c :: c in s ==> (c == '-' && n < 0) || 48 <= c as int <= 57
    case Other => true
  }

  lemma EncodeStandsFor(v: Value)
    ensures StandsFor(v, Encode(v))
  {
    if v.Int? {
      var n: nat := if v.v < 0 then -v.v else v.v;
      NumberReads(n, "");
      DecimalDigits(n);
      hide Decimal, ReadDigits;
      var d := Decimal(n);
      assert ("-" + d)[1..] == d;
    }
  }

  lemma {:induction false} EncodedAt(values: seq<Value>, i: nat)
    requires i < |values|
    ensures EncodeAll(values)[i] == Encode(values[i])
    decreases |values|
  {
    hide Encode;
    if i < |values| - 1 {
      EncodedAt(values[..|values| - 1], i);
    }
  }

  /** A packed request is decoded as as many strings as there were values, each standing for its value. */
  lemma ClientRequestDecodes(values: seq<Value>)
    ensures var r := ReadRequest(Packed(EncodeAll(values)));
            r.Some? && |r.value| == |values| && forall i :: 0 <= i < |values| ==> StandsFor(values[i], r.value[i])
  {
    hide StandsFor, ReadRequest, Packed, EncodeAll, Encode;
    var texts := EncodeAll(values);
    RequestDecodes(texts);
    forall i | 0 <= i < |values|
      ensures StandsFor(values[i], texts[i])
    {
      EncodedAt(values, i);
      EncodeStandsFor(values[i]);
    }
  }
}
