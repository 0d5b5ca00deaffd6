/** The printf engine the built-in probes print through: a loop over the format that consumes arguments. */
module Printf {
  import opened Options
  import opened Words
  import opened Numbers

  /** A C argument by its mathematical value, or a string without NUL. */
  datatype Arg = IntArg(v: int) | StrArg(s: string)

  /** The length qualifiers `h`, `l`, `L`, `ll`. */
  datatype Qualifier = Plain | Short | Long | Big | LongLong

  /** Everything between '%' and the conversion character. */
  datatype Spec = Spec(flags: Flags, width: int, precision: int, qualifier: Qualifier)

  // ---- scanning a directive

  function WithFlag(f: Flags, c: char): Flags {
    match c
    case '-' => f.(left := true)
    case '+' => f.(plus := true)
    case ' ' => f.(space := true)
    case '#' => f.(special := true)
    case _ => f.(zeropad := true)
  }

  predicate IsFlag(c: char) {
    c == '-' || c == '+' || c == ' ' || c == '#' || c == '0'
  }

  function ScanFlags(s: string, f: Flags): (r: (Flags, string))
    ensures |r.1| <= |s|
  {
    if s != "" && IsFlag(s[0]) then ScanFlags(s[1..], WithFlag(f, s[0])) else (f, s)
  }

  predicate StartsWithDigit(s: string) {
    s != "" && '0' <= s[0] <= '9'
  }

  function SkipAtoi(s: string, acc: int): (r: (int, string))
    ensures |r.1| <= |s|
  {
    if StartsWithDigit(s) then SkipAtoi(s[1..], acc * 10 + (s[0] as int - '0' as int)) else (acc, s)
  }

  predicate StartsWith(s: string, c: char) {
    s != "" && s[0] == c
  }

  function ScanQualifier(s: string): (r: (Qualifier, string))
    ensures |r.1| <= |s|
  {
    if StartsWith(s, 'l') && StartsWith(s[1..], 'l') then (LongLong, s[2..])
    else if StartsWith(s, 'h') then (Short, s[1..])
    else if StartsWith(s, 'l') then (Long, s[1..])
    else if StartsWith(s, 'L') then (Big, s[1..])
    else (Plain, s)
  }

  /** Field width: digits, or '*' whose negative argument also left-justifies. */
  function ScanWidth(s: string, f: Flags, args: seq<Arg>): (r: Option<(int, Flags, string, seq<Arg>)>)
    ensures r.Some? ==> |r.value.2| <= |s|
  {
    if StartsWithDigit(s) then var (w, rest) := SkipAtoi(s, 0); Some((w, f, rest, args))
    else if StartsWith(s, '*') then
      if args == [] || !args[0].IntArg? then None
      else if args[0].v < 0 then Some((-args[0].v, f.(left := true), s[1..], args[1..]))
      else Some((args[0].v, f, s[1..], args[1..]))
    else Some((-1, f, s, args))
  }

  /** Precision: absent is -1, anything negative after '.' counts as 0. */
  function ScanPrecision(s: string, args: seq<Arg>): (r: Option<(int, string, seq<Arg>)>)
    ensures r.Some? ==> |r.value.1| <= |s|
  {
    if !StartsWith(s, '.') then Some((-1, s, args))
    else
      var t := s[1..];
      if StartsWithDigit(t) then var (p, rest) := SkipAtoi(t, 0); Some((Max(p, 0), rest, args))
      else if StartsWith(t, '*') then
        if args == [] || !args[0].IntArg? then None else Some((Max(args[0].v, 0), t[1..], args[1..]))
      else Some((0, t, args))
  }

  // ---- converting an argument

  function Extend(low: nat, bits: nat): int
    requires bits > 0
  {
    if low >= Power2(bits - 1) then low - Power2(bits) else low
  }

  /** The 64-bit word fetched for an integer conversion: truncated to the qualifier's type, sign-extended if signed. */
  function FetchWord(v: int, q: Qualifier, sign: bool): (r: nat)
    ensures r < TWO64
  {
    match q
    case Long | LongLong => U64(v)
    case Short => if sign then U64(Extend(v % Power2(16), 16)) else U64(v % Power2(16))
    case Plain | Big => if sign then U64(Extend(U32(v), 32)) else U64(U32(v))
  }

  predicate IsInteger(c: char) {
    c == 'o' || c == 'x' || c == 'X' || c == 'd' || c == 'i' || c == 'u'
  }

  function BaseOf(c: char): int {
    if c == 'o' then 8 else if c == 'x' || c == 'X' then 16 else 10
  }

  function IntegerFlags(c: char, f: Flags): Flags {
    if c == 'x' then f.(small := true) else if c == 'd' || c == 'i' then f.(sign := true) else f
  }

  function Justify(s: string, width: int, left: bool): string {
    var pad := Repeat(' ', width - |s|);
    if left then s + pad else pad + s
  }

  function Truncated(s: string, precision: int): string {
    if 0 <= precision < |s| then s[..precision] else s
  }

  /** The text of one conversion and the arguments left; `None` where C leaves the call undefined or for %f, %p, %n. */
  function Convert(spec: Spec, c: char, args: seq<Arg>): Option<(string, seq<Arg>)> {
    if c == '%' then Some(("%", args))
    else if c == 'f' || c == 'p' || c == 'n' then None
    else if c == 'c' then
      if args == [] || !args[0].IntArg? then None
      else Some((Justify([(args[0].v % 256) as char], spec.width, spec.flags.left), args[1..]))
    else if c == 's' then
      if args == [] || !args[0].StrArg? then None
      else Some((Justify(Truncated(args[0].s, spec.precision), spec.width, spec.flags.left), args[1..]))
    else if IsInteger(c) then
      if args == [] || !args[0].IntArg? then None
      else
        var flags := IntegerFlags(c, spec.flags);
        var num := FetchWord(args[0].v, spec.qualifier, flags.sign);
        Some((Field(num, BaseOf(c), spec.width, spec.precision, flags), args[1..]))
    else Some(("%" + [c], args))
  }

  /** One directive, from behind its '%': the text, the rest of the format and the arguments left. */
  function Directive(s: string, args: seq<Arg>): (r: Option<(string, string, seq<Arg>)>)
    ensures r.Some? ==> |r.value.1| <= |s|
  {
    var (f0, s0) := ScanFlags(s, NO_FLAGS);
    match ScanWidth(s0, f0, args)
    case None => None
    case Some((width, f1, s1, args1)) =>
      match ScanPrecision(s1, args1)
      case None => None
      case Some((precision, s2, args2)) =>
        var (q, s3) := ScanQualifier(s2);
        if s3 == "" then Some(("%", "", args2))
        else
          match Convert(Spec(f1, width, precision, q), s3[0], args2)
          case None => None
          case Some((text, args3)) => Some((text, s3[1..], args3))
  }

  function Format(fmt: string, args: seq<Arg>): Option<string>
    decreases |fmt|
  {
    if fmt == "" then Some("")
    else if fmt[0] != '%' then Prepend([fmt[0]], Format(fmt[1..], args))
    else
      match Directive(fmt[1..], args)
      case None => None
      case Some((text, rest, left)) => Prepend(text, Format(rest, left))
  }

  function Prepend(s: string, r: Option<string>): Option<string> {
    if r.None? then None else Some(s + r.value)
  }

  // ---- the loop

  method SkipAtoiLoop(s: string) returns (i: int, rest: string)
    ensures (i, rest) == SkipAtoi(s, 0)
  {
    i, rest := 0, s;
    while StartsWithDigit(rest)
      invariant SkipAtoi(rest, i) == SkipAtoi(s, 0)
      decreases |rest|
    {
      i := i * 10 + (rest[0] as int - '0' as int);
      rest := rest[1..];
    }
  }

  method ScanFlagsLoop(s: string) returns (flags: Flags, rest: string)
    ensures (flags, rest) == ScanFlags(s, NO_FLAGS)
  {
    flags, rest := NO_FLAGS, s;
    while rest != "" && IsFlag(rest[0])
      invariant ScanFlags(rest, flags) == ScanFlags(s, NO_FLAGS)
      decreases |rest|
    {
      flags := WithFlag(flags, rest[0]);
      rest := rest[1..];
    }
  }

  /** Appends `s` justified in its field. */
  method Pad(str: string, s: string, width: int, left: bool) returns (out: string)
    ensures out == str + Justify(s, width, left)
  {
    out := str;
    if !left {
      out := Fill(out, ' ', width - |s|);
    }
    out := out + s;
    if left {
      out := Fill(out, ' ', width - |s|);
    }
  }

  /** The conversion switch: appends the text to `str`. */
  method ConvertInto(str: string, spec: Spec, c: char, args: seq<Arg>) returns (ok: bool, out: string, left: seq<Arg>)
    ensures ok <==> Convert(spec, c, args).Some?
    ensures ok ==> out == str + Convert(spec, c, args).value.0 && left == Convert(spec, c, args).value.1
  {
    hide Field, Justify, FetchWord;
    ok, out, left := true, str, args;
    if c == '%' {
      out := out + "%";
    } else if c == 'f' || c == 'p' || c == 'n' {
      ok := false;
    } else if c == 'c' || c == 's' || IsInteger(c) {
      if args == [] || (c == 's' && !args[0].StrArg?) || (c != 's' && !args[0].IntArg?) {
        return false, str, args;
      }
      left := args[1..];
      if c == 'c' {
        out := Pad(out, [(args[0].v % 256) as char], spec.width, spec.flags.left);
      } else if c == 's' {
        out := Pad(out, Truncated(args[0].s, spec.precision), spec.width, spec.flags.left);
      } else {
        var flags := IntegerFlags(c, spec.flags);
        var num := FetchWord(args[0].v, spec.qualifier, flags.sign);
        ok, out := Number(out, num, BaseOf(c), spec.width, spec.precision, flags);
      }
    } else {
      out := out + "%" + [c];
    }
  }

  method WidthInto(s: string, f: Flags, args: seq<Arg>)
    returns (ok: bool, width: int, flags: Flags, rest: string, left: seq<Arg>)
    ensures ok <==> ScanWidth(s, f, args).Some?
    ensures ok ==> Some((width, flags, rest, left)) == ScanWidth(s, f, args)
  {
    ok, width, flags, rest, left := true, -1, f, s, args;
    if StartsWithDigit(rest) {
      width, rest := SkipAtoiLoop(rest);
    } else if StartsWith(rest, '*') {
      if left == [] || !left[0].IntArg? {
        ok := false;
        return;
      }
      width, left, rest := left[0].v, left[1..], rest[1..];
      if width < 0 {
        width := -width;
        flags := flags.(left := true);
      }
    }
  }

  method PrecisionInto(s: string, args: seq<Arg>) returns (ok: bool, precision: int, rest: string, left: seq<Arg>)
    ensures ok <==> ScanPrecision(s, args).Some?
    ensures ok ==> Some((precision, rest, left)) == ScanPrecision(s, args)
  {
    ok, precision, rest, left := true, -1, s, args;
    if StartsWith(rest, '.') {
      rest := rest[1..];
      if StartsWithDigit(rest) {
        precision, rest := SkipAtoiLoop(rest);
      } else if StartsWith(rest, '*') {
        if left == [] || !left[0].IntArg? {
          ok := false;
          return;
        }
        precision, left, rest := left[0].v, left[1..], rest[1..];
      }
      precision := if precision < 0 then 0 else precision;
    }
  }

  /** One directive: flags, width, precision and qualifier are scanned off, then the conversion is appended. */
  method DirectiveInto(str: string, s: string, args: seq<Arg>)
    returns (ok: bool, out: string, rest: string, left: seq<Arg>)
    ensures ok <==> Directive(s, args).Some?
    ensures ok ==> out == str + Directive(s, args).value.0
    ensures ok ==> rest == Directive(s, args).value.1 && left == Directive(s, args).value.2
  {
    hide Convert, ScanFlags, ScanWidth, ScanPrecision, ScanQualifier;
    out, left := str, args;
    var flags, width, precision;
    flags, rest := ScanFlagsLoop(s);
    ok, width, flags, rest, left := WidthInto(rest, flags, left);
    if !ok {
      return;
    }
    ok, precision, rest, left := PrecisionInto(rest, left);
    if !ok {
      return;
    }
    var (qualifier, conversion) := ScanQualifier(rest);
    if conversion == "" {
      out, rest := out + "%", "";
    } else {
      ok, out, left := ConvertInto(out, Spec(flags, width, precision, qualifier), conversion[0], left);
      rest := conversion[1..];
    }
  }

  lemma PrependTwice(a: string, b: string, r: Option<string>)
    ensures Prepend("", r) == r
    ensures Prepend(a, Prepend(b, r)) == Prepend(a + b, r)
  {
    if r.Some? {
      assert "" + r.value == r.value;
      assert a + (b + r.value) == a + b + r.value;
    }
  }

  /** The whole call: the string that goes into the fifo. */
  method Print(format: string, arguments: seq<Arg>) returns (ok: bool, dataStr: string)
    ensures ok <==> Format(format, arguments).Some?
    ensures ok ==> dataStr == Format(format, arguments).value
  {
    hide Directive;
    ok, dataStr := true, "";
    var cur, args := format, arguments;
    PrependTwice("", "", Format(format, arguments));
    while cur != ""
      invariant Format(format, arguments) == Prepend(dataStr, Format(cur, args))
      decreases |cur|
    {
      ghost var before := dataStr;
      if cur[0] != '%' {
        PrependTwice(before, [cur[0]], Format(cur[1..], args));
        dataStr := dataStr + [cur[0]];
        cur := cur[1..];
      } else {
        ghost var d := Directive(cur[1..], args);
        ok, dataStr, cur, args := DirectiveInto(dataStr, cur[1..], args);
        if !ok {
          return;
        }
        PrependTwice(before, d.value.0, Format(cur, args));
      }
    }
  }
}
