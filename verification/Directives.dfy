/** The directives of the printf engine as their author writes them: scanning one recovers every part of it. */
module Directives {
  import opened Options
  import opened Words
  import opened Numbers
  import opened Printf
  import opened Layout

  /** A width or precision in a format: none, digits, or a star that takes an argument. */
  datatype Size = Absent | Fixed(n: nat) | FromArg(v: int)

  /** A directive: flag characters, width, precision if there is a dot, length qualifier and conversion. */
  datatype Written = Written(flags: string, width: Size, precision: Option<Size>, qualifier: Qualifier, conv: char)

  /** Digits of a width do not begin with a zero, which would be a flag; nor does the conversion look like one of the
      parts in front of it. */
  predicate WellWritten(d: Written) {
    FlagText(d.flags) && (d.width.Fixed? ==> d.width.n > 0) && Letter(d.conv)
  }

  predicate Letter(c: char) {
    !FlagLetter(c) && !('0' <= c <= '9') && c != '*' && c != '.' && c != 'h' && c != 'l' && c != 'L'
  }

  function SizeText(w: Size): string {
    match w
    case Absent => ""
    case Fixed(n) => Decimal(n)
    case FromArg(_) => "*"
  }

  function SizeArgs(w: Size): seq<Arg> {
    if w.FromArg? then [IntArg(w.v)] else []
  }

  function LengthText(q: Qualifier): string {
    match q
    case Plain => ""
    case Short => "h"
    case Long => "l"
    case Big => "L"
    case LongLong => "ll"
  }

  function PrecisionText(p: Option<Size>): string {
    if p.None? then "" else "." + SizeText(p.value)
  }

  function PrecisionArgs(p: Option<Size>): seq<Arg> {
    if p.None? then [] else SizeArgs(p.value)
  }

  /** The directive behind its '%' up to the conversion, and what follows. */
  function PartsText(d: Written, tail: string): string {
    d.flags + (SizeText(d.width) + (PrecisionText(d.precision) + (LengthText(d.qualifier) + tail)))
  }

  function TextOf(d: Written, rest: string): string {
    PartsText(d, [d.conv] + rest)
  }

  // ---- what it says

  /** A flag is set by its character; a star width left-justifies by being negative; a signed conversion shows signs and
      `x` writes small letters. */
  function FlagsOf(d: Written): Flags {
    Flags(zeropad := '0' in d.flags,
          sign := d.conv == 'd' || d.conv == 'i',
          plus := '+' in d.flags,
          space := ' ' in d.flags,
          left := '-' in d.flags || (d.width.FromArg? && d.width.v < 0),
          small := d.conv == 'x',
          special := '#' in d.flags)
  }

  function WidthOf(w: Size): int {
    match w
    case Absent => -1
    case Fixed(n) => n
    case FromArg(v) => Abs(v)
  }

  function PrecisionOf(p: Option<Size>): int {
    match p
    case None => -1
    case Some(Absent) => 0
    case Some(Fixed(n)) => n
    case Some(FromArg(v)) => Max(0, v)
  }

  // ---- scanning

  /** The flags together with those the characters set. */
  function Set(f: Flags, fs: string): Flags {
    f.(zeropad := f.zeropad || '0' in fs, plus := f.plus || '+' in fs, space := f.space || ' ' in fs,
       left := f.left || '-' in fs, special := f.special || '#' in fs)
  }

  lemma SetOne(f: Flags, c: char, fs: string)
    requires FlagLetter(c)
    ensures Set(WithFlag(f, c), fs) == Set(f, [c] + fs)
  {
    assert forall x :: x in [c] + fs <==> x == c || x in fs;
  }

  predicate FlagLetter(c: char) {
    c == '-' || c == '+' || c == ' ' || c == '#' || c == '0'
  }

  predicate FlagText(fs: string) {
    forall i :: 0 <= i < |fs| ==> FlagLetter(fs[i])
  }

  lemma {:induction false} FlagsScan(fs: string, f: Flags, rest: string)
    requires FlagText(fs) && (rest == "" || !FlagLetter(rest[0]))
    ensures ScanFlags(fs + rest, f) == (Set(f, fs), rest)
  {
    hide WithFlag, Set;
    if fs == "" {
      assert fs + rest == rest;
      SetNone(f);
    } else {
      assert (fs + rest)[1..] == fs[1..] + rest && fs == [fs[0]] + fs[1..];
      FlagsScan(fs[1..], WithFlag(f, fs[0]), rest);
      SetOne(f, fs[0], fs[1..]);
    }
  }

  lemma SetNone(f: Flags)
    ensures Set(f, "") == f
  {
  }

  lemma {:induction false} DigitsSkip(s: string, rest: string, acc: int)
    requires AllDigits(s, 10) && !StartsWithDigit(rest)
    ensures SkipAtoi(s + rest, acc) == (ValueOf(s, 10, acc), rest)
    decreases |s|
  {
    if s == "" {
      assert s + rest == rest;
    } else {
      assert (s + rest)[1..] == s[1..] + rest;
      assert IsDigit(s[0], 10);
      ValueFront(s, 10, acc);
      DigitsSkip(s[1..], rest, acc * 10 + DigitValue(s[0]));
    }
  }

  lemma NumberSkips(n: nat, rest: string)
    requires !StartsWithDigit(rest)
    ensures StartsWithDigit(Decimal(n) + rest) && SkipAtoi(Decimal(n) + rest, 0) == (n, rest)
  {
    NumeralReads(n, 10, false);
    DecimalDigits(n);
    DigitsSkip(Decimal(n), rest, 0);
    hide Decimal;
  }

  lemma WidthScans(w: Size, f: Flags, rest: string, args: seq<Arg>)
    requires !StartsWithDigit(rest) && !StartsWith(rest, '*')
    ensures ScanWidth(SizeText(w) + rest, f, SizeArgs(w) + args)
            == Some((WidthOf(w), f.(left := f.left || (w.FromArg? && w.v < 0)), rest, args))
  {
    match w
    case Absent =>
      assert "" + rest == rest && [] + args == args;
    case Fixed(n) =>
      NumberSkips(n, rest);
      hide Decimal;
      assert [] + args == args;
    case FromArg(v) =>
      assert ("*" + rest)[1..] == rest && ([IntArg(v)] + args)[1..] == args;
  }

  lemma PrecisionScans(p: Option<Size>, rest: string, args: seq<Arg>)
    requires !StartsWithDigit(rest) && !StartsWith(rest, '*') && !StartsWith(rest, '.')
    ensures ScanPrecision(PrecisionText(p) + rest, PrecisionArgs(p) + args) == Some((PrecisionOf(p), rest, args))
  {
    if p.None? {
      assert "" + rest == rest && [] + args == args;
    } else {
      var t := SizeText(p.value) + rest;
      assert PrecisionText(p) + rest == "." + t && ("." + t)[1..] == t;
      match p.value
      case Absent =>
        assert t == rest && [] + args == args;
      case Fixed(n) =>
        NumberSkips(n, rest);
        hide Decimal;
        assert [] + args == args;
      case FromArg(v) =>
        assert t[1..] == rest && ([IntArg(v)] + args)[1..] == args;
    }
  }

  lemma LengthScans(q: Qualifier, tail: string)
    requires tail != "" ==> Letter(tail[0])
    ensures ScanQualifier(LengthText(q) + tail) == (q, tail)
  {
    var s := LengthText(q) + tail;
    assert q == LongLong ==> s[2..] == tail;
    assert q == Short || q == Long || q == Big ==> s[1..] == tail;
    assert q == Plain ==> s == tail;
  }

  /** The parts of a directive are those it was written with. */
  lemma PartsScan(d: Written, tail: string, args: seq<Arg>)
    requires WellWritten(d) && (tail != "" ==> Letter(tail[0]))
    ensures var s1 := PrecisionText(d.precision) + (LengthText(d.qualifier) + tail);
            var f := FlagsOf(d).(sign := false, small := false);
            && ScanFlags(PartsText(d, tail), NO_FLAGS) == (f.(left := '-' in d.flags), SizeText(d.width) + s1)
            && ScanWidth(SizeText(d.width) + s1, f.(left := '-' in d.flags),
                         SizeArgs(d.width) + (PrecisionArgs(d.precision) + args))
               == Some((WidthOf(d.width), f, s1, PrecisionArgs(d.precision) + args))
            && ScanPrecision(s1, PrecisionArgs(d.precision) + args)
               == Some((PrecisionOf(d.precision), LengthText(d.qualifier) + tail, args))
            && ScanQualifier(LengthText(d.qualifier) + tail) == (d.qualifier, tail)
  {
    var s3 := LengthText(d.qualifier) + tail;
    var s1 := PrecisionText(d.precision) + s3;
    var s0 := SizeText(d.width) + s1;
    FirstOfRest(d, tail);
    hide ScanFlags, ScanWidth, ScanPrecision, ScanQualifier, SizeText, PrecisionText, LengthText;
    FlagsScan(d.flags, NO_FLAGS, s0);
    WidthScans(d.width, FlagsOf(d).(left := '-' in d.flags, sign := false, small := false), s1,
               PrecisionArgs(d.precision) + args);
    PrecisionScans(d.precision, s3, args);
    LengthScans(d.qualifier, tail);
  }

  /** What comes behind the flags, the width and the precision is taken for none of them. */
  lemma FirstOfRest(d: Written, tail: string)
    requires WellWritten(d) && (tail != "" ==> Letter(tail[0]))
    ensures var s3 := LengthText(d.qualifier) + tail;
            var s1 := PrecisionText(d.precision) + s3;
            var s0 := SizeText(d.width) + s1;
            && (s0 != "" ==> !FlagLetter(s0[0]))
            && !StartsWithDigit(s1) && !StartsWith(s1, '*')
            && !StartsWithDigit(s3) && !StartsWith(s3, '*') && !StartsWith(s3, '.')
  {
    if d.width.Fixed? {
      NumeralIsShortest(d.width.n, 10, false);
      DecimalDigits(d.width.n);
    }
    hide Decimal;
  }

  // ---- converting

  /** The values of the type a qualifier stands for. */
  function Modulus(q: Qualifier): nat {
    match q
    case Short => 0x1_0000
    case Plain => 0x1_0000_0000
    case Big => 0x1_0000_0000
    case Long => 0x1_0000_0000_0000_0000
    case LongLong => 0x1_0000_0000_0000_0000
  }

  /** A number cut to a type of `m` values. */
  function AsType(v: int, m: nat, sign: bool): int
    requires m > 0
  {
    if sign && v % m >= m / 2 then v % m - m else v % m
  }

  lemma WordIsAsType(v: int, q: Qualifier, flags: Flags)
    ensures Meaning(FetchWord(v, q, flags.sign), flags) == AsType(v, Modulus(q), flags.sign)
  {
    hide Power2;
    PowersUsed();
    LowWord(v);
    if q == Short && flags.sign {
      ReadWord(Extend(v % 0x1_0000, 16));
    } else if (q == Plain || q == Big) && flags.sign {
      ReadWord(Extend(v % TWO32, 32));
    }
  }

  lemma PowersUsed()
    ensures Power2(16) == 0x1_0000 && Power2(15) == 0x8000 && Power2(32) == TWO32 && Power2(31) == TWO32 / 2
  {
    assert Power2(8) == 256;
    PowerAdds(8, 8);
    WordPowers();
  }

  lemma LowWord(v: int)
    ensures U32(v) == v % TWO32 && U64(v) == v % TWO64 && U64(U32(v)) == v % TWO32
    ensures U64(v % 0x1_0000) == v % 0x1_0000
  {
  }

  /** A small number survives as a 64-bit word. */
  lemma ReadWord(x: int)
    requires 0 - TWO64 / 2 <= x < TWO64 / 2
    ensures Signed64(U64(x)) == x
  {
    RemainderUnique(x, TWO64, if x < 0 then -1 else 0, if x < 0 then x + TWO64 else x);
  }

  function BaseFor(conv: char): int {
    if conv == 'o' then 8 else if conv == 'x' || conv == 'X' then 16 else 10
  }

  function ArgsOf(d: Written, more: seq<Arg>): seq<Arg> {
    SizeArgs(d.width) + (PrecisionArgs(d.precision) + more)
  }

  /** What the flags, width and precision leave to the conversion. */
  function SpecOf(d: Written): Spec {
    Spec(FlagsOf(d).(sign := false, small := false), WidthOf(d.width), PrecisionOf(d.precision), d.qualifier)
  }

  lemma DirectiveConverts(d: Written, rest: string, args: seq<Arg>)
    requires WellWritten(d) && Convert(SpecOf(d), d.conv, args).Some?
    ensures var (text, left) := Convert(SpecOf(d), d.conv, args).value;
            Directive(TextOf(d, rest), ArgsOf(d, args)) == Some((text, rest, left))
  {
    PartsScan(d, [d.conv] + rest, args);
    assert ([d.conv] + rest)[1..] == rest;
    hide ScanFlags, ScanWidth, ScanPrecision, ScanQualifier, PartsText, SizeText, PrecisionText, LengthText, Convert;
    hide FlagsOf, WidthOf, PrecisionOf;
  }

  lemma IntegerConverts(d: Written, v: int, args: seq<Arg>)
    requires d.conv in "oxXdiu"
    ensures Convert(SpecOf(d), d.conv, [IntArg(v)] + args)
            == Some((Field(FetchWord(v, d.qualifier, FlagsOf(d).sign), BaseFor(d.conv), WidthOf(d.width),
                           PrecisionOf(d.precision), FlagsOf(d)), args))
  {
    hide Field, FetchWord, Justify;
    assert ([IntArg(v)] + args)[1..] == args;
    assert IntegerFlags(d.conv, SpecOf(d).flags) == FlagsOf(d);
    hide FlagsOf, SpecOf;
  }

  /** An integer directive prints its argument, cut to the type of its qualifier, laid out as its flags, width and
      precision say; and consumes exactly its own part of the format and of the arguments. */
  lemma IntegerDirective(d: Written, v: int, rest: string, args: seq<Arg>) returns (text: string)
    requires WellWritten(d) && d.conv in "oxXdiu"
    ensures Directive(TextOf(d, rest), ArgsOf(d, [IntArg(v)] + args)) == Some((text, rest, args))
    ensures var flags := FlagsOf(d);
            var w := AsType(v, Modulus(d.qualifier), flags.sign);
            LaidOut(text, w, BaseFor(d.conv), Numeral(Abs(w), BaseFor(d.conv), flags.small), WidthOf(d.width),
                    PrecisionOf(d.precision), flags)
  {
    assert ValidBase(BaseFor(d.conv));
    hide *;
    var flags := FlagsOf(d);
    var num := FetchWord(v, d.qualifier, flags.sign);
    IntegerConverts(d, v, args);
    text := Field(num, BaseFor(d.conv), WidthOf(d.width), PrecisionOf(d.precision), flags);
    FieldLayout(num, BaseFor(d.conv), WidthOf(d.width), PrecisionOf(d.precision), flags);
    WordIsAsType(v, d.qualifier, flags);
    DirectiveConverts(d, rest, [IntArg(v)] + args);
  }

  /** A text directive prints the text, cut to its precision, justified in its width. */
  lemma TextDirective(d: Written, s: string, rest: string, args: seq<Arg>) returns (text: string)
    requires WellWritten(d) && d.conv == 's'
    ensures Directive(TextOf(d, rest), ArgsOf(d, [StrArg(s)] + args)) == Some((text, rest, args))
    ensures var p := PrecisionOf(d.precision);
            Justified(text, if p < 0 then s else s[..Min(p, |s|)], WidthOf(d.width), FlagsOf(d).left)
  {
    hide Justify, Justified, Directive;
    var p := PrecisionOf(d.precision);
    assert s[..|s|] == s && ([StrArg(s)] + args)[1..] == args;
    text := Justify(Truncated(s, p), WidthOf(d.width), FlagsOf(d).left);
    JustifyLayout(Truncated(s, p), WidthOf(d.width), FlagsOf(d).left);
    DirectiveConverts(d, rest, [StrArg(s)] + args);
  }

  /** A character directive prints the low byte; two percent signs print one, whatever stands between them. */
  lemma CharDirective(d: Written, v: int, rest: string, args: seq<Arg>) returns (text: string)
    requires WellWritten(d) && d.conv == 'c'
    ensures Directive(TextOf(d, rest), ArgsOf(d, [IntArg(v)] + args)) == Some((text, rest, args))
    ensures Justified(text, [(v % 256) as char], WidthOf(d.width), FlagsOf(d).left)
  {
    hide Justify, Justified, Directive;
    assert ([IntArg(v)] + args)[1..] == args;
    text := Justify([(v % 256) as char], WidthOf(d.width), FlagsOf(d).left);
    JustifyLayout([(v % 256) as char], WidthOf(d.width), FlagsOf(d).left);
    DirectiveConverts(d, rest, [IntArg(v)] + args);
  }

  lemma PercentDirective(d: Written, rest: string, args: seq<Arg>)
    requires WellWritten(d) && d.conv == '%'
    ensures Directive(TextOf(d, rest), ArgsOf(d, args)) == Some(("%", rest, args))
  {
    hide Directive;
    DirectiveConverts(d, rest, args);
  }

  /** A letter that is no conversion is copied, with a percent sign in front, and takes no argument. */
  lemma UnknownDirective(d: Written, rest: string, args: seq<Arg>)
    requires WellWritten(d) && d.conv !in "oxXdiusc%fpn"
    ensures Directive(TextOf(d, rest), ArgsOf(d, args)) == Some(("%" + [d.conv], rest, args))
  {
    hide Directive;
    DirectiveConverts(d, rest, args);
  }

  /** A format that ends inside a directive prints a percent sign. */
  lemma BrokenDirective(d: Written, args: seq<Arg>)
    requires WellWritten(d)
    ensures Directive(PartsText(d, ""), ArgsOf(d, args)) == Some(("%", "", args))
  {
    PartsScan(d, "", args);
    hide ScanFlags, ScanWidth, ScanPrecision, ScanQualifier, PartsText, SizeText, PrecisionText, LengthText, Convert;
    hide FlagsOf, WidthOf, PrecisionOf;
  }

  // ---- the whole format

  /** A format in pieces: text without percent signs, then a directive and so on. */
  lemma {:induction false} TextIsCopied(text: string, rest: string, args: seq<Arg>)
    requires '%' !in text
    ensures Format(text + rest, args) == Prepend(text, Format(rest, args))
    decreases |text|
  {
    hide Directive;
    if text == "" {
      assert text + rest == rest;
      PrependTwice("", "", Format(rest, args));
    } else {
      assert (text + rest)[1..] == text[1..] + rest;
      TextIsCopied(text[1..], rest, args);
      PrependTwice([text[0]], text[1..], Format(rest, args));
      assert [text[0]] + text[1..] == text;
    }
  }

  /** A directive is replaced by its text, and the rest of the format goes on with the arguments left. */
  lemma DirectiveIsReplaced(s: string, args: seq<Arg>)
    ensures Format("%" + s, args)
            == match Directive(s, args)
               case None => None
               case Some((text, rest, left)) => Prepend(text, Format(rest, left))
  {
    hide Directive;
    assert ("%" + s)[1..] == s;
  }
}
