/** The integer formatter of the probe's printf, and the C reader (`strtoll`) that undoes it. */
module Numbers {
  import opened Words

  /** The flag bits a directive carries into the formatter. */
  datatype Flags = Flags(zeropad: bool, sign: bool, plus: bool, space: bool, left: bool, small: bool, special: bool)

  const NO_FLAGS := Flags(false, false, false, false, false, false, false)

  const DIGITS := "0123456789ABCDEF"

  predicate ValidBase(base: int) {
    2 <= base <= 16
  }

  /** ORing 0x20 into a digit character leaves '0'..'9' alone and lowers 'A'..'F'. */
  function DigitChar(d: nat, small: bool): char
    requires d < 16
  {
    if small && d >= 10 then ((DIGITS[d] as int) + 32) as char else DIGITS[d]
  }

  /** Positional notation without leading zeros; empty for 0. */
  function Positional(n: nat, base: int, small: bool): string
    requires ValidBase(base)
  {
    if n == 0 then "" else Positional(n / base, base, small) + [DigitChar(n % base, small)]
  }

  function Numeral(n: nat, base: int, small: bool): string
    requires ValidBase(base)
  {
    if n == 0 then "0" else Positional(n, base, small)
  }

  function Decimal(n: nat): string {
    Numeral(n, 10, false)
  }

  function Repeat(c: char, n: int): (s: string)
    ensures |s| == Max(0, n)
    ensures forall i :: 0 <= i < |s| ==> s[i] == c
  {
    if n <= 0 then "" else Repeat(c, n - 1) + [c]
  }

  lemma {:induction false} RepeatFront(c: char, n: int)
    requires n > 0
    ensures Repeat(c, n) == [c] + Repeat(c, n - 1)
  {
    if n > 1 {
      RepeatFront(c, n - 1);
    }
  }

  /** The 64-bit word read as two's complement. */
  function Signed64(num: nat): int
    requires num < TWO64
  {
    if num >= TWO64 / 2 then num - TWO64 else num
  }

  /** What a directive with these flags prints the word as. */
  function Meaning(num: nat, flags: Flags): int
    requires num < TWO64
  {
    if flags.sign then Signed64(num) else num
  }

  function Abs(v: int): nat {
    if v < 0 then -v else v
  }

  function SignText(v: int, flags: Flags): string {
    if !flags.sign then ""
    else if v < 0 then "-"
    else if flags.plus then "+"
    else if flags.space then " "
    else ""
  }

  function PrefixText(base: int, flags: Flags): string {
    if flags.special && base == 16 then (if flags.small then "0x" else "0X")
    else if flags.special && base == 8 then "0"
    else ""
  }

  // Where the padding goes: blanks in front of the sign, zeros behind the prefix (left-justifying turns
  // zero padding off), or blanks at the end.

  function PadLead(pad: int, flags: Flags): int {
    if !flags.left && !flags.zeropad then pad else 0
  }

  function PadMid(pad: int, flags: Flags): int {
    if !flags.left && flags.zeropad then pad else 0
  }

  function PadTrail(pad: int, flags: Flags): int {
    if flags.left then pad else 0
  }

  /** The printed field: padding, sign, prefix, precision zeros and numeral, in the order the flags ask for. */
  function Field(num: nat, base: int, width: int, precision: int, flags: Flags): string
    requires num < TWO64 && ValidBase(base)
  {
    var v := Meaning(num, flags);
    var head := SignText(v, flags) + PrefixText(base, flags);
    var numeral := Numeral(Abs(v), base, flags.small);
    var body := Repeat('0', precision - |numeral|) + numeral;
    var pad := width - |head| - |body|;
    Repeat(' ', PadLead(pad, flags)) + head + Repeat('0', PadMid(pad, flags)) + body + Repeat(' ', PadTrail(pad, flags))
  }

  /** Exactly as many characters as the widest of the field width and the number itself. */
  lemma FieldLength(num: nat, base: int, width: int, precision: int, flags: Flags)
    requires num < TWO64 && ValidBase(base)
    ensures |Field(num, base, width, precision, flags)| ==
            Max(width,
                |SignText(Meaning(num, flags), flags)| + |PrefixText(base, flags)|
                + Max(precision, |Numeral(Abs(Meaning(num, flags)), base, flags.small)|))
  {
  }

  lemma {:induction false} PositionalBound(n: nat, base: int, small: bool, k: nat)
    requires ValidBase(base) && n < Power2(k)
    ensures |Positional(n, base, small)| <= k
    decreases n
  {
    if n != 0 {
      HalvesAtLeast(n, base);
      PositionalBound(n / base, base, small, k - 1);
    }
  }

  lemma HalvesAtLeast(n: nat, base: int)
    requires base >= 2
    ensures 2 * (n / base) <= n && 0 <= n / base
  {
    assert n == base * (n / base) + n % base;
    MulMonotone(2, base, n / base);
  }

  lemma MulMonotone(a: int, b: int, k: int)
    requires a <= b && 0 <= k
    ensures a * k <= b * k
  {
  }

  /** One digit less to come halves the bound on what is left. */
  lemma DigitBudget(num: nat, base: int, k: nat)
    requires ValidBase(base) && 0 < num < Power2(k)
    ensures k > 0 && num / base < Power2(k - 1) && num / base < num
  {
    HalvesAtLeast(num, base);
  }

  // ---- reading back

  predicate IsDigit(c: char, base: int) {
    DigitValue(c) < base
  }

  /** The value of a digit character in either case; 99 when it is none. */
  function DigitValue(c: char): int {
    if '0' <= c <= '9' then c as int - '0' as int
    else if 'a' <= c <= 'f' then c as int - 'a' as int + 10
    else if 'A' <= c <= 'F' then c as int - 'A' as int + 10
    else 99
  }

  function SkipSpaces(s: string): string {
    if s != "" && s[0] == ' ' then SkipSpaces(s[1..]) else s
  }

  function ReadDigits(s: string, base: int, acc: int): int {
    if s != "" && IsDigit(s[0], base) then ReadDigits(s[1..], base, acc * base + DigitValue(s[0])) else acc
  }

  function SkipPrefix(s: string, base: int): string {
    if base == 16 && |s| >= 2 && s[0] == '0' && (s[1] == 'x' || s[1] == 'X') then s[2..] else s
  }

  function ReadUnsigned(s: string, base: int): int {
    ReadDigits(SkipPrefix(s, base), base, 0)
  }

  /** `strtoll` for a known base: blanks, a sign, the hexadecimal prefix, then digits up to the first non-digit. */
  function Strtoll(s: string, base: int): int {
    var t := SkipSpaces(s);
    if t != "" && t[0] == '-' then -ReadUnsigned(t[1..], base)
    else if t != "" && t[0] == '+' then ReadUnsigned(t[1..], base)
    else ReadUnsigned(t, base)
  }

  lemma {:induction false} SkipRepeated(n: int, rest: string)
    ensures SkipSpaces(Repeat(' ', n) + rest) == SkipSpaces(rest)
  {
    if n > 0 {
      RepeatFront(' ', n);
      assert (Repeat(' ', n) + rest)[1..] == Repeat(' ', n - 1) + rest;
      SkipRepeated(n - 1, rest);
    } else {
      assert Repeat(' ', n) + rest == rest;
    }
  }

  /** All characters are digits of the base. */
  predicate AllDigits(s: string, base: int) {
    forall i :: 0 <= i < |s| ==> IsDigit(s[i], base)
  }

  /** The value of a digit string continued from `acc`. */
  function ValueOf(s: string, base: int, acc: int): int {
    if s == "" then acc else ValueOf(s[..|s| - 1], base, acc) * base + DigitValue(s[|s| - 1])
  }

  lemma {:induction false} ValueFront(s: string, base: int, acc: int)
    requires s != ""
    ensures ValueOf(s, base, acc) == ValueOf(s[1..], base, acc * base + DigitValue(s[0]))
    decreases |s|
  {
    if |s| > 1 {
      var t := s[..|s| - 1];
      ValueFront(t, base, acc);
      assert s[1..][..|s| - 2] == t[1..];
    }
  }

  lemma {:induction false} ReadsAll(s: string, rest: string, base: int, acc: int)
    requires AllDigits(s, base) && (rest == "" || !IsDigit(rest[0], base))
    ensures ReadDigits(s + rest, base, acc) == ValueOf(s, base, acc)
    decreases |s|
  {
    if s == "" {
      assert s + rest == rest;
    } else {
      assert (s + rest)[1..] == s[1..] + rest;
      ValueFront(s, base, acc);
      ReadsAll(s[1..], rest, base, acc * base + DigitValue(s[0]));
    }
  }

  lemma DigitCharReads(d: nat, small: bool)
    requires d < 16
    ensures DigitValue(DigitChar(d, small)) == d
  {
  }

  lemma DivMod(n: nat, base: int)
    requires base > 0
    ensures (n / base) * base + n % base == n && 0 <= n / base && 0 <= n % base < base
  {
  }

  lemma {:induction false} PositionalReads(n: nat, base: int, small: bool)
    requires ValidBase(base)
    ensures AllDigits(Positional(n, base, small), base) && ValueOf(Positional(n, base, small), base, 0) == n
    decreases n
  {
    hide DigitValue, DigitChar;
    if n != 0 {
      HalvesAtLeast(n, base);
      DivMod(n, base);
      var q, d := n / base, n % base;
      PositionalReads(q, base, small);
      DigitCharReads(d, small);
      var p := Positional(n, base, small);
      assert p == Positional(q, base, small) + [DigitChar(d, small)];
      assert p[..|p| - 1] == Positional(q, base, small);
    }
  }

  lemma NumeralReads(n: nat, base: int, small: bool)
    requires ValidBase(base)
    ensures Numeral(n, base, small) != ""
    ensures AllDigits(Numeral(n, base, small), base) && ValueOf(Numeral(n, base, small), base, 0) == n
  {
    PositionalReads(n, base, small);
    if n == 0 {
      assert "0"[..0] == "" && DigitValue('0') == 0;
      assert ValueOf("0", base, 0) == ValueOf("", base, 0) * base + 0;
    }
  }

  predicate DigitStr(s: string) {
    forall i :: 0 <= i < |s| ==> '0' <= s[i] <= '9'
  }

  lemma {:induction false} PositionalDigits(n: nat)
    ensures DigitStr(Positional(n, 10, false))
    decreases n
  {
    if n != 0 {
      PositionalDigits(n / 10);
    }
  }

  /** A decimal is a non-empty text of digits. */
  lemma DecimalDigits(n: nat)
    ensures DigitStr(Decimal(n)) && Decimal(n) != ""
    ensures forall c :: c in Decimal(n) ==> '0' <= c <= '9'
  {
    PositionalDigits(n);
    NumeralReads(n, 10, false);
  }

  lemma {:induction false} ZerosRead(z: int, s: string, base: int)
    requires ValidBase(base) && AllDigits(s, base)
    ensures AllDigits(Repeat('0', z) + s, base)
    ensures ValueOf(Repeat('0', z) + s, base, 0) == ValueOf(s, base, 0)
  {
    hide ValueOf;
    if z > 0 {
      ZerosRead(z - 1, s, base);
      RepeatFront('0', z);
      var t := Repeat('0', z) + s;
      assert t[1..] == Repeat('0', z - 1) + s;
      ValueFront(t, base, 0);
    } else {
      assert Repeat('0', z) + s == s;
    }
  }

  lemma NotPrefixed(digits: string, rest: string, base: int)
    requires ValidBase(base) && AllDigits(digits, base) && digits != ""
    requires rest == "" || rest[0] == ' '
    ensures SkipPrefix(digits + rest, base) == digits + rest
  {
    assert |digits| >= 2 ==> IsDigit(digits[1], base);
  }

  /** What follows the sign: the optional prefix, the digits, and blanks that end the number. */
  lemma ReadsBody(digits: string, trail: int, base: int, flags: Flags)
    requires ValidBase(base) && AllDigits(digits, base) && digits != ""
    ensures ReadUnsigned(PrefixText(base, flags) + digits + Repeat(' ', trail), base) == ValueOf(digits, base, 0)
  {
    hide AllDigits, ValueOf, ReadDigits;
    var rest := Repeat(' ', trail);
    var prefix := PrefixText(base, flags);
    ReadsAll(digits, rest, base, 0);
    if prefix == "" {
      assert prefix + digits + rest == digits + rest;
      NotPrefixed(digits, rest, base);
    } else if base == 16 {
      assert (prefix + digits + rest)[2..] == digits + rest;
    } else {
      assert prefix == Repeat('0', 1) by {
        assert Repeat('0', 0) == "";
      }
      ZerosRead(1, digits, base);
      ReadsAll(prefix + digits, rest, base, 0);
      NotPrefixed(prefix + digits, rest, base);
    }
  }

  lemma BodyStart(digits: string, trail: int, base: int, flags: Flags)
    requires ValidBase(base) && AllDigits(digits, base) && digits != ""
    ensures var tail := PrefixText(base, flags) + digits + Repeat(' ', trail);
            tail != "" && tail[0] != ' ' && tail[0] != '-' && tail[0] != '+'
  {
    assert IsDigit(digits[0], base);
  }

  /** `strtoll` on padding, head and digits gives the signed value of the digits. */
  lemma ReadsPadded(lead: int, v: int, digits: string, trail: int, base: int, flags: Flags)
    requires ValidBase(base) && AllDigits(digits, base) && digits != ""
    requires v < 0 ==> flags.sign
    ensures Strtoll(Repeat(' ', lead) + (SignText(v, flags) + PrefixText(base, flags) + digits + Repeat(' ', trail)),
                    base)
            == (if v < 0 then -ValueOf(digits, base, 0) else ValueOf(digits, base, 0))
  {
    hide AllDigits, IsDigit, ReadUnsigned, ValueOf, PrefixText;
    var sign := SignText(v, flags);
    var tail := PrefixText(base, flags) + digits + Repeat(' ', trail);
    var s := sign + PrefixText(base, flags) + digits + Repeat(' ', trail);
    assert s == sign + tail;
    SkipRepeated(lead, s);
    ReadsBody(digits, trail, base, flags);
    BodyStart(digits, trail, base, flags);
    if sign == "" {
      assert s == tail && SkipSpaces(s) == s;
    } else if sign == " " {
      assert s[1..] == tail && SkipSpaces(s) == SkipSpaces(tail) == tail;
    } else {
      assert s[1..] == tail && SkipSpaces(s) == s;
    }
  }

  /** Reading a printed field gives back the value that was printed, whatever the flags, width and precision. */
  lemma FieldReadsBack(num: nat, base: int, width: int, precision: int, flags: Flags)
    requires num < TWO64 && ValidBase(base)
    ensures Strtoll(Field(num, base, width, precision, flags), base) == Meaning(num, flags)
  {
    hide Numeral, AllDigits, ValueOf, SignText, PrefixText, Strtoll, Signed64, PadLead, PadMid, PadTrail;
    var v := Meaning(num, flags);
    var head := SignText(v, flags) + PrefixText(base, flags);
    var numeral := Numeral(Abs(v), base, flags.small);
    NumeralReads(Abs(v), base, flags.small);
    var z := precision - |numeral|;
    ZerosRead(z, numeral, base);
    var body := Repeat('0', z) + numeral;
    var pad := width - |head| - |body|;
    var lead, mid, trail := PadLead(pad, flags), PadMid(pad, flags), PadTrail(pad, flags);
    ZerosRead(mid, body, base);
    RegroupField(Repeat(' ', lead), head, Repeat('0', mid), body, Repeat(' ', trail));
    ReadsPadded(lead, v, Repeat('0', mid) + body, trail, base, flags);
  }

  lemma RegroupField(a: string, h: string, m: string, b: string, t: string)
    ensures a + h + m + b + t == a + (h + (m + b) + t)
  {
  }

  // ---- the formatter itself

  /** Last element first. */
  function Reversed(s: string): string {
    if s == "" then "" else [s[|s| - 1]] + Reversed(s[..|s| - 1])
  }

  /** Digits of the number, least significant first, into a buffer of 66 characters. */
  method CollectDigits(n: nat, base: int, small: bool, tmp: array<char>) returns (i: nat)
    requires n < TWO64 && ValidBase(base) && tmp.Length == 66
    modifies tmp
    ensures 1 <= i <= 64
    ensures Reversed(tmp[..i]) == Numeral(n, base, small)
  {
    hide DigitChar, Power2, Positional;
    i := 0;
    if n == 0 {
      tmp[i] := '0';
      i := i + 1;
      assert tmp[..1] == "0";
    } else {
      var num: nat := n;
      WordPowers();
      while num != 0
        invariant i <= 64 && num < Power2(64 - i)
        invariant i == 0 ==> num == n
        invariant Positional(n, base, small) == Positional(num, base, small) + Reversed(tmp[..i])
        decreases num
      {
        var res := num % base;
        DigitBudget(num, base, 64 - i);
        DigitMoves(num, base, small, tmp[..i]);
        ghost var collected := tmp[..i];
        tmp[i] := DigitChar(res, small);
        num := num / base;
        i := i + 1;
        assert tmp[..i] == collected + [DigitChar(res, small)];
      }
      assert Positional(0, base, small) == "" by {
        NoDigits(base, small);
      }
    }
  }

  lemma NoDigits(base: int, small: bool)
    requires ValidBase(base)
    ensures Positional(0, base, small) == ""
  {
  }

  /** Dividing off a digit moves it from the number to the collected ones. */
  lemma DigitMoves(num: nat, base: int, small: bool, collected: string)
    requires ValidBase(base) && num > 0
    ensures 0 <= num / base
    ensures Positional(num, base, small) + Reversed(collected)
            == Positional(num / base, base, small) + Reversed(collected + [DigitChar(num % base, small)])
  {
    hide DigitChar;
    var d := DigitChar(num % base, small);
    assert (collected + [d])[..|collected|] == collected;
    AppendMoves(Positional(num / base, base, small), d, Reversed(collected));
  }

  lemma AppendMoves(p: string, d: char, r: string)
    ensures p + [d] + r == p + ([d] + r)
  {
  }

  method Fill(str: string, c: char, count: int) returns (out: string)
    ensures out == str + Repeat(c, count)
  {
    out := str;
    var size := count;
    while size > 0
      invariant out + Repeat(c, size) == str + Repeat(c, count)
    {
      RepeatFront(c, size);
      out := out + [c];
      size := size - 1;
    }
  }

  /** The magnitude to print, the sign character, and the width left after sign and prefix. */
  method SplitSign(num: nat, base: int, width: int, flags: Flags) returns (n: nat, sign: string, size: int)
    requires num < TWO64 && ValidBase(base)
    ensures n == Abs(Meaning(num, flags)) && n < TWO64
    ensures sign == SignText(Meaning(num, flags), flags)
    ensures size == width - |sign| - |PrefixText(base, flags)|
  {
    n, sign, size := num, "", width;
    if flags.sign {
      if num >= TWO64 / 2 {
        sign := "-";
        n := TWO64 - num;
        size := size - 1;
      } else if flags.plus {
        sign := "+";
        size := size - 1;
      } else if flags.space {
        sign := " ";
        size := size - 1;
      }
    }
    if flags.special {
      if base == 16 {
        size := size - 2;
      } else if base == 8 {
        size := size - 1;
      }
    }
  }

  /** Copies the collected digits back out, most significant first. */
  method EmitDigits(str: string, tmp: array<char>, count: nat) returns (out: string)
    requires count <= tmp.Length
    ensures out == str + Reversed(tmp[..count])
  {
    out := str;
    var i := count;
    while i > 0
      invariant 0 <= i <= count
      invariant out + Reversed(tmp[..i]) == str + Reversed(tmp[..count])
    {
      i := i - 1;
      assert tmp[..i + 1][..i] == tmp[..i];
      out := out + [tmp[i]];
    }
  }

  /** Everything in front of the precision zeros; what is left of `size` pads on the right. */
  method EmitHead(str: string, sign: string, base: int, width: int, flags: Flags) returns (out: string, size: int)
    ensures out == str + (Repeat(' ', PadLead(width, flags)) + sign + PrefixText(base, flags)
                          + Repeat('0', PadMid(width, flags)))
    ensures size == PadTrail(width, flags)
  {
    out, size := str, width;
    var zeropad := flags.zeropad && !flags.left;
    var c := if zeropad then '0' else ' ';
    if !zeropad && !flags.left {
      out := Fill(out, ' ', size);
      size := 0;
    }
    out := out + sign;
    if flags.special {
      if base == 8 {
        out := out + "0";
      } else if base == 16 {
        out := out + "0" + [if flags.small then 'x' else 'X'];
      }
    }
    assert out == str + (Repeat(' ', PadLead(width, flags)) + sign + PrefixText(base, flags));
    if !flags.left {
      out := Fill(out, c, size);
      size := 0;
    }
  }

  /** Appends the printed number to `str`; an unsupported base prints nothing and reports failure. */
  method Number(str: string, num: nat, base: int, width: int, prec: int, flags: Flags) returns (ok: bool, out: string)
    requires num < TWO64
    ensures ok <==> 2 <= base <= 16
    ensures ok ==> out == str + Field(num, base, width, prec, flags)
    ensures !ok ==> out == str
  {
    hide Numeral, SignText, Meaning, PrefixText, PadLead, PadMid;
    if base < 2 || base > 16 {
      return false, str;
    }
    var n, sign, size := SplitSign(num, base, width, flags);
    var tmp := new char[66];
    var i := CollectDigits(n, base, flags.small, tmp);
    ReversedLength(tmp[..i]);
    var precision := prec;
    if i > precision {
      precision := i;
    }
    size := size - precision;
    ghost var pad := size;
    out, size := EmitHead(str, sign, base, size, flags);
    out := Fill(out, '0', precision - i);
    out := EmitDigits(out, tmp, i);
    out := Fill(out, ' ', size);
    ok := true;
    ghost var numeral := Numeral(n, base, flags.small);
    ghost var zeros := Repeat('0', prec - |numeral|);
    assert zeros == Repeat('0', precision - i);
    Regroup(str, Repeat(' ', PadLead(pad, flags)), sign, PrefixText(base, flags), Repeat('0', PadMid(pad, flags)),
            zeros, numeral, Repeat(' ', PadTrail(pad, flags)));
  }

  lemma Regroup(str: string, a: string, b: string, c: string, d: string, e: string, f: string, g: string)
    ensures str + (a + (b + c) + d + (e + f) + g) == str + (a + b + c + d) + e + f + g
  {
  }

  lemma {:induction false} ReversedLength(s: string)
    ensures |Reversed(s)| == |s|
  {
    if s != "" {
      ReversedLength(s[..|s| - 1]);
    }
  }
}
