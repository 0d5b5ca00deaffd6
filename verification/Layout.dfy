/** How printed fields look: where the padding goes, which sign and prefix they show, and which digits. */
module Layout {
  import opened Words
  import opened Numbers
  import opened Printf

  function LeadBlanks(s: string): nat {
    if s != "" && s[0] == ' ' then 1 + LeadBlanks(s[1..]) else 0
  }

  function TrailBlanks(s: string): nat {
    if s != "" && s[|s| - 1] == ' ' then 1 + TrailBlanks(s[..|s| - 1]) else 0
  }

  lemma {:induction false} LeadCounts(n: nat, s: string)
    requires s != "" && s[0] != ' '
    ensures LeadBlanks(Repeat(' ', n) + s) == n
  {
    if n > 0 {
      RepeatFront(' ', n);
      assert (Repeat(' ', n) + s)[1..] == Repeat(' ', n - 1) + s;
      LeadCounts(n - 1, s);
    } else {
      assert Repeat(' ', 0) + s == s;
    }
  }

  lemma {:induction false} TrailCounts(s: string, n: nat)
    requires s != "" && s[|s| - 1] != ' '
    ensures TrailBlanks(s + Repeat(' ', n)) == n
  {
    var t := s + Repeat(' ', n);
    if n > 0 {
      assert t[..|t| - 1] == s + Repeat(' ', n - 1);
      TrailCounts(s, n - 1);
    } else {
      assert t == s;
    }
  }

  /** The sign of a field: only signed conversions show one, and a plus wins over a blank. */
  function Sign(v: int, flags: Flags): string {
    if !flags.sign || (0 <= v && !flags.plus && !flags.space) then ""
    else if v < 0 then "-"
    else if flags.plus then "+"
    else " "
  }

  function Prefix(base: int, flags: Flags): string {
    if !flags.special || (base != 8 && base != 16) then ""
    else if base == 8 then "0"
    else if flags.small then "0x"
    else "0X"
  }

  /** Sign and prefix stand behind `lead` characters, the numeral in front of `trail` characters, and between them
      nothing but zeros. */
  ghost predicate Reads(r: string, lead: nat, head: string, n: string, trail: nat) {
    && lead + |head| + |n| + trail <= |r|
    && r[lead..lead + |head|] == head && r[|r| - trail - |n|..|r| - trail] == n
    && forall i :: lead + |head| <= i < |r| - trail - |n| ==> r[i] == '0'
  }

  /** How a field for the value with this numeral looks. It is as wide as asked, or as the number needs. Blanks end it
      only if it is left-justified; they begin it, the blank sign aside, only if it is neither left-justified nor padded
      with zeros. Sign and prefix come next, then nothing but zeros up to the numeral. */
  ghost predicate LaidOut(r: string, v: int, base: int, n: string, width: int, precision: int, flags: Flags) {
    var head := Sign(v, flags) + Prefix(base, flags);
    var core := |head| + Max(precision, |n|);
    && |r| == Max(width, core)
    && TrailBlanks(r) == (if flags.left then |r| - core else 0)
    && var lead := if flags.left || flags.zeropad then 0 else |r| - core;
       && LeadBlanks(r) == lead + (if Sign(v, flags) == " " then 1 else 0)
       && Reads(r, lead, head, n, TrailBlanks(r))
  }

  /** Every printed field is laid out so. */
  lemma FieldLayout(num: nat, base: int, width: int, precision: int, flags: Flags)
    requires num < TWO64 && ValidBase(base)
    ensures var v := Meaning(num, flags);
            LaidOut(Field(num, base, width, precision, flags), v, base, Numeral(Abs(v), base, flags.small), width,
                    precision, flags)
  {
    var v := Meaning(num, flags);
    LastDigit(Abs(v), base, flags.small);
    FieldParts(num, base, width, precision, flags);
    hide *;
    LaidIsLaidOut(v, base, Numeral(Abs(v), base, flags.small), width, precision, flags);
  }

  function Core(v: int, base: int, n: string, precision: int, flags: Flags): nat {
    |Sign(v, flags) + Prefix(base, flags)| + Max(precision, |n|)
  }

  function FieldText(v: int, base: int, n: string, width: int, precision: int, flags: Flags): string {
    var pad := Max(0, width - Core(v, base, n, precision, flags));
    var lead, trail := if flags.left || flags.zeropad then 0 else pad, if flags.left then pad else 0;
    Laid(lead, Sign(v, flags) + Prefix(base, flags), pad - lead - trail + Max(0, precision - |n|), n, trail)
  }

  lemma LaidIsLaidOut(v: int, base: int, n: string, width: int, precision: int, flags: Flags)
    requires n != "" && n[0] != ' ' && n[|n| - 1] != ' '
    ensures LaidOut(FieldText(v, base, n, width, precision, flags), v, base, n, width, precision, flags)
  {
    hide Sign, Prefix, Reads, TrailBlanks, LeadBlanks, Laid;
    var pad := Max(0, width - Core(v, base, n, precision, flags));
    var lead, trail := if flags.left || flags.zeropad then 0 else pad, if flags.left then pad else 0;
    LaidLayout(v, base, flags, lead, pad - lead - trail + Max(0, precision - |n|), n, trail);
  }

  /** A field in parts. */
  function Laid(lead: nat, head: string, zeros: nat, n: string, trail: nat): string {
    Repeat(' ', lead) + (head + (Repeat('0', zeros) + n) + Repeat(' ', trail))
  }

  lemma LaidLayout(v: int, base: int, flags: Flags, lead: nat, zeros: nat, n: string, trail: nat)
    requires n != "" && n[0] != ' ' && n[|n| - 1] != ' '
    ensures var head := Sign(v, flags) + Prefix(base, flags);
            var r := Laid(lead, head, zeros, n, trail);
            && |r| == lead + |head| + zeros + |n| + trail
            && TrailBlanks(r) == trail && LeadBlanks(r) == lead + (if Sign(v, flags) == " " then 1 else 0)
            && Reads(r, lead, head, n, trail)
  {
    var head := Sign(v, flags) + Prefix(base, flags);
    hide Sign, Prefix, TrailBlanks, LeadBlanks;
    var a, c, e := Repeat(' ', lead), Repeat('0', zeros), Repeat(' ', trail);
    LaidReads(lead, head, zeros, n, trail);
    Regroup(a, head, c, n, e);
    LastOf(a + head + c, n);
    TrailCounts(a + head + c + n, trail);
    FirstOf(c, n);
    Leads(v, base, flags, lead, c + n, e);
  }

  lemma FirstOf(c: string, n: string)
    requires n != "" && n[0] != ' ' && forall i :: 0 <= i < |c| ==> c[i] == '0'
    ensures c + n != "" && (c + n)[0] != ' '
  {
  }

  lemma LastOf(c: string, n: string)
    requires n != "" && n[|n| - 1] != ' '
    ensures var s := c + n; s != "" && s[|s| - 1] != ' '
  {
  }

  lemma Slice(a: string, b: string, c: string)
    ensures (a + b + c)[|a|..|a| + |b|] == b
  {
  }

  lemma Regroup(a: string, h: string, z: string, n: string, t: string)
    ensures a + (h + (z + n) + t) == (a + h + z + n) + t
    ensures a + (h + (z + n) + t) == (a + h + z) + n + t
    ensures a + (h + (z + n) + t) == (a + h) + z + (n + t)
    ensures a + (h + (z + n) + t) == a + h + (z + n + t)
  {
  }

  lemma LaidReads(lead: nat, head: string, zeros: nat, n: string, trail: nat)
    ensures var r := Laid(lead, head, zeros, n, trail);
            |r| == lead + |head| + zeros + |n| + trail && Reads(r, lead, head, n, trail)
  {
    var a, c, e, r := Repeat(' ', lead), Repeat('0', zeros), Repeat(' ', trail), Laid(lead, head, zeros, n, trail);
    hide Repeat;
    Regroup(a, head, c, n, e);
    Slice(a, head, c + n + e);
    Slice(a + head + c, n, e);
    Slice(a + head, c, n + e);
    assert r[|a + head|..|a + head| + |c|] == c;
    forall i | lead + |head| <= i < |r| - trail - |n|
      ensures r[i] == '0'
    {
      assert r[i] == c[i - |a + head|];
    }
  }

  lemma RepeatTwice(c: char, a: int, b: int)
    ensures Repeat(c, a) + Repeat(c, b) == Repeat(c, Max(0, a) + Max(0, b))
    ensures |Repeat(c, a)| == Max(0, a) && (b == 0 ==> Repeat(c, a) == Repeat(c, Max(0, a)))
  {
  }

  /** A field is blanks, sign and prefix, zeros, the numeral and blanks. */
  lemma FieldParts(num: nat, base: int, width: int, precision: int, flags: Flags)
    requires num < TWO64 && ValidBase(base)
    ensures var v := Meaning(num, flags);
            Field(num, base, width, precision, flags)
            == FieldText(v, base, Numeral(Abs(v), base, flags.small), width, precision, flags)
  {
    hide *;
    SameHead(Meaning(num, flags), base, flags);
    FieldIsPadded(num, base, width, precision, flags);
    var v := Meaning(num, flags);
    PaddedIsLaid(v, base, Numeral(Abs(v), base, flags.small), width, precision, flags);
  }

  function Padded(head: string, body: string, width: int, flags: Flags): string {
    var pad := width - |head| - |body|;
    Repeat(' ', PadLead(pad, flags)) + head + Repeat('0', PadMid(pad, flags)) + body + Repeat(' ', PadTrail(pad, flags))
  }

  lemma FieldIsPadded(num: nat, base: int, width: int, precision: int, flags: Flags)
    requires num < TWO64 && ValidBase(base)
    ensures var v := Meaning(num, flags);
            var n := Numeral(Abs(v), base, flags.small);
            Field(num, base, width, precision, flags)
            == Padded(SignText(v, flags) + PrefixText(base, flags), Repeat('0', precision - |n|) + n, width, flags)
  {
    hide Repeat, SignText, PrefixText, Numeral, Meaning, PadLead, PadMid, PadTrail;
  }

  lemma PaddedIsLaid(v: int, base: int, n: string, width: int, precision: int, flags: Flags)
    ensures Padded(Sign(v, flags) + Prefix(base, flags), Repeat('0', precision - |n|) + n, width, flags)
            == FieldText(v, base, n, width, precision, flags)
  {
    hide Repeat, Sign, Prefix;
    var head, z := Sign(v, flags) + Prefix(base, flags), precision - |n|;
    var pad := width - |head| - |Repeat('0', z) + n|;
    var lead, mid, trail := PadLead(pad, flags), PadMid(pad, flags), PadTrail(pad, flags);
    RepeatTwice('0', mid, z);
    RepeatTwice(' ', lead, 0);
    RepeatTwice(' ', trail, 0);
    assert pad == width - Core(v, base, n, precision, flags);
    RegroupParts(Repeat(' ', lead), head, Repeat('0', mid), Repeat('0', z), n, Repeat(' ', trail));
  }

  lemma RegroupParts(a: string, h: string, b: string, z: string, n: string, t: string)
    ensures a + h + b + (z + n) + t == a + (h + ((b + z) + n) + t)
  {
  }

  lemma SameHead(v: int, base: int, flags: Flags)
    ensures SignText(v, flags) == Sign(v, flags) && PrefixText(base, flags) == Prefix(base, flags)
  {
  }

  lemma LastDigit(n: nat, base: int, small: bool)
    requires ValidBase(base)
    ensures var s := Numeral(n, base, small); s != "" && s[|s| - 1] != ' ' && s[0] != ' '
  {
    NumeralReads(n, base, small);
    var s := Numeral(n, base, small);
    assert IsDigit(s[0], base) && IsDigit(s[|s| - 1], base);
  }

  lemma Leads(v: int, base: int, flags: Flags, lead: nat, rest: string, tail: string)
    requires rest != "" && rest[0] != ' '
    ensures LeadBlanks(Repeat(' ', lead) + (Sign(v, flags) + Prefix(base, flags) + rest + tail))
            == lead + if Sign(v, flags) == " " then 1 else 0
  {
    var s, after := Sign(v, flags), Prefix(base, flags) + rest + tail;
    PrefixFirst(base, flags, rest, tail);
    assert s != "" && s != " " ==> s[0] != ' ';
    hide Sign, Prefix, LeadBlanks;
    assert s + Prefix(base, flags) + rest + tail == s + after;
    if s == " " {
      assert Repeat(' ', lead) + (s + after) == Repeat(' ', lead + 1) + after;
      LeadCounts(lead + 1, after);
    } else {
      assert (s + after)[0] != ' ';
      LeadCounts(lead, s + after);
    }
  }

  lemma PrefixFirst(base: int, flags: Flags, rest: string, tail: string)
    requires rest != "" && rest[0] != ' '
    ensures var after := Prefix(base, flags) + rest + tail; after != "" && after[0] != ' '
  {
  }

  // ---- digits

  /** No numeral has a digit too many. */
  lemma {:induction false} NumeralIsShortest(n: nat, base: int, small: bool)
    requires ValidBase(base) && n > 0
    ensures Numeral(n, base, small) != "" && Numeral(n, base, small)[0] != '0'
    decreases n
  {
    DivMod(n, base);
    if n / base > 0 {
      NumeralIsShortest(n / base, base, small);
    } else {
      assert Positional(n, base, small) == [DigitChar(n, small)];
    }
  }

  lemma DivMod(n: nat, base: int)
    requires ValidBase(base) && n > 0
    ensures 0 <= n / base < n && (n / base == 0 ==> n % base == n)
  {
    HalvesAtLeast(n, base);
  }

  /** Letters among the digits have the case the flag asks for. */
  lemma {:induction false} DigitCase(n: nat, base: int, small: bool)
    requires ValidBase(base)
    ensures forall c :: c in Numeral(n, base, small) ==>
              '0' <= c <= '9' || (if small then 'a' <= c <= 'f' else 'A' <= c <= 'F')
  {
    if n > 0 {
      PositionalCase(n, base, small);
    }
  }

  lemma {:induction false} PositionalCase(n: nat, base: int, small: bool)
    requires ValidBase(base)
    ensures forall c :: c in Positional(n, base, small) ==>
              '0' <= c <= '9' || (if small then 'a' <= c <= 'f' else 'A' <= c <= 'F')
    decreases n
  {
    if n > 0 {
      DivMod(n, base);
      PositionalCase(n / base, base, small);
    }
  }

  // ---- texts

  /** A text padded to its width with blanks, behind it if it is left-justified, in front of it if not. */
  ghost predicate Justified(r: string, s: string, width: int, left: bool) {
    && |r| == Max(width, |s|)
    && (left ==> r[..|s|] == s && forall i :: |s| <= i < |r| ==> r[i] == ' ')
    && (!left ==> r[|r| - |s|..] == s && forall i :: 0 <= i < |r| - |s| ==> r[i] == ' ')
  }

  lemma JustifyLayout(s: string, width: int, left: bool)
    ensures Justified(Justify(s, width, left), s, width, left)
  {
  }
}
