/** The reader of `ss` output: first-occurrence substrings, bracketed addresses, and the list of socket users. */
module SsParser {
  import opened Options
  import opened Words
  import opened Numbers
  import opened Text

  const PORT_LEN: nat := 11
  const PID_LEN: nat := 32
  const FID_LEN: nat := 32
  const TASK_COMM_LEN: nat := 16
  const IP_STR_LEN: nat := 128
  const LINE_BUF_LEN: nat := 512
  const TCP_ESTAB_COMM_MAX: nat := 32

  datatype Addr = Addr(ip: string, port: nat, ipv4: bool)

  datatype User = User(comm: string, pid: nat, fd: nat)

  datatype Estab = Estab(local: Addr, remote: Addr, users: seq<User>)

  // ---- first occurrences

  ghost predicate At(s: string, t: string, i: int) {
    0 <= i && i + |t| <= |s| && s[i..i + |t|] == t
  }

  ghost predicate Occurs(s: string, t: string) {
    exists i :: At(s, t, i)
  }

  /** `strstr`: the first position of `t`, or -1. */
  function Find(s: string, t: string): (r: int)
    ensures r >= 0 ==> r + |t| <= |s|
  {
    if t <= s then 0
    else if s == "" then -1
    else
      var r := Find(s[1..], t);
      if r < 0 then -1 else r + 1
  }

  lemma SliceRest(s: string, i: nat, n: nat)
    requires s != "" && i + 1 + n <= |s|
    ensures s[1..][i..i + n] == s[i + 1..i + 1 + n]
  {
  }

  lemma AtRest(s: string, t: string, i: int)
    requires s != "" && i >= 0
    ensures At(s[1..], t, i) <==> At(s, t, i + 1)
  {
    if i + 1 + |t| <= |s| {
      SliceRest(s, i, |t|);
    }
  }

  /** The definition is the first occurrence. */
  lemma {:induction false} FindIsFirst(s: string, t: string)
    ensures Find(s, t) >= 0 ==> At(s, t, Find(s, t))
    ensures forall i :: At(s, t, i) ==> 0 <= Find(s, t) <= i
  {
    if t <= s {
      assert s[0..|t|] == t;
    } else if s != "" {
      FindIsFirst(s[1..], t);
      var r := Find(s[1..], t);
      if r >= 0 {
        AtRest(s, t, r);
      }
      forall i | At(s, t, i)
        ensures i > 0 && At(s[1..], t, i - 1)
      {
        if i > 0 {
          AtRest(s, t, i - 1);
        }
      }
    }
  }

  function Shift(n: nat, r: int): int {
    if r < 0 then -1 else n + r
  }

  /** Text that does not contain the first character of `t` is passed over. */
  lemma {:induction false} FindPasses(a: string, b: string, t: string)
    requires t != "" && t[0] !in a
    ensures Find(a + b, t) == Shift(|a|, Find(b, t))
  {
    if a == "" {
      assert a + b == b;
    } else {
      assert (a + b)[1..] == a[1..] + b;
      assert !(t <= a + b) by {
        assert (a + b)[0] == a[0];
      }
      FindPasses(a[1..], b, t);
    }
  }

  /** So is text without an occurrence of `t` if none can straddle its end. */
  lemma {:induction false} FindSkips(a: string, b: string, t: string)
    requires t != "" && !Occurs(a, t)
    requires b != "" && b[0] !in t[1..]
    ensures Find(a + b, t) == Shift(|a|, Find(b, t))
  {
    if a == "" {
      assert a + b == b;
    } else {
      assert (a + b)[1..] == a[1..] + b;
      assert !(t <= a + b) by {
        NoStraddle(a, b, t);
      }
      NotInRest(a, t);
      FindSkips(a[1..], b, t);
    }
  }

  lemma NoStraddle(a: string, b: string, t: string)
    requires t != "" && !Occurs(a, t) && a != ""
    requires b != "" && b[0] !in t[1..]
    ensures !(t <= a + b)
  {
    if |t| <= |a| {
      assert !At(a, t, 0);
      assert (a + b)[..|t|] == a[..|t|];
    } else {
      assert t[|a|] == t[1..][|a| - 1];
      assert (a + b)[|a|] == b[0];
    }
  }

  lemma NotInRest(a: string, t: string)
    requires a != "" && !Occurs(a, t)
    ensures !Occurs(a[1..], t)
  {
    forall i: int | i >= 0
      ensures At(a[1..], t, i) <==> At(a, t, i + 1)
    {
      AtRest(a, t, i);
    }
  }

  lemma FindHere(t: string, b: string)
    ensures Find(t + b, t) == 0
  {
    assert (t + b)[0..|t|] == t;
    assert At(t + b, t, 0);
  }

  lemma FindNowhere(s: string, t: string)
    requires t != "" && t[0] !in s
    ensures Find(s, t) == -1
  {
    assert s + "" == s;
    FindPasses(s, "", t);
  }

  // ---- substrings, digits and addresses

  function StartAt(s: string, start: Option<string>): (r: int)
    ensures r <= |s|
  {
    match start
    case None => 0
    case Some(t) => if Find(s, t) < 0 then -1 else Find(s, t) + |t|
  }

  function EndAt(s: string, end: Option<string>): (r: int)
    ensures r <= |s|
  {
    match end
    case None => |s|
    case Some(t) => Find(s, t)
  }

  /** The text from behind the first `start` to the first `end`, both looked up from the beginning of `s`. */
  function SubStr(s: string, start: Option<string>, end: Option<string>, size: nat): (r: Option<string>)
    ensures r.Some? ==> 0 < |r.value| < size && |r.value| <= |s| && forall c :: c in r.value ==> c in s
  {
    var p1, p2 := StartAt(s, start), EndAt(s, end);
    if p1 < 0 || p2 < 0 || p2 <= p1 || p2 - p1 >= size then None else Some(s[p1..p2])
  }

  /** What a C string buffer holds. */
  function CStr(b: seq<char>): string {
    b[..IndexOf(b, '\0')]
  }

  lemma CStrOf(b: seq<char>, r: string)
    requires NulFree(r) && |r| < |b| && b[..|r|] == r && b[|r|] == '\0'
    ensures CStr(b) == r
  {
    assert b == r + ['\0'] + b[|r| + 1..];
    IndexOfAppend(r, '\0', b[|r| + 1..]);
  }

  method GetSubStr(s: string, start: Option<string>, end: Option<string>, buf: array<char>) returns (ok: bool)
    requires NulFree(s)
    modifies buf
    ensures ok <==> SubStr(s, start, end, buf.Length).Some?
    ensures ok ==> CStr(buf[..]) == SubStr(s, start, end, buf.Length).value
    ensures !ok ==> buf[..] == old(buf[..])
  {
    hide Find, CStr;
    var p2, p1 := |s|, 0;
    if end.Some? {
      p2 := Find(s, end.value);
      if p2 < 0 {
        return false;
      }
    }
    if start.Some? {
      p1 := Find(s, start.value);
      if p1 < 0 {
        return false;
      }
      p1 := p1 + |start.value|;
    }
    var len := p2 - p1;
    if len <= 0 || len >= buf.Length {
      return false;
    }
    for i := 0 to len
      invariant buf[..i] == s[p1..p1 + i]
    {
      buf[i] := s[p1 + i];
    }
    buf[len] := '\0';
    assert buf[..len] == s[p1..p2];
    CStrOf(buf[..], s[p1..p2]);
    return true;
  }

  /** Note that the empty string passes. */
  method IsDigitStr(s: string) returns (r: bool)
    ensures r == DigitStr(s)
  {
    for i := 0 to |s|
      invariant DigitStr(s[..i])
    {
      if !('0' <= s[i] <= '9') {
        return false;
      }
    }
    return true;
  }

  /** `(unsigned int)atoi` on a digit string. */
  function Atoi(s: string): (r: nat)
    ensures r < TWO32
  {
    U32(Min(ReadDigits(s, 10, 0), TWO64 / 2 - 1))
  }

  /** A number is cut to its low 32 bits, and from 2^63 on reads as the largest of them. */
  lemma AtoiCuts(s: string)
    requires DigitStr(s)
    ensures var n := ReadDigits(s, 10, 0);
            Atoi(s) == if n < 0x8000_0000_0000_0000 then n % 0x1_0000_0000 else 0xFFFF_FFFF
  {
    RemainderUnique(TWO64 / 2 - 1, TWO32, TWO32 / 2 - 1, TWO32 - 1);
  }

  function LastIndexOf(s: string, c: char): (r: int)
    ensures -1 <= r < |s|
    ensures r >= 0 ==> s[r] == c && c !in s[r + 1..]
    ensures r < 0 ==> c !in s
  {
    if s == "" then -1
    else if s[|s| - 1] == c then |s| - 1
    else
      var r := LastIndexOf(s[..|s| - 1], c);
      assert s == s[..|s| - 1] + [s[|s| - 1]];
      assert r >= 0 ==> s[r + 1..] == s[..|s| - 1][r + 1..] + [s[|s| - 1]];
      r
  }

  /** The text between the first square brackets. */
  function Unbracketed(s: string): Option<string> {
    if '[' !in s || ']' !in s || IndexOf(s, ']') <= IndexOf(s, '[') then None
    else
      var r := SubStr(s, Some("["), Some("]"), LINE_BUF_LEN);
      if r.Some? && |r.value| >= IP_STR_LEN then None else r
  }

  method EraseSquareBrackets(s: string) returns (r: Option<string>)
    requires NulFree(s)
    ensures r == Unbracketed(s)
  {
    if '[' !in s || ']' !in s {
      return None;
    }
    if IndexOf(s, ']') <= IndexOf(s, '[') {
      return None;
    }
    var tmp := new char[LINE_BUF_LEN];
    var ok := GetSubStr(s, Some("["), Some("]"), tmp);
    if !ok {
      return None;
    }
    var t := CStr(tmp[..]);
    if |t| >= IP_STR_LEN {
      return None;
    }
    return Some(t);
  }

  /** Address and port around the last colon; without brackets it counts as IPv4. */
  function Address(t: string): Option<Addr> {
    var p := LastIndexOf(t, ':');
    if p <= 0 then None
    else
      var u := Unbracketed(t[..p]);
      var port := t[p + 1..];
      if port == "" || |port| >= PORT_LEN || !DigitStr(port) then None
      else Some(Addr(if u.Some? then u.value else t[..p], Atoi(port), u.None?))
  }

  method GetEstabAddr(t: string) returns (r: Option<Addr>)
    requires NulFree(t)
    ensures r == Address(t)
  {
    hide DigitStr, Unbracketed, Atoi;
    var p := LastIndexOf(t, ':');
    if p < 0 {
      return None;
    }
    if p >= |t| || p <= 0 {
      return None;
    }
    var ip, ipv4 := t[..p], true;
    var u := EraseSquareBrackets(ip);
    if u.Some? {
      ip, ipv4 := u.value, false;
    }
    var portLen := |t| - p - 1;
    if portLen <= 0 || portLen >= PORT_LEN {
      return None;
    }
    var digits := IsDigitStr(t[p + 1..]);
    if !digits {
      return None;
    }
    return Some(Addr(ip, Atoi(t[p + 1..]), ipv4));
  }

  // ---- users

  /** One `("comm",pid=n,fd=n)` chunk. */
  function UserOf(s: string): Option<User> {
    var comm := SubStr(s, Some("(\""), Some("\","), TASK_COMM_LEN);
    var pid := SubStr(s, Some("pid="), Some(",fd"), PID_LEN);
    var fd := SubStr(s, Some(",fd="), Some(")"), FID_LEN);
    if comm.None? || pid.None? || fd.None? || !DigitStr(pid.value) || !DigitStr(fd.value) then None
    else Some(User(comm.value, Atoi(pid.value), Atoi(fd.value)))
  }

  method GetEstabComm(s: string) returns (r: Option<User>)
    requires NulFree(s) && |s| < LINE_BUF_LEN
    ensures r == UserOf(s)
  {
    hide SubStr, DigitStr, Atoi, CStr;
    var comm, pid, fd := new char[TASK_COMM_LEN], new char[PID_LEN], new char[FID_LEN];
    var ok1 := GetSubStr(s, Some("(\""), Some("\","), comm);
    var ok2 := GetSubStr(s, Some("pid="), Some(",fd"), pid);
    var ok3 := GetSubStr(s, Some(",fd="), Some(")"), fd);
    if !ok1 || !ok2 || !ok3 {
      return None;
    }
    var d2 := IsDigitStr(CStr(pid[..]));
    var d3 := IsDigitStr(CStr(fd[..]));
    if !d2 || !d3 {
      return None;
    }
    return Some(User(CStr(comm[..]), Atoi(CStr(pid[..])), Atoi(CStr(fd[..]))));
  }

  /** The pieces the splitting loop hands to the chunk parser. */
  function Chunks(s: string): (r: seq<string>)
    ensures r != []
    decreases |s|
  {
    var i := Find(s, ",(");
    if i <= 0 then [s] else [s[..i]] + Chunks(s[i + 1..])
  }

  function AddUser(us: seq<User>, u: Option<User>): seq<User> {
    if u.None? || |us| >= TCP_ESTAB_COMM_MAX then us else us + [u.value]
  }

  function AddUsers(us: seq<User>, chunks: seq<string>): seq<User>
    decreases |chunks|
  {
    if chunks == [] then us else AddUsers(AddUser(us, UserOf(chunks[0])), chunks[1..])
  }

  /** The splitting loop; its scan position strictly advances. */
  method GetUsers(s: string) returns (us: seq<User>)
    requires NulFree(s) && |s| < LINE_BUF_LEN
    ensures us == AddUsers([], Chunks(s))
  {
    hide UserOf, Find;
    us := [];
    var start := 0;
    while start < |s|
      invariant 0 <= start <= |s|
      invariant AddUsers([], Chunks(s)) == AddUsers(us, Chunks(s[start..]))
      decreases |s| - start
    {
      var rest := s[start..];
      var offset := Find(rest, ",(");
      if offset <= 0 {
        break;
      }
      var u := GetEstabComm(rest[..offset]);
      us := AddUser(us, u);
      assert rest[offset + 1..] == s[start + offset + 1..];
      start := start + offset + 1;
    }
    var rest := s[start..];
    assert Chunks(rest) == [rest];
    var u := GetEstabComm(rest);
    us := AddUser(us, u);
  }

  /** One line of established connections. */
  function EstabOf(s: string): Option<Estab> {
    var l := SubStr(s, None, Some("|"), IP_STR_LEN);
    var r := SubStr(s, Some("|"), Some("@"), IP_STR_LEN);
    var c := SubStr(s, Some("@users:("), None, LINE_BUF_LEN);
    if l.None? || Address(l.value).None? || r.None? || Address(r.value).None? || c.None? then None
    else Some(Estab(Address(l.value).value, Address(r.value).value, AddUsers([], Chunks(c.value[..|c.value| - 1]))))
  }

  method GetEstab(s: string) returns (r: Option<Estab>)
    requires NulFree(s)
    ensures r == EstabOf(s)
  {
    hide SubStr, Address, Chunks, CStr;
    var buf := new char[IP_STR_LEN];
    var ok := GetSubStr(s, None, Some("|"), buf);
    if !ok {
      return None;
    }
    var local := GetEstabAddr(CStr(buf[..]));
    if local.None? {
      return None;
    }
    ok := GetSubStr(s, Some("|"), Some("@"), buf);
    if !ok {
      return None;
    }
    var remote := GetEstabAddr(CStr(buf[..]));
    if remote.None? {
      return None;
    }
    var comms := new char[LINE_BUF_LEN];
    ok := GetSubStr(s, Some("@users:("), None, comms);
    if !ok {
      return None;
    }
    var c := CStr(comms[..]);
    var users := GetUsers(c[..|c| - 1]);
    return Some(Estab(local.value, remote.value, users));
  }

  // ---- what ss prints

  function EntryText(u: User): string {
    "(\"" + u.comm + "\",pid=" + Decimal(u.pid) + ",fd=" + Decimal(u.fd) + ")"
  }

  function Joined(us: seq<User>): string {
    if us == [] then "" else if |us| == 1 then EntryText(us[0]) else EntryText(us[0]) + "," + Joined(us[1..])
  }

  function AddrText(a: Addr): string {
    (if a.ipv4 then a.ip else "[" + a.ip + "]") + ":" + Decimal(a.port)
  }

  /** The line of a connection: local address, remote address, users; `tail` is a newline or nothing. */
  function EstabLine(l: Addr, r: Addr, us: seq<User>, tail: string): string {
    AddrText(l) + "|" + AddrText(r) + "@users:(" + Joined(us) + ")" + tail
  }

  // ---- one chunk

  /** The process names the chunk parser reads back. */
  ghost predicate Readable(comm: string) {
    && 0 < |comm| < TASK_COMM_LEN
    && comm[0] != ','
    && ')' !in comm
    && !Occurs(comm, "\",")
    && !Occurs(comm, "pid=")
    && !Occurs(comm, ",fd")
  }

  function Ten(k: nat): nat {
    if k == 0 then 1 else 10 * Ten(k - 1)
  }

  lemma {:induction false} DecimalLength(n: nat, k: nat)
    requires n < Ten(k)
    ensures |Positional(n, 10, false)| <= k
    decreases k
  {
    if n != 0 {
      DecimalLength(n / 10, k - 1);
    }
  }

  lemma WordLength(n: nat)
    requires n < TWO32
    ensures 0 < |Decimal(n)| <= 10
  {
    assert Ten(5) == 100000;
    assert Ten(10) == 100000 * Ten(5);
    DecimalLength(n, 10);
    DecimalDigits(n);
  }

  lemma AtoiDecimal(n: nat)
    requires n < TWO32
    ensures Atoi(Decimal(n)) == n
  {
    NumeralReads(n, 10, false);
    var s := Decimal(n);
    assert s + "" == s;
    ReadsAll(s, "", 10, 0);
    RemainderUnique(n, TWO32, 0, n);
  }

  lemma NumberReady(n: nat)
    requires n < TWO32
    ensures Plain(Decimal(n)) && DigitStr(Decimal(n)) && |Decimal(n)| <= 10 && Atoi(Decimal(n)) == n
  {
    DecimalDigits(n);
    WordLength(n);
    AtoiDecimal(n);
  }

  lemma Middle(a: string, b: string, c: string)
    ensures (a + (b + c))[|a|..|a| + |b|] == b
  {
  }

  lemma RegroupEntry(a: string, c: string, d: string, p: string, e: string, f: string, g: string, tail: string)
    ensures a + c + d + p + e + f + g + tail == a + (c + (d + (p + (e + (f + (g + tail))))))
  {
  }

  // The texts around the three fields, as the parser meets them.

  function FromFd(f: string, tail: string): string {
    ",fd" + ("=" + (f + (")" + tail)))
  }

  function FromPid(p: string, f: string, tail: string): string {
    "\"," + ("pid=" + (p + FromFd(f, tail)))
  }

  function Chunk(c: string, p: string, f: string, tail: string): string {
    "(\"" + (c + FromPid(p, f, tail))
  }

  predicate Plain(s: string) {
    s != "" && DigitStr(s)
  }

  lemma FindsComm(c: string, x: string)
    requires c != "" && c[0] != ',' && !Occurs(c, "\",")
    ensures var s := "(\"" + (c + ("\"," + x));
            Find(s, "(\"") == 0 && Find(s, "\",") == 2 + |c|
  {
    hide Find;
    var t := "\",";
    var y := t + x;
    FindHere("(\"", c + y);
    assert !Occurs("(\"", t);
    assert t[1..] == ",";
    assert (c + y)[0] == c[0];
    FindSkips("(\"", c + y, t);
    FindSkips(c, y, t);
    FindHere(t, x);
  }

  lemma FindsPid(c: string, x: string)
    requires !Occurs(c, "pid=")
    ensures Find("(\"" + (c + ("\"," + ("pid=" + x))), "pid=") == |c| + 4
  {
    hide Find;
    var t := "pid=";
    var z := t + x;
    var y := "\"," + z;
    FindPasses("(\"", c + y, t);
    assert t[1..] == "id=" && y[0] == '"';
    FindSkips(c, y, t);
    FindPasses("\",", z, t);
    FindHere(t, x);
  }

  predicate FdPattern(t: string) {
    t == ",fd" || t == ",fd="
  }

  lemma FindsAfterPid(p: string, t: string, x: string)
    requires FdPattern(t) && Plain(p)
    ensures Find("pid=" + (p + (t + x)), t) == |p| + 4
  {
    hide Find;
    FindPasses("pid=", p + (t + x), t);
    FindPasses(p, t + x, t);
    FindHere(t, x);
  }

  lemma QuoteSkipped(z: string, t: string)
    requires FdPattern(t) && z != "" && z[0] == 'p'
    ensures Find("\"," + z, t) == Shift(2, Find(z, t))
  {
    hide Find;
    assert !Occurs("\",", t);
    assert t[1..] == "fd" || t[1..] == "fd=";
    FindSkips("\",", z, t);
  }

  lemma CommSkipped(c: string, y: string, t: string)
    requires FdPattern(t) && !Occurs(c, t) && y != "" && y[0] == '"'
    ensures Find("(\"" + (c + y), t) == Shift(2 + |c|, Find(y, t))
  {
    hide Find;
    FindPasses("(\"", c + y, t);
    assert t[1..] == "fd" || t[1..] == "fd=";
    FindSkips(c, y, t);
  }

  /** Both patterns that begin with ",fd". */
  lemma FindsFd(c: string, p: string, t: string, x: string)
    requires FdPattern(t) && !Occurs(c, t) && Plain(p)
    ensures Find("(\"" + (c + ("\"," + ("pid=" + (p + (t + x))))), t) == |c| + |p| + 8
  {
    hide Find, Occurs, FdPattern, Plain;
    var z := "pid=" + (p + (t + x));
    FindsAfterPid(p, t, x);
    QuoteSkipped(z, t);
    CommSkipped(c, "\"," + z, t);
  }

  lemma FindsParen(a: string, tail: string)
    requires ')' !in a
    ensures Find(a + (")" + tail), ")") == |a|
  {
    FindPasses(a, ")" + tail, ")");
    FindHere(")", tail);
  }

  lemma LongerAbsent(c: string)
    requires !Occurs(c, ",fd")
    ensures !Occurs(c, ",fd=")
  {
    forall i: int
      ensures At(c, ",fd=", i) ==> At(c, ",fd", i)
    {
      if At(c, ",fd=", i) {
        assert c[i..i + 3] == c[i..i + 4][..3];
      }
    }
  }

  lemma ChunkFinds(c: string, p: string, f: string, tail: string)
    requires Readable(c) && Plain(p) && Plain(f)
    ensures var s := Chunk(c, p, f, tail);
            && Find(s, "(\"") == 0 && Find(s, "\",") == |c| + 2
            && Find(s, "pid=") == |c| + 4 && Find(s, ",fd") == |c| + |p| + 8
            && Find(s, ",fd=") == |c| + |p| + 8 && Find(s, ")") == |c| + |p| + |f| + 12
  {
    hide Find, Occurs;
    FindsComm(c, "pid=" + (p + FromFd(f, tail)));
    FindsPid(c, p + FromFd(f, tail));
    FindsFd(c, p, ",fd", "=" + (f + (")" + tail)));
    LongerAbsent(c);
    var x := f + (")" + tail);
    FindsFd(c, p, ",fd=", x);
    assert FromFd(f, tail) == ",fd=" + x;
    var a := "(\"" + (c + ("\"," + ("pid=" + (p + (",fd" + ("=" + f))))));
    FindsParen(a, tail);
    assert Chunk(c, p, f, tail) == a + (")" + tail);
  }

  lemma ChunkSlices(c: string, p: string, f: string, tail: string)
    ensures var s := Chunk(c, p, f, tail);
            && |s| >= |c| + |p| + |f| + 13
            && s[2..|c| + 2] == c
            && s[|c| + 8..|c| + |p| + 8] == p
            && s[|c| + |p| + 12..|c| + |p| + |f| + 12] == f
  {
    var s := Chunk(c, p, f, tail);
    Middle("(\"", c, FromPid(p, f, tail));
    var a := "(\"" + c + "\",pid=";
    assert s == a + (p + FromFd(f, tail));
    Middle(a, p, FromFd(f, tail));
    var b := a + p + ",fd=";
    assert s == b + (f + (")" + tail));
    Middle(b, f, ")" + tail);
  }

  lemma ChunkCuts(c: string, p: string, f: string, tail: string)
    requires Readable(c) && Plain(p) && Plain(f) && |p| < PID_LEN && |f| < FID_LEN
    ensures var s := Chunk(c, p, f, tail);
            && SubStr(s, Some("(\""), Some("\","), TASK_COMM_LEN) == Some(c)
            && SubStr(s, Some("pid="), Some(",fd"), PID_LEN) == Some(p)
            && SubStr(s, Some(",fd="), Some(")"), FID_LEN) == Some(f)
  {
    hide Find, Occurs, DigitStr, Chunk;
    ChunkFinds(c, p, f, tail);
    ChunkSlices(c, p, f, tail);
  }

  /** A readable name comes back with its numbers, whatever follows the chunk. */
  lemma ChunkReads(u: User, tail: string)
    requires Readable(u.comm) && u.pid < TWO32 && u.fd < TWO32
    ensures UserOf(EntryText(u) + tail) == Some(u)
  {
    var c, p, f := u.comm, Decimal(u.pid), Decimal(u.fd);
    DecimalDigits(u.pid);
    DecimalDigits(u.fd);
    WordLength(u.pid);
    WordLength(u.fd);
    AtoiDecimal(u.pid);
    AtoiDecimal(u.fd);
    hide Decimal, DigitStr, Atoi, Readable, SubStr, Chunk, EntryText;
    EntryIsChunk(u, tail);
    ChunkCuts(c, p, f, tail);
  }

  lemma EntryIsChunk(u: User, tail: string)
    ensures EntryText(u) + tail == Chunk(u.comm, Decimal(u.pid), Decimal(u.fd), tail)
  {
    hide Numeral;
    var c, p, f := u.comm, Decimal(u.pid), Decimal(u.fd);
    RegroupEntry("(\"", c, "\",pid=", p, ",fd=", f, ")", tail);
    var x := f + (")" + tail);
    assert ",fd=" + x == ",fd" + ("=" + x);
    var y := p + FromFd(f, tail);
    assert "\",pid=" + y == "\"," + ("pid=" + y);
  }

  // ---- and only these names

  ghost predicate ReadsBack(comm: string, pid: nat, fd: nat) {
    UserOf(EntryText(User(comm, pid, fd))) == Some(User(comm, pid, fd))
  }

  lemma AtPrefix(q: string, s: string, t: string, i: int)
    requires q <= s && i + |t| <= |q|
    ensures At(q, t, i) <==> At(s, t, i)
  {
    if 0 <= i {
      assert q[i..i + |t|] == s[i..i + |t|];
    }
  }

  lemma AtInside(a: string, c: string, b: string, t: string, i: int)
    requires At(c, t, i)
    ensures At(a + c + b, t, |a| + i)
  {
    assert (a + c + b)[|a| + i..|a| + i + |t|] == c[i..i + |t|];
  }

  /** A first occurrence inside a common prefix is the same in both texts. */
  lemma FindStable(q: string, s: string, s': string, t: string)
    requires q <= s && q <= s'
    requires 0 <= Find(s, t) && Find(s, t) + |t| <= |q|
    ensures Find(s', t) == Find(s, t)
  {
    FindIsFirst(s, t);
    FindIsFirst(s', t);
    AtPrefix(q, s, t, Find(s, t));
    AtPrefix(q, s', t, Find(s, t));
    AtPrefix(q, s, t, Find(s', t));
    AtPrefix(q, s', t, Find(s', t));
  }

  lemma CutStable(q: string, s: string, s': string, start: string, end: string, size: nat)
    requires q <= s && q <= s'
    requires SubStr(s, Some(start), Some(end), size).Some? && Find(s, end) + |end| <= |q|
    ensures SubStr(s', Some(start), Some(end), size) == SubStr(s, Some(start), Some(end), size)
  {
    hide Find;
    FindStable(q, s, s', end);
    FindStable(q, s, s', start);
    var i, j := Find(s, start) + |start|, Find(s, end);
    assert s[i..j] == q[i..j] == s'[i..j];
  }

  /** What the chunks of one name have in common. */
  function Head(comm: string): string {
    "(\"" + comm + "\",pid="
  }

  lemma HeadLeads(comm: string, pid: nat, fd: nat)
    ensures Head(comm) <= EntryText(User(comm, pid, fd))
  {
  }

  lemma InsideHead(comm: string, s: string, t: string, i: int)
    requires Head(comm) <= s && At(comm, t, i)
    ensures 0 <= Find(s, t) <= 2 + i && i + |t| <= |comm|
  {
    AtInside("(\"", comm, "\",pid=", t, i);
    AtPrefix(Head(comm), s, t, 2 + i);
    FindIsFirst(s, t);
  }

  lemma QuoteIsNoDigit(s: string, i: nat, j: nat, k: nat)
    requires i <= k < j <= |s| && s[k] == '"'
    ensures !DigitStr(s[i..j])
  {
    assert s[i..j][k - i] == '"';
  }

  /** A name holding one of the number patterns fixes the process number, whatever was printed. */
  lemma PidFixed(comm: string, s: string, s': string)
    requires Head(comm) <= s && Head(comm) <= s'
    requires Occurs(comm, "pid=") || Occurs(comm, ",fd")
    requires SubStr(s, Some("pid="), Some(",fd"), PID_LEN).Some?
    requires DigitStr(SubStr(s, Some("pid="), Some(",fd"), PID_LEN).value)
    ensures SubStr(s', Some("pid="), Some(",fd"), PID_LEN) == SubStr(s, Some("pid="), Some(",fd"), PID_LEN)
  {
    hide Find;
    var p, e := Find(s, "pid="), Find(s, ",fd");
    if Occurs(comm, ",fd") {
      var i :| At(comm, ",fd", i);
      InsideHead(comm, s, ",fd", i);
    } else {
      var i :| At(comm, "pid=", i);
      InsideHead(comm, s, "pid=", i);
      assert s[|comm| + 2] == Head(comm)[|comm| + 2] == '"';
      if e > |comm| + 2 {
        QuoteIsNoDigit(s, p + 4, e, |comm| + 2);
      }
    }
    CutStable(Head(comm), s, s', "pid=", ",fd", PID_LEN);
  }

  lemma FdFixed(comm: string, s: string, s': string)
    requires Head(comm) <= s && Head(comm) <= s' && ')' in comm
    requires SubStr(s, Some(",fd="), Some(")"), FID_LEN).Some?
    ensures SubStr(s', Some(",fd="), Some(")"), FID_LEN) == SubStr(s, Some(",fd="), Some(")"), FID_LEN)
  {
    hide Find;
    var i :| 0 <= i < |comm| && comm[i] == ')';
    assert comm[i..i + 1] == ")";
    InsideHead(comm, s, ")", i);
    CutStable(Head(comm), s, s', ",fd=", ")", FID_LEN);
  }

  lemma CommCut(comm: string, s: string)
    requires Head(comm) <= s && SubStr(s, Some("(\""), Some("\","), TASK_COMM_LEN) == Some(comm)
    ensures 0 < |comm| < TASK_COMM_LEN && comm[0] != ',' && !Occurs(comm, "\",")
  {
    assert s[0..2] == Head(comm)[0..2] == "(\"";
    assert At(s, "(\"", 0);
    FindIsFirst(s, "(\"");
    FindIsFirst(s, "\",");
    hide Find;
    if comm[0] == ',' {
      assert Head(comm)[1..3] == "\",";
      AtPrefix(Head(comm), s, "\",", 1);
    }
    if Occurs(comm, "\",") {
      var i :| At(comm, "\",", i);
      InsideHead(comm, s, "\",", i);
    }
  }

  /** A name reads back with every pair of numbers exactly if it is readable: a name such as "(sd-pam)" never does. */
  lemma ReadableIff(comm: string)
    ensures (forall pid: nat, fd: nat | pid < TWO32 && fd < TWO32 :: ReadsBack(comm, pid, fd)) <==> Readable(comm)
  {
    if Readable(comm) {
      forall pid: nat, fd: nat | pid < TWO32 && fd < TWO32
        ensures ReadsBack(comm, pid, fd)
      {
        ChunkReads(User(comm, pid, fd), "");
        assert EntryText(User(comm, pid, fd)) + "" == EntryText(User(comm, pid, fd));
      }
    } else {
      NotBoth(comm);
      assert !ReadsBack(comm, 0, 0) || !ReadsBack(comm, 1, 1);
    }
  }

  lemma NotBoth(comm: string)
    requires !Readable(comm)
    ensures ReadsBack(comm, 0, 0) ==> !ReadsBack(comm, 1, 1)
  {
    if ReadsBack(comm, 0, 0) {
      var s, s' := EntryText(User(comm, 0, 0)), EntryText(User(comm, 1, 1));
      HeadLeads(comm, 0, 0);
      HeadLeads(comm, 1, 1);
      hide EntryText, SubStr, Head, Atoi;
      CommCut(comm, s);
      if ')' in comm {
        FdFixed(comm, s, s');
      } else {
        PidFixed(comm, s, s');
      }
    }
  }

  /** The name the session manager gives its helper is one of them: the parenthesis ends the chunk early. */
  lemma SdPamIsLost(pid: nat, fd: nat)
    ensures UserOf(EntryText(User("(sd-pam)", pid, fd))).None?
  {
    var comm := "(sd-pam)";
    var s := EntryText(User(comm, pid, fd));
    HeadLeads(comm, pid, fd);
    assert comm[7..8] == ")";
    InsideHead(comm, s, ")", 7);
    var q, y := "(\"" + comm, FromPid(Decimal(pid), Decimal(fd), "");
    EntryIsChunk(User(comm, pid, fd), "");
    assert s + "" == s;
    assert ',' !in q && |q| == 10;
    hide Find, FromPid, EntryText;
    assert s == q + y;
    FindPasses(q, y, ",fd=");
  }

  // ---- whole lines

  /** Names that also survive the splitting loop. */
  ghost predicate GoodUser(u: User) {
    Readable(u.comm) && !Occurs(u.comm, ",(") && u.pid < TWO32 && u.fd < TWO32
  }

  ghost predicate GoodUsers(us: seq<User>) {
    us != [] && forall i :: 0 <= i < |us| ==> GoodUser(us[i])
  }

  ghost predicate ValidAddr(a: Addr) {
    && a.ip != "" && '[' !in a.ip && ']' !in a.ip && '|' !in a.ip && '@' !in a.ip
    && a.port < TWO32 && |AddrText(a)| < IP_STR_LEN
  }

  function Capped(us: seq<User>): seq<User> {
    us[..Min(|us|, TCP_ESTAB_COMM_MAX)]
  }

  lemma NumbersSkipped(p: string, f: string, tail: string)
    requires Plain(p) && Plain(f)
    ensures Find(FromPid(p, f, tail), ",(") == Shift(|p| + |f| + 11, Find(tail, ",("))
  {
    var t := ",(";
    assert t[1..] == "(";
    assert !Occurs("\",", t) && !Occurs(",", t);
    hide Find, Occurs;
    var v := f + (")" + tail);
    FindPasses(")", tail, t);
    FindPasses(f, ")" + tail, t);
    FindPasses("fd=", v, t);
    FindSkips(",", "fd=" + v, t);
    assert FromFd(f, tail) == "," + ("fd=" + v);
    FindPasses(p, FromFd(f, tail), t);
    FindPasses("pid=", p + FromFd(f, tail), t);
    FindSkips("\",", "pid=" + (p + FromFd(f, tail)), t);
  }

  lemma EntrySkipped(u: User, tail: string)
    requires GoodUser(u)
    ensures Find(EntryText(u) + tail, ",(") == Shift(|EntryText(u)|, Find(tail, ",("))
  {
    var c, p, f := u.comm, Decimal(u.pid), Decimal(u.fd);
    var t, y := ",(", FromPid(p, f, tail);
    DecimalDigits(u.pid);
    DecimalDigits(u.fd);
    EntryIsChunk(u, tail);
    assert t[1..] == "(" && y[0] == '"';
    hide Find, Occurs, Decimal;
    NumbersSkipped(p, f, tail);
    FindSkips(c, y, t);
    FindPasses("(\"", c + y, t);
  }

  function ChunkTexts(us: seq<User>, tail: string): seq<string> {
    if us == [] then []
    else if |us| == 1 then [EntryText(us[0]) + tail]
    else [EntryText(us[0])] + ChunkTexts(us[1..], tail)
  }

  lemma SlicesAround(e: string, c: string, rest: string)
    requires |c| == 1
    ensures (e + (c + rest))[..|e|] == e && (e + (c + rest))[|e| + 1..] == rest
  {
  }

  lemma ChunksStep(e: string, rest: string)
    requires e != "" && Find(e + ("," + rest), ",(") == |e|
    ensures Chunks(e + ("," + rest)) == [e] + Chunks(rest)
  {
    var s := e + ("," + rest);
    SlicesAround(e, ",", rest);
    CutAt(s, |e|);
  }

  lemma CutAt(s: string, i: nat)
    requires 0 < i < |s| && Find(s, ",(") == i
    ensures Chunks(s) == [s[..i]] + Chunks(s[i + 1..])
  {
    hide Find;
  }

  lemma FirstSeparator(u: User, rest: string)
    requires GoodUser(u) && rest != "" && rest[0] == '('
    ensures Find(EntryText(u) + ("," + rest), ",(") == |EntryText(u)|
  {
    hide Find, EntryText, GoodUser;
    assert "," + rest == ",(" + rest[1..];
    FindHere(",(", rest[1..]);
    EntrySkipped(u, "," + rest);
  }

  /** The loop cuts the user list at its separators and nowhere else. */
  lemma {:induction false} ChunksJoined(us: seq<User>, tail: string)
    requires GoodUsers(us) && ',' !in tail
    ensures Chunks(Joined(us) + tail) == ChunkTexts(us, tail)
    decreases |us|
  {
    hide GoodUser, EntryText, Find;
    if |us| == 1 {
      EntrySkipped(us[0], tail);
      FindNowhere(tail, ",(");
    } else {
      var e, rest := EntryText(us[0]), Joined(us[1..]) + tail;
      ChunksJoined(us[1..], tail);
      JoinedOpens(us[1..]);
      FirstSeparator(us[0], rest);
      EntryNonEmpty(us[0]);
      hide Chunks;
      ChunksStep(e, rest);
      assert Joined(us) + tail == e + ("," + rest);
    }
  }

  lemma EntryNonEmpty(u: User)
    ensures EntryText(u) != "" && EntryText(u)[0] == '('
  {
  }

  lemma JoinedOpens(us: seq<User>)
    requires us != []
    ensures Joined(us) != "" && Joined(us)[0] == '('
  {
    EntryNonEmpty(us[0]);
  }

  lemma {:induction false} AddsAll(acc: seq<User>, us: seq<User>, tail: string)
    requires us == [] || GoodUsers(us)
    requires |acc| <= TCP_ESTAB_COMM_MAX
    ensures AddUsers(acc, ChunkTexts(us, tail)) == Capped(acc + us)
    decreases |us|
  {
    hide GoodUser, EntryText, UserOf;
    if us == [] {
      assert acc + us == acc;
    } else {
      var t := if |us| == 1 then tail else "";
      GoodReads(us[0], t);
      assert EntryText(us[0]) + "" == EntryText(us[0]);
      var acc' := AddUser(acc, Some(us[0]));
      AddsAll(acc', us[1..], tail);
      assert ChunkTexts(us, tail)[1..] == ChunkTexts(us[1..], tail);
      assert |acc| < TCP_ESTAB_COMM_MAX ==> acc' + us[1..] == acc + us;
    }
  }

  lemma GoodReads(u: User, tail: string)
    requires GoodUser(u)
    ensures UserOf(EntryText(u) + tail) == Some(u)
  {
    ChunkReads(u, tail);
  }

  // addresses

  lemma {:induction false} LastIndexOfAppend(a: string, c: char, b: string)
    requires c !in b
    ensures LastIndexOf(a + [c] + b, c) == |a|
    decreases |b|
  {
    var s := a + [c] + b;
    if b != "" {
      var b' := b[..|b| - 1];
      assert b == b' + [b[|b| - 1]];
      LastIndexOfAppend(a, c, b');
      assert s[..|s| - 1] == a + [c] + b';
      assert s[|s| - 1] == b[|b| - 1];
    }
  }

  lemma BracketPlaces(ip: string)
    requires '[' !in ip && ']' !in ip
    ensures var s := "[" + ip + "]";
            && IndexOf(s, '[') == 0 && IndexOf(s, ']') == |ip| + 1
            && Find(s, "[") == 0 && Find(s, "]") == |ip| + 1
  {
    hide Find, IndexOf;
    var s := "[" + ip + "]";
    assert s == "" + ['['] + (ip + "]");
    IndexOfAppend("", '[', ip + "]");
    assert s == ("[" + ip) + [']'] + "";
    IndexOfAppend("[" + ip, ']', "");
    assert s == "[" + (ip + "]");
    FindHere("[", ip + "]");
    assert s == ("[" + ip) + ("]" + "");
    FindPasses("[" + ip, "]" + "", "]");
    FindHere("]", "");
  }

  lemma BracketsErased(ip: string)
    requires ip != "" && '[' !in ip && ']' !in ip && |ip| < IP_STR_LEN
    ensures Unbracketed("[" + ip + "]") == Some(ip)
  {
    hide Find, IndexOf;
    BracketPlaces(ip);
    var s := "[" + ip + "]";
    assert s[0] == '[' && s[|ip| + 1] == ']';
    assert s[1..1 + |ip|] == ip;
  }

  lemma NoBrackets(ip: string)
    requires '[' !in ip
    ensures Unbracketed(ip) == None
  {
  }

  /** A printed address comes back, and the brackets tell the family. */
  lemma AddressReads(a: Addr)
    requires ValidAddr(a)
    ensures Address(AddrText(a)) == Some(a)
  {
    var text, port := if a.ipv4 then a.ip else "[" + a.ip + "]", Decimal(a.port);
    hide Decimal, Atoi, DigitStr, Unbracketed, LastIndexOf;
    NumberReady(a.port);
    LastIndexOfAppend(text, ':', port);
    var s := AddrText(a);
    assert s == text + [':'] + port;
    SlicesAround(text, ":", port);
    assert s == text + (":" + port);
    if a.ipv4 {
      NoBrackets(a.ip);
    } else {
      BracketsErased(a.ip);
    }
  }

  /** Which brackets are erased: the first ones, if 1 to 127 characters stand between them. */
  lemma BracketsIff(host: string, b: string)
    ensures Unbracketed(host) == Some(b) <==>
            exists a, c :: Bracketed(host, a, b, c) && 1 <= |b| <= 127
  {
    hide Unbracketed, Bracketed;
    if Unbracketed(host) == Some(b) {
      var i, j := ErasedBetween(host, b);
      assert Bracketed(host, host[..i], b, host[j + 1..]);
    }
    forall a, c | Bracketed(host, a, b, c) && 1 <= |b| <= 127
      ensures Unbracketed(host) == Some(b)
    {
      BracketedErased(host, a, b, c);
    }
  }

  lemma ErasedBetween(host: string, b: string) returns (i: nat, j: nat)
    requires Unbracketed(host) == Some(b)
    ensures i < j < |host| && b == host[i + 1..j] && 1 <= |b| <= 127
    ensures Bracketed(host, host[..i], b, host[j + 1..])
  {
    i, j := IndexOf(host, '['), IndexOf(host, ']');
    FindsChar(host, '[');
    FindsChar(host, ']');
    hide IndexOf, Find;
    assert b == host[i + 1..j];
    assert host[..j] == host[..i] + ['['] + b;
    assert host == host[..i] + (['['] + (b + ([']'] + host[j + 1..])));
    assert forall x :: x in host[..i] || x in b ==> x in host[..j];
  }

  ghost predicate Bracketed(host: string, a: string, b: string, c: string) {
    host == a + (['['] + (b + ([']'] + c))) && '[' !in a && ']' !in a && ']' !in b
  }

  lemma BracketedErased(host: string, a: string, b: string, c: string)
    requires Bracketed(host, a, b, c) && 1 <= |b| <= 127
    ensures Unbracketed(host) == Some(b)
  {
    hide IndexOf, Find;
    assert host == a + ['['] + (b + ([']'] + c));
    IndexOfAppend(a, '[', b + ([']'] + c));
    assert host == (a + ['['] + b) + [']'] + c;
    IndexOfAppend(a + ['['] + b, ']', c);
    FindsChar(host, '[');
    FindsChar(host, ']');
    assert host[|a|] == '[' && host[|a| + 1 + |b|] == ']';
    assert host[|a| + 1..|a| + 1 + |b|] == b;
  }

  lemma FindsChar(s: string, c: char)
    ensures Find(s, [c]) == if c in s then IndexOf(s, c) else -1
    ensures c in s <==> IndexOf(s, c) < |s|
  {
    hide Find, IndexOf;
    var i := IndexOf(s, c);
    assert [c][0] == c && (i < |s| ==> s[i] in s);
    assert i == |s| ==> s[..i] == s;
    if i < |s| {
      assert s == s[..i] + ([c] + s[i + 1..]);
      FindPasses(s[..i], [c] + s[i + 1..], [c]);
      FindHere([c], s[i + 1..]);
    } else {
      assert s[..i] == s;
      FindNowhere(s, [c]);
    }
  }

  /** When an address with a port is read, whatever stands in it: exactly if the host is not empty and the port has 1 to
      10 digits. The port is its number; the host is the text in brackets, or all of it without any. */
  lemma AddressIff(host: string, port: string)
    requires ':' !in port
    ensures Address(host + ":" + port).Some? <==> host != "" && 1 <= |port| <= 10 && DigitStr(port)
    ensures Address(host + ":" + port).Some? ==>
              var r := Address(host + ":" + port).value;
              && r.port == Atoi(port)
              && (if Unbracketed(host).Some? then r.ip == Unbracketed(host).value && !r.ipv4
                  else r.ip == host && r.ipv4)
  {
    hide LastIndexOf, Unbracketed, Atoi, DigitStr;
    LastIndexOfAppend(host, ':', port);
    var s := host + ":" + port;
    assert s == host + [':'] + port && s[..|host|] == host && s[|host| + 1..] == port;
  }

  /** A list that begins with a separator is not cut at all. */
  lemma LeadingSeparator(s: string)
    requires ",(" <= s
    ensures Chunks(s) == [s]
  {
  }

  lemma AddrTextClean(a: Addr)
    requires ValidAddr(a)
    ensures '|' !in AddrText(a) && '@' !in AddrText(a) && AddrText(a) != ""
  {
    DecimalDigits(a.port);
    hide Decimal;
  }

  lemma SuffixOf(a: string, b: string)
    ensures (a + b)[|a|..] == b && (a + b)[|a|..|a + b|] == b
  {
  }

  lemma LineCuts(l: string, r: string, j: string)
    requires '|' !in l && '@' !in l && '|' !in r && '@' !in r && l != "" && r != "" && j != ""
    requires |l| < IP_STR_LEN && |r| < IP_STR_LEN && |j| < LINE_BUF_LEN
    ensures var s := l + "|" + r + "@users:(" + j;
            && SubStr(s, None, Some("|"), IP_STR_LEN) == Some(l)
            && SubStr(s, Some("|"), Some("@"), IP_STR_LEN) == Some(r)
            && SubStr(s, Some("@users:("), None, LINE_BUF_LEN) == Some(j)
  {
    LineFinds(l, r, j);
    hide Find;
    var s := l + "|" + r + "@users:(" + j;
    assert s[0..|l|] == l;
    assert s == (l + "|") + (r + ("@users:(" + j));
    Middle(l + "|", r, "@users:(" + j);
    SuffixOf(l + "|" + r + "@users:(", j);
  }

  lemma LineFinds(l: string, r: string, j: string)
    requires '|' !in l && '@' !in l && '|' !in r && '@' !in r
    ensures var s := l + "|" + r + "@users:(" + j;
            Find(s, "|") == |l| && Find(s, "@") == |l| + 1 + |r| && Find(s, "@users:(") == |l| + 1 + |r|
  {
    hide Find;
    var s := l + "|" + r + "@users:(" + j;
    var x := r + "@users:(" + j;
    assert s == l + ("|" + x);
    FindPasses(l, "|" + x, "|");
    FindHere("|", x);
    var a := l + "|" + r;
    assert s == a + ("@" + ("users:(" + j));
    FindPasses(a, "@" + ("users:(" + j), "@");
    FindHere("@", "users:(" + j);
    assert s == a + ("@users:(" + j);
    FindPasses(a, "@users:(" + j, "@users:(");
    FindHere("@users:(", j);
  }

  lemma DropLast(j: string, tail: string)
    requires |tail| <= 1
    ensures (j + ")" + tail)[..|j + ")" + tail| - 1] == j + if tail == "" then "" else ")"
  {
  }

  lemma UsersRead(us: seq<User>, tail: string)
    requires GoodUsers(us) && (tail == "" || tail == "\n")
    ensures var j := Joined(us) + ")" + tail;
            AddUsers([], Chunks(j[..|j| - 1])) == Capped(us)
  {
    hide GoodUser, Joined, Chunks, AddUsers, ChunkTexts, Capped;
    var rest := if tail == "" then "" else ")";
    DropLast(Joined(us), tail);
    ChunksJoined(us, rest);
    AddsAll([], us, rest);
    assert [] + us == us;
  }

  lemma LineRegroup(a: string, r: string, j: string, tail: string)
    ensures a + "|" + r + "@users:(" + j + ")" + tail == a + "|" + r + "@users:(" + (j + ")" + tail)
  {
  }

  lemma AddrReady(a: Addr)
    requires ValidAddr(a)
    ensures '|' !in AddrText(a) && '@' !in AddrText(a) && 0 < |AddrText(a)| < IP_STR_LEN
    ensures Address(AddrText(a)) == Some(a)
  {
    AddrTextClean(a);
    AddressReads(a);
  }

  lemma EstabFrom(s: string, l: string, r: string, j: string)
    requires SubStr(s, None, Some("|"), IP_STR_LEN) == Some(l)
    requires SubStr(s, Some("|"), Some("@"), IP_STR_LEN) == Some(r)
    requires SubStr(s, Some("@users:("), None, LINE_BUF_LEN) == Some(j)
    requires Address(l).Some? && Address(r).Some? && j != ""
    ensures EstabOf(s) == Some(Estab(Address(l).value, Address(r).value, AddUsers([], Chunks(j[..|j| - 1]))))
  {
    hide SubStr, Address, Chunks, AddUsers;
  }

  lemma LineParses(l: string, r: string, users: string, tail: string)
    requires '|' !in l && '@' !in l && '|' !in r && '@' !in r && l != "" && r != ""
    requires |l| < IP_STR_LEN && |r| < IP_STR_LEN && |users| + 1 + |tail| < LINE_BUF_LEN
    requires Address(l).Some? && Address(r).Some?
    ensures var j := users + ")" + tail;
            EstabOf(l + "|" + r + "@users:(" + users + ")" + tail)
            == Some(Estab(Address(l).value, Address(r).value, AddUsers([], Chunks(j[..|j| - 1]))))
  {
    hide SubStr, Address, Chunks, AddUsers, EstabOf;
    var j := users + ")" + tail;
    LineRegroup(l, r, users, tail);
    LineCuts(l, r, j);
    EstabFrom(l + "|" + r + "@users:(" + j, l, r, j);
  }

  /** The parser undoes the printer: addresses, ports, family and every user in order, up to the 32 that fit; with or
      without the newline. */
  lemma LineReadsBack(l: Addr, r: Addr, us: seq<User>, tail: string)
    requires ValidAddr(l) && ValidAddr(r) && GoodUsers(us)
    requires tail == "" || tail == "\n"
    requires |EstabLine(l, r, us, tail)| < LINE_BUF_LEN
    ensures EstabOf(EstabLine(l, r, us, tail)) == Some(Estab(l, r, Capped(us)))
  {
    hide AddrText, Address, Joined, Chunks, AddUsers, GoodUsers, Capped, EstabOf, ValidAddr;
    var a, b, j := AddrText(l), AddrText(r), Joined(us);
    AddrReady(l);
    AddrReady(r);
    LineParses(a, b, j, tail);
    assert AddUsers([], Chunks((j + ")" + tail)[..|j + ")" + tail| - 1])) == Capped(us) by {
      UsersRead(us, tail);
    }
  }

  /** A connection without a users column is not a record at all. */
  lemma NoUsersNoRecord(l: Addr, r: Addr, tail: string)
    requires ValidAddr(l) && ValidAddr(r) && (tail == "" || tail == "\n")
    ensures EstabOf(AddrText(l) + "|" + AddrText(r) + "@" + tail) == None
  {
    AddrTextClean(l);
    AddrTextClean(r);
    hide AddrText, Address, AddUsers, Chunks, Find;
    var a := AddrText(l) + "|" + AddrText(r);
    FindPasses(a, "@" + tail, "@users:(");
    FindIsFirst("@" + tail, "@users:(");
    assert AddrText(l) + "|" + AddrText(r) + "@" + tail == a + ("@" + tail);
  }
}
