/** The reader of listening sockets: one line of `ss` output becomes one listener, or none. */
module Listeners {
  import opened Options
  import opened Words
  import opened Numbers
  import opened Text
  import opened SsParser

  const PORT_MAX_NUM: nat := 65536

  datatype Listener = Listener(port: nat, comm: string, pid: nat, fd: nat)

  function Digits(r: Option<string>): Option<nat> {
    if r.None? || !DigitStr(r.value) then None else Some(Atoi(r.value))
  }

  /** The port stands between the address and the users. */
  function PortOf(s: string): Option<nat> {
    var p := Digits(SubStr(s, Some(if Find(s, "]:") >= 0 then "]:" else ":"), Some("users:"), PORT_LEN));
    if p.None? || p.value >= PORT_MAX_NUM then None else p
  }

  function ListenerOf(s: string): Option<Listener> {
    var port, comm := PortOf(s), SubStr(s, Some("((\""), Some("\",pid"), TASK_COMM_LEN);
    var pid := Digits(SubStr(s, Some("pid="), Some(",fd="), PID_LEN));
    var fd := Digits(SubStr(s, Some("fd="), Some("))"), FID_LEN));
    if port.None? || comm.None? || pid.None? || fd.None? then None
    else Some(Listener(port.value, comm.value, pid.value, fd.value))
  }

  method GetDigits(s: string, start: string, end: string, size: nat) returns (r: Option<nat>)
    requires NulFree(s)
    ensures r == Digits(SubStr(s, Some(start), Some(end), size))
  {
    hide SubStr, DigitStr, CStr;
    var buf := new char[size];
    var ok := GetSubStr(s, Some(start), Some(end), buf);
    if !ok {
      return None;
    }
    var d := IsDigitStr(CStr(buf[..]));
    if !d {
      return None;
    }
    return Some(Atoi(CStr(buf[..])));
  }

  method NewTlp(s: string) returns (r: Option<Listener>)
    requires NulFree(s)
    ensures r == ListenerOf(s)
  {
    hide SubStr, Find, Digits, CStr;
    var port;
    if Find(s, "]:") >= 0 {
      port := GetDigits(s, "]:", "users:", PORT_LEN);
    } else {
      port := GetDigits(s, ":", "users:", PORT_LEN);
    }
    if port.None? || port.value >= PORT_MAX_NUM {
      return None;
    }
    var comm := new char[TASK_COMM_LEN];
    var ok := GetSubStr(s, Some("((\""), Some("\",pid"), comm);
    if !ok {
      return None;
    }
    var pid := GetDigits(s, "pid=", ",fd=", PID_LEN);
    if pid.None? {
      return None;
    }
    var fd := GetDigits(s, "fd=", "))", FID_LEN);
    if fd.None? {
      return None;
    }
    return Some(Listener(port.value, CStr(comm[..]), pid.value, fd.value));
  }

  /** The port stands between the first separator, `]:` if there is one and the first colon if not, and the users; it is
      read exactly if it has 1 to 10 digits and fits the port range. */
  lemma PortIff(s: string, a: string, sep: string, p: string)
    requires a + sep + p <= s && Find(s, "users:") == |a| + |sep| + |p|
    requires if sep == "]:" then Find(s, "]:") == |a| else sep == ":" && Find(s, "]:") < 0 && Find(s, ":") == |a|
    ensures PortOf(s) == if 1 <= |p| <= 10 && DigitStr(p) && Atoi(p) < 65536 then Some(Atoi(p)) else None
  {
    hide Find, DigitStr, Atoi;
    assert s[|a| + |sep|..|a| + |sep| + |p|] == (a + sep + p)[|a| + |sep|..] == p;
  }

  // ---- what ss prints

  function ListenLine(a: Addr, us: seq<User>, tail: string): string {
    AddrText(a) + "users:(" + Joined(us) + ")" + tail
  }

  ghost predicate ListenAddr(a: Addr) {
    && ']' !in a.ip && (a.ipv4 ==> ':' !in a.ip)
    && '"' !in a.ip && '(' !in a.ip && ')' !in a.ip && ',' !in a.ip && '=' !in a.ip
    && a.port < PORT_MAX_NUM
    && !Occurs(AddrText(a), "users:")
  }

  const NAME_END := "\",pid"

  /** The process names the listener parser reads back from a line with a plain host or with a bracketed one. */
  ghost predicate ListenName(plain: bool, comm: string) {
    && 0 < |comm| < TASK_COMM_LEN
    && !(",pid" <= comm)
    && !Occurs(comm, NAME_END) && !Occurs(comm, "pid=") && !Occurs(comm, "fd=") && !Occurs(comm, "))")
    && (plain ==> !Occurs(comm, "]:"))
  }

  ghost predicate ListenUser(a: Addr, u: User) {
    ListenName(a.ipv4, u.comm) && u.pid < TWO32 && u.fd < TWO32
  }

  // The line around its first user: address and port, opening, name, numbers, rest.

  function Opening(y: string): string {
    "users:" + ("((\"" + y)
  }

  function ListenText(h: string, c: string, p: string, f: string, rest: string): string {
    h + Opening(c + FromPid(p, f, rest))
  }

  lemma OneSkipped(x: char, b: string, t: string)
    requires t != "" && !(t[1..] <= b)
    ensures Find([x] + b, t) == Shift(1, Find(b, t))
  {
    assert ([x] + b)[1..] == b;
    assert forall i :: 1 <= i <= |b| ==> ([x] + b)[i] == b[i - 1];
  }

  lemma AbsentBy(h: string, t: string, k: nat)
    requires k < |t| && t[k] !in h
    ensures !Occurs(h, t)
  {
    forall i: int
      ensures !At(h, t, i)
    {
      if 0 <= i && i + |t| <= |h| {
        assert h[i..i + |t|][k] == h[i + k];
      }
    }
  }

  /** A pattern that cannot begin in the opening nor straddle its ends; character `k` is one no address holds. */
  predicate Searchable(t: string, k: nat) {
    && k < |t| && 'u' !in t[1..] && '"' !in t[1..] && t[0] !in "users:((\""
  }

  lemma Patterns()
    ensures Searchable("pid=", 3) && Searchable(",fd=", 3) && Searchable("fd=", 2)
    ensures Searchable("))", 0) && Searchable("]:", 0)
  {
    assert "pid="[1..] == "id=" && ",fd="[1..] == "fd=" && "fd="[1..] == "d=" && "))"[1..] == ")" && "]:"[1..] == ":";
  }

  /** Everything before the name. */
  lemma LeadPassed(h: string, y: string, t: string, k: nat)
    requires Searchable(t, k) && t[k] !in h
    ensures Find(h + Opening(y), t) == Shift(|h| + 9, Find(y, t))
  {
    hide Find;
    AbsentBy(h, t, k);
    hide Occurs;
    var o := "users:((\"";
    assert Opening(y) == o + y;
    FindSkips(h, o + y, t);
    FindPasses(o, y, t);
  }

  /** Everything up to the quote behind the name. */
  lemma NamePassed(h: string, c: string, y: string, t: string, k: nat)
    requires Searchable(t, k) && t[k] !in h
    requires !Occurs(c, t) && y != "" && y[0] == '"'
    ensures Find(h + Opening(c + y), t) == Shift(|h| + 9 + |c|, Find(y, t))
  {
    hide Find, Occurs, Opening;
    LeadPassed(h, c + y, t, k);
    FindSkips(c, y, t);
  }

  /** The pattern is first met behind the text `q` after the name. */
  lemma MetBehind(h: string, c: string, q: string, t: string, x: string, k: nat)
    requires Searchable(t, k) && t[k] !in h && !Occurs(c, t)
    requires q != "" && q[0] == '"' && t != "" && t[0] !in q
    ensures Find(h + Opening(c + (q + (t + x))), t) == |h| + 9 + |c| + |q|
  {
    hide Find, Occurs, Opening, Searchable;
    FindPasses(q, t + x, t);
    FindHere(t, x);
    NamePassed(h, c, q + (t + x), t, k);
  }

  lemma FindsUsers(h: string, y: string)
    requires !Occurs(h, "users:")
    ensures Find(h + Opening(y), "users:") == |h|
  {
    hide Find, Occurs;
    var t := "users:";
    assert t[1..] == "sers:";
    FindSkips(h, Opening(y), t);
    FindHere(t, "((\"" + y);
  }

  lemma FindsOpening(h: string, y: string)
    requires '(' !in h
    ensures Find(h + Opening(y), "((\"") == |h| + 6
  {
    hide Find;
    var t := "((\"";
    FindPasses(h, Opening(y), t);
    FindPasses("users:", t + y, t);
    FindHere(t, y);
  }

  lemma ToQuote(h: string, y: string)
    requires '"' !in h
    ensures Find(h + Opening(y), NAME_END) == Shift(|h| + 8, Find(['"'] + y, NAME_END))
  {
    hide Find;
    var o := "users:((";
    assert Opening(y) == o + (['"'] + y);
    FindPasses(h, o + (['"'] + y), NAME_END);
    FindPasses(o, ['"'] + y, NAME_END);
  }

  /** A pattern without a quote begins a text with one only if it begins what is before the quote. */
  lemma QuoteBreaks(c: string, z: string, t: string)
    requires z != "" && z[0] == '"' && '"' !in t
    ensures t <= c + z <==> t <= c
  {
    assert (c + z)[|c|] == '"';
  }

  lemma FromQuote(c: string, x: string, t: string)
    requires |t| >= 2 && '"' !in t[1..] && t[0] == '"'
    requires !(t[1..] <= c) && !Occurs(c, t)
    ensures Find(['"'] + (c + (t + x)), t) == 1 + |c|
  {
    hide Find, Occurs;
    var z := t + x;
    QuoteBreaks(c, z, t[1..]);
    OneSkipped('"', c + z, t);
    FindSkips(c, z, t);
    FindHere(t, x);
  }

  lemma FindsNameEnd(h: string, c: string, x: string)
    requires '"' !in h && !(",pid" <= c) && !Occurs(c, NAME_END)
    ensures Find(h + Opening(c + (NAME_END + x)), NAME_END) == |h| + 9 + |c|
  {
    assert NAME_END[1..] == ",pid" && NAME_END[0] == '"';
    hide *;
    ToQuote(h, c + (NAME_END + x));
    FromQuote(c, x, NAME_END);
    ShiftOf(|h| + 8, 1 + |c|);
  }

  lemma ShiftOf(n: nat, r: nat)
    ensures Shift(n, r) == n + r
  {
  }

  lemma FindsPidIn(h: string, c: string, x: string)
    requires '=' !in h && !Occurs(c, "pid=")
    ensures Find(h + Opening(c + ("\"," + ("pid=" + x))), "pid=") == |h| + |c| + 11
  {
    hide *;
    Patterns();
    MetBehind(h, c, "\",", "pid=", x, 3);
  }

  lemma CommaFdAfterName(p: string, x: string)
    requires Plain(p)
    ensures Find("\"," + ("pid=" + (p + (",fd=" + x))), ",fd=") == |p| + 6
  {
    hide Find, Plain;
    QuoteSkipped("pid=" + (p + (",fd=" + x)), ",fd=");
    FindsAfterPid(p, ",fd=", x);
  }

  lemma FindsCommaFd(h: string, c: string, p: string, x: string)
    requires '=' !in h && !Occurs(c, ",fd=") && Plain(p)
    ensures Find(h + Opening(c + ("\"," + ("pid=" + (p + (",fd=" + x))))), ",fd=") == |h| + |c| + |p| + 15
  {
    hide *;
    Patterns();
    CommaFdAfterName(p, x);
    NamePassed(h, c, "\"," + ("pid=" + (p + (",fd=" + x))), ",fd=", 3);
    ShiftOf(|h| + 9 + |c|, |p| + 6);
  }

  lemma NumberQuiet(p: string)
    requires Plain(p)
    ensures var q := "\",pid=" + p + ","; 'f' !in q && |q| == |p| + 7 && q[0] == '"'
  {
  }

  lemma FindsFdIn(h: string, c: string, p: string, x: string)
    requires '=' !in h && !Occurs(c, "fd=") && Plain(p)
    ensures Find(h + Opening(c + (("\",pid=" + p + ",") + ("fd=" + x))), "fd=") == |h| + |c| + |p| + 16
  {
    hide *;
    Patterns();
    NumberQuiet(p);
    MetBehind(h, c, "\",pid=" + p + ",", "fd=", x, 2);
  }

  /** The double parenthesis can only come behind the first user. */
  lemma FindsClose(h: string, c: string, n: string, rest: string)
    requires ')' !in h && !Occurs(c, "))") && ')' !in n && n != "" && n[0] == '"'
    ensures Find(h + Opening(c + (n + (")" + rest))), "))") == Shift(|h| + 9 + |c| + |n|, Find(")" + rest, "))"))
  {
    hide Find, Occurs, Opening, Searchable;
    Patterns();
    FindPasses(n, ")" + rest, "))");
    NamePassed(h, c, n + (")" + rest), "))", 0);
  }

  lemma NoBracketColon(h: string, c: string, y: string)
    requires ']' !in h && !Occurs(c, "]:") && ']' !in y && y != "" && y[0] == '"'
    ensures Find(h + Opening(c + y), "]:") == -1
  {
    hide Find, Occurs, Opening, Searchable;
    Patterns();
    FindNowhere(y, "]:");
    NamePassed(h, c, y, "]:", 0);
  }

  // ---- the fields of a line

  lemma NumbersRegroup(p: string, f: string, rest: string)
    ensures var y, x := FromPid(p, f, rest), f + (")" + rest);
            && y == NAME_END + ("=" + (p + FromFd(f, rest)))
            && y == "\"," + ("pid=" + (p + (",fd=" + x)))
            && y == ("\",pid=" + p + ",") + ("fd=" + x)
            && y == ("\",pid=" + p + ",fd=" + f) + (")" + rest)
  {
    var x := f + (")" + rest);
    assert FromFd(f, rest) == ",fd=" + x;
    assert FromPid(p, f, rest) == "\",pid=" + (p + (",fd=" + x));
  }

  ghost predicate Quiet(h: string) {
    '"' !in h && '(' !in h && ')' !in h && '=' !in h && !Occurs(h, "users:")
  }

  lemma FieldFinds(h: string, c: string, p: string, f: string, rest: string)
    requires Quiet(h) && ListenName(false, c) && Plain(p) && Plain(f)
    ensures var s := ListenText(h, c, p, f, rest);
            && Find(s, "users:") == |h| && Find(s, "((\"") == |h| + 6 && Find(s, NAME_END) == |h| + 9 + |c|
            && Find(s, "pid=") == |h| + |c| + 11 && Find(s, ",fd=") == |h| + |c| + |p| + 15
            && Find(s, "fd=") == |h| + |c| + |p| + 16
  {
    NameQuiet(c);
    hide Find, Occurs, Opening, FromPid, Plain;
    NumbersRegroup(p, f, rest);
    var x := f + (")" + rest);
    FindsUsers(h, c + FromPid(p, f, rest));
    FindsOpening(h, c + FromPid(p, f, rest));
    FindsNameEnd(h, c, "=" + (p + FromFd(f, rest)));
    FindsPidIn(h, c, p + (",fd=" + x));
    FindsCommaFd(h, c, p, x);
    FindsFdIn(h, c, p, x);
  }

  lemma NameQuiet(c: string)
    requires ListenName(false, c)
    ensures !Occurs(c, ",fd=")
  {
    forall i: int
      ensures At(c, ",fd=", i) ==> At(c, "fd=", i + 1)
    {
      if At(c, ",fd=", i) {
        assert c[i + 1..i + 4] == c[i..i + 4][1..];
      }
    }
  }

  lemma FieldSlices(h: string, c: string, p: string, f: string, rest: string)
    ensures var s := ListenText(h, c, p, f, rest);
            && |s| >= |h| + |c| + |p| + |f| + 20
            && s[|h| + 9..|h| + 9 + |c|] == c
            && s[|h| + |c| + 15..|h| + |c| + |p| + 15] == p
            && s[|h| + |c| + |p| + 19..|h| + |c| + |p| + 19 + |f|] == f
            && s[|h| + |c| + |p| + |f| + 19] == ')'
  {
    hide FromPid;
    var s := ListenText(h, c, p, f, rest);
    var a := h + "users:((\"";
    assert s == a + (c + FromPid(p, f, rest));
    Middle(a, c, FromPid(p, f, rest));
    NumbersRegroup(p, f, rest);
    var b := a + c + "\",pid=";
    assert s == b + (p + (",fd=" + (f + (")" + rest))));
    Middle(b, p, ",fd=" + (f + (")" + rest)));
    var d := b + p + ",fd=";
    assert s == d + (f + (")" + rest));
    Middle(d, f, ")" + rest);
    assert s[|d| + |f|] == (f + (")" + rest))[|f|];
  }

  lemma FieldsCut(h: string, c: string, p: string, f: string, rest: string)
    requires Quiet(h) && ListenName(false, c) && Plain(p) && Plain(f) && |p| < PID_LEN
    ensures var s := ListenText(h, c, p, f, rest);
            && SubStr(s, Some("((\""), Some(NAME_END), TASK_COMM_LEN) == Some(c)
            && SubStr(s, Some("pid="), Some(",fd="), PID_LEN) == Some(p)
  {
    hide Find, Occurs, ListenText, DigitStr;
    FieldFinds(h, c, p, f, rest);
    FieldSlices(h, c, p, f, rest);
  }

  lemma CloseFound(h: string, c: string, p: string, f: string, rest: string)
    requires Quiet(h) && ListenName(false, c) && Plain(p) && Plain(f)
    ensures Find(ListenText(h, c, p, f, rest), "))") == Shift(|h| + |c| + |p| + |f| + 19, Find(")" + rest, "))"))
  {
    var n := "\",pid=" + p + ",fd=" + f;
    assert ')' !in n && n[0] == '"' && |n| == |p| + |f| + 10;
    hide Find, Occurs, Opening, FromPid, Plain, DigitStr;
    NumbersRegroup(p, f, rest);
    FindsClose(h, c, n, rest);
  }

  /** With a single user the descriptor ends at the double parenthesis behind it. */
  lemma SingleFd(h: string, c: string, p: string, f: string, tail: string)
    requires Quiet(h) && ListenName(false, c) && Plain(p) && Plain(f) && |f| < FID_LEN
    ensures SubStr(ListenText(h, c, p, f, ")" + tail), Some("fd="), Some("))"), FID_LEN) == Some(f)
  {
    hide Find, Occurs, ListenText, DigitStr;
    FieldFinds(h, c, p, f, ")" + tail);
    FieldSlices(h, c, p, f, ")" + tail);
    CloseFound(h, c, p, f, ")" + tail);
    assert ")" + (")" + tail) == "))" + tail;
    FindHere("))", tail);
  }

  /** With more users it runs on behind the first one, and is no number. */
  lemma SharedFd(h: string, c: string, p: string, f: string, more: string)
    requires Quiet(h) && ListenName(false, c) && Plain(p) && Plain(f)
    ensures Digits(SubStr(ListenText(h, c, p, f, "," + more), Some("fd="), Some("))"), FID_LEN)).None?
  {
    var rest := "," + more;
    NotAtOnce(rest);
    hide Find, Occurs, ListenText, Plain, Atoi;
    FieldFinds(h, c, p, f, rest);
    FieldSlices(h, c, p, f, rest);
    CloseFound(h, c, p, f, rest);
    var s := ListenText(h, c, p, f, rest);
    var i, j := |h| + |c| + |p| + 19, Find(s, "))");
    assert j >= 0 ==> j > i + |f| && s[i..j][|f|] == ')';
  }

  lemma NotAtOnce(rest: string)
    requires rest != "" && rest[0] == ','
    ensures Find(")" + rest, "))") != 0
  {
    assert (")" + rest)[1] == ',';
    FindIsFirst(")" + rest, "))");
    assert (")" + rest)[0..2] == ")" + [','];
  }

  // ---- whole lines

  lemma HostQuiet(a: Addr)
    requires ListenAddr(a)
    ensures Quiet(AddrText(a))
  {
    DecimalDigits(a.port);
    hide Decimal, Occurs;
  }

  lemma PortCut(a: string, t: string, p: string, o: string)
    requires t != "" && t[0] !in a && Plain(p) && |p| < PORT_LEN
    requires Find(a + (t + (p + o)), "users:") == |a| + |t| + |p|
    ensures SubStr(a + (t + (p + o)), Some(t), Some("users:"), PORT_LEN) == Some(p)
    ensures Find(a + (t + (p + o)), t) == |a|
  {
    hide Find, DigitStr;
    FindPasses(a, t + (p + o), t);
    FindHere(t, p + o);
    assert a + (t + (p + o)) == (a + t) + (p + o);
    Middle(a + t, p, o);
  }

  lemma Regroup4(a: string, t: string, p: string, o: string)
    ensures a + t + p + o == a + (t + (p + o))
  {
  }

  lemma BracketedHost(ip: string, p: string)
    ensures "[" + ip + "]" + ":" + p == ("[" + ip) + "]:" + p
  {
  }

  lemma NoBracketInNumbers(p: string, f: string, tail: string)
    requires Plain(p) && Plain(f) && ']' !in tail
    ensures ']' !in FromPid(p, f, tail) && FromPid(p, f, tail) != "" && FromPid(p, f, tail)[0] == '"'
  {
  }

  lemma PlainHost(a: Addr)
    requires ListenAddr(a) && a.ipv4
    ensures ']' !in AddrText(a)
  {
    DecimalDigits(a.port);
    hide Decimal;
  }

  lemma PortReads(a: Addr, c: string, p: string, f: string, tail: string)
    requires ListenAddr(a) && ListenName(a.ipv4, c) && Plain(p) && Plain(f) && ']' !in tail
    ensures PortOf(ListenText(AddrText(a), c, p, f, tail)) == Some(a.port)
  {
    var h, y := AddrText(a), c + FromPid(p, f, tail);
    HostQuiet(a);
    WordLength(a.port);
    DecimalDigits(a.port);
    AtoiDecimal(a.port);
    NoBracketInNumbers(p, f, tail);
    if a.ipv4 {
      PlainHost(a);
    }
    hide Find, Occurs, Opening, Decimal, Atoi, FromPid, SubStr, DigitStr;
    FindsUsers(h, y);
    if a.ipv4 {
      NoBracketColon(h, c, FromPid(p, f, tail));
      Regroup4(a.ip, ":", Decimal(a.port), Opening(y));
      PortCut(a.ip, ":", Decimal(a.port), Opening(y));
    } else {
      var o := "[" + a.ip;
      BracketedHost(a.ip, Decimal(a.port));
      Regroup4(o, "]:", Decimal(a.port), Opening(y));
      PortCut(o, "]:", Decimal(a.port), Opening(y));
    }
  }

  lemma LineShape(h: string, c: string, y: string, e: string, j: string, tail: string, rest: string)
    requires e + rest == "(\"" + (c + y) && j + ")" + tail == e + rest
    ensures h + "users:(" + j + ")" + tail == h + Opening(c + y)
  {
    var z := c + y;
    assert "users:(" + ("(\"" + z) == Opening(z);
    LineTail(h, "users:(", j, ")", tail);
  }

  lemma LineTail(h: string, o: string, j: string, p: string, tail: string)
    ensures h + o + j + p + tail == h + (o + (j + p + tail))
  {
  }

  /** A line is its text around the first user. */
  lemma LineText(a: Addr, us: seq<User>, tail: string)
    requires us != []
    ensures ListenLine(a, us, tail)
            == ListenText(AddrText(a), us[0].comm, Decimal(us[0].pid), Decimal(us[0].fd),
                          if |us| == 1 then ")" + tail else "," + (Joined(us[1..]) + ")" + tail))
  {
    hide AddrText, Decimal, EntryText, FromPid, Opening, Joined;
    var u := us[0];
    var rest := if |us| == 1 then ")" + tail else "," + (Joined(us[1..]) + ")" + tail);
    JoinedFirst(us, tail);
    EntryIsChunk(u, rest);
    LineShape(AddrText(a), u.comm, FromPid(Decimal(u.pid), Decimal(u.fd), rest), EntryText(u), Joined(us), tail, rest);
  }

  lemma Regroup5(e: string, c: string, j: string, p: string, tail: string)
    ensures e + c + j + p + tail == e + (c + (j + p + tail))
    ensures e + p + tail == e + (p + tail)
  {
  }

  lemma JoinedFirst(us: seq<User>, tail: string)
    requires us != []
    ensures Joined(us) + ")" + tail
            == EntryText(us[0]) + if |us| == 1 then ")" + tail else "," + (Joined(us[1..]) + ")" + tail)
  {
    hide EntryText;
    Regroup5(EntryText(us[0]), ",", Joined(us[1..]), ")", tail);
  }

  lemma AnyHost(plain: bool, c: string)
    requires ListenName(plain, c)
    ensures ListenName(false, c)
  {
  }

  /** A socket with one user becomes a listener with the printed port, name and numbers. */
  lemma SingleListener(a: Addr, u: User, tail: string)
    requires ListenAddr(a) && ListenUser(a, u) && ']' !in tail
    ensures ListenerOf(ListenLine(a, [u], tail)) == Some(Listener(a.port, u.comm, u.pid, u.fd))
  {
    var h, c, p, f := AddrText(a), u.comm, Decimal(u.pid), Decimal(u.fd);
    hide AddrText, Decimal, ListenLine, ListenText, SubStr, PortOf, Atoi, DigitStr, ListenAddr, ListenName;
    hide Plain, Quiet;
    HostQuiet(a);
    AnyHost(a.ipv4, c);
    LineText(a, [u], tail);
    NumberReady(u.pid);
    NumberReady(u.fd);
    PortReads(a, c, p, f, ")" + tail);
    FieldsCut(h, c, p, f, ")" + tail);
    SingleFd(h, c, p, f, tail);
  }

  /** A socket shared by several processes is not recorded at all. */
  lemma SharedListenerIsLost(a: Addr, us: seq<User>, tail: string)
    requires ListenAddr(a) && |us| > 1 && ListenUser(a, us[0])
    ensures ListenerOf(ListenLine(a, us, tail)) == None
  {
    HostQuiet(a);
    LineText(a, us, tail);
    DecimalDigits(us[0].pid);
    DecimalDigits(us[0].fd);
    hide AddrText, Decimal, ListenLine, ListenText, SubStr, PortOf, Digits, DigitStr, ListenAddr, ListenName, Joined;
    SharedFd(AddrText(a), us[0].comm, Decimal(us[0].pid), Decimal(us[0].fd), Joined(us[1..]) + ")" + tail);
  }

  // ---- and only these names

  ghost predicate ListenReadsBack(a: Addr, comm: string, pid: nat, fd: nat, tail: string) {
    ListenerOf(ListenLine(a, [User(comm, pid, fd)], tail)) == Some(Listener(a.port, comm, pid, fd))
  }

  /** What the lines of one name have in common, up to the quote behind it. */
  function Lead(h: string, comm: string): string {
    h + Opening(comm + "\"")
  }

  lemma LeadLeads(a: Addr, u: User, tail: string)
    ensures var s, q := ListenLine(a, [u], tail), Lead(AddrText(a), u.comm);
            q <= s && |q| == |AddrText(a)| + |u.comm| + 10 && q[|q| - 1] == '"'
  {
    hide AddrText, Decimal;
    var y := ",pid=" + Decimal(u.pid) + ",fd=" + Decimal(u.fd) + "))" + tail;
    assert ListenLine(a, [u], tail) == Lead(AddrText(a), u.comm) + y;
  }

  /** What is in the name is in the line. */
  lemma InLead(h: string, comm: string, s: string, t: string, i: int)
    requires Lead(h, comm) <= s && At(comm, t, i)
    ensures 0 <= Find(s, t) <= |h| + 9 + i && i + |t| <= |comm|
  {
    var o := h + "users:((\"";
    assert Lead(h, comm) == o + comm + "\"";
    AtInside(o, comm, "\"", t, i);
    AtPrefix(Lead(h, comm), s, t, |o| + i);
    FindIsFirst(s, t);
  }

  lemma QuoteOutside(s: string, t: string, j: int, k: nat)
    requires At(s, t, j) && k < |s| && s[k] == '"' && '"' !in t
    ensures k < j || j + |t| <= k
  {
    assert forall m :: 0 <= m < |t| ==> s[j + m] == t[m];
  }

  /** A number cut out between two patterns the first of which is met before a common quote is the same in both texts:
      it cannot reach over the quote. */
  lemma NumberFixed(q: string, s: string, s': string, start: string, end: string, size: nat)
    requires q <= s && q <= s' && q != "" && q[|q| - 1] == '"' && '"' !in end && end != ""
    requires 0 <= Find(s, start) && Find(s, start) + |start| < |q|
    requires SubStr(s, Some(start), Some(end), size).Some?
    requires DigitStr(SubStr(s, Some(start), Some(end), size).value)
    ensures SubStr(s', Some(start), Some(end), size) == SubStr(s, Some(start), Some(end), size)
  {
    var i, j, k := Find(s, start) + |start|, Find(s, end), |q| - 1;
    FindIsFirst(s, end);
    hide Find;
    assert s[k] == '"';
    QuoteOutside(s, end, j, k);
    if j > k {
      QuoteIsNoDigit(s, i, j, k);
    }
    CutStable(q, s, s', start, end, size);
  }

  lemma EndsAtOnce(h: string, comm: string, s: string)
    requires Lead(h, comm) <= s && ",pid" <= comm
    ensures At(s, NAME_END, |h| + 8)
  {
    var o, rest := h + "users:((", comm[4..] + "\"";
    assert comm == ",pid" + comm[4..];
    assert Lead(h, comm) == o + NAME_END + rest;
    assert NAME_END[0..5] == NAME_END;
    AtInside(o, NAME_END, rest, NAME_END, 0);
    AtPrefix(Lead(h, comm), s, NAME_END, |o|);
  }

  lemma NameCut(h: string, comm: string, s: string)
    requires Lead(h, comm) <= s && '(' !in h
    requires SubStr(s, Some("((\""), Some(NAME_END), TASK_COMM_LEN) == Some(comm)
    ensures 0 < |comm| < TASK_COMM_LEN && !(",pid" <= comm) && !Occurs(comm, NAME_END)
  {
    var y := s[|h| + 9..];
    assert s == h + Opening(y);
    FindsOpening(h, y);
    hide Find;
    if ",pid" <= comm {
      EndsAtOnce(h, comm, s);
      FindIsFirst(s, NAME_END);
    }
    if Occurs(comm, NAME_END) {
      var i :| At(comm, NAME_END, i);
      InLead(h, comm, s, NAME_END, i);
    }
  }

  lemma NumbersCut(h: string, comm: string, s: string, s': string)
    requires Lead(h, comm) <= s && Lead(h, comm) <= s'
    requires Digits(SubStr(s, Some("pid="), Some(",fd="), PID_LEN)) == Some(0)
    requires Digits(SubStr(s', Some("pid="), Some(",fd="), PID_LEN)) == Some(1)
    requires Digits(SubStr(s, Some("fd="), Some("))"), FID_LEN)) == Some(0)
    requires Digits(SubStr(s', Some("fd="), Some("))"), FID_LEN)) == Some(1)
    ensures !Occurs(comm, "pid=") && !Occurs(comm, "fd=") && !Occurs(comm, "))")
  {
    var q := Lead(h, comm);
    assert |q| == |h| + |comm| + 10 && q[|q| - 1] == '"';
    hide Find, SubStr, DigitStr, Atoi, Lead, At;
    if Occurs(comm, "pid=") {
      var i :| At(comm, "pid=", i);
      InLead(h, comm, s, "pid=", i);
      NumberFixed(q, s, s', "pid=", ",fd=", PID_LEN);
    }
    if Occurs(comm, "fd=") {
      var i :| At(comm, "fd=", i);
      InLead(h, comm, s, "fd=", i);
      NumberFixed(q, s, s', "fd=", "))", FID_LEN);
    }
    if Occurs(comm, "))") {
      var i :| At(comm, "))", i);
      InLead(h, comm, s, "))", i);
      CutStable(q, s, s', "fd=", "))", FID_LEN);
    }
  }

  lemma PlainPortCut(h: string, comm: string, s: string)
    requires Lead(h, comm) <= s && ']' !in h && !Occurs(h, "users:") && PortOf(s).Some?
    ensures !Occurs(comm, "]:")
  {
    var y := s[|h| + 9..];
    assert s == h + Opening(y);
    FindsUsers(h, y);
    Patterns();
    LeadPassed(h, y, "]:", 0);
    hide Find;
    if Occurs(comm, "]:") {
      var i :| At(comm, "]:", i);
      InLead(h, comm, s, "]:", i);
    }
  }

  lemma NotBothListen(a: Addr, comm: string, tail: string)
    requires ListenAddr(a) && ListenReadsBack(a, comm, 0, 0, tail) && ListenReadsBack(a, comm, 1, 1, tail)
    ensures ListenName(a.ipv4, comm)
  {
    var h, s, s' := AddrText(a), ListenLine(a, [User(comm, 0, 0)], tail), ListenLine(a, [User(comm, 1, 1)], tail);
    HostQuiet(a);
    LeadLeads(a, User(comm, 0, 0), tail);
    LeadLeads(a, User(comm, 1, 1), tail);
    if a.ipv4 {
      PlainHost(a);
    }
    hide AddrText, ListenLine, ListenAddr, Find, SubStr, Lead, PortOf, Digits, Occurs;
    NameCut(h, comm, s);
    NumbersCut(h, comm, s, s');
    if a.ipv4 {
      PlainPortCut(h, comm, s);
    }
  }

  /** A name reads back from a line of its own with every pair of numbers exactly if it is one of `ListenName`. */
  lemma ListenNameIff(a: Addr, comm: string, tail: string)
    requires ListenAddr(a) && ']' !in tail
    ensures (forall pid: nat, fd: nat | pid < TWO32 && fd < TWO32 :: ListenReadsBack(a, comm, pid, fd, tail))
            <==> ListenName(a.ipv4, comm)
  {
    hide ListenName, ListenAddr, ListenReadsBack;
    if ListenName(a.ipv4, comm) {
      forall pid: nat, fd: nat | pid < TWO32 && fd < TWO32
        ensures ListenReadsBack(a, comm, pid, fd, tail)
      {
        ListenOne(a, comm, pid, fd, tail);
      }
    } else if ListenReadsBack(a, comm, 0, 0, tail) && ListenReadsBack(a, comm, 1, 1, tail) {
      NotBothListen(a, comm, tail);
    }
  }

  lemma ListenOne(a: Addr, comm: string, pid: nat, fd: nat, tail: string)
    requires ListenAddr(a) && ListenUser(a, User(comm, pid, fd)) && ']' !in tail
    ensures ListenReadsBack(a, comm, pid, fd, tail)
  {
    hide ListenerOf, ListenLine, ListenAddr, ListenUser;
    SingleListener(a, User(comm, pid, fd), tail);
  }
}
