/** The Redis request recogniser of the ksli probe and the client's request printer it has to undo. */
module Resp {
  import opened Words
  import opened Numbers

  const REQ_SIZE: nat := 31
  /** The scan stops two characters before the end of its buffer. */
  const SCAN: nat := 29

  datatype Find = MsgStart | ParmNum | CmdLen | CmdStr | ErrStop | OkStop | BadCommand

  function ZeroCommand(): (s: string)
    ensures |s| == REQ_SIZE && forall i :: 0 <= i < REQ_SIZE ==> s[i] == '\0'
  {
    Repeat('\0', REQ_SIZE)
  }

  /** The recogniser's registers: state, write index and command buffer. */
  datatype Scanner = Scanner(find: Find, j: nat, command: string)

  predicate Digit(c: char) {
    '0' <= c <= '9'
  }

  predicate Letter(c: char) {
    'a' <= c <= 'z' || 'A' <= c <= 'Z'
  }

  function Upper(c: char): char {
    if 'a' <= c <= 'z' then (c as int - 32) as char else c
  }

  function UpperAll(s: string): (r: string)
    ensures |r| == |s|
  {
    seq(|s|, i requires 0 <= i < |s| => Upper(s[i]))
  }

  /** The automaton on one character; a stopped state stays, and so does the one after an illegal command character. */
  function Next(s: Scanner, c: char): Scanner
    requires s.j < |s.command|
  {
    match s.find
    case MsgStart => s.(find := if c == '*' then ParmNum else ErrStop)
    case ParmNum =>
      if Digit(c) || c == '\r' || c == '\n' then s else s.(find := if c == '$' then CmdLen else ErrStop)
    case CmdLen =>
      if Digit(c) || c == '\r' then s else s.(find := if c == '\n' then CmdStr else ErrStop)
    case CmdStr =>
      if Letter(c) then s.(command := s.command[s.j := Upper(c)], j := s.j + 1)
      else s.(find := if c == '\r' || c == '\n' then OkStop else BadCommand)
    case _ => s
  }

  /** The scan of a whole string; the command buffer is longer than the string. */
  function Scan(s: Scanner, msg: string): (r: Scanner)
    requires s.j + |msg| < |s.command|
    ensures |r.command| == |s.command| && r.j <= s.j + |msg|
    decreases |msg|
  {
    if msg == "" then s else Scan(Next(s, msg[0]), msg[1..])
  }

  method ParseChar(c: char, find: Find, j: nat, command: array<char>) returns (find': Find, j': nat)
    requires j < command.Length
    modifies command
    ensures Scanner(find', j', command[..]) == Next(Scanner(find, j, old(command[..])), c)
  {
    find', j' := find, j;
    match find
    case MsgStart =>
      find' := if c == '*' then ParmNum else ErrStop;
    case ParmNum =>
      if Digit(c) || c == '\r' || c == '\n' {
      } else if c == '$' {
        find' := CmdLen;
      } else {
        find' := ErrStop;
      }
    case CmdLen =>
      if Digit(c) || c == '\r' {
      } else if c == '\n' {
        find' := CmdStr;
      } else {
        find' := ErrStop;
      }
    case CmdStr =>
      var msgChar := if c >= 'a' then c as int - 32 else c as int;
      if 'A' as int <= msgChar <= 'Z' as int {
        command[j] := msgChar as char;
        j' := j + 1;
      } else if msgChar == '\r' as int || msgChar == '\n' as int {
        find' := OkStop;
      } else {
        find' := BadCommand;
      }
    case _ =>
  }

  /** Runs the automaton over the first `SCAN` characters; the write index stays inside the command buffer. */
  method IdentifyRedis(msg: seq<char>, command: array<char>) returns (ok: bool)
    requires |msg| == REQ_SIZE && command.Length == REQ_SIZE
    modifies command
    ensures var r := Scan(Scanner(MsgStart, 0, old(command[..])), msg[..SCAN]);
            ok == r.find.OkStop? && command[..] == r.command
  {
    hide Next;
    var j: nat, find := 0, MsgStart;
    ghost var goal := Scan(Scanner(MsgStart, 0, command[..]), msg[..SCAN]);
    assert msg[..SCAN] == msg[0..SCAN];
    var i := 0;
    while i < SCAN
      invariant 0 <= i <= SCAN && j <= i
      invariant goal == Scan(Scanner(find, j, command[..]), msg[i..SCAN])
    {
      assert msg[i..SCAN][0] == msg[i] && msg[i..SCAN][1..] == msg[i + 1..SCAN];
      NextIndex(Scanner(find, j, command[..]), msg[i]);
      find, j := ParseChar(msg[i], find, j, command);
      i := i + 1;
    }
    ok := find.OkStop?;
  }

  lemma NextIndex(s: Scanner, c: char)
    requires s.j < |s.command|
    ensures Next(s, c).j <= s.j + 1 && |Next(s, c).command| == |s.command|
  {
  }

  // ---- the language

  predicate AllIn(s: string, p: char -> bool) {
    forall i :: 0 <= i < |s| ==> p(s[i])
  }

  const COUNT_CHARS := (c: char) => Digit(c) || c == '\r' || c == '\n'
  const LENGTH_CHARS := (c: char) => Digit(c) || c == '\r'
  const LETTERS := (c: char) => Letter(c)

  /** `*` counts `$` length newline letters, then a line end and anything behind it. */
  ghost predicate Request(s: string, a: string, b: string, cmd: string, end: char, rest: string) {
    && s == "*" + a + "$" + b + "\n" + cmd + [end] + rest
    && AllIn(a, COUNT_CHARS) && AllIn(b, LENGTH_CHARS) && AllIn(cmd, LETTERS)
    && (end == '\r' || end == '\n')
  }

  lemma {:induction false} ScanAppend(s: Scanner, a: string, b: string)
    requires s.j + |a| + |b| < |s.command|
    ensures Scan(s, a + b) == Scan(Scan(s, a), b)
    decreases |a|
  {
    hide Next;
    if a == "" {
      assert a + b == b;
    } else {
      assert (a + b)[1..] == a[1..] + b;
      NextIndex(s, a[0]);
      ScanAppend(Next(s, a[0]), a[1..], b);
    }
  }

  lemma {:induction false} Stays(s: Scanner, a: string)
    requires s.j + |a| < |s.command|
    requires (s.find.ParmNum? && AllIn(a, COUNT_CHARS)) || (s.find.CmdLen? && AllIn(a, LENGTH_CHARS))
          || s.find.OkStop? || s.find.ErrStop? || s.find.BadCommand?
    ensures Scan(s, a) == s
    decreases |a|
  {
    if a != "" {
      Stays(s, a[1..]);
    }
  }

  lemma {:induction false} CopiesLetters(s: Scanner, cmd: string)
    requires s.find.CmdStr? && s.j + |cmd| < |s.command| && AllIn(cmd, LETTERS)
    ensures Scan(s, cmd) == Scanner(CmdStr, s.j + |cmd|, s.command[..s.j] + UpperAll(cmd) + s.command[s.j + |cmd|..])
    decreases |cmd|
  {
    if cmd == "" {
      assert s.command[..s.j] + UpperAll(cmd) + s.command[s.j..] == s.command;
    } else {
      var n := Next(s, cmd[0]);
      CopiesLetters(n, cmd[1..]);
      assert UpperAll(cmd) == [Upper(cmd[0])] + UpperAll(cmd[1..]);
      assert n.command[..n.j] == s.command[..s.j] + [Upper(cmd[0])];
      assert n.command[n.j + |cmd[1..]|..] == s.command[s.j + |cmd|..];
    }
  }

  /** A request of the language is accepted, and its letters in upper case overwrite the front of the command buffer. */
  lemma AcceptsRequest(command: string, s: string, a: string, b: string, cmd: string, end: char, rest: string)
    requires Request(s, a, b, cmd, end, rest) && |s| < |command|
    ensures var r := Scan(Scanner(MsgStart, 0, command), s);
            r.find.OkStop? && r.command == UpperAll(cmd) + command[|cmd|..]
  {
    hide Scan, Next, AllIn;
    HeaderScans(command, a, b, cmd + ([end] + rest));
    Nested(a, b, cmd, [end], rest);
    var s3 := Scanner(CmdStr, 0, command);
    CopiesLetters(s3, cmd);
    ScanAppend(s3, cmd, [end] + rest);
    var after := UpperAll(cmd) + command[|cmd|..];
    assert command[..0] + UpperAll(cmd) + command[|cmd|..] == after;
    var s4 := Scanner(CmdStr, |cmd|, after);
    Moves(s4, end, rest, s4.(find := OkStop));
    Stays(s4.(find := OkStop), rest);
  }

  /** The part in front of the command leaves the scanner at the command with an untouched buffer. */
  lemma HeaderScans(command: string, a: string, b: string, t3: string)
    requires 3 + |a| + |b| + |t3| < |command|
    requires AllIn(a, COUNT_CHARS) && AllIn(b, LENGTH_CHARS)
    ensures Scan(Scanner(MsgStart, 0, command), ['*'] + (a + (['$'] + (b + (['\n'] + t3)))))
            == Scan(Scanner(CmdStr, 0, command), t3)
  {
    hide Scan, Next, AllIn;
    var s0 := Scanner(MsgStart, 0, command);
    var s1, s2, s3 := s0.(find := ParmNum), s0.(find := CmdLen), s0.(find := CmdStr);
    var t2 := b + (['\n'] + t3);
    var t1 := a + (['$'] + t2);
    Moves(s0, '*', t1, s1);
    Stays(s1, a);
    ScanAppend(s1, a, ['$'] + t2);
    Moves(s1, '$', t2, s2);
    Stays(s2, b);
    ScanAppend(s2, b, ['\n'] + t3);
    Moves(s2, '\n', t3, s3);
  }

  lemma Nested(a: string, b: string, cmd: string, end: string, rest: string)
    ensures "*" + a + "$" + b + "\n" + cmd + end + rest == ['*'] + (a + (['$'] + (b + (['\n'] + (cmd + (end + rest))))))
  {
  }

  /** One character that changes the state, then the rest. */
  lemma Moves(s: Scanner, c: char, rest: string, s': Scanner)
    requires s.j + 1 + |rest| < |s.command|
    requires (s.find.MsgStart? && c == '*' && s' == s.(find := ParmNum))
          || (s.find.ParmNum? && c == '$' && s' == s.(find := CmdLen))
          || (s.find.CmdLen? && c == '\n' && s' == s.(find := CmdStr))
          || (s.find.CmdStr? && (c == '\r' || c == '\n') && s' == s.(find := OkStop))
    ensures Scan(s, [c] + rest) == Scan(s', rest)
  {
    assert ([c] + rest)[1..] == rest;
  }

  // the converse: how an accepting scan can have started

  lemma {:induction false} FromCmdStr(s: Scanner, msg: string) returns (cmd: string, end: char, rest: string)
    requires s.find.CmdStr? && s.j + |msg| < |s.command| && Scan(s, msg).find.OkStop?
    ensures msg == cmd + [end] + rest && AllIn(cmd, LETTERS) && (end == '\r' || end == '\n')
    decreases |msg|
  {
    if Letter(msg[0]) {
      cmd, end, rest := FromCmdStr(Next(s, msg[0]), msg[1..]);
      cmd := [msg[0]] + cmd;
    } else {
      cmd, end, rest := "", msg[0], msg[1..];
      if end != '\r' && end != '\n' {
        Stays(Next(s, end), rest);
      }
    }
  }

  lemma {:induction false} FromCmdLen(s: Scanner, msg: string) returns (b: string, rest: string)
    requires s.find.CmdLen? && s.j + |msg| < |s.command| && Scan(s, msg).find.OkStop?
    ensures msg == b + "\n" + rest && AllIn(b, LENGTH_CHARS) && Scan(s.(find := CmdStr), rest).find.OkStop?
    decreases |msg|
  {
    if LENGTH_CHARS(msg[0]) {
      b, rest := FromCmdLen(s, msg[1..]);
      b := [msg[0]] + b;
    } else {
      b, rest := "", msg[1..];
      if msg[0] != '\n' {
        Stays(Next(s, msg[0]), rest);
      }
      assert msg == [msg[0]] + rest;
    }
  }

  lemma {:induction false} FromParmNum(s: Scanner, msg: string) returns (a: string, rest: string)
    requires s.find.ParmNum? && s.j + |msg| < |s.command| && Scan(s, msg).find.OkStop?
    ensures msg == a + "$" + rest && AllIn(a, COUNT_CHARS) && Scan(s.(find := CmdLen), rest).find.OkStop?
    decreases |msg|
  {
    if COUNT_CHARS(msg[0]) {
      a, rest := FromParmNum(s, msg[1..]);
      a := [msg[0]] + a;
    } else {
      a, rest := "", msg[1..];
      if msg[0] != '$' {
        Stays(Next(s, msg[0]), rest);
      }
      assert msg == [msg[0]] + rest;
    }
  }

  lemma RequestOf(command: string, msg: string) returns (a: string, b: string, cmd: string, end: char, rest: string)
    requires |msg| < |command| && Scan(Scanner(MsgStart, 0, command), msg).find.OkStop?
    ensures Request(msg, a, b, cmd, end, rest)
  {
    hide AllIn;
    var s := Scanner(MsgStart, 0, command);
    if msg[0] != '*' {
      Stays(Next(s, msg[0]), msg[1..]);
    }
    var t, u;
    a, t := FromParmNum(s.(find := ParmNum), msg[1..]);
    b, u := FromCmdLen(s.(find := CmdLen), t);
    cmd, end, rest := FromCmdStr(s.(find := CmdStr), u);
    assert msg == "*" + msg[1..];
    assert msg == "*" + a + "$" + b + "\n" + cmd + [end] + rest;
  }

  /** Acceptance is membership in the regular language, and the command buffer tells which request it was. */
  lemma AcceptsIff(command: string, msg: string)
    requires |msg| < |command|
    ensures Scan(Scanner(MsgStart, 0, command), msg).find.OkStop? <==>
            exists a, b, cmd, end, rest :: Request(msg, a, b, cmd, end, rest)
    ensures forall a, b, cmd, end, rest :: Request(msg, a, b, cmd, end, rest) ==>
            Scan(Scanner(MsgStart, 0, command), msg).command == UpperAll(cmd) + command[|cmd|..]
  {
    if Scan(Scanner(MsgStart, 0, command), msg).find.OkStop? {
      var a, b, cmd, end, rest := RequestOf(command, msg);
    }
    forall a, b, cmd, end, rest | Request(msg, a, b, cmd, end, rest)
      ensures Scan(Scanner(MsgStart, 0, command), msg).find.OkStop?
      ensures Scan(Scanner(MsgStart, 0, command), msg).command == UpperAll(cmd) + command[|cmd|..]
    {
      AcceptsRequest(command, msg, a, b, cmd, end, rest);
    }
  }

  // ---- the buffer the probe copies

  /** At most 30 bytes of the request, zeros behind them. */
  function CopyOf(buf: string): (msg: string)
    ensures |msg| == REQ_SIZE
  {
    var n := if |buf| < REQ_SIZE then |buf| else REQ_SIZE - 1;
    buf[..n] + seq(REQ_SIZE - n, _ => '\0')
  }

  /** The recogniser on a request as it was read: the verdict and the new command buffer. */
  function Recognise(buf: string, command: string): (r: (bool, string))
    requires |command| == REQ_SIZE
    ensures |r.1| == REQ_SIZE
  {
    var r := Scan(Scanner(MsgStart, 0, command), CopyOf(buf)[..SCAN]);
    (r.find.OkStop?, r.command)
  }

  method ParseReq(buf: string, command: array<char>) returns (ok: bool)
    requires command.Length == REQ_SIZE
    modifies command
    ensures (ok, command[..]) == Recognise(buf, old(command[..]))
  {
    var msg := CopyOf(buf);
    ok := IdentifyRedis(msg, command);
  }

  // ---- the printer

  function Bulk(arg: string): string {
    "$" + Decimal(|arg|) + "\r\n" + arg + "\r\n"
  }

  function Bulks(args: seq<string>): string {
    if args == [] then "" else Bulks(args[..|args| - 1]) + Bulk(args[|args| - 1])
  }

  function Packed(args: seq<string>): string {
    "*" + Decimal(|args|) + "\r\n" + Bulks(args)
  }

  /** What the client can be asked to send: bytes, text, an integer, a float by its printed form, or something else. */
  datatype Value = Bytes(text: string) | Str(text: string) | Int(v: int) | Float(shown: string) | Other

  function Encode(v: Value): string {
    match v
    case Bytes(text) => text
    case Str(text) => text
    case Int(n) => if n < 0 then "-" + Decimal(-n) else Decimal(n)
    case Float(shown) => shown
    case Other => ""
  }

  function EncodeAll(values: seq<Value>): (r: seq<string>)
    ensures |r| == |values|
  {
    if values == [] then [] else EncodeAll(values[..|values| - 1]) + [Encode(values[|values| - 1])]
  }

  /** The request of the values; something that is no text, number or bytes is an error. */
  method PackCommand(values: seq<Value>) returns (ok: bool, output: string)
    ensures ok <==> Other !in values
    ensures ok ==> output == Packed(EncodeAll(values))
  {
    hide Decimal, Encode;
    ok, output := true, "*" + Decimal(|values|) + "\r\n";
    for i := 0 to |values|
      invariant Other !in values[..i]
      invariant output == "*" + Decimal(|values|) + "\r\n" + Bulks(EncodeAll(values[..i]))
    {
      if values[i].Other? {
        return false, "";
      }
      var args := EncodeAll(values[..i]);
      assert values[..i + 1][..i] == values[..i];
      assert (args + [Encode(values[i])])[..i] == args;
      PackStep("*" + Decimal(|values|) + "\r\n", Bulks(args), Bulk(Encode(values[i])));
      output := output + Bulk(Encode(values[i]));
    }
    assert values[..|values|] == values;
  }

  lemma PackStep(h: string, a: string, b: string)
    ensures h + (a + b) == h + a + b
  {
  }

  lemma CountDigits(n: nat)
    ensures AllIn(Decimal(n), DECIMAL_DIGITS) && Decimal(n) != ""
  {
    DecimalDigits(n);
  }

  const DECIMAL_DIGITS := (c: char) => Digit(c)

  /** What precedes the command's own line end in a packed request. */
  function Header(args: seq<string>): string
    requires args != []
  {
    "*" + Decimal(|args|) + "\r\n$" + Decimal(|args[0]|) + "\r\n" + args[0]
  }

  lemma {:induction false} BulksStart(args: seq<string>) returns (rest: string)
    requires args != []
    ensures Bulks(args) == Bulk(args[0]) + rest
  {
    hide Bulk;
    if |args| == 1 {
      rest := "";
      assert args[..0] == [] && Bulks([]) == "";
      assert "" + Bulk(args[0]) == Bulk(args[0]) + "";
    } else {
      var front := args[..|args| - 1];
      var r := BulksStart(front);
      rest := r + Bulk(args[|args| - 1]);
      PackStep(Bulk(args[0]), r, Bulk(args[|args| - 1]));
    }
  }

  lemma PackedStart(args: seq<string>) returns (rest: string)
    requires args != []
    ensures Packed(args) == Header(args) + "\r" + rest
  {
    hide Decimal;
    var r := BulksStart(args);
    rest := "\n" + r;
    var n, l := Decimal(|args|), Decimal(|args[0]|);
    assert Packed(args) == "*" + n + "\r\n" + ("$" + l + "\r\n" + args[0] + "\r\n" + r);
    assert "\r\n" == "\r" + "\n";
    assert Packed(args) == Header(args) + "\r" + ("\n" + r);
  }

  lemma {:induction false} SameFind(s: Scanner, t: Scanner, msg: string)
    requires s.find == t.find && s.j + |msg| < |s.command| && t.j + |msg| < |t.command|
    ensures Scan(s, msg).find == Scan(t, msg).find
    decreases |msg|
  {
    if msg != "" {
      SameFind(Next(s, msg[0]), Next(t, msg[0]), msg[1..]);
    }
  }

  /** A header is never complete: no prefix of it is accepted. */
  lemma HeaderIsOpen(command: string, a: string, b: string, cmd: string, n: nat)
    requires AllIn(a, COUNT_CHARS) && AllIn(b, LENGTH_CHARS) && AllIn(cmd, LETTERS)
    requires n < |command| && n <= 3 + |a| + |b| + |cmd|
    ensures var h := ['*'] + (a + (['$'] + (b + (['\n'] + cmd))));
            !Scan(Scanner(MsgStart, 0, command), h[..n]).find.OkStop?
  {
    hide Scan, Next, AllIn;
    var h := ['*'] + (a + (['$'] + (b + (['\n'] + cmd))));
    var big := command + h + "\0";
    var s := Scanner(MsgStart, 0, big);
    HeaderScans(big, a, b, cmd);
    CopiesLetters(Scanner(CmdStr, 0, big), cmd);
    assert h == h[..n] + h[n..];
    ScanAppend(s, h[..n], h[n..]);
    if Scan(s, h[..n]).find.OkStop? {
      Stays(Scan(s, h[..n]), h[n..]);
    }
    SameFind(s, Scanner(MsgStart, 0, command), h[..n]);
  }

  /** The buffer the scan sees starts like the request. */
  lemma CopyStarts(buf: string, head: string)
    requires head <= buf && |head| <= SCAN
    ensures head <= CopyOf(buf)[..SCAN]
  {
  }

  /** The scan of a packed request whose header fits sees the header, the line end and more. */
  lemma PackedScan(args: seq<string>) returns (tail: string)
    requires args != [] && |Header(args)| < SCAN
    ensures var a, b := Decimal(|args|) + "\r\n", Decimal(|args[0]|) + "\r";
            CopyOf(Packed(args))[..SCAN] == "*" + a + "$" + b + "\n" + args[0] + ['\r'] + tail
  {
    hide CopyOf, Packed, Decimal;
    HeaderParts(args);
    var h := Header(args);
    var rest := PackedStart(args);
    var msg := CopyOf(Packed(args))[..SCAN];
    CopyStarts(Packed(args), h + "\r");
    tail := msg[|h| + 1..];
    assert msg == h + ['\r'] + tail;
  }

  /** The recogniser undoes the printer: a packed request with an alphabetic command is recognised exactly when
      the line end behind its command lies within the scan, and then the command buffer starts with the command in
      upper case. What an earlier, longer command left behind it is not cleared. */
  lemma RecognisesPacked(args: seq<string>, command: string)
    requires args != [] && AllIn(args[0], LETTERS) && |command| == REQ_SIZE
    ensures Recognise(Packed(args), command).0 <==> |Header(args)| < SCAN
    ensures |Header(args)| < SCAN ==> Recognise(Packed(args), command).1 == UpperAll(args[0]) + command[|args[0]|..]
  {
    hide Scan, CopyOf, Packed, Decimal, AllIn, Digit;
    var cmd := args[0];
    var a, b := Decimal(|args|) + "\r\n", Decimal(|cmd|) + "\r";
    HeaderParts(args);
    var h := Header(args);
    var rest := PackedStart(args);
    var msg := CopyOf(Packed(args))[..SCAN];
    if |h| < SCAN {
      var tail := PackedScan(args);
      AcceptsRequest(command, msg, a, b, cmd, '\r', tail);
    } else {
      assert h[..SCAN] <= Packed(args);
      CopyStarts(Packed(args), h[..SCAN]);
      assert msg == h[..SCAN];
      HeaderIsOpen(command, a, b, cmd, SCAN);
    }
  }

  lemma HeaderParts(args: seq<string>)
    requires args != []
    ensures var a, b := Decimal(|args|) + "\r\n", Decimal(|args[0]|) + "\r";
            && AllIn(a, COUNT_CHARS) && AllIn(b, LENGTH_CHARS)
            && Header(args) == "*" + a + "$" + b + "\n" + args[0]
            && Header(args) == ['*'] + (a + (['$'] + (b + (['\n'] + args[0]))))
  {
    CountDigits(|args|);
    CountDigits(|args[0]|);
    var n, l := Decimal(|args|), Decimal(|args[0]|);
    PartsJoin(n, l, args[0]);
    assert forall i :: 0 <= i < |n| ==> DECIMAL_DIGITS(n[i]);
    assert forall i :: 0 <= i < |l| ==> DECIMAL_DIGITS(l[i]);
  }

  lemma PartsJoin(n: string, l: string, cmd: string)
    ensures "*" + n + "\r\n$" + l + "\r\n" + cmd == "*" + (n + "\r\n") + "$" + (l + "\r") + "\n" + cmd
    ensures "*" + n + "\r\n$" + l + "\r\n" + cmd == ['*'] + ((n + "\r\n") + (['$'] + ((l + "\r") + (['\n'] + cmd))))
  {
    assert "\r\n$" == "\r\n" + "$" && "\r\n" == "\r" + "\n";
  }

  // ---- what a request leaves in the command buffer, accepted or not

  /** The letters a scan writes. */
  function Written(msg: string): (w: string)
    requires |msg| < REQ_SIZE
    ensures |w| <= |msg|
  {
    var r := Scan(Scanner(MsgStart, 0, ZeroCommand()), msg);
    r.command[..r.j]
  }

  /** Verdict, index and letters of a scan do not depend on the buffer it writes into, and it writes nothing else. */
  lemma {:induction false} ScanWrites(s: Scanner, t: Scanner, msg: string)
    requires s.find == t.find && s.j == t.j && |s.command| == |t.command| && s.j + |msg| < |s.command|
    ensures var r, u := Scan(s, msg), Scan(t, msg);
            && r.find == u.find && s.j <= r.j == u.j
            && forall k :: 0 <= k < |s.command| ==>
                 if s.j <= k < r.j then r.command[k] == u.command[k] && 'A' <= r.command[k] <= 'Z'
                 else r.command[k] == s.command[k] && u.command[k] == t.command[k]
    decreases |msg|
  {
    if msg != "" {
      var s', t' := Next(s, msg[0]), Next(t, msg[0]);
      NextWrites(s, t, msg[0]);
      hide Next;
      ScanWrites(s', t', msg[1..]);
    }
  }

  lemma NextWrites(s: Scanner, t: Scanner, c: char)
    requires s.find == t.find && s.j == t.j && |s.command| == |t.command| && s.j < |s.command|
    ensures var r, u := Next(s, c), Next(t, c);
            && r.find == u.find && s.j <= r.j == u.j <= s.j + 1 && |r.command| == |u.command| == |s.command|
            && forall k :: 0 <= k < |s.command| ==>
                 if s.j <= k < r.j then r.command[k] == u.command[k] && 'A' <= r.command[k] <= 'Z'
                 else r.command[k] == s.command[k] && u.command[k] == t.command[k]
  {
  }

  /** A scan overwrites the front of the buffer with its letters. */
  lemma WritesOver(command: string, msg: string)
    requires |command| == REQ_SIZE && |msg| < REQ_SIZE
    ensures Scan(Scanner(MsgStart, 0, command), msg).command == Written(msg) + command[|Written(msg)|..]
    ensures forall c :: c in Written(msg) ==> 'A' <= c <= 'Z'
  {
    hide Scan;
    var s, t := Scanner(MsgStart, 0, command), Scanner(MsgStart, 0, ZeroCommand());
    ScanWrites(s, t, msg);
    var r, w := Scan(s, msg), Written(msg);
    forall k | 0 <= k < REQ_SIZE
      ensures r.command[k] == (w + command[|w|..])[k]
    {
    }
  }

  /** A complete header, then letters up to the end of the text or a character that is none. */
  ghost predicate Opens(msg: string, a: string, b: string, w: string, rest: string) {
    && msg == "*" + a + "$" + b + "\n" + w + rest
    && AllIn(a, COUNT_CHARS) && AllIn(b, LENGTH_CHARS) && AllIn(w, LETTERS)
    && (rest == "" || !Letter(rest[0]))
  }

  predicate LineEnds(rest: string) {
    rest != "" && (rest[0] == '\r' || rest[0] == '\n')
  }

  lemma NestedOpen(a: string, b: string, w: string, rest: string)
    ensures "*" + a + "$" + b + "\n" + w + rest == ['*'] + (a + (['$'] + (b + (['\n'] + (w + rest)))))
  {
  }

  lemma StopsAt(s: Scanner, rest: string)
    requires s.find.CmdStr? && s.j + |rest| < |s.command| && (rest == "" || !Letter(rest[0]))
    ensures Scan(s, rest).j == s.j && Scan(s, rest).command == s.command
    ensures Scan(s, rest).find.OkStop? <==> LineEnds(rest)
  {
    if rest != "" {
      Stays(Next(s, rest[0]), rest[1..]);
    }
  }

  lemma OpensWrites(msg: string, a: string, b: string, w: string, rest: string)
    requires |msg| < REQ_SIZE && Opens(msg, a, b, w, rest)
    ensures Written(msg) == UpperAll(w)
    ensures Scan(Scanner(MsgStart, 0, ZeroCommand()), msg).find.OkStop? <==> LineEnds(rest)
  {
    hide Scan, Next, AllIn;
    var zeros := ZeroCommand();
    NestedOpen(a, b, w, rest);
    HeaderScans(zeros, a, b, w + rest);
    var s := Scanner(CmdStr, 0, zeros);
    ScanAppend(s, w, rest);
    CopiesLetters(s, w);
    StopsAt(Scan(s, w), rest);
    assert Scan(s, w).command[..|w|] == UpperAll(w);
  }

  lemma {:induction false} ParmNumPassed(s: Scanner, msg: string) returns (a: string, rest: string)
    requires s.find.ParmNum? && s.j + |msg| < |s.command| && Scan(s, msg).j > s.j
    ensures msg == a + "$" + rest && AllIn(a, COUNT_CHARS) && Scan(s.(find := CmdLen), rest).j > s.j
    decreases |msg|
  {
    if COUNT_CHARS(msg[0]) {
      a, rest := ParmNumPassed(s, msg[1..]);
      a := [msg[0]] + a;
    } else {
      a, rest := "", msg[1..];
      if msg[0] != '$' {
        Stays(Next(s, msg[0]), rest);
      }
      assert msg == [msg[0]] + rest;
    }
  }

  lemma {:induction false} CmdLenPassed(s: Scanner, msg: string) returns (b: string, rest: string)
    requires s.find.CmdLen? && s.j + |msg| < |s.command| && Scan(s, msg).j > s.j
    ensures msg == b + "\n" + rest && AllIn(b, LENGTH_CHARS) && Scan(s.(find := CmdStr), rest).j > s.j
    decreases |msg|
  {
    if LENGTH_CHARS(msg[0]) {
      b, rest := CmdLenPassed(s, msg[1..]);
      b := [msg[0]] + b;
    } else {
      b, rest := "", msg[1..];
      if msg[0] != '\n' {
        Stays(Next(s, msg[0]), rest);
      }
      assert msg == [msg[0]] + rest;
    }
  }

  lemma {:induction false} LetterRun(msg: string) returns (w: string, rest: string)
    ensures msg == w + rest && AllIn(w, LETTERS) && (rest == "" || !Letter(rest[0]))
  {
    if msg == "" || !Letter(msg[0]) {
      w, rest := "", msg;
    } else {
      w, rest := LetterRun(msg[1..]);
      w := [msg[0]] + w;
    }
  }

  /** Which requests leave letters behind, and which letters: those directly behind a complete header, whether the
      request is accepted, rejected for a later character, or longer than the scan. */
  lemma WrittenIff(msg: string)
    requires |msg| < REQ_SIZE
    ensures Written(msg) != "" <==> exists a, b, w, rest :: Opens(msg, a, b, w, rest) && w != ""
    ensures forall a, b, w, rest :: Opens(msg, a, b, w, rest) ==> Written(msg) == UpperAll(w)
  {
    hide AllIn, Scan, Next, Letter;
    forall a, b, w, rest | Opens(msg, a, b, w, rest)
      ensures Written(msg) == UpperAll(w)
    {
      OpensWrites(msg, a, b, w, rest);
    }
    if Written(msg) != "" {
      var a, b, w, rest := OpeningOf(msg);
      assert Written(msg) == UpperAll(w);
    }
  }

  lemma StarFirst(msg: string)
    requires |msg| < REQ_SIZE && Written(msg) != ""
    ensures msg != "" && msg[0] == '*' && Scan(Scanner(ParmNum, 0, ZeroCommand()), msg[1..]).j > 0
  {
    hide AllIn, Letter;
    var s := Scanner(MsgStart, 0, ZeroCommand());
    if msg[0] != '*' {
      Stays(Next(s, msg[0]), msg[1..]);
    }
  }

  lemma OpeningOf(msg: string) returns (a: string, b: string, w: string, rest: string)
    requires |msg| < REQ_SIZE && Written(msg) != ""
    ensures Opens(msg, a, b, w, rest)
  {
    hide AllIn, Letter, Next, Scan;
    var s := Scanner(MsgStart, 0, ZeroCommand());
    StarFirst(msg);
    var t, u;
    a, t := ParmNumPassed(s.(find := ParmNum), msg[1..]);
    b, u := CmdLenPassed(s.(find := CmdLen), t);
    w, rest := LetterRun(u);
    assert msg == "*" + msg[1..];
    assert msg == "*" + a + "$" + b + "\n" + w + rest;
  }

  /** What a request as it was read leaves behind. */
  function LeftBy(buf: string): (w: string)
    ensures |w| < REQ_SIZE
  {
    Written(CopyOf(buf)[..SCAN])
  }

  predicate Accepted(buf: string) {
    Recognise(buf, ZeroCommand()).0
  }

  lemma RecogniseLeaves(buf: string, command: string)
    requires |command| == REQ_SIZE
    ensures Recognise(buf, command).0 == Accepted(buf)
    ensures Recognise(buf, command).1 == LeftBy(buf) + command[|LeftBy(buf)|..]
    ensures forall c :: c in LeftBy(buf) ==> c != '\0'
  {
    hide Scan, CopyOf, Written;
    var msg := CopyOf(buf)[..SCAN];
    WritesOver(command, msg);
    SameFind(Scanner(MsgStart, 0, command), Scanner(MsgStart, 0, ZeroCommand()), msg);
  }

  /** A request short enough to be scanned whole leaves the letters behind its header, and is accepted exactly if a line
      end follows them. */
  lemma ShortLeaves(buf: string, a: string, b: string, w: string, rest: string)
    requires |buf| <= SCAN && Opens(buf, a, b, w, rest) && rest != ""
    ensures LeftBy(buf) == UpperAll(w) && (Accepted(buf) <==> LineEnds(rest))
  {
    hide Scan, AllIn, Letter;
    var zeros := CopyOf(buf)[..SCAN][|buf|..];
    assert CopyOf(buf)[..SCAN] == buf + zeros;
    var head := "*" + a + "$" + b + "\n" + w;
    assert head + rest + zeros == head + (rest + zeros);
    OpensWrites(CopyOf(buf)[..SCAN], a, b, w, rest + zeros);
  }

  lemma PackedLeaves(args: seq<string>)
    requires args != [] && AllIn(args[0], LETTERS) && |Header(args)| < SCAN
    ensures Accepted(Packed(args)) && LeftBy(Packed(args)) == UpperAll(args[0])
  {
    hide Scan, CopyOf, Packed, Decimal, AllIn, Digit, Header;
    var tail := PackedScan(args);
    HeaderParts(args);
    var a, b := Decimal(|args|) + "\r\n", Decimal(|args[0]|) + "\r";
    var head := "*" + a + "$" + b + "\n" + args[0];
    assert head + ['\r'] + tail == head + (['\r'] + tail);
    OpensWrites(CopyOf(Packed(args))[..SCAN], a, b, args[0], ['\r'] + tail);
  }

  /** One recognised request: the command read is the upper-cased command and nothing else exactly if the buffer was
      zero behind it. */
  lemma CommandReadIff(args: seq<string>, command: string)
    requires args != [] && AllIn(args[0], LETTERS) && |command| == REQ_SIZE && |Header(args)| < SCAN
    ensures |args[0]| <= REQ_SIZE
    ensures Recognise(Packed(args), command).1 == UpperAll(args[0]) + ZeroCommand()[|args[0]|..] <==>
            forall i :: |args[0]| <= i < REQ_SIZE ==> command[i] == '\0'
  {
    hide AllIn, Recognise, Packed;
    HeaderLonger(args);
    hide Header;
    RecognisesPacked(args, command);
    var c := UpperAll(args[0]);
    var x, y := c + command[|c|..], c + ZeroCommand()[|c|..];
    assert forall i :: |c| <= i < REQ_SIZE ==> x[i] == command[i] && y[i] == '\0';
    if forall i :: |c| <= i < REQ_SIZE ==> command[i] == '\0' {
      assert x == y;
    }
  }

  lemma HeaderLonger(args: seq<string>)
    requires args != []
    ensures |args[0]| < |Header(args)|
  {
  }
}
