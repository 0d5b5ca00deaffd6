/** Listening ports as a list with a bit per port, the role of every connection, and the endpoint table built from
    both. */
module ListenPorts {
  import opened Options
  import opened Words
  import opened Text
  import opened SsParser
  import opened Listeners

  const LTP_MAX_NUM: nat := 1024
  const TCP_ESTAB_MAX: nat := 1024
  const TCP_ENDPOINT_MAX: nat := 1024

  ghost predicate Listed(tlps: seq<Listener>, port: nat) {
    exists i :: 0 <= i < |tlps| && tlps[i].port == port
  }

  ghost predicate DistinctPorts(tlps: seq<Listener>) {
    forall i, j :: 0 <= i < j < |tlps| ==> tlps[i].port != tlps[j].port
  }

  /** The list after one more line: its listener is appended if its port is new and there is room. */
  ghost function Added(tlps: seq<Listener>, t: Option<Listener>): seq<Listener> {
    if t.None? || Listed(tlps, t.value.port) || |tlps| >= LTP_MAX_NUM then tlps else tlps + [t.value]
  }

  ghost function Collected(lines: seq<string>): seq<Listener> {
    if lines == [] then [] else Added(Collected(lines[..|lines| - 1]), ListenerOf(lines[|lines| - 1]))
  }

  class PortIndex {
    const hash: array<nat>
    var tlps: seq<Listener>

    /** The bits agree with the list: a port's bit is set exactly if some listed entry has it. */
    ghost predicate Valid()
      reads this, hash
    {
      && hash.Length == PORT_MAX_NUM
      && |tlps| <= LTP_MAX_NUM
      && DistinctPorts(tlps)
      && (forall i :: 0 <= i < |tlps| ==> tlps[i].port < PORT_MAX_NUM)
      && (forall p :: 0 <= p < PORT_MAX_NUM ==> (hash[p] == 1 <==> Listed(tlps, p)))
      && forall p :: 0 <= p < PORT_MAX_NUM ==> hash[p] == 0 || hash[p] == 1
    }

    constructor ()
      ensures Valid() && fresh(hash) && tlps == []
    {
      hash := new nat[PORT_MAX_NUM](_ => 0);
      tlps := [];
    }

    /** Add a listener; refused if its port is there or the list is full. */
    method AddTlp(t: Listener) returns (ok: bool)
      requires Valid() && t.port < PORT_MAX_NUM
      modifies this, hash
      ensures Valid()
      ensures ok <==> !Listed(old(tlps), t.port) && |old(tlps)| < LTP_MAX_NUM
      ensures tlps == Added(old(tlps), Option.Some(t))
    {
      if hash[t.port] == 1 {
        return false;
      }
      if |tlps| >= LTP_MAX_NUM {
        return false;
      }
      ghost var was := tlps;
      hash[t.port] := 1;
      tlps := tlps + [t];
      forall p: nat
        ensures Listed(tlps, p) <==> Listed(was, p) || p == t.port
      {
        ListedSnoc(was, t, p);
      }
      return true;
    }

    predicate IsListenPort(port: nat)
      requires Valid()
      reads this, hash
      ensures IsListenPort(port) <==> Listed(tlps, port)
    {
      if port >= PORT_MAX_NUM then
        assert !Listed(tlps, port);
        false
      else
        hash[port] != 0
    }

    /** Read the listening sockets line by line. */
    method GetTlps(lines: seq<string>)
      requires Valid() && tlps == [] && forall i :: 0 <= i < |lines| ==> NulFree(lines[i])
      modifies this, hash
      ensures Valid() && tlps == Collected(lines)
    {
      hide ListenerOf, Valid;
      assert lines[..0] == [];
      for i := 0 to |lines|
        invariant Valid() && tlps == Collected(lines[..i])
      {
        var t := NewTlp(lines[i]);
        CollectedNext(lines, i);
        if t.Some? {
          PortFits(lines[i]);
          var ok := AddTlp(t.value);
        }
      }
      assert lines[..|lines|] == lines;
    }
  }

  lemma ListedSnoc(tlps: seq<Listener>, t: Listener, p: nat)
    ensures Listed(tlps + [t], p) <==> Listed(tlps, p) || p == t.port
  {
    var s := tlps + [t];
    assert s[|tlps|] == t;
    if i :| 0 <= i < |tlps| && tlps[i].port == p {
      assert s[i].port == p;
    }
  }

  lemma PortFits(line: string)
    ensures ListenerOf(line).Some? ==> ListenerOf(line).value.port < PORT_MAX_NUM
  {
    hide Find;
  }

  lemma CollectedNext(lines: seq<string>, i: nat)
    requires i < |lines|
    ensures Collected(lines[..i + 1]) == Added(Collected(lines[..i]), ListenerOf(lines[i]))
  {
    hide ListenerOf, Added;
    assert lines[..i + 1][..i] == lines[..i];
  }

  // ---- what the list holds

  ghost predicate Reports(line: string, port: nat) {
    ListenerOf(line).Some? && ListenerOf(line).value.port == port
  }

  ghost predicate SomeReports(lines: seq<string>, port: nat) {
    exists i :: 0 <= i < |lines| && Reports(lines[i], port)
  }

  /** No port is listed that no line reports, and as long as the list is not full none is missing. */
  lemma {:induction false} CollectedPorts(lines: seq<string>, port: nat)
    ensures |Collected(lines)| <= LTP_MAX_NUM && DistinctPorts(Collected(lines))
    ensures Listed(Collected(lines), port) ==> SomeReports(lines, port)
    ensures |Collected(lines)| < LTP_MAX_NUM ==> (Listed(Collected(lines), port) <==> SomeReports(lines, port))
    decreases |lines|
  {
    hide ListenerOf;
    if lines != [] {
      var front, l := lines[..|lines| - 1], lines[|lines| - 1];
      CollectedPorts(front, port);
      SomeReportsSnoc(front, l, port);
      assert lines == front + [l];
      if ListenerOf(l).Some? {
        ListedSnoc(Collected(front), ListenerOf(l).value, port);
      }
    }
  }

  lemma SomeReportsSnoc(front: seq<string>, l: string, port: nat)
    ensures SomeReports(front + [l], port) <==> SomeReports(front, port) || Reports(l, port)
  {
    hide Reports;
    var s := front + [l];
    assert s[|front|] == l;
    if i :| 0 <= i < |front| && Reports(front[i], port) {
      assert s[i] == front[i];
    }
  }

  // ---- roles

  datatype Conn = Conn(estab: Estab, isClient: bool)

  /** The connections kept from the lines, at most 1024. */
  function Estabs(lines: seq<string>): (r: seq<Estab>)
    ensures |r| <= TCP_ESTAB_MAX
  {
    if lines == [] then []
    else
      var r, e := Estabs(lines[..|lines| - 1]), EstabOf(lines[|lines| - 1]);
      if e.None? || |r| >= TCP_ESTAB_MAX then r else r + [e.value]
  }

  ghost predicate RolesFit(conns: seq<Conn>, estabs: seq<Estab>, tlps: seq<Listener>) {
    && |conns| == |estabs|
    && forall i :: 0 <= i < |conns| ==> conns[i] == Conn(estabs[i], !Listed(tlps, estabs[i].local.port))
  }

  /** Read the connections; each one is a server connection exactly if its local port is listed. */
  method GetEstabTcps(lines: seq<string>, index: PortIndex) returns (conns: seq<Conn>)
    requires index.Valid() && forall i :: 0 <= i < |lines| ==> NulFree(lines[i])
    ensures RolesFit(conns, Estabs(lines), index.tlps)
  {
    hide EstabOf, Listed;
    var tes: seq<Estab> := [];
    assert lines[..0] == [];
    for i := 0 to |lines|
      invariant tes == Estabs(lines[..i])
    {
      assert lines[..i + 1][..i] == lines[..i];
      var te := GetEstab(lines[i]);
      if te.Some? && |tes| < TCP_ESTAB_MAX {
        tes := tes + [te.value];
      }
    }
    assert lines[..|lines|] == lines;
    conns := [];
    for i := 0 to |tes|
      invariant RolesFit(conns, tes[..i], index.tlps)
    {
      assert tes[..i + 1][..i] == tes[..i];
      var server := index.IsListenPort(tes[i].local.port);
      conns := conns + [Conn(tes[i], !server)];
    }
    assert tes[..|tes|] == tes;
  }

  // ---- the endpoint table

  datatype Endpoint =
    | ListenEp(port: nat, pid: nat)
    | IpEp(ipv4: bool, ip: string, pid: nat)
    | IpPortEp(ipv4: bool, ip: string, port: nat, pid: nat)

  function ListenEps(tlps: seq<Listener>): (r: seq<Endpoint>)
    ensures |r| == |tlps|
  {
    seq(|tlps|, i requires 0 <= i < |tlps| => ListenEp(tlps[i].port, tlps[i].pid))
  }

  /** A client is known by its address, a server by address and port. */
  function ConnEp(c: Conn, u: User): Endpoint {
    var l := c.estab.local;
    if c.isClient then IpEp(l.ipv4, l.ip, u.pid) else IpPortEp(l.ipv4, l.ip, l.port, u.pid)
  }

  function UserEps(c: Conn, n: nat): (r: seq<Endpoint>)
    requires n <= |c.estab.users|
    ensures |r| == n
  {
    seq(n, i requires 0 <= i < n => ConnEp(c, c.estab.users[i]))
  }

  /** One entry per connection and user. */
  function ConnEps(conns: seq<Conn>): seq<Endpoint> {
    if conns == [] then []
    else
      var c := conns[|conns| - 1];
      ConnEps(conns[..|conns| - 1]) + UserEps(c, |c.estab.users|)
  }

  function Cut(eps: seq<Endpoint>): seq<Endpoint> {
    eps[..Min(|eps|, TCP_ENDPOINT_MAX)]
  }

  /** One entry more: the table stays the cut of everything that was ever to be added, here `all` and now `e`. */
  method AddTcpEndpoint(eps: seq<Endpoint>, e: Endpoint, ghost all: seq<Endpoint>) returns (r: seq<Endpoint>)
    requires eps == Cut(all)
    ensures r == Cut(all + [e])
  {
    if |eps| >= TCP_ENDPOINT_MAX {
      assert (all + [e])[..TCP_ENDPOINT_MAX] == all[..TCP_ENDPOINT_MAX];
      return eps;
    }
    return eps + [e];
  }

  lemma ListenEpsNext(tlps: seq<Listener>, i: nat)
    requires i < |tlps|
    ensures ListenEps(tlps[..i + 1]) == ListenEps(tlps[..i]) + [ListenEp(tlps[i].port, tlps[i].pid)]
  {
  }

  lemma UserEpsNext(before: seq<Endpoint>, c: Conn, n: nat)
    requires n < |c.estab.users|
    ensures before + UserEps(c, n + 1) == before + UserEps(c, n) + [ConnEp(c, c.estab.users[n])]
  {
  }

  lemma ConnEpsNext(before: seq<Endpoint>, conns: seq<Conn>, i: nat)
    requires i < |conns|
    ensures before + ConnEps(conns[..i + 1]) == before + ConnEps(conns[..i]) + UserEps(conns[i], |conns[i].estab.users|)
  {
    assert conns[..i + 1][..i] == conns[..i];
  }

  /** The table: the listeners, then one entry per connection and user, cut at 1024. */
  method GetTcpEndpoints(tlps: seq<Listener>, conns: seq<Conn>) returns (eps: seq<Endpoint>)
    ensures eps == Cut(ListenEps(tlps) + ConnEps(conns))
  {
    hide Cut, ListenEps, UserEps, ConnEps, ConnEp;
    eps := [];
    Empties(tlps, conns);
    for i := 0 to |tlps|
      invariant eps == Cut(ListenEps(tlps[..i]))
    {
      ListenEpsNext(tlps, i);
      eps := AddTcpEndpoint(eps, ListenEp(tlps[i].port, tlps[i].pid), ListenEps(tlps[..i]));
    }
    assert tlps[..|tlps|] == tlps;
    ghost var all := ListenEps(tlps);
    for i := 0 to |conns|
      invariant eps == Cut(all + ConnEps(conns[..i]))
    {
      var c := conns[i];
      ghost var before := all + ConnEps(conns[..i]);
      NoUserEps(before, c);
      for j := 0 to |c.estab.users|
        invariant eps == Cut(before + UserEps(c, j))
      {
        var u := c.estab.users[j];
        UserEpsNext(before, c, j);
        var l := c.estab.local;
        if c.isClient {
          ClientEp(c, u);
          eps := AddTcpEndpoint(eps, IpEp(l.ipv4, l.ip, u.pid), before + UserEps(c, j));
        } else {
          ServerEp(c, u);
          eps := AddTcpEndpoint(eps, IpPortEp(l.ipv4, l.ip, l.port, u.pid), before + UserEps(c, j));
        }
      }
      ConnEpsNext(all, conns, i);
    }
    assert conns[..|conns|] == conns;
  }

  lemma Empties(tlps: seq<Listener>, conns: seq<Conn>)
    ensures Cut(ListenEps(tlps[..0])) == []
    ensures ListenEps(tlps) + ConnEps(conns[..0]) == ListenEps(tlps)
  {
  }

  lemma NoUserEps(before: seq<Endpoint>, c: Conn)
    ensures before + UserEps(c, 0) == before
  {
  }

  lemma ClientEp(c: Conn, u: User)
    requires c.isClient
    ensures ConnEp(c, u) == IpEp(c.estab.local.ipv4, c.estab.local.ip, u.pid)
  {
  }

  lemma ServerEp(c: Conn, u: User)
    requires !c.isClient
    ensures ConnEp(c, u) == IpPortEp(c.estab.local.ipv4, c.estab.local.ip, c.estab.local.port, u.pid)
  {
  }

  // ---- from the printed sockets to the roles

  /** A listening socket as `ss` prints it. */
  datatype Socket = Socket(addr: Addr, users: seq<User>, tail: string)

  ghost predicate GoodSocket(s: Socket) {
    ListenAddr(s.addr) && s.users != [] && ListenUser(s.addr, s.users[0]) && ']' !in s.tail
  }

  function Line(s: Socket): string {
    ListenLine(s.addr, s.users, s.tail)
  }

  function ListenLines(sockets: seq<Socket>): (r: seq<string>)
    ensures |r| == |sockets| && forall i :: 0 <= i < |r| ==> r[i] == Line(sockets[i])
  {
    seq(|sockets|, i requires 0 <= i < |sockets| => Line(sockets[i]))
  }

  /** Some process listens on the port alone. */
  ghost predicate ListensAlone(sockets: seq<Socket>, port: nat) {
    exists i :: 0 <= i < |sockets| && |sockets[i].users| == 1 && sockets[i].addr.port == port
  }

  lemma SocketReports(s: Socket, port: nat)
    requires GoodSocket(s)
    ensures Reports(Line(s), port) <==> |s.users| == 1 && s.addr.port == port
  {
    hide ListenAddr, ListenUser, ListenLine, ListenerOf;
    if |s.users| == 1 {
      assert s.users == [s.users[0]];
      SingleListener(s.addr, s.users[0], s.tail);
    } else {
      SharedListenerIsLost(s.addr, s.users, s.tail);
    }
  }

  /** What the roles come to: while the list is not full, a connection counts as a server connection exactly if a single
      process listens on its local port; behind a port shared by several processes it counts as a client. */
  lemma RoleOfConnection(sockets: seq<Socket>, conns: seq<Conn>, estabs: seq<Estab>, i: nat)
    requires forall k :: 0 <= k < |sockets| ==> GoodSocket(sockets[k])
    requires |Collected(ListenLines(sockets))| < LTP_MAX_NUM
    requires RolesFit(conns, estabs, Collected(ListenLines(sockets))) && i < |conns|
    ensures conns[i].isClient <==> !ListensAlone(sockets, conns[i].estab.local.port)
  {
    hide GoodSocket, Reports, Listed, Collected, Line;
    var lines, port := ListenLines(sockets), conns[i].estab.local.port;
    CollectedPorts(lines, port);
    forall k | 0 <= k < |sockets|
      ensures Reports(lines[k], port) <==> |sockets[k].users| == 1 && sockets[k].addr.port == port
    {
      SocketReports(sockets[k], port);
    }
    if ListensAlone(sockets, port) {
      var k :| 0 <= k < |sockets| && |sockets[k].users| == 1 && sockets[k].addr.port == port;
      assert Reports(lines[k], port);
    }
  }
}
