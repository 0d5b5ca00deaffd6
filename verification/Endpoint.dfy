/** The TCP and UDP endpoint probe: sockets are tracked to an owner, and many sockets count into one endpoint entry. */
module Endpoint {
  import opened Options
  import opened Words
  import opened Meter

  datatype Kind = ListenTcp | ListenUdp | ClientTcp | ClientUdp

  datatype Owner = Owner(kind: Kind, tgid: int)

  datatype Ip = Ip(family: int, bytes: int)

  datatype Key =
    | TcpListen(tgid: int, port: int)
    | TcpConnect(tgid: int, ip: Ip)
    | UdpServer(tgid: int, ip: Ip)
    | UdpClient(tgid: int, ip: Ip)

  datatype Prog = Tcp | Udp

  const LISTEN_DROPS: nat := 0
  const ACCEPT_OVERFLOW: nat := 1
  const SYN_OVERFLOW: nat := 2
  const PASSIVE_OPENS: nat := 3
  const PASSIVE_FAILS: nat := 4
  const RETRANS_SYNACK: nat := 5
  const ACTIVE_OPENS: nat := 6
  const ACTIVE_FAILS: nat := 7
  const QUE_RCV_FAILED: nat := 8
  const UDP_SENDS: nat := 9
  const UDP_RCVS: nat := 10
  const EP_STATS_MAX: nat := 11

  /** Eleven counters of 64 bits. */
  function Words64(): (r: seq<nat>)
    ensures |r| == EP_STATS_MAX && Moduli(r) && forall m :: 0 <= m < EP_STATS_MAX ==> r[m] == TWO64
  {
    seq(EP_STATS_MAX, _ => TWO64)
  }

  /** Whether the process filter lets the owner pass, and whether a full socket map refuses a new socket. */
  datatype Admission = Admission(valid: bool, room: bool)

  /** What a handler reads: the clock, the socket's local port and address, and whether a full map refuses a new
      entry. */
  datatype Env = Env(ts: nat, port: int, ip: Ip, room: bool)

  datatype Fd = Fd(tgid: int, fd: int)

  /** The probe events; a null socket is 0. */
  datatype Event =
    | Release(sk: int)
    | Listen(sk: int, tgid: int, adm: Admission, env: Env)
    | Accept(sk: int, tgid: int, fd: int, adm: Admission, env: Env)
    | Connect(sk: int, tgid: int, ret: int, adm: Admission, env: Env)
    | ConnRequest(sk: int, acceptFull: bool, synFull: bool, env: Env)
    | ReqErr(sk: int, abort: bool, env: Env)
    | OpenChild(sk: int, made: bool, env: Env)
    | CheckReq(sk: int, made: bool, env: Env)
    | RetransSynack(sk: int, env: Env)
    | Bind(sk: int, tgid: int, ret: int, dgram: bool, adm: Admission, env: Env)
    | SendMsg(sk: int, len: nat, env: Env)
    | RecvMsg(sk: int, len: nat, env: Env)
    | QueueFail(sk: int, env: Env)
    | InitSock(sk: int, tgid: int, adm: Admission, env: Env)

  /** Tracked sockets, descriptors that were listening before the probe started, and the counters. */
  datatype Snapshot = Snapshot(socks: map<int, Owner>, preset: set<Fd>, meter: Meter.State<Key>)

  /** Register the owner of a socket. */
  function Tracked(socks: map<int, Owner>, sk: int, owner: Owner, adm: Admission): map<int, Owner> {
    if adm.valid && (sk in socks || adm.room) then socks[sk := owner] else socks
  }

  /** The entry a tracked socket counts into; a program serves only the socket kinds of its protocol. */
  function KeyOf(socks: map<int, Owner>, prog: Prog, sk: int, env: Env): Option<Key> {
    if sk == 0 || sk !in socks then None
    else
      var o := socks[sk];
      match (prog, o.kind)
      case (Tcp, ListenTcp) => Some(TcpListen(o.tgid, env.port))
      case (Tcp, ClientTcp) => Some(TcpConnect(o.tgid, env.ip))
      case (Udp, ListenUdp) => Some(UdpServer(o.tgid, env.ip))
      case (Udp, ClientUdp) => Some(UdpClient(o.tgid, env.ip))
      case (_, _) => None
  }

  /** A handler that returns early does nothing at all. */
  predicate Ignored(s: Snapshot, e: Event) {
    match e
    case Accept(sk, tgid, fd, _, _) => Fd(tgid, fd) !in s.preset || sk == 0
    case Connect(sk, _, _, _, _) => sk == 0
    case ReqErr(_, abort, _) => !abort
    case Bind(sk, _, ret, dgram, _, _) => ret != 0 || sk == 0 || !dgram
    case _ => false
  }

  function OwnerOf(e: Event): Option<(Owner, Admission)> {
    match e
    case Listen(_, tgid, adm, _) => Some((Owner(ListenTcp, tgid), adm))
    case Accept(_, tgid, _, adm, _) => Some((Owner(ListenTcp, tgid), adm))
    case Connect(_, tgid, _, adm, _) => Some((Owner(ClientTcp, tgid), adm))
    case Bind(_, tgid, _, _, adm, _) => Some((Owner(ListenUdp, tgid), adm))
    case InitSock(_, tgid, adm, _) => Some((Owner(ClientUdp, tgid), adm))
    case _ => None
  }

  function ProgOf(e: Event): Prog {
    if e.Bind? || e.SendMsg? || e.RecvMsg? || e.QueueFail? || e.InitSock? then Udp else Tcp
  }

  function One(hit: bool, m: nat): (r: seq<Update>)
    requires m < EP_STATS_MAX
    ensures InBounds(Words64(), r)
  {
    if hit then [Inc(m, 1)] else []
  }

  function Incs(e: Event): (r: seq<Update>)
    ensures InBounds(Words64(), r)
  {
    match e
    case Accept(_, _, _, _, _) => One(true, PASSIVE_OPENS)
    case Connect(_, _, ret, _, _) => One(true, if ret == 0 then ACTIVE_OPENS else ACTIVE_FAILS)
    case ConnRequest(_, acceptFull, synFull, _) => One(acceptFull, ACCEPT_OVERFLOW) + One(synFull, SYN_OVERFLOW)
    case ReqErr(_, abort, _) => One(abort, LISTEN_DROPS)
    case OpenChild(_, made, _) => One(true, if made then PASSIVE_OPENS else LISTEN_DROPS)
    case CheckReq(_, made, _) => One(!made, PASSIVE_FAILS)
    case RetransSynack(_, _) => One(true, RETRANS_SYNACK)
    case SendMsg(_, len, _) => [Inc(UDP_SENDS, len)]
    case RecvMsg(_, len, _) => [Inc(UDP_RCVS, len)]
    case QueueFail(_, _) => One(true, QUE_RCV_FAILED)
    case _ => []
  }

  function RuleOf(e: Event): Rule {
    match e
    case Listen(_, _, _, _) => OnlyIfNew
    case Bind(_, _, _, _, _, _) => OnlyIfNew
    case InitSock(_, _, _, _) => OnlyIfNew
    case ConnRequest(_, acceptFull, synFull, _) => if acceptFull || synFull then Always else Never
    case OpenChild(_, _, _) => Never
    case CheckReq(_, _, _) => Never
    case QueueFail(_, _) => Never
    case _ => Always
  }

  function SocksAfter(s: Snapshot, e: Event): map<int, Owner> {
    if e.Release? then s.socks - {e.sk}
    else if Ignored(s, e) || OwnerOf(e) == None then s.socks
    else Tracked(s.socks, e.sk, OwnerOf(e).value.0, OwnerOf(e).value.1)
  }

  /** The entry access an event amounts to, if any. */
  function CallOf(s: Snapshot, e: Event): (r: Call<Key>)
    ensures CallInBounds(Words64(), r)
  {
    if e.Release? || Ignored(s, e) then None
    else
      match KeyOf(SocksAfter(s, e), ProgOf(e), e.sk, e.env)
      case None => None
      case Some(k) => Some(Touch(k, Incs(e), RuleOf(e), e.env.ts, e.env.room))
  }

  function Step(period: nat, s: Snapshot, e: Event): (r: Snapshot)
    requires Shape(Words64(), s.meter)
    ensures Shape(Words64(), r.meter)
  {
    Snapshot(SocksAfter(s, e),
          if e.Accept? && !Ignored(s, e) then s.preset - {Fd(e.tgid, e.fd)} else s.preset,
          ApplyCall(Words64(), period, s.meter, CallOf(s, e)))
  }

  // ---- the handlers

  class Probe {
    const table: Table<Key>
    var socks: map<int, Owner>
    var preset: set<Fd>

    function View(): Snapshot
      reads this, table
    {
      Snapshot(socks, preset, table.View())
    }

    ghost predicate Valid()
      reads this, table
    {
      table.mods == Words64() && table.Valid()
    }

    constructor (period: nat, preset: set<Fd>)
      ensures Valid() && fresh(table) && table.period == period
      ensures View() == Snapshot(map[], preset, Meter.State(map[], []))
    {
      table := new Table<Key>(Words64(), period);
      socks, this.preset := map[], preset;
    }

    method CreateSockMap(sk: int, owner: Owner, adm: Admission)
      modifies this`socks
      ensures socks == Tracked(old(socks), sk, owner, adm)
    {
      if !adm.valid {
        return;
      }
      if sk in socks || adm.room {
        socks := socks[sk := owner];
      }
    }

    /** Find the entry the socket counts into; then look it up, count, and report as the handler's rule says. */
    method Count(prog: Prog, sk: int, incs: seq<Update>, rule: Rule, env: Env)
      requires Valid() && InBounds(Words64(), incs)
      modifies table
      ensures Valid()
      ensures table.View() == match KeyOf(socks, prog, sk, env)
                              case None => old(table.View())
                              case Some(k) => Apply(Words64(), table.period, old(table.View()),
                                                    Touch(k, incs, rule, env.ts, env.room))
    {
      hide Apply;
      var k := KeyOf(socks, prog, sk, env);
      if k.Some? {
        table.Handle(Touch(k.value, incs, rule, env.ts, env.room));
      }
    }

    method SockRelease(sk: int)
      requires Valid()
      modifies this
      ensures Valid() && View() == Step(table.period, old(View()), Release(sk))
    {
      socks := socks - {sk};
    }

    method InetListen(sk: int, tgid: int, adm: Admission, env: Env)
      requires Valid()
      modifies this, table
      ensures Valid() && View() == Step(table.period, old(View()), Listen(sk, tgid, adm, env))
    {
      hide Apply;
      CreateSockMap(sk, Owner(ListenTcp, tgid), adm);
      Count(Tcp, sk, [], OnlyIfNew, env);
    }

    /** The first accept on a descriptor that was listening before the probe started. */
    method SysAccept4(sk: int, tgid: int, fd: int, adm: Admission, env: Env)
      requires Valid()
      modifies this, table
      ensures Valid() && View() == Step(table.period, old(View()), Accept(sk, tgid, fd, adm, env))
    {
      hide Apply;
      if Fd(tgid, fd) !in preset || sk == 0 {
        return;
      }
      preset := preset - {Fd(tgid, fd)};
      CreateSockMap(sk, Owner(ListenTcp, tgid), adm);
      Count(Tcp, sk, One(true, PASSIVE_OPENS), Always, env);
    }

    method TcpConnectReturn(sk: int, tgid: int, ret: int, adm: Admission, env: Env)
      requires Valid()
      modifies this, table
      ensures Valid() && View() == Step(table.period, old(View()), Connect(sk, tgid, ret, adm, env))
    {
      hide Apply;
      if sk == 0 {
        return;
      }
      CreateSockMap(sk, Owner(ClientTcp, tgid), adm);
      if ret == 0 {
        Count(Tcp, sk, One(true, ACTIVE_OPENS), Always, env);
      } else {
        Count(Tcp, sk, One(true, ACTIVE_FAILS), Always, env);
      }
    }

    method TcpConnRequest(sk: int, acceptFull: bool, synFull: bool, env: Env)
      requires Valid()
      modifies table
      ensures Valid() && View() == Step(table.period, old(View()), ConnRequest(sk, acceptFull, synFull, env))
    {
      hide Apply;
      var incs: seq<Update>, flag := [], false;
      if acceptFull {
        incs, flag := incs + One(true, ACCEPT_OVERFLOW), true;
      }
      if synFull {
        incs, flag := incs + One(true, SYN_OVERFLOW), true;
      }
      Count(Tcp, sk, incs, if flag then Always else Never, env);
      assert incs == Incs(ConnRequest(sk, acceptFull, synFull, env));
    }

    method TcpReqErr(lsk: int, abort: bool, env: Env)
      requires Valid()
      modifies table
      ensures Valid() && View() == Step(table.period, old(View()), ReqErr(lsk, abort, env))
    {
      hide Apply;
      if !abort {
        return;
      }
      Count(Tcp, lsk, One(true, LISTEN_DROPS), Always, env);
    }

    method TcpCreateOpenreqChild(sk: int, made: bool, env: Env)
      requires Valid()
      modifies table
      ensures Valid() && View() == Step(table.period, old(View()), OpenChild(sk, made, env))
    {
      hide Apply;
      Count(Tcp, sk, One(true, if made then PASSIVE_OPENS else LISTEN_DROPS), Never, env);
    }

    method TcpCheckReq(sk: int, made: bool, env: Env)
      requires Valid()
      modifies table
      ensures Valid() && View() == Step(table.period, old(View()), CheckReq(sk, made, env))
    {
      hide Apply;
      Count(Tcp, sk, One(!made, PASSIVE_FAILS), Never, env);
    }

    method TcpRetransmitSynack(sk: int, env: Env)
      requires Valid()
      modifies table
      ensures Valid() && View() == Step(table.period, old(View()), RetransSynack(sk, env))
    {
      hide Apply;
      Count(Tcp, sk, One(true, RETRANS_SYNACK), Always, env);
    }

    method InetBindReturn(sk: int, tgid: int, ret: int, dgram: bool, adm: Admission, env: Env)
      requires Valid()
      modifies this, table
      ensures Valid() && View() == Step(table.period, old(View()), Bind(sk, tgid, ret, dgram, adm, env))
    {
      hide Apply;
      if ret != 0 || sk == 0 {
        return;
      }
      if dgram {
        CreateSockMap(sk, Owner(ListenUdp, tgid), adm);
        Count(Udp, sk, [], OnlyIfNew, env);
      }
    }

    method UdpSendmsg(sk: int, len: nat, env: Env)
      requires Valid()
      modifies table
      ensures Valid() && View() == Step(table.period, old(View()), SendMsg(sk, len, env))
    {
      hide Apply;
      Count(Udp, sk, [Inc(UDP_SENDS, len)], Always, env);
    }

    method UdpRecvmsg(sk: int, len: nat, env: Env)
      requires Valid()
      modifies table
      ensures Valid() && View() == Step(table.period, old(View()), RecvMsg(sk, len, env))
    {
      hide Apply;
      Count(Udp, sk, [Inc(UDP_RCVS, len)], Always, env);
    }

    method UdpFailQueueRcvSkb(sk: int, env: Env)
      requires Valid()
      modifies table
      ensures Valid() && View() == Step(table.period, old(View()), QueueFail(sk, env))
    {
      hide Apply;
      Count(Udp, sk, One(true, QUE_RCV_FAILED), Never, env);
    }

    method UdpInitSock(sk: int, tgid: int, adm: Admission, env: Env)
      requires Valid()
      modifies this, table
      ensures Valid() && View() == Step(table.period, old(View()), InitSock(sk, tgid, adm, env))
    {
      hide Apply;
      CreateSockMap(sk, Owner(ClientUdp, tgid), adm);
      Count(Udp, sk, [], OnlyIfNew, env);
    }
  }

  // ---- runs

  ghost function Run(period: nat, preset: set<Fd>, events: seq<Event>): (r: Snapshot)
    ensures Shape(Words64(), r.meter)
  {
    if events == [] then Snapshot(map[], preset, Meter.State(map[], []))
    else Step(period, Run(period, preset, events[..|events| - 1]), events[|events| - 1])
  }

  /** What the events amount to, one by one. */
  ghost function Calls(period: nat, preset: set<Fd>, events: seq<Event>): (r: seq<Call<Key>>)
    ensures |r| == |events| && AllInBounds(Words64(), r)
  {
    seq(|events|, i requires 0 <= i < |events| => CallOf(Run(period, preset, events[..i]), events[i]))
  }

  /** What the events counted for metric `m` of endpoint `k`: the increments of every handler whose socket belonged to
      the endpoint at that moment and whose entry existed or could be made. */
  ghost function CountedFor(period: nat, preset: set<Fd>, events: seq<Event>, k: Key, m: nat): int {
    Counted(Words64(), period, Calls(period, preset, events), k, m)
  }

  lemma IncsGrow(e: Event, m: nat)
    ensures Growing(Incs(e), m) && Additive(Incs(e), m)
    ensures Amount(Incs(e), m) >= 0
  {
    AmountGrows(Incs(e), m);
  }

  lemma CallsPrefix(period: nat, preset: set<Fd>, events: seq<Event>, n: nat)
    requires n <= |events|
    ensures Calls(period, preset, events)[..n] == Calls(period, preset, events[..n])
  {
    hide Run, CallOf;
    assert forall i :: 0 <= i < n ==> events[..n][i] == events[i] && events[..n][..i] == events[..i];
  }

  lemma {:induction false} RunIsMetered(period: nat, preset: set<Fd>, events: seq<Event>)
    ensures Run(period, preset, events).meter == Meter.Run(Words64(), period, Calls(period, preset, events))
  {
    hide ApplyCall, CallOf, SocksAfter;
    if events != [] {
      RunIsMetered(period, preset, events[..|events| - 1]);
      CallsPrefix(period, preset, events, |events| - 1);
    }
  }

  lemma CallsGrow(period: nat, preset: set<Fd>, events: seq<Event>, m: nat)
    ensures AllGrowing(Calls(period, preset, events), m) && AllAdditive(Calls(period, preset, events), m)
  {
    hide Run, SocksAfter, KeyOf, Ignored, Incs, RuleOf, Growing, Additive;
    forall i | 0 <= i < |events| && Calls(period, preset, events)[i].Some?
      ensures Growing(Calls(period, preset, events)[i].value.incs, m)
      ensures Additive(Calls(period, preset, events)[i].value.incs, m)
    {
      IncsGrow(events[i], m);
    }
  }

  /** Conservation over every run of the probe, with any number of sockets sharing an endpoint: what was reported plus
      what is pending is what was counted, modulo the counter's word, and exactly as long as that fits the word. */
  lemma CountersConserved(period: nat, preset: set<Fd>, events: seq<Event>, k: Key, m: nat)
    requires m < EP_STATS_MAX
    ensures var total := Accounted(Run(period, preset, events).meter, k, m);
            var counted := CountedFor(period, preset, events, k, m);
            && Wrap(total, TWO64) == Wrap(counted, TWO64)
            && (counted < TWO64 ==> total == counted)
  {
    hide Accounted, Wrap, Run, Calls, Counted;
    RunIsMetered(period, preset, events);
    CallsGrow(period, preset, events, m);
    var calls := Calls(period, preset, events);
    Conserved(Words64(), period, calls, k, m);
    if Counted(Words64(), period, calls, k, m) < TWO64 {
      ConservedExactly(Words64(), period, calls, k, m);
    }
  }

  predicate TcpMetric(m: nat) {
    m < QUE_RCV_FAILED
  }

  predicate TcpKey(k: Key) {
    k.TcpListen? || k.TcpConnect?
  }

  lemma {:induction false} NothingForeign(period: nat, preset: set<Fd>, events: seq<Event>, k: Key, m: nat)
    requires m < EP_STATS_MAX && TcpKey(k) != TcpMetric(m)
    ensures CountedFor(period, preset, events, k, m) == 0
  {
    hide Run, Gets, CallOf, Meter.Run;
    if events != [] {
      var front, e := events[..|events| - 1], events[|events| - 1];
      var calls := Calls(period, preset, events);
      NothingForeign(period, preset, front, k, m);
      CallsPrefix(period, preset, events, |front|);
      ForeignCall(Run(period, preset, front), e, k, m);
    }
  }

  lemma ForeignCall(s: Snapshot, e: Event, k: Key, m: nat)
    requires m < EP_STATS_MAX && TcpKey(k) != TcpMetric(m)
    ensures var c := CallOf(s, e); c.Some? && c.value.key == k ==> Amount(c.value.incs, m) == 0
  {
    hide Ignored, SocksAfter, Gets, Amount, Incs, ProgOf, TcpMetric, RuleOf;
    if (ProgOf(e) == Tcp) != TcpMetric(m) {
      IncsOfProtocol(e, m);
    }
  }

  lemma IncsOfProtocol(e: Event, m: nat)
    requires m < EP_STATS_MAX && (ProgOf(e) == Tcp) != TcpMetric(m)
    ensures Amount(Incs(e), m) == 0
  {
    hide Amount;
    NoneCounted(Incs(e), m);
  }

  lemma {:induction false} NoneCounted(incs: seq<Update>, m: nat)
    requires forall i :: 0 <= i < |incs| ==> incs[i].metric != m
    ensures Amount(incs, m) == 0
  {
    if incs != [] {
      NoneCounted(incs[..|incs| - 1], m);
    }
  }

  lemma {:induction false} DeliveredCovers(reports: seq<Report<Key>>, i: nat, m: nat)
    requires i < |reports| && forall j :: 0 <= j < |reports| ==> m < |reports[j].stats|
    ensures reports[i].stats[m] <= Delivered(reports, reports[i].key, m)
  {
    var front := reports[..|reports| - 1];
    if i < |front| {
      DeliveredCovers(front, i, m);
    }
  }

  /** The protocols never mix: no TCP endpoint ever holds or reports a UDP count, nor the other way round. */
  lemma ProtocolsSeparate(period: nat, preset: set<Fd>, events: seq<Event>, k: Key, m: nat)
    requires m < EP_STATS_MAX && TcpKey(k) != TcpMetric(m)
    ensures var s := Run(period, preset, events).meter;
            && (k in s.entries ==> s.entries[k].stats[m] == 0)
            && forall i :: 0 <= i < |s.reports| && s.reports[i].key == k ==> s.reports[i].stats[m] == 0
  {
    NothingForeign(period, preset, events, k, m);
    CountersConserved(period, preset, events, k, m);
    var s := Run(period, preset, events).meter;
    forall i | 0 <= i < |s.reports| && s.reports[i].key == k
      ensures s.reports[i].stats[m] == 0
    {
      DeliveredCovers(s.reports, i, m);
    }
  }

  // ---- report times

  /** Every handler reads a later time than the ones before it. */
  ghost predicate Clocked(events: seq<Event>) {
    forall i, j :: 0 <= i < j < |events| && !events[i].Release? && !events[j].Release? ==>
      events[i].env.ts < events[j].env.ts
  }

  lemma CallsAdvance(period: nat, preset: set<Fd>, events: seq<Event>)
    requires Clocked(events)
    ensures Advancing(Calls(period, preset, events))
  {
    hide Run, SocksAfter, KeyOf, Ignored, Incs, RuleOf;
    forall i | 0 <= i < |events| && Calls(period, preset, events)[i].Some?
      ensures !events[i].Release? && Calls(period, preset, events)[i].value.ts == events[i].env.ts
    {
    }
  }

  /** On an advancing clock the reports of one endpoint are at least a period apart, whichever sockets caused them. */
  lemma EndpointReportsSpaced(period: nat, preset: set<Fd>, events: seq<Event>, i: nat, j: nat)
    requires Clocked(events)
    ensures var reports := Run(period, preset, events).meter.reports;
            i < j < |reports| && reports[i].key == reports[j].key ==> reports[i].stamp + period <= reports[j].stamp
  {
    hide Run, Calls, Clocked;
    RunIsMetered(period, preset, events);
    CallsAdvance(period, preset, events);
    var now := ReportsSpaced(Words64(), period, Calls(period, preset, events));
  }
}
