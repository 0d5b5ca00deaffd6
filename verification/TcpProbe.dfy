/** The TCP link probe: sockets carry a role and an owner, and all sockets of one link share one entry of counters and
    gauges. */
module TcpProbe {
  import opened Options
  import opened Words
  import opened Meter

  const ROLE_SERVER: nat := 0
  const ROLE_CLIENT: nat := 1

  const SYN_SENT: nat := 2
  const SYN_RECV: nat := 3
  const ESTABLISHED: nat := 1
  const FIN_WAIT1: nat := 4
  const CLOSE: nat := 7
  const CLOSE_WAIT: nat := 8

  /** Capacity of the socket map. */
  const TUPLE_MAX: nat := 10240

  datatype SockInfo = SockInfo(role: nat, tgid: nat)

  /** The two ends of a socket as the kernel stores them: the local port in host order, the remote one in network
      order. */
  datatype Ends = Ends(family: nat, localIp: int, localPort: nat, remoteIp: int, remotePort: nat)

  datatype Link = Link(
    tgid: nat, clientIp: int, serverIp: int, serverPort: nat, clientPort: nat, family: nat, flag: nat, role: nat)

  const RX: nat := 0
  const TX: nat := 1
  const TOTAL_RETRANS: nat := 2
  const BACKLOG_DROPS: nat := 3
  const FILTER_DROPS: nat := 4
  const TMOUT: nat := 5
  const SNDBUF_LIMIT: nat := 6
  const SEND_RSTS: nat := 7
  const RECEIVE_RSTS: nat := 8
  const ATTEMPT_FAILS: nat := 9
  const RMEM_SCHEDULS: nat := 10
  const TCP_OOM: nat := 11
  // maximum gauges
  const LOST_OUT: nat := 12
  const SACKED_OUT: nat := 13
  const RTO: nat := 14
  const ATO: nat := 15
  const SRTT: nat := 16
  const ADVMSS: nat := 17
  const REORDERING: nat := 18
  const RCV_RTT: nat := 19
  const ERR_QUE_SIZE: nat := 20
  const RCV_QUE_SIZE: nat := 21
  const WRI_QUE_SIZE: nat := 22
  const BACKLOG_SIZE: nat := 23
  const OMEM_SIZE: nat := 24
  const FORWARD_SIZE: nat := 25
  const WMEM_SIZE: nat := 26
  const NOTSENT_BYTES: nat := 27
  const NOTACK_BYTES: nat := 28
  // minimum gauges
  const SND_SSTHRESH: nat := 29
  const RCV_SSTHRESH: nat := 30
  const SND_CWND: nat := 31
  const RCV_SPACE: nat := 32
  const DELIVERY_RATE: nat := 33
  const PACING_RATE: nat := 34
  const MAX_PACING_RATE: nat := 35
  const SND_WND: nat := 36
  const RCV_WND: nat := 37
  // stored values
  const SK_DROPS: nat := 38
  const BUSY_TIME: nat := 39
  const RWND_LIMITED: nat := 40
  const SNDBUF_LIMITED: nat := 41
  const METRICS: nat := 42

  predicate Wide(m: nat) {
    m <= TX || m == DELIVERY_RATE
  }

  /** The byte counters and the delivery rate have 64 bits, everything else 32. */
  function LinkWords(): (r: seq<nat>)
    ensures |r| == METRICS && Moduli(r)
    ensures forall m :: 0 <= m < METRICS ==> r[m] == if Wide(m) then TWO64 else TWO32
  {
    seq(METRICS, m requires 0 <= m => if Wide(m) then TWO64 else TWO32)
  }

  predicate Counter(m: nat) {
    m <= TCP_OOM
  }

  predicate MaxGauge(m: nat) {
    LOST_OUT <= m <= NOTACK_BYTES
  }

  predicate MinGauge(m: nat) {
    SND_SSTHRESH <= m <= RCV_WND
  }

  predicate Stored(m: nat) {
    SK_DROPS <= m < METRICS
  }

  /** What the handlers read from the TCP socket. */
  datatype Readings = Readings(
    lost: nat, sacked: nat, drops: nat, rto: nat, ato: nat, srtt: nat, advmss: nat, reordering: nat, rcvRtt: nat,
    errQue: nat, rcvQue: nat, wriQue: nat, backlog: nat, omem: nat, forward: nat, wmem: nat,
    sndSsthresh: nat, rcvSsthresh: nat, cwnd: nat, rcvSpace: nat,
    delivered: nat, interval: nat, mss: nat, pacing: nat, maxPacing: nat,
    busy: nat, rwndLimited: nat, sndbufLimited: nat,
    writeSeq: nat, sndNxt: nat, sndUna: nat, sndWnd: nat, rcvWnd: nat)

  /** The clock, the answer of the process filter for the owner, the client-port setting, the ends of the socket, and
      whether a full link map refuses a new entry. */
  datatype Env = Env(ts: nat, passes: bool, flag: nat, ends: Ends, room: bool)

  /** A descriptor a process had open before the probe started, with its role. */
  datatype OldFd = OldFd(fd: int, role: nat)

  datatype Event =
    | SetState(sk: int, from: nat, to: nat)
    | Destroy(sk: int)
    | Send(sk: int, tgid: nat, size: nat, files: map<int, int>, rd: Readings, env: Env)
    | Recv(sk: int, tgid: nat, files: map<int, int>, rd: Readings, env: Env)
    | AddBacklog(sk: int, discard: bool, env: Env)
    | Filter(sk: int, discard: bool, env: Env)
    | WriteErr(sk: int, env: Env)
    | CleanupRbuf(sk: int, copied: int, env: Env)
    | BufLimit(sk: int, env: Env)
    | SendReset(sk: int, env: Env)
    | ReceiveReset(sk: int, env: Env)
    | Retransmit(sk: int, segs: int, env: Env)
    | Done(sk: int, state: nat, env: Env)
    | RmemSchedule(sk: int, ret: int, env: Env)
    | CheckOom(sk: int, oom: bool, env: Env)

  datatype Snapshot = Snapshot(socks: map<int, SockInfo>, olds: map<nat, seq<OldFd>>, meter: Meter.State<Link>)

  // ---- links

  /** Byte order of a 16-bit port. */
  function Swap(p: nat): nat {
    p % 256 * 256 + p / 256 % 256
  }

  /** The link of a socket: client and server by role, the client port only if it is asked for. */
  function LinkOf(info: SockInfo, flag: nat, e: Ends): Link {
    if info.role == ROLE_CLIENT then
      Link(info.tgid, e.localIp, e.remoteIp, Swap(e.remotePort), if flag == 1 then Swap(e.localPort) else 0,
           e.family, flag, info.role)
    else
      Link(info.tgid, e.remoteIp, e.localIp, e.localPort, if flag == 1 then Swap(e.remotePort) else 0,
           e.family, flag, info.role)
  }

  function KeyOf(socks: map<int, SockInfo>, sk: int, env: Env): Option<Link> {
    if sk == 0 || sk !in socks || socks[sk].tgid == 0 || !env.passes then None
    else Some(LinkOf(socks[sk], env.flag, env.ends))
  }

  predicate PortsFit(e: Ends) {
    e.localPort < 65536 && e.remotePort < 65536
  }

  /** The high byte and the low byte change places. */
  lemma SwapsBytes(a: nat, b: nat)
    requires a < 256 && b < 256
    ensures Swap(256 * a + b) == 256 * b + a
  {
  }

  lemma SwapInvolutive(p: nat)
    requires p < 65536
    ensures Swap(Swap(p)) == p
  {
    var a, b := p / 256, p % 256;
    assert p == 256 * a + b && a < 256 && Swap(p) == 256 * b + a;
    assert (256 * b + a) / 256 == b && (256 * b + a) % 256 == a;
  }

  /** Which sockets share an entry: those of one process in one role between the same hosts and on the same server port,
      and also on the same client port if that is asked for. */
  lemma SharedIff(i: SockInfo, j: SockInfo, flag: nat, d: Ends, e: Ends)
    requires PortsFit(d) && PortsFit(e)
    ensures LinkOf(i, flag, d) == LinkOf(j, flag, e) <==>
            && i == j && d.family == e.family && d.localIp == e.localIp && d.remoteIp == e.remoteIp
            && (i.role == ROLE_CLIENT || flag == 1 ==> d.remotePort == e.remotePort)
            && (i.role != ROLE_CLIENT || flag == 1 ==> d.localPort == e.localPort)
  {
    hide Swap;
    SwapInvolutive(d.localPort);
    SwapInvolutive(d.remotePort);
    SwapInvolutive(e.localPort);
    SwapInvolutive(e.remotePort);
  }

  // ---- sockets

  function Created(socks: map<int, SockInfo>, sk: int, info: SockInfo): map<int, SockInfo> {
    if sk in socks || |socks| < TUPLE_MAX then socks[sk := info] else socks
  }

  /** The sockets behind the first `n` old descriptors of a process. */
  function Loaded(socks: map<int, SockInfo>, tgid: nat, olds: seq<OldFd>, files: map<int, int>, n: nat): map<int,
                  SockInfo>
    requires n <= |olds|
  {
    if n == 0 then socks
    else
      var s, o := Loaded(socks, tgid, olds, files, n - 1), olds[n - 1];
      if o.fd == 0 || o.fd !in files || files[o.fd] == 0 then s else Created(s, files[o.fd], SockInfo(o.role, tgid))
  }

  function Owned(socks: map<int, SockInfo>, sk: int, tgid: nat): map<int, SockInfo> {
    if sk in socks then socks[sk := socks[sk].(tgid := tgid)] else socks
  }

  /** What a send or receive does to the sockets: load the old descriptors of the process once, then own the socket. */
  function Claimed(s: Snapshot, sk: int, tgid: nat, files: map<int, int>): map<int, SockInfo> {
    var loaded := if tgid in s.olds then Loaded(s.socks, tgid, s.olds[tgid], files, |s.olds[tgid]|) else s.socks;
    Owned(loaded, sk, tgid)
  }

  function SocksAfter(s: Snapshot, e: Event): map<int, SockInfo> {
    match e
    case SetState(sk, from, to) =>
      if from == SYN_SENT && to == ESTABLISHED then Created(s.socks, sk, SockInfo(ROLE_CLIENT, 0))
      else if from == SYN_RECV && to == ESTABLISHED then Created(s.socks, sk, SockInfo(ROLE_SERVER, 0))
      else s.socks
    case Destroy(sk) => s.socks - {sk}
    case Send(sk, tgid, _, files, _, _) => Claimed(s, sk, tgid, files)
    case Recv(sk, tgid, files, _, _) => Claimed(s, sk, tgid, files)
    case _ => s.socks
  }

  function OldsAfter(s: Snapshot, e: Event): map<nat, seq<OldFd>> {
    if e.Send? || e.Recv? then s.olds - {e.tgid} else s.olds
  }

  // ---- statistics

  function When(hit: bool, x: Update): (r: seq<Update>)
    requires x.metric < METRICS
    ensures InBounds(LinkWords(), r)
  {
    if hit then [x] else []
  }

  /** A hundred ticks a second, in microseconds, as an unsigned int. */
  function Usecs(jiffies: nat): nat {
    U32(10000 * jiffies)
  }

  /** Bytes per second times the interval, or 0 if there was no sample: the interval is not divided out. */
  function DeliveryRate(rd: Readings): nat {
    if rd.delivered != 0 && rd.interval != 0 then U64(rd.delivered * rd.mss * 1000000) else 0
  }

  function MaxList(rd: Readings): (r: seq<Update>)
    ensures InBounds(LinkWords(), r)
  {
    [Raise(LOST_OUT, rd.lost), Raise(SACKED_OUT, rd.sacked), Raise(RTO, Usecs(rd.rto)), Raise(ATO, Usecs(rd.ato)),
     Raise(SRTT, rd.srtt / 8), Raise(ADVMSS, rd.advmss), Raise(REORDERING, rd.reordering),
     Raise(RCV_RTT, rd.rcvRtt / 8), Raise(ERR_QUE_SIZE, rd.errQue), Raise(RCV_QUE_SIZE, rd.rcvQue),
     Raise(WRI_QUE_SIZE, rd.wriQue), Raise(BACKLOG_SIZE, U32(rd.backlog)), Raise(OMEM_SIZE, U32(rd.omem)),
     Raise(FORWARD_SIZE, U32(rd.forward)), Raise(WMEM_SIZE, U32(rd.wmem))]
  }

  function MinList(rd: Readings): (r: seq<Update>)
    ensures InBounds(LinkWords(), r)
  {
    [Lower(SND_SSTHRESH, rd.sndSsthresh), Lower(RCV_SSTHRESH, rd.rcvSsthresh), Lower(SND_CWND, rd.cwnd),
     Lower(RCV_SPACE, rd.rcvSpace), Lower(DELIVERY_RATE, DeliveryRate(rd))]
  }

  /** The maximum gauges in the order of their numbers; the last two only move if there is something outstanding. */
  function MaxSamples(rd: Readings): (r: seq<Update>)
    ensures InBounds(LinkWords(), r)
  {
    MaxList(rd)
    + When(rd.writeSeq > rd.sndNxt, Raise(NOTSENT_BYTES, Behind(rd.writeSeq, rd.sndNxt)))
    + When(rd.sndNxt > rd.sndUna, Raise(NOTACK_BYTES, Behind(rd.sndNxt, rd.sndUna)))
  }

  function Behind(a: nat, b: nat): nat {
    if a > b then a - b else 0
  }

  /** The minimum gauges in the order of their numbers; an unlimited pacing rate is no sample. */
  function MinSamples(rd: Readings): (r: seq<Update>)
    ensures InBounds(LinkWords(), r)
  {
    MinList(rd)
    + When(U32(rd.pacing) != TWO32 - 1, Lower(PACING_RATE, U32(rd.pacing)))
    + When(U32(rd.maxPacing) != TWO32 - 1, Lower(MAX_PACING_RATE, U32(rd.maxPacing)))
    + [Lower(SND_WND, rd.sndWnd), Lower(RCV_WND, rd.rcvWnd)]
  }

  /** The stored values. The running interval of the busy times is never added: its mask leaves no number it is
      compared with. */
  function StoredSamples(rd: Readings): (r: seq<Update>)
    ensures InBounds(LinkWords(), r)
  {
    [Put(SK_DROPS, rd.drops), Put(BUSY_TIME, U32(10000 * (rd.busy + rd.rwndLimited + rd.sndbufLimited))),
     Put(RWND_LIMITED, Usecs(rd.rwndLimited)), Put(SNDBUF_LIMITED, Usecs(rd.sndbufLimited))]
  }

  /** All samples of one handler; no two of them are of one gauge. */
  function Gauges(rd: Readings): (r: seq<Update>)
    ensures InBounds(LinkWords(), r)
  {
    MaxSamples(rd) + MinSamples(rd) + StoredSamples(rd)
  }

  /** A handler that returns before it looks the link up. */
  predicate Ignored(e: Event) {
    match e
    case SetState(_, _, _) => true
    case Destroy(_) => true
    case AddBacklog(_, discard, _) => !discard
    case Filter(_, discard, _) => !discard
    case CleanupRbuf(_, copied, _) => copied <= 0
    case Done(_, state, _) => state != SYN_SENT && state != SYN_RECV
    case RmemSchedule(sk, ret, _) => ret == 0 || sk == 0
    case CheckOom(sk, oom, _) => !oom || sk == 0
    case _ => false
  }

  function Updates(e: Event): (r: seq<Update>)
    ensures InBounds(LinkWords(), r)
  {
    match e
    case Send(_, _, size, _, rd, _) => [Inc(TX, size)] + Gauges(rd)
    case Recv(_, _, _, rd, _) => Gauges(rd)
    case AddBacklog(_, _, _) => [Inc(BACKLOG_DROPS, 1)]
    case Filter(_, _, _) => [Inc(FILTER_DROPS, 1)]
    case WriteErr(_, _) => [Inc(TMOUT, 1)]
    case CleanupRbuf(_, copied, _) => [Inc(RX, copied)]
    case BufLimit(_, _) => [Inc(SNDBUF_LIMIT, 1)]
    case SendReset(_, _) => [Inc(SEND_RSTS, 1)]
    case ReceiveReset(_, _) => [Inc(RECEIVE_RSTS, 1)]
    case Retransmit(_, segs, _) => [Inc(TOTAL_RETRANS, segs)]
    case Done(_, _, _) => [Inc(ATTEMPT_FAILS, 1)]
    case RmemSchedule(_, _, _) => [Inc(RMEM_SCHEDULS, 1)]
    case CheckOom(_, _, _) => [Inc(TCP_OOM, 1)]
    case _ => []
  }

  function CallOf(s: Snapshot, e: Event): (r: Call<Link>)
    ensures CallInBounds(LinkWords(), r)
  {
    if Ignored(e) then None
    else
      match KeyOf(SocksAfter(s, e), e.sk, e.env)
      case None => None
      case Some(k) => Some(Touch(k, Updates(e), Always, e.env.ts, e.env.room))
  }

  function Step(period: nat, s: Snapshot, e: Event): (r: Snapshot)
    requires Shape(LinkWords(), s.meter)
    ensures Shape(LinkWords(), r.meter)
  {
    Snapshot(SocksAfter(s, e), OldsAfter(s, e),
             ApplyCall(LinkWords(), period, s.meter, CallOf(s, e)))
  }

  // ---- the handlers

  class Probe {
    const table: Table<Link>
    var socks: map<int, SockInfo>
    var olds: map<nat, seq<OldFd>>

    function View(): Snapshot
      reads this, table
    {
      Snapshot(socks, olds, table.View())
    }

    ghost predicate Valid()
      reads this, table
    {
      table.mods == LinkWords() && table.Valid()
    }

    constructor (period: nat, olds: map<nat, seq<OldFd>>)
      ensures Valid() && fresh(table) && table.period == period
      ensures View() == Snapshot(map[], olds, Meter.State(map[], []))
    {
      table := new Table<Link>(LinkWords(), period);
      socks, this.olds := map[], olds;
    }

    method CreateSockObj(sk: int, info: SockInfo)
      modifies this`socks
      ensures socks == Created(old(socks), sk, info)
    {
      if sk in socks || |socks| < TUPLE_MAX {
        socks := socks[sk := info];
      }
    }

    /** The probe never deletes a link: the setting is looked up in a key that was just zeroed. */
    method DeleteTcpLink(sk: int) returns (r: int)
      ensures r == 0
    {
      var link := Link(0, 0, 0, 0, 0, 0, 0, 0);
      if link.flag != 0 {
        assert false; // the key would be looked up and deleted here
      }
      r := 0;
    }

    method LoadTcpFd(tgid: nat, files: map<int, int>)
      modifies this`socks, this`olds
      ensures socks == if tgid !in old(olds) then old(socks)
                       else Loaded(old(socks), tgid, old(olds)[tgid], files, |old(olds)[tgid]|)
      ensures olds == old(olds) - {tgid}
    {
      if tgid !in olds {
        assert olds - {tgid} == olds;
        return;
      }
      var fds := olds[tgid];
      for i := 0 to |fds|
        invariant olds == old(olds) && socks == Loaded(old(socks), tgid, fds, files, i)
      {
        if fds[i].fd != 0 && fds[i].fd in files && files[fds[i].fd] != 0 {
          CreateSockObj(files[fds[i].fd], SockInfo(fds[i].role, tgid));
        }
      }
      olds := olds - {tgid};
    }

    method UpdateSockObj(sk: int, tgid: nat)
      modifies this`socks
      ensures socks == Owned(old(socks), sk, tgid)
    {
      if sk in socks {
        socks := socks[sk := socks[sk].(tgid := tgid)];
      }
    }

    /** Find the link of the socket; then look its entry up, update its statistics and report. */
    method Count(sk: int, updates: seq<Update>, env: Env)
      requires Valid() && InBounds(LinkWords(), updates)
      modifies table
      ensures Valid()
      ensures var k := KeyOf(socks, sk, env);
              table.View() == if k.None? then old(table.View())
                              else Apply(LinkWords(), table.period, old(table.View()),
                                         Touch(k.value, updates, Always, env.ts, env.room))
    {
      hide LinkOf, Apply;
      var k := KeyOf(socks, sk, env);
      if k.Some? {
        table.Handle(Touch(k.value, updates, Always, env.ts, env.room));
      }
    }

    method TcpSetState(sk: int, from: nat, to: nat)
      requires Valid()
      modifies this
      ensures Valid() && View() == Step(table.period, old(View()), SetState(sk, from, to))
    {
      hide Apply;
      if from == SYN_SENT && to == ESTABLISHED {
        CreateSockObj(sk, SockInfo(ROLE_CLIENT, 0));
      }
      if from == SYN_RECV && to == ESTABLISHED {
        CreateSockObj(sk, SockInfo(ROLE_SERVER, 0));
      }
      if to == CLOSE || to == CLOSE_WAIT || to == FIN_WAIT1 {
        var r := DeleteTcpLink(sk);
      }
    }

    method TcpDestroySock(sk: int)
      requires Valid()
      modifies this
      ensures Valid() && View() == Step(table.period, old(View()), Destroy(sk))
    {
      hide Apply;
      socks := socks - {sk};
    }

    method TcpSendmsg(sk: int, tgid: nat, size: nat, files: map<int, int>, rd: Readings, env: Env)
      requires Valid()
      modifies this, table
      ensures Valid() && View() == Step(table.period, old(View()), Send(sk, tgid, size, files, rd, env))
    {
      hide Apply, Loaded, KeyOf, Gauges;
      LoadTcpFd(tgid, files);
      UpdateSockObj(sk, tgid);
      Count(sk, [Inc(TX, size)] + Gauges(rd), env);
    }

    method TcpRecvmsg(sk: int, tgid: nat, files: map<int, int>, rd: Readings, env: Env)
      requires Valid()
      modifies this, table
      ensures Valid() && View() == Step(table.period, old(View()), Recv(sk, tgid, files, rd, env))
    {
      hide Apply, Loaded, KeyOf, Gauges;
      LoadTcpFd(tgid, files);
      UpdateSockObj(sk, tgid);
      Count(sk, Gauges(rd), env);
    }

    method TcpAddBacklogReturn(sk: int, discard: bool, env: Env)
      requires Valid()
      modifies table
      ensures Valid() && View() == Step(table.period, old(View()), AddBacklog(sk, discard, env))
    {
      hide Apply, KeyOf, Gauges;
      if discard {
        Count(sk, [Inc(BACKLOG_DROPS, 1)], env);
      }
    }

    method TcpFilterReturn(sk: int, discard: bool, env: Env)
      requires Valid()
      modifies table
      ensures Valid() && View() == Step(table.period, old(View()), Filter(sk, discard, env))
    {
      hide Apply, KeyOf, Gauges;
      if discard {
        Count(sk, [Inc(FILTER_DROPS, 1)], env);
      }
    }

    method TcpWriteErr(sk: int, env: Env)
      requires Valid()
      modifies table
      ensures Valid() && View() == Step(table.period, old(View()), WriteErr(sk, env))
    {
      hide Apply, KeyOf, Gauges;
      Count(sk, [Inc(TMOUT, 1)], env);
    }

    method TcpCleanupRbuf(sk: int, copied: int, env: Env)
      requires Valid()
      modifies table
      ensures Valid() && View() == Step(table.period, old(View()), CleanupRbuf(sk, copied, env))
    {
      hide Apply, KeyOf, Gauges;
      if copied <= 0 {
        return;
      }
      Count(sk, [Inc(RX, copied)], env);
    }

    method SockExceedBufLimit(sk: int, env: Env)
      requires Valid()
      modifies table
      ensures Valid() && View() == Step(table.period, old(View()), BufLimit(sk, env))
    {
      hide Apply, KeyOf, Gauges;
      Count(sk, [Inc(SNDBUF_LIMIT, 1)], env);
    }

    method TcpSendReset(sk: int, env: Env)
      requires Valid()
      modifies table
      ensures Valid() && View() == Step(table.period, old(View()), SendReset(sk, env))
    {
      hide Apply, KeyOf, Gauges;
      Count(sk, [Inc(SEND_RSTS, 1)], env);
    }

    method TcpReceiveReset(sk: int, env: Env)
      requires Valid()
      modifies table
      ensures Valid() && View() == Step(table.period, old(View()), ReceiveReset(sk, env))
    {
      hide Apply, KeyOf, Gauges;
      Count(sk, [Inc(RECEIVE_RSTS, 1)], env);
    }

    method TcpRetransmitSkb(sk: int, segs: int, env: Env)
      requires Valid()
      modifies table
      ensures Valid() && View() == Step(table.period, old(View()), Retransmit(sk, segs, env))
    {
      hide Apply, KeyOf, Gauges;
      Count(sk, [Inc(TOTAL_RETRANS, segs)], env);
    }

    method TcpDone(sk: int, state: nat, env: Env)
      requires Valid()
      modifies table
      ensures Valid() && View() == Step(table.period, old(View()), Done(sk, state, env))
    {
      hide Apply, KeyOf, Gauges;
      if state == SYN_SENT || state == SYN_RECV {
        Count(sk, [Inc(ATTEMPT_FAILS, 1)], env);
      }
    }

    method TcpTryRmemScheduleReturn(sk: int, ret: int, env: Env)
      requires Valid()
      modifies table
      ensures Valid() && View() == Step(table.period, old(View()), RmemSchedule(sk, ret, env))
    {
      hide Apply, KeyOf, Gauges;
      if ret == 0 || sk == 0 {
        return;
      }
      Count(sk, [Inc(RMEM_SCHEDULS, 1)], env);
    }

    method TcpCheckOomReturn(sk: int, oom: bool, env: Env)
      requires Valid()
      modifies table
      ensures Valid() && View() == Step(table.period, old(View()), CheckOom(sk, oom, env))
    {
      hide Apply, KeyOf, Gauges;
      if !oom || sk == 0 {
        return;
      }
      Count(sk, [Inc(TCP_OOM, 1)], env);
    }
  }

  // ---- runs

  ghost function Run(period: nat, olds: map<nat, seq<OldFd>>, events: seq<Event>): (r: Snapshot)
    ensures Shape(LinkWords(), r.meter)
  {
    if events == [] then Snapshot(map[], olds, Meter.State(map[], []))
    else Step(period, Run(period, olds, events[..|events| - 1]), events[|events| - 1])
  }

  /** What the events amount to, one by one. */
  ghost function Calls(period: nat, olds: map<nat, seq<OldFd>>, events: seq<Event>): (r: seq<Call<Link>>)
    ensures |r| == |events| && AllInBounds(LinkWords(), r)
  {
    seq(|events|, i requires 0 <= i < |events| => CallOf(Run(period, olds, events[..i]), events[i]))
  }

  /** What the events counted for counter `m` of link `k`. */
  ghost function CountedFor(period: nat, olds: map<nat, seq<OldFd>>, events: seq<Event>, k: Link, m: nat): int {
    Counted(LinkWords(), period, Calls(period, olds, events), k, m)
  }

  lemma CallsPrefix(period: nat, olds: map<nat, seq<OldFd>>, events: seq<Event>, n: nat)
    requires n <= |events|
    ensures Calls(period, olds, events)[..n] == Calls(period, olds, events[..n])
  {
    hide Run, CallOf;
    assert forall i :: 0 <= i < n ==> events[..n][i] == events[i] && events[..n][..i] == events[..i];
  }

  lemma {:induction false} RunIsMetered(period: nat, olds: map<nat, seq<OldFd>>, events: seq<Event>)
    ensures Run(period, olds, events).meter == Meter.Run(LinkWords(), period, Calls(period, olds, events))
  {
    hide ApplyCall, CallOf, SocksAfter, OldsAfter;
    if events != [] {
      RunIsMetered(period, olds, events[..|events| - 1]);
      CallsPrefix(period, olds, events, |events| - 1);
    }
  }

  /** Counters are only added to, maximum gauges only raised, minimum gauges only lowered. */
  predicate Fits(x: Update) {
    && (Counter(x.metric) ==> x.Inc?)
    && (MaxGauge(x.metric) ==> x.Raise?)
    && (MinGauge(x.metric) ==> x.Lower?)
    && (Stored(x.metric) ==> x.Put?)
    && (x.Inc? && x.metric != TOTAL_RETRANS ==> x.delta >= 0)
  }

  const FITS := (x: Update) => Fits(x)

  lemma MaxFits(rd: Readings)
    ensures AllHave(MaxSamples(rd), FITS)
  {
    var a := MaxList(rd);
    var b := When(rd.writeSeq > rd.sndNxt, Raise(NOTSENT_BYTES, Behind(rd.writeSeq, rd.sndNxt)));
    var c := When(rd.sndNxt > rd.sndUna, Raise(NOTACK_BYTES, Behind(rd.sndNxt, rd.sndUna)));
    assert AllHave(a, FITS) && AllHave(b, FITS) && AllHave(c, FITS);
    hide Fits, MaxList;
    assert MaxSamples(rd) == a + b + c;
  }

  lemma MinFits(rd: Readings)
    ensures AllHave(MinSamples(rd), FITS)
  {
    var a := MinList(rd);
    var b := When(U32(rd.pacing) != TWO32 - 1, Lower(PACING_RATE, U32(rd.pacing)));
    var c := When(U32(rd.maxPacing) != TWO32 - 1, Lower(MAX_PACING_RATE, U32(rd.maxPacing)));
    var d := [Lower(SND_WND, rd.sndWnd), Lower(RCV_WND, rd.rcvWnd)];
    assert AllHave(a, FITS) && AllHave(b, FITS) && AllHave(c, FITS) && AllHave(d, FITS);
    hide Fits, MinList;
    assert MinSamples(rd) == a + b + c + d;
  }

  lemma GaugesFit(rd: Readings)
    ensures AllHave(Gauges(rd), FITS)
  {
    MaxFits(rd);
    MinFits(rd);
    assert AllHave(StoredSamples(rd), FITS);
    hide Fits, MaxSamples, MinSamples, StoredSamples;
  }

  /** Only retransmissions may shrink their counter. */
  lemma UpdatesFit(e: Event)
    requires !Ignored(e)
    ensures AllHave(Updates(e), FITS)
  {
    hide Gauges;
    if e.Send? || e.Recv? {
      GaugesFit(e.rd);
    }
  }

  lemma CallsFit(period: nat, olds: map<nat, seq<OldFd>>, events: seq<Event>)
    ensures forall i :: 0 <= i < |events| && Calls(period, olds, events)[i].Some? ==>
              AllHave(Calls(period, olds, events)[i].value.incs, FITS)
  {
    hide Run, SocksAfter, KeyOf, Updates, Ignored, AllHave;
    forall i | 0 <= i < |events| && Calls(period, olds, events)[i].Some?
      ensures AllHave(Calls(period, olds, events)[i].value.incs, FITS)
    {
      UpdatesFit(events[i]);
    }
  }

  lemma FittingCounter(us: seq<Update>, m: nat)
    requires AllHave(us, FITS)
    ensures Counter(m) ==> Additive(us, m)
    ensures Counter(m) && m != TOTAL_RETRANS ==> Growing(us, m)
    ensures MaxGauge(m) ==> Only(us, m, (x: Update) => x.Raise?)
    ensures MinGauge(m) ==> Only(us, m, (x: Update) => x.Lower?)
    ensures Stored(m) ==> Only(us, m, (x: Update) => x.Put?)
  {
    assert forall i :: 0 <= i < |us| ==> FITS(us[i]);
  }

  lemma CallsCount(period: nat, olds: map<nat, seq<OldFd>>, events: seq<Event>, m: nat)
    requires Counter(m)
    ensures AllAdditive(Calls(period, olds, events), m)
    ensures m != TOTAL_RETRANS ==> AllGrowing(Calls(period, olds, events), m)
  {
    hide Calls, Additive, Growing, Counter;
    var calls := Calls(period, olds, events);
    CallsFit(period, olds, events);
    forall i | 0 <= i < |calls| && calls[i].Some?
      ensures Additive(calls[i].value.incs, m)
      ensures m != TOTAL_RETRANS ==> Growing(calls[i].value.incs, m)
    {
      FittingCounter(calls[i].value.incs, m);
    }
  }

  /** Conservation: for every link and counter, what was reported plus what is pending is what its sockets counted,
      modulo the word of the counter; exactly so for all counters but retransmissions while the total fits the word. */
  lemma CountersConserved(period: nat, olds: map<nat, seq<OldFd>>, events: seq<Event>, k: Link, m: nat)
    requires Counter(m)
    ensures var total := Accounted(Run(period, olds, events).meter, k, m);
            var counted := CountedFor(period, olds, events, k, m);
            var w := if m <= TX then TWO64 else TWO32;
            && Wrap(total, w) == Wrap(counted, w)
            && (m != TOTAL_RETRANS && counted < w ==> total == counted)
  {
    hide Accounted, Wrap, Run, Calls, Counted;
    RunIsMetered(period, olds, events);
    CallsCount(period, olds, events, m);
    var calls := Calls(period, olds, events);
    Conserved(LinkWords(), period, calls, k, m);
    if m != TOTAL_RETRANS && Counted(LinkWords(), period, calls, k, m) < LinkWords()[m] {
      ConservedExactly(LinkWords(), period, calls, k, m);
    }
  }

  /** The updates a link received since its last report. */
  ghost function Since(period: nat, olds: map<nat, seq<OldFd>>, events: seq<Event>, k: Link): (r: seq<Update>)
    ensures InBounds(LinkWords(), r)
  {
    Window(LinkWords(), period, Calls(period, olds, events), k)
  }

  /** A reporting event adds one report, of its own link, with everything that link received since its previous
      report. */
  lemma ReportCarriesWindow(period: nat, olds: map<nat, seq<OldFd>>, events: seq<Event>, e: Event)
    ensures var s := Run(period, olds, events);
            var call := CallOf(s, e);
            call.Some? && Adds(LinkWords(), period, s.meter, call.value) ==>
              var k := call.value.key;
              Step(period, s, e).meter.reports == s.meter.reports
                + [Report(k, e.env.ts, Added(LinkWords(), Zeros(METRICS), Since(period, olds, events, k) + Updates(e)))]
  {
    hide Run, SocksAfter, OldsAfter, KeyOf, Updates, Ignored, Gets, Adds, Apply, Window, Calls, Added, Meter.Run;
    var call := CallOf(Run(period, olds, events), e);
    if call.Some? {
      RunIsMetered(period, olds, events);
      ReportIsWindow(LinkWords(), period, Calls(period, olds, events), call.value);
    }
  }

  /** A report carries the gauges of exactly its own window: a maximum gauge the largest sample since the previous
      report of the link, a minimum gauge the least one since the last zero sample, a stored value the last one. */
  lemma ReportedGauges(period: nat, olds: map<nat, seq<OldFd>>, events: seq<Event>, e: Event, m: nat)
    requires m < METRICS
    ensures var s := Run(period, olds, events);
            var call := CallOf(s, e);
            call.Some? && Adds(LinkWords(), period, s.meter, call.value) ==>
              var k := call.value.key;
              var samples := Samples(Since(period, olds, events, k) + Updates(e), m);
              var reports := Step(period, s, e).meter.reports;
              && |reports| == |s.meter.reports| + 1
              && reports[|reports| - 1].key == k
              && |reports[|reports| - 1].stats| == METRICS
              && (MaxGauge(m) ==> IsMaximum(samples, reports[|reports| - 1].stats[m]))
              && (MinGauge(m) ==> IsMinimumSinceZero(samples, reports[|reports| - 1].stats[m]))
              && (Stored(m) ==> reports[|reports| - 1].stats[m] == LastOf(samples))
  {
    hide Run, SocksAfter, OldsAfter, KeyOf, Updates, Gets, Adds, Apply, MaxGauge, MinGauge, Window, Calls;
    hide Stored, Samples, LastOf, IsMaximum, IsMinimumSinceZero, Added, AllHave;
    var s := Run(period, olds, events);
    var call := CallOf(s, e);
    if call.Some? && Adds(LinkWords(), period, s.meter, call.value) {
      var since := Since(period, olds, events, call.value.key);
      WindowFits(period, olds, events, e, call.value.key);
      FittingCounter(since + Updates(e), m);
      ReportCarriesWindow(period, olds, events, e);
      if MaxGauge(m) {
        RaisedIsMaximum(LinkWords(), since + Updates(e), m);
      }
      if MinGauge(m) {
        LoweredIsMinimum(LinkWords(), since + Updates(e), m);
      }
      if Stored(m) {
        PutIsLast(LinkWords(), since + Updates(e), m);
      }
    }
  }

  lemma WindowFits(period: nat, olds: map<nat, seq<OldFd>>, events: seq<Event>, e: Event, k: Link)
    requires !Ignored(e)
    ensures AllHave(Since(period, olds, events, k) + Updates(e), FITS)
  {
    hide Calls, Window, Updates, Fits, Ignored;
    CallsFit(period, olds, events);
    WindowHas(LinkWords(), period, Calls(period, olds, events), k, FITS);
    UpdatesFit(e);
  }

  /** A remark on `DeleteTcpLink`: as its removal is never reached, the link map only ever grows. */
  lemma LinksNeverForgotten(period: nat, olds: map<nat, seq<OldFd>>, events: seq<Event>, n: nat, k: Link)
    requires n <= |events| && k in Run(period, olds, events[..n]).meter.entries
    ensures k in Run(period, olds, events).meter.entries
  {
    hide Run, Calls, Meter.Run;
    RunIsMetered(period, olds, events);
    RunIsMetered(period, olds, events[..n]);
    CallsPrefix(period, olds, events, n);
    EntriesStay(LinkWords(), period, Calls(period, olds, events), n, k);
  }

  // ---- report times

  /** Every handler reads a later time than the ones before it. */
  ghost predicate Clocked(events: seq<Event>) {
    forall i, j :: 0 <= i < j < |events| && HasClock(events[i]) && HasClock(events[j]) ==>
      events[i].env.ts < events[j].env.ts
  }

  predicate HasClock(e: Event) {
    !e.SetState? && !e.Destroy?
  }

  lemma CallsAdvance(period: nat, olds: map<nat, seq<OldFd>>, events: seq<Event>)
    requires Clocked(events)
    ensures Advancing(Calls(period, olds, events))
  {
    hide Run, SocksAfter, KeyOf, Updates;
    forall i | 0 <= i < |events| && Calls(period, olds, events)[i].Some?
      ensures HasClock(events[i]) && Calls(period, olds, events)[i].value.ts == events[i].env.ts
    {
    }
  }

  /** On an advancing clock the reports of one link are at least a period apart. */
  lemma LinkReportsSpaced(period: nat, olds: map<nat, seq<OldFd>>, events: seq<Event>, i: nat, j: nat)
    requires Clocked(events)
    ensures var reports := Run(period, olds, events).meter.reports;
            i < j < |reports| && reports[i].key == reports[j].key ==> reports[i].stamp + period <= reports[j].stamp
  {
    hide Run, Calls, Clocked;
    RunIsMetered(period, olds, events);
    CallsAdvance(period, olds, events);
    var now := ReportsSpaced(LinkWords(), period, Calls(period, olds, events));
  }
}
