/** What the TCP probe reports, told from its event log: the role and owner of every socket, which event moves which
    counter, which reading is a sample of which gauge, and when a report is due. */
module TcpLog {
  import opened Options
  import opened Words
  import opened Meter
  import opened TcpProbe

  type Olds = map<nat, seq<OldFd>>

  // ---- roles and owners

  predicate Claims(e: Event) {
    e.Send? || e.Recv?
  }

  /** Event `i` is the first send or receive of its process, which loads the descriptors it had open before. */
  ghost predicate Loads(olds: Olds, events: seq<Event>, i: nat)
    requires i < |events|
  {
    && Claims(events[i]) && events[i].tgid in olds
    && forall j :: 0 <= j < i && Claims(events[j]) ==> events[j].tgid != events[i].tgid
  }

  /** Descriptor `o` of the process stands for the socket. */
  predicate StandsFor(o: OldFd, files: map<int, int>, sk: int) {
    o.fd != 0 && o.fd in files && files[o.fd] == sk && sk != 0
  }

  /** The role of the last of the descriptors that stand for the socket. */
  function OldRole(olds: seq<OldFd>, files: map<int, int>, sk: int): Option<nat> {
    if olds == [] then None
    else
      var o := olds[|olds| - 1];
      if StandsFor(o, files, sk) then Some(o.role) else OldRole(olds[..|olds| - 1], files, sk)
  }

  /** What the log says of a socket after `n` events: a client if its connection was established from SYN_SENT, a
      server if it was from SYN_RECV, without an owner at first; or the role of an old descriptor, owned by its process;
      then owned by whoever sent or received on it last; nothing once it is destroyed. */
  ghost function InfoAt(olds: Olds, events: seq<Event>, n: nat, sk: int): Option<SockInfo>
    requires n <= |events|
  {
    if n == 0 then None
    else
      var e, was := events[n - 1], InfoAt(olds, events, n - 1, sk);
      if Claims(e) then
        var role := if Loads(olds, events, n - 1) then OldRole(olds[e.tgid], e.files, sk) else None;
        var info := Merged(role, e.tgid, was);
        if e.sk == sk && info.Some? then Some(info.value.(tgid := e.tgid)) else info
      else if e.sk == sk then Told(e, was)
      else was
  }

  function Merged(role: Option<nat>, tgid: nat, info: Option<SockInfo>): Option<SockInfo> {
    if role.Some? then Some(SockInfo(role.value, tgid)) else info
  }

  /** What becomes of the socket of an event that is not a send or a receive. */
  function Told(e: Event, was: Option<SockInfo>): Option<SockInfo> {
    if e.SetState? && e.from == SYN_SENT && e.to == ESTABLISHED then Some(SockInfo(ROLE_CLIENT, 0))
    else if e.SetState? && e.from == SYN_RECV && e.to == ESTABLISHED then Some(SockInfo(ROLE_SERVER, 0))
    else if e.Destroy? then None
    else was
  }

  /** A socket, if it is tracked, is what the log says. */
  predicate Agrees(socks: map<int, SockInfo>, sk: int, info: Option<SockInfo>) {
    sk in socks ==> info == Some(socks[sk])
  }

  predicate Tracked(socks: map<int, SockInfo>, sk: int, info: Option<SockInfo>) {
    info.Some? ==> sk in socks
  }

  ghost predicate OldsAt(s: Snapshot, olds: Olds, events: seq<Event>, n: nat)
    requires n <= |events|
  {
    forall tgid ::
      && (tgid in s.olds <==>
            tgid in olds && forall j :: 0 <= j < n && Claims(events[j]) ==> events[j].tgid != tgid)
      && (tgid in s.olds ==> s.olds[tgid] == olds[tgid])
  }

  lemma CreatedIs(socks: map<int, SockInfo>, k: int, x: SockInfo, sk: int)
    ensures var after := Created(socks, k, x);
            && |socks| <= |after|
            && (|after| < TUPLE_MAX ==> after == socks[k := x])
            && (sk != k ==> (sk in after <==> sk in socks) && (sk in socks ==> after[sk] == socks[sk]))
            && (k in after ==> after[k] == x)
  {
  }

  lemma {:induction false} LoadedIs(socks: map<int, SockInfo>, tgid: nat, olds: seq<OldFd>, files: map<int, int>,
                                    n: nat, sk: int, info: Option<SockInfo>)
    requires n <= |olds| && Agrees(socks, sk, info)
    ensures var after, merged := Loaded(socks, tgid, olds, files, n), Merged(OldRole(olds[..n], files, sk), tgid, info);
            && |socks| <= |after| && Agrees(after, sk, merged)
            && (Tracked(socks, sk, info) && |after| < TUPLE_MAX ==> Tracked(after, sk, merged))
  {
    hide Created;
    if n > 0 {
      var o := olds[n - 1];
      LoadedIs(socks, tgid, olds, files, n - 1, sk, info);
      assert olds[..n][..n - 1] == olds[..n - 1];
      if o.fd in files {
        CreatedIs(Loaded(socks, tgid, olds, files, n - 1), files[o.fd], SockInfo(o.role, tgid), sk);
      }
    }
  }

  lemma ClaimedIs(s: Snapshot, olds: Olds, events: seq<Event>, i: nat, sk: int)
    requires i < |events| && OldsAt(s, olds, events, i) && Claims(events[i])
    requires Agrees(s.socks, sk, InfoAt(olds, events, i, sk))
    ensures var after, info := SocksAfter(s, events[i]), InfoAt(olds, events, i + 1, sk);
            && Agrees(after, sk, info)
            && (Tracked(s.socks, sk, InfoAt(olds, events, i, sk)) && |after| < TUPLE_MAX ==> Tracked(after, sk, info))
  {
    hide Loaded;
    var e := events[i];
    LoadsIff(s, olds, events, i);
    hide Loads, OldsAt;
    if e.tgid in s.olds {
      var fds := s.olds[e.tgid];
      assert fds[..|fds|] == fds;
      LoadedIs(s.socks, e.tgid, fds, e.files, |fds|, sk, InfoAt(olds, events, i, sk));
    }
  }

  lemma LoadsIff(s: Snapshot, olds: Olds, events: seq<Event>, i: nat)
    requires i < |events| && OldsAt(s, olds, events, i) && Claims(events[i])
    ensures Loads(olds, events, i) <==> events[i].tgid in s.olds
    ensures events[i].tgid in s.olds ==> events[i].tgid in olds && s.olds[events[i].tgid] == olds[events[i].tgid]
  {
  }

  lemma StepInfo(s: Snapshot, olds: Olds, events: seq<Event>, i: nat, sk: int)
    requires i < |events| && OldsAt(s, olds, events, i) && Agrees(s.socks, sk, InfoAt(olds, events, i, sk))
    ensures var after, info := SocksAfter(s, events[i]), InfoAt(olds, events, i + 1, sk);
            && Agrees(after, sk, info)
            && (Tracked(s.socks, sk, InfoAt(olds, events, i, sk)) && |after| < TUPLE_MAX ==> Tracked(after, sk, info))
  {
    hide SocksAfter, Agrees, Tracked, OldsAt, Loads, OldRole, Told;
    if Claims(events[i]) {
      ClaimedIs(s, olds, events, i, sk);
    } else {
      ToldIs(s, events[i], sk, InfoAt(olds, events, i, sk));
    }
  }

  lemma ToldIs(s: Snapshot, e: Event, sk: int, was: Option<SockInfo>)
    requires !Claims(e) && Agrees(s.socks, sk, was)
    ensures var after, info := SocksAfter(s, e), if e.sk == sk then Told(e, was) else was;
            && Agrees(after, sk, info)
            && (Tracked(s.socks, sk, was) && |after| < TUPLE_MAX ==> Tracked(after, sk, info))
  {
    hide Claimed, Created;
    CreatedIs(s.socks, e.sk, SockInfo(ROLE_CLIENT, 0), sk);
    CreatedIs(s.socks, e.sk, SockInfo(ROLE_SERVER, 0), sk);
  }

  lemma StepOlds(s: Snapshot, olds: Olds, events: seq<Event>, i: nat)
    requires i < |events| && OldsAt(s, olds, events, i)
    ensures OldsAt(s.(olds := OldsAfter(s, events[i])), olds, events, i + 1)
  {
  }

  /** The map was never full in the first `n` steps. */
  ghost predicate NeverFull(period: nat, olds: Olds, events: seq<Event>, n: nat)
    requires n <= |events|
  {
    forall i :: 0 <= i <= n ==> |TcpProbe.Run(period, olds, events[..i]).socks| < TUPLE_MAX
  }

  /** Where role and owner come from: over every run, a tracked socket has the role and the owner the log gives it, and
      while the map is not full every socket the log tells of is tracked. */
  lemma {:induction false} SocketsFromLog(period: nat, olds: Olds, events: seq<Event>, n: nat, sk: int)
    requires n <= |events|
    ensures var s := TcpProbe.Run(period, olds, events[..n]);
            && OldsAt(s, olds, events, n)
            && Agrees(s.socks, sk, InfoAt(olds, events, n, sk))
            && (NeverFull(period, olds, events, n) ==> Tracked(s.socks, sk, InfoAt(olds, events, n, sk)))
    decreases n
  {
    hide ApplyCall, CallOf, SocksAfter, InfoAt, Agrees, Tracked, OldsAt, OldsAfter;
    if n == 0 {
      NothingYet(period, olds, events, sk);
    } else {
      SocketsFromLog(period, olds, events, n - 1, sk);
      assert events[..n][..n - 1] == events[..n - 1];
      var s := TcpProbe.Run(period, olds, events[..n - 1]);
      StepInfo(s, olds, events, n - 1, sk);
      StepOlds(s, olds, events, n - 1);
      OldsOnly(s.(olds := OldsAfter(s, events[n - 1])), TcpProbe.Run(period, olds, events[..n]), olds, events, n);
    }
  }

  lemma {:induction false} LoadedBounded(socks: map<int, SockInfo>, tgid: nat, olds: seq<OldFd>, files: map<int, int>,
                                         n: nat)
    requires n <= |olds| && |socks| <= 10240
    ensures |Loaded(socks, tgid, olds, files, n)| <= 10240
  {
    if n > 0 {
      LoadedBounded(socks, tgid, olds, files, n - 1);
    }
  }

  /** The probe never tracks more than 10240 sockets. */
  lemma {:induction false} SocketsBounded(period: nat, olds: Olds, events: seq<Event>)
    ensures |TcpProbe.Run(period, olds, events).socks| <= 10240
    decreases |events|
  {
    hide ApplyCall, CallOf, Loaded, OldsAfter;
    if events != [] {
      var s, e := TcpProbe.Run(period, olds, events[..|events| - 1]), events[|events| - 1];
      SocketsBounded(period, olds, events[..|events| - 1]);
      if Claims(e) && e.tgid in s.olds {
        LoadedBounded(s.socks, e.tgid, s.olds[e.tgid], e.files, |s.olds[e.tgid]|);
      }
      if e.Destroy? {
        FewerSockets(s.socks, e.sk);
      }
    }
  }

  lemma FewerSockets(socks: map<int, SockInfo>, sk: int)
    ensures |socks - {sk}| <= |socks|
  {
    if sk in socks {
      assert (socks - {sk})[sk := socks[sk]] == socks;
    } else {
      assert socks - {sk} == socks;
    }
  }

  lemma OldsOnly(s: Snapshot, s': Snapshot, olds: Olds, events: seq<Event>, n: nat)
    requires n <= |events| && s.olds == s'.olds && OldsAt(s, olds, events, n)
    ensures OldsAt(s', olds, events, n)
  {
  }

  lemma NothingYet(period: nat, olds: Olds, events: seq<Event>, sk: int)
    ensures var s := TcpProbe.Run(period, olds, events[..0]);
            && OldsAt(s, olds, events, 0)
            && Agrees(s.socks, sk, InfoAt(olds, events, 0, sk)) && Tracked(s.socks, sk, InfoAt(olds, events, 0, sk))
  {
  }

  // ---- whose event it is

  /** The handler gets as far as the statistics. */
  predicate Acts(e: Event) {
    match e
    case SetState(_, _, _) => false
    case Destroy(_) => false
    case AddBacklog(_, discard, _) => discard
    case Filter(_, discard, _) => discard
    case CleanupRbuf(_, copied, _) => copied > 0
    case Done(_, state, _) => state == SYN_SENT || state == SYN_RECV
    case RmemSchedule(_, ret, _) => ret != 0
    case CheckOom(_, oom, _) => oom
    case _ => true
  }

  /** The link of a socket, field by field. */
  function LinkFor(info: SockInfo, flag: nat, e: Ends): Link {
    var client := info.role == ROLE_CLIENT;
    Link(tgid := info.tgid,
         clientIp := if client then e.localIp else e.remoteIp,
         serverIp := if client then e.remoteIp else e.localIp,
         serverPort := if client then Swap(e.remotePort) else e.localPort,
         clientPort := if flag != 1 then 0 else Swap(if client then e.localPort else e.remotePort),
         family := e.family, flag := flag, role := info.role)
  }

  /** The link event `i` is charged to: that of its socket, if that is tracked and the filter passes its owner. */
  ghost function ChargedTo(period: nat, olds: Olds, events: seq<Event>, i: nat): Option<Link>
    requires i < |events|
  {
    var e := events[i];
    var info := InfoAt(olds, events, i + 1, e.sk);
    if Acts(e) && e.sk != 0 && e.sk in TcpProbe.Run(period, olds, events[..i + 1]).socks
       && info.Some? && info.value.tgid != 0 && e.env.passes then
      Some(LinkFor(info.value, e.env.flag, e.env.ends))
    else None
  }

  // ---- what it counts and samples

  /** By how much an event moves a counter, counter by counter. */
  function Moves(e: Event, m: nat): int {
    if m == RX then (if e.CleanupRbuf? then e.copied else 0)
    else if m == TX then (if e.Send? then e.size else 0)
    else if m == TOTAL_RETRANS then (if e.Retransmit? then e.segs else 0)
    else if m == BACKLOG_DROPS then Times(e.AddBacklog?)
    else if m == FILTER_DROPS then Times(e.Filter?)
    else if m == TMOUT then Times(e.WriteErr?)
    else if m == SNDBUF_LIMIT then Times(e.BufLimit?)
    else if m == SEND_RSTS then Times(e.SendReset?)
    else if m == RECEIVE_RSTS then Times(e.ReceiveReset?)
    else if m == ATTEMPT_FAILS then Times(e.Done?)
    else if m == RMEM_SCHEDULS then Times(e.RmemSchedule?)
    else if m == TCP_OOM then Times(e.CheckOom?)
    else 0
  }

  function Times(hit: bool): int {
    if hit then 1 else 0
  }

  /** What a gauge samples of a socket, gauge by gauge; nothing if there is no sample. */
  function Reading(m: nat, rd: Readings): Option<nat> {
    if m == LOST_OUT then Some(rd.lost)
    else if m == SACKED_OUT then Some(rd.sacked)
    else if m == RTO then Some(U32(10000 * rd.rto))
    else if m == ATO then Some(U32(10000 * rd.ato))
    else if m == SRTT then Some(rd.srtt / 8)
    else if m == ADVMSS then Some(rd.advmss)
    else if m == REORDERING then Some(rd.reordering)
    else if m == RCV_RTT then Some(rd.rcvRtt / 8)
    else if m == ERR_QUE_SIZE then Some(rd.errQue)
    else if m == RCV_QUE_SIZE then Some(rd.rcvQue)
    else if m == WRI_QUE_SIZE then Some(rd.wriQue)
    else if m == BACKLOG_SIZE then Some(U32(rd.backlog))
    else if m == OMEM_SIZE then Some(U32(rd.omem))
    else if m == FORWARD_SIZE then Some(U32(rd.forward))
    else if m == WMEM_SIZE then Some(U32(rd.wmem))
    else if m == NOTSENT_BYTES then (if rd.sndNxt < rd.writeSeq then Some(rd.writeSeq - rd.sndNxt) else None)
    else if m == NOTACK_BYTES then (if rd.sndUna < rd.sndNxt then Some(rd.sndNxt - rd.sndUna) else None)
    else if m == SND_SSTHRESH then Some(rd.sndSsthresh)
    else if m == RCV_SSTHRESH then Some(rd.rcvSsthresh)
    else if m == SND_CWND then Some(rd.cwnd)
    else if m == RCV_SPACE then Some(rd.rcvSpace)
    else if m == DELIVERY_RATE then
      Some(if rd.delivered == 0 || rd.interval == 0 then 0 else U64(1000000 * rd.delivered * rd.mss))
    else if m == PACING_RATE then Unlimited(U32(rd.pacing))
    else if m == MAX_PACING_RATE then Unlimited(U32(rd.maxPacing))
    else if m == SND_WND then Some(rd.sndWnd)
    else if m == RCV_WND then Some(rd.rcvWnd)
    else if m == SK_DROPS then Some(rd.drops)
    else if m == BUSY_TIME then Some(U32(10000 * (rd.busy + rd.rwndLimited + rd.sndbufLimited)))
    else if m == RWND_LIMITED then Some(U32(10000 * rd.rwndLimited))
    else if m == SNDBUF_LIMITED then Some(U32(10000 * rd.sndbufLimited))
    else None
  }

  function Unlimited(rate: nat): Option<nat> {
    if rate == 0xFFFF_FFFF then None else Some(rate)
  }

  /** The sample an event takes for a gauge, as a list of at most one. */
  function SampleOf(e: Event, m: nat): seq<nat> {
    if Claims(e) then Listed(Reading(m, e.rd)) else []
  }

  // ---- the updates agree

  lemma {:induction false} SamplesAppend(a: seq<Update>, b: seq<Update>, m: nat)
    ensures Samples(a + b, m) == Samples(a, m) + Samples(b, m)
    ensures Amount(a + b, m) == Amount(a, m) + Amount(b, m)
  {
    if b == [] {
      assert a + b == a;
    } else {
      assert (a + b)[..|a + b| - 1] == a + b[..|b| - 1];
      SamplesAppend(a, b[..|b| - 1], m);
    }
  }

  /** A list of samples of successive gauges. */
  lemma {:induction false} Ladder(us: seq<Update>, low: nat, m: nat)
    requires forall j :: 0 <= j < |us| ==> us[j].metric == low + j && !us[j].Inc?
    ensures Samples(us, m) == if low <= m < low + |us| then [us[m - low].value] else []
    ensures Amount(us, m) == 0
  {
    if us != [] {
      Ladder(us[..|us| - 1], low, m);
    }
  }

  function Listed(x: Option<nat>): seq<nat> {
    if x.Some? then [x.value] else []
  }

  lemma MaxReadings(rd: Readings, m: nat)
    requires MaxGauge(m)
    ensures m < NOTSENT_BYTES ==> Reading(m, rd) == Some(MaxList(rd)[m - LOST_OUT].value)
    ensures m == NOTSENT_BYTES ==>
              Reading(m, rd) == if rd.writeSeq > rd.sndNxt then Some(Behind(rd.writeSeq, rd.sndNxt)) else None
    ensures m == NOTACK_BYTES ==>
              Reading(m, rd) == if rd.sndNxt > rd.sndUna then Some(Behind(rd.sndNxt, rd.sndUna)) else None
  {
    hide U32;
  }

  lemma WhenSamples(hit: bool, x: Update, m: nat)
    requires x.metric < METRICS && !x.Inc?
    ensures Samples(When(hit, x), m) == if hit && x.metric == m then [x.value] else []
    ensures Amount(When(hit, x), m) == 0
  {
    OneUpdate(x, m);
  }

  lemma ListSamples(rd: Readings, m: nat)
    ensures |MaxList(rd)| == NOTSENT_BYTES - LOST_OUT && |MinList(rd)| == PACING_RATE - SND_SSTHRESH
    ensures Samples(MaxList(rd), m) == if LOST_OUT <= m < NOTSENT_BYTES then [MaxList(rd)[m - LOST_OUT].value] else []
    ensures Samples(MinList(rd), m)
            == if SND_SSTHRESH <= m < PACING_RATE then [MinList(rd)[m - SND_SSTHRESH].value] else []
    ensures Amount(MaxList(rd), m) == 0 && Amount(MinList(rd), m) == 0
  {
    hide U32, DeliveryRate;
    Ladder(MaxList(rd), LOST_OUT, m);
    Ladder(MinList(rd), SND_SSTHRESH, m);
  }

  /** The parts of a sequence of updates sample and count one after the other. */
  lemma PartsAppend(a: seq<Update>, b: seq<Update>, c: seq<Update>, d: seq<Update>, m: nat)
    requires Amount(a, m) == 0 && Amount(b, m) == 0 && Amount(c, m) == 0 && Amount(d, m) == 0
    ensures Samples(a + b + c + d, m) == Samples(a, m) + Samples(b, m) + Samples(c, m) + Samples(d, m)
    ensures Amount(a + b + c + d, m) == 0
  {
    hide Samples, Amount;
    SamplesAppend(a + b + c, d, m);
    SamplesAppend(a + b, c, m);
    SamplesAppend(a, b, m);
  }

  function NotSent(rd: Readings): (r: seq<Update>) {
    When(rd.writeSeq > rd.sndNxt, Raise(NOTSENT_BYTES, Behind(rd.writeSeq, rd.sndNxt)))
  }

  function NotAcked(rd: Readings): (r: seq<Update>) {
    When(rd.sndNxt > rd.sndUna, Raise(NOTACK_BYTES, Behind(rd.sndNxt, rd.sndUna)))
  }

  lemma MaxParts(rd: Readings)
    ensures MaxSamples(rd) == MaxList(rd) + NotSent(rd) + NotAcked(rd) + []
  {
    hide MaxList, When, Behind;
  }

  lemma MaxAgree(rd: Readings, m: nat)
    ensures Samples(MaxSamples(rd), m) == if MaxGauge(m) then Listed(Reading(m, rd)) else []
    ensures Amount(MaxSamples(rd), m) == 0
  {
    hide Samples, Amount, Behind, Reading, MaxSamples, MaxList, When;
    MaxParts(rd);
    ListSamples(rd, m);
    WhenSamples(rd.writeSeq > rd.sndNxt, Raise(NOTSENT_BYTES, Behind(rd.writeSeq, rd.sndNxt)), m);
    WhenSamples(rd.sndNxt > rd.sndUna, Raise(NOTACK_BYTES, Behind(rd.sndNxt, rd.sndUna)), m);
    Ladder([], 0, m);
    PartsAppend(MaxList(rd), NotSent(rd), NotAcked(rd), [], m);
    if MaxGauge(m) {
      MaxReadings(rd, m);
    }
  }

  lemma MinReadings(rd: Readings, m: nat)
    requires MinGauge(m)
    ensures m < PACING_RATE ==> Reading(m, rd) == Some(MinList(rd)[m - SND_SSTHRESH].value)
    ensures m == PACING_RATE ==> Reading(m, rd) == Unlimited(U32(rd.pacing))
    ensures m == MAX_PACING_RATE ==> Reading(m, rd) == Unlimited(U32(rd.maxPacing))
    ensures m == SND_WND ==> Reading(m, rd) == Some(rd.sndWnd)
    ensures m == RCV_WND ==> Reading(m, rd) == Some(rd.rcvWnd)
  {
    hide U32;
    assert 1000000 * rd.delivered * rd.mss == rd.delivered * rd.mss * 1000000;
    hide U64;
  }

  function Pacing(rd: Readings): (r: seq<Update>) {
    When(U32(rd.pacing) != TWO32 - 1, Lower(PACING_RATE, U32(rd.pacing)))
  }

  function MaxPacing(rd: Readings): (r: seq<Update>) {
    When(U32(rd.maxPacing) != TWO32 - 1, Lower(MAX_PACING_RATE, U32(rd.maxPacing)))
  }

  function Windows(rd: Readings): (r: seq<Update>) {
    [Lower(SND_WND, rd.sndWnd), Lower(RCV_WND, rd.rcvWnd)]
  }

  lemma MinParts(rd: Readings)
    ensures MinSamples(rd) == MinList(rd) + Pacing(rd) + MaxPacing(rd) + Windows(rd)
  {
    hide MinList, When, U32;
  }

  lemma WindowSamples(rd: Readings, m: nat)
    ensures Samples(Windows(rd), m)
            == if m == SND_WND then [rd.sndWnd] else if m == RCV_WND then [rd.rcvWnd] else []
    ensures Amount(Windows(rd), m) == 0
  {
    Ladder(Windows(rd), SND_WND, m);
  }

  lemma MinAgree(rd: Readings, m: nat)
    ensures Samples(MinSamples(rd), m) == if MinGauge(m) then Listed(Reading(m, rd)) else []
    ensures Amount(MinSamples(rd), m) == 0
  {
    hide Samples, Amount, U32, Reading, MinSamples, MinList, When, Windows;
    MinParts(rd);
    ListSamples(rd, m);
    WhenSamples(U32(rd.pacing) != TWO32 - 1, Lower(PACING_RATE, U32(rd.pacing)), m);
    WhenSamples(U32(rd.maxPacing) != TWO32 - 1, Lower(MAX_PACING_RATE, U32(rd.maxPacing)), m);
    WindowSamples(rd, m);
    PartsAppend(MinList(rd), Pacing(rd), MaxPacing(rd), Windows(rd), m);
    if MinGauge(m) {
      MinReadings(rd, m);
    }
  }

  lemma OtherReadings(rd: Readings, m: nat)
    requires !MaxGauge(m) && !MinGauge(m)
    ensures Reading(m, rd) == if SK_DROPS <= m < METRICS then Some(StoredSamples(rd)[m - SK_DROPS].value) else None
  {
    hide U32;
  }

  lemma GaugesAgree(rd: Readings, m: nat)
    ensures Samples(Gauges(rd), m) == Listed(Reading(m, rd))
    ensures Amount(Gauges(rd), m) == 0
  {
    hide Samples, Amount, U32, MaxSamples, MinSamples, Reading;
    MaxAgree(rd, m);
    MinAgree(rd, m);
    Ladder(StoredSamples(rd), SK_DROPS, m);
    SamplesAppend(MaxSamples(rd) + MinSamples(rd), StoredSamples(rd), m);
    SamplesAppend(MaxSamples(rd), MinSamples(rd), m);
    if !MaxGauge(m) && !MinGauge(m) {
      OtherReadings(rd, m);
    }
  }

  lemma OneUpdate(x: Update, m: nat)
    ensures Amount([x], m) == if x.Inc? && x.metric == m then x.delta else 0
    ensures Samples([x], m) == if x.metric == m && !x.Inc? then [x.value] else []
  {
    assert [x][..0] == [];
  }

  lemma UpdatesAgree(e: Event, m: nat)
    requires Acts(e)
    ensures Amount(Updates(e), m) == Moves(e, m)
    ensures Samples(Updates(e), m) == SampleOf(e, m)
  {
    hide Samples, Amount, Gauges, Reading;
    if Claims(e) {
      GaugesAgree(e.rd, m);
      if e.Send? {
        OneUpdate(Inc(TX, e.size), m);
        SamplesAppend([Inc(TX, e.size)], Gauges(e.rd), m);
      }
    } else {
      OneUpdate(Updates(e)[0], m);
      assert Updates(e) == [Updates(e)[0]];
    }
  }

  // ---- runs

  ghost function ReportsAt(period: nat, olds: Olds, events: seq<Event>, n: nat): seq<Report<Link>>
    requires n <= |events|
  {
    TcpProbe.Run(period, olds, events[..n]).meter.reports
  }

  /** When the entry of a link was made: the time of the first event charged to it that found room. */
  ghost function MadeAt(period: nat, olds: Olds, events: seq<Event>, n: nat, k: Link): Option<nat>
    requires n <= |events|
  {
    if n == 0 then None
    else
      var e, was := events[n - 1], MadeAt(period, olds, events, n - 1, k);
      if was.None? && ChargedTo(period, olds, events, n - 1) == Some(k) && e.env.room then Some(e.env.ts) else was
  }

  /** Event `i` counts and samples for the link: it is charged to it, and the entry exists or can be made. */
  ghost predicate Counts(period: nat, olds: Olds, events: seq<Event>, i: nat, k: Link)
    requires i < |events|
  {
    && ChargedTo(period, olds, events, i) == Some(k)
    && (MadeAt(period, olds, events, i, k).Some? || events[i].env.room)
  }

  /** What the first `n` events count for a counter of a link. */
  ghost function Total(period: nat, olds: Olds, events: seq<Event>, n: nat, k: Link, m: nat): int
    requires n <= |events|
  {
    if n == 0 then 0
    else
      Total(period, olds, events, n - 1, k, m)
      + if Counts(period, olds, events, n - 1, k) then Moves(events[n - 1], m) else 0
  }

  /** What they sampled for a gauge of the link since its last report. */
  ghost function SamplesSince(period: nat, olds: Olds, events: seq<Event>, n: nat, k: Link, m: nat): seq<nat>
    requires n <= |events|
  {
    if n == 0 then []
    else
      var was := SamplesSince(period, olds, events, n - 1, k, m);
      if !Counts(period, olds, events, n - 1, k) then was
      else if |ReportsAt(period, olds, events, n)| > |ReportsAt(period, olds, events, n - 1)| then []
      else was + SampleOf(events[n - 1], m)
  }

  lemma CallIs(period: nat, olds: Olds, events: seq<Event>, i: nat)
    requires i < |events|
    ensures var e, s := events[i], TcpProbe.Run(period, olds, events[..i]);
            var c, k := CallOf(s, e), ChargedTo(period, olds, events, i);
            && TcpProbe.Run(period, olds, events[..i + 1]) == Step(period, s, e)
            && (c.None? <==> k.None?)
            && (c.Some? ==> Acts(e) && c.value == Touch(k.value, Updates(e), Always, e.env.ts, e.env.room))
  {
    hide InfoAt, SocksAfter, Updates, OldsAt, ApplyCall, Swap;
    assert events[..i + 1][..i] == events[..i];
    var s := TcpProbe.Run(period, olds, events[..i]);
    assert TcpProbe.Run(period, olds, events[..i + 1]) == Step(period, s, events[i]);
    SocketsFromLog(period, olds, events, i + 1, events[i].sk);
    hide TcpProbe.Run;
  }

  lemma CallsFront(period: nat, olds: Olds, events: seq<Event>, n: nat)
    requires 0 < n <= |events|
    ensures Calls(period, olds, events[..n])
            == Calls(period, olds, events[..n - 1])
               + [CallOf(TcpProbe.Run(period, olds, events[..n - 1]), events[n - 1])]
  {
    hide TcpProbe.Run, CallOf;
    CallsPrefix(period, olds, events[..n], n - 1);
    assert events[..n][..n - 1] == events[..n - 1];
  }

  lemma NoCalls(period: nat, olds: Olds, events: seq<Event>)
    requires events == []
    ensures Calls(period, olds, events) == []
  {
  }

  lemma StampedKnown(s: State<Link>, k: Link, first: Option<nat>)
    requires Stamped(s, k, first)
    ensures k in s.entries <==> first.Some?
  {
  }

  lemma {:induction false} TotalsAgree(period: nat, olds: Olds, events: seq<Event>, n: nat, k: Link, m: nat)
    requires n <= |events|
    ensures var calls := Calls(period, olds, events[..n]);
            && FirstTouch(calls, k) == MadeAt(period, olds, events, n, k)
            && Counted(LinkWords(), period, calls, k, m) == Total(period, olds, events, n, k, m)
            && Samples(Since(period, olds, events[..n], k), m) == SamplesSince(period, olds, events, n, k, m)
    decreases n
  {
    hide TcpProbe.Run, Calls, CallOf, Meter.Run, ChargedTo, Moves, Amount, Stamped, Updates, SampleOf, Samples, Apply;
    Ladder([], 0, m);
    if n > 0 {
      TotalsAgree(period, olds, events, n - 1, k, m);
      CallIs(period, olds, events, n - 1);
      CallsFront(period, olds, events, n);
      var front, calls := Calls(period, olds, events[..n - 1]), Calls(period, olds, events[..n]);
      assert calls[..|calls| - 1] == front;
      RunIsMetered(period, olds, events[..n - 1]);
      EntryStamp(LinkWords(), period, front, k);
      StampedKnown(Meter.Run(LinkWords(), period, front), k, FirstTouch(front, k));
      if ChargedTo(period, olds, events, n - 1) == Some(k) {
        UpdatesAgree(events[n - 1], m);
        SamplesAppend(Since(period, olds, events[..n - 1], k), Updates(events[n - 1]), m);
      }
    } else {
      NoCalls(period, olds, events[..0]);
    }
  }

  /** Conservation told from the event log: for every link and counter, what was reported plus what is pending is what
      the events on its sockets count, modulo the word of the counter; exactly so for all counters but retransmissions
      while the total fits the word. */
  lemma CountersFromLog(period: nat, olds: Olds, events: seq<Event>, k: Link, m: nat)
    requires Counter(m)
    ensures var total := Accounted(TcpProbe.Run(period, olds, events).meter, k, m);
            var counted := Total(period, olds, events, |events|, k, m);
            var w := if m <= TX then TWO64 else TWO32;
            && Wrap(total, w) == Wrap(counted, w)
            && (m != TOTAL_RETRANS && counted < w ==> total == counted)
  {
    hide Accounted, Wrap, TcpProbe.Run, Calls, Counted, Total, Samples, SamplesSince, Since;
    assert events[..|events|] == events;
    TotalsAgree(period, olds, events, |events|, k, m);
    CountersConserved(period, olds, events, k, m);
  }

  /** A new link is reported by the first event charged to it that finds room; an old one by every event charged to it
      whose clock is not ahead of the last report, or is at least a period ahead of it. */
  ghost predicate Due(period: nat, olds: Olds, events: seq<Event>, i: nat)
    requires i < |events|
  {
    var e, k := events[i], ChargedTo(period, olds, events, i);
    k.Some? && match MadeAt(period, olds, events, i, k.value)
               case None => e.env.room
               case Some(made) =>
                 var last := LastReport(ReportsAt(period, olds, events, i), k.value, made);
                 e.env.ts <= last || e.env.ts >= last + period
  }

  /** A maximum gauge holds the largest sample, a minimum gauge the least one since the last zero sample, a stored value
      the last one. */
  ghost predicate Carries(r: Report<Link>, m: nat, samples: seq<nat>) {
    && |r.stats| == METRICS
    && (MaxGauge(m) ==> IsMaximum(samples, r.stats[m]))
    && (MinGauge(m) ==> IsMinimumSinceZero(samples, r.stats[m]))
    && (Stored(m) ==> r.stats[m] == if samples == [] then 0 else samples[|samples| - 1])
  }

  /** A report leaves exactly when it is due, one at a time. */
  lemma LinkReportsIff(period: nat, olds: Olds, events: seq<Event>, i: nat)
    requires i < |events|
    ensures var was, now := ReportsAt(period, olds, events, i), ReportsAt(period, olds, events, i + 1);
            if Due(period, olds, events, i) then
              && |now| == |was| + 1 && now[..|was|] == was
              && Some(now[|was|].key) == ChargedTo(period, olds, events, i) && now[|was|].stamp == events[i].env.ts
            else now == was
  {
    hide Calls, CallOf, Meter.Run, TcpProbe.Run, ChargedTo, Apply, LastReport, FirstTouch, MadeAt, Updates, Since;
    hide Samples, SamplesSince, Total, Counted;
    CallIs(period, olds, events, i);
    RunIsMetered(period, olds, events[..i]);
    var c := CallOf(TcpProbe.Run(period, olds, events[..i]), events[i]);
    if c.Some? {
      TotalsAgree(period, olds, events, i, c.value.key, 0);
      ReportsIff(LinkWords(), period, Calls(period, olds, events[..i]), c.value);
    }
  }

  /** The report holds everything its link sampled since its previous report, the event itself included. */
  lemma ReportCarriesSamples(period: nat, olds: Olds, events: seq<Event>, i: nat, m: nat)
    requires i < |events| && m < METRICS && Due(period, olds, events, i)
    ensures var was, now := ReportsAt(period, olds, events, i), ReportsAt(period, olds, events, i + 1);
            && |now| == |was| + 1 && ChargedTo(period, olds, events, i).Some?
            && Carries(now[|was|], m,
                       SamplesSince(period, olds, events, i, ChargedTo(period, olds, events, i).value, m)
                       + SampleOf(events[i], m))
  {
    LinkReportsIff(period, olds, events, i);
    CallIs(period, olds, events, i);
    hide Calls, CallOf, Meter.Run, TcpProbe.Run, ChargedTo, Apply, LastReport, FirstTouch, MadeAt, Updates, Since;
    hide Samples, SamplesSince, Total, Counted, SampleOf, IsMaximum, IsMinimumSinceZero, Due, Step, MaxGauge, MinGauge;
    var k, e := ChargedTo(period, olds, events, i).value, events[i];
    TotalsAgree(period, olds, events, i, k, m);
    UpdatesAgree(e, m);
    SamplesAppend(Since(period, olds, events[..i], k), Updates(e), m);
    ReportedGauges(period, olds, events[..i], e, m);
    StepAdds(period, TcpProbe.Run(period, olds, events[..i]), e);
  }

  lemma StepAdds(period: nat, s: Snapshot, e: Event)
    requires Shape(LinkWords(), s.meter) && CallOf(s, e).Some?
    ensures Adds(LinkWords(), period, s.meter, CallOf(s, e).value) <==>
            |Step(period, s, e).meter.reports| > |s.meter.reports|
  {
    hide Apply, CallOf, SocksAfter, OldsAfter;
  }
}
