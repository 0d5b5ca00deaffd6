/** What the endpoint probe reports, told from its event log alone: which socket belongs to whom, which event moves
    which counter, and when a report is due. */
module EndpointLog {
  import opened Options
  import opened Words
  import opened Meter
  import opened Endpoint

  // ---- whose event it is

  /** The handler of event `i` gets as far as the counters. A descriptor from before the start counts once. */
  ghost predicate Acts(preset: set<Fd>, events: seq<Event>, i: nat)
    requires i < |events|
  {
    match events[i]
    case Release(_) => false
    case Accept(sk, tgid, fd, _, _) => sk != 0 && Fd(tgid, fd) in preset && !AcceptedBefore(events, i, tgid, fd)
    case Connect(sk, _, _, _, _) => sk != 0
    case ReqErr(_, abort, _) => abort
    case Bind(sk, _, ret, dgram, _, _) => sk != 0 && ret == 0 && dgram
    case _ => true
  }

  ghost predicate AcceptedBefore(events: seq<Event>, i: nat, tgid: int, fd: int)
    requires i <= |events|
  {
    exists j :: 0 <= j < i && AcceptsOn(events[j], tgid, fd)
  }

  predicate AcceptsOn(e: Event, tgid: int, fd: int) {
    e.Accept? && e.sk != 0 && e.tgid == tgid && e.fd == fd
  }

  /** What kind of socket the event makes of its own. */
  function KindBy(e: Event): Option<Kind> {
    if e.Listen? || e.Accept? then Some(ListenTcp)
    else if e.Connect? then Some(ClientTcp)
    else if e.Bind? then Some(ListenUdp)
    else if e.InitSock? then Some(ClientUdp)
    else None
  }

  /** Who owns a socket after the first `n` events: whoever was last let through by the filter, until it is released. */
  ghost function OwnerAt(preset: set<Fd>, events: seq<Event>, n: nat, sk: int): Option<Owner>
    requires n <= |events|
  {
    if n == 0 then None
    else
      var e, was := events[n - 1], OwnerAt(preset, events, n - 1, sk);
      if e.sk != sk then was
      else if e.Release? then None
      else if KindBy(e).Some? && Acts(preset, events, n - 1) && e.adm.valid && (was.Some? || e.adm.room) then
        Some(Owner(KindBy(e).value, e.tgid))
      else was
  }

  predicate OfUdp(e: Event) {
    e.Bind? || e.InitSock? || e.SendMsg? || e.RecvMsg? || e.QueueFail?
  }

  /** The endpoint event `i` is charged to. */
  ghost function ChargedTo(preset: set<Fd>, events: seq<Event>, i: nat): Option<Key>
    requires i < |events|
  {
    var e := events[i];
    if !Acts(preset, events, i) || e.sk == 0 then None
    else
      match OwnerAt(preset, events, i + 1, e.sk)
      case None => None
      case Some(Owner(ListenTcp, tgid)) => if OfUdp(e) then None else Some(TcpListen(tgid, e.env.port))
      case Some(Owner(ClientTcp, tgid)) => if OfUdp(e) then None else Some(TcpConnect(tgid, e.env.ip))
      case Some(Owner(ListenUdp, tgid)) => if OfUdp(e) then Some(UdpServer(tgid, e.env.ip)) else None
      case Some(Owner(ClientUdp, tgid)) => if OfUdp(e) then Some(UdpClient(tgid, e.env.ip)) else None
  }

  // ---- what it counts

  /** By how much an event moves a counter, counter by counter. */
  function Moves(e: Event, m: nat): nat {
    if m == LISTEN_DROPS then Times(e.ReqErr? || (e.OpenChild? && !e.made))
    else if m == ACCEPT_OVERFLOW then Times(e.ConnRequest? && e.acceptFull)
    else if m == SYN_OVERFLOW then Times(e.ConnRequest? && e.synFull)
    else if m == PASSIVE_OPENS then Times(e.Accept? || (e.OpenChild? && e.made))
    else if m == PASSIVE_FAILS then Times(e.CheckReq? && !e.made)
    else if m == RETRANS_SYNACK then Times(e.RetransSynack?)
    else if m == ACTIVE_OPENS then Times(e.Connect? && e.ret == 0)
    else if m == ACTIVE_FAILS then Times(e.Connect? && e.ret != 0)
    else if m == QUE_RCV_FAILED then Times(e.QueueFail?)
    else if m == UDP_SENDS && e.SendMsg? then e.len
    else if m == UDP_RCVS && e.RecvMsg? then e.len
    else 0
  }

  function Times(hit: bool): nat {
    if hit then 1 else 0
  }

  /** When the entry of an endpoint was made: the time of the first event charged to it that found room. */
  ghost function MadeAt(preset: set<Fd>, events: seq<Event>, n: nat, k: Key): Option<nat>
    requires n <= |events|
  {
    if n == 0 then None
    else
      var e, was := events[n - 1], MadeAt(preset, events, n - 1, k);
      if was.None? && ChargedTo(preset, events, n - 1) == Some(k) && e.env.room then Some(e.env.ts) else was
  }

  /** What the first `n` events count for one counter of an endpoint. */
  ghost function Total(preset: set<Fd>, events: seq<Event>, n: nat, k: Key, m: nat): nat
    requires n <= |events|
  {
    if n == 0 then 0
    else
      var e := events[n - 1];
      Total(preset, events, n - 1, k, m)
      + if ChargedTo(preset, events, n - 1) == Some(k) && (MadeAt(preset, events, n - 1, k).Some? || e.env.room) then
          Moves(e, m)
        else 0
  }

  /** Events that make an endpoint known, and report it then only. */
  predicate Announces(e: Event) {
    e.Listen? || e.Bind? || e.InitSock?
  }

  /** Events after which the endpoint is reported whenever its period is over. */
  predicate MayReport(e: Event) {
    e.Accept? || e.Connect? || e.ReqErr? || e.RetransSynack? || e.SendMsg? || e.RecvMsg?
    || (e.ConnRequest? && (e.acceptFull || e.synFull))
  }

  // ---- the probe agrees with the log

  ghost predicate SameOwners(s: Snapshot, preset: set<Fd>, events: seq<Event>, n: nat)
    requires n <= |events|
  {
    && (forall sk :: sk in s.socks <==> OwnerAt(preset, events, n, sk).Some?)
    && (forall sk :: sk in s.socks ==> Some(s.socks[sk]) == OwnerAt(preset, events, n, sk))
    && (forall tgid, fd :: Fd(tgid, fd) in s.preset <==> Fd(tgid, fd) in preset && !AcceptedBefore(events, n, tgid, fd))
  }

  lemma ActsIff(s: Snapshot, preset: set<Fd>, events: seq<Event>, i: nat)
    requires i < |events| && SameOwners(s, preset, events, i)
    ensures Acts(preset, events, i) <==> !events[i].Release? && !Ignored(s, events[i])
  {
    hide AcceptedBefore;
  }

  lemma StepOwners(period: nat, s: Snapshot, preset: set<Fd>, events: seq<Event>, i: nat)
    requires i < |events| && SameOwners(s, preset, events, i) && Shape(Words64(), s.meter)
    ensures SameOwners(Step(period, s, events[i]), preset, events, i + 1)
  {
    hide ApplyCall, CallOf;
    ActsIff(s, preset, events, i);
    forall tgid, fd
      ensures AcceptedBefore(events, i + 1, tgid, fd) <==>
              AcceptedBefore(events, i, tgid, fd) || AcceptsOn(events[i], tgid, fd)
    {
    }
    hide AcceptedBefore, Acts;
  }

  lemma {:induction false} OwnersHold(period: nat, preset: set<Fd>, events: seq<Event>, n: nat)
    requires n <= |events|
    ensures SameOwners(Endpoint.Run(period, preset, events[..n]), preset, events, n)
    decreases n
  {
    hide Step, OwnerAt;
    if n == 0 {
      NoOwners(period, preset, events);
    } else {
      OwnersHold(period, preset, events, n - 1);
      assert events[..n][..n - 1] == events[..n - 1];
      StepOwners(period, Endpoint.Run(period, preset, events[..n - 1]), preset, events, n - 1);
    }
  }

  lemma NoOwners(period: nat, preset: set<Fd>, events: seq<Event>)
    ensures SameOwners(Endpoint.Run(period, preset, events[..0]), preset, events, 0)
  {
  }

  lemma AmountShort(incs: seq<Update>, m: nat)
    requires |incs| <= 2
    ensures Amount(incs, m) == (if |incs| > 0 then Part(incs[0], m) else 0) + if |incs| > 1 then Part(incs[1], m) else 0
  {
    if |incs| == 1 {
      assert incs[..0] == [];
    } else if |incs| == 2 {
      assert incs[..1] == [incs[0]] && [incs[0]][..0] == [];
    }
  }

  function Part(x: Update, m: nat): int {
    if x.Inc? && x.metric == m then x.delta else 0
  }

  lemma UpdatesAgree(e: Event, m: nat)
    requires m < EP_STATS_MAX && (e.ReqErr? ==> e.abort)
    ensures Amount(Incs(e), m) == Moves(e, m)
  {
    hide Amount;
    AmountShort(Incs(e), m);
  }

  /** What an event amounts to, told from the log. */
  lemma CallIs(period: nat, s: Snapshot, preset: set<Fd>, events: seq<Event>, i: nat, m: nat)
    requires i < |events| && SameOwners(s, preset, events, i) && Shape(Words64(), s.meter) && m < EP_STATS_MAX
    ensures var e, c, k := events[i], CallOf(s, events[i]), ChargedTo(preset, events, i);
            && (c.None? <==> k.None?)
            && (c.Some? ==> c.value.key == k.value && c.value.ts == e.env.ts && c.value.room == e.env.room)
            && (c.Some? ==> Amount(c.value.incs, m) == Moves(e, m))
            && (c.Some? ==> c.value.rule == if MayReport(e) then Always else if Announces(e) then OnlyIfNew else Never)
  {
    ActsIff(s, preset, events, i);
    StepOwners(period, s, preset, events, i);
    hide Incs, Acts, OwnerAt, ApplyCall, SocksAfter, Moves, Ignored, Amount;
    if Acts(preset, events, i) {
      ActingAborts(preset, events, i);
      UpdatesAgree(events[i], m);
    }
  }

  lemma ActingAborts(preset: set<Fd>, events: seq<Event>, i: nat)
    requires i < |events| && Acts(preset, events, i)
    ensures events[i].ReqErr? ==> events[i].abort
  {
  }

  lemma CallsFront(period: nat, preset: set<Fd>, events: seq<Event>, n: nat)
    requires 0 < n <= |events|
    ensures Calls(period, preset, events[..n])
            == Calls(period, preset, events[..n - 1])
               + [CallOf(Endpoint.Run(period, preset, events[..n - 1]), events[n - 1])]
  {
    hide Endpoint.Run, CallOf;
    CallsPrefix(period, preset, events[..n], n - 1);
    assert events[..n][..n - 1] == events[..n - 1];
  }

  lemma {:induction false} TotalsAgree(period: nat, preset: set<Fd>, events: seq<Event>, n: nat, k: Key, m: nat)
    requires n <= |events| && m < EP_STATS_MAX
    ensures FirstTouch(Calls(period, preset, events[..n]), k) == MadeAt(preset, events, n, k)
    ensures Counted(Words64(), period, Calls(period, preset, events[..n]), k, m) == Total(preset, events, n, k, m)
    decreases n
  {
    hide Endpoint.Run, Calls, CallOf, Meter.Run, ChargedTo, Moves, Amount, Stamped, SameOwners;
    if n > 0 {
      TotalsAgree(period, preset, events, n - 1, k, m);
      OwnersHold(period, preset, events, n - 1);
      var front := Calls(period, preset, events[..n - 1]);
      CallIs(period, Endpoint.Run(period, preset, events[..n - 1]), preset, events, n - 1, m);
      CallsFront(period, preset, events, n);
      var calls := Calls(period, preset, events[..n]);
      assert calls[..|calls| - 1] == front;
      EntryStamp(Words64(), period, front, k);
      StampedKnown(Meter.Run(Words64(), period, front), k, FirstTouch(front, k));
    } else {
      NoCalls(period, preset, events[..0]);
    }
  }

  lemma StampedKnown(s: State<Key>, k: Key, first: Option<nat>)
    requires Stamped(s, k, first)
    ensures k in s.entries <==> first.Some?
  {
  }

  lemma NoCalls(period: nat, preset: set<Fd>, events: seq<Event>)
    requires events == []
    ensures Calls(period, preset, events) == []
  {
  }

  /** Conservation told from the event log: for every endpoint and each of its eleven counters, what was reported plus
      what is pending is what the events on its sockets count, modulo the counter's word, and exactly as long as that
      fits the word. */
  lemma CountersFromLog(period: nat, preset: set<Fd>, events: seq<Event>, k: Key, m: nat)
    requires m < EP_STATS_MAX
    ensures var total := Accounted(Endpoint.Run(period, preset, events).meter, k, m);
            var counted := Total(preset, events, |events|, k, m);
            && Wrap(total, TWO64) == Wrap(counted, TWO64)
            && (counted < TWO64 ==> total == counted)
  {
    hide Accounted, Wrap, Endpoint.Run, Calls, Counted, Total;
    assert events[..|events|] == events;
    TotalsAgree(period, preset, events, |events|, k, m);
    CountersConserved(period, preset, events, k, m);
  }

  /** When an endpoint is reported: a new one by the first event charged to it that finds room, if that event is of a
      kind that reports at all; a known one by an event that may report, exactly if its clock is not ahead of the last
      report, or is at least a period ahead of it. */
  ghost predicate Due(period: nat, preset: set<Fd>, events: seq<Event>, i: nat, reports: seq<Report<Key>>)
    requires i < |events|
  {
    var e, k := events[i], ChargedTo(preset, events, i);
    k.Some? && match MadeAt(preset, events, i, k.value)
               case None => e.env.room && (MayReport(e) || Announces(e))
               case Some(made) =>
                 var last := LastReport(reports, k.value, made);
                 MayReport(e) && (e.env.ts <= last || e.env.ts >= last + period)
  }

  /** A report leaves exactly when it is due, one at a time: no event that may report passes a period or more after the
      last report of its endpoint without one. */
  lemma EndpointReportsIff(period: nat, preset: set<Fd>, events: seq<Event>, i: nat)
    requires i < |events|
    ensures var was := Endpoint.Run(period, preset, events[..i]).meter.reports;
            var now := Endpoint.Run(period, preset, events[..i + 1]).meter.reports;
            if Due(period, preset, events, i, was) then
              && |now| == |was| + 1 && now[..|was|] == was
              && Some(now[|was|].key) == ChargedTo(preset, events, i) && now[|was|].stamp == events[i].env.ts
            else now == was
  {
    hide Calls, CallOf, Meter.Run, ChargedTo, Apply, Stamped, SameOwners, LastReport, FirstTouch, MadeAt, SocksAfter;
    hide MayReport, Announces;
    assert events[..i + 1][..i] == events[..i];
    var s := Endpoint.Run(period, preset, events[..i]);
    assert Endpoint.Run(period, preset, events[..i + 1]) == Step(period, s, events[i]);
    hide Endpoint.Run;
    OwnersHold(period, preset, events, i);
    CallIs(period, s, preset, events, i, 0);
    RunIsMetered(period, preset, events[..i]);
    var c := CallOf(s, events[i]);
    if c.Some? {
      TotalsAgree(period, preset, events, i, c.value.key, 0);
      ReportsIff(Words64(), period, Calls(period, preset, events[..i]), c.value);
    }
  }
}
