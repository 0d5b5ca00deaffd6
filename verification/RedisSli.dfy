/** The redis latency probe: one sampled command per connection and period, entry parameters stashed for returns. */
module RedisSli {
  import opened Options
  import opened Text
  import opened Words

  const MAX_REDIS_CMD_LEN: nat := 24

  /** The traced functions whose returns are traced too. */
  datatype Prog = ProcessCommand | WriteToClient

  /** Entries are matched with returns by thread and function. */
  datatype Key = Key(tid: int, prog: Prog)

  datatype Store = NoStorage | StaticBuffer | DynamicList

  datatype Cmd = Cmd(name: string, start: nat, end: nat, hasReply: bool, store: Store, wrPos: nat, finished: bool)

  datatype Conn = Conn(
    lastRead: nat, lastSmp: nat, rdBuf: nat, rdList: nat, curBuf: nat, curList: nat, sampling: bool, cmd: Cmd)

  /** A submitted latency. */
  datatype CmdEvent = CmdEvent(fd: int, name: string, timeout: nat)

  datatype State = State(conns: map<int, Conn>, stash: map<Key, int>, out: seq<CmdEvent>)

  /** Probe events with what the handlers read: thread, client, clock, the client's reply positions; `room` tells
      whether a full map refuses a new entry. */
  datatype Event =
    | ReadQuery(fd: int, ts: nat, room: bool)
    | CmdEntry(tid: int, fd: int, name: string, bufpos: nat, listpos: nat, room: bool)
    | CmdReturn(tid: int, ts: nat, bufpos: nat, listpos: nat)
    | WriteEntry(tid: int, fd: int, bufpos: nat, listpos: nat, room: bool)
    | WriteReturn(tid: int, ts: nat, bufpos: nat, listpos: nat)
    | FreeClient(fd: int)

  function NewConn(ts: nat): Conn {
    Conn(0, ts, 0, 0, 0, 0, false, Cmd("", 0, 0, false, NoStorage, 0, false))
  }

  // ---- the handlers on one connection

  function Reading(c: Conn, ts: nat): Conn {
    if c.sampling then c else c.(lastRead := ts, rdBuf := 0, rdList := 0)
  }

  function Sampled(c: Conn, name: string, bufpos: nat, listpos: nat): Conn {
    c.(cmd := c.cmd.(name := Bounded(name, MAX_REDIS_CMD_LEN), start := c.lastRead, finished := false),
       sampling := true, curBuf := bufpos, curList := listpos)
  }

  function Processed(c: Conn, ts: nat, bufpos: nat, listpos: nat): Conn {
    if c.curBuf < bufpos then c.(cmd := c.cmd.(hasReply := true, store := StaticBuffer, wrPos := bufpos))
    else if c.curList < listpos then c.(cmd := c.cmd.(hasReply := true, store := DynamicList, wrPos := listpos))
    else c.(cmd := c.cmd.(hasReply := false, store := NoStorage, end := ts, finished := true))
  }

  /** The reply bytes sent so far. */
  function Drained(c: Conn, bufpos: nat, listpos: nat): Conn {
    c.(rdBuf := if bufpos < c.curBuf then U64(c.rdBuf + c.curBuf - bufpos) else c.rdBuf,
       rdList := if listpos < c.curList then U64(c.rdList + c.curList - listpos) else c.rdList)
  }

  /** The sampled command is done once its reply position has been sent. */
  function MaybeFinished(c: Conn, ts: nat): Conn {
    if !c.cmd.finished
       && ((c.cmd.store.StaticBuffer? && c.cmd.wrPos <= c.rdBuf)
           || (c.cmd.store.DynamicList? && c.cmd.wrPos <= c.rdList))
    then c.(cmd := c.cmd.(end := ts, finished := true))
    else c
  }

  function EventOf(fd: int, c: Conn): CmdEvent {
    CmdEvent(fd, c.cmd.name, U64(c.cmd.end - c.cmd.start))
  }

  predicate PeriodOver(c: Conn, ts: nat, period: nat) {
    U64(ts - c.lastSmp) > period
  }

  // ---- the handlers on the maps

  function Push(s: State, k: Key, fd: int, room: bool): State {
    if room then s.(stash := s.stash[k := fd]) else s
  }

  /** The stashed client, which the pop removes. */
  function Pop(s: State, k: Key): (State, Option<int>) {
    if k in s.stash then (s.(stash := s.stash - {k}), Some(s.stash[k])) else (s, None)
  }

  function OnReadQuery(s: State, fd: int, ts: nat, room: bool): State {
    if fd !in s.conns && !room then s
    else s.(conns := s.conns[fd := Reading(if fd in s.conns then s.conns[fd] else NewConn(ts), ts)])
  }

  function OnCmdEntry(s: State, tid: int, fd: int, name: string, bufpos: nat, listpos: nat, room: bool): State {
    if fd !in s.conns || s.conns[fd].sampling then s
    else
      var s' := s.(conns := s.conns[fd := Sampled(s.conns[fd], name, bufpos, listpos)]);
      Push(s', Key(tid, ProcessCommand), fd, room)
  }

  function OnCmdReturn(s: State, tid: int, ts: nat, bufpos: nat, listpos: nat): State {
    var (s', fd) := Pop(s, Key(tid, ProcessCommand));
    if fd.None? || fd.value !in s'.conns then s'
    else s'.(conns := s'.conns[fd.value := Processed(s'.conns[fd.value], ts, bufpos, listpos)])
  }

  function OnWriteEntry(s: State, tid: int, fd: int, bufpos: nat, listpos: nat, room: bool): State {
    if fd !in s.conns then s
    else
      var s' := s.(conns := s.conns[fd := s.conns[fd].(curBuf := bufpos, curList := listpos)]);
      Push(s', Key(tid, WriteToClient), fd, room)
  }

  function OnWriteReturn(s: State, tid: int, ts: nat, bufpos: nat, listpos: nat, period: nat): State {
    var (s', fd) := Pop(s, Key(tid, WriteToClient));
    if fd.None? || fd.value !in s'.conns then s'
    else Written(s', fd.value, ts, bufpos, listpos, period)
  }

  function Written(s: State, fd: int, ts: nat, bufpos: nat, listpos: nat, period: nat): State
    requires fd in s.conns
  {
    var c := Drained(s.conns[fd], bufpos, listpos);
    if !c.sampling then s.(conns := s.conns[fd := c])
    else
      var d := MaybeFinished(c, ts);
      if !PeriodOver(d, ts, period) then s.(conns := s.conns[fd := d])
      else s.(conns := s.conns[fd := d.(lastSmp := ts, sampling := false)],
              out := if d.cmd.finished then s.out + [EventOf(fd, d)] else s.out)
  }

  function OnFree(s: State, fd: int): State {
    if fd !in s.conns then s
    else s.(conns := s.conns - {fd},
            out := if s.conns[fd].sampling && s.conns[fd].cmd.finished then s.out + [EventOf(fd, s.conns[fd])]
                   else s.out)
  }

  function Step(s: State, e: Event, period: nat): State {
    match e
    case ReadQuery(fd, ts, room) => OnReadQuery(s, fd, ts, room)
    case CmdEntry(tid, fd, name, bufpos, listpos, room) => OnCmdEntry(s, tid, fd, name, bufpos, listpos, room)
    case CmdReturn(tid, ts, bufpos, listpos) => OnCmdReturn(s, tid, ts, bufpos, listpos)
    case WriteEntry(tid, fd, bufpos, listpos, room) => OnWriteEntry(s, tid, fd, bufpos, listpos, room)
    case WriteReturn(tid, ts, bufpos, listpos) => OnWriteReturn(s, tid, ts, bufpos, listpos, period)
    case FreeClient(fd) => OnFree(s, fd)
  }

  // ---- the maps as the probe holds them

  class Probe {
    var conns: map<int, Conn>
    var stash: map<Key, int>
    var out: seq<CmdEvent>

    function View(): State
      reads this
    {
      State(conns, stash, out)
    }

    constructor ()
      ensures View() == State(map[], map[], [])
    {
      conns, stash, out := map[], map[], [];
    }

    method PushParms(k: Key, fd: int, room: bool)
      modifies this`stash
      ensures View() == Push(old(View()), k, fd, room)
    {
      if room {
        stash := stash[k := fd];
      }
    }

    method PopParms(k: Key) returns (fd: Option<int>)
      modifies this`stash
      ensures (View(), fd) == Pop(old(View()), k)
    {
      if k !in stash {
        return None;
      }
      fd := Some(stash[k]);
      stash := stash - {k};
    }

    method ReadQueryFromClient(fd: int, ts: nat, room: bool)
      modifies this`conns
      ensures View() == OnReadQuery(old(View()), fd, ts, room)
    {
      if fd !in conns {
        if !room {
          return;
        }
        conns := conns[fd := NewConn(ts)];
      }
      var c := conns[fd];
      if !c.sampling {
        conns := conns[fd := c.(lastRead := ts, rdBuf := 0, rdList := 0)];
      }
      assert conns == old(conns)[fd := conns[fd]];
    }

    method ProcessCommandEntry(tid: int, fd: int, name: string, bufpos: nat, listpos: nat, room: bool)
      modifies this`conns, this`stash
      ensures View() == OnCmdEntry(old(View()), tid, fd, name, bufpos, listpos, room)
    {
      if fd !in conns || conns[fd].sampling {
        return;
      }
      var c := conns[fd];
      var cmd := c.cmd.(name := Bounded(name, MAX_REDIS_CMD_LEN), start := c.lastRead, finished := false);
      conns := conns[fd := c.(cmd := cmd, sampling := true, curBuf := bufpos, curList := listpos)];
      PushParms(Key(tid, ProcessCommand), fd, room);
    }

    method ProcessCommandReturn(tid: int, ts: nat, bufpos: nat, listpos: nat)
      modifies this`conns, this`stash
      ensures View() == OnCmdReturn(old(View()), tid, ts, bufpos, listpos)
    {
      var fd := PopParms(Key(tid, ProcessCommand));
      if fd.None? || fd.value !in conns {
        return;
      }
      var c := conns[fd.value];
      var cmd := c.cmd;
      if c.curBuf < bufpos {
        cmd := cmd.(hasReply := true, store := StaticBuffer, wrPos := bufpos);
      } else if c.curList < listpos {
        cmd := cmd.(hasReply := true, store := DynamicList, wrPos := listpos);
      } else {
        cmd := cmd.(hasReply := false, store := NoStorage, end := ts, finished := true);
      }
      conns := conns[fd.value := c.(cmd := cmd)];
    }

    method WriteToClientEntry(tid: int, fd: int, bufpos: nat, listpos: nat, room: bool)
      modifies this`conns, this`stash
      ensures View() == OnWriteEntry(old(View()), tid, fd, bufpos, listpos, room)
    {
      if fd !in conns {
        return;
      }
      conns := conns[fd := conns[fd].(curBuf := bufpos, curList := listpos)];
      PushParms(Key(tid, WriteToClient), fd, room);
    }

    method WriteToClientReturn(tid: int, ts: nat, bufpos: nat, listpos: nat, period: nat)
      modifies this
      ensures View() == OnWriteReturn(old(View()), tid, ts, bufpos, listpos, period)
    {
      hide U64;
      var popped := PopParms(Key(tid, WriteToClient));
      if popped.None? || popped.value !in conns {
        return;
      }
      var fd := popped.value;
      var c := conns[fd];
      if bufpos < c.curBuf {
        c := c.(rdBuf := U64(c.rdBuf + c.curBuf - bufpos));
      }
      if listpos < c.curList {
        c := c.(rdList := U64(c.rdList + c.curList - listpos));
      }
      if c.sampling {
        if !c.cmd.finished {
          if c.cmd.store.StaticBuffer? && c.cmd.wrPos <= c.rdBuf {
            c := c.(cmd := c.cmd.(end := ts, finished := true));
          }
          if c.cmd.store.DynamicList? && c.cmd.wrPos <= c.rdList {
            c := c.(cmd := c.cmd.(end := ts, finished := true));
          }
        }
        if U64(ts - c.lastSmp) > period {
          if c.cmd.finished {
            out := out + [EventOf(fd, c)];
          }
          c := c.(lastSmp := ts, sampling := false);
        }
      }
      conns := conns[fd := c];
    }

    method FreeClientHandler(fd: int)
      modifies this`conns, this`out
      ensures View() == OnFree(old(View()), fd)
    {
      if fd !in conns {
        return;
      }
      if conns[fd].sampling && conns[fd].cmd.finished {
        out := out + [EventOf(fd, conns[fd])];
      }
      conns := conns - {fd};
    }
  }

  // ---- entries and returns of whole runs

  /** Calls under way, with the client each was entered with. */
  type Calls = map<Key, int>

  /** A thread re-enters a traced function only after it has returned from it. */
  predicate Disciplined(calls: Calls, e: Event) {
    match e
    case CmdEntry(tid, _, _, _, _, _) => Key(tid, ProcessCommand) !in calls
    case CmdReturn(tid, _, _, _) => Key(tid, ProcessCommand) in calls
    case WriteEntry(tid, _, _, _, _) => Key(tid, WriteToClient) !in calls
    case WriteReturn(tid, _, _, _) => Key(tid, WriteToClient) in calls
    case _ => true
  }

  function NextCalls(calls: Calls, e: Event): Calls {
    match e
    case CmdEntry(tid, fd, _, _, _, _) => calls[Key(tid, ProcessCommand) := fd]
    case CmdReturn(tid, _, _, _) => calls - {Key(tid, ProcessCommand)}
    case WriteEntry(tid, fd, _, _, _) => calls[Key(tid, WriteToClient) := fd]
    case WriteReturn(tid, _, _, _) => calls - {Key(tid, WriteToClient)}
    case _ => calls
  }

  /** The calls under way after `n` events. */
  function CallsAt(events: seq<Event>, n: nat): Calls
    requires n <= |events|
  {
    if n == 0 then map[] else NextCalls(CallsAt(events, n - 1), events[n - 1])
  }

  ghost predicate Trace(states: seq<State>, events: seq<Event>, period: nat) {
    && |states| == |events| + 1
    && states[0] == State(map[], map[], [])
    && forall i :: 0 <= i < |events| ==> states[i + 1] == Step(states[i], events[i], period)
  }

  ghost predicate NoReentry(events: seq<Event>) {
    forall i :: 0 <= i < |events| ==> Disciplined(CallsAt(events, i), events[i])
  }

  /** Whatever is stashed was stashed by the call still under way. */
  ghost predicate OwnStash(s: State, calls: Calls) {
    forall k :: k in s.stash ==> k in calls && calls[k] == s.stash[k]
  }

  lemma StepOwnStash(s: State, calls: Calls, e: Event, period: nat)
    requires OwnStash(s, calls) && Disciplined(calls, e)
    ensures OwnStash(Step(s, e, period), NextCalls(calls, e))
  {
  }

  lemma {:induction false} StashIsOwn(states: seq<State>, events: seq<Event>, period: nat, n: nat)
    requires Trace(states, events, period) && NoReentry(events) && n < |states|
    ensures OwnStash(states[n], CallsAt(events, n))
  {
    hide Step, Disciplined, NextCalls;
    if n > 0 {
      StashIsOwn(states, events, period, n - 1);
      StepOwnStash(states[n - 1], CallsAt(events, n - 1), events[n - 1], period);
    }
  }

  /** A return handler pops the client its own entry was called with, or nothing; and the pop leaves nothing behind. */
  lemma ReturnSeesOwnEntry(states: seq<State>, events: seq<Event>, period: nat, n: nat, k: Key)
    requires Trace(states, events, period) && NoReentry(events) && n < |events|
    requires (events[n].CmdReturn? && k == Key(events[n].tid, ProcessCommand))
          || (events[n].WriteReturn? && k == Key(events[n].tid, WriteToClient))
    ensures k in CallsAt(events, n)
    ensures k in states[n].stash ==> states[n].stash[k] == CallsAt(events, n)[k]
    ensures k !in states[n + 1].stash
  {
    StashIsOwn(states, events, period, n);
    assert Disciplined(CallsAt(events, n), events[n]);
    assert states[n + 1] == Step(states[n], events[n], period);
  }

  // ---- what gets submitted

  /** The connection as it is when the event submits its sample, if it does. */
  function Submits(s: State, e: Event, period: nat): Option<(int, Conn)> {
    match e
    case WriteReturn(tid, ts, bufpos, listpos) =>
      var (s', fd) := Pop(s, Key(tid, WriteToClient));
      if fd.None? || fd.value !in s'.conns then None
      else
        var d := MaybeFinished(Drained(s'.conns[fd.value], bufpos, listpos), ts);
        if d.sampling && PeriodOver(d, ts, period) && d.cmd.finished then Some((fd.value, d)) else None
    case FreeClient(fd) =>
      if fd in s.conns && s.conns[fd].sampling && s.conns[fd].cmd.finished then Some((fd, s.conns[fd])) else None
    case _ => None
  }

  lemma SubmitsIsOut(s: State, e: Event, period: nat)
    ensures Step(s, e, period).out
         == s.out + (match Submits(s, e, period) case None => [] case Some((fd, c)) => [EventOf(fd, c)])
    ensures Submits(s, e, period).Some? ==> Submits(s, e, period).value.0 in s.conns
  {
    hide Drained, MaybeFinished, PeriodOver, Processed, Sampled, Reading;
    if e.WriteReturn? && Key(e.tid, WriteToClient) in s.stash && s.stash[Key(e.tid, WriteToClient)] in s.conns {
      var c := s.conns[s.stash[Key(e.tid, WriteToClient)]];
      SameSampling(c, e.bufpos, e.listpos, e.ts);
    }
  }

  lemma SameSampling(c: Conn, bufpos: nat, listpos: nat, ts: nat)
    ensures Drained(c, bufpos, listpos).sampling == c.sampling && Drained(c, bufpos, listpos).cmd == c.cmd
    ensures Drained(c, bufpos, listpos).lastSmp == c.lastSmp && Drained(c, bufpos, listpos).lastRead == c.lastRead
    ensures var d := MaybeFinished(Drained(c, bufpos, listpos), ts);
            && d.sampling == c.sampling && d.lastSmp == c.lastSmp && d.lastRead == c.lastRead
            && d.cmd.start == c.cmd.start && d.cmd.name == c.cmd.name
            && (d.cmd == c.cmd || (!c.cmd.finished && d.cmd.finished && d.cmd.end == ts))
  {
  }

  function TimeOf(e: Event, now: nat): nat {
    if e.ReadQuery? || e.CmdReturn? || e.WriteReturn? then e.ts else now
  }

  /** The last clock reading among the first `n` events. */
  function Clock(events: seq<Event>, n: nat): nat
    requires n <= |events|
  {
    if n == 0 then 0 else TimeOf(events[n - 1], Clock(events, n - 1))
  }

  ghost predicate Monotone(events: seq<Event>) {
    forall i :: 0 <= i < |events| ==> Clock(events, i) <= TimeOf(events[i], Clock(events, i)) < TWO64
  }

  /** Times of a connection never run ahead of the clock, and a finished command did not end before it started. */
  predicate Timely(c: Conn, now: nat) {
    c.lastRead <= now && c.lastSmp <= now && c.cmd.start <= now
    && (c.cmd.finished ==> c.cmd.start <= c.cmd.end <= now)
  }

  ghost predicate AllTimely(s: State, now: nat) {
    forall fd :: fd in s.conns ==> Timely(s.conns[fd], now)
  }

  lemma StepTimely(s: State, e: Event, period: nat, now: nat)
    requires AllTimely(s, now) && now <= TimeOf(e, now)
    ensures AllTimely(Step(s, e, period), TimeOf(e, now))
    ensures Submits(s, e, period).Some? ==> Timely(Submits(s, e, period).value.1, TimeOf(e, now))
  {
    hide Drained, MaybeFinished, PeriodOver;
    if e.WriteReturn? && Key(e.tid, WriteToClient) in s.stash && s.stash[Key(e.tid, WriteToClient)] in s.conns {
      var c := s.conns[s.stash[Key(e.tid, WriteToClient)]];
      SameSampling(c, e.bufpos, e.listpos, e.ts);
    }
  }

  lemma {:induction false} TimelyHolds(states: seq<State>, events: seq<Event>, period: nat, n: nat)
    requires Trace(states, events, period) && Monotone(events) && n < |states|
    ensures AllTimely(states[n], Clock(events, n))
  {
    hide Step, AllTimely;
    if n == 0 {
      NothingTimely(0);
    } else {
      TimelyHolds(states, events, period, n - 1);
      assert Clock(events, n - 1) <= TimeOf(events[n - 1], Clock(events, n - 1));
      StepTimely(states[n - 1], events[n - 1], period, Clock(events, n - 1));
    }
  }

  lemma NothingTimely(now: nat)
    ensures AllTimely(State(map[], map[], []), now)
  {
  }

  // the life of a sample, traced back from the event that submits it

  /** Event `id` starts a sample of the client. */
  ghost predicate Samples(states: seq<State>, events: seq<Event>, fd: int, id: nat)
    requires |states| == |events| + 1
  {
    && id < |events| && events[id].CmdEntry? && events[id].fd == fd
    && fd in states[id].conns && !states[id].conns[fd].sampling
  }

  /** From state `from` to state `to` one and the same sample of the client is under way. */
  ghost predicate Ongoing(states: seq<State>, fd: int, from: nat, to: nat, name: string, start: nat)
    requires to < |states|
  {
    forall i :: from <= i <= to ==>
      && fd in states[i].conns && states[i].conns[fd].sampling
      && states[i].conns[fd].cmd.name == name && states[i].conns[fd].cmd.start == start
  }

  /** From state `from` to state `to` the command of the client stays finished and keeps this end. */
  ghost predicate Over(states: seq<State>, fd: int, from: nat, to: nat, end: nat)
    requires to < |states|
  {
    forall i :: from <= i <= to ==> OverIn(states[i], fd, end)
  }

  lemma StepSampling(s: State, e: Event, period: nat, fd: int)
    requires fd in Step(s, e, period).conns && Step(s, e, period).conns[fd].sampling
    ensures fd in s.conns
    ensures var x, y := s.conns[fd].cmd, Step(s, e, period).conns[fd].cmd;
            if s.conns[fd].sampling then y.name == x.name && y.start == x.start
            else e.CmdEntry? && e.fd == fd && y.name == Bounded(e.name, MAX_REDIS_CMD_LEN)
                 && y.start == s.conns[fd].lastRead && !y.finished
  {
    hide Drained, MaybeFinished, PeriodOver;
    if e.WriteReturn? && Key(e.tid, WriteToClient) in s.stash && s.stash[Key(e.tid, WriteToClient)] in s.conns {
      var c := s.conns[s.stash[Key(e.tid, WriteToClient)]];
      SameSampling(c, e.bufpos, e.listpos, e.ts);
    }
  }

  lemma {:induction false} SampleStart(states: seq<State>, events: seq<Event>, period: nat, n: nat, fd: int)
    returns (id: nat)
    requires Trace(states, events, period) && n < |states|
    requires fd in states[n].conns && states[n].conns[fd].sampling
    ensures id < n && Samples(states, events, fd, id)
    ensures var x := states[n].conns[fd].cmd;
            && Ongoing(states, fd, id + 1, n, x.name, x.start)
            && x.name == Bounded(events[id].name, MAX_REDIS_CMD_LEN)
            && x.start == states[id].conns[fd].lastRead
            && !states[id + 1].conns[fd].cmd.finished
    decreases n
  {
    hide Step;
    StepSampling(states[n - 1], events[n - 1], period, fd);
    if states[n - 1].conns[fd].sampling {
      id := SampleStart(states, events, period, n - 1, fd);
    } else {
      id := n - 1;
    }
  }

  /** The event is a return handler whose own stash entry names the client, and the command of the client was not
      finished at its time before. */
  ghost predicate Finisher(s: State, e: Event, fd: int) {
    && (|| (e.CmdReturn? && Key(e.tid, ProcessCommand) in s.stash && s.stash[Key(e.tid, ProcessCommand)] == fd)
        || (e.WriteReturn? && Key(e.tid, WriteToClient) in s.stash && s.stash[Key(e.tid, WriteToClient)] == fd))
    && !OverIn(s, fd, e.ts)
  }

  /** The command of the client is finished and has this end. */
  ghost predicate OverIn(s: State, fd: int, end: nat) {
    fd in s.conns && s.conns[fd].cmd.finished && s.conns[fd].cmd.end == end
  }

  lemma StepFinished(s: State, e: Event, period: nat, fd: int)
    requires fd in Step(s, e, period).conns && Step(s, e, period).conns[fd].cmd.finished
    ensures var end := Step(s, e, period).conns[fd].cmd.end;
            OverIn(s, fd, end) || (Finisher(s, e, fd) && e.ts == end)
  {
    hide Drained, MaybeFinished, PeriodOver;
    if e.WriteReturn? && Key(e.tid, WriteToClient) in s.stash && s.stash[Key(e.tid, WriteToClient)] in s.conns {
      var c := s.conns[s.stash[Key(e.tid, WriteToClient)]];
      SameSampling(c, e.bufpos, e.listpos, e.ts);
    }
  }

  /** Back from a finished command to the return handler that set its end. */
  lemma {:induction false} FinishEvent(states: seq<State>, events: seq<Event>, period: nat, n: nat, fd: int)
    returns (fin: nat)
    requires Trace(states, events, period) && n < |states|
    requires fd in states[n].conns && states[n].conns[fd].cmd.finished
    ensures fin < n && Finisher(states[fin], events[fin], fd)
    ensures events[fin].ts == states[n].conns[fd].cmd.end && Over(states, fd, fin + 1, n, events[fin].ts)
    decreases n
  {
    hide Step, Finisher;
    StepFinished(states[n - 1], events[n - 1], period, fd);
    if OverIn(states[n - 1], fd, states[n].conns[fd].cmd.end) {
      fin := FinishEvent(states, events, period, n - 1, fd);
    } else {
      fin := n - 1;
    }
  }

  /** Where a submitted event comes from: the event that started its sample, the one that set its end, and the one that
      submitted it. */
  datatype Submission = Submission(id: nat, fin: nat, last: nat)

  /** The event is the return of a write to the client, or the client's release. */
  ghost predicate Submitter(s: State, e: Event, fd: int) {
    || (e.WriteReturn? && Key(e.tid, WriteToClient) in s.stash && s.stash[Key(e.tid, WriteToClient)] == fd)
    || (e.FreeClient? && e.fd == fd)
  }

  /** The whole life of a submitted command. It was sampled when it was entered, with the time of the read before it as
      its start; one sample was under way until it was submitted; a return handler called for this very client finished
      it and its clock is the end; the submission appends the time between start and end and closes the sample. */
  ghost predicate Submitted(states: seq<State>, events: seq<Event>, before: seq<CmdEvent>, x: CmdEvent, sub: Submission)
    requires |states| == |events| + 1
  {
    && sub.id < sub.fin <= sub.last < |events|
    && Samples(states, events, x.fd, sub.id)
    && x.name == Bounded(events[sub.id].name, MAX_REDIS_CMD_LEN)
    && Ongoing(states, x.fd, sub.id + 1, sub.last, x.name, states[sub.id].conns[x.fd].lastRead)
    && Finisher(states[sub.fin], events[sub.fin], x.fd)
    && (sub.fin < sub.last ==> Over(states, x.fd, sub.fin + 1, sub.last, events[sub.fin].ts))
    && (sub.fin == sub.last ==> Over(states, x.fd, sub.last + 1, sub.last + 1, events[sub.fin].ts))
    && Submitter(states[sub.last], events[sub.last], x.fd)
    && states[sub.last].out == before && states[sub.last + 1].out == before + [x]
    && (x.fd in states[sub.last + 1].conns ==> !states[sub.last + 1].conns[x.fd].sampling)
    && states[sub.id].conns[x.fd].lastRead <= events[sub.fin].ts
    && x.timeout == events[sub.fin].ts - states[sub.id].conns[x.fd].lastRead
  }

  lemma SubmitterFacts(s: State, e: Event, period: nat)
    requires Submits(s, e, period).Some?
    ensures var (fd, c) := Submits(s, e, period).value;
            && fd in s.conns && s.conns[fd].sampling && Submitter(s, e, fd)
            && c.cmd.finished && c.cmd.name == s.conns[fd].cmd.name && c.cmd.start == s.conns[fd].cmd.start
            && c.lastSmp == s.conns[fd].lastSmp
            && (c.cmd == s.conns[fd].cmd || (Finisher(s, e, fd) && e.WriteReturn? && c.cmd.end == e.ts))
            && (e.WriteReturn? ==> PeriodOver(c, e.ts, period))
    ensures var (fd, c) := Submits(s, e, period).value;
            var t := Step(s, e, period);
            if e.WriteReturn? then
              fd in t.conns && !t.conns[fd].sampling && t.conns[fd].cmd == c.cmd && t.conns[fd].lastSmp == e.ts
            else fd !in t.conns
  {
    hide Drained, MaybeFinished, PeriodOver;
    if e.WriteReturn? {
      var c := s.conns[s.stash[Key(e.tid, WriteToClient)]];
      SameSampling(c, e.bufpos, e.listpos, e.ts);
    }
  }

  lemma ExactTimeout(fd: int, c: Conn, now: nat)
    requires Timely(c, now) && c.cmd.finished && now < TWO64
    ensures EventOf(fd, c) == CmdEvent(fd, c.cmd.name, c.cmd.end - c.cmd.start)
  {
  }

  lemma StartsUnfinished(states: seq<State>, fd: int, id: nat, fin: nat, n: nat, end: nat)
    requires n < |states| && id < n && fd in states[id + 1].conns && !states[id + 1].conns[fd].cmd.finished
    requires Over(states, fd, fin + 1, n, end)
    ensures id < fin
  {
  }

  /** Start and end of the sample an event submits. */
  lemma LifeOfSample(states: seq<State>, events: seq<Event>, period: nat, n: nat) returns (id: nat, fin: nat)
    requires Trace(states, events, period) && n < |events|
    requires Submits(states[n], events[n], period).Some?
    ensures var (fd, c) := Submits(states[n], events[n], period).value;
            && id < fin <= n && Samples(states, events, fd, id)
            && c.cmd.name == Bounded(events[id].name, MAX_REDIS_CMD_LEN) && c.cmd.start == states[id].conns[fd].lastRead
            && Ongoing(states, fd, id + 1, n, c.cmd.name, c.cmd.start)
            && Finisher(states[fin], events[fin], fd) && c.cmd.end == events[fin].ts
            && (fin < n ==> Over(states, fd, fin + 1, n, events[fin].ts))
            && (fin == n ==> Over(states, fd, n + 1, n + 1, events[fin].ts))
  {
    hide Step, Submits, Submitter;
    var (fd, c) := Submits(states[n], events[n], period).value;
    SubmitterFacts(states[n], events[n], period);
    id := SampleStart(states, events, period, n, fd);
    fin := n;
    if c.cmd == states[n].conns[fd].cmd {
      fin := FinishEvent(states, events, period, n, fd);
      StartsUnfinished(states, fd, id, fin, n, events[fin].ts);
    }
  }

  lemma TimelyAt(states: seq<State>, events: seq<Event>, period: nat, n: nat)
    requires Trace(states, events, period) && Monotone(events) && n < |events|
    requires Submits(states[n], events[n], period).Some?
    ensures var now := TimeOf(events[n], Clock(events, n));
            now < TWO64 && Timely(Submits(states[n], events[n], period).value.1, now)
  {
    hide Step, Submits, Timely, AllTimely;
    TimelyHolds(states, events, period, n);
    var now := Clock(events, n);
    assert now <= TimeOf(events[n], now) < TWO64;
    StepTimely(states[n], events[n], period, now);
  }

  lemma OneSubmission(states: seq<State>, events: seq<Event>, period: nat, n: nat) returns (sub: Submission)
    requires Trace(states, events, period) && Monotone(events) && n < |events|
    requires Submits(states[n], events[n], period).Some?
    ensures var (fd, c) := Submits(states[n], events[n], period).value;
            sub.last == n && Submitted(states, events, states[n].out, EventOf(fd, c), sub)
  {
    hide Step, Submits, EventOf, Timely, Submitter, Finisher, Ongoing, Over, Samples, Monotone, Clock;
    var (fd, c) := Submits(states[n], events[n], period).value;
    SubmitterFacts(states[n], events[n], period);
    SubmitsIsOut(states[n], events[n], period);
    var id, fin := LifeOfSample(states, events, period, n);
    TimelyAt(states, events, period, n);
    ExactTimeout(fd, c, TimeOf(events[n], Clock(events, n)));
    TimelyOrder(c, TimeOf(events[n], Clock(events, n)));
    sub := Submission(id, fin, n);
  }

  lemma TimelyOrder(c: Conn, now: nat)
    requires Timely(c, now) && c.cmd.finished
    ensures c.cmd.start <= c.cmd.end
  {
  }

  /** Two submissions, one after the other, come from two samples: the first one closed its sample. */
  lemma DistinctSamples(states: seq<State>, events: seq<Event>, b1: seq<CmdEvent>, x1: CmdEvent, s1: Submission,
                        b2: seq<CmdEvent>, x2: CmdEvent, s2: Submission)
    requires |states| == |events| + 1 && s1.last < s2.last
    requires Submitted(states, events, b1, x1, s1) && Submitted(states, events, b2, x2, s2)
    ensures s1.id != s2.id
  {
    hide Over, Submitter;
    var open := states[s1.last + 1];
  }

  /** Connections over a step: which exist, and their last sampling time. */
  lemma StepConns(s: State, e: Event, period: nat, now: nat)
    requires AllTimely(s, now) && now <= TimeOf(e, now)
    ensures forall fd :: fd in Step(s, e, period).conns <==>
              (fd in s.conns && !(e.FreeClient? && e.fd == fd)) || (e.ReadQuery? && e.room && e.fd == fd)
    ensures forall fd :: fd in s.conns && fd in Step(s, e, period).conns ==>
              s.conns[fd].lastSmp <= Step(s, e, period).conns[fd].lastSmp
    ensures e.WriteReturn? && Submits(s, e, period).Some? ==>
              var fd := Submits(s, e, period).value.0;
              fd in Step(s, e, period).conns && Step(s, e, period).conns[fd].lastSmp == e.ts
  {
    hide Drained, MaybeFinished, PeriodOver;
    if e.WriteReturn? && Key(e.tid, WriteToClient) in s.stash && s.stash[Key(e.tid, WriteToClient)] in s.conns {
      var c := s.conns[s.stash[Key(e.tid, WriteToClient)]];
      SameSampling(c, e.bufpos, e.listpos, e.ts);
    }
  }

  lemma PeriodIsElapsed(c: Conn, ts: nat, period: nat)
    requires c.lastSmp <= ts < TWO64 && PeriodOver(c, ts, period)
    ensures c.lastSmp + period < ts
  {
  }

  /** The client is known in every state from `from` to `to`. */
  ghost predicate Known(states: seq<State>, fd: int, from: nat, to: nat)
    requires to < |states|
  {
    forall i :: from <= i <= to ==> fd in states[i].conns
  }

  lemma {:induction false} SampleTimeGrows(states: seq<State>, events: seq<Event>, period: nat, fd: int, lo: nat,
                                           hi: nat)
    requires Trace(states, events, period) && Monotone(events) && lo <= hi < |states| && Known(states, fd, lo, hi)
    ensures states[lo].conns[fd].lastSmp <= states[hi].conns[fd].lastSmp
    decreases hi
  {
    hide Step, AllTimely, Clock;
    if lo != hi {
      SampleTimeGrows(states, events, period, fd, lo, hi - 1);
      TimelyHolds(states, events, period, hi - 1);
      assert Clock(events, hi - 1) <= TimeOf(events[hi - 1], Clock(events, hi - 1));
      StepConns(states[hi - 1], events[hi - 1], period, Clock(events, hi - 1));
    }
  }

  lemma SubmittedFrom(states: seq<State>, events: seq<Event>, period: nat, before: seq<CmdEvent>, x: CmdEvent,
                      sub: Submission)
    requires Trace(states, events, period) && Submitted(states, events, before, x, sub)
    ensures var r := Submits(states[sub.last], events[sub.last], period);
            r.Some? && x == EventOf(r.value.0, r.value.1) && r.value.0 == x.fd
  {
    hide Step, Submits, Ongoing, Over, Samples, Submitter;
    SubmitsIsOut(states[sub.last], events[sub.last], period);
    assert (before + [x])[|before|] == x && |before + [x]| == |before| + 1;
  }

  lemma PeriodBetween(states: seq<State>, events: seq<Event>, period: nat, b1: seq<CmdEvent>, x1: CmdEvent,
                      s1: Submission,
                      b2: seq<CmdEvent>, x2: CmdEvent, s2: Submission)
    requires Trace(states, events, period) && Monotone(events) && s1.last < s2.last < |events|
    requires Submitted(states, events, b1, x1, s1) && Submitted(states, events, b2, x2, s2)
    requires x1.fd == x2.fd && events[s1.last].WriteReturn? && events[s2.last].WriteReturn?
    requires Known(states, x1.fd, s1.last + 1, s2.last)
    ensures events[s1.last].ts + period < events[s2.last].ts
  {
    SubmittedFrom(states, events, period, b1, x1, s1);
    SubmittedFrom(states, events, period, b2, x2, s2);
    hide Step, Submits, Submitted, PeriodOver, Clock, AllTimely;
    SubmitterFacts(states[s1.last], events[s1.last], period);
    SubmitterFacts(states[s2.last], events[s2.last], period);
    SampleTimeGrows(states, events, period, x1.fd, s1.last + 1, s2.last);
    TimelyHolds(states, events, period, s2.last);
    KnownIsTimely(states[s2.last], x1.fd, Clock(events, s2.last));
    assert Clock(events, s2.last) <= TimeOf(events[s2.last], Clock(events, s2.last)) < TWO64;
    PeriodIsElapsed(Submits(states[s2.last], events[s2.last], period).value.1, events[s2.last].ts, period);
  }

  lemma KnownIsTimely(s: State, fd: int, now: nat)
    requires AllTimely(s, now) && fd in s.conns
    ensures s.conns[fd].lastSmp <= now
  {
  }

  /** Two submissions by writes to one client keep the period apart unless the client was released between them. */
  ghost predicate Apart(states: seq<State>, events: seq<Event>, period: nat, x1: CmdEvent, s1: Submission,
                        x2: CmdEvent, s2: Submission)
    requires |states| == |events| + 1
  {
    && s1.last < |events| && s2.last < |events|
    && (x1.fd == x2.fd && events[s1.last].WriteReturn? && events[s2.last].WriteReturn?
        && Known(states, x1.fd, s1.last + 1, s2.last) ==>
          events[s1.last].ts + period < events[s2.last].ts)
  }

  /** Exactly once. Every submitted event has its own life as `Submitted` tells it, no two come from one sample, and
      two that were submitted by writes to one client are more than a period apart unless the client was released
      between. */
  lemma {:induction false} SubmittedOnce(states: seq<State>, events: seq<Event>, period: nat, n: nat)
    returns (subs: seq<Submission>)
    requires Trace(states, events, period) && Monotone(events) && n < |states|
    ensures Explains(states, events, period, states[n].out, subs)
    ensures forall i :: 0 <= i < |subs| ==> subs[i].last < n
    decreases n
  {
    hide Step, Submits, Submitted, Apart, Monotone;
    if n == 0 {
      return [];
    }
    subs := SubmittedOnce(states, events, period, n - 1);
    var was, out := states[n - 1].out, states[n].out;
    SubmitsIsOut(states[n - 1], events[n - 1], period);
    if Submits(states[n - 1], events[n - 1], period).Some? {
      var sub := OneSubmission(states, events, period, n - 1);
      var x := out[|was|];
      assert out == was + [x];
      ExtendSubmissions(states, events, period, was, x, subs, sub);
      subs := subs + [sub];
    } else {
      assert out == was + [] == was;
    }
  }

  /** The submissions of a run explain its output. */
  ghost predicate Explains(states: seq<State>, events: seq<Event>, period: nat, out: seq<CmdEvent>,
                           subs: seq<Submission>)
    requires |states| == |events| + 1
  {
    && |subs| == |out|
    && (forall i :: 0 <= i < |subs| ==> subs[i].last < |events| && Submitted(states, events, out[..i], out[i], subs[i]))
    && (forall i, j :: 0 <= i < j < |subs| ==> subs[i].last < subs[j].last && subs[i].id != subs[j].id)
    && (forall i, j :: 0 <= i < j < |subs| ==> Apart(states, events, period, out[i], subs[i], out[j], subs[j]))
  }

  lemma ExtendSubmissions(states: seq<State>, events: seq<Event>, period: nat, was: seq<CmdEvent>, x: CmdEvent,
                          subs: seq<Submission>, sub: Submission)
    requires Trace(states, events, period) && Monotone(events) && Explains(states, events, period, was, subs)
    requires sub.last < |events| && Submitted(states, events, was, x, sub)
    requires forall i :: 0 <= i < |subs| ==> subs[i].last < sub.last
    ensures Explains(states, events, period, was + [x], subs + [sub])
  {
    hide Submitted, Apart, Monotone, Step;
    var out, all := was + [x], subs + [sub];
    assert out[..|was|] == was;
    forall i | 0 <= i < |was|
      ensures out[..i] == was[..i] && out[i] == was[i] && all[i] == subs[i]
      ensures subs[i].id != sub.id && Apart(states, events, period, was[i], subs[i], x, sub)
    {
      DistinctSamples(states, events, was[..i], was[i], subs[i], was, x, sub);
      SpacedApart(states, events, period, was[..i], was[i], subs[i], was, x, sub);
    }
  }

  lemma SpacedApart(states: seq<State>, events: seq<Event>, period: nat, b1: seq<CmdEvent>, x1: CmdEvent,
                    s1: Submission,
                    b2: seq<CmdEvent>, x2: CmdEvent, s2: Submission)
    requires Trace(states, events, period) && Monotone(events) && s1.last < s2.last < |events|
    requires Submitted(states, events, b1, x1, s1) && Submitted(states, events, b2, x2, s2)
    ensures Apart(states, events, period, x1, s1, x2, s2)
  {
    hide Submitted, Monotone, Known, Step;
    if x1.fd == x2.fd && events[s1.last].WriteReturn? && events[s2.last].WriteReturn?
       && Known(states, x1.fd, s1.last + 1, s2.last) {
      PeriodBetween(states, events, period, b1, x1, s1, b2, x2, s2);
    }
  }
}
