/** When a sampled command counts as finished, told from the events of its client: the reply positions noted when its
    functions were entered and left, and the bytes sent in between. */
module RedisLog {
  import opened Options
  import opened Words
  import opened Text
  import opened RedisSli

  /** The client whose connection a return handler works on: the one stashed by its own thread, if it is connected. */
  function ClientOf(s: State, e: Event): Option<int> {
    var k := if e.CmdReturn? then Key(e.tid, ProcessCommand)
             else if e.WriteReturn? then Key(e.tid, WriteToClient)
             else Key(0, WriteToClient);
    if (e.CmdReturn? || e.WriteReturn?) && k in s.stash && s.stash[k] in s.conns then Some(s.stash[k]) else None
  }

  predicate Connects(s: State, e: Event, fd: int) {
    e.ReadQuery? && e.fd == fd && fd !in s.conns
  }

  predicate Idle(s: State, fd: int) {
    fd in s.conns && !s.conns[fd].sampling
  }

  /** Positions in the two reply stores of a client. */
  datatype Place = Place(buf: nat, list: nat)

  /** Where the reply of the last handled command ends. */
  datatype Reply = NoReply | InBuffer(pos: nat) | InList(pos: nat)

  ghost predicate Log(states: seq<State>, events: seq<Event>, n: nat) {
    n <= |events| < |states|
  }

  /** The positions the client was last seen at when a command of it was sampled or a write to it began. */
  ghost function Noted(states: seq<State>, events: seq<Event>, fd: int, n: nat): Place
    requires Log(states, events, n)
  {
    if n == 0 then Place(0, 0)
    else
      var s, e := states[n - 1], events[n - 1];
      if Connects(s, e, fd) then Place(0, 0)
      else if (e.WriteEntry? && e.fd == fd && fd in s.conns) || (e.CmdEntry? && e.fd == fd && Idle(s, fd)) then
        Place(e.bufpos, e.listpos)
      else Noted(states, events, fd, n - 1)
  }

  function Dropped(before: nat, after: nat): nat {
    if after < before then before - after else 0
  }

  /** The bytes that left the two stores in writes to the client since its last read outside a sample. */
  ghost function Sent(states: seq<State>, events: seq<Event>, fd: int, n: nat): Place
    requires Log(states, events, n)
  {
    if n == 0 then Place(0, 0)
    else
      var s, e, was := states[n - 1], events[n - 1], Sent(states, events, fd, n - 1);
      if e.ReadQuery? && e.fd == fd && (fd in s.conns ==> !s.conns[fd].sampling) then Place(0, 0)
      else if e.WriteReturn? && ClientOf(s, e) == Some(fd) then
        var at := Noted(states, events, fd, n - 1);
        Place(was.buf + Dropped(at.buf, e.bufpos), was.list + Dropped(at.list, e.listpos))
      else was
  }

  /** Where the reply of the client's last handled command ends: in the store that grew while it was handled. */
  ghost function ReplyOf(states: seq<State>, events: seq<Event>, fd: int, n: nat): Reply
    requires Log(states, events, n)
  {
    if n == 0 then NoReply
    else
      var s, e := states[n - 1], events[n - 1];
      if Connects(s, e, fd) then NoReply
      else if e.CmdReturn? && ClientOf(s, e) == Some(fd) then
        var at := Noted(states, events, fd, n - 1);
        if e.bufpos > at.buf then InBuffer(e.bufpos)
        else if e.listpos > at.list then InList(e.listpos)
        else NoReply
      else ReplyOf(states, events, fd, n - 1)
  }

  /** The reply has left: the bytes sent reach its end. Byte counts are 64-bit words. */
  ghost predicate ReplySent(states: seq<State>, events: seq<Event>, fd: int, n: nat)
    requires Log(states, events, n)
  {
    match ReplyOf(states, events, fd, n)
    case NoReply => false
    case InBuffer(pos) => pos <= U64(Sent(states, events, fd, n).buf)
    case InList(pos) => pos <= U64(Sent(states, events, fd, n).list)
  }

  /** The connection of the client holds what the log says. */
  predicate Matches(c: Conn, noted: Place, sent: Place, reply: Reply) {
    && c.curBuf == noted.buf && c.curList == noted.list
    && c.rdBuf == U64(sent.buf) && c.rdList == U64(sent.list)
    && (c.cmd.hasReply <==> reply != NoReply)
    && (match reply
        case NoReply => c.cmd.store.NoStorage?
        case InBuffer(pos) => c.cmd.store.StaticBuffer? && c.cmd.wrPos == pos
        case InList(pos) => c.cmd.store.DynamicList? && c.cmd.wrPos == pos)
  }

  lemma DrainedMatches(c: Conn, noted: Place, sent: Place, reply: Reply, bufpos: nat, listpos: nat, ts: nat)
    requires Matches(c, noted, sent, reply)
    ensures var after := Place(sent.buf + Dropped(noted.buf, bufpos), sent.list + Dropped(noted.list, listpos));
            && Matches(Drained(c, bufpos, listpos), noted, after, reply)
            && Matches(MaybeFinished(Drained(c, bufpos, listpos), ts), noted, after, reply)
  {
    hide U64;
    WrappedSum64(sent.buf, Dropped(noted.buf, bufpos));
    WrappedSum64(sent.list, Dropped(noted.list, listpos));
  }

  ghost predicate LogMatches(states: seq<State>, events: seq<Event>, fd: int, n: nat)
    requires Log(states, events, n)
  {
    fd in states[n].conns ==>
      Matches(states[n].conns[fd], Noted(states, events, fd, n), Sent(states, events, fd, n),
              ReplyOf(states, events, fd, n))
  }

  lemma StepMatches(states: seq<State>, events: seq<Event>, period: nat, fd: int, n: nat)
    requires Trace(states, events, period) && n < |events| && LogMatches(states, events, fd, n)
    ensures LogMatches(states, events, fd, n + 1)
  {
    var s, e := states[n], events[n];
    assert states[n + 1] == Step(s, e, period);
    if e.WriteReturn? {
      hide *;
      WriteMatches(states, events, period, fd, n);
    } else {
      hide OnWriteReturn, Written, Drained, MaybeFinished, PeriodOver, U64;
      if fd in s.conns {
        assert Matches(s.conns[fd], Noted(states, events, fd, n), Sent(states, events, fd, n),
                       ReplyOf(states, events, fd, n));
      }
      assert U64(0) == 0 by {
        RemainderUnique(0, TWO64, 0, 0);
      }
    }
  }

  lemma WriteMatches(states: seq<State>, events: seq<Event>, period: nat, fd: int, n: nat)
    requires Trace(states, events, period) && n < |events| && LogMatches(states, events, fd, n)
    requires events[n].WriteReturn?
    ensures LogMatches(states, events, fd, n + 1)
  {
    hide Noted, ReplyOf, Drained, MaybeFinished, Matches, PeriodOver;
    var s, e := states[n], events[n];
    assert states[n + 1] == Step(s, e, period);
    StepsBack(states, events, fd, n);
    if ClientOf(s, e) == Some(fd) {
      DrainedMatches(s.conns[fd], Noted(states, events, fd, n), Sent(states, events, fd, n),
                     ReplyOf(states, events, fd, n), e.bufpos, e.listpos, e.ts);
      WrittenMatches(s.(stash := s.stash - {Key(e.tid, WriteToClient)}), fd, e, period,
                     Noted(states, events, fd, n), Sent(states, events, fd, n + 1), ReplyOf(states, events, fd, n));
    }
  }

  lemma StepsBack(states: seq<State>, events: seq<Event>, fd: int, n: nat)
    requires n < |events| < |states| && events[n].WriteReturn?
    ensures Noted(states, events, fd, n + 1) == Noted(states, events, fd, n)
    ensures ReplyOf(states, events, fd, n + 1) == ReplyOf(states, events, fd, n)
  {
  }

  lemma WrittenMatches(s: State, fd: int, e: Event, period: nat, noted: Place, sent: Place, reply: Reply)
    requires fd in s.conns && e.WriteReturn?
    requires Matches(Drained(s.conns[fd], e.bufpos, e.listpos), noted, sent, reply)
    requires Matches(MaybeFinished(Drained(s.conns[fd], e.bufpos, e.listpos), e.ts), noted, sent, reply)
    ensures var after := Written(s, fd, e.ts, e.bufpos, e.listpos, period).conns;
            && fd in after && Matches(after[fd], noted, sent, reply)
            && forall k :: k != fd ==> (k in after <==> k in s.conns) && (k in after ==> after[k] == s.conns[k])
  {
    hide Drained, MaybeFinished, PeriodOver, U64;
  }

  /** In every reachable state the connection of a client holds the positions and byte counts the log tells of. */
  lemma {:induction false} LogHolds(states: seq<State>, events: seq<Event>, period: nat, fd: int, n: nat)
    requires Trace(states, events, period) && n <= |events|
    ensures LogMatches(states, events, fd, n)
    decreases n
  {
    hide LogMatches, Step;
    if n > 0 {
      LogHolds(states, events, period, fd, n - 1);
      StepMatches(states, events, period, fd, n - 1);
    } else {
      NothingLogged(states, events, period, fd);
    }
  }

  lemma NothingLogged(states: seq<State>, events: seq<Event>, period: nat, fd: int)
    requires Trace(states, events, period)
    ensures LogMatches(states, events, fd, 0)
  {
  }

  // ---- times

  ghost predicate Serves(s: State, e: Event, fd: int) {
    e.WriteReturn? && ClientOf(s, e) == Some(fd)
  }

  /** The time of the client's last read outside a sample. */
  ghost function ReadAt(states: seq<State>, events: seq<Event>, fd: int, n: nat): nat
    requires Log(states, events, n)
  {
    if n == 0 then 0
    else
      var s, e := states[n - 1], events[n - 1];
      if e.ReadQuery? && e.fd == fd && (fd in s.conns ==> !s.conns[fd].sampling) then e.ts
      else ReadAt(states, events, fd, n - 1)
  }

  /** The time the client's last sampling period ended: with a write return inside a sample later than the period after
      the end of the one before, or with its connection. */
  ghost function ClosedAt(states: seq<State>, events: seq<Event>, period: nat, fd: int, n: nat): nat
    requires Log(states, events, n)
  {
    if n == 0 then 0
    else
      var s, e, was := states[n - 1], events[n - 1], ClosedAt(states, events, period, fd, n - 1);
      if Connects(s, e, fd) || (Serves(s, e, fd) && s.conns[fd].sampling && U64(e.ts - was) > period) then e.ts else was
  }

  ghost predicate Timed(states: seq<State>, events: seq<Event>, period: nat, fd: int, n: nat)
    requires Log(states, events, n)
  {
    fd in states[n].conns ==>
      && states[n].conns[fd].lastRead == ReadAt(states, events, fd, n)
      && states[n].conns[fd].lastSmp == ClosedAt(states, events, period, fd, n)
  }

  lemma StepTimed(states: seq<State>, events: seq<Event>, period: nat, fd: int, n: nat)
    requires Trace(states, events, period) && n < |events| && Timed(states, events, period, fd, n)
    ensures Timed(states, events, period, fd, n + 1)
  {
    hide U64, Drained, MaybeFinished;
    var s, e := states[n], events[n];
    assert states[n + 1] == Step(s, e, period);
    if e.WriteReturn? && ClientOf(s, e).Some? {
      SameSampling(s.conns[ClientOf(s, e).value], e.bufpos, e.listpos, e.ts);
    }
  }

  lemma {:induction false} TimesHold(states: seq<State>, events: seq<Event>, period: nat, fd: int, n: nat)
    requires Trace(states, events, period) && n <= |events|
    ensures Timed(states, events, period, fd, n)
    decreases n
  {
    hide Step;
    if n > 0 {
      hide Timed;
      TimesHold(states, events, period, fd, n - 1);
      StepTimed(states, events, period, fd, n - 1);
    }
  }

  // ---- what happens to a sample

  /** A command of an idle client starts a sample, with its name and the time of the read before it. */
  lemma SampleBegins(states: seq<State>, events: seq<Event>, period: nat, fd: int, n: nat)
    requires Trace(states, events, period) && n < |events| && events[n].CmdEntry? && events[n].fd == fd
    requires Idle(states[n], fd)
    ensures fd in states[n + 1].conns
    ensures var c := states[n + 1].conns[fd];
            && c.sampling && !c.cmd.finished && c.cmd.name == Bounded(events[n].name, MAX_REDIS_CMD_LEN)
            && c.cmd.start == ReadAt(states, events, fd, n)
  {
    TimesHold(states, events, period, fd, n);
    assert states[n + 1] == Step(states[n], events[n], period);
  }

  /** Event `n` finishes the command of the client: the return of a write with which the reply has left, or of a command
      that has no reply. */
  ghost predicate FinishesAt(states: seq<State>, events: seq<Event>, fd: int, n: nat)
    requires n < |events| < |states|
  {
    || (Serves(states[n], events[n], fd) && ReplySent(states, events, fd, n + 1))
    || (events[n].CmdReturn? && ClientOf(states[n], events[n]) == Some(fd)
        && ReplyOf(states, events, fd, n + 1) == NoReply)
  }

  /** A sampled command that is not finished becomes so exactly when its reply has left, or when it returns without one;
      and its end is the time of that event. */
  lemma FinishesIff(states: seq<State>, events: seq<Event>, period: nat, fd: int, n: nat)
    requires Trace(states, events, period) && n < |events|
    requires fd in states[n].conns && states[n].conns[fd].sampling && !states[n].conns[fd].cmd.finished
    ensures fd in states[n + 1].conns ==>
              && (states[n + 1].conns[fd].cmd.finished <==> FinishesAt(states, events, fd, n))
              && (FinishesAt(states, events, fd, n) ==> states[n + 1].conns[fd].cmd.end == events[n].ts)
  {
    hide U64, Noted, Sent, ReplyOf, Drained, MaybeFinished, PeriodOver;
    var s, e := states[n], events[n];
    assert states[n + 1] == Step(s, e, period);
    if e.WriteReturn? {
      hide ReplySent;
      if ClientOf(s, e).Some? {
        SameSampling(s.conns[ClientOf(s, e).value], e.bufpos, e.listpos, e.ts);
      }
      if ClientOf(s, e) == Some(fd) {
        FinishedIff(states, events, period, fd, n);
      }
    } else if e.CmdReturn? && ClientOf(s, e) == Some(fd) {
      LogHolds(states, events, period, fd, n);
      ReplyStep(states, events, fd, n);
    }
  }

  lemma SentStep(states: seq<State>, events: seq<Event>, fd: int, n: nat)
    requires n < |events| < |states| && Serves(states[n], events[n], fd)
    ensures var at, was := Noted(states, events, fd, n), Sent(states, events, fd, n);
            Sent(states, events, fd, n + 1) == Place(was.buf + Dropped(at.buf, events[n].bufpos),
                                                     was.list + Dropped(at.list, events[n].listpos))
  {
  }

  lemma ReplyStep(states: seq<State>, events: seq<Event>, fd: int, n: nat)
    requires n < |events| < |states| && events[n].CmdReturn? && ClientOf(states[n], events[n]) == Some(fd)
    ensures var at, e := Noted(states, events, fd, n), events[n];
            ReplyOf(states, events, fd, n + 1)
            == if e.bufpos > at.buf then InBuffer(e.bufpos)
               else if e.listpos > at.list then InList(e.listpos)
               else NoReply
  {
  }

  /** Event `n` ends the sample of the client: a write to it returns later than the period after its last one ended. */
  ghost predicate ClosesAt(states: seq<State>, events: seq<Event>, period: nat, fd: int, n: nat)
    requires n < |events| < |states|
  {
    && Serves(states[n], events[n], fd) && states[n].conns[fd].sampling
    && U64(events[n].ts - ClosedAt(states, events, period, fd, n)) > period
  }

  /** A sample is under way from the entry of a command of an idle client until it is closed. */
  lemma SamplingIff(states: seq<State>, events: seq<Event>, period: nat, fd: int, n: nat)
    requires Trace(states, events, period) && n < |events|
    ensures fd in states[n + 1].conns ==>
              (states[n + 1].conns[fd].sampling <==>
               || (events[n].CmdEntry? && events[n].fd == fd && Idle(states[n], fd))
               || (fd in states[n].conns && states[n].conns[fd].sampling
                   && !ClosesAt(states, events, period, fd, n)))
  {
    TimesHold(states, events, period, fd, n);
    hide U64, Drained, MaybeFinished, ClosedAt;
    var s, e := states[n], events[n];
    assert states[n + 1] == Step(s, e, period);
    if e.WriteReturn? && ClientOf(s, e).Some? {
      SameSampling(s.conns[ClientOf(s, e).value], e.bufpos, e.listpos, e.ts);
    }
  }

  /** Event `n` submits the command of the client: it closes a sample whose command is finished, at the latest with this
      event, or releases the client during such a sample. */
  ghost predicate SubmitsAt(states: seq<State>, events: seq<Event>, period: nat, fd: int, n: nat)
    requires n < |events| < |states|
  {
    || (ClosesAt(states, events, period, fd, n)
        && (states[n].conns[fd].cmd.finished || ReplySent(states, events, fd, n + 1)))
    || (events[n].FreeClient? && events[n].fd == fd && fd in states[n].conns
        && states[n].conns[fd].sampling && states[n].conns[fd].cmd.finished)
  }

  /** An event is submitted exactly then, one at a time and of that client. */
  lemma SubmitsIff(states: seq<State>, events: seq<Event>, period: nat, n: nat)
    requires Trace(states, events, period) && n < |events|
    ensures (states[n + 1].out == states[n].out && forall fd :: !SubmitsAt(states, events, period, fd, n))
         || exists fd :: SubmitsAt(states, events, period, fd, n) && |states[n + 1].out| == |states[n].out| + 1
              && states[n + 1].out[..|states[n].out|] == states[n].out
              && states[n + 1].out[|states[n].out|].fd == fd
  {
    var s, e := states[n], events[n];
    assert states[n + 1] == Step(s, e, period);
    SubmitsIsOut(s, e, period);
    if e.FreeClient? {
      OneSubmits(states, events, period, e.fd, n);
    } else if e.WriteReturn? && ClientOf(s, e).Some? {
      OneSubmits(states, events, period, ClientOf(s, e).value, n);
    }
    hide Step, U64, Drained, MaybeFinished, ClosedAt, ReplySent;
    assert s.out + [] == s.out;
  }

  lemma OneSubmits(states: seq<State>, events: seq<Event>, period: nat, fd: int, n: nat)
    requires Trace(states, events, period) && n < |events|
    requires (events[n].FreeClient? && events[n].fd == fd) || Serves(states[n], events[n], fd)
    ensures SubmitsAt(states, events, period, fd, n) <==> Submits(states[n], events[n], period).Some?
    ensures Submits(states[n], events[n], period).Some? ==> Submits(states[n], events[n], period).value.0 == fd
  {
    hide U64, Drained, MaybeFinished, ClosedAt, ReplySent, Step;
    TimesHold(states, events, period, fd, n);
    var s, e := states[n], events[n];
    if Serves(s, e, fd) {
      SameSampling(s.conns[fd], e.bufpos, e.listpos, e.ts);
      FinishedIff(states, events, period, fd, n);
    }
  }

  lemma FinishedIff(states: seq<State>, events: seq<Event>, period: nat, fd: int, n: nat)
    requires Trace(states, events, period) && n < |events| && Serves(states[n], events[n], fd)
    ensures MaybeFinished(Drained(states[n].conns[fd], events[n].bufpos, events[n].listpos), events[n].ts).cmd.finished
            <==> states[n].conns[fd].cmd.finished || ReplySent(states, events, fd, n + 1)
  {
    LogHolds(states, events, period, fd, n);
    hide U64, Noted, Sent, ReplyOf;
    StepsBack(states, events, fd, n);
    DrainedMatches(states[n].conns[fd], Noted(states, events, fd, n), Sent(states, events, fd, n),
                   ReplyOf(states, events, fd, n), events[n].bufpos, events[n].listpos, events[n].ts);
    SentStep(states, events, fd, n);
  }

  // ---- the event that finishes a submitted command

  lemma EndIsSet(states: seq<State>, events: seq<Event>, period: nat, fd: int, n: nat)
    requires Trace(states, events, period) && n < |events| && fd in states[n].conns && states[n].conns[fd].sampling
    requires Finisher(states[n], events[n], fd) && OverIn(states[n + 1], fd, events[n].ts)
    ensures FinishesAt(states, events, fd, n)
    ensures events[n].WriteReturn? ==> !states[n].conns[fd].cmd.finished
  {
    hide U64, PeriodOver;
    var s, e := states[n], events[n];
    assert states[n + 1] == Step(s, e, period);
    if e.WriteReturn? {
      hide Drained, MaybeFinished, ReplySent;
      SameSampling(s.conns[fd], e.bufpos, e.listpos, e.ts);
      FinishedIff(states, events, period, fd, n);
    } else {
      hide Sent, Noted, ReplyOf;
      LogHolds(states, events, period, fd, n);
      ReplyStep(states, events, fd, n);
    }
  }

  lemma FinishedStays(states: seq<State>, events: seq<Event>, period: nat, fd: int, n: nat)
    requires Trace(states, events, period) && n < |events| && fd in states[n].conns && fd in states[n + 1].conns
    requires states[n].conns[fd].sampling && states[n].conns[fd].cmd.finished
    ensures states[n + 1].conns[fd].cmd.finished
  {
    hide U64, Drained, MaybeFinished, PeriodOver;
    var s, e := states[n], events[n];
    assert states[n + 1] == Step(s, e, period);
    if e.WriteReturn? && ClientOf(s, e).Some? {
      SameSampling(s.conns[ClientOf(s, e).value], e.bufpos, e.listpos, e.ts);
    }
  }

  lemma {:induction false} NotYet(states: seq<State>, events: seq<Event>, period: nat, fd: int, i: nat, n: nat)
    requires Trace(states, events, period) && i <= n < |states|
    requires forall j :: i <= j <= n ==> fd in states[j].conns && states[j].conns[fd].sampling
    requires !states[n].conns[fd].cmd.finished
    ensures forall j :: i <= j <= n ==> !states[j].conns[fd].cmd.finished
    decreases n
  {
    hide Step;
    if i < n {
      if states[n - 1].conns[fd].cmd.finished {
        FinishedStays(states, events, period, fd, n - 1);
      }
      NotYet(states, events, period, fd, i, n - 1);
    }
  }

  /** The command of a submitted event was finished by the write return with which its reply had left, the first such
      one since it was sampled; or by its own return, if it has no reply. */
  lemma FinishedWhenSent(states: seq<State>, events: seq<Event>, period: nat, before: seq<CmdEvent>, x: CmdEvent,
                         sub: Submission)
    requires Trace(states, events, period) && Submitted(states, events, before, x, sub)
    ensures FinishesAt(states, events, x.fd, sub.fin)
    ensures events[sub.fin].WriteReturn? ==>
              forall i :: sub.id < i < sub.fin ==> !FinishesAt(states, events, x.fd, i)
  {
    hide FinishesAt, Step, Samples, Submitter, OverIn;
    assert OverIn(states[sub.fin + 1], x.fd, events[sub.fin].ts);
    EndIsSet(states, events, period, x.fd, sub.fin);
    if events[sub.fin].WriteReturn? {
      NotYet(states, events, period, x.fd, sub.id + 1, sub.fin);
      forall i | sub.id < i < sub.fin
        ensures !FinishesAt(states, events, x.fd, i)
      {
        FinishesIff(states, events, period, x.fd, i);
      }
    }
  }

  // ---- every return finds its entry

  function EntryKey(e: Event): Option<Key> {
    if e.CmdEntry? then Some(Key(e.tid, ProcessCommand))
    else if e.WriteEntry? then Some(Key(e.tid, WriteToClient))
    else None
  }

  function ReturnKey(e: Event): Option<Key> {
    if e.CmdReturn? then Some(Key(e.tid, ProcessCommand))
    else if e.WriteReturn? then Some(Key(e.tid, WriteToClient))
    else None
  }

  lemma EntryStashes(s: State, e: Event, period: nat)
    requires EntryKey(e).Some? && e.room && e.fd in s.conns && (e.CmdEntry? ==> !s.conns[e.fd].sampling)
    ensures var t := Step(s, e, period).stash; EntryKey(e).value in t && t[EntryKey(e).value] == e.fd
  {
  }

  lemma StashStays(s: State, calls: Calls, e: Event, period: nat, k: Key)
    requires OwnStash(s, calls) && Disciplined(calls, e) && k in s.stash && ReturnKey(e) != Some(k)
    ensures var t := Step(s, e, period).stash; k in t && t[k] == s.stash[k]
  {
    hide Drained, MaybeFinished, PeriodOver, U64;
  }

  /** What a thread stashes on entry is what it finds on return: between a stashed entry at `i` and the first return of
      the same function in the same thread at `n`, nothing else touches it. */
  lemma {:induction false} ReturnFindsEntry(states: seq<State>, events: seq<Event>, period: nat, i: nat, n: nat)
    requires Trace(states, events, period) && NoReentry(events) && i < n <= |events|
    requires EntryKey(events[i]).Some? && events[i].room && events[i].fd in states[i].conns
    requires events[i].CmdEntry? ==> !states[i].conns[events[i].fd].sampling
    requires forall j :: i < j < n ==> ReturnKey(events[j]) != EntryKey(events[i])
    ensures var k := EntryKey(events[i]).value;
            k in states[n].stash && states[n].stash[k] == events[i].fd
    decreases n
  {
    hide Step, Disciplined, OwnStash;
    if n == i + 1 {
      EntryStashes(states[i], events[i], period);
    } else {
      ReturnFindsEntry(states, events, period, i, n - 1);
      StashIsOwn(states, events, period, n - 1);
      StashStays(states[n - 1], CallsAt(events, n - 1), events[n - 1], period, EntryKey(events[i]).value);
    }
  }
}
