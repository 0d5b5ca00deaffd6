/** What a connection of the ksli probe measures, told from its event log: where the start of a round trip comes from,
    which cycles complete, and when a report leaves. */
module KsliLog {
  import opened Words
  import opened Resp
  import opened Ksli

  /** Data waits on an idle connection: its arrival stamp is taken. */
  ghost predicate Arrives(states: seq<State>, events: seq<Event>, i: nat)
    requires i < |events| < |states|
  {
    events[i].Recv? && events[i].queued && !InCycle(states[i].status)
  }

  /** A recognised request on an idle connection. */
  ghost predicate Opens(states: seq<State>, events: seq<Event>, i: nat)
    requires i < |events| < |states|
  {
    events[i].Read? && !InCycle(states[i].status) && Accepted(events[i].buf)
  }

  /** The cycle ends with a measurement. */
  ghost predicate Measures(states: seq<State>, events: seq<Event>, i: nat)
    requires i < |events| < |states|
  {
    !states[i].status.Finished? && states[i + 1].status.Finished?
  }

  /** The cycle is dropped by a read that finds it too old. */
  ghost predicate Expires(states: seq<State>, events: seq<Event>, i: nat)
    requires i < |events| < |states|
  {
    events[i].Read? && InCycle(states[i].status) && !InCycle(states[i + 1].status)
  }

  /** The stamp of the last data that arrived on the idle connection since a cycle was last measured or too old; 0 if
      there was none. */
  ghost function Arrival(states: seq<State>, events: seq<Event>, n: nat): nat
    requires n <= |events| < |states|
  {
    if n == 0 || Measures(states, events, n - 1) || Expires(states, events, n - 1) then 0
    else if Arrives(states, events, n - 1) then events[n - 1].tstamp
    else Arrival(states, events, n - 1)
  }

  /** The clock of the first read that opened a cycle since then, or since the last arrival. */
  ghost function FirstRead(states: seq<State>, events: seq<Event>, n: nat): nat
    requires n <= |events| < |states|
  {
    if n == 0 || Measures(states, events, n - 1) || Expires(states, events, n - 1) || Arrives(states, events, n - 1)
    then 0
    else
      var was := FirstRead(states, events, n - 1);
      if Opens(states, events, n - 1) && was == 0 then events[n - 1].ts else was
  }

  /** Where a start time comes from. */
  ghost function Origin(states: seq<State>, events: seq<Event>, n: nat): nat
    requires n <= |events| < |states|
  {
    if Arrival(states, events, n) > 0 then Arrival(states, events, n) else FirstRead(states, events, n)
  }

  /** How one event moves phase and start time. */
  lemma StepPhase(s: State, e: Event)
    requires Shape(s)
    ensures var t := Step(s, e);
            && (e.Recv? ==> t == if e.queued && !InCycle(s.status) then s.(start := e.tstamp) else s)
            && (e.Read? && !InCycle(s.status) ==>
                  if Accepted(e.buf) then t.status.ReadReady? && t.start == if s.start == 0 then e.ts else s.start
                  else t.status.SampInit? && t.start == s.start)
            && (e.Read? && InCycle(s.status) ==>
                  if e.ts > s.start && e.ts - s.start >= 5_000_000_000 then t.status.SampInit? && t.start == 0
                  else t.status == s.status && t.start == s.start && t.skb == s.skb)
            && (e.Write? ==>
                  t.start == s.start && t.skb == s.skb
                  && t.status == if s.status.ReadReady? then WriteReady else s.status)
            && (e.Sent? ==> t.start == s.start
                            && if s.status.WriteReady? then t.status.SkbReady? && t.skb == e.skb
                               else t.status == s.status && t.skb == s.skb)
            && (e.Delivered? ==>
                  if s.status.SkbReady? && s.skb == e.skb then
                    if e.ts < s.start then t.status.SampInit? && t.start == s.start
                    else t.status.Finished? && t.start == 0 && t.rtt == e.ts - s.start
                  else t == s)
  {
    hide Recognise, Accepted;
    if e.Read? {
      RecogniseLeaves(e.buf, s.current.command);
      RecogniseLeaves(e.buf, ZeroCommand());
    }
  }

  /** In every run the start time is the last arrival stamp, or else the clock of the first read that opened a cycle. */
  lemma {:induction false} StartIsOrigin(states: seq<State>, events: seq<Event>, n: nat)
    requires Trace(states, events) && n <= |events|
    ensures states[n].start == Origin(states, events, n)
    decreases n
  {
    hide Step, Accepted;
    if n > 0 {
      StartIsOrigin(states, events, n - 1);
      StepPhase(states[n - 1], events[n - 1]);
    }
  }

  // ---- the start of a measured round trip

  /** Reads and deliveries see a clock that never runs back. */
  ghost predicate Monotone(events: seq<Event>) {
    forall i, j :: 0 <= i < j < |events| && Timed(events[i]) && Timed(events[j]) ==> events[i].ts <= events[j].ts
  }

  predicate Timed(e: Event) {
    e.Read? || e.Delivered?
  }

  /** Under such a clock a cycle that started with its own read is never given up for an early acknowledgement, so an
      idle connection remembers no read. */
  ghost predicate Remembers(states: seq<State>, events: seq<Event>, n: nat)
    requires n <= |events| < |states|
  {
    && (Arrival(states, events, n) == 0 && FirstRead(states, events, n) > 0 ==> InCycle(states[n].status))
    && (FirstRead(states, events, n) > 0 ==>
          exists i :: 0 <= i < n && events[i].Read? && events[i].ts == FirstRead(states, events, n))
  }

  lemma {:induction false} NoReadRemembered(states: seq<State>, events: seq<Event>, n: nat)
    requires Trace(states, events) && Monotone(events) && n <= |events|
    ensures Remembers(states, events, n)
    decreases n
  {
    hide Step, Accepted;
    if n > 0 {
      NoReadRemembered(states, events, n - 1);
      StartIsOrigin(states, events, n - 1);
      StepPhase(states[n - 1], events[n - 1]);
      var first := FirstRead(states, events, n - 1);
      if first > 0 {
        var i :| 0 <= i < n - 1 && events[i].Read? && events[i].ts == first;
        assert Timed(events[n - 1]) ==> events[i].ts <= events[n - 1].ts;
      }
      assert Opens(states, events, n - 1) ==> events[n - 1].Read?;
    }
  }

  /** A measured round trip is the time of the acknowledgement minus the stamp with which data last arrived before the
      read that opened the cycle, since the last measurement or expiry; minus the clock of that read if no data arrived
      or its stamp was 0. */
  lemma RttFromArrival(states: seq<State>, events: seq<Event>, n: nat) returns (r: nat)
    requires Trace(states, events) && Monotone(events) && n < |events| && Measures(states, events, n)
    ensures r < n && Opens(states, events, r) && events[n].Delivered?
    ensures forall i :: r < i <= n ==> InCycle(states[i].status)
    ensures var arrival := Arrival(states, events, r);
            states[n + 1].rtt == events[n].ts - if arrival > 0 then arrival else events[r].ts
    ensures states[n + 1].current.command == states[r + 1].current.command
  {
    hide Step, Accepted;
    var w, k, start;
    r, w, k, start := CyclePassesPhases(states, events, n);
    StartIsOrigin(states, events, r);
    NoReadRemembered(states, events, r);
    CommandKept(states, events, r + 1, n);
    StepCommand(states[n], events[n]);
  }

  lemma {:induction false} CommandKept(states: seq<State>, events: seq<Event>, r: nat, n: nat)
    requires Trace(states, events) && r <= n <= |events| && forall i :: r <= i < n ==> InCycle(states[i].status)
    ensures states[n].current.command == states[r].current.command
    decreases n
  {
    hide Step;
    if r < n {
      CommandKept(states, events, r, n - 1);
      StepCommand(states[n - 1], events[n - 1]);
    }
  }

  // ---- which cycles complete

  /** No read between the two events finds the cycle too old. */
  ghost predicate InTime(events: seq<Event>, r: nat, n: nat, start: nat)
    requires n <= |events|
  {
    forall i :: r < i < n && events[i].Read? ==> events[i].ts < start + 5_000_000_000
  }

  /** Until its next event comes, a cycle stays in its phase. */
  lemma {:induction false} PhaseStays(states: seq<State>, events: seq<Event>, r: nat, from: nat, n: nat, start: nat)
    requires Trace(states, events) && r < from <= n <= |events| && InTime(events, r, n, start)
    requires InCycle(states[from].status) && states[from].start == start
    requires forall i :: from <= i < n ==>
               match states[from].status
               case ReadReady => !events[i].Write?
               case WriteReady => !events[i].Sent?
               case _ => !(events[i].Delivered? && events[i].skb == states[from].skb)
    ensures states[n].status == states[from].status && states[n].start == start
    ensures states[n].status.SkbReady? ==> states[n].skb == states[from].skb
    decreases n
  {
    hide Step, Accepted;
    if from < n {
      PhaseStays(states, events, r, from, n - 1, start);
      StepPhase(states[n - 1], events[n - 1]);
    }
  }

  /** Every cycle that is not disturbed completes. It opens with a read at `r`; a write follows at `w`, a queued segment
      at `k` and the first delivery of that segment at `n`, no earlier than the start; and no read in between comes five
      seconds or more after the start. Then the round trip is measured, from the origin of the start. */
  lemma CycleCompletes(states: seq<State>, events: seq<Event>, r: nat, w: nat, k: nat, n: nat)
    requires Trace(states, events) && r < w < k < n < |events| && Opens(states, events, r)
    requires events[w].Write? && forall i :: r < i < w ==> !events[i].Write?
    requires events[k].Sent? && forall i :: w < i < k ==> !events[i].Sent?
    requires events[n].Delivered? && events[n].skb == events[k].skb
    requires forall i :: k < i < n ==> !(events[i].Delivered? && events[i].skb == events[k].skb)
    requires InTime(events, r, n, Origin(states, events, r + 1)) && Origin(states, events, r + 1) <= events[n].ts
    ensures Measures(states, events, n) && states[n + 1].rtt == events[n].ts - Origin(states, events, r + 1)
  {
    hide Step, Accepted, Origin;
    var start := Origin(states, events, r + 1);
    StartIsOrigin(states, events, r + 1);
    StepPhase(states[r], events[r]);
    PhaseStays(states, events, r, r + 1, w, start);
    StepPhase(states[w], events[w]);
    PhaseStays(states, events, r, w + 1, k, start);
    StepPhase(states[k], events[k]);
    PhaseStays(states, events, r, k + 1, n, start);
    StepPhase(states[n], events[n]);
  }

  /** A cycle under way ends otherwise in two ways only: too old for a read, exactly from five seconds after its start,
      or acknowledged before its start, which then stays as it is. */
  lemma CycleEndsOtherwise(states: seq<State>, events: seq<Event>, n: nat)
    requires Trace(states, events) && n < |events| && InCycle(states[n].status)
    ensures var e, start := events[n], Origin(states, events, n);
            && (Expires(states, events, n) <==> e.Read? && start + 5_000_000_000 <= e.ts)
            && (states[n + 1].status.SampInit? && !e.Read? <==>
                  e.Delivered? && states[n].status.SkbReady? && states[n].skb == e.skb && e.ts < start)
            && (states[n + 1].status.SampInit? && !e.Read? ==> states[n + 1].start == start)
  {
    hide Step, Accepted, Origin;
    StartIsOrigin(states, events, n);
    StepPhase(states[n], events[n]);
  }

  // ---- reports

  /** The clock of the read that closed the last report window: five seconds or more after the one before. */
  ghost function WindowStart(events: seq<Event>, n: nat): nat
    requires n <= |events|
  {
    if n == 0 then 0
    else
      var was, e := WindowStart(events, n - 1), events[n - 1];
      if e.Read? && e.ts >= was + 5_000_000_000 then e.ts else was
  }

  lemma {:induction false} WindowStarts(states: seq<State>, events: seq<Event>, n: nat)
    requires Trace(states, events) && n <= |events|
    ensures states[n].lastReport == WindowStart(events, n)
    decreases n
  {
    hide Step, WindowInv;
    if n > 0 {
      WindowStarts(states, events, n - 1);
      WindowHolds(states, events, n - 1);
      StepFolds(Window(states, events, n - 1), states[n - 1], events[n - 1]);
    }
  }

  /** The measured samples that reads have folded since then, each with its command. */
  ghost function Folded(states: seq<State>, events: seq<Event>, n: nat): seq<RttCmd>
    requires n <= |events| < |states|
  {
    if n == 0 then []
    else
      var was, e, s := Folded(states, events, n - 1), events[n - 1], states[n - 1];
      if !e.Read? then was
      else (if e.ts >= WindowStart(events, n - 1) + 5_000_000_000 then [] else was)
           + if s.status.Finished? then [RttCmd(s.current.command, s.rtt)] else []
  }

  lemma {:induction false} WindowIsFolded(states: seq<State>, events: seq<Event>, n: nat)
    requires Trace(states, events) && n <= |events|
    ensures Window(states, events, n) == Folded(states, events, n)
    decreases n
  {
    hide Step;
    if n > 0 {
      WindowIsFolded(states, events, n - 1);
      WindowStarts(states, events, n - 1);
    }
  }

  /** A report leaves exactly with a read that closes a window with samples in it: five seconds or more after the read
      that closed the one before. It carries the time, the number of samples, the first of the largest and of the
      smallest, and the last. */
  lemma ReportsIff(states: seq<State>, events: seq<Event>, n: nat)
    requires Trace(states, events) && n < |events| && |Folded(states, events, n)| < TWO32
    ensures var w, e := Folded(states, events, n), events[n];
            var was, now := states[n].reports, states[n + 1].reports;
            if e.Read? && e.ts >= WindowStart(events, n) + 5_000_000_000 && w != [] then
              && |now| == |was| + 1 && now[..|was|] == was
              && now[|was|].at == e.ts && now[|was|].sampleNum == |w|
              && Summarises(w, now[|was|].max, now[|was|].min, now[|was|].recent)
            else now == was
  {
    hide Step, Summarises, Window, Folded, WindowStart;
    WindowIsFolded(states, events, n);
    WindowStarts(states, events, n);
    ReportsSummariseWindows(states, events, n);
  }

  // ---- the protocol

  ghost predicate Opened(states: seq<State>, events: seq<Event>, n: nat)
    requires n <= |events| < |states|
  {
    exists r :: 0 <= r < n && Opens(states, events, r)
  }

  /** The connection is taken for a Redis one exactly if a cycle was ever opened on it. */
  lemma {:induction false} ProtocolIff(states: seq<State>, events: seq<Event>, n: nat)
    requires Trace(states, events) && n <= |events| && !states[0].redis
    ensures states[n].redis <==> Opened(states, events, n)
    ensures !states[n].redis ==> states[n].sampleNum == 0 && states[n].status.SampInit?
    decreases n
  {
    hide Step, Accepted;
    if n > 0 {
      ProtocolIff(states, events, n - 1);
      StepProtocol(states[n - 1], events[n - 1]);
      assert Opened(states, events, n) <==> Opened(states, events, n - 1) || Opens(states, events, n - 1);
      StepPhase(states[n - 1], events[n - 1]);
    }
  }

  lemma StepProtocol(s: State, e: Event)
    requires Shape(s)
    ensures var t := Step(s, e);
            && (s.redis ==> t.redis)
            && (!s.redis && s.sampleNum == 0 && s.status.SampInit? ==>
                  (t.redis <==> e.Read? && Accepted(e.buf)) && (!t.redis ==> t.sampleNum == 0 && t.status.SampInit?))
  {
    hide Recognise, Accepted;
    if e.Read? {
      RecogniseLeaves(e.buf, s.current.command);
    }
  }
}
