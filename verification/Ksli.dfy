/** The ksli probe's sampling state machine for one server connection: one round-trip sample at a time. */
module Ksli {
  import opened Words
  import opened Numbers
  import opened Resp

  const PERIOD: nat := 5_000_000_000

  datatype Status = SampInit | ReadReady | WriteReady | SkbReady | Finished

  datatype RttCmd = RttCmd(command: string, rtt: nat)

  /** What a periodic report carries, and when it was sent. */
  datatype Report = Report(at: nat, sampleNum: nat, max: RttCmd, min: RttCmd, recent: RttCmd)

  /** Sample data of the socket, statistics of the connection, and the reports sent so far. */
  datatype State = State(
    status: Status, skb: nat, start: nat, rtt: nat,
    max: RttCmd, min: RttCmd, recent: RttCmd, current: RttCmd,
    lastReport: nat, sampleNum: nat, redis: bool,
    reports: seq<Report>)

  /** Probe events: `read` and `write` returning, a segment queued, one acknowledged, data about to be received. */
  datatype Event =
    | Read(ts: nat, buf: string)  // a failed copy of the request counts as an empty one
    | Write
    | Sent(skb: nat)
    | Delivered(skb: nat, ts: nat)
    | Recv(queued: bool, tstamp: nat)

  predicate Shape(s: State) {
    |s.current.command| == REQ_SIZE && s.sampleNum < TWO32
  }

  predicate Due(s: State, ts: nat) {
    ts > s.lastReport && ts - s.lastReport >= PERIOD
  }

  function PeriodicReport(s: State, ts: nat): State {
    if !Due(s, ts) then s
    else if s.sampleNum == 0 then s.(lastReport := ts)
    else s.(lastReport := ts, sampleNum := 0, reports := s.reports + [Report(ts, s.sampleNum, s.max, s.min, s.recent)])
  }

  /** The sample a finished cycle is about to deliver. */
  function Sample(s: State): RttCmd {
    s.current.(rtt := s.rtt)
  }

  function Harvest(s: State): State {
    var x := Sample(s);
    s.(status := SampInit, recent := x, current := RttCmd(ZeroCommand(), 0), sampleNum := U32(s.sampleNum + 1),
       max := if s.sampleNum == 0 || x.rtt > s.max.rtt then x else s.max,
       min := if s.sampleNum == 0 || (x.rtt <= s.max.rtt && x.rtt < s.min.rtt) then x else s.min)
  }

  /** A read that finds a cycle under way only checks its age; otherwise a recognised request opens the next cycle. */
  function OpenCycle(s: State, ts: nat, buf: string): State
    requires Shape(s)
  {
    if !s.status.SampInit? then
      if ts > s.start && ts - s.start >= PERIOD then s.(status := SampInit, start := 0) else s
    else
      var (ok, command) := Recognise(buf, s.current.command);
      var s' := s.(current := s.current.(command := command));
      if !ok then s'
      else s'.(redis := s.redis || s.sampleNum == 0, start := if s.start == 0 then ts else s.start, status := ReadReady)
  }

  function ReadStep(s: State, ts: nat, buf: string): State
    requires Shape(s)
  {
    var s1 := PeriodicReport(s, ts);
    OpenCycle(if s1.status.Finished? then Harvest(s1) else s1, ts, buf)
  }

  function Step(s: State, e: Event): (r: State)
    requires Shape(s)
    ensures Shape(r)
  {
    match e
    case Read(ts, buf) => ReadStep(s, ts, buf)
    case Write => if s.status.ReadReady? then s.(status := WriteReady) else s
    case Sent(skb) => if s.status.WriteReady? then s.(skb := skb, status := SkbReady) else s
    case Delivered(skb, ts) =>
      if !s.status.SkbReady? || s.skb != skb then s
      else if ts < s.start then s.(status := SampInit)
      else s.(rtt := ts - s.start, start := 0, status := Finished)
    case Recv(queued, tstamp) =>
      if (s.status.Finished? || s.status.SampInit?) && queued then s.(start := tstamp) else s
  }

  // ---- the handlers

  class Connection {
    var status: Status
    var skb: nat
    var start: nat
    var rtt: nat
    var max: RttCmd
    var min: RttCmd
    var recent: RttCmd
    var command: array<char>
    var currentRtt: nat
    var lastReport: nat
    var sampleNum: nat
    var redis: bool
    var reports: seq<Report>

    function View(): State
      reads this, command
    {
      State(status, skb, start, rtt, max, min, recent, RttCmd(command[..], currentRtt), lastReport, sampleNum, redis,
            reports)
    }

    ghost predicate Valid()
      reads this, command
    {
      command.Length == REQ_SIZE && Shape(View())
    }

    constructor ()
      ensures Valid() && fresh(command)
      ensures status.SampInit? && start == 0 && sampleNum == 0 && lastReport == 0 && reports == []
      ensures command[..] == ZeroCommand()
    {
      status, skb, start, rtt := SampInit, 0, 0, 0;
      max, min, recent := RttCmd(ZeroCommand(), 0), RttCmd(ZeroCommand(), 0), RttCmd(ZeroCommand(), 0);
      command := new char[REQ_SIZE](_ => '\0');
      currentRtt, lastReport, sampleNum, redis, reports := 0, 0, 0, false, [];
      new;
      assert command[..] == ZeroCommand();
    }

    method ReportIfDue(ts: nat)
      requires Valid()
      modifies this`lastReport, this`sampleNum, this`reports
      ensures Valid() && View() == PeriodicReport(old(View()), ts)
    {
      if ts > lastReport && ts - lastReport >= PERIOD {
        if sampleNum > 0 {
          reports := reports + [Report(ts, sampleNum, max, min, recent)];
          sampleNum := 0;
        }
        lastReport := ts;
      }
    }

    method HarvestSample()
      requires Valid() && status.Finished?
      modifies this`status, this`recent, this`max, this`min, this`sampleNum, this`currentRtt, command
      ensures Valid() && View() == Harvest(old(View()))
    {
      status := SampInit;
      currentRtt := rtt;
      recent := RttCmd(command[..], currentRtt);
      if sampleNum == 0 {
        max := recent;
        min := recent;
      } else if recent.rtt > max.rtt {
        max := recent;
      } else if recent.rtt < min.rtt {
        min := recent;
      }
      sampleNum := U32(sampleNum + 1);
      forall i | 0 <= i < command.Length {
        command[i] := '\0';
      }
      currentRtt := 0;
      assert command[..] == ZeroCommand();
    }

    method OnRead(ts: nat, buf: string)
      requires Valid()
      modifies this, command
      ensures Valid() && command == old(command) && View() == Step(old(View()), Read(ts, buf))
    {
      hide Recognise;
      ReportIfDue(ts);
      if status.Finished? {
        HarvestSample();
      }
      if !status.SampInit? {
        if ts > start && ts - start >= PERIOD {
          status, start := SampInit, 0;
        }
        return;
      }
      var ok := ParseReq(buf, command);
      if !ok {
        return;
      }
      if sampleNum == 0 {
        redis := true;
      }
      if start == 0 {
        start := ts;
      }
      status := ReadReady;
    }

    method OnWrite()
      requires Valid()
      modifies this`status
      ensures Valid() && View() == Step(old(View()), Write)
    {
      if status.ReadReady? {
        status := WriteReady;
      }
    }

    method OnSent(s: nat)
      requires Valid()
      modifies this`status, this`skb
      ensures Valid() && View() == Step(old(View()), Sent(s))
    {
      if status.WriteReady? {
        skb, status := s, SkbReady;
      }
    }

    method OnDelivered(s: nat, ts: nat)
      requires Valid()
      modifies this`status, this`rtt, this`start
      ensures Valid() && View() == Step(old(View()), Delivered(s, ts))
    {
      if status.SkbReady? && skb == s {
        if ts < start {
          status := SampInit;
          return;
        }
        rtt := ts - start;
        start := 0;
        status := Finished;
      }
    }

    method OnRecv(queued: bool, tstamp: nat)
      requires Valid()
      modifies this`start
      ensures Valid() && View() == Step(old(View()), Recv(queued, tstamp))
    {
      if status.Finished? || status.SampInit? {
        if queued {
          start := tstamp;
        }
      }
    }
  }

  // ---- whole runs of a connection

  /** The states a connection goes through, from its creation on. */
  ghost predicate Trace(states: seq<State>, events: seq<Event>) {
    && |states| == |events| + 1
    && Fresh(states[0])
    && (forall i :: 0 <= i < |states| ==> Shape(states[i]))
    && forall i :: 0 <= i < |events| ==> states[i + 1] == Step(states[i], events[i])
  }

  ghost predicate Fresh(s: State) {
    && Shape(s) && s.status.SampInit? && s.start == 0 && s.sampleNum == 0 && s.lastReport == 0 && s.reports == []
    && s.current.command == ZeroCommand()
  }

  /** The round trips measured up to state `n`, in order. */
  ghost function FinishedRtts(states: seq<State>, n: nat): seq<nat>
    requires n < |states|
  {
    if n == 0 then []
    else FinishedRtts(states, n - 1)
         + (if !states[n - 1].status.Finished? && states[n].status.Finished? then [states[n].rtt] else [])
  }

  /** The round trips folded into the statistics up to state `n`, in order. */
  ghost function HarvestedRtts(states: seq<State>, events: seq<Event>, n: nat): seq<nat>
    requires n < |states| == |events| + 1
  {
    if n == 0 then []
    else HarvestedRtts(states, events, n - 1)
         + (if events[n - 1].Read? && states[n - 1].status.Finished? then [states[n].recent.rtt] else [])
  }

  lemma StepAccounts(s: State, e: Event)
    requires Shape(s)
    ensures s.status.Finished? && !e.Read? ==> Step(s, e).status.Finished? && Step(s, e).rtt == s.rtt
    ensures s.status.Finished? && e.Read? ==> !Step(s, e).status.Finished? && Step(s, e).recent.rtt == s.rtt
  {
  }

  /** Every measured round trip is folded exactly once and in order: measured is folded plus the one still waiting. */
  lemma {:induction false} SampleAccounting(states: seq<State>, events: seq<Event>, n: nat)
    requires Trace(states, events) && n < |states|
    ensures FinishedRtts(states, n)
         == HarvestedRtts(states, events, n) + (if states[n].status.Finished? then [states[n].rtt] else [])
  {
    hide Step;
    if n > 0 {
      SampleAccounting(states, events, n - 1);
      StepAccounts(states[n - 1], events[n - 1]);
    }
  }

  /** Between `from` and `to` the connection stays in one phase with one start time. */
  ghost predicate Holds(states: seq<State>, from: nat, to: nat, status: Status, start: nat, skb: nat)
    requires to < |states|
  {
    forall i :: from <= i <= to ==>
      states[i].status == status && states[i].start == start && (status.SkbReady? ==> states[i].skb == skb)
  }

  predicate InCycle(status: Status) {
    status.ReadReady? || status.WriteReady? || status.SkbReady?
  }

  /** How a state inside a cycle can have come about in one step. */
  lemma StepEnters(s: State, e: Event)
    requires Shape(s) && InCycle(Step(s, e).status)
    ensures var t := Step(s, e);
            || (t.status == s.status && t.start == s.start && t.skb == s.skb)
            || (t.status.ReadReady? && e.Read? && (s.status.SampInit? || s.status.Finished?) && Accepted(e.buf)
                && t.start == if s.start == 0 then e.ts else s.start)
            || (t.status.WriteReady? && e.Write? && s.status.ReadReady? && t.start == s.start)
            || (t.status.SkbReady? && e.Sent? && s.status.WriteReady? && t.start == s.start && t.skb == e.skb)
  {
    hide Recognise, Accepted;
    if e.Read? {
      RecogniseLeaves(e.buf, s.current.command);
      RecogniseLeaves(e.buf, ZeroCommand());
    }
  }

  /** Back from a state inside a cycle to the step that entered its phase. */
  lemma {:induction false} PhaseEntry(states: seq<State>, events: seq<Event>, n: nat) returns (i: nat)
    requires Trace(states, events) && n < |states| && InCycle(states[n].status)
    ensures i < n && states[i].status != states[n].status
    ensures Holds(states, i + 1, n, states[n].status, states[n].start, states[n].skb)
    decreases n
  {
    hide Step;
    StepEnters(states[n - 1], events[n - 1]);
    if states[n - 1].status == states[n].status {
      i := PhaseEntry(states, events, n - 1);
    } else {
      i := n - 1;
    }
  }

  /** Every measured round trip went through its phases in order: a recognised read at `r`, a write at `w`, a segment
      queued at `k`, and at `n` the acknowledgement of that very segment. The start time it is measured from was fixed
      when the read opened the cycle and has not changed since. */
  lemma CyclePassesPhases(states: seq<State>, events: seq<Event>, n: nat) returns (r: nat, w: nat, k: nat, start: nat)
    requires Trace(states, events) && n < |events|
    requires !states[n].status.Finished? && states[n + 1].status.Finished?
    ensures r < w < k < n
    ensures events[r].Read? && events[w].Write? && events[k].Sent? && events[n].Delivered?
    ensures (states[r].status.SampInit? || states[r].status.Finished?) && Accepted(events[r].buf)
    ensures start == if states[r].start == 0 then events[r].ts else states[r].start
    ensures Holds(states, r + 1, w, ReadReady, start, 0)
    ensures Holds(states, w + 1, k, WriteReady, start, 0)
    ensures Holds(states, k + 1, n, SkbReady, start, events[k].skb)
    ensures events[n].skb == events[k].skb
    ensures states[n + 1].rtt == events[n].ts - start
  {
    assert states[n + 1] == Step(states[n], events[n]);
    assert states[n].status.SkbReady? && events[n].Delivered?;
    hide Step;
    start := states[n].start;
    k := PhaseEntry(states, events, n);
    assert states[k + 1].status.SkbReady?;
    StepEnters(states[k], events[k]);
    w := PhaseEntry(states, events, k);
    assert states[w + 1].status.WriteReady?;
    StepEnters(states[w], events[w]);
    r := PhaseEntry(states, events, w);
    assert states[r + 1].status.ReadReady?;
    StepEnters(states[r], events[r]);
  }

  // ---- reports

  /** The samples folded since the last report window closed. */
  ghost function Window(states: seq<State>, events: seq<Event>, n: nat): seq<RttCmd>
    requires n < |states| == |events| + 1
  {
    if n == 0 then []
    else NextWindow(Window(states, events, n - 1), states[n - 1], events[n - 1])
  }

  ghost function NextWindow(w: seq<RttCmd>, s: State, e: Event): seq<RttCmd> {
    if !e.Read? then w
    else (if Due(s, e.ts) then [] else w)
         + (if s.status.Finished? then [RttCmd(s.current.command, s.rtt)] else [])
  }

  /** `recent` is the last sample; `max` and `min` are the first of the samples none of the others exceeds or
      undercuts. */
  ghost predicate Summarises(w: seq<RttCmd>, max: RttCmd, min: RttCmd, recent: RttCmd) {
    && w != [] && recent == w[|w| - 1] && FirstIn(w, max) && FirstIn(w, min)
    && forall x :: x in w ==> min.rtt <= x.rtt <= max.rtt
  }

  /** The sample is the first one with its round trip. */
  ghost predicate FirstIn(w: seq<RttCmd>, x: RttCmd) {
    exists i :: 0 <= i < |w| && FirstAt(w, x, i)
  }

  ghost predicate FirstAt(w: seq<RttCmd>, x: RttCmd, i: nat)
    requires i < |w|
  {
    w[i] == x && forall j :: 0 <= j < i ==> w[j].rtt != x.rtt
  }

  lemma FirstStays(w: seq<RttCmd>, x: RttCmd, y: RttCmd)
    requires FirstIn(w, x)
    ensures FirstIn(w + [y], x)
  {
    var i :| 0 <= i < |w| && FirstAt(w, x, i);
    assert FirstAt(w + [y], x, i);
  }

  lemma FirstNew(w: seq<RttCmd>, y: RttCmd)
    requires forall x :: x in w ==> x.rtt != y.rtt
    ensures FirstIn(w + [y], y)
  {
    assert FirstAt(w + [y], y, |w|);
  }

  /** The statistics are those of the window, as long as the 32-bit sample count has not wrapped within it. */
  ghost predicate WindowInv(w: seq<RttCmd>, s: State) {
    && s.sampleNum == U32(|w|)
    && (0 < |w| < TWO32 ==> Summarises(w, s.max, s.min, s.recent))
  }

  lemma HarvestFolds(w: seq<RttCmd>, s: State)
    requires WindowInv(w, s)
    ensures WindowInv(w + [Sample(s)], Harvest(s))
  {
    WrappedSum(|w|, 1);
    var x, w' := Sample(s), w + [Sample(s)];
    if |w'| < TWO32 {
      assert s.sampleNum == |w|;
      hide FirstIn;
      var t := Harvest(s);
      assert forall y :: y in w' ==> y in w || y == x;
      if |w| > 0 {
        FirstStays(w, s.max, x);
        FirstStays(w, s.min, x);
        assert w[|w| - 1] in w;
      }
      if |w| == 0 || x.rtt > s.max.rtt || x.rtt < s.min.rtt {
        FirstNew(w, x);
      }
    }
  }

  lemma OpenKeeps(w: seq<RttCmd>, s: State, ts: nat, buf: string)
    requires Shape(s) && WindowInv(w, s)
    ensures WindowInv(w, OpenCycle(s, ts, buf)) && OpenCycle(s, ts, buf).reports == s.reports
    ensures OpenCycle(s, ts, buf).lastReport == s.lastReport
  {
  }

  lemma StepFolds(w: seq<RttCmd>, s: State, e: Event)
    requires Shape(s) && WindowInv(w, s)
    ensures WindowInv(NextWindow(w, s, e), Step(s, e))
    ensures Step(s, e).reports == s.reports
            + (if e.Read? && Due(s, e.ts) && s.sampleNum > 0 then [Report(e.ts, s.sampleNum, s.max, s.min, s.recent)]
               else [])
    ensures Step(s, e).lastReport == if e.Read? && Due(s, e.ts) then e.ts else s.lastReport
  {
    if e.Read? {
      hide OpenCycle, WindowInv, Harvest;
      var s1 := PeriodicReport(s, e.ts);
      var w1 := if Due(s, e.ts) then [] else w;
      PeriodicKeeps(w, s, e.ts);
      if s1.status.Finished? {
        HarvestFolds(w1, s1);
        HarvestKeeps(s1);
        assert w1 + [Sample(s1)] == NextWindow(w, s, e);
        OpenKeeps(w1 + [Sample(s1)], Harvest(s1), e.ts, e.buf);
      } else {
        assert w1 + [] == w1;
        OpenKeeps(w1, s1, e.ts, e.buf);
      }
    }
  }

  lemma HarvestKeeps(s: State)
    requires Shape(s)
    ensures var t := Harvest(s);
            Shape(t) && t.reports == s.reports && t.lastReport == s.lastReport
  {
  }

  lemma PeriodicKeeps(w: seq<RttCmd>, s: State, ts: nat)
    requires WindowInv(w, s)
    ensures WindowInv(if Due(s, ts) then [] else w, PeriodicReport(s, ts))
  {
  }

  lemma {:induction false} WindowHolds(states: seq<State>, events: seq<Event>, n: nat)
    requires Trace(states, events) && n < |states|
    ensures WindowInv(Window(states, events, n), states[n])
  {
    hide Step, WindowInv;
    if n > 0 {
      WindowHolds(states, events, n - 1);
      StepFolds(Window(states, events, n - 1), states[n - 1], events[n - 1]);
    } else {
      EmptyWindow(states[0]);
    }
  }

  lemma EmptyWindow(s: State)
    requires Fresh(s)
    ensures WindowInv([], s)
  {
  }

  /** A report leaves exactly on a due read with samples in the window, and then it is the window's summary:
      its maximum, minimum, last element and length. */
  lemma ReportsSummariseWindows(states: seq<State>, events: seq<Event>, n: nat)
    requires Trace(states, events) && n < |events| && |Window(states, events, n)| < TWO32
    ensures var w := Window(states, events, n);
            var s, t := states[n], states[n + 1];
            if events[n].Read? && Due(s, events[n].ts) && w != [] then
              && t.reports == s.reports + [Report(events[n].ts, |w|, s.max, s.min, s.recent)]
              && Summarises(w, s.max, s.min, s.recent)
            else t.reports == s.reports
  {
    hide Step, Summarises;
    WindowHolds(states, events, n);
    StepFolds(Window(states, events, n), states[n], events[n]);
  }

  /** Successive reports of a connection are at least the period apart, whatever the clock does. */
  lemma {:induction false} ReportsSpaced(states: seq<State>, events: seq<Event>, n: nat)
    requires Trace(states, events) && n < |states|
    ensures var rs := states[n].reports;
            && (forall i, j :: 0 <= i < j < |rs| ==> rs[i].at + PERIOD <= rs[j].at)
            && (forall i :: 0 <= i < |rs| ==> rs[i].at <= states[n].lastReport)
  {
    hide Step, WindowInv;
    if n > 0 {
      ReportsSpaced(states, events, n - 1);
      WindowHolds(states, events, n - 1);
      StepFolds(Window(states, events, n - 1), states[n - 1], events[n - 1]);
    }
  }

  // ---- the command that is reported

  /** What the requests parsed since the last harvest left in the command buffer, oldest first. A read parses its
      request when it finds no cycle under way, be it accepted or not; one that finds a finished cycle harvests it
      first, which clears the buffer. */
  ghost function LeftSince(states: seq<State>, events: seq<Event>, n: nat): (r: seq<string>)
    requires n < |states| == |events| + 1
    ensures forall k :: 0 <= k < |r| ==> |r[k]| < REQ_SIZE
  {
    if n == 0 then []
    else NextLeft(LeftSince(states, events, n - 1), states[n - 1], events[n - 1])
  }

  ghost function NextLeft(left: seq<string>, s: State, e: Event): (r: seq<string>)
    requires forall k :: 0 <= k < |left| ==> |left[k]| < REQ_SIZE
    ensures forall k :: 0 <= k < |r| ==> |r[k]| < REQ_SIZE
  {
    if !e.Read? || InCycle(s.status) then left
    else (if s.status.Finished? then [] else left) + [LeftBy(e.buf)]
  }

  /** Text over text, each from the front of a zeroed buffer. */
  ghost function Overlay(left: seq<string>): (r: string)
    requires forall k :: 0 <= k < |left| ==> |left[k]| < REQ_SIZE
    ensures |r| == REQ_SIZE
  {
    if left == [] then ZeroCommand()
    else
      var w := left[|left| - 1];
      w + Overlay(left[..|left| - 1])[|w|..]
  }

  lemma StepCommand(s: State, e: Event)
    requires Shape(s)
    ensures Step(s, e).current.command
            == if !e.Read? || InCycle(s.status) then s.current.command
               else LeftBy(e.buf) + (if s.status.Finished? then ZeroCommand() else s.current.command)[|LeftBy(e.buf)|..]
  {
    hide Recognise, LeftBy;
    if e.Read? {
      RecogniseLeaves(e.buf, s.current.command);
      RecogniseLeaves(e.buf, ZeroCommand());
    }
  }

  lemma OverlayOne(left: seq<string>, w: string)
    requires |w| < REQ_SIZE && forall k :: 0 <= k < |left| ==> |left[k]| < REQ_SIZE
    ensures Overlay(left + [w]) == w + Overlay(left)[|w|..]
  {
    assert (left + [w])[..|left|] == left;
  }

  /** In every reachable state the command buffer is the overlay of what was left since the last harvest. */
  lemma {:induction false} CommandIsOverlay(states: seq<State>, events: seq<Event>, n: nat)
    requires Trace(states, events) && n < |states|
    ensures states[n].current.command == Overlay(LeftSince(states, events, n))
  {
    hide Step, LeftBy, Overlay;
    if n == 0 {
      NothingLeft();
    } else {
      CommandIsOverlay(states, events, n - 1);
      var s, e, left := states[n - 1], events[n - 1], LeftSince(states, events, n - 1);
      StepCommand(s, e);
      if e.Read? && !InCycle(s.status) {
        NothingLeft();
        OverlayOne(left, LeftBy(e.buf));
        OverlayOne([], LeftBy(e.buf));
      }
    }
  }

  lemma NothingLeft()
    ensures Overlay([]) == ZeroCommand()
  {
  }

  ghost predicate NoNul(left: seq<string>) {
    forall k :: 0 <= k < |left| ==> '\0' !in left[k]
  }

  lemma {:induction false} LeftHasNoNul(states: seq<State>, events: seq<Event>, n: nat)
    requires n < |states| == |events| + 1
    ensures NoNul(LeftSince(states, events, n))
  {
    hide LeftBy;
    if n > 0 {
      LeftHasNoNul(states, events, n - 1);
      if events[n - 1].Read? {
        RecogniseLeaves(events[n - 1].buf, ZeroCommand());
      }
    }
  }

  /** A place of the overlay is zero exactly if no text reaches it. */
  lemma {:induction false} OverlayAt(left: seq<string>, i: nat)
    requires NoNul(left) && i < REQ_SIZE && forall k :: 0 <= k < |left| ==> |left[k]| < REQ_SIZE
    ensures Overlay(left)[i] == '\0' <==> forall k :: 0 <= k < |left| ==> |left[k]| <= i
  {
    if left != [] {
      var front, w := left[..|left| - 1], left[|left| - 1];
      OverlayAt(front, i);
      assert left == front + [w];
      assert i < |w| ==> w[i] in w;
    }
  }

  lemma ZeroFrom(left: seq<string>, m: nat)
    requires NoNul(left) && m < REQ_SIZE && forall k :: 0 <= k < |left| ==> |left[k]| < REQ_SIZE
    ensures (forall i :: m <= i < REQ_SIZE ==> Overlay(left)[i] == '\0') <==>
            forall k :: 0 <= k < |left| ==> |left[k]| <= m
  {
    hide Overlay, NoNul;
    OverlayAt(left, m);
    if forall k :: 0 <= k < |left| ==> |left[k]| <= m {
      forall i: nat | m <= i < REQ_SIZE
        ensures Overlay(left)[i] == '\0'
      {
        OverlayAt(left, i);
      }
    }
  }

  /** When the command buffer is clean: in a reachable state it is all zero exactly if no request parsed since the last
      harvest left a letter in it, whether it was accepted and its cycle abandoned, rejected, or too long to scan. */
  lemma BufferIsClean(states: seq<State>, events: seq<Event>, n: nat)
    requires Trace(states, events) && n < |states|
    ensures states[n].current.command == ZeroCommand() <==>
            forall k :: 0 <= k < |LeftSince(states, events, n)| ==> |LeftSince(states, events, n)[k]| == 0
  {
    hide Overlay, LeftSince, Step, NoNul;
    var left := LeftSince(states, events, n);
    CommandIsOverlay(states, events, n);
    LeftHasNoNul(states, events, n);
    ZeroFrom(left, 0);
    ZeroIff(Overlay(left));
  }

  lemma ZeroIff(s: string)
    requires |s| == REQ_SIZE
    ensures s == ZeroCommand() <==> forall i :: 0 <= i < REQ_SIZE ==> s[i] == '\0'
  {
  }

  /** The command recorded for a recognised request is the upper-cased command of that request exactly if no request
      parsed since the last harvest left more letters than it has; right after a harvest it always is. */
  lemma CommandRecordedIff(states: seq<State>, events: seq<Event>, n: nat, args: seq<string>)
    requires Trace(states, events) && n < |events| && events[n].Read? && events[n].buf == Packed(args)
    requires args != [] && AllIn(args[0], LETTERS) && |Header(args)| < SCAN && !InCycle(states[n].status)
    ensures states[n + 1].status.ReadReady? && |args[0]| <= REQ_SIZE
    ensures states[n + 1].current.command == UpperAll(args[0]) + ZeroCommand()[|args[0]|..] <==>
            || states[n].status.Finished?
            || forall k :: 0 <= k < |LeftSince(states, events, n)| ==> |LeftSince(states, events, n)[k]| <= |args[0]|
  {
    hide Overlay, LeftSince, Recognise, Packed, AllIn, LeftBy, NoNul;
    var s, left, cmd := states[n], LeftSince(states, events, n), UpperAll(args[0]);
    HeaderLonger(args);
    hide Header;
    PackedLeaves(args);
    OpensCycle(s, events[n]);
    StepCommand(s, events[n]);
    assert states[n + 1] == Step(s, events[n]);
    hide Step;
    CommandIsOverlay(states, events, n);
    LeftHasNoNul(states, events, n);
    ZeroFrom(left, |cmd|);
    ZeroBehind(cmd, Overlay(left));
  }

  lemma ZeroBehind(c: string, s: string)
    requires |s| == REQ_SIZE && |c| <= REQ_SIZE
    ensures c + s[|c|..] == c + ZeroCommand()[|c|..] <==> forall i :: |c| <= i < REQ_SIZE ==> s[i] == '\0'
  {
    var x, y := c + s[|c|..], c + ZeroCommand()[|c|..];
    assert forall i :: |c| <= i < REQ_SIZE ==> x[i] == s[i] && y[i] == '\0';
    if forall i :: |c| <= i < REQ_SIZE ==> s[i] == '\0' {
      assert x == y;
    }
  }

  lemma OpensCycle(s: State, e: Event)
    requires Shape(s) && e.Read? && !InCycle(s.status) && Accepted(e.buf)
    ensures Step(s, e).status.ReadReady?
  {
    hide Recognise, Accepted;
    RecogniseLeaves(e.buf, s.current.command);
    RecogniseLeaves(e.buf, ZeroCommand());
  }

  /** Two ways to get it wrong. A request that is rejected for a character behind its letters leaves them: after
      "SORT_RO", the next "GET" is recorded as "GETT". */
  lemma RejectedCommandShowsThrough(s: State, t1: nat, t2: nat)
    requires Shape(s) && s.status.SampInit? && s.current.command == ZeroCommand()
    ensures var r := Step(Step(s, Read(t1, "*1\r\n$7\r\nSORT_RO\r\n")), Read(t2, "*1\r\n$3\r\nGET\r\n"));
            r.status.ReadReady? && r.current.command == "GETT" + ZeroCommand()[4..]
  {
    SortLeaves();
    GetLeaves();
    hide Recognise, LeftBy, Step;
    var e1, e2 := Read(t1, "*1\r\n$7\r\nSORT_RO\r\n"), Read(t2, "*1\r\n$3\r\nGET\r\n");
    RejectedStep(s, e1);
    StepCommand(s, e1);
    var s1 := Step(s, e1);
    OpensCycle(s1, e2);
    StepCommand(s1, e2);
    var r := Step(s1, e2);
    assert r.current.command == "GET" + ("SORT" + ZeroCommand()[4..])[3..];
  }

  lemma RejectedStep(s: State, e: Event)
    requires Shape(s) && e.Read? && s.status.SampInit? && !Accepted(e.buf)
    ensures Step(s, e).status.SampInit?
  {
    hide Recognise, Accepted;
    RecogniseLeaves(e.buf, s.current.command);
    RecogniseLeaves(e.buf, ZeroCommand());
  }

  lemma SortLeaves()
    ensures !Accepted("*1\r\n$7\r\nSORT_RO\r\n") && LeftBy("*1\r\n$7\r\nSORT_RO\r\n") == "SORT"
  {
    hide Accepted, LeftBy;
    assert UpperAll("SORT") == "SORT";
    ShortLeaves("*1\r\n$7\r\nSORT_RO\r\n", "1\r\n", "7\r", "SORT", "_RO\r\n");
  }

  lemma GetLeaves()
    ensures Accepted("*1\r\n$3\r\nGET\r\n") && LeftBy("*1\r\n$3\r\nGET\r\n") == "GET"
  {
    hide Accepted, LeftBy;
    assert UpperAll("GET") == "GET";
    ShortLeaves("*1\r\n$3\r\nGET\r\n", "1\r\n", "3\r", "GET", "\r\n");
  }

  /** The command buffer is cleared with a harvest only. A cycle that is opened and abandoned for its age leaves its
      command behind, and the rest of a longer old command shows through the next recognised one. */
  lemma AbandonedCommandShowsThrough(s: State, t1: nat, t2: nat, t3: nat, first: seq<string>, between: string,
                                     second: seq<string>)
    requires Shape(s) && s.status.SampInit? && s.start == 0 && s.sampleNum == 0 && s.current.command == ZeroCommand()
    requires 0 < t1 && t1 + PERIOD <= t2
    requires first != [] && AllIn(first[0], LETTERS) && |Header(first)| < SCAN
    requires second != [] && AllIn(second[0], LETTERS) && |Header(second)| < SCAN
    requires |second[0]| <= |first[0]| < REQ_SIZE
    ensures var r := Step(Step(Step(s, Read(t1, Packed(first))), Read(t2, between)), Read(t3, Packed(second)));
            && r.status.ReadReady?
            && r.current.command
               == UpperAll(second[0]) + UpperAll(first[0])[|second[0]|..] + ZeroCommand()[|first[0]|..]
  {
    hide Recognise, Packed, Header, AllIn;
    RecognisesPacked(first, ZeroCommand());
    var c1 := UpperAll(first[0]) + ZeroCommand()[|first[0]|..];
    RecognisesPacked(second, c1);
    assert c1[|second[0]|..] == UpperAll(first[0])[|second[0]|..] + ZeroCommand()[|first[0]|..];
    var r1 := Step(s, Read(t1, Packed(first)));
    assert r1.status.ReadReady? && r1.start == t1 && r1.current.command == c1 && r1.sampleNum == 0;
    var r2 := Step(r1, Read(t2, between));
    assert r2.status.SampInit? && r2.current.command == c1 && r2.sampleNum == 0;
  }
}
