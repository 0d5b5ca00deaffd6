/** The block probe's latency statistics: four incremental summaries sharing one window timestamp. */
module BlockStats {
  import opened Words

  const INTERVAL: nat := 5_000_000_000

  datatype Stats = Stats(max: nat, last: nat, sum: nat, jitter: nat, count: nat)

  const CLEARED := Stats(0, 0, 0, 0, 0)

  /** Block layer requests and flushes, driver and device. */
  datatype Which = Req | Flush | Driver | Device

  datatype State = State(ts: nat, req: Stats, flush: Stats, driver: Stats, device: Stats) {
    function At(w: Which): Stats {
      match w
      case Req => req
      case Flush => flush
      case Driver => driver
      case Device => device
    }

    function Put(w: Which, x: Stats): State {
      match w
      case Req => this.(req := x)
      case Flush => this.(flush := x)
      case Driver => this.(driver := x)
      case Device => this.(device := x)
    }
  }

  function Distance(a: nat, b: nat): nat {
    if a > b then a - b else b - a
  }

  function Started(us: nat): Stats {
    Stats(us, us, us, 0, 1)
  }

  function Folded(x: Stats, us: nat): Stats {
    Stats(Max(x.max, us), us, U64(x.sum + us), Max(Distance(x.last, us), x.jitter), U32(x.count + 1))
  }

  /** One completed operation of `delta` ns, seen at `ts`. A clock that has not advanced voids the window. */
  function Step(s: State, w: Which, delta: nat, ts: nat): State {
    if delta == 0 then s
    else
      var us := delta / 8;
      if s.ts == 0 then s.Put(w, Started(us)).(ts := ts)
      else if ts <= s.ts then s.(ts := 0)
      else if ts - s.ts < INTERVAL then s.Put(w, Folded(s.At(w), us))
      else State(ts, CLEARED, CLEARED, CLEARED, CLEARED).Put(w, Started(us))
  }

  // ---- the structures updated in place

  class LatencyStats {
    var max: nat
    var last: nat
    var sum: nat
    var jitter: nat
    var count: nat

    function View(): Stats
      reads this
    {
      Stats(max, last, sum, jitter, count)
    }

    constructor ()
      ensures View() == CLEARED
    {
      max, last, sum, jitter, count := 0, 0, 0, 0, 0;
    }

    method Clear()
      modifies this
      ensures View() == CLEARED
    {
      max, last, sum, jitter, count := 0, 0, 0, 0, 0;
    }

    method Start(us: nat)
      modifies this
      ensures View() == Started(us)
    {
      max := us;
      last := us;
      sum := us;
      jitter := 0;
      count := 1;
    }

    method Fold(us: nat)
      modifies this
      ensures View() == Folded(old(View()), us)
    {
      max := if max > us then max else us;
      sum := U64(sum + us);
      var diff := if last > us then last - us else us - last;
      jitter := if diff > jitter then diff else jitter;
      count := U32(count + 1);
      last := us;
    }
  }

  class BlockData {
    var ts: nat
    const req: LatencyStats
    const flush: LatencyStats
    const driver: LatencyStats
    const device: LatencyStats

    ghost predicate Valid() {
      req != flush && req != driver && req != device && flush != driver && flush != device && driver != device
    }

    function View(): State
      reads this, req, flush, driver, device
    {
      State(ts, req.View(), flush.View(), driver.View(), device.View())
    }

    function Select(w: Which): LatencyStats {
      match w
      case Req => req
      case Flush => flush
      case Driver => driver
      case Device => device
    }

    constructor ()
      ensures Valid() && View() == State(0, CLEARED, CLEARED, CLEARED, CLEARED)
      ensures fresh(req) && fresh(flush) && fresh(driver) && fresh(device)
    {
      ts := 0;
      req := new LatencyStats();
      flush := new LatencyStats();
      driver := new LatencyStats();
      device := new LatencyStats();
    }

    method CalcLatency(w: Which, delta: nat, now: nat)
      requires Valid()
      modifies this, req, flush, driver, device
      ensures View() == Step(old(View()), w, delta, now)
    {
      if delta == 0 {
        return;
      }
      var us := delta / 8;
      var target := Select(w);
      if ts == 0 {
        target.Start(us);
        ts := now;
        return;
      }
      if now > ts {
        if now - ts < INTERVAL {
          target.Fold(us);
        } else {
          ts := now;
          req.Clear();
          flush.Clear();
          driver.Clear();
          device.Clear();
          target.Start(us);
        }
      } else {
        ts := 0;
      }
    }
  }

  // ---- what the numbers mean

  /** The samples a statistic has accepted since it was last started, or since it was cleared with the others. */
  datatype Track = Track(cleared: bool, samples: seq<nat>)

  /** A cleared statistic starts from an implicit 0. */
  function Values(t: Track): seq<nat> {
    (if t.cleared then [0] else []) + t.samples
  }

  function Sum(v: seq<nat>): nat {
    if v == [] then 0 else Sum(v[..|v| - 1]) + v[|v| - 1]
  }

  ghost predicate IsMax(v: seq<nat>, m: nat) {
    m in v && forall i :: 0 <= i < |v| ==> v[i] <= m
  }

  /** `j` is the largest distance between neighbours; 0 if there are none. */
  ghost predicate IsJitter(v: seq<nat>, j: nat) {
    && (forall i :: 0 <= i < |v| - 1 ==> Distance(v[i], v[i + 1]) <= j)
    && (j == 0 || exists i :: 0 <= i < |v| - 1 && Distance(v[i], v[i + 1]) == j)
  }

  /** The five numbers are maximum, last, sum, largest consecutive difference and count of the samples. */
  ghost predicate Summarises(t: Track, x: Stats) {
    var v := Values(t);
    && v != []
    && IsMax(v, x.max) && x.last == v[|v| - 1] && x.sum == U64(Sum(v))
    && IsJitter(v, x.jitter) && x.count == U32(|t.samples|)
  }

  lemma ClearedSummary()
    ensures Summarises(Track(true, []), CLEARED)
  {
    assert Values(Track(true, [])) == [0];
    assert Sum([0]) == Sum([0][..0]) + 0;
  }

  lemma StartedSummary(us: nat)
    requires us < TWO64
    ensures Summarises(Track(false, [us]), Started(us))
  {
    assert Values(Track(false, [us])) == [us];
    assert Sum([us]) == Sum([us][..0]) + us;
  }

  lemma JitterExtends(v: seq<nat>, j: nat, us: nat)
    requires v != [] && IsJitter(v, j)
    ensures IsJitter(v + [us], Max(Distance(v[|v| - 1], us), j))
  {
    var w, d := v + [us], Distance(v[|v| - 1], us);
    assert w[|v| - 1] == v[|v| - 1] && w[|v|] == us;
    forall i | 0 <= i < |w| - 1
      ensures Distance(w[i], w[i + 1]) <= Max(d, j)
    {
      if i < |v| - 1 {
        assert w[i] == v[i] && w[i + 1] == v[i + 1];
      }
    }
    if j > d {
      var i :| 0 <= i < |v| - 1 && Distance(v[i], v[i + 1]) == j;
      assert w[i] == v[i] && w[i + 1] == v[i + 1];
    }
  }

  lemma MaxExtends(v: seq<nat>, m: nat, us: nat)
    requires IsMax(v, m)
    ensures IsMax(v + [us], Max(m, us))
  {
    var w := v + [us];
    assert w[|v|] == us;
    var i :| 0 <= i < |v| && v[i] == m;
    assert w[i] == m;
  }

  lemma OneMore(t: Track, us: nat)
    ensures Values(t.(samples := t.samples + [us])) == Values(t) + [us]
    ensures Sum(Values(t) + [us]) == Sum(Values(t)) + us
  {
    assert (Values(t) + [us])[..|Values(t)|] == Values(t);
  }

  lemma FoldedSummary(t: Track, x: Stats, us: nat)
    requires Summarises(t, x)
    ensures Summarises(t.(samples := t.samples + [us]), Folded(x, us))
  {
    hide Distance, IsJitter, IsMax, U64, U32, Sum, Values;
    var v := Values(t);
    OneMore(t, us);
    MaxExtends(v, x.max, us);
    JitterExtends(v, x.jitter, us);
    WrappedSum64(Sum(v), us);
    WrappedSum(|t.samples|, 1);
  }

  /** One observed operation. */
  datatype Event = Event(which: Which, delta: nat, ts: nat)

  datatype Tracks = Tracks(req: Track, flush: Track, driver: Track, device: Track) {
    function At(w: Which): Track {
      match w
      case Req => req
      case Flush => flush
      case Driver => driver
      case Device => device
    }

    function Put(w: Which, x: Track): Tracks {
      match w
      case Req => this.(req := x)
      case Flush => this.(flush := x)
      case Driver => this.(driver := x)
      case Device => this.(device := x)
    }
  }

  const EMPTY := Track(true, [])

  /** Where the running window started, 0 if there is none: operations without a latency do not count, a clock that has
      not advanced ends the window, and five seconds after its start the next operation starts another one. */
  function WindowAt(events: seq<Event>, n: nat): nat
    requires n <= |events|
  {
    if n == 0 then 0
    else
      var was, e := WindowAt(events, n - 1), events[n - 1];
      if e.delta == 0 then was
      else if was == 0 || e.ts >= was + 5_000_000_000 then e.ts
      else if e.ts <= was then 0
      else was
  }

  /** Which samples count: a window's first operation starts its own statistic anew and, on a rollover, empties the
      others; after a voided window the others keep what they had. */
  function TracksAt(events: seq<Event>, n: nat): Tracks
    requires n <= |events|
  {
    if n == 0 then Tracks(EMPTY, EMPTY, EMPTY, EMPTY)
    else NextTracks(TracksAt(events, n - 1), WindowAt(events, n - 1), events[n - 1])
  }

  function NextTracks(h: Tracks, window: nat, e: Event): Tracks {
    var us := e.delta / 8;
    if e.delta == 0 || (window != 0 && e.ts <= window) then h
    else if window == 0 then h.Put(e.which, Track(false, [us]))
    else if e.ts < window + 5_000_000_000 then
      h.Put(e.which, h.At(e.which).(samples := h.At(e.which).samples + [us]))
    else Tracks(EMPTY, EMPTY, EMPTY, EMPTY).Put(e.which, Track(false, [us]))
  }

  ghost predicate Trace(states: seq<State>, events: seq<Event>) {
    && |states| == |events| + 1
    && states[0] == State(0, CLEARED, CLEARED, CLEARED, CLEARED)
    && (forall i :: 0 <= i < |events| ==> events[i].delta < TWO64)
    && forall i :: 0 <= i < |events| ==>
         states[i + 1] == Step(states[i], events[i].which, events[i].delta, events[i].ts)
  }

  lemma {:induction false} WindowIs(states: seq<State>, events: seq<Event>, n: nat)
    requires Trace(states, events) && n <= |events|
    ensures states[n].ts == WindowAt(events, n)
    decreases n
  {
    if n > 0 {
      WindowIs(states, events, n - 1);
    }
  }

  lemma StepSummarises(h: Tracks, s: State, e: Event)
    requires e.delta < TWO64 && forall w :: Summarises(h.At(w), s.At(w))
    ensures forall w :: Summarises(NextTracks(h, s.ts, e).At(w), Step(s, e.which, e.delta, e.ts).At(w))
  {
    hide Summarises, Folded, Started;
    ClearedSummary();
    StartedSummary(e.delta / 8);
    FoldedSummary(h.At(e.which), s.At(e.which), e.delta / 8);
    forall w: Which
      ensures Summarises(NextTracks(h, s.ts, e).At(w), Step(s, e.which, e.delta, e.ts).At(w))
    {
      assert Summarises(h.At(w), s.At(w));
    }
  }

  /** In every reachable state each of the four statistics is the fold of its own accepted samples, across window
      rollovers and clock errors. */
  lemma {:induction false} StatisticsAreFolds(states: seq<State>, events: seq<Event>, n: nat)
    requires Trace(states, events) && n < |states|
    ensures forall w :: Summarises(TracksAt(events, n).At(w), states[n].At(w))
  {
    hide Summarises, Step, NextTracks;
    if n == 0 {
      ClearedSummary();
    } else {
      StatisticsAreFolds(states, events, n - 1);
      WindowIs(states, events, n - 1);
      StepSummarises(TracksAt(events, n - 1), states[n - 1], events[n - 1]);
    }
  }

  // ---- inequalities between the numbers

  lemma {:induction false} SumBounds(v: seq<nat>, m: nat)
    requires forall i :: 0 <= i < |v| ==> v[i] <= m
    ensures Sum(v) <= |v| * m
    ensures forall i :: 0 <= i < |v| ==> v[i] <= Sum(v)
  {
    if v != [] {
      SumBounds(v[..|v| - 1], m);
    }
  }

  lemma {:induction false} SumWithZero(v: seq<nat>)
    ensures Sum([0] + v) == Sum(v)
  {
    if v != [] {
      assert ([0] + v)[..|v|] == [0] + v[..|v| - 1];
      SumWithZero(v[..|v| - 1]);
    } else {
      assert [0] + v == [0];
      assert Sum([0]) == Sum([0][..0]) + 0;
    }
  }

  /** In every reachable state the last sample and the jitter are within the maximum; as long as neither the sum nor the
      count has wrapped, the maximum is within the sum and the sum within count * maximum. */
  lemma Consistent(states: seq<State>, events: seq<Event>, n: nat, w: Which)
    requires Trace(states, events) && n < |states|
    ensures states[n].At(w).last <= states[n].At(w).max && states[n].At(w).jitter <= states[n].At(w).max
    ensures var x, samples := states[n].At(w), TracksAt(events, n).At(w).samples;
            Sum(samples) < TWO64 && |samples| < TWO32 ==> x.max <= x.sum <= x.count * x.max
  {
    StatisticsAreFolds(states, events, n);
    var t, x := TracksAt(events, n).At(w), states[n].At(w);
    assert Summarises(t, x);
    MaxWithinSum(Values(t), x.max);
    JitterWithinMax(Values(t), x.jitter, x.max);
    if Sum(t.samples) < TWO64 && |t.samples| < TWO32 {
      SummaryConsistent(t, x);
    }
  }

  lemma SummaryConsistent(t: Track, x: Stats)
    requires Summarises(t, x) && Sum(t.samples) < TWO64 && |t.samples| < TWO32
    ensures x.max <= x.sum <= x.count * x.max
  {
    hide IsJitter, IsMax;
    var v := Values(t);
    ValuesSum(t);
    assert x.sum == Sum(v) && x.count == |t.samples|;
    MaxWithinSum(v, x.max);
    SamplesBounded(t, x.max);
    SumBounds(t.samples, x.max);
  }

  lemma ValuesSum(t: Track)
    ensures Sum(Values(t)) == Sum(t.samples)
  {
    SumWithZero(t.samples);
    assert !t.cleared ==> Values(t) == t.samples;
  }

  lemma MaxWithinSum(v: seq<nat>, m: nat)
    requires v != [] && IsMax(v, m)
    ensures v[|v| - 1] <= m <= Sum(v)
  {
    SumBounds(v, m);
    var k :| 0 <= k < |v| && v[k] == m;
  }

  lemma JitterWithinMax(v: seq<nat>, j: nat, m: nat)
    requires IsMax(v, m) && IsJitter(v, j)
    ensures j <= m
  {
    if j > 0 {
      var i :| 0 <= i < |v| - 1 && Distance(v[i], v[i + 1]) == j;
    }
  }

  lemma SamplesBounded(t: Track, m: nat)
    requires IsMax(Values(t), m)
    ensures forall i :: 0 <= i < |t.samples| ==> t.samples[i] <= m
  {
    var k := |Values(t)| - |t.samples|;
    assert forall i :: 0 <= i < |t.samples| ==> t.samples[i] == Values(t)[k + i];
  }
}
