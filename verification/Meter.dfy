/** Keyed counters that are reported and cleared once per period: the statistics core of the endpoint and TCP probes. */
module Meter {
  import opened Options
  import opened Words

  /** When the entry was created or last reported, and its pending counters. */
  datatype Entry = Entry(ts: nat, stats: seq<nat>)

  datatype Report<K> = Report(key: K, stamp: nat, stats: seq<nat>)

  datatype State<K(==)> = State(entries: map<K, Entry>, reports: seq<Report<K>>)

  /** One change of a statistic: an atomic add, a maximum, a minimum that ignores an unset zero, or a plain store. */
  datatype Update =
    | Inc(metric: nat, delta: int)
    | Raise(metric: nat, value: nat)
    | Lower(metric: nat, value: nat)
    | Put(metric: nat, value: nat)

  /** Whether a handler reports after counting, only a brand-new entry, or never. */
  datatype Rule = Always | OnlyIfNew | Never

  /** One handler call on a key; `room` tells whether a full map refuses a new entry. */
  datatype Touch<K> = Touch(key: K, incs: seq<Update>, rule: Rule, ts: nat, room: bool)

  /** Every counter has its own word size, given by its modulus. */
  ghost predicate Moduli(mods: seq<nat>) {
    forall m :: 0 <= m < |mods| ==> mods[m] > 0
  }

  function Zeros(n: nat): (r: seq<nat>)
    ensures |r| == n && forall i :: 0 <= i < n ==> r[i] == 0
  {
    seq(n, _ => 0)
  }

  function Wrap(x: int, m: nat): nat
    requires m > 0
  {
    x % m
  }

  ghost predicate InBounds(mods: seq<nat>, incs: seq<Update>) {
    forall i :: 0 <= i < |incs| ==> incs[i].metric < |mods|
  }

  function Updated(old0: nat, x: Update, m: nat): nat
    requires m > 0
  {
    match x
    case Inc(_, delta) => Wrap(old0 + delta, m)
    case Raise(_, v) => Max(old0, v)
    case Lower(_, v) => if old0 == 0 then v else Min(old0, v)
    case Put(_, v) => v
  }

  /** The statistics after the updates of one handler. */
  function Added(mods: seq<nat>, stats: seq<nat>, incs: seq<Update>): (r: seq<nat>)
    requires Moduli(mods) && InBounds(mods, incs) && |stats| == |mods|
    ensures |r| == |mods|
  {
    if incs == [] then stats
    else
      var s := Added(mods, stats, incs[..|incs| - 1]);
      var x := incs[|incs| - 1];
      s[x.metric := Updated(s[x.metric], x, mods[x.metric])]
  }

  ghost predicate Shape<K>(mods: seq<nat>, s: State<K>) {
    && (forall k :: k in s.entries ==> |s.entries[k].stats| == |mods|)
    && forall i :: 0 <= i < |s.reports| ==> |s.reports[i].stats| == |mods|
  }

  /** An old entry is reported unless its period is still running on an advancing clock. */
  predicate ReportsNow(isNew: bool, e: Entry, ts: nat, period: nat) {
    isNew || !(ts > e.ts && ts - e.ts < period)
  }

  predicate Wants(rule: Rule, isNew: bool) {
    rule.Always? || (rule.OnlyIfNew? && isNew)
  }

  /** A new entry is reported with its creation stamp, an old one with the time of the report; both are then cleared. */
  function Reported<K>(s: State<K>, k: K, isNew: bool, ts: nat): State<K>
    requires k in s.entries
  {
    var e := s.entries[k];
    var stamp := if isNew then e.ts else ts;
    State(s.entries[k := Entry(stamp, Zeros(|e.stats|))], s.reports + [Report(k, stamp, e.stats)])
  }

  /** The handler reaches an entry: it exists or could be created. */
  predicate Gets<K(==)>(s: State<K>, t: Touch<K>) {
    t.key in s.entries || t.room
  }

  function Apply<K>(mods: seq<nat>, period: nat, s: State<K>, t: Touch<K>): (r: State<K>)
    requires Moduli(mods) && Shape(mods, s) && InBounds(mods, t.incs)
    ensures Shape(mods, r)
  {
    if !Gets(s, t) then s
    else
      var isNew := t.key !in s.entries;
      var e := if isNew then Entry(t.ts, Zeros(|mods|)) else s.entries[t.key];
      var e' := e.(stats := Added(mods, e.stats, t.incs));
      var s' := s.(entries := s.entries[t.key := e']);
      if Wants(t.rule, isNew) && ReportsNow(isNew, e', t.ts, period) then Reported(s', t.key, isNew, t.ts) else s'
  }

  // ---- the map updated in place

  class Table<K(==)> {
    const mods: seq<nat>
    const period: nat
    var entries: map<K, Entry>
    var reports: seq<Report<K>>

    function View(): State<K>
      reads this
    {
      State(entries, reports)
    }

    ghost predicate Valid()
      reads this
    {
      Moduli(mods) && Shape(mods, View())
    }

    constructor (mods: seq<nat>, period: nat)
      requires Moduli(mods)
      ensures Valid() && this.mods == mods && this.period == period && View() == State(map[], [])
    {
      this.mods, this.period, entries, reports := mods, period, map[], [];
    }

    /** Look the entry up, creating it if it is missing; `got` is false if there is no room for it. */
    method Get(k: K, ts: nat, room: bool) returns (got: bool, isNew: bool)
      requires Valid()
      modifies this`entries
      ensures Valid()
      ensures got <==> k in old(entries) || room
      ensures isNew <==> got && k !in old(entries)
      ensures entries == if isNew then old(entries)[k := Entry(ts, Zeros(|mods|))] else old(entries)
    {
      if k in entries {
        return true, false;
      }
      if !room {
        return false, false;
      }
      entries := entries[k := Entry(ts, Zeros(|mods|))];
      return true, true;
    }

    method Increment(k: K, incs: seq<Update>)
      requires Valid() && k in entries && InBounds(mods, incs)
      modifies this`entries
      ensures Valid()
      ensures entries == old(entries)[k := old(entries)[k].(stats := Added(mods, old(entries)[k].stats, incs))]
    {
      var stats := entries[k].stats;
      var i := 0;
      while i < |incs|
        invariant 0 <= i <= |incs|
        invariant stats == Added(mods, entries[k].stats, incs[..i])
      {
        assert incs[..i + 1][..i] == incs[..i];
        var x := incs[i];
        stats := stats[x.metric := Updated(stats[x.metric], x, mods[x.metric])];
        i := i + 1;
      }
      assert incs[..|incs|] == incs;
      entries := entries[k := entries[k].(stats := stats)];
    }

    method ReportEntry(k: K, isNew: bool, ts: nat)
      requires Valid() && k in entries
      modifies this
      ensures Valid()
      ensures View() == if ReportsNow(isNew, old(entries)[k], ts, period) then Reported(old(View()), k, isNew, ts)
                        else old(View())
    {
      var e := entries[k];
      if !isNew {
        if ts > e.ts && ts - e.ts < period {
          return;
        }
        e := e.(ts := ts);
      }
      reports := reports + [Report(k, e.ts, e.stats)];
      entries := entries[k := e.(stats := Zeros(|mods|))];
    }

    method Handle(t: Touch<K>)
      requires Valid() && InBounds(mods, t.incs)
      modifies this
      ensures Valid() && View() == Apply(mods, period, old(View()), t)
    {
      var got, isNew := Get(t.key, t.ts, t.room);
      if !got {
        return;
      }
      Increment(t.key, t.incs);
      if t.rule.Always? || (t.rule.OnlyIfNew? && isNew) {
        ReportEntry(t.key, isNew, t.ts);
      }
    }
  }

  // ---- conservation

  /** What one probe event amounts to: an access to an entry, or nothing. */
  type Call<K> = Option<Touch<K>>

  ghost predicate CallInBounds<K>(mods: seq<nat>, c: Call<K>) {
    c.Some? ==> InBounds(mods, c.value.incs)
  }

  ghost predicate AllInBounds<K(!new)>(mods: seq<nat>, calls: seq<Call<K>>) {
    forall i :: 0 <= i < |calls| ==> CallInBounds(mods, calls[i])
  }

  function ApplyCall<K>(mods: seq<nat>, period: nat, s: State<K>, c: Call<K>): (r: State<K>)
    requires Moduli(mods) && Shape(mods, s) && CallInBounds(mods, c)
    ensures Shape(mods, r)
  {
    match c
    case None => s
    case Some(t) => Apply(mods, period, s, t)
  }

  /** The call counts for entry `k`. */
  predicate Reaches<K(==)>(s: State<K>, c: Call<K>, k: K) {
    c.Some? && c.value.key == k && Gets(s, c.value)
  }

  /** The state after the calls of a list of events, starting from an empty map. */
  ghost function Run<K(!new)>(mods: seq<nat>, period: nat, calls: seq<Call<K>>): (r: State<K>)
    requires Moduli(mods) && AllInBounds(mods, calls)
    ensures Shape(mods, r)
  {
    if calls == [] then State(map[], [])
    else ApplyCall(mods, period, Run(mods, period, calls[..|calls| - 1]), calls[|calls| - 1])
  }

  /** The increments of one call to one counter. */
  function Amount(incs: seq<Update>, m: nat): int {
    if incs == [] then 0
    else
      var x := incs[|incs| - 1];
      Amount(incs[..|incs| - 1], m) + (if x.Inc? && x.metric == m then x.delta else 0)
  }

  /** A statistic that is only ever added to. */
  ghost predicate Additive(incs: seq<Update>, m: nat) {
    forall i :: 0 <= i < |incs| && incs[i].metric == m ==> incs[i].Inc?
  }

  ghost predicate Growing(incs: seq<Update>, m: nat) {
    forall i :: 0 <= i < |incs| && incs[i].metric == m ==> incs[i].Inc? && incs[i].delta >= 0
  }

  ghost predicate AllAdditive<K(!new)>(calls: seq<Call<K>>, m: nat) {
    forall i :: 0 <= i < |calls| && calls[i].Some? ==> Additive(calls[i].value.incs, m)
  }

  ghost predicate AllGrowing<K(!new)>(calls: seq<Call<K>>, m: nat) {
    forall i :: 0 <= i < |calls| && calls[i].Some? ==> Growing(calls[i].value.incs, m)
  }

  /** Everything the calls counted for one counter of a key: the increments of every call that reached its entry. */
  ghost function Counted<K(!new)>(mods: seq<nat>, period: nat, calls: seq<Call<K>>, k: K, m: nat): int
    requires Moduli(mods) && AllInBounds(mods, calls)
  {
    if calls == [] then 0
    else
      var front, c := calls[..|calls| - 1], calls[|calls| - 1];
      Counted(mods, period, front, k, m)
      + if Reaches(Run(mods, period, front), c, k) then Amount(c.value.incs, m) else 0
  }

  /** Everything that has left in reports. */
  function Delivered<K(==)>(reports: seq<Report<K>>, k: K, m: nat): nat
    requires forall i :: 0 <= i < |reports| ==> m < |reports[i].stats|
  {
    if reports == [] then 0
    else
      var r := reports[|reports| - 1];
      Delivered(reports[..|reports| - 1], k, m) + (if r.key == k then r.stats[m] else 0)
  }

  function Pending<K(==)>(s: State<K>, k: K, m: nat): nat
    requires k in s.entries ==> m < |s.entries[k].stats|
  {
    if k in s.entries then s.entries[k].stats[m] else 0
  }

  function Accounted<K(==)>(s: State<K>, k: K, m: nat): nat
    requires k in s.entries ==> m < |s.entries[k].stats|
    requires forall i :: 0 <= i < |s.reports| ==> m < |s.reports[i].stats|
  {
    Delivered(s.reports, k, m) + Pending(s, k, m)
  }

  lemma WrapAdds(x: int, d: int, m: nat)
    requires m > 0
    ensures Wrap(Wrap(x, m) + d, m) == Wrap(x + d, m)
    ensures 0 <= x < m ==> Wrap(x, m) == x
  {
    var y := x % m + d;
    var z := x + d;
    assert z == m * (x / m) + y;
    assert y == m * (y / m) + y % m;
    assert m * (x / m) + m * (y / m) == m * (x / m + y / m);
    RemainderUnique(z, m, x / m + y / m, y % m);
    if 0 <= x < m {
      RemainderUnique(x, m, 0, x);
    }
  }

  /** Adding keeps the total modulo the word size, and exactly while the word does not overflow. */
  lemma {:induction false} AddedAmount(mods: seq<nat>, stats: seq<nat>, incs: seq<Update>, m: nat)
    requires Moduli(mods) && InBounds(mods, incs) && |stats| == |mods| && m < |mods|
    requires Additive(incs, m)
    ensures Wrap(Added(mods, stats, incs)[m], mods[m]) == Wrap(stats[m] + Amount(incs, m), mods[m])
    ensures Growing(incs, m) && stats[m] + Amount(incs, m) < mods[m] ==>
            Added(mods, stats, incs)[m] == stats[m] + Amount(incs, m)
  {
    hide Wrap;
    if incs != [] {
      var front, x := incs[..|incs| - 1], incs[|incs| - 1];
      AddedAmount(mods, stats, front, m);
      var s := Added(mods, stats, front);
      if x.metric == m {
        WrapAdds(s[m], x.delta, mods[m]);
        WrapAdds(stats[m] + Amount(front, m), x.delta, mods[m]);
        WrapAdds(s[m] + x.delta, 0, mods[m]);
      }
      assert Growing(incs, m) ==> Growing(front, m) && (x.metric == m ==> x.delta >= 0);
    }
  }

  lemma DeliveredSnoc<K>(reports: seq<Report<K>>, r: Report<K>, k: K, m: nat)
    requires m < |r.stats| && forall i :: 0 <= i < |reports| ==> m < |reports[i].stats|
    ensures Delivered(reports + [r], k, m) == Delivered(reports, k, m) + (if r.key == k then r.stats[m] else 0)
  {
    assert (reports + [r])[..|reports|] == reports;
  }

  /** One call moves the accounted total of a counter by what the call counted, a report by nothing. */
  lemma ApplyAccounts<K>(mods: seq<nat>, period: nat, s: State<K>, t: Touch<K>, k: K, m: nat)
    requires Moduli(mods) && Shape(mods, s) && InBounds(mods, t.incs) && m < |mods|
    ensures var r := Apply(mods, period, s, t);
            if t.key == k && Gets(s, t) then
              Accounted(r, k, m) + Old(mods, s, k)[m] == Accounted(s, k, m) + Added(mods, Old(mods, s, k), t.incs)[m]
            else Accounted(r, k, m) == Accounted(s, k, m)
  {
    hide Added;
    if Gets(s, t) {
      var isNew := t.key !in s.entries;
      var e := if isNew then Entry(t.ts, Zeros(|mods|)) else s.entries[t.key];
      var e' := e.(stats := Added(mods, e.stats, t.incs));
      DeliveredSnoc(s.reports, Report(t.key, if isNew then e'.ts else t.ts, e'.stats), k, m);
    }
  }

  /** The counters of a key before the call; zeros if it has no entry yet. */
  function Old<K(==)>(mods: seq<nat>, s: State<K>, k: K): (r: seq<nat>)
    ensures k in s.entries ==> r == s.entries[k].stats
    ensures k !in s.entries ==> r == Zeros(|mods|)
  {
    if k in s.entries then s.entries[k].stats else Zeros(|mods|)
  }

  /** One call more keeps the balance, modulo the word. */
  lemma CallConserves<K(!new)>(mods: seq<nat>, period: nat, s: State<K>, t: Touch<K>, k: K, m: nat, counted: int)
    requires Moduli(mods) && Shape(mods, s) && InBounds(mods, t.incs) && m < |mods| && Additive(t.incs, m)
    requires Wrap(Accounted(s, k, m), mods[m]) == Wrap(counted, mods[m])
    ensures var r := Apply(mods, period, s, t);
            Wrap(Accounted(r, k, m), mods[m])
            == Wrap(counted + if t.key == k && Gets(s, t) then Amount(t.incs, m) else 0, mods[m])
  {
    hide Apply, Wrap, Accounted, Shape;
    var r := Apply(mods, period, s, t);
    ApplyAccounts(mods, period, s, t, k, m);
    OldLength(mods, s, k);
    if t.key == k && Gets(s, t) {
      var prev, w := Old(mods, s, k), mods[m];
      AddedAmount(mods, prev, t.incs, m);
      var a, d := Accounted(s, k, m), Amount(t.incs, m);
      WrapAdds(a, d, w);
      WrapAdds(counted, d, w);
      var rest: int := a - prev[m];
      OldLength(mods, r, k);
      WrapAdds(Added(mods, prev, t.incs)[m], rest, w);
      WrapAdds(prev[m] + d, rest, w);
      assert Added(mods, prev, t.incs)[m] + rest == Accounted(r, k, m);
      assert prev[m] + d + rest == a + d;
    }
  }

  /** Conservation: over any run, what left in reports plus what is pending is what was counted, up to the wrap-around
      of the counter's word. */
  lemma {:induction false} Conserved<K(!new)>(mods: seq<nat>, period: nat, calls: seq<Call<K>>, k: K, m: nat)
    requires Moduli(mods) && AllInBounds(mods, calls) && m < |mods| && AllAdditive(calls, m)
    ensures Wrap(Accounted(Run(mods, period, calls), k, m), mods[m])
            == Wrap(Counted(mods, period, calls, k, m), mods[m])
    decreases |calls|
  {
    hide Apply, Wrap, Accounted, Shape, Gets;
    if calls == [] {
      NothingAccounted(Run(mods, period, calls), k, m);
    } else {
      var front, c := calls[..|calls| - 1], calls[|calls| - 1];
      assert CallInBounds(mods, calls[|calls| - 1]);
      Conserved(mods, period, front, k, m);
      if c.Some? {
        CallConserves(mods, period, Run(mods, period, front), c.value, k, m, Counted(mods, period, front, k, m));
      }
    }
  }

  lemma OldLength<K(!new)>(mods: seq<nat>, s: State<K>, k: K)
    requires Shape(mods, s)
    ensures |Old(mods, s, k)| == |mods|
    ensures k in s.entries ==> |s.entries[k].stats| == |mods|
    ensures forall i :: 0 <= i < |s.reports| ==> |s.reports[i].stats| == |mods|
  {
  }

  lemma NothingAccounted<K>(s: State<K>, k: K, m: nat)
    requires s == State(map[], [])
    ensures Accounted(s, k, m) == 0
  {
  }

  lemma {:induction false} AmountGrows(incs: seq<Update>, m: nat)
    requires Growing(incs, m)
    ensures Amount(incs, m) >= 0
  {
    if incs != [] {
      AmountGrows(incs[..|incs| - 1], m);
    }
  }

  lemma CallConservesExactly<K(!new)>(mods: seq<nat>, period: nat, s: State<K>, t: Touch<K>, k: K, m: nat)
    requires Moduli(mods) && Shape(mods, s) && InBounds(mods, t.incs) && m < |mods| && Growing(t.incs, m)
    requires t.key == k && Gets(s, t) ==> Accounted(s, k, m) + Amount(t.incs, m) < mods[m]
    ensures var r := Apply(mods, period, s, t);
            Accounted(r, k, m) == Accounted(s, k, m) + if t.key == k && Gets(s, t) then Amount(t.incs, m) else 0
  {
    hide Apply, Accounted, Shape;
    ApplyAccounts(mods, period, s, t, k, m);
    OldLength(mods, s, k);
    if t.key == k && Gets(s, t) {
      PendingWithin(mods, s, k, m);
      AddedAmount(mods, Old(mods, s, k), t.incs, m);
    }
  }

  /** And exactly so as long as the counted total fits the word. */
  lemma {:induction false} ConservedExactly<K(!new)>(mods: seq<nat>, period: nat, calls: seq<Call<K>>, k: K, m: nat)
    requires Moduli(mods) && AllInBounds(mods, calls) && AllGrowing(calls, m) && m < |mods|
    requires Counted(mods, period, calls, k, m) < mods[m]
    ensures Accounted(Run(mods, period, calls), k, m) == Counted(mods, period, calls, k, m)
    decreases |calls|
  {
    hide Apply, Accounted, Shape, Gets;
    if calls == [] {
      NothingAccounted(Run(mods, period, calls), k, m);
    } else {
      var front, c := calls[..|calls| - 1], calls[|calls| - 1];
      assert CallInBounds(mods, calls[|calls| - 1]);
      if c.Some? {
        AmountGrows(c.value.incs, m);
        ConservedExactly(mods, period, front, k, m);
        CallConservesExactly(mods, period, Run(mods, period, front), c.value, k, m);
      } else {
        ConservedExactly(mods, period, front, k, m);
      }
    }
  }

  lemma PendingWithin<K(!new)>(mods: seq<nat>, s: State<K>, k: K, m: nat)
    requires Shape(mods, s) && m < |mods|
    ensures |Old(mods, s, k)| == |mods|
    ensures Shape(mods, s) && Old(mods, s, k)[m] <= Accounted(s, k, m)
  {
  }

  // ---- windows

  /** The call ends with a report of its entry. */
  predicate Emits<K(==)>(period: nat, s: State<K>, t: Touch<K>) {
    && Gets(s, t)
    && Wants(t.rule, t.key !in s.entries)
    && (t.key in s.entries ==> ReportsNow(false, s.entries[t.key], t.ts, period))
  }

  /** The call adds a report. */
  predicate Adds<K>(mods: seq<nat>, period: nat, s: State<K>, t: Touch<K>)
    requires Moduli(mods) && Shape(mods, s) && InBounds(mods, t.incs)
  {
    |Apply(mods, period, s, t).reports| > |s.reports|
  }

  /** The updates of an entry since its last report. */
  ghost function Window<K(!new)>(mods: seq<nat>, period: nat, calls: seq<Call<K>>, k: K): (r: seq<Update>)
    requires Moduli(mods) && AllInBounds(mods, calls)
    ensures InBounds(mods, r)
  {
    if calls == [] then []
    else
      var front, c := calls[..|calls| - 1], calls[|calls| - 1];
      var s, w := Run(mods, period, front), Window(mods, period, front, k);
      assert CallInBounds(mods, calls[|calls| - 1]);
      if !Reaches(s, c, k) then w
      else if Adds(mods, period, s, c.value) then []
      else w + c.value.incs
  }

  lemma {:induction false} AddedTwice(mods: seq<nat>, stats: seq<nat>, a: seq<Update>, b: seq<Update>)
    requires Moduli(mods) && InBounds(mods, a) && InBounds(mods, b) && |stats| == |mods|
    ensures Added(mods, Added(mods, stats, a), b) == Added(mods, stats, a + b)
  {
    hide Updated;
    if b == [] {
      assert a + b == a;
    } else {
      AddedTwice(mods, stats, a, b[..|b| - 1]);
      assert (a + b)[..|a + b| - 1] == a + b[..|b| - 1];
    }
  }

  /** What one call leaves pending and reports. */
  lemma ApplyEmits<K(!new)>(mods: seq<nat>, period: nat, s: State<K>, t: Touch<K>)
    requires Moduli(mods) && Shape(mods, s) && InBounds(mods, t.incs)
    ensures var r := Apply(mods, period, s, t);
            var stats := Added(mods, Old(mods, s, t.key), t.incs);
            && (forall k :: k != t.key ==>
                  (k in r.entries <==> k in s.entries) && (k in s.entries ==> r.entries[k] == s.entries[k]))
            && (!Gets(s, t) ==> r == s)
            && (Gets(s, t) ==>
                  && t.key in r.entries
                  && r.entries[t.key].stats == if Emits(period, s, t) then Zeros(|mods|) else stats)
            && r.reports == if Emits(period, s, t) then s.reports + [Report(t.key, t.ts, stats)] else s.reports
  {
    hide Added;
  }

  /** Pending statistics are the updates since the last report of their entry, applied to cleared ones. */
  lemma {:induction false} PendingIsWindow<K(!new)>(mods: seq<nat>, period: nat, calls: seq<Call<K>>, k: K)
    requires Moduli(mods) && AllInBounds(mods, calls)
    ensures Old(mods, Run(mods, period, calls), k) == Added(mods, Zeros(|mods|), Window(mods, period, calls, k))
    ensures k !in Run(mods, period, calls).entries ==> Window(mods, period, calls, k) == []
    decreases |calls|
  {
    hide Apply, Shape, Gets, Emits, Wants, ReportsNow, Updated;
    if calls != [] {
      var front, c := calls[..|calls| - 1], calls[|calls| - 1];
      assert CallInBounds(mods, calls[|calls| - 1]);
      var s := Run(mods, period, front);
      PendingIsWindow(mods, period, front, k);
      if c.Some? {
        ApplyEmits(mods, period, s, c.value);
        if Reaches(s, c, k) {
          AddedTwice(mods, Zeros(|mods|), Window(mods, period, front, k), c.value.incs);
        }
      }
    }
  }

  /** Every report carries exactly the updates of its entry since the previous report of that entry. */
  lemma ReportIsWindow<K(!new)>(mods: seq<nat>, period: nat, calls: seq<Call<K>>, t: Touch<K>)
    requires Moduli(mods) && AllInBounds(mods, calls) && InBounds(mods, t.incs)
    ensures var s := Run(mods, period, calls);
            var w := Window(mods, period, calls, t.key) + t.incs;
            Apply(mods, period, s, t).reports ==
            s.reports
            + if Adds(mods, period, s, t) then [Report(t.key, t.ts, Added(mods, Zeros(|mods|), w))] else []
  {
    hide Apply, Shape, Gets, Emits, Wants, ReportsNow, Updated, Added, Window;
    var s := Run(mods, period, calls);
    ApplyEmits(mods, period, s, t);
    PendingIsWindow(mods, period, calls, t.key);
    AddedTwice(mods, Zeros(|mods|), Window(mods, period, calls, t.key), t.incs);
    assert s.reports + [] == s.reports;
  }

  /** A property of single updates that all calls have is one of every window. */
  lemma {:induction false} WindowHas<K(!new)>(mods: seq<nat>, period: nat, calls: seq<Call<K>>, k: K,
                                       ok: Update -> bool)
    requires Moduli(mods) && AllInBounds(mods, calls)
    requires forall i :: 0 <= i < |calls| && calls[i].Some? ==> AllHave(calls[i].value.incs, ok)
    ensures AllHave(Window(mods, period, calls, k), ok)
    decreases |calls|
  {
    hide Run, Gets, Emits;
    if calls != [] {
      assert calls[|calls| - 1].Some? ==> AllHave(calls[|calls| - 1].value.incs, ok);
      WindowHas(mods, period, calls[..|calls| - 1], k, ok);
    }
  }

  ghost predicate AllHave(us: seq<Update>, ok: Update -> bool) {
    forall i :: 0 <= i < |us| ==> ok(us[i])
  }

  ghost predicate Only(incs: seq<Update>, m: nat, ok: Update -> bool) {
    forall i :: 0 <= i < |incs| && incs[i].metric == m ==> ok(incs[i])
  }

  /** The samples of one gauge, in order. */
  function Samples(incs: seq<Update>, m: nat): seq<nat> {
    if incs == [] then []
    else
      var x := incs[|incs| - 1];
      Samples(incs[..|incs| - 1], m) + if x.metric == m && !x.Inc? then [x.value] else []
  }

  ghost predicate IsMaximum(xs: seq<nat>, r: nat) {
    && (forall i :: 0 <= i < |xs| ==> xs[i] <= r)
    && (if xs == [] then r == 0 else r in xs)
  }

  /** `r` is the least of the samples after the last zero one, and 0 if there are none. */
  ghost predicate IsMinimumSinceZero(xs: seq<nat>, r: nat) {
    exists n :: 0 <= n <= |xs| && LeastFrom(xs, n, r)
  }

  ghost predicate LeastFrom(xs: seq<nat>, n: nat, r: nat)
    requires n <= |xs|
  {
    && (n > 0 ==> xs[n - 1] == 0)
    && (forall i :: n <= i < |xs| ==> xs[i] != 0 && r <= xs[i])
    && (if n == |xs| then r == 0 else r in xs[n..])
  }

  /** A maximum gauge ends with the largest sample. */
  lemma {:induction false} RaisedIsMaximum(mods: seq<nat>, incs: seq<Update>, m: nat)
    requires Moduli(mods) && InBounds(mods, incs) && m < |mods|
    requires Only(incs, m, (x: Update) => x.Raise?)
    ensures IsMaximum(Samples(incs, m), Added(mods, Zeros(|mods|), incs)[m])
  {
    hide Wrap;
    if incs != [] {
      RaisedIsMaximum(mods, incs[..|incs| - 1], m);
    }
  }

  /** A minimum gauge takes zero for "unset": it ends with the least sample since the last zero. */
  lemma {:induction false} LoweredIsMinimum(mods: seq<nat>, incs: seq<Update>, m: nat)
    requires Moduli(mods) && InBounds(mods, incs) && m < |mods|
    requires Only(incs, m, (x: Update) => x.Lower?)
    ensures IsMinimumSinceZero(Samples(incs, m), Added(mods, Zeros(|mods|), incs)[m])
  {
    hide Wrap, IsMinimumSinceZero;
    if incs == [] {
      NoSamples();
    } else {
      var front, x := incs[..|incs| - 1], incs[|incs| - 1];
      LoweredIsMinimum(mods, front, m);
      var xs, r := Samples(front, m), Added(mods, Zeros(|mods|), front)[m];
      if x.metric == m {
        LowerStep(xs, r, x.value);
        assert Samples(incs, m) == xs + [x.value];
        assert Added(mods, Zeros(|mods|), incs)[m] == if r == 0 then x.value else Min(r, x.value);
      } else {
        assert Samples(incs, m) == xs + [] == xs;
      }
    }
  }

  function LastOf(xs: seq<nat>): nat {
    if xs == [] then 0 else xs[|xs| - 1]
  }

  /** A stored value ends as the last one stored. */
  lemma {:induction false} PutIsLast(mods: seq<nat>, incs: seq<Update>, m: nat)
    requires Moduli(mods) && InBounds(mods, incs) && m < |mods|
    requires Only(incs, m, (x: Update) => x.Put?)
    ensures Added(mods, Zeros(|mods|), incs)[m] == LastOf(Samples(incs, m))
  {
    hide Wrap;
    if incs != [] {
      PutIsLast(mods, incs[..|incs| - 1], m);
    }
  }

  lemma NoSamples()
    ensures IsMinimumSinceZero([], 0)
  {
    assert LeastFrom([], 0, 0);
  }

  lemma LowerStep(xs: seq<nat>, r: nat, v: nat)
    requires IsMinimumSinceZero(xs, r)
    ensures IsMinimumSinceZero(xs + [v], if r == 0 then v else Min(r, v))
  {
    var n :| 0 <= n <= |xs| && LeastFrom(xs, n, r);
    var ys := xs + [v];
    if v == 0 {
      assert LeastFrom(ys, |ys|, 0);
    } else {
      var q := if r == 0 then v else Min(r, v);
      assert ys[n..] == xs[n..] + [v];
      assert LeastFrom(ys, n, q);
    }
  }

  /** An entry once made stays. */
  lemma {:induction false} EntriesStay<K(!new)>(mods: seq<nat>, period: nat, calls: seq<Call<K>>, n: nat, k: K)
    requires Moduli(mods) && AllInBounds(mods, calls) && n <= |calls|
    requires AllInBounds(mods, calls[..n]) && k in Run(mods, period, calls[..n]).entries
    ensures k in Run(mods, period, calls).entries
    decreases |calls|
  {
    hide Added;
    if n == |calls| {
      assert calls[..n] == calls;
    } else {
      var front := calls[..|calls| - 1];
      assert front[..n] == calls[..n];
      assert CallInBounds(mods, calls[|calls| - 1]);
      EntriesStay(mods, period, front, n, k);
    }
  }

  // ---- when a report is due

  /** When the entry of a key was made: the time of the first call on it that found room. */
  function FirstTouch<K(==)>(calls: seq<Call<K>>, k: K): Option<nat> {
    if calls == [] then None
    else
      var c, was := calls[|calls| - 1], FirstTouch(calls[..|calls| - 1], k);
      if was.None? && c.Some? && c.value.key == k && c.value.room then Some(c.value.ts) else was
  }

  /** The time of the last report of a key, or what is given if there is none. */
  function LastReport<K(==)>(reports: seq<Report<K>>, k: K, none: nat): nat {
    if reports == [] then none
    else
      var r := reports[|reports| - 1];
      if r.key == k then r.stamp else LastReport(reports[..|reports| - 1], k, none)
  }

  lemma LastReportSnoc<K>(reports: seq<Report<K>>, r: Report<K>, k: K, none: nat)
    ensures LastReport(reports + [r], k, none) == if r.key == k then r.stamp else LastReport(reports, k, none)
  {
    assert (reports + [r])[..|reports|] == reports;
  }

  ghost predicate Stamped<K(!new)>(s: State<K>, k: K, first: Option<nat>) {
    && (k in s.entries <==> first.Some?)
    && (first.None? ==> forall i :: 0 <= i < |s.reports| ==> s.reports[i].key != k)
    && (first.Some? ==> s.entries[k].ts == LastReport(s.reports, k, first.value))
  }

  lemma {:induction false} NoReport<K>(reports: seq<Report<K>>, k: K, none: nat)
    requires forall i :: 0 <= i < |reports| ==> reports[i].key != k
    ensures LastReport(reports, k, none) == none
  {
    if reports != [] {
      NoReport(reports[..|reports| - 1], k, none);
    }
  }

  lemma ApplyStamps<K(!new)>(mods: seq<nat>, period: nat, s: State<K>, t: Touch<K>, k: K, first: Option<nat>)
    requires Moduli(mods) && Shape(mods, s) && InBounds(mods, t.incs) && Stamped(s, k, first)
    ensures Stamped(Apply(mods, period, s, t), k,
                    if first.None? && t.key == k && t.room then Some(t.ts) else first)
  {
    hide Added;
    var none := if first.None? then t.ts else first.value;
    forall r: Report<K>
      ensures LastReport(s.reports + [r], k, none)
              == if r.key == k then r.stamp else LastReport(s.reports, k, none)
    {
      LastReportSnoc(s.reports, r, k, none);
    }
    if first.None? {
      NoReport(s.reports, k, none);
    }
  }

  /** An entry exists from its first call with room on, and is stamped with the last report of its key, or with its
      creation as long as there is none. */
  lemma {:induction false} EntryStamp<K(!new)>(mods: seq<nat>, period: nat, calls: seq<Call<K>>, k: K)
    requires Moduli(mods) && AllInBounds(mods, calls)
    ensures Stamped(Run(mods, period, calls), k, FirstTouch(calls, k))
    decreases |calls|
  {
    hide Apply, Stamped;
    if calls == [] {
      NothingStamped(Run(mods, period, calls), k);
    } else {
      var front, c := calls[..|calls| - 1], calls[|calls| - 1];
      assert CallInBounds(mods, calls[|calls| - 1]);
      EntryStamp(mods, period, front, k);
      if c.Some? {
        ApplyStamps(mods, period, Run(mods, period, front), c.value, k, FirstTouch(front, k));
      }
    }
  }

  lemma NothingStamped<K(!new)>(s: State<K>, k: K)
    requires s == State(map[], [])
    ensures Stamped(s, k, None)
  {
  }

  /** A call reports under its rule: a new entry unless it never reports, an old one if it always reports and its clock
      is not ahead of the key's last report, or of its creation if there is none, or is a period or more ahead. */
  ghost predicate ReportDue<K(!new)>(period: nat, calls: seq<Call<K>>, reports: seq<Report<K>>, t: Touch<K>) {
    match FirstTouch(calls, t.key)
    case None => t.room && t.rule != Never
    case Some(made) =>
      var last := LastReport(reports, t.key, made);
      t.rule == Always && (t.ts <= last || t.ts >= last + period)
  }

  /** Reports leave exactly when they are due, and then one, of the key of the call and with its time. */
  lemma ReportsIff<K(!new)>(mods: seq<nat>, period: nat, calls: seq<Call<K>>, t: Touch<K>)
    requires Moduli(mods) && AllInBounds(mods, calls) && InBounds(mods, t.incs)
    ensures var was, now := Run(mods, period, calls).reports, Apply(mods, period, Run(mods, period, calls), t).reports;
            if ReportDue(period, calls, was, t) then
              |now| == |was| + 1 && now[..|was|] == was && now[|was|].key == t.key && now[|was|].stamp == t.ts
            else now == was
  {
    hide Added, LastReport, FirstTouch;
    EntryStamp(mods, period, calls, t.key);
    ApplyEmits(mods, period, Run(mods, period, calls), t);
  }

  // ---- spacing

  /** Every call reads a later time than the ones before it. */
  ghost predicate Advancing<K(!new)>(calls: seq<Call<K>>) {
    forall i, j :: 0 <= i < j < |calls| && calls[i].Some? && calls[j].Some? ==> calls[i].value.ts < calls[j].value.ts
  }

  /** Reports of one key are a period apart, and the entry's time covers all of them. */
  ghost predicate Spaced<K(!new)>(s: State<K>, period: nat, now: int) {
    && (forall i, j :: 0 <= i < j < |s.reports| && s.reports[i].key == s.reports[j].key ==>
          s.reports[i].stamp + period <= s.reports[j].stamp)
    && (forall i :: 0 <= i < |s.reports| ==>
          s.reports[i].key in s.entries && s.reports[i].stamp <= s.entries[s.reports[i].key].ts)
    && forall k :: k in s.entries ==> s.entries[k].ts <= now
  }

  lemma ApplySpaced<K(!new)>(mods: seq<nat>, period: nat, s: State<K>, t: Touch<K>, now: int)
    requires Moduli(mods) && Shape(mods, s) && InBounds(mods, t.incs)
    requires Spaced(s, period, now) && now < t.ts
    ensures Spaced(Apply(mods, period, s, t), period, t.ts)
  {
    hide Added;
  }

  /** On a strictly advancing clock the reports of one entry are at least one period apart. */
  lemma {:induction false} ReportsSpaced<K(!new)>(mods: seq<nat>, period: nat, calls: seq<Call<K>>) returns (now: int)
    requires Moduli(mods) && AllInBounds(mods, calls) && Advancing(calls)
    ensures Spaced(Run(mods, period, calls), period, now)
    ensures now == -1 || exists i :: 0 <= i < |calls| && calls[i].Some? && calls[i].value.ts == now
    decreases |calls|
  {
    hide Apply, Spaced;
    if calls == [] {
      now := -1;
      NothingSpaced(Run(mods, period, calls), period);
    } else {
      var front, c := calls[..|calls| - 1], calls[|calls| - 1];
      assert CallInBounds(mods, calls[|calls| - 1]);
      now := ReportsSpaced(mods, period, front);
      if c.Some? {
        ApplySpaced(mods, period, Run(mods, period, front), c.value, now);
        now := c.value.ts;
      }
    }
  }

  lemma NothingSpaced<K(!new)>(s: State<K>, period: nat)
    requires s == State(map[], [])
    ensures Spaced(s, period, -1)
  {
  }
}
