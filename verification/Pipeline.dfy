/** One probe thread and the ingress (or egress) thread around one ring and its eventfd, as interleaved steps. */
module Pipeline {
  import opened Words
  import opened Fifo

  /** Where the producer stands: between the barriers of the put, or between the put and the eventfd write. */
  datatype Producer<T> =
    | Idle
    | Reserved(x: T, len: nat)
    | Stored(x: T, len: nat)
    | Published

  /** Where the consumer stands: in `epoll_wait`, before the eventfd read, or inside the drain loop. */
  datatype Consumer<T> =
    | Waiting
    | Woken
    | Draining
    | Decided(len: nat)
    | Copied(len: nat, v: T)

  /** Shared memory, both program counters, and the history of successful puts and gets. */
  datatype State<T> = State(
    ring: Ring<T>,
    events: nat,
    prod: Producer<T>,
    cons: Consumer<T>,
    sent: seq<T>,
    taken: seq<T>)

  datatype Action<T> =
    | BeginPut(x: T) | StoreSlot | PublishPut | Trigger
    | Wake | ReadEvents | BeginGet | CopySlot | ReleaseGet

  predicate ByConsumer<T>(a: Action<T>) {
    a.Wake? || a.ReadEvents? || a.BeginGet? || a.CopySlot? || a.ReleaseGet?
  }

  predicate Enabled<T>(s: State<T>, a: Action<T>) {
    match a
    case BeginPut(_) => s.prod.Idle?
    case StoreSlot => s.prod.Reserved?
    case PublishPut => s.prod.Stored?
    case Trigger => s.prod.Published?
    case Wake => s.cons.Waiting? && s.events > 0
    case ReadEvents => s.cons.Woken? && s.events > 0
    case BeginGet => s.cons.Draining?
    case CopySlot => s.cons.Decided?
    case ReleaseGet => s.cons.Copied?
  }

  function Step<T>(s: State<T>, a: Action<T>): State<T>
    requires s.ring.Shape() && Lens(s) && Enabled(s, a)
  {
    match a
    case BeginPut(x) => s.(prod := Reserved(x, s.ring.PutReserve()))
    case StoreSlot => s.(ring := s.ring.PutStore(s.prod.x, s.prod.len), prod := Stored(s.prod.x, s.prod.len))
    case PublishPut =>
      // a full ring makes the put fail: the element is dropped and nothing is triggered
      var s' := s.(ring := s.ring.Publish(s.prod.len));
      if s.prod.len == 0 then s'.(prod := Idle) else s'.(prod := Published, sent := s.sent + [s.prod.x])
    case Trigger => s.(events := s.events + 1, prod := Idle)
    case Wake => s.(cons := Woken)
    case ReadEvents => s.(events := 0, cons := Draining)
    case BeginGet => s.(cons := Decided(s.ring.GetReserve()))
    case CopySlot => s.(cons := Copied(s.cons.len, s.ring.GetLoad()))
    case ReleaseGet =>
      var s' := s.(ring := s.ring.Release(s.cons.len));
      if s.cons.len == 0 then s'.(cons := Waiting) else s'.(cons := Draining, taken := s.taken + [s.cons.v])
  }

  predicate Lens<T>(s: State<T>) {
    && (s.prod.Reserved? || s.prod.Stored? ==> s.prod.len <= 1)
    && (s.cons.Decided? || s.cons.Copied? ==> s.cons.len <= 1)
  }

  ghost predicate Initial<T>(s: State<T>) {
    && s.ring.Shape() && s.ring.inIdx == s.ring.outIdx == 0
    && s.events == 0 && s.prod.Idle? && s.cons.Waiting?
    && s.sent == s.taken == []
  }

  // ---- the inductive invariant

  ghost predicate Ordered<T>(s: State<T>) {
    && Counts(s.ring, |s.sent|, |s.taken|)
    && s.taken == s.sent[..|s.taken|]
    && Holds(s.ring, |s.taken|, s.sent[|s.taken|..])
  }

  ghost predicate PutInProgress<T>(s: State<T>)
    requires Ordered(s)
  {
    match s.prod
    case Reserved(_, len) => len == 1 ==> |s.sent| - |s.taken| < s.ring.size
    case Stored(x, len) =>
      len == 1 ==> |s.sent| - |s.taken| < s.ring.size && s.ring.slots[s.ring.Slot(U32(|s.sent|))] == x
    case _ => true
  }

  ghost predicate GetInProgress<T>(s: State<T>)
    requires Ordered(s)
  {
    match s.cons
    case Decided(len) => len == 1 ==> |s.taken| < |s.sent|
    case Copied(len, v) => len == 1 ==> |s.taken| < |s.sent| && v == s.sent[|s.taken|]
    case _ => true
  }

  /** The consumer sleeps, or has already decided that the ring is empty and is about to. */
  predicate GoingToSleep<T>(c: Consumer<T>) {
    c.Waiting? || ((c.Decided? || c.Copied?) && c.len == 0)
  }

  ghost predicate WakeupPending<T>(s: State<T>) {
    && (GoingToSleep(s.cons) && |s.taken| < |s.sent| && !s.prod.Published? ==> s.events > 0)
    && (s.cons.Woken? ==> s.events > 0)
  }

  ghost predicate Inv<T>(s: State<T>) {
    Lens(s) && Ordered(s) && PutInProgress(s) && GetInProgress(s) && WakeupPending(s)
  }

  lemma InitialInv<T>(s: State<T>)
    requires Initial(s)
    ensures Inv(s)
  {
  }

  /** Holding one element more is holding the old ones and having the new one in the next slot. */
  lemma StoredIsNext<T>(r: Ring<T>, m: nat, q: seq<T>, x: T)
    requires r.Shape()
    ensures Holds(r, m, q + [x]) <==> Holds(r, m, q) && r.slots[r.Slot(U32(m + |q|))] == x
  {
    if Holds(r, m, q + [x]) {
      forall k | m <= k < m + |q|
        ensures r.slots[r.Slot(U32(k))] == q[k - m]
      {
        assert (q + [x])[k - m] == q[k - m];
      }
      assert r.slots[r.Slot(U32(m + |q|))] == (q + [x])[m + |q| - m];
    }
  }

  lemma StoreKeepsInv<T>(s: State<T>)
    requires Inv(s) && s.prod.Reserved?
    ensures Inv(Step(s, StoreSlot))
  {
    hide And, U32;
    var n, m := |s.sent|, |s.taken|;
    var s' := Step(s, StoreSlot);
    if s.prod.len == 1 {
      StoreHolds(s.ring, n, m, s.sent[m..], s.prod.x);
      assert Holds(s'.ring, m, s.sent[m..] + [s.prod.x]);
      StoredIsNext(s'.ring, m, s.sent[m..], s.prod.x);
    }
  }

  lemma PublishKeepsInv<T>(s: State<T>)
    requires Inv(s) && s.prod.Stored?
    ensures Inv(Step(s, PublishPut))
  {
    hide And, U32;
    var n, m := |s.sent|, |s.taken|;
    var s' := Step(s, PublishPut);
    WrappedSum(n, s.prod.len);
    if s.prod.len == 1 {
      StoredIsNext(s.ring, m, s.sent[m..], s.prod.x);
      assert s'.sent[m..] == s.sent[m..] + [s.prod.x];
      assert Holds(s'.ring, m, s'.sent[m..]);
    }
  }

  lemma ProducerKeepsInv<T>(s: State<T>, a: Action<T>)
    requires Inv(s) && Enabled(s, a) && !ByConsumer(a)
    ensures Inv(Step(s, a))
  {
    match a
    case StoreSlot => StoreKeepsInv(s);
    case PublishPut => PublishKeepsInv(s);
    case BeginPut(x) =>
      hide And, U32;
      ReserveIsExact(s.ring, |s.sent|, |s.taken|);
    case _ =>
  }

  lemma ReleaseKeepsInv<T>(s: State<T>)
    requires Inv(s) && s.cons.Copied?
    ensures Inv(Step(s, ReleaseGet))
  {
    hide And, U32;
    var n, m := |s.sent|, |s.taken|;
    var s' := Step(s, ReleaseGet);
    WrappedSum(m, s.cons.len);
    if s.cons.len == 1 {
      assert s'.taken == s.sent[..m + 1];
      forall k | m + 1 <= k < n
        ensures s'.ring.slots[s'.ring.Slot(U32(k))] == s.sent[m + 1..][k - (m + 1)]
      {
        assert s.ring.slots[s.ring.Slot(U32(k))] == s.sent[m..][k - m];
      }
      assert Holds(s'.ring, m + 1, s'.sent[m + 1..]);
    } else {
      assert Holds(s'.ring, m, s'.sent[m..]);
    }
  }

  lemma ConsumerKeepsInv<T>(s: State<T>, a: Action<T>)
    requires Inv(s) && Enabled(s, a) && ByConsumer(a)
    ensures Inv(Step(s, a))
  {
    hide And, U32;
    var m := |s.taken|;
    match a
    case BeginGet =>
      ReserveIsExact(s.ring, |s.sent|, m);
    case CopySlot =>
      if m < |s.sent| {
        assert s.ring.slots[s.ring.Slot(U32(m))] == s.sent[m..][m - m];
      }
    case ReleaseGet =>
      ReleaseKeepsInv(s);
    case _ =>
  }

  lemma StepKeepsInv<T>(s: State<T>, a: Action<T>)
    requires Inv(s) && Enabled(s, a)
    ensures Inv(Step(s, a))
  {
    if ByConsumer(a) {
      ConsumerKeepsInv(s, a);
    } else {
      ProducerKeepsInv(s, a);
    }
  }

  // ---- safety over every interleaving

  /** States reached by a schedule: any enabled action of either thread at every point. */
  ghost predicate Reaches<T>(s0: State<T>, schedule: seq<Action<T>>, s: State<T>)
    decreases |schedule|
  {
    if schedule == [] then s == s0
    else
      s0.ring.Shape() && Lens(s0) && Enabled(s0, schedule[0])
      && Reaches(Step(s0, schedule[0]), schedule[1..], s)
  }

  lemma {:induction false} ReachableInv<T>(s0: State<T>, schedule: seq<Action<T>>, s: State<T>)
    requires Inv(s0) && Reaches(s0, schedule, s)
    ensures Inv(s)
    decreases |schedule|
  {
    if schedule != [] {
      StepKeepsInv(s0, schedule[0]);
      ReachableInv(Step(s0, schedule[0]), schedule[1..], s);
    }
  }

  /** Under every interleaving the values got are a prefix of the values put, and the ring holds exactly the rest. */
  lemma FifoOrder<T>(s0: State<T>, schedule: seq<Action<T>>, s: State<T>)
    requires Initial(s0) && Reaches(s0, schedule, s)
    ensures s.ring.Shape() && U32(s.ring.inIdx - s.ring.outIdx) <= s.ring.size
    ensures s.sent == s.taken + s.ring.Queue()
  {
    InitialInv(s0);
    ReachableInv(s0, schedule, s);
    var n, m := |s.sent|, |s.taken|;
    ReserveIsExact(s.ring, n, m);
    HoldsIsQueue(s.ring, n, m, s.sent[m..]);
  }

  ghost predicate OnlyConsumer<T(!new)>(schedule: seq<Action<T>>) {
    forall i :: 0 <= i < |schedule| ==> ByConsumer(schedule[i])
  }

  lemma {:induction false} ConsumerRun<T(!new)>(s: State<T>, schedule: seq<Action<T>>, t: State<T>)
    requires Inv(s) && Reaches(s, schedule, t) && OnlyConsumer(schedule)
    ensures Inv(t) && t.prod == s.prod && t.sent == s.sent && t.ring.size == s.ring.size
    decreases |schedule|
  {
    if schedule != [] {
      StepKeepsInv(s, schedule[0]);
      assert ByConsumer(schedule[0]);
      hide Inv;
      ConsumerRun(Step(s, schedule[0]), schedule[1..], t);
    }
  }

  /** What becomes of an element that is put, whatever the consumer does between the steps: it is sent exactly if the
      ring had a free slot when the put began, and then its trigger is due; otherwise nothing of it remains. */
  lemma PutLandsIff<T(!new)>(s: State<T>, x: T, c1: seq<Action<T>>, s1: State<T>, c2: seq<Action<T>>, s2: State<T>,
                             t: State<T>)
    requires Inv(s) && OnlyConsumer(c1) && OnlyConsumer(c2)
    requires Reaches(s, [BeginPut(x)] + c1, s1) && Reaches(s1, [StoreSlot] + c2, s2) && Reaches(s2, [PublishPut], t)
    ensures if |s.sent| < |s.taken| + s.ring.size then t.sent == s.sent + [x] && t.prod.Published?
            else t.sent == s.sent && t.prod.Idle?
  {
    FirstStep(s, BeginPut(x), c1, s1);
    FirstStep(s1, StoreSlot, c2, s2);
    FirstStep(s2, PublishPut, [], t);
    BeginFacts(s, x);
    hide Inv, Step, OnlyConsumer, Lens;
    ConsumerRun(Step(s, BeginPut(x)), c1, s1);
    StoreFacts(s1);
    ConsumerRun(Step(s1, StoreSlot), c2, s2);
    PublishFacts(s2);
  }

  lemma FirstStep<T(!new)>(s: State<T>, a: Action<T>, rest: seq<Action<T>>, t: State<T>)
    requires Reaches(s, [a] + rest, t)
    ensures s.ring.Shape() && Lens(s) && Enabled(s, a) && Reaches(Step(s, a), rest, t)
    ensures rest == [] ==> t == Step(s, a)
  {
    assert ([a] + rest)[1..] == rest;
  }

  lemma BeginFacts<T>(s: State<T>, x: T)
    requires Inv(s) && s.prod.Idle?
    ensures s.ring.Shape() && Lens(s) && Enabled(s, BeginPut(x)) && Inv(Step(s, BeginPut(x)))
    ensures var t := Step(s, BeginPut(x));
            t.sent == s.sent && t.prod == Reserved(x, if |s.sent| < |s.taken| + s.ring.size then 1 else 0)
  {
    ReserveIsExact(s.ring, |s.sent|, |s.taken|);
    StepKeepsInv(s, BeginPut(x));
  }

  lemma StoreFacts<T>(s: State<T>)
    requires Inv(s) && s.prod.Reserved?
    ensures s.ring.Shape() && Lens(s) && Enabled(s, StoreSlot) && Inv(Step(s, StoreSlot))
    ensures var t := Step(s, StoreSlot); t.sent == s.sent && t.prod == Stored(s.prod.x, s.prod.len)
  {
    StepKeepsInv(s, StoreSlot);
  }

  lemma PublishFacts<T>(s: State<T>)
    requires Inv(s) && s.prod.Stored?
    ensures s.ring.Shape() && Lens(s) && Enabled(s, PublishPut) && Inv(Step(s, PublishPut))
    ensures var t := Step(s, PublishPut);
            if s.prod.len == 1 then t.sent == s.sent + [s.prod.x] && t.prod.Published?
            else t.sent == s.sent && t.prod.Idle?
  {
    StepKeepsInv(s, PublishPut);
  }

  /** A put that has begun can always go on. */
  lemma ProducerNeverStuck<T>(s0: State<T>, schedule: seq<Action<T>>, s: State<T>) returns (a: Action<T>)
    requires Initial(s0) && Reaches(s0, schedule, s) && !s.prod.Idle?
    ensures !ByConsumer(a) && !a.BeginPut? && Enabled(s, a)
  {
    a := match s.prod
      case Reserved(_, _) => StoreSlot
      case Stored(_, _) => PublishPut
      case Published => Trigger;
  }

  /** The consumer can always go on unless it waits for an eventfd at zero. */
  lemma ConsumerNeverStuck<T>(s0: State<T>, schedule: seq<Action<T>>, s: State<T>) returns (a: Action<T>)
    requires Initial(s0) && Reaches(s0, schedule, s) && !(s.cons.Waiting? && s.events == 0)
    ensures ByConsumer(a) && Enabled(s, a)
  {
    InitialInv(s0);
    ReachableInv(s0, schedule, s);
    a := match s.cons
      case Waiting => Wake
      case Woken => ReadEvents
      case Draining => BeginGet
      case Decided(_) => CopySlot
      case Copied(_, _) => ReleaseGet;
  }

  // ---- triggers and wakeups

  /** How often each step of a put, and the read of the eventfd, occur in a schedule. */
  datatype Tally = Tally(begun: nat, stored: nat, published: nat, triggered: nat, read: nat)

  function TallyOf<T>(schedule: seq<Action<T>>): Tally {
    if schedule == [] then Tally(0, 0, 0, 0, 0)
    else
      var c, a := TallyOf(schedule[1..]), schedule[0];
      Tally(c.begun + One(a.BeginPut?), c.stored + One(a.StoreSlot?), c.published + One(a.PublishPut?),
              c.triggered + One(a.Trigger?), c.read + One(a.ReadEvents?))
  }

  /** The triggers behind the last read of the eventfd, on top of those there were. */
  function Unread<T>(events: nat, schedule: seq<Action<T>>): nat
    decreases |schedule|
  {
    if schedule == [] then events
    else
      Unread(if schedule[0].Trigger? then events + 1 else if schedule[0].ReadEvents? then 0 else events, schedule[1..])
  }

  function One(hit: bool): nat {
    if hit then 1 else 0
  }

  lemma StepCounts<T>(s: State<T>, a: Action<T>)
    requires s.ring.Shape() && Lens(s) && Enabled(s, a) && |s.sent| >= One(s.prod.Published?)
    ensures var t := Step(s, a);
            && t.events == (if a.Trigger? then s.events + 1 else if a.ReadEvents? then 0 else s.events)
            && |t.sent| - One(t.prod.Published?) == |s.sent| - One(s.prod.Published?) + One(a.Trigger?)
            && One(a.StoreSlot?) + One(t.prod.Reserved?) == One(a.BeginPut?) + One(s.prod.Reserved?)
            && One(a.PublishPut?) + One(t.prod.Stored?) == One(a.StoreSlot?) + One(s.prod.Stored?)
            && (a.ReadEvents? ==> s.events > 0)
  {
  }

  lemma {:induction false} CountsFrom<T>(s0: State<T>, schedule: seq<Action<T>>, s: State<T>)
    requires Reaches(s0, schedule, s) && |s0.sent| >= One(s0.prod.Published?)
    ensures s.events == Unread(s0.events, schedule) && |s.sent| >= One(s.prod.Published?)
    ensures var c := TallyOf(schedule);
            && |s.sent| - One(s.prod.Published?) == |s0.sent| - One(s0.prod.Published?) + c.triggered
            && c.read + One(s.events > 0) <= c.triggered + One(s0.events > 0)
            && c.stored + One(s.prod.Reserved?) == c.begun + One(s0.prod.Reserved?)
            && c.published + One(s.prod.Stored?) == c.stored + One(s0.prod.Stored?)
    decreases |schedule|
  {
    if schedule != [] {
      StepCounts(s0, schedule[0]);
      hide Step, Enabled;
      CountsFrom(Step(s0, schedule[0]), schedule[1..], s);
    }
  }

  /** Every put is stored and published once, and every sent element is triggered once; at most the last of each is
      still to come. The eventfd counts the triggers since it was last read, and is read at most once per trigger: the
      consumer never wakes without cause. */
  lemma TriggersAreCounted<T>(s0: State<T>, schedule: seq<Action<T>>, s: State<T>)
    requires Initial(s0) && Reaches(s0, schedule, s)
    ensures var c := TallyOf(schedule);
            && c.begun == c.stored + One(s.prod.Reserved?)
            && c.stored == c.published + One(s.prod.Stored?)
            && |s.sent| == c.triggered + One(s.prod.Published?)
            && c.read <= c.triggered
    ensures s.events == Unread(0, schedule)
  {
    hide Unread, TallyOf;
    CountsFrom(s0, schedule, s);
  }

  /** The producer's next write and the consumer's next read never meet in one slot. */
  lemma NoSlotRace<T>(s0: State<T>, schedule: seq<Action<T>>, s: State<T>)
    requires Initial(s0) && Reaches(s0, schedule, s)
    requires s.prod.Reserved? && s.prod.len == 1 && s.cons.Decided? && s.cons.len == 1
    ensures s.ring.Shape() && s.ring.Slot(s.ring.inIdx) != s.ring.Slot(s.ring.outIdx)
  {
    InitialInv(s0);
    ReachableInv(s0, schedule, s);
    SlotsDistinct(s.ring, |s.taken|, |s.sent|);
  }

  /** No lost wakeup, and the eventfd read after a wakeup never blocks. */
  lemma NoLostWakeup<T>(s0: State<T>, schedule: seq<Action<T>>, s: State<T>)
    requires Initial(s0) && Reaches(s0, schedule, s)
    ensures s.cons.Waiting? && s.sent != s.taken && !s.prod.Published? ==> s.events > 0
    ensures s.cons.Woken? ==> s.events > 0
  {
    InitialInv(s0);
    ReachableInv(s0, schedule, s);
    if |s.taken| == |s.sent| {
      assert s.taken == s.sent;
    }
  }

  // ---- liveness over every fair infinite run

  type Run<!T> = nat -> State<T>

  ghost predicate StepAt<T(!new)>(run: Run<T>, i: nat) {
    || run(i + 1) == run(i)
    || exists a: Action<T> :: MovesBy(run, i, a)
  }

  ghost predicate MovesBy<T>(run: Run<T>, i: nat, a: Action<T>) {
    run(i).ring.Shape() && Lens(run(i)) && Enabled(run(i), a) && run(i + 1) == Step(run(i), a)
  }

  ghost predicate ConsumerMoves<T(!new)>(run: Run<T>, i: nat) {
    exists a: Action<T> :: ByConsumer(a) && MovesBy(run, i, a)
  }

  ghost predicate Behaviour<T(!new)>(run: Run<T>) {
    Initial(run(0)) && forall i: nat :: StepAt(run, i)
  }

  ghost predicate ConsumerBlocked<T>(s: State<T>) {
    s.cons.Waiting? && s.events == 0
  }

  /** Weak fairness: the consumer moves or blocks again and again, and an eventfd write that is due gets done. */
  ghost predicate Fair<T(!new)>(run: Run<T>) {
    forall i: nat :: ConsumerServedFrom(run, i) && TriggerDoneFrom(run, i)
  }

  ghost predicate ConsumerServedFrom<T(!new)>(run: Run<T>, i: nat) {
    exists j: nat :: i <= j && ConsumerServed(run, j)
  }

  ghost predicate TriggerDoneFrom<T(!new)>(run: Run<T>, i: nat) {
    exists j: nat :: i <= j && TriggerDone(run, j)
  }

  ghost predicate ConsumerServed<T(!new)>(run: Run<T>, j: nat) {
    ConsumerMoves(run, j) || ConsumerBlocked(run(j))
  }

  ghost predicate TriggerDone<T>(run: Run<T>, j: nat) {
    !run(j).prod.Published?
  }

  lemma {:induction false} RunInv<T(!new)>(run: Run<T>, i: nat)
    requires Behaviour(run)
    ensures Inv(run(i))
  {
    if i == 0 {
      InitialInv(run(0));
    } else {
      RunInv(run, i - 1);
      assert StepAt(run, i - 1);
      if run(i) != run(i - 1) {
        var a :| MovesBy(run, i - 1, a);
        StepKeepsInv(run(i - 1), a);
      }
    }
  }

  /** How many consumer steps at most stand between here and the next element taken from a non-empty ring. */
  function Distance<T>(c: Consumer<T>): nat {
    match c
    case Decided(len) => if len == 0 then 7 else 2
    case Copied(len, _) => if len == 0 then 6 else 1
    case Waiting => 5
    case Woken => 4
    case Draining => 3
  }

  /** One run step from a non-empty ring: something is taken, or the consumer stays where it is or comes closer. */
  lemma StepProgress<T(!new)>(run: Run<T>, i: nat)
    requires Behaviour(run) && |run(i).taken| < |run(i).sent|
    ensures |run(i).sent| <= |run(i + 1).sent|
    ensures
      || (run(i + 1).taken == run(i).taken && run(i + 1).cons == run(i).cons && run(i).events <= run(i + 1).events)
      || |run(i).taken| < |run(i + 1).taken|
      || (run(i + 1).taken == run(i).taken && Distance(run(i + 1).cons) < Distance(run(i).cons))
    ensures ConsumerMoves(run, i) ==>
      || |run(i).taken| < |run(i + 1).taken|
      || (run(i + 1).taken == run(i).taken && Distance(run(i + 1).cons) < Distance(run(i).cons))
  {
    RunInv(run, i);
    ReserveIsExact(run(i).ring, |run(i).sent|, |run(i).taken|);
    assert StepAt(run, i);
    if ConsumerMoves(run, i) {
      var a :| ByConsumer(a) && MovesBy(run, i, a);
    } else if run(i + 1) != run(i) {
      var a :| MovesBy(run, i, a);
      assert !ByConsumer(a);
    }
  }

  /** Nothing taken and the consumer no closer, from `i` to `j`: then it stands still there and the eventfd only
      grows. */
  ghost predicate Still<T>(run: Run<T>, i: nat, j: nat) {
    && |run(i).sent| <= |run(j).sent|
    && run(j).taken == run(i).taken && run(j).cons == run(i).cons && run(i).events <= run(j).events
  }

  ghost predicate Closer<T>(run: Run<T>, i: nat, j: nat) {
    && i < j
    && |run(i).sent| <= |run(j).sent|
    && (|run(i).taken| < |run(j).taken|
        || (run(j).taken == run(i).taken && Distance(run(j).cons) < Distance(run(i).cons)))
  }

  /** Walking from `i` to `j`, either nothing happened to the consumer or it made progress on the way. */
  lemma {:induction false} Walk<T(!new)>(run: Run<T>, i: nat, j: nat) returns (k: nat)
    requires Behaviour(run) && i <= j && |run(i).taken| < |run(i).sent|
    ensures Still(run, i, j) || Closer(run, i, k)
    decreases j - i
  {
    k := 0;
    if i < j {
      StepProgress(run, i);
      if Still(run, i, i + 1) {
        k := Walk(run, i + 1, j);
      } else {
        k := i + 1;
      }
    }
  }

  /** Progress out of any state with a non-empty ring. */
  lemma ComesCloser<T(!new)>(run: Run<T>, i: nat) returns (k: nat)
    requires Behaviour(run) && Fair(run) && |run(i).taken| < |run(i).sent|
    ensures Closer(run, i, k)
  {
    // the pending trigger is written first, so that from `t` on the eventfd of a sleeping consumer is set
    assert TriggerDoneFrom(run, i);
    var t: nat :| i <= t && TriggerDone(run, t);
    k := Walk(run, i, t);
    if Closer(run, i, k) {
      return;
    }
    RunInv(run, t);
    assert ConsumerServedFrom(run, t);
    var j: nat :| t <= j && ConsumerServed(run, j);
    k := Walk(run, t, j);
    if Closer(run, t, k) {
      assert Closer(run, i, k);
      return;
    }
    assert Still(run, t, j);
    StepProgress(run, j);
    k := j + 1;
  }

  /** Every element published in a fair run is eventually handed to the consumer, in its place in the order. */
  lemma {:induction false} EventuallyDrained<T(!new)>(run: Run<T>, i: nat, n: nat) returns (j: nat)
    requires Behaviour(run) && Fair(run) && n < |run(i).sent|
    ensures i <= j && n < |run(j).taken| && n < |run(j).sent| && run(j).taken[n] == run(j).sent[n]
    decreases n + 1 - |run(i).taken|, Distance(run(i).cons)
  {
    RunInv(run, i);
    if n < |run(i).taken| {
      j := i;
    } else {
      var k := ComesCloser(run, i);
      j := EventuallyDrained(run, k, n);
    }
  }
}
