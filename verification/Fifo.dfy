/** The single-producer single-consumer ring: free-running 32-bit indices masked into a slot array. */
module Fifo {
  import opened Words

  /** What a failed call returns: -1 in a `uint32_t`. */
  const FAILED: nat := 0xFFFF_FFFF

  /** The fields of the ring as a value. */
  datatype Ring<T> = Ring(size: nat, inIdx: nat, outIdx: nat, slots: seq<T>) {

    ghost predicate Shape() {
      IsPowerOfTwo(size) && size < TWO32 && |slots| == size && inIdx < TWO32 && outIdx < TWO32
    }

    function Slot(idx: nat): (k: nat)
      requires Shape()
      ensures k < size
    {
      MaskIsRemainder(idx, size);
      And(idx, size - 1)
    }

    // The two calls, each split at its memory barriers: look at the other side's index and decide,
    // touch the slot, publish the own index.

    function PutReserve(): nat {
      Min(1, U32(size - inIdx + outIdx))
    }

    function PutStore(x: T, len: nat): (r: Ring<T>)
      requires Shape() && len <= 1
      ensures r.Shape()
    {
      if len == 0 then this else this.(slots := slots[Slot(inIdx) := x])
    }

    function Publish(len: nat): Ring<T> {
      this.(inIdx := U32(inIdx + len))
    }

    function GetReserve(): nat {
      Min(1, U32(inIdx - outIdx))
    }

    function GetLoad(): T
      requires Shape()
    {
      slots[Slot(outIdx)]
    }

    function Release(len: nat): Ring<T> {
      this.(outIdx := U32(outIdx + len))
    }

    /** The elements between the two indices, oldest first. */
    ghost function Queue(): (q: seq<T>)
      requires Shape()
      ensures |q| == U32(inIdx - outIdx)
    {
      seq(U32(inIdx - outIdx), k requires 0 <= k => slots[Slot(U32(outIdx + k))])
    }
  }

  /** Free-running counts `sent` and `taken` explain the two wrapped indices. */
  ghost predicate Counts<T>(r: Ring<T>, sent: nat, taken: nat) {
    && r.Shape()
    && taken <= sent <= taken + r.size
    && r.inIdx == U32(sent)
    && r.outIdx == U32(taken)
  }

  lemma SlotOf<T>(r: Ring<T>, count: nat)
    requires r.Shape()
    ensures r.Slot(U32(count)) == count % r.size
  {
    WrappedSlot(count, r.size);
  }

  lemma ReserveIsExact<T>(r: Ring<T>, sent: nat, taken: nat)
    requires Counts(r, sent, taken)
    ensures r.PutReserve() == (if sent - taken < r.size then 1 else 0)
    ensures r.GetReserve() == (if taken < sent then 1 else 0)
    ensures U32(r.inIdx - r.outIdx) == sent - taken
  {
    WrappedDifference(sent, taken);
    WrappedDifference(taken + r.size, sent);
    WrappedSum(taken, r.size - r.inIdx);
    WrappedSum(taken + r.size, 0 - r.inIdx);
  }

  /** Slot by slot, the window between the two counts holds `q`. */
  ghost predicate Holds<T>(r: Ring<T>, taken: nat, q: seq<T>)
    requires r.Shape()
  {
    forall k :: taken <= k < taken + |q| ==> r.slots[r.Slot(U32(k))] == q[k - taken]
  }

  lemma QueueHolds<T>(r: Ring<T>, sent: nat, taken: nat)
    requires Counts(r, sent, taken)
    ensures |r.Queue()| == sent - taken && Holds(r, taken, r.Queue())
  {
    WrappedDifference(sent, taken);
    forall k | taken <= k < sent
      ensures r.slots[r.Slot(U32(k))] == r.Queue()[k - taken]
    {
      WrappedSum(taken, k - taken);
    }
  }

  lemma HoldsIsQueue<T>(r: Ring<T>, sent: nat, taken: nat, q: seq<T>)
    requires Counts(r, sent, taken) && |q| == sent - taken && Holds(r, taken, q)
    ensures r.Queue() == q
  {
    QueueHolds(r, sent, taken);
    forall k | 0 <= k < |q|
      ensures r.Queue()[k] == q[k]
    {
      assert r.slots[r.Slot(U32(taken + k))] == q[taken + k - taken];
    }
  }

  lemma StoreHolds<T>(r: Ring<T>, sent: nat, taken: nat, q: seq<T>, x: T)
    requires Counts(r, sent, taken) && |q| == sent - taken < r.size && Holds(r, taken, q)
    ensures Holds(r.PutStore(x, 1), taken, q + [x])
  {
    var r' := r.PutStore(x, 1);
    forall k | taken <= k < taken + |q| + 1
      ensures r'.slots[r'.Slot(U32(k))] == (q + [x])[k - taken]
    {
      if k < sent {
        SlotsDistinct(r, k, sent);
        assert r.slots[r.Slot(U32(k))] == q[k - taken];
      }
    }
  }

  /** Two counts less than a ring apart never share a slot. */
  lemma SlotsDiffer(a: nat, b: nat, size: nat)
    requires a < b < a + size
    ensures a % size != b % size
  {
    if a % size == b % size {
      MultipleIsFar(size, b / size - a / size);
      assert false;
    }
  }

  lemma SlotsDistinct<T>(r: Ring<T>, a: nat, b: nat)
    requires r.Shape() && a < b < a + r.size
    ensures r.Slot(U32(a)) != r.Slot(U32(b))
  {
    SlotOf(r, a);
    SlotOf(r, b);
    SlotsDiffer(a, b, r.size);
  }

  class Fifo<T> {
    const size: nat
    var inIdx: nat
    var outIdx: nat
    var buffer: array<T>

    function View(): Ring<T>
      reads this, buffer
    {
      Ring(size, inIdx, outIdx, buffer[..])
    }

    ghost predicate Valid()
      reads this, buffer
    {
      View().Shape() && U32(inIdx - outIdx) <= size
    }

    ghost function Contents(): seq<T>
      reads this, buffer
      requires Valid()
    {
      View().Queue()
    }

    constructor (n: nat, zero: T)
      requires IsPowerOfTwo(n) && n < TWO32
      ensures Valid() && size == n && Contents() == [] && fresh(buffer)
    {
      size := n;
      buffer := new T[n](_ => zero);
      inIdx, outIdx := 0, 0;
    }

    /** Allocation succeeds exactly for the sizes whose mask is a remainder. */
    static method Create(n: nat, zero: T) returns (f: Fifo?<T>)
      requires n < TWO32
      ensures f != null <==> IsPowerOfTwo(n)
      ensures f != null ==> fresh(f) && fresh(f.buffer) && f.Valid() && f.size == n && f.Contents() == []
    {
      if !IsPowerOfTwo(n) {
        return null;
      }
      f := new Fifo(n, zero);
    }

    /** The second `memcpy` never has anything left to do: the slot is below `size`. */
    method Store(x: T, len: nat)
      requires Valid() && len <= 1
      modifies buffer
      ensures View() == old(View()).PutStore(x, len)
    {
      var slot := View().Slot(inIdx);
      var len2 := Min(len, size - slot);
      assert len2 == len;
      if len2 == 1 {
        buffer[slot] := x;
      }
      assert old(View()).PutStore(x, len).slots == buffer[..];
    }

    method Put(x: T) returns (ret: nat)
      requires Valid()
      modifies this`inIdx, buffer
      ensures Valid()
      ensures ret == (if |old(Contents())| == size then FAILED else 0)
      ensures Contents() == (if ret == 0 then old(Contents()) + [x] else old(Contents()))
    {
      ghost var r0 := View();
      var len := Min(1, U32(size - inIdx + outIdx));
      Store(x, len);
      ghost var r1 := View();
      inIdx := U32(inIdx + len);
      ret := if len == 0 then FAILED else 0;
      PutAppends(r0, x);
      assert View() == r1.Publish(len);
    }

    method Get() returns (ret: nat, x: T)
      requires Valid()
      modifies this`outIdx
      ensures Valid()
      ensures ret == (if old(Contents()) == [] then FAILED else 0)
      ensures ret == 0 ==> [x] + Contents() == old(Contents())
      ensures ret != 0 ==> Contents() == old(Contents())
    {
      ghost var r0 := View();
      var len := Min(1, U32(inIdx - outIdx));
      var slot := View().Slot(outIdx);
      x := buffer[slot];
      outIdx := U32(outIdx + len);
      ret := if len == 0 then FAILED else 0;
      GetRemoves(r0);
      assert View() == r0.Release(len);
    }
  }

  /** A valid ring has true counts behind its indices. */
  lemma CountsOf<T>(r: Ring<T>) returns (sent: nat, taken: nat)
    requires r.Shape() && U32(r.inIdx - r.outIdx) <= r.size
    ensures Counts(r, sent, taken)
  {
    taken := r.outIdx;
    sent := taken + U32(r.inIdx - r.outIdx);
    WrappedSum(r.inIdx - r.outIdx, taken);
  }

  lemma PutAppends<T>(r: Ring<T>, x: T)
    requires r.Shape() && U32(r.inIdx - r.outIdx) <= r.size
    ensures var len := r.PutReserve();
            var r2 := r.PutStore(x, len).Publish(len);
            && len == (if |r.Queue()| == r.size then 0 else 1)
            && r2.Shape() && U32(r2.inIdx - r2.outIdx) <= r2.size
            && r2.Queue() == (if len == 1 then r.Queue() + [x] else r.Queue())
  {
    hide And, U32;
    var sent, taken := CountsOf(r);
    ReserveIsExact(r, sent, taken);
    var len := r.PutReserve();
    var r2 := r.PutStore(x, len).Publish(len);
    WrappedSum(sent, len);
    assert Counts(r2, sent + len, taken);
    ReserveIsExact(r2, sent + len, taken);
    QueueHolds(r, sent, taken);
    if len == 1 {
      StoreHolds(r, sent, taken, r.Queue(), x);
      assert Holds(r2, taken, r.Queue() + [x]);
      HoldsIsQueue(r2, sent + 1, taken, r.Queue() + [x]);
    } else {
      assert Holds(r2, taken, r.Queue());
      HoldsIsQueue(r2, sent, taken, r.Queue());
    }
  }

  lemma GetRemoves<T>(r: Ring<T>)
    requires r.Shape() && U32(r.inIdx - r.outIdx) <= r.size
    ensures var len := r.GetReserve();
            var r2 := r.Release(len);
            && len == (if r.Queue() == [] then 0 else 1)
            && r2.Shape() && U32(r2.inIdx - r2.outIdx) <= r2.size
            && (if len == 1 then [r.GetLoad()] + r2.Queue() == r.Queue() else r2.Queue() == r.Queue())
  {
    hide And, U32;
    var sent, taken := CountsOf(r);
    ReserveIsExact(r, sent, taken);
    var len := r.GetReserve();
    var r2 := r.Release(len);
    WrappedSum(taken, len);
    assert Counts(r2, sent, taken + len);
    ReserveIsExact(r2, sent, taken + len);
    QueueHolds(r, sent, taken);
    if len == 1 {
      assert r.slots[r.Slot(U32(taken))] == r.Queue()[taken - taken];
      forall k | taken + 1 <= k < sent
        ensures r2.slots[r2.Slot(U32(k))] == r.Queue()[1..][k - (taken + 1)]
      {
        assert r.slots[r.Slot(U32(k))] == r.Queue()[k - taken];
      }
      HoldsIsQueue(r2, sent, taken + 1, r.Queue()[1..]);
    } else {
      HoldsIsQueue(r2, sent, taken, r.Queue());
    }
  }
}
