/** Fixed-width words: the wrap-around of `uint32_t`/`__u64` arithmetic, and bitwise AND on naturals. */
module Words {

  const TWO32: nat := 0x1_0000_0000
  const TWO64: nat := 0x1_0000_0000_0000_0000

  function U32(x: int): (r: nat)
    ensures r < TWO32
  {
    x % TWO32
  }

  function U64(x: int): (r: nat)
    ensures r < TWO64
  {
    x % TWO64
  }

  function Min(x: int, y: int): int {
    if x < y then x else y
  }

  function Max(x: int, y: int): int {
    if x < y then y else x
  }

  /** Bitwise AND of two naturals, bit by bit from the least significant end. */
  function And(a: nat, b: nat): nat {
    if a == 0 || b == 0 then 0 else 2 * And(a / 2, b / 2) + (if a % 2 == 1 && b % 2 == 1 then 1 else 0)
  }

  /** The test of the ring constructor: a non-zero word that has no bit in common with its predecessor. */
  predicate IsPowerOfTwo(n: nat) {
    n != 0 && And(n, n - 1) == 0
  }

  lemma {:induction false} AndSelf(a: nat)
    ensures And(a, a) == a
  {
    if a != 0 {
      AndSelf(a / 2);
    }
  }

  lemma {:induction false} HalfOfPowerOfTwo(s: nat)
    requires IsPowerOfTwo(s) && s != 1
    ensures s % 2 == 0 && IsPowerOfTwo(s / 2)
  {
    if s % 2 == 1 {
      assert (s - 1) / 2 == s / 2;
      AndSelf(s / 2);
    } else {
      assert (s - 1) / 2 == s / 2 - 1;
    }
  }

  lemma {:induction false} MaskIsRemainder(x: nat, s: nat)
    requires IsPowerOfTwo(s)
    ensures And(x, s - 1) == x % s
    decreases s
  {
    if s != 1 {
      HalfOfPowerOfTwo(s);
      var t := s / 2;
      MaskIsRemainder(x / 2, t);
      assert (s - 1) / 2 == t - 1 && (s - 1) % 2 == 1;
      HalvedRemainder(x, t);
    }
  }

  lemma HalvedRemainder(x: nat, t: nat)
    requires t > 0
    ensures x % (2 * t) == 2 * ((x / 2) % t) + x % 2
  {
    var h := x / 2;
    var q := h / t;
    assert h == t * q + h % t;
    assert (2 * t) * q == 2 * (t * q);
    RemainderUnique(x, 2 * t, q, 2 * (h % t) + x % 2);
  }

  /** Masking with `s - 1` is reduction modulo `s` exactly for the sizes the ring constructor accepts. */
  lemma {:induction false} MaskIsRemainderIff(s: nat)
    requires s != 0
    ensures (forall x: nat :: And(x, s - 1) == x % s) <==> IsPowerOfTwo(s)
  {
    if IsPowerOfTwo(s) {
      forall x: nat ensures And(x, s - 1) == x % s {
        MaskIsRemainder(x, s);
      }
    } else {
      assert And(s, s - 1) != s % s;
    }
  }

  lemma RemainderUnique(x: int, s: int, q: int, r: int)
    requires 0 < s && x == s * q + r && 0 <= r < s
    ensures x % s == r && x / s == q
  {
    var d := x / s - q;
    assert s * d == r - x % s;
    MultipleIsFar(s, d);
  }

  lemma MultipleIsFar(s: int, d: int)
    requires 0 < s
    ensures d >= 1 ==> s * d >= s
    ensures d <= -1 ==> s * d <= -s
  {
    if d >= 1 {
      assert s * d == s + s * (d - 1);
    }
  }

  lemma WrapKeepsSlot(n: int, s: int, w: int)
    requires 0 < s <= w && w % s == 0
    ensures (n % w) % s == n % s
  {
    var k := w / s;
    assert w == s * k;
    var r := n % w;
    var q := n / w;
    assert n == w * q + r;
    assert w * q == s * (k * q);
    assert r == s * (r / s) + r % s;
    var e := k * q + r / s;
    assert s * e == s * (k * q) + s * (r / s);
    RemainderUnique(n, s, e, r % s);
  }

  /** A power of two below 2^32 divides 2^32, so a free-running 32-bit index keeps its slot when it wraps. */
  lemma {:induction false} DividesWord(s: nat, m: nat)
    requires IsPowerOfTwo(s) && IsPowerOfTwo(m) && s <= m
    ensures m % s == 0
    decreases s
  {
    if s != 1 {
      HalfOfPowerOfTwo(s);
      HalfOfPowerOfTwo(m);
      DividesWord(s / 2, m / 2);
      var q := (m / 2) / (s / 2);
      assert m / 2 == (s / 2) * q;
      assert m == s * q;
      RemainderUnique(m, s, q, 0);
    }
  }

  lemma {:induction false} TwoPower(k: nat)
    ensures IsPowerOfTwo(Power2(k))
  {
    if k != 0 {
      TwoPower(k - 1);
      var t := Power2(k - 1);
      assert (2 * t - 1) / 2 == t - 1;
    }
  }

  function Power2(k: nat): (r: nat)
    ensures r > 0
  {
    if k == 0 then 1 else 2 * Power2(k - 1)
  }

  lemma {:induction false} PowerAdds(a: nat, b: nat)
    ensures Power2(a + b) == Power2(a) * Power2(b)
  {
    if a != 0 {
      PowerAdds(a - 1, b);
      var x, y := Power2(a - 1), Power2(b);
      assert 2 * (x * y) == (2 * x) * y;
    }
  }

  lemma WordPowers()
    ensures Power2(32) == TWO32 && Power2(64) == TWO64
  {
    assert Power2(8) == 256 by {
      assert Power2(4) == 16;
    }
    PowerAdds(8, 8);
    PowerAdds(16, 16);
    PowerAdds(32, 32);
  }

  lemma Word32IsPower()
    ensures IsPowerOfTwo(TWO32)
  {
    hide Power2, IsPowerOfTwo;
    WordPowers();
    TwoPower(32);
  }

  /** The slot of a wrapped index is the slot of the unwrapped count. */
  lemma WrappedSlot(n: nat, s: nat)
    requires IsPowerOfTwo(s) && s <= TWO32
    ensures And(U32(n), s - 1) == n % s
  {
    MaskIsRemainder(U32(n), s);
    Word32IsPower();
    DividesWord(s, TWO32);
    WrapKeepsSlot(n, s, TWO32);
  }

  /** Subtraction of wrapped counts gives back a true difference that fits a word. */
  lemma WrappedDifference(a: nat, b: nat)
    requires b <= a && a - b < TWO32
    ensures U32(U32(a) - U32(b)) == a - b
  {
    var q := a / TWO32 - b / TWO32;
    assert U32(a) - U32(b) == (a - b) - TWO32 * q;
    RemainderUnique(U32(a) - U32(b), TWO32, -q, a - b);
  }

  lemma WrappedSum(a: int, b: int)
    ensures U32(U32(a) + b) == U32(a + b)
  {
    RemainderUnique(U32(a) + b, TWO32, (a + b) / TWO32 - a / TWO32, U32(a + b));
  }

  lemma WrappedSum64(a: int, b: int)
    ensures U64(U64(a) + b) == U64(a + b)
  {
    RemainderUnique(U64(a) + b, TWO64, (a + b) / TWO64 - a / TWO64, U64(a + b));
  }
}
