/** Bitwise and on unbounded naturals, and why masking with a power of two minus one is a remainder. */
module Bits {

  function BitAnd(a: nat, b: nat): nat {
    if a == 0 || b == 0 then 0 else (a % 2) * (b % 2) + 2 * BitAnd(a / 2, b / 2)
  }

  function Pow2(k: nat): (r: nat)
    ensures r >= 1
  {
    if k == 0 then 1 else 2 * Pow2(k - 1)
  }

  /** The compile-time test of the ring buffer macro. */
  predicate IsPowerOfTwo(v: nat)
    requires v >= 1
  {
    BitAnd(v, v - 1) == 0
  }

  lemma {:induction false} BitAndSelf(a: nat)
    ensures BitAnd(a, a) == a
  {
    if a != 0 {
      BitAndSelf(a / 2);
    }
  }

  /** What passes the test is a power of two. */
  lemma {:induction false} PowerOfTwoExponent(v: nat) returns (k: nat)
    requires v >= 1 && IsPowerOfTwo(v)
    ensures v == Pow2(k)
  {
    var w := v / 2;
    if v == 1 {
      k := 0;
    } else if v % 2 == 0 {
      assert (v - 1) % 2 == 1 && (v - 1) / 2 == w - 1;
      k := PowerOfTwoExponent(w);
      k := k + 1;
    } else {
      assert (v - 1) % 2 == 0 && (v - 1) / 2 == w;
      BitAndSelf(w);
      assert false;
    }
  }

  /** Every power of two passes the test. */
  lemma {:induction false} PowersPass(k: nat)
    ensures IsPowerOfTwo(Pow2(k))
  {
    if k > 0 {
      var w := Pow2(k - 1);
      PowersPass(k - 1);
      assert (2 * w - 1) / 2 == w - 1;
    }
  }

  /** The size of the serial input buffer passes the test. */
  lemma BufferSizePasses()
    ensures IsPowerOfTwo(128)
  {
    PowersPass(7);
    assert Pow2(7) == 128;
  }

  lemma {:induction false} MaskIsRemainder(x: nat, k: nat)
    ensures BitAnd(x, Pow2(k) - 1) == x % Pow2(k)
    decreases k
  {
    if k > 0 {
      var p := Pow2(k - 1);
      MaskIsRemainder(x / 2, k - 1);
      RemainderOfDouble(x, p);
      if x != 0 {
        assert (2 * p - 1) % 2 == 1 && (2 * p - 1) / 2 == p - 1;
      }
    }
  }

  lemma RemainderOfDouble(x: nat, p: nat)
    requires p >= 1
    ensures x % (2 * p) == 2 * ((x / 2) % p) + x % 2
  {
    var q, r := (x / 2) / p, (x / 2) % p;
    assert x / 2 == p * q + r;
    assert x == (2 * p) * q + (2 * r + x % 2);
    RemainderUnique(x, 2 * p, q, 2 * r + x % 2);
  }

  lemma RemainderUnique(x: int, n: int, q: int, r: int)
    requires n > 0 && 0 <= r < n && x == n * q + r
    ensures x % n == r
  {
    var q', r' := x / n, x % n;
    assert n * (q - q') == r' - r;
    MultipleInRange(n, q - q');
  }

  /** The only multiple of n strictly between -n and n is zero. */
  lemma MultipleInRange(n: int, m: int)
    requires n > 0
    ensures -n < n * m < n ==> m == 0
  {
    if m >= 1 {
      assert n * m >= n;
    } else if m <= -1 {
      assert n * m <= -n;
    }
  }

  /** Every power of two up to 2^32 divides 2^32, so a counter that wraps there keeps its remainder. */
  lemma WrapKeepsRemainder(x: nat, k: nat)
    requires k <= 32
    ensures (x % 0x1_0000_0000) % Pow2(k) == x % Pow2(k)
  {
    var n, l := 32, 32 - k;
    var m := PowSplit(k, l);
    WordSize(n);
    RemainderOfMultiple(x, Pow2(k), m);
  }

  lemma WordSize(n: nat)
    requires n == 32
    ensures Pow2(n) == 0x1_0000_0000
  {
    var a := PowSplit(4, 4);
    assert Pow2(4) == 16 && Pow2(8) == 256;
    var b := PowSplit(8, 8);
    var c := PowSplit(16, 16);
  }

  lemma RemainderOfMultiple(x: nat, p: nat, m: nat)
    requires p >= 1 && m >= 1
    ensures p * m >= 1 && (x % (p * m)) % p == x % p
  {
    var q, r := x / (p * m), x % (p * m);
    assert x == (p * m) * q + r;
    assert r == p * (r / p) + r % p;
    assert (p * m) * q == p * (m * q);
    assert x == p * (m * q + r / p) + r % p;
    RemainderUnique(x, p, m * q + r / p, r % p);
  }

  lemma {:induction false} PowSplit(a: nat, b: nat) returns (m: nat)
    ensures m == Pow2(b) && Pow2(a + b) == Pow2(a) * m
    decreases a
  {
    m := Pow2(b);
    if a > 0 {
      var m' := PowSplit(a - 1, b);
      assert Pow2(a + b) == 2 * Pow2(a - 1 + b);
    }
  }

  /** Fewer than n apart, numbers have different remainders. */
  lemma RemaindersDiffer(a: int, b: int, n: int)
    requires n > 0 && a < b < a + n
    ensures a % n != b % n
  {
    var m := b / n - a / n;
    assert n * m == (b - a) - (b % n - a % n);
    MultipleInRange(n, m);
  }
}
