/** Numbers as rows of bits, bit 0 first. */
module Bits {

  function Pow2(n: nat): nat {
    if n == 0 then 1 else 2 * Pow2(n - 1)
  }

  /** (x >> n) & 1 */
  predicate NthBit(x: nat, n: nat) {
    if n == 0 then x % 2 == 1 else NthBit(x / 2, n - 1)
  }

  /** An operation on each of the n lowest bits. */
  function Bitwise(f: (bool, bool) -> bool, a: nat, b: nat, n: nat): (r: nat)
    ensures r < Pow2(n)
    decreases n
  {
    if n == 0 then 0
    else (if f(a % 2 == 1, b % 2 == 1) then 1 else 0) + 2 * Bitwise(f, a / 2, b / 2, n - 1)
  }

  lemma {:induction false} BitwiseAt(f: (bool, bool) -> bool, a: nat, b: nat, n: nat, k: nat)
    requires k < n
    ensures NthBit(Bitwise(f, a, b, n), k) == f(NthBit(a, k), NthBit(b, k))
    decreases k
  {
    var low, high := f(a % 2 == 1, b % 2 == 1), Bitwise(f, a / 2, b / 2, n - 1);
    assert Bitwise(f, a, b, n) == (if low then 1 else 0) + 2 * high;
    NthBitStep(low, high, k);
    NthBitHalf(a, k);
    NthBitHalf(b, k);
    hide NthBit, Bitwise;
    if k > 0 { BitwiseAt(f, a / 2, b / 2, n - 1, k - 1); }
  }

  lemma NthBitStep(low: bool, high: nat, k: nat)
    ensures NthBit((if low then 1 else 0) + 2 * high, k) == if k == 0 then low else NthBit(high, k - 1)
  {
    var x := (if low then 1 else 0) + 2 * high;
    assert x % 2 == (if low then 1 else 0) && x / 2 == high;
  }

  lemma NthBitHalf(x: nat, k: nat)
    ensures NthBit(x, k) == if k == 0 then x % 2 == 1 else NthBit(x / 2, k - 1)
  {
  }

  lemma {:induction false} Pow2Positive(n: nat)
    ensures Pow2(n) > 0
    decreases n
  {
    if n > 0 { Pow2Positive(n - 1); }
  }

  lemma Powers()
    ensures Pow2(2) == 4 && Pow2(4) == 16 && Pow2(6) == 64 && Pow2(8) == 256 && Pow2(10) == 1024
    ensures Pow2(16) == 0x1_0000
  {
    assert Pow2(2) == 4;
    assert Pow2(4) == 16;
    assert Pow2(6) == 64;
    assert Pow2(8) == 256;
    assert Pow2(10) == 1024;
    assert Pow2(12) == 4096;
    assert Pow2(14) == 16384;
  }

  /** Bit n is the remainder by two of the quotient by its weight. */
  lemma {:induction false} NthBitIs(x: nat, n: nat)
    ensures Pow2(n) > 0 && (NthBit(x, n) <==> x / Pow2(n) % 2 == 1)
    decreases n
  {
    Pow2Positive(n);
    if n > 0 {
      NthBitIs(x / 2, n - 1);
      DivideTwice(x, Pow2(n - 1));
    }
  }

  lemma DivideTwice(x: nat, p: nat)
    requires p > 0
    ensures x / 2 / p == x / (2 * p)
  {
    var q, r := x / 2 / p, x / 2 % p;
    var s := x % 2;
    assert x / 2 == p * q + r;
    assert x == 2 * (x / 2) + s == 2 * p * q + (2 * r + s);
    Divided(x, 2 * p, q, 2 * r + s);
  }

  /** Quotient and remainder are the only ones. */
  lemma Divided(x: nat, d: nat, q: int, r: nat)
    requires d > 0 && x == d * q + r && r < d
    ensures x / d == q && x % d == r
  {
    var q', r' := x / d, x % d;
    assert x == d * q' + r';
    Gap(d, q, q');
    Gap(d, q', q);
  }

  lemma Gap(d: nat, a: int, b: int)
    ensures a < b ==> d * b >= d * a + d
  {
    if a < b {
      var k: nat := b - a - 1;
      assert d * k >= 0;
      assert d * b == d * (a + (1 + k)) == d * a + d * (1 + k);
    }
  }

  /** The bits of two fields side by side. */
  lemma {:induction false} Concat(q: nat, p: nat, z: nat, n: nat)
    requires z < Pow2(p)
    ensures NthBit(q * Pow2(p) + z, n) == if n < p then NthBit(z, n) else NthBit(q, n - p)
    decreases p
  {
    if p > 0 {
      var h := q * Pow2(p - 1);
      assert q * Pow2(p) + z == 2 * h + z;
      assert (2 * h + z) / 2 == h + z / 2 && (2 * h + z) % 2 == z % 2;
      if n > 0 { Concat(q, p - 1, z / 2, n - 1); }
    }
  }

  /** Numbers of n bits are equal if their bits are. */
  lemma {:induction false} SameBits(x: nat, y: nat, n: nat)
    requires x < Pow2(n) && y < Pow2(n)
    requires forall k: nat :: k < n ==> NthBit(x, k) == NthBit(y, k)
    ensures x == y
    decreases n
  {
    if n > 0 {
      assert NthBit(x, 0) == NthBit(y, 0);
      forall k: nat | k < n - 1 ensures NthBit(x / 2, k) == NthBit(y / 2, k) {
        assert NthBit(x, k + 1) == NthBit(y, k + 1);
      }
      SameBits(x / 2, y / 2, n - 1);
    }
  }
}
