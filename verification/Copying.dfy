/** Copying memory forward one byte after another, addresses modulo 2^16: what LDIR of
    the Z80 and MOVE of blk.fs do. */
module Copying {
  import opened Bits
  import opened Words

  /** n bytes from hl on copied to de on, one after another, addresses modulo 2^16. */
  function Copy(m: Mem, hl: word, de: word, n: nat): Mem {
    if n == 0 then m
    else
      var c := Copy(m, hl, de, n - 1);
      c[W(de + n - 1) := c[W(hl + n - 1)]]
  }

  /** How far the destination is ahead of the source. */
  function Lead(hl: word, de: word): word {
    Sub16(de, hl)
  }

  /** The byte of the source that byte i of the destination ends up with: the first Lead
      bytes repeat when the destination starts inside the source. */
  function From(hl: word, de: word, i: nat): word {
    W(hl + if Lead(hl, de) == 0 then i else i % Lead(hl, de))
  }

  lemma {:induction false} CopyElse(m: Mem, hl: word, de: word, n: nat, x: word)
    requires n <= MEMSIZE && Sub16(x, de) >= n
    ensures Copy(m, hl, de, n)[x] == m[x]
    decreases n
  {
    if n > 0 { CopyElse(m, hl, de, n - 1, x); }
  }

  /** The bytes of the destination after the copy. */
  lemma {:induction false} CopyAt(m: Mem, hl: word, de: word, n: nat, i: nat)
    requires i < n <= MEMSIZE
    ensures Copy(m, hl, de, n)[W(de + i)] == m[From(hl, de, i)]
    decreases n
  {
    hide Copy, From, W, Lead, Sub16;
    var d := Lead(hl, de);
    CopyLast(m, hl, de, n);
    if i < n - 1 {
      Distinct(de, i, n - 1);
      CopyAt(m, hl, de, n - 1, i);
    } else if d != 0 && d <= i {
      Behind(hl, de, i);
      CopyAt(m, hl, de, n - 1, i - d);
      FromBack(hl, de, i);
    } else {
      Ahead(hl, de, i);
      CopyElse(m, hl, de, i, W(hl + i));
    }
  }

  /** The byte that the last step of a copy writes, and those that it leaves alone. */
  lemma CopyLast(m: Mem, hl: word, de: word, n: nat)
    requires n > 0
    ensures Copy(m, hl, de, n)[W(de + n - 1)] == Copy(m, hl, de, n - 1)[W(hl + n - 1)]
    ensures forall x: word :: x != W(de + n - 1) ==> Copy(m, hl, de, n)[x] == Copy(m, hl, de, n - 1)[x]
  {
    hide W;
  }

  lemma FromBack(hl: word, de: word, i: nat)
    requires 0 < Lead(hl, de) <= i
    ensures From(hl, de, i - Lead(hl, de)) == From(hl, de, i)
  {
    hide W, Lead;
    Wraps(i, Lead(hl, de));
  }

  lemma Distinct(a: word, i: nat, j: nat)
    requires i < j < MEMSIZE
    ensures W(a + i) != W(a + j)
  {
  }

  lemma Behind(hl: word, de: word, i: nat)
    requires 0 < Lead(hl, de) <= i
    ensures W(de + (i - Lead(hl, de))) == W(hl + i)
  {
  }

  lemma Ahead(hl: word, de: word, i: nat)
    requires i < MEMSIZE && (Lead(hl, de) == 0 || i < Lead(hl, de))
    ensures Sub16(W(hl + i), de) >= i && From(hl, de, i) == W(hl + i)
  {
    var d := Lead(hl, de);
    if d == 0 {
      assert hl == de;
    } else {
      Small(i, d);
      assert Sub16(W(hl + i), de) == MEMSIZE + i - d by { Back(hl, de, i); }
    }
  }

  lemma Back(hl: word, de: word, i: nat)
    requires i < Lead(hl, de)
    ensures Sub16(W(hl + i), de) == MEMSIZE + i - Lead(hl, de)
  {
    var d := Lead(hl, de);
    assert d == if de >= hl then de - hl else de - hl + MEMSIZE;
    assert W(hl + i) == if hl + i < MEMSIZE then hl + i else hl + i - MEMSIZE;
  }

  lemma Small(i: nat, d: nat)
    requires i < d
    ensures i % d == i
  {
  }

  lemma {:induction false} Wraps(i: nat, d: nat)
    requires 0 < d <= i
    ensures (i - d) % d == i % d
  {
    var q, r := (i - d) / d, (i - d) % d;
    assert i == d * (q + 1) + r;
    Divided(i, d, q + 1, r);
  }

  /** A block copy: the destination holds what the source held. */
  predicate IsBlockCopy(m: Mem, hl: word, de: word, n: nat) {
    forall i: nat :: i < n ==> Lands(m, hl, de, n, i)
  }

  predicate Lands(m: Mem, hl: word, de: word, n: nat, i: nat) {
    Copy(m, hl, de, n)[W(de + i)] == m[W(hl + i)]
  }

  /** Every memory is copied as a block if and only if the destination does not start
      inside the source, behind its first byte. */
  lemma BlockCopyIff(hl: word, de: word, n: nat)
    requires n <= MEMSIZE
    ensures (forall m: Mem :: IsBlockCopy(m, hl, de, n)) <==> !(0 < Lead(hl, de) < n)
  {
    if 0 < Lead(hl, de) < n {
      NotBlock(hl, de, n);
    } else {
      forall m: Mem ensures IsBlockCopy(m, hl, de, n) {
        forall i: nat | i < n ensures Lands(m, hl, de, n, i) {
          CopyAt(m, hl, de, n, i);
          Ahead(hl, de, i);
        }
      }
    }
  }

  /** A memory that an overlapping run does not copy as a block. */
  lemma NotBlock(hl: word, de: word, n: nat)
    requires 0 < Lead(hl, de) < n <= MEMSIZE
    ensures exists m: Mem :: !IsBlockCopy(m, hl, de, n)
  {
    var d := Lead(hl, de);
    var m: Mem := seq(MEMSIZE, x => if x == hl then 1 else 0);
    CopyAt(m, hl, de, n, d);
    Divided(d, d, 1, 0);
    assert From(hl, de, d) == hl && W(hl + d) != hl;
    assert !Lands(m, hl, de, n, d);
    assert !IsBlockCopy(m, hl, de, n);
  }
}
