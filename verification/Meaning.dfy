/** What every native word of the source language answers, said in numbers. Machine and
    source language share the arithmetic of Words; here it is pinned down. */
module Meaning {
  import opened Bits
  import opened Words
  import opened VmSpec
  import opened Forth

  /** Stacks and frames underneath hold 124 cells at most. */
  predicate Room(ps: seq<word>, rs: seq<word>, depth: nat) {
    |ps| + |rs| + depth <= 124
  }

  /** Word p turns these stacks and this memory into those, if both fit, and otherwise
      has no meaning. */
  ghost predicate Gives(p: Prim, e: World, depth: nat, ps: seq<word>, rs: seq<word>, m: Mem,
                        ps': seq<word>, rs': seq<word>, m': Mem) {
    EvalPrim(p, Cfg(ps, rs, m), e, depth) ==
    if Room(ps, rs, depth) && Room(ps', rs', depth) then Some(Cfg(ps', rs', m')) else None
  }

  /** The effect alone, without the checks around it. */
  ghost predicate Acts(p: Prim, e: World, depth: nat, ps: seq<word>, rs: seq<word>, m: Mem,
                       ps': seq<word>, rs': seq<word>, m': Mem) {
    && Arity(p) <= |ps| && (NeedsFrame(p) ==> rs != [])
    && (|ps| + |rs| + depth <= CAP ==> PrimEffect(p, Cfg(ps, rs, m), e, depth) == Some(Cfg(ps', rs', m')))
  }

  lemma ActsGives(p: Prim, e: World, depth: nat, ps: seq<word>, rs: seq<word>, m: Mem,
                  ps': seq<word>, rs': seq<word>, m': Mem)
    requires Acts(p, e, depth, ps, rs, m, ps', rs', m')
    ensures Gives(p, e, depth, ps, rs, m, ps', rs', m')
  {
    hide PrimEffect, Arity, NeedsFrame;
  }

  /** A word of two operands. */
  lemma TwoToOne(p: Prim, e: World, depth: nat, below: seq<word>, a: word, b: word, rs: seq<word>, m: Mem)
    requires IsAlu(p)
    ensures Gives(p, e, depth, below + [a, b], rs, m, below + [Alu(p, a, b)], rs, m)
  {
    hide Alu;
    Parts(below, a, b);
    assert Acts(p, e, depth, below + [a, b], rs, m, below + [Alu(p, a, b)], rs, m);
    hide PrimEffect, Acts, Gives;
    ActsGives(p, e, depth, below + [a, b], rs, m, below + [Alu(p, a, b)], rs, m);
  }

  lemma Parts(below: seq<word>, a: word, b: word)
    ensures var ps := below + [a, b];
            |ps| == |below| + 2 && ps[|ps| - 1] == b && ps[|ps| - 2] == a && ps[..|ps| - 2] == below
  {
  }

  /** + and - wrap around; * is the product modulo 2^16. */
  lemma Sums(e: World, depth: nat, below: seq<word>, a: word, b: word, rs: seq<word>, m: Mem)
    ensures Gives(PLUS, e, depth, below + [a, b], rs, m,
                  below + [if a + b < 0x1_0000 then a + b else a + b - 0x1_0000], rs, m)
    ensures Gives(MINUS, e, depth, below + [a, b], rs, m,
                  below + [if a >= b then a - b else a - b + 0x1_0000], rs, m)
    ensures Gives(TIMES, e, depth, below + [a, b], rs, m, below + [(a * b) % 0x1_0000], rs, m)
  {
    hide Gives;
    TwoToOne(PLUS, e, depth, below, a, b, rs, m);
    TwoToOne(MINUS, e, depth, below, a, b, rs, m);
    TwoToOne(TIMES, e, depth, below, a, b, rs, m);
  }

  /** < leaves 1 if and only if the left operand is below the right one. */
  lemma Comparison(e: World, depth: nat, below: seq<word>, a: word, b: word, rs: seq<word>, m: Mem)
    ensures Gives(LESS, e, depth, below + [a, b], rs, m, below + [if a < b then 1 else 0], rs, m)
  {
    hide Gives;
    TwoToOne(LESS, e, depth, below, a, b, rs, m);
  }

  /** AND, OR and XOR work on each of the 16 bits. */
  lemma Logic(e: World, depth: nat, below: seq<word>, a: word, b: word, rs: seq<word>, m: Mem)
    returns (x: word, y: word, z: word)
    ensures Gives(AND, e, depth, below + [a, b], rs, m, below + [x], rs, m)
    ensures Gives(OR, e, depth, below + [a, b], rs, m, below + [y], rs, m)
    ensures Gives(XOR, e, depth, below + [a, b], rs, m, below + [z], rs, m)
    ensures forall k: nat :: k < 16 ==> Bitwide(a, b, x, y, z, k)
  {
    x, y, z := And16(a, b), Or16(a, b), Xor16(a, b);
    hide Gives, And16, Or16, Xor16;
    TwoToOne(AND, e, depth, below, a, b, rs, m);
    TwoToOne(OR, e, depth, below, a, b, rs, m);
    TwoToOne(XOR, e, depth, below, a, b, rs, m);
    forall k: nat | k < 16 ensures Bitwide(a, b, x, y, z, k) {
      LogicBits(a, b, k);
      Pow2Positive(k);
      NthBitIs(a, k);
      NthBitIs(b, k);
      NthBitIs(x, k);
      NthBitIs(y, k);
      NthBitIs(z, k);
    }
  }

  /** Bit k of the three results. */
  predicate Bitwide(a: word, b: word, x: word, y: word, z: word, k: nat) {
    Pow2Positive(k);
    var w := Pow2(k);
    && (Bit(x, w) <==> Bit(a, w) && Bit(b, w))
    && (Bit(y, w) <==> Bit(a, w) || Bit(b, w))
    && (Bit(z, w) <==> Bit(a, w) != Bit(b, w))
  }

  /** /MOD leaves the remainder under the quotient; a zero divisor has no meaning. */
  lemma Division(e: World, depth: nat, below: seq<word>, a: word, b: word, rs: seq<word>, m: Mem)
    returns (r: word, q: word)
    ensures b == 0 ==> EvalPrim(DIVMOD, Cfg(below + [a, b], rs, m), e, depth) == None
    ensures b != 0 ==> Gives(DIVMOD, e, depth, below + [a, b], rs, m, below + [r, q], rs, m)
    ensures b != 0 ==> q * b + r == a && r < b
  {
    Parts(below, a, b);
    r, q := 0, 0;
    if b != 0 {
      r, q := Mod(a, b), Div(a, b);
      assert Acts(DIVMOD, e, depth, below + [a, b], rs, m, below + [r, q], rs, m);
      hide PrimEffect, Acts, Gives;
      ActsGives(DIVMOD, e, depth, below + [a, b], rs, m, below + [r, q], rs, m);
    }
  }

  lemma LastParts(below: seq<word>, a: word)
    ensures var ps := below + [a]; |ps| == |below| + 1 && ps[|ps| - 1] == a && ps[..|ps| - 1] == below
    ensures below + [] == below && below[..|below|] == below
  {
  }

  /** Words that rearrange the parameter stack. */
  lemma Shuffles(e: World, depth: nat, below: seq<word>, a: word, b: word, c: word, rs: seq<word>, m: Mem)
    ensures Gives(SWAP, e, depth, below + [a, b], rs, m, below + [b, a], rs, m)
    ensures Gives(OVER, e, depth, below + [a, b], rs, m, below + [a, b, a], rs, m)
    ensures Gives(ROT, e, depth, below + [a, b, c], rs, m, below + [b, c, a], rs, m)
  {
    Parts(below, a, b);
    var ps := below + [a, b];
    assert ps[..|ps|] == ps && ps + [a] == below + [a, b, a];
    var qs := below + [a, b, c];
    assert qs[|qs| - 1] == c && qs[|qs| - 2] == b && qs[|qs| - 3] == a && qs[..|qs| - 3] == below;
    assert Acts(SWAP, e, depth, ps, rs, m, below + [b, a], rs, m);
    assert Acts(OVER, e, depth, ps, rs, m, below + [a, b, a], rs, m);
    assert Acts(ROT, e, depth, qs, rs, m, below + [b, c, a], rs, m);
    hide PrimEffect, Acts, Gives;
    ActsGives(SWAP, e, depth, ps, rs, m, below + [b, a], rs, m);
    ActsGives(OVER, e, depth, ps, rs, m, below + [a, b, a], rs, m);
    ActsGives(ROT, e, depth, qs, rs, m, below + [b, c, a], rs, m);
  }

  /** Words on the top of the parameter stack; NOT leaves 1 for zero and 0 for the rest. */
  lemma Tops(e: World, depth: nat, below: seq<word>, a: word, rs: seq<word>, m: Mem)
    ensures Gives(DUP, e, depth, below + [a], rs, m, below + [a, a], rs, m)
    ensures Gives(DROP, e, depth, below + [a], rs, m, below, rs, m)
    ensures Gives(QDUP, e, depth, below + [a], rs, m, below + if a == 0 then [a] else [a, a], rs, m)
    ensures Gives(NOT, e, depth, below + [a], rs, m, below + [if a == 0 then 1 else 0], rs, m)
  {
    LastParts(below, a);
    var ps := below + [a];
    var twice := below + if a == 0 then [a] else [a, a];
    var not := below + [if a == 0 then 1 else 0];
    assert ps[..|ps|] == ps && ps + [a] == below + [a, a];
    assert Acts(DUP, e, depth, ps, rs, m, below + [a, a], rs, m);
    assert Acts(DROP, e, depth, ps, rs, m, below, rs, m);
    assert Acts(QDUP, e, depth, ps, rs, m, twice, rs, m);
    assert Acts(NOT, e, depth, ps, rs, m, not, rs, m);
    hide PrimEffect, Acts, Gives;
    ActsGives(DUP, e, depth, ps, rs, m, below + [a, a], rs, m);
    ActsGives(DROP, e, depth, ps, rs, m, below, rs, m);
    ActsGives(QDUP, e, depth, ps, rs, m, twice, rs, m);
    ActsGives(NOT, e, depth, ps, rs, m, not, rs, m);
  }

  /** Words between the two stacks. */
  lemma Frames(e: World, depth: nat, ps: seq<word>, a: word, under: seq<word>, m: Mem)
    ensures Gives(TOR, e, depth, ps + [a], under, m, ps, under + [a], m)
    ensures Gives(FROMR, e, depth, ps, under + [a], m, ps + [a], under, m)
    ensures Gives(RFETCH, e, depth, ps, under + [a], m, ps + [a], under + [a], m)
    ensures Gives(RDROP, e, depth, ps, under + [a], m, ps, under, m)
  {
    LastParts(ps, a);
    LastParts(under, a);
    var rs := under + [a];
    assert Acts(TOR, e, depth, ps + [a], under, m, ps, rs, m);
    assert Acts(FROMR, e, depth, ps, rs, m, ps + [a], under, m);
    assert Acts(RFETCH, e, depth, ps, rs, m, ps + [a], rs, m);
    assert Acts(RDROP, e, depth, ps, rs, m, ps, under, m);
    hide PrimEffect, Acts, Gives;
    ActsGives(TOR, e, depth, ps + [a], under, m, ps, rs, m);
    ActsGives(FROMR, e, depth, ps, rs, m, ps + [a], under, m);
    ActsGives(RFETCH, e, depth, ps, rs, m, ps + [a], rs, m);
    ActsGives(RDROP, e, depth, ps, rs, m, ps, under, m);
  }

  /** The depths of the two stacks, as far as the running word's frame and those under it. */
  lemma Depths(e: World, depth: nat, ps: seq<word>, rs: seq<word>, m: Mem)
    ensures Room(ps, rs, depth) ==>
            && Gives(SCNT, e, depth, ps, rs, m, ps + [|ps|], rs, m)
            && Gives(RCNT, e, depth, ps, rs, m, ps + [depth + |rs|], rs, m)
  {
    assert ps[..|ps|] == ps;
    if Room(ps, rs, depth) {
      assert Acts(SCNT, e, depth, ps, rs, m, ps + [|ps|], rs, m);
      assert Acts(RCNT, e, depth, ps, rs, m, ps + [depth + |rs|], rs, m);
      hide PrimEffect, Acts, Gives;
      ActsGives(SCNT, e, depth, ps, rs, m, ps + [|ps|], rs, m);
      ActsGives(RCNT, e, depth, ps, rs, m, ps + [depth + |rs|], rs, m);
    }
  }

  /** A cell in memory, low byte first. */
  function Cell(m: Mem, a: nat): word
    requires a < 0xffff
  {
    (m[a] as int) + 0x100 * (m[a + 1] as int)
  }

  /** @ fetches a little-endian cell from below the stacks. */
  lemma CellFetch(e: World, depth: nat, below: seq<word>, a: word, rs: seq<word>, m: Mem)
    ensures if a + 2 <= 0xff00 then Gives(FETCH, e, depth, below + [a], rs, m, below + [Cell(m, a)], rs, m)
            else EvalPrim(FETCH, Cfg(below + [a], rs, m), e, depth) == None
  {
    LastParts(below, a);
    var ps := below + [a];
    if a + 2 <= 0xff00 {
      assert Acts(FETCH, e, depth, ps, rs, m, below + [Cell(m, a)], rs, m);
      hide PrimEffect, Acts, Gives;
      ActsGives(FETCH, e, depth, ps, rs, m, below + [Cell(m, a)], rs, m);
    }
  }

  /** C@ fetches a byte from below the stacks. */
  lemma ByteFetch(e: World, depth: nat, below: seq<word>, a: word, rs: seq<word>, m: Mem)
    ensures if a < 0xff00 then Gives(CFETCH, e, depth, below + [a], rs, m, below + [m[a]], rs, m)
            else EvalPrim(CFETCH, Cfg(below + [a], rs, m), e, depth) == None
  {
    LastParts(below, a);
    var ps := below + [a];
    if a < 0xff00 {
      assert Acts(CFETCH, e, depth, ps, rs, m, below + [m[a]], rs, m);
      hide PrimEffect, Acts, Gives;
      ActsGives(CFETCH, e, depth, ps, rs, m, below + [m[a]], rs, m);
    }
  }

  /** ! stores the low byte first and C! the low byte only, below the stacks and outside the
      code. */
  lemma Stores(e: World, depth: nat, below: seq<word>, v: word, a: word, rs: seq<word>, m: Mem)
    ensures if a + 2 <= 0xff00 && (a + 2 <= e.lo || e.hi <= a)
            then Gives(STORE, e, depth, below + [v, a], rs, m, below, rs, m[a := v % 0x100][a + 1 := v / 0x100])
            else EvalPrim(STORE, Cfg(below + [v, a], rs, m), e, depth) == None
    ensures if a < 0xff00 && (a < e.lo || e.hi <= a)
            then Gives(CSTORE, e, depth, below + [v, a], rs, m, below, rs, m[a := v % 0x100])
            else EvalPrim(CSTORE, Cfg(below + [v, a], rs, m), e, depth) == None
  {
    Parts(below, v, a);
    LastParts(below, v);
    var ps := below + [v, a];
    hide Gives;
    if a + 2 <= 0xff00 && (a + 2 <= e.lo || e.hi <= a) {
      var n := m[a := v % 0x100][a + 1 := v / 0x100];
      assert Acts(STORE, e, depth, ps, rs, m, below, rs, n);
      ActsGives(STORE, e, depth, ps, rs, m, below, rs, n);
    }
    if a < 0xff00 && (a < e.lo || e.hi <= a) {
      assert Acts(CSTORE, e, depth, ps, rs, m, below, rs, m[a := v % 0x100]);
      ActsGives(CSTORE, e, depth, ps, rs, m, below, rs, m[a := v % 0x100]);
    }
  }

  /** A word that finds too little on a stack has no meaning; apart from that and from what
      is said above, every word has one. */
  lemma Underflow(p: Prim, e: World, depth: nat, ps: seq<word>, rs: seq<word>, m: Mem)
    ensures |ps| < (if p == ROT then 3 else if p in TWO then 2 else if p in ONE then 1 else 0)
            || (rs == [] && p in {FROMR, RFETCH, RDROP}) ==>
            EvalPrim(p, Cfg(ps, rs, m), e, depth) == None
  {
    hide PrimEffect;
  }

  const ONE: set<Prim> := {DUP, DROP, QDUP, NOT, TOR, FETCH, CFETCH}
  const TWO: set<Prim> := {SWAP, OVER, PLUS, MINUS, TIMES, DIVMOD, AND, OR, XOR, LESS, STORE, CSTORE}
}
