/** PARSE and FMTD in their own form: words that walk memory with the A register. */
module NumberWords {
  import opened Words
  import opened Decimals
  import N = Numbers

  class Kernel {
    const mem: array<byte>
    var areg: word

    ghost predicate Valid() {
      mem.Length == MEMSIZE
    }

    constructor (image: Mem)
      ensures Valid() && fresh(mem) && mem[..] == image
    {
      mem := new byte[MEMSIZE](i requires 0 <= i < MEMSIZE => image[i]);
      areg := 0;
      new;
      assert mem[..] == image;
    }

    /** The loop of ~ and of the hexadecimal branch, from A on. */
    method Digits(sl: word, base: word) returns (r: Option<word>)
      requires Valid()
      modifies `areg
      ensures r == N.Loop(mem[..], old(areg), Times(sl), 0, base)
    {
      hide N.DigitOf, Add16, Mul16, W;
      var n: word := 0;
      var left := Times(sl);
      while left > 0
        invariant N.Loop(mem[..], areg, left, n, base) == N.Loop(mem[..], old(areg), Times(sl), 0, base)
      {
        var d := N.DigitOf(mem[areg], base);
        areg := Add16(areg, 1);
        if d.None? { return None; }
        n := W(Mul16(n, base) + d.value);
        left := left - 1;
      }
      return Some(n);
    }

    method Parse(sa: word, sl: word) returns (r: Option<word>)
      requires Valid()
      modifies `areg
      ensures r == N.Parse(mem[..], sa, sl)
    {
      hide N.Loop, Times;
      if mem[sa] == N.QUOTE {
        if sl == 3 && mem[W(sa + 2)] == N.QUOTE { return Some(mem[W(sa + 1)]); }
        return None;
      }
      if mem[sa] == N.DOLLAR {
        areg := Add16(sa, 1);
        r := Digits(Sub16(sl, 1), 16);
        return;
      }
      areg := sa;
      if sl > 1 && mem[areg] == N.MINUS {
        areg := Add16(areg, 1);
        r := Digits(Sub16(sl, 1), 10);
        if r.Some? { r := Some(Sub16(0, r.value)); }
      } else {
        r := Digits(sl, 10);
      }
    }

    /** A- and then AC! */
    method PutBefore(c: byte, ghost m0: Mem, ghost end: word, ghost t: seq<byte>)
      requires Valid() && |t| < 6 && Written(m0, mem[..], end, areg, t)
      modifies `areg, mem
      ensures Written(m0, mem[..], end, areg, [c] + t)
    {
      ghost var m, a := mem[..], areg;
      areg := Dec(areg);
      mem[areg] := c;
      assert mem[..] == m[Dec(a) := c];
      OneMore(m0, m, end, a, t, c);
    }

    /** The loop of FMTD: digits from the last to the first. */
    method PutDigits(n: word, ghost m0: Mem, ghost end: word)
      requires Valid() && |Decimal(n)| <= 5 && Written(m0, mem[..], end, areg, [])
      modifies `areg, mem
      ensures Written(m0, mem[..], end, areg, Decimal(n))
    {
      hide Decimal, Written;
      var u := n;
      ghost var t: seq<byte> := [];
      assert Decimal(u) + [] == Decimal(u);
      while true
        invariant Decimal(n) == Decimal(u) + t
        invariant Written(m0, mem[..], end, areg, t)
        decreases u
      {
        DecimalStep(u, t);
        var q, d := u / 10, u % 10;
        PutBefore(48 + d, m0, end, t);
        t := [48 + d] + t;
        if q == 0 {
          assert [] + t == t;
          break;
        }
        u := q;
      }
    }

    /** FMTx and FMTX: 2 or 4 hexadecimal digits of n, written from a on. Nothing else in
        memory changes. */
    method Fmtx(n: word, a: word, wide: bool) returns (sa: word, sl: word)
      requires Valid()
      modifies `areg, mem
      ensures sa == a && sl == (if wide then 4 else 2) && N.At(mem[..], a, N.HexText(n, sl))
      ensures forall x: word :: Sub16(x, a) >= sl ==> mem[x] == old(mem[x])
    {
      hide N.HexText, Written, W, Sub16;
      sl := if wide then 4 else 2;
      var end := W(a + sl);
      areg := end;
      ghost var m0: Mem := mem[..];
      ghost var t: seq<byte> := [];
      var u, left := n, sl;
      NothingWritten(m0, end);
      assert N.HexText(n, sl) + [] == N.HexText(n, sl);
      while left > 0
        invariant left <= sl && |t| == sl - left
        invariant N.HexText(n, sl) == N.HexText(u, left) + t
        invariant Written(m0, mem[..], end, areg, t)
      {
        HexStep(u, left, t);
        PutBefore(N.HEX[u % 16], m0, end, t);
        t := [N.HEX[u % 16]] + t;
        u := u / 16;
        left := left - 1;
      }
      HexStep(u, 1, t);
      assert [] + t == t;
      sa := areg;
      WrittenEnds(m0, mem[..], end, areg, t);
      StartsAt(a, sl);
    }

    /** FMTD: the text of n, written to end at a + 6. Nothing else in memory changes. */
    method Fmtd(n: word, a: word) returns (sa: word, sl: word)
      requires Valid()
      modifies `areg, mem
      ensures N.At(mem[..], sa, N.Text(n)) && sl == |N.Text(n)| && W(sa + sl) == W(a + 6)
      ensures forall x: word :: Sub16(x, sa) >= sl ==> mem[x] == old(mem[x])
    {
      hide Decimal, Written, W, Sub16;
      N.TextShort(n);
      var end := W(a + 6);
      areg := end;
      ghost var m0: Mem := mem[..];
      var u := if n > 0x7fff then Sub16(0, n) else n;
      Magnitude(n);
      NothingWritten(m0, end);
      PutDigits(u, m0, end);
      if n > 0x7fff { PutBefore(N.MINUS, m0, end, Decimal(u)); }
      sa := areg;
      sl := Sub16(end, sa);
      WrittenEnds(m0, mem[..], end, areg, N.Text(n));
    }
  }

  lemma HexStep(u: nat, k: nat, t: seq<byte>)
    requires k > 0
    ensures N.HexText(u, k) + t == N.HexText(u / 16, k - 1) + ([N.HEX[u % 16]] + t)
    ensures N.HexText(u, 0) == []
  {
  }

  lemma Magnitude(n: word)
    ensures n > 0x7fff ==> Sub16(0, n) == 0x1_0000 - n
  {
  }

  /** The string t ends at the address end, and only its bytes differ from m0. */
  ghost predicate Written(m0: Mem, m: Mem, end: word, a: word, t: seq<byte>) {
    && N.At(m, a, t) && a == W(end - |t|)
    && forall x: word :: Sub16(x, a) >= |t| ==> m[x] == m0[x]
  }

  lemma NothingWritten(m: Mem, end: word)
    ensures Written(m, m, end, end, [])
  {
  }

  lemma OneMore(m0: Mem, m: Mem, end: word, a: word, t: seq<byte>, c: byte)
    requires |t| < 6 && Written(m0, m, end, a, t)
    ensures Written(m0, m[Dec(a) := c], end, Dec(a), [c] + t)
  {
    var n, u := m[Dec(a) := c], [c] + t;
    Earlier(end, |t|);
    forall i | 0 <= i < |u| ensures u[i] == n[W(Dec(a) + i)] {
      if i > 0 {
        assert t[i - 1] == m[W(a + (i - 1))];
        Behind(a, i);
      } else {
        assert W(Dec(a) + 0) == Dec(a);
      }
    }
    WiderFrame(a, |t|);
  }

  lemma WrittenEnds(m0: Mem, m: Mem, end: word, a: word, t: seq<byte>)
    requires |t| <= 6 && Written(m0, m, end, a, t)
    ensures Sub16(end, a) == |t| && W(a + |t|) == end && a == W(end - |t|) && N.At(m, a, t)
    ensures forall x: word :: Sub16(x, a) >= |t| ==> m[x] == m0[x]
  {
    Ends(end, |t|);
  }

  /** Taking off the last digit. */
  lemma DecimalStep(u: nat, t: seq<byte>)
    ensures Decimal(u) + t == (if u / 10 == 0 then [] else Decimal(u / 10)) + ([48 + u % 10] + t)
    ensures u / 10 > 0 ==> |Decimal(u / 10)| > 0
  {
  }

  lemma Behind(a: word, i: nat)
    requires 0 < i < MEMSIZE
    ensures W(Dec(a) + i) == W(a + (i - 1)) && W(Dec(a) + i) != Dec(a)
  {
  }

  lemma Earlier(end: word, k: nat)
    ensures Dec(W(end - k)) == W(end - (k + 1))
  {
  }

  lemma WiderFrame(a: word, k: nat)
    requires k < 8
    ensures forall x: word :: Sub16(x, Dec(a)) >= k + 1 ==> Sub16(x, a) >= k && x != Dec(a)
  {
  }

  lemma Ends(end: word, k: nat)
    requires k < MEMSIZE
    ensures Sub16(end, W(end - k)) == k && W(W(end - k) + k) == end
  {
  }

  lemma StartsAt(a: word, k: nat)
    requires k < MEMSIZE
    ensures W(W(a + k) - k) == a
  {
  }
}
