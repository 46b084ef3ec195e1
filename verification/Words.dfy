/** Bytes and 16-bit cells, as the C types `byte` and `word` of cvm/vm.h. */
module Words {
  import opened Bits

  type byte = x: int | 0 <= x < 0x100
  type word = x: int | 0 <= x < 0x1_0000

  const MEMSIZE: nat := 0x1_0000

  /** A full 64K memory. */
  type Mem = m: seq<byte> | |m| == MEMSIZE witness seq(MEMSIZE, _ => 0)

  /** Truncation of an int to 16 bits. */
  function W(x: int): (w: word)
    ensures 0 <= x < 0x1_0000 ==> w == x
  {
    x % 0x1_0000
  }

  /** Truncation of an int to 8 bits. */
  function B(x: int): (b: byte)
    ensures 0 <= x < 0x100 ==> b == x
  {
    x % 0x100
  }

  /** One less, modulo 2^16. */
  function Dec(x: word): word {
    if x == 0 then 0xffff else x - 1
  }

  function Div(a: word, b: word): word
    requires b != 0
  {
    a / b
  }

  function Mod(a: word, b: word): word
    requires b != 0
  {
    a % b
  }

  datatype Option<+T> = None | Some(value: T)

  /** A counted loop makes 65536 passes on a count of 0: it counts down before it tests. */
  function Times(n: word): nat {
    if n == 0 then MEMSIZE else n
  }

  /** One bit of a number, by its weight. */
  predicate Bit(x: int, weight: nat)
    requires weight > 0
  {
    x / weight % 2 == 1
  }

  /** Little-endian cell at an address. The C code has no cell at 0xffff. */
  function WordAt(m: Mem, a: word): word {
    if a == 0xffff then 0 else (m[a] as int) + 0x100 * (m[a + 1] as int)
  }

  /** Memory after storing a cell, low byte first. */
  function SetWord(m: Mem, a: word, v: word): Mem {
    if a == 0xffff then m else m[a := v % 0x100][a + 1 := v / 0x100]
  }

  /** A stored cell is read back, its low byte lies first, and every other byte keeps its
      value. */
  lemma SetWordAt(m: Mem, a: word, v: word)
    requires a != 0xffff
    ensures WordAt(SetWord(m, a, v), a) == v
    ensures SetWord(m, a, v)[a] == v % 0x100 && SetWord(m, a, v)[a + 1] == v / 0x100
    ensures forall b: word :: b != a && b != a + 1 ==> SetWord(m, a, v)[b] == m[b]
  {
  }

  /** n bytes from a on, addresses modulo 2^16. */
  function Window(m: Mem, a: word, n: nat): (s: seq<byte>)
    ensures |s| == n
  {
    seq(n, i requires 0 <= i < n => m[W(a + i)])
  }

  /** Memory with bytes stored from a on, one after another, addresses modulo 2^16. */
  function Overlay(m: Mem, a: word, bs: seq<byte>): Mem
    decreases |bs|
  {
    if bs == [] then m else Overlay(m[a := bs[0]], Add16(a, 1), bs[1..])
  }

  lemma {:induction false} OverlayAppend(m: Mem, a: word, bs: seq<byte>, cs: seq<byte>)
    ensures Overlay(m, a, bs + cs) == Overlay(Overlay(m, a, bs), W(a + |bs|), cs)
    decreases |bs|
  {
    if bs == [] {
      assert bs + cs == cs && W(a + 0) == a;
    } else {
      assert (bs + cs)[0] == bs[0] && (bs + cs)[1..] == bs[1..] + cs;
      OverlayAppend(m[a := bs[0]], Add16(a, 1), bs[1..], cs);
      StepWord(a, |bs| - 1);
    }
  }

  lemma StepWord(a: word, i: nat)
    ensures W(Add16(a, 1) + i) == W(a + (i + 1))
  {
  }

  /** Outside the bytes stored memory is as it was. */
  lemma {:induction false} OverlayElse(m: Mem, a: word, bs: seq<byte>, x: word)
    requires |bs| <= MEMSIZE && Sub16(x, a) >= |bs|
    ensures Overlay(m, a, bs)[x] == m[x]
    decreases |bs|
  {
    if bs != [] {
      BehindWord(a, x, |bs|);
      OverlayElse(m[a := bs[0]], Add16(a, 1), bs[1..], x);
    }
  }

  lemma BehindWord(a: word, x: word, n: nat)
    requires 0 < n <= MEMSIZE && Sub16(x, a) >= n
    ensures x != a && Sub16(x, Add16(a, 1)) >= n - 1
  {
  }

  /** Byte i is stored at a + i. */
  lemma {:induction false} OverlayAt(m: Mem, a: word, bs: seq<byte>, i: nat)
    requires i < |bs| <= MEMSIZE
    ensures Overlay(m, a, bs)[W(a + i)] == bs[i]
    decreases |bs|
  {
    var n := m[a := bs[0]];
    if i == 0 {
      assert W(a + 0) == a;
      FirstWord(a, |bs|);
      OverlayElse(n, Add16(a, 1), bs[1..], a);
    } else {
      StepWord(a, i - 1);
      OverlayAt(n, Add16(a, 1), bs[1..], i - 1);
    }
  }

  lemma FirstWord(a: word, n: nat)
    requires 0 < n <= MEMSIZE
    ensures Sub16(a, Add16(a, 1)) >= n - 1
  {
  }

  function Add16(a: word, b: word): word { W(a + b) }

  function Sub16(a: word, b: word): word { W(a - b) }

  function Mul16(a: word, b: word): word { W(a * b) }

  function Less16(a: word, b: word): word { if a < b then 1 else 0 }

  function And16(a: word, b: word): word {
    Powers();
    Bitwise((x, y) => x && y, a, b, 16)
  }

  function Or16(a: word, b: word): word {
    Powers();
    Bitwise((x, y) => x || y, a, b, 16)
  }

  function Xor16(a: word, b: word): word {
    Powers();
    Bitwise((x, y) => x != y, a, b, 16)
  }

  /** Each bit of the result comes from the two bits in its place. */
  lemma LogicBits(a: word, b: word, k: nat)
    requires k < 16
    ensures NthBit(And16(a, b), k) <==> NthBit(a, k) && NthBit(b, k)
    ensures NthBit(Or16(a, b), k) <==> NthBit(a, k) || NthBit(b, k)
    ensures NthBit(Xor16(a, b), k) <==> NthBit(a, k) != NthBit(b, k)
  {
    hide NthBit;
    Powers();
    BitwiseAt((x, y) => x && y, a, b, 16, k);
    BitwiseAt((x, y) => x || y, a, b, 16, k);
    BitwiseAt((x, y) => x != y, a, b, 16, k);
  }

  /** $ffff AND changes nothing. */
  lemma AndOnes(y: word)
    ensures And16(0xffff, y) == y
  {
    hide NthBit, Pow2;
    Powers();
    forall k: nat | k < 16 ensures NthBit(And16(0xffff, y), k) == NthBit(y, k) {
      LogicBits(0xffff, y, k);
      AllOnes(k);
    }
    hide And16;
    SameBits(And16(0xffff, y), y, 16);
  }

  lemma AllOnes(k: nat)
    requires k < 16
    ensures NthBit(0xffff, k)
  {
    OnesFrom(16, k);
    Powers();
  }

  lemma {:induction false} OnesFrom(n: nat, k: nat)
    requires k < n
    ensures Pow2(n) > 0 && NthBit(Pow2(n) - 1, k)
    decreases k
  {
    Pow2Positive(n - 1);
    var h := Pow2(n - 1) - 1;
    assert Pow2(n) - 1 == 2 * h + 1 && (2 * h + 1) / 2 == h && (2 * h + 1) % 2 == 1;
    if k > 0 { OnesFrom(n - 1, k - 1); }
  }

  /** A branch byte read as a signed displacement. */
  function SignExt(b: byte): int {
    if b > 0x7f then b - 0x100 else b
  }
}
