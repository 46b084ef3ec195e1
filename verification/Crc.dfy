/** The CRC of the SD card in its three forms: bit by bit in a wide register
    (tools/csum.c), by shifts of one byte (emul/z80/sdc.c), and the Forth CRC16. */
module Crc {
  import opened Words
  import opened CrcBits

  function TurnLoop(c: bv16, i: nat): bv16 {
    if i == 0 then c else Turn(TurnLoop(c, i - 1))
  }

  /** CRC16 of blk.fs. */
  function Turns(c: bv16, data: bv8): bv16 {
    TurnLoop(Xor(c, Up(data)), 8)
  }

  function WideLoop(c: bv32, i: nat): bv32 {
    if i == 0 then c else WideTurn(WideLoop(c, i - 1))
  }

  function WideTurns(c: bv32, data: bv8): bv32 {
    WideLoop(WideIn(c, data), 8)
  }

  function FoldShift(c: bv16, s: seq<bv8>): bv16
    decreases |s|
  {
    if s == [] then c else FoldShift(Shift(c, s[0]), s[1..])
  }

  function FoldTurns(c: bv16, s: seq<bv8>): bv16
    decreases |s|
  {
    if s == [] then c else FoldTurns(Turns(c, s[0]), s[1..])
  }

  function FoldWide(c: bv32, s: seq<bv8>): bv32
    decreases |s|
  {
    if s == [] then c else FoldWide(WideTurns(c, s[0]), s[1..])
  }

  function Total(s: seq<bv8>): nat {
    if s == [] then 0 else s[0] as nat + Total(s[1..])
  }

  /** A C `unsigned int`. */
  function Unsigned(x: nat): (u: nat) {
    x % 0x1_0000_0000
  }

  lemma UnsignedAdd(x: nat, y: nat)
    ensures Unsigned(Unsigned(x) + y) == Unsigned(x + y) && Unsigned(Unsigned(x)) == Unsigned(x)
    ensures Unsigned(0) == 0
  {
  }

  /** The CRC register after one more byte. */
  method NextByte(c: bv32, data: bv8) returns (crc: bv32)
    ensures crc == WideTurns(c, data)
  {
    crc := WideByte(WideIn(c, data));
  }

  /** The loop of csum.c over its input: size, sum and CRC register. */
  method Checksum(input: seq<bv8>) returns (sz: nat, sum: nat, crc: bv32)
    ensures sz == Unsigned(|input|) && sum == Unsigned(Total(input)) && crc == FoldWide(0, input)
    ensures Low(crc) == FoldShift(0, input)
  {
    hide Unsigned, WideTurns;
    sz, sum, crc := 0, 0, 0;
    var i := 0;
    assert input[0..] == input && Unsigned(0) == 0 by { UnsignedAdd(0, 0); }
    while i < |input|
      invariant i <= |input| && sz == Unsigned(i)
      invariant Unsigned(sum + Total(input[i..])) == Unsigned(Total(input)) && sum == Unsigned(sum)
      invariant FoldWide(crc, input[i..]) == FoldWide(0, input)
    {
      var c := input[i];
      assert input[i..][0] == c && input[i..][1..] == input[i + 1..];
      UnsignedAdd(sum + c as nat, Total(input[i + 1..]));
      UnsignedAdd(i, 1);
      sum := Unsigned(sum + c as nat);
      crc := NextByte(crc, c);
      sz := Unsigned(sz + 1);
      i := i + 1;
    }
    assert Total(input[i..]) == 0;
    FormsAgree(0, input);
  }

  /** The inner loop of csum.c. */
  method WideByte(c: bv32) returns (crc: bv32)
    ensures crc == WideLoop(c, 8)
  {
    crc := c;
    var i := 0;
    while i < 8
      invariant 0 <= i <= 8 && crc == WideLoop(c, i)
    {
      crc := WideStep(crc);
      i := i + 1;
    }
  }

  /** CRC16 as the Forth word runs it: 8 >R BEGIN .. NEXT. */
  method Crc16(c: bv16, n: bv8) returns (r: bv16)
    ensures r == Turns(c, n) == Shift(c, n)
  {
    hide Shift;
    ShiftIsTurns(c, n);
    r := Xor(c, Up(n));
    ghost var c0 := r;
    var left := 8;
    while left > 0
      invariant 0 <= left <= 8 && r == TurnLoop(c0, 8 - left)
    {
      r := TurnStep(r);
      left := left - 1;
    }
  }

  // ----- the three forms agree -----

  lemma {:induction false} TurnLoopLinear(a: bv16, b: bv16, i: nat)
    ensures TurnLoop(Xor(a, b), i) == Xor(TurnLoop(a, i), TurnLoop(b, i))
  {
    hide Turn, Xor;
    if i > 0 {
      TurnLoopLinear(a, b, i - 1);
      TurnXor(TurnLoop(a, i - 1), TurnLoop(b, i - 1));
    }
  }

  lemma TurnEight(c: bv16)
    ensures TurnLoop(c, 8) == Turn(Turn(Turn(Turn(Turn(Turn(Turn(Turn(c))))))))
  {
    hide Turn;
    assert TurnLoop(c, 1) == Turn(c);
    assert TurnLoop(c, 2) == Turn(Turn(c));
    assert TurnLoop(c, 3) == Turn(TurnLoop(c, 2));
    assert TurnLoop(c, 4) == Turn(TurnLoop(c, 3));
    assert TurnLoop(c, 5) == Turn(TurnLoop(c, 4));
    assert TurnLoop(c, 6) == Turn(TurnLoop(c, 5));
    assert TurnLoop(c, 7) == Turn(TurnLoop(c, 6));
  }

  /** The shifts of sdc.c are the eight turns of the Forth word. */
  lemma ShiftIsTurns(c: bv16, data: bv8)
    ensures Shift(c, data) == Turns(c, data)
  {
    hide TurnLoop, Spread, Turn, Xor, Xor8, Hi, Lo, Up, Left;
    var lo := Lo(c) as bv16;
    var x := Xor8(Hi(c), data);
    SplitBytes(c, data);
    TurnLoopLinear(Up(x), lo, 8);
    TurnEight(Up(x));
    HighByteTurns(x);
    TurnEight(lo);
    LowByteTurns(Lo(c));
    UpLo(c);
    XorSwap(Spread(x), Left(c));
  }

  lemma {:induction false} WideLoopLow(c: bv32, i: nat)
    ensures Low(WideLoop(c, i)) == TurnLoop(Low(c), i)
  {
    hide Low, WideTurn, Turn;
    if i > 0 {
      WideLoopLow(c, i - 1);
      WideTurnLow(WideLoop(c, i - 1));
    }
  }

  lemma WideIsTurns(c: bv32, data: bv8)
    ensures Low(WideTurns(c, data)) == Turns(Low(c), data)
  {
    hide TurnLoop, WideLoop, Low, WideIn, Xor, Up;
    WideLoopLow(WideIn(c, data), 8);
    WideInLow(c, data);
  }

  /** On every byte sequence and from every start the three forms give the same CRC. */
  lemma {:induction false} FormsAgree(c: bv32, s: seq<bv8>)
    ensures Low(FoldWide(c, s)) == FoldTurns(Low(c), s) == FoldShift(Low(c), s)
    decreases |s|
  {
    hide Low, WideTurns, Turns, Shift;
    if s != [] {
      WideIsTurns(c, s[0]);
      ShiftIsTurns(Low(c), s[0]);
      FormsAgree(WideTurns(c, s[0]), s[1..]);
    }
  }

  // ----- what the CRC detects -----

  lemma {:induction false} FoldAppend(c: bv16, a: seq<bv8>, b: seq<bv8>)
    ensures FoldShift(c, a + b) == FoldShift(FoldShift(c, a), b)
    decreases |a|
  {
    hide Shift;
    if a == [] {
      assert a + b == b;
    } else {
      assert (a + b)[1..] == a[1..] + b;
      FoldAppend(Shift(c, a[0]), a[1..], b);
    }
  }

  lemma FoldTwo(c: bv16, x: bv8, y: bv8)
    ensures FoldShift(c, [x, y]) == Shift(Shift(c, x), y)
  {
    hide Shift;
    assert [x, y][1..] == [y] && [y][1..] == [];
    assert FoldShift(c, [x, y]) == FoldShift(Shift(c, x), [y]);
    assert FoldShift(Shift(c, x), [y]) == FoldShift(Shift(Shift(c, x), y), []);
  }

  /** A message followed by its CRC, high byte first, folds to zero. */
  lemma ResidueIsZero(msg: seq<bv8>)
    ensures var c := FoldShift(0, msg); FoldShift(0, msg + [Hi(c), Lo(c)]) == 0
  {
    hide Shift;
    var c := FoldShift(0, msg);
    FoldAppend(0, msg, [Hi(c), Lo(c)]);
    FoldTwo(c, Hi(c), Lo(c));
    OwnBytes(c);
  }

  /** Two registers give the same CRC on two bytes just when the low bytes agree and the
      high bytes differ as the data do. */
  lemma ShiftEqual(a: bv16, b: bv16, x: bv8, y: bv8)
    ensures Shift(a, x) == Shift(b, y) <==> Lo(a) == Lo(b) && Xor8(Hi(a), x) == Xor8(Hi(b), y)
  {
    hide Spread, Xor, Xor8, Hi, Lo, Left;
    var s, t := Spread(Xor8(Hi(a), x)), Spread(Xor8(Hi(b), y));
    SpreadInjective(Xor8(Hi(a), x), Xor8(Hi(b), y));
    LoLeft(a, s);
    LoLeft(b, t);
    LeftEqual(a, b);
    XorCancel(Left(a), Left(b), s);
  }

  /** The low byte of the CRC tells one data byte from another. */
  lemma FirstByteShows(c: bv16, x: bv8, y: bv8)
    ensures Lo(Shift(c, x)) == Lo(Shift(c, y)) <==> x == y
  {
    hide Spread, Xor, Xor8, Hi, Lo, Left;
    SpreadInjective(Xor8(Hi(c), x), Xor8(Hi(c), y));
    LoLeft(c, Spread(Xor8(Hi(c), x)));
    LoLeft(c, Spread(Xor8(Hi(c), y)));
    Xor8Equal(Hi(c), x, y);
  }

  lemma TwoBytesInjective(c: bv16, x1: bv8, x2: bv8, y1: bv8, y2: bv8)
    ensures Shift(Shift(c, x1), x2) == Shift(Shift(c, y1), y2) <==> x1 == y1 && x2 == y2
  {
    hide Shift, Xor8, Hi, Lo;
    var u, v := Shift(c, x1), Shift(c, y1);
    ShiftEqual(u, v, x2, y2);
    FirstByteShows(c, x1, y1);
    Xor8Equal(Hi(u), x2, y2);
  }

  lemma SameByteInjective(a: bv16, b: bv16, x: bv8)
    ensures Shift(a, x) == Shift(b, x) <==> a == b
  {
    hide Shift, Xor8, Hi, Lo;
    ShiftEqual(a, b, x, x);
    Xor8Equal(x, Hi(a), Hi(b));
    HiLoEqual(a, b);
  }

  lemma {:induction false} FoldInjective(a: bv16, b: bv16, s: seq<bv8>)
    ensures FoldShift(a, s) == FoldShift(b, s) <==> a == b
    decreases |s|
  {
    hide Shift;
    if s != [] {
      SameByteInjective(a, b, s[0]);
      FoldInjective(Shift(a, s[0]), Shift(b, s[0]), s[1..]);
    }
  }

  /** Messages that can differ only in two adjacent bytes have equal CRCs exactly when
      they are equal, so no error burst of up to two bytes goes unnoticed. */
  lemma BurstDetected(start: bv16, before: seq<bv8>, x1: bv8, x2: bv8, y1: bv8, y2: bv8, after: seq<bv8>)
    ensures FoldShift(start, before + [x1, x2] + after) == FoldShift(start, before + [y1, y2] + after)
            <==> x1 == y1 && x2 == y2
  {
    hide Shift;
    var c := FoldShift(start, before);
    FoldAppend(start, before + [x1, x2], after);
    FoldAppend(start, before, [x1, x2]);
    FoldTwo(c, x1, x2);
    FoldAppend(start, before + [y1, y2], after);
    FoldAppend(start, before, [y1, y2]);
    FoldTwo(c, y1, y2);
    FoldInjective(Shift(Shift(c, x1), x2), Shift(Shift(c, y1), y2), after);
    TwoBytesInjective(c, x1, x2, y1, y2);
  }

  /** The check value of this CRC: "123456789" gives $31c3. */
  lemma CheckValue()
    ensures FoldTurns(0, [0x31, 0x32, 0x33, 0x34, 0x35, 0x36, 0x37, 0x38, 0x39]) == 0x31c3
  {
    Digits1To3();
    Digits4To6();
    Digits7To9();
    hide Turns;
    FoldNext(0x0, [0x31, 0x32, 0x33, 0x34, 0x35, 0x36, 0x37, 0x38, 0x39],
             [0x32, 0x33, 0x34, 0x35, 0x36, 0x37, 0x38, 0x39], 0x2672);
    FoldNext(0x2672, [0x32, 0x33, 0x34, 0x35, 0x36, 0x37, 0x38, 0x39],
             [0x33, 0x34, 0x35, 0x36, 0x37, 0x38, 0x39], 0x20b5);
    FoldNext(0x20b5, [0x33, 0x34, 0x35, 0x36, 0x37, 0x38, 0x39], [0x34, 0x35, 0x36, 0x37, 0x38, 0x39], 0x9752);
    FoldNext(0x9752, [0x34, 0x35, 0x36, 0x37, 0x38, 0x39], [0x35, 0x36, 0x37, 0x38, 0x39], 0xd789);
    FoldNext(0xd789, [0x35, 0x36, 0x37, 0x38, 0x39], [0x36, 0x37, 0x38, 0x39], 0x546c);
    FoldNext(0x546c, [0x36, 0x37, 0x38, 0x39], [0x37, 0x38, 0x39], 0x20e4);
    FoldNext(0x20e4, [0x37, 0x38, 0x39], [0x38, 0x39], 0x86d6);
    FoldNext(0x86d6, [0x38, 0x39], [0x39], 0x9015);
    FoldNext(0x9015, [0x39], [], 0x31c3);
  }

  lemma Digits1To3()
    ensures Turns(0, 0x31) == 0x2672 && Turns(0x2672, 0x32) == 0x20b5 && Turns(0x20b5, 0x33) == 0x9752
  {
    EightTurns(0, 0x31);
    EightTurns(0x2672, 0x32);
    EightTurns(0x20b5, 0x33);
  }

  lemma Digits4To6()
    ensures Turns(0x9752, 0x34) == 0xd789 && Turns(0xd789, 0x35) == 0x546c && Turns(0x546c, 0x36) == 0x20e4
  {
    EightTurns(0x9752, 0x34);
    EightTurns(0xd789, 0x35);
    EightTurns(0x546c, 0x36);
  }

  lemma Digits7To9()
    ensures Turns(0x20e4, 0x37) == 0x86d6 && Turns(0x86d6, 0x38) == 0x9015 && Turns(0x9015, 0x39) == 0x31c3
  {
    EightTurns(0x20e4, 0x37);
    EightTurns(0x86d6, 0x38);
    EightTurns(0x9015, 0x39);
  }

  lemma EightTurns(c: bv16, d: bv8)
    ensures Turns(c, d) == Turn(Turn(Turn(Turn(Turn(Turn(Turn(Turn(Xor(c, Up(d))))))))))
  {
    hide Turn, Xor, Up;
    var x := Xor(c, Up(d));
    assert TurnLoop(x, 0) == x && TurnLoop(x, 1) == Turn(x);
    assert TurnLoop(x, 2) == Turn(Turn(x));
    assert TurnLoop(x, 4) == Turn(Turn(TurnLoop(x, 2)));
    assert TurnLoop(x, 6) == Turn(Turn(TurnLoop(x, 4)));
    assert TurnLoop(x, 8) == Turn(Turn(TurnLoop(x, 6)));
  }

  lemma FoldNext(c: bv16, s: seq<bv8>, t: seq<bv8>, d: bv16)
    requires s != [] && s[1..] == t && Turns(c, s[0]) == d
    ensures FoldTurns(c, s) == FoldTurns(d, t)
  {
    hide Turns;
  }

  // ----- on numbers -----

  /** crc16 of sdc.c on plain integers. */
  function CardCrc(crc: word, data: byte): word {
    Shift(crc as bv16, data as bv8) as int
  }

  /** CRC16 of blk.fs on plain integers. */
  function ForthCrc(crc: word, data: byte): word {
    Turns(crc as bv16, data as bv8) as int
  }

  lemma CrcsAgree(crc: word, data: byte)
    ensures CardCrc(crc, data) == ForthCrc(crc, data)
  {
    hide Shift, Turns;
    ShiftIsTurns(crc as bv16, data as bv8);
  }
}
