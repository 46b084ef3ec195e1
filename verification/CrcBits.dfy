/** The bit-level pieces of the CRC, written with the polynomial 0x1021, and the facts
    about single bytes that the solver settles bit by bit. Module Crc reasons with these
    facts only and never looks inside a bit vector. */
module CrcBits {

  function Xor(a: bv16, b: bv16): bv16 {
    a ^ b
  }

  function Xor8(a: bv8, b: bv8): bv8 {
    a ^ b
  }

  function Hi(c: bv16): bv8 {
    (c >> 8) as bv8
  }

  function Lo(c: bv16): bv8 {
    (c & 0xff) as bv8
  }

  /** A byte moved to the high half. */
  function Up(x: bv8): bv16 {
    (x as bv16) << 8
  }

  function Left(c: bv16): bv16 {
    c << 8
  }

  /** The three shifted copies of `x ^ x>>4` that sdc.c adds up. */
  function Spread(x: bv8): bv16 {
    var m := (x ^ (x >> 4)) as bv16;
    (m << 12) ^ (m << 5) ^ m
  }

  /** crc16 of sdc.c. */
  function Shift(crc: bv16, data: bv8): bv16 {
    Xor(Left(crc), Spread(Xor8(Hi(crc), data)))
  }

  /** Shift left by one and add the polynomial if a bit was shifted out. */
  function Turn(c: bv16): bv16 {
    (c << 1) ^ (0x1021 * (c >> 15))
  }

  /** The same in a 32-bit register whose high half is ignored. */
  function WideTurn(c: bv32): bv32 {
    (c << 1) ^ (0x1021 * ((c >> 15) & 1))
  }

  function WideIn(c: bv32, data: bv8): bv32 {
    c ^ ((data as bv32) << 8)
  }

  /** The 16 bits that csum.c prints. */
  function Low(c: bv32): bv16 {
    (c & 0xffff) as bv16
  }

  lemma TurnRaw(a: bv16, b: bv16)
    ensures Turn(a ^ b) == Turn(a) ^ Turn(b)
  {
  }

  /** A turn is linear. */
  lemma TurnXor(a: bv16, b: bv16)
    ensures Turn(Xor(a, b)) == Xor(Turn(a), Turn(b))
  {
    hide Turn;
    TurnRaw(a, b);
  }

  lemma WideTurnLow(c: bv32)
    ensures Low(WideTurn(c)) == Turn(Low(c))
  {
  }

  lemma WideInLow(c: bv32, data: bv8)
    ensures Low(WideIn(c, data)) == Xor(Low(c), Up(data))
  {
  }

  /** A data byte meets the high byte of the register only. */
  lemma SplitBytes(c: bv16, data: bv8)
    ensures Xor(c, Up(data)) == Xor(Up(Xor8(Hi(c), data)), Lo(c) as bv16)
  {
  }

  lemma HighTurnsRaw(x: bv8)
    ensures Turn(Turn(Turn(Turn(Turn(Turn(Turn(Turn((x as bv16) << 8)))))))) == Spread(x)
  {
  }

  /** Eight turns spread a high byte. */
  lemma HighByteTurns(x: bv8)
    ensures Turn(Turn(Turn(Turn(Turn(Turn(Turn(Turn(Up(x))))))))) == Spread(x)
  {
    hide Turn, Spread;
    HighTurnsRaw(x);
  }

  /** Eight turns move a low byte up. */
  lemma LowByteTurns(x: bv8)
    ensures Turn(Turn(Turn(Turn(Turn(Turn(Turn(Turn(x as bv16)))))))) == Up(x)
  {
  }

  lemma UpLo(c: bv16)
    ensures Up(Lo(c)) == Left(c)
  {
  }

  lemma XorSwap(a: bv16, b: bv16)
    ensures Xor(a, b) == Xor(b, a)
  {
  }

  lemma OwnBytes(c: bv16)
    ensures Shift(Shift(c, Hi(c)), Lo(c)) == 0
  {
  }

  /** The low byte alone tells what was spread. */
  lemma SpreadInjective(x: bv8, y: bv8)
    ensures Lo(Spread(x)) == Lo(Spread(y)) <==> x == y
  {
  }

  lemma XorCancel(a: bv16, b: bv16, s: bv16)
    ensures Xor(a, s) == Xor(b, s) <==> a == b
  {
  }

  lemma LeftEqual(a: bv16, b: bv16)
    ensures Left(a) == Left(b) <==> Lo(a) == Lo(b)
  {
  }

  lemma Xor8Equal(c: bv8, x: bv8, y: bv8)
    ensures Xor8(c, x) == Xor8(c, y) <==> x == y
    ensures Xor8(x, c) == Xor8(y, c) <==> x == y
  {
  }

  lemma LoLeft(c: bv16, s: bv16)
    ensures Lo(Xor(Left(c), s)) == Lo(s)
  {
  }

  lemma HiLoEqual(a: bv16, b: bv16)
    ensures Hi(a) == Hi(b) && Lo(a) == Lo(b) <==> a == b
  {
  }

  /** `DUP 0< IF << $1021 XOR ELSE << THEN`, where `0<` is `$7fff >`. */
  method TurnStep(c: bv16) returns (r: bv16)
    ensures r == Turn(c)
  {
    if c > 0x7fff {
      r := (c << 1) ^ 0x1021;
    } else {
      r := c << 1;
    }
  }

  /** One turn of the inner loop of csum.c. */
  method WideStep(c: bv32) returns (r: bv32)
    ensures r == WideTurn(c)
  {
    if c & 0x8000 != 0 {
      assert (c >> 15) & 1 == 1;
      r := (c << 1) ^ 0x1021;
    } else {
      assert (c >> 15) & 1 == 0;
      r := c << 1;
    }
  }
}
