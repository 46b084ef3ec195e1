/** The SD card words of blk.fs (B250-B258) as functions on the SPI relay of rc2014_spi.c
    with a card behind it. SdDriver.dfy has the words in their own form. */
module SdDriverSpec {
  import opened Words
  import Crc
  import S = SdSpec

  /** The relay: whether the card is selected, and the last byte that came back. */
  datatype Bus = Bus(dev: S.Dev, selected: bool, resp: byte)

  type VBus = b: Bus | S.Valid(b.dev)
    ghost witness Bus(S.Init([0, 0, 0, 0, 0, 0], [0, 0, 0, 0, 0], 0, S.NoFile), false, 0xff)

  function Select(b: VBus, on: bool): VBus {
    b.(selected := on)
  }

  /** (spix): write a byte to the relay, then read its answer. */
  function Spix(b: VBus, v: byte): (VBus, byte) {
    if b.selected then
      var (d, r) := S.Spix(b.dev, v);
      (Bus(d, true, r), r)
    else (b, 0xff)
  }

  function Idle(b: VBus): (VBus, byte) {
    Spix(b, 0xff)
  }

  function Idles(b: VBus, k: nat): VBus
    decreases k
  {
    if k == 0 then b else Idles(Idle(b).0, k - 1)
  }

  /** `_wait`: idle until something else than $ff comes back, at most k times. */
  function Wait(b: VBus, k: nat): (VBus, byte)
    requires k > 0
    decreases k
  {
    var (c, r) := Idle(b);
    if r != 0xff || k == 1 then (c, r) else Wait(c, k - 1)
  }

  /** Bytes that the card may still send before it answers $ff to everything. */
  function Backlog(d: S.Dev): nat
    requires S.Valid(d)
  {
    (if d.sendidx >= 0 then 5 - d.sendidx else 0) + (if d.cmd17 >= 0 then S.SECTOR - d.cmd17 + 2 else 0)
  }

  lemma BacklogShrinks(d: S.Dev)
    requires S.Valid(d) && S.Spix(d, 0xff).1 != 0xff
    ensures Backlog(S.Spix(d, 0xff).0) < Backlog(d)
  {
  }

  lemma ReadyShrinks(b: VBus)
    requires Idle(b).1 != 0xff
    ensures Backlog(Idle(b).0.dev) < Backlog(b.dev)
  {
    BacklogShrinks(b.dev);
  }

  /** `_ready`: idle until $ff comes back. */
  function Ready(b: VBus): VBus
    decreases Backlog(b.dev)
  {
    var (c, r) := Idle(b);
    if r == 0xff then c
    else
      BacklogShrinks(b.dev);
      Ready(c)
  }

  /** One turn of `_crc7`. */
  function Turn7(c: bv16): bv16 {
    var d := c << 1;
    if d >> 8 != 0 then (d & 0xff) ^ 0x12 else d
  }

  function Turns7(c: bv16, k: nat): bv16
    decreases k
  {
    if k == 0 then c else Turns7(Turn7(c), k - 1)
  }

  function Crc7(c: bv16, n: byte): bv16 {
    Turns7(c ^ (n as bv16), 8)
  }

  /** One message bit through the 7-bit register of x^7 + x^3 + 1, in its plain form. */
  function Serial7(r: bv16, bit: bool): bv16 {
    ((r << 1) & 0x7f) ^ if (r & 0x40 != 0) != bit then 0x09 else 0
  }

  /** The k highest of the eight bits of y, the highest first. */
  function SerialBits(r: bv16, y: bv16, k: nat): bv16
    decreases k
  {
    if k == 0 then r else SerialBits(Serial7(r, y & 0x80 != 0), (y << 1) & 0xff, k - 1)
  }

  lemma Turn7IsSerial(r: bv16, y: bv16)
    requires r <= 0x7f && y <= 0xff
    ensures Turn7((r << 1) ^ y) == (Serial7(r, y & 0x80 != 0) << 1) ^ ((y << 1) & 0xff)
    ensures Serial7(r, y & 0x80 != 0) <= 0x7f && (y << 1) & 0xff <= 0xff
  {
  }

  /** What is left of a byte after k shifts. */
  function Shifted(y: bv16, k: nat): bv16
    decreases k
  {
    if k == 0 then y else Shifted((y << 1) & 0xff, k - 1)
  }

  lemma {:induction false} Turns7AreSerial(c: bv16, r: bv16, y: bv16, k: nat)
    requires r <= 0x7f && y <= 0xff && c == (r << 1) ^ y
    ensures Turns7(c, k) == (SerialBits(r, y, k) << 1) ^ Shifted(y, k)
    decreases k
  {
    if k > 0 {
      Turn7IsSerial(r, y);
      hide Turn7, Serial7;
      Turns7AreSerial(Turn7(c), Serial7(r, y & 0x80 != 0), (y << 1) & 0xff, k - 1);
    }
  }

  lemma ShiftedOut(y: bv16)
    requires y <= 0xff
    ensures Shifted(y, 8) == 0
  {
    var y2 := (((y << 1) & 0xff) << 1) & 0xff;
    var y4 := (((y2 << 1) & 0xff) << 1) & 0xff;
    var y6 := (((y4 << 1) & 0xff) << 1) & 0xff;
    assert Shifted(y, 8) == Shifted(y2, 6);
    assert Shifted(y2, 6) == Shifted(y4, 4);
    assert Shifted(y4, 4) == Shifted(y6, 2);
  }

  /** `_crc7` keeps the register of the plain form one bit to the left: on every byte y it takes
      the register through the eight bits of y. */
  lemma Crc7IsSerial(c: bv16, r: bv16, y: bv16)
    requires r <= 0x7f && y <= 0xff && c == (r << 1) ^ y
    ensures Turns7(c, 8) == SerialBits(r, y, 8) << 1
  {
    hide Turns7, SerialBits, Shifted;
    Turns7AreSerial(c, r, y, 8);
    ShiftedOut(y);
    XorNothing(SerialBits(r, y, 8) << 1, Shifted(y, 8));
  }

  lemma XorNothing(x: bv16, y: bv16)
    requires y == 0
    ensures x ^ y == x
  {
  }

  /** `_s+crc` over the bytes of a command. */
  function SendAll(b: VBus, bs: seq<byte>): VBus
    decreases |bs|
  {
    if bs == [] then b else SendAll(Spix(b, bs[0]).0, bs[1..])
  }

  function CrcAll(c: bv16, bs: seq<byte>): bv16
    decreases |bs|
  {
    if bs == [] then c else CrcAll(Crc7(c, bs[0]), bs[1..])
  }

  function CmdBytes(cmd: byte, a1: word, a2: word): seq<byte> {
    [cmd, a1 / 0x100, a1 % 0x100, a2 / 0x100, a2 % 0x100]
  }

  /** The last byte of a command frame: CRC7 with the stop bit. */
  function CmdCrc(cmd: byte, a1: word, a2: word): byte {
    ((CrcAll(0, CmdBytes(cmd, a1, a2)) | 1) & 0xff) as int
  }

  function Cmd(b: VBus, cmd: byte, a1: word, a2: word): (VBus, byte) {
    var c := SendAll(Wait(b, 20).0, CmdBytes(cmd, a1, a2));
    Wait(Spix(c, CmdCrc(cmd, a1, a2)).0, 20)
  }

  function CmdR1(b: VBus, cmd: byte, a1: word, a2: word): (VBus, byte) {
    var (c, r) := Cmd(Select(b, true), cmd, a1, a2);
    (Select(c, false), r)
  }

  /** `_idle <<8 _idle +` */
  function IdleWord(b: VBus): (VBus, word) {
    var (c, hi) := Idle(b);
    var (d, lo) := Idle(c);
    (d, (hi as int) * 0x100 + (lo as int))
  }

  function CmdR7(b: VBus, cmd: byte, a1: word, a2: word): (VBus, byte, word, word) {
    var (c, r) := Cmd(Select(b, true), cmd, a1, a2);
    var (d, x) := IdleWord(c);
    var (e, y) := IdleWord(d);
    (Select(e, false), r, x, y)
  }

  // ----- parts of SDC$ -----

  /** CMD0 until the answer is 1, at most k times. */
  function Reset(b: VBus, k: nat): (VBus, bool)
    requires k > 0
    decreases k
  {
    var (c, r) := CmdR1(b, 0x40, 0, 0);
    if r == 1 || k == 1 then (c, r == 1) else Reset(c, k - 1)
  }

  /** `_rdsdhc` */
  function ReadSdhc(b: VBus): (VBus, word) {
    var (c, _, x, _) := CmdR7(b, 0x7a, 0, 0);
    (c, And16(x, 0x4000))
  }

  // ----- sectors -----

  /** `_badj` */
  function Arg1(sdhc: word, n: word): word { if sdhc != 0 then 0 else n / 128 }
  function Arg2(sdhc: word, n: word): word { if sdhc != 0 then n else W(W(n * 0x100) * 2) }

  function Fold(crc: word, bs: seq<byte>): word
    decreases |bs|
  {
    if bs == [] then crc else Fold(Crc.ForthCrc(crc, bs[0]), bs[1..])
  }

  function Receive(b: VBus, k: nat): (r: (VBus, seq<byte>))
    ensures |r.1| == k
    decreases k
  {
    if k == 0 then (b, [])
    else
      var (c, x) := Idle(b);
      var (d, rest) := Receive(c, k - 1);
      (d, [x] + rest)
  }

  lemma ReceiveNext(b: VBus, k: nat)
    requires k > 0
    ensures var c := Idle(b).0;
            Receive(b, k) == (Receive(c, k - 1).0, [Idle(b).1] + Receive(c, k - 1).1)
  {
    hide Idle;
  }

  lemma ReceiveDone(b: VBus)
    ensures Receive(b, 0) == (b, [])
  {
  }

  lemma FoldNext(crc: word, bs: seq<byte>)
    requires bs != []
    ensures Fold(crc, bs) == Fold(Crc.ForthCrc(crc, bs[0]), bs[1..])
  {
    hide Crc.ForthCrc;
  }

  lemma FoldDone(crc: word)
    ensures Fold(crc, []) == crc
  {
  }

  /** Read one sector: the relay, the bytes stored, whether it got by without `_err`. */
  function ReadSector(b: VBus, sdhc: word, n: word): (r: (VBus, seq<byte>, bool))
    ensures |r.1| == S.SECTOR || (r.1 == [] && !r.2)
  {
    var (b1, r) := Cmd(Select(b, true), 0x51, Arg1(sdhc, n), Arg2(sdhc, n));
    if r != 0 then (Select(b1, false), [], false)
    else
      var (b2, t) := Wait(b1, 20);
      if t != S.TOKEN then (Select(b2, false), [], false)
      else
        var (b3, data) := Receive(b2, S.SECTOR);
        var (b4, crc) := IdleWord(b3);
        (Select(Wait(b4, 20).0, false), data, Fold(0, data) == crc)
  }

  /** Write one sector. */
  function WriteSector(b: VBus, sdhc: word, n: word, data: seq<byte>): (VBus, bool) {
    var (b1, r) := Cmd(Select(b, true), 0x58, Arg1(sdhc, n), Arg2(sdhc, n));
    if r != 0 then (Select(b1, false), false)
    else
      var b2 := Spix(Idle(b1).0, S.TOKEN).0;
      var b3 := SendAll(b2, data);
      var crc := Fold(0, data);
      var b4 := Spix(Spix(b3, crc / 0x100).0, crc % 0x100).0;
      var (b5, q) := Wait(b4, 20);
      if q % 0x20 != 5 then (Select(b5, false), false)
      else (Select(Ready(b5), false), true)
  }

  /** SDC@: two sectors, the second only if the first went well. */
  function ReadBlock(b: VBus, sdhc: word, n: word): (VBus, seq<byte>, bool) {
    var s := W(2 * n);
    var (c, lo, ok) := ReadSector(b, sdhc, s);
    if !ok then (c, lo, false)
    else
      var (d, hi, ok2) := ReadSector(c, sdhc, W(s + 1));
      (d, lo + hi, ok2)
  }

  /** SDC! */
  function WriteBlock(b: VBus, sdhc: word, n: word, data: seq<byte>): (VBus, bool)
    requires |data| == 2 * S.SECTOR
  {
    var s := W(2 * n);
    var (c, ok) := WriteSector(b, sdhc, s, data[..S.SECTOR]);
    if !ok then (c, false) else WriteSector(c, sdhc, W(s + 1), data[S.SECTOR..])
  }
}
