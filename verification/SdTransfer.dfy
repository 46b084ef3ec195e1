/** Sector and block transfers: on an initialized card SDC@ and SDC! are reads and writes
    of an array of 1024-byte blocks. */
module SdTransfer {
  import opened Words
  import Crc
  import opened S = SdSpec
  import opened D = SdDriverSpec
  import opened SdProtocol
  import opened SdStart

  const BLOCK: nat := 1024

  /** An initialized card at rest, SDHC addressing, with this image. */
  predicate Online(b: Bus, sdhc: word, image: seq<byte>) {
    && Rest(b.dev) && b.dev.initstat == 12 && !b.selected && sdhc != 0
    && b.dev.fp.File? && b.dev.fp.data == image
  }

  function Slice(image: seq<byte>, at: nat, n: nat): seq<byte>
    requires at + n <= |image|
  {
    image[at..at + n]
  }

  /** The image with some bytes overwritten. */
  function Patch(image: seq<byte>, at: nat, bs: seq<byte>): seq<byte>
    requires at + |bs| <= |image|
  {
    image[..at] + bs + image[at + |bs|..]
  }

  // ----- reading -----

  /** In the middle of a CMD17. */
  predicate Reading(d: Dev) {
    Valid(d) && d.initstat == 12 && d.cmd17 >= 0 && d.sendidx == -1 && d.recvidx == 0 && d.fp.File?
  }

  /** The rest of a sector comes out byte by byte, and the card's CRC runs over it. */
  lemma {:induction false} ReceiveRun(b: VBus, k: nat)
    requires b.selected && Reading(b.dev) && k == SECTOR - b.dev.cmd17
    requires b.dev.fp.pos + k <= |b.dev.fp.data|
    ensures var (c, bs) := Receive(b, k);
            var d, e := b.dev, c.dev;
            var crc := Fold(d.crc, bs);
            && bs == Slice(d.fp.data, d.fp.pos, k)
            && c.selected && Valid(e) && e.initstat == 12 && e.cmd17 == -1 && e.cmd24 == -2
            && e.recvidx == 0 && e.sendidx == 3 && e.sendbuf[3] == crc / 0x100 && e.sendbuf[4] == crc % 0x100
            && e.fp == File(d.fp.data, d.fp.pos + k)
    decreases k
  {
    hide Crc.CardCrc, Crc.ForthCrc;
    var d := b.dev;
    var x := d.fp.data[d.fp.pos];
    var (c, y) := Idle(b);
    Crc.CrcsAgree(d.crc, x);
    assert y == x && c.dev.crc == Crc.ForthCrc(d.crc, x);
    if k == 1 {
      assert Receive(c, 0).1 == [];
      assert Fold(d.crc, [x]) == Fold(Crc.ForthCrc(d.crc, x), []);
    } else {
      ReceiveRun(c, k - 1);
      var rest := Receive(c, k - 1).1;
      assert ([x] + rest)[1..] == rest;
      assert [x] + Slice(d.fp.data, d.fp.pos + 1, k - 1) == Slice(d.fp.data, d.fp.pos, k);
    }
  }

  /** What the card does with CMD17 and CMD24 when it is initialized. */
  lemma TransferTold(d: Dev, cmd: byte, sdhc: word, n: word)
    requires Rest(d) && d.initstat == 12 && d.fp.File? && sdhc != 0 && (cmd == 0x51 || cmd == 0x58)
    ensures var f := Told(d, cmd, D.Arg1(sdhc, n), D.Arg2(sdhc, n));
            && f.initstat == 12 && f.recvidx == 0 && f.crc == 0 && f.fp == File(d.fp.data, n * SECTOR)
            && (cmd == 0x51 ==> f.sendidx == 3 && f.sendbuf[3] == 0 && f.sendbuf[4] == TOKEN
                                && f.cmd17 == 0 && f.cmd24 == -2)
            && (cmd == 0x58 ==> f.sendidx == 4 && f.sendbuf[4] == 0 && f.cmd17 == -1 && f.cmd24 == -1)
  {
    hide FrameOf, CmdOf, S.Arg1, S.Arg2;
    ToldFields(d, cmd, D.Arg1(sdhc, n), D.Arg2(sdhc, n));
  }

  lemma ReadSectorWorks(b: VBus, sdhc: word, n: word, image: seq<byte>)
    requires Online(b, sdhc, image) && (n + 1) * SECTOR <= |image|
    ensures var (c, bs, ok) := ReadSector(b, sdhc, n);
            ok && bs == Slice(image, n * SECTOR, SECTOR) && Online(c, sdhc, image)
  {
    hide Cmd, Wait, Told, Receive, Idle, Fold;
    var s := Select(b, true);
    var a1, a2 := D.Arg1(sdhc, n), D.Arg2(sdhc, n);
    TransferTold(s.dev, 0x51, sdhc, n);
    CmdAnswered(s, 0x51, a1, a2, 0);
    var b1 := Cmd(s, 0x51, a1, a2).0;
    WaitQueued(b1, TOKEN);
    var b2 := Wait(b1, 20).0;
    ReceiveRun(b2, SECTOR);
    var (b3, data) := Receive(b2, SECTOR);
    IdleQueued(b3);
    var b4 := Idle(b3).0;
    IdleQueued(b4);
    var b5 := Idle(b4).0;
    WaitRest(b5);
    var crc := Fold(0, data);
    assert (b3.dev.sendbuf[3] as int) * 0x100 + (b4.dev.sendbuf[4] as int) == crc;
  }

  /** A card that is not initialized lets neither a read nor a write begin: both end in `_err`,
      with the card deselected and its file untouched. */
  lemma NotReady(b: VBus, sdhc: word, n: word, data: seq<byte>)
    requires Rest(b.dev) && b.dev.initstat < 12
    ensures var (c, bs, ok) := ReadSector(b, sdhc, n);
            !ok && bs == [] && !c.selected && c.dev.fp == b.dev.fp && c.dev.initstat < 12
    ensures var (c, ok) := WriteSector(b, sdhc, n, data);
            !ok && !c.selected && c.dev.fp == b.dev.fp && c.dev.initstat < 12
  {
    hide Cmd, FrameOf, CmdOf, S.Arg1, S.Arg2, Wait, Receive, SendAll, Ready, Fold, IdleWord, Idle, D.Spix;
    var s := Select(b, true);
    var a1, a2 := D.Arg1(sdhc, n), D.Arg2(sdhc, n);
    ToldFields(s.dev, 0x51, a1, a2);
    CmdIgnored(s, 0x51, a1, a2);
    ToldFields(s.dev, 0x58, a1, a2);
    CmdIgnored(s, 0x58, a1, a2);
  }

  // ----- writing -----

  /** In the data phase of a CMD24. */
  predicate Writing(d: Dev) {
    Valid(d) && d.initstat == 12 && 0 <= d.cmd24 && d.sendidx == -1 && d.cmd17 == -1 && d.recvidx == 0 && d.fp.File?
  }

  lemma {:induction false} SendRun(b: VBus, bs: seq<byte>)
    requires b.selected && Writing(b.dev) && b.dev.cmd24 + |bs| <= SECTOR
    requires b.dev.fp.pos + |bs| <= |b.dev.fp.data|
    ensures var c := SendAll(b, bs);
            var d, e := b.dev, c.dev;
            && c.selected && Writing(e) && e.cmd24 == d.cmd24 + |bs|
            && e.fp == File(Patch(d.fp.data, d.fp.pos, bs), d.fp.pos + |bs|)
    decreases |bs|
  {
    hide Crc.CardCrc;
    var d := b.dev;
    if bs == [] {
      assert Patch(d.fp.data, d.fp.pos, []) == d.fp.data;
    } else {
      var c := D.Spix(b, bs[0]).0;
      assert c.dev.fp == File(d.fp.data[d.fp.pos := bs[0]], d.fp.pos + 1);
      SendRun(c, bs[1..]);
      assert Patch(c.dev.fp.data, d.fp.pos + 1, bs[1..]) == Patch(d.fp.data, d.fp.pos, bs);
    }
  }

  /** The two CRC bytes, whatever they are, bring the data response. */
  lemma FinishWrite(b: VBus, hi: byte, lo: byte)
    requires b.selected && Writing(b.dev) && b.dev.cmd24 == SECTOR
    ensures var c := D.Spix(D.Spix(b, hi).0, lo).0;
            && c.selected && Valid(c.dev) && c.dev.initstat == 12 && c.dev.cmd24 == -2 && c.dev.cmd17 == -1
            && c.dev.recvidx == 0 && c.dev.sendidx == 4 && c.dev.sendbuf[4] == 5 && c.dev.fp == b.dev.fp
  {
  }

  lemma StartWrite(b: VBus)
    requires b.selected && Valid(b.dev) && b.dev.initstat == 12 && b.dev.cmd24 == -1 && b.dev.sendidx == -1
    requires b.dev.recvidx == 0 && b.dev.fp.File?
    ensures var c := D.Spix(Idle(b).0, TOKEN).0;
            c.selected && Writing(c.dev) && c.dev.cmd24 == 0 && c.dev.fp == b.dev.fp
  {
  }

  lemma ReadyQuiet(b: VBus)
    requires b.selected && Quiet(b.dev)
    ensures Ready(b) == b.(resp := 0xff)
  {
    IdleQuiet(b);
  }

  lemma WriteSectorWorks(b: VBus, sdhc: word, n: word, data: seq<byte>, image: seq<byte>)
    requires Online(b, sdhc, image) && (n + 1) * SECTOR <= |image| && |data| == SECTOR
    ensures var (c, ok) := WriteSector(b, sdhc, n, data);
            ok && Online(c, sdhc, Patch(image, n * SECTOR, data))
  {
    hide Cmd, Wait, Told, SendAll, D.Spix, Idle, Fold, Ready;
    var s := Select(b, true);
    var a1, a2 := D.Arg1(sdhc, n), D.Arg2(sdhc, n);
    TransferTold(s.dev, 0x58, sdhc, n);
    CmdAnswered(s, 0x58, a1, a2, 0);
    var b1 := Cmd(s, 0x58, a1, a2).0;
    StartWrite(b1);
    var b2 := D.Spix(Idle(b1).0, TOKEN).0;
    SendRun(b2, data);
    var b3 := SendAll(b2, data);
    var crc := Fold(0, data);
    FinishWrite(b3, crc / 0x100, crc % 0x100);
    var b4 := D.Spix(D.Spix(b3, crc / 0x100).0, crc % 0x100).0;
    WaitQueued(b4, 5);
    ReadyQuiet(Wait(b4, 20).0);
  }

  // ----- blocks -----

  /** Block numbers whose two sectors a cell can name and the image holds. */
  predicate InRange(n: word, image: seq<byte>) {
    n < 0x8000 && (n + 1) * BLOCK <= |image|
  }

  lemma ReadBlockWorks(b: VBus, sdhc: word, n: word, image: seq<byte>)
    requires Online(b, sdhc, image) && InRange(n, image)
    ensures var (c, bs, ok) := ReadBlock(b, sdhc, n);
            ok && bs == Slice(image, n * BLOCK, BLOCK) && Online(c, sdhc, image)
  {
    hide ReadSector, Online;
    ReadSectorWorks(b, sdhc, 2 * n, image);
    ReadSectorWorks(ReadSector(b, sdhc, 2 * n).0, sdhc, 2 * n + 1, image);
    assert Slice(image, 2 * n * SECTOR, SECTOR) + Slice(image, (2 * n + 1) * SECTOR, SECTOR)
        == Slice(image, n * BLOCK, BLOCK);
  }

  lemma WriteBlockWorks(b: VBus, sdhc: word, n: word, data: seq<byte>, image: seq<byte>)
    requires Online(b, sdhc, image) && InRange(n, image) && |data| == BLOCK
    ensures var (c, ok) := WriteBlock(b, sdhc, n, data);
            ok && Online(c, sdhc, Patch(image, n * BLOCK, data))
  {
    hide WriteSector, Online;
    var lo, hi := data[..SECTOR], data[SECTOR..];
    WriteSectorWorks(b, sdhc, 2 * n, lo, image);
    var mid := Patch(image, 2 * n * SECTOR, lo);
    WriteSectorWorks(WriteSector(b, sdhc, 2 * n, lo).0, sdhc, 2 * n + 1, hi, mid);
    assert Patch(mid, (2 * n + 1) * SECTOR, hi) == Patch(image, n * BLOCK, data);
  }

  // ----- block numbers past 32767 -----

  /** The number of a block's first sector is a cell: SDC@ and SDC! take block n for block
      n - 32768. */
  lemma BlockNumbersWrap(b: VBus, sdhc: word, n: word, data: seq<byte>)
    requires n >= 0x8000 && |data| == BLOCK
    ensures ReadBlock(b, sdhc, n) == ReadBlock(b, sdhc, n - 0x8000)
    ensures WriteBlock(b, sdhc, n, data) == WriteBlock(b, sdhc, n - 0x8000, data)
  {
    hide ReadSector, WriteSector;
    assert W(2 * n) == W(2 * (n - 0x8000));
  }

  ghost predicate Delivers(b: VBus, sdhc: word, n: word, image: seq<byte>) {
    Online(b, sdhc, image) && (n + 1) * BLOCK <= |image|
    ==> ReadBlock(b, sdhc, n).1 == Slice(image, n * BLOCK, BLOCK)
  }

  /** SDC@ delivers block n of every image that has it if and only if n is below 32768. */
  lemma ReadBlockIff(n: word)
    ensures (forall b: VBus, sdhc: word, image: seq<byte> :: Delivers(b, sdhc, n, image)) <==> n < 0x8000
  {
    hide ReadBlock, Online, Slice;
    if n < 0x8000 {
      forall b: VBus, sdhc: word, image: seq<byte> ensures Delivers(b, sdhc, n, image) {
        if Online(b, sdhc, image) && (n + 1) * BLOCK <= |image| { ReadBlockWorks(b, sdhc, n, image); }
      }
    } else {
      var image: seq<byte> := Marked(n);
      var b: VBus := OnlineWith(image);
      BlockNumbersWrap(b, 1, n, seq(BLOCK, _ => 0));
      ReadBlockWorks(b, 1, n - 0x8000, image);
      MarkedBlocks(n);
      assert !Delivers(b, 1, n, image);
    }
  }

  ghost predicate Replaces(b: VBus, sdhc: word, n: word, data: seq<byte>, image: seq<byte>) {
    Online(b, sdhc, image) && (n + 1) * BLOCK <= |image| && |data| == BLOCK
    ==> WriteBlock(b, sdhc, n, data).0.dev.fp == File(Patch(image, n * BLOCK, data), FilePos(b, sdhc, n, data))
  }

  /** Where the card's file stands after a write. */
  function FilePos(b: VBus, sdhc: word, n: word, data: seq<byte>): nat
    requires |data| == BLOCK
  {
    var f := WriteBlock(b, sdhc, n, data).0.dev.fp;
    if f.File? then f.pos else 0
  }

  /** SDC! replaces block n of every image that has it if and only if n is below 32768. */
  lemma WriteBlockIff(n: word)
    ensures (forall b: VBus, sdhc: word, data: seq<byte>, image: seq<byte> :: Replaces(b, sdhc, n, data, image))
            <==> n < 0x8000
  {
    hide WriteBlock, Online, Patch;
    if n < 0x8000 {
      forall b: VBus, sdhc: word, data: seq<byte>, image: seq<byte> ensures Replaces(b, sdhc, n, data, image) {
        if Online(b, sdhc, image) && (n + 1) * BLOCK <= |image| && |data| == BLOCK {
          WriteBlockWorks(b, sdhc, n, data, image);
          OnlineFile(WriteBlock(b, sdhc, n, data).0, sdhc, Patch(image, n * BLOCK, data));
        }
      }
    } else {
      var image: seq<byte> := Marked(n);
      var b: VBus := OnlineWith(image);
      var blank: seq<byte> := seq(BLOCK, _ => 0);
      BlockNumbersWrap(b, 1, n, blank);
      WriteBlockWorks(b, 1, n - 0x8000, blank, image);
      OnlineFile(WriteBlock(b, 1, n, blank).0, 1, Patch(image, (n - 0x8000) * BLOCK, blank));
      PatchedElsewhere(n, blank);
      assert !Replaces(b, 1, n, blank, image);
    }
  }

  lemma OnlineFile(b: VBus, sdhc: word, image: seq<byte>)
    requires Online(b, sdhc, image)
    ensures b.dev.fp.File? && b.dev.fp.data == image
  {
  }

  lemma PatchedElsewhere(n: nat, blank: seq<byte>)
    requires n >= 0x8000 && |blank| == BLOCK && forall i :: 0 <= i < BLOCK ==> blank[i] == 0
    ensures Patch(Marked(n), (n - 0x8000) * BLOCK, blank) != Patch(Marked(n), n * BLOCK, blank)
  {
    assert Patch(Marked(n), (n - 0x8000) * BLOCK, blank)[n * BLOCK] == 1;
    assert Patch(Marked(n), n * BLOCK, blank)[n * BLOCK] == 0;
  }

  /** An image whose block n is the first that is not blank. */
  function Marked(n: nat): (image: seq<byte>)
    ensures |image| == (n + 1) * BLOCK
    ensures forall i :: 0 <= i < |image| ==> image[i] == if i < n * BLOCK then 0 else 1
  {
    seq((n + 1) * BLOCK, i => if i < n * BLOCK then 0 else 1)
  }

  lemma MarkedBlocks(n: nat)
    requires n >= 0x8000
    ensures Slice(Marked(n), (n - 0x8000) * BLOCK, BLOCK) != Slice(Marked(n), n * BLOCK, BLOCK)
  {
    assert Slice(Marked(n), (n - 0x8000) * BLOCK, BLOCK)[0] == 0;
    assert Slice(Marked(n), n * BLOCK, BLOCK)[0] == 1;
  }

  /** An initialized card at rest with this image. */
  ghost function OnlineWith(image: seq<byte>): (b: VBus)
    ensures Online(b, 1, image)
  {
    Bus(Dev(12, [0, 0, 0, 0, 0, 0], 0, [0, 0, 0, 0, 0], -1, File(image, 0), -1, -2, 0), false, IDLE)
  }

  // ----- sessions -----

  type BlockData = s: seq<byte> | |s| == BLOCK witness seq(BLOCK, _ => 0)

  datatype Op = Get(n: word) | Set(n: word, data: BlockData)

  /** Every block number is below size, and its sectors below 65536. */
  predicate AllIn(ops: seq<Op>, size: nat) {
    ops == [] || (ops[0].n < 0x8000 && ops[0].n < size && AllIn(ops[1..], size))
  }

  /** The plain array of blocks. */
  function ArrayRun(ops: seq<Op>, blocks: seq<seq<byte>>): (r: (seq<seq<byte>>, seq<seq<byte>>))
    requires AllIn(ops, |blocks|)
    ensures |r.0| == |blocks|
    decreases |ops|
  {
    if ops == [] then (blocks, [])
    else if ops[0].Get? then
      var (end, got) := ArrayRun(ops[1..], blocks);
      (end, [blocks[ops[0].n]] + got)
    else ArrayRun(ops[1..], blocks[ops[0].n := ops[0].data])
  }

  /** The same operations by SDC@ and SDC!; false as soon as one ends in `_err`. */
  function CardRun(b: VBus, sdhc: word, ops: seq<Op>): (VBus, seq<seq<byte>>, bool)
    decreases |ops|
  {
    if ops == [] then (b, [], true)
    else if ops[0].Get? then
      var (c, bs, ok) := ReadBlock(b, sdhc, ops[0].n);
      if !ok then (c, [], false)
      else
        var (d, got, ok2) := CardRun(c, sdhc, ops[1..]);
        (d, [bs] + got, ok2)
    else
      var (c, ok) := WriteBlock(b, sdhc, ops[0].n, ops[0].data);
      if !ok then (c, [], false) else CardRun(c, sdhc, ops[1..])
  }

  function Blocks(image: seq<byte>, size: nat): (r: seq<seq<byte>>)
    requires size * BLOCK <= |image|
    ensures |r| == size
  {
    seq(size, n requires 0 <= n < size => assert (n + 1) * BLOCK <= size * BLOCK; Slice(image, n * BLOCK, BLOCK))
  }

  lemma PatchBlocks(image: seq<byte>, size: nat, n: nat, data: seq<byte>)
    requires size * BLOCK <= |image| && n < size && |data| == BLOCK
    ensures (n + 1) * BLOCK <= |image|
    ensures Blocks(Patch(image, n * BLOCK, data), size) == Blocks(image, size)[n := data]
  {
    assert (n + 1) * BLOCK <= size * BLOCK;
    var p := Patch(image, n * BLOCK, data);
    forall k | 0 <= k < size ensures Blocks(p, size)[k] == Blocks(image, size)[n := data][k] {
      assert (k + 1) * BLOCK <= size * BLOCK;
      if k == n {
        assert Slice(p, n * BLOCK, BLOCK) == data;
      } else {
        assert if k < n then (k + 1) * BLOCK <= n * BLOCK else (n + 1) * BLOCK <= k * BLOCK;
        PatchElsewhere(image, n * BLOCK, data, k * BLOCK, BLOCK);
      }
    }
  }

  lemma PatchElsewhere(image: seq<byte>, at: nat, bs: seq<byte>, from: nat, n: nat)
    requires at + |bs| <= |image| && from + n <= |image|
    requires from + n <= at || at + |bs| <= from
    ensures Slice(Patch(image, at, bs), from, n) == Slice(image, from, n)
  {
    var p := Patch(image, at, bs);
    assert forall i :: from <= i < from + n ==> p[i] == image[i];
  }

  /** On an initialized card every sequence of SDC@ and SDC! in range runs to its end
      without `_err`, answers what an array of blocks would answer, and leaves the image
      equal to that array. */
  lemma {:induction false} CardIsArray(b: VBus, sdhc: word, ops: seq<Op>, image: seq<byte>, size: nat)
    requires Online(b, sdhc, image) && size * BLOCK <= |image|
    requires AllIn(ops, size)
    ensures var (c, got, ok) := CardRun(b, sdhc, ops);
            var (end, want) := ArrayRun(ops, Blocks(image, size));
            && ok && got == want
            && c.dev.fp.File? && |c.dev.fp.data| == |image| && Blocks(c.dev.fp.data, size) == end
            && Online(c, sdhc, c.dev.fp.data)
    decreases |ops|
  {
    hide ReadBlock, WriteBlock, Blocks;
    if ops != [] {
      var op := ops[0];
      assert (op.n + 1) * BLOCK <= size * BLOCK;
      if op.Get? {
        ReadBlockWorks(b, sdhc, op.n, image);
        BlockAt(image, size, op.n);
        CardIsArray(ReadBlock(b, sdhc, op.n).0, sdhc, ops[1..], image, size);
      } else {
        WriteBlockWorks(b, sdhc, op.n, op.data, image);
        PatchBlocks(image, size, op.n, op.data);
        CardIsArray(WriteBlock(b, sdhc, op.n, op.data).0, sdhc, ops[1..], Patch(image, op.n * BLOCK, op.data), size);
      }
    }
  }

  lemma BlockAt(image: seq<byte>, size: nat, n: nat)
    requires size * BLOCK <= |image| && n < size
    ensures (n + 1) * BLOCK <= |image| && Blocks(image, size)[n] == Slice(image, n * BLOCK, BLOCK)
  {
    assert (n + 1) * BLOCK <= size * BLOCK;
  }

  /** From power-up: SDC$ and then any session in range. */
  lemma PowerUpSession(recv: seq<byte>, send: seq<byte>, crc: word, image: seq<byte>, pos: nat, resp: byte,
                       ops: seq<Op>, size: nat)
    requires |recv| == 6 && |send| == 5
    requires size * BLOCK <= |image| && AllIn(ops, size)
    ensures var (b, sdhc, started) := Start(Bus(S.Init(recv, send, crc, File(image, pos)), false, resp), 0);
            var (c, got, ok) := CardRun(b, sdhc, ops);
            var (end, want) := ArrayRun(ops, Blocks(image, size));
            && started && ok && got == want
            && c.dev.fp.File? && |c.dev.fp.data| == |image| && Blocks(c.dev.fp.data, size) == end
  {
    hide Start, CardRun, ArrayRun, Blocks, Rest;
    var b0 := Bus(S.Init(recv, send, crc, File(image, pos)), false, resp);
    assert Rest(b0.dev) by { InitRests(recv, send, crc, File(image, pos)); }
    RestSettles(b0.dev);
    StartIff(b0, 0);
    var (b, sdhc, started) := Start(b0, 0);
    CardIsArray(b, sdhc, ops, image, size);
  }

  lemma InitRests(recv: seq<byte>, send: seq<byte>, crc: word, fp: File)
    requires |recv| == 6 && |send| == 5
    ensures var d := S.Init(recv, send, crc, fp); Rest(d) && d.initstat == 0 && d.fp == fp
  {
  }
}
