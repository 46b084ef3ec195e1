/** SDC$ on a card in any state: asleep, in the middle of a frame, of an answer or of a
    transfer. */
module SdStart {
  import opened Words
  import Crc
  import opened S = SdSpec
  import opened D = SdDriverSpec
  import opened SdProtocol

  // ----- check bytes of the commands -----

  lemma CrcNext(c: bv16, bs: seq<byte>)
    requires bs != []
    ensures CrcAll(c, bs) == CrcAll(Crc7(c, bs[0]), bs[1..])
  {
    hide Crc7;
  }

  lemma CrcFive(a: byte, b: byte, c: byte, d: byte, e: byte)
    ensures CrcAll(0, [a, b, c, d, e]) == Crc7(Crc7(Crc7(Crc7(Crc7(0, a), b), c), d), e)
  {
    hide Crc7;
    var x := Crc7(0, a);
    var y := Crc7(x, b);
    var z := Crc7(y, c);
    var w := Crc7(z, d);
    assert [a, b, c, d, e][1..] == [b, c, d, e];
    assert [b, c, d, e][1..] == [c, d, e];
    assert [c, d, e][1..] == [d, e];
    assert [d, e][1..] == [e] && [e][1..] == [];
    CrcNext(0, [a, b, c, d, e]);
    CrcNext(x, [b, c, d, e]);
    CrcNext(y, [c, d, e]);
    CrcNext(z, [d, e]);
    CrcNext(w, [e]);
  }

  lemma Crc0()
    ensures CmdCrc(0x40, 0, 0) == 0x95
  {
    CrcFive(0x40, 0, 0, 0, 0);
    assert Crc7(0, 0x40) == 0xc8;
    assert Crc7(0xc8, 0) == 0xda;
    assert Crc7(0xda, 0) == 0xcc;
    assert Crc7(0xcc, 0) == 0x92;
    assert Crc7(0x92, 0) == 0x94;
  }

  lemma Crc55()
    ensures CmdCrc(0x77, 0, 0) == 0x65
  {
    CrcFive(0x77, 0, 0, 0, 0);
    assert Crc7(0, 0x77) == 0xe0;
    assert Crc7(0xe0, 0) == 0x2e;
    assert Crc7(0x2e, 0) == 0x98;
    assert Crc7(0x98, 0) == 0x20;
    assert Crc7(0x20, 0) == 0x64;
  }

  lemma Crc41First()
    ensures Crc7(Crc7(0, 0x69), 0x40) == 0x50
  {
    assert Crc7(0, 0x69) == 0x2e;
    assert Crc7(0x2e, 0x40) == 0x50;
  }

  lemma Crc41Last()
    ensures Crc7(Crc7(Crc7(0x50, 0), 0), 0) == 0x76
  {
    assert Crc7(0x50, 0) == 0xfa;
    assert Crc7(0xfa, 0) == 0xa8;
    assert Crc7(0xa8, 0) == 0x76;
  }

  lemma Crc41()
    ensures CmdCrc(0x69, 0x4000, 0) == 0x77
  {
    hide Crc7;
    CrcFive(0x69, 0x40, 0, 0, 0);
    Crc41First();
    Crc41Last();
  }

  // ----- a card that is not initialized: after the first wait -----

  /** The frame that a card holds once idle bytes have filled it up. */
  function Filled(d: Dev): seq<byte>
    requires Valid(d)
  {
    seq(6, i requires 0 <= i < 6 => if i < d.recvidx then d.recvbuf[i] else IDLE)
  }

  function Finish(d: Dev): (f: Dev)
    requires Valid(d) && d.recvidx > 0
    ensures Valid(f)
  {
    Command(d.(recvbuf := Filled(d), recvidx := 0))
  }

  /** Idle bytes make a CMD41 of what the card has received so far. */
  predicate Completing(d: Dev)
    requires Valid(d)
  {
    d.initstat == 11 && d.recvidx >= 3 && CmdOf(d.recvbuf) == 41 && S.Arg1(d.recvbuf) == 0x4000
  }

  /** Initialized, or about to be by the frame it is receiving. */
  predicate Started(d: Dev)
    requires Valid(d)
  {
    d.initstat == 12 || Completing(d)
  }

  /** Every card that is not initialized, and an initialized one that is between commands but
      for a byte other than 1 it still has to send. */
  predicate Settling(d: Dev) {
    && Valid(d) && d.cmd17 == -1 && d.cmd24 == -2
    && (d.initstat == 12 ==> d.recvidx == 0 && (d.sendidx == -1 || (d.sendidx == 4 && d.sendbuf[4] != 1)))
  }

  lemma FillStep(d: Dev)
    requires Valid(d) && 0 < d.recvidx < 5
    ensures var (e, r) := S.Spix(d, IDLE);
            && r == IDLE && e == d.(recvbuf := e.recvbuf, recvidx := d.recvidx + 1)
            && Finish(e) == Finish(d)
  {
    hide Command;
    var e := S.Spix(d, IDLE).0;
    assert Filled(e) == Filled(d);
  }

  lemma FillLast(d: Dev)
    requires Valid(d) && d.recvidx == 5
    ensures S.Spix(d, IDLE) == (Finish(d), IDLE)
  {
    hide Command;
    assert d.recvbuf[5 := IDLE] == Filled(d);
  }

  lemma {:induction false} WaitFills(b: VBus, k: nat)
    requires b.selected && b.dev.recvidx > 0 && k > 6 - b.dev.recvidx
    ensures Wait(b, k) == Wait(Bus(Finish(b.dev), true, IDLE), k - (6 - b.dev.recvidx))
    decreases k
  {
    hide Finish, S.Spix;
    if b.dev.recvidx == 5 {
      FillLast(b.dev);
    } else {
      FillStep(b.dev);
      WaitFills(Bus(S.Spix(b.dev, IDLE).0, true, IDLE), k - 1);
    }
  }

  lemma Finished(d: Dev)
    requires Valid(d) && d.recvidx > 0 && d.initstat < 12
    ensures var f := Finish(d);
            && f.recvidx == 0 && f.cmd17 == -1 && f.cmd24 == -2 && f.fp == d.fp && f.initstat >= 8
            && (f.initstat == 12 <==> Completing(d))
            && (f.sendidx == -1 || (f.sendidx == 4 && f.sendbuf[4] == if f.initstat == 12 then 0 else 1)
                || (f.sendidx == 0 && f.sendbuf[0] == 1 && f.initstat < 12))
            && (f.initstat == 12 ==> f.sendidx == 4)
  {
  }

  /** Between frames, no more than four bytes of an answer left to send, and none if the card
      is initialized. */
  predicate Waited(d: Dev) {
    && Valid(d) && d.initstat >= 8 && d.recvidx == 0 && d.cmd17 == -1 && d.cmd24 == -2
    && (d.sendidx == -1 || (d.initstat < 12 && d.sendidx >= 1))
  }

  /** A wait takes one byte of an answer, or more while they are $ff. */
  lemma {:induction false} WaitSends(b: VBus, k: nat)
    requires b.selected && b.dev.sendidx >= 0 && k > 5 - b.dev.sendidx
    requires b.dev.initstat < 12 || (b.dev.sendidx == 4 && b.dev.cmd17 == -1 && b.dev.cmd24 == -2)
    ensures var c := Wait(b, k).0; c.selected && Waited(c.dev) && c.dev == b.dev.(sendidx := c.dev.sendidx)
    decreases k
  {
    IdleQueued(b);
    hide Idle;
    var (c, r) := Idle(b);
    if r == IDLE {
      if c.dev.sendidx >= 0 { WaitSends(c, k - 1); } else { WaitQuiet(c, k - 1); }
    }
  }

  /** Whatever an uninitialized card was doing, after the wait in front of a command it is
      between frames. */
  lemma WaitSettles(b: VBus)
    requires b.selected && Settling(b.dev)
    ensures var c := Wait(b, 20).0;
            && c.selected && Waited(c.dev) && c.dev.fp == b.dev.fp
            && (c.dev.initstat == 12 <==> Started(b.dev))
  {
    hide Wait, Finish;
    if b.dev.recvidx > 0 {
      WaitFills(b, 20);
      Finished(b.dev);
      var f := Bus(Finish(b.dev), true, IDLE);
      var k: nat := 14 + b.dev.recvidx;
      if f.dev.sendidx >= 0 { WaitSends(f, k); } else { WaitQuiet(f, k); }
    } else if b.dev.sendidx >= 0 {
      WaitSends(b, 20);
    } else {
      WaitRest(b);
    }
  }

  // ----- and the command behind it -----

  /** A command to a card that is quiet after the wait is one to the quiet card. */
  lemma CmdOnQuiet(b: VBus, cmd: byte, a1: word, a2: word)
    requires var c := Wait(Select(b, true), 20).0; c.selected && Quiet(c.dev)
    ensures CmdR1(b, cmd, a1, a2) == CmdR1(Wait(Select(b, true), 20).0, cmd, a1, a2)
  {
    hide Wait, CmdCrc, S.Spix, Quiet;
    var c := Wait(Select(b, true), 20).0;
    WaitQuiet(c, 20);
    var bs := CmdBytes(cmd, a1, a2);
    assert D.Spix(c, bs[0]) == D.Spix(c.(resp := IDLE), bs[0]);
    assert SendAll(c, bs) == SendAll(c.(resp := IDLE), bs);
    assert Select(c, true) == c;
  }

  /** A card that still has an answer to send does not hear the start of a frame. */
  lemma {:induction false} Swallowed(b: VBus, bs: seq<byte>)
    requires b.selected && Waited(b.dev) && (b.dev.sendidx >= 0 ==> |bs| >= 5 - b.dev.sendidx)
    requires forall i :: (if b.dev.sendidx >= 0 then 5 - b.dev.sendidx else 0) <= i < |bs| ==> bs[i] == 0
    ensures var c := SendAll(b, bs); c.selected && c.dev == b.dev.(sendidx := -1)
    decreases |bs|
  {
    if bs != [] {
      var c := D.Spix(b, bs[0]).0;
      assert c.dev == if b.dev.sendidx >= 0 then Popped(b.dev) else b.dev;
      Swallowed(c, bs[1..]);
    }
  }

  /** The first CMD0 leaves such a card between commands. */
  lemma FirstCmd0(b: VBus)
    requires Settling(b.dev)
    ensures var (c, r) := CmdR1(b, 0x40, 0, 0);
            && !c.selected && Quiet(c.dev) && c.dev.fp == b.dev.fp
            && (c.dev.initstat == 12 <==> Started(b.dev))
            && (r == 1 ==> c.dev.initstat == 9)
  {
    hide Wait, CmdCrc, S.Spix;
    var s := Select(b, true);
    WaitSettles(s);
    var w := Wait(s, 20).0;
    if w.dev.sendidx == -1 {
      CmdOnQuiet(b, 0x40, 0, 0);
      Cmd0(w);
    } else {
      Crc0();
      Swallowed(w, CmdBytes(0x40, 0, 0));
      var d := w.dev.(sendidx := -1);
      NotHeard(d, 0x95);
      WaitQuiet(Bus(d, true, IDLE), 20);
    }
  }

  lemma NotHeard(d: Dev, v: byte)
    requires Quiet(d) && !(0x40 <= v <= 0x7f)
    ensures S.Spix(d, v) == (d, IDLE)
  {
  }

  /** An uninitialized card that answers 1 to CMD55 has heard it. */
  lemma FirstCmd55(b: VBus)
    requires b.dev.initstat < 12 && CmdR1(b, 0x77, 0, 0).1 == 1
    ensures Stage(CmdR1(b, 0x77, 0, 0).0, 11, b.dev.fp)
  {
    hide Wait, CmdCrc, S.Spix, Finish;
    var s := Select(b, true);
    WaitSettles(s);
    var w := Wait(s, 20).0;
    if w.dev.sendidx == -1 {
      CmdOnQuiet(b, 0x77, 0, 0);
      Cmd55(w);
    } else {
      Crc55();
      Swallowed(w, CmdBytes(0x77, 0, 0));
      StrayByte(w.dev.(sendidx := -1));
    }
  }

  /** The check byte of CMD55 alone starts a frame that no stage answers. */
  lemma StrayByte(d: Dev)
    requires Quiet(d) && d.initstat < 12
    ensures S.Spix(d, 0x65).1 == IDLE && Wait(Bus(S.Spix(d, 0x65).0, true, IDLE), 20).1 == IDLE
  {
    hide Wait;
    var e := S.Spix(d, 0x65).0;
    assert e == d.(recvbuf := e.recvbuf, recvidx := 1) && e.recvbuf[0] == 0x65;
    WaitFills(Bus(e, true, IDLE), 20);
    assert Quiet(Finish(e));
    WaitQuiet(Bus(Finish(e), true, IDLE), 15);
  }

  // ----- an initialized card: how often it can still answer 1 -----

  function OnesFrom(s: seq<byte>, i: nat): nat
    decreases |s| - i
  {
    if i >= |s| then 0 else (if s[i] == 1 then 1 else 0) + OnesFrom(s, i + 1)
  }

  /** Bytes that may be a 1: those of a sector being read and its CRC, and a 1 that is queued. */
  function Ones(d: Dev): nat
    requires Valid(d)
  {
    (if d.sendidx >= 0 then OnesFrom(d.sendbuf, d.sendidx) else 0) + if d.cmd17 >= 0 then SECTOR - d.cmd17 + 2 else 0
  }

  /** Initialized, and not in the middle of a command to read. */
  predicate Calm(d: Dev) {
    Valid(d) && d.initstat == 12 && (d.recvidx > 0 ==> CmdOf(d.recvbuf) != 17)
  }

  lemma OnesTwo(s: seq<byte>)
    requires |s| == 5
    ensures OnesFrom(s, 3) <= 2 && OnesFrom(s, 4) == if s[4] == 1 then 1 else 0
  {
    assert OnesFrom(s, 5) == 0;
    assert OnesFrom(s, 4) == (if s[4] == 1 then 1 else 0) + OnesFrom(s, 5);
    assert OnesFrom(s, 3) == (if s[3] == 1 then 1 else 0) + OnesFrom(s, 4);
  }

  /** No byte but the start of CMD17 gives the card more of them. */
  lemma CalmStep(d: Dev, v: byte)
    requires Calm(d) && v != 0x51
    ensures var (e, r) := S.Spix(d, v); Calm(e) && Ones(e) + (if r == 1 then 1 else 0) <= Ones(d)
  {
    hide Crc.CardCrc;
    var e := S.Spix(d, v).0;
    OnesTwo(d.sendbuf);
    OnesTwo(e.sendbuf);
  }

  lemma SpixOn(b: VBus, v: byte)
    requires b.dev.initstat == 12
    ensures var (c, r) := D.Spix(b, v);
            && c.dev.initstat == 12 && (r != IDLE ==> c.dev.recvidx == 0)
            && (Calm(b.dev) && v != 0x51 ==> Calm(c.dev) && Ones(c.dev) + (if r == 1 then 1 else 0) <= Ones(b.dev))
  {
    if b.selected && Calm(b.dev) && v != 0x51 { CalmStep(b.dev, v); }
    hide Calm, Ones, Crc.CardCrc;
  }

  lemma {:induction false} WaitOn(b: VBus, k: nat)
    requires b.dev.initstat == 12 && k > 0
    ensures var (c, r) := Wait(b, k);
            && c.dev.initstat == 12 && (r != IDLE ==> c.dev.recvidx == 0)
            && (Calm(b.dev) ==> Calm(c.dev) && Ones(c.dev) + (if r == 1 then 1 else 0) <= Ones(b.dev))
    decreases k
  {
    hide D.Spix, Calm, Ones;
    SpixOn(b, IDLE);
    if Idle(b).1 == IDLE && k > 1 { WaitOn(Idle(b).0, k - 1); }
  }

  lemma {:induction false} SendOn(b: VBus, bs: seq<byte>)
    requires b.dev.initstat == 12 && 0x51 !in bs
    ensures var c := SendAll(b, bs);
            c.dev.initstat == 12 && (Calm(b.dev) ==> Calm(c.dev) && Ones(c.dev) <= Ones(b.dev))
    decreases |bs|
  {
    hide D.Spix, Calm, Ones;
    if bs != [] {
      SpixOn(b, bs[0]);
      SendOn(D.Spix(b, bs[0]).0, bs[1..]);
    }
  }

  lemma CmdOn(b: VBus, cmd: byte, a1: word, a2: word)
    requires b.dev.initstat == 12 && 0x51 !in FrameOf(cmd, a1, a2)
    ensures var (c, r) := CmdR1(b, cmd, a1, a2);
            && c.dev.initstat == 12 && (r != IDLE ==> c.dev.recvidx == 0)
            && (Calm(b.dev) ==> Calm(c.dev) && Ones(c.dev) + (if r == 1 then 1 else 0) <= Ones(b.dev))
  {
    hide D.Spix, Calm, Ones, Wait, SendAll, CmdCrc;
    var f := FrameOf(cmd, a1, a2);
    assert f[5] == CmdCrc(cmd, a1, a2) && f[..5] == CmdBytes(cmd, a1, a2);
    var s := Select(b, true);
    WaitOn(s, 20);
    var w := Wait(s, 20).0;
    SendOn(w, CmdBytes(cmd, a1, a2));
    var v := SendAll(w, CmdBytes(cmd, a1, a2));
    SpixOn(v, f[5]);
    WaitOn(D.Spix(v, f[5]).0, 20);
  }

  /** A round of CMD55 and CMD41 that answers 1 twice brings the end of the loop nearer: only
      an initialized card in the middle of a sector does so, and it has answers taken off. */
  lemma AgainShrinks(b: VBus)
    requires var (c, r) := CmdR1(b, 0x77, 0, 0); r == 1 && CmdR1(c, 0x69, 0x4000, 0).1 == 1
    ensures var d := CmdR1(CmdR1(b, 0x77, 0, 0).0, 0x69, 0x4000, 0).0;
            d.dev.recvidx == 0 && (b.dev.recvidx == 0 ==> Ones(d.dev) < Ones(b.dev))
  {
    hide CmdR1, Ones, CmdCrc;
    var c := CmdR1(b, 0x77, 0, 0).0;
    if b.dev.initstat < 12 {
      FirstCmd55(b);
      Cmd41(c);
      assert false;
    } else {
      Crc55();
      Crc41();
      CmdOn(b, 0x77, 0, 0);
      CmdOn(c, 0x69, 0x4000, 0);
    }
  }

  // ----- SDC$ -----

  /** CMD55 and CMD41 until the card is out of idle mode: the relay, and whether it got by
      without `_err`. It ends on every card. */
  function Activate(b: VBus): (VBus, bool)
    decreases b.dev.recvidx > 0, Ones(b.dev)
  {
    var (c, r) := CmdR1(b, 0x77, 0, 0);
    if r != 1 then (c, false)
    else
      var (d, q) := CmdR1(c, 0x69, 0x4000, 0);
      if q > 1 then (d, false)
      else if q == 0 then (d, true)
      else
        AgainShrinks(b);
        Activate(d)
  }

  /** SDC$: the relay afterwards, SDC_SDHC, and whether it got by without `_err`. */
  function Start(b: VBus, sdhc: word): (VBus, word, bool) {
    var (b1, reset) := Reset(Idles(b, 10), 10);
    if !reset then (Select(b1, false), sdhc, false)
    else
      var (b2, r, x, y) := CmdR7(b1, 0x48, 0, 0x1aa);
      if !(y == 0x1aa && r == 1 && x == 0) then (Select(b2, false), sdhc, false)
      else
        var (b3, active) := Activate(b2);
        if !active then (Select(b3, false), sdhc, false)
        else
          var (b4, h) := ReadSdhc(b3);
          (b4, h, true)
  }

  /** The loop ends well only on an answer of 0 to CMD41, right behind an answer of 1 to CMD55. */
  lemma {:induction false} ActivateMeans(b: VBus) returns (c: VBus)
    requires Activate(b).1
    ensures CmdR1(c, 0x77, 0, 0).1 == 1
    ensures CmdR1(CmdR1(c, 0x77, 0, 0).0, 0x69, 0x4000, 0) == (Activate(b).0, 0)
    decreases b.dev.recvidx > 0, Ones(b.dev)
  {
    hide CmdR1, Ones;
    c := b;
    var d, q := CmdR1(CmdR1(b, 0x77, 0, 0).0, 0x69, 0x4000, 0).0, CmdR1(CmdR1(b, 0x77, 0, 0).0, 0x69, 0x4000, 0).1;
    if q == 1 {
      AgainShrinks(b);
      c := ActivateMeans(d);
    }
  }

  /** An answer of 1 to both begins another round. */
  lemma AnotherRound(b: VBus, c: VBus)
    requires CmdR1(b, 0x77, 0, 0).1 == 1 && CmdR1(CmdR1(b, 0x77, 0, 0).0, 0x69, 0x4000, 0) == (c, 1)
    ensures Activate(b) == Activate(c)
  {
    hide CmdR1, Ones;
    AgainShrinks(b);
  }

  /** CMD0 got by only on an answer of 1. */
  lemma {:induction false} ResetMeans(b: VBus, k: nat) returns (c: VBus)
    requires k > 0 && Reset(b, k).1
    ensures CmdR1(c, 0x40, 0, 0) == (Reset(b, k).0, 1)
    decreases k
  {
    hide CmdR1;
    c := b;
    if CmdR1(b, 0x40, 0, 0).1 != 1 { c := ResetMeans(CmdR1(b, 0x40, 0, 0).0, k - 1); }
  }

  /** On any card: where SDC$ ends in `_err` the card is deselected and SDC_SDHC stays; where it
      does not, CMD0 was answered with 1, CMD8 with 1 and its own argument, and CMD41 with 0. */
  lemma StartMeans(b: VBus, sdhc: word)
    ensures var (c, h, ok) := Start(b, sdhc);
            !ok ==> !c.selected && h == sdhc
    ensures Start(b, sdhc).2 ==>
            exists x: VBus, y: VBus ::
              && CmdR1(x, 0x40, 0, 0).1 == 1
              && CmdR7(CmdR1(x, 0x40, 0, 0).0, 0x48, 0, 0x1aa).1 == 1
              && CmdR7(CmdR1(x, 0x40, 0, 0).0, 0x48, 0, 0x1aa).2 == 0
              && CmdR7(CmdR1(x, 0x40, 0, 0).0, 0x48, 0, 0x1aa).3 == 0x1aa
              && CmdR1(y, 0x69, 0x4000, 0).1 == 0
  {
    hide CmdR1, CmdR7, Reset, Activate, ReadSdhc, Idles;
    if Start(b, sdhc).2 {
      var b0 := Idles(b, 10);
      var x := ResetMeans(b0, 10);
      var b1 := Reset(b0, 10).0;
      var z := ActivateMeans(CmdR7(b1, 0x48, 0, 0x1aa).0);
      var y := CmdR1(z, 0x77, 0, 0).0;
      assert CmdR1(y, 0x69, 0x4000, 0).1 == 0;
    }
  }

  /** CMD55 and CMD41 at stage 10: one round is enough. */
  lemma OneRound(b: VBus)
    requires Rest(b.dev) && b.dev.initstat == 10
    ensures var (c, r) := CmdR1(b, 0x77, 0, 0);
            var (e, q) := CmdR1(c, 0x69, 0x4000, 0);
            r == 1 && q == 0 && Stage(e, 12, b.dev.fp) && Activate(b) == (e, true)
  {
    hide CmdR1, Rest, Ones;
    Cmd55(b);
    Cmd41(CmdR1(b, 0x77, 0, 0).0);
  }

  lemma IdleSettles(b: VBus)
    requires Settling(b.dev)
    ensures var c := Idle(b).0;
            && Settling(c.dev) && c.dev.fp == b.dev.fp && c.selected == b.selected
            && (Started(c.dev) <==> Started(b.dev))
  {
    hide Finish;
    var d := b.dev;
    if d.recvidx == 5 {
      FillLast(d);
      Finished(d);
    } else if d.recvidx > 0 {
      FillStep(d);
    }
  }

  lemma {:induction false} IdlesSettle(b: VBus, k: nat)
    requires Settling(b.dev)
    ensures var c := Idles(b, k);
            && Settling(c.dev) && c.dev.fp == b.dev.fp && c.selected == b.selected
            && (Started(c.dev) <==> Started(b.dev))
    decreases k
  {
    hide Settling, Started, Idle;
    if k > 0 {
      IdleSettles(b);
      IdlesSettle(Idle(b).0, k - 1);
    }
  }

  lemma ResetSettles(b: VBus)
    requires Settling(b.dev)
    ensures var (c, ok) := Reset(b, 10); (ok <==> !Started(b.dev)) && Stage(c, if ok then 9 else 12, b.dev.fp)
  {
    hide CmdR1, Settling, Started;
    FirstCmd0(b);
    var (c, r) := CmdR1(b, 0x40, 0, 0);
    if r != 1 { ResetWorks(c, 9); }
  }

  /** SDC$ succeeds on a card, in the middle of a frame or an answer as well as at rest,
      exactly when the card has not been initialized before and is not about to be; in any
      case the card is then initialized, at rest and deselected, its image file untouched, and
      on success SDC_SDHC is set. */
  lemma StartIff(b: VBus, sdhc: word)
    requires Settling(b.dev)
    ensures var (c, h, ok) := Start(b, sdhc);
            && (ok <==> !Started(b.dev))
            && Stage(c, 12, b.dev.fp)
            && h == if ok then 0x4000 else sdhc
  {
    hide Reset, Activate, ReadSdhc, CmdR7, Rest, Idles, Settling, Started;
    IdlesSettle(b, 10);
    var b0 := Idles(b, 10);
    ResetSettles(b0);
    var (b1, reset) := Reset(b0, 10);
    if reset {
      Cmd8(b1);
      var b2 := CmdR7(b1, 0x48, 0, 0x1aa).0;
      OneRound(b2);
      Cmd58(Activate(b2).0);
    }
  }

  /** At rest it is simply a matter of the stage. */
  lemma RestSettles(d: Dev)
    requires Rest(d)
    ensures Settling(d) && (Started(d) <==> d.initstat == 12)
  {
  }

  /** And a card that is not initialized is covered whatever it is doing. */
  lemma EarlySettles(d: Dev)
    requires Valid(d) && d.initstat < 12
    ensures Settling(d) && (Started(d) <==> Completing(d))
  {
  }
}
