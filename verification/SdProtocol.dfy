/** Driver and card together: the polling words of blk.fs against the card of sdc.c. */
module SdProtocol {
  import opened Words
  import Crc
  import opened S = SdSpec
  import opened D = SdDriverSpec

  /** Between commands: nothing to send, nothing half received, no transfer. */
  predicate Rest(d: Dev) {
    Valid(d) && d.sendidx == -1 && d.cmd17 == -1 && d.cmd24 == -2 && d.recvidx == 0
  }

  /** At rest and awake. */
  predicate Quiet(d: Dev) {
    Rest(d) && d.initstat >= 8
  }

  function Awake(d: Dev): Dev
    requires Rest(d)
  {
    if d.initstat < 8 then d.(initstat := 8) else d
  }

  // ----- polling -----

  lemma IdleQuiet(b: VBus)
    requires b.selected && Quiet(b.dev)
    ensures Idle(b) == (b.(resp := 0xff), 0xff)
  {
  }

  lemma {:induction false} WaitQuiet(b: VBus, k: nat)
    requires b.selected && Quiet(b.dev) && k > 0
    ensures Wait(b, k) == (b.(resp := 0xff), 0xff)
    decreases k
  {
    hide Idle, Quiet;
    IdleQuiet(b);
    if k > 1 { WaitQuiet(b.(resp := 0xff), k - 1); }
  }

  /** Idling wakes a sleeping card, eight bytes at most. */
  lemma {:induction false} WaitAsleep(b: VBus, k: nat)
    requires b.selected && Rest(b.dev) && b.dev.initstat < 8 && k > 8 - b.dev.initstat
    ensures Wait(b, k) == (Bus(Awake(b.dev), true, 0xff), 0xff)
    decreases k
  {
    var c := Bus(b.dev.(initstat := b.dev.initstat + 1), true, 0xff);
    assert Idle(b) == (c, 0xff);
    hide Idle;
    if c.dev.initstat < 8 {
      WaitAsleep(c, k - 1);
    } else {
      WaitQuiet(c, k - 1);
    }
  }

  lemma WaitRest(b: VBus)
    requires b.selected && Rest(b.dev)
    ensures Wait(b, 20) == (Bus(Awake(b.dev), true, 0xff), 0xff)
  {
    hide Wait;
    if b.dev.initstat < 8 { WaitAsleep(b, 20); } else { WaitQuiet(b, 20); }
  }

  /** A queued byte other than $ff is what a wait finds. */
  lemma WaitQueued(b: VBus, v: byte)
    requires b.selected && b.dev.initstat >= 8 && 0 <= b.dev.sendidx && b.dev.sendbuf[b.dev.sendidx] == v != 0xff
    ensures Wait(b, 20) == (Bus(Popped(b.dev), true, v), v)
  {
  }

  /** The card after it has sent a queued byte. */
  function Popped(d: Dev): Dev
    requires Valid(d) && d.sendidx >= 0
  {
    d.(sendidx := if d.sendidx == 4 then -1 else d.sendidx + 1)
  }

  lemma IdleQueued(b: VBus)
    requires b.selected && b.dev.initstat >= 8 && 0 <= b.dev.sendidx
    ensures Idle(b) == (Bus(Popped(b.dev), true, b.dev.sendbuf[b.dev.sendidx]), b.dev.sendbuf[b.dev.sendidx])
  {
  }

  // ----- commands -----

  /** The card with the first bytes of a frame in recvbuf. */
  function Heard(d: Dev, bs: seq<byte>): Dev
    requires Quiet(d) && |bs| < 6
  {
    d.(recvbuf := bs + d.recvbuf[|bs|..], recvidx := |bs|)
  }

  lemma HearByte(d: Dev, bs: seq<byte>, v: byte)
    requires Quiet(d) && |bs| < 5 && (bs == [] ==> 0x40 <= v <= 0x7f)
    ensures Valid(Heard(d, bs)) && S.Spix(Heard(d, bs), v) == (Heard(d, bs + [v]), 0xff)
  {
    var e := Heard(d, bs);
    assert e.recvbuf[|bs| := v] == (bs + [v]) + d.recvbuf[|bs| + 1..];
  }

  lemma HearLast(d: Dev, bs: seq<byte>, v: byte)
    requires Quiet(d) && |bs| == 5
    ensures Valid(Heard(d, bs)) && Quiet(d.(recvbuf := bs + [v]))
    ensures S.Spix(Heard(d, bs), v) == (Command(d.(recvbuf := bs + [v])), 0xff)
  {
    var e := Heard(d, bs);
    assert e.recvbuf[5 := v] == bs + [v];
  }

  lemma {:induction false} HearAll(b: VBus, d: Dev, heard: seq<byte>, bs: seq<byte>)
    requires b.selected && Quiet(d) && |heard + bs| <= 5 && b.dev == Heard(d, heard)
    requires |heard + bs| > 0 ==> 0x40 <= (heard + bs)[0] <= 0x7f
    ensures SendAll(b, bs).selected && SendAll(b, bs).dev == Heard(d, heard + bs)
    decreases |bs|
  {
    hide S.Spix, Heard, Quiet;
    if bs == [] {
      assert heard + bs == heard;
    } else {
      HearByte(d, heard, bs[0]);
      assert heard + [bs[0]] + bs[1..] == heard + bs;
      HearAll(D.Spix(b, bs[0]).0, d, heard + [bs[0]], bs[1..]);
    }
  }

  function FrameOf(cmd: byte, a1: word, a2: word): seq<byte> {
    CmdBytes(cmd, a1, a2) + [CmdCrc(cmd, a1, a2)]
  }

  /** The card once it has received a command. */
  function Told(d: Dev, cmd: byte, a1: word, a2: word): (r: Dev)
    requires Rest(d)
    ensures Valid(r) && r.initstat >= 8
  {
    Command(Awake(d).(recvbuf := FrameOf(cmd, a1, a2)))
  }

  /** A command reaches a resting card whole, after it has been woken if need be; what
      the driver sees is the first byte of the reply. */
  lemma CmdReaches(b: VBus, cmd: byte, a1: word, a2: word)
    requires b.selected && Rest(b.dev) && 0x40 <= cmd <= 0x7f
    ensures Cmd(b, cmd, a1, a2) == Wait(Bus(Told(b.dev, cmd, a1, a2), true, 0xff), 20)
    ensures CmdOf(FrameOf(cmd, a1, a2)) == cmd % 0x40
    ensures S.Arg1(FrameOf(cmd, a1, a2)) == a1 && S.Arg2(FrameOf(cmd, a1, a2)) == a2
  {
    hide Wait, SendAll, S.Spix, CmdCrc, Command;
    WaitRest(b);
    var d := Awake(b.dev);
    var b1 := Bus(d, true, 0xff);
    assert Heard(d, []) == d by { assert [] + d.recvbuf[0..] == d.recvbuf; }
    var bs := CmdBytes(cmd, a1, a2);
    assert [] + bs == bs;
    HearAll(b1, d, [], bs);
    HearLast(d, bs, CmdCrc(cmd, a1, a2));
  }

  /** A command that is answered with one byte. */
  lemma CmdAnswered(b: VBus, cmd: byte, a1: word, a2: word, v: byte)
    requires b.selected && Rest(b.dev) && 0x40 <= cmd <= 0x7f
    requires var f := Told(b.dev, cmd, a1, a2); f.sendidx >= 0 && f.sendbuf[f.sendidx] == v != 0xff
    ensures Cmd(b, cmd, a1, a2) == (Bus(Popped(Told(b.dev, cmd, a1, a2)), true, v), v)
  {
    hide Cmd, Wait, Told;
    CmdReaches(b, cmd, a1, a2);
    WaitQueued(Bus(Told(b.dev, cmd, a1, a2), true, 0xff), v);
  }

  /** A command that is ignored. */
  lemma CmdIgnored(b: VBus, cmd: byte, a1: word, a2: word)
    requires b.selected && Rest(b.dev) && 0x40 <= cmd <= 0x7f
    requires Quiet(Told(b.dev, cmd, a1, a2))
    ensures Cmd(b, cmd, a1, a2) == (Bus(Told(b.dev, cmd, a1, a2), true, 0xff), 0xff)
  {
    hide Cmd, Wait, Told;
    CmdReaches(b, cmd, a1, a2);
    WaitQuiet(Bus(Told(b.dev, cmd, a1, a2), true, 0xff), 20);
  }

  /** At rest in a stage of initialization, with this image file. */
  predicate Stage(b: Bus, stage: nat, fp: File) {
    Rest(b.dev) && b.dev.initstat == stage && b.dev.fp == fp && !b.selected
  }

  lemma ToldFields(d: Dev, cmd: byte, a1: word, a2: word)
    requires Rest(d)
    ensures var e := Awake(d).(recvbuf := FrameOf(cmd, a1, a2));
            && Quiet(e) && Told(d, cmd, a1, a2) == Command(e) && e.fp == d.fp && e.initstat == Awake(d).initstat
            && CmdOf(e.recvbuf) == cmd % 0x40 && S.Arg1(e.recvbuf) == a1 && S.Arg2(e.recvbuf) == a2
  {
    hide CmdCrc;
  }

  // ----- the commands of SDC$ -----

  /** CMD0: stage 8 goes to 9 and answers 1; stages 9 to 11 fall back to 8 in silence; an
      initialized card answers 0. */
  lemma Cmd0(b: VBus)
    requires Rest(b.dev)
    ensures var (c, r) := CmdR1(b, 0x40, 0, 0);
            var n := b.dev.initstat;
            && Stage(c, if n <= 8 then 9 else if n < 12 then 8 else 12, b.dev.fp)
            && r == if n <= 8 then 1 else if n < 12 then 0xff else 0
  {
    hide Cmd, FrameOf, CmdOf;
    var s := Select(b, true);
    ToldFields(s.dev, 0x40, 0, 0);
    var n := Awake(b.dev).initstat;
    if n == 8 { CmdAnswered(s, 0x40, 0, 0, 1); }
    else if n == 12 { CmdAnswered(s, 0x40, 0, 0, 0); }
    else { CmdIgnored(s, 0x40, 0, 0); }
  }

  /** Up to ten CMD0s bring any card but an initialized one to stage 9. */
  lemma {:induction false} ResetWorks(b: VBus, k: nat)
    requires Rest(b.dev) && k >= 2
    ensures var (c, ok) := Reset(b, k);
            && (ok <==> b.dev.initstat < 12)
            && Stage(c, if ok then 9 else 12, b.dev.fp)
    decreases k
  {
    hide CmdR1, Rest;
    Cmd0(b);
    var c := CmdR1(b, 0x40, 0, 0).0;
    if b.dev.initstat == 12 {
      ResetFails(b, k);
    } else if b.dev.initstat > 8 {
      Cmd0(c);
    }
  }

  lemma {:induction false} ResetFails(b: VBus, k: nat)
    requires Rest(b.dev) && k >= 1 && b.dev.initstat == 12
    ensures var (c, ok) := Reset(b, k); !ok && Stage(c, 12, b.dev.fp)
    decreases k
  {
    hide CmdR1, Rest;
    Cmd0(b);
    if k > 1 { ResetFails(CmdR1(b, 0x40, 0, 0).0, k - 1); }
  }

  /** CMD8 at stage 9. */
  lemma Cmd8(b: VBus)
    requires Rest(b.dev) && b.dev.initstat == 9
    ensures var (c, r, x, y) := CmdR7(b, 0x48, 0, 0x1aa);
            Stage(c, 10, b.dev.fp) && r == 1 && x == 0 && y == 0x1aa
  {
    hide Cmd, FrameOf, CmdOf, S.Arg2, Idle;
    var s := Select(b, true);
    ToldFields(s.dev, 0x48, 0, 0x1aa);
    CmdAnswered(s, 0x48, 0, 0x1aa, 1);
    var c := Cmd(s, 0x48, 0, 0x1aa).0;
    assert c.dev.sendidx == 1 && c.dev.sendbuf == [0x01, 0, 0, 0x01, 0xaa];
    IdleQueued(c);
    var c1 := Idle(c).0;
    IdleQueued(c1);
    var c2 := Idle(c1).0;
    IdleQueued(c2);
    var c3 := Idle(c2).0;
    IdleQueued(c3);
  }

  /** CMD55: stage 10 goes to 11 and answers 1; the other early stages fall back to 8 in
      silence; an initialized card answers 0. */
  lemma Cmd55(b: VBus)
    requires Rest(b.dev)
    ensures var (c, r) := CmdR1(b, 0x77, 0, 0);
            var n := b.dev.initstat;
            && Stage(c, if n == 10 then 11 else if n < 12 then 8 else 12, b.dev.fp)
            && r == if n == 10 then 1 else if n < 12 then 0xff else 0
  {
    hide Cmd, FrameOf, CmdOf;
    var s := Select(b, true);
    ToldFields(s.dev, 0x77, 0, 0);
    var n := Awake(b.dev).initstat;
    if n == 10 { CmdAnswered(s, 0x77, 0, 0, 1); }
    else if n == 12 { CmdAnswered(s, 0x77, 0, 0, 0); }
    else { CmdIgnored(s, 0x77, 0, 0); }
  }

  /** CMD41 at stage 11. */
  lemma Cmd41(b: VBus)
    requires Rest(b.dev) && b.dev.initstat == 11
    ensures var (c, r) := CmdR1(b, 0x69, 0x4000, 0); Stage(c, 12, b.dev.fp) && r == 0
  {
    hide Cmd, FrameOf, CmdOf, S.Arg1;
    var s := Select(b, true);
    ToldFields(s.dev, 0x69, 0x4000, 0);
    CmdAnswered(s, 0x69, 0x4000, 0, 0);
  }

  /** CMD58 on an initialized card: a bare 0, then idle bytes, which read as SDHC. */
  lemma Cmd58(b: VBus)
    requires Rest(b.dev) && b.dev.initstat == 12
    ensures var (c, h) := ReadSdhc(b); Stage(c, 12, b.dev.fp) && h == 0x4000
  {
    hide Cmd, FrameOf, CmdOf, Idle;
    var s := Select(b, true);
    ToldFields(s.dev, 0x7a, 0, 0);
    CmdAnswered(s, 0x7a, 0, 0, 0);
    var c := Cmd(s, 0x7a, 0, 0).0;
    IdleQuiet(c);
    var c1 := c.(resp := 0xff);
    IdleQuiet(c1);
    AndOnes(0x4000);
  }
}
