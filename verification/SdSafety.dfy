/** What holds of the SD card over every byte stream, whoever sends it. */
module SdSafety {
  import opened Words
  import opened SdSpec

  // ----- the frames that initialize a card -----

  predicate IsCommand(b: byte) {
    0x40 <= b <= 0x7f
  }

  /** Six bytes from i on are a frame with this command number. */
  predicate Frame(bs: seq<byte>, i: nat, cmd: byte) {
    i + 6 <= |bs| && IsCommand(bs[i]) && bs[i] % 0x40 == cmd
  }

  /** No frame starts in [i, j). */
  predicate Silent(bs: seq<byte>, i: nat, j: nat) {
    i <= j <= |bs| && forall k :: i <= k < j ==> !IsCommand(bs[k])
  }

  predicate Arg1Is(bs: seq<byte>, i: nat, v: word) {
    i + 6 <= |bs| && (bs[i + 1] as int) * 0x100 + (bs[i + 2] as int) == v
  }

  predicate Arg2Is(bs: seq<byte>, i: nat, v: word) {
    i + 6 <= |bs| && (bs[i + 3] as int) * 0x100 + (bs[i + 4] as int) == v
  }

  /** CMD0 at i, after the eight bytes that wake the card. */
  predicate Cmd0At(bs: seq<byte>, i: nat) {
    8 <= i && Frame(bs, i, 0)
  }

  /** The next frame after the one-byte reply is CMD8 with 0x1aa. */
  predicate Cmd8At(bs: seq<byte>, i: nat, j: nat) {
    Silent(bs, i + 7, j) && Frame(bs, j, 8) && Arg2Is(bs, j, 0x01aa)
  }

  /** The next frame after the five-byte reply is CMD55. */
  predicate Cmd55At(bs: seq<byte>, j: nat, k: nat) {
    Silent(bs, j + 11, k) && Frame(bs, k, 55)
  }

  /** The next frame after the one-byte reply is CMD41 with 0x4000. */
  predicate Cmd41At(bs: seq<byte>, k: nat, l: nat) {
    Silent(bs, k + 7, l) && Frame(bs, l, 41) && Arg1Is(bs, l, 0x4000)
  }

  predicate InitFrames(bs: seq<byte>, i: nat, j: nat, k: nat, l: nat) {
    Cmd0At(bs, i) && Cmd8At(bs, i, j) && Cmd55At(bs, j, k) && Cmd41At(bs, k, l)
  }

  /** The stream has contained the four frames, one right after the other. */
  ghost predicate Initialized(bs: seq<byte>) {
    exists i: nat, j: nat, k: nat, l: nat :: InitFrames(bs, i, j, k, l)
  }

  // ----- what a card state says about the bytes so far -----

  /** recvbuf holds the tail of the stream, and that tail starts like a frame. */
  predicate Partial(bs: seq<byte>, d: Dev) {
    && |d.recvbuf| == 6 && d.recvidx < 6 && d.recvidx <= |bs|
    && bs[|bs| - d.recvidx..] == d.recvbuf[..d.recvidx]
    && (d.recvidx > 0 ==> IsCommand(bs[|bs| - d.recvidx]))
  }

  /** After a frame that ended before s: still replying with n bytes, or reading on in
      silence since the reply. */
  predicate After(bs: seq<byte>, d: Dev, s: nat, n: nat) {
    n <= 5 &&
    if d.sendidx >= 0 then |bs| + 5 == s + n + d.sendidx && d.recvidx == 0
    else Partial(bs, d) && Silent(bs, s + n, |bs| - d.recvidx)
  }

  ghost predicate History(bs: seq<byte>, d: Dev) {
    && d.initstat <= 12
    && (d.initstat < 8 ==> |bs| == d.initstat && d.recvidx == 0 && d.sendidx == -1)
    && (d.initstat == 8 ==> Partial(bs, d) && |bs| - d.recvidx >= 8 && d.sendidx == -1)
    && (d.initstat == 9 ==> exists i: nat :: Cmd0At(bs, i) && After(bs, d, i + 6, 1))
    && (d.initstat == 10 ==> exists i: nat, j: nat :: Cmd0At(bs, i) && Cmd8At(bs, i, j) && After(bs, d, j + 6, 5))
    && (d.initstat == 11 ==> exists i: nat, j: nat, k: nat :: Cmd0At(bs, i) && Cmd8At(bs, i, j) && Cmd55At(bs, j, k)
                                             && After(bs, d, k + 6, 1))
    && (d.initstat == 12 ==> Initialized(bs))
  }

  // ----- one more byte -----

  lemma FramesStay(bs: seq<byte>, v: byte)
    ensures forall i: nat :: Cmd0At(bs, i) ==> Cmd0At(bs + [v], i)
    ensures forall i: nat, j: nat :: Cmd8At(bs, i, j) ==> Cmd8At(bs + [v], i, j)
    ensures forall i: nat, j: nat :: Cmd55At(bs, i, j) ==> Cmd55At(bs + [v], i, j)
    ensures forall i: nat, j: nat :: Cmd41At(bs, i, j) ==> Cmd41At(bs + [v], i, j)
  {
  }

  /** A byte that neither starts nor continues a frame, or is spoken over by a reply. */
  lemma AfterReply(bs: seq<byte>, d: Dev, v: byte, s: nat, n: nat)
    requires Valid(d) && 9 <= d.initstat <= 11 && d.cmd17 == -1 && d.cmd24 == -2
    requires d.sendidx >= 0 && After(bs, d, s, n)
    ensures After(bs + [v], Spix(d, v).0, s, n) && Spix(d, v).0.initstat == d.initstat
  {
  }

  lemma AfterByte(bs: seq<byte>, d: Dev, v: byte, s: nat, n: nat)
    requires Valid(d) && 9 <= d.initstat <= 11 && d.cmd17 == -1 && d.cmd24 == -2
    requires d.sendidx < 0 && After(bs, d, s, n) && d.recvidx < 5
    ensures After(bs + [v], Spix(d, v).0, s, n) && Spix(d, v).0.initstat == d.initstat
  {
    PartialByte(bs, d, v);
  }

  lemma PartialByte(bs: seq<byte>, d: Dev, v: byte)
    requires Valid(d) && 8 <= d.initstat <= 11 && d.cmd17 == -1 && d.cmd24 == -2
    requires d.sendidx < 0 && Partial(bs, d) && d.recvidx < 5
    ensures var e := Spix(d, v).0;
            && Partial(bs + [v], e) && e.initstat == d.initstat && e.sendidx == -1
            && |bs| - d.recvidx <= |bs| + 1 - e.recvidx
            && (forall k :: |bs| - d.recvidx <= k < |bs| + 1 - e.recvidx ==> !IsCommand((bs + [v])[k]))
  {
    var e := Spix(d, v).0;
    var cs := bs + [v];
    if d.recvidx == 0 && !IsCommand(v) {
      assert cs[|cs|..] == [];
    } else {
      assert cs[|cs| - e.recvidx..] == bs[|bs| - d.recvidx..] + [v];
      assert e.recvbuf[..e.recvidx] == d.recvbuf[..d.recvidx] + [v];
    }
  }

  /** The sixth byte completes the frame that stands at the end of the stream. */
  lemma FrameEnds(bs: seq<byte>, d: Dev, v: byte)
    requires Valid(d) && 8 <= d.initstat <= 11 && d.cmd17 == -1 && d.cmd24 == -2
    requires d.sendidx < 0 && Partial(bs, d) && d.recvidx == 5
    ensures var r, at := d.recvbuf[5 := v], |bs| - 5;
            && Spix(d, v).0 == Command(d.(recvbuf := r, recvidx := 0))
            && (bs + [v])[at..] == r && Frame(bs + [v], at, CmdOf(r))
            && Arg1Is(bs + [v], at, Arg1(r)) && Arg2Is(bs + [v], at, Arg2(r))
  {
    var r, at, cs := d.recvbuf[5 := v], |bs| - 5, bs + [v];
    assert cs[at..] == bs[at..] + [v];
    assert r == d.recvbuf[..5] + [v];
    assert forall k :: 0 <= k < 6 ==> cs[at + k] == cs[at..][k];
    assert cs[at] == r[0] && cs[at + 1] == r[1] && cs[at + 2] == r[2] && cs[at + 3] == r[3] && cs[at + 4] == r[4];
  }

  lemma HistoryStep(bs: seq<byte>, d: Dev, v: byte)
    requires Valid(d) && History(bs, d)
    ensures History(bs + [v], Spix(d, v).0)
  {
    hide Spix, Valid;
    FramesStay(bs, v);
    if d.initstat < 8 { EarlyStep(bs, d, v); }
    else if d.initstat == 8 { Step8(bs, d, v); }
    else if d.initstat == 9 { Step9(bs, d, v); }
    else if d.initstat == 10 { Step10(bs, d, v); }
    else if d.initstat == 11 { Step11(bs, d, v); }
    else { Step12(d, v); StaysInitialized(bs, v); }
  }

  lemma EarlyStep(bs: seq<byte>, d: Dev, v: byte)
    requires Valid(d) && History(bs, d) && d.initstat < 8
    ensures History(bs + [v], Spix(d, v).0)
  {
  }

  lemma Step12(d: Dev, v: byte)
    requires Valid(d) && d.initstat == 12
    ensures Spix(d, v).0.initstat == 12
  {
  }

  lemma StaysInitialized(bs: seq<byte>, v: byte)
    requires Initialized(bs)
    ensures Initialized(bs + [v])
  {
    FramesStay(bs, v);
    hide Cmd0At, Cmd8At, Cmd55At, Cmd41At;
    var i: nat, j: nat, k: nat, l: nat :| InitFrames(bs, i, j, k, l);
    assert InitFrames(bs + [v], i, j, k, l);
  }

  lemma Step8(bs: seq<byte>, d: Dev, v: byte)
    requires Valid(d) && History(bs, d) && d.initstat == 8
    ensures History(bs + [v], Spix(d, v).0)
  {
    hide Frame, Arg1Is, Arg2Is;
    if d.recvidx < 5 {
      PartialByte(bs, d, v);
    } else {
      FrameEnds(bs, d, v);
      var e := Spix(d, v).0;
      var i := |bs| - 5;
      assert e.initstat == 9 ==> Cmd0At(bs + [v], i) && After(bs + [v], e, i + 6, 1);
    }
  }

  lemma Step9(bs: seq<byte>, d: Dev, v: byte)
    requires Valid(d) && History(bs, d) && d.initstat == 9
    ensures History(bs + [v], Spix(d, v).0)
  {
    FramesStay(bs, v);
    hide Frame, Arg1Is, Arg2Is, Cmd0At;
    var i: nat :| Cmd0At(bs, i) && After(bs, d, i + 6, 1);
    var e := Spix(d, v).0;
    if d.sendidx >= 0 {
      AfterReply(bs, d, v, i + 6, 1);
      assert Cmd0At(bs + [v], i) && After(bs + [v], e, i + 6, 1);
    } else if d.recvidx < 5 {
      AfterByte(bs, d, v, i + 6, 1);
      assert Cmd0At(bs + [v], i) && After(bs + [v], e, i + 6, 1);
    } else {
      FrameEnds(bs, d, v);
      var j := |bs| - 5;
      assert Silent(bs + [v], i + 7, j);
      assert e.initstat == 10 ==> Cmd8At(bs + [v], i, j) && After(bs + [v], e, j + 6, 5);
    }
  }

  lemma Step10(bs: seq<byte>, d: Dev, v: byte)
    requires Valid(d) && History(bs, d) && d.initstat == 10
    ensures History(bs + [v], Spix(d, v).0)
  {
    FramesStay(bs, v);
    hide Frame, Arg1Is, Arg2Is, Cmd0At, Cmd8At;
    var i: nat, j: nat :| Cmd0At(bs, i) && Cmd8At(bs, i, j) && After(bs, d, j + 6, 5);
    var e := Spix(d, v).0;
    if d.sendidx >= 0 {
      AfterReply(bs, d, v, j + 6, 5);
      assert Cmd0At(bs + [v], i) && Cmd8At(bs + [v], i, j) && After(bs + [v], e, j + 6, 5);
    } else if d.recvidx < 5 {
      AfterByte(bs, d, v, j + 6, 5);
      assert Cmd0At(bs + [v], i) && Cmd8At(bs + [v], i, j) && After(bs + [v], e, j + 6, 5);
    } else {
      FrameEnds(bs, d, v);
      var k := |bs| - 5;
      assert Silent(bs + [v], j + 11, k);
      assert e.initstat == 11 ==> Cmd55At(bs + [v], j, k) && After(bs + [v], e, k + 6, 1);
    }
  }

  lemma Step11(bs: seq<byte>, d: Dev, v: byte)
    requires Valid(d) && History(bs, d) && d.initstat == 11
    ensures History(bs + [v], Spix(d, v).0)
  {
    FramesStay(bs, v);
    hide Frame, Arg1Is, Arg2Is, Cmd0At, Cmd8At, Cmd55At;
    var i: nat, j: nat, k: nat :| Cmd0At(bs, i) && Cmd8At(bs, i, j) && Cmd55At(bs, j, k) && After(bs, d, k + 6, 1);
    var e := Spix(d, v).0;
    if d.sendidx >= 0 {
      AfterReply(bs, d, v, k + 6, 1);
      assert Cmd0At(bs + [v], i) && Cmd8At(bs + [v], i, j) && Cmd55At(bs + [v], j, k) && After(bs + [v], e, k + 6, 1);
    } else if d.recvidx < 5 {
      AfterByte(bs, d, v, k + 6, 1);
      assert Cmd0At(bs + [v], i) && Cmd8At(bs + [v], i, j) && Cmd55At(bs + [v], j, k) && After(bs + [v], e, k + 6, 1);
    } else {
      FrameEnds(bs, d, v);
      var l := |bs| - 5;
      assert Silent(bs + [v], k + 7, l);
      assert e.initstat == 12 ==> InitFrames(bs + [v], i, j, k, l);
    }
  }

  // ----- every run -----

  lemma UntouchedBefore(d: Dev, v: byte)
    requires Valid(d) && d.initstat < 12
    ensures Spix(d, v).0.fp == d.fp
  {
  }

  /** From power-up, on every byte stream: the card state is within its bounds with at
      most one transfer active; the card is initialized only if the stream has contained
      CMD0, CMD8 with 0x1aa, CMD55 and CMD41 with 0x4000 as consecutive frames; and until
      then the image file has not been touched. */
  lemma {:induction false} SafeRun(d: Dev, bs: seq<byte>)
    requires Valid(d) && d.initstat == 0 && d.recvidx == 0 && d.sendidx == -1
    ensures var e := Feed(d, bs).0;
            && Valid(e) && !(e.cmd17 >= 0 && e.cmd24 > -2)
            && History(bs, e)
            && (e.initstat == 12 ==> Initialized(bs))
            && (e.fp != d.fp ==> e.initstat == 12)
    decreases |bs|
  {
    hide Spix, History;
    if bs == [] {
      StartHistory(d);
    } else {
      var n := |bs| - 1;
      var as_, v := bs[..n], bs[n];
      assert bs == as_ + [v];
      SafeRun(d, as_);
      FeedAppend(d, as_, [v]);
      var e := Feed(d, as_).0;
      assert Feed(e, [v]).0 == Spix(e, v).0 by { assert [v][1..] == []; }
      HistoryStep(as_, e, v);
      if e.initstat < 12 { UntouchedBefore(e, v); } else { Step12(e, v); }
      HistoryMeans(bs, Spix(e, v).0);
    }
  }

  lemma StartHistory(d: Dev)
    requires Valid(d) && d.initstat == 0 && d.recvidx == 0 && d.sendidx == -1
    ensures History([], d)
  {
  }

  lemma HistoryMeans(bs: seq<byte>, d: Dev)
    requires History(bs, d)
    ensures d.initstat == 12 ==> Initialized(bs)
  {
  }

  /** An initialized card stays initialized. */
  lemma {:induction false} NeverLeft(d: Dev, bs: seq<byte>)
    requires Valid(d) && d.initstat == 12
    ensures Feed(d, bs).0.initstat == 12
    decreases |bs|
  {
    hide Spix, Valid;
    if bs != [] {
      Step12(d, bs[0]);
      NeverLeft(Spix(d, bs[0]).0, bs[1..]);
    }
  }
}
