/** The SD card byte for byte on its wire, whoever drives it: what it answers to the frames of
    initialization, to a read and to a write. */
module SdWire {
  import opened Words
  import Crc
  import opened S = SdSpec
  import D = SdDriverSpec
  import opened SdProtocol

  function Idles(n: nat): (s: seq<byte>)
    ensures |s| == n
  {
    seq(n, _ => 0xff)
  }

  lemma FeedNone(d: Dev)
    requires Valid(d)
    ensures Feed(d, []) == (d, [])
  {
  }

  lemma FeedOne(d: Dev, v: byte)
    requires Valid(d)
    ensures Feed(d, [v]) == (S.Spix(d, v).0, [S.Spix(d, v).1])
  {
    hide S.Spix, Valid;
    assert [v][1..] == [];
    var (e, r) := S.Spix(d, v);
    var none: seq<byte> := [];
    FeedNone(e);
    assert Feed(d, [v]) == (Feed(e, none).0, [r] + Feed(e, none).1);
    assert [r] + none == [r];
  }

  /** One run after another. */
  lemma FeedTwo(d: Dev, a: seq<byte>, b: seq<byte>, e: Dev, f: Dev, x: seq<byte>, y: seq<byte>)
    requires Valid(d) && Valid(e) && Feed(d, a) == (e, x) && Feed(e, b) == (f, y)
    ensures Feed(d, a + b) == (f, x + y)
  {
    hide Feed, Valid;
    FeedAppend(d, a, b);
  }

  // ----- frames -----

  lemma {:induction false} FramePart(d: Dev, heard: seq<byte>, bs: seq<byte>)
    requires Quiet(d) && |heard + bs| <= 5 && (|heard + bs| > 0 ==> 0x40 <= (heard + bs)[0] <= 0x7f)
    ensures Valid(Heard(d, heard)) && Feed(Heard(d, heard), bs) == (Heard(d, heard + bs), Idles(|bs|))
    decreases |bs|
  {
    hide S.Spix, Quiet;
    if bs == [] {
      assert heard + bs == heard;
      HeardValid(d, heard);
      FeedNone(Heard(d, heard));
    } else {
      hide Heard;
      HearByte(d, heard, bs[0]);
      assert heard + [bs[0]] + bs[1..] == heard + bs;
      FramePart(d, heard + [bs[0]], bs[1..]);
      assert [0xff] + Idles(|bs| - 1) == Idles(|bs|);
    }
  }

  lemma HeardValid(d: Dev, bs: seq<byte>)
    requires Quiet(d) && |bs| <= 5
    ensures Valid(Heard(d, bs))
  {
  }

  /** A frame of six bytes goes unanswered while it comes in, and is then obeyed. */
  lemma FrameHeard(d: Dev, f: seq<byte>)
    requires Quiet(d) && |f| == 6 && 0x40 <= f[0] <= 0x7f
    ensures Quiet(d.(recvbuf := f)) && Feed(d, f) == (Command(d.(recvbuf := f)), Idles(6))
  {
    var g := f[..5];
    assert Heard(d, []) == d by { assert [] + d.recvbuf[0..] == d.recvbuf; }
    hide S.Spix, Quiet, Command;
    assert [] + g == g;
    FramePart(d, [], g);
    HearLast(d, g, f[5]);
    assert g + [f[5]] == f;
    hide Heard;
    FeedOne(Heard(d, g), f[5]);
    FeedTwo(d, g, [f[5]], Heard(d, g), Command(d.(recvbuf := f)), Idles(5), [0xff]);
    assert Idles(5) + [0xff] == Idles(6);
  }

  /** Bytes that are queued come out one after another on idle bytes. */
  lemma {:induction false} QueueDrains(d: Dev, n: nat)
    requires Valid(d) && d.initstat >= 8 && d.sendidx >= 0 && n == 5 - d.sendidx
    ensures Valid(d.(sendidx := -1)) && Feed(d, Idles(n)) == (d.(sendidx := -1), d.sendbuf[d.sendidx..])
    decreases n
  {
    PopsOne(d);
    hide S.Spix;
    var e := S.Spix(d, 0xff).0;
    assert Idles(n)[0] == 0xff && Idles(n)[1..] == Idles(n - 1);
    if n == 1 {
      assert d.sendbuf[d.sendidx..] == [d.sendbuf[4]] && Idles(1) == [0xff];
      FeedOne(d, 0xff);
    } else {
      QueueDrains(e, n - 1);
      assert [d.sendbuf[d.sendidx]] + d.sendbuf[d.sendidx + 1..] == d.sendbuf[d.sendidx..];
    }
  }

  lemma PopsOne(d: Dev)
    requires Valid(d) && d.initstat >= 8 && d.sendidx >= 0
    ensures S.Spix(d, 0xff) == (d.(sendidx := if d.sendidx == 4 then -1 else d.sendidx + 1), d.sendbuf[d.sendidx])
  {
  }

  // ----- initialization -----

  /** A frame and idle bytes for its answer. */
  lemma Exchange(d: Dev, f: seq<byte>, n: nat)
    requires Quiet(d) && |f| == 6 && 0x40 <= f[0] <= 0x7f
    requires Quiet(d.(recvbuf := f)) && var e := Command(d.(recvbuf := f));
             e.initstat >= 8 && e.sendidx >= 0 && n == 5 - e.sendidx
    ensures var e := Command(d.(recvbuf := f));
            Feed(d, f + Idles(n)) == (e.(sendidx := -1), Idles(6) + e.sendbuf[e.sendidx..])
  {
    var e := Command(d.(recvbuf := f));
    hide Command, Quiet, Valid, Feed;
    FrameHeard(d, f);
    QuietValid(d, f);
    QueueDrains(e, n);
    FeedTwo(d, f, Idles(n), e, e.(sendidx := -1), Idles(6), e.sendbuf[e.sendidx..]);
  }

  lemma QuietValid(d: Dev, f: seq<byte>)
    requires Quiet(d) && Quiet(d.(recvbuf := f))
    ensures Valid(d) && Valid(Command(d.(recvbuf := f)))
  {
  }

  /** CMD0, CMD8 with 0x1aa, CMD55 and CMD41 with 0x4000, each with its answer, bring a card
      from the start of its initialization to the end. */
  lemma InitOnWire(d: Dev, c0: byte, c8: byte, c55: byte, c41: byte, x: byte, y: byte)
    requires Quiet(d) && d.initstat == 8
    ensures var (a, r0) := Feed(d, [0x40, 0, 0, 0, 0, c0] + Idles(1));
            var (b, r8) := Feed(a, [0x48, 0, 0, 0x01, 0xaa, c8] + Idles(5));
            var (c, r55) := Feed(b, [0x77, 0, 0, 0, 0, c55] + Idles(1));
            var (e, r41) := Feed(c, [0x69, 0x40, 0, x, y, c41] + Idles(1));
            && r0 == Idles(6) + [0x01] && r8 == Idles(6) + [0x01, 0, 0, 0x01, 0xaa]
            && r55 == Idles(6) + [0x01] && r41 == Idles(6) + [0x00]
            && Quiet(e) && e.initstat == 12 && e.fp == d.fp
  {
    hide Feed;
    var a := InitStep(d, [0x40, 0, 0, 0, 0, c0], 1, [0x01], 9);
    var b := InitStep(a, [0x48, 0, 0, 0x01, 0xaa, c8], 5, [0x01, 0, 0, 0x01, 0xaa], 10);
    var c := InitStep(b, [0x77, 0, 0, 0, 0, c55], 1, [0x01], 11);
    var e := InitStep(c, [0x69, 0x40, 0, x, y, c41], 1, [0x00], 12);
  }

  lemma InitStep(d: Dev, f: seq<byte>, n: nat, answer: seq<byte>, stage: nat) returns (e: Dev)
    requires Quiet(d) && |f| == 6 && 0x40 <= f[0] <= 0x7f && 8 <= d.initstat < 12 && stage == d.initstat + 1
    requires if stage == 10 then n == 5 && answer == [0x01, 0, 0, 0x01, 0xaa]
             else n == 1 && answer == [if stage == 12 then 0x00 else 0x01]
    requires f[0] == (if stage == 9 then 0x40 else if stage == 10 then 0x48 else if stage == 11 then 0x77 else 0x69)
    requires stage == 10 ==> f[3] == 0x01 && f[4] == 0xaa
    requires stage == 12 ==> f[1] == 0x40 && f[2] == 0
    ensures Feed(d, f + Idles(n)) == (e, Idles(6) + answer) && Quiet(e) && e.initstat == stage && e.fp == d.fp
  {
    hide Feed;
    assert Quiet(d.(recvbuf := f));
    var g := Command(d.(recvbuf := f));
    assert g.initstat == stage && g.sendidx == 5 - n && g.sendbuf[g.sendidx..] == answer;
    Exchange(d, f, n);
    e := g.(sendidx := -1);
  }

  // ----- a read -----

  /** The sector at this place of the file; behind its end the card reads 0xff. */
  function Sector(data: seq<byte>, at: nat): (s: seq<byte>)
    ensures |s| == 512
  {
    seq(512, i requires 0 <= i < 512 => if at + i < |data| then data[at + i] else 0xff)
  }

  /** What comes out of a read that has come to byte i. */
  lemma {:induction false} SectorOut(d: Dev, at: nat, i: nat)
    requires Valid(d) && d.initstat == 12 && d.sendidx == -1 && d.cmd17 == i < 512 && d.fp.File?
    requires d.fp.pos == if at + i < |d.fp.data| || i == 0 || at + i - 1 < |d.fp.data| then at + i else d.fp.pos
    requires at + i >= |d.fp.data| ==> d.fp.pos >= |d.fp.data|
    ensures var (e, out) := Feed(d, Idles(512 - i));
            var crc := D.Fold(d.crc, out);
            && out == Sector(d.fp.data, at)[i..] && Valid(e) && e.initstat == 12 && e.recvidx == 0
            && e.sendidx == 3 && e.sendbuf[3..] == [crc / 0x100, crc % 0x100] && e.cmd17 == -1 && e.cmd24 == -2
            && e.fp.File? && e.fp.data == d.fp.data
    decreases 512 - i
  {
    hide Crc.CardCrc, Crc.ForthCrc;
    var n := 512 - i;
    assert Idles(n)[0] == 0xff && Idles(n)[1..] == Idles(n - 1);
    var (e, x) := S.Spix(d, 0xff);
    assert x == Sector(d.fp.data, at)[i];
    Crc.CrcsAgree(d.crc, x);
    if n == 1 {
      FeedNone(e);
      D.FoldNext(d.crc, [x]);
      D.FoldDone(Crc.ForthCrc(d.crc, x));
      assert Sector(d.fp.data, at)[i..] == [x] && [x][1..] == [];
    } else {
      SectorOut(e, at, i + 1);
      var rest := Feed(e, Idles(n - 1)).1;
      D.FoldNext(d.crc, [x] + rest);
      assert ([x] + rest)[1..] == rest;
      assert [x] + Sector(d.fp.data, at)[i + 1..] == Sector(d.fp.data, at)[i..];
    }
  }

  /** CMD17 for sector 256*h+l on an initialized card: the answer 0, the token 0xfe, the 512
      bytes and their CRC16 from a register of 0, high byte first. Then the card is at rest and
      the file as it was. */
  lemma ReadOnWire(d: Dev, a1: byte, a2: byte, h: byte, l: byte, c: byte)
    requires Quiet(d) && d.initstat == 12 && d.fp.File?
    ensures var (e, out) := Feed(d, [0x51, a1, a2, h, l, c] + Idles(2) + Idles(512) + Idles(2));
            var data := Sector(d.fp.data, ((h as int) * 256 + l) * 512);
            var crc := D.Fold(0, data);
            && out == Idles(6) + [0x00, 0xfe] + data + [crc / 0x100, crc % 0x100]
            && Quiet(e) && e.initstat == 12 && e.fp.File? && e.fp.data == d.fp.data
  {
    hide Feed;
    var f: seq<byte> := [0x51, a1, a2, h, l, c];
    var at := ((h as int) * 256 + l) * 512;
    assert Quiet(d.(recvbuf := f));
    var g := Command(d.(recvbuf := f));
    assert g.sendbuf[3..] == [0x00, 0xfe] && g.fp == File(d.fp.data, at) && g.crc == 0;
    Exchange(d, f, 2);
    var k := g.(sendidx := -1);
    SectorOut(k, at, 0);
    var (m, data) := Feed(k, Idles(512));
    assert data == Sector(d.fp.data, at) by { assert Sector(d.fp.data, at)[0..] == Sector(d.fp.data, at); }
    QueueDrains(m, 2);
    var e := m.(sendidx := -1);
    var crc := D.Fold(0, data);
    FeedTwo(d, f + Idles(2), Idles(512), k, m, Idles(6) + [0x00, 0xfe], data);
    FeedTwo(d, f + Idles(2) + Idles(512), Idles(2), m, e, Idles(6) + [0x00, 0xfe] + data, [crc / 0x100, crc % 0x100]);
  }

  // ----- a write -----

  /** The file with a sector stored; a gap behind its end is filled with zeros. */
  function Written(data: seq<byte>, at: nat, bs: seq<byte>): seq<byte> {
    seq(if |data| < at + |bs| && bs != [] then at + |bs| else |data|, i requires 0 <= i =>
      if at <= i < at + |bs| then bs[i - at] else if i < |data| then data[i] else 0)
  }

  lemma {:induction false} SectorIn(d: Dev, bs: seq<byte>)
    requires Valid(d) && d.initstat == 12 && d.sendidx == -1 && d.cmd17 == -1 && d.fp.File?
    requires 0 <= d.cmd24 && d.cmd24 + |bs| <= 512
    ensures var (e, out) := Feed(d, bs);
            && out == Idles(|bs|) && Valid(e) && e.initstat == 12 && e.sendidx == -1 && e.cmd17 == -1
            && e.cmd24 == d.cmd24 + |bs| && e.recvidx == 0
            && e.fp == File(Written(d.fp.data, d.fp.pos, bs), d.fp.pos + |bs|)
    decreases |bs|
  {
    hide Crc.CardCrc;
    if bs == [] {
      FeedNone(d);
      assert Written(d.fp.data, d.fp.pos, []) == d.fp.data;
    } else {
      var e := S.Spix(d, bs[0]).0;
      SectorIn(e, bs[1..]);
      assert [0xff] + Idles(|bs| - 1) == Idles(|bs|);
      WrittenMore(d.fp.data, d.fp.pos, bs);
      PutIs(d.fp, bs[0]);
    }
  }

  lemma PutIs(f: File, v: byte)
    requires f.File?
    ensures Putc(f, v) == File(Written(f.data, f.pos, [v]), f.pos + 1)
  {
    assert Putc(f, v).data == Written(f.data, f.pos, [v]);
  }

  lemma WrittenMore(data: seq<byte>, at: nat, bs: seq<byte>)
    requires bs != []
    ensures Written(Written(data, at, [bs[0]]), at + 1, bs[1..]) == Written(data, at, bs)
  {
  }

  /** CMD24 for sector 256*h+l: the answer 0, idle bytes, the token 0xfe, 512 bytes, two bytes of
      CRC that are not looked at, and the data response 5. The file has the sector at its place
      and nothing else changed. */
  lemma WriteOnWire(d: Dev, a1: byte, a2: byte, h: byte, l: byte, c: byte, bs: seq<byte>, hi: byte, lo: byte)
    requires Quiet(d) && d.initstat == 12 && d.fp.File? && |bs| == 512
    ensures var (e, out) := Feed(d, [0x58, a1, a2, h, l, c] + Idles(1) + [0xff, 0xfe] + bs + [hi, lo] + Idles(1));
            && out == Idles(6) + [0x00] + Idles(2) + Idles(512) + Idles(2) + [0x05]
            && Quiet(e) && e.initstat == 12 && e.fp.File?
            && e.fp.data == Written(d.fp.data, ((h as int) * 256 + l) * 512, bs)
  {
    hide Feed, Written;
    var f: seq<byte> := [0x58, a1, a2, h, l, c];
    var at := ((h as int) * 256 + l) * 512;
    assert Quiet(d.(recvbuf := f));
    var g := Command(d.(recvbuf := f));
    assert g.sendbuf[4..] == [0x00] && g.fp == File(d.fp.data, at);
    Exchange(d, f, 1);
    var k := g.(sendidx := -1);
    TokenStarts(k);
    var m := k.(cmd24 := 0);
    SectorIn(m, bs);
    var n := Feed(m, bs).0;
    CrcTaken(n, hi, lo);
    var p := Feed(n, [hi, lo]).0;
    QueueDrains(p, 1);
    var e := p.(sendidx := -1);
    assert p.sendbuf[4..] == [0x05];
    FeedTwo(d, f + Idles(1), [0xff, 0xfe], k, m, Idles(6) + [0x00], Idles(2));
    FeedTwo(d, f + Idles(1) + [0xff, 0xfe], bs, m, n, Idles(6) + [0x00] + Idles(2), Idles(512));
    FeedTwo(d, f + Idles(1) + [0xff, 0xfe] + bs, [hi, lo], n, p, Idles(6) + [0x00] + Idles(2) + Idles(512), Idles(2));
    FeedTwo(d, f + Idles(1) + [0xff, 0xfe] + bs + [hi, lo], Idles(1), p, e,
            Idles(6) + [0x00] + Idles(2) + Idles(512) + Idles(2), [0x05]);
  }

  lemma TokenStarts(d: Dev)
    requires Valid(d) && d.initstat == 12 && d.sendidx == -1 && d.cmd17 == -1 && d.cmd24 == -1
    ensures Valid(d.(cmd24 := 0)) && Feed(d, [0xff, 0xfe]) == (d.(cmd24 := 0), Idles(2))
  {
    FeedOne(d, 0xff);
    FeedOne(d, 0xfe);
    assert [0xff, 0xfe] == [0xff] + [0xfe] && Idles(2) == [0xff] + [0xff];
    FeedTwo(d, [0xff], [0xfe], d, d.(cmd24 := 0), [0xff], [0xff]);
  }

  lemma CrcTaken(d: Dev, hi: byte, lo: byte)
    requires Valid(d) && d.initstat == 12 && d.sendidx == -1 && d.cmd17 == -1 && d.cmd24 == 512 && d.fp.File?
    ensures var (e, out) := Feed(d, [hi, lo]);
            && out == Idles(2) && Valid(e) && e.initstat == 12 && e.sendidx == 4 && e.sendbuf[4] == 5
            && e.cmd17 == -1 && e.cmd24 == -2 && e.recvidx == 0 && e.fp == d.fp
  {
    FeedOne(d, hi);
    var m := S.Spix(d, hi).0;
    FeedOne(m, lo);
    assert [hi, lo] == [hi] + [lo] && Idles(2) == [0xff] + [0xff];
    FeedTwo(d, [hi], [lo], m, S.Spix(m, lo).0, [0xff], [0xff]);
  }
}
