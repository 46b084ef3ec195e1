/** The SD card of emul/z80/sdc.c: one byte in, one byte out, as a function on card
    states. SdCard.dfy has the same card as an object. */
module SdSpec {
  import opened Words
  import Crc

  const SECTOR: nat := 512
  const IDLE: byte := 0xff
  const TOKEN: byte := 0xfe

  /** The open image file and its position, or none. */
  datatype File = NoFile | File(data: seq<byte>, pos: nat)

  datatype Dev = Dev(
    initstat: nat, recvbuf: seq<byte>, recvidx: nat, sendbuf: seq<byte>, sendidx: int,
    fp: File, cmd17: int, cmd24: int, crc: word)

  /** The indices stay inside their buffers, a transfer is active only on an initialized
      card, never a read and a write at once, and nothing else goes on while a frame comes in. */
  predicate Valid(d: Dev) {
    && d.initstat <= 12
    && |d.recvbuf| == 6 && d.recvidx < 6
    && |d.sendbuf| == 5 && -1 <= d.sendidx < 5
    && -1 <= d.cmd17 < SECTOR && -2 <= d.cmd24 <= 513
    && (d.cmd17 >= 0 ==> d.initstat == 12 && d.cmd24 == -2)
    && (d.cmd24 > -2 ==> d.initstat == 12)
    && (d.cmd24 >= 0 ==> d.sendidx == -1)
    && (d.recvidx > 0 ==> d.initstat >= 8 && d.sendidx == -1 && d.cmd17 == -1 && d.cmd24 == -2)
    && (d.initstat < 8 ==> d.sendidx == -1)
  }

  /** sdc_init; the buffers and the CRC hold whatever was there. */
  function Init(recv: seq<byte>, send: seq<byte>, crc: word, fp: File): (d: Dev)
    requires |recv| == 6 && |send| == 5
    ensures Valid(d)
  {
    Dev(0, recv, 0, send, -1, fp, -1, -2, crc)
  }

  // ----- the image file -----

  function Seek(f: File, off: nat): File {
    if f.NoFile? then f else f.(pos := off)
  }

  /** getc, with EOF read as the byte 0xff; no file gives 0xff as well. */
  function Getc(f: File): (File, byte) {
    if f.NoFile? || f.pos >= |f.data| then (f, IDLE)
    else (f.(pos := f.pos + 1), f.data[f.pos])
  }

  /** putc; writing past the end extends the file, with zeros in between. */
  function Putc(f: File, v: byte): File {
    if f.NoFile? then f
    else if f.pos < |f.data| then File(f.data[f.pos := v], f.pos + 1)
    else File(f.data + seq(f.pos - |f.data|, _ => 0) + [v], f.pos + 1)
  }

  // ----- one exchange -----

  function Spix(d: Dev, val: byte): (r: (Dev, byte))
    requires Valid(d)
    ensures Valid(r.0)
  {
    if d.initstat < 8 then (d.(initstat := d.initstat + 1), IDLE)
    else if d.sendidx >= 0 then
      (d.(sendidx := if d.sendidx + 1 == 5 then -1 else d.sendidx + 1), d.sendbuf[d.sendidx])
    else if d.cmd17 >= 0 then ReadByte(d)
    else if d.cmd24 == -1 then
      (if val == IDLE then d else if val == TOKEN then d.(cmd24 := 0) else d.(cmd24 := -2), IDLE)
    else if d.cmd24 >= 0 then (WriteByte(d, val), IDLE)
    else if d.recvidx == 0 && (val > 0x7f || val < 0x40) then (d, IDLE)
    else
      var e := d.(recvbuf := d.recvbuf[d.recvidx := val]);
      if d.recvidx + 1 < 6 then (e.(recvidx := d.recvidx + 1), IDLE)
      else (Command(e.(recvidx := 0)), IDLE)
  }

  /** The next byte of a CMD17 read; after the last one the CRC is queued. */
  function ReadByte(d: Dev): (r: (Dev, byte))
    requires Valid(d) && d.initstat == 12 && d.cmd17 >= 0 && d.sendidx == -1
    ensures Valid(r.0)
  {
    var (f, b) := Getc(d.fp);
    var crc := Crc.CardCrc(d.crc, b);
    if d.cmd17 + 1 == SECTOR then
      (d.(fp := f, crc := crc, cmd17 := -1, sendidx := 3,
          sendbuf := d.sendbuf[3 := crc / 0x100][4 := crc % 0x100]), b)
    else (d.(fp := f, crc := crc, cmd17 := d.cmd17 + 1), b)
  }

  /** The next byte of a CMD24 write: 512 data bytes, two CRC bytes that are only
      reported on, then the data response 5. */
  function WriteByte(d: Dev, val: byte): (r: Dev)
    requires Valid(d) && d.initstat == 12 && d.cmd24 >= 0 && d.cmd17 == -1
    ensures Valid(r)
  {
    if d.cmd24 < SECTOR then
      d.(fp := Putc(d.fp, val), crc := Crc.CardCrc(d.crc, val), cmd24 := d.cmd24 + 1)
    else if d.cmd24 == SECTOR then d.(cmd24 := d.cmd24 + 1)
    else d.(sendbuf := d.sendbuf[4 := 0x05], sendidx := 4, cmd24 := -2)
  }

  function CmdOf(b: seq<byte>): byte requires |b| == 6 { b[0] % 0x40 }
  function Arg1(b: seq<byte>): word requires |b| == 6 { (b[1] as int) * 0x100 + (b[2] as int) }
  function Arg2(b: seq<byte>): word requires |b| == 6 { (b[3] as int) * 0x100 + (b[4] as int) }

  function Reply(d: Dev, v: byte): (r: Dev)
    requires Valid(d) && d.cmd24 < 0 && d.initstat >= 8 && d.recvidx == 0
    ensures Valid(r)
  {
    d.(sendbuf := d.sendbuf[4 := v], sendidx := 4)
  }

  /** A complete command frame is in recvbuf. */
  function Command(d: Dev): (r: Dev)
    requires Valid(d) && d.initstat >= 8 && d.recvidx == 0
    requires d.sendidx == -1 && d.cmd17 == -1 && d.cmd24 == -2
    ensures Valid(r)
  {
    var cmd, arg1, arg2 := CmdOf(d.recvbuf), Arg1(d.recvbuf), Arg2(d.recvbuf);
    if d.initstat == 8 then
      if cmd == 0 then Reply(d.(initstat := 9), 0x01) else d
    else if d.initstat == 9 then
      if cmd == 8 && arg2 == 0x01aa then
        d.(initstat := 10, sendbuf := [0x01, 0, 0, 0x01, 0xaa], sendidx := 0)
      else d.(initstat := 8)
    else if d.initstat == 10 then
      if cmd == 55 then Reply(d.(initstat := 11), 0x01) else d.(initstat := 8)
    else if d.initstat == 11 then
      if cmd == 41 && arg1 == 0x4000 then Reply(d.(initstat := 12), 0x00) else d.(initstat := 8)
    else if cmd == 17 then
      d.(fp := Seek(d.fp, arg2 * SECTOR), sendbuf := d.sendbuf[3 := 0x00][4 := TOKEN],
         sendidx := 3, cmd17 := 0, crc := 0)
    else if cmd == 24 then
      Reply(d.(fp := Seek(d.fp, arg2 * SECTOR), crc := 0), 0x00).(cmd24 := -1)
    else Reply(d, 0x00)
  }

  /** A run: bytes in, bytes out. */
  function Feed(d: Dev, bs: seq<byte>): (r: (Dev, seq<byte>))
    requires Valid(d)
    ensures Valid(r.0) && |r.1| == |bs|
    decreases |bs|
  {
    if bs == [] then (d, [])
    else
      var (e, b) := Spix(d, bs[0]);
      var (f, rest) := Feed(e, bs[1..]);
      (f, [b] + rest)
  }

  lemma {:induction false} FeedAppend(d: Dev, a: seq<byte>, b: seq<byte>)
    requires Valid(d)
    ensures Feed(d, a + b).0 == Feed(Feed(d, a).0, b).0
    ensures Feed(d, a + b).1 == Feed(d, a).1 + Feed(Feed(d, a).0, b).1
    decreases |a|
  {
    hide Spix, Valid;
    if a == [] {
      assert a + b == b;
    } else {
      assert (a + b)[1..] == a[1..] + b;
      FeedAppend(Spix(d, a[0]).0, a[1..], b);
    }
  }
}
