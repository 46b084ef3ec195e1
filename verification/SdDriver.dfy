/** The SD card words of blk.fs in their own form: polling loops over the SPI relay of
    rc2014_spi.c, which has the card of SdCard.dfy behind it. */
module SdDriver {
  import opened Words
  import Crc
  import CrcBits
  import SdCard
  import S = SdSpec
  import D = SdDriverSpec
  import T = SdStart

  class Driver {
    const card: SdCard.SDC
    var selected: bool
    var resp: byte
    var sdhc: word
    const mem: array<byte>

    ghost predicate Valid()
      reads this, card, card.recvbuf, card.sendbuf
    {
      card.Valid() && mem.Length == MEMSIZE && mem != card.recvbuf && mem != card.sendbuf
    }

    ghost function Bus(): D.VBus
      requires Valid()
      reads this, card, card.recvbuf, card.sendbuf
    {
      D.Bus(card.State(), selected, resp)
    }

    /** spi_init; the memory is the machine's. */
    constructor (sdc: SdCard.SDC, memory: array<byte>, sdhc0: word)
      requires sdc.Valid() && memory.Length == MEMSIZE && memory != sdc.recvbuf && memory != sdc.sendbuf
      ensures Valid() && card == sdc && mem == memory && sdhc == sdhc0
      ensures Bus() == D.Bus(sdc.State(), false, 0xff)
    {
      card, mem, sdhc := sdc, memory, sdhc0;
      selected, resp := false, 0xff;
    }

    /** (spie) */
    method Spie(n: word)
      requires Valid()
      modifies `selected
      ensures Valid() && Bus() == D.Select(old(Bus()), n != 0)
    {
      selected := n != 0;
    }

    /** (spix): spi_wr, then spi_rd. */
    method Spix(v: byte) returns (r: byte)
      requires Valid()
      modifies `resp, card, card.recvbuf, card.sendbuf
      ensures Valid() && (Bus(), r) == D.Spix(old(Bus()), v)
    {
      hide S.Spix;
      if selected {
        resp := card.Spix(v);
      }
      r := if selected then resp else 0xff;
    }

    method Idle() returns (r: byte)
      requires Valid()
      modifies `resp, card, card.recvbuf, card.sendbuf
      ensures Valid() && (Bus(), r) == D.Idle(old(Bus()))
    {
      r := Spix(0xff);
    }

    /** `_wait` */
    method Wait() returns (r: byte)
      requires Valid()
      modifies `resp, card, card.recvbuf, card.sendbuf
      ensures Valid() && (Bus(), r) == D.Wait(old(Bus()), 20)
    {
      hide D.Idle;
      var left: nat := 20;
      ghost var start := Bus();
      while true
        invariant Valid() && left > 0 && selected == start.selected
        invariant D.Wait(Bus(), left) == D.Wait(start, 20)
        decreases left
      {
        r := Idle();
        left := left - 1;
        if r != 0xff || left == 0 { break; }
      }
    }

    /** `_ready` */
    method Ready()
      requires Valid()
      modifies `resp, card, card.recvbuf, card.sendbuf
      ensures Valid() && Bus() == D.Ready(old(Bus()))
    {
      hide D.Idle, D.Backlog, S.Spix;
      ghost var start := Bus();
      while true
        invariant Valid() && selected == start.selected
        invariant D.Ready(Bus()) == D.Ready(start)
        decreases D.Backlog(card.State())
      {
        ghost var before := Bus();
        var r := Idle();
        if r == 0xff { break; }
        D.ReadyShrinks(before);
      }
    }

    /** `_crc7` */
    method Crc7(c: bv16, n: byte) returns (r: bv16)
      ensures r == D.Crc7(c, n)
    {
      hide D.Turn7;
      r := c ^ (n as bv16);
      ghost var c0 := r;
      var left: nat := 8;
      while left > 0
        invariant D.Turns7(r, left) == D.Turns7(c0, 8)
      {
        r := D.Turn7(r);
        left := left - 1;
      }
    }

    /** `_s+crc` for each byte in turn. */
    method SendCrc(bs: seq<byte>) returns (c: bv16)
      requires Valid()
      modifies `resp, card, card.recvbuf, card.sendbuf
      ensures Valid() && Bus() == D.SendAll(old(Bus()), bs) && c == D.CrcAll(0, bs)
    {
      hide D.Spix, D.Crc7;
      c := 0;
      var i := 0;
      ghost var start := Bus();
      while i < |bs|
        invariant Valid() && i <= |bs|
        invariant D.SendAll(Bus(), bs[i..]) == D.SendAll(start, bs)
        invariant D.CrcAll(c, bs[i..]) == D.CrcAll(0, bs)
      {
        assert bs[i..][0] == bs[i] && bs[i..][1..] == bs[i + 1..];
        var _ := Spix(bs[i]);
        c := Crc7(c, bs[i]);
        i := i + 1;
      }
    }

    /** `_cmd` */
    method Cmd(cmd: byte, a1: word, a2: word) returns (r: byte)
      requires Valid()
      modifies `resp, card, card.recvbuf, card.sendbuf
      ensures Valid() && (Bus(), r) == D.Cmd(old(Bus()), cmd, a1, a2)
    {
      hide D.Wait, D.Spix, D.SendAll, D.CrcAll;
      var _ := Wait();
      var c := SendCrc(D.CmdBytes(cmd, a1, a2));
      var last: byte := ((c | 1) & 0xff) as int;
      var _ := Spix(last);
      r := Wait();
    }

    method CmdR1(cmd: byte, a1: word, a2: word) returns (r: byte)
      requires Valid()
      modifies `selected, `resp, card, card.recvbuf, card.sendbuf
      ensures Valid() && (Bus(), r) == D.CmdR1(old(Bus()), cmd, a1, a2)
    {
      hide D.Cmd;
      Spie(1);
      r := Cmd(cmd, a1, a2);
      Spie(0);
    }

    method IdleWord() returns (w: word)
      requires Valid()
      modifies `resp, card, card.recvbuf, card.sendbuf
      ensures Valid() && (Bus(), w) == D.IdleWord(old(Bus()))
    {
      hide D.Idle;
      var hi := Idle();
      var lo := Idle();
      w := (hi as int) * 0x100 + (lo as int);
    }

    method CmdR7(cmd: byte, a1: word, a2: word) returns (r: byte, x: word, y: word)
      requires Valid()
      modifies `selected, `resp, card, card.recvbuf, card.sendbuf
      ensures Valid() && (Bus(), r, x, y) == D.CmdR7(old(Bus()), cmd, a1, a2)
    {
      hide D.Cmd, D.IdleWord;
      Spie(1);
      r := Cmd(cmd, a1, a2);
      x := IdleWord();
      y := IdleWord();
      Spie(0);
    }

    /** SDC$; false where the word ends in `_err`. */
    method Start() returns (ok: bool)
      requires Valid()
      modifies `selected, `resp, `sdhc, card, card.recvbuf, card.sendbuf
      ensures Valid() && (Bus(), sdhc, ok) == T.Start(old(Bus()), old(sdhc))
    {
      hide D.CmdR1, D.CmdR7, D.Idle, T.Activate;
      TenIdles();
      ok := Reset();
      if !ok {
        Spie(0);
        return;
      }
      var r, x, y := CmdR7(0x48, 0, 0x1aa);
      if !(y == 0x1aa && r == 1 && x == 0) {
        Spie(0);
        return false;
      }
      ok := Activate();
      if !ok {
        Spie(0);
        return;
      }
      r, x, y := CmdR7(0x7a, 0, 0);
      sdhc := And16(x, 0x4000);
    }

    method TenIdles()
      requires Valid()
      modifies `resp, card, card.recvbuf, card.sendbuf
      ensures Valid() && Bus() == D.Idles(old(Bus()), 10)
    {
      hide D.Idle;
      var left: nat := 10;
      ghost var start := Bus();
      while left > 0
        invariant Valid() && selected == start.selected
        invariant D.Idles(Bus(), left) == D.Idles(start, 10)
      {
        var _ := Idle();
        left := left - 1;
      }
    }

    /** Up to ten CMD0s. */
    method Reset() returns (ok: bool)
      requires Valid()
      modifies `selected, `resp, card, card.recvbuf, card.sendbuf
      ensures Valid() && (Bus(), ok) == D.Reset(old(Bus()), 10)
    {
      hide D.CmdR1;
      var left: nat := 10;
      ghost var start := Bus();
      while true
        invariant Valid() && left > 0
        invariant D.Reset(Bus(), left) == D.Reset(start, 10)
        decreases left
      {
        var r := CmdR1(0x40, 0, 0);
        ok := r == 1;
        left := left - 1;
        if ok || left == 0 { break; }
      }
    }

    /** `BEGIN CMD55 .. CMD41 .. NOT UNTIL` */
    method Activate() returns (ok: bool)
      requires Valid()
      modifies `selected, `resp, card, card.recvbuf, card.sendbuf
      ensures Valid() && (Bus(), ok) == T.Activate(old(Bus()))
    {
      hide D.CmdR1, T.Ones;
      ghost var start := Bus();
      while true
        invariant Valid() && T.Activate(Bus()) == T.Activate(start)
        decreases card.recvidx > 0, T.Ones(card.State())
      {
        ghost var before := Bus();
        var r := CmdR1(0x77, 0, 0);
        if r != 1 { return false; }
        var q := CmdR1(0x69, 0x4000, 0);
        if q > 1 { return false; }
        if q == 0 { return true; }
        T.AgainShrinks(before);
      }
    }

    /** `:~` of B257: read sector n to address a. */
    method ReadSector(a: word, n: word) returns (ok: bool)
      requires Valid()
      modifies `selected, `resp, card, card.recvbuf, card.sendbuf, mem
      ensures var r := D.ReadSector(old(Bus()), old(sdhc), n);
              Valid() && (Bus(), ok) == (r.0, r.2) && mem[..] == Overlay(old(mem[..]), a, r.1)
    {
      hide D.Cmd, D.Wait, D.Receive, D.IdleWord, D.Fold, D.Arg1, D.Arg2;
      Spie(1);
      var r := Cmd(0x51, D.Arg1(sdhc, n), D.Arg2(sdhc, n));
      if r != 0 {
        Spie(0);
        return false;
      }
      var t := Wait();
      if t != S.TOKEN {
        Spie(0);
        return false;
      }
      var crc := Receive(a);
      var sent := IdleWord();
      var _ := Wait();
      Spie(0);
      ok := sent == crc;
    }

    /** The 512 bytes of a sector, stored as they come, and their CRC. */
    method Receive(a: word) returns (crc: word)
      requires Valid()
      modifies `resp, card, card.recvbuf, card.sendbuf, mem
      ensures var r := D.Receive(old(Bus()), S.SECTOR);
              && Valid() && Bus() == r.0 && crc == D.Fold(0, r.1)
              && mem[..] == Overlay(old(mem[..]), a, r.1)
    {
      hide D.Idle, D.Receive, D.Fold, Crc.ForthCrc, Crc.CardCrc, Overlay;
      crc := 0;
      var i: nat := 0;
      ghost var start := Bus();
      ghost var all := D.Receive(start, S.SECTOR);
      assert all.1[0..] == all.1 && W(a + 0) == a;
      while i < S.SECTOR
        invariant Valid() && i <= S.SECTOR && selected == start.selected
        invariant D.Receive(Bus(), S.SECTOR - i) == (all.0, all.1[i..])
        invariant D.Fold(crc, all.1[i..]) == D.Fold(0, all.1)
        invariant Overlay(mem[..], W(a + i), all.1[i..]) == Overlay(old(mem[..]), a, all.1)
      {
        D.ReceiveNext(Bus(), S.SECTOR - i);
        var b := Idle();
        assert all.1[i..][0] == b && all.1[i..][1..] == all.1[i + 1..];
        D.FoldNext(crc, all.1[i..]);
        OverlayNext(mem[..], W(a + i), all.1[i..]);
        StepsOn(a, i);
        mem[W(a + i)] := b;
        crc := Crc16(crc, b);
        i := i + 1;
      }
      D.ReceiveDone(Bus());
      D.FoldDone(crc);
      OverlayDone(mem[..], W(a + i));
      assert all.1[S.SECTOR..] == [];
    }

    method Crc16(c: word, n: byte) returns (r: word)
      ensures r == Crc.ForthCrc(c, n)
    {
      hide CrcBits.Turn, Crc.TurnLoop;
      var x := Crc.Crc16(c as bv16, n as bv8);
      r := x as int;
    }

    /** `:~` of B258: write sector n from address a. */
    method WriteSector(a: word, n: word) returns (ok: bool)
      requires Valid()
      modifies `selected, `resp, card, card.recvbuf, card.sendbuf
      ensures Valid() && mem[..] == old(mem[..])
      ensures (Bus(), ok) == D.WriteSector(old(Bus()), old(sdhc), n, Window(old(mem[..]), a, S.SECTOR))
    {
      hide D.Cmd, D.Wait, D.Idle, D.Spix, D.SendAll, D.Fold, D.Arg1, D.Arg2, D.Ready, Window;
      Spie(1);
      var r := Cmd(0x58, D.Arg1(sdhc, n), D.Arg2(sdhc, n));
      if r != 0 {
        Spie(0);
        return false;
      }
      var _ := Idle();
      var _ := Spix(S.TOKEN);
      var crc := SendData(a);
      var _ := Spix(crc / 0x100);
      var _ := Spix(crc % 0x100);
      var q := Wait();
      if q % 0x20 != 5 {
        Spie(0);
        return false;
      }
      Ready();
      Spie(0);
      ok := true;
    }

    method SendData(a: word) returns (crc: word)
      requires Valid()
      modifies `resp, card, card.recvbuf, card.sendbuf
      ensures var data := Window(old(mem[..]), a, S.SECTOR);
              Valid() && Bus() == D.SendAll(old(Bus()), data) && crc == D.Fold(0, data)
      ensures mem[..] == old(mem[..])
    {
      hide D.Spix, Crc.ForthCrc, W;
      crc := 0;
      var i := 0;
      ghost var start := Bus();
      ghost var data := Window(mem[..], a, S.SECTOR);
      while i < S.SECTOR
        invariant Valid() && i <= S.SECTOR && mem[..] == old(mem[..])
        invariant D.SendAll(Bus(), data[i..]) == D.SendAll(start, data)
        invariant D.Fold(crc, data[i..]) == D.Fold(0, data)
      {
        assert data[i..][0] == data[i] == mem[..][W(a + i)] && data[i..][1..] == data[i + 1..];
        var b := mem[W(a + i)];
        var _ := Spix(b);
        crc := Crc16(crc, b);
        i := i + 1;
      }
    }

    /** SDC@ */
    method ReadBlock(n: word, a: word) returns (ok: bool)
      requires Valid()
      modifies `selected, `resp, card, card.recvbuf, card.sendbuf, mem
      ensures var r := D.ReadBlock(old(Bus()), old(sdhc), n);
              Valid() && (Bus(), ok) == (r.0, r.2) && mem[..] == Overlay(old(mem[..]), a, r.1)
    {
      hide D.ReadSector, Overlay;
      var s := W(2 * n);
      ghost var lo := D.ReadSector(Bus(), sdhc, s);
      ok := ReadSector(a, s);
      if ok {
        ghost var hi := D.ReadSector(Bus(), sdhc, W(s + 1));
        OverlayAppend(old(mem[..]), a, lo.1, hi.1);
        ok := ReadSector(W(a + S.SECTOR), W(s + 1));
      }
    }

    /** SDC! */
    method WriteBlock(n: word, a: word) returns (ok: bool)
      requires Valid()
      modifies `selected, `resp, card, card.recvbuf, card.sendbuf
      ensures Valid() && mem[..] == old(mem[..])
      ensures (Bus(), ok) == D.WriteBlock(old(Bus()), old(sdhc), n, Window(old(mem[..]), a, 2 * S.SECTOR))
    {
      hide D.WriteSector, Window;
      TwoWindows(mem[..], a);
      var s := W(2 * n);
      ok := WriteSector(a, s);
      if ok { ok := WriteSector(W(a + S.SECTOR), W(s + 1)); }
    }
  }

  lemma OverlayNext(m: Mem, a: word, bs: seq<byte>)
    requires bs != []
    ensures Overlay(m, a, bs) == Overlay(m[a := bs[0]], Add16(a, 1), bs[1..])
  {
  }

  lemma OverlayDone(m: Mem, a: word)
    ensures Overlay(m, a, []) == m
  {
  }

  lemma StepsOn(a: word, i: nat)
    ensures Add16(W(a + i), 1) == W(a + (i + 1))
  {
  }

  /** 1024 bytes of memory are two sectors. */
  lemma TwoWindows(m: Mem, a: word)
    ensures var data := Window(m, a, 2 * S.SECTOR);
            && data[..S.SECTOR] == Window(m, a, S.SECTOR)
            && data[S.SECTOR..] == Window(m, W(a + S.SECTOR), S.SECTOR)
  {
    var data, high := Window(m, a, 2 * S.SECTOR), Window(m, W(a + S.SECTOR), S.SECTOR);
    forall i | 0 <= i < S.SECTOR ensures data[S.SECTOR..][i] == high[i] {
      WrapTwice(a + S.SECTOR, i);
    }
  }

  lemma WrapTwice(x: nat, i: nat)
    ensures W(W(x) + i) == W(x + i)
  {
  }
}
