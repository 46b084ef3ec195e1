/** How many bytes the driver clocks before it gives up: a card in the middle of a sector of
    $ff bytes answers $ff to everything, and counts. */
module SdPolls {
  import opened Words
  import Crc
  import opened S = SdSpec
  import opened D = SdDriverSpec
  import opened SdStart

  /** Sending a sector, with more than n bytes of it left, the next n of them $ff. */
  predicate Silent(d: Dev, n: nat) {
    && Valid(d) && d.sendidx == -1 && d.cmd17 >= 0 && d.cmd17 + n < 512
    && (d.fp.NoFile? || forall i :: d.fp.pos <= i < d.fp.pos + n && i < |d.fp.data| ==> d.fp.data[i] == 0xff)
  }

  /** A relay to such a card, k bytes of its sector later. */
  predicate Later(b: VBus, c: VBus, k: nat, n: nat) {
    c.selected && Silent(c.dev, n) && c.dev.cmd17 == b.dev.cmd17 + k
  }

  lemma SilentStep(b: VBus, v: byte, n: nat)
    requires b.selected && n > 0 && Silent(b.dev, n)
    ensures Later(b, D.Spix(b, v).0, 1, n - 1) && D.Spix(b, v).1 == 0xff
  {
    hide Crc.CardCrc;
  }

  lemma {:induction false} SilentWait(b: VBus, k: nat, n: nat)
    requires b.selected && 0 < k <= n && Silent(b.dev, n)
    ensures Later(b, Wait(b, k).0, k, n - k) && Wait(b, k).1 == 0xff
    decreases k
  {
    hide D.Spix, Silent;
    SilentStep(b, 0xff, n);
    if k > 1 { SilentWait(Idle(b).0, k - 1, n - 1); }
  }

  lemma {:induction false} SilentSend(b: VBus, bs: seq<byte>, n: nat)
    requires b.selected && |bs| <= n && Silent(b.dev, n)
    ensures Later(b, SendAll(b, bs), |bs|, n - |bs|)
    decreases |bs|
  {
    hide D.Spix, Silent;
    if bs != [] {
      SilentStep(b, bs[0], n);
      SilentSend(D.Spix(b, bs[0]).0, bs[1..], n - 1);
    }
  }

  lemma {:induction false} SilentIdles(b: VBus, k: nat, n: nat)
    requires b.selected && k <= n && Silent(b.dev, n)
    ensures Later(b, Idles(b, k), k, n - k)
    decreases k
  {
    hide D.Spix, Silent;
    if k > 0 {
      SilentStep(b, 0xff, n);
      SilentIdles(Idle(b).0, k - 1, n - 1);
    }
  }

  /** A command that nobody answers: 20 idle bytes, six of the frame, 20 idle bytes. */
  lemma SilentCommand(b: VBus, cmd: byte, a1: word, a2: word, n: nat)
    requires n >= 46 && Silent(b.dev, n)
    ensures var (c, r) := CmdR1(b, cmd, a1, a2);
            r == 0xff && !c.selected && Silent(c.dev, n - 46) && c.dev.cmd17 == b.dev.cmd17 + 46
  {
    hide D.Spix, Silent, Wait, SendAll, CmdCrc;
    var s := Select(b, true);
    SilentWait(s, 20, n);
    var w := Wait(s, 20).0;
    SilentSend(w, CmdBytes(cmd, a1, a2), n - 20);
    var v := SendAll(w, CmdBytes(cmd, a1, a2));
    SilentStep(v, CmdCrc(cmd, a1, a2), n - 25);
    SilentWait(D.Spix(v, CmdCrc(cmd, a1, a2)).0, 20, n - 26);
  }

  lemma {:induction false} SilentReset(b: VBus, k: nat, n: nat)
    requires k > 0 && n >= 46 * k && Silent(b.dev, n)
    ensures var (c, ok) := Reset(b, k);
            !ok && !c.selected && c.dev.cmd17 == b.dev.cmd17 + 46 * k
    decreases k
  {
    hide Silent, CmdR1;
    SilentCommand(b, 0x40, 0, 0, n);
    if k > 1 { SilentReset(CmdR1(b, 0x40, 0, 0).0, k - 1, n - 46); }
  }

  /** SDC$ idles ten times, which a deselected card does not see, tries CMD0 ten times and ends
      in `_err`: 470 bytes of the sector, or 460. */
  lemma StartPolls(b: VBus, sdhc: word)
    requires Silent(b.dev, 470)
    ensures var (c, h, ok) := Start(b, sdhc);
            && !ok && h == sdhc && !c.selected
            && c.dev.cmd17 == b.dev.cmd17 + if b.selected then 470 else 460
  {
    hide Silent, D.Spix, Reset;
    if b.selected {
      SilentIdles(b, 10, 470);
      SilentReset(Idles(b, 10), 10, 460);
    } else {
      Deaf(b, 10);
      Fewer(b.dev, 470, 460);
      SilentReset(b, 10, 460);
    }
  }

  lemma Fewer(d: Dev, n: nat, k: nat)
    requires Silent(d, n) && k <= n
    ensures Silent(d, k)
  {
  }

  lemma {:induction false} Deaf(b: VBus, k: nat)
    requires !b.selected
    ensures Idles(b, k) == b
    decreases k
  {
    if k > 0 { Deaf(b, k - 1); }
  }
}
