/** The serial port of emul/z80/acia.c between a guest program and the host loop of
    emul/z80/rc2014.c: no byte is lost or doubled, whatever the order of their steps. */
module AciaSpec {
  import opened Words

  /** The device. The three bits of the status byte that are ever set are kept apart:
      interrupt (7), transmit register empty (1), receive register full (0). */
  datatype Acia = Acia(irq: bool, tdre: bool, rdrf: bool, control: byte, rx: byte, tx: byte, inInt: bool)

  const INIT: Acia := Acia(false, true, false, 0, 0, 0, false)

  function CheckIrq(a: Acia): Acia {
    var rx := a.rdrf && Bit(a.control, 0x80);
    var tx := a.tdre && Bit(a.control, 0x80) && Bit(a.control, 0x40) && Bit(a.control, 0x20);
    if rx || tx then a.(irq := true) else a
  }

  function HasIrq(a: Acia): (Acia, bool) {
    if a.inInt then (a, false) else (a.(inInt := a.irq), a.irq)
  }

  predicate CanTransmit(a: Acia) {
    !(a.rdrf || Bit(a.control, 0x40))
  }

  predicate HasTx(a: Acia) {
    !a.tdre
  }

  /** The host takes the byte that the guest sent. */
  function Read(a: Acia): (Acia, byte) {
    (CheckIrq(a.(tdre := true)), a.tx)
  }

  /** The host gives a byte to the guest. With RTS high it is dropped. */
  function Write(a: Acia, v: byte): Acia {
    if Bit(a.control, 0x40) then a else CheckIrq(a.(rdrf := true, rx := v))
  }

  function CtlRd(a: Acia): byte {
    (if a.irq then 0x80 else 0) + (if a.tdre then 2 else 0) + if a.rdrf then 1 else 0
  }

  /** What the guest reads from the control port tells whether it may transfer. */
  lemma CtlRdTells(a: Acia)
    ensures Bit(CtlRd(a), 0x01) == a.rdrf && Bit(CtlRd(a), 0x02) == a.tdre && Bit(CtlRd(a), 0x80) == a.irq
  {
  }

  function CtlWr(a: Acia, v: byte): Acia {
    CheckIrq(a.(control := v))
  }

  function DataRd(a: Acia): (Acia, byte) {
    (a.(rdrf := false, irq := false, inInt := false), a.rx)
  }

  function DataWr(a: Acia, v: byte): Acia {
    CheckIrq(a.(tx := v, tdre := false, irq := false, inInt := false))
  }

  // ----- both parties -----

  /** The device, the byte that the host holds back (0 for none), and what happened so far:
      bytes accepted from the keyboard, bytes the guest read, bytes the guest sent, bytes
      printed. */
  datatype Net = Net(acia: Acia, tosend: byte, typed: seq<byte>, got: seq<byte>,
                     sent: seq<byte>, printed: seq<byte>)

  const START: Net := Net(INIT, 0, [], [], [], [])

  datatype Step =
    | GuestRead
    | GuestWrite(v: byte)
    | GuestControl(v: byte)
    | HostPoll
    | HostPrint
    | HostInput(c: byte)
    | HostSend

  /** The guest reads and writes only when the status byte says that it may. */
  predicate Polite(s: Net, e: Step) {
    match e
    case GuestRead => Bit(CtlRd(s.acia), 0x01)
    case GuestWrite(_) => Bit(CtlRd(s.acia), 0x02)
    case _ => true
  }

  /** Byte 5 is a command to the emulator and 0 is no byte; 4 ends the loop. */
  predicate Ignored(c: byte) {
    c == 0 || c == 4 || c == 5
  }

  function Next(s: Net, e: Step): Net {
    match e
    case GuestRead =>
      var (a, v) := DataRd(s.acia);
      s.(acia := a, got := s.got + [v])
    case GuestWrite(v) => s.(acia := DataWr(s.acia, v), sent := s.sent + [v])
    case GuestControl(v) => s.(acia := CtlWr(s.acia, v))
    case HostPoll => s.(acia := HasIrq(s.acia).0)
    case HostPrint =>
      if HasTx(s.acia) then
        var (a, v) := Read(s.acia);
        s.(acia := a, printed := s.printed + [v])
      else s
    case HostInput(c) =>
      if s.tosend == 0 && !Ignored(c) then s.(tosend := c, typed := s.typed + [c]) else s
    case HostSend =>
      if s.tosend != 0 && CanTransmit(s.acia) then s.(acia := Write(s.acia, s.tosend), tosend := 0) else s
  }

  function Run(s: Net, es: seq<Step>): Net
    decreases |es|
  {
    if es == [] then s else Run(Next(s, es[0]), es[1..])
  }

  predicate AllPolite(s: Net, es: seq<Step>)
    decreases |es|
  {
    es == [] || (Polite(s, es[0]) && AllPolite(Next(s, es[0]), es[1..]))
  }

  // ----- nothing lost, nothing doubled -----

  function ToGuest(s: Net): seq<byte> {
    (if s.acia.rdrf then [s.acia.rx] else []) + if s.tosend != 0 then [s.tosend] else []
  }

  function ToHost(s: Net): seq<byte> {
    if s.acia.tdre then [] else [s.acia.tx]
  }

  /** What one side sent is what the other got and what is on its way. */
  predicate Conserved(s: Net) {
    s.typed == s.got + ToGuest(s) && s.sent == s.printed + ToHost(s)
  }

  lemma CheckKeeps(a: Acia)
    ensures var b := CheckIrq(a); b == a.(irq := b.irq)
  {
  }

  /** A step keeps the books exactly when it is polite. */
  lemma StepConserves(s: Net, e: Step)
    requires Conserved(s)
    ensures Conserved(Next(s, e)) <==> Polite(s, e)
  {
    CtlRdTells(s.acia);
    hide CheckIrq, Bit, CtlRd;
    match e {
      case GuestRead =>
        if s.acia.rdrf {
          assert s.got + ToGuest(s) == s.got + [s.acia.rx] + ToGuest(Next(s, e));
        } else {
          assert |Next(s, e).got + ToGuest(Next(s, e))| == |s.typed| + 1;
        }
      case GuestWrite(v) =>
        CheckKeeps(s.acia.(tx := v, tdre := false, irq := false, inInt := false));
        if !s.acia.tdre { assert |Next(s, e).printed + ToHost(Next(s, e))| == |s.sent|; }
      case GuestControl(v) => CheckKeeps(s.acia.(control := v));
      case HostPoll =>
      case HostPrint => CheckKeeps(s.acia.(tdre := true));
      case HostInput(c) =>
        if s.tosend == 0 && !Ignored(c) {
          assert s.got + ToGuest(s) + [c] == s.got + ToGuest(Next(s, e));
        }
      case HostSend =>
        CheckKeeps(s.acia.(rdrf := true, rx := s.tosend));
    }
  }

  lemma {:induction false} RunConserves(s: Net, es: seq<Step>)
    requires Conserved(s) && AllPolite(s, es)
    ensures Conserved(Run(s, es))
    decreases |es|
  {
    hide Next, Conserved, Polite;
    if es != [] {
      StepConserves(s, es[0]);
      RunConserves(Next(s, es[0]), es[1..]);
    }
  }

  /** Over every interleaving of polite steps, what was delivered is a prefix of what was
      sent, with at most two bytes on their way to the guest and one to the host. */
  lemma Handshake(es: seq<Step>)
    requires AllPolite(START, es)
    ensures var s := Run(START, es);
            && s.got <= s.typed && |s.typed| - |s.got| <= 2
            && s.printed <= s.sent && |s.sent| - |s.printed| <= 1
  {
    hide Run, AllPolite;
    RunConserves(START, es);
  }

  /** From every state reached, two rounds of sending and reading with RTS low deliver
      everything that was typed. */
  lemma Drained(es: seq<Step>)
    requires AllPolite(START, es) && !Bit(Run(START, es).acia.control, 0x40)
    ensures var s := Run(START, es);
            var a := if s.acia.rdrf then Next(s, GuestRead) else s;
            var b := Next(a, HostSend);
            var c := if b.acia.rdrf then Next(b, GuestRead) else b;
            c.typed == s.typed == c.got
  {
    hide Run, AllPolite, Bit;
    RunConserves(START, es);
    var s := Run(START, es);
    var a := if s.acia.rdrf then Next(s, GuestRead) else s;
    StepConserves(s, GuestRead);
    StepConserves(a, HostSend);
    CheckKeeps(a.acia.(rdrf := true, rx := a.tosend));
    var b := Next(a, HostSend);
    StepConserves(b, GuestRead);
  }

  /** From every state reached, the host's next look at the device prints everything that
      the guest has sent, and the guest may write again. */
  lemma PrintDrains(es: seq<Step>)
    requires AllPolite(START, es)
    ensures var s := Run(START, es);
            var t := Next(s, HostPrint);
            t.printed == t.sent == s.sent && Polite(t, GuestWrite(0))
  {
    hide Run, AllPolite;
    RunConserves(START, es);
    var s := Run(START, es);
    StepConserves(s, HostPrint);
    CheckKeeps(s.acia.(tdre := true));
    CtlRdTells(Next(s, HostPrint).acia);
    hide CheckIrq, Bit, CtlRd;
  }

  // ----- a pass of the host's loop -----

  /** Poll, print, take this byte from the keyboard (0 for none), send. */
  function Pass(s: Net, c: byte): Net {
    Next(Next(Next(Next(s, HostPoll), HostPrint), HostInput(c)), HostSend)
  }

  /** After a pass, and already when it stops for want of input, everything that the guest
      had sent is printed. */
  lemma PassPrints(s: Net, c: byte)
    requires Conserved(s)
    ensures var t := Next(Next(s, HostPoll), HostPrint); t.printed == t.sent == s.sent
    ensures Pass(s, c).printed == Pass(s, c).sent == s.sent
  {
    CheckKeeps(s.acia.(inInt := if s.acia.inInt then true else s.acia.irq, tdre := true));
    hide CheckIrq, Bit;
  }

  /** A pass takes a byte from the keyboard if none is held back and it is not 0, 4 or 5, and
      gives it to the guest at once if the guest's register is free and RTS is low. */
  lemma PassTakes(s: Net, c: byte)
    requires s.tosend == 0
    ensures var t := Pass(s, c);
            if c == 0 || c == 4 || c == 5 then t.typed == s.typed && t.tosend == 0 && t.acia.rdrf == s.acia.rdrf
            else
              && t.typed == s.typed + [c]
              && if s.acia.rdrf || Bit(s.acia.control, 0x40) then t.tosend == c && t.acia.rdrf == s.acia.rdrf
                 else t.tosend == 0 && t.acia.rdrf && t.acia.rx == c
  {
    var a := HasIrq(s.acia).0;
    CheckKeeps(a.(tdre := true));
    var b := Next(Next(s, HostPoll), HostPrint).acia;
    CheckKeeps(b.(rdrf := true, rx := c));
    hide CheckIrq, Bit;
  }

  /** A byte held back is sent in the first pass that finds the register free and RTS low, and
      nothing is taken from the keyboard before. */
  lemma PassHolds(s: Net, c: byte)
    requires s.tosend != 0
    ensures var t := Pass(s, c);
            && t.typed == s.typed
            && if s.acia.rdrf || Bit(s.acia.control, 0x40) then t.tosend == s.tosend && t.acia.rdrf == s.acia.rdrf
               else t.tosend == 0 && t.acia.rdrf && t.acia.rx == s.tosend
  {
    var a := HasIrq(s.acia).0;
    CheckKeeps(a.(tdre := true));
    var b := Next(Next(s, HostPoll), HostPrint).acia;
    CheckKeeps(b.(rdrf := true, rx := s.tosend));
    hide CheckIrq, Bit;
  }

  /** The control byte that the guest wrote last is the one in force. */
  lemma ControlHolds(s: Net, v: byte, e: Step)
    ensures Next(s, GuestControl(v)).acia.control == v
    ensures !e.GuestControl? ==> Next(s, e).acia.control == s.acia.control
  {
    CheckKeeps(s.acia.(control := v));
    CheckKeeps(s.acia.(tdre := true));
    CheckKeeps(s.acia.(rdrf := true, rx := s.tosend));
    if e.GuestWrite? { CheckKeeps(s.acia.(tx := e.v, tdre := false, irq := false, inInt := false)); }
    hide CheckIrq, Bit;
  }

  // ----- interrupts -----

  /** A byte waits for the guest and receive interrupts are enabled. */
  predicate ReceiveDue(a: Acia) {
    a.rdrf && a.control / 0x80 % 2 == 1
  }

  /** The guest may write and transmit interrupts are enabled. */
  predicate TransmitDue(a: Acia) {
    a.tdre && a.control / 0x80 % 2 == 1 && a.control / 0x40 % 2 == 1 && a.control / 0x20 % 2 == 1
  }

  lemma CheckRaises(a: Acia)
    ensures CheckIrq(a).irq <==> a.irq || ReceiveDue(a) || TransmitDue(a)
  {
  }

  /** A received byte never waits without the interrupt being raised. */
  lemma ReceiveRaised(s: Net, e: Step)
    requires ReceiveDue(s.acia) ==> s.acia.irq
    ensures var t := Next(s, e); ReceiveDue(t.acia) ==> t.acia.irq
  {
    CheckKeeps(s.acia.(tdre := true));
    CheckRaises(s.acia.(tdre := true));
    CheckKeeps(s.acia.(rdrf := true, rx := s.tosend));
    CheckRaises(s.acia.(rdrf := true, rx := s.tosend));
    if e.GuestWrite? {
      CheckKeeps(s.acia.(tx := e.v, tdre := false, irq := false, inInt := false));
      CheckRaises(s.acia.(tx := e.v, tdre := false, irq := false, inInt := false));
    }
    if e.GuestControl? {
      CheckKeeps(s.acia.(control := e.v));
      CheckRaises(s.acia.(control := e.v));
    }
    hide CheckIrq, Bit;
  }

  lemma {:induction false} ReceiveRaisedRun(s: Net, es: seq<Step>)
    requires ReceiveDue(s.acia) ==> s.acia.irq
    ensures ReceiveDue(Run(s, es).acia) ==> Run(s, es).acia.irq
    decreases |es|
  {
    hide Next, ReceiveDue;
    if es != [] {
      ReceiveRaised(s, es[0]);
      ReceiveRaisedRun(Next(s, es[0]), es[1..]);
    }
  }

  /** From every state reached, polite or not: if a byte waits for the guest with receive
      interrupts enabled, the next poll reports an interrupt, unless one that was reported
      before is still under service. */
  lemma ReceiveReported(es: seq<Step>)
    requires ReceiveDue(Run(START, es).acia)
    ensures Reports(Run(START, es), HostPoll) <==> !Run(START, es).acia.inInt
  {
    ReceiveRaisedRun(START, es);
    hide Run, ReceiveDue;
  }

  /** The transmit interrupt is raised when the host takes a byte and when the guest enables
      it, lasts over every step that is not a data access, and a data read takes it away. */
  lemma TransmitRaised(s: Net, e: Step)
    ensures (e == HostPrint && !s.acia.tdre) || e.GuestControl? ==>
            (TransmitDue(Next(s, e).acia) ==> Next(s, e).acia.irq)
    ensures s.acia.irq && !Access(e) ==> Next(s, e).acia.irq
    ensures !Next(s, GuestRead).acia.irq
  {
    CheckKeeps(s.acia.(tdre := true));
    CheckRaises(s.acia.(tdre := true));
    CheckKeeps(s.acia.(rdrf := true, rx := s.tosend));
    CheckRaises(s.acia.(rdrf := true, rx := s.tosend));
    if e.GuestControl? {
      CheckKeeps(s.acia.(control := e.v));
      CheckRaises(s.acia.(control := e.v));
    }
    hide CheckIrq, Bit;
  }

  /** An interrupt is raised for no other reason than these two. */
  lemma RaisedFor(s: Net, e: Step)
    requires !s.acia.irq && Next(s, e).acia.irq
    ensures ReceiveDue(Next(s, e).acia) || TransmitDue(Next(s, e).acia)
  {
    CheckKeeps(s.acia.(tdre := true));
    CheckRaises(s.acia.(tdre := true));
    CheckKeeps(s.acia.(rdrf := true, rx := s.tosend));
    CheckRaises(s.acia.(rdrf := true, rx := s.tosend));
    if e.GuestWrite? {
      CheckKeeps(s.acia.(tx := e.v, tdre := false, irq := false, inInt := false));
      CheckRaises(s.acia.(tx := e.v, tdre := false, irq := false, inInt := false));
    }
    if e.GuestControl? {
      CheckKeeps(s.acia.(control := e.v));
      CheckRaises(s.acia.(control := e.v));
    }
    hide CheckIrq, Bit;
  }

  predicate Access(e: Step) {
    e.GuestRead? || e.GuestWrite?
  }

  /** The step is a poll that reports an interrupt. */
  predicate Reports(s: Net, e: Step) {
    e.HostPoll? && HasIrq(s.acia).1
  }

  /** Without a data access an interrupt that was reported stays under service. */
  lemma ServiceStays(s: Net, e: Step)
    requires s.acia.inInt && !Access(e)
    ensures Next(s, e).acia.inInt && !Reports(s, e)
  {
    hide Bit;
  }

  lemma {:induction false} NoneReports(s: Net, es: seq<Step>, j: nat)
    requires s.acia.inInt && j < |es| && forall k :: 0 <= k < j ==> !Access(es[k])
    ensures !Reports(Run(s, es[..j]), es[j])
    decreases j
  {
    hide Next, Reports, Access;
    if j == 0 {
      PollQuiet(s, es[0]);
      assert Run(s, es[..0]) == s;
    } else {
      assert !Access(es[0]);
      ServiceStays(s, es[0]);
      assert es[..j][0] == es[0] && es[..j][1..] == es[1..][..j - 1];
      forall k | 0 <= k < j - 1 ensures !Access(es[1..][k]) { assert es[1..][k] == es[k + 1]; }
      NoneReports(Next(s, es[0]), es[1..], j - 1);
    }
  }

  lemma PollQuiet(s: Net, e: Step)
    requires s.acia.inInt
    ensures !Reports(s, e)
  {
  }

  /** Between two reported interrupts there is a data read or write, polite or not. */
  lemma OneReportPerAccess(s: Net, es: seq<Step>, i: nat, j: nat)
    requires i < j < |es| && Reports(Run(s, es[..i]), es[i]) && Reports(Run(s, es[..j]), es[j])
    ensures exists k :: i < k < j && Access(es[k])
  {
    hide Next, Access, Run;
    var t, rest := Run(s, es[..i]), es[i + 1..];
    assert Next(t, es[i]).acia.inInt by { ReportServes(t, es[i]); }
    var m := j - i - 1;
    assert rest[m] == es[j];
    assert es[..i + 1] == es[..i] + [es[i]] && es[..j] == es[..i + 1] + rest[..m];
    RunOne(s, es[..i], es[i]);
    RunAppend(s, es[..i + 1], rest[..m]);
    if forall k :: i < k < j ==> !Access(es[k]) {
      forall k | 0 <= k < m ensures !Access(rest[k]) { assert rest[k] == es[i + 1 + k]; }
      NoneReports(Next(t, es[i]), rest, m);
    }
  }

  lemma ReportServes(s: Net, e: Step)
    requires Reports(s, e)
    ensures Next(s, e).acia.inInt
  {
  }

  lemma {:induction false} RunAppend(s: Net, a: seq<Step>, b: seq<Step>)
    ensures Run(s, a + b) == Run(Run(s, a), b)
    decreases |a|
  {
    hide Next;
    if a == [] {
      assert a + b == b;
    } else {
      assert (a + b)[0] == a[0] && (a + b)[1..] == a[1..] + b;
      RunAppend(Next(s, a[0]), a[1..], b);
    }
  }

  lemma RunOne(s: Net, a: seq<Step>, e: Step)
    ensures Run(s, a + [e]) == Next(Run(s, a), e)
  {
    hide Next;
    RunAppend(s, a, [e]);
    assert [e][1..] == [];
    assert Run(Run(s, a), [e]) == Run(Next(Run(s, a), e), []);
  }

  /** An interrupt was reported by step i of a run from the start and no data access followed. */
  predicate ServedSince(es: seq<Step>, i: nat)
    requires i < |es|
  {
    Reports(Run(START, es[..i]), es[i]) && forall k :: i < k < |es| ==> !Access(es[k])
  }

  /** Under service is exactly what was reported and not yet answered by a data access. */
  lemma {:induction false} UnderService(es: seq<Step>)
    ensures Run(START, es).acia.inInt <==> exists i: nat :: i < |es| && ServedSince(es, i)
    decreases |es|
  {
    if es == [] {
    } else {
      var n := |es| - 1;
      var before, last := es[..n], es[n];
      assert es == before + [last];
      RunOne(START, before, last);
      var s := Run(START, before);
      UnderService(before);
      ServiceStep(s, last);
      hide Run, Reports, Access, Next;
      forall i: nat | i < n ensures ServedSince(es, i) <==> ServedSince(before, i) && !Access(last) {
        assert es[..i] == before[..i];
        if ServedSince(es, i) {
          forall k | i < k < n ensures !Access(before[k]) { assert before[k] == es[k]; }
          assert !Access(es[n]);
        }
        if ServedSince(before, i) && !Access(last) {
          forall k | i < k <= n ensures !Access(es[k]) { if k < n { assert before[k] == es[k]; } }
        }
      }
      assert ServedSince(es, n) <==> Reports(s, last);
      assert (exists i: nat :: i < |es| && ServedSince(es, i)) <==>
             (exists i: nat :: i < n && ServedSince(es, i)) || ServedSince(es, n);
    }
  }

  lemma ServiceStep(s: Net, e: Step)
    ensures Next(s, e).acia.inInt <==> (s.acia.inInt && !Access(e)) || Reports(s, e)
  {
    CheckKeeps(s.acia.(tdre := true));
    CheckKeeps(s.acia.(rdrf := true, rx := s.tosend));
    if e.GuestWrite? { CheckKeeps(s.acia.(tx := e.v, tdre := false, irq := false, inInt := false)); }
    if e.GuestControl? { CheckKeeps(s.acia.(control := e.v)); }
    hide CheckIrq, Bit;
  }
}
