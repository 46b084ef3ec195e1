/** emul/z80/acia.c and the host side of emul/z80/rc2014.c in their own form. */
module Acia {
  import opened Words
  import S = AciaSpec

  class ACIA {
    var irq: bool
    var tdre: bool
    var rdrf: bool
    var control: byte
    var rx: byte
    var tx: byte
    var inInt: bool

    ghost function State(): S.Acia
      reads this
    {
      S.Acia(irq, tdre, rdrf, control, rx, tx, inInt)
    }

    constructor ()
      ensures State() == S.INIT
    {
      irq, tdre, rdrf, control, rx, tx, inInt := false, true, false, 0, 0, 0, false;
    }

    method CheckIrq()
      modifies `irq
      ensures State() == S.CheckIrq(old(State()))
    {
      if rdrf && Bit(control, 0x80) { irq := true; }
      if tdre && Bit(control, 0x80) && Bit(control, 0x40) && Bit(control, 0x20) { irq := true; }
    }

    method HasIrq() returns (r: bool)
      modifies `inInt
      ensures (State(), r) == S.HasIrq(old(State()))
    {
      if inInt { return false; }
      inInt := irq;
      r := inInt;
    }

    method Read() returns (v: byte)
      modifies this
      ensures (State(), v) == S.Read(old(State()))
    {
      tdre := true;
      CheckIrq();
      v := tx;
    }

    method Write(v: byte)
      modifies this
      ensures State() == S.Write(old(State()), v)
    {
      if Bit(control, 0x40) { return; }
      rdrf := true;
      rx := v;
      CheckIrq();
    }

    method CtlRd() returns (v: byte)
      ensures v == S.CtlRd(State())
    {
      v := (if irq then 0x80 else 0) + (if tdre then 2 else 0) + if rdrf then 1 else 0;
    }

    method CtlWr(v: byte)
      modifies this
      ensures State() == S.CtlWr(old(State()), v)
    {
      control := v;
      CheckIrq();
    }

    method DataRd() returns (v: byte)
      modifies this
      ensures (State(), v) == S.DataRd(old(State()))
    {
      rdrf, irq := false, false;
      inInt := false;
      v := rx;
    }

    method DataWr(v: byte)
      modifies this
      ensures State() == S.DataWr(old(State()), v)
    {
      tx := v;
      tdre, irq := false, false;
      inInt := false;
      CheckIrq();
    }
  }

  /** A keyboard read: a byte, or nothing there. */
  datatype Input = Nothing | Key(c: byte)

  class Board {
    const acia: ACIA
    var tosend: byte
    var printed: seq<byte>
    ghost var typed: seq<byte>
    ghost var got: seq<byte>
    ghost var sent: seq<byte>

    ghost function State(): S.Net
      reads this, acia
    {
      S.Net(acia.State(), tosend, typed, got, sent, printed)
    }

    constructor ()
      ensures fresh(acia) && State() == S.START
    {
      acia := new ACIA();
      tosend, printed, typed, got, sent := 0, [], [], [], [];
    }

    method GuestRead() returns (v: byte)
      modifies this, acia
      ensures State() == S.Next(old(State()), S.GuestRead) && got == old(got) + [v]
    {
      v := acia.DataRd();
      got := got + [v];
    }

    method GuestWrite(v: byte)
      modifies this, acia
      ensures State() == S.Next(old(State()), S.GuestWrite(v))
    {
      acia.DataWr(v);
      sent := sent + [v];
    }

    /** A guest that polls the status byte before it reads transfers politely. */
    method GuestPoll() returns (v: Option<byte>)
      modifies this, acia
      ensures v.Some? <==> S.Polite(old(State()), S.GuestRead)
      ensures State() == if v.Some? then S.Next(old(State()), S.GuestRead) else old(State())
      ensures got == if v.Some? then old(got) + [v.value] else old(got)
    {
      var status := acia.CtlRd();
      if !Bit(status, 0x01) { return None; }
      var c := GuestRead();
      v := Some(c);
    }

    method GuestControl(v: byte)
      modifies this, acia
      ensures State() == S.Next(old(State()), S.GuestControl(v))
    {
      acia.CtlWr(v);
    }

    /** One pass of the main loop behind emul_step: whether the CPU is interrupted and
        whether the loop ends. */
    method HostTurn(input: Input, tty: bool) returns (interrupt: bool, stop: bool)
      modifies this, acia
      ensures interrupt == S.Reports(old(State()), S.HostPoll)
      ensures var c := if input.Key? then input.c else 0;
              var s := S.Next(S.Next(old(State()), S.HostPoll), S.HostPrint);
              && stop == (s.tosend == 0 && (if input.Key? then input.c == 4 else !tty))
              && State() == if stop then s else S.Pass(old(State()), c)
      ensures S.Conserved(old(State())) ==> printed == sent == old(sent)
    {
      if S.Conserved(State()) { S.PassPrints(State(), if input.Key? then input.c else 0); }
      hide S.Next, S.HasIrq;
      interrupt := Poll();
      Print();
      stop := ReadKey(input, tty);
      if !stop { Send(); }
    }

    method Poll() returns (interrupt: bool)
      modifies acia
      ensures State() == S.Next(old(State()), S.HostPoll) && interrupt == S.Reports(old(State()), S.HostPoll)
    {
      interrupt := acia.HasIrq();
    }

    /** Prints a byte that waits in the transmit register. */
    method Print()
      modifies this, acia
      ensures State() == S.Next(old(State()), S.HostPrint)
    {
      if !acia.tdre {
        var v := acia.Read();
        printed := printed + [v];
      }
    }

    /** Takes a byte from the keyboard if none is held back; true ends the loop. */
    method ReadKey(input: Input, tty: bool) returns (stop: bool)
      modifies this
      ensures stop == (old(tosend) == 0 && (if input.Key? then input.c == 4 else !tty))
      ensures State() == if stop then old(State())
                         else S.Next(old(State()), S.HostInput(if input.Key? then input.c else 0))
    {
      stop := false;
      if tosend == 0 {
        if input.Key? {
          var c := input.c;
          if c == 5 { c := 0; }
          if c == 4 { return true; }
          tosend := c;
          if c != 0 { typed := typed + [c]; }
        } else if !tty {
          return true;
        }
      }
    }

    /** Sends the byte held back if the guest can take it. */
    method Send()
      modifies this, acia
      ensures State() == S.Next(old(State()), S.HostSend)
    {
      hide S.CheckIrq, Bit;
      if tosend != 0 && !(acia.rdrf || Bit(acia.control, 0x40)) {
        acia.Write(tosend);
        tosend := 0;
      }
    }
  }
}
