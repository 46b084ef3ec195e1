/** emul/z80/t6a04.c in its own form. */
module Lcd {
  import opened Bits
  import opened Words
  import S = LcdSpec

  class T6A04 {
    const ram: array<byte>
    var enabled: bool
    var inc: S.Inc
    var offset: S.row
    var currow: S.row
    var curcol: byte
    var justMoved: bool
    var eight: bool

    ghost predicate Valid() {
      ram.Length == S.LINES * S.ROWSIZE + 1
    }

    ghost function State(): S.State
      requires Valid()
      reads this, ram
    {
      S.State(ram[..], enabled, inc, offset, currow, curcol, justMoved, eight)
    }

    constructor ()
      ensures Valid() && fresh(ram) && State() == S.Init()
    {
      ram := new byte[S.LINES * S.ROWSIZE + 1](_ => 0);
      enabled, inc, offset, currow, curcol, justMoved, eight := false, S.XInc, 0, 0, 0, true, false;
    }

    method CmdWr(val: byte)
      requires Valid()
      modifies this
      ensures State() == S.Cmd(old(State()), val)
    {
      if val >= 0xc0 {
        // contrast
      } else if val >= 0x80 {
        currow := val % 0x40;
        justMoved := true;
      } else if val >= 0x40 {
        offset := val % 0x40;
      } else if val >= 0x20 {
        curcol := val % 0x20;
        justMoved := true;
      } else if val >= 0x08 {
        // not emulated
      } else if val >= 0x04 {
        inc := S.IncOf(val);
      } else if val >= 0x02 {
        enabled := val % 2 == 1;
      } else {
        eight := val == 1;
      }
    }

    method Advance()
      requires Valid()
      modifies `currow, `curcol
      ensures State() == S.Advance(old(State()))
    {
      var maxY: byte := if eight then 14 else 19;
      match inc {
        case XDec => currow := (currow + 63) % 64;
        case XInc => currow := (currow + 1) % 64;
        case YDec => if curcol == 0 { curcol := maxY; } else { curcol := curcol - 1; }
        case YInc => if curcol < maxY { curcol := curcol + 1; } else { curcol := 0; }
      }
    }

    method DataRd() returns (res: byte)
      requires Valid() && (justMoved || S.InRange(State()))
      modifies this
      ensures (State(), res) == S.DataRd(old(State()))
    {
      if justMoved {
        justMoved := false;
        return 0;
      }
      if eight {
        res := ram[currow * S.ROWSIZE + curcol];
      } else {
        Pow2Positive(S.Shift(curcol));
        var bitpos := curcol * 6;
        var shift := 10 - bitpos % 8;
        var pos := currow * S.ROWSIZE + bitpos / 8;
        var w := (ram[pos] as int) * 0x100 + ram[pos + 1];
        res := w / Pow2(shift) % 64;
      }
      Advance();
    }

    method DataWr(val: byte)
      requires Valid() && S.InRange(State()) && (eight || val < 64)
      modifies this, ram
      ensures State() == S.DataWr(old(State()), val)
    {
      hide S.WriteBits, S.Advance, S.Pos, S.Shift;
      justMoved := false;
      if eight {
        ram[currow * S.ROWSIZE + curcol] := val;
      } else {
        WriteBits(val);
      }
      Advance();
    }

    /** The six bits of val into the 16 bits that its cell lies in. */
    method WriteBits(val: byte)
      requires Valid() && S.InRange(State()) && !eight && val < 64
      modifies ram
      ensures State() ==
              old(State().(ram := S.WriteBits(ram[..], S.Pos(currow, curcol), S.Shift(curcol), val)))
    {
      hide S.SetField;
      var bitpos := curcol * 6;
      var shift := 10 - bitpos % 8;
      var pos := currow * S.ROWSIZE + bitpos / 8;
      var w: word := (ram[pos] as int) * 0x100 + ram[pos + 1];
      w := W(S.SetField(w, shift, val));
      ram[pos] := w / 0x100;
      ram[pos + 1] := w % 0x100;
    }

    method Pixel(y: byte, x: byte) returns (on: bool)
      requires Valid() && S.OnScreen(State(), y, x)
      ensures on == S.Pixel(State(), y, x)
    {
      var r := (x + offset) % 0x40;
      var val := ram[r * S.ROWSIZE + y / 8];
      on := NthBit(val, 7 - y % 8);
    }
  }
}
