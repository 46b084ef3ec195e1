/** The Z80 of emul/z80/z80.c in its own form, for the fetch loop, LDI and LDIR. */
module Ldir {
  import opened Words
  import S = LdirSpec

  class Z80 {
    const mem: array<byte>
    var pc: word
    var a: byte
    var f: S.Flags
    var bc: word
    var de: word
    var hl: word
    var r: byte
    var tstates: int
    var nmiReq: bool
    var intReq: bool
    var deferInt: bool
    var iff1: bool
    var unknown: bool

    ghost predicate Valid() {
      mem.Length == MEMSIZE
    }

    ghost function State(): S.State
      requires Valid()
      reads this, mem
    {
      S.State(mem[..], pc, a, f, bc, de, hl, r, tstates, unknown)
    }

    ghost predicate NoInterrupt()
      reads this
    {
      !nmiReq && !(intReq && iff1)
    }

    constructor (image: Mem, start: word)
      ensures Valid() && fresh(mem) && NoInterrupt()
      ensures mem[..] == image && pc == start && !unknown
    {
      mem := new byte[MEMSIZE](i requires 0 <= i < MEMSIZE => image[i]);
      pc, a, bc, de, hl, r, tstates := start, 0, 0, 0, 0, 0, 0;
      f := S.Flags(false, false, false, false, false, false, false, false);
      nmiReq, intReq, deferInt, iff1, unknown := false, false, false, false, false;
      new;
      assert mem[..] == image;
    }

    method Read8(addr: word) returns (val: byte)
      requires Valid()
      modifies `tstates
      ensures tstates == S.Ticks(old(tstates) + 3) && val == mem[addr]
    {
      tstates := S.Ticks(tstates + 3);
      val := mem[addr];
    }

    method Write8(addr: word, val: byte)
      requires Valid()
      modifies `tstates, mem
      ensures tstates == S.Ticks(old(tstates) + 3) && mem[..] == old(mem[..])[addr := val]
    {
      tstates := S.Ticks(tstates + 3);
      mem[addr] := val;
    }

    method Ldi()
      requires Valid()
      modifies `tstates, `de, `hl, `bc, `f, mem
      ensures State() == S.Ldi(old(State()))
    {
      hide S.Ticks, Bit, Add16, Dec;
      S.TicksAdd(tstates + 2, 3);
      S.TicksAdd(tstates + 5, 3);
      tstates := S.Ticks(tstates + 2);
      var val := Read8(hl);
      Write8(de, val);
      de := Add16(de, 1);
      hl := Add16(hl, 1);
      bc := Dec(bc);
      f := f.(f5 := Bit(a + val, 2));
      f := f.(f3 := Bit(a + val, 8));
      f := f.(h := false, n := false);
      f := f.(pv := bc != 0);
    }

    method Ldir()
      requires Valid()
      modifies `tstates, `de, `hl, `bc, `f, `pc, mem
      ensures State() == S.Ldir(old(State()))
    {
      Ldi();
      if bc != 0 {
        tstates := S.Ticks(tstates + 5);
        pc := Sub16(pc, 2);
      }
    }

    /** do_execute: opcode bytes select a table until one has a function. The table of ED
        has offset 0, so R counts both fetches. */
    method DoExecute()
      requires Valid()
      modifies this`pc, this`tstates, this`r, this`de, this`hl, this`bc, this`f, this`unknown, mem
      ensures State() == S.Execute(old(State()))
    {
      hide S.Ticks, Add16, S.IncR, S.Ldir;
      var inEd := false;
      while true
        invariant State() == if inEd then S.Fetch(old(State())).0 else old(State())
        invariant inEd ==> S.Fetch(old(State())).1 == S.ED
        decreases !inEd
      {
        S.TicksAdd(tstates + 3, 1);
        var opcode := Read8(pc);
        pc := Add16(pc, 1);
        tstates := S.Ticks(tstates + 1);
        r := S.IncR(r);
        if inEd && opcode == S.B0 {
          Ldir();
          break;
        } else if !inEd && opcode == S.ED {
          inEd := true;
        } else {
          unknown := true;
          break;
        }
      }
    }

    /** Z80Execute, when no interrupt is due. */
    method Execute()
      requires Valid() && NoInterrupt()
      modifies this`deferInt, this`pc, this`tstates, this`r, this`de, this`hl, this`bc, this`f, this`unknown, mem
      ensures NoInterrupt() && State() == S.Execute(old(State()))
    {
      deferInt := false;
      DoExecute();
    }

    /** Z80ExecuteTStates: instructions until the ticks are spent. */
    method ExecuteTStates(limit: nat) returns (spent: int)
      requires Valid() && NoInterrupt() && limit <= S.LIMIT_MAX
      modifies this`deferInt, this`pc, this`tstates, this`r, this`de, this`hl, this`bc, this`f, this`unknown, mem
      ensures NoInterrupt() && State() == S.RunTicks(old(State()).(tstates := 0), limit) && spent == tstates
    {
      hide S.Execute;
      tstates := 0;
      ghost var start := State();
      while tstates < limit && !unknown
        invariant NoInterrupt() && 0 <= tstates
        invariant S.RunTicks(State(), limit) == S.RunTicks(start, limit)
        decreases limit - tstates
      {
        S.ExecuteTicks(State(), limit);
        Execute();
      }
      spent := tstates;
    }

    /** A host that executes n instructions, one after another. */
    method Executes(n: nat)
      requires Valid() && NoInterrupt()
      modifies this`deferInt, this`pc, this`tstates, this`r, this`de, this`hl, this`bc, this`f, this`unknown, mem
      ensures NoInterrupt() && State() == S.Run(old(State()), n)
    {
      for i := 0 to n
        invariant NoInterrupt() && State() == S.Run(old(State()), i)
      {
        Execute();
      }
    }
  }
}
