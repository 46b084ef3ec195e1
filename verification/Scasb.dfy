/** emul/8086/cpu.c in its own form: exec86 for SCASB, HLT and the prefixes. */
module Scasb {
  import opened Words
  import S = ScasbSpec

  class Cpu {
    const ram: array<byte>
    var cs: word
    var es: word
    var ip: word
    var al: byte
    var cx: word
    var di: word
    var flags: S.Flags
    var halted: bool
    var unknown: bool

    ghost predicate Valid() {
      ram.Length == S.RAMSIZE
    }

    ghost function State(): S.State
      requires Valid()
      reads this, ram
    {
      S.State(ram[..], cs, es, ip, al, cx, di, flags, halted, unknown)
    }

    constructor (image: S.Ram)
      ensures Valid() && fresh(ram) && ram[..] == image && !halted && !unknown
    {
      ram := new byte[S.RAMSIZE](i requires 0 <= i < S.RAMSIZE => image[i]);
      cs, es, ip, al, cx, di := 0, 0, 0, 0, 0, 0;
      flags := S.Flags(false, false, false, false, false, false, false);
      halted, unknown := false, false;
      new;
      assert ram[..] == image;
    }

    method Read86(seg: word, off: word) returns (b: byte)
      requires Valid()
      ensures b == S.Read(ram[..], seg, off)
    {
      b := ram[(seg * 16 + off) % S.RAMSIZE];
    }

    /** The prefix loop: the opcode and the last repeat prefix; ip moves behind the opcode. */
    method Fetch() returns (d: S.Decoded)
      requires Valid()
      modifies `ip
      ensures d == S.Decode(old(State()), old(ip), S.NoRep, MEMSIZE)
      ensures d.Decoded? ==> d.ip == ip
    {
      hide S.Read, Add16;
      var rep := S.NoRep;
      var fuel := MEMSIZE;
      while fuel > 0
        invariant S.Decode(old(State()), ip, rep, fuel) == S.Decode(old(State()), old(ip), S.NoRep, MEMSIZE)
      {
        var opcode := Read86(cs, ip);
        ip := Add16(ip, 1);
        if opcode == 0xf3 {
          rep := S.Repe;
        } else if opcode == 0xf2 {
          rep := S.Repne;
        } else if opcode !in S.PREFIXES {
          return S.Decoded(opcode, ip, rep);
        }
        fuel := fuel - 1;
      }
      return S.Hangs;
    }

    method Scasb(rep: S.Rep, first: word) returns (twice: bool)
      requires Valid()
      modifies `flags, `di, `cx, `ip
      ensures S.Turned(State(), twice) == S.Scasb(old(State()), rep, first)
    {
      hide S.FlagSub8, S.Read, Add16, Sub16;
      if rep != S.NoRep && cx == 0 { return false; }
      var oper2 := Read86(es, di);
      flags := S.FlagSub8(flags, al, oper2);
      if flags.df { di := Sub16(di, 1); } else { di := Add16(di, 1); }
      if rep != S.NoRep { cx := Sub16(cx, 1); }
      if rep == S.Repe && !flags.zf { return false; }
      if rep == S.Repne && flags.zf { return false; }
      if rep == S.NoRep { return true; }
      ip := first;
      return true;
    }

    /** One turn of the loop of exec86. */
    method Turn() returns (twice: bool)
      requires Valid()
      modifies this
      ensures S.Turned(State(), twice) == S.Turn(old(State()))
    {
      hide S.Decode, S.Scasb;
      var first := ip;
      var d := Fetch();
      if d.Hangs? {
        ip := first;
        unknown := true;
        return false;
      }
      if d.opcode == 0xae {
        twice := Scasb(d.rep, first);
      } else if d.opcode == 0xf4 {
        halted, twice := true, false;
      } else {
        unknown, twice := true, false;
      }
    }

    /** exec86 */
    method Exec86(execloops: int) returns (r: nat)
      requires Valid()
      modifies this
      ensures State() == S.Exec(old(State()), execloops) && r == S.Returned(old(State()), execloops)
    {
      hide S.Turn;
      var loopcount := 0;
      while loopcount < execloops
        invariant S.Exec(State(), execloops - loopcount) == S.Exec(old(State()), execloops)
        invariant S.Returned(State(), execloops - loopcount) == S.Returned(old(State()), execloops)
        decreases execloops - loopcount
      {
        if unknown { return 1; }
        if halted { return 0; }
        var twice := Turn();
        if twice { loopcount := loopcount + 1; }
        loopcount := loopcount + 1;
      }
      return 1;
    }
  }
}
