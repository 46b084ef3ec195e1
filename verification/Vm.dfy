/** cvm/vm.c in its own form: one machine whose native words update registers and
    memory in place. Every method leaves the machine in the state that the function
    of the same name in VmSpec computes from the state before. */
module Vm {
  import opened Words
  import S = VmSpec

  /** A block file is refused below this size. */
  const BLKFS_MIN: nat := 100 * 1024

  /** VM_init: no machine without a boot image, or without a block file of at least 100
      blocks. */
  method Init(bin: Option<seq<byte>>, disk: Option<seq<byte>>, junk: Mem, startIp: word) returns (vm: VM?)
    requires bin.Some? ==> |bin.value| <= MEMSIZE
    ensures vm == null <==> bin.None? || disk.None? || |disk.value| < BLKFS_MIN
    ensures vm != null ==>
            && fresh(vm) && fresh(vm.mem) && fresh(vm.blkop) && vm.Valid()
            && vm.State() == S.State(bin.value + junk[|bin.value|..], S.SP_ADDR, S.RS_ADDR, startIp, 0,
                                     S.SP_ADDR, S.RS_ADDR, true, [0, 0, 0, 0], disk.value, false)
  {
    if bin.None? || disk.None? { return null; }
    if |disk.value| < BLKFS_MIN { return null; }
    vm := new VM(bin.value, junk, disk.value, startIp);
  }

  class VM {
    const mem: array<byte>
    var sp: word
    var rs: word
    var ip: word
    var pc: word
    var minSP: word
    var maxRS: word
    var running: bool
    const blkop: array<byte>
    var blkfs: seq<byte>
    var trapped: bool

    ghost predicate Valid() {
      mem.Length == MEMSIZE && blkop.Length == 4 && mem != blkop
    }

    ghost function State(): S.State
      requires Valid()
      reads this, mem, blkop
    {
      S.State(mem[..], sp, rs, ip, pc, minSP, maxRS, running, blkop[..], blkfs, trapped)
    }

    /** The part of VM_init that cannot fail: the boot image, then arbitrary bytes, and the two stacks empty.
        At most MEMSIZE image bytes are given; C leaves IP unset. */
    constructor (image: seq<byte>, junk: Mem, disk: seq<byte>, startIp: word)
      requires |image| <= MEMSIZE
      ensures Valid() && fresh(mem) && fresh(blkop)
      ensures State() == S.State(image + junk[|image|..], S.SP_ADDR, S.RS_ADDR, startIp, 0,
                                 S.SP_ADDR, S.RS_ADDR, true, [0, 0, 0, 0], disk, false)
    {
      mem := new byte[MEMSIZE](i requires 0 <= i < MEMSIZE =>
        if i < |image| then image[i] else junk[i]);
      blkop := new byte[4](_ => 0);
      sp, rs, minSP, maxRS := S.SP_ADDR, S.RS_ADDR, S.SP_ADDR, S.RS_ADDR;
      pc, ip, running, trapped, blkfs := 0, startIp, true, false, disk;
      new;
      assert mem[..] == image + junk[|image|..];
    }

    method Gw(a: word) returns (v: word)
      requires Valid()
      modifies `trapped
      ensures State() == S.Gw(old(State()), a).0 && v == S.Gw(old(State()), a).1
    {
      if a == 0xffff {
        trapped := true;
        return 0;
      }
      v := (mem[a] as int) + 0x100 * (mem[a + 1] as int);
    }

    method Sw(a: word, v: word)
      requires Valid()
      modifies `trapped, mem
      ensures State() == S.Sw(old(State()), a, v)
    {
      if a == 0xffff {
        trapped := true;
        return;
      }
      mem[a] := v % 0x100;
      mem[a + 1] := v / 0x100;
    }

    method Peek() returns (v: word)
      requires Valid()
      modifies `trapped
      ensures State() == S.Peek(old(State())).0 && v == S.Peek(old(State())).1
    {
      v := Gw(sp);
    }

    method Pop() returns (v: word)
      requires Valid()
      modifies `trapped, `sp
      ensures State() == S.Pop(old(State())).0 && v == S.Pop(old(State())).1
    {
      v := Peek();
      sp := W(sp + 2);
    }

    method Push(x: word)
      requires Valid()
      modifies `trapped, `sp, `minSP, mem
      ensures State() == S.Push(old(State()), x)
    {
      sp := W(sp - 2);
      Sw(sp, x);
      if sp < minSP { minSP := sp; }
    }

    method PopRS() returns (v: word)
      requires Valid()
      modifies `trapped, `rs
      ensures State() == S.PopRS(old(State())).0 && v == S.PopRS(old(State())).1
    {
      v := Gw(rs);
      rs := W(rs - 2);
    }

    method PushRS(v: word)
      requires Valid()
      modifies `trapped, `rs, `maxRS, mem
      ensures State() == S.PushRS(old(State()), v)
    {
      rs := W(rs + 2);
      Sw(rs, v);
      if rs > maxRS { maxRS := rs; }
    }

    method Pc16() returns (n: word)
      requires Valid()
      modifies `trapped, `pc
      ensures State() == S.Pc16(old(State())).0 && n == S.Pc16(old(State())).1
    {
      n := Gw(pc);
      pc := W(pc + 2);
    }

    // ----- block device -----

    /** The port handler: shifts command bytes in and acts on the fifth. */
    method IowrBlk(val: byte)
      requires Valid()
      modifies `blkfs, `trapped, mem, blkop
      ensures State() == S.IowrBlk(old(State()), val)
    {
      hide S.Fread, S.Fwrite;
      var rw := blkop[3];
      if rw != 0 {
        var off: nat := ((blkop[2] as int) * 0x100 + (blkop[1] as int)) * S.BLKSZ;
        var dest: word := (blkop[0] as int) * 0x100 + (val as int);
        forall i | 0 <= i < 4 { blkop[i] := 0; }
        assert blkop[..] == [0, 0, 0, 0] && mem[..] == old(mem[..]);
        if dest + S.BLKSZ > MEMSIZE {
          trapped := true;
        } else if rw == 2 {
          blkfs := S.Fwrite(mem[..], dest, blkfs, off);
        } else {
          Fread(dest, off);
        }
      } else {
        blkop[3] := blkop[2];
        blkop[2] := blkop[1];
        blkop[1] := blkop[0];
        blkop[0] := val;
        assert blkop[..] == [val, old(blkop[0]), old(blkop[1]), old(blkop[2])];
      }
    }

    /** The C library call, as one bulk store. */
    method Fread(dest: word, off: nat)
      requires Valid()
      requires dest + S.BLKSZ <= MEMSIZE
      modifies mem
      ensures mem[..] == S.Fread(old(mem[..]), dest, blkfs, off)
    {
      var n := if off >= |blkfs| then 0
               else if |blkfs| - off < S.BLKSZ then |blkfs| - off else S.BLKSZ;
      forall i | 0 <= i < n { mem[dest + i] := blkfs[off + i]; }
      assert mem[..] == S.Fread(old(mem[..]), dest, blkfs, off);
    }

    method IoWrite(port: word, val: byte)
      requires Valid()
      modifies `blkfs, `trapped, mem, blkop
      ensures State() == S.IoWrite(old(State()), port, val)
    {
      if port % 0x100 == S.BLK_PORT {
        IowrBlk(val);
      }
    }

    // ----- native words -----

    method LblNext()
      requires Valid()
      modifies this, mem, blkop
      ensures State() == S.LblNext(old(State()))
    {
      pc := Gw(ip);
      ip := W(ip + 2);
    }

    method LblXt()
      requires Valid()
      modifies this, mem, blkop
      ensures State() == S.LblXt(old(State()))
    {
      PushRS(ip);
      ip := Pop();
      LblNext();
    }

    method LblDoes()
      requires Valid()
      modifies this, mem, blkop
      ensures State() == S.LblDoes(old(State()))
    {
      pc := Pop();
      Push(W(pc + 2));
      pc := Gw(pc);
    }

    method LblVal()
      requires Valid()
      modifies this, mem, blkop
      ensures State() == S.LblVal(old(State()))
    {
      if mem[S.TO_FLAG] != 0 {
        mem[S.TO_FLAG] := 0;
        var a := Pop();
        var v := Pop();
        Sw(a, v);
      } else {
        var a := Pop();
        var v := Gw(a);
        Push(v);
      }
      LblNext();
    }

    method Dup()
      requires Valid()
      modifies this, mem, blkop
      ensures State() == S.Dup(old(State()))
    {
      var a := Peek();
      Push(a);
    }

    method Swap()
      requires Valid()
      modifies this, mem, blkop
      ensures State() == S.Swap(old(State()))
    {
      var a := Pop();
      var b := Pop();
      Push(a);
      Push(b);
    }

    method Over()
      requires Valid()
      modifies this, mem, blkop
      ensures State() == S.Over(old(State()))
    {
      var a := Pop();
      var b := Peek();
      Push(a);
      Push(b);
    }

    method Rot()
      requires Valid()
      modifies this, mem, blkop
      ensures State() == S.Rot(old(State()))
    {
      var c := Pop();
      var b := Pop();
      var a := Pop();
      Push(b);
      Push(c);
      Push(a);
    }

    method Rs2Ps()
      requires Valid()
      modifies this, mem, blkop
      ensures State() == S.Rs2Ps(old(State()))
    {
      var a := PopRS();
      Push(a);
    }

    method Ps2Rs()
      requires Valid()
      modifies this, mem, blkop
      ensures State() == S.Ps2Rs(old(State()))
    {
      var a := Pop();
      PushRS(a);
    }

    method RFetch()
      requires Valid()
      modifies this, mem, blkop
      ensures State() == S.RFetch(old(State()))
    {
      var a := Gw(rs);
      Push(a);
    }

    method PushI()
      requires Valid()
      modifies this, mem, blkop
      ensures State() == S.PushI(old(State()))
    {
      var a := Pc16();
      Push(a);
    }

    method PushII()
      requires Valid()
      modifies this, mem, blkop
      ensures State() == S.PushII(old(State()))
    {
      var a := Pc16();
      var b := Gw(a);
      Push(b);
    }

    method CFetch()
      requires Valid()
      modifies this, mem, blkop
      ensures State() == S.CFetch(old(State()))
    {
      var a := Pop();
      Push(mem[a]);
    }

    method Fetch()
      requires Valid()
      modifies this, mem, blkop
      ensures State() == S.Fetch(old(State()))
    {
      var a := Pop();
      var b := Gw(a);
      Push(b);
    }

    method CStore()
      requires Valid()
      modifies this, mem, blkop
      ensures State() == S.CStore(old(State()))
    {
      var a := Pop();
      var v := Pop();
      mem[a] := B(v);
    }

    method Store()
      requires Valid()
      modifies this, mem, blkop
      ensures State() == S.Store(old(State()))
    {
      var a := Pop();
      var v := Pop();
      Sw(a, v);
    }

    method Execute()
      requires Valid()
      modifies this, mem, blkop
      ensures State() == S.Execute(old(State()))
    {
      pc := Pop();
    }

    method JmpI()
      requires Valid()
      modifies this, mem, blkop
      ensures State() == S.JmpI(old(State()))
    {
      pc := Gw(pc);
    }

    method JmpII()
      requires Valid()
      modifies this, mem, blkop
      ensures State() == S.JmpII(old(State()))
    {
      pc := Gw(pc);
      pc := Gw(pc);
    }

    method CallI()
      requires Valid()
      modifies this, mem, blkop
      ensures State() == S.CallI(old(State()))
    {
      Push(W(pc + 2));
      JmpI();
    }

    method Not()
      requires Valid()
      modifies this, mem, blkop
      ensures State() == S.Not(old(State()))
    {
      var a := Pop();
      Push(if a != 0 then 0 else 1);
    }

    /** AND, OR, XOR, PLUS, SUB, MULT and LT differ only in the value they push. */
    method Binary(f: (word, word) -> word)
      requires Valid()
      modifies this, mem, blkop
      ensures State() == S.Binary(old(State()), f)
    {
      var b := Pop();
      var a := Pop();
      Push(f(a, b));
    }

    method Branch()
      requires Valid()
      modifies this, mem, blkop
      ensures State() == S.Branch(old(State()))
    {
      var off: int := mem[ip];
      if off > 0x7f { off := off + 0xff00; }
      ip := W(ip + off);
    }

    method CBranch()
      requires Valid()
      modifies this, mem, blkop
      ensures State() == S.CBranch(old(State()))
    {
      var f := Pop();
      if f != 0 {
        ip := W(ip + 1);
      } else {
        Branch();
      }
    }

    method Next()
      requires Valid()
      modifies this, mem, blkop
      ensures State() == S.Next(old(State()))
    {
      var x := PopRS();
      var n := W((x as int) - 1);
      if n != 0 {
        PushRS(n);
        Branch();
      } else {
        ip := W(ip + 1);
      }
    }

    method PcStore()
      requires Valid()
      modifies this, mem, blkop
      ensures State() == S.PcStore(old(State()))
    {
      var a := Pop();
      var v := Pop();
      IoWrite(a, B(v));
    }

    method PcFetch()
      requires Valid()
      modifies this, mem, blkop
      ensures State() == S.PcFetch(old(State()))
    {
      var _ := Pop();
      Push(0);
    }

    method DivMod()
      requires Valid()
      modifies this, mem, blkop
      ensures State() == S.DivMod(old(State()))
    {
      hide S.Push, S.Pop;
      var b := Pop();
      var a := Pop();
      if b == 0 {
        trapped := true;
      } else {
        Push(Mod(a, b));
        Push(Div(a, b));
      }
    }

    method RCnt()
      requires Valid()
      modifies this, mem, blkop
      ensures State() == S.RCnt(old(State()))
    {
      Push(W(S.Half(rs - S.RS_ADDR)));
    }

    method SCnt()
      requires Valid()
      modifies this, mem, blkop
      ensures State() == S.SCnt(old(State()))
    {
      Push(W(S.Half(S.SP_ADDR - sp)));
    }

    method Exit()
      requires Valid()
      modifies this, mem, blkop
      ensures State() == S.Exit(old(State()))
    {
      ip := PopRS();
    }

    method CDup()
      requires Valid()
      modifies this, mem, blkop
      ensures State() == S.CDup(old(State()))
    {
      var a := Peek();
      if a != 0 { Push(a); }
    }

    method Lit8()
      requires Valid()
      modifies this, mem, blkop
      ensures State() == S.Lit8(old(State()))
    {
      var n := mem[ip];
      ip := W(ip + 1);
      Push(n);
    }

    method Lit16()
      requires Valid()
      modifies this, mem, blkop
      ensures State() == S.Lit16(old(State()))
    {
      var n := Gw(ip);
      Push(n);
      ip := W(ip + 2);
    }

    // ----- dispatch -----

    method OpExec(op: byte)
      requires Valid()
      modifies this, mem, blkop
      ensures State() == S.Exec(old(State()), op)
    {
      if op < 30 { ExecLow(op); } else { ExecHigh(op); }
    }

    /** Slots 0 to 29 of the table. */
    method ExecLow(op: byte)
      requires Valid() && op < 30
      modifies this, mem, blkop
      ensures State() == S.Exec(old(State()), op)
    {
      hide S.Gw, S.Peek, S.Pop, S.Push, S.PopRS, S.Pc16, S.PushRS, S.IoWrite;
      match op {
        case 0 => Dup();
        case 1 => var _ := Pop();
        case 2 => PushI();
        case 3 => PushII();
        case 4 => Swap();
        case 5 => Over();
        case 6 => Rot();
        case 7 => LblNext();
        case 8 => CBranch();
        case 9 => Next();
        case 10 => CallI();
        case 11 => JmpI();
        case 12 => LblXt();
        case 13 => Exit();
        case 14 => CDup();
        case 15 => Lit8();
        case 16 => Lit16();
        case 17 => JmpII();
        case 18 => LblDoes();
        case 19 => LblVal();
        case 21 => Execute();
        case 26 => var _ := PopRS();
        case 28 => Binary(Add16);
        case 29 => Binary(Sub16);
        case _ => trapped := true;
      }
    }

    /** Slots 30 to 66, and the opcodes past the table, which halt the machine. */
    method ExecHigh(op: byte)
      requires Valid() && op >= 30
      modifies this, mem, blkop
      ensures State() == S.Exec(old(State()), op)
    {
      hide S.Gw, S.Peek, S.Pop, S.Push, S.PopRS, S.Pc16, S.PushRS, S.IoWrite;
      match op {
        case 30 => Branch();
        case 33 => Binary(Less16);
        case 38 => Not();
        case 39 => Binary(And16);
        case 40 => Binary(Or16);
        case 41 => Binary(Xor16);
        case 51 => PcStore();
        case 52 => PcFetch();
        case 53 => Binary(Mul16);
        case 54 => DivMod();
        case 55 => rs := S.RS_ADDR;
        case 56 => sp := S.SP_ADDR;
        case 57 => RCnt();
        case 58 => SCnt();
        case 59 => running := false;
        case 60 => RFetch();
        case 61 => Rs2Ps();
        case 62 => Ps2Rs();
        case 63 => CFetch();
        case 64 => Fetch();
        case 65 => Store();
        case 66 => CStore();
        case _ => if op < 67 { trapped := true; } else { running := false; }
      }
    }

    /** Fetch and execute one instruction. */
    method Step()
      requires Valid()
      modifies this, mem, blkop
      ensures State() == S.Step(old(State()))
    {
      var op := mem[pc];
      pc := W(pc + 1);
      OpExec(op);
    }

    /** VM_steps: up to n instructions, stopping early when the machine halts. */
    method Steps(n: nat) returns (alive: bool)
      requires Valid()
      modifies this, mem, blkop
      ensures State() == S.Run(n, old(State()))
      ensures alive == S.Run(n, old(State())).running
    {
      hide S.Exec;
      var left: nat := n;
      while left > 0 && running
        invariant S.Run(left, State()) == S.Run(n, old(State()))
      {
        S.RunStep(left, State());
        Step();
        left := left - 1;
      }
      S.RunDone(left, State());
      return running;
    }
  }
}
