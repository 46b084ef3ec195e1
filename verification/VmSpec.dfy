/** cvm/vm.c as functions on machine states: one function per native word, then
    instruction dispatch, single steps and runs. Class Vm in Vm.dfy is the
    imperative form and is proved equal to these functions. */
module VmSpec {
  import opened Words

  const SP_ADDR: word := 0xfffa
  const RS_ADDR: word := 0xff00
  const SYSVARS: word := 0xfe00
  const TO_FLAG: word := SYSVARS + 0x18
  const BLK_PORT: byte := 3
  const BLKSZ: nat := 1024

  type Blkop = s: seq<byte> | |s| == 4 witness [0, 0, 0, 0]

  /** The static variables of vm.c. `trapped` records that the C program left its
      defined behaviour: a cell access at 0xffff, a NULL opcode slot, a zero
      divisor or a block transfer running past the end of memory. */
  datatype State = State(
    mem: Mem, sp: word, rs: word, ip: word, pc: word,
    minSP: word, maxRS: word, running: bool,
    blkop: Blkop, blkfs: seq<byte>, trapped: bool)

  function Trap(s: State, when: bool): State {
    s.(trapped := s.trapped || when)
  }

  // ----- memory and stacks -----

  function Gw(s: State, a: word): (State, word) {
    (Trap(s, a == 0xffff), WordAt(s.mem, a))
  }

  function Sw(s: State, a: word, v: word): State {
    Trap(s, a == 0xffff).(mem := SetWord(s.mem, a, v))
  }

  function Peek(s: State): (State, word) {
    Gw(s, s.sp)
  }

  function Pop(s: State): (State, word) {
    var (t, n) := Peek(s);
    (t.(sp := W(s.sp + 2)), n)
  }

  function Push(s: State, x: word): State {
    var t := Sw(s.(sp := W(s.sp - 2)), W(s.sp - 2), x);
    if t.sp < t.minSP then t.(minSP := t.sp) else t
  }

  function PopRS(s: State): (State, word) {
    var (t, x) := Gw(s, s.rs);
    (t.(rs := W(s.rs - 2)), x)
  }

  function PushRS(s: State, v: word): State {
    var t := Sw(s.(rs := W(s.rs + 2)), W(s.rs + 2), v);
    if t.rs > t.maxRS then t.(maxRS := t.rs) else t
  }

  function Pc16(s: State): (State, word) {
    var (t, n) := Gw(s, s.pc);
    (t.(pc := W(s.pc + 2)), n)
  }

  // ----- block device behind port 3 -----

  /** fread of one block at byte offset off: what the file holds, up to 1024 bytes. */
  function Fread(mem: Mem, dest: word, file: seq<byte>, off: nat): Mem
    requires dest + BLKSZ <= MEMSIZE
  {
    var n := if off >= |file| then 0 else if |file| - off < BLKSZ then |file| - off else BLKSZ;
    mem[..dest] + (if n == 0 then [] else file[off..off + n]) + mem[dest + n..]
  }

  /** fwrite of one block at byte offset off; a gap after the end of file fills with zeros. */
  function Fwrite(mem: Mem, src: word, file: seq<byte>, off: nat): seq<byte>
    requires src + BLKSZ <= MEMSIZE
  {
    var base := if off <= |file| then file[..off] else file + seq(off - |file|, _ => 0);
    base + mem[src..src + BLKSZ] + (if off + BLKSZ <= |file| then file[off + BLKSZ..] else [])
  }

  function IowrBlk(s: State, val: byte): State {
    var rw := s.blkop[3];
    if rw != 0 then
      var off := (s.blkop[2] * 0x100 + s.blkop[1]) * BLKSZ;
      var dest := s.blkop[0] * 0x100 + val;
      var t := s.(blkop := [0, 0, 0, 0]);
      if dest + BLKSZ > MEMSIZE then Trap(t, true)
      else if rw == 2 then t.(blkfs := Fwrite(s.mem, dest, s.blkfs, off))
      else t.(mem := Fread(s.mem, dest, s.blkfs, off))
    else
      s.(blkop := [val, s.blkop[0], s.blkop[1], s.blkop[2]])
  }

  /** Only the block port has a handler after VM_init; other writes are dropped. */
  function IoWrite(s: State, port: word, val: byte): State {
    if port % 0x100 == BLK_PORT then IowrBlk(s, val) else s
  }

  // ----- native words -----

  function LblNext(s: State): State {
    var (t, a) := Gw(s, s.ip);
    t.(pc := a, ip := W(s.ip + 2))
  }

  function LblXt(s: State): State {
    var (t, a) := Pop(PushRS(s, s.ip));
    LblNext(t.(ip := a))
  }

  function LblDoes(s: State): State {
    var (t, a) := Pop(s);
    var (u, x) := Gw(Push(t.(pc := a), W(a + 2)), a);
    u.(pc := x)
  }

  function LblVal(s: State): State {
    if s.mem[TO_FLAG] != 0 then
      var (t, a) := Pop(s.(mem := s.mem[TO_FLAG := 0]));
      var (u, v) := Pop(t);
      LblNext(Sw(u, a, v))
    else
      var (t, a) := Pop(s);
      var (u, v) := Gw(t, a);
      LblNext(Push(u, v))
  }

  function Dup(s: State): State {
    var (t, a) := Peek(s);
    Push(t, a)
  }

  function Swap(s: State): State {
    var (t, a) := Pop(s);
    var (u, b) := Pop(t);
    Push(Push(u, a), b)
  }

  function Over(s: State): State {
    var (t, a) := Pop(s);
    var (u, b) := Peek(t);
    Push(Push(u, a), b)
  }

  function Rot(s: State): State {
    var (t, c) := Pop(s);
    var (u, b) := Pop(t);
    var (v, a) := Pop(u);
    Push(Push(Push(v, b), c), a)
  }

  function Rs2Ps(s: State): State {
    var (t, a) := PopRS(s);
    Push(t, a)
  }

  function Ps2Rs(s: State): State {
    var (t, a) := Pop(s);
    PushRS(t, a)
  }

  function RFetch(s: State): State {
    var (t, a) := Gw(s, s.rs);
    Push(t, a)
  }

  function PushI(s: State): State {
    var (t, a) := Pc16(s);
    Push(t, a)
  }

  function PushII(s: State): State {
    var (t, a) := Pc16(s);
    var (u, b) := Gw(t, a);
    Push(u, b)
  }

  function CFetch(s: State): State {
    var (t, a) := Pop(s);
    Push(t, t.mem[a])
  }

  function Fetch(s: State): State {
    var (t, a) := Pop(s);
    var (u, b) := Gw(t, a);
    Push(u, b)
  }

  function CStore(s: State): State {
    var (t, a) := Pop(s);
    var (u, v) := Pop(t);
    u.(mem := u.mem[a := B(v)])
  }

  function Store(s: State): State {
    var (t, a) := Pop(s);
    var (u, v) := Pop(t);
    Sw(u, a, v)
  }

  function Execute(s: State): State {
    var (t, a) := Pop(s);
    t.(pc := a)
  }

  function JmpI(s: State): State {
    var (t, a) := Gw(s, s.pc);
    t.(pc := a)
  }

  function JmpII(s: State): State {
    var (t, a) := Gw(s, s.pc);
    var (u, b) := Gw(t, a);
    u.(pc := b)
  }

  function CallI(s: State): State {
    JmpI(Push(s, W(s.pc + 2)))
  }

  function Not(s: State): State {
    var (t, a) := Pop(s);
    Push(t, if a != 0 then 0 else 1)
  }

  /** The two-operand words; b was on top. */
  function Binary(s: State, f: (word, word) -> word): State {
    var (t, b) := Pop(s);
    var (u, a) := Pop(t);
    Push(u, f(a, b))
  }

  function Branch(s: State): State {
    s.(ip := W(s.ip + SignExt(s.mem[s.ip])))
  }

  function CBranch(s: State): State {
    var (t, f) := Pop(s);
    if f != 0 then t.(ip := W(t.ip + 1)) else Branch(t)
  }

  function Next(s: State): State {
    var (t, x) := PopRS(s);
    var n := W(x - 1);
    if n != 0 then Branch(PushRS(t, n)) else t.(ip := W(t.ip + 1))
  }

  function PcStore(s: State): State {
    var (t, a) := Pop(s);
    var (u, v) := Pop(t);
    IoWrite(u, a, B(v))
  }

  /** VM_init leaves every read handler NULL, so a port reads as zero. */
  function PcFetch(s: State): State {
    var (t, _) := Pop(s);
    Push(t, 0)
  }

  function DivMod(s: State): State {
    var (t, b) := Pop(s);
    var (u, a) := Pop(t);
    if b == 0 then Trap(u, true) else Push(Push(u, Mod(a, b)), Div(a, b))
  }

  /** C division by two, which truncates toward zero. */
  function Half(x: int): int {
    if x < 0 then -((-x) / 2) else x / 2
  }

  function RCnt(s: State): State {
    Push(s, W(Half(s.rs - RS_ADDR)))
  }

  function SCnt(s: State): State {
    Push(s, W(Half(SP_ADDR - s.sp)))
  }

  function Exit(s: State): State {
    var (t, a) := PopRS(s);
    t.(ip := a)
  }

  function CDup(s: State): State {
    var (t, a) := Peek(s);
    if a != 0 then Push(t, a) else t
  }

  function Lit8(s: State): State {
    Push(s.(ip := W(s.ip + 1)), s.mem[s.ip])
  }

  function Lit16(s: State): State {
    var (t, n) := Gw(s, s.ip);
    var u := Push(t, n);
    u.(ip := W(u.ip + 2))
  }

  // ----- dispatch -----

  /** opexec: the table of 67 slots. */
  function Exec(s: State, op: byte): State {
    if op == 0 then Dup(s)
    else if op == 1 then Pop(s).0
    else if op == 2 then PushI(s)
    else if op == 3 then PushII(s)
    else if op == 4 then Swap(s)
    else if op == 5 then Over(s)
    else if op == 6 then Rot(s)
    else if op == 7 then LblNext(s)
    else if op == 8 then CBranch(s)
    else if op == 9 then Next(s)
    else if op == 10 then CallI(s)
    else if op == 11 then JmpI(s)
    else if op == 12 then LblXt(s)
    else if op == 13 then Exit(s)
    else if op == 14 then CDup(s)
    else if op == 15 then Lit8(s)
    else if op == 16 then Lit16(s)
    else if op == 17 then JmpII(s)
    else if op == 18 then LblDoes(s)
    else if op == 19 then LblVal(s)
    else if op == 21 then Execute(s)
    else if op == 26 then PopRS(s).0
    else if op == 28 then Binary(s, Add16)
    else if op == 29 then Binary(s, Sub16)
    else if op == 30 then Branch(s)
    else if op == 33 then Binary(s, Less16)
    else if op == 38 then Not(s)
    else if op == 39 then Binary(s, And16)
    else if op == 40 then Binary(s, Or16)
    else if op == 41 then Binary(s, Xor16)
    else if op == 51 then PcStore(s)
    else if op == 52 then PcFetch(s)
    else if op == 53 then Binary(s, Mul16)
    else if op == 54 then DivMod(s)
    else if op == 55 then s.(rs := RS_ADDR)
    else if op == 56 then s.(sp := SP_ADDR)
    else if op == 57 then RCnt(s)
    else if op == 58 then SCnt(s)
    else if op == 59 then s.(running := false)
    else if op == 60 then RFetch(s)
    else if op == 61 then Rs2Ps(s)
    else if op == 62 then Ps2Rs(s)
    else if op == 63 then CFetch(s)
    else if op == 64 then Fetch(s)
    else if op == 65 then Store(s)
    else if op == 66 then CStore(s)
    else if op < 67 then Trap(s, true)
    else s.(running := false)
  }

  function Step(s: State): State {
    Exec(s.(pc := W(s.pc + 1)), s.mem[s.pc])
  }

  /** The loop of VM_steps. */
  function Run(n: nat, s: State): State {
    if n == 0 || !s.running then s else Run(n - 1, Step(s))
  }

  lemma RunStep(n: nat, s: State)
    requires n > 0 && s.running
    ensures Run(n, s) == Run(n - 1, Step(s))
  {
  }

  lemma RunDone(n: nat, s: State)
    requires n == 0 || !s.running
    ensures Run(n, s) == s
  {
  }

  lemma {:induction false} RunAdd(m: nat, n: nat, s: State)
    ensures Run(m + n, s) == Run(n, Run(m, s))
  {
    hide Step;
    if m == 0 || !s.running {
    } else {
      RunAdd(m - 1, n, Step(s));
    }
  }
}
