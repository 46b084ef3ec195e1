/** What LDI and LDIR do to a Z80 of emul/z80/z80.c, and what a whole run of LDIR does. */
module LdirSpec {
  import opened Words
  import opened Copying

  datatype Flags = Flags(s: bool, z: bool, f5: bool, h: bool, f3: bool, pv: bool, n: bool, c: bool)

  /** The registers that LDIR and its fetch touch, the memory behind memRead and memWrite,
      and the count of clock ticks, an unsigned C int. unknown is set by an opcode that is
      not part of this model. */
  datatype State = State(mem: Mem, pc: word, a: byte, f: Flags, bc: word, de: word, hl: word,
                         r: byte, tstates: int, unknown: bool)

  const ED: byte := 0xed
  const B0: byte := 0xb0

  function Ticks(t: int): int {
    t % 0x1_0000_0000
  }

  /** INCR: seven bits count, the eighth stays. */
  function IncR(r: byte): byte {
    if r % 0x80 == 0x7f then r - 0x7f else r + 1
  }

  /** One fetch of an opcode byte: read8 takes 3 ticks, the fetch itself 1. */
  function Fetch(s: State): (State, byte) {
    (s.(pc := Add16(s.pc, 1), r := IncR(s.r), tstates := Ticks(s.tstates + 4)), s.mem[s.pc])
  }

  function LdiFlags(f: Flags, a: byte, val: byte, bc: word): Flags {
    f.(f5 := Bit(a + val, 2), f3 := Bit(a + val, 8), h := false, n := false, pv := bc != 0)
  }

  function Ldi(s: State): State {
    var val := s.mem[s.hl];
    var bc := Dec(s.bc);
    s.(mem := s.mem[s.de := val], de := Add16(s.de, 1), hl := Add16(s.hl, 1), bc := bc,
       f := LdiFlags(s.f, s.a, val, bc), tstates := Ticks(s.tstates + 8))
  }

  /** While BC is not 0 the program counter goes back to the instruction. */
  function Ldir(s: State): State {
    var t := Ldi(s);
    if t.bc == 0 then t else t.(pc := Sub16(t.pc, 2), tstates := Ticks(t.tstates + 5))
  }

  /** Z80Execute without an interrupt. */
  function Execute(s: State): State {
    var (s1, op1) := Fetch(s);
    if op1 != ED then s1.(unknown := true)
    else
      var (s2, op2) := Fetch(s1);
      if op2 != B0 then s2.(unknown := true) else Ldir(s2)
  }

  function Run(s: State, n: nat): State {
    if n == 0 then s else Execute(Run(s, n - 1))
  }

  // ----- the whole run -----

  /** The instruction is still in memory after i bytes were copied. */
  predicate Intact(s: State, i: nat) {
    var m := Copy(s.mem, s.hl, s.de, i);
    m[s.pc] == ED && m[Add16(s.pc, 1)] == B0
  }

  /** R after n fetches. */
  function RAfter(r: byte, n: nat): byte {
    if n == 0 then r else IncR(RAfter(r, n - 1))
  }

  lemma ModNext(k: nat)
    ensures (k + 1) % 0x80 == if k % 0x80 == 0x7f then 0 else k % 0x80 + 1
  {
  }

  /** The low seven bits of R count the fetches, bit 7 stays. */
  lemma {:induction false} RCounts(r: byte, n: nat)
    ensures RAfter(r, n) / 0x80 == r / 0x80 && RAfter(r, n) % 0x80 == (r % 0x80 + n) % 0x80
    decreases n
  {
    if n > 0 {
      RCounts(r, n - 1);
      ModNext(r % 0x80 + n - 1);
      IncParts(RAfter(r, n - 1));
      hide IncR;
    }
  }

  lemma IncParts(r: byte)
    ensures IncR(r) / 0x80 == r / 0x80
    ensures IncR(r) % 0x80 == if r % 0x80 == 0x7f then 0 else r % 0x80 + 1
  {
  }

  /** The state after i executions that copied one byte each. */
  function After(s: State, i: nat): State
    requires 0 < i <= Times(s.bc)
  {
    var last := i == Times(s.bc);
    var val := Copy(s.mem, s.hl, s.de, i - 1)[W(s.hl + i - 1)];
    State(Copy(s.mem, s.hl, s.de, i),
          if last then Add16(s.pc, 2) else s.pc,
          s.a, LdiFlags(s.f, s.a, val, W(s.bc - i)),
          W(s.bc - i), W(s.de + i), W(s.hl + i),
          RAfter(s.r, 2 * i),
          Ticks(s.tstates + 21 * i - if last then 5 else 0), s.unknown)
  }

  /** The state after one execution with the instruction in place. */
  function Once(s: State): State {
    var val, bc := s.mem[s.hl], Dec(s.bc);
    State(s.mem[s.de := val], if bc == 0 then Add16(s.pc, 2) else s.pc,
          s.a, LdiFlags(s.f, s.a, val, bc), bc, Add16(s.de, 1), Add16(s.hl, 1),
          IncR(IncR(s.r)), Ticks(s.tstates + if bc == 0 then 16 else 21), s.unknown)
  }

  /** The tick count of an execution is below 2^32 and wraps around there. */
  lemma TicksWrap(t: int)
    ensures 0 <= t < 0x1_0000_0000 ==> Ticks(t) == t
    ensures Ticks(t + 0x1_0000_0000) == Ticks(t)
  {
  }

  lemma TicksAdd(t: int, k: int)
    ensures Ticks(Ticks(t) + k) == Ticks(t + k)
  {
  }

  lemma Forward(a: word)
    ensures Add16(Add16(a, 1), 1) == Add16(a, 2) && Sub16(Add16(a, 2), 2) == a
  {
    assert Add16(a, 1) == if a == 0xffff then 0 else a + 1;
    assert Add16(a, 2) == if a >= 0xfffe then a - 0xfffe else a + 2;
  }

  lemma ExecuteLdir(s: State)
    requires s.mem[s.pc] == ED && s.mem[Add16(s.pc, 1)] == B0
    ensures Execute(s) == Once(s)
  {
    hide LdiFlags, IncR, Ticks, Add16, Sub16;
    Forward(s.pc);
    TicksAdd(s.tstates + 4, 4);
    TicksAdd(s.tstates + 8, 8);
    TicksAdd(s.tstates + 16, 5);
  }

  lemma FlagsTwice(f: Flags, a: byte, v: byte, b: word, v': byte, b': word)
    ensures LdiFlags(LdiFlags(f, a, v, b), a, v', b') == LdiFlags(f, a, v', b')
  {
  }

  lemma NextWord(x: int)
    ensures Add16(W(x), 1) == W(x + 1) && Dec(W(x)) == W(x - 1)
  {
  }

  /** BC reaches 0 at the last execution and not before. */
  lemma Counts(bc: word, i: nat)
    requires i <= Times(bc)
    ensures i > 0 ==> (W(bc - i) == 0 <==> i == Times(bc))
  {
  }

  lemma {:induction false} OnceMore(s: State, i: nat)
    requires 1 < i <= Times(s.bc)
    ensures Once(After(s, i - 1)) == After(s, i)
  {
    hide LdiFlags, IncR, Ticks, Add16, Sub16, W, Dec;
    var t := After(s, i - 1);
    Counts(s.bc, i);
    NextWord(s.de + i - 1);
    NextWord(s.hl + i - 1);
    NextWord(s.bc - (i - 1));
    TicksAdd(s.tstates + 21 * (i - 1), 21);
    TicksAdd(s.tstates + 21 * (i - 1), 16);
    FlagsTwice(s.f, s.a, Copy(s.mem, s.hl, s.de, i - 2)[W(s.hl + i - 2)], t.bc, t.mem[t.hl], Dec(t.bc));
    assert RAfter(s.r, 2 * i) == IncR(IncR(RAfter(s.r, 2 * (i - 1))));
    assert Copy(s.mem, s.hl, s.de, i) == t.mem[W(s.de + i - 1) := t.mem[W(s.hl + i - 1)]];
  }

  lemma FirstOnce(s: State)
    ensures Once(s) == After(s, 1)
  {
    hide LdiFlags, IncR, Ticks;
    assert W(s.hl) == s.hl && W(s.de) == s.de && Copy(s.mem, s.hl, s.de, 0) == s.mem;
    assert RAfter(s.r, 2) == IncR(IncR(RAfter(s.r, 0)));
    assert Copy(s.mem, s.hl, s.de, 1) == s.mem[s.de := s.mem[s.hl]];
  }

  /** Every execution but the last copies one byte and comes back to the instruction; the
      last leaves it. */
  lemma {:induction false} RunLdir(s: State, i: nat)
    requires 0 < i <= Times(s.bc) && forall k :: 0 <= k < i ==> Intact(s, k)
    ensures Run(s, i) == After(s, i)
    decreases i
  {
    hide Execute, Once, Times;
    assert Intact(s, i - 1);
    assert Run(s, i) == Execute(Run(s, i - 1));
    if i > 1 {
      RunLdir(s, i - 1);
      ExecuteLdir(After(s, i - 1));
      OnceMore(s, i);
    } else {
      assert Run(s, 0) == s && Copy(s.mem, s.hl, s.de, 0) == s.mem;
      ExecuteLdir(s);
      FirstOnce(s);
    }
  }

  /** The whole run: exactly Times executions, the forward copy, HL and DE past it, BC 0,
      the program counter behind the instruction, 21 ticks an execution but 16 for the last. */
  lemma LdirRun(s: State)
    requires forall k :: 0 <= k < Times(s.bc) ==> Intact(s, k)
    ensures var n := Times(s.bc);
            var e := Run(s, n);
            && e.mem == Copy(s.mem, s.hl, s.de, n) && e.bc == 0
            && e.hl == W(s.hl + n) && e.de == W(s.de + n) && e.pc == Add16(s.pc, 2)
            && e.tstates == Ticks(s.tstates + 21 * n - 5) && e.r == RAfter(s.r, 2 * n)
            && e.a == s.a && !e.f.pv && e.f.s == s.f.s && e.f.z == s.f.z && e.f.c == s.f.c
            && e.unknown == s.unknown
    ensures forall i :: 0 <= i < Times(s.bc) ==> Run(s, i).pc == s.pc && Run(s, i).bc == W(s.bc - i)
  {
    hide Run, Copy, Intact, Ticks, RAfter, Add16;
    RunLdir(s, Times(s.bc));
    forall i | 0 <= i < Times(s.bc) ensures Run(s, i).pc == s.pc && Run(s, i).bc == W(s.bc - i) {
      if i > 0 { RunLdir(s, i); } else { RunNone(s); }
    }
  }

  /** The flags after any number of executions: H and N clear, P/V set until the last, and F5
      and F3 are bits 1 and 3 of the sum of A and the byte copied last. The others stay. */
  lemma LdirFlags(s: State, i: nat)
    requires 0 < i <= Times(s.bc) && forall k :: 0 <= k < i ==> Intact(s, k)
    ensures var e := Run(s, i);
            var sum: nat := s.a + e.mem[(s.de + i - 1) % 0x1_0000];
            && !e.f.h && !e.f.n && (e.f.pv <==> i < Times(s.bc))
            && (e.f.f5 <==> sum / 2 % 2 == 1) && (e.f.f3 <==> sum / 8 % 2 == 1)
            && e.f.s == s.f.s && e.f.z == s.f.z && e.f.c == s.f.c && e.a == s.a
  {
    hide Run, Copy, Intact, Ticks, RAfter, Add16, Times;
    RunLdir(s, i);
    CopyLast(s.mem, s.hl, s.de, i);
    Counts(s.bc, i);
  }

  lemma RunNone(s: State)
    ensures Run(s, 0) == s
  {
  }

  // ----- running for a number of ticks -----

  /** Limits for which the tick count cannot wrap around before it is reached. */
  const LIMIT_MAX: nat := 0x1_0000_0000 - 21

  lemma ExecuteTicks(s: State, limit: nat)
    requires 0 <= s.tstates < limit <= LIMIT_MAX
    ensures s.tstates < Execute(s).tstates
  {
    hide Execute, LdiFlags, IncR, Ticks, Add16;
    TicksSmall(s.tstates);
    if s.mem[s.pc] == ED && s.mem[Add16(s.pc, 1)] == B0 { ExecuteLdir(s); } else { ExecuteOther(s); }
  }

  lemma ExecuteOther(s: State)
    requires !(s.mem[s.pc] == ED && s.mem[Add16(s.pc, 1)] == B0)
    ensures Execute(s).tstates == Ticks(s.tstates + if s.mem[s.pc] == ED then 8 else 4) && Execute(s).unknown
  {
    hide IncR, Ticks, Add16, Ldir;
    TicksAdd(s.tstates + 4, 4);
  }

  lemma TicksSmall(t: nat)
    requires t < LIMIT_MAX
    ensures Ticks(t + 4) == t + 4 && Ticks(t + 8) == t + 8 && Ticks(t + 16) == t + 16 && Ticks(t + 21) == t + 21
  {
  }

  /** Z80ExecuteTStates, once it has set the count to zero: instructions until the ticks are
      spent. */
  function RunTicks(s: State, limit: nat): State
    requires 0 <= s.tstates && limit <= LIMIT_MAX
    decreases limit - s.tstates
  {
    if s.tstates >= limit || s.unknown then s
    else
      ExecuteTicks(s, limit);
      RunTicks(Execute(s), limit)
  }

  /** The tick loop makes the instructions that are needed to reach its limit. */
  lemma {:induction false} TicksAreRuns(s: State, limit: nat, i: nat, j: nat)
    requires limit <= LIMIT_MAX && i <= j
    requires forall k :: i <= k < j ==> 0 <= Run(s, k).tstates < limit && !Run(s, k).unknown
    requires Run(s, j).tstates >= limit
    ensures 0 <= Run(s, i).tstates && RunTicks(Run(s, i), limit) == Run(s, j)
    decreases j - i
  {
    hide Execute;
    if i < j {
      ExecuteTicks(Run(s, i), limit);
      assert Run(s, i + 1) == Execute(Run(s, i));
      TicksAreRuns(s, limit, i + 1, j);
    }
  }

  /** LDIR under a limit of ticks that it does not outlast: it stops after the executions of
      21 ticks that reach the limit, in the middle of the copy or at its end. */
  lemma LdirTicks(s: State, limit: nat)
    requires s.tstates == 0 && !s.unknown && forall k :: 0 <= k < Times(s.bc) ==> Intact(s, k)
    requires 0 < limit <= 21 * Times(s.bc) - 5
    ensures limit <= LIMIT_MAX && RunTicks(s, limit) == Run(s, (limit + 20) / 21)
  {
    hide Run, RunTicks, Intact, After, Times;
    var j := (limit + 20) / 21;
    TimesFit(s.bc);
    RunNone(s);
    forall k | 0 <= k < j ensures Run(s, k).tstates == 21 * k < limit && !Run(s, k).unknown {
      if k > 0 {
        RunLdir(s, k);
        AfterTicks(s, k);
      }
    }
    RunLdir(s, j);
    AfterTicks(s, j);
    TicksAreRuns(s, limit, 0, j);
  }

  lemma TimesFit(n: word)
    ensures 0 < Times(n) <= MEMSIZE && 21 * MEMSIZE <= LIMIT_MAX
  {
  }

  /** Ticks and completeness after i executions from a count of zero. */
  lemma AfterTicks(s: State, i: nat)
    requires s.tstates == 0 && !s.unknown && 0 < i <= Times(s.bc)
    ensures !After(s, i).unknown
    ensures After(s, i).tstates == if i < Times(s.bc) then 21 * i else 21 * i - 5
  {
    hide Copy, RAfter, LdiFlags, W;
    TimesFit(s.bc);
  }

  /** A run that does not write onto its own instruction before its last byte. */
  lemma ClearOfCode(s: State)
    requires s.mem[s.pc] == 0xed && s.mem[(s.pc + 1) % 0x1_0000] == 0xb0
    requires Sub16(s.pc, s.de) >= Times(s.bc) - 1 && Sub16(Add16(s.pc, 1), s.de) >= Times(s.bc) - 1
    ensures forall k :: 0 <= k < Times(s.bc) ==> Intact(s, k)
  {
    forall k | 0 <= k < Times(s.bc) ensures Intact(s, k) {
      CopyElse(s.mem, s.hl, s.de, k, s.pc);
      CopyElse(s.mem, s.hl, s.de, k, Add16(s.pc, 1));
    }
  }
}
