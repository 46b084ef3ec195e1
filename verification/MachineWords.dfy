/** What each slot of the opcode table does with two abstract stacks, by its number: the words
    of the source language, and those it lacks, jumps, calls and constants in native code, DOES>
    and VALUE, ports, QUIT, ABORT and BYE; and which instructions leave C. */
module MachineWords {
  import opened Words
  import opened VmSpec
  import opened Forth
  import opened Stacks
  import opened Meaning

  /** The parameter stack grows down from 0xfffa and the return stack up from 0xff00. */
  lemma FirstCells(s: State, m: Mem, x: word)
    requires Rep(s, [], [], m)
    ensures s.sp == 0xfffa && s.rs == 0xff00
    ensures Push(s, x).sp == 0xfff8 && WordAt(Push(s, x).mem, 0xfff8) == x
    ensures PushRS(s, x).rs == 0xff02 && WordAt(PushRS(s, x).mem, 0xff02) == x
  {
    SetWordAt(s.mem, 0xfff8, x);
    SetWordAt(s.mem, 0xff02, x);
  }

  // ----- slots of the source language's words -----

  /** What a word means, the machine does. */
  lemma FromMeaning(p: Prim, op: byte, s: State, ps: seq<word>, rs: seq<word>, m: Mem,
                    ps': seq<word>, rs': seq<word>, m': Mem)
    requires Gives(p, World(0, 0, []), 0, ps, rs, m, ps', rs', m') && |ps'| + |rs'| <= 124
    requires Rep(s, ps, rs, m) && Opcode(p) == op
    ensures var t := Exec(s, op); Rep(t, ps', rs', m') && t.ip == s.ip && t.pc == s.pc
  {
    DepthOf(s, ps, rs, m);
    hide Rep, Exec, EvalPrim, Opcode;
    assert [] + rs == rs && [] + rs' == rs';
    PrimStep(p, Cfg(ps, rs, m), World(0, 0, []), [], s);
  }

  lemma SumNumbers()
    ensures Opcode(PLUS) == 28 && Opcode(MINUS) == 29 && Opcode(TIMES) == 53 && Opcode(LESS) == 33
  {
  }

  lemma LogicNumbers()
    ensures Opcode(AND) == 39 && Opcode(OR) == 40 && Opcode(XOR) == 41 && Opcode(DIVMOD) == 54
  {
  }

  lemma StackNumbers()
    ensures Opcode(SWAP) == 4 && Opcode(OVER) == 5 && Opcode(ROT) == 6 && Opcode(SCNT) == 58 && Opcode(RCNT) == 57
  {
  }

  lemma TopNumbers()
    ensures Opcode(DROP) == 1 && Opcode(Forth.Prim.NOT) == 38 && Opcode(DUP) == 0 && Opcode(QDUP) == 14
  {
  }

  lemma ReturnNumbers()
    ensures Opcode(TOR) == 62 && Opcode(FROMR) == 61 && Opcode(RFETCH) == 60 && Opcode(RDROP) == 26
  {
  }

  lemma MemoryNumbers()
    ensures Opcode(FETCH) == 64 && Opcode(CFETCH) == 63 && Opcode(STORE) == 65 && Opcode(CSTORE) == 66
  {
  }

  /** + - * <: slots 28, 29, 53 and 33. */
  lemma SumSlots(s: State, ps: seq<word>, a: word, b: word, rs: seq<word>, m: Mem)
    requires Rep(s, ps + [a, b], rs, m)
    ensures Rep(Exec(s, 28), ps + [if a + b < 0x1_0000 then a + b else a + b - 0x1_0000], rs, m)
    ensures Rep(Exec(s, 29), ps + [if a >= b then a - b else a - b + 0x1_0000], rs, m)
    ensures Rep(Exec(s, 53), ps + [(a * b) % 0x1_0000], rs, m)
    ensures Rep(Exec(s, 33), ps + [if a < b then 1 else 0], rs, m)
  {
    hide *;
    SumNumbers();
    DepthOf(s, ps + [a, b], rs, m);
    Bound();
    Sums(World(0, 0, []), 0, ps, a, b, rs, m);
    Comparison(World(0, 0, []), 0, ps, a, b, rs, m);
    var two := ps + [a, b];
    FromMeaning(PLUS, 28, s, two, rs, m, ps + [if a + b < 0x1_0000 then a + b else a + b - 0x1_0000], rs, m);
    FromMeaning(MINUS, 29, s, two, rs, m, ps + [if a >= b then a - b else a - b + 0x1_0000], rs, m);
    FromMeaning(TIMES, 53, s, two, rs, m, ps + [(a * b) % 0x1_0000], rs, m);
    FromMeaning(LESS, 33, s, two, rs, m, ps + [if a < b then 1 else 0], rs, m);
  }

  lemma Bound()
    ensures CAP == 124
  {
  }

  /** SWAP, OVER and ROT: slots 4, 5 and 6. */
  lemma ShuffleSlots(s: State, ps: seq<word>, a: word, b: word, c: word, rs: seq<word>, m: Mem)
    requires |ps| + |rs| < 122
    ensures Rep(s, ps + [a, b], rs, m) ==>
            Rep(Exec(s, 4), ps + [b, a], rs, m) && Rep(Exec(s, 5), ps + [a, b, a], rs, m)
    ensures Rep(s, ps + [a, b, c], rs, m) ==> Rep(Exec(s, 6), ps + [b, c, a], rs, m)
  {
    hide *;
    StackNumbers();
    Shuffles(World(0, 0, []), 0, ps, a, b, c, rs, m);
    if Rep(s, ps + [a, b], rs, m) {
      FromMeaning(SWAP, 4, s, ps + [a, b], rs, m, ps + [b, a], rs, m);
      FromMeaning(OVER, 5, s, ps + [a, b], rs, m, ps + [a, b, a], rs, m);
    }
    if Rep(s, ps + [a, b, c], rs, m) {
      FromMeaning(ROT, 6, s, ps + [a, b, c], rs, m, ps + [b, c, a], rs, m);
    }
  }

  /** AND, OR and XOR: slots 39, 40 and 41. */
  lemma LogicSlots(s: State, ps: seq<word>, a: word, b: word, rs: seq<word>, m: Mem)
    returns (x: word, y: word, z: word)
    requires Rep(s, ps + [a, b], rs, m)
    ensures Rep(Exec(s, 39), ps + [x], rs, m) && Rep(Exec(s, 40), ps + [y], rs, m) && Rep(Exec(s, 41), ps + [z], rs, m)
    ensures forall k: nat :: k < 16 ==> Bitwide(a, b, x, y, z, k)
  {
    hide *;
    LogicNumbers();
    DepthOf(s, ps + [a, b], rs, m);
    Bound();
    x, y, z := Logic(World(0, 0, []), 0, ps, a, b, rs, m);
    FromMeaning(AND, 39, s, ps + [a, b], rs, m, ps + [x], rs, m);
    FromMeaning(OR, 40, s, ps + [a, b], rs, m, ps + [y], rs, m);
    FromMeaning(XOR, 41, s, ps + [a, b], rs, m, ps + [z], rs, m);
  }

  /** /MOD: slot 54. */
  lemma DivideSlot(s: State, ps: seq<word>, a: word, b: word, rs: seq<word>, m: Mem)
    returns (r: word, q: word)
    requires Rep(s, ps + [a, b], rs, m) && b != 0
    ensures Rep(Exec(s, 54), ps + [r, q], rs, m) && q * b + r == a && r < b
  {
    hide *;
    LogicNumbers();
    DepthOf(s, ps + [a, b], rs, m);
    Bound();
    r, q := Division(World(0, 0, []), 0, ps, a, b, rs, m);
    FromMeaning(DIVMOD, 54, s, ps + [a, b], rs, m, ps + [r, q], rs, m);
  }

  /** One operand: slots 1, 38, 0 and 14. */
  lemma TopSlots(s: State, ps: seq<word>, a: word, rs: seq<word>, m: Mem)
    requires Rep(s, ps + [a], rs, m) && |ps| + |rs| < 123
    ensures Rep(Exec(s, 1), ps, rs, m) && Rep(Exec(s, 38), ps + [if a == 0 then 1 else 0], rs, m)
    ensures Rep(Exec(s, 0), ps + [a, a], rs, m) && Rep(Exec(s, 14), ps + if a == 0 then [a] else [a, a], rs, m)
  {
    hide *;
    TopNumbers();
    Tops(World(0, 0, []), 0, ps, a, rs, m);
    FromMeaning(DROP, 1, s, ps + [a], rs, m, ps, rs, m);
    FromMeaning(Forth.Prim.NOT, 38, s, ps + [a], rs, m, ps + [if a == 0 then 1 else 0], rs, m);
    FromMeaning(DUP, 0, s, ps + [a], rs, m, ps + [a, a], rs, m);
    FromMeaning(QDUP, 14, s, ps + [a], rs, m, ps + if a == 0 then [a] else [a, a], rs, m);
  }

  /** To and from the return stack: slots 62, 61, 60 and 26; depths: slots 58 and 57. */
  lemma ReturnSlots(s: State, ps: seq<word>, rs: seq<word>, a: word, m: Mem)
    requires |ps| + |rs| < 123
    ensures Rep(s, ps + [a], rs, m) ==> Rep(Exec(s, 62), ps, rs + [a], m)
    ensures Rep(s, ps, rs + [a], m) ==>
            && Rep(Exec(s, 61), ps + [a], rs, m) && Rep(Exec(s, 60), ps + [a], rs + [a], m)
            && Rep(Exec(s, 26), ps, rs, m)
    ensures Rep(s, ps, rs, m) ==> Rep(Exec(s, 58), ps + [|ps|], rs, m) && Rep(Exec(s, 57), ps + [|rs|], rs, m)
  {
    hide *;
    ReturnNumbers();
    Frames(World(0, 0, []), 0, ps, a, rs, m);
    if Rep(s, ps + [a], rs, m) { FromMeaning(TOR, 62, s, ps + [a], rs, m, ps, rs + [a], m); }
    if Rep(s, ps, rs + [a], m) {
      FromMeaning(FROMR, 61, s, ps, rs + [a], m, ps + [a], rs, m);
      FromMeaning(RFETCH, 60, s, ps, rs + [a], m, ps + [a], rs + [a], m);
      FromMeaning(RDROP, 26, s, ps, rs + [a], m, ps, rs, m);
    }
    if Rep(s, ps, rs, m) { CountSlots(s, ps, rs, m); }
  }

  lemma CountSlots(s: State, ps: seq<word>, rs: seq<word>, m: Mem)
    requires Rep(s, ps, rs, m) && |ps| + |rs| < 123
    ensures Rep(Exec(s, 58), ps + [|ps|], rs, m) && Rep(Exec(s, 57), ps + [|rs|], rs, m)
  {
    hide Rep, Exec, Gives;
    StackNumbers();
    Depths(World(0, 0, []), 0, ps, rs, m);
    FromMeaning(SCNT, 58, s, ps, rs, m, ps + [|ps|], rs, m);
    FromMeaning(RCNT, 57, s, ps, rs, m, ps + [0 + |rs|], rs, m);
  }

  /** In any state the two depths are whole cells between pointer and base, rounded toward zero;
      past its base a pointer counts down from 2^16. */
  lemma Distances(s: State, h: word, odd: bool)
    ensures var d := 2 * h + if odd then 1 else 0;
            var minus := if h == 0 then 0 else 0x1_0000 - h;
            && (s.rs == 0xff00 + d ==> Exec(s, 57) == Push(s, h))
            && (s.rs == 0xff00 - d ==> Exec(s, 57) == Push(s, minus))
            && (s.sp == 0xfffa - d ==> Exec(s, 58) == Push(s, h))
            && (s.sp == 0xfffa + d ==> Exec(s, 58) == Push(s, minus))
  {
    hide Push, Exec;
    CountExec(s);
  }

  lemma CountExec(s: State)
    ensures Exec(s, 57) == RCnt(s) && Exec(s, 58) == SCnt(s)
  {
    hide RCnt, SCnt;
  }

  /** Memory below the stacks: slots 64, 63, 65 and 66. */
  lemma MemorySlots(s: State, ps: seq<word>, v: word, a: word, rs: seq<word>, m: Mem)
    requires Rep(s, ps + [v, a], rs, m) && a + 2 <= 0xff00
    ensures Rep(Exec(s, 64), ps + [v] + [Cell(m, a)], rs, m) && Rep(Exec(s, 63), ps + [v] + [m[a]], rs, m)
    ensures Rep(Exec(s, 65), ps, rs, m[a := v % 0x100][a + 1 := v / 0x100])
    ensures Rep(Exec(s, 66), ps, rs, m[a := v % 0x100])
  {
    hide Rep, Exec, EvalPrim, Opcode, Gives, Cell;
    MemoryNumbers();
    DepthOf(s, ps + [v, a], rs, m);
    Bound();
    assert (ps + [v]) + [a] == ps + [v, a];
    CellFetch(World(0, 0, []), 0, ps + [v], a, rs, m);
    ByteFetch(World(0, 0, []), 0, ps + [v], a, rs, m);
    Stores(World(0, 0, []), 0, ps, v, a, rs, m);
    FromMeaning(FETCH, 64, s, ps + [v, a], rs, m, ps + [v] + [Cell(m, a)], rs, m);
    FromMeaning(CFETCH, 63, s, ps + [v, a], rs, m, ps + [v] + [m[a]], rs, m);
    FromMeaning(STORE, 65, s, ps + [v, a], rs, m, ps, rs, m[a := v % 0x100][a + 1 := v / 0x100]);
    FromMeaning(CSTORE, 66, s, ps + [v, a], rs, m, ps, rs, m[a := v % 0x100]);
  }

  // ----- the other slots -----

  lemma CellRead(s: State, ps: seq<word>, rs: seq<word>, m: Mem, a: word)
    requires Rep(s, ps, rs, m) && a + 2 <= RS_ADDR
    ensures Gw(s, a) == (s, Cell(m, a))
  {
  }

  lemma OneAbove(ps: seq<word>, a: word)
    ensures Last(ps + [a]) == a && Init(ps + [a]) == ps
  {
  }

  /** EXECUTE goes on at the address on top. */
  lemma Executes(s: State, ps: seq<word>, a: word, rs: seq<word>, m: Mem)
    requires Rep(s, ps + [a], rs, m)
    ensures var t := Exec(s, 21); Rep(t, ps, rs, m) && t.pc == a && t.ip == s.ip
  {
    hide Rep, Pop;
    OneAbove(ps, a);
    RepPop(s, ps + [a], rs, m);
    RepMove(Pop(s).0, ps, rs, m, s.ip, a);
  }

  /** JMPi goes to the operand, JMPii to the cell that it points to. */
  lemma Jumps(s: State, ps: seq<word>, rs: seq<word>, m: Mem)
    requires Rep(s, ps, rs, m) && s.pc + 2 <= RS_ADDR
    ensures Exec(s, 11) == s.(pc := Cell(m, s.pc))
    ensures Cell(m, s.pc) + 2 <= RS_ADDR ==> Exec(s, 17) == s.(pc := Cell(m, Cell(m, s.pc)))
  {
    CellRead(s, ps, rs, m, s.pc);
    if Cell(m, s.pc) + 2 <= RS_ADDR { CellRead(s, ps, rs, m, Cell(m, s.pc)); }
    hide Rep, Gw;
  }

  /** CALLi pushes the address behind its operand and goes to the operand. */
  lemma Calls(s: State, ps: seq<word>, rs: seq<word>, m: Mem)
    requires Rep(s, ps, rs, m) && |ps| + |rs| < 124 && s.pc + 2 <= RS_ADDR
    ensures var t := Exec(s, 10); Rep(t, ps + [s.pc + 2], rs, m) && t.pc == Cell(m, s.pc) && t.ip == s.ip
  {
    hide Rep, Push, Gw;
    RepPush(s, ps, rs, m, s.pc + 2);
    var u := Push(s, s.pc + 2);
    CellRead(u, ps + [s.pc + 2], rs, m, s.pc);
    RepMove(u, ps + [s.pc + 2], rs, m, s.ip, Cell(m, s.pc));
  }

  /** PUSHi pushes the operand, and PUSHii the cell that it points to; PC is behind it. */
  lemma Constants(s: State, ps: seq<word>, rs: seq<word>, m: Mem)
    requires Rep(s, ps, rs, m) && |ps| + |rs| < 124 && s.pc + 2 <= RS_ADDR
    ensures var t := Exec(s, 2); Rep(t, ps + [Cell(m, s.pc)], rs, m) && t.pc == s.pc + 2 && t.ip == s.ip
    ensures Cell(m, s.pc) + 2 <= RS_ADDR ==>
            var t := Exec(s, 3);
            Rep(t, ps + [Cell(m, Cell(m, s.pc))], rs, m) && t.pc == s.pc + 2 && t.ip == s.ip
  {
    hide Rep, Push, Gw;
    var a := Cell(m, s.pc);
    CellRead(s, ps, rs, m, s.pc);
    var u := s.(pc := s.pc + 2);
    RepMove(s, ps, rs, m, s.ip, s.pc + 2);
    RepPush(u, ps, rs, m, a);
    if a + 2 <= RS_ADDR {
      CellRead(u, ps, rs, m, a);
      RepPush(u, ps, rs, m, Cell(m, a));
    }
  }

  /** The routine of DOES> words: with the address of a pair of a cell and data on top, the
      address of the data is left and the machine goes on at the cell. */
  lemma Does(s: State, ps: seq<word>, a: word, rs: seq<word>, m: Mem)
    requires Rep(s, ps + [a], rs, m) && a + 2 <= RS_ADDR
    ensures var t := Exec(s, 18); Rep(t, ps + [a + 2], rs, m) && t.pc == Cell(m, a) && t.ip == s.ip
  {
    hide Rep, Push, Pop, Gw;
    OneAbove(ps, a);
    RepPop(s, ps + [a], rs, m);
    var u := Pop(s).0.(pc := a);
    RepMove(Pop(s).0, ps, rs, m, s.ip, a);
    DepthOf(s, ps + [a], rs, m);
    RepPush(u, ps, rs, m, a + 2);
    var v := Push(u, a + 2);
    CellRead(v, ps + [a + 2], rs, m, a);
    RepMove(v, ps + [a + 2], rs, m, s.ip, Cell(m, a));
  }

  /** The routine of VALUE words without TO: the value replaces its address, and the inner
      interpreter goes on. */
  lemma ValueFetch(s: State, ps: seq<word>, a: word, rs: seq<word>, m: Mem)
    requires Rep(s, ps + [a], rs, m) && m[0xfe18] == 0 && a + 2 <= RS_ADDR && s.ip + 2 <= RS_ADDR
    ensures var t := Exec(s, 19);
            Rep(t, ps + [Cell(m, a)], rs, m) && t.pc == Cell(m, s.ip) && t.ip == s.ip + 2
  {
    assert s.mem[TO_FLAG] == 0;
    hide Rep, Push, Pop, Gw;
    OneAbove(ps, a);
    RepPop(s, ps + [a], rs, m);
    var u := Pop(s).0;
    CellRead(u, ps, rs, m, a);
    DepthOf(s, ps + [a], rs, m);
    RepPush(u, ps, rs, m, Cell(m, a));
    var v := Push(u, Cell(m, a));
    CellRead(v, ps + [Cell(m, a)], rs, m, s.ip);
    RepMove(v, ps + [Cell(m, a)], rs, m, s.ip + 2, Cell(m, s.ip));
  }

  /** Memory after a store by TO: the flag is cleared and the cell at a replaced. */
  function Valued(m: Mem, a: nat, v: word): Mem
    requires a < 0xffff
  {
    m[0xfe18 := 0][a := v % 0x100][a + 1 := v / 0x100]
  }

  /** The same with TO: the value under the address is stored there and the flag is cleared. */
  lemma ValueStore(s: State, ps: seq<word>, v: word, a: word, rs: seq<word>, m: Mem)
    requires Rep(s, ps + [v, a], rs, m) && m[0xfe18] != 0 && a + 2 <= RS_ADDR && s.ip + 2 <= RS_ADDR
    ensures var t, n := Exec(s, 19), Valued(m, a, v);
            Rep(t, ps, rs, n) && t.pc == Cell(n, s.ip) && t.ip == s.ip + 2
  {
    assert s.mem[TO_FLAG] != 0;
    ValueExec(s);
    hide Pop, Exec;
    var m0, n := m[0xfe18 := 0], Valued(m, a, v);
    var s0 := s.(mem := s.mem[TO_FLAG := 0]);
    RepLowMemory(s, ps + [v, a], rs, m, s0.mem, m0);
    hide Rep;
    assert (ps + [v]) + [a] == ps + [v, a];
    OneAbove(ps + [v], a);
    OneAbove(ps, v);
    RepPop(s0, ps + [v, a], rs, m0);
    var t := Pop(s0).0;
    RepPop(t, ps + [v], rs, m0);
    var u := Pop(t).0;
    LowStore(u, ps, rs, m0, a, v);
    var w := Sw(u, a, v);
    hide Gw, Sw;
    CellRead(w, ps, rs, n, s.ip);
    RepMove(w, ps, rs, n, s.ip + 2, Cell(n, s.ip));
  }

  lemma ValueExec(s: State)
    ensures Exec(s, 19) == LblVal(s)
  {
    hide LblVal;
  }

  lemma LowStore(s: State, ps: seq<word>, rs: seq<word>, m: Mem, a: word, v: word)
    requires Rep(s, ps, rs, m) && a + 2 <= RS_ADDR
    ensures Rep(Sw(s, a, v), ps, rs, m[a := v % 0x100][a + 1 := v / 0x100])
    ensures Sw(s, a, v).ip == s.ip && Sw(s, a, v).pc == s.pc
  {
    RepLowMemory(s, ps, rs, m, SetWord(s.mem, a, v), m[a := v % 0x100][a + 1 := v / 0x100]);
    assert Sw(s, a, v) == s.(mem := SetWord(s.mem, a, v));
  }

  /** PC@ leaves zero: no port has a read handler. PC! reaches the block port if and only if
      the low byte of the port is 3, and otherwise only drops its two operands. */
  lemma Ports(s: State, ps: seq<word>, v: word, a: word, rs: seq<word>, m: Mem)
    requires Rep(s, ps + [v, a], rs, m)
    ensures var t := Exec(s, 52); Rep(t, ps + [v, 0], rs, m) && t.pc == s.pc && t.ip == s.ip
    ensures var t, u := Exec(s, 51), s.(sp := s.sp + 4);
            && Rep(u, ps, rs, m)
            && t == if a % 0x100 == 3 then IowrBlk(u, v % 0x100) else u
  {
    hide Rep, Push, Pop, IowrBlk;
    assert (ps + [v]) + [a] == ps + [v, a] && (ps + [v]) + [0] == ps + [v, 0];
    OneAbove(ps + [v], a);
    OneAbove(ps, v);
    RepPop(s, ps + [v, a], rs, m);
    var t := Pop(s).0;
    RepPop(t, ps + [v], rs, m);
    DepthOf(s, ps + [v, a], rs, m);
    RepPush(t, ps + [v], rs, m, 0);
  }

  /** QUIT empties the return stack, ABORT the parameter stack; BYE and every opcode from 67 on
      stop the machine and change nothing else. */
  lemma Resets(s: State, ps: seq<word>, rs: seq<word>, m: Mem)
    requires Rep(s, ps, rs, m)
    ensures var t := Exec(s, 55); Rep(t, ps, [], m) && t == s.(rs := t.rs)
    ensures var t := Exec(s, 56); Rep(t, [], rs, m) && t == s.(sp := t.sp)
    ensures Exec(s, 59) == s.(running := false)
    ensures forall op: byte :: op >= 67 ==> Exec(s, op) == s.(running := false)
  {
  }

  const EMPTY: set<byte> := {20, 22, 23, 24, 25, 27, 31, 32, 34, 35, 36, 37, 42, 43, 44, 45, 46, 47, 48, 49, 50}

  /** An instruction at an empty slot leaves C. */
  lemma EmptySlot(s: State, op: byte)
    requires op in EMPTY
    ensures Exec(s, op) == s.(trapped := true)
  {
    hide Pop, PopRS, LblNext, Branch, JmpI, JmpII, Dup, Swap, Over, Rot, Rs2Ps, Ps2Rs, RFetch, CDup,
         PushI, PushII, CFetch, Fetch, CStore, Store, VmSpec.Not, DivMod, RCnt, SCnt, Lit8, Lit16,
         Binary, CBranch, VmSpec.Next, CallI, LblXt, LblDoes, LblVal, Execute, VmSpec.Exit, PcStore, PcFetch;
  }

  /** @ and ! leave C at exactly the address 0xffff, and /MOD at exactly a zero divisor,
      whatever else is on the stacks. */
  lemma LeavesC(s: State, ps: seq<word>, v: word, a: word, rs: seq<word>, m: Mem)
    requires Rep(s, ps + [v, a], rs, m)
    ensures Exec(s, 64).trapped <==> a == 0xffff
    ensures Exec(s, 65).trapped <==> a == 0xffff
    ensures Exec(s, 54).trapped <==> a == 0
  {
    hide Exec;
    TrapExec(s);
    TwoAbove(s, ps, v, a, rs, m);
    var t := Pop(s).0;
    var u := Pop(t).0;
    hide Pop, Rep;
    FetchTraps(s, t, a);
    StoreTraps(s, t, u, v, a);
    DivideTraps(s, t, u, v, a);
  }

  lemma TrapExec(s: State)
    ensures Exec(s, 64) == Fetch(s) && Exec(s, 65) == Store(s) && Exec(s, 54) == DivMod(s)
  {
    hide Fetch, Store, DivMod;
  }

  lemma TwoAbove(s: State, ps: seq<word>, v: word, a: word, rs: seq<word>, m: Mem)
    requires Rep(s, ps + [v, a], rs, m)
    ensures var t := s.(sp := s.sp + 2);
            Pop(s) == (t, a) && Pop(t) == (t.(sp := s.sp + 4), v) && !s.trapped
    ensures 4 <= s.sp && s.sp + 4 <= 0xfffa && s.sp % 2 == 0
  {
    assert (ps + [v]) + [a] == ps + [v, a];
    OneAbove(ps + [v], a);
    OneAbove(ps, v);
    RepPop(s, ps + [v, a], rs, m);
    RepPop(Pop(s).0, ps + [v], rs, m);
    hide Pop;
    SpEven(s, ps + [v, a], rs, m);
  }

  lemma FetchTraps(s: State, t: State, a: word)
    requires Pop(s) == (t, a) && !t.trapped && 2 <= t.sp <= 0xfffa
    ensures Fetch(s).trapped <==> a == 0xffff
  {
    hide Pop, WordAt, SetWord;
  }

  lemma StoreTraps(s: State, t: State, u: State, v: word, a: word)
    requires Pop(s) == (t, a) && Pop(t) == (u, v) && !u.trapped
    ensures Store(s).trapped <==> a == 0xffff
  {
    hide Pop, WordAt, SetWord;
  }

  lemma DivideTraps(s: State, t: State, u: State, v: word, a: word)
    requires Pop(s) == (t, a) && Pop(t) == (u, v) && !u.trapped && 4 <= u.sp <= 0xfffa
    ensures DivMod(s).trapped <==> a == 0
  {
    hide Pop, WordAt, SetWord, Mod, Div;
  }

  lemma SpEven(s: State, ps: seq<word>, rs: seq<word>, m: Mem)
    requires Rep(s, ps, rs, m)
    ensures s.sp % 2 == 0 && 4 <= s.sp == 0xfffa - 2 * |ps| && !s.trapped
  {
  }

  /** 124 cells is all there is: with as many on the two stacks, the next push lands on the
      cell on top of the return stack, if there is one, or on its base. */
  lemma StacksMeet(s: State, ps: seq<word>, rs: seq<word>, m: Mem, x: word)
    requires Rep(s, ps, rs, m) && |ps| + |rs| == 124
    ensures var t := Push(s, x); t.sp == s.rs && WordAt(t.mem, s.rs) == x
  {
    SetWordAt(s.mem, s.sp - 2, x);
  }
}
