/** Compiled code, run by the machine of cvm/vm.c, does what the source means. */
module Simulation {
  import opened Words
  import opened VmSpec
  import opened Forth
  import opened Stacks

  /** A dictionary in memory: code image, protected range, labels and word bodies. */
  datatype Env = Env(rom: Mem, world: World, l: Labels)

  predicate InCode(e: Env, a: nat, n: nat) {
    e.world.lo <= a && a + n <= e.world.hi
  }

  /** A native word: its opcode, then a jump to the inner interpreter. */
  predicate NativeAt(e: Env, w: word, op: byte) {
    && InCode(e, w, 4) && w + 4 <= 0xffff
    && e.rom[w] == op && e.rom[w + 1] == 11 && WordAt(e.rom, w + 2) == e.l.next
  }

  /** A colon word: a call to the xt routine, its body, and EXIT. */
  predicate ColonAt(e: Env, w: word, body: Code) {
    && InCode(e, w, 3 + Size(body) + 2)
    && e.rom[w] == 10 && CellAt(e.rom, w + 1, e.l.xt)
    && Emitted(e.rom, e.l, w + 3, body)
    && CellAt(e.rom, w + 3 + Size(body), e.l.exit)
  }

  ghost predicate Image(e: Env) {
    && e.world.hi <= RS_ADDR
    && InCode(e, e.l.next, 1) && e.rom[e.l.next] == 7
    && InCode(e, e.l.xt, 1) && e.rom[e.l.xt] == 12
    && NativeAt(e, e.l.br, 30) && NativeAt(e, e.l.cbr, 8) && NativeAt(e, e.l.nxt, 9)
    && NativeAt(e, e.l.lit8, 15) && NativeAt(e, e.l.lit16, 16) && NativeAt(e, e.l.exit, 13)
    && (forall p: Prim :: NativeAt(e, e.l.prim(p), Opcode(p)))
    && ColonAt(e, e.l.leave, LEAVE_BODY)
    && |e.l.words| == |e.world.words|
    && (forall i :: 0 <= i < |e.l.words| ==> ColonAt(e, e.l.words[i], e.world.words[i]))
  }

  /** The machine is about to fetch the cell at h, with these stacks and this low memory. */
  ghost predicate At(e: Env, s: State, h: nat, ps: seq<word>, rs: seq<word>, m: Mem) {
    s.pc == e.l.next && s.ip == h && Rep(s, ps, rs, m) && SameCode(e.world, e.rom, m)
  }

  // ----- every moment of a run -----

  /** The two memory stacks of machine s represent two abstract sequences, with SP and RS
      within the water marks, and the code is as it was compiled. */
  ghost predicate Held(e: Env, s: State) {
    exists ps, rs, m :: HeldBy(e, s, ps, rs, m)
  }

  ghost predicate HeldBy(e: Env, s: State, ps: seq<word>, rs: seq<word>, m: Mem) {
    Rep(s, ps, rs, m) && SameCode(e.world, e.rom, m)
  }

  /** So it is at every moment of the next n instructions. */
  ghost predicate Holds(e: Env, n: nat, s: State) {
    forall i: nat :: i <= n ==> Held(e, Run(i, s))
  }

  lemma AtHolds(e: Env, s: State, h: nat, ps: seq<word>, rs: seq<word>, m: Mem)
    requires At(e, s, h, ps, rs, m)
    ensures Held(e, s) && Holds(e, 0, s)
  {
    hide Rep, SameCode;
    assert HeldBy(e, s, ps, rs, m);
    assert Run(0, s) == s;
  }

  /** One run after another is one run, and holds if both do. */
  lemma Then(e: Env, m: nat, n: nat, s: State)
    requires Holds(e, m, s) && Holds(e, n, Run(m, s))
    ensures Holds(e, m + n, s) && Run(m + n, s) == Run(n, Run(m, s))
  {
    hide Run, Held;
    RunAdd(m, n, s);
    forall i: nat | i <= m + n ensures Held(e, Run(i, s)) {
      if i > m { RunAdd(m, i - m, s); }
    }
  }

  lemma ThreeHold(e: Env, s: State)
    requires Held(e, Run(0, s)) && Held(e, Run(1, s)) && Held(e, Run(2, s)) && Held(e, Run(3, s))
    ensures Holds(e, 3, s)
  {
    hide Run, Held;
  }

  // ----- the inner interpreter -----

  lemma CodeByte(e: Env, s: State, ps: seq<word>, rs: seq<word>, m: Mem, a: nat)
    requires Rep(s, ps, rs, m) && SameCode(e.world, e.rom, m)
    requires e.world.hi <= RS_ADDR && InCode(e, a, 1)
    ensures s.mem[a] == e.rom[a]
  {
  }

  lemma CodeCell(e: Env, s: State, ps: seq<word>, rs: seq<word>, m: Mem, a: nat)
    requires Rep(s, ps, rs, m) && SameCode(e.world, e.rom, m)
    requires e.world.hi <= RS_ADDR && InCode(e, a, 2)
    ensures Gw(s, a) == (s, WordAt(e.rom, a))
  {
    CodeByte(e, s, ps, rs, m, a);
    CodeByte(e, s, ps, rs, m, a + 1);
  }

  /** lblnext: fetch the cell at IP and go there. */
  lemma FetchCell(e: Env, s: State, h: nat, ps: seq<word>, rs: seq<word>, m: Mem, w: word)
    requires Image(e) && At(e, s, h, ps, rs, m)
    requires InCode(e, h, 2) && CellAt(e.rom, h, w)
    ensures Step(s) == s.(pc := w, ip := h + 2)
    ensures Rep(Step(s), ps, rs, m)
  {
    hide Rep, SameCode, NativeAt, ColonAt;
    CodeByte(e, s, ps, rs, m, e.l.next);
    var t := s.(pc := W(s.pc + 1));
    RepMove(s, ps, rs, m, s.ip, t.pc);
    CodeCell(e, t, ps, rs, m, h);
    RepMove(s, ps, rs, m, h + 2, w);
  }

  /** A native word that leaves PC alone takes three instructions: fetch, act, return. */
  lemma NativeWord(e: Env, s: State, h: nat, ps: seq<word>, rs: seq<word>, m: Mem,
                   w: word, op: byte, t: State, ps': seq<word>, rs': seq<word>, m': Mem)
    requires Image(e) && At(e, s, h, ps, rs, m)
    requires InCode(e, h, 2) && CellAt(e.rom, h, w) && NativeAt(e, w, op)
    requires t == Exec(s.(pc := w + 1, ip := h + 2), op)
    requires t.pc == w + 1
    requires Rep(t, ps', rs', m') && SameCode(e.world, e.rom, m')
    ensures Run(3, s) == t.(pc := e.l.next)
    ensures At(e, Run(3, s), t.ip, ps', rs', m') && Holds(e, 3, s)
  {
    hide Exec, Rep, SameCode, ColonAt, Image;
    FetchCell(e, s, h, ps, rs, m, w);
    var s1 := Step(s);
    RangeOf(e);
    CodeByte(e, s1, ps, rs, m, w);
    assert Step(s1) == t;
    ReturnToNext(e, t, ps', rs', m', w);
    Alive(s, ps, rs, m);
    Alive(s1, ps, rs, m);
    Alive(t, ps', rs', m');
    assert Run(3, s) == Run(2, s1) == Run(1, t) == Run(0, Step(t)) == Step(t);
    RepMove(t, ps', rs', m', t.ip, e.l.next);
    assert Run(0, s) == s && Run(1, s) == Run(0, s1) == s1 && Run(2, s) == Run(1, s1) == Run(0, t) == t;
    assert HeldBy(e, s, ps, rs, m) && HeldBy(e, s1, ps, rs, m);
    assert HeldBy(e, t, ps', rs', m') && HeldBy(e, Step(t), ps', rs', m');
    ThreeHold(e, s);
  }

  lemma RangeOf(e: Env)
    requires Image(e)
    ensures e.world.hi <= RS_ADDR
  {
  }

  lemma Alive(s: State, ps: seq<word>, rs: seq<word>, m: Mem)
    requires Rep(s, ps, rs, m)
    ensures s.running
  {
  }

  lemma ReturnToNext(e: Env, t: State, ps: seq<word>, rs: seq<word>, m: Mem, w: word)
    requires Rep(t, ps, rs, m) && SameCode(e.world, e.rom, m) && e.world.hi <= RS_ADDR
    requires InCode(e, w, 4) && w + 4 <= 0xffff && e.rom[w + 1] == 11 && WordAt(e.rom, w + 2) == e.l.next
    requires t.pc == w + 1
    ensures Step(t) == t.(pc := e.l.next)
  {
    hide Rep, SameCode;
    CodeByte(e, t, ps, rs, m, w + 1);
    RepMove(t, ps, rs, m, t.ip, w + 2);
    CodeCell(e, t.(pc := w + 2), ps, rs, m, w + 2);
  }

  // ----- straight-line pieces -----

  lemma SimPrim(e: Env, s: State, h: nat, under: seq<word>, c: Cfg, p: Prim)
    requires Image(e) && At(e, s, h, c.ps, under + c.rs, c.mem)
    requires InCode(e, h, 2) && CellAt(e.rom, h, e.l.prim(p))
    requires EvalPrim(p, c, e.world, |under|).Some?
    ensures var r := EvalPrim(p, c, e.world, |under|).value;
            At(e, Run(3, s), h + 2, r.ps, under + r.rs, r.mem) && Holds(e, 3, s)
  {
    hide Exec, Rep, SameCode, ColonAt, EvalPrim, Image;
    PrimIsNative(e, p);
    RangeOf(e);
    var r := EvalPrim(p, c, e.world, |under|).value;
    var w := e.l.prim(p);
    var a := s.(pc := w + 1, ip := h + 2);
    RepMove(s, c.ps, under + c.rs, c.mem, h + 2, w + 1);
    PrimStep(p, c, e.world, under, a);
    PrimKeepsCode(p, c, e.world, |under|);
    SameCodeTrans(e.world, e.rom, c.mem, r.mem);
    NativeWord(e, s, h, c.ps, under + c.rs, c.mem, w, Opcode(p), Exec(a, Opcode(p)),
               r.ps, under + r.rs, r.mem);
  }

  lemma PrimIsNative(e: Env, p: Prim)
    requires Image(e)
    ensures NativeAt(e, e.l.prim(p), Opcode(p))
  {
  }

  lemma SameCodeTrans(w: World, a: Mem, b: Mem, c: Mem)
    requires SameCode(w, a, b) && SameCode(w, b, c)
    ensures SameCode(w, a, c)
  {
  }

  /** A compiled number takes one (b) or (n) word and pushes itself. */
  lemma SimLit(e: Env, s: State, h: nat, under: seq<word>, c: Cfg, n: word)
    requires Image(e) && At(e, s, h, c.ps, under + c.rs, c.mem)
    requires InCode(e, h, Size(Lit(n))) && Emitted(e.rom, e.l, h, Lit(n))
    requires !Deep(c, |under|, 1)
    ensures At(e, Run(3, s), h + Size(Lit(n)), c.ps + [n], under + c.rs, c.mem) && Holds(e, 3, s)
  {
    hide Exec, Rep, SameCode, ColonAt, Push;
    var rs := under + c.rs;
    if n < 0x100 {
      var a := s.(pc := e.l.lit8 + 1, ip := h + 2);
      RepMove(s, c.ps, rs, c.mem, h + 3, e.l.lit8 + 1);
      CodeByte(e, s, c.ps, rs, c.mem, h + 2);
      RepPush(a.(ip := h + 3), c.ps, rs, c.mem, n);
      ExecLit8(a);
      NativeWord(e, s, h, c.ps, rs, c.mem, e.l.lit8, 15, Lit8(a), c.ps + [n], rs, c.mem);
    } else {
      var a := s.(pc := e.l.lit16 + 1, ip := h + 2);
      RepMove(s, c.ps, rs, c.mem, h + 2, e.l.lit16 + 1);
      CodeCell(e, a, c.ps, rs, c.mem, h + 2);
      RepPush(a, c.ps, rs, c.mem, n);
      RepMove(Push(a, n), c.ps + [n], rs, c.mem, h + 4, e.l.lit16 + 1);
      ExecLit16(a);
      NativeWord(e, s, h, c.ps, rs, c.mem, e.l.lit16, 16, Lit16(a), c.ps + [n], rs, c.mem);
    }
  }

  lemma ExecLit8(s: State)
    ensures Exec(s, 15) == Lit8(s)
  {
  }

  lemma ExecLit16(s: State)
    ensures Exec(s, 16) == Lit16(s)
  {
  }

  lemma ExecControl(s: State)
    ensures Exec(s, 8) == CBranch(s) && Exec(s, 9) == VmSpec.Next(s)
    ensures Exec(s, 30) == Branch(s) && Exec(s, 13) == VmSpec.Exit(s)
  {
  }

  /** EXIT resumes at the address on top of the return stack. */
  lemma SimExit(e: Env, s: State, h: nat, ps: seq<word>, rs: seq<word>, m: Mem)
    requires Image(e) && At(e, s, h, ps, rs, m) && rs != []
    requires InCode(e, h, 2) && CellAt(e.rom, h, e.l.exit)
    ensures At(e, Run(3, s), Last(rs), ps, Init(rs), m) && Holds(e, 3, s)
  {
    hide Exec, Rep, SameCode, ColonAt, PopRS;
    var a := s.(pc := e.l.exit + 1, ip := h + 2);
    RepMove(s, ps, rs, m, h + 2, e.l.exit + 1);
    RepPopRS(a, ps, rs, m);
    var t := PopRS(a).0;
    RepMove(t, ps, Init(rs), m, Last(rs), t.pc);
    ExecControl(a);
    NativeWord(e, s, h, ps, rs, m, e.l.exit, 13, VmSpec.Exit(a), ps, Init(rs), m);
  }

  /** (br): an unconditional branch lands on its target. */
  lemma SimBranch(e: Env, s: State, h: nat, ps: seq<word>, rs: seq<word>, m: Mem, target: nat)
    requires Image(e) && At(e, s, h, ps, rs, m)
    requires InCode(e, h, 3) && CellAt(e.rom, h, e.l.br) && BranchAt(e.rom, h + 2, target)
    requires target < MEMSIZE
    ensures At(e, Run(3, s), target, ps, rs, m) && Holds(e, 3, s)
  {
    hide Exec, Rep, SameCode, ColonAt;
    var a := s.(pc := e.l.br + 1, ip := h + 2);
    RepMove(s, ps, rs, m, h + 2, e.l.br + 1);
    BranchLands(e, a, ps, rs, m, target);
    RepMove(a, ps, rs, m, target, a.pc);
    ExecControl(a);
    NativeWord(e, s, h, ps, rs, m, e.l.br, 30, Branch(a), ps, rs, m);
  }

  lemma BranchLands(e: Env, s: State, ps: seq<word>, rs: seq<word>, m: Mem, target: nat)
    requires Rep(s, ps, rs, m) && SameCode(e.world, e.rom, m)
    requires e.world.hi <= RS_ADDR && InCode(e, s.ip, 1)
    requires BranchAt(e.rom, s.ip, target) && target < MEMSIZE
    ensures Branch(s) == s.(ip := target)
  {
    CodeByte(e, s, ps, rs, m, s.ip);
  }

  /** (?br): falls through on a true flag and branches on zero. */
  lemma SimCBranch(e: Env, s: State, h: nat, ps: seq<word>, rs: seq<word>, m: Mem, target: nat)
    requires Image(e) && At(e, s, h, ps, rs, m) && ps != []
    requires InCode(e, h, 3) && CellAt(e.rom, h, e.l.cbr) && BranchAt(e.rom, h + 2, target)
    requires target < MEMSIZE
    ensures At(e, Run(3, s), if Last(ps) != 0 then h + 3 else target, Init(ps), rs, m) && Holds(e, 3, s)
  {
    hide Exec, Rep, SameCode, ColonAt, Pop, Branch;
    var a := s.(pc := e.l.cbr + 1, ip := h + 2);
    RepMove(s, ps, rs, m, h + 2, e.l.cbr + 1);
    RepPop(a, ps, rs, m);
    var t := Pop(a).0;
    BranchLands(e, t, Init(ps), rs, m, target);
    RepMove(t, Init(ps), rs, m, target, t.pc);
    RepMove(t, Init(ps), rs, m, h + 3, t.pc);
    ExecControl(a);
    NativeWord(e, s, h, ps, rs, m, e.l.cbr, 8, CBranch(a), Init(ps), rs, m);
  }

  /** (next): counts the top of the return stack down; falls through when it was one. */
  lemma SimNext(e: Env, s: State, h: nat, ps: seq<word>, rs: seq<word>, m: Mem, target: nat)
    requires Image(e) && At(e, s, h, ps, rs, m) && rs != []
    requires InCode(e, h, 3) && CellAt(e.rom, h, e.l.nxt) && BranchAt(e.rom, h + 2, target)
    requires target < MEMSIZE
    ensures if Last(rs) == 1 then At(e, Run(3, s), h + 3, ps, Init(rs), m)
            else At(e, Run(3, s), target, ps, Init(rs) + [Dec(Last(rs))], m)
    ensures Holds(e, 3, s)
  {
    hide Exec, Rep, SameCode, ColonAt, PopRS, PushRS, Branch;
    var a := s.(pc := e.l.nxt + 1, ip := h + 2);
    RepMove(s, ps, rs, m, h + 2, e.l.nxt + 1);
    RepPopRS(a, ps, rs, m);
    var t := PopRS(a).0;
    ExecControl(a);
    if Last(rs) == 1 {
      RepMove(t, ps, Init(rs), m, h + 3, t.pc);
      NativeWord(e, s, h, ps, rs, m, e.l.nxt, 9, VmSpec.Next(a), ps, Init(rs), m);
    } else {
      var n := Dec(Last(rs));
      DepthOf(s, ps, rs, m);
      RepPushRS(t, ps, Init(rs), m, n);
      var u := PushRS(t, n);
      BranchLands(e, u, ps, Init(rs) + [n], m, target);
      RepMove(u, ps, Init(rs) + [n], m, target, u.pc);
      NativeWord(e, s, h, ps, rs, m, e.l.nxt, 9, VmSpec.Next(a), ps, Init(rs) + [n], m);
    }
  }

  /** Calling a colon word pushes the address of the next cell and starts on its body.
      `u` is the state in which the body starts; it needs one instruction less than a
      start from lblnext, because the xt routine already fetches the first cell. */
  lemma EnterWord(e: Env, s: State, h: nat, ps: seq<word>, rs: seq<word>, m: Mem, w: word, body: Code)
    returns (u: State)
    requires Image(e) && At(e, s, h, ps, rs, m)
    requires InCode(e, h, 2) && CellAt(e.rom, h, w) && ColonAt(e, w, body)
    requires |ps| + |rs| + 2 <= CAP
    ensures At(e, u, w + 3, ps, rs + [h + 2], m)
    ensures Joins(s, u) && Holds(e, 2, s)
  {
    hide Exec, Rep, SameCode, Image, NativeAt, Emitted, Step, Joins;
    RangeOf(e);
    AtHolds(e, s, h, ps, rs, m);
    FetchCell(e, s, h, ps, rs, m, w);
    var s1 := Step(s);
    var s2 := CallWord(e, s1, ps, rs, m, w, h + 2);
    u := EnterBody(e, s2, ps, rs, m, w, h + 2);
    Alive(s, ps, rs, m);
    Alive(s1, ps, rs, m);
    JoinThree(s, s1, s2, u);
    TwoHold(e, s, s1, s2);
  }

  /** From its second instruction on, a run from s is a run from u. */
  ghost predicate Joins(s: State, u: State) {
    forall k: nat {:trigger Run(k, u)} :: k >= 1 ==> Run(2 + k, s) == Run(k, u)
  }

  lemma JoinThree(s: State, s1: State, s2: State, u: State)
    requires s.running && s1.running && s2.running && u.running
    requires Step(s) == s1 && Step(s1) == s2 && Step(s2) == Step(u)
    ensures Joins(s, u) && Run(1, s) == s1 && Run(2, s) == s2
  {
    hide Step;
    assert Run(1, s) == Run(0, s1) && Run(2, s) == Run(1, s1) == Run(0, s2);
    forall k: nat {:trigger Run(k, u)} | k >= 1 ensures Run(2 + k, s) == Run(k, u) {
      assert Run(k + 2, s) == Run(k + 1, s1) == Run(k, s2) == Run(k - 1, Step(s2));
      assert Run(k, u) == Run(k - 1, Step(u));
    }
  }

  lemma TwoHold(e: Env, s: State, s1: State, s2: State)
    requires Held(e, s) && Held(e, s1) && Held(e, s2) && Run(1, s) == s1 && Run(2, s) == s2
    ensures Holds(e, 2, s)
  {
    hide Held, Run;
    RunZero(s);
  }

  /** A run that joins another holds as far as that one does. */
  lemma JoinHolds(e: Env, n: nat, s: State, u: State)
    requires Joins(s, u) && Holds(e, 2, s) && Holds(e, n, u)
    ensures Holds(e, 2 + n, s)
  {
    hide Run, Held;
    forall i: nat | i <= 2 + n ensures Held(e, Run(i, s)) {
      if i > 2 { assert Run(2 + (i - 2), s) == Run(i - 2, u); }
    }
  }

  /** CALLi lblxt: the address of the body on the parameter stack. */
  lemma CallWord(e: Env, s: State, ps: seq<word>, rs: seq<word>, m: Mem, w: word, ret: nat) returns (t: State)
    requires Image(e) && Rep(s, ps, rs, m) && SameCode(e.world, e.rom, m)
    requires s.pc == w && s.ip == ret && InCode(e, w, 3) && e.rom[w] == 10 && CellAt(e.rom, w + 1, e.l.xt)
    requires |ps| + |rs| + 2 <= CAP
    ensures t == Step(s) && t.pc == e.l.xt && t.ip == ret && Rep(t, ps + [w + 3], rs, m)
    ensures s.running && t.running && Held(e, s) && Held(e, t)
  {
    hide Exec, Rep, SameCode, Push, Image;
    RangeOf(e);
    CodeByte(e, s, ps, rs, m, w);
    var a := s.(pc := w + 1);
    RepMove(s, ps, rs, m, ret, w + 1);
    RepPush(a, ps, rs, m, w + 3);
    var b := Push(a, w + 3);
    CodeCell(e, b, ps + [w + 3], rs, m, w + 1);
    t := b.(pc := e.l.xt);
    CallStep(s, w, e.l.xt);
    RepMove(b, ps + [w + 3], rs, m, ret, e.l.xt);
    Alive(s, ps, rs, m);
    Alive(t, ps + [w + 3], rs, m);
    assert HeldBy(e, s, ps, rs, m) && HeldBy(e, t, ps + [w + 3], rs, m);
  }

  lemma CallStep(s: State, w: word, xt: word)
    requires s.pc == w && w + 3 < MEMSIZE && s.mem[w] == 10
    requires var b := Push(s.(pc := w + 1), w + 3); b.pc == w + 1 && Gw(b, w + 1) == (b, xt)
    ensures Step(s) == Push(s.(pc := w + 1), w + 3).(pc := xt)
  {
    hide Exec, Push, Gw;
    ExecCall(s.(pc := w + 1));
  }

  /** lblxt: that address becomes IP, and the one to return to goes to the return stack. */
  lemma EnterBody(e: Env, s: State, ps: seq<word>, rs: seq<word>, m: Mem, w: word, ret: nat) returns (u: State)
    requires w + 3 < MEMSIZE && Image(e) && Rep(s, ps + [w + 3], rs, m) && SameCode(e.world, e.rom, m)
    requires s.pc == e.l.xt && s.ip == ret && |ps| + |rs| + 2 <= CAP
    ensures At(e, u, w + 3, ps, rs + [ret], m) && Step(s) == Step(u) && u.running
  {
    hide Exec, Rep, SameCode, PushRS, Pop, Image;
    RangeOf(e);
    LabelXt(e);
    CodeByte(e, s, ps + [w + 3], rs, m, e.l.xt);
    var c := s.(pc := e.l.xt + 1);
    RepMove(s, ps + [w + 3], rs, m, ret, e.l.xt + 1);
    RepPushRS(c, ps + [w + 3], rs, m, ret);
    var d := PushRS(c, ret);
    RepPop(d, ps + [w + 3], rs + [ret], m);
    var f := Pop(d).0;
    assert Init(ps + [w + 3]) == ps;
    u := f.(ip := w + 3, pc := e.l.next);
    RepMove(f, ps, rs + [ret], m, w + 3, e.l.next);
    assert Step(s) == LblNext(f.(ip := w + 3)) by { ExecCall(c); }
    StartNext(e, u, ps, rs + [ret], m);
    Alive(u, ps, rs + [ret], m);
  }

  lemma ExecCall(s: State)
    ensures Exec(s, 10) == CallI(s) && Exec(s, 12) == LblXt(s) && Exec(s, 7) == LblNext(s)
  {
  }

  lemma LabelXt(e: Env)
    requires Image(e)
    ensures InCode(e, e.l.xt, 1) && e.rom[e.l.xt] == 12
    ensures InCode(e, e.l.next, 1) && e.rom[e.l.next] == 7
  {
  }

  lemma StartNext(e: Env, u: State, ps: seq<word>, rs: seq<word>, m: Mem)
    requires Image(e) && Rep(u, ps, rs, m) && SameCode(e.world, e.rom, m) && u.pc == e.l.next
    ensures Step(u) == LblNext(u)
  {
    hide Rep, SameCode, NativeAt, ColonAt;
    CodeByte(e, u, ps, rs, m, e.l.next);
  }

  // ----- whole programs -----

  ghost predicate Finished(r: Out) {
    r.Done? || r.Exited?
  }

  /** Where and how the machine stands after code that ended with outcome r. */
  ghost predicate Lands(e: Env, s: State, end: nat, under: seq<word>, r: Out)
    requires Finished(r)
  {
    if r.Done? then At(e, s, end, r.c.ps, under + r.c.rs, r.c.mem)
    else under != [] && r.c.rs == [] && At(e, s, Last(under), r.c.ps, Init(under), r.c.mem)
  }

  lemma LandsDone(e: Env, s: State, end: nat, under: seq<word>, c: Cfg)
    ensures Lands(e, s, end, under, Done(c)) == At(e, s, end, c.ps, under + c.rs, c.mem)
  {
  }

  lemma LandsExited(e: Env, s: State, end: nat, end': nat, under: seq<word>, c: Cfg)
    ensures Lands(e, s, end, under, Exited(c)) == Lands(e, s, end', under, Exited(c))
  {
  }

  /** The frame, return address included, while LEAVE runs. */
  function LeaveCfg(i: nat, c: Cfg, w: word): Cfg
    requires c.rs != [] && 1 <= i <= 6
  {
    match i
    case 1 => c.(rs := c.rs + [w])
    case 2 => Cfg(c.ps + [w], c.rs, c.mem)
    case 3 => Cfg(c.ps + [w], Init(c.rs), c.mem)
    case 4 => Cfg(c.ps + [w] + [1], Init(c.rs), c.mem)
    case 5 => Cfg(c.ps + [w], Init(c.rs) + [1], c.mem)
    case 6 => Cfg(c.ps, Init(c.rs) + [1] + [w], c.mem)
  }

  lemma FromREffect(ps: seq<word>, rs: seq<word>, w: word, m: Mem, e: World, depth: nat)
    requires |ps| + |rs| + 1 + depth <= CAP
    ensures EvalPrim(FROMR, Cfg(ps, rs + [w], m), e, depth) == Some(Cfg(ps + [w], rs, m))
  {
    assert Init(rs + [w]) == rs && ps[..|ps|] == ps;
  }

  lemma RDropEffect(ps: seq<word>, rs: seq<word>, m: Mem, e: World, depth: nat)
    requires |ps| + |rs| + depth <= CAP && rs != []
    ensures EvalPrim(RDROP, Cfg(ps, rs, m), e, depth) == Some(Cfg(ps, Init(rs), m))
  {
  }

  lemma ToREffect(ps: seq<word>, rs: seq<word>, w: word, m: Mem, e: World, depth: nat)
    requires |ps| + |rs| + 1 + depth <= CAP
    ensures EvalPrim(TOR, Cfg(ps + [w], rs, m), e, depth) == Some(Cfg(ps, rs + [w], m))
  {
    assert (ps + [w])[..|ps + [w]| - 1] + [] == ps;
  }

  lemma LeaveEffects(c: Cfg, w: word, e: World, depth: nat)
    requires c.rs != [] && !Deep(c, depth, 2)
    ensures EvalPrim(FROMR, LeaveCfg(1, c, w), e, depth) == Some(LeaveCfg(2, c, w))
    ensures EvalPrim(RDROP, LeaveCfg(2, c, w), e, depth) == Some(LeaveCfg(3, c, w))
    ensures EvalPrim(TOR, LeaveCfg(4, c, w), e, depth) == Some(LeaveCfg(5, c, w))
    ensures EvalPrim(TOR, LeaveCfg(5, c, w), e, depth) == Some(LeaveCfg(6, c, w))
    ensures !Deep(LeaveCfg(3, c, w), depth, 1)
  {
    hide EvalPrim;
    FromREffect(c.ps, c.rs, w, c.mem, e, depth);
    RDropEffect(c.ps + [w], c.rs, c.mem, e, depth);
    ToREffect(c.ps + [w], Init(c.rs), 1, c.mem, e, depth);
    ToREffect(c.ps, Init(c.rs) + [1], w, c.mem, e, depth);
  }

  /** `R> R~ 1 >R >R EXIT`, run from its first cell, returns with the caller's
      loop counter set to one. */
  lemma LeaveBody(e: Env, u: State, b: nat, under: seq<word>, c: Cfg, w: word)
    requires Image(e) && b == e.l.leave + 3
    requires c.rs != [] && !Deep(c, |under|, 2)
    requires At(e, u, b, c.ps, under + LeaveCfg(1, c, w).rs, c.mem)
    ensures At(e, Run(18, u), w, c.ps, under + (Init(c.rs) + [1]), c.mem) && Holds(e, 18, u)
  {
    hide At, Run, Image, EvalPrim, ColonAt, NativeAt, CellAt, Emitted, Deep, Holds;
    LeaveIsColon(e);
    LeaveEffects(c, w, e.world, |under|);
    SimPrim(e, u, b, under, LeaveCfg(1, c, w), FROMR);
    SimPrim(e, Run(3, u), b + 2, under, LeaveCfg(2, c, w), RDROP);
    Then(e, 3, 3, u);
    SimLit(e, Run(6, u), b + 4, under, LeaveCfg(3, c, w), 1);
    Then(e, 6, 3, u);
    SimPrim(e, Run(9, u), b + 7, under, LeaveCfg(4, c, w), TOR);
    Then(e, 9, 3, u);
    SimPrim(e, Run(12, u), b + 9, under, LeaveCfg(5, c, w), TOR);
    Then(e, 12, 3, u);
    var rs := under + LeaveCfg(6, c, w).rs;
    SimExit(e, Run(15, u), b + 11, c.ps, rs, c.mem);
    assert Last(rs) == w && Init(rs) == under + (Init(c.rs) + [1]);
    Then(e, 15, 3, u);
  }

  lemma SimLeave(e: Env, s: State, h: nat, under: seq<word>, c: Cfg) returns (n: nat)
    requires Image(e) && At(e, s, h, c.ps, under + c.rs, c.mem)
    requires InCode(e, h, 2) && CellAt(e.rom, h, e.l.leave)
    requires c.rs != [] && !Deep(c, |under|, 2)
    ensures At(e, Run(n, s), h + 2, c.ps, under + (Init(c.rs) + [1]), c.mem) && Holds(e, n, s)
  {
    hide At, Run, Image, ColonAt, Holds;
    LeaveIsColon(e);
    RangeOf(e);
    var u := EnterWord(e, s, h, c.ps, under + c.rs, c.mem, e.l.leave, LEAVE_BODY);
    assert under + c.rs + [h + 2] == under + LeaveCfg(1, c, h + 2).rs;
    LeaveBody(e, u, e.l.leave + 3, under, c, h + 2);
    n := 20;
    assert Run(2 + 18, s) == Run(18, u);
    JoinHolds(e, 18, s, u);
  }

  lemma LeaveIsColon(e: Env)
    requires Image(e)
    ensures ColonAt(e, e.l.leave, LEAVE_BODY)
    ensures var b := e.l.leave + 3;
            && InCode(e, b, 13) && CellAt(e.rom, b, e.l.prim(FROMR)) && CellAt(e.rom, b + 2, e.l.prim(RDROP))
            && Emitted(e.rom, e.l, b + 4, Lit(1)) && CellAt(e.rom, b + 7, e.l.prim(TOR))
            && CellAt(e.rom, b + 9, e.l.prim(TOR)) && CellAt(e.rom, b + 11, e.l.exit)
  {
    hide Emitted, Size, CellAt, NativeAt;
    var b := e.l.leave + 3;
    var k4 := Seq(Prim(TOR), Prim(TOR));
    var k3 := Seq(Lit(1), k4);
    var k2 := Seq(Prim(RDROP), k3);
    SeqForm(Prim(FROMR), k2, e.rom, e.l, b);
    PrimForm(FROMR, e.rom, e.l, b);
    SeqForm(Prim(RDROP), k3, e.rom, e.l, b + 2);
    PrimForm(RDROP, e.rom, e.l, b + 2);
    SeqForm(Lit(1), k4, e.rom, e.l, b + 4);
    SeqForm(Prim(TOR), Prim(TOR), e.rom, e.l, b + 7);
    PrimForm(TOR, e.rom, e.l, b + 7);
    PrimForm(TOR, e.rom, e.l, b + 9);
    assert Size(Lit(1)) == 3 by { LitSize(1); }
  }

  lemma LitSize(n: byte)
    ensures Size(Lit(n)) == 3
  {
  }

  lemma PrimForm(p: Prim, m: Mem, l: Labels, h: nat)
    ensures Size(Prim(p)) == 2 && (Emitted(m, l, h, Prim(p)) <==> CellAt(m, h, l.prim(p)))
  {
    hide CellAt;
  }

  /** Compiler correctness, execution half: whenever the source meaning gives an
      outcome, the machine started on the compiled cells gets there, with the same
      stacks and memory, in some number n of instructions. At every moment on the way
      the two memory stacks represent two abstract sequences and the code is intact. */
  lemma {:induction false} Simulate(fuel: nat, k: Code, c: Cfg, e: Env, under: seq<word>, s: State, h: nat)
    returns (n: nat)
    requires Image(e) && At(e, s, h, c.ps, under + c.rs, c.mem)
    requires InCode(e, h, Size(k)) && Emitted(e.rom, e.l, h, k)
    requires Finished(Eval(fuel, k, c, e.world, |under|))
    ensures Lands(e, Run(n, s), h + Size(k), under, Eval(fuel, k, c, e.world, |under|))
    ensures Holds(e, n, s)
    ensures Eval(fuel, k, c, e.world, |under|).Exited? ==> n > 0
    decreases fuel, k, 1
  {
    hide At, Run, Image, Lands, Eval, Emitted, Size, Holds;
    match k
    case Seq(a, b) => n := SimSeq(fuel, a, b, c, e, under, s, h);
    case Call(i) => n := SimCall(fuel, i, c, e, under, s, h);
    case If(t) => n := SimIf(fuel, t, c, e, under, s, h);
    case IfElse(t, f) => n := SimIfElse(fuel, t, f, c, e, under, s, h);
    case Until(b) => n := SimUntil(fuel, b, c, e, under, s, h);
    case Again(b) => n := SimAgain(fuel, b, c, e, under, s, h);
    case Next(b) => n := SimNextLoop(fuel, b, c, e, under, s, h);
    case _ => n := SimLeaf(fuel, k, c, e, under, s, h);
  }

  /** Code without parts. */
  lemma SimLeaf(fuel: nat, k: Code, c: Cfg, e: Env, under: seq<word>, s: State, h: nat)
    returns (n: nat)
    requires k.Skip? || k.Lit? || k.Prim? || k.Exit? || k.Leave?
    requires Image(e) && At(e, s, h, c.ps, under + c.rs, c.mem)
    requires InCode(e, h, Size(k)) && Emitted(e.rom, e.l, h, k)
    requires Finished(Eval(fuel, k, c, e.world, |under|))
    ensures Lands(e, Run(n, s), h + Size(k), under, Eval(fuel, k, c, e.world, |under|))
    ensures Holds(e, n, s)
    ensures Eval(fuel, k, c, e.world, |under|).Exited? ==> n > 0
  {
    hide At, Run, Image, EvalPrim, Holds;
    assert c.ps[..|c.ps|] == c.ps;
    match k
    case Skip => n := 0; RunZero(s); AtHolds(e, s, h, c.ps, under + c.rs, c.mem);
    case Lit(v) => n := 3; SimLit(e, s, h, under, c, v);
    case Prim(p) => n := 3; SimPrim(e, s, h, under, c, p);
    case Exit =>
      assert under + c.rs == under;
      n := 3;
      SimExit(e, s, h, c.ps, under, c.mem);
    case Leave => n := SimLeave(e, s, h, under, c);
  }

  lemma {:induction false} SimSeq(fuel: nat, a: Code, b: Code, c: Cfg, e: Env, under: seq<word>, s: State, h: nat)
    returns (n: nat)
    requires Image(e) && At(e, s, h, c.ps, under + c.rs, c.mem)
    requires InCode(e, h, Size(Seq(a, b))) && Emitted(e.rom, e.l, h, Seq(a, b))
    requires Finished(Eval(fuel, Seq(a, b), c, e.world, |under|))
    ensures Lands(e, Run(n, s), h + Size(Seq(a, b)), under, Eval(fuel, Seq(a, b), c, e.world, |under|))
    ensures Holds(e, n, s)
    ensures Eval(fuel, Seq(a, b), c, e.world, |under|).Exited? ==> n > 0
    decreases fuel, Seq(a, b), 0
  {
    hide At, Run, Image, Lands, Eval, Emitted, Size, Holds;
    SeqEval(fuel, a, b, c, e.world, |under|);
    SeqForm(a, b, e.rom, e.l, h);
    var r := Eval(fuel, a, c, e.world, |under|);
    n := Simulate(fuel, a, c, e, under, s, h);
    if r.Done? {
      LandsDone(e, Run(n, s), h + Size(a), under, r.c);
      var n2 := Simulate(fuel, b, r.c, e, under, Run(n, s), h + Size(a));
      Then(e, n, n2, s);
      n := n + n2;
    } else {
      LandsExited(e, Run(n, s), h + Size(a), h + Size(Seq(a, b)), under, r.c);
    }
  }

  lemma RunZero(s: State)
    ensures Run(0, s) == s
  {
  }

  lemma WordIsColon(e: Env, i: nat)
    requires Image(e) && i < |e.l.words|
    ensures |e.l.words| == |e.world.words| && ColonAt(e, e.l.words[i], e.world.words[i])
  {
  }

  lemma DeepCall(c: Cfg, under: seq<word>)
    requires !Deep(c, |under|, 2)
    ensures |c.ps| + |under + c.rs| + 2 <= CAP
  {
  }

  lemma {:induction false} SimCall(fuel: nat, i: nat, c: Cfg, e: Env, under: seq<word>, s: State, h: nat)
    returns (n: nat)
    requires Image(e) && At(e, s, h, c.ps, under + c.rs, c.mem)
    requires InCode(e, h, Size(Call(i))) && Emitted(e.rom, e.l, h, Call(i))
    requires Finished(Eval(fuel, Call(i), c, e.world, |under|))
    ensures Lands(e, Run(n, s), h + Size(Call(i)), under, Eval(fuel, Call(i), c, e.world, |under|))
    ensures Holds(e, n, s)
    ensures n > 0
    decreases fuel, Call(i), 0
  {
    hide At, Run, Image, Lands, Eval, Emitted, Size, Holds, ColonAt, Deep;
    CallFinishes(fuel, i, c, e.world, |under|);
    CallEval(fuel, i, c, e.world, |under|);
    CallForm(i, e.rom, e.l, h);
    DeepCall(c, under);
    RangeOf(e);
    WordIsColon(e, i);
    var body, w, rs := e.world.words[i], e.l.words[i], under + c.rs;
    var inner := rs + [h + 2];
    var u := EnterWord(e, s, h, c.ps, rs, c.mem, w, body);
    var d := c.(rs := []);
    assert inner + d.rs == inner && |inner| == |under| + |c.rs| + 1;
    ColonParts(e, w, body);
    n := Simulate(fuel - 1, body, d, e, inner, u, w + 3);
    assert Last(inner) == h + 2 && Init(inner) == rs;
    n := ReturnFrom(e, u, w + 3 + Size(body), inner, Eval(fuel - 1, body, d, e.world, |inner|), n);
    assert Run(2 + n, s) == Run(n, u);
    JoinHolds(e, n, s, u);
    n := n + 2;
    var d' := Eval(fuel - 1, body, d, e.world, |inner|).c;
    LandsDone(e, Run(n, s), h + Size(Call(i)), under, d'.(rs := c.rs));
  }

  lemma ColonParts(e: Env, w: word, body: Code)
    requires ColonAt(e, w, body)
    ensures InCode(e, w + 3, Size(body)) && Emitted(e.rom, e.l, w + 3, body)
    ensures InCode(e, w + 3 + Size(body), 2) && CellAt(e.rom, w + 3 + Size(body), e.l.exit)
  {
  }

  /** A body that ran to its end goes through the EXIT cell behind it; one that exited
      has already returned. Both resume at the pushed address. */
  lemma ReturnFrom(e: Env, u: State, end: nat, inner: seq<word>, r: Out, n: nat) returns (k: nat)
    requires Image(e) && inner != []
    requires Finished(r) && Lands(e, Run(n, u), end, inner, r)
    requires if r.Done? then r.c.rs == [] else n > 0
    requires InCode(e, end, 2) && CellAt(e.rom, end, e.l.exit) && Holds(e, n, u)
    ensures k > 0 && At(e, Run(k, u), Last(inner), r.c.ps, Init(inner), r.c.mem) && Holds(e, k, u)
  {
    hide At, Run, Image, Holds;
    k := n;
    if r.Done? {
      assert inner + r.c.rs == inner;
      SimExit(e, Run(n, u), end, r.c.ps, inner, r.c.mem);
      Then(e, n, 3, u);
      k := n + 3;
    }
  }

  lemma {:induction false} SimIf(fuel: nat, t: Code, c: Cfg, e: Env, under: seq<word>, s: State, h: nat)
    returns (n: nat)
    requires Image(e) && At(e, s, h, c.ps, under + c.rs, c.mem)
    requires InCode(e, h, Size(If(t))) && Emitted(e.rom, e.l, h, If(t))
    requires Finished(Eval(fuel, If(t), c, e.world, |under|))
    ensures Lands(e, Run(n, s), h + Size(If(t)), under, Eval(fuel, If(t), c, e.world, |under|))
    ensures Holds(e, n, s)
    ensures n > 0
    decreases fuel, If(t), 0
  {
    hide At, Run, Image, Lands, Eval, Emitted, Size, Holds;
    IfEval(fuel, t, c, e.world, |under|);
    IfForm(t, e.rom, e.l, h);
    RangeOf(e);
    SimCBranch(e, s, h, c.ps, under + c.rs, c.mem, h + 3 + Size(t));
    var d := Put(c, 1, []);
    assert d.ps == Init(c.ps);
    n := 3;
    LandsDone(e, Run(3, s), h + Size(If(t)), under, d);
    if Top(c, 0) != 0 {
      var n2 := Simulate(fuel, t, d, e, under, Run(3, s), h + 3);
      Then(e, 3, n2, s);
      n := 3 + n2;
    }
  }

  lemma {:induction false} SimIfElse(fuel: nat, t: Code, f: Code, c: Cfg, e: Env, under: seq<word>, s: State, h: nat)
    returns (n: nat)
    requires Image(e) && At(e, s, h, c.ps, under + c.rs, c.mem)
    requires InCode(e, h, Size(IfElse(t, f))) && Emitted(e.rom, e.l, h, IfElse(t, f))
    requires Finished(Eval(fuel, IfElse(t, f), c, e.world, |under|))
    ensures Lands(e, Run(n, s), h + Size(IfElse(t, f)), under, Eval(fuel, IfElse(t, f), c, e.world, |under|))
    ensures Holds(e, n, s)
    ensures n > 0
    decreases fuel, IfElse(t, f), 0
  {
    hide At, Run, Image, Lands, Eval, Emitted, Size, Holds;
    IfElseEval(fuel, t, f, c, e.world, |under|);
    IfElseForm(t, f, e.rom, e.l, h);
    RangeOf(e);
    var mid := h + 3 + Size(t);
    SimCBranch(e, s, h, c.ps, under + c.rs, c.mem, mid + 3);
    var d := Put(c, 1, []);
    assert d.ps == Init(c.ps);
    if Top(c, 0) != 0 {
      var r := Eval(fuel, t, d, e.world, |under|);
      var n2 := Simulate(fuel, t, d, e, under, Run(3, s), h + 3);
      Then(e, 3, n2, s);
      n := 3 + n2;
      if r.Done? {
        LandsDone(e, Run(n, s), mid, under, r.c);
        SimBranch(e, Run(n, s), mid, r.c.ps, under + r.c.rs, r.c.mem, mid + 3 + Size(f));
        Then(e, n, 3, s);
        n := n + 3;
        LandsDone(e, Run(n, s), h + Size(IfElse(t, f)), under, r.c);
      } else {
        LandsExited(e, Run(n, s), mid, h + Size(IfElse(t, f)), under, r.c);
      }
    } else {
      var n2 := Simulate(fuel, f, d, e, under, Run(3, s), mid + 3);
      Then(e, 3, n2, s);
      n := 3 + n2;
    }
  }

  lemma {:induction false} SimUntil(fuel: nat, b: Code, c: Cfg, e: Env, under: seq<word>, s: State, h: nat)
    returns (n: nat)
    requires Image(e) && At(e, s, h, c.ps, under + c.rs, c.mem)
    requires InCode(e, h, Size(Until(b))) && Emitted(e.rom, e.l, h, Until(b))
    requires Finished(Eval(fuel, Until(b), c, e.world, |under|))
    ensures Lands(e, Run(n, s), h + Size(Until(b)), under, Eval(fuel, Until(b), c, e.world, |under|))
    ensures Holds(e, n, s)
    ensures Eval(fuel, Until(b), c, e.world, |under|).Exited? ==> n > 0
    decreases fuel, Until(b), 0
  {
    hide At, Run, Image, Lands, Eval, Emitted, Size, Holds;
    UntilEval(fuel, b, c, e.world, |under|);
    LoopForm(Until(b), b, e.l.cbr, e.rom, e.l, h);
    RangeOf(e);
    var r := Eval(fuel - 1, b, c, e.world, |under|);
    n := Simulate(fuel - 1, b, c, e, under, s, h);
    if r.Done? {
      LandsDone(e, Run(n, s), h + Size(b), under, r.c);
      SimCBranch(e, Run(n, s), h + Size(b), r.c.ps, under + r.c.rs, r.c.mem, h);
      Then(e, n, 3, s);
      n := n + 3;
      var d := Put(r.c, 1, []);
      assert d.ps == Init(r.c.ps);
      LandsDone(e, Run(n, s), h + Size(Until(b)), under, d);
      if Top(r.c, 0) == 0 {
        var n2 := Simulate(fuel - 1, Until(b), d, e, under, Run(n, s), h);
        Then(e, n, n2, s);
        n := n + n2;
      }
    } else {
      LandsExited(e, Run(n, s), h + Size(b), h + Size(Until(b)), under, r.c);
    }
  }

  lemma {:induction false} SimAgain(fuel: nat, b: Code, c: Cfg, e: Env, under: seq<word>, s: State, h: nat)
    returns (n: nat)
    requires Image(e) && At(e, s, h, c.ps, under + c.rs, c.mem)
    requires InCode(e, h, Size(Again(b))) && Emitted(e.rom, e.l, h, Again(b))
    requires Finished(Eval(fuel, Again(b), c, e.world, |under|))
    ensures Lands(e, Run(n, s), h + Size(Again(b)), under, Eval(fuel, Again(b), c, e.world, |under|))
    ensures Holds(e, n, s)
    ensures Eval(fuel, Again(b), c, e.world, |under|).Exited? ==> n > 0
    decreases fuel, Again(b), 0
  {
    hide At, Run, Image, Lands, Eval, Emitted, Size, Holds;
    AgainEval(fuel, b, c, e.world, |under|);
    LoopForm(Again(b), b, e.l.br, e.rom, e.l, h);
    RangeOf(e);
    var r := Eval(fuel - 1, b, c, e.world, |under|);
    n := Simulate(fuel - 1, b, c, e, under, s, h);
    if r.Done? {
      LandsDone(e, Run(n, s), h + Size(b), under, r.c);
      SimBranch(e, Run(n, s), h + Size(b), r.c.ps, under + r.c.rs, r.c.mem, h);
      Then(e, n, 3, s);
      n := n + 3;
      var n2 := Simulate(fuel - 1, Again(b), r.c, e, under, Run(n, s), h);
      Then(e, n, n2, s);
      n := n + n2;
    } else {
      LandsExited(e, Run(n, s), h + Size(b), h + Size(Again(b)), under, r.c);
    }
  }

  lemma {:induction false} SimNextLoop(fuel: nat, b: Code, c: Cfg, e: Env, under: seq<word>, s: State, h: nat)
    returns (n: nat)
    requires Image(e) && At(e, s, h, c.ps, under + c.rs, c.mem)
    requires InCode(e, h, Size(Code.Next(b))) && Emitted(e.rom, e.l, h, Code.Next(b))
    requires Finished(Eval(fuel, Code.Next(b), c, e.world, |under|))
    ensures Lands(e, Run(n, s), h + Size(Code.Next(b)), under, Eval(fuel, Code.Next(b), c, e.world, |under|))
    ensures Holds(e, n, s)
    ensures Eval(fuel, Code.Next(b), c, e.world, |under|).Exited? ==> n > 0
    decreases fuel, Code.Next(b), 0
  {
    hide At, Run, Image, Lands, Eval, Emitted, Size, Holds;
    NextEval(fuel, b, c, e.world, |under|);
    LoopForm(Code.Next(b), b, e.l.nxt, e.rom, e.l, h);
    RangeOf(e);
    var r := Eval(fuel - 1, b, c, e.world, |under|);
    n := Simulate(fuel - 1, b, c, e, under, s, h);
    if r.Done? {
      LandsDone(e, Run(n, s), h + Size(b), under, r.c);
      var rs := under + r.c.rs;
      assert Last(rs) == Last(r.c.rs) && Init(rs) == under + Init(r.c.rs);
      SimNext(e, Run(n, s), h + Size(b), r.c.ps, rs, r.c.mem, h);
      Then(e, n, 3, s);
      n := n + 3;
      if Last(r.c.rs) == 1 {
        LandsDone(e, Run(n, s), h + Size(Code.Next(b)), under, r.c.(rs := Init(r.c.rs)));
      } else {
        assert Init(rs) + [Dec(Last(rs))] == under + Recount(r.c).rs;
        var n2 := Simulate(fuel - 1, Code.Next(b), Recount(r.c), e, under, Run(n, s), h);
        Then(e, n, n2, s);
        n := n + n2;
      }
    } else {
      LandsExited(e, Run(n, s), h + Size(b), h + Size(Code.Next(b)), under, r.c);
    }
  }
}
