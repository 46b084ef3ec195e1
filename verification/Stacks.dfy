/** The two stacks that vm.c keeps in one memory, as two abstract sequences. */
module Stacks {
  import opened Words
  import opened VmSpec
  import opened Forth

  /** Machine s holds parameter stack ps and return stack rs (tops last), they do not
      meet, the low memory is m, the water marks bound the pointers. */
  ghost predicate Rep(s: State, ps: seq<word>, rs: seq<word>, m: Mem) {
    && |ps| + |rs| <= CAP
    && s.sp == SP_ADDR - 2 * |ps|
    && s.rs == RS_ADDR + 2 * |rs|
    && (forall i :: 0 <= i < |ps| ==> WordAt(s.mem, SP_ADDR - 2 * (i + 1)) == ps[i])
    && (forall i :: 0 <= i < |rs| ==> WordAt(s.mem, RS_ADDR + 2 * (i + 1)) == rs[i])
    && (forall a: word :: a < RS_ADDR ==> s.mem[a] == m[a])
    && s.minSP <= s.sp && s.rs <= s.maxRS
    && s.running && !s.trapped
  }

  lemma RepPeek(s: State, ps: seq<word>, rs: seq<word>, m: Mem)
    requires Rep(s, ps, rs, m) && ps != []
    ensures Peek(s) == (s, Last(ps))
  {
    assert WordAt(s.mem, SP_ADDR - 2 * (|ps| - 1 + 1)) == ps[|ps| - 1];
  }

  lemma RepPop(s: State, ps: seq<word>, rs: seq<word>, m: Mem)
    requires Rep(s, ps, rs, m) && ps != []
    ensures Pop(s) == (s.(sp := s.sp + 2), Last(ps))
    ensures Rep(Pop(s).0, Init(ps), rs, m)
  {
    RepPeek(s, ps, rs, m);
  }

  lemma RepPush(s: State, ps: seq<word>, rs: seq<word>, m: Mem, x: word)
    requires Rep(s, ps, rs, m) && |ps| + |rs| < CAP
    ensures Rep(Push(s, x), ps + [x], rs, m)
    ensures Push(s, x).ip == s.ip && Push(s, x).pc == s.pc
    ensures Push(s, x).minSP == if s.sp - 2 < s.minSP then s.sp - 2 else s.minSP
  {
    var t := Push(s, x);
    SetWordAt(s.mem, s.sp - 2, x);
    forall i | 0 <= i < |ps + [x]| ensures WordAt(t.mem, SP_ADDR - 2 * (i + 1)) == (ps + [x])[i] {
      if i < |ps| { assert WordAt(s.mem, SP_ADDR - 2 * (i + 1)) == ps[i]; }
    }
    forall i | 0 <= i < |rs| ensures WordAt(t.mem, RS_ADDR + 2 * (i + 1)) == rs[i] {
      assert WordAt(s.mem, RS_ADDR + 2 * (i + 1)) == rs[i];
    }
  }

  lemma RepTopRS(s: State, ps: seq<word>, rs: seq<word>, m: Mem)
    requires Rep(s, ps, rs, m) && rs != []
    ensures Gw(s, s.rs) == (s, Last(rs))
  {
    assert WordAt(s.mem, RS_ADDR + 2 * (|rs| - 1 + 1)) == rs[|rs| - 1];
  }

  lemma RepPopRS(s: State, ps: seq<word>, rs: seq<word>, m: Mem)
    requires Rep(s, ps, rs, m) && rs != []
    ensures PopRS(s) == (s.(rs := s.rs - 2), Last(rs))
    ensures Rep(PopRS(s).0, ps, Init(rs), m)
  {
    RepTopRS(s, ps, rs, m);
  }

  lemma RepPushRS(s: State, ps: seq<word>, rs: seq<word>, m: Mem, x: word)
    requires Rep(s, ps, rs, m) && |ps| + |rs| < CAP
    ensures Rep(PushRS(s, x), ps, rs + [x], m)
    ensures PushRS(s, x).ip == s.ip && PushRS(s, x).pc == s.pc
    ensures PushRS(s, x).maxRS == if s.rs + 2 > s.maxRS then s.rs + 2 else s.maxRS
  {
    var t := PushRS(s, x);
    SetWordAt(s.mem, s.rs + 2, x);
    forall i | 0 <= i < |ps| ensures WordAt(t.mem, SP_ADDR - 2 * (i + 1)) == ps[i] {
      assert WordAt(s.mem, SP_ADDR - 2 * (i + 1)) == ps[i];
    }
    forall i | 0 <= i < |rs + [x]| ensures WordAt(t.mem, RS_ADDR + 2 * (i + 1)) == (rs + [x])[i] {
      if i < |rs| { assert WordAt(s.mem, RS_ADDR + 2 * (i + 1)) == rs[i]; }
    }
  }

  /** Registers outside the stacks do not matter. */
  lemma RepMove(s: State, ps: seq<word>, rs: seq<word>, m: Mem, ip: word, pc: word)
    requires Rep(s, ps, rs, m)
    ensures Rep(s.(ip := ip, pc := pc), ps, rs, m)
  {
  }

  // ----- native words on abstract stacks -----

  lemma RepSwap(s: State, ps: seq<word>, rs: seq<word>, m: Mem)
    requires Rep(s, ps, rs, m) && |ps| >= 2
    ensures Rep(Swap(s), ps[..|ps| - 2] + [Last(ps), ps[|ps| - 2]], rs, m)
    ensures Swap(s).ip == s.ip && Swap(s).pc == s.pc
  {
    hide Pop, Push, Rep;
    var a, b, p := Last(ps), ps[|ps| - 2], ps[..|ps| - 2];
    RepPop(s, ps, rs, m);
    var t := Pop(s).0;
    RepPop(t, Init(ps), rs, m);
    var u := Pop(t).0;
    assert Init(Init(ps)) == p && p + [a] + [b] == p + [a, b];
    DepthOf(s, ps, rs, m);
    RepPush(u, p, rs, m, a);
    RepPush(Push(u, a), p + [a], rs, m, b);
  }

  lemma DepthOf(s: State, ps: seq<word>, rs: seq<word>, m: Mem)
    requires Rep(s, ps, rs, m)
    ensures |ps| + |rs| <= CAP
  {
  }

  lemma RepOver(s: State, ps: seq<word>, rs: seq<word>, m: Mem)
    requires Rep(s, ps, rs, m) && |ps| >= 2 && |ps| + |rs| < CAP
    ensures Rep(Over(s), ps + [ps[|ps| - 2]], rs, m)
    ensures Over(s).ip == s.ip && Over(s).pc == s.pc
  {
    hide Pop, Peek, Push, Rep;
    var a, b, p := Last(ps), ps[|ps| - 2], Init(ps);
    RepPop(s, ps, rs, m);
    var u := Pop(s).0;
    RepPeek(u, p, rs, m);
    assert p + [a] == ps;
    RepPush(u, p, rs, m, a);
    RepPush(Push(u, a), ps, rs, m, b);
  }

  lemma RepRot(s: State, ps: seq<word>, rs: seq<word>, m: Mem)
    requires Rep(s, ps, rs, m) && |ps| >= 3
    ensures Rep(Rot(s), ps[..|ps| - 3] + [ps[|ps| - 2], Last(ps), ps[|ps| - 3]], rs, m)
    ensures Rot(s).ip == s.ip && Rot(s).pc == s.pc
  {
    hide Pop, Push, Rep;
    var a, b, c, p := ps[|ps| - 3], ps[|ps| - 2], Last(ps), ps[..|ps| - 3];
    RepPop(s, ps, rs, m);
    var t := Pop(s).0;
    RepPop(t, Init(ps), rs, m);
    var u := Pop(t).0;
    RepPop(u, Init(Init(ps)), rs, m);
    var v := Pop(u).0;
    assert Init(Init(Init(ps))) == p && p + [b] + [c] + [a] == p + [b, c, a];
    DepthOf(s, ps, rs, m);
    RepPush(v, p, rs, m, b);
    RepPush(Push(v, b), p + [b], rs, m, c);
    RepPush(Push(Push(v, b), c), p + [b] + [c], rs, m, a);
  }

  lemma RepBinary(s: State, ps: seq<word>, rs: seq<word>, m: Mem, f: (word, word) -> word)
    requires Rep(s, ps, rs, m) && |ps| >= 2
    ensures Rep(Binary(s, f), ps[..|ps| - 2] + [f(ps[|ps| - 2], Last(ps))], rs, m)
    ensures Binary(s, f).ip == s.ip && Binary(s, f).pc == s.pc
  {
    hide Pop, Push, Rep;
    RepPop(s, ps, rs, m);
    var t := Pop(s).0;
    RepPop(t, Init(ps), rs, m);
    assert Init(Init(ps)) == ps[..|ps| - 2];
    DepthOf(s, ps, rs, m);
    RepPush(Pop(t).0, ps[..|ps| - 2], rs, m, f(ps[|ps| - 2], Last(ps)));
  }

  lemma RepDivMod(s: State, ps: seq<word>, rs: seq<word>, m: Mem)
    requires Rep(s, ps, rs, m) && |ps| >= 2 && Last(ps) != 0
    ensures var a, b := ps[|ps| - 2], Last(ps);
            Rep(DivMod(s), ps[..|ps| - 2] + [Mod(a, b), Div(a, b)], rs, m)
    ensures DivMod(s).ip == s.ip && DivMod(s).pc == s.pc
  {
    hide Pop, Push, Rep, Mod, Div;
    var a, b, p := ps[|ps| - 2], Last(ps), ps[..|ps| - 2];
    RepPop(s, ps, rs, m);
    var t := Pop(s).0;
    RepPop(t, Init(ps), rs, m);
    var u := Pop(t).0;
    assert Init(Init(ps)) == p && p + [Mod(a, b)] + [Div(a, b)] == p + [Mod(a, b), Div(a, b)];
    DepthOf(s, ps, rs, m);
    RepPush(u, p, rs, m, Mod(a, b));
    RepPush(Push(u, Mod(a, b)), p + [Mod(a, b)], rs, m, Div(a, b));
  }

  /** Words that replace the top by a value computed from it. */
  lemma RepUnary(s: State, ps: seq<word>, rs: seq<word>, m: Mem, x: word)
    requires Rep(s, ps, rs, m) && ps != []
    ensures Rep(Push(Pop(s).0, x), Init(ps) + [x], rs, m)
    ensures Push(Pop(s).0, x).ip == s.ip && Push(Pop(s).0, x).pc == s.pc
  {
    RepPop(s, ps, rs, m);
    RepPush(Pop(s).0, Init(ps), rs, m, x);
  }

  lemma RepToR(s: State, ps: seq<word>, rs: seq<word>, m: Mem)
    requires Rep(s, ps, rs, m) && ps != []
    ensures Rep(Ps2Rs(s), Init(ps), rs + [Last(ps)], m)
    ensures Ps2Rs(s).ip == s.ip && Ps2Rs(s).pc == s.pc
  {
    RepPop(s, ps, rs, m);
    RepPushRS(Pop(s).0, Init(ps), rs, m, Last(ps));
  }

  lemma RepFromR(s: State, ps: seq<word>, rs: seq<word>, m: Mem)
    requires Rep(s, ps, rs, m) && rs != []
    ensures Rep(Rs2Ps(s), ps + [Last(rs)], Init(rs), m)
    ensures Rs2Ps(s).ip == s.ip && Rs2Ps(s).pc == s.pc
  {
    RepPopRS(s, ps, rs, m);
    RepPush(PopRS(s).0, ps, Init(rs), m, Last(rs));
  }

  /** A store below the stacks changes the low memory and nothing else. */
  lemma RepLowMemory(s: State, ps: seq<word>, rs: seq<word>, m: Mem, n: Mem, m': Mem)
    requires Rep(s, ps, rs, m)
    requires forall a: word :: a >= RS_ADDR ==> n[a] == s.mem[a]
    requires forall a: word :: a < RS_ADDR ==> n[a] == m'[a]
    ensures Rep(s.(mem := n), ps, rs, m')
  {
    var t := s.(mem := n);
    forall i | 0 <= i < |ps| ensures WordAt(t.mem, SP_ADDR - 2 * (i + 1)) == ps[i] {
      assert WordAt(s.mem, SP_ADDR - 2 * (i + 1)) == ps[i];
    }
    forall i | 0 <= i < |rs| ensures WordAt(t.mem, RS_ADDR + 2 * (i + 1)) == rs[i] {
      assert WordAt(s.mem, RS_ADDR + 2 * (i + 1)) == rs[i];
    }
  }

  lemma RepStore(s: State, ps: seq<word>, rs: seq<word>, m: Mem)
    requires Rep(s, ps, rs, m) && |ps| >= 2 && Last(ps) + 2 <= RS_ADDR
    ensures Rep(Store(s), ps[..|ps| - 2], rs, SetWord(m, Last(ps), ps[|ps| - 2]))
    ensures Store(s).ip == s.ip && Store(s).pc == s.pc
  {
    RepPop(s, ps, rs, m);
    var t := Pop(s).0;
    RepPop(t, Init(ps), rs, m);
    var u := Pop(t).0;
    assert Init(Init(ps)) == ps[..|ps| - 2];
    RepLowMemory(u, ps[..|ps| - 2], rs, m, SetWord(u.mem, Last(ps), ps[|ps| - 2]),
                 SetWord(m, Last(ps), ps[|ps| - 2]));
  }

  lemma RepCStore(s: State, ps: seq<word>, rs: seq<word>, m: Mem)
    requires Rep(s, ps, rs, m) && |ps| >= 2 && Last(ps) < RS_ADDR
    ensures Rep(CStore(s), ps[..|ps| - 2], rs, m[Last(ps) := B(ps[|ps| - 2])])
    ensures CStore(s).ip == s.ip && CStore(s).pc == s.pc
  {
    RepPop(s, ps, rs, m);
    var t := Pop(s).0;
    RepPop(t, Init(ps), rs, m);
    var u := Pop(t).0;
    assert Init(Init(ps)) == ps[..|ps| - 2];
    RepLowMemory(u, ps[..|ps| - 2], rs, m, u.mem[Last(ps) := B(ps[|ps| - 2])],
                 m[Last(ps) := B(ps[|ps| - 2])]);
  }

  /** A fetch below the stacks reads the low memory. */
  lemma RepFetch(s: State, ps: seq<word>, rs: seq<word>, m: Mem)
    requires Rep(s, ps, rs, m) && ps != [] && Last(ps) + 2 <= RS_ADDR
    ensures Rep(Fetch(s), Init(ps) + [WordAt(m, Last(ps))], rs, m)
    ensures Fetch(s).ip == s.ip && Fetch(s).pc == s.pc
  {
    RepPop(s, ps, rs, m);
    RepUnary(s, ps, rs, m, WordAt(m, Last(ps)));
  }

  lemma RepCFetch(s: State, ps: seq<word>, rs: seq<word>, m: Mem)
    requires Rep(s, ps, rs, m) && ps != [] && Last(ps) < RS_ADDR
    ensures Rep(CFetch(s), Init(ps) + [m[Last(ps)]], rs, m)
    ensures CFetch(s).ip == s.ip && CFetch(s).pc == s.pc
  {
    RepPop(s, ps, rs, m);
    RepUnary(s, ps, rs, m, m[Last(ps)]);
  }

  lemma RepCounts(s: State, ps: seq<word>, rs: seq<word>, m: Mem)
    requires Rep(s, ps, rs, m) && |ps| + |rs| < CAP
    ensures Rep(SCnt(s), ps + [|ps|], rs, m) && SCnt(s).ip == s.ip && SCnt(s).pc == s.pc
    ensures Rep(RCnt(s), ps + [|rs|], rs, m) && RCnt(s).ip == s.ip && RCnt(s).pc == s.pc
  {
    hide Push, Rep;
    HalfDistances(s, ps, rs, m);
    RepPush(s, ps, rs, m, |ps|);
    RepPush(s, ps, rs, m, |rs|);
  }

  lemma HalfDistances(s: State, ps: seq<word>, rs: seq<word>, m: Mem)
    requires Rep(s, ps, rs, m)
    ensures Half(SP_ADDR - s.sp) == |ps| && Half(s.rs - RS_ADDR) == |rs|
  {
  }

  // ----- all of them at once -----

  /** Every native word of the source language does on the machine's two stacks and
      memory what the source meaning says. `under` lies below the running word's frame. */
  lemma PrimStep(p: Prim, c: Cfg, e: World, under: seq<word>, s: State)
    requires EvalPrim(p, c, e, |under|).Some?
    requires Rep(s, c.ps, under + c.rs, c.mem)
    ensures var r, t := EvalPrim(p, c, e, |under|).value, Exec(s, Opcode(p));
            Rep(t, r.ps, under + r.rs, r.mem) && t.ip == s.ip && t.pc == s.pc
  {
    hide Rep;
    if IsAlu(p) {
      AluStep(p, c, e, under, s);
    } else if p.FETCH? || p.CFETCH? || p.STORE? || p.CSTORE? {
      MemoryStep(p, c, e, under, s);
    } else if p.TOR? || p.FROMR? || p.RFETCH? || p.RDROP? {
      FrameStep(p, c, e, under, s);
    } else if p.SCNT? || p.RCNT? {
      CountStep(p, c, e, under, s);
    } else if p.DUP? || p.DROP? || p.QDUP? || p.NOT? {
      TopStep(p, c, e, under, s);
    } else {
      ShuffleStep(p, c, e, under, s);
    }
  }

  /** The function that a two-operand word applies. */
  function AluOf(p: Prim): (word, word) -> word
    requires IsAlu(p)
  {
    match p
    case PLUS => Add16
    case MINUS => Sub16
    case TIMES => Mul16
    case AND => And16
    case OR => Or16
    case XOR => Xor16
    case LESS => Less16
  }

  lemma AluEffect(p: Prim, c: Cfg, e: World, depth: nat)
    requires IsAlu(p) && EvalPrim(p, c, e, depth).Some?
    ensures |c.ps| >= 2
    ensures EvalPrim(p, c, e, depth).value
         == c.(ps := c.ps[..|c.ps| - 2] + [AluOf(p)(c.ps[|c.ps| - 2], Last(c.ps))])
  {
    hide Add16, Sub16, Mul16, Less16, And16, Or16, Xor16, Deep;
  }

  lemma AluExec(p: Prim, s: State)
    requires IsAlu(p)
    ensures Exec(s, Opcode(p)) == Binary(s, AluOf(p))
  {
    hide Binary;
  }

  lemma AluStep(p: Prim, c: Cfg, e: World, under: seq<word>, s: State)
    requires IsAlu(p) && EvalPrim(p, c, e, |under|).Some?
    requires Rep(s, c.ps, under + c.rs, c.mem)
    ensures var r, t := EvalPrim(p, c, e, |under|).value, Exec(s, Opcode(p));
            Rep(t, r.ps, under + r.rs, r.mem) && t.ip == s.ip && t.pc == s.pc
  {
    hide Rep, Binary, Exec, EvalPrim, AluOf;
    AluEffect(p, c, e, |under|);
    AluExec(p, s);
    RepBinary(s, c.ps, under + c.rs, c.mem, AluOf(p));
  }

  lemma MemoryStep(p: Prim, c: Cfg, e: World, under: seq<word>, s: State)
    requires p.FETCH? || p.CFETCH? || p.STORE? || p.CSTORE?
    requires EvalPrim(p, c, e, |under|).Some?
    requires Rep(s, c.ps, under + c.rs, c.mem)
    ensures var r, t := EvalPrim(p, c, e, |under|).value, Exec(s, Opcode(p));
            Rep(t, r.ps, under + r.rs, r.mem) && t.ip == s.ip && t.pc == s.pc
  {
    hide Rep, Exec, EvalPrim;
    var rs := under + c.rs;
    MemoryExec(s);
    match p
    case FETCH =>
      FetchEffect(c, e, |under|);
      RepFetch(s, c.ps, rs, c.mem);
    case CFETCH =>
      FetchEffect(c, e, |under|);
      RepCFetch(s, c.ps, rs, c.mem);
    case STORE =>
      StoreEffect(c, e, |under|);
      RepStore(s, c.ps, rs, c.mem);
    case CSTORE =>
      StoreEffect(c, e, |under|);
      RepCStore(s, c.ps, rs, c.mem);
  }

  lemma FetchEffect(c: Cfg, e: World, depth: nat)
    ensures var r := EvalPrim(FETCH, c, e, depth);
            r.Some? ==> c.ps != [] && Last(c.ps) + 2 <= RS_ADDR &&
                        r.value == c.(ps := Init(c.ps) + [WordAt(c.mem, Last(c.ps))])
    ensures var r := EvalPrim(CFETCH, c, e, depth);
            r.Some? ==> c.ps != [] && Last(c.ps) < RS_ADDR &&
                        r.value == c.(ps := Init(c.ps) + [c.mem[Last(c.ps)]])
  {
    hide WordAt, Deep;
  }

  lemma StoreEffect(c: Cfg, e: World, depth: nat)
    ensures var r := EvalPrim(STORE, c, e, depth);
            r.Some? ==> |c.ps| >= 2 && Last(c.ps) + 2 <= RS_ADDR &&
                        r.value == c.(ps := c.ps[..|c.ps| - 2], mem := SetWord(c.mem, Last(c.ps), c.ps[|c.ps| - 2]))
    ensures var r := EvalPrim(CSTORE, c, e, depth);
            r.Some? ==> |c.ps| >= 2 && Last(c.ps) < RS_ADDR &&
                        r.value == c.(ps := c.ps[..|c.ps| - 2], mem := c.mem[Last(c.ps) := B(c.ps[|c.ps| - 2])])
  {
    hide SetWord, Deep, B;
    if |c.ps| >= 2 { assert c.ps[..|c.ps| - 2] + [] == c.ps[..|c.ps| - 2]; }
  }

  lemma MemoryExec(s: State)
    ensures Exec(s, 64) == Fetch(s) && Exec(s, 63) == CFetch(s) && Exec(s, 65) == Store(s) && Exec(s, 66) == CStore(s)
  {
    hide Fetch, CFetch, Store, CStore;
  }

  lemma FrameStep(p: Prim, c: Cfg, e: World, under: seq<word>, s: State)
    requires p.TOR? || p.FROMR? || p.RFETCH? || p.RDROP?
    requires EvalPrim(p, c, e, |under|).Some?
    requires Rep(s, c.ps, under + c.rs, c.mem)
    ensures var r, t := EvalPrim(p, c, e, |under|).value, Exec(s, Opcode(p));
            Rep(t, r.ps, under + r.rs, r.mem) && t.ip == s.ip && t.pc == s.pc
  {
    hide Rep, Ps2Rs, Rs2Ps, PopRS, Push, Gw;
    var rs := under + c.rs;
    assert c.ps[..|c.ps|] == c.ps;
    if p.TOR? {
      ToRStep(c, e, under, s);
    } else {
      assert Last(rs) == Last(c.rs) && Init(rs) == under + Init(c.rs);
      match p
      case FROMR => RepFromR(s, c.ps, rs, c.mem);
      case RFETCH =>
        RepTopRS(s, c.ps, rs, c.mem);
        RepPush(s, c.ps, rs, c.mem, Last(rs));
      case RDROP => RepPopRS(s, c.ps, rs, c.mem);
    }
  }

  lemma ToRStep(c: Cfg, e: World, under: seq<word>, s: State)
    requires EvalPrim(TOR, c, e, |under|).Some?
    requires Rep(s, c.ps, under + c.rs, c.mem)
    ensures var r, t := EvalPrim(TOR, c, e, |under|).value, Exec(s, Opcode(TOR));
            Rep(t, r.ps, under + r.rs, r.mem) && t.ip == s.ip && t.pc == s.pc
  {
    hide Rep, Ps2Rs;
    var rs := under + c.rs;
    RepToR(s, c.ps, rs, c.mem);
    assert rs + [Last(c.ps)] == under + (c.rs + [Last(c.ps)]);
    assert Init(c.ps) + [] == Init(c.ps);
  }

  lemma CountEffect(c: Cfg, e: World, depth: nat)
    ensures var r := EvalPrim(SCNT, c, e, depth);
            r.Some? ==> r.value == c.(ps := c.ps + [|c.ps|]) && |c.ps| + |c.rs| + depth < CAP
    ensures var r := EvalPrim(RCNT, c, e, depth);
            r.Some? ==> r.value == c.(ps := c.ps + [depth + |c.rs|]) && |c.ps| + |c.rs| + depth < CAP
  {
    assert c.ps[..|c.ps|] == c.ps;
  }

  lemma CountExec(s: State)
    ensures Exec(s, 58) == SCnt(s) && Exec(s, 57) == RCnt(s)
  {
    hide SCnt, RCnt;
  }

  lemma CountStep(p: Prim, c: Cfg, e: World, under: seq<word>, s: State)
    requires p.SCNT? || p.RCNT?
    requires EvalPrim(p, c, e, |under|).Some?
    requires Rep(s, c.ps, under + c.rs, c.mem)
    ensures var r, t := EvalPrim(p, c, e, |under|).value, Exec(s, Opcode(p));
            Rep(t, r.ps, under + r.rs, r.mem) && t.ip == s.ip && t.pc == s.pc
  {
    hide Rep, SCnt, RCnt, EvalPrim, Exec;
    CountEffect(c, e, |under|);
    CountExec(s);
    RepCounts(s, c.ps, under + c.rs, c.mem);
  }

  lemma ShuffleStep(p: Prim, c: Cfg, e: World, under: seq<word>, s: State)
    requires p.SWAP? || p.OVER? || p.ROT? || p.DIVMOD?
    requires EvalPrim(p, c, e, |under|).Some?
    requires Rep(s, c.ps, under + c.rs, c.mem)
    ensures var r, t := EvalPrim(p, c, e, |under|).value, Exec(s, Opcode(p));
            Rep(t, r.ps, under + r.rs, r.mem) && t.ip == s.ip && t.pc == s.pc
  {
    hide Rep, Exec, EvalPrim, Mod, Div;
    var rs := under + c.rs;
    ShuffleExec(s);
    ShuffleEffect(c, e, |under|);
    match p
    case SWAP => RepSwap(s, c.ps, rs, c.mem);
    case OVER => RepOver(s, c.ps, rs, c.mem);
    case ROT =>
      RotEffect(c, e, |under|);
      RepRot(s, c.ps, rs, c.mem);
    case DIVMOD =>
      RotEffect(c, e, |under|);
      RepDivMod(s, c.ps, rs, c.mem);
  }

  lemma ShuffleEffect(c: Cfg, e: World, depth: nat)
    ensures var r := EvalPrim(SWAP, c, e, depth);
            r.Some? ==> |c.ps| >= 2 && r.value == c.(ps := c.ps[..|c.ps| - 2] + [Last(c.ps), c.ps[|c.ps| - 2]])
    ensures var r := EvalPrim(OVER, c, e, depth);
            r.Some? ==> |c.ps| >= 2 && |c.ps| + |c.rs| + depth < CAP && r.value == c.(ps := c.ps + [c.ps[|c.ps| - 2]])
  {
    assert c.ps[..|c.ps|] == c.ps;
  }

  lemma RotEffect(c: Cfg, e: World, depth: nat)
    ensures var r := EvalPrim(ROT, c, e, depth);
            r.Some? ==> |c.ps| >= 3 &&
                        r.value == c.(ps := c.ps[..|c.ps| - 3] + [c.ps[|c.ps| - 2], Last(c.ps), c.ps[|c.ps| - 3]])
    ensures var r := EvalPrim(DIVMOD, c, e, depth);
            r.Some? ==> |c.ps| >= 2 && Last(c.ps) != 0 &&
                        var a, b := c.ps[|c.ps| - 2], Last(c.ps);
                        r.value == c.(ps := c.ps[..|c.ps| - 2] + [Mod(a, b), Div(a, b)])
  {
    hide Deep, Mod, Div;
  }

  lemma ShuffleExec(s: State)
    ensures Exec(s, 4) == Swap(s) && Exec(s, 5) == Over(s) && Exec(s, 6) == Rot(s) && Exec(s, 54) == DivMod(s)
  {
    hide Swap, Over, Rot, DivMod;
  }

  lemma TopStep(p: Prim, c: Cfg, e: World, under: seq<word>, s: State)
    requires p.DUP? || p.DROP? || p.QDUP? || p.NOT?
    requires EvalPrim(p, c, e, |under|).Some?
    requires Rep(s, c.ps, under + c.rs, c.mem)
    ensures var r, t := EvalPrim(p, c, e, |under|).value, Exec(s, Opcode(p));
            Rep(t, r.ps, under + r.rs, r.mem) && t.ip == s.ip && t.pc == s.pc
  {
    hide Rep, Pop, Peek, Push, EvalPrim, Exec;
    var rs := under + c.rs;
    TopEffect(p, c, e, |under|);
    TopExec(s);
    if p.DROP? || p.NOT? {
      RepPop(s, c.ps, rs, c.mem);
      RepUnary(s, c.ps, rs, c.mem, if Last(c.ps) != 0 then 0 else 1);
    } else {
      RepPeek(s, c.ps, rs, c.mem);
      if p.DUP? || Last(c.ps) != 0 { RepPush(s, c.ps, rs, c.mem, Last(c.ps)); }
    }
  }

  lemma TopEffect(p: Prim, c: Cfg, e: World, depth: nat)
    requires p.DUP? || p.DROP? || p.QDUP? || p.NOT?
    requires EvalPrim(p, c, e, depth).Some?
    ensures c.ps != [] && (p.DUP? || (p.QDUP? && Last(c.ps) != 0) ==> |c.ps| + |c.rs| + depth < CAP)
    ensures EvalPrim(p, c, e, depth).value.rs == c.rs && EvalPrim(p, c, e, depth).value.mem == c.mem
    ensures EvalPrim(p, c, e, depth).value.ps ==
            if p.DROP? then Init(c.ps)
            else if p.NOT? then Init(c.ps) + [if Last(c.ps) != 0 then 0 else 1]
            else if p.DUP? || Last(c.ps) != 0 then c.ps + [Last(c.ps)]
            else c.ps
  {
    assert c.ps[..|c.ps|] == c.ps;
    assert c.ps != [] ==> Init(c.ps) + [] == Init(c.ps);
  }

  lemma TopExec(s: State)
    ensures Exec(s, 0) == Dup(s) && Exec(s, 1) == Pop(s).0 && Exec(s, 14) == CDup(s) && Exec(s, 38) == VmSpec.Not(s)
  {
    hide Pop, Peek, Push;
  }
}
