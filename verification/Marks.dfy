/** Calls and stacks in memory over a whole run: at every moment of a program that ends the
    two stacks represent two sequences, do not meet, and lie within the debugging water
    marks of vm.c. */
module Marks {
  import opened Words
  import opened VmSpec
  import opened Forth
  import opened Stacks
  import opened Simulation

  /** The marks of t are at least as far out as those of s. */
  predicate Wider(s: State, t: State) {
    t.minSP <= s.minSP && s.maxRS <= t.maxRS
  }

  /** The pieces that native words are made of. */
  lemma PiecesWider()
    ensures forall s: State, x: word :: Wider(s, Push(s, x))
    ensures forall s: State, x: word :: Wider(s, PushRS(s, x))
    ensures forall s: State :: Wider(s, Pop(s).0)
    ensures forall s: State :: Wider(s, PopRS(s).0)
    ensures forall s: State :: Wider(s, Peek(s).0)
    ensures forall s: State :: Wider(s, Pc16(s).0)
    ensures forall s: State, a: word :: Wider(s, Gw(s, a).0)
    ensures forall s: State, a: word, v: word :: Wider(s, Sw(s, a, v))
  {
    hide SetWord, WordAt;
  }

  lemma StackWordsWider(s: State)
    ensures Wider(s, Dup(s)) && Wider(s, Swap(s)) && Wider(s, Over(s)) && Wider(s, Rot(s))
    ensures Wider(s, Rs2Ps(s)) && Wider(s, Ps2Rs(s)) && Wider(s, RFetch(s)) && Wider(s, CDup(s))
  {
    PiecesWider();
    hide Push, PushRS, Pop, PopRS, Peek, Gw, Sw;
  }

  lemma CellWordsWider(s: State)
    ensures Wider(s, PushI(s)) && Wider(s, PushII(s)) && Wider(s, CFetch(s)) && Wider(s, Fetch(s))
    ensures Wider(s, CStore(s)) && Wider(s, Store(s)) && Wider(s, VmSpec.Not(s)) && Wider(s, DivMod(s))
    ensures Wider(s, RCnt(s)) && Wider(s, SCnt(s)) && Wider(s, Lit8(s)) && Wider(s, Lit16(s))
  {
    PiecesWider();
    hide Push, PushRS, Pop, PopRS, Peek, Gw, Sw, Pc16;
  }

  lemma BinaryWider(s: State, f: (word, word) -> word)
    ensures Wider(s, Binary(s, f))
  {
    PiecesWider();
    hide Push, Pop;
  }

  lemma ControlWider(s: State)
    ensures Wider(s, Branch(s)) && Wider(s, JmpI(s)) && Wider(s, JmpII(s)) && Wider(s, LblNext(s))
    ensures Wider(s, CBranch(s)) && Wider(s, VmSpec.Next(s)) && Wider(s, CallI(s)) && Wider(s, LblXt(s))
    ensures Wider(s, LblDoes(s)) && Wider(s, Execute(s)) && Wider(s, VmSpec.Exit(s)) && Wider(s, PcFetch(s))
  {
    PiecesWider();
    hide Push, PushRS, Pop, PopRS, Peek, Gw, Sw;
  }

  lemma ValueAndPortWider(s: State)
    ensures Wider(s, LblVal(s)) && Wider(s, PcStore(s))
  {
    PiecesWider();
    hide Push, PushRS, Pop, PopRS, Peek, Gw, Sw, Fread, Fwrite;
  }

  lemma ExecWider(s: State, op: byte)
    ensures Wider(s, Exec(s, op))
  {
    PiecesWider();
    StackWordsWider(s);
    CellWordsWider(s);
    ControlWider(s);
    ValueAndPortWider(s);
    BinaryWider(s, Add16);
    BinaryWider(s, Sub16);
    BinaryWider(s, Mul16);
    BinaryWider(s, Less16);
    BinaryWider(s, And16);
    BinaryWider(s, Or16);
    BinaryWider(s, Xor16);
    hide Pop, PopRS, LblNext, Branch, JmpI, JmpII, Dup, Swap, Over, Rot, Rs2Ps, Ps2Rs, RFetch, CDup,
         PushI, PushII, CFetch, Fetch, CStore, Store, VmSpec.Not, DivMod, RCnt, SCnt, Lit8, Lit16,
         Binary, CBranch, VmSpec.Next, CallI, LblXt, LblDoes, LblVal, Execute, VmSpec.Exit, PcStore, PcFetch;
  }

  /** No instruction, whatever it is, pulls a mark back. */
  lemma {:induction false} RunWider(n: nat, s: State)
    ensures Wider(s, Run(n, s))
  {
    hide Exec;
    if n > 0 && s.running {
      ExecWider(s.(pc := W(s.pc + 1)), s.mem[s.pc]);
      RunWider(n - 1, Step(s));
    }
  }

  /** The machine at some moment of a run that ends in state end: running inside C, with
      both stacks between their bases and the final marks, apart from each other, and with
      every byte of code as it was compiled. */
  ghost predicate InBounds(e: Env, s: State, end: State) {
    && s.running && !s.trapped
    && end.minSP <= s.sp <= SP_ADDR && RS_ADDR <= s.rs <= end.maxRS && s.rs + 2 <= s.sp
    && (forall a: word :: e.world.lo <= a < e.world.hi ==> s.mem[a] == e.rom[a])
  }

  lemma HeldInBounds(e: Env, s: State, end: State)
    requires Held(e, s) && Wider(s, end) && e.world.hi <= RS_ADDR
    ensures InBounds(e, s, end)
  {
    var ps, rs, m :| HeldBy(e, s, ps, rs, m);
  }

  /** The marks read at the end of a run bound SP and RS at every moment of it. */
  lemma MarksBoundRun(e: Env, n: nat, s: State)
    requires Holds(e, n, s) && e.world.hi <= RS_ADDR
    ensures forall i: nat :: i <= n ==> InBounds(e, Run(i, s), Run(n, s))
  {
    hide Run, Held, Wider, InBounds;
    forall i: nat | i <= n ensures InBounds(e, Run(i, s), Run(n, s)) {
      RunAdd(i, n - i, s);
      RunWider(n - i, Run(i, s));
      HeldInBounds(e, Run(i, s), Run(n, s));
    }
  }

  /** Every program that has an outcome, its calls nested to any depth, keeps within bounds
      at every moment until the machine stands behind its code, or has returned. */
  lemma ProgramInBounds(fuel: nat, k: Code, c: Cfg, e: Env, under: seq<word>, s: State, h: nat)
    returns (n: nat)
    requires Image(e) && At(e, s, h, c.ps, under + c.rs, c.mem)
    requires InCode(e, h, Size(k)) && Emitted(e.rom, e.l, h, k)
    requires Finished(Eval(fuel, k, c, e.world, |under|))
    ensures Lands(e, Run(n, s), h + Size(k), under, Eval(fuel, k, c, e.world, |under|))
    ensures forall i: nat :: i <= n ==> InBounds(e, Run(i, s), Run(n, s))
  {
    hide At, Run, Image, Lands, Eval, Emitted, Size, Holds, InBounds;
    RangeOf(e);
    n := Simulate(fuel, k, c, e, under, s, h);
    MarksBoundRun(e, n, s);
  }
}
