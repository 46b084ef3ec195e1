/** Whole colon definitions: compiling one keeps the memory image that execution needs,
    so everything ever compiled runs as its source says. */
module Definitions {
  import opened Words
  import opened VmSpec
  import opened Forth
  import opened Stacks
  import opened Simulation
  import opened CompilerSpec
  import D = Dictionary

  /** `: name k ;` CODE lays the header, then XTCOMP a call to the xt routine, the
      compiled body and EXIT. */
  function Colon(s: CState, l: Labels, name: seq<byte>, ts: seq<Token>): CState
    requires s.here + |name| + 3 < MEMSIZE && |name| <= D.MAXNAME
  {
    var h := D.Header(s, name);
    var t := Compile(ts, Comma(CComma(h, 10), l.xt), l);
    if t.ok then Comma(t, l.exit) else t
  }

  /** Labels once the word being defined has its address; CODE makes it findable before
      its body is compiled, so it may call itself. */
  function WithWord(l: Labels, w: word): Labels {
    l.(words := l.words + [w])
  }

  function Grown(e: Env, t: CState, k: Code): Env {
    Env(t.mem, World(e.world.lo, t.here, e.world.words + [k]), WithWord(e.l, t.current))
  }

  /** Bytes a definition takes. */
  function DefSize(name: seq<byte>, k: Code): nat {
    |name| + 3 + 3 + Size(k) + 2
  }

  /** There is room for the definition, and it calls no word that is not there yet. */
  predicate Definable(e: Env, s: CState, name: seq<byte>, k: Code) {
    && |name| <= D.MAXNAME && s.here + DefSize(name, k) < 0xff00
    && CallsIn(k, |e.l.words| + 1)
  }

  /** The compiler after `: name k ;`. */
  function Defined(e: Env, s: CState, name: seq<byte>, k: Code): CState
    requires Definable(e, s, name, k)
  {
    var l := WithWord(e.l, s.here + |name| + 3);
    Colon(s, l, name, Source(k, l))
  }

  /** The dictionary with that word. */
  function DefinedEnv(e: Env, s: CState, name: seq<byte>, k: Code): Env
    requires Definable(e, s, name, k)
  {
    Grown(e, Defined(e, s, name, k), k)
  }

  /** Code without parts refers to no word by its place, but for calls. */
  lemma LeafWords(m: Mem, l: Labels, w: word, h: nat, k: Code)
    requires k.Skip? || k.Lit? || k.Prim? || k.Call? || k.Exit? || k.Leave?
    requires Emitted(m, l, h, k)
    ensures Emitted(m, WithWord(l, w), h, k)
  {
    hide CellAt, BranchAt;
  }

  lemma {:induction false} MoreWords(m: Mem, l: Labels, w: word, h: nat, k: Code)
    requires Emitted(m, l, h, k)
    ensures Emitted(m, WithWord(l, w), h, k)
    decreases k
  {
    hide CellAt, BranchAt, Emitted, Size;
    var l' := WithWord(l, w);
    match k
    case Seq(a, b) =>
      SeqForm(a, b, m, l, h);
      SeqForm(a, b, m, l', h);
      MoreWords(m, l, w, h, a);
      MoreWords(m, l, w, h + Size(a), b);
    case If(t) =>
      IfForm(t, m, l, h);
      IfForm(t, m, l', h);
      MoreWords(m, l, w, h + 3, t);
    case IfElse(t, f) =>
      IfElseForm(t, f, m, l, h);
      IfElseForm(t, f, m, l', h);
      MoreWords(m, l, w, h + 3, t);
      MoreWords(m, l, w, h + 6 + Size(t), f);
    case Until(b) =>
      LoopForm(k, b, l.cbr, m, l, h);
      LoopForm(k, b, l.cbr, m, l', h);
      MoreWords(m, l, w, h, b);
    case Again(b) =>
      LoopForm(k, b, l.br, m, l, h);
      LoopForm(k, b, l.br, m, l', h);
      MoreWords(m, l, w, h, b);
    case Next(b) =>
      LoopForm(k, b, l.nxt, m, l, h);
      LoopForm(k, b, l.nxt, m, l', h);
      MoreWords(m, l, w, h, b);
    case _ => LeafWords(m, l, w, h, k);
  }

  /** The bytes a definition leaves behind. */
  lemma ColonEffect(s: CState, l: Labels, name: seq<byte>, k: Code)
    requires s.ok && |name| <= D.MAXNAME && s.current <= s.here
    requires s.here + DefSize(name, k) < 0xff00
    requires CallsIn(k, |l.words| + 1)
    ensures var w := s.here + |name| + 3;
            var l' := WithWord(l, w);
            var t := Colon(s, l', name, Source(k, l'));
            && (t.ok <==> Fits(k))
            && (t.ok ==>
                && t == s.(mem := t.mem, here := s.here + DefSize(name, k), current := w)
                && SameOutside(s.mem, t.mem, s.here, t.here)
                && D.EntryAt(t.mem, D.Entry(w, name), s.current)
                && t.mem[w] == 10 && CellAt(t.mem, w + 1, l.xt)
                && Emitted(t.mem, l', w + 3, k) && CellAt(t.mem, w + 3 + Size(k), l.exit))
  {
    hide Compile, Source, Emitted, Fits, CallsIn, Comma, CComma, CellAt, SameOutside, Size, D.EntryAt, D.Header;
    var w := s.here + |name| + 3;
    var l' := WithWord(l, w);
    D.HeaderEffect(s, name);
    var s1 := D.Header(s, name);
    CCommaEffect(s1, 10);
    var s2 := CComma(s1, 10);
    CommaEffect(s2, l.xt);
    var s3 := Comma(s2, l.xt);
    CompileCorrect(k, l', s3);
    var s4 := Compile(Source(k, l'), s3, l');
    if s4.ok {
      CommaEffect(s4, l.exit);
      var t := Comma(s4, l.exit);
      var h := s.here;
      ByteAfter(s2.mem, s3.mem, s4.mem, t.mem, w, s4.here);
      CellKept(s3.mem, s4.mem, w + 3, s4.here, w + 1, l.xt);
      CellKept(s4.mem, t.mem, s4.here, t.here, w + 1, l.xt);
      EmittedKept(s4.mem, t.mem, l', w + 3, k, s4.here, t.here);
      SameOutsideTrans(s1.mem, s2.mem, s3.mem, w, w + 1, w + 1, w + 3, w, t.here);
      SameOutsideTrans(s1.mem, s3.mem, s4.mem, w, t.here, w + 3, s4.here, w, t.here);
      SameOutsideTrans(s1.mem, s4.mem, t.mem, w, t.here, s4.here, t.here, w, t.here);
      SameOutsideTrans(s.mem, s1.mem, t.mem, h, w, w, t.here, h, t.here);
      EntryKept(s1.mem, t.mem, D.Entry(w, name), s.current, w, t.here);
    }
  }

  lemma ByteAfter(m2: Mem, m3: Mem, m4: Mem, m5: Mem, w: nat, h: nat)
    requires w + 3 <= h < 0xff00
    requires SameOutside(m2, m3, w + 1, w + 3) && SameOutside(m3, m4, w + 3, h) && SameOutside(m4, m5, h, h + 2)
    ensures m5[w] == m2[w]
  {
  }

  lemma EntryKept(m: Mem, n: Mem, e: D.Entry, prev: word, a: nat, b: nat)
    requires D.EntryAt(m, e, prev) && SameOutside(m, n, a, b) && e.addr <= a
    ensures D.EntryAt(n, e, prev)
  {
    assert m[e.addr - 3 - |e.name|..e.addr - 3] == n[e.addr - 3 - |e.name|..e.addr - 3];
  }

  /** Old words stay in place when memory grows above the protected range. */
  lemma NativeKept(e: Env, f: Env, w: word, op: byte)
    requires NativeAt(e, w, op)
    requires SameOutside(e.rom, f.rom, e.world.hi, f.world.hi) && e.world.hi <= f.world.hi
    requires e.world.lo == f.world.lo && e.l.next == f.l.next
    ensures NativeAt(f, w, op)
  {
  }

  lemma ColonKept(e: Env, f: Env, w: word, body: Code, extra: word)
    requires ColonAt(e, w, body)
    requires SameOutside(e.rom, f.rom, e.world.hi, f.world.hi) && e.world.hi <= f.world.hi
    requires e.world.lo == f.world.lo && f.l == WithWord(e.l, extra)
    ensures ColonAt(f, w, body)
  {
    hide Emitted, SameOutside, CellAt, Size;
    var a, b := e.world.hi, f.world.hi;
    ByteKept(e.rom, f.rom, a, b, w);
    CellKept(e.rom, f.rom, a, b, w + 1, e.l.xt);
    EmittedKept(e.rom, f.rom, e.l, w + 3, body, a, b);
    MoreWords(f.rom, e.l, extra, w + 3, body);
    CellKept(e.rom, f.rom, a, b, w + 3 + Size(body), e.l.exit);
  }

  /** The compiler keeps the image: from a correct dictionary ending at HERE, defining a
      word either aborts, exactly when a branch is out of reach, or leaves a correct
      dictionary with that word added, findable first, and the data stack as it was. */
  lemma DefineKeepsImage(e: Env, s: CState, name: seq<byte>, k: Code, es: seq<D.Entry>)
    requires Image(e) && s.mem == e.rom && s.here == e.world.hi && s.ok
    requires Definable(e, s, name, k) && s.current <= s.here && D.Chain(s.mem, s.current, es)
    ensures var t := Defined(e, s, name, k);
            && (t.ok <==> Fits(k))
            && (t.ok ==>
                && Image(DefinedEnv(e, s, name, k)) && t.ctl == s.ctl
                && t.current == s.here + |name| + 3 <= t.here
                && D.Chain(t.mem, t.current, [D.Entry(t.current, name)] + es))
  {
    hide Colon, Source, Fits, CallsIn, Emitted, SameOutside, CellAt, NativeAt, ColonAt, D.EntryAt;
    ColonEffect(s, e.l, name, k);
    var w := s.here + |name| + 3;
    var t := Colon(s, WithWord(e.l, w), name, Source(k, WithWord(e.l, w)));
    if t.ok {
      var f := Grown(e, t, k);
      NativeKept(e, f, e.l.br, 30);
      NativeKept(e, f, e.l.cbr, 8);
      NativeKept(e, f, e.l.nxt, 9);
      NativeKept(e, f, e.l.lit8, 15);
      NativeKept(e, f, e.l.lit16, 16);
      NativeKept(e, f, e.l.exit, 13);
      forall p: Prim ensures NativeAt(f, f.l.prim(p), Opcode(p)) {
        NativeKept(e, f, e.l.prim(p), Opcode(p));
      }
      ColonKept(e, f, e.l.leave, LEAVE_BODY, w);
      forall i | 0 <= i < |f.l.words| ensures ColonAt(f, f.l.words[i], f.world.words[i]) {
        if i < |e.l.words| {
          ColonKept(e, f, e.l.words[i], e.world.words[i], w);
        } else {
          NewColon(e, f, w, k);
        }
      }
      ByteKept(e.rom, f.rom, e.world.hi, f.world.hi, e.l.next);
      ByteKept(e.rom, f.rom, e.world.hi, f.world.hi, e.l.xt);
      OldChain(s, t, es);
      assert ([D.Entry(w, name)] + es)[1..] == es;
    }
  }

  lemma OldChain(s: CState, t: CState, es: seq<D.Entry>)
    requires D.Chain(s.mem, s.current, es) && s.current <= s.here && SameOutside(s.mem, t.mem, s.here, t.here)
    ensures D.Chain(t.mem, s.current, es)
  {
    hide D.Chain;
    D.ChainBelow(s.mem, t.mem, s.current, es, s.here);
  }

  lemma NewColon(e: Env, f: Env, w: word, k: Code)
    requires e.world.lo <= e.world.hi <= w && f.world.lo == e.world.lo && w + 3 + Size(k) + 2 == f.world.hi
    requires f.rom[w] == 10 && CellAt(f.rom, w + 1, f.l.xt)
    requires Emitted(f.rom, f.l, w + 3, k) && CellAt(f.rom, w + 3 + Size(k), f.l.exit)
    ensures ColonAt(f, w, k)
  {
  }

  /** The machine is about to execute a cell that refers to word i, whose meaning has a
      result. */
  ghost predicate CallReady(f: Env, i: nat, fuel: nat, c: Cfg, under: seq<word>, mach: State, h: nat) {
    && i < |f.l.words| && InCode(f, h, 2) && CellAt(f.rom, h, f.l.words[i])
    && At(f, mach, h, c.ps, under + c.rs, c.mem)
    && Eval(fuel, Call(i), c, f.world, |under|).Done?
  }

  /** After n instructions it is at the next cell with the stacks and memory of that
      result, and it was as it should be at every moment on the way. */
  ghost predicate CallReturns(f: Env, i: nat, fuel: nat, c: Cfg, under: seq<word>, mach: State, h: nat, n: nat) {
    var r := Eval(fuel, Call(i), c, f.world, |under|);
    && r.Done? && At(f, Run(n, mach), h + 2, r.c.ps, under + r.c.rs, r.c.mem)
    && Holds(f, n, mach)
  }

  lemma CallComesBack(f: Env, i: nat, fuel: nat, c: Cfg, under: seq<word>, mach: State, h: nat) returns (n: nat)
    requires Image(f) && CallReady(f, i, fuel, c, under, mach, h)
    ensures CallReturns(f, i, fuel, c, under, mach, h, n)
  {
    hide Emitted, Size, Image, At, Run, Eval, CellAt, Lands, Holds;
    CallForm(i, f.rom, f.l, h);
    n := SimCall(fuel, i, c, f, under, mach, h);
    LandsDone(f, Run(n, mach), h + 2, under, Eval(fuel, Call(i), c, f.world, |under|).c);
  }

  /** End to end: compile `: name k ;` into a correct dictionary, and let any cell that
      refers to the new word be executed by the machine. Whenever the source meaning of k
      gives a result, the machine comes back to the next cell with exactly those stacks
      and that memory. */
  lemma CompiledWordRuns(e: Env, s: CState, name: seq<byte>, k: Code, es: seq<D.Entry>,
                         fuel: nat, c: Cfg, under: seq<word>, mach: State, h: nat)
    returns (n: nat)
    requires Image(e) && s.mem == e.rom && s.here == e.world.hi && s.ok && Fits(k)
    requires Definable(e, s, name, k) && s.current <= s.here && D.Chain(s.mem, s.current, es)
    requires CallReady(DefinedEnv(e, s, name, k), |e.l.words|, fuel, c, under, mach, h)
    ensures Defined(e, s, name, k).ok
    ensures CallReturns(DefinedEnv(e, s, name, k), |e.l.words|, fuel, c, under, mach, h, n)
  {
    hide Image, Fits, Definable, Defined, DefinedEnv, D.Chain, CallReady, CallReturns;
    DefineKeepsImage(e, s, name, k, es);
    n := CallComesBack(DefinedEnv(e, s, name, k), |e.l.words|, fuel, c, under, mach, h);
  }
}
