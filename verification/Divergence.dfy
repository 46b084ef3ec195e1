/** Programs that run for ever: the machine runs for ever too, and never leaves C. */
module Divergence {
  import opened Words
  import opened VmSpec
  import opened Forth
  import opened Stacks
  import opened Simulation

  /** Loops inside each other; fuel can be spent that deep without an instruction. */
  function Nest(k: Code): nat {
    match k
    case Seq(a, b) => Max(Nest(a), Nest(b))
    case If(t) => Nest(t)
    case IfElse(t, f) => Max(Nest(t), Nest(f))
    case Until(b) => Nest(b) + 1
    case Again(b) => Nest(b) + 1
    case Next(b) => Nest(b) + 1
    case _ => 0
  }

  function Max(a: nat, b: nat): nat {
    if a < b then b else a
  }

  /** More than any word's loops nest. */
  function Pace(words: seq<Code>): (p: nat)
    ensures p >= 2 && forall i :: 0 <= i < |words| ==> Nest(words[i]) <= p
  {
    if words == [] then 2 else Max(Nest(words[0]), Pace(words[1..]))
  }

  /** Instruction n of a run, counted from zero, fetches a cell: what it leaves is what the
      inner interpreter leaves from a machine about to fetch. (The xt routine fetches the
      first cell of a body itself.) */
  ghost predicate Fetches(e: Env, s: State, n: nat) {
    exists u, h, ps, rs, m :: FetchesFrom(e, s, n, u, h, ps, rs, m)
  }

  ghost predicate FetchesFrom(e: Env, s: State, n: nat, u: State, h: nat, ps: seq<word>, rs: seq<word>, m: Mem) {
    At(e, u, h, ps, rs, m) && Run(n + 1, s) == Run(1, u)
  }

  /** What is shown of a program whose fuel ran out: the machine made n instructions, one
      at least for every `pace` of fuel beyond the nesting, all of them as they should be. */
  ghost predicate Goes(e: Env, s: State, n: nat, pace: nat, nest: nat, fuel: nat) {
    Holds(e, n, s) && Fetches(e, s, n) && n * pace + nest >= fuel
  }

  lemma GoesStart(e: Env, s: State, h: nat, ps: seq<word>, rs: seq<word>, m: Mem, pace: nat, nest: nat, fuel: nat)
    requires At(e, s, h, ps, rs, m) && fuel <= nest
    ensures Goes(e, s, 0, pace, nest, fuel)
  {
    hide At, Run;
    AtHolds(e, s, h, ps, rs, m);
    assert FetchesFrom(e, s, 0, s, h, ps, rs, m);
  }

  /** Instructions in front pay for more fuel. */
  lemma GoesOn(e: Env, s: State, m: nat, n: nat, pace: nat, nest: nat, fuel: nat, nest': nat, fuel': nat)
    requires Holds(e, m, s) && Goes(e, Run(m, s), n, pace, nest, fuel)
    requires fuel' + nest <= fuel + nest' + m * pace
    ensures Goes(e, s, m + n, pace, nest', fuel')
  {
    hide Holds, Run, At;
    Then(e, m, n, s);
    RunAdd(m, n + 1, s);
    var u, h, ps, rs, mem :| FetchesFrom(e, Run(m, s), n, u, h, ps, rs, mem);
    assert FetchesFrom(e, s, m + n, u, h, ps, rs, mem);
    assert (m + n) * pace == m * pace + n * pace;
  }

  lemma AtLeast(m: nat, k: nat, pace: nat)
    requires k <= m && 2 <= pace
    ensures 2 * k <= m * pace
  {
    assert m * pace >= m * 2;
  }

  lemma CallTimesOut(fuel: nat, i: nat, c: Cfg, e: World, depth: nat)
    requires Eval(fuel, Call(i), c, e, depth) == Timeout && fuel > 0
    ensures i < |e.words| && !Deep(c, depth, 2)
    ensures Eval(fuel - 1, e.words[i], c.(rs := []), e, depth + |c.rs| + 1) == Timeout
  {
    hide EvalPrim, Put, Recount, Top;
  }

  lemma LeafAnswers(fuel: nat, k: Code, c: Cfg, e: World, depth: nat)
    requires k.Skip? || k.Lit? || k.Prim? || k.Exit? || k.Leave?
    ensures !Eval(fuel, k, c, e, depth).Timeout?
  {
    hide EvalPrim, Deep;
  }

  /** A program that runs out of fuel keeps the machine going. */
  lemma {:induction false} Diverge(fuel: nat, k: Code, c: Cfg, e: Env, under: seq<word>, s: State, h: nat)
    returns (n: nat)
    requires Image(e) && At(e, s, h, c.ps, under + c.rs, c.mem)
    requires InCode(e, h, Size(k)) && Emitted(e.rom, e.l, h, k)
    requires Eval(fuel, k, c, e.world, |under|).Timeout?
    ensures Goes(e, s, n, Pace(e.world.words), Nest(k), fuel)
    decreases fuel, k, 1
  {
    hide At, Image, Eval, Emitted, Size, Goes, Pace;
    n := 0;
    match k
    case Seq(a, b) => n := DivSeq(fuel, a, b, c, e, under, s, h);
    case Call(i) => n := DivCall(fuel, i, c, e, under, s, h);
    case If(t) => n := DivIf(fuel, t, c, e, under, s, h);
    case IfElse(t, f) => n := DivIfElse(fuel, t, f, c, e, under, s, h);
    case Until(b) => n := DivUntil(fuel, b, c, e, under, s, h);
    case Again(b) => n := DivAgain(fuel, b, c, e, under, s, h);
    case Next(b) => n := DivNext(fuel, b, c, e, under, s, h);
    case _ => LeafAnswers(fuel, k, c, e.world, |under|);
  }

  lemma {:induction false} DivSeq(fuel: nat, a: Code, b: Code, c: Cfg, e: Env, under: seq<word>, s: State, h: nat)
    returns (n: nat)
    requires Image(e) && At(e, s, h, c.ps, under + c.rs, c.mem)
    requires InCode(e, h, Size(Seq(a, b))) && Emitted(e.rom, e.l, h, Seq(a, b))
    requires Eval(fuel, Seq(a, b), c, e.world, |under|).Timeout?
    ensures Goes(e, s, n, Pace(e.world.words), Nest(Seq(a, b)), fuel)
    decreases fuel, Seq(a, b), 0
  {
    hide At, Run, Image, Lands, Eval, Emitted, Size, Holds, Goes, Pace;
    SeqEval(fuel, a, b, c, e.world, |under|);
    SeqForm(a, b, e.rom, e.l, h);
    var r := Eval(fuel, a, c, e.world, |under|);
    var pace := Pace(e.world.words);
    if r.Done? {
      var m := Simulate(fuel, a, c, e, under, s, h);
      LandsDone(e, Run(m, s), h + Size(a), under, r.c);
      var n2 := Diverge(fuel, b, r.c, e, under, Run(m, s), h + Size(a));
      AtLeast(m, 0, pace);
      GoesOn(e, s, m, n2, pace, Nest(b), fuel, Nest(Seq(a, b)), fuel);
      n := m + n2;
    } else {
      n := Diverge(fuel, a, c, e, under, s, h);
      Looser(e, s, n, pace, Nest(a), fuel, Nest(Seq(a, b)), fuel);
    }
  }

  lemma Looser(e: Env, s: State, n: nat, pace: nat, nest: nat, fuel: nat, nest': nat, fuel': nat)
    requires Goes(e, s, n, pace, nest, fuel) && fuel' + nest <= fuel + nest'
    ensures Goes(e, s, n, pace, nest', fuel')
  {
    hide Holds, Fetches, Run;
  }

  lemma {:induction false} DivCall(fuel: nat, i: nat, c: Cfg, e: Env, under: seq<word>, s: State, h: nat)
    returns (n: nat)
    requires Image(e) && At(e, s, h, c.ps, under + c.rs, c.mem)
    requires InCode(e, h, Size(Call(i))) && Emitted(e.rom, e.l, h, Call(i))
    requires Eval(fuel, Call(i), c, e.world, |under|).Timeout?
    ensures Goes(e, s, n, Pace(e.world.words), Nest(Call(i)), fuel)
    decreases fuel, Call(i), 0
  {
    hide At, Run, Image, Eval, Emitted, Size, ColonAt, Deep, Holds, Goes;
    var pace := Pace(e.world.words);
    if fuel == 0 {
      n := 0;
      GoesStart(e, s, h, c.ps, under + c.rs, c.mem, pace, 0, 0);
    } else {
      CallTimesOut(fuel, i, c, e.world, |under|);
      CallForm(i, e.rom, e.l, h);
      DeepCall(c, under);
      RangeOf(e);
      WordIsColon(e, i);
      var body, w, rs := e.world.words[i], e.l.words[i], under + c.rs;
      var u := EnterWord(e, s, h, c.ps, rs, c.mem, w, body);
      var d := c.(rs := []);
      var inner := rs + [h + 2];
      assert inner + d.rs == inner && |inner| == |under| + |c.rs| + 1;
      ColonParts(e, w, body);
      var n2 := Diverge(fuel - 1, body, d, e, inner, u, w + 3);
      n := JoinGoes(e, s, u, n2, pace, Nest(body), fuel);
    }
  }

  /** Entering a word takes two instructions, which pay for the nesting of its body. */
  lemma JoinGoes(e: Env, s: State, u: State, n: nat, pace: nat, nest: nat, fuel: nat) returns (k: nat)
    requires Joins(s, u) && Holds(e, 2, s) && nest <= pace && pace >= 2 && fuel > 0
    requires Goes(e, u, n, pace, nest, fuel - 1)
    ensures Goes(e, s, k, pace, 0, fuel)
  {
    hide Run, Held, At;
    JoinHolds(e, n, s, u);
    k := n + 2;
    var v, h, ps, rs, m :| FetchesFrom(e, u, n, v, h, ps, rs, m);
    assert Run(2 + (n + 1), s) == Run(n + 1, u);
    assert FetchesFrom(e, s, k, v, h, ps, rs, m);
    assert k * pace == n * pace + 2 * pace;
  }

  lemma {:induction false} DivIf(fuel: nat, t: Code, c: Cfg, e: Env, under: seq<word>, s: State, h: nat)
    returns (n: nat)
    requires Image(e) && At(e, s, h, c.ps, under + c.rs, c.mem)
    requires InCode(e, h, Size(If(t))) && Emitted(e.rom, e.l, h, If(t))
    requires Eval(fuel, If(t), c, e.world, |under|).Timeout?
    ensures Goes(e, s, n, Pace(e.world.words), Nest(If(t)), fuel)
    decreases fuel, If(t), 0
  {
    hide At, Run, Image, Eval, Emitted, Size, Holds, Goes, Pace;
    IfEval(fuel, t, c, e.world, |under|);
    IfForm(t, e.rom, e.l, h);
    RangeOf(e);
    SimCBranch(e, s, h, c.ps, under + c.rs, c.mem, h + 3 + Size(t));
    var d := Put(c, 1, []);
    assert d.ps == Init(c.ps);
    var n2 := Diverge(fuel, t, d, e, under, Run(3, s), h + 3);
    AtLeast(3, 0, Pace(e.world.words));
    GoesOn(e, s, 3, n2, Pace(e.world.words), Nest(t), fuel, Nest(If(t)), fuel);
    n := 3 + n2;
  }

  lemma {:induction false} DivIfElse(fuel: nat, t: Code, f: Code, c: Cfg, e: Env, under: seq<word>, s: State, h: nat)
    returns (n: nat)
    requires Image(e) && At(e, s, h, c.ps, under + c.rs, c.mem)
    requires InCode(e, h, Size(IfElse(t, f))) && Emitted(e.rom, e.l, h, IfElse(t, f))
    requires Eval(fuel, IfElse(t, f), c, e.world, |under|).Timeout?
    ensures Goes(e, s, n, Pace(e.world.words), Nest(IfElse(t, f)), fuel)
    decreases fuel, IfElse(t, f), 0
  {
    hide At, Run, Image, Eval, Emitted, Size, Holds, Goes, Pace;
    IfElseEval(fuel, t, f, c, e.world, |under|);
    IfElseForm(t, f, e.rom, e.l, h);
    RangeOf(e);
    var mid := h + 3 + Size(t);
    SimCBranch(e, s, h, c.ps, under + c.rs, c.mem, mid + 3);
    var d := Put(c, 1, []);
    assert d.ps == Init(c.ps);
    var k, at := if Top(c, 0) != 0 then t else f, if Top(c, 0) != 0 then h + 3 else mid + 3;
    var n2 := Diverge(fuel, k, d, e, under, Run(3, s), at);
    AtLeast(3, 0, Pace(e.world.words));
    GoesOn(e, s, 3, n2, Pace(e.world.words), Nest(k), fuel, Nest(IfElse(t, f)), fuel);
    n := 3 + n2;
  }

  /** A body that runs out of fuel, or that is run once more behind m instructions. */
  lemma LoopBody(e: Env, s: State, n: nat, pace: nat, b: Code, k: Code, branch: word, fuel: nat)
    requires LoopCode(k, b, branch, e.l) && fuel > 0 && Goes(e, s, n, pace, Nest(b), fuel - 1)
    ensures Goes(e, s, n, pace, Nest(k), fuel)
  {
    hide Holds, Fetches, Run;
  }

  lemma LoopAgain(e: Env, s: State, m: nat, n: nat, pace: nat, k: Code, fuel: nat)
    requires fuel > 0 && m > 0 && pace >= 2 && Holds(e, m, s) && Goes(e, Run(m, s), n, pace, Nest(k), fuel - 1)
    ensures Goes(e, s, m + n, pace, Nest(k), fuel)
  {
    hide Goes, Holds, Run, Nest;
    AtLeast(m, 1, pace);
    GoesOn(e, s, m, n, pace, Nest(k), fuel - 1, Nest(k), fuel);
  }

  lemma {:induction false} DivUntil(fuel: nat, b: Code, c: Cfg, e: Env, under: seq<word>, s: State, h: nat)
    returns (n: nat)
    requires Image(e) && At(e, s, h, c.ps, under + c.rs, c.mem)
    requires InCode(e, h, Size(Until(b))) && Emitted(e.rom, e.l, h, Until(b))
    requires Eval(fuel, Until(b), c, e.world, |under|).Timeout?
    ensures Goes(e, s, n, Pace(e.world.words), Nest(Until(b)), fuel)
    decreases fuel, Until(b), 0
  {
    hide At, Run, Image, Lands, Eval, Emitted, Size, Holds, Goes, Pace, Nest;
    UntilEval(fuel, b, c, e.world, |under|);
    LoopForm(Until(b), b, e.l.cbr, e.rom, e.l, h);
    RangeOf(e);
    var pace := Pace(e.world.words);
    if fuel == 0 {
      n := 0;
      GoesStart(e, s, h, c.ps, under + c.rs, c.mem, pace, Nest(Until(b)), 0);
    } else {
      var r := Eval(fuel - 1, b, c, e.world, |under|);
      if r.Done? {
        var m := Simulate(fuel - 1, b, c, e, under, s, h);
        LandsDone(e, Run(m, s), h + Size(b), under, r.c);
        SimCBranch(e, Run(m, s), h + Size(b), r.c.ps, under + r.c.rs, r.c.mem, h);
        Then(e, m, 3, s);
        var d := Put(r.c, 1, []);
        assert d.ps == Init(r.c.ps);
        var n2 := Diverge(fuel - 1, Until(b), d, e, under, Run(m + 3, s), h);
        LoopAgain(e, s, m + 3, n2, pace, Until(b), fuel);
        n := m + 3 + n2;
      } else {
        n := Diverge(fuel - 1, b, c, e, under, s, h);
        LoopBody(e, s, n, pace, b, Until(b), e.l.cbr, fuel);
      }
    }
  }

  lemma {:induction false} DivAgain(fuel: nat, b: Code, c: Cfg, e: Env, under: seq<word>, s: State, h: nat)
    returns (n: nat)
    requires Image(e) && At(e, s, h, c.ps, under + c.rs, c.mem)
    requires InCode(e, h, Size(Again(b))) && Emitted(e.rom, e.l, h, Again(b))
    requires Eval(fuel, Again(b), c, e.world, |under|).Timeout?
    ensures Goes(e, s, n, Pace(e.world.words), Nest(Again(b)), fuel)
    decreases fuel, Again(b), 0
  {
    hide At, Run, Image, Lands, Eval, Emitted, Size, Holds, Goes, Pace, Nest;
    AgainEval(fuel, b, c, e.world, |under|);
    LoopForm(Again(b), b, e.l.br, e.rom, e.l, h);
    RangeOf(e);
    var pace := Pace(e.world.words);
    if fuel == 0 {
      n := 0;
      GoesStart(e, s, h, c.ps, under + c.rs, c.mem, pace, Nest(Again(b)), 0);
    } else {
      var r := Eval(fuel - 1, b, c, e.world, |under|);
      if r.Done? {
        var m := Simulate(fuel - 1, b, c, e, under, s, h);
        LandsDone(e, Run(m, s), h + Size(b), under, r.c);
        SimBranch(e, Run(m, s), h + Size(b), r.c.ps, under + r.c.rs, r.c.mem, h);
        Then(e, m, 3, s);
        var n2 := Diverge(fuel - 1, Again(b), r.c, e, under, Run(m + 3, s), h);
        LoopAgain(e, s, m + 3, n2, pace, Again(b), fuel);
        n := m + 3 + n2;
      } else {
        n := Diverge(fuel - 1, b, c, e, under, s, h);
        LoopBody(e, s, n, pace, b, Again(b), e.l.br, fuel);
      }
    }
  }

  lemma {:induction false} DivNext(fuel: nat, b: Code, c: Cfg, e: Env, under: seq<word>, s: State, h: nat)
    returns (n: nat)
    requires Image(e) && At(e, s, h, c.ps, under + c.rs, c.mem)
    requires InCode(e, h, Size(Code.Next(b))) && Emitted(e.rom, e.l, h, Code.Next(b))
    requires Eval(fuel, Code.Next(b), c, e.world, |under|).Timeout?
    ensures Goes(e, s, n, Pace(e.world.words), Nest(Code.Next(b)), fuel)
    decreases fuel, Code.Next(b), 0
  {
    hide At, Run, Image, Lands, Eval, Emitted, Size, Holds, Goes, Pace, Nest;
    NextEval(fuel, b, c, e.world, |under|);
    LoopForm(Code.Next(b), b, e.l.nxt, e.rom, e.l, h);
    RangeOf(e);
    var pace := Pace(e.world.words);
    if fuel == 0 {
      n := 0;
      GoesStart(e, s, h, c.ps, under + c.rs, c.mem, pace, Nest(Code.Next(b)), 0);
    } else {
      var r := Eval(fuel - 1, b, c, e.world, |under|);
      if r.Done? {
        var m := Simulate(fuel - 1, b, c, e, under, s, h);
        LandsDone(e, Run(m, s), h + Size(b), under, r.c);
        var rs := under + r.c.rs;
        assert Last(rs) == Last(r.c.rs) && Init(rs) == under + Init(r.c.rs);
        SimNext(e, Run(m, s), h + Size(b), r.c.ps, rs, r.c.mem, h);
        Then(e, m, 3, s);
        assert Init(rs) + [Dec(Last(rs))] == under + Recount(r.c).rs;
        var n2 := Diverge(fuel - 1, Code.Next(b), Recount(r.c), e, under, Run(m + 3, s), h);
        LoopAgain(e, s, m + 3, n2, pace, Code.Next(b), fuel);
        n := m + 3 + n2;
      } else {
        n := Diverge(fuel - 1, b, c, e, under, s, h);
        LoopBody(e, s, n, pace, b, Code.Next(b), e.l.nxt, fuel);
      }
    }
  }

  // ----- every moment of an endless run -----

  /** The meaning of the program never answers, whatever the fuel. */
  ghost predicate Endless(k: Code, c: Cfg, e: World, depth: nat) {
    forall fuel: nat :: Eval(fuel, k, c, e, depth).Timeout?
  }

  /** `BEGIN AGAIN` is such a program. */
  lemma {:induction false} EmptyLoop(fuel: nat, c: Cfg, e: World, depth: nat)
    ensures Eval(fuel, Again(Skip), c, e, depth).Timeout?
    decreases fuel
  {
    AgainEval(fuel, Skip, c, e, depth);
    if fuel > 0 { EmptyLoop(fuel - 1, c, e, depth); }
  }

  /** Some cell is fetched after n instructions or later. */
  ghost predicate FetchesLater(e: Env, s: State, n: nat) {
    exists m: nat :: n <= m && Fetches(e, s, m)
  }

  /** A program whose meaning never answers keeps the machine running for ever: at every
      moment it is inside C with its two stacks and its code as they should be, and after
      every moment it fetches yet another cell. */
  lemma RunsForEver(k: Code, c: Cfg, e: Env, under: seq<word>, s: State, h: nat)
    requires Image(e) && At(e, s, h, c.ps, under + c.rs, c.mem)
    requires InCode(e, h, Size(k)) && Emitted(e.rom, e.l, h, k)
    requires Endless(k, c, e.world, |under|)
    ensures forall n: nat :: Held(e, Run(n, s)) && FetchesLater(e, s, n)
  {
    hide At, Run, Image, Eval, Emitted, Size, Held, Fetches, Pace, Nest;
    var pace := Pace(e.world.words);
    forall n: nat ensures Held(e, Run(n, s)) && FetchesLater(e, s, n) {
      var fuel := n * pace + Nest(k);
      assert Eval(fuel, k, c, e.world, |under|).Timeout?;
      var m := Diverge(fuel, k, c, e, under, s, h);
      Enough(n, m, pace);
    }
  }

  lemma Enough(n: nat, m: nat, pace: nat)
    requires pace > 0
    ensures n * pace <= m * pace ==> n <= m
  {
    if m < n { assert m * pace < n * pace; }
  }
}
