/** What `n >R BEGIN body NEXT` does, on the source side: the number of passes, and the
    effect of LEAVE. */
module Loops {
  import opened Words
  import opened VmSpec
  import opened Forth

  /** A loop counter as a cell: 65536 passes count from zero. */
  function Counter(n: nat): word {
    W(n)
  }

  function Counting(c: Cfg, n: nat): Cfg {
    c.(rs := c.rs + [Counter(n)])
  }

  /** k passes of the body, the i-th with counter n - i + 1 on the return stack, each of
      which hands the counter back unchanged. The result is without the counter. */
  function Passes(fuel: nat, b: Code, c: Cfg, e: World, depth: nat, n: nat, k: nat): Out
    requires k <= n
    decreases k
  {
    if k == 0 then Done(c)
    else
      var r := Eval(fuel, b, Counting(c, n), e, depth);
      if !r.Done? then r
      else if r.c.rs != Counting(c, n).rs then Stuck
      else Passes(fuel, b, r.c.(rs := c.rs), e, depth, n - 1, k - 1)
  }

  /** A loop makes k plain passes and then one that hands back the counter one: that pass
      is the last, and the loop ends with the counter dropped. */
  lemma {:induction false} LoopStops(fuel: nat, b: Code, c: Cfg, e: World, depth: nat, n: nat, k: nat)
    requires k < n <= 0x1_0000
    requires Passes(fuel, b, c, e, depth, n, k).Done?
    requires var d := Passes(fuel, b, c, e, depth, n, k).c;
             var r := Eval(fuel, b, Counting(d, n - k), e, depth);
             r.Done? && r.c.rs == c.rs + [1]
    ensures var d := Passes(fuel, b, c, e, depth, n, k).c;
            var r := Eval(fuel, b, Counting(d, n - k), e, depth);
            Eval(fuel + k + 1, Next(b), Counting(c, n), e, depth) == Done(r.c.(rs := c.rs))
    decreases k
  {
    hide Eval;
    NextEval(fuel + k + 1, b, Counting(c, n), e, depth);
    if k == 0 {
    } else {
      var r := Eval(fuel, b, Counting(c, n), e, depth);
      EvalMoreFuel(fuel, k, b, Counting(c, n), e, depth);
      assert Last(r.c.rs) == Counter(n) && Init(r.c.rs) == c.rs;
      LoopStops(fuel, b, r.c.(rs := c.rs), e, depth, n - 1, k - 1);
      assert Recount(r.c) == Counting(r.c.(rs := c.rs), n - 1);
    }
  }

  /** `n >R BEGIN body NEXT` runs a body that leaves the return stack alone exactly n
      times, and 65536 times when n is zero. */
  lemma CountedLoop(fuel: nat, b: Code, c: Cfg, e: World, depth: nat, n: word)
    requires c.ps != [] && Top(c, 0) == n && !Deep(c, depth, 0)
    requires Passes(fuel, b, Put(c, 1, []), e, depth, Times(n), Times(n)).Done?
    ensures Eval(fuel + Times(n), Seq(Prim(TOR), Next(b)), c, e, depth)
              == Passes(fuel, b, Put(c, 1, []), e, depth, Times(n), Times(n))
  {
    hide Eval, EvalPrim, Passes, Put, Top, Deep, Counting;
    var k, d := Times(n), Put(c, 1, []);
    StartCounting(c, e, depth, n, k);
    SeqEval(fuel + k, Prim(TOR), Next(b), c, e, depth);
    PrimEval(fuel + k, TOR, c, e, depth);
    CountedPasses(fuel, b, d, e, depth, k);
  }

  lemma CountedPasses(fuel: nat, b: Code, c: Cfg, e: World, depth: nat, n: nat)
    requires 0 < n <= 0x1_0000 && Passes(fuel, b, c, e, depth, n, n).Done?
    ensures Eval(fuel + n, Next(b), Counting(c, n), e, depth) == Passes(fuel, b, c, e, depth, n, n)
  {
    hide Eval, Passes;
    LastPass(fuel, b, c, e, depth, n, n);
    LoopStops(fuel, b, c, e, depth, n, n - 1);
  }

  lemma StartCounting(c: Cfg, e: World, depth: nat, n: word, passes: nat)
    requires c.ps != [] && Top(c, 0) == n && !Deep(c, depth, 0)
    requires passes == Times(n)
    ensures EvalPrim(TOR, c, e, depth) == Some(Counting(Put(c, 1, []), passes))
  {
  }

  lemma PrimEval(fuel: nat, p: Prim, c: Cfg, e: World, depth: nat)
    ensures Eval(fuel, Prim(p), c, e, depth) ==
            match EvalPrim(p, c, e, depth) { case None => Stuck case Some(r) => Done(r) }
  {
    hide EvalPrim;
  }

  /** The last of k passes starts from what the first k - 1 leave. */
  lemma {:induction false} LastPass(fuel: nat, b: Code, c: Cfg, e: World, depth: nat, n: nat, k: nat)
    requires 0 < k <= n && Passes(fuel, b, c, e, depth, n, k).Done?
    ensures var p := Passes(fuel, b, c, e, depth, n, k - 1);
            && p.Done? && p.c.rs == c.rs
            && var r := Eval(fuel, b, Counting(p.c, n - k + 1), e, depth);
               && r.Done? && r.c.rs == c.rs + [Counter(n - k + 1)]
               && Passes(fuel, b, c, e, depth, n, k) == Done(r.c.(rs := c.rs))
    decreases k
  {
    hide Eval;
    if k > 1 {
      var r := Eval(fuel, b, Counting(c, n), e, depth);
      LastPass(fuel, b, r.c.(rs := c.rs), e, depth, n - 1, k - 1);
    }
  }

  /** LEAVE makes the current pass the last: a loop whose body runs b, then LEAVE when b
      left a true flag, stops after the first pass in which the flag was set, whatever
      the counter still was. */
  lemma LeaveEndsLoop(fuel: nat, b: Code, c: Cfg, e: World, depth: nat, n: nat, k: nat)
    requires k < n <= 0x1_0000
    requires var body := Seq(b, If(Leave));
             var p := Passes(fuel, body, c, e, depth, n, k);
             && p.Done? && p.c.rs == c.rs
             && var r := Eval(fuel, b, Counting(p.c, n - k), e, depth);
                && r.Done? && r.c.rs == c.rs + [Counter(n - k)] && r.c.ps != [] && Top(r.c, 0) != 0
                && !Deep(Put(r.c, 1, []), depth, 2)
    ensures var body := Seq(b, If(Leave));
            var p := Passes(fuel, body, c, e, depth, n, k);
            var r := Eval(fuel, b, Counting(p.c, n - k), e, depth);
            Eval(fuel + k + 1, Next(body), Counting(c, n), e, depth) == Done(Put(r.c, 1, []).(rs := c.rs))
  {
    hide Eval, Passes;
    var body := Seq(b, If(Leave));
    var p := Passes(fuel, body, c, e, depth, n, k);
    var r := Eval(fuel, b, Counting(p.c, n - k), e, depth);
    var q := Put(r.c, 1, []);
    SeqEval(fuel, b, If(Leave), Counting(p.c, n - k), e, depth);
    IfEval(fuel, Leave, r.c, e, depth);
    LeaveEval(fuel, q, e, depth);
    assert Init(q.rs) + [1] == c.rs + [1];
    LoopStops(fuel, body, c, e, depth, n, k);
  }

  lemma LeaveEval(fuel: nat, c: Cfg, e: World, depth: nat)
    requires c.rs != [] && !Deep(c, depth, 2)
    ensures Eval(fuel, Leave, c, e, depth) == Done(c.(rs := Init(c.rs) + [1]))
  {
  }
}
