/** The structured part of the Forth that blk.fs compiles, with a meaning of its own
    on two stacks and a memory, and the shape that compiled code has in memory. */
module Forth {
  import opened Words
  import opened VmSpec

  /** Native words whose only effect is on the stacks and on memory. */
  datatype Prim =
    | DUP | DROP | SWAP | OVER | ROT | QDUP
    | PLUS | MINUS | TIMES | DIVMOD | AND | OR | XOR | NOT | LESS
    | TOR | FROMR | RFETCH | RDROP
    | FETCH | CFETCH | STORE | CSTORE | SCNT | RCNT

  /** Opcode numbers given to those words by cvm/cvm.fs. */
  function Opcode(p: Prim): byte {
    match p
    case DUP => 0 case DROP => 1 case SWAP => 4 case OVER => 5 case ROT => 6 case QDUP => 14
    case PLUS => 28 case MINUS => 29 case TIMES => 53 case DIVMOD => 54
    case AND => 39 case OR => 40 case XOR => 41 case NOT => 38 case LESS => 33
    case TOR => 62 case FROMR => 61 case RFETCH => 60 case RDROP => 26
    case FETCH => 64 case CFETCH => 63 case STORE => 65 case CSTORE => 66
    case SCNT => 58 case RCNT => 57
  }

  datatype Code =
    | Skip
    | Seq(first: Code, second: Code)
    | Lit(n: word)
    | Prim(p: Prim)
    | Call(i: nat)
    | Exit
    | Leave
    | If(thn: Code)
    | IfElse(thn: Code, els: Code)
    | Until(body: Code)
    | Again(body: Code)
    | Next(body: Code)

  // ----- meaning -----

  /** Parameter stack, return stack of the running word (tops last), memory below RS_ADDR. */
  datatype Cfg = Cfg(ps: seq<word>, rs: seq<word>, mem: Mem)

  /** Done: ran to its end. Exited: left the word through EXIT. Stuck: underflow, too deep,
      or an access the machine gives no meaning to. Timeout: fuel ran out. */
  datatype Out = Done(c: Cfg) | Exited(c: Cfg) | Stuck | Timeout

  /** Cells that the two stacks can hold together before they meet. */
  const CAP: nat := 124

  /** Where programs may not store, and the bodies that calls run. */
  datatype World = World(lo: nat, hi: nat, words: seq<Code>)

  predicate Writable(e: World, a: word, n: nat) {
    a + n <= RS_ADDR && (a + n <= e.lo || e.hi <= a)
  }

  function Last<T>(s: seq<T>): T requires |s| > 0 { s[|s| - 1] }
  function Init<T>(s: seq<T>): seq<T> requires |s| > 0 { s[..|s| - 1] }

  function Top(c: Cfg, i: nat): word
    requires i < |c.ps|
  {
    c.ps[|c.ps| - 1 - i]
  }

  /** Replace the k topmost parameters. */
  function Put(c: Cfg, k: nat, new_: seq<word>): Cfg
    requires k <= |c.ps|
  {
    c.(ps := c.ps[..|c.ps| - k] + new_)
  }

  function Arity(p: Prim): nat {
    match p
    case RFETCH | FROMR | RDROP | SCNT | RCNT => 0
    case DUP | DROP | QDUP | NOT | TOR | FETCH | CFETCH => 1
    case ROT => 3
    case _ => 2
  }

  predicate NeedsFrame(p: Prim) {
    p == FROMR || p == RFETCH || p == RDROP
  }

  predicate IsAlu(p: Prim) {
    p.PLUS? || p.MINUS? || p.TIMES? || p.AND? || p.OR? || p.XOR? || p.LESS?
  }

  /** Value left by a two-operand word; b was on top. */
  function Alu(p: Prim, a: word, b: word): word
    requires IsAlu(p)
  {
    match p
    case PLUS => Add16(a, b)
    case MINUS => Sub16(a, b)
    case TIMES => Mul16(a, b)
    case AND => And16(a, b)
    case OR => Or16(a, b)
    case XOR => Xor16(a, b)
    case LESS => Less16(a, b)
  }

  /** Effect of a native word, before the depth check. */
  function PrimEffect(p: Prim, c: Cfg, e: World, depth: nat): Option<Cfg>
    requires Arity(p) <= |c.ps|
    requires NeedsFrame(p) ==> c.rs != []
    requires |c.ps| + |c.rs| + depth <= CAP
  {
    if IsAlu(p) then Some(Put(c, 2, [Alu(p, Top(c, 1), Top(c, 0))]))
    else
    match p
    case DUP => Some(Put(c, 0, [Top(c, 0)]))
    case DROP => Some(Put(c, 1, []))
    case SWAP => Some(Put(c, 2, [Top(c, 0), Top(c, 1)]))
    case OVER => Some(Put(c, 0, [Top(c, 1)]))
    case ROT => Some(Put(c, 3, [Top(c, 1), Top(c, 0), Top(c, 2)]))
    case QDUP => Some(if Top(c, 0) != 0 then Put(c, 0, [Top(c, 0)]) else c)
    case DIVMOD =>
      if Top(c, 0) == 0 then None
      else Some(Put(c, 2, [Mod(Top(c, 1), Top(c, 0)), Div(Top(c, 1), Top(c, 0))]))
    case NOT => Some(Put(c, 1, [if Top(c, 0) != 0 then 0 else 1]))
    case TOR => Some(Put(c, 1, []).(rs := c.rs + [Top(c, 0)]))
    case FROMR => Some(Put(c, 0, [Last(c.rs)]).(rs := Init(c.rs)))
    case RFETCH => Some(Put(c, 0, [Last(c.rs)]))
    case RDROP => Some(c.(rs := Init(c.rs)))
    case FETCH =>
      if Top(c, 0) + 2 <= RS_ADDR then Some(Put(c, 1, [WordAt(c.mem, Top(c, 0))])) else None
    case CFETCH =>
      if Top(c, 0) < RS_ADDR then Some(Put(c, 1, [c.mem[Top(c, 0)]])) else None
    case STORE =>
      if Writable(e, Top(c, 0), 2) then
        Some(Put(c, 2, []).(mem := SetWord(c.mem, Top(c, 0), Top(c, 1))))
      else None
    case CSTORE =>
      if Writable(e, Top(c, 0), 1) then
        Some(Put(c, 2, []).(mem := c.mem[Top(c, 0) := B(Top(c, 1))]))
      else None
    case SCNT => Some(Put(c, 0, [|c.ps|]))
    case RCNT => Some(Put(c, 0, [depth + |c.rs|]))
  }

  predicate Deep(c: Cfg, depth: nat, more: nat) {
    |c.ps| + |c.rs| + depth + more > CAP
  }

  function EvalPrim(p: Prim, c: Cfg, e: World, depth: nat): Option<Cfg> {
    if Deep(c, depth, 0) || Arity(p) > |c.ps| || (NeedsFrame(p) && c.rs == []) then None
    else
      match PrimEffect(p, c, e, depth)
      case None => None
      case Some(r) => if Deep(r, depth, 0) then None else Some(r)
  }

  /** NEXT counts down the top of the return stack. */
  function Recount(c: Cfg): Cfg
    requires c.rs != []
  {
    c.(rs := Init(c.rs) + [Dec(Last(c.rs))])
  }

  /** Big-step meaning of a word's code. `depth` return-stack cells lie under the frame. */
  function Eval(fuel: nat, k: Code, c: Cfg, e: World, depth: nat): Out
    decreases fuel, k
  {
    match k
    case Skip => Done(c)
    case Seq(a, b) =>
      var r := Eval(fuel, a, c, e, depth);
      if r.Done? then Eval(fuel, b, r.c, e, depth) else r
    case Lit(n) => if Deep(c, depth, 1) then Stuck else Done(Put(c, 0, [n]))
    case Prim(p) =>
      (match EvalPrim(p, c, e, depth)
       case None => Stuck
       case Some(r) => Done(r))
    case Call(i) =>
      if i >= |e.words| || Deep(c, depth, 2) then Stuck
      else if fuel == 0 then Timeout
      else
        var r := Eval(fuel - 1, e.words[i], c.(rs := []), e, depth + |c.rs| + 1);
        (match r
         case Done(d) => if d.rs == [] then Done(d.(rs := c.rs)) else Stuck
         case Exited(d) => Done(d.(rs := c.rs))
         case _ => r)
    case Exit => if c.rs == [] && depth > 0 then Exited(c) else Stuck
    case Leave =>
      if c.rs == [] || Deep(c, depth, 2) then Stuck
      else Done(c.(rs := Init(c.rs) + [1]))
    case If(t) =>
      if c.ps == [] then Stuck
      else if Top(c, 0) != 0 then Eval(fuel, t, Put(c, 1, []), e, depth)
      else Done(Put(c, 1, []))
    case IfElse(t, f) =>
      if c.ps == [] then Stuck
      else Eval(fuel, if Top(c, 0) != 0 then t else f, Put(c, 1, []), e, depth)
    case Until(b) =>
      if fuel == 0 then Timeout
      else
        var r := Eval(fuel - 1, b, c, e, depth);
        if !r.Done? then r
        else if r.c.ps == [] then Stuck
        else if Top(r.c, 0) != 0 then Done(Put(r.c, 1, []))
        else Eval(fuel - 1, k, Put(r.c, 1, []), e, depth)
    case Again(b) =>
      if fuel == 0 then Timeout
      else
        var r := Eval(fuel - 1, b, c, e, depth);
        if !r.Done? then r else Eval(fuel - 1, k, r.c, e, depth)
    case Next(b) =>
      if fuel == 0 then Timeout
      else
        var r := Eval(fuel - 1, b, c, e, depth);
        if !r.Done? then r
        else if r.c.rs == [] then Stuck
        else if Last(r.c.rs) == 1 then Done(r.c.(rs := Init(r.c.rs)))
        else Eval(fuel - 1, k, Recount(r.c), e, depth)
  }

  /** More fuel never changes an answer. */
  lemma {:induction false} EvalMoreFuel(fuel: nat, more: nat, k: Code, c: Cfg, e: World, depth: nat)
    requires !Eval(fuel, k, c, e, depth).Timeout?
    ensures Eval(fuel + more, k, c, e, depth) == Eval(fuel, k, c, e, depth)
    decreases fuel, k
  {
    hide Eval, EvalPrim, Put, Top, Recount, Deep;
    match k
    case Seq(a, b) =>
      SeqEval(fuel, a, b, c, e, depth);
      SeqEval(fuel + more, a, b, c, e, depth);
      EvalMoreFuel(fuel, more, a, c, e, depth);
      var r := Eval(fuel, a, c, e, depth);
      if r.Done? { EvalMoreFuel(fuel, more, b, r.c, e, depth); }
    case Call(i) =>
      CallRefused(fuel, i, c, e, depth);
      CallRefused(fuel + more, i, c, e, depth);
      if i < |e.words| && !Deep(c, depth, 2) {
        CallEval(fuel, i, c, e, depth);
        CallEval(fuel + more, i, c, e, depth);
        EvalMoreFuel(fuel - 1, more, e.words[i], c.(rs := []), e, depth + |c.rs| + 1);
      }
    case If(t) =>
      IfEval(fuel, t, c, e, depth);
      IfEval(fuel + more, t, c, e, depth);
      if c.ps != [] && Top(c, 0) != 0 { EvalMoreFuel(fuel, more, t, Put(c, 1, []), e, depth); }
    case IfElse(t, f) =>
      IfElseEval(fuel, t, f, c, e, depth);
      IfElseEval(fuel + more, t, f, c, e, depth);
      if c.ps != [] {
        EvalMoreFuel(fuel, more, if Top(c, 0) != 0 then t else f, Put(c, 1, []), e, depth);
      }
    case Until(b) =>
      UntilEval(fuel, b, c, e, depth);
      UntilEval(fuel + more, b, c, e, depth);
      EvalMoreFuel(fuel - 1, more, b, c, e, depth);
      var r := Eval(fuel - 1, b, c, e, depth);
      if r.Done? && r.c.ps != [] && Top(r.c, 0) == 0 {
        EvalMoreFuel(fuel - 1, more, k, Put(r.c, 1, []), e, depth);
      }
    case Again(b) =>
      AgainEval(fuel, b, c, e, depth);
      AgainEval(fuel + more, b, c, e, depth);
      EvalMoreFuel(fuel - 1, more, b, c, e, depth);
      var r := Eval(fuel - 1, b, c, e, depth);
      if r.Done? { EvalMoreFuel(fuel - 1, more, k, r.c, e, depth); }
    case Next(b) =>
      NextEval(fuel, b, c, e, depth);
      NextEval(fuel + more, b, c, e, depth);
      EvalMoreFuel(fuel - 1, more, b, c, e, depth);
      var r := Eval(fuel - 1, b, c, e, depth);
      if r.Done? && r.c.rs != [] && Last(r.c.rs) != 1 {
        EvalMoreFuel(fuel - 1, more, k, Recount(r.c), e, depth);
      }
    case _ => LeafEval(fuel, more, k, c, e, depth);
  }

  predicate SameCode(e: World, m: Mem, n: Mem) {
    forall a: word :: e.lo <= a < e.hi ==> m[a] == n[a]
  }

  lemma PrimKeepsCode(p: Prim, c: Cfg, e: World, depth: nat)
    ensures var r := EvalPrim(p, c, e, depth); r.Some? ==> SameCode(e, c.mem, r.value.mem)
  {
  }

  // ----- shape of compiled code -----

  /** Addresses of the routines and words that compiled code refers to. */
  datatype Labels = Labels(
    next: word, xt: word, br: word, cbr: word, nxt: word, lit8: word, lit16: word,
    exit: word, leave: word, prim: Prim -> word, words: seq<word>)

  /** Bytes that the compiled form takes. */
  function Size(k: Code): nat {
    match k
    case Skip => 0
    case Seq(a, b) => Size(a) + Size(b)
    case Lit(n) => if n < 0x100 then 3 else 4
    case Prim(_) | Call(_) | Exit | Leave => 2
    case If(t) => 3 + Size(t)
    case IfElse(t, f) => 6 + Size(t) + Size(f)
    case Until(b) => Size(b) + 3
    case Again(b) => Size(b) + 3
    case Next(b) => Size(b) + 3
  }

  predicate CellAt(m: Mem, a: nat, w: word) {
    a < 0xffff && WordAt(m, a) == w
  }

  /** The signed byte at a leads from a to target. */
  predicate BranchAt(m: Mem, a: nat, target: int) {
    a < MEMSIZE && a + SignExt(m[a]) == target
  }

  /** Memory holds the compiled form of k at h. */
  predicate Emitted(m: Mem, l: Labels, h: nat, k: Code)
    decreases k
  {
    match k
    case Skip => true
    case Seq(a, b) => Emitted(m, l, h, a) && Emitted(m, l, h + Size(a), b)
    case Lit(n) =>
      if n < 0x100 then CellAt(m, h, l.lit8) && h + 2 < MEMSIZE && m[h + 2] == n
      else CellAt(m, h, l.lit16) && CellAt(m, h + 2, n)
    case Prim(p) => CellAt(m, h, l.prim(p))
    case Call(i) => i < |l.words| && CellAt(m, h, l.words[i])
    case Exit => CellAt(m, h, l.exit)
    case Leave => CellAt(m, h, l.leave)
    case If(t) =>
      CellAt(m, h, l.cbr) && BranchAt(m, h + 2, h + 3 + Size(t)) && Emitted(m, l, h + 3, t)
    case IfElse(t, f) =>
      var mid := h + 3 + Size(t);
      && CellAt(m, h, l.cbr) && BranchAt(m, h + 2, mid + 3) && Emitted(m, l, h + 3, t)
      && CellAt(m, mid, l.br) && BranchAt(m, mid + 2, mid + 3 + Size(f)) && Emitted(m, l, mid + 3, f)
    case Until(b) =>
      Emitted(m, l, h, b) && CellAt(m, h + Size(b), l.cbr) && BranchAt(m, h + Size(b) + 2, h)
    case Again(b) =>
      Emitted(m, l, h, b) && CellAt(m, h + Size(b), l.br) && BranchAt(m, h + Size(b) + 2, h)
    case Next(b) =>
      Emitted(m, l, h, b) && CellAt(m, h + Size(b), l.nxt) && BranchAt(m, h + Size(b) + 2, h)
  }

  /** `LEAVE R> R~ 1 >R >R` as the core words define it. */
  const LEAVE_BODY: Code :=
    Seq(Prim(FROMR), Seq(Prim(RDROP), Seq(Lit(1), Seq(Prim(TOR), Prim(TOR)))))

  // ----- one unfolding at a time -----

  lemma SeqEval(fuel: nat, a: Code, b: Code, c: Cfg, e: World, depth: nat)
    ensures var r := Eval(fuel, a, c, e, depth);
            Eval(fuel, Seq(a, b), c, e, depth) == if r.Done? then Eval(fuel, b, r.c, e, depth) else r
  {
    hide EvalPrim, Put, Deep, Recount, Top;
  }

  lemma SeqSize(a: Code, b: Code)
    ensures Size(Seq(a, b)) == Size(a) + Size(b)
  {
  }

  lemma SeqForm(a: Code, b: Code, m: Mem, l: Labels, h: nat)
    ensures Size(Seq(a, b)) == Size(a) + Size(b)
    ensures Emitted(m, l, h, Seq(a, b)) <==> Emitted(m, l, h, a) && Emitted(m, l, h + Size(a), b)
  {
    hide CellAt, BranchAt, Size;
    SeqSize(a, b);
  }

  lemma CallEval(fuel: nat, i: nat, c: Cfg, e: World, depth: nat)
    requires i < |e.words| && !Deep(c, depth, 2) && fuel > 0
    ensures var r := Eval(fuel - 1, e.words[i], c.(rs := []), e, depth + |c.rs| + 1);
            Eval(fuel, Call(i), c, e, depth) ==
            match r {
              case Done(d) => if d.rs == [] then Done(d.(rs := c.rs)) else Stuck
              case Exited(d) => Done(d.(rs := c.rs))
              case _ => r
            }
  {
    hide EvalPrim, Put, Recount, Top;
  }

  /** A call without a word to run, without room or without fuel. */
  lemma CallRefused(fuel: nat, i: nat, c: Cfg, e: World, depth: nat)
    ensures i >= |e.words| || Deep(c, depth, 2) ==> Eval(fuel, Call(i), c, e, depth) == Stuck
    ensures i < |e.words| && !Deep(c, depth, 2) && fuel == 0 ==> Eval(fuel, Call(i), c, e, depth) == Timeout
  {
    hide EvalPrim, Put, Recount, Top;
  }

  /** Code without parts needs no fuel. */
  lemma LeafEval(fuel: nat, more: nat, k: Code, c: Cfg, e: World, depth: nat)
    requires k.Skip? || k.Lit? || k.Prim? || k.Exit? || k.Leave?
    ensures Eval(fuel + more, k, c, e, depth) == Eval(fuel, k, c, e, depth)
  {
    hide EvalPrim, Put, Recount, Top, Deep;
  }

  lemma CallFinishes(fuel: nat, i: nat, c: Cfg, e: World, depth: nat)
    requires var r := Eval(fuel, Call(i), c, e, depth); r.Done? || r.Exited?
    ensures i < |e.words| && !Deep(c, depth, 2) && fuel > 0
  {
    hide EvalPrim, Put, Recount, Top;
  }

  lemma CallForm(i: nat, m: Mem, l: Labels, h: nat)
    ensures Size(Call(i)) == 2
    ensures Emitted(m, l, h, Call(i)) <==> i < |l.words| && CellAt(m, h, l.words[i])
  {
    hide CellAt, BranchAt;
  }

  lemma IfEval(fuel: nat, t: Code, c: Cfg, e: World, depth: nat)
    ensures Eval(fuel, If(t), c, e, depth) ==
            if c.ps == [] then Stuck
            else if Top(c, 0) != 0 then Eval(fuel, t, Put(c, 1, []), e, depth) else Done(Put(c, 1, []))
  {
    hide EvalPrim, Put, Deep, Recount, Top;
  }

  lemma IfSize(t: Code)
    ensures Size(If(t)) == 3 + Size(t)
  {
  }

  lemma IfForm(t: Code, m: Mem, l: Labels, h: nat)
    ensures Size(If(t)) == 3 + Size(t)
    ensures Emitted(m, l, h, If(t)) <==>
            CellAt(m, h, l.cbr) && BranchAt(m, h + 2, h + 3 + Size(t)) && Emitted(m, l, h + 3, t)
  {
    hide CellAt, BranchAt, Size;
    IfSize(t);
  }

  lemma IfElseEval(fuel: nat, t: Code, f: Code, c: Cfg, e: World, depth: nat)
    ensures Eval(fuel, IfElse(t, f), c, e, depth) ==
            if c.ps == [] then Stuck
            else Eval(fuel, if Top(c, 0) != 0 then t else f, Put(c, 1, []), e, depth)
  {
    hide EvalPrim, Put, Deep, Recount, Top;
  }

  lemma IfElseSize(t: Code, f: Code)
    ensures Size(IfElse(t, f)) == 6 + Size(t) + Size(f)
  {
  }

  lemma IfElseForm(t: Code, f: Code, m: Mem, l: Labels, h: nat)
    ensures Size(IfElse(t, f)) == 6 + Size(t) + Size(f)
    ensures var mid := h + 3 + Size(t);
            Emitted(m, l, h, IfElse(t, f)) <==>
            && CellAt(m, h, l.cbr) && BranchAt(m, h + 2, mid + 3) && Emitted(m, l, h + 3, t)
            && CellAt(m, mid, l.br) && BranchAt(m, mid + 2, mid + 3 + Size(f)) && Emitted(m, l, mid + 3, f)
  {
    hide CellAt, BranchAt, Size;
    IfElseSize(t, f);
  }

  lemma UntilEval(fuel: nat, b: Code, c: Cfg, e: World, depth: nat)
    ensures fuel == 0 ==> Eval(fuel, Until(b), c, e, depth) == Timeout
    ensures fuel > 0 ==>
            var r := Eval(fuel - 1, b, c, e, depth);
            Eval(fuel, Until(b), c, e, depth) ==
            if !r.Done? then r
            else if r.c.ps == [] then Stuck
            else if Top(r.c, 0) != 0 then Done(Put(r.c, 1, []))
            else Eval(fuel - 1, Until(b), Put(r.c, 1, []), e, depth)
  {
    hide EvalPrim, Put, Deep, Recount, Top;
  }

  lemma AgainEval(fuel: nat, b: Code, c: Cfg, e: World, depth: nat)
    ensures fuel == 0 ==> Eval(fuel, Again(b), c, e, depth) == Timeout
    ensures fuel > 0 ==>
            var r := Eval(fuel - 1, b, c, e, depth);
            Eval(fuel, Again(b), c, e, depth) == if !r.Done? then r else Eval(fuel - 1, Again(b), r.c, e, depth)
  {
    hide EvalPrim, Put, Deep, Recount, Top;
  }

  lemma NextEval(fuel: nat, b: Code, c: Cfg, e: World, depth: nat)
    ensures fuel == 0 ==> Eval(fuel, Next(b), c, e, depth) == Timeout
    ensures fuel > 0 ==>
            var r := Eval(fuel - 1, b, c, e, depth);
            Eval(fuel, Next(b), c, e, depth) ==
            if !r.Done? then r
            else if r.c.rs == [] then Stuck
            else if Last(r.c.rs) == 1 then Done(r.c.(rs := Init(r.c.rs)))
            else Eval(fuel - 1, Next(b), Recount(r.c), e, depth)
  {
    hide EvalPrim, Put, Deep, Recount, Top;
  }

  /** k is a loop around b that ends in this branch word. */
  predicate LoopCode(k: Code, b: Code, branch: word, l: Labels) {
    || (k == Until(b) && branch == l.cbr)
    || (k == Again(b) && branch == l.br)
    || (k == Next(b) && branch == l.nxt)
  }

  lemma UntilSize(b: Code)
    ensures Size(Until(b)) == Size(b) + 3
  {
  }

  lemma UntilForm(b: Code, m: Mem, l: Labels, h: nat)
    ensures Size(Until(b)) == Size(b) + 3
    ensures Emitted(m, l, h, Until(b)) <==>
            Emitted(m, l, h, b) && CellAt(m, h + Size(b), l.cbr) && BranchAt(m, h + Size(b) + 2, h)
  {
    hide CellAt, BranchAt, Size;
    UntilSize(b);
  }

  lemma AgainSize(b: Code)
    ensures Size(Again(b)) == Size(b) + 3
  {
  }

  lemma AgainForm(b: Code, m: Mem, l: Labels, h: nat)
    ensures Size(Again(b)) == Size(b) + 3
    ensures Emitted(m, l, h, Again(b)) <==>
            Emitted(m, l, h, b) && CellAt(m, h + Size(b), l.br) && BranchAt(m, h + Size(b) + 2, h)
  {
    hide CellAt, BranchAt, Size;
    AgainSize(b);
  }

  lemma NextSize(b: Code)
    ensures Size(Next(b)) == Size(b) + 3
  {
  }

  lemma NextForm(b: Code, m: Mem, l: Labels, h: nat)
    ensures Size(Next(b)) == Size(b) + 3
    ensures Emitted(m, l, h, Next(b)) <==>
            Emitted(m, l, h, b) && CellAt(m, h + Size(b), l.nxt) && BranchAt(m, h + Size(b) + 2, h)
  {
    hide CellAt, BranchAt, Size;
    NextSize(b);
  }

  lemma LoopForm(k: Code, b: Code, branch: word, m: Mem, l: Labels, h: nat)
    requires LoopCode(k, b, branch, l)
    ensures Size(k) == Size(b) + 3
    ensures Emitted(m, l, h, k) <==>
            Emitted(m, l, h, b) && CellAt(m, h + Size(b), branch) && BranchAt(m, h + Size(b) + 2, h)
  {
    hide CellAt, BranchAt, Emitted, Size;
    match k
    case Until(_) => UntilForm(b, m, l, h);
    case Again(_) => AgainForm(b, m, l, h);
    case Next(_) => NextForm(b, m, l, h);
  }
}
