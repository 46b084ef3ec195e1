/** The compiling words of blk.fs as functions: each appends cells or bytes at HERE,
    and the control-flow words patch the branch bytes that they left open. */
module CompilerSpec {
  import opened Words
  import opened Forth

  /** Memory, HERE, CURRENT, the data stack that holds open branch addresses, and
      whether compilation goes on (ABORT ends it). */
  datatype CState = CState(mem: Mem, here: word, current: word, ctl: seq<word>, ok: bool)

  function Comma(s: CState, w: word): CState {
    s.(mem := SetWord(s.mem, s.here, w), here := W(s.here + 2))
  }

  function CComma(s: CState, b: byte): CState {
    s.(mem := s.mem[s.here := b], here := W(s.here + 1))
  }

  function Allot(s: CState, n: word): CState {
    s.(here := W(s.here + n))
  }

  /** `_bchk`: a displacement that does not fit a signed byte aborts. */
  predicate BranchOk(off: word) {
    W(off + 0x80) <= 0xff
  }

  function LitN(s: CState, l: Labels, n: word): CState {
    if n / 0x100 != 0 then Comma(Comma(s, l.lit16), n)
    else CComma(Comma(s, l.lit8), n % 0x100)
  }

  function IfWord(s: CState, l: Labels): CState {
    var t := Comma(s, l.cbr);
    Allot(t.(ctl := t.ctl + [t.here]), 1)
  }

  function ThenWord(s: CState): CState {
    if s.ctl == [] then s.(ok := false)
    else
      var a := Last(s.ctl);
      var off := W(s.here - a);
      if BranchOk(off) then s.(mem := s.mem[a := off % 0x100], ctl := Init(s.ctl))
      else s.(ok := false)
  }

  function ElseWord(s: CState, l: Labels): CState {
    var t := ThenWord(Allot(Comma(s, l.br), 1));
    if t.ok then t.(ctl := t.ctl + [W(t.here - 1)]) else t
  }

  function BeginWord(s: CState): CState {
    s.(ctl := s.ctl + [s.here])
  }

  /** UNTIL, AGAIN and NEXT differ only in the branch word. */
  function LoopWord(s: CState, branch: word): CState {
    var t := Comma(s, branch);
    if t.ctl == [] then t.(ok := false)
    else
      var off := W(Last(t.ctl) - t.here);
      if BranchOk(off) then CComma(t.(ctl := Init(t.ctl)), off % 0x100)
      else t.(ok := false)
  }

  /** What XTCOMP meets in its input: numbers, ordinary words, immediate words. */
  datatype Token = TLit(n: word) | TCell(w: word) | TIf | TElse | TThen | TBegin | TUntil | TAgain | TNext

  function CompileToken(t: Token, s: CState, l: Labels): CState {
    match t
    case TLit(n) => LitN(s, l, n)
    case TCell(w) => Comma(s, w)
    case TIf => IfWord(s, l)
    case TElse => ElseWord(s, l)
    case TThen => ThenWord(s)
    case TBegin => BeginWord(s)
    case TUntil => LoopWord(s, l.cbr)
    case TAgain => LoopWord(s, l.br)
    case TNext => LoopWord(s, l.nxt)
  }

  function Compile(ts: seq<Token>, s: CState, l: Labels): CState {
    if ts == [] || !s.ok then s else Compile(ts[1..], CompileToken(ts[0], s, l), l)
  }

  /** A structured program as it is written. */
  function Source(k: Code, l: Labels): seq<Token>
    requires CallsIn(k, |l.words|)
  {
    match k
    case Skip => []
    case Seq(a, b) => Source(a, l) + Source(b, l)
    case Lit(n) => [TLit(n)]
    case Prim(p) => [TCell(l.prim(p))]
    case Call(i) => [TCell(l.words[i])]
    case Exit => [TCell(l.exit)]
    case Leave => [TCell(l.leave)]
    case If(t) => [TIf] + (Source(t, l) + [TThen])
    case IfElse(t, f) => [TIf] + (Source(t, l) + ([TElse] + (Source(f, l) + [TThen])))
    case Until(b) => [TBegin] + (Source(b, l) + [TUntil])
    case Again(b) => [TBegin] + (Source(b, l) + [TAgain])
    case Next(b) => [TBegin] + (Source(b, l) + [TNext])
  }

  /** Every call names one of the first n words. */
  predicate CallsIn(k: Code, n: nat) {
    match k
    case Call(i) => i < n
    case Seq(a, b) => CallsIn(a, n) && CallsIn(b, n)
    case If(t) => CallsIn(t, n)
    case IfElse(t, f) => CallsIn(t, n) && CallsIn(f, n)
    case Until(b) => CallsIn(b, n)
    case Again(b) => CallsIn(b, n)
    case Next(b) => CallsIn(b, n)
    case _ => true
  }

  /** Every branch reaches its target: 127 bytes forward, 128 back. */
  predicate Fits(k: Code) {
    match k
    case Seq(a, b) => Fits(a) && Fits(b)
    case If(t) => Fits(t) && Size(t) + 1 <= 127
    case IfElse(t, f) => Fits(t) && Fits(f) && Size(t) + 4 <= 127 && Size(f) + 1 <= 127
    case Until(b) => Fits(b) && Size(b) + 2 <= 128
    case Again(b) => Fits(b) && Size(b) + 2 <= 128
    case Next(b) => Fits(b) && Size(b) + 2 <= 128
    case _ => true
  }

  lemma {:induction false} CompileAppend(a: seq<Token>, b: seq<Token>, s: CState, l: Labels)
    ensures Compile(a + b, s, l) == Compile(b, Compile(a, s, l), l)
  {
    hide CompileToken;
    if a == [] {
      assert a + b == b;
    } else if !s.ok {
    } else {
      assert (a + b)[0] == a[0] && (a + b)[1..] == a[1..] + b;
      CompileAppend(a[1..], b, CompileToken(a[0], s, l), l);
    }
  }

  lemma CompileFirst(t: Token, ts: seq<Token>, s: CState, l: Labels)
    requires s.ok
    ensures Compile([t] + ts, s, l) == Compile(ts, CompileToken(t, s, l), l)
  {
    hide CompileToken;
    assert ([t] + ts)[1..] == ts;
  }

  lemma CompileOne(t: Token, s: CState, l: Labels)
    ensures Compile([t], s, l) == if s.ok then CompileToken(t, s, l) else s
  {
    hide CompileToken;
    assert [t][1..] == [];
  }

  /** m and n agree on every byte outside [a, b). */
  predicate SameOutside(m: Mem, n: Mem, a: nat, b: nat) {
    forall i: word :: i < a || i >= b ==> m[i] == n[i]
  }

  lemma SameOutsideTrans(m: Mem, n: Mem, o: Mem, a: nat, b: nat, c: nat, d: nat, lo: nat, hi: nat)
    requires SameOutside(m, n, a, b) && SameOutside(n, o, c, d)
    requires lo <= a && b <= hi && lo <= c && d <= hi
    ensures SameOutside(m, o, lo, hi)
  {
  }

  lemma CellKept(m: Mem, n: Mem, a: nat, b: nat, h: nat, w: word)
    requires SameOutside(m, n, a, b) && CellAt(m, h, w) && (h + 2 <= a || b <= h)
    ensures CellAt(n, h, w)
  {
  }

  lemma BranchKept(m: Mem, n: Mem, a: nat, b: nat, h: nat, target: int)
    requires SameOutside(m, n, a, b) && BranchAt(m, h, target) && (h + 1 <= a || b <= h)
    ensures BranchAt(n, h, target)
  {
  }

  /** The compiled form depends only on its own bytes. */
  lemma {:induction false} EmittedKept(m: Mem, n: Mem, l: Labels, h: nat, k: Code, a: nat, b: nat)
    requires SameOutside(m, n, a, b) && (h + Size(k) <= a || b <= h)
    requires Emitted(m, l, h, k)
    ensures Emitted(n, l, h, k)
    decreases k, 1
  {
    hide SameOutside, BranchAt, CellAt, Emitted, Size;
    match k
    case Seq(x, y) =>
      SeqForm(x, y, m, l, h);
      SeqForm(x, y, n, l, h);
      EmittedKept(m, n, l, h, x, a, b);
      EmittedKept(m, n, l, h + Size(x), y, a, b);
    case If(t) => IfKept(m, n, l, h, t, a, b);
    case IfElse(t, f) => IfElseKept(m, n, l, h, t, f, a, b);
    case Until(t) => LoopKept(m, n, l, h, k, t, l.cbr, a, b);
    case Again(t) => LoopKept(m, n, l, h, k, t, l.br, a, b);
    case Next(t) => LoopKept(m, n, l, h, k, t, l.nxt, a, b);
    case Lit(v) => LitKept(m, n, l, h, v, a, b);
    case _ => OneCellKept(m, n, l, h, k, a, b);
  }

  lemma OneCellKept(m: Mem, n: Mem, l: Labels, h: nat, k: Code, a: nat, b: nat)
    requires SameOutside(m, n, a, b) && (h + Size(k) <= a || b <= h)
    requires k.Prim? || k.Call? || k.Exit? || k.Leave? || k.Skip?
    requires Emitted(m, l, h, k)
    ensures Emitted(n, l, h, k)
  {
    hide SameOutside, CellAt;
    match k
    case Prim(p) => CellKept(m, n, a, b, h, l.prim(p));
    case Call(i) => CellKept(m, n, a, b, h, l.words[i]);
    case Exit => CellKept(m, n, a, b, h, l.exit);
    case Leave => CellKept(m, n, a, b, h, l.leave);
    case Skip =>
  }

  lemma LitKept(m: Mem, n: Mem, l: Labels, h: nat, v: word, a: nat, b: nat)
    requires SameOutside(m, n, a, b) && (h + Size(Lit(v)) <= a || b <= h)
    requires Emitted(m, l, h, Lit(v))
    ensures Emitted(n, l, h, Lit(v))
  {
    hide SameOutside, CellAt;
    CellKept(m, n, a, b, h, if v < 0x100 then l.lit8 else l.lit16);
    if v < 0x100 { ByteKept(m, n, a, b, h + 2); } else { CellKept(m, n, a, b, h + 2, v); }
  }

  lemma {:induction false} IfKept(m: Mem, n: Mem, l: Labels, h: nat, t: Code, a: nat, b: nat)
    requires SameOutside(m, n, a, b) && (h + Size(If(t)) <= a || b <= h)
    requires Emitted(m, l, h, If(t))
    ensures Emitted(n, l, h, If(t))
    decreases If(t), 0
  {
    hide SameOutside, BranchAt, CellAt, Emitted, Size;
    IfForm(t, m, l, h);
    IfForm(t, n, l, h);
    CellKept(m, n, a, b, h, l.cbr);
    BranchKept(m, n, a, b, h + 2, h + 3 + Size(t));
    EmittedKept(m, n, l, h + 3, t, a, b);
  }

  lemma {:induction false} IfElseKept(m: Mem, n: Mem, l: Labels, h: nat, t: Code, f: Code, a: nat, b: nat)
    requires SameOutside(m, n, a, b) && (h + Size(IfElse(t, f)) <= a || b <= h)
    requires Emitted(m, l, h, IfElse(t, f))
    ensures Emitted(n, l, h, IfElse(t, f))
    decreases IfElse(t, f), 0
  {
    hide SameOutside, BranchAt, CellAt, Emitted, Size;
    IfElseForm(t, f, m, l, h);
    IfElseForm(t, f, n, l, h);
    var mid := h + 3 + Size(t);
    CellKept(m, n, a, b, h, l.cbr);
    BranchKept(m, n, a, b, h + 2, mid + 3);
    EmittedKept(m, n, l, h + 3, t, a, b);
    CellKept(m, n, a, b, mid, l.br);
    BranchKept(m, n, a, b, mid + 2, mid + 3 + Size(f));
    EmittedKept(m, n, l, mid + 3, f, a, b);
  }

  lemma ByteKept(m: Mem, n: Mem, a: nat, b: nat, i: nat)
    requires SameOutside(m, n, a, b) && i < MEMSIZE && (i < a || b <= i)
    ensures n[i] == m[i]
  {
  }

  lemma {:induction false} LoopKept(m: Mem, n: Mem, l: Labels, h: nat, k: Code, t: Code, branch: word,
                                    a: nat, b: nat)
    requires LoopCode(k, t, branch, l)
    requires SameOutside(m, n, a, b) && (h + Size(k) <= a || b <= h)
    requires Emitted(m, l, h, k)
    ensures Emitted(n, l, h, k)
    decreases k, 0
  {
    hide SameOutside, CellAt, BranchAt, Emitted, Size;
    LoopForm(k, t, branch, m, l, h);
    LoopForm(k, t, branch, n, l, h);
    EmittedKept(m, n, l, h, t, a, b);
    CellKept(m, n, a, b, h + Size(t), branch);
    BranchKept(m, n, a, b, h + Size(t) + 2, h);
  }

  // ----- what each compiling word does -----

  lemma CommaEffect(s: CState, w: word)
    requires s.here < 0xfffe
    ensures var t := Comma(s, w);
            && CellAt(t.mem, s.here, w) && SameOutside(s.mem, t.mem, s.here, s.here + 2)
            && t == s.(mem := t.mem, here := s.here + 2)
  {
  }

  lemma CCommaEffect(s: CState, b: byte)
    requires s.here < 0xffff
    ensures var t := CComma(s, b);
            && t.mem[s.here] == b && SameOutside(s.mem, t.mem, s.here, s.here + 1)
            && t == s.(mem := t.mem, here := s.here + 1)
  {
  }

  /** The bytes of a compiled number: the cell of (b) and one byte below 256, else the cell of
      (n) and a cell, low byte first. */
  lemma LitBytes(s: CState, l: Labels, n: word)
    requires s.here < 0xfffa
    ensures var t := LitN(s, l, n);
            var bs := if n < 0x100 then [l.lit8 % 0x100, l.lit8 / 0x100, n]
                      else [l.lit16 % 0x100, l.lit16 / 0x100, n % 0x100, n / 0x100];
            && t == s.(mem := t.mem, here := s.here + |bs|)
            && t.mem[s.here..s.here + |bs|] == bs && SameOutside(s.mem, t.mem, s.here, s.here + |bs|)
  {
  }

  /** With nothing open, THEN, ELSE and the loop words end compilation. */
  lemma NothingOpen(s: CState, l: Labels, branch: word)
    requires s.ctl == []
    ensures !ThenWord(s).ok && !ElseWord(s, l).ok && !LoopWord(s, branch).ok
  {
  }

  lemma IfEffect(s: CState, l: Labels)
    requires s.here < 0xfffc
    ensures var t := IfWord(s, l);
            && CellAt(t.mem, s.here, l.cbr) && SameOutside(s.mem, t.mem, s.here, s.here + 2)
            && t == s.(mem := t.mem, here := s.here + 3, ctl := s.ctl + [s.here + 2])
  {
    hide Comma, CellAt, SameOutside;
    CommaEffect(s, l.cbr);
  }

  /** THEN closes the branch byte at a if HERE is within reach, and aborts otherwise. */
  lemma ThenEffect(s: CState, a: word)
    requires s.ok && s.ctl != [] && Last(s.ctl) == a < s.here && s.here - a < 0xff80
    ensures var t := ThenWord(s);
            && (t.ok <==> s.here - a <= 127)
            && (t.ok ==>
                && BranchAt(t.mem, a, s.here) && SameOutside(s.mem, t.mem, a, a + 1)
                && t == s.(mem := t.mem, ctl := Init(s.ctl)))
  {
  }

  lemma ElseEffect(s: CState, a: word, l: Labels)
    requires s.ok && s.ctl != [] && Last(s.ctl) == a < s.here < 0xff00
    ensures var t := ElseWord(s, l);
            && (t.ok <==> s.here + 3 - a <= 127)
            && (t.ok ==>
                && BranchAt(t.mem, a, s.here + 3) && CellAt(t.mem, s.here, l.br)
                && t.mem[..a] == s.mem[..a] && t.mem[a + 1..s.here] == s.mem[a + 1..s.here]
                && t.mem[s.here + 2..] == s.mem[s.here + 2..]
                && t == s.(mem := t.mem, here := s.here + 3, ctl := Init(s.ctl) + [s.here + 2]))
  {
    hide Comma, CellAt, SameOutside, BranchAt, ThenWord;
    CommaEffect(s, l.br);
    var u := Comma(s, l.br);
    var v := Allot(u, 1);
    ThenEffect(v, a);
    var t := ThenWord(v);
    if t.ok {
      CellKept(u.mem, t.mem, a, a + 1, s.here, l.br);
      ElseFrame(s.mem, u.mem, t.mem, a, s.here);
    }
  }

  lemma ElseFrame(m: Mem, n: Mem, o: Mem, a: nat, h: nat)
    requires a < h < 0xff00 && SameOutside(m, n, h, h + 2) && SameOutside(n, o, a, a + 1)
    ensures o[..a] == m[..a] && o[a + 1..h] == m[a + 1..h] && o[h + 2..] == m[h + 2..]
  {
  }

  /** UNTIL, AGAIN and NEXT lead back to a if it is within reach, and abort otherwise. */
  lemma LoopEffect(s: CState, a: word, branch: word)
    requires s.ok && s.ctl != [] && Last(s.ctl) == a <= s.here < 0xff00
    ensures var t := LoopWord(s, branch);
            && (t.ok <==> s.here + 2 - a <= 128)
            && (t.ok ==>
                && CellAt(t.mem, s.here, branch) && BranchAt(t.mem, s.here + 2, a)
                && SameOutside(s.mem, t.mem, s.here, s.here + 3)
                && t == s.(mem := t.mem, here := s.here + 3, ctl := Init(s.ctl)))
  {
    hide Comma, CComma, CellAt, SameOutside;
    CommaEffect(s, branch);
    var u := Comma(s, branch);
    var off := W((a as int) - u.here);
    CCommaEffect(u.(ctl := Init(u.ctl)), off % 0x100);
    var t := CComma(u.(ctl := Init(u.ctl)), off % 0x100);
    CellKept(u.mem, t.mem, u.here, u.here + 1, s.here, branch);
    SameOutsideTrans(s.mem, u.mem, t.mem, s.here, s.here + 2, u.here, u.here + 1, s.here, s.here + 3);
  }

  // ----- whole programs -----

  /** From s, compilation of k arrived at t. */
  ghost predicate Compiled(k: Code, l: Labels, s: CState, t: CState) {
    && (t.ok <==> Fits(k))
    && (t.ok ==>
        && t == s.(mem := t.mem, here := t.here) && t.here == s.here + Size(k)
        && Emitted(t.mem, l, s.here, k)
        && SameOutside(s.mem, t.mem, s.here, s.here + Size(k)))
  }

  /** Compiler correctness, compiling half. Reading the source of k puts exactly its
      compiled form at HERE, patches every branch, leaves no address behind and touches
      no other byte; it aborts if and only if some branch is out of reach. */
  lemma {:induction false} CompileCorrect(k: Code, l: Labels, s: CState)
    requires CallsIn(k, |l.words|) && s.ok && s.here + Size(k) < 0xff00
    ensures Compiled(k, l, s, Compile(Source(k, l), s, l))
    decreases k, 1
  {
    hide Compiled, Compile, Source, Size, CallsIn;
    match k
    case Seq(a, b) => CompileSeq(a, b, l, s);
    case If(t) => CompileIf(t, l, s);
    case IfElse(t, f) => CompileIfElse(t, f, l, s);
    case Until(b) => CompileLoop(k, b, TUntil, l.cbr, l, s);
    case Again(b) => CompileLoop(k, b, TAgain, l.br, l, s);
    case Next(b) => CompileLoop(k, b, TNext, l.nxt, l, s);
    case Lit(n) => CompileLit(n, l, s);
    case Skip => CompileSkip(l, s);
    case _ => CompileCell(k, l, s);
  }

  lemma CompileSkip(l: Labels, s: CState)
    requires s.ok
    ensures Compiled(Skip, l, s, Compile(Source(Skip, l), s, l))
  {
  }

  lemma CompileCell(k: Code, l: Labels, s: CState)
    requires k.Prim? || k.Call? || k.Exit? || k.Leave?
    requires CallsIn(k, |l.words|) && s.ok && s.here + Size(k) < 0xff00
    ensures Compiled(k, l, s, Compile(Source(k, l), s, l))
  {
    hide Comma, CellAt, SameOutside, Compile;
    assert |Source(k, l)| == 1 && Source(k, l)[0].TCell?;
    var w := Source(k, l)[0].w;
    CompileOne(TCell(w), s, l);
    CommaEffect(s, w);
  }

  lemma CompileLit(n: word, l: Labels, s: CState)
    requires s.ok && s.here + Size(Lit(n)) < 0xff00
    ensures Compiled(Lit(n), l, s, Compile(Source(Lit(n), l), s, l))
  {
    hide Comma, CComma, SameOutside;
    CompileOne(TLit(n), s, l);
    if n / 0x100 != 0 {
      CommaEffect(s, l.lit16);
      var t := Comma(s, l.lit16);
      CommaEffect(t, n);
      var u := Comma(t, n);
      CellKept(t.mem, u.mem, s.here + 2, s.here + 4, s.here, l.lit16);
      SameOutsideTrans(s.mem, t.mem, u.mem, s.here, s.here + 2, s.here + 2, s.here + 4, s.here, s.here + 4);
    } else {
      CommaEffect(s, l.lit8);
      var t := Comma(s, l.lit8);
      CCommaEffect(t, n % 0x100);
      var u := CComma(t, n % 0x100);
      CellKept(t.mem, u.mem, s.here + 2, s.here + 3, s.here, l.lit8);
      SameOutsideTrans(s.mem, t.mem, u.mem, s.here, s.here + 2, s.here + 2, s.here + 3, s.here, s.here + 3);
    }
  }

  lemma SeqSource(a: Code, b: Code, l: Labels)
    ensures CallsIn(Seq(a, b), |l.words|) <==> CallsIn(a, |l.words|) && CallsIn(b, |l.words|)
    ensures CallsIn(Seq(a, b), |l.words|) ==> Source(Seq(a, b), l) == Source(a, l) + Source(b, l)
    ensures Fits(Seq(a, b)) <==> Fits(a) && Fits(b)
  {
  }

  lemma {:induction false} CompileSeq(a: Code, b: Code, l: Labels, s: CState)
    requires CallsIn(Seq(a, b), |l.words|) && s.ok && s.here + Size(Seq(a, b)) < 0xff00
    ensures Compiled(Seq(a, b), l, s, Compile(Source(Seq(a, b), l), s, l))
    decreases Seq(a, b), 0
  {
    hide Compile, SameOutside, Emitted, Source, Fits, CallsIn, Size;
    SeqSource(a, b, l);
    SeqForm(a, b, s.mem, l, s.here);
    var t := Compile(Source(a, l), s, l);
    CompileAppend(Source(a, l), Source(b, l), s, l);
    CompileCorrect(a, l, s);
    if t.ok {
      CompileCorrect(b, l, t);
      var u := Compile(Source(b, l), t, l);
      if u.ok {
        SeqForm(a, b, u.mem, l, s.here);
        EmittedKept(t.mem, u.mem, l, s.here, a, t.here, u.here);
        SameOutsideTrans(s.mem, t.mem, u.mem, s.here, t.here, t.here, u.here, s.here, u.here);
      }
    } else {
      CompileStopped(Source(b, l), t, l);
    }
  }

  lemma CompileStopped(ts: seq<Token>, s: CState, l: Labels)
    requires !s.ok
    ensures Compile(ts, s, l) == s
  {
  }

  lemma IfSource(b: Code, l: Labels)
    ensures CallsIn(If(b), |l.words|) <==> CallsIn(b, |l.words|)
    ensures CallsIn(b, |l.words|) ==> Source(If(b), l) == [TIf] + (Source(b, l) + [TThen])
    ensures Fits(If(b)) <==> Fits(b) && Size(b) + 1 <= 127
  {
  }

  lemma {:induction false} CompileIf(b: Code, l: Labels, s: CState)
    requires CallsIn(If(b), |l.words|) && s.ok && s.here + Size(If(b)) < 0xff00
    ensures Compiled(If(b), l, s, Compile(Source(If(b), l), s, l))
    decreases If(b), 0
  {
    hide Compile, SameOutside, CellAt, BranchAt, IfWord, ThenWord, Emitted, Source, Fits, CallsIn, Size;
    IfSource(b, l);
    IfForm(b, s.mem, l, s.here);
    var h := s.here;
    var s1 := IfWord(s, l);
    IfEffect(s, l);
    CompileFirst(TIf, Source(b, l) + [TThen], s, l);
    CompileAppend(Source(b, l), [TThen], s1, l);
    CompileCorrect(b, l, s1);
    var s2 := Compile(Source(b, l), s1, l);
    CompileOne(TThen, s2, l);
    if s2.ok {
      assert Last(s2.ctl) == h + 2 && Init(s2.ctl) == s.ctl;
      ThenEffect(s2, h + 2);
      var t := ThenWord(s2);
      if t.ok {
        IfForm(b, t.mem, l, h);
        CellKept(s1.mem, s2.mem, h + 3, s2.here, h, l.cbr);
        CellKept(s2.mem, t.mem, h + 2, h + 3, h, l.cbr);
        EmittedKept(s2.mem, t.mem, l, h + 3, b, h + 2, h + 3);
        SameOutsideTrans(s.mem, s1.mem, s2.mem, h, h + 2, h + 3, t.here, h, t.here);
        SameOutsideTrans(s.mem, s2.mem, t.mem, h, t.here, h + 2, h + 3, h, t.here);
      }
    }
  }

  lemma IfElseSource(b: Code, f: Code, l: Labels)
    ensures CallsIn(IfElse(b, f), |l.words|) <==> CallsIn(b, |l.words|) && CallsIn(f, |l.words|)
    ensures CallsIn(IfElse(b, f), |l.words|) ==>
            Source(IfElse(b, f), l) == [TIf] + (Source(b, l) + ([TElse] + (Source(f, l) + [TThen])))
  {
  }

  lemma IfElseFits(b: Code, f: Code)
    ensures Fits(IfElse(b, f)) <==> Fits(b) && Fits(f) && Size(b) + 4 <= 127 && Size(f) + 1 <= 127
  {
    hide Size;
  }

  lemma {:induction false} CompileIfElse(b: Code, f: Code, l: Labels, s: CState)
    requires CallsIn(IfElse(b, f), |l.words|) && s.ok && s.here + Size(IfElse(b, f)) < 0xff00
    ensures Compiled(IfElse(b, f), l, s, Compile(Source(IfElse(b, f), l), s, l))
    decreases IfElse(b, f), 0
  {
    hide Compile, SameOutside, CellAt, BranchAt, IfWord, ThenWord, ElseWord, Emitted, Source, Fits, CallsIn, Size;
    IfElseSource(b, f, l);
    IfElseFits(b, f);
    IfElseForm(b, f, s.mem, l, s.here);
    var h, mid := s.here, s.here + 3 + Size(b);
    var s1 := IfWord(s, l);
    var tail := Source(f, l) + [TThen];
    IfEffect(s, l);
    CompileFirst(TIf, Source(b, l) + ([TElse] + tail), s, l);
    CompileAppend(Source(b, l), [TElse] + tail, s1, l);
    CompileCorrect(b, l, s1);
    var s2 := Compile(Source(b, l), s1, l);
    if !s2.ok {
      CompileStopped([TElse] + tail, s2, l);
    } else {
      assert Last(s2.ctl) == h + 2 && Init(s2.ctl) == s.ctl;
      CompileFirst(TElse, tail, s2, l);
      ElseEffect(s2, h + 2, l);
      var s3 := ElseWord(s2, l);
      if !s3.ok {
        CompileStopped(tail, s3, l);
      } else {
        AfterElse(s.mem, s1.mem, s2.mem, s3.mem, l, h, b);
        CompileElsePart(b, f, l, s, s3);
      }
    }
  }

  /** The true branch and the first branch byte stand once ELSE is compiled. */
  lemma AfterElse(m0: Mem, m1: Mem, m2: Mem, m3: Mem, l: Labels, h: nat, b: Code)
    requires var mid := h + 3 + Size(b);
             && mid + 3 < 0xff00
             && SameOutside(m0, m1, h, h + 2) && CellAt(m1, h, l.cbr)
             && SameOutside(m1, m2, h + 3, mid) && Emitted(m2, l, h + 3, b)
             && m3[..h + 2] == m2[..h + 2] && m3[h + 3..mid] == m2[h + 3..mid] && m3[mid + 2..] == m2[mid + 2..]
    ensures CellAt(m3, h, l.cbr) && Emitted(m3, l, h + 3, b)
    ensures SameOutside(m0, m3, h, h + 6 + Size(b))
  {
    hide Emitted, Size, CellAt, SameOutside;
    var mid := h + 3 + Size(b);
    var n := m2[..h + 2] + m3[h + 2..h + 3] + m2[h + 3..];
    TwoChanges(m2, n, m3, h + 2, mid);
    CellKept(m1, m2, h + 3, mid, h, l.cbr);
    CellKept(m2, n, h + 2, h + 3, h, l.cbr);
    CellKept(n, m3, mid, mid + 2, h, l.cbr);
    EmittedKept(m2, n, l, h + 3, b, h + 2, h + 3);
    EmittedKept(n, m3, l, h + 3, b, mid, mid + 2);
    SameOutsideTrans(m0, m1, m2, h, h + 2, h + 3, mid, h, mid + 3);
    SameOutsideTrans(m0, m2, n, h, mid + 3, h + 2, h + 3, h, mid + 3);
    SameOutsideTrans(m0, n, m3, h, mid + 3, mid, mid + 2, h, mid + 3);
  }

  /** A memory that differs from m in the byte at a and the cell at b, in two steps. */
  lemma TwoChanges(m: Mem, n: Mem, o: Mem, a: nat, b: nat)
    requires a + 1 <= b < 0xff00 && n == m[..a] + o[a..a + 1] + m[a + 1..]
    requires o[..a] == m[..a] && o[a + 1..b] == m[a + 1..b] && o[b + 2..] == m[b + 2..]
    ensures SameOutside(m, n, a, a + 1) && SameOutside(n, o, b, b + 2)
  {
    forall i: word | i < a ensures o[i] == m[i] { assert o[i] == o[..a][i]; }
    forall i: word | a + 1 <= i < b ensures o[i] == m[i] { assert o[i] == o[a + 1..b][i - a - 1]; }
    forall i: word | b + 2 <= i ensures o[i] == m[i] { assert o[i] == o[b + 2..][i - b - 2]; }
  }

  lemma {:induction false} CompileElsePart(b: Code, f: Code, l: Labels, s: CState, s3: CState)
    requires CallsIn(f, |l.words|) && s3.ok && s.ok && s.here + Size(IfElse(b, f)) < 0xff00
    requires Fits(b) && Size(b) + 4 <= 127
    requires var h, mid := s.here, s.here + 3 + Size(b);
             && s3 == s.(mem := s3.mem, here := mid + 3, ctl := s.ctl + [mid + 2])
             && CellAt(s3.mem, h, l.cbr) && BranchAt(s3.mem, h + 2, mid + 3) && Emitted(s3.mem, l, h + 3, b)
             && CellAt(s3.mem, mid, l.br) && SameOutside(s.mem, s3.mem, h, mid + 3)
    ensures Compiled(IfElse(b, f), l, s, Compile(Source(f, l) + [TThen], s3, l))
    decreases f, 2
  {
    hide Compile, SameOutside, CellAt, BranchAt, ThenWord, Emitted, Source, Fits, CallsIn, Size;
    IfElseSource(b, f, l);
    IfElseFits(b, f);
    IfElseForm(b, f, s.mem, l, s.here);
    var h, mid := s.here, s.here + 3 + Size(b);
    CompileAppend(Source(f, l), [TThen], s3, l);
    CompileCorrect(f, l, s3);
    var s4 := Compile(Source(f, l), s3, l);
    CompileOne(TThen, s4, l);
    if s4.ok {
      assert Last(s4.ctl) == mid + 2 && Init(s4.ctl) == s.ctl;
      ThenEffect(s4, mid + 2);
      var t := ThenWord(s4);
      if t.ok {
        IfElseForm(b, f, t.mem, l, h);
        CellKept(s3.mem, s4.mem, mid + 3, s4.here, h, l.cbr);
        CellKept(s4.mem, t.mem, mid + 2, mid + 3, h, l.cbr);
        BranchKept(s3.mem, s4.mem, mid + 3, s4.here, h + 2, mid + 3);
        BranchKept(s4.mem, t.mem, mid + 2, mid + 3, h + 2, mid + 3);
        EmittedKept(s3.mem, s4.mem, l, h + 3, b, mid + 3, s4.here);
        EmittedKept(s4.mem, t.mem, l, h + 3, b, mid + 2, mid + 3);
        CellKept(s3.mem, s4.mem, mid + 3, s4.here, mid, l.br);
        CellKept(s4.mem, t.mem, mid + 2, mid + 3, mid, l.br);
        EmittedKept(s4.mem, t.mem, l, mid + 3, f, mid + 2, mid + 3);
        SameOutsideTrans(s.mem, s3.mem, s4.mem, h, mid + 3, mid + 3, t.here, h, t.here);
        SameOutsideTrans(s.mem, s4.mem, t.mem, h, t.here, mid + 2, mid + 3, h, t.here);
      }
    }
  }

  /** The word that ends a loop. */
  function LoopToken(k: Code): Token
    requires k.Until? || k.Again? || k.Next?
  {
    if k.Until? then TUntil else if k.Again? then TAgain else TNext
  }

  lemma LoopSource(k: Code, b: Code, last: Token, branch: word, l: Labels)
    requires LoopCode(k, b, branch, l) && last == LoopToken(k)
    ensures CallsIn(k, |l.words|) <==> CallsIn(b, |l.words|)
    ensures CallsIn(b, |l.words|) ==> Source(k, l) == [TBegin] + (Source(b, l) + [last])
    ensures Fits(k) <==> Fits(b) && Size(b) + 2 <= 128
    ensures forall s: CState :: CompileToken(last, s, l) == LoopWord(s, branch)
  {
    hide LoopWord;
  }

  lemma {:induction false} CompileLoop(k: Code, b: Code, last: Token, branch: word, l: Labels, s: CState)
    requires LoopCode(k, b, branch, l) && last == LoopToken(k)
    requires CallsIn(k, |l.words|) && s.ok && s.here + Size(k) < 0xff00
    ensures Compiled(k, l, s, Compile(Source(k, l), s, l))
    decreases k, 0
  {
    hide Compile, SameOutside, CellAt, BranchAt, LoopWord, Emitted, Source, Fits, CallsIn, Size;
    LoopSource(k, b, last, branch, l);
    LoopForm(k, b, branch, s.mem, l, s.here);
    var h := s.here;
    var s1 := BeginWord(s);
    CompileFirst(TBegin, Source(b, l) + [last], s, l);
    CompileAppend(Source(b, l), [last], s1, l);
    CompileCorrect(b, l, s1);
    var s2 := Compile(Source(b, l), s1, l);
    CompileOne(last, s2, l);
    if s2.ok {
      assert Last(s2.ctl) == h && Init(s2.ctl) == s.ctl;
      LoopEffect(s2, h, branch);
      var t := LoopWord(s2, branch);
      if t.ok {
        LoopForm(k, b, branch, t.mem, l, h);
        EmittedKept(s2.mem, t.mem, l, h, b, s2.here, t.here);
        SameOutsideTrans(s.mem, s2.mem, t.mem, h, s2.here, s2.here, t.here, h, t.here);
      }
    }
  }
}
