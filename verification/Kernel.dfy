/** A kernel from nothing: the label stubs and native words of cvm/cvm.fs in their order,
    each laid down as CODE lays down a word, and LEAVE behind them. The core words that
    blk.fs defines in between are left out. It shows that the dictionary image that
    compiler and simulation speak about exists, and lets a program run from nothing. */
module Kernel {
  import opened Words
  import opened VmSpec
  import opened Forth
  import opened Stacks
  import opened Simulation
  import opened CompilerSpec
  import opened Definitions
  import D = Dictionary

  // ----- words in order -----

  /** Where word j of a run of definitions starts, behind its header. */
  function Place(here: nat, ds: seq<D.Def>, j: nat): nat
    requires j < |ds|
  {
    here + D.Need(ds[..j]) + |ds[j].name| + 3
  }

  lemma {:induction false} NeedAppend(a: seq<D.Def>, b: seq<D.Def>)
    ensures D.Need(a + b) == D.Need(a) + D.Need(b)
    decreases |a|
  {
    if a == [] {
      assert a + b == b;
    } else {
      assert (a + b)[1..] == a[1..] + b;
      NeedAppend(a[1..], b);
    }
  }

  lemma NeedOne(d: D.Def)
    ensures D.Need([d]) == |d.name| + 3 + |d.body|
  {
    assert [d][1..] == [];
  }

  /** A word lies inside the memory that the definitions take. */
  lemma PlaceInside(here: nat, ds: seq<D.Def>, j: nat)
    requires j < |ds|
    ensures here <= Place(here, ds, j) && Place(here, ds, j) + |ds[j].body| <= here + D.Need(ds)
  {
    NeedOne(ds[j]);
    NeedAppend(ds[..j], [ds[j]]);
    NeedAppend(ds[..j] + [ds[j]], ds[j + 1..]);
    assert ds[..j] + [ds[j]] + ds[j + 1..] == ds;
  }

  /** Memory holds these bytes at a. */
  predicate BytesAt(m: Mem, a: nat, bs: seq<byte>) {
    a + |bs| <= MEMSIZE && forall i :: 0 <= i < |bs| ==> bs[i] == m[a + i]
  }

  /** A definition leaves its body behind its header, immediate or not. */
  lemma BodyLaid(s: CState, d: D.Def)
    requires s.here + |d.name| + 3 + |d.body| < 0xffff && |d.name| <= D.MAXNAME
    requires s.current <= s.here
    ensures BytesAt(D.Define(s, d).mem, s.here + |d.name| + 3, d.body)
  {
    hide D.Header, D.EntryAt;
    D.HeaderEffect(s, d.name);
    var u := D.Header(s, d.name);
    var a := u.here;
    var v := D.MoveIn(u, d.body);
    assert v.mem[a..a + |d.body|] == d.body;
    assert forall i :: 0 <= i < |d.body| ==> d.body[i] == v.mem[a..a + |d.body|][i];
  }

  lemma BytesKept(m: Mem, n: Mem, lo: nat, hi: nat, a: nat, bs: seq<byte>)
    requires BytesAt(m, a, bs) && SameOutside(m, n, lo, hi) && (a + |bs| <= lo || hi <= a)
    ensures BytesAt(n, a, bs)
  {
  }

  /** After any run of definitions every body stands at its place, and what was below HERE
      is as it was. */
  lemma {:induction false} BodiesLaid(s: CState, ds: seq<D.Def>, es: seq<D.Entry>)
    requires s.here + D.Need(ds) < 0xffff && D.Names(ds)
    requires D.Chain(s.mem, s.current, es) && s.current <= s.here
    ensures SameOutside(s.mem, D.DefineAll(s, ds).mem, s.here, s.here + D.Need(ds))
    ensures forall j :: 0 <= j < |ds| ==> BytesAt(D.DefineAll(s, ds).mem, Place(s.here, ds, j), ds[j].body)
    decreases |ds|
  {
    hide D.Chain, D.Define, SameOutside, BytesAt;
    if ds == [] {
      NothingChanged(s.mem, s.here);
    } else {
      var d, more := ds[0], ds[1..];
      D.DefineChains(s, d, es);
      BodyLaid(s, d);
      var t := D.Define(s, d);
      BodiesLaid(t, more, [D.Entry(t.current, d.name)] + es);
      var u := D.DefineAll(t, more);
      assert D.DefineAll(s, ds) == u;
      SameOutsideTrans(s.mem, t.mem, u.mem, s.here, t.here, t.here, t.here + D.Need(more), s.here, s.here + D.Need(ds));
      forall j | 0 <= j < |ds| ensures BytesAt(u.mem, Place(s.here, ds, j), ds[j].body) {
        PlaceAfter(s.here, ds, j);
        if j == 0 {
          BytesKept(t.mem, u.mem, t.here, t.here + D.Need(more), s.here + |d.name| + 3, d.body);
        } else {
          assert BytesAt(u.mem, Place(t.here, more, j - 1), more[j - 1].body);
        }
      }
    }
  }

  lemma NothingChanged(m: Mem, a: nat)
    ensures SameOutside(m, m, a, a)
  {
  }

  lemma PlaceAfter(here: nat, ds: seq<D.Def>, j: nat)
    requires j < |ds|
    ensures j == 0 ==> Place(here, ds, j) == here + |ds[0].name| + 3
    ensures j > 0 ==> Place(here, ds, j) == Place(here + |ds[0].name| + 3 + |ds[0].body|, ds[1..], j - 1)
  {
    if j > 0 {
      assert ds[..j][0] == ds[0] && ds[..j][1..] == ds[1..][..j - 1];
    }
  }

  // ----- the words of cvm.fs -----

  const LNEXT: word := 3
  const LXT: word := 4

  /** The jump to BOOT, not yet filled in, and the stubs lblnext, lblxt, lbldoes, lblval. */
  const STUBS: seq<byte> := [11, 0, 0, 7, 12, 18, 19]

  function Ascii(s: string): (r: seq<byte>)
    ensures |r| == |s|
  {
    seq(|s|, i requires 0 <= i < |s| => (s[i] as int) % 0x80)
  }

  /** No word of this kernel takes more than 30 bytes. */
  type SmallDef = d: D.Def | |d.name| <= 10 && |d.body| <= 17 witness D.Def([], [], false)

  /** `CODE name op C, ;CODE`: the opcode and a jump to lblnext. */
  function Native(name: string, op: byte): SmallDef
    requires |name| <= 10
  {
    D.Def(Ascii(name), [op, 11, LNEXT, 0], false)
  }

  /** A word with a body of its own. */
  function Special(name: string, body: seq<byte>): SmallDef
    requires |name| <= 10 && |body| <= 17
  {
    D.Def(Ascii(name), body, false)
  }

  /** Where QUIT starts; ABORT goes on there. */
  const QUIT_AT: byte := 53

  /** Block 3 of cvm/cvm.fs. */
  function Block3(): seq<SmallDef> {
    [Native("PC!", 51), Native("PC@", 52), Native("*", 53), Native("/MOD", 54),
     Special("QUIT", [55, 11, 0, 0]), Special("ABORT", [56, 11, QUIT_AT, 0]),
     Native("EXIT", 13), Special("BYE", [59]), Native("RCNT", 57), Native("SCNT", 58),
     Native("(br)", 30), Native("(?br)", 8), Native("(next)", 9), Native("(b)", 15), Native("(n)", 16)]
  }

  /** Block 4. */
  function Block4(): seq<SmallDef> {
    [Native("C@", 63), Native("@", 64), Native("C!", 66), Native("!", 65), Native("NOT", 38),
     Native("AND", 39), Native("OR", 40), Native("XOR", 41), Native("+", 28), Native("-", 29),
     Native("<", 33), Native("R@", 60), Native("R~", 26), Native("R>", 61), Native(">R", 62)]
  }

  /** Block 5. */
  function Block5(): seq<SmallDef> {
    [Native("DUP", 0), Native("DROP", 1), Native("?DUP", 14), Native("SWAP", 4), Native("OVER", 5),
     Native("ROT", 6), Special("TICKS", [11, LNEXT, 0]), Special("EXECUTE", [21])]
  }

  function Natives(): seq<SmallDef> {
    Block3() + Block4() + Block5()
  }

  const COUNT: nat := 38

  /** The place of a word in that list. */
  function Index(p: Prim): (j: nat)
    ensures j < COUNT
  {
    match p
    case TIMES => 2 case DIVMOD => 3 case RCNT => 8 case SCNT => 9
    case CFETCH => 15 case FETCH => 16 case CSTORE => 17 case STORE => 18 case NOT => 19
    case AND => 20 case OR => 21 case XOR => 22 case PLUS => 23 case MINUS => 24
    case LESS => 25 case RFETCH => 26 case RDROP => 27 case FROMR => 28 case TOR => 29
    case DUP => 30 case DROP => 31 case QDUP => 32 case SWAP => 33 case OVER => 34 case ROT => 35
  }

  lemma IndexFinds(p: Prim)
    ensures |Natives()| == COUNT && Natives()[Index(p)].body == [Opcode(p), 11, LNEXT, 0]
  {
    hide Ascii;
  }

  lemma ControlWords()
    ensures |Natives()| == COUNT
    ensures Natives()[6].body == [13, 11, LNEXT, 0] && Natives()[10].body == [30, 11, LNEXT, 0]
    ensures Natives()[11].body == [8, 11, LNEXT, 0] && Natives()[12].body == [9, 11, LNEXT, 0]
    ensures Natives()[13].body == [15, 11, LNEXT, 0] && Natives()[14].body == [16, 11, LNEXT, 0]
  {
    hide Ascii;
  }

  lemma {:induction false} SmallNeed(ds: seq<SmallDef>)
    ensures D.Need(ds) <= 30 * |ds| && D.Names(ds)
    decreases |ds|
  {
    if ds != [] { SmallNeed(ds[1..]); }
  }

  lemma AddrFits(j: nat)
    requires j < COUNT
    ensures |Natives()| == COUNT
    ensures |STUBS| <= Place(|STUBS|, Natives(), j) < 2000
  {
    hide Place, D.Need;
    ControlWords();
    hide Natives;
    SmallNeed(Natives());
    PlaceInside(|STUBS|, Natives(), j);
  }

  /** The address of word j. */
  function Addr(j: nat): word
    requires j < COUNT
  {
    AddrFits(j);
    Place(|STUBS|, Natives(), j)
  }

  function Cell(w: word): (c: seq<byte>)
    ensures |c| == 2
  {
    [w % 0x100, w / 0x100]
  }

  function PrimAddr(p: Prim): word {
    Addr(Index(p))
  }

  /** `: LEAVE R> R~ 1 >R >R ;` */
  function LeaveDef(): SmallDef {
    Special("LEAVE",
            [10] + Cell(LXT) + Cell(PrimAddr(FROMR)) + Cell(PrimAddr(RDROP)) + Cell(Addr(13)) + [1]
            + Cell(PrimAddr(TOR)) + Cell(PrimAddr(TOR)) + Cell(Addr(6)))
  }

  function KernelDefs(): seq<SmallDef> {
    Natives() + [LeaveDef()]
  }

  lemma WordsFit()
    ensures |Natives()| == COUNT && |KernelDefs()| == COUNT + 1
    ensures |STUBS| + D.Need(KernelDefs()) < 2000 && D.Names(KernelDefs())
  {
    hide Place, D.Need, LeaveDef;
    ControlWords();
    hide Natives;
    SmallNeed(KernelDefs());
  }

  /** The compiler on bare memory: the stubs and nothing else. */
  function Bare(): CState {
    CState(STUBS + seq(MEMSIZE - |STUBS|, _ => 0), |STUBS|, 0, [], true)
  }

  /** The compiler behind the kernel. */
  function Fresh(): CState {
    WordsFit();
    D.DefineAll(Bare(), KernelDefs())
  }

  function Names(): Labels {
    WordsFit();
    Labels(LNEXT, LXT, Addr(10), Addr(11), Addr(12), Addr(13), Addr(14), Addr(6),
           LeaveAddr(), PrimAddr, [])
  }

  function LeaveAddr(): word {
    WordsFit();
    PlaceInside(|STUBS|, KernelDefs(), COUNT);
    Place(|STUBS|, KernelDefs(), COUNT)
  }

  function Boot(): Env {
    Env(Fresh().mem, World(0, Fresh().here, []), Names())
  }

  // ----- the image -----

  lemma BareChain()
    ensures D.Chain(Bare().mem, Bare().current, [])
  {
  }

  /** Every body stands at its place in the finished kernel, and so do the stubs. */
  lemma KernelLaid()
    ensures |Natives()| == COUNT && |KernelDefs()| == COUNT + 1
    ensures Fresh().here < 2000 && Fresh().here == |STUBS| + D.Need(KernelDefs()) && Fresh().ok && Fresh().ctl == []
    ensures BytesAt(Fresh().mem, 0, STUBS)
    ensures forall j :: 0 <= j <= COUNT ==> BytesAt(Fresh().mem, Place(|STUBS|, KernelDefs(), j), KernelDefs()[j].body)
  {
    hide D.DefineAll, D.Need, Place, KernelDefs, Natives, BytesAt, D.Chain;
    WordsFit();
    BareChain();
    BodiesLaid(Bare(), KernelDefs(), []);
    KeepsFlags(Bare(), KernelDefs());
    StubsLaid();
    BytesKept(Bare().mem, Fresh().mem, |STUBS|, |STUBS| + D.Need(KernelDefs()), 0, STUBS);
  }

  lemma StubsLaid()
    ensures BytesAt(Bare().mem, 0, STUBS)
  {
  }

  lemma {:induction false} KeepsFlags(s: CState, ds: seq<D.Def>)
    requires s.here + D.Need(ds) < 0xffff && D.Names(ds)
    ensures D.DefineAll(s, ds).ok == s.ok && D.DefineAll(s, ds).ctl == s.ctl
    decreases |ds|
  {
    if ds != [] { KeepsFlags(D.Define(s, ds[0]), ds[1..]); }
  }

  /** Native words stand where Addr says. */
  lemma NativeLaid(j: nat)
    requires j < COUNT
    ensures |Natives()| == COUNT && BytesAt(Fresh().mem, Addr(j), Natives()[j].body)
    ensures Addr(j) + |Natives()[j].body| <= Fresh().here
  {
    hide D.DefineAll, D.Need, Natives, BytesAt, LeaveDef, Fresh;
    KernelLaid();
    assert KernelDefs()[j] == Natives()[j] && KernelDefs()[..j] == Natives()[..j];
    PlaceInside(|STUBS|, KernelDefs(), j);
  }

  lemma NativeBody(j: nat, op: byte)
    requires j < COUNT && |Natives()| == COUNT && Natives()[j].body == [op, 11, LNEXT, 0]
    ensures NativeAt(Boot(), Addr(j), op)
  {
    hide D.DefineAll, D.Need, Natives, Fresh, Addr;
    NativeLaid(j);
    KernelLaid();
    var m, a := Fresh().mem, Addr(j);
    assert m[a] == op && m[a + 1] == 11 && m[a + 2] == LNEXT && m[a + 3] == 0 by {
      var b := Natives()[j].body;
      assert b[0] == m[a] && b[1] == m[a + 1] && b[2] == m[a + 2] && b[3] == m[a + 3];
    }
  }

  /** Two bytes of a body are a cell in memory. */
  lemma CellLaid(m: Mem, a: nat, bs: seq<byte>, i: nat, w: word)
    requires BytesAt(m, a, bs) && i + 2 <= |bs| && a + i < 0xffff
    requires bs[i] == w % 0x100 && bs[i + 1] == w / 0x100
    ensures CellAt(m, a + i, w)
  {
  }

  lemma LeaveBytes()
    ensures var bs := LeaveDef().body;
            && |bs| == 16 && bs[0] == 10 && bs[9] == 1
            && CellIn(bs, 1, LXT) && CellIn(bs, 3, PrimAddr(FROMR)) && CellIn(bs, 5, PrimAddr(RDROP))
            && CellIn(bs, 7, Addr(13)) && CellIn(bs, 10, PrimAddr(TOR)) && CellIn(bs, 12, PrimAddr(TOR))
            && CellIn(bs, 14, Addr(6))
  {
    hide Addr, PrimAddr, Ascii;
  }

  predicate CellIn(bs: seq<byte>, i: nat, w: word) {
    i + 2 <= |bs| && bs[i] == w % 0x100 && bs[i + 1] == w / 0x100
  }

  lemma LeaveLaid()
    ensures ColonAt(Boot(), LeaveAddr(), LEAVE_BODY)
  {
    hide Emitted, Size, CellAt, Fresh, Addr, PrimAddr, D.Need, Natives, LeaveDef, Place;
    KernelLaid();
    LeaveBytes();
    var m, l, a, bs := Fresh().mem, Names(), LeaveAddr(), LeaveDef().body;
    PlaceInside(|STUBS|, KernelDefs(), COUNT);
    assert KernelDefs()[COUNT] == LeaveDef();
    assert BytesAt(m, a, bs);
    CellLaid(m, a, bs, 1, LXT);
    CellLaid(m, a, bs, 3, PrimAddr(FROMR));
    CellLaid(m, a, bs, 5, PrimAddr(RDROP));
    CellLaid(m, a, bs, 7, Addr(13));
    CellLaid(m, a, bs, 10, PrimAddr(TOR));
    CellLaid(m, a, bs, 12, PrimAddr(TOR));
    CellLaid(m, a, bs, 14, Addr(6));
    assert m[a] == bs[0] && m[a + 9] == bs[9];
    LeaveEmitted(m, l, a + 3);
  }

  /** The body of LEAVE from its cells. */
  lemma LeaveEmitted(m: Mem, l: Labels, b: nat)
    requires CellAt(m, b, l.prim(FROMR)) && CellAt(m, b + 2, l.prim(RDROP)) && CellAt(m, b + 4, l.lit8)
    requires b + 6 < MEMSIZE && m[b + 6] == 1 && CellAt(m, b + 7, l.prim(TOR)) && CellAt(m, b + 9, l.prim(TOR))
    ensures Emitted(m, l, b, LEAVE_BODY) && Size(LEAVE_BODY) == 11
  {
    hide Emitted, Size, CellAt;
    var k4 := Seq(Prim(TOR), Prim(TOR));
    var k3 := Seq(Lit(1), k4);
    var k2 := Seq(Prim(RDROP), k3);
    LitForm(1, m, l, b + 4);
    PrimForm(FROMR, m, l, b);
    PrimForm(RDROP, m, l, b + 2);
    PrimForm(TOR, m, l, b + 7);
    PrimForm(TOR, m, l, b + 9);
    SeqForm(Prim(TOR), Prim(TOR), m, l, b + 7);
    SeqForm(Lit(1), k4, m, l, b + 4);
    SeqForm(Prim(RDROP), k3, m, l, b + 2);
    SeqForm(Prim(FROMR), k2, m, l, b);
  }

  lemma LitForm(n: byte, m: Mem, l: Labels, h: nat)
    ensures Size(Lit(n)) == 3
    ensures Emitted(m, l, h, Lit(n)) <==> CellAt(m, h, l.lit8) && h + 2 < MEMSIZE && m[h + 2] == n
  {
    hide CellAt;
  }

  /** The image that the theorems ask for exists. */
  lemma BootImage()
    ensures Image(Boot())
  {
    hide NativeAt, ColonAt, Fresh, Addr, Natives, D.Need, LeaveAddr;
    KernelLaid();
    ControlWords();
    NativeBody(10, 30);
    NativeBody(11, 8);
    NativeBody(12, 9);
    NativeBody(13, 15);
    NativeBody(14, 16);
    NativeBody(6, 13);
    LeaveLaid();
    var m := Fresh().mem;
    assert STUBS[LNEXT] == m[0 + LNEXT] && STUBS[LXT] == m[0 + LXT];
    forall p: Prim ensures NativeAt(Boot(), Names().prim(p), Opcode(p)) {
      IndexFinds(p);
      NativeBody(Index(p), Opcode(p));
    }
  }

  /** The dictionary of the kernel, newest word first. */
  function Entries(): seq<D.Entry> {
    WordsFit();
    D.Added(|STUBS|, KernelDefs())
  }

  lemma KernelChain()
    ensures D.Chain(Fresh().mem, Fresh().current, Entries()) && Fresh().current <= Fresh().here
  {
    hide D.DefineAll, D.Need, D.Added, KernelDefs, D.Chain;
    WordsFit();
    BareChain();
    D.DefineAllChains(Bare(), KernelDefs(), []);
    assert Entries() + [] == Entries();
  }

  // ----- from nothing to a running program -----

  const WORD_NAME: seq<byte> := [88]
  const MAIN_NAME: seq<byte> := [89]

  /** The program of the second definition: one call of the first word. */
  const MAIN: Code := Call(0)

  /** Programs for which the kernel has room; they may call themselves. */
  predicate Room(k: Code) {
    CallsIn(k, 1) && Fits(k) && Size(k) < 0xe000
  }

  lemma BootParts()
    ensures var e, s := Boot(), Fresh();
            && e.rom == s.mem && e.world.hi == s.here < 2000 && s.ok && s.ctl == []
            && e.l.words == [] && e.world.words == [] && e.l.next == LNEXT && e.world.lo == 0
  {
    hide Fresh, KernelDefs, D.Need, Place, Natives, BytesAt, LeaveAddr, Addr;
    KernelLaid();
  }

  lemma SmallDefine(e: Env, s: CState, name: seq<byte>, k: Code)
    requires |name| == 1 && s.here + 10 + Size(k) < 0xff00 && CallsIn(k, |e.l.words| + 1)
    ensures Definable(e, s, name, k) && DefSize(name, k) == 9 + Size(k)
  {
    hide CallsIn, Size;
  }

  lemma FirstFits(k: Code)
    requires Room(k)
    ensures Definable(Boot(), Fresh(), WORD_NAME, k)
  {
    hide CallsIn, Fits, Size, Fresh, Boot, Definable;
    BootParts();
    SmallDefine(Boot(), Fresh(), WORD_NAME, k);
  }

  /** `: X k ;` on the kernel. */
  function First(k: Code): CState
    requires Room(k)
  {
    FirstFits(k);
    Defined(Boot(), Fresh(), WORD_NAME, k)
  }

  function FirstEnv(k: Code): Env
    requires Room(k)
  {
    FirstFits(k);
    DefinedEnv(Boot(), Fresh(), WORD_NAME, k)
  }

  lemma FirstWorks(k: Code)
    requires Room(k)
    ensures var t := First(k);
            && t.ok && Image(FirstEnv(k)) && t.ctl == []
            && t.current <= t.here && t.here == FirstEnv(k).world.hi && t.mem == FirstEnv(k).rom
            && D.Chain(t.mem, t.current, [D.Entry(t.current, WORD_NAME)] + Entries())
            && Definable(FirstEnv(k), t, MAIN_NAME, MAIN) && FirstEnv(k).l.next == LNEXT
            && FirstEnv(k).l.words == [t.current] && FirstEnv(k).world.words == [k]
  {
    hide Image, Fits, CallsIn, Size, Fresh, Boot, Entries, D.Chain, Definable, Defined;
    BootImage();
    BootParts();
    KernelChain();
    FirstFits(k);
    MainForm();
    DefineKeepsImage(Boot(), Fresh(), WORD_NAME, k, Entries());
    SmallDefine(Boot(), Fresh(), WORD_NAME, k);
    DefinedAt(Boot(), Fresh(), WORD_NAME, k);
    assert [] + [First(k).current] == [First(k).current] && [] + [k] == [k];
    SmallDefine(FirstEnv(k), First(k), MAIN_NAME, MAIN);
  }

  /** Where a definition that completes leaves HERE, and its body. */
  lemma DefinedAt(e: Env, s: CState, name: seq<byte>, k: Code)
    requires Definable(e, s, name, k) && s.ok && Fits(k) && s.current <= s.here
    ensures var t, f := Defined(e, s, name, k), DefinedEnv(e, s, name, k);
            && t.ok && t.here == s.here + DefSize(name, k) && t.current == s.here + |name| + 3
            && Emitted(t.mem, f.l, t.current + 3, k) && t.current + 3 + Size(k) + 2 == t.here
  {
    hide Fits, CallsIn, Size, Colon, Source, CellAt, SameOutside, Emitted, D.EntryAt;
    ColonEffect(s, e.l, name, k);
  }

  lemma MainForm()
    ensures CallsIn(MAIN, 1) && CallsIn(MAIN, 2) && Fits(MAIN) && Size(MAIN) == 2
  {
  }

  /** `: X k ;` and then `: Y X ;`. */
  function Second(k: Code): CState
    requires Room(k)
  {
    FirstWorks(k);
    Defined(FirstEnv(k), First(k), MAIN_NAME, MAIN)
  }

  function SecondEnv(k: Code): Env
    requires Room(k)
  {
    FirstWorks(k);
    DefinedEnv(FirstEnv(k), First(k), MAIN_NAME, MAIN)
  }

  /** The machine about to run the body of Y, with empty stacks. */
  function Ready(m: Mem, h: word): State {
    State(m, SP_ADDR, RS_ADDR, h, LNEXT, SP_ADDR, RS_ADDR, true, [0, 0, 0, 0], [], false)
  }

  lemma SecondWorks(k: Code)
    requires Room(k)
    ensures var t, e := Second(k), SecondEnv(k);
            var h := t.current + 3;
            && t.ok && Image(e) && e.rom == t.mem && |e.world.words| == 2
            && e.world.words[0] == k && InCode(e, h, 2) && Emitted(t.mem, e.l, h, MAIN)
            && e.l.next == LNEXT && h + 2 < 0xff00
  {
    hide Image, Room, Size, Emitted, D.Chain, Entries, First, FirstEnv, Defined, Definable;
    FirstWorks(k);
    MainForm();
    var f, s := FirstEnv(k), First(k);
    DefineKeepsImage(f, s, MAIN_NAME, MAIN, [D.Entry(s.current, WORD_NAME)] + Entries());
    DefinedAt(f, s, MAIN_NAME, MAIN);
    ImageLow(SecondEnv(k));
    BelowStacks(f, s, MAIN_NAME, MAIN);
  }

  lemma ImageLow(e: Env)
    requires Image(e)
    ensures e.world.lo <= e.l.next
  {
  }

  lemma BelowStacks(e: Env, s: CState, name: seq<byte>, k: Code)
    requires Definable(e, s, name, k)
    ensures s.here + DefSize(name, k) < 0xff00
  {
  }

  /** What MAIN means in a dictionary, from empty stacks. */
  function Meaning(e: Env, fuel: nat): Out {
    Eval(fuel, MAIN, Cfg([], [], e.rom), e.world, 0)
  }

  /** Started at h with empty stacks, the machine is behind the cell at h after n
      instructions, with the stacks and memory that MAIN means, and is as it should be at
      every moment on the way. */
  ghost predicate Runs(e: Env, h: word, fuel: nat, n: nat) {
    var r := Meaning(e, fuel);
    && r.Done? && At(e, Run(n, Ready(e.rom, h)), h + 2, r.c.ps, r.c.rs, r.c.mem)
    && Holds(e, n, Ready(e.rom, h))
  }

  /** From nothing: compile any program that fits as a word, compile a second word that
      calls it, and start the machine in the second word's body with empty stacks. If the
      program has a result, the machine reaches the cell behind the call with exactly the
      stacks and memory of that result. */
  lemma ProgramRuns(k: Code, fuel: nat) returns (n: nat)
    requires Room(k) && Meaning(SecondEnv(k), fuel).Done?
    ensures Second(k).ok && SecondEnv(k).world.words[..1] == [k]
    ensures Runs(SecondEnv(k), W(Second(k).current + 3), fuel, n)
  {
    hide Image, Room, Size, Meaning, Emitted, Second, SecondEnv, First, Runs, InCode;
    SecondWorks(k);
    var e := SecondEnv(k);
    assert e.world.words[..1] == [k];
    n := RunMain(e, Second(k).current + 3, fuel);
  }

  /** A call of word 0, run from empty stacks. */
  lemma RunMain(e: Env, h: word, fuel: nat) returns (n: nat)
    requires Image(e) && e.l.next == LNEXT && InCode(e, h, 2) && Emitted(e.rom, e.l, h, MAIN)
    requires Meaning(e, fuel).Done?
    ensures Runs(e, h, fuel, n)
  {
    hide Image, Size, Eval, Run, Emitted, At, Ready, Lands, Holds;
    MainForm();
    ReadyAt(e, e.rom, h);
    n := SimCall(fuel, 0, Cfg([], [], e.rom), e, [], Ready(e.rom, h), h);
    var r := Meaning(e, fuel).c;
    LandsDone(e, Run(n, Ready(e.rom, h)), h + 2, [], r);
    assert [] + r.rs == r.rs;
  }

  lemma ReadyAt(e: Env, m: Mem, h: word)
    requires e.rom == m && e.l.next == LNEXT
    ensures At(e, Ready(m, h), h, [], [] + [], m)
  {
  }
}
