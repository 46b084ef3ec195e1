/** The 8086 of emul/8086/cpu.c for SCASB and its repeat prefixes, turn by turn and call by
    call. RepScan.dfy says what whole runs find. */
module ScasbSpec {
  import opened Words

  const RAMSIZE: nat := 0x10_0000

  type Ram = m: seq<byte> | |m| == RAMSIZE witness seq(RAMSIZE, _ => 0)

  datatype Flags = Flags(cf: bool, pf: bool, af: bool, zf: bool, sf: bool, of: bool, df: bool)

  /** unknown is set by an opcode that is not part of this model, and by a code segment of
      prefixes only, on which exec86 hangs. */
  datatype State = State(ram: Ram, cs: word, es: word, ip: word, al: byte, cx: word, di: word,
                         flags: Flags, halted: bool, unknown: bool)

  /** read86: segment times 16 plus offset, in 20 bits. */
  function Read(m: Ram, seg: word, off: word): byte {
    m[(seg * 16 + off) % RAMSIZE]
  }

  // ----- flags -----

  function Ones(x: nat): nat {
    if x == 0 then 0 else x % 2 + Ones(x / 2)
  }

  /** flag_sub8 */
  function FlagSub8(f: Flags, v1: byte, v2: byte): Flags {
    var d := B(v1 - v2);
    Flags(v1 < v2, Ones(d) % 2 == 0, (Bit(v1, 16) != Bit(v2, 16)) != Bit(d, 16), d == 0, Bit(d, 128),
          Bit(d, 128) != Bit(v1, 128) && Bit(v1, 128) != Bit(v2, 128), f.df)
  }

  // ----- one turn of the loop of exec86 -----

  datatype Rep = NoRep | Repe | Repne

  /** An opcode, the address behind it and the last repeat prefix in front of it. */
  datatype Decoded = Hangs | Decoded(opcode: byte, ip: word, rep: Rep)

  const PREFIXES: set<byte> := {0x2e, 0x3e, 0x26, 0x36}

  function Decode(s: State, ip: word, rep: Rep, fuel: nat): Decoded
    decreases fuel
  {
    if fuel == 0 then Hangs
    else
      var op := Read(s.ram, s.cs, ip);
      var next := Add16(ip, 1);
      if op in PREFIXES then Decode(s, next, rep, fuel - 1)
      else if op == 0xf3 then Decode(s, next, Repe, fuel - 1)
      else if op == 0xf2 then Decode(s, next, Repne, fuel - 1)
      else Decoded(op, next, rep)
  }

  /** The state after a turn, and whether the turn counts twice. */
  datatype Turned = Turned(s: State, twice: bool)

  function Scasb(s: State, rep: Rep, first: word): Turned {
    if rep != NoRep && s.cx == 0 then Turned(s, false)
    else
      var f := FlagSub8(s.flags, s.al, Read(s.ram, s.es, s.di));
      var di := if f.df then Sub16(s.di, 1) else Add16(s.di, 1);
      var t := s.(flags := f, di := di, cx := if rep != NoRep then Sub16(s.cx, 1) else s.cx);
      if (rep == Repe && !f.zf) || (rep == Repne && f.zf) then Turned(t, false)
      else if rep == NoRep then Turned(t, true)
      else Turned(t.(ip := first), true)
  }

  function Turn(s: State): Turned {
    match Decode(s, s.ip, NoRep, MEMSIZE)
    case Hangs => Turned(s.(unknown := true), false)
    case Decoded(op, ip, rep) =>
      if op == 0xae then Scasb(s.(ip := ip), rep, s.ip)
      else if op == 0xf4 then Turned(s.(ip := ip, halted := true), false)
      else Turned(s.(ip := ip, unknown := true), false)
  }

  predicate Over(s: State) {
    s.halted || s.unknown
  }

  /** exec86(n): turns while the budget lasts; a repeated comparison takes two. */
  function Exec(s: State, n: int): State
    decreases n
  {
    if n <= 0 || Over(s) then s
    else
      var t := Turn(s);
      Exec(t.s, n - if t.twice then 2 else 1)
  }

  /** What exec86(n) returns: 0 when it found the machine halted with budget left. */
  function Returned(s: State, n: int): nat
    decreases n
  {
    if n <= 0 || s.unknown then 1
    else if s.halted then 0
    else
      var t := Turn(s);
      Returned(t.s, n - if t.twice then 2 else 1)
  }

  /** A call answers 0 if and only if one with a budget less by one leaves the machine halted,
      and 1 otherwise. */
  lemma {:induction false} ReturnsWhen(s: State, n: int)
    ensures Returned(s, n) == if n > 0 && Exec(s, n - 1).halted && !Exec(s, n - 1).unknown then 0 else 1
    decreases n
  {
    hide Turn;
    if n > 0 && !Over(s) {
      var t := Turn(s);
      var c := if t.twice then 2 else 1;
      ReturnsWhen(t.s, n - c);
      if n - c <= 0 {
        assert Exec(s, n - 1) == if n == 1 then s else t.s;
        if n == 2 { TwiceRuns(s); }
      }
    }
  }

  /** A call that answers 0 leaves the machine halted, and from then on every call with a
      budget answers 0 and changes nothing. */
  lemma {:induction false} ReturnsHalted(s: State, n: int)
    ensures Returned(s, n) == 0 ==> Exec(s, n).halted
    ensures s.halted && !s.unknown && n > 0 ==> Returned(s, n) == 0 && Exec(s, n) == s
    decreases n
  {
    hide Turn;
    if n > 0 && !Over(s) { ReturnsHalted(Turn(s).s, n - if Turn(s).twice then 2 else 1); }
  }

  /** A turn that counts twice leaves the machine running. */
  lemma TwiceRuns(s: State)
    requires !Over(s) && Turn(s).twice
    ensures !Over(Turn(s).s)
  {
    hide Decode, FlagSub8, Read;
  }

  /** HLT halts and counts once; an opcode that is not part of the model sets unknown. */
  lemma OtherTurns(s: State)
    requires Decode(s, s.ip, NoRep, MEMSIZE).Decoded? && Decode(s, s.ip, NoRep, MEMSIZE).opcode != 0xae
    ensures var d := Decode(s, s.ip, NoRep, MEMSIZE);
            Turn(s) == Turned(if d.opcode == 0xf4 then s.(ip := d.ip, halted := true)
                              else s.(ip := d.ip, unknown := true), false)
  {
    hide Decode;
  }

  /** One call of exec86 after another. */
  function Calls(s: State, ns: seq<nat>): State
    decreases |ns|
  {
    if ns == [] then s else Calls(Exec(s, ns[0]), ns[1..])
  }

  // ----- turns, without budgets -----

  function Turns(s: State, t: nat): State
    decreases t
  {
    if t == 0 || Over(s) then s else Turns(Turn(s).s, t - 1)
  }

  lemma {:induction false} TurnsAdd(s: State, t: nat, u: nat)
    ensures Turns(Turns(s, t), u) == Turns(s, t + u)
    decreases t
  {
    hide Turn, Over;
    if t > 0 && !Over(s) { TurnsAdd(Turn(s).s, t - 1, u); }
  }

  /** How many turns a call makes. */
  function Made(s: State, n: int): nat
    decreases n
  {
    if n <= 0 || Over(s) then 0 else 1 + Made(Turn(s).s, n - if Turn(s).twice then 2 else 1)
  }

  /** A call makes whole turns, and at least half its budget of them unless the machine
      stops. */
  lemma {:induction false} ExecTurns(s: State, n: int)
    ensures Exec(s, n) == Turns(s, Made(s, n))
    ensures Over(Exec(s, n)) || 2 * Made(s, n) >= n
    decreases n
  {
    hide Turn, Over;
    if n > 0 && !Over(s) { ExecTurns(Turn(s).s, n - if Turn(s).twice then 2 else 1); }
  }

  function Sum(ns: seq<nat>): nat {
    if ns == [] then 0 else ns[0] + Sum(ns[1..])
  }

  function AllMade(s: State, ns: seq<nat>): nat
    decreases |ns|
  {
    if ns == [] then 0 else Made(s, ns[0]) + AllMade(Exec(s, ns[0]), ns[1..])
  }

  lemma {:induction false} CallsTurns(s: State, ns: seq<nat>)
    ensures Calls(s, ns) == Turns(s, AllMade(s, ns))
    ensures Over(Calls(s, ns)) || 2 * AllMade(s, ns) >= Sum(ns)
    decreases |ns|
  {
    hide Turns, Exec, Over, Made;
    if ns == [] {
      NoTurns(s);
    } else {
      var e, first, rest := Exec(s, ns[0]), Made(s, ns[0]), AllMade(Exec(s, ns[0]), ns[1..]);
      assert Calls(s, ns) == Calls(e, ns[1..]) && AllMade(s, ns) == first + rest && Sum(ns) == ns[0] + Sum(ns[1..]);
      hide Calls, AllMade, Sum;
      ExecTurns(s, ns[0]);
      CallsTurns(e, ns[1..]);
      TurnsAdd(s, first, rest);
      if Over(e) { StaysOver(e, rest); }
    }
  }

  lemma NoTurns(s: State)
    ensures Turns(s, 0) == s
  {
  }

  lemma StaysOver(s: State, t: nat)
    requires Over(s)
    ensures Turns(s, t) == s
  {
  }

  /** How the budget is split into calls does not matter: enough of it reaches the state
      that the turns alone reach when the machine stops. */
  lemma SplitIrrelevant(s: State, ns: seq<nat>, t: nat)
    requires Over(Turns(s, t)) && Sum(ns) >= 2 * t
    ensures Calls(s, ns) == Turns(s, t)
  {
    hide Turns, Over, Calls;
    CallsTurns(s, ns);
    var u := AllMade(s, ns);
    if u >= t {
      TurnsAdd(s, t, u - t);
      StaysOver(Turns(s, t), u - t);
    } else {
      TurnsAdd(s, u, t - u);
      StaysOver(Turns(s, u), t - u);
    }
  }

  // ----- addresses and flags -----

  /** Segment 0 is the start of memory, one segment more is 16 bytes more, and behind the
      last byte comes the first. */
  lemma ReadLaws(m: Ram, seg: word, off: word)
    ensures Read(m, 0, off) == m[off]
    ensures seg < 0xffff && off + 16 < 0x1_0000 ==> Read(m, seg + 1, off) == Read(m, seg, off + 16)
    ensures off < 16 ==> Read(m, 0xffff, off) == m[0xf_fff0 + off]
    ensures off >= 16 ==> Read(m, 0xffff, off) == m[off - 16]
  {
  }

  /** The flags after a comparison of v1 with v2, as unsigned and as signed bytes. */
  lemma FlagsMean(f: Flags, v1: byte, v2: byte)
    ensures var r := FlagSub8(f, v1, v2);
            && (r.zf <==> v1 == v2) && (r.cf <==> v1 < v2)
            && (r.sf <==> (v1 - v2) % 0x100 >= 0x80)
            && (r.of <==> !(-0x80 <= SignExt(v1) - SignExt(v2) < 0x80))
            && (r.af <==> v1 % 0x10 < v2 % 0x10)
            && r.df == f.df
  {
    hide Ones;
    BorrowLow(v1, v2);
  }

  lemma BorrowLow(v1: byte, v2: byte)
    ensures ((Bit(v1, 16) != Bit(v2, 16)) != Bit(B(v1 - v2), 16)) <==> v1 % 0x10 < v2 % 0x10
  {
    var h1, l1, h2, l2 := v1 / 16, v1 % 16, v2 / 16, v2 % 16;
    var d := B(v1 - v2);
    var borrow := if l1 < l2 then 1 else 0;
    assert (v1 - v2) == 16 * (h1 - h2 - borrow) + (l1 - l2 + 16 * borrow);
    var k := if v1 < v2 then 16 else 0;
    assert d == v1 - v2 + 16 * k;
    assert d / 16 == h1 - h2 - borrow + k;
    BorrowBits(h1, h2, borrow, k);
  }

  lemma BorrowBits(h1: nat, h2: nat, borrow: nat, k: nat)
    requires borrow < 2 && (k == 0 || k == 16)
    ensures ((h1 % 2 == 1) != (h2 % 2 == 1)) != ((h1 - h2 - borrow + k) % 2 == 1) <==> borrow == 1
  {
  }

  /** The parity flag says whether the difference has an even number of ones. */
  lemma ParityMeans(f: Flags, v1: byte, v2: byte)
    ensures var d := (v1 - v2) % 0x100;
            FlagSub8(f, v1, v2).pf <==>
            (d % 2 + d / 2 % 2 + d / 4 % 2 + d / 8 % 2 + d / 16 % 2 + d / 32 % 2 + d / 64 % 2 + d / 128 % 2) % 2 == 0
  {
    EightOnes((v1 - v2) % 0x100);
  }

  lemma EightOnes(d: byte)
    ensures Ones(d) == d % 2 + d / 2 % 2 + d / 4 % 2 + d / 8 % 2 + d / 16 % 2 + d / 32 % 2 + d / 64 % 2 + d / 128 % 2
  {
    hide Ones;
    FourOnes(d);
    FourOnes(d / 16);
    assert d / 16 / 2 == d / 32 && d / 16 / 4 == d / 64 && d / 16 / 8 == d / 128 && d / 16 / 16 == 0;
    NoOnes();
  }

  lemma FourOnes(x: nat)
    ensures Ones(x) == x % 2 + x / 2 % 2 + x / 4 % 2 + x / 8 % 2 + Ones(x / 16)
  {
    hide Ones;
    OnesHalf(x, x / 2);
    OnesHalf(x / 2, x / 4);
    OnesHalf(x / 4, x / 8);
    OnesHalf(x / 8, x / 16);
  }

  lemma NoOnes()
    ensures Ones(0) == 0
  {
  }

  lemma OnesHalf(x: nat, h: nat)
    requires h == x / 2
    ensures Ones(x) == x % 2 + Ones(h)
  {
  }

  lemma FlagsAgain(f: Flags, a: byte, b: byte, c: byte)
    ensures FlagSub8(FlagSub8(f, a, b), a, c) == FlagSub8(f, a, c)
  {
    hide Bit, Ones;
  }
}
