/** Whole runs of SCASB under a repeat prefix: REPNE looks for a byte equal to AL, REPE for
    one that differs, upwards or downwards, behind any string of prefixes and however exec86
    is called. */
module RepScan {
  import opened Words
  import opened ScasbSpec

  // ----- prefixes -----

  /** The byte at the instruction pointer, or k behind it. */
  function Code(s: State, k: nat): byte {
    s.ram[(s.cs * 16 + (s.ip + k) % 0x1_0000) % 0x10_0000]
  }

  predicate IsPrefix(op: byte) {
    op == 0x2e || op == 0x3e || op == 0x26 || op == 0x36 || op == 0xf2 || op == 0xf3
  }

  predicate IsRepeat(op: byte) {
    op == 0xf2 || op == 0xf3
  }

  /** n prefixes stand at the instruction pointer, and the last of those that repeat is this
      one. */
  ghost predicate Prefixed(s: State, n: nat, rep: Rep) {
    && n < MEMSIZE && rep != NoRep
    && (forall k: nat :: k < n ==> IsPrefix(Code(s, k)))
    && exists k: nat :: k < n && LastRepeat(s, n, rep, k)
  }

  predicate LastRepeat(s: State, n: nat, rep: Rep, k: nat) {
    && Code(s, k) == (if rep == Repe then 0xf3 else 0xf2)
    && forall j: nat :: k < j < n ==> !IsRepeat(Code(s, j))
  }

  lemma CodeRead(s: State, k: nat)
    ensures Code(s, k) == Read(s.ram, s.cs, W(s.ip + k))
  {
  }

  lemma NextWord(x: int)
    ensures Add16(W(x), 1) == W(x + 1)
  {
  }

  /** The repeat prefix in force before byte k. */
  function RepBefore(s: State, k: nat): Rep {
    if k == 0 then NoRep
    else if Code(s, k - 1) == 0xf3 then Repe
    else if Code(s, k - 1) == 0xf2 then Repne
    else RepBefore(s, k - 1)
  }

  lemma {:induction false} RepStays(s: State, n: nat, rep: Rep, k: nat, i: nat)
    requires LastRepeat(s, n, rep, k) && k < i <= n && rep != NoRep
    ensures RepBefore(s, i) == rep
    decreases i
  {
    hide Code;
    if i > k + 1 { RepStays(s, n, rep, k, i - 1); }
  }

  lemma {:induction false} DecodeFrom(s: State, n: nat, k: nat, op: byte)
    requires k <= n < MEMSIZE && (forall j: nat :: j < n ==> IsPrefix(Code(s, j)))
    requires Code(s, n) == op && !IsPrefix(op)
    ensures Decode(s, W(s.ip + k), RepBefore(s, k), MEMSIZE - k) == Decoded(op, W(s.ip + n + 1), RepBefore(s, n))
    decreases n - k
  {
    CodeRead(s, k);
    NextWord(s.ip + k);
    if k < n {
      assert IsPrefix(Code(s, k));
      DecodeFrom(s, n, k + 1, op);
    }
    hide Code, Read, W, Add16;
  }

  lemma DecodeRep(s: State, n: nat, rep: Rep, op: byte)
    requires Prefixed(s, n, rep) && Code(s, n) == op && !IsPrefix(op)
    ensures Decode(s, s.ip, NoRep, MEMSIZE) == Decoded(op, W(s.ip + n + 1), rep)
  {
    hide Code, Decode;
    var k: nat :| k < n && LastRepeat(s, n, rep, k);
    RepStays(s, n, rep, k, n);
    DecodeFrom(s, n, 0, op);
    assert W(s.ip + 0) == s.ip;
  }

  // ----- the scan -----

  /** The byte compared in comparison i: up from DI, or down with the direction flag. */
  function Cell(s: State, i: nat): byte {
    s.ram[(s.es * 16 + (if s.flags.df then s.di - i else s.di + i) % 0x1_0000) % 0x10_0000]
  }

  /** What ends the repetition. */
  predicate Stops(s: State, rep: Rep, i: nat) {
    if rep == Repne then Cell(s, i) == s.al else Cell(s, i) != s.al
  }

  /** SCASB under this prefix at the instruction pointer, which has n prefixes. */
  ghost predicate AtScasb(s: State, n: nat, rep: Rep) {
    Prefixed(s, n, rep) && Code(s, n) == 0xae && !Over(s)
  }

  /** And HLT behind it. */
  ghost predicate Program(s: State, n: nat, rep: Rep) {
    AtScasb(s, n, rep) && Code(s, n + 1) == 0xf4
  }

  /** The first i comparisons do not end it. */
  predicate Passed(s: State, rep: Rep, i: nat) {
    forall j: nat :: j < i ==> !Stops(s, rep, j)
  }

  lemma PassedAt(s: State, rep: Rep, i: nat, j: nat)
    requires Passed(s, rep, i)
    ensures j < i ==> !Stops(s, rep, j)
  {
  }

  /** Where DI stands after i comparisons. */
  function Place(s: State, i: nat): word {
    W(if s.flags.df then s.di - i else s.di + i)
  }

  lemma PlaceNext(s: State, i: nat)
    ensures Place(s, 0) == s.di
    ensures Place(s, i + 1) == if s.flags.df then Sub16(Place(s, i), 1) else Add16(Place(s, i), 1)
    ensures Cell(s, i) == Read(s.ram, s.es, Place(s, i))
  {
    hide Add16, Sub16;
    NextWord(s.di + i);
    LastWord(s.di - i);
  }

  lemma LastWord(x: int)
    ensures Sub16(W(x), 1) == W(x - 1)
  {
  }

  /** The state after i comparisons that did not end it. */
  function Scanned(s: State, i: nat): State
    requires i <= s.cx
  {
    s.(cx := s.cx - i, di := Place(s, i),
       flags := if i == 0 then s.flags else FlagSub8(s.flags, s.al, Cell(s, i - 1)))
  }

  /** Comparisons and memory of the rest of the scan are those of the whole. */
  lemma ScannedSame(s: State, n: nat, rep: Rep, i: nat)
    requires AtScasb(s, n, rep) && i <= s.cx
    ensures var m := Scanned(s, i);
            && AtScasb(m, n, rep) && m.flags.df == s.flags.df
            && (Program(s, n, rep) ==> Program(m, n, rep))
    ensures Cell(Scanned(s, i), 0) == Cell(s, i) && Place(Scanned(s, i), 1) == Place(s, i + 1)
  {
    var m := Scanned(s, i);
    if i > 0 { FlagsMean(s.flags, s.al, Cell(s, i - 1)); }
    hide FlagSub8;
    assert forall k: nat :: Code(m, k) == Code(s, k);
    hide Code;
    var k: nat :| k < n && LastRepeat(s, n, rep, k);
    assert LastRepeat(m, n, rep, k);
    PlaceNext(s, i);
    PlaceNext(m, 0);
  }

  /** One turn: nothing left, the end, or one more byte. */
  lemma OneTurn(s: State, n: nat, rep: Rep)
    requires AtScasb(s, n, rep)
    ensures var f := FlagSub8(s.flags, s.al, Cell(s, 0));
            var end := W(s.ip + n + 1);
            Turn(s) ==
            if s.cx == 0 then Turned(s.(ip := end), false)
            else if Stops(s, rep, 0) then Turned(s.(flags := f, di := Place(s, 1), cx := s.cx - 1, ip := end), false)
            else Turned(s.(flags := f, di := Place(s, 1), cx := s.cx - 1), true)
  {
    DecodeRep(s, n, rep, 0xae);
    FlagsMean(s.flags, s.al, Cell(s, 0));
    PlaceNext(s, 0);
    hide Decode, FlagSub8, Read, Cell, Place, Prefixed, Code;
    if s.cx > 0 { assert Sub16(s.cx, 1) == s.cx - 1; }
  }

  /** The turn after i comparisons. */
  lemma TurnAfter(s: State, n: nat, rep: Rep, i: nat)
    requires AtScasb(s, n, rep) && i <= s.cx
    ensures var m, end := Scanned(s, i), W(s.ip + n + 1);
            && !Over(m)
            && Turn(m) ==
               if i == s.cx then Turned(m.(ip := end), false)
               else if Stops(s, rep, i) then Turned(Scanned(s, i + 1).(ip := end), false)
               else Turned(Scanned(s, i + 1), true)
  {
    hide FlagSub8, Cell, Prefixed, Code, Place, Turn, Scanned, W;
    ScannedSame(s, n, rep, i);
    ScannedParts(s, i);
    OneTurn(Scanned(s, i), n, rep);
    if i < s.cx { ScannedNext(s, i); }
  }

  lemma ScannedNext(s: State, i: nat)
    requires i < s.cx
    ensures var m := Scanned(s, i);
            Scanned(s, i + 1) ==
            m.(flags := FlagSub8(m.flags, m.al, Cell(s, i)), di := Place(s, i + 1), cx := m.cx - 1)
  {
    hide FlagSub8, Cell, Place;
    if 0 < i { FlagsAgain(s.flags, s.al, Cell(s, i - 1), Cell(s, i)); }
  }

  lemma {:induction false} ScanMany(s: State, n: nat, rep: Rep, i: nat)
    requires AtScasb(s, n, rep) && i <= s.cx && Passed(s, rep, i)
    ensures Turns(s, i) == Scanned(s, i)
    decreases i
  {
    hide AtScasb, Turns, FlagSub8, Cell, Over, Turn, Stops;
    if i == 0 {
      NoTurns(s);
      PlaceNext(s, 0);
    } else {
      PassedAt(s, rep, i, i - 1);
      ScanMany(s, n, rep, i - 1);
      TurnAfter(s, n, rep, i - 1);
      TurnsAdd(s, i - 1, 1);
      OneOf(Scanned(s, i - 1));
    }
  }

  lemma OneOf(s: State)
    requires !Over(s)
    ensures Turns(s, 1) == Turn(s).s
  {
    hide Turn;
    assert Turns(s, 1) == Turns(Turn(s).s, 0);
  }

  /** A repetition counts twice against the budget of exec86: a call with a budget of b makes
      half as many comparisons, rounded up, as long as none of them ends it. */
  lemma {:induction false} BudgetScan(s: State, n: nat, rep: Rep, i: nat, b: nat)
    requires AtScasb(s, n, rep) && i <= s.cx && Passed(s, rep, i + (b + 1) / 2) && i + (b + 1) / 2 <= s.cx
    ensures Exec(Scanned(s, i), b) == Scanned(s, i + (b + 1) / 2)
    decreases b
  {
    hide AtScasb, Scanned, Turn, Stops;
    if b > 0 {
      PassedAt(s, rep, i + (b + 1) / 2, i);
      TurnAfter(s, n, rep, i);
      if b > 1 {
        BudgetScan(s, n, rep, i + 1, b - 2);
      } else {
        assert Exec(Turn(Scanned(s, i)).s, -1) == Scanned(s, i + 1);
      }
    }
  }

  // ----- the end -----

  /** i is where the scan ends: the first comparison that ends it, or the count. */
  predicate EndsAt(s: State, rep: Rep, i: nat) {
    i <= s.cx && Passed(s, rep, i) && (i == s.cx || Stops(s, rep, i))
  }

  /** There is always one such place. */
  lemma {:induction false} EndExists(s: State, rep: Rep, i: nat) returns (k: nat)
    requires i <= s.cx && Passed(s, rep, i)
    ensures EndsAt(s, rep, k)
    decreases s.cx - i
  {
    hide Stops;
    if i == s.cx || Stops(s, rep, i) { k := i; } else { k := EndExists(s, rep, i + 1); }
  }

  /** Comparisons made when the scan ends at i. */
  function Compared(s: State, i: nat): nat {
    if i < s.cx then i + 1 else i
  }

  /** The instruction pointer stays for i turns and leaves at the next, whatever comes behind. */
  lemma LeavesAtEnd(s: State, n: nat, rep: Rep, i: nat)
    requires AtScasb(s, n, rep) && EndsAt(s, rep, i)
    ensures forall j: nat :: j <= i ==> Turns(s, j) == Scanned(s, j) && Turns(s, j).ip == s.ip
    ensures Turns(s, i + 1) == Scanned(s, Compared(s, i)).(ip := W(s.ip + n + 1))
  {
    hide AtScasb, Turn, Over, Cell, Read, FlagSub8, Stops, Place, Turns;
    forall j: nat | j <= i ensures Turns(s, j) == Scanned(s, j) {
      forall h: nat | h < j ensures !Stops(s, rep, h) { PassedAt(s, rep, i, h); }
      ScanMany(s, n, rep, j);
    }
    TurnAfter(s, n, rep, i);
    TurnsAdd(s, i, 1);
    OneOf(Scanned(s, i));
  }

  lemma HaltTurn(s: State, n: nat, rep: Rep, m: State)
    requires Program(s, n, rep) && m.ram == s.ram && m.cs == s.cs && m.ip == W(s.ip + n + 1)
    ensures Turn(m).s == m.(ip := W(s.ip + n + 2), halted := true)
  {
    CodeRead(s, n + 1);
    NextWord(s.ip + n + 1);
    hide Code, Read, W, Add16, Prefixed;
    assert Decode(m, m.ip, NoRep, MEMSIZE) == Decoded(0xf4, Add16(m.ip, 1), NoRep);
  }

  /** The run of scan and HLT: one turn for each comparison, or for the empty count behind
      them, and one for HLT. */
  lemma RunEnds(s: State, n: nat, rep: Rep, i: nat)
    requires Program(s, n, rep) && EndsAt(s, rep, i)
    ensures var e := Scanned(s, Compared(s, i)).(ip := W(s.ip + n + 2), halted := true);
            Turns(s, i + 2) == e && Over(e)
  {
    hide Turns, Turn, EndsAt, Scanned, Prefixed, Code, W;
    LeavesAtEnd(s, n, rep, i);
    var c := ComparedFits(s, rep, i);
    var t := Scanned(s, c).(ip := W(s.ip + n + 1));
    ScannedParts(s, c);
    HaltTurn(s, n, rep, t);
    TurnsAdd(s, i + 1, 1);
    OneOf(t);
  }

  lemma ComparedFits(s: State, rep: Rep, i: nat) returns (c: nat)
    requires EndsAt(s, rep, i)
    ensures c == Compared(s, i) <= s.cx
  {
    c := Compared(s, i);
  }

  lemma ScannedParts(s: State, i: nat)
    requires i <= s.cx
    ensures var m := Scanned(s, i);
            && m.ram == s.ram && m.cs == s.cs && m.halted == s.halted && m.unknown == s.unknown
            && m.al == s.al && m.ip == s.ip && m.cx == s.cx - i
  {
    hide FlagSub8, Cell, Place;
  }

  /** REPNE or REPE SCASB and HLT, over any sequence of calls of exec86 with enough budget.
      It stops at the first byte, in the direction of the scan, that equals AL (REPNE) or
      differs from it (REPE) within CX bytes: CX is less by the comparisons made and DI past
      the last byte compared, whose comparison with AL the flags show. With no byte to compare
      the flags stay. */
  lemma RepScasb(s: State, n: nat, rep: Rep, ns: seq<nat>, i: nat)
    requires Program(s, n, rep) && Sum(ns) >= 2 * (i + 2)
    requires i <= s.cx && forall j: nat :: j < i ==> (Cell(s, j) == s.al) == (rep == Repe)
    requires i == s.cx || ((Cell(s, i) == s.al) == (rep == Repne))
    ensures var e := Calls(s, ns);
            var c := if i < s.cx then i + 1 else i;
            && e.halted && e.ip == (s.ip + n + 2) % 0x1_0000
            && e.ram == s.ram && e.al == s.al && e.es == s.es && e.cs == s.cs
            && e.cx == s.cx - c
            && e.di == (if s.flags.df then s.di - c else s.di + c) % 0x1_0000
            && e.flags == (if c == 0 then s.flags else FlagSub8(s.flags, s.al, Cell(s, c - 1)))
            && (i < s.cx ==> (e.flags.zf <==> rep == Repne))
            && (i == s.cx > 0 ==> (e.flags.zf <==> rep == Repe))
  {
    hide Turns, Calls, Over, FlagSub8, Cell, Prefixed, Code;
    RepOf(s, n, rep);
    EndsHere(s, rep, i);
    RunEnds(s, n, rep, i);
    SplitIrrelevant(s, ns, i + 2);
    var c := Compared(s, i);
    if c > 0 {
      FlagsMean(s.flags, s.al, Cell(s, c - 1));
      assert i == s.cx ==> (Cell(s, i - 1) == s.al) == (rep == Repe);
    }
  }

  lemma RepOf(s: State, n: nat, rep: Rep)
    requires Prefixed(s, n, rep)
    ensures rep == Repe || rep == Repne
  {
  }

  lemma EndsHere(s: State, rep: Rep, i: nat)
    requires i <= s.cx && rep != NoRep && forall j: nat :: j < i ==> (Cell(s, j) == s.al) == (rep == Repe)
    requires i == s.cx || ((Cell(s, i) == s.al) == (rep == Repne))
    ensures EndsAt(s, rep, i)
  {
    hide Cell;
    forall j: nat | j < i ensures !Stops(s, rep, j) {
      assert (Cell(s, j) == s.al) == (rep == Repe);
    }
  }

  /** A plain SCASB makes one comparison, leaves CX alone and goes on behind itself. */
  lemma PlainScasb(s: State)
    requires Code(s, 0) == 0xae && !Over(s)
    ensures var t := Turn(s).s;
            && t.cx == s.cx && t.ip == (s.ip + 1) % 0x1_0000 && !Over(t)
            && t.di == (if s.flags.df then s.di - 1 else s.di + 1) % 0x1_0000
            && t.flags == FlagSub8(s.flags, s.al, Cell(s, 0)) && t.ram == s.ram && t.al == s.al
  {
    hide Decode, FlagSub8, Read, Cell, Code;
    DecodeFrom(s, 0, 0, 0xae);
    assert W(s.ip + 0) == s.ip;
    PlaceNext(s, 0);
    FlagsMean(s.flags, s.al, Cell(s, 0));
    assert Turn(s) == Scasb(s.(ip := W(s.ip + 1)), NoRep, s.ip);
    hide Turn, Over;
  }
}
