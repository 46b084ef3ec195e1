/** What a program sees of the LCD controller: a screen of 64 rows of 120 dots, written and
    read 8 or 6 at a time at a cursor, in any mixture of both modes. */
module LcdScreen {
  import opened Bits
  import opened Words
  import opened LcdSpec

  type Dots = d: seq<seq<bool>> | |d| == 64 && forall i :: 0 <= i < 64 ==> |d[i]| == 120
    witness seq(64, _ => seq(120, _ => false))

  datatype Screen = Screen(dots: Dots, enabled: bool, inc: Inc, offset: row, r: row, c: nat,
                           justMoved: bool, eight: bool)

  function Abs(s: State): Screen {
    Screen(seq(64, r requires 0 <= r < 64 => seq(120, y requires 0 <= y < 120 => Dot(s.ram, r, y))),
           s.enabled, s.inc, s.offset, s.currow, s.curcol, s.justMoved, s.eight)
  }

  // ----- numbers as dots -----

  /** The w lowest bits of v, the highest first. */
  function Dotted(v: nat, w: nat): (d: seq<bool>)
    ensures |d| == w
  {
    seq(w, i requires 0 <= i < w => NthBit(v, w - 1 - i))
  }

  /** The number that dots spell. */
  function Number(d: seq<bool>): nat {
    if d == [] then 0 else 2 * Number(d[..|d| - 1]) + if d[|d| - 1] then 1 else 0
  }

  lemma {:induction false} NumberDotted(v: nat, w: nat)
    requires v < Pow2(w)
    ensures Number(Dotted(v, w)) == v
    decreases w
  {
    if w > 0 {
      var d := Dotted(v, w);
      forall i | 0 <= i < w - 1 ensures d[i] == Dotted(v / 2, w - 1)[i] {
        NthBitHalf(v, w - 1 - i);
      }
      assert d[..w - 1] == Dotted(v / 2, w - 1);
      NumberDotted(v / 2, w - 1);
      assert d[w - 1] == NthBit(v, 0);
    }
  }

  // ----- the same operations on dots -----

  datatype Op = Command(v: byte) | ReadData | WriteData(v: byte)

  function Width(eight: bool): nat { if eight then 8 else 6 }

  function Columns(eight: bool): nat { if eight then 15 else 20 }

  /** The cursor stands on a column of the mode in force, and data fits. */
  predicate Allowed(p: Screen, op: Op) {
    match op
    case Command(_) => true
    case ReadData => p.justMoved || p.c < Columns(p.eight)
    case WriteData(v) => p.c < Columns(p.eight) && (p.eight || v < 64)
  }

  function Step(s: State, op: Op): (State, int)
    requires Allowed(Abs(s), op)
  {
    CursorFits(s);
    match op
    case Command(v) => (Cmd(s, v), 0)
    case ReadData => DataRd(s)
    case WriteData(v) => (DataWr(s, v), 0)
  }

  lemma CursorFits(s: State)
    ensures s.curcol < Columns(s.eight) ==> InRange(s)
  {
  }

  /** The next position of the cursor: rows wrap at 64, columns at 15 or 20. */
  function Moved(p: Screen): Screen {
    match p.inc
    case XDec => p.(r := if p.r == 0 then 63 else p.r - 1)
    case XInc => p.(r := if p.r == 63 then 0 else p.r + 1)
    case YDec => p.(c := if p.c == 0 then Columns(p.eight) - 1 else p.c - 1)
    case YInc => p.(c := if p.c == Columns(p.eight) - 1 then 0 else p.c + 1)
  }

  /** Dots of row r from y on replaced. */
  function Painted(d: Dots, r: row, y: nat, new_: seq<bool>): Dots
    requires y + |new_| <= 120
  {
    d[r := d[r][..y] + new_ + d[r][y + |new_|..]]
  }

  function ScreenStep(p: Screen, op: Op): (Screen, int)
    requires Allowed(p, op)
  {
    var w := Width(p.eight);
    match op
    case Command(v) =>
      (if v >= 0xc0 then p
       else if v >= 0x80 then p.(r := v - 0x80, justMoved := true)
       else if v >= 0x40 then p.(offset := v - 0x40)
       else if v >= 0x20 then p.(c := v - 0x20, justMoved := true)
       else if v == 7 then p.(inc := YInc)
       else if v == 6 then p.(inc := YDec)
       else if v == 5 then p.(inc := XInc)
       else if v == 4 then p.(inc := XDec)
       else if v == 3 then p.(enabled := true)
       else if v == 2 then p.(enabled := false)
       else if v == 1 then p.(eight := true)
       else if v == 0 then p.(eight := false)
       else p, 0)
    case ReadData =>
      if p.justMoved then (p.(justMoved := false), 0)
      else (Moved(p), Number(p.dots[p.r][w * p.c..w * p.c + w]))
    case WriteData(v) =>
      (Moved(p.(justMoved := false, dots := Painted(p.dots, p.r, w * p.c, Dotted(v, w)))), 0)
  }

  // ----- the refinement -----

  lemma DotAt(s: State, r: row, y: nat)
    requires y < 120
    ensures Abs(s).dots[r][y] == Dot(s.ram, r, y)
  {
    hide Dot;
  }

  lemma PaintedAt(d: Dots, r: row, y: nat, new_: seq<bool>, r': row, y': nat)
    requires y + |new_| <= 120 && y' < 120
    ensures Painted(d, r, y, new_)[r'][y'] ==
            if r' == r && y <= y' < y + |new_| then new_[y' - y] else d[r'][y']
  {
  }

  /** A byte written in 8-bit mode is eight dots. */
  lemma ByteDots(m: Ram, r: row, c: nat, v: byte, r': row, y: nat)
    requires c < 15 && y < 120
    ensures Dot(m[r * ROWSIZE + c := v], r', y) ==
            if r' == r && 8 * c <= y < 8 * c + 8 then Dotted(v, 8)[y - 8 * c] else Dot(m, r', y)
  {
    hide NthBit;
    assert r' * ROWSIZE + y / 8 == r * ROWSIZE + c <==> r' == r && y / 8 == c;
    assert y / 8 == c <==> 8 * c <= y < 8 * c + 8;
  }

  /** A cell written in 6-bit mode is six dots. */
  lemma CellDots(m: Ram, r: row, c: nat, v: six, r': row, y: nat)
    requires c < COLS && y < 120
    ensures Dot(SetCell(m, r, c, v), r', y) ==
            if r' == r && 6 * c <= y < 6 * c + 6 then Dotted(v, 6)[y - 6 * c] else Dot(m, r', y)
  {
    hide NthBit, Cell, SetCell, Dot;
    DotIsCellBit(SetCell(m, r, c, v), r', y);
    DotIsCellBit(m, r', y);
    CellWritten(m, r, c, v, r', y / 6);
    assert y / 6 == c <==> 6 * c <= y < 6 * c + 6;
  }

  /** Memory after the write at the cursor. */
  function Stored(s: State, v: byte): Ram
    requires s.curcol < Columns(s.eight) && (s.eight || v < 64)
  {
    CursorFits(s);
    if s.eight then s.ram[s.currow * ROWSIZE + s.curcol := v] else SetCell(s.ram, s.currow, s.curcol, v)
  }

  lemma StoredDots(s: State, v: byte)
    requires s.curcol < Columns(s.eight) && (s.eight || v < 64)
    ensures var w := Width(s.eight);
            && w * s.curcol + w <= 120
            && Abs(s.(ram := Stored(s, v))).dots == Painted(Abs(s).dots, s.currow, w * s.curcol, Dotted(v, w))
  {
    hide Dot, SetCell, Dotted, Painted, Abs;
    var w := Width(s.eight);
    var a := Abs(s.(ram := Stored(s, v))).dots;
    var b := Painted(Abs(s).dots, s.currow, w * s.curcol, Dotted(v, w));
    forall r: row, y: nat | y < 120 ensures a[r][y] == b[r][y] {
      DotAt(s.(ram := Stored(s, v)), r, y);
      DotAt(s, r, y);
      PaintedAt(Abs(s).dots, s.currow, w * s.curcol, Dotted(v, w), r, y);
      if s.eight {
        ByteDots(s.ram, s.currow, s.curcol, v, r, y);
      } else {
        CellDots(s.ram, s.currow, s.curcol, v, r, y);
      }
    }
    forall i | 0 <= i < 64 ensures a[i] == b[i] {
      var r: row := i;
      assert forall y: nat :: y < 120 ==> a[r][y] == b[r][y];
    }
  }

  /** What the cursor points to, read as a number. */
  lemma ReadDots(s: State)
    requires s.curcol < Columns(s.eight)
    ensures var w := Width(s.eight);
            var d := Abs(s).dots[s.currow][w * s.curcol..w * s.curcol + w];
            Number(d) == if s.eight then s.ram[s.currow * ROWSIZE + s.curcol] else Cell(s.ram, s.currow, s.curcol)
  {
    Powers();
    hide Dot, Cell, Abs, NthBit, Number, Pow2;
    var w, r, c := Width(s.eight), s.currow, s.curcol;
    var v: nat := if s.eight then s.ram[r * ROWSIZE + c] else Cell(s.ram, r, c);
    var d := Abs(s).dots[r][w * c..w * c + w];
    forall i | 0 <= i < w ensures d[i] == Dotted(v, w)[i] {
      DotAt(s, r, w * c + i);
      CutDots(w, c, i);
      if s.eight { DotOf(s.ram, r, w * c + i); } else { DotIsCellBit(s.ram, r, w * c + i); }
    }
    assert d == Dotted(v, w);
    NumberDotted(v, w);
  }

  lemma DotOf(m: Ram, r: row, y: nat)
    requires y < 120
    ensures Dot(m, r, y) == NthBit(m[r * ROWSIZE + y / 8], 7 - y % 8)
  {
  }

  lemma CutDots(w: nat, c: nat, i: nat)
    requires (w == 8 || w == 6) && i < w
    ensures (w * c + i) / w == c && (w * c + i) % w == i
  {
  }

  lemma AbsFields(s: State)
    ensures Abs(s) == Screen(Abs(s).dots, s.enabled, s.inc, s.offset, s.currow, s.curcol, s.justMoved, s.eight)
  {
    hide Dot;
  }

  lemma SameRam(s: State, t: State)
    requires t.ram == s.ram
    ensures Abs(t).dots == Abs(s).dots
  {
    hide Dot;
  }

  lemma AdvanceMoves(s: State)
    requires s.curcol < Columns(s.eight)
    ensures Abs(Advance(s)) == Moved(Abs(s))
  {
    hide Abs;
    AbsFields(s);
    AbsFields(Advance(s));
    SameRam(s, Advance(s));
  }

  lemma CommandRefines(s: State, v: byte)
    ensures Abs(Cmd(s, v)) == ScreenStep(Abs(s), Command(v)).0
  {
    hide Abs;
    AbsFields(s);
    AbsFields(Cmd(s, v));
    SameRam(s, Cmd(s, v));
    LowBits(v);
  }

  lemma LowBits(v: byte)
    ensures 0x80 <= v < 0xc0 ==> v % 0x40 == v - 0x80
    ensures 0x40 <= v < 0x80 ==> v % 0x40 == v - 0x40
    ensures 0x20 <= v < 0x40 ==> v % 0x20 == v - 0x20
    ensures 0x04 <= v < 0x08 ==> v % 4 == v - 4
    ensures 0x02 <= v < 0x04 ==> v % 2 == v - 2
  {
  }

  lemma SameDots(s: State, t: State)
    requires t == s.(justMoved := t.justMoved)
    ensures Abs(t) == Abs(s).(justMoved := t.justMoved)
  {
  }

  /** One operation on the packed memory is the operation on the dots, in both modes. */
  lemma StepRefines(s: State, op: Op)
    requires Allowed(Abs(s), op)
    ensures (Abs(Step(s, op).0), Step(s, op).1) == ScreenStep(Abs(s), op)
  {
    hide Dot, Advance, Moved, Cell, SetCell, Painted, Dotted, Number;
    match op {
      case Command(v) => CommandRefines(s, v);
      case ReadData =>
        if s.justMoved {
          SameDots(s, s.(justMoved := false));
        } else {
          ReadDots(s);
          ReadGives(s);
          AdvanceMoves(s);
        }
      case WriteData(v) =>
        var t := s.(justMoved := false);
        var u := t.(ram := Stored(s, v));
        StoredDots(t, v);
        SameDots(s, t);
        AdvanceMoves(u);
        WriteStores(s, v);
        AbsRam(t, u);
    }
  }

  lemma ReadGives(s: State)
    requires s.curcol < Columns(s.eight) && !s.justMoved
    ensures InRange(s)
    ensures DataRd(s) == (Advance(s), if s.eight then s.ram[s.currow * ROWSIZE + s.curcol]
                                      else Cell(s.ram, s.currow, s.curcol))
  {
    hide Advance, ReadBits;
    CursorFits(s);
  }

  lemma WriteStores(s: State, v: byte)
    requires s.curcol < Columns(s.eight) && (s.eight || v < 64)
    ensures InRange(s) && DataWr(s, v) == Advance(s.(justMoved := false, ram := Stored(s, v)))
  {
    hide Advance, WriteBits;
    CursorFits(s);
  }

  lemma AbsRam(s: State, t: State)
    requires t == s.(ram := t.ram)
    ensures Abs(t) == Abs(s).(dots := Abs(t).dots)
  {
    hide Dot;
  }

  function Run(s: State, ops: seq<Op>): (State, seq<int>)
    requires AllAllowed(Abs(s), ops)
    decreases |ops|
  {
    if ops == [] then (s, [])
    else
      StepRefines(s, ops[0]);
      var (t, out) := Step(s, ops[0]);
      var (u, outs) := Run(t, ops[1..]);
      (u, [out] + outs)
  }

  predicate AllAllowed(p: Screen, ops: seq<Op>)
    decreases |ops|
  {
    ops == [] || (Allowed(p, ops[0]) && AllAllowed(ScreenStep(p, ops[0]).0, ops[1..]))
  }

  function ScreenRun(p: Screen, ops: seq<Op>): (Screen, seq<int>)
    requires AllAllowed(p, ops)
    decreases |ops|
  {
    if ops == [] then (p, [])
    else
      var (t, out) := ScreenStep(p, ops[0]);
      var (u, outs) := ScreenRun(t, ops[1..]);
      (u, [out] + outs)
  }

  /** Every run, whatever the mixture of modes: the same numbers read and the same dots. */
  lemma {:induction false} RunRefines(s: State, ops: seq<Op>)
    requires AllAllowed(Abs(s), ops)
    ensures (Abs(Run(s, ops).0), Run(s, ops).1) == ScreenRun(Abs(s), ops)
    decreases |ops|
  {
    hide Abs, Step, ScreenStep, Allowed;
    if ops != [] {
      StepRefines(s, ops[0]);
      RunRefines(Step(s, ops[0]).0, ops[1..]);
    }
  }

  /** After any run a pixel of the screen is the dot of the scrolled row. */
  lemma PixelsShow(s: State, ops: seq<Op>, y: nat, x: byte)
    requires AllAllowed(Abs(s), ops) && y < 120
    ensures var t, p := Run(s, ops).0, ScreenRun(Abs(s), ops).0;
            OnScreen(t, y, x) && Pixel(t, y, x) == p.dots[(x + p.offset) % 64][y]
  {
    hide Run, ScreenRun, Dot, Pixel;
    RunRefines(s, ops);
    var t := Run(s, ops).0;
    PixelIsDot(t, y, x);
    DotAt(t, (x + t.offset) % 64, y);
  }

  /** After a start the screen is blank. */
  lemma StartsBlank()
    ensures Abs(Init()) == Screen(seq(64, _ => seq(120, _ => false)), false, XInc, 0, 0, 0, true, false)
  {
    forall r: row, y: nat | y < 120 ensures !Dot(Init().ram, r, y) { ZeroBits(7 - y % 8); }
    hide Dot;
    var a, b := Abs(Init()).dots, seq(64, _ => seq(120, _ => false));
    forall i | 0 <= i < 64 ensures a[i] == b[i] {
      forall y: nat | y < 120 ensures a[i][y] == b[i][y] { DotAt(Init(), i, y); }
    }
    assert a == b;
  }

  lemma {:induction false} ZeroBits(n: nat)
    ensures !NthBit(0, n)
    decreases n
  {
    if n > 0 { ZeroBits(n - 1); }
  }
}
