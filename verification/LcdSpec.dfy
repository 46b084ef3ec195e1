/** The LCD controller of emul/z80/t6a04.c and its packed memory: in 6-bit mode 64 rows of 20
    cells. LcdScreen.dfy says what both modes do to the screen. */
module LcdSpec {
  import opened Bits
  import opened Words

  const ROWSIZE: nat := 15
  const LINES: nat := 64
  const COLS: nat := 20

  /** The display memory and one byte behind it, which the last cell's 16-bit access
      touches. */
  type Ram = m: seq<byte> | |m| == LINES * ROWSIZE + 1 witness seq(LINES * ROWSIZE + 1, _ => 0)

  type row = r: int | 0 <= r < LINES

  type six = v: int | 0 <= v < 64

  datatype Inc = XDec | XInc | YDec | YInc

  datatype State = State(ram: Ram, enabled: bool, inc: Inc, offset: row, currow: row, curcol: byte,
                         justMoved: bool, eight: bool)

  function Init(): State {
    State(seq(LINES * ROWSIZE + 1, _ => 0), false, XInc, 0, 0, 0, true, false)
  }

  // ----- the C code -----

  function IncOf(v: byte): Inc {
    if v % 4 == 0 then XDec else if v % 4 == 1 then XInc else if v % 4 == 2 then YDec else YInc
  }

  /** t6a04_cmd_wr */
  function Cmd(s: State, v: byte): State {
    if v >= 0xc0 then s
    else if v >= 0x80 then s.(currow := v % 0x40, justMoved := true)
    else if v >= 0x40 then s.(offset := v % 0x40)
    else if v >= 0x20 then s.(curcol := v % 0x20, justMoved := true)
    else if v >= 0x08 then s
    else if v >= 0x04 then s.(inc := IncOf(v))
    else if v >= 0x02 then s.(enabled := v % 2 == 1)
    else s.(eight := v == 1)
  }

  function Advance(s: State): State {
    var maxY: byte := if s.eight then 14 else 19;
    match s.inc
    case XDec => s.(currow := if s.currow == 0 then 63 else s.currow - 1)
    case XInc => s.(currow := if s.currow == 63 then 0 else s.currow + 1)
    case YDec => s.(curcol := if s.curcol == 0 then maxY else s.curcol - 1)
    case YInc => s.(curcol := if s.curcol < maxY then s.curcol + 1 else 0)
  }

  function Shift(col: nat): nat {
    10 - col * 6 % 8
  }

  function Pos(r: row, col: nat): nat {
    r * ROWSIZE + col * 6 / 8
  }

  function Pair(m: Ram, p: nat): word
    requires p + 1 < |m|
  {
    (m[p] as int) * 0x100 + m[p + 1]
  }

  /** (word >> offset) & 0x3f */
  function Field(w: word, shift: nat): six {
    Pow2Positive(shift);
    w / Pow2(shift) % 64
  }

  /** word &= ~(0x3f << offset); word |= val << offset, for a val of 6 bits. */
  function SetField(w: word, shift: nat, v: six): int {
    w - Field(w, shift) * Pow2(shift) + v * Pow2(shift)
  }

  lemma PosFits(r: row, c: nat)
    requires c < COLS
    ensures Pos(r, c) + 1 < LINES * ROWSIZE + 1
  {
  }

  /** Six bits of the 16 at p. */
  function ReadBits(m: Ram, p: nat, shift: nat): six
    requires p + 1 < |m|
  {
    Field(Pair(m, p), shift)
  }

  function WriteBits(m: Ram, p: nat, shift: nat, v: six): Ram
    requires p + 1 < |m|
  {
    var w := W(SetField(Pair(m, p), shift, v));
    m[p := w / 0x100][p + 1 := w % 0x100]
  }

  function Cell(m: Ram, r: row, c: nat): six
    requires c < COLS
  {
    PosFits(r, c);
    ReadBits(m, Pos(r, c), Shift(c))
  }

  function SetCell(m: Ram, r: row, c: nat, v: six): Ram
    requires c < COLS
  {
    PosFits(r, c);
    WriteBits(m, Pos(r, c), Shift(c), v)
  }

  /** The cursor is in memory. Columns past the last reach into the next row. */
  predicate InRange(s: State) {
    if s.eight then s.currow * ROWSIZE + s.curcol < LINES * ROWSIZE
    else Pos(s.currow, s.curcol) < LINES * ROWSIZE
  }

  /** t6a04_data_rd */
  function DataRd(s: State): (State, byte)
    requires s.justMoved || InRange(s)
  {
    if s.justMoved then (s.(justMoved := false), 0)
    else if s.eight then (Advance(s), s.ram[s.currow * ROWSIZE + s.curcol])
    else (Advance(s), ReadBits(s.ram, Pos(s.currow, s.curcol), Shift(s.curcol)))
  }

  /** t6a04_data_wr */
  function DataWr(s: State, v: byte): State
    requires InRange(s) && (s.eight || v < 64)
  {
    var t := s.(justMoved := false);
    if s.eight then Advance(t.(ram := t.ram[s.currow * ROWSIZE + s.curcol := v]))
    else Advance(t.(ram := WriteBits(s.ram, Pos(s.currow, s.curcol), Shift(s.curcol), v)))
  }

  /** The byte of a pixel is in memory. From 120 on y reaches into the next rows. */
  predicate OnScreen(s: State, y: nat, x: byte) {
    (x + s.offset) % 0x40 * ROWSIZE + y / 8 < LINES * ROWSIZE
  }

  /** t6a04_pixel */
  predicate Pixel(s: State, y: nat, x: byte)
    requires OnScreen(s, y, x)
  {
    var r := (x + s.offset) % 0x40;
    NthBit(s.ram[r * ROWSIZE + y / 8], 7 - y % 8)
  }

  // ----- four cells in three bytes -----

  datatype Triple = Triple(b0: byte, b1: byte, b2: byte)

  function Get(t: Triple, j: nat): six {
    if j == 0 then t.b0 / 4
    else if j == 1 then t.b0 % 4 * 16 + t.b1 / 16
    else if j == 2 then t.b1 % 16 * 4 + t.b2 / 64
    else t.b2 % 64
  }

  function Put(t: Triple, j: nat, v: six): Triple {
    if j == 0 then t.(b0 := v * 4 + t.b0 % 4)
    else if j == 1 then t.(b0 := t.b0 / 4 * 4 + v / 16, b1 := v % 16 * 16 + t.b1 % 16)
    else if j == 2 then t.(b1 := t.b1 / 16 * 16 + v / 4, b2 := v % 4 * 64 + t.b2 % 64)
    else t.(b2 := t.b2 / 64 * 64 + v)
  }

  lemma Put0(t: Triple, v: six)
    ensures var u := Put(t, 0, v); Get(u, 0) == v && Get(u, 1) == Get(t, 1)
  {
  }

  lemma Put1(t: Triple, v: six)
    ensures var u := Put(t, 1, v); Get(u, 0) == Get(t, 0) && Get(u, 1) == v && Get(u, 2) == Get(t, 2)
  {
    assert (v % 16 * 16 + t.b1 % 16) / 16 == v % 16 && (v % 16 * 16 + t.b1 % 16) % 16 == t.b1 % 16;
    assert (t.b0 / 4 * 4 + v / 16) / 4 == t.b0 / 4 && (t.b0 / 4 * 4 + v / 16) % 4 == v / 16;
  }

  lemma Put2(t: Triple, v: six)
    ensures var u := Put(t, 2, v); Get(u, 1) == Get(t, 1) && Get(u, 2) == v && Get(u, 3) == Get(t, 3)
  {
    assert (t.b1 / 16 * 16 + v / 4) / 16 == t.b1 / 16 && (t.b1 / 16 * 16 + v / 4) % 16 == v / 4;
    assert (v % 4 * 64 + t.b2 % 64) / 64 == v % 4 && (v % 4 * 64 + t.b2 % 64) % 64 == t.b2 % 64;
  }

  lemma Put3(t: Triple, v: six)
    ensures var u := Put(t, 3, v); Get(u, 2) == Get(t, 2) && Get(u, 3) == v
  {
  }

  /** A cell is read back, and the other three keep their value. */
  lemma PutGet(t: Triple, j: nat, k: nat, v: six)
    requires j < 4 && k < 4
    ensures Get(Put(t, j, v), k) == if j == k then v else Get(t, k)
  {
    PutKeeps(t, j, v);
    hide Put, Get;
    if j == 0 { Put0(t, v); } else if j == 1 { Put1(t, v); } else if j == 2 { Put2(t, v); } else { Put3(t, v); }
  }

  /** Cells that share no byte with the one written. */
  lemma PutKeeps(t: Triple, j: nat, v: six)
    ensures j == 0 ==> Get(Put(t, j, v), 2) == Get(t, 2) && Get(Put(t, j, v), 3) == Get(t, 3)
    ensures j == 1 ==> Get(Put(t, j, v), 3) == Get(t, 3)
    ensures j == 2 ==> Get(Put(t, j, v), 0) == Get(t, 0)
    ensures j == 3 ==> Get(Put(t, j, v), 0) == Get(t, 0) && Get(Put(t, j, v), 1) == Get(t, 1)
  {
  }

  /** Where the three bytes of a cell start. */
  function Base(r: row, c: nat): nat {
    r * ROWSIZE + c / 4 * 3
  }

  lemma BaseFits(r: row, c: nat)
    requires c < COLS
    ensures Base(r, c) + 3 <= LINES * ROWSIZE
  {
  }

  function TripleAt(m: Ram, p: nat): Triple
    requires p + 3 <= LINES * ROWSIZE
  {
    Triple(m[p], m[p + 1], m[p + 2])
  }

  function SetTriple(m: Ram, p: nat, t: Triple): Ram
    requires p + 3 <= LINES * ROWSIZE
  {
    m[p := t.b0][p + 1 := t.b1][p + 2 := t.b2]
  }

  /** Position and shift by the place of the cell in its group. */
  lemma Layout(r: row, c: nat)
    requires c < COLS
    ensures var p, j := Base(r, c), c % 4;
            && Pos(r, c) == p + (if j == 0 then 0 else j - 1)
            && Shift(c) == if j == 0 then 10 else if j == 1 then 4 else if j == 2 then 6 else 8
  {
    assert c == 4 * (c / 4) + c % 4;
  }

  lemma Field10(b: byte, d: byte)
    ensures ((b as int) * 0x100 + d) / 1024 % 64 == b / 4
  {
  }

  lemma Field4(b: byte, d: byte)
    ensures ((b as int) * 0x100 + d) / 16 % 64 == b % 4 * 16 + d / 16
  {
    assert ((b as int) * 0x100 + d) / 16 == (b as int) * 16 + d / 16;
    assert (b as int) * 16 + d / 16 == 64 * (b / 4) + (b % 4 * 16 + d / 16);
  }

  lemma Field6(b: byte, d: byte)
    ensures ((b as int) * 0x100 + d) / 64 % 64 == b % 16 * 4 + d / 64
  {
    assert ((b as int) * 0x100 + d) / 64 == (b as int) * 4 + d / 64;
    assert (b as int) * 4 + d / 64 == 64 * (b / 16) + (b % 16 * 4 + d / 64);
  }

  lemma Field8(b: byte, d: byte)
    ensures ((b as int) * 0x100 + d) / 256 % 64 == b % 64
  {
  }

  lemma FieldGet(b: byte, d: byte)
    ensures var w := (b as int) * 0x100 + d;
            && Field(w, 10) == b / 4 && Field(w, 4) == b % 4 * 16 + d / 16
            && Field(w, 6) == b % 16 * 4 + d / 64 && Field(w, 8) == b % 64
  {
    Powers();
    hide Pow2;
    Field10(b, d);
    Field4(b, d);
    Field6(b, d);
    Field8(b, d);
  }

  lemma CellForm(m: Ram, r: row, c: nat)
    requires c < COLS
    ensures Base(r, c) + 3 <= LINES * ROWSIZE
    ensures Cell(m, r, c) == Get(TripleAt(m, Base(r, c)), c % 4)
  {
    BaseFits(r, c);
    Layout(r, c);
    PosFits(r, c);
    hide Field, Base, Pos, Shift;
    FieldGet(m[Pos(r, c)], m[Pos(r, c) + 1]);
  }

  /** The new 16 bits, byte by byte. */
  lemma FieldPut(b: byte, d: byte, v: six)
    ensures var w := (b as int) * 0x100 + d;
            && SetField(w, 10, v) == (v * 4 + b % 4 as int) * 0x100 + d
            && SetField(w, 4, v) == (b / 4 * 4 + v / 16) * 0x100 + (v % 16 * 16 + d % 16)
            && SetField(w, 6, v) == (b / 16 * 16 + v / 4) * 0x100 + (v % 4 * 64 + d % 64)
            && SetField(w, 8, v) == (b / 64 * 64 + v) * 0x100 + d
  {
    Powers();
    FieldGet(b, d);
    hide Pow2, Field;
  }

  lemma Bytes(h: byte, l: byte)
    ensures W((h as int) * 0x100 + l) / 0x100 == h && W((h as int) * 0x100 + l) % 0x100 == l
  {
  }

  /** The two bytes that a write stores. */
  lemma SetBytes(m: Ram, r: row, c: nat, v: six, h: byte, l: byte)
    requires c < COLS && Pos(r, c) + 1 < |m|
    requires SetField(Pair(m, Pos(r, c)), Shift(c), v) == (h as int) * 0x100 + l
    ensures SetCell(m, r, c, v) == m[Pos(r, c) := h][Pos(r, c) + 1 := l]
  {
    hide SetField, Pair, Shift, Pos, W;
    Bytes(h, l);
  }

  lemma SetCellForm(m: Ram, r: row, c: nat, v: six)
    requires c < COLS
    ensures Base(r, c) + 3 <= LINES * ROWSIZE
    ensures SetCell(m, r, c, v) == SetTriple(m, Base(r, c), Put(TripleAt(m, Base(r, c)), c % 4, v))
  {
    hide Field, SetField, Base, Pos, Shift, W, SetCell;
    BaseFits(r, c);
    Layout(r, c);
    PosFits(r, c);
    var p := Pos(r, c);
    FieldPut(m[p], m[p + 1], v);
    var b := Base(r, c);
    var t := TripleAt(m, b);
    var u := Put(t, c % 4, v);
    if c % 4 == 0 {
      SetBytes(m, r, c, v, u.b0, m[p + 1]);
      assert m[b := u.b0][b + 1 := m[b + 1]] == SetTriple(m, b, u);
    } else if c % 4 == 1 {
      SetBytes(m, r, c, v, u.b0, u.b1);
      assert m[b := u.b0][b + 1 := u.b1] == SetTriple(m, b, u);
    } else if c % 4 == 2 {
      SetBytes(m, r, c, v, u.b1, u.b2);
      assert m[b + 1 := u.b1][b + 2 := u.b2] == SetTriple(m, b, u);
    } else {
      SetBytes(m, r, c, v, u.b2, m[p + 1]);
      assert m[b + 2 := u.b2][b + 3 := m[b + 3]] == SetTriple(m, b, u);
    }
  }

  lemma Apart(r: row, c: nat, r': row, c': nat)
    requires c < COLS && c' < COLS
    ensures r == r' && c / 4 == c' / 4 ==> Base(r, c) == Base(r', c')
    ensures !(r == r' && c / 4 == c' / 4) ==> Base(r, c) + 3 <= Base(r', c') || Base(r', c') + 3 <= Base(r, c)
  {
  }

  /** Writing a cell changes that cell and no other. */
  lemma CellWritten(m: Ram, r: row, c: nat, v: six, r': row, c': nat)
    requires c < COLS && c' < COLS
    ensures Cell(SetCell(m, r, c, v), r', c') == if r == r' && c == c' then v else Cell(m, r', c')
  {
    var n := SetCell(m, r, c, v);
    SetCellForm(m, r, c, v);
    CellForm(n, r', c');
    CellForm(m, r', c');
    Apart(r, c, r', c');
    hide Cell, SetCell, Base, Get, Put;
    var p, p' := Base(r, c), Base(r', c');
    var t := TripleAt(m, p);
    PutGet(t, c % 4, c' % 4, v);
    if p == p' {
      assert TripleAt(n, p) == Put(t, c % 4, v);
    } else {
      assert TripleAt(n, p') == TripleAt(m, p');
    }
  }

  // ----- pixels -----

  /** How the bytes and the cells are made of the same fields. */
  lemma Fields(t: Triple, n: nat)
    ensures NthBit(t.b0, n) == if n < 2 then NthBit(t.b0 % 4, n) else NthBit(t.b0 / 4, n - 2)
    ensures NthBit(t.b1, n) == if n < 4 then NthBit(t.b1 % 16, n) else NthBit(t.b1 / 16, n - 4)
    ensures NthBit(t.b2, n) == if n < 6 then NthBit(t.b2 % 64, n) else NthBit(t.b2 / 64, n - 6)
    ensures NthBit(Get(t, 1), n) == if n < 4 then NthBit(t.b1 / 16, n) else NthBit(t.b0 % 4, n - 4)
    ensures NthBit(Get(t, 2), n) == if n < 2 then NthBit(t.b2 / 64, n) else NthBit(t.b1 % 16, n - 2)
  {
    Powers();
    hide Pow2, NthBit;
    Concat(t.b0 / 4, 2, t.b0 % 4, n);
    Concat(t.b1 / 16, 4, t.b1 % 16, n);
    Concat(t.b2 / 64, 6, t.b2 % 64, n);
    Concat(t.b0 % 4, 4, t.b1 / 16, n);
    Concat(t.b1 % 16, 2, t.b2 / 64, n);
  }

  /** Pixel k of the 24 in three bytes. */
  predicate ByteBit(t: Triple, k: nat)
    requires k < 24
  {
    NthBit(if k < 8 then t.b0 else if k < 16 then t.b1 else t.b2, 7 - k % 8)
  }

  predicate CellBit(t: Triple, k: nat)
    requires k < 24
  {
    NthBit(Get(t, k / 6), 5 - k % 6)
  }

  lemma SamePixel(t: Triple, k: nat)
    requires k < 24
    ensures ByteBit(t, k) == CellBit(t, k)
  {
    hide NthBit;
    Fields(t, 7 - k % 8);
    Fields(t, 5 - k % 6);
  }

  lemma PixelPlace(r: row, y: nat)
    requires y < 120
    ensures var g, k := y / 24, y % 24;
            && y / 6 == 4 * g + k / 6 < COLS && y / 6 % 4 == k / 6 && y % 6 == k % 6
            && r * ROWSIZE + y / 8 == Base(r, y / 6) + k / 8 && y % 8 == k % 8
            && Base(r, y / 6) + 3 <= LINES * ROWSIZE
  {
    hide Base;
    var g, k := y / 24, y % 24;
    Cut(y, 6, 4 * g + k / 6, k % 6);
    Cut(y, 8, 3 * g + k / 8, k % 8);
    Cut(y / 6, 4, g, k / 6);
    BaseAt(r, g, k / 6);
  }

  lemma Cut(y: nat, n: nat, q: nat, m: nat)
    requires n in {4, 6, 8} && y == n * q + m && m < n
    ensures y / n == q && y % n == m
  {
  }

  lemma BaseAt(r: row, g: nat, k: nat)
    requires g < 5 && k < 4
    ensures Base(r, 4 * g + k) == r * ROWSIZE + 3 * g && Base(r, 4 * g + k) + 3 <= LINES * ROWSIZE
  {
  }

  /** Dot y of a row of memory, as a bit of its byte and as a bit of its cell. */
  predicate Dot(m: Ram, r: row, y: nat)
    requires y < 120
  {
    NthBit(m[r * ROWSIZE + y / 8], 7 - y % 8)
  }

  lemma DotIsCellBit(m: Ram, r: row, y: nat)
    requires y < 120
    ensures y / 6 < COLS && Dot(m, r, y) == NthBit(Cell(m, r, y / 6), 5 - y % 6)
  {
    hide Cell, NthBit, Get, Base;
    PixelPlace(r, y);
    CellForm(m, r, y / 6);
    PixelByte(m, r, y);
    SamePixel(TripleAt(m, Base(r, y / 6)), y % 24);
  }

  /** The pixel on the screen is a dot, scrolled by the offset. */
  lemma PixelIsDot(s: State, y: nat, x: byte)
    requires y < 120
    ensures OnScreen(s, y, x) && Pixel(s, y, x) == Dot(s.ram, (x + s.offset) % 64, y)
  {
    var r: row := (x + s.offset) % 64;
    PixelPlace(r, y);
    hide NthBit;
  }

  lemma PixelByte(m: Ram, r: row, y: nat)
    requires y < 120 && y / 6 < COLS && Base(r, y / 6) + 3 <= LINES * ROWSIZE
    ensures NthBit(m[r * ROWSIZE + y / 8], 7 - y % 8) == ByteBit(TripleAt(m, Base(r, y / 6)), y % 24)
  {
    hide NthBit, Base;
    PixelPlace(r, y);
  }
}
