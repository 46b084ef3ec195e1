/** Packing two texts after each other, when the second starts with block 0. */
module BlkCompose {
  import opened Words
  import opened Decimals
  import opened BlkText
  import R = BlkRoundTrip

  // ----- lines of two texts -----

  lemma {:induction false} FirstLineKept(a: seq<byte>, b: seq<byte>)
    requires a != [] && a[|a| - 1] == NL
    ensures FirstLine(a + b) == FirstLine(a)
    decreases |a|
  {
    if a[0] != NL {
      assert (a + b)[1..] == a[1..] + b;
      FirstLineKept(a[1..], b);
    }
  }

  lemma {:induction false} LinesAppend(a: seq<byte>, b: seq<byte>)
    requires a == [] || a[|a| - 1] == NL
    ensures Lines(a + b) == Lines(a) + Lines(b)
    decreases |a|
  {
    hide FirstLine, Lines;
    LinesHead(a);
    if a == [] {
      assert a + b == b;
    } else {
      FirstLineKept(a, b);
      LinesHead(a + b);
      var n := |FirstLine(a)|;
      assert (a + b)[n..] == a[n..] + b;
      LinesAppend(a[n..], b);
      assert [FirstLine(a)] + (Lines(a[n..]) + Lines(b)) == [FirstLine(a)] + Lines(a[n..]) + Lines(b);
    }
  }

  lemma LinesHead(s: seq<byte>)
    ensures s == [] ==> Lines(s) == []
    ensures s != [] ==> Lines(s) == [FirstLine(s)] + Lines(s[|FirstLine(s)|..])
  {
    hide FirstLine;
  }

  lemma {:induction false} FirstLineFree(s: seq<byte>)
    requires s != [] && 0 !in s
    ensures 0 !in FirstLine(s)
    decreases |s|
  {
    if s[0] != NL && |s| > 1 { FirstLineFree(s[1..]); }
  }

  predicate NulFree(ls: seq<Line>) {
    forall i :: 0 <= i < |ls| ==> 0 !in ls[i]
  }

  lemma {:induction false} LinesFree(s: seq<byte>)
    requires 0 !in s
    ensures NulFree(Lines(s))
    decreases |s|
  {
    hide FirstLine;
    if s != [] {
      FirstLineFree(s);
      LinesFree(s[|FirstLine(s)|..]);
    }
  }

  // ----- one turn of the loop -----

  function NextOff(ls: seq<Line>, prev: int, off: int): int
    requires ls != []
  {
    Offset(GetMarker(ls[0]), prev, off)
  }

  /** The number of the block that a turn packs. */
  function Id(ls: seq<Line>, prev: int, off: int): int
    requires ls != []
  {
    GetMarker(ls[0]) + NextOff(ls, prev, off)
  }

  function RowsTaken(ls: seq<Line>): (n: nat)
    requires ls != []
    ensures n <= ROWS && 1 + n <= |ls|
  {
    Taken(ls[1..], ROWS)
  }

  function Rest(ls: seq<Line>): (r: seq<Line>)
    requires ls != []
    ensures |r| < |ls|
  {
    ls[1 + RowsTaken(ls)..]
  }

  predicate Starts(ls: seq<Line>, prev: int, off: int)
    requires ls != []
  {
    GetMarker(ls[0]) >= 0 && Id(ls, prev, off) > prev
  }

  predicate Flows(ls: seq<Line>)
    requires ls != []
  {
    Rest(ls) == [] || RowsTaken(ls) == ROWS || !TooLong(Rest(ls)[0])
  }

  /** Blank blocks and the rows of a block. */
  function Here(ls: seq<Line>, gap: nat): seq<byte>
    requires ls != []
  {
    Spaces(BLOCK * gap) + RowsOf(ls[1..1 + RowsTaken(ls)])
  }

  function Full(ls: seq<Line>, gap: nat): seq<byte>
    requires ls != []
  {
    Here(ls, gap) + Spaces(ROW * (ROWS - RowsTaken(ls)))
  }

  lemma Turn(ls: seq<Line>, prev: int, off: int)
    requires ls != []
    ensures var id, next, rest := Id(ls, prev, off), NextOff(ls, prev, off), Rest(ls);
            PackFrom(ls, prev, off) ==
            if !Starts(ls, prev, off) then Result([], false)
            else if !Flows(ls) then Result(Here(ls, id - prev - 1), false)
            else if rest == [] then Result(Full(ls, id - prev - 1), true)
            else Result(Full(ls, id - prev - 1) + PackFrom(rest, id, next).out, PackFrom(rest, id, next).ok)
  {
    hide GetMarker, RowsOf, Taken, Spaces, TooLong;
  }

  // ----- the last block -----

  /** The state of the loop when the input ends: the number of the last block, the
      offset in force and the rows that block got. */
  datatype Last = Last(id: int, off: int, rows: nat)

  function LastBlock(ls: seq<Line>, prev: int, off: int): Last
    requires ls != []
    decreases |ls|
  {
    var id, next := Id(ls, prev, off), NextOff(ls, prev, off);
    if Rest(ls) == [] then Last(id, next, RowsTaken(ls)) else LastBlock(Rest(ls), id, next)
  }

  lemma {:induction false} TakenAppend(a: seq<Line>, b: seq<Line>, max: nat)
    requires b != [] && GetMarker(b[0]) >= 0
    ensures Taken(a + b, max) == Taken(a, max)
    decreases max
  {
    hide GetMarker, TooLong;
    if a == [] {
      assert a + b == b;
    } else if max > 0 {
      assert (a + b)[1..] == a[1..] + b;
      TakenAppend(a[1..], b, max - 1);
    }
  }

  /** Lines behind a marker do not change the turn in front of it. */
  lemma TurnAppend(a: seq<Line>, b: seq<Line>)
    requires a != [] && b != [] && GetMarker(b[0]) >= 0
    ensures (a + b)[0] == a[0] && RowsTaken(a + b) == RowsTaken(a) && Rest(a + b) == Rest(a) + b
    ensures forall gap: nat :: Full(a + b, gap) == Full(a, gap)
    ensures forall prev, off :: NextOff(a + b, prev, off) == NextOff(a, prev, off)
    ensures forall prev, off :: Id(a + b, prev, off) == Id(a, prev, off)
    ensures Rest(a) != [] ==> Flows(a + b) == Flows(a)
  {
    hide GetMarker, Taken, RowsOf;
    var ab := a + b;
    assert ab[1..] == a[1..] + b;
    TakenAppend(a[1..], b, ROWS);
    assert ab[1..1 + RowsTaken(a)] == a[1..1 + RowsTaken(a)];
  }

  lemma {:induction false} AppendFrom(a: seq<Line>, b: seq<Line>, prev: int, off: int)
    requires a != [] && b != [] && GetMarker(b[0]) >= 0 && prev >= -1
    requires PackFrom(a, prev, off).ok
    ensures var t := LastBlock(a, prev, off);
            var r := PackFrom(b, t.id, t.off);
            if t.rows == ROWS || !TooLong(b[0])
            then PackFrom(a + b, prev, off) == Result(PackFrom(a, prev, off).out + r.out, r.ok)
            else !PackFrom(a + b, prev, off).ok
    decreases |a|
  {
    hide GetMarker, RowsTaken, Rest, Full, Here, Id, NextOff, TooLong, PackFrom;
    Turn(a, prev, off);
    Turn(a + b, prev, off);
    TurnAppend(a, b);
    var id, next, rest := Id(a, prev, off), NextOff(a, prev, off), Rest(a);
    if rest != [] {
      AppendFrom(rest, b, id, next);
    } else {
      assert Rest(a + b) == b;
    }
  }

  // ----- block numbers shift by tens -----

  predicate Tens(d: int) {
    d >= 0 && d % BUMP == 0
  }

  lemma TurnShifts(ls: seq<Line>, prev: int, off: int, d: int)
    requires ls != [] && Tens(d) && prev >= 0
    ensures NextOff(ls, prev + d, off + d) == NextOff(ls, prev, off) + d
    ensures Id(ls, prev + d, off + d) == Id(ls, prev, off) + d
    ensures Starts(ls, prev + d, off + d) == Starts(ls, prev, off)
  {
    hide GetMarker;
  }

  /** Adding a multiple of ten to the previous number and the offset changes nothing,
      further block 0 markers included. */
  lemma {:induction false} ShiftBlocks(ls: seq<Line>, prev: int, off: int, d: int)
    requires ls != [] && prev >= 0 && Tens(d)
    ensures PackFrom(ls, prev + d, off + d) == PackFrom(ls, prev, off)
    decreases |ls|
  {
    hide GetMarker, Rest, Full, Here, Id, NextOff, Flows, PackFrom, Tens, Starts;
    TurnShifts(ls, prev, off, d);
    var id, next := Id(ls, prev, off), NextOff(ls, prev, off);
    Turn(ls, prev, off);
    Turn(ls, prev + d, off + d);
    if Starts(ls, prev, off) && Rest(ls) != [] {
      assert id > prev by { StartsAfter(ls, prev, off); }
      ShiftBlocks(Rest(ls), id, next, d);
    }
  }

  lemma StartsAfter(ls: seq<Line>, prev: int, off: int)
    requires ls != []
    ensures Starts(ls, prev, off) ==> Id(ls, prev, off) > prev
  {
  }

  lemma ZeroTurn(b: seq<Line>, last: nat, off: int)
    requires b != [] && GetMarker(b[0]) == 0
    ensures var bump := (last / BUMP + 1) * BUMP;
            Id(b, last, off) == NextOff(b, last, off) == bump > last
    ensures Id(b, -1, 0) == NextOff(b, -1, 0) == 0
    ensures Starts(b, last, off) && Starts(b, -1, 0)
  {
    hide GetMarker;
  }

  lemma BlankFirst(b: seq<Line>, gap: nat)
    requires b != []
    ensures Here(b, gap) == Spaces(BLOCK * gap) + Here(b, 0)
    ensures Full(b, gap) == Spaces(BLOCK * gap) + Full(b, 0)
  {
    hide RowsOf, RowsTaken;
  }

  /** A text that starts with block 0, after a block numbered last. */
  lemma ZeroFirst(b: seq<Line>, last: nat, off: int)
    requires b != [] && GetMarker(b[0]) == 0
    ensures PackFrom(b, last, off)
         == Result(Spaces(BLOCK * ((last / BUMP + 1) * BUMP - last - 1)) + PackFrom(b, -1, 0).out,
                   PackFrom(b, -1, 0).ok)
  {
    hide GetMarker, Rest, RowsTaken, Full, Here, Id, NextOff, Flows, PackFrom, Spaces, Starts;
    var bump := (last / BUMP + 1) * BUMP;
    ZeroTurn(b, last, off);
    BlankFirst(b, bump - last - 1);
    Turn(b, last, off);
    Turn(b, -1, 0);
    if Rest(b) != [] {
      assert Tens(bump);
      ShiftBlocks(Rest(b), 0, 0, bump);
    }
  }

  // ----- how much is printed -----

  lemma {:induction false} WholeRows(ls: seq<Line>)
    requires NulFree(ls) && forall i :: 0 <= i < |ls| ==> !TooLong(ls[i])
    ensures |RowsOf(ls)| == ROW * |ls|
    decreases |ls|
  {
    if ls != [] {
      R.CStringWhole(ls[0][..|ls[0]| - 1]);
      assert |RowOf(ls[0])| == ROW;
      WholeRows(ls[1..]);
    }
  }

  lemma FullSize(ls: seq<Line>, gap: nat)
    requires ls != [] && NulFree(ls)
    ensures |Full(ls, gap)| == BLOCK * (gap + 1)
  {
    hide GetMarker, RowsOf;
    WholeRows(ls[1..1 + RowsTaken(ls)]);
  }

  /** Every block up to the last is printed in full. */
  lemma {:induction false} PackedSize(ls: seq<Line>, prev: int, off: int)
    requires ls != [] && prev >= -1 && NulFree(ls) && PackFrom(ls, prev, off).ok
    ensures LastBlock(ls, prev, off).id > prev
    ensures |PackFrom(ls, prev, off).out| == BLOCK * (LastBlock(ls, prev, off).id - prev)
    decreases |ls|
  {
    Turn(ls, prev, off);
    var id, next := Id(ls, prev, off), NextOff(ls, prev, off);
    FullSize(ls, id - prev - 1);
    assert NulFree(Rest(ls));
    hide GetMarker, RowsTaken, Rest, Full, Here, Id, NextOff, Flows, PackFrom, NulFree;
    if Rest(ls) != [] { PackedSize(Rest(ls), id, next); }
  }

  /** The last block of a text. */
  function LastOf(text: seq<byte>): Last
    requires text != []
  {
    LinesHead(text);
    LastBlock(Lines(text), -1, 0)
  }

  /** The first line of b, a marker, is read as one behind a. */
  predicate Continues(a: seq<byte>, b: seq<byte>)
    requires a != [] && b != []
  {
    LastOf(a).rows == ROWS || !TooLong(FirstLine(b))
  }

  /** Blank blocks up to the next multiple of ten. */
  function GapAfter(blocks: nat): (g: nat)
    requires blocks > 0
    ensures (blocks + g) % BUMP == 0 && g < BUMP
  {
    ((blocks - 1) / BUMP + 1) * BUMP - blocks
  }

  lemma PackLines(text: seq<byte>)
    requires text != []
    ensures Lines(text) != [] && Lines(text)[0] == FirstLine(text)
    ensures Pack(text) == PackFrom(Lines(text), -1, 0) && LastOf(text) == LastBlock(Lines(text), -1, 0)
  {
    hide PackFrom, LastBlock;
    LinesHead(text);
  }

  /** What comes behind a block with number id. */
  lemma BlocksCount(size: nat, id: int)
    requires id >= 0 && size == BLOCK * (id + 1)
    ensures size / BLOCK == id + 1 && GapAfter(id + 1) == (id / BUMP + 1) * BUMP - id - 1
  {
  }

  /** Packing is compositional. After a text A that packs, a text B that starts with
      block 0 gives blank blocks up to the next multiple of ten and then what B packs to
      alone. The one exception is a first line of B over 65 bytes when the last block of A
      has fewer than 16 rows: it is then read as a row, and refused. */
  lemma PackAppend(a: seq<byte>, b: seq<byte>)
    requires a != [] && a[|a| - 1] == NL && 0 !in a && Pack(a).ok
    requires b != [] && GetMarker(FirstLine(b)) == 0
    ensures var blocks := |Pack(a).out| / BLOCK;
            && |Pack(a).out| == BLOCK * blocks && blocks > 0
            && (Pack(a + b).ok <==> Continues(a, b) && Pack(b).ok)
            && (Continues(a, b) ==>
                Pack(a + b).out == Pack(a).out + Spaces(BLOCK * GapAfter(blocks)) + Pack(b).out)
  {
    hide Pack, PackFrom, Lines, LastBlock, LastOf, FirstLine, GetMarker, Spaces, TooLong, NulFree, GapAfter;
    PackLines(a);
    PackLines(b);
    PackLines(a + b);
    LinesAppend(a, b);
    LinesFree(a);
    AppendFrom(Lines(a), Lines(b), -1, 0);
    PackedSize(Lines(a), -1, 0);
    var t := LastOf(a);
    ZeroFirst(Lines(b), t.id, t.off);
    BlocksCount(|Pack(a).out|, t.id);
    Between(Pack(a).out, Spaces(BLOCK * GapAfter(t.id + 1)), Pack(b).out);
  }

  lemma Between<T>(a: seq<T>, b: seq<T>, c: seq<T>)
    ensures a + (b + c) == a + b + c
  {
  }

  // ----- the exception happens -----

  /** A block 0 marker with k spaces behind the number. */
  function Head(k: nat): Line {
    [40, SPC] + DASHES + [SPC] + [48] + (Spaces(k) + [NL])
  }

  const ROW_A: Line := [65, NL]

  /** That marker and one row. */
  function Small(k: nat): seq<byte> {
    Head(k) + ROW_A
  }

  lemma HeadIsZero(k: nat)
    ensures GetMarker(Head(k)) == 0 && R.Proper(Head(k)) && |Head(k)| == k + 10 && 0 !in Head(k)
  {
    hide GetMarker, Scan;
    var tail := Spaces(k) + [NL];
    R.MarkerForm([48], tail);
    assert Scan([48] + tail, 0) == Scan(tail, 0) == 0 by { ScanZero(tail); }
  }

  lemma ScanZero(tail: seq<byte>)
    requires tail != [] && !IsDigit(tail[0])
    ensures Scan([48] + tail, 0) == Scan(tail, 0) == 0
  {
    assert ([48] + tail)[1..] == tail;
  }

  lemma SmallLines(k: nat)
    ensures Lines(Small(k)) == [Head(k), ROW_A]
  {
    HeadIsZero(k);
    hide Head, GetMarker;
    var ls: seq<Line> := [Head(k), ROW_A];
    assert R.Proper(ROW_A);
    R.LinesOfJoined(ls);
    assert ls[1..] == [ROW_A] && [ROW_A][1..] == [];
    assert Join([]) == [] && Join([ROW_A]) == ROW_A + Join([]) == ROW_A;
    assert Join(ls) == Head(k) + Join([ROW_A]);
  }

  lemma OneRowTaken()
    ensures Taken([ROW_A], ROWS) == 1
  {
    assert GetMarker(ROW_A) == -1;
    assert [ROW_A][1..] == [];
    assert Taken([], ROWS - 1) == 0;
  }

  lemma SmallPacks(k: nat)
    ensures Pack(Small(k)).ok && Small(k) != [] && LastOf(Small(k)).rows == 1
  {
    hide GetMarker, Head, Taken;
    SmallLines(k);
    HeadIsZero(k);
    OneRowTaken();
    var ls := [Head(k), ROW_A];
    assert ls[1..] == [ROW_A] && RowsTaken(ls) == 1 && Rest(ls) == [];
    Turn(ls, -1, 0);
    assert Small(k) != [];
  }

  /** Two texts that pack, the second from block 0 on, but not one after the other. */
  lemma LongFirstLineRefused()
    ensures Pack(Small(0)).ok && Pack(Small(60)).ok && !Pack(Small(0) + Small(60)).ok
  {
    SmallPacks(0);
    SmallPacks(60);
    HeadIsZero(0);
    HeadIsZero(60);
    SmallLines(60);
    hide Pack, Head, LastOf, GetMarker, Lines;
    assert FirstLine(Small(60)) == Head(60) by { FirstOf(Small(60), Head(60), [ROW_A]); }
    PackAppend(Small(0), Small(60));
  }

  lemma FirstOf(s: seq<byte>, l: Line, rest: seq<Line>)
    requires s != [] && Lines(s) == [l] + rest
    ensures FirstLine(s) == l
  {
    assert Lines(s)[0] == FirstLine(s);
  }
}
