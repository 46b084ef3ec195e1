/** tools/blkpack.c and tools/blkunpack.c as programs: what their loops print is what
    Pack and Unpack say. */
module BlkTools {
  import opened Words
  import opened BlkText
  import C = BlkCompose

  // ----- blkpack -----

  class Packer {
    var input: seq<byte>
    var line: seq<byte>
    var out: seq<byte>

    constructor (stdin: seq<byte>)
      ensures input == stdin && line == [] && out == []
    {
      input, line, out := stdin, [], [];
    }

    /** getline: the length of the next line, 0 at the end of the input, where the buffer
        keeps the line it had. */
    method GetLine() returns (cnt: nat)
      modifies this`input, this`line
      ensures cnt == 0 <==> old(input) == []
      ensures cnt == 0 ==> input == old(input) && line == old(line)
      ensures cnt > 0 ==> cnt == |line| && [line] + Lines(input) == Lines(old(input))
    {
      if input == [] { return 0; }
      line := FirstLine(input);
      input := input[|line|..];
      cnt := |line|;
    }

    method EmptyLines(n: nat)
      modifies this`out
      ensures out == old(out) + Spaces(ROW * n)
    {
      var i := 0;
      while i < ROW * n
        invariant i <= ROW * n
        invariant out == old(out) + Spaces(i)
      {
        out := out + [SPC];
        i := i + 1;
      }
    }

    /** Prints the current line without its newline, padded to 64 columns. */
    method PutRow(cnt: nat)
      requires line != [] && cnt == |line|
      modifies this`out, this`line
      ensures out == old(out) + RowOf(old(line)) && line != []
    {
      CStringCut(line);
      line := line[cnt - 1 := 0];
      out := out + CString(line);
      ghost var printed := out;
      var i := cnt - 1;
      while i < ROW
        invariant cnt - 1 <= i
        invariant cnt - 1 < ROW ==> i <= ROW
        invariant cnt - 1 >= ROW ==> i == cnt - 1
        invariant out == printed + Spaces(i - (cnt - 1)) && line != []
      {
        out := out + [SPC];
        i := i + 1;
      }
    }

    /** The rows of one block. Returns how many there were, the result of the last
        getline, and whether a line was too long. */
    method PutRows(ghost ls: seq<Line>) returns (blkline: nat, cnt: nat, long: bool)
      requires ls == Lines(input) && line != []
      modifies this
      ensures blkline == Taken(ls, ROWS) && out == old(out) + RowsOf(ls[..blkline])
      ensures long <==> blkline < ROWS && blkline < |ls| && TooLong(ls[blkline])
      ensures !long && blkline < ROWS ==> (cnt == 0 <==> blkline == |ls|)
      ensures !long && blkline < ROWS && blkline < |ls| ==> [line] + Lines(input) == ls[blkline..]
      ensures blkline == ROWS ==> Lines(input) == ls[blkline..]
      ensures line != []
    {
      hide RowOf, GetMarker, Lines, Taken, RowsOf;
      blkline, cnt, long := 0, 1, false;
      assert ls[0..] == ls && RowsOf(ls[..0]) == [] by { NoRows(ls); }
      while blkline < ROWS
        invariant blkline <= ROWS && blkline <= |ls|
        invariant Lines(input) == ls[blkline..]
        invariant Taken(ls, ROWS) == blkline + Taken(ls[blkline..], ROWS - blkline)
        invariant out == old(out) + RowsOf(ls[..blkline])
        invariant line != [] && !long
      {
        LinesEmpty(input);
        TakeNext(ls, blkline);
        cnt := GetLine();
        if cnt == 0 { return; }
        assert line == ls[blkline] && Lines(input) == ls[blkline + 1..] by { Head(line, Lines(input), ls, blkline); }
        if cnt > ROW + 1 { long := true; return; }
        if GetMarker(line) >= 0 { return; }
        PutRow(cnt);
        blkline := blkline + 1;
      }
      NoneLeft(ls);
    }

    /** One turn of the main loop, with a line read that should be a marker. */
    method PutBlock(prev: int, off: int) returns (more: bool, ok: bool, id: int, off': int)
      requires line != [] && prev >= -1
      modifies this
      ensures var ls := [old(line)] + Lines(old(input));
              if !C.Starts(ls, prev, off) then !more && !ok && out == old(out)
              else if !C.Flows(ls) then !more && !ok && out == old(out) + C.Here(ls, C.Id(ls, prev, off) - prev - 1)
              else
                && out == old(out) + C.Full(ls, C.Id(ls, prev, off) - prev - 1)
                && id == C.Id(ls, prev, off) && off' == C.NextOff(ls, prev, off)
                && if C.Rest(ls) == [] then !more && ok
                   else more && line != [] && [line] + Lines(input) == C.Rest(ls)
    {
      hide RowsOf, GetMarker, Lines, Taken, Spaces, TooLong;
      ghost var tail := Lines(input);
      ghost var ls := [line] + tail;
      assert ls[1..] == tail && ls[0] == line;
      more, ok, off' := false, false, off;
      id := GetMarker(line);
      if id < 0 { return; }
      if id == 0 && prev >= 0 { off' := (prev / BUMP + 1) * BUMP; }
      id := id + off';
      assert off' == C.NextOff(ls, prev, off) && id == C.Id(ls, prev, off);
      if id <= prev { return; }
      EmptyLines((id - prev - 1) * ROWS);
      assert ROW * ((id - prev - 1) * ROWS) == BLOCK * (id - prev - 1);
      var blkline, cnt, long := PutRows(tail);
      assert tail[..blkline] == ls[1..1 + blkline] && tail[blkline..] == ls[1 + blkline..];
      assert old(out) + Spaces(BLOCK * (id - prev - 1)) + RowsOf(tail[..blkline])
          == old(out) + C.Here(ls, id - prev - 1);
      if long { return; }
      LinesEmpty(input);
      if blkline == ROWS {
        assert out == out + Spaces(0) by { NoSpaces(); }
        cnt := GetLine();
      } else {
        EmptyLines(ROWS - blkline);
      }
      more, ok := cnt != 0, cnt == 0;
    }

    /** main */
    method Pack() returns (ok: bool)
      modifies this
      ensures ok == BlkText.Pack(old(input)).ok
      ensures out == old(out) + BlkText.Pack(old(input)).out
    {
      hide PackFrom, GetMarker, Lines, C.Starts, C.Flows, C.Rest, C.Id, C.NextOff, C.Here, C.Full;
      LinesEmpty(input);
      var cnt := GetLine();
      if cnt == 0 { return false; }
      var more, prev, off := true, -1, 0;
      ok := false;
      ghost var r := PackFrom([line] + Lines(input), prev, off);
      while more
        invariant more ==> prev >= -1 && line != [] && r == PackFrom([line] + Lines(input), prev, off)
        invariant !more ==> r == Result([], ok)
        invariant BlkText.Pack(old(input)).ok == r.ok
        invariant old(out) + BlkText.Pack(old(input)).out == out + r.out
        decreases more, |Lines(input)|
      {
        ghost var ls := [line] + Lines(input);
        C.Turn(ls, prev, off);
        var id, off';
        ghost var before := out;
        more, ok, id, off' := PutBlock(prev, off);
        C.StartsAfter(ls, prev, off);
        r := if more then PackFrom([line] + Lines(input), id, off') else Result([], ok);
        prev, off := id, off';
      }
    }
  }

  lemma NoRows(ls: seq<Line>)
    ensures RowsOf(ls[..0]) == []
  {
  }

  lemma NoSpaces()
    ensures Spaces(0) == []
  {
  }

  lemma NoneLeft(ls: seq<Line>)
    ensures Taken(ls, 0) == 0
  {
  }

  lemma Head(l: Line, t: seq<Line>, ls: seq<Line>, k: nat)
    requires k < |ls| && [l] + t == ls[k..]
    ensures l == ls[k] && t == ls[k + 1..]
  {
    assert ls[k..][0] == l && ls[k..][1..] == t;
  }

  /** How one more line changes what the row loop takes and prints. */
  lemma TakeNext(ls: seq<Line>, k: nat)
    requires k < ROWS && k <= |ls|
    ensures var n := Taken(ls[k..], ROWS - k);
            if k == |ls| || TooLong(ls[k]) || GetMarker(ls[k]) >= 0 then n == 0
            else n == 1 + Taken(ls[k + 1..], ROWS - k - 1)
    ensures k < |ls| ==> RowsOf(ls[..k + 1]) == RowsOf(ls[..k]) + RowOf(ls[k])
  {
    hide RowOf, GetMarker, TooLong, RowsOf;
    if k < |ls| {
      assert ls[k..][0] == ls[k] && ls[k..][1..] == ls[k + 1..];
      assert ls[..k] + [ls[k]] == ls[..k + 1];
      RowsOfAppend(ls[..k], ls[k]);
    }
  }

  lemma LinesEmpty(s: seq<byte>)
    ensures s == [] <==> Lines(s) == []
  {
  }

  /** A NUL in place of the newline ends the string where the newline was. */
  lemma {:induction false} CStringCut(l: seq<byte>)
    requires l != []
    ensures CString(l[|l| - 1 := 0]) == CString(l[..|l| - 1])
    decreases |l|
  {
    if |l| > 1 && l[0] != 0 {
      assert l[|l| - 1 := 0][1..] == l[1..][|l[1..]| - 1 := 0];
      assert l[..|l| - 1][1..] == l[1..][..|l[1..]| - 1];
      CStringCut(l[1..]);
    }
  }

  lemma {:induction false} RowsOfAppend(ls: seq<Line>, l: Line)
    ensures RowsOf(ls + [l]) == RowsOf(ls) + RowOf(l)
    decreases |ls|
  {
    hide RowOf;
    if ls == [] {
      assert ([] + [l])[1..] == [];
    } else {
      assert (ls + [l])[1..] == ls[1..] + [l];
      RowsOfAppend(ls[1..], l);
    }
  }

  // ----- blkunpack -----

  class Unpacker {
    var input: seq<byte>
    var out: seq<byte>
    const buf: array<byte>

    ghost predicate Valid() {
      buf.Length == BLOCK
    }

    constructor (stdin: seq<byte>)
      ensures Valid() && fresh(buf) && input == stdin && out == []
    {
      input, out := stdin, [];
      buf := new byte[BLOCK](_ => 0);
    }

    /** fread of one block: 1024 bytes, or what is left of the input. */
    method ReadBlock() returns (ok: bool)
      requires Valid()
      modifies this`input, buf
      ensures ok <==> |old(input)| >= BLOCK
      ensures ok ==> buf[..] == old(input)[..BLOCK] && input == old(input)[BLOCK..]
      ensures !ok ==> input == []
    {
      ok := |input| >= BLOCK;
      var n := if ok then BLOCK else |input|;
      var i := 0;
      while i < n
        invariant i <= n && input == old(input)
          invariant buf[..i] == input[..i]
      {
        buf[i] := input[i];
        i := i + 1;
      }
      input := input[n..];
    }

    /** One past the last visible byte of the n bytes at start. */
    method LastVisible(start: nat, n: nat) returns (len: nat)
      requires Valid() && start + n <= BLOCK
      ensures len == TrimmedLen(buf[start..start + n])
    {
      len := n;
      while len > 0 && !(SPC < buf[start + len - 1] < 0x80)
        invariant len <= n
        invariant TrimmedLen(buf[start..start + n]) == TrimmedLen(buf[start..start + len])
      {
        assert buf[start..start + len][..len - 1] == buf[start..start + len - 1];
        len := len - 1;
      }
    }

    /** Turns the NULs of len bytes at a to spaces, in the buffer. */
    method ClearNuls(a: nat, len: nat)
      requires Valid() && a + len <= BLOCK
      modifies buf
      ensures buf[a..a + len] == Normal(old(buf[a..a + len]))
      ensures forall k :: a + len <= k < BLOCK ==> buf[k] == old(buf[k])
    {
      ghost var row := buf[a..a + len];
      var j := len;
      while j > 0
        invariant 0 <= j <= len
        invariant forall k :: 0 <= k < j ==> buf[a + k] == row[k]
        invariant forall k :: j <= k < len ==> buf[a + k] == if row[k] == 0 then SPC else row[k]
        invariant forall k :: a + len <= k < BLOCK ==> buf[k] == old(buf[k])
      {
        j := j - 1;
        if buf[a + j] == 0 { buf[a + j] := SPC; }
      }
    }

    /** Prints row i, its NULs turned to spaces in the buffer. */
    method PutLine(i: nat)
      requires Valid() && i < ROWS
      modifies this`out, buf
      ensures out == old(out) + LineOf(old(buf[i * ROW..(i + 1) * ROW]))
      ensures forall k :: (i + 1) * ROW <= k < BLOCK ==> buf[k] == old(buf[k])
    {
      hide Normal, TrimmedLen;
      var a := i * ROW;
      ghost var row := buf[a..a + ROW];
      var len := LastVisible(a, ROW);
      assert buf[a..a + len] == row[..len] by { Slices(buf[..], a, len, ROW); }
      if len > 0 {
        ClearNuls(a, len);
        out := out + buf[a..a + len];
      }
      out := out + [NL];
      LineParts(row, old(out));
    }

    /** Prints a block that is not blank. */
    method PutBlock(id: int)
      requires Valid()
      modifies this`out, buf
      ensures out == old(out) + Join(BlockLines(old(buf[..]), id))
    {
      hide TrimmedLen, LineOf, Marker, RowLines, Join;
      ghost var b := buf[..];
      assert buf[0..0 + BLOCK] == b;
      var last := LastVisible(0, BLOCK);
      LineCountFits(b);
      if last == 0 {
        assert out + Join([]) == out by { NoLines(); }
        return;
      }
      var linecnt := (last - 1) / ROW + 1;
      JoinAppend([Marker(id)], RowLines(b, 0, linecnt));
      OneLine(Marker(id));
      out := out + Marker(id);
      PutLines(b, linecnt);
    }

    /** The rows of a block, one after another. */
    method PutLines(ghost b: seq<byte>, linecnt: nat)
      requires Valid() && buf[..] == b && linecnt <= ROWS
      modifies this`out, buf
      ensures out == old(out) + Join(RowLines(b, 0, linecnt))
    {
      hide LineOf, RowLines, Join;
      var i := 0;
      while i < linecnt
        invariant i <= linecnt
        invariant forall k :: i * ROW <= k < BLOCK ==> buf[k] == b[k]
        invariant out + Join(RowLines(b, i, linecnt)) == old(out) + Join(RowLines(b, 0, linecnt))
      {
        RowLinesHead(b, i, linecnt);
        assert buf[i * ROW..(i + 1) * ROW] == b[i * ROW..(i + 1) * ROW];
        PutLine(i);
        i := i + 1;
      }
      assert out + Join(RowLines(b, linecnt, linecnt)) == out by { NoLinesLeft(b, linecnt); }
    }

    /** main */
    method Unpack(startAt: int)
      requires Valid()
      modifies this, buf
      ensures out == old(out) + BlkText.Unpack(old(input), startAt)
    {
      hide BlockLines;
      var id := startAt;
      var more := true;
      while more
        invariant out + Join(if more then UnpackLines(input, id) else [])
               == old(out) + BlkText.Unpack(old(input), startAt)
        decreases |input|, more
      {
        ghost var image := input;
        more := ReadBlock();
        if more {
          JoinAppend(BlockLines(image[..BLOCK], id), UnpackLines(input, id + 1));
          PutBlock(id);
          id := id + 1;
        }
      }
    }
  }

  /** A line after what is printed already. */
  lemma LineParts(row: seq<byte>, printed: seq<byte>)
    ensures printed + LineOf(row) ==
            if TrimmedLen(row) == 0 then printed + [NL] else printed + Normal(row[..TrimmedLen(row)]) + [NL]
  {
    hide TrimmedLen;
  }

  lemma Slices(b: seq<byte>, a: nat, len: nat, n: nat)
    requires len <= n && a + n <= |b|
    ensures b[a..a + len] == b[a..a + n][..len]
  {
  }

  lemma NoLines()
    ensures Join([]) == []
  {
  }

  lemma NoLinesLeft(b: seq<byte>, n: nat)
    requires n * ROW <= |b|
    ensures Join(RowLines(b, n, n)) == []
  {
  }

  lemma OneLine(l: Line)
    ensures Join([l]) == l
  {
  }

  lemma RowLinesHead(b: seq<byte>, i: nat, n: nat)
    requires i < n && n * ROW <= |b|
    ensures (i + 1) * ROW <= |b|
    ensures Join(RowLines(b, i, n)) == LineOf(b[i * ROW..(i + 1) * ROW]) + Join(RowLines(b, i + 1, n))
  {
    hide LineOf;
    assert (i + 1) * ROW <= n * ROW;
  }

  lemma {:induction false} JoinAppend(a: seq<Line>, b: seq<Line>)
    ensures Join(a + b) == Join(a) + Join(b)
    decreases |a|
  {
    if a == [] {
      assert a + b == b;
    } else {
      assert (a + b)[1..] == a[1..] + b;
      JoinAppend(a[1..], b);
    }
  }
}
