/** Packing and unpacking undo each other. */
module BlkRoundTrip {
  import opened Words
  import opened Decimals
  import opened BlkText

  // ----- splitting into lines -----

  /** A complete line: one newline, at the end. */
  predicate Proper(l: seq<byte>) {
    l != [] && l[|l| - 1] == NL && forall i :: 0 <= i < |l| - 1 ==> l[i] != NL
  }

  predicate AllProper(ls: seq<Line>) {
    forall l :: l in ls ==> Proper(l)
  }

  lemma {:induction false} FirstOfJoined(l: seq<byte>, rest: seq<byte>)
    requires Proper(l)
    ensures FirstLine(l + rest) == l
    decreases |l|
  {
    if |l| == 1 {
      assert FirstLine(l + rest) == [NL];
    } else {
      assert (l + rest)[1..] == l[1..] + rest;
      FirstOfJoined(l[1..], rest);
    }
  }

  lemma {:induction false} LinesOfJoined(ls: seq<Line>)
    requires AllProper(ls)
    ensures Lines(Join(ls)) == ls
    decreases |ls|
  {
    if ls != [] {
      var l := ls[0];
      assert l in ls && forall x :: x in ls[1..] ==> x in ls;
      FirstOfJoined(l, Join(ls[1..]));
      assert Join(ls)[|l|..] == Join(ls[1..]);
      LinesOfJoined(ls[1..]);
    }
  }

  // ----- numbers in markers -----

  lemma {:induction false} ScanPad(s: seq<byte>, width: nat)
    requires Digits(s)
    ensures Digits(Pad(s, width)) && |Pad(s, width)| >= |s| && Scan(Pad(s, width), 0) == Scan(s, 0)
    decreases width - |s|
  {
    if |s| < width {
      assert Digits([48] + s);
      ScanPad([48] + s, width);
      assert ([48] + s)[1..] == s;
    }
  }

  /** blkpack reads from a marker the number that blkunpack wrote. */
  lemma MarkerReads(id: nat)
    ensures GetMarker(Marker(id)) == id && Proper(Marker(id))
  {
    var ds := Pad(Decimal(id), 3);
    ScanDec(id);
    ScanPad(Decimal(id), 3);
    var tail: seq<byte> := [SPC, 41, NL];
    MarkerForm(ds, tail);
    ScanSplit(ds, tail, 0);
    assert Scan(tail, id) == id;
    var m := Marker(id);
    assert m == [40, SPC] + DASHES + [SPC] + ds + tail;
  }

  /** How getmarker walks over a marker. */
  lemma MarkerForm(ds: seq<byte>, tail: seq<byte>)
    requires Digits(ds) && ds != []
    ensures GetMarker([40, SPC] + DASHES + [SPC] + ds + tail) == Scan(ds + tail, 0)
  {
    hide Scan;
    var a := DASHES + [SPC] + ds + tail;
    var m := [40, SPC] + DASHES + [SPC] + ds + tail;
    assert m[1..] == [SPC] + a;
    SkipOne(a);
    assert a[..5] == DASHES && a[5..] == [SPC] + (ds + tail);
    SkipOne(ds + tail);
  }

  lemma SkipOne(s: seq<byte>)
    requires s != [] && !IsSpace(s[0])
    ensures SkipSpace([SPC] + s) == s
  {
    assert ([SPC] + s)[1..] == s;
  }

  // ----- sections -----

  /** Block numbers are C ints. */
  const INT_MAX: nat := 0x7fff_ffff

  lemma {:induction false} PadSize(s: seq<byte>, width: nat)
    ensures |Pad(s, width)| == if |s| < width then width else |s|
    decreases width - |s|
  {
    if |s| < width { PadSize([48] + s, width); }
  }

  /** A marker fits a line. */
  lemma MarkerShort(id: nat)
    requires id <= INT_MAX
    ensures !TooLong(Marker(id))
  {
    assert Pow10(10) == 10000000000 by {
      assert Pow10(2) == 100;
      assert Pow10(4) == 10000;
      assert Pow10(6) == 1000000;
      assert Pow10(8) == 100000000;
    }
    DecimalShort(id, 10);
    PadSize(Decimal(id), 3);
  }

  /** One block as text: its number and its rows without newlines. */
  datatype Section = Section(id: nat, rows: seq<seq<byte>>)

  /** A row as blkunpack prints it: no NUL or newline, trimmed on the right, at most 64
      bytes, and not taken for a marker. */
  predicate RowOk(r: seq<byte>) {
    && |r| <= ROW && TrimmedLen(r) == |r|
    && (forall i :: 0 <= i < |r| ==> r[i] != 0 && r[i] != NL)
    && GetMarker(r + [NL]) < 0
  }

  predicate RowsOk(rows: seq<seq<byte>>) {
    forall i :: 0 <= i < |rows| ==> RowOk(rows[i])
  }

  predicate SectionOk(s: Section) {
    && s.id <= INT_MAX
    && 1 <= |s.rows| <= ROWS && RowsOk(s.rows)
    && s.rows[|s.rows| - 1] != []
  }

  /** Canonical text: sections in strictly ascending order after prev. */
  predicate Canon(ss: seq<Section>, prev: int) {
    ss == [] || (SectionOk(ss[0]) && prev < ss[0].id && Canon(ss[1..], ss[0].id))
  }

  function RowText(rows: seq<seq<byte>>): seq<Line> {
    if rows == [] then [] else [rows[0] + [NL]] + RowText(rows[1..])
  }

  function TextLines(ss: seq<Section>): seq<Line> {
    if ss == [] then [] else [Marker(ss[0].id)] + RowText(ss[0].rows) + TextLines(ss[1..])
  }

  function Padded(r: seq<byte>): seq<byte> {
    r + Spaces(Gap(|r|))
  }

  function RowsImage(rows: seq<seq<byte>>): seq<byte> {
    if rows == [] then [] else Padded(rows[0]) + RowsImage(rows[1..])
  }

  function BlockImage(s: Section): seq<byte>
    requires SectionOk(s)
  {
    RowsImage(s.rows) + Spaces(ROW * (ROWS - |s.rows|))
  }

  /** The image of canonical text whose first block has number prev + 1. */
  function Image(ss: seq<Section>, prev: int): seq<byte>
    requires Canon(ss, prev)
  {
    if ss == [] then []
    else Spaces(BLOCK * (ss[0].id - prev - 1)) + BlockImage(ss[0]) + Image(ss[1..], ss[0].id)
  }

  lemma {:induction false} RowsImageSize(rows: seq<seq<byte>>)
    requires RowsOk(rows)
    ensures |RowsImage(rows)| == ROW * |rows|
    decreases |rows|
  {
    if rows != [] {
      FirstRow(rows);
      RowsImageSize(rows[1..]);
    }
  }

  lemma FirstRow(rows: seq<seq<byte>>)
    requires RowsOk(rows) && rows != []
    ensures RowOk(rows[0]) && |rows[0]| <= ROW && |Padded(rows[0])| == ROW && RowsOk(rows[1..])
    ensures !TooLong(rows[0] + [NL]) && GetMarker(rows[0] + [NL]) < 0
  {
    hide GetMarker;
    assert forall k :: 0 <= k < |rows| - 1 ==> RowOk(rows[1..][k]);
  }

  lemma {:induction false} RowTextAt(rows: seq<seq<byte>>)
    ensures |RowText(rows)| == |rows| && forall i :: 0 <= i < |rows| ==> RowText(rows)[i] == rows[i] + [NL]
    decreases |rows|
  {
    if rows != [] { RowTextAt(rows[1..]); }
  }

  // ----- packing canonical text -----

  lemma {:induction false} CStringWhole(r: seq<byte>)
    requires forall i :: 0 <= i < |r| ==> r[i] != 0
    ensures CString(r) == r
    decreases |r|
  {
    if r != [] { CStringWhole(r[1..]); }
  }

  /** The row loop takes exactly the rows of a section. */
  lemma {:induction false} TakenRows(rows: seq<seq<byte>>, rest: seq<Line>, max: nat)
    requires |rows| <= max && RowsOk(rows)
    requires |rows| == max || rest == [] || GetMarker(rest[0]) >= 0
    ensures Taken(RowText(rows) + rest, max) == |rows|
    decreases |rows|
  {
    hide GetMarker, TooLong, RowOk, RowsOk;
    if rows == [] {
      assert RowText(rows) + rest == rest;
    } else {
      FirstRow(rows);
      var t := RowText(rows[1..]);
      assert RowText(rows) + rest == [rows[0] + [NL]] + t + rest;
      Cons(rows[0] + [NL], t, rest);
      TakenRows(rows[1..], rest, max - 1);
    }
  }

  lemma {:induction false} RowsPacked(rows: seq<seq<byte>>)
    requires RowsOk(rows)
    ensures RowsOf(RowText(rows)) == RowsImage(rows)
    decreases |rows|
  {
    if rows != [] {
      FirstRow(rows);
      RowPacked(rows[0]);
      hide RowOf, Padded, RowOk;
      RowsPacked(rows[1..]);
      var t := RowText(rows);
      assert t[0] == rows[0] + [NL] && t[1..] == RowText(rows[1..]);
    }
  }

  lemma RowPacked(r: seq<byte>)
    requires RowOk(r)
    ensures RowOf(r + [NL]) == Padded(r)
  {
    hide GetMarker;
    assert (r + [NL])[..|r|] == r;
    CStringWhole(r);
  }

  lemma RowsProper(rows: seq<seq<byte>>)
    requires RowsOk(rows)
    ensures AllProper(RowText(rows))
  {
    RowTextAt(rows);
    hide GetMarker, TrimmedLen, RowText;
    forall l | l in RowText(rows) ensures Proper(l) {
      var i :| 0 <= i < |rows| && l == RowText(rows)[i];
      assert RowOk(rows[i]);
    }
  }

  lemma {:induction false} TextProper(ss: seq<Section>, prev: int)
    requires Canon(ss, prev)
    ensures AllProper(TextLines(ss))
    decreases |ss|
  {
    if ss != [] {
      MarkerReads(ss[0].id);
      RowsProper(ss[0].rows);
      hide GetMarker, Marker, RowText, RowsOk, Proper;
      TextProper(ss[1..], ss[0].id);
    }
  }

  lemma TextParts(ss: seq<Section>)
    requires ss != []
    ensures TextLines(ss) != [] && TextLines(ss)[0] == Marker(ss[0].id)
    ensures TextLines(ss)[1..] == RowText(ss[0].rows) + TextLines(ss[1..])
  {
    hide Marker, RowText;
    var a, b: seq<Line>, c := Marker(ss[0].id), RowText(ss[0].rows), TextLines(ss[1..]);
    assert TextLines(ss) == [a] + b + c;
    Cons(a, b, c);
  }

  lemma Middle<T>(s: seq<T>, b: seq<T>, c: seq<T>)
    requires s != [] && s[1..] == b + c
    ensures |s| == 1 + |b| + |c| && s[1..1 + |b|] == b && s[1 + |b|..] == c
  {
    assert s[1..1 + |b|] == s[1..][..|b|];
    assert s[1 + |b|..] == s[1..][|b|..];
  }

  lemma Cons<T>(a: T, b: seq<T>, c: seq<T>)
    ensures ([a] + b + c)[0] == a && ([a] + b + c)[1..] == b + c
  {
  }

  /** Packing canonical lines gives their image. */
  lemma {:induction false} PackCanon(ss: seq<Section>, prev: int)
    requires Canon(ss, prev) && ss != [] && prev >= -1
    ensures TextLines(ss) != []
    ensures PackFrom(TextLines(ss), prev, 0) == Result(Image(ss, prev), true)
    decreases |ss|
  {
    hide GetMarker, Marker, RowsOf, Taken, TextLines, RowText, RowsOk, PackFrom, Spaces;
    var s := ss[0];
    var ls, rest := TextLines(ss), TextLines(ss[1..]);
    TextParts(ss);
    MarkerReads(s.id);
    if ss[1..] != [] {
      TextParts(ss[1..]);
      MarkerReads(ss[1].id);
      MarkerShort(ss[1].id);
    } else {
      NoText();
    }
    RowTextAt(s.rows);
    TakenRows(s.rows, rest, ROWS);
    RowsPacked(s.rows);
    var n := |s.rows|;
    Middle(ls, RowText(s.rows), rest);
    PackStep(ls, prev, 0);
    if ss[1..] != [] { PackCanon(ss[1..], s.id); }
    var gap, pad, more := Spaces(BLOCK * (s.id - prev - 1)), Spaces(ROW * (ROWS - n)), Image(ss[1..], s.id);
    assert gap + RowsImage(s.rows) + pad + more == gap + (RowsImage(s.rows) + pad) + more;
  }

  /** One turn of the loop of blkpack that neither fails nor stops at a long line. */
  lemma PackStep(ls: seq<Line>, prev: int, off: int)
    requires ls != [] && prev >= -1
    requires var id0 := GetMarker(ls[0]); id0 >= 0 && id0 + Offset(id0, prev, off) > prev
    requires var n := Taken(ls[1..], ROWS);
             ls[1 + n..] == [] || n == ROWS || !TooLong(ls[1 + n])
    ensures var id0, n := GetMarker(ls[0]), Taken(ls[1..], ROWS);
            var off' := Offset(id0, prev, off);
            var id := id0 + off';
            var full := Spaces(BLOCK * (id - prev - 1)) + RowsOf(ls[1..1 + n]) + Spaces(ROW * (ROWS - n));
            var rest := ls[1 + n..];
            PackFrom(ls, prev, off) ==
            if rest == [] then Result(full, true)
            else Result(full + PackFrom(rest, id, off').out, PackFrom(rest, id, off').ok)
  {
    hide GetMarker, RowsOf, Taken;
    var n := Taken(ls[1..], ROWS);
    if ls[1 + n..] != [] { assert ls[1 + n..][0] == ls[1 + n]; }
  }

  lemma NoText()
    ensures TextLines([]) == []
  {
  }

  // ----- unpacking the image of canonical text -----

  lemma {:induction false} TrimmedPadded(r: seq<byte>, n: nat)
    requires TrimmedLen(r) == |r|
    ensures TrimmedLen(r + Spaces(n)) == |r|
    decreases n
  {
    if n == 0 {
      assert r + Spaces(n) == r;
    } else {
      var s := r + Spaces(n);
      assert s[..|s| - 1] == r + Spaces(n - 1);
      TrimmedPadded(r, n - 1);
    }
  }

  lemma TrimmedBlank(n: nat)
    ensures TrimmedLen(Spaces(n)) == 0
  {
    TrimmedPadded([], n);
    assert [] + Spaces(n) == Spaces(n);
  }

  lemma NormalPrintable(r: seq<byte>)
    requires forall i :: 0 <= i < |r| ==> r[i] != 0
    ensures Normal(r) == r
  {
  }

  /** A padded row is printed as it was. */
  lemma RowUnpacked(r: seq<byte>)
    requires RowOk(r)
    ensures LineOf(Padded(r)) == r + [NL]
  {
    hide GetMarker;
    TrimmedPadded(r, ROW - |r|);
    assert (r + Spaces(ROW - |r|))[..|r|] == r;
    NormalPrintable(r);
  }

  lemma {:induction false} RowsUnpacked(rows: seq<seq<byte>>, b: seq<byte>, i: nat)
    requires i <= |rows| && RowsOk(rows[i..])
    requires |rows| * ROW <= |b| && b[i * ROW..|rows| * ROW] == RowsImage(rows[i..])
    ensures RowLines(b, i, |rows|) == RowText(rows[i..])
    decreases |rows| - i
  {
    if i < |rows| {
      var r, tail := rows[i], rows[i..];
      assert tail[0] == r && tail[1..] == rows[i + 1..];
      FirstRow(tail);
      RowUnpacked(r);
      RowsImageSize(tail[1..]);
      hide RowOk, LineOf, Padded, RowsOk;
      var a, e := i * ROW, |rows| * ROW;
      assert a + ROW == (i + 1) * ROW <= e;
      SliceStep(b, a, e, Padded(r), RowsImage(tail[1..]));
      RowsUnpacked(rows, b, i + 1);
    }
  }

  lemma SliceStep(b: seq<byte>, a: nat, e: nat, p: seq<byte>, t: seq<byte>)
    requires |p| == ROW && a + ROW <= e <= |b| && b[a..e] == p + t
    ensures b[a..a + ROW] == p && b[a + ROW..e] == t
  {
    assert b[a..a + ROW] == b[a..e][..ROW];
    assert b[a + ROW..e] == b[a..e][ROW..];
  }

  /** The last visible byte of a block image is in its last row. */
  lemma {:induction false} BlockTrimmed(rows: seq<seq<byte>>, pad: nat)
    requires rows != [] && RowsOk(rows) && rows[|rows| - 1] != []
    ensures TrimmedLen(RowsImage(rows) + Spaces(pad)) == ROW * (|rows| - 1) + |rows[|rows| - 1]|
    decreases |rows|
  {
    hide RowOk, RowsOk, Padded, TrimmedLen, Spaces;
    FirstRow(rows);
    var r := rows[0];
    if |rows| == 1 {
      OneRow(r, pad);
      assert RowsImage(rows) == Padded(r) + [] == Padded(r);
    } else {
      BlockTrimmed(rows[1..], pad);
      assert RowsImage(rows) + Spaces(pad) == Padded(r) + (RowsImage(rows[1..]) + Spaces(pad));
      TrimmedBehind(Padded(r), RowsImage(rows[1..]) + Spaces(pad));
    }
  }

  lemma OneRow(r: seq<byte>, pad: nat)
    requires RowOk(r)
    ensures TrimmedLen(Padded(r) + Spaces(pad)) == |r|
  {
    RowTrimmed(r);
    hide RowOk, TrimmedLen;
    assert Padded(r) + Spaces(pad) == r + Spaces(ROW - |r| + pad);
    TrimmedPadded(r, ROW - |r| + pad);
  }

  lemma RowTrimmed(r: seq<byte>)
    requires RowOk(r)
    ensures TrimmedLen(r) == |r| <= ROW
  {
  }

  lemma {:induction false} TrimmedBehind(a: seq<byte>, b: seq<byte>)
    requires TrimmedLen(b) > 0
    ensures TrimmedLen(a + b) == |a| + TrimmedLen(b)
    decreases |b|
  {
    if !Visible(b[|b| - 1]) {
      assert (a + b)[..|a + b| - 1] == a + b[..|b| - 1];
      TrimmedBehind(a, b[..|b| - 1]);
    }
  }

  /** A block image is printed as its section. */
  lemma BlockUnpacked(s: Section)
    requires SectionOk(s)
    ensures |BlockImage(s)| == BLOCK
    ensures BlockLines(BlockImage(s), s.id) == [Marker(s.id)] + RowText(s.rows)
  {
    hide GetMarker, Marker, RowsOk;
    var n := |s.rows|;
    RowsImageSize(s.rows);
    var b := BlockImage(s);
    BlockTrimmed(s.rows, ROW * (ROWS - n));
    assert LineCount(b) == n;
    assert b[0 * ROW..n * ROW] == RowsImage(s.rows) && s.rows[0..] == s.rows;
    RowsUnpacked(s.rows, b, 0);
  }

  /** Blank blocks print nothing and only advance the number. */
  lemma {:induction false} BlanksUnpacked(k: nat, rest: seq<byte>, id: int)
    ensures UnpackLines(Spaces(BLOCK * k) + rest, id) == UnpackLines(rest, id + k)
    decreases k
  {
    var s := Spaces(BLOCK * k) + rest;
    if k == 0 {
      assert s == rest;
    } else {
      assert s[..BLOCK] == Spaces(BLOCK);
      assert s[BLOCK..] == Spaces(BLOCK * (k - 1)) + rest;
      TrimmedBlank(BLOCK);
      BlankLines(Spaces(BLOCK), id);
      BlanksUnpacked(k - 1, rest, id + 1);
    }
  }

  lemma BlankLines(b: seq<byte>, id: int)
    requires |b| == BLOCK && TrimmedLen(b) == 0
    ensures BlockLines(b, id) == []
  {
  }

  lemma {:induction false} UnpackCanon(ss: seq<Section>, prev: int)
    requires Canon(ss, prev)
    ensures UnpackLines(Image(ss, prev), prev + 1) == TextLines(ss)
    decreases |ss|
  {
    hide BlockImage, BlockLines, SectionOk, RowText, Marker, Spaces;
    if ss != [] {
      var s := ss[0];
      BlockUnpacked(s);
      var img := BlockImage(s) + Image(ss[1..], s.id);
      var gap := s.id - prev - 1;
      assert Image(ss, prev) == Spaces(BLOCK * gap) + img;
      BlanksUnpacked(gap, img, prev + 1);
      assert img[..BLOCK] == BlockImage(s) && img[BLOCK..] == Image(ss[1..], s.id);
      UnpackCanon(ss[1..], s.id);
    }
  }

  /** Unpack after pack: canonical text comes back byte for byte. */
  lemma UnpackAfterPack(ss: seq<Section>)
    requires Canon(ss, -1) && ss != []
    ensures var text := Join(TextLines(ss));
            Pack(text).ok && Unpack(Pack(text).out, 0) == text
  {
    hide PackFrom, Image;
    TextProper(ss, -1);
    LinesOfJoined(TextLines(ss));
    PackCanon(ss, -1);
    UnpackCanon(ss, -1);
    MarkerReads(ss[0].id);
    assert Join(TextLines(ss)) != [] by { assert TextLines(ss)[0] == Marker(ss[0].id); }
  }

  // ----- packing what was unpacked -----

  function Row(b: seq<byte>, i: nat): seq<byte>
    requires |b| == BLOCK && i < ROWS
  {
    b[i * ROW..(i + 1) * ROW]
  }

  /** What is left of a row: its visible part, NULs turned to spaces. */
  function Kept(row: seq<byte>): seq<byte> {
    Normal(row[..TrimmedLen(row)])
  }

  /** A row after a round trip. */
  function CleanRow(row: seq<byte>): seq<byte> {
    Padded(Kept(row))
  }

  function CleanRows(b: seq<byte>, i: nat): seq<byte>
    requires |b| == BLOCK && i <= ROWS
    decreases ROWS - i
  {
    if i == ROWS then [] else CleanRow(Row(b, i)) + CleanRows(b, i + 1)
  }

  /** An image after a round trip: clean rows, trailing blank blocks and any trailing
      part of a block dropped. */
  function CleanImage(image: seq<byte>): seq<byte>
    decreases |image|
  {
    if |image| < BLOCK then []
    else
      var rest := CleanImage(image[BLOCK..]);
      if LineCount(image[..BLOCK]) == 0 && rest == [] then [] else CleanRows(image[..BLOCK], 0) + rest
  }

  /** No row would be printed as something else than one line that is not a marker. */
  predicate RowPlain(row: seq<byte>) {
    NL !in Kept(row) && GetMarker(Kept(row) + [NL]) < 0
  }

  predicate BlockPlain(b: seq<byte>)
    requires |b| == BLOCK
  {
    forall i :: 0 <= i < ROWS ==> RowPlain(Row(b, i))
  }

  predicate Plain(image: seq<byte>)
    decreases |image|
  {
    |image| < BLOCK || (BlockPlain(image[..BLOCK]) && Plain(image[BLOCK..]))
  }

  function KeptRows(b: seq<byte>, i: nat, n: nat): seq<seq<byte>>
    requires |b| == BLOCK && i <= n <= ROWS
    decreases n - i
  {
    if i == n then [] else [Kept(Row(b, i))] + KeptRows(b, i + 1, n)
  }

  function SectionsOf(image: seq<byte>, id: nat): seq<Section>
    decreases |image|
  {
    if |image| < BLOCK then []
    else
      var b := image[..BLOCK];
      LineCountFits(b);
      var rest := SectionsOf(image[BLOCK..], id + 1);
      if LineCount(b) == 0 then rest else [Section(id, KeptRows(b, 0, LineCount(b)))] + rest
  }

  lemma {:induction false} KeptRowsAt(b: seq<byte>, i: nat, n: nat)
    requires |b| == BLOCK && i <= n <= ROWS
    ensures |KeptRows(b, i, n)| == n - i
    ensures forall k :: 0 <= k < n - i ==> KeptRows(b, i, n)[k] == Kept(Row(b, i + k))
    decreases n - i
  {
    hide Kept, Row;
    if i < n {
      KeptRowsAt(b, i + 1, n);
      forall k | 0 <= k < n - i ensures KeptRows(b, i, n)[k] == Kept(Row(b, i + k)) {
        if k > 0 { assert KeptRows(b, i + 1, n)[k - 1] == Kept(Row(b, i + 1 + (k - 1))); }
      }
    }
  }

  lemma RowTextCons(r: seq<byte>, rows: seq<seq<byte>>)
    ensures RowText([r] + rows) == [r + [NL]] + RowText(rows)
  {
    assert ([r] + rows)[1..] == rows;
  }

  lemma RowLinesStep(b: seq<byte>, i: nat, n: nat)
    requires |b| == BLOCK && i < n <= ROWS
    ensures RowLines(b, i, n) == [Kept(Row(b, i)) + [NL]] + RowLines(b, i + 1, n)
  {
    hide Normal, TrimmedLen;
  }

  lemma {:induction false} KeptText(b: seq<byte>, i: nat, n: nat)
    requires |b| == BLOCK && i <= n <= ROWS
    ensures RowLines(b, i, n) == RowText(KeptRows(b, i, n))
    decreases n - i
  {
    if i < n {
      KeptText(b, i + 1, n);
      RowLinesStep(b, i, n);
      hide Normal, TrimmedLen, RowLines, RowText, Kept, Row;
      RowTextCons(Kept(Row(b, i)), KeptRows(b, i + 1, n));
    }
  }

  lemma {:induction false} SectionsText(image: seq<byte>, id: nat)
    ensures UnpackLines(image, id) == TextLines(SectionsOf(image, id))
    decreases |image|
  {
    hide LineCount, RowLines, KeptRows, Marker, RowText;
    if |image| >= BLOCK {
      var b := image[..BLOCK];
      LineCountFits(b);
      KeptText(b, 0, LineCount(b));
      SectionsText(image[BLOCK..], id + 1);
      if LineCount(b) > 0 {
        var s := Section(id, KeptRows(b, 0, LineCount(b)));
        var rest := SectionsOf(image[BLOCK..], id + 1);
        assert ([s] + rest)[0] == s && ([s] + rest)[1..] == rest;
      }
    }
  }

  lemma KeptTrimmed(row: seq<byte>)
    ensures TrimmedLen(Kept(row)) == |Kept(row)| == TrimmedLen(row)
  {
    var r := Kept(row);
    if r != [] { assert Visible(row[|r| - 1]) && r[|r| - 1] == row[|r| - 1]; }
  }

  lemma KeptOk(row: seq<byte>)
    requires |row| == ROW && RowPlain(row)
    ensures RowOk(Kept(row))
  {
    hide GetMarker;
    KeptTrimmed(row);
  }

  /** The last row that is printed is not empty, and the rows behind it are blank. */
  lemma LastRow(b: seq<byte>)
    requires |b| == BLOCK && LineCount(b) > 0
    ensures LineCount(b) <= ROWS && Kept(Row(b, LineCount(b) - 1)) != []
  {
    LineCountFits(b);
    var last := TrimmedLen(b) - 1;
    var n := LineCount(b);
    assert (n - 1) * ROW <= last < n * ROW;
    var row := Row(b, n - 1);
    assert row[last - (n - 1) * ROW] == b[last];
    assert Visible(row[last - (n - 1) * ROW]);
    KeptTrimmed(row);
  }

  lemma BlankRow(b: seq<byte>, i: nat)
    requires |b| == BLOCK && LineCount(b) <= i < ROWS
    ensures Kept(Row(b, i)) == []
  {
    var row := Row(b, i);
    assert TrimmedLen(b) <= i * ROW;
    forall k | 0 <= k < ROW ensures !Visible(row[k]) {
      assert row[k] == b[i * ROW + k];
    }
    KeptTrimmed(row);
  }

  lemma {:induction false} SectionsCanon(image: seq<byte>, id: nat, prev: int)
    requires Plain(image) && prev < id && id + |image| / BLOCK <= INT_MAX
    ensures Canon(SectionsOf(image, id), prev)
    decreases |image|
  {
    hide GetMarker, LineCount, RowOk, RowPlain, Kept;
    if |image| >= BLOCK {
      var b := image[..BLOCK];
      LineCountFits(b);
      assert |image[BLOCK..]| / BLOCK == |image| / BLOCK - 1;
      if LineCount(b) == 0 {
        SectionsCanon(image[BLOCK..], id + 1, prev);
      } else {
        var n := LineCount(b);
        SectionsCanon(image[BLOCK..], id + 1, id);
        var s := Section(id, KeptRows(b, 0, n));
        KeptRowsAt(b, 0, n);
        LastRow(b);
        forall i | 0 <= i < n ensures RowOk(s.rows[i]) { KeptOk(Row(b, i)); }
        var rest := SectionsOf(image[BLOCK..], id + 1);
        assert ([s] + rest)[0] == s && ([s] + rest)[1..] == rest;
      }
    }
  }

  lemma {:induction false} BlankTail(b: seq<byte>, i: nat)
    requires |b| == BLOCK && LineCount(b) <= i <= ROWS
    ensures CleanRows(b, i) == Spaces(ROW * (ROWS - i))
    decreases ROWS - i
  {
    hide LineCount, Kept;
    if i < ROWS {
      BlankRow(b, i);
      BlankTail(b, i + 1);
    }
  }

  lemma {:induction false} KeptImage(b: seq<byte>, i: nat)
    requires |b| == BLOCK && i <= LineCount(b) <= ROWS
    ensures RowsImage(KeptRows(b, i, LineCount(b))) + Spaces(ROW * (ROWS - LineCount(b))) == CleanRows(b, i)
    decreases LineCount(b) - i
  {
    hide LineCount, Kept, Padded;
    var n := LineCount(b);
    var pad := Spaces(ROW * (ROWS - n));
    if i == n {
      BlankTail(b, n);
      assert [] + pad == pad;
    } else {
      KeptImage(b, i + 1);
      var t := KeptRows(b, i, n);
      assert t[0] == Kept(Row(b, i)) && t[1..] == KeptRows(b, i + 1, n);
      var p, q := Padded(t[0]), RowsImage(t[1..]);
      assert p + q + pad == p + (q + pad);
    }
  }

  /** The image of an unpacked image is the clean image, at its block numbers. */
  lemma {:induction false} SectionsImage(image: seq<byte>, id: nat, prev: int)
    requires Plain(image) && prev < id && id + |image| / BLOCK <= INT_MAX
    ensures Canon(SectionsOf(image, id), prev)
    ensures (SectionsOf(image, id) == [] <==> CleanImage(image) == [])
    ensures SectionsOf(image, id) != [] ==>
            Image(SectionsOf(image, id), prev) == Spaces(BLOCK * (id - prev - 1)) + CleanImage(image)
    decreases |image|
  {
    hide LineCount, CleanRows, Canon, Image, Spaces, KeptRows, Plain, SectionsOf, CleanImage;
    SectionsCanon(image, id, prev);
    if |image| < BLOCK {
      NoSections(image, id);
    } else {
      var tail := image[BLOCK..];
      PlainTail(image);
      LineCountFits(image[..BLOCK]);
      assert |tail| / BLOCK == |image| / BLOCK - 1;
      if LineCount(image[..BLOCK]) == 0 {
        SectionsImage(tail, id + 1, prev);
        BlankFirst(image, id);
        MoreBlank(id - prev - 1, CleanImage(tail));
      } else {
        SectionsImage(tail, id + 1, id);
        VisibleFirst(image, id, prev);
      }
    }
  }

  lemma NoSections(image: seq<byte>, id: nat)
    requires |image| < BLOCK
    ensures SectionsOf(image, id) == [] && CleanImage(image) == []
  {
  }

  lemma MoreBlank(k: nat, t: seq<byte>)
    ensures Spaces(BLOCK * (k + 1)) + t == Spaces(BLOCK * k) + (Spaces(BLOCK) + t)
  {
  }

  /** A blank block at the start of an image. */
  lemma BlankFirst(image: seq<byte>, id: nat)
    requires |image| >= BLOCK && LineCount(image[..BLOCK]) == 0
    ensures SectionsOf(image, id) == SectionsOf(image[BLOCK..], id + 1)
    ensures CleanImage(image) == if CleanImage(image[BLOCK..]) == [] then []
                                 else Spaces(BLOCK) + CleanImage(image[BLOCK..])
  {
    hide LineCount, CleanRows, KeptRows;
    BlankTail(image[..BLOCK], 0);
  }

  /** A visible block at the start of an image. */
  lemma VisibleFirst(image: seq<byte>, id: nat, prev: int)
    requires |image| >= BLOCK && 0 < LineCount(image[..BLOCK]) <= ROWS && prev < id
    requires Canon(SectionsOf(image, id), prev) && Canon(SectionsOf(image[BLOCK..], id + 1), id)
    requires var rest := SectionsOf(image[BLOCK..], id + 1);
             if rest == [] then CleanImage(image[BLOCK..]) == []
             else Image(rest, id) == Spaces(BLOCK * 0) + CleanImage(image[BLOCK..])
    ensures SectionsOf(image, id) != [] && CleanImage(image) != []
    ensures Image(SectionsOf(image, id), prev) == Spaces(BLOCK * (id - prev - 1)) + CleanImage(image)
  {
    hide LineCount, CleanRows, KeptRows, Image, Canon, SectionOk, BlockImage;
    CleanSize(image[..BLOCK], 0);
    var b, tail := image[..BLOCK], CleanImage(image[BLOCK..]);
    var s := Section(id, KeptRows(b, 0, LineCount(b)));
    var rest := SectionsOf(image[BLOCK..], id + 1);
    assert SectionsOf(image, id) == [s] + rest;
    CanonParts([s] + rest, prev);
    SectionClean(b, id);
    FrontImage(s, rest, prev, tail);
  }

  lemma FrontImage(s: Section, rest: seq<Section>, prev: int, tail: seq<byte>)
    requires SectionOk(s) && prev < s.id && Canon([s] + rest, prev) && Canon(rest, s.id)
    requires if rest == [] then tail == [] else Image(rest, s.id) == Spaces(BLOCK * 0) + tail
    ensures Image([s] + rest, prev) == Spaces(BLOCK * (s.id - prev - 1)) + (BlockImage(s) + tail)
  {
    hide BlockImage, SectionOk, Canon;
    var ss := [s] + rest;
    assert ss[0] == s && ss[1..] == rest;
    assert Image(rest, s.id) == tail;
    assert Image(ss, prev) == Spaces(BLOCK * (s.id - prev - 1)) + BlockImage(s) + Image(rest, s.id);
  }

  lemma PlainTail(image: seq<byte>)
    requires Plain(image) && |image| >= BLOCK
    ensures Plain(image[BLOCK..])
  {
  }

  lemma CanonParts(ss: seq<Section>, prev: int)
    requires Canon(ss, prev) && ss != []
    ensures SectionOk(ss[0]) && Canon(ss[1..], ss[0].id)
  {
  }

  lemma {:induction false} CleanSize(b: seq<byte>, i: nat)
    requires |b| == BLOCK && i <= ROWS
    ensures |CleanRows(b, i)| == ROW * (ROWS - i)
    decreases ROWS - i
  {
    if i < ROWS { CleanSize(b, i + 1); }
  }

  lemma SectionClean(b: seq<byte>, id: nat)
    requires |b| == BLOCK && 0 < LineCount(b) <= ROWS
    requires SectionOk(Section(id, KeptRows(b, 0, LineCount(b))))
    ensures BlockImage(Section(id, KeptRows(b, 0, LineCount(b)))) == CleanRows(b, 0)
  {
    hide LineCount, KeptRows, CleanRows, SectionOk, Spaces, RowsImage;
    KeptRowsAt(b, 0, LineCount(b));
    KeptImage(b, 0);
  }

  /** Pack after unpack. The text of a plain image packs if and only if some block is
      visible, and then gives startAt blank blocks and the clean image. */
  lemma PackAfterUnpack(image: seq<byte>, startAt: nat)
    requires Plain(image) && startAt + |image| / BLOCK <= INT_MAX
    ensures var r := Pack(Unpack(image, startAt));
            && (r.ok <==> CleanImage(image) != [])
            && (r.ok ==> r.out == Spaces(BLOCK * startAt) + CleanImage(image))
  {
    hide PackFrom, Image, CleanImage, Plain, SectionsOf, Canon;
    var ss := SectionsOf(image, startAt);
    SectionsText(image, startAt);
    SectionsImage(image, startAt, -1);
    TextProper(ss, -1);
    LinesOfJoined(TextLines(ss));
    if ss == [] {
      NoText();
    } else {
      PackCanon(ss, -1);
      TextParts(ss);
      assert Join(TextLines(ss)) != [] by { assert Join(TextLines(ss)) == TextLines(ss)[0] + Join(TextLines(ss)[1..]); }
    }
  }

  // ----- printable images -----

  predicate Printable(s: seq<byte>) {
    forall i :: 0 <= i < |s| ==> s[i] == 0 || SPC <= s[i] < 0x80
  }

  /** On NULs and printable 7-bit bytes a round trip only turns NULs to spaces. */
  lemma CleanPrintable(row: seq<byte>)
    requires |row| == ROW && Printable(row)
    ensures CleanRow(row) == Normal(row)
  {
    KeptTrimmed(row);
    var k := Kept(row);
    forall i | 0 <= i < ROW ensures CleanRow(row)[i] == Normal(row)[i] {
      if i >= |k| { assert !Visible(row[i]); }
    }
  }

  lemma {:induction false} CleanPrintableRows(b: seq<byte>, i: nat)
    requires |b| == BLOCK && i <= ROWS && Printable(b)
    ensures CleanRows(b, i) == Normal(b[i * ROW..])
    decreases ROWS - i
  {
    hide CleanRow;
    if i < ROWS {
      CleanPrintable(Row(b, i));
      CleanPrintableRows(b, i + 1);
      assert b[i * ROW..] == Row(b, i) + b[(i + 1) * ROW..];
    }
  }

  /** Blocks up to the last one that is not blank. */
  function VisibleBlocks(image: seq<byte>): (n: nat)
    ensures BLOCK * n <= |image|
    decreases |image|
  {
    if |image| < BLOCK then 0
    else
      var n := VisibleBlocks(image[BLOCK..]);
      if n == 0 && LineCount(image[..BLOCK]) == 0 then 0 else n + 1
  }

  lemma NormalParts(a: seq<byte>, b: seq<byte>)
    ensures Normal(a + b) == Normal(a) + Normal(b)
  {
  }

  /** A clean printable image is the image itself, NULs turned to spaces and trailing
      blank blocks dropped. */
  lemma {:induction false} CleanPrintableImage(image: seq<byte>)
    requires Printable(image)
    ensures CleanImage(image) == Normal(image[..BLOCK * VisibleBlocks(image)])
    decreases |image|
  {
    hide LineCount, Normal, CleanRows;
    if |image| < BLOCK {
      assert image[..0] == [] && |Normal(image[..0])| == 0;
    } else {
      var b, tail := image[..BLOCK], image[BLOCK..];
      var n := VisibleBlocks(tail);
      CleanPrintableImage(tail);
      CleanPrintableRows(b, 0);
      assert b[0 * ROW..] == b;
      NormalParts(b, tail[..BLOCK * n]);
      assert image[..BLOCK * (n + 1)] == b + tail[..BLOCK * n];
      if n == 0 && LineCount(b) == 0 { assert |Normal(image[..0])| == 0; }
    }
  }

  /** Pack after unpack on printable images. */
  lemma PackAfterUnpackPrintable(image: seq<byte>, startAt: nat)
    requires Plain(image) && Printable(image) && VisibleBlocks(image) > 0
    requires startAt + |image| / BLOCK <= INT_MAX
    ensures Pack(Unpack(image, startAt))
         == Result(Spaces(BLOCK * startAt) + Normal(image[..BLOCK * VisibleBlocks(image)]), true)
  {
    CleanPrintableImage(image);
    PackAfterUnpack(image, startAt);
  }
}
