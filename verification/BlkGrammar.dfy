/** What the text of a block file looks like, byte by byte: numbers, markers, rows, and which
    texts pack. */
module BlkGrammar {
  import opened Words
  import opened Decimals
  import opened BlkText
  import opened BlkRoundTrip

  // ----- markers as they are written -----

  /** `( ----- 007 )`: the number with three digits, or more if it needs them and then
      without a zero in front. */
  predicate IsMarker(l: seq<byte>, id: nat) {
    var n := |l| - 11;
    && n >= 3 && l[..8] == [40, 32, 45, 45, 45, 45, 45, 32] && l[8 + n..] == [32, 41, 10]
    && Digits(l[8..8 + n]) && Spell(l[8..8 + n]) == id
    && (n > 3 ==> l[8] != 48)
  }

  lemma {:induction false} PadSpells(s: seq<byte>, width: nat)
    requires Digits(s)
    ensures Digits(Pad(s, width)) && Spell(Pad(s, width)) == Spell(s)
    ensures |Pad(s, width)| == if |s| < width then width else |s|
    ensures |s| >= width ==> Pad(s, width) == s
    decreases width - |s|
  {
    if |s| < width {
      ZeroFront(s);
      PadSpells([48] + s, width);
    }
  }

  lemma {:induction false} ZeroFront(s: seq<byte>)
    requires Digits(s)
    ensures Digits([48] + s) && Spell([48] + s) == Spell(s)
    decreases |s|
  {
    var t := [48] + s;
    if s != [] {
      ZeroFront(s[..|s| - 1]);
      assert t[..|t| - 1] == [48] + s[..|s| - 1];
    } else {
      assert t[..0] == [];
    }
  }

  /** The three parts of a marker. */
  lemma MarkerParts(id: nat, d: seq<byte>, ds: seq<byte>)
    requires d == Decimal(id) && ds == Pad(d, 3) && |ds| >= 3 && Digits(ds)
    ensures var m := Marker(id);
            && |m| == |ds| + 11 && m[..8] == [40, 32, 45, 45, 45, 45, 45, 32]
            && m[8..8 + |ds|] == ds && m[8 + |ds|..] == [32, 41, 10]
  {
    hide Pad, Decimal;
    var front: seq<byte>, back: seq<byte> := [40, 32, 45, 45, 45, 45, 45, 32], [32, 41, 10];
    assert [40, SPC] + DASHES + [SPC] == front;
    var m := front + ds + back;
    assert Marker(id) == m;
    assert m[..8] == front && m[8..8 + |ds|] == ds && m[8 + |ds|..] == back;
  }

  /** blkunpack writes this line for a block, and only this one. */
  lemma MarkerIs(l: seq<byte>, id: nat)
    ensures IsMarker(l, id) <==> l == Marker(id)
  {
    var d := Decimal(id);
    var ds := Pad(d, 3);
    if id == 0 { assert |d| == 1; }
    hide Marker, Pad, Decimal, Spell, Pow10;
    DecimalSpells(id);
    PadSpells(d, 3);
    MarkerParts(id, d, ds);
    assert IsMarker(Marker(id), id);
    if IsMarker(l, id) {
      var n := |l| - 11;
      var es := l[8..8 + n];
      SameNumber(es, ds, d, id);
      InThree(l, 8, 8 + n);
      InThree(Marker(id), 8, 8 + n);
    }
  }

  lemma InThree<T>(s: seq<T>, i: nat, j: nat)
    requires i <= j <= |s|
    ensures s == s[..i] + s[i..j] + s[j..]
  {
  }

  /** Two spellings of a number with at least three digits and no zero in front of more. */
  lemma SameNumber(x: seq<byte>, y: seq<byte>, d: seq<byte>, n: nat)
    requires Digits(x) && Digits(y) && Digits(d) && Spell(x) == Spell(y) == n
    requires |x| >= 3 && (|x| > 3 ==> x[0] != 48)
    requires |y| == (if |d| < 3 then 3 else |d|) && (|d| >= 3 ==> y == d) && d != []
    requires if n == 0 then |d| == 1 else d[0] != 48
    ensures x == y
  {
    SpellBounds(x);
    SpellBounds(y);
    if |x| < |y| {
      assert |y| > 3 && y == d;
      Grows(|x|, |y| - 1);
    } else if |y| < |x| {
      Grows(|y|, |x| - 1);
    } else {
      SameDigits(x, y);
    }
  }

  /** Below 1000 the number takes three digits, zeros in front. */
  lemma ThreeDigits(a: nat, b: nat, c: nat)
    requires a < 10 && b < 10 && c < 10
    ensures Marker(100 * a + 10 * b + c)
         == [40, 32, 45, 45, 45, 45, 45, 32, 48 + a, 48 + b, 48 + c, 32, 41, 10]
  {
    hide Marker;
    var front: seq<byte>, back: seq<byte> := [40, 32, 45, 45, 45, 45, 45, 32], [32, 41, 10];
    var ds: seq<byte> := [48 + a, 48 + b, 48 + c];
    SpellThree(a, b, c);
    hide Spell;
    var l := front + ds + back;
    assert l[..8] == front && l[8..11] == ds && l[11..] == back;
    assert IsMarker(l, 100 * a + 10 * b + c);
    MarkerIs(l, 100 * a + 10 * b + c);
    assert l == [40, 32, 45, 45, 45, 45, 45, 32, 48 + a, 48 + b, 48 + c, 32, 41, 10];
  }

  lemma SpellThree(a: nat, b: nat, c: nat)
    requires a < 10 && b < 10 && c < 10
    ensures Digits([48 + a, 48 + b, 48 + c]) && Spell([48 + a, 48 + b, 48 + c]) == 100 * a + 10 * b + c
  {
    assert [48 + a][..0] == [];
    assert Spell([48 + a]) == a;
    assert [48 + a, 48 + b][..1] == [48 + a];
    assert Spell([48 + a, 48 + b]) == 10 * a + b;
    assert [48 + a, 48 + b, 48 + c][..2] == [48 + a, 48 + b];
  }

  /** A negative number, which `startat` can bring about, has its sign and at least two digits. */
  lemma NegativeMarker(id: nat)
    requires 0 < id
    ensures exists ds :: Digits(ds) && Spell(ds) == id && |ds| >= 2 && (|ds| > 2 ==> ds[0] != 48)
                         && Marker(-(id as int)) == [40, 32, 45, 45, 45, 45, 45, 32, 45] + ds + [32, 41, 10]
  {
    var d := Decimal(id);
    DecimalSpells(id);
    PadSpells(d, 2);
    var ds := Pad(d, 2);
    hide Pad, Decimal, Spell;
    assert [40, SPC] + DASHES + [SPC] + ([45] + ds) + [SPC, 41, NL]
        == [40, 32, 45, 45, 45, 45, 45, 32, 45] + ds + [32, 41, 10];
    assert Fmt03(-(id as int)) == [45] + ds;
  }

  // ----- markers as they are read -----

  predicate Blank(s: seq<byte>) {
    forall i :: 0 <= i < |s| ==> s[i] == 32 || 9 <= s[i] <= 13
  }

  /** A line is a marker for v: an opening parenthesis, five dashes and a number with an
      optional sign, white space in between, and anything behind. */
  ghost predicate Reads(l: seq<byte>, v: int) {
    exists a, b, sign, ds, rest :: ReadsAs(l, v, a, b, sign, ds, rest)
  }

  predicate ReadsAs(l: seq<byte>, v: int, a: seq<byte>, b: seq<byte>, sign: seq<byte>, ds: seq<byte>, rest: seq<byte>) {
    && l == [40] + (a + ([45, 45, 45, 45, 45] + (b + (sign + (ds + rest)))))
    && Blank(a) && Blank(b)
    && (sign == [] || sign == [43] || sign == [45])
    && ds != [] && Digits(ds) && (rest == [] || !IsDigit(rest[0]))
    && v == if sign == [45] then -(Spell(ds) as int) else Spell(ds)
  }

  lemma {:induction false} SkipBlank(a: seq<byte>, s: seq<byte>)
    requires Blank(a) && s != [] && !IsSpace(s[0])
    ensures SkipSpace(a + s) == s
    decreases |a|
  {
    if a == [] {
      assert a + s == s;
    } else {
      assert (a + s)[0] == a[0] && (a + s)[1..] == a[1..] + s;
      SkipBlank(a[1..], s);
    }
  }

  /** White space in front of what is left. */
  lemma {:induction false} Skipped(s: seq<byte>) returns (a: seq<byte>)
    ensures Blank(a) && s == a + SkipSpace(s)
    ensures SkipSpace(s) == [] || !IsSpace(SkipSpace(s)[0])
    decreases |s|
  {
    a := [];
    if s != [] && IsSpace(s[0]) {
      var b := Skipped(s[1..]);
      a := [s[0]] + b;
      assert s == [s[0]] + s[1..];
    }
  }

  /** Digits in front of what is left. */
  lemma {:induction false} Leading(s: seq<byte>) returns (ds: seq<byte>, rest: seq<byte>)
    ensures s == ds + rest && Digits(ds) && (rest == [] || !IsDigit(rest[0]))
    ensures s != [] && IsDigit(s[0]) ==> ds != []
    decreases |s|
  {
    ds, rest := [], s;
    if s != [] && IsDigit(s[0]) {
      var es, tail := Leading(s[1..]);
      ds, rest := [s[0]] + es, tail;
      assert s == [s[0]] + s[1..];
    }
  }

  lemma ScanSigned(sign: seq<byte>, ds: seq<byte>, rest: seq<byte>)
    requires (sign == [] || sign == [43] || sign == [45]) && ds != [] && Digits(ds)
    requires rest == [] || !IsDigit(rest[0])
    ensures ScanInt(sign + (ds + rest)) == if sign == [45] then -(Spell(ds) as int) else Spell(ds)
  {
    hide Scan, Spell;
    ScanNumber(ds, rest);
    var s := sign + (ds + rest);
    assert (ds + rest)[0] == ds[0];
    if sign == [] {
      assert s == ds + rest;
    } else {
      assert s[0] == sign[0] && s[1..] == ds + rest && s[1] == ds[0];
    }
  }

  /** A marker for v is read as v. */
  lemma ReadsMarker(l: seq<byte>, v: int, a: seq<byte>, b: seq<byte>, sign: seq<byte>, ds: seq<byte>, rest: seq<byte>)
    requires ReadsAs(l, v, a, b, sign, ds, rest)
    ensures GetMarker(l) == v
  {
    hide Spell, ScanInt, SkipSpace;
    var n := sign + (ds + rest);
    var m := DASHES + (b + n);
    assert l[0] == 40 && l[1..] == a + m;
    SkipBlank(a, m);
    assert m[..5] == DASHES && m[5..] == b + n;
    assert n[0] == if sign == [] then ds[0] else sign[0];
    SkipBlank(b, n);
    ScanSigned(sign, ds, rest);
  }

  /** A number of a block is read from exactly the lines that are a marker for it. */
  lemma MarkerGrammar(l: seq<byte>, v: nat)
    ensures GetMarker(l) == v <==> Reads(l, v)
  {
    hide Spell, ScanInt, SkipSpace;
    if Reads(l, v) {
      var a, b, sign, ds, rest :| ReadsAs(l, v, a, b, sign, ds, rest);
      ReadsMarker(l, v, a, b, sign, ds, rest);
    }
    if GetMarker(l) == v {
      var a := Skipped(l[1..]);
      var m := SkipSpace(l[1..]);
      var b := Skipped(m[5..]);
      var n := SkipSpace(m[5..]);
      var sign, ds, rest := ScannedParts(n);
      assert l == [40] + l[1..] && m == m[..5] + m[5..];
      ScanSigned(sign, ds, rest);
      assert ReadsAs(l, v, a, b, sign, ds, rest);
    }
  }

  lemma ScannedParts(n: seq<byte>) returns (sign: seq<byte>, ds: seq<byte>, rest: seq<byte>)
    requires ScanInt(n) >= 0
    ensures n == sign + (ds + rest) && (sign == [] || sign == [43] || sign == [45])
    ensures ds != [] && Digits(ds) && (rest == [] || !IsDigit(rest[0]))
  {
    if IsDigit(n[0]) {
      sign := [];
      ds, rest := Leading(n);
      assert n == sign + n;
    } else {
      sign := [n[0]];
      ds, rest := Leading(n[1..]);
      assert n == sign + n[1..];
    }
  }

  // ----- canonical text -----

  /** The lines of a section: its marker and its rows, each with a newline. */
  predicate IsSection(ls: seq<Line>, s: Section) {
    && |ls| == 1 + |s.rows| && IsMarker(ls[0], s.id)
    && forall i :: 0 <= i < |s.rows| ==> ls[1 + i] == s.rows[i] + [10]
  }

  /** The lines of a text: those of its sections. */
  predicate IsText(ls: seq<Line>, ss: seq<Section>)
    decreases |ss|
  {
    if ss == [] then ls == []
    else
      var n := 1 + |ss[0].rows|;
      |ls| >= n && IsSection(ls[..n], ss[0]) && IsText(ls[n..], ss[1..])
  }

  lemma SectionIs(ls: seq<Line>, s: Section)
    ensures IsSection(ls, s) <==> ls == [Marker(s.id)] + RowText(s.rows)
  {
    hide Marker, IsMarker;
    var t := [Marker(s.id)] + RowText(s.rows);
    RowTextAt(s.rows);
    MarkerIs(t[0], s.id);
    if ls != [] { MarkerIs(ls[0], s.id); }
    hide RowText;
    if IsSection(ls, s) {
      forall j | 1 <= j < |ls| ensures ls[j] == t[j] { assert ls[1 + (j - 1)] == s.rows[j - 1] + [10]; }
      assert ls == t;
    }
  }

  lemma {:induction false} TextIs(ls: seq<Line>, ss: seq<Section>)
    ensures IsText(ls, ss) <==> ls == TextLines(ss)
    decreases |ss|
  {
    hide Marker, IsSection, RowText;
    if ss != [] {
      var n := 1 + |ss[0].rows|;
      var t := [Marker(ss[0].id)] + RowText(ss[0].rows);
      RowTextAt(ss[0].rows);
      assert TextLines(ss) == t + TextLines(ss[1..]);
      hide TextLines;
      if |ls| >= n {
        SectionIs(ls[..n], ss[0]);
        TextIs(ls[n..], ss[1..]);
        TwoParts(ls, n, t, TextLines(ss[1..]));
      }
    }
  }

  lemma TwoParts<T>(s: seq<T>, n: nat, a: seq<T>, b: seq<T>)
    requires n == |a| <= |s|
    ensures s == a + b <==> s[..n] == a && s[n..] == b
  {
    assert s == s[..n] + s[n..];
    assert (a + b)[..n] == a && (a + b)[n..] == b;
  }

  /** Unpack after pack on a text that is given byte by byte. */
  lemma TextComesBack(ls: seq<Line>, ss: seq<Section>)
    requires Canon(ss, -1) && ss != [] && IsText(ls, ss)
    ensures Pack(Join(ls)).ok && Unpack(Pack(Join(ls)).out, 0) == Join(ls)
  {
    hide IsText, TextLines, Canon;
    TextIs(ls, ss);
    UnpackAfterPack(ss);
  }

  /** What blkunpack prints of an image is the text of its sections. */
  lemma UnpackPrints(image: seq<byte>, id: nat)
    ensures IsText(UnpackLines(image, id), SectionsOf(image, id))
  {
    hide IsText, TextLines, SectionsOf, UnpackLines;
    SectionsText(image, id);
    TextIs(UnpackLines(image, id), SectionsOf(image, id));
  }

  // ----- rows -----

  /** A row is printed up to its last byte from 33 to 127, its NULs as spaces. */
  lemma RowPrinted(row: seq<byte>)
    ensures var l := LineOf(row);
            var n := |l| - 1;
            && n <= |row| && l[n] == 10
            && (n > 0 ==> 33 <= row[n - 1] <= 127)
            && (forall i :: n <= i < |row| ==> row[i] <= 32 || row[i] >= 128)
            && (forall i :: 0 <= i < n ==> l[i] == if row[i] == 0 then 32 else row[i])
  {
    var n := TrimmedLen(row);
    assert Normal(row[..n])[..n] == Normal(row[..n]);
    assert forall i :: n <= i < |row| ==> !Visible(row[i]);
  }

  /** A block is printed up to its last row with such a byte: nothing, or its marker and those
      rows. */
  lemma BlockPrinted(b: seq<byte>, id: nat)
    requires |b| == 1024
    ensures var ls := BlockLines(b, id);
            var n := |ls| - 1;
            if ls == [] then forall j :: 0 <= j < 1024 ==> b[j] <= 32 || b[j] >= 128
            else
              && 1 <= n <= 16 && IsMarker(ls[0], id)
              && (exists j :: 64 * (n - 1) <= j < 64 * n && 33 <= b[j] <= 127)
              && (forall j :: 64 * n <= j < 1024 ==> b[j] <= 32 || b[j] >= 128)
              && forall i :: 0 <= i < n ==> ls[1 + i] == LineOf(b[64 * i..64 * i + 64])
  {
    hide Marker, IsMarker, LineOf, RowLines;
    hide TrimmedLen;
    LineCountFits(b);
    MarkerIs(Marker(id), id);
    var k, n := TrimmedLen(b), LineCount(b);
    RowLinesCount(b, 0, n);
    LastRow(b, n);
    if n > 0 {
      var ls := BlockLines(b, id);
      forall i | 0 <= i < n ensures ls[1 + i] == LineOf(b[64 * i..64 * i + 64]) {
        RowLinesAt(b, 0, n, i);
      }
    }
  }

  /** The rows counted go up to the last one with a visible byte. */
  lemma LastRow(b: seq<byte>, n: nat)
    requires |b| == 1024 && n == LineCount(b)
    ensures n > 0 ==> exists j :: 64 * (n - 1) <= j < 64 * n && 0 <= j < 1024 && 33 <= b[j] <= 127
    ensures forall j :: 64 * n <= j < 1024 ==> b[j] <= 32 || b[j] >= 128
  {
    var k := TrimmedLen(b);
    assert forall j :: k <= j < 1024 ==> !Visible(b[j]);
    if n > 0 { assert Visible(b[k - 1]) && 64 * (n - 1) <= k - 1 < 64 * n; }
  }

  lemma {:induction false} RowLinesAt(b: seq<byte>, i: nat, n: nat, k: nat)
    requires i <= k < n && n * ROW <= |b|
    ensures k * ROW <= (k + 1) * ROW <= |b|
    ensures |RowLines(b, i, n)| == n - i && RowLines(b, i, n)[k - i] == LineOf(b[k * ROW..(k + 1) * ROW])
    decreases k - i
  {
    hide LineOf;
    assert (k + 1) * ROW <= n * ROW;
    RowLinesCount(b, i + 1, n);
    if i < k { RowLinesAt(b, i + 1, n, k); }
  }

  lemma {:induction false} RowLinesCount(b: seq<byte>, i: nat, n: nat)
    requires i <= n && n * ROW <= |b|
    ensures |RowLines(b, i, n)| == n - i
    decreases n - i
  {
    hide LineOf;
    if i < n { RowLinesCount(b, i + 1, n); }
  }

  /** A line of at most 64 bytes and a newline, without NULs, is packed as 64 bytes: itself and
      spaces. A NUL cuts off what it prints, but not the count of the spaces behind. */
  lemma RowPacks(l: Line)
    requires |l| <= 65
    ensures 0 !in l[..|l| - 1] ==>
            |RowOf(l)| == 64 && forall j :: 0 <= j < 64 ==> RowOf(l)[j] == if j < |l| - 1 then l[j] else 32
    ensures forall k :: 0 <= k < |l| - 1 && l[k] == 0 && 0 !in l[..k] ==>
            |RowOf(l)| == k + 65 - |l| &&
            forall j :: 0 <= j < k + 65 - |l| ==> RowOf(l)[j] == if j < k then l[j] else 32
  {
    var r := l[..|l| - 1];
    if 0 !in r { CutAt(r, |r|); }
    forall k | 0 <= k < |l| - 1 && l[k] == 0 && 0 !in l[..k]
      ensures |RowOf(l)| == k + 65 - |l|
      ensures forall j :: 0 <= j < k + 65 - |l| ==> RowOf(l)[j] == if j < k then l[j] else 32
    {
      assert r[..k] == l[..k];
      CutAt(r, k);
    }
  }

  lemma {:induction false} CutAt(s: seq<byte>, k: nat)
    requires k <= |s| && 0 !in s[..k] && (k < |s| ==> s[k] == 0)
    ensures CString(s) == s[..k]
    decreases k
  {
    if k > 0 {
      assert s[0] in s[..k] && s[1..][..k - 1] == s[..k][1..];
      CutAt(s[1..], k - 1);
      assert s[..k] == [s[0]] + s[1..][..k - 1];
    }
  }

  // ----- lines -----

  /** Lines are the text cut behind each newline. */
  lemma {:induction false} LinesCut(s: seq<byte>)
    ensures Join(Lines(s)) == s
    ensures forall i :: 0 <= i < |Lines(s)| ==>
            var l := Lines(s)[i];
            (forall j :: 0 <= j < |l| - 1 ==> l[j] != 10) && (i < |Lines(s)| - 1 ==> l[|l| - 1] == 10)
    decreases |s|
  {
    if s != [] {
      var l := FirstLine(s);
      FirstCut(s);
      LinesCut(s[|l|..]);
      assert Lines(s) == [l] + Lines(s[|l|..]);
      assert s == l + s[|l|..];
      hide Lines, FirstLine;
      if |l| == |s| { assert s[|l|..] == []; }
    }
  }

  lemma {:induction false} FirstCut(s: seq<byte>)
    requires s != []
    ensures var l := FirstLine(s);
            && s[..|l|] == l && (forall j :: 0 <= j < |l| - 1 ==> l[j] != 10)
            && (|l| < |s| ==> l[|l| - 1] == 10)
    decreases |s|
  {
    if s[0] != NL && |s| > 1 {
      var t := FirstLine(s[1..]);
      FirstCut(s[1..]);
      assert s[..1 + |t|] == [s[0]] + s[1..][..|t|];
    }
  }

  // ----- which texts pack, and to what -----

  /** A block of a text: the number in its marker and the lines of its rows. */
  datatype Part = Part(number: nat, rows: seq<Line>)

  ghost predicate IsBlockMarker(l: seq<byte>) {
    exists v: nat :: Reads(l, v)
  }

  /** These lines are these blocks: each a marker and up to 16 lines of at most 65 bytes that are
      no markers. The next marker may be longer only behind 16 rows. */
  ghost predicate Parses(ls: seq<Line>, ps: seq<Part>)
    decreases |ps|
  {
    && ps != []
    && var n := |ps[0].rows|;
       && n <= 16 && |ls| >= 1 + n && Reads(ls[0], ps[0].number) && ls[1..1 + n] == ps[0].rows
       && (forall r :: r in ps[0].rows ==> |r| <= 65 && !IsBlockMarker(r))
       && var rest := ls[1 + n..];
          if rest == [] then |ps| == 1
          else (n == 16 || |rest[0]| <= 65) && Parses(rest, ps[1..])
  }

  /** What is added to the numbers from here on: block 0 starts over at the next ten. */
  function Bump(number: nat, prev: int, off: int): int {
    if number == 0 && prev >= 0 then 10 * (prev / 10 + 1) else off
  }

  /** The numbers of the blocks ascend. */
  predicate Ascend(ps: seq<Part>, prev: int, off: int)
    decreases |ps|
  {
    ps == [] ||
    var off' := Bump(ps[0].number, prev, off);
    var id := ps[0].number + off';
    prev < id && Ascend(ps[1..], id, off')
  }

  function RowsBytes(rows: seq<Line>): seq<byte> {
    if rows == [] then [] else RowOf(rows[0]) + RowsBytes(rows[1..])
  }

  predicate ShortParts(ps: seq<Part>) {
    forall p :: p in ps ==> |p.rows| <= 16
  }

  /** A block behind block prev: blank blocks in between, rows, and blank rows up to the
      sixteenth. */
  function PartImage(rows: seq<Line>, id: int, prev: int): seq<byte>
    requires prev < id && |rows| <= 16
  {
    Spaces(1024 * (id - prev - 1)) + RowsBytes(rows) + Spaces(64 * (16 - |rows|))
  }

  function PartsImage(ps: seq<Part>, prev: int, off: int): seq<byte>
    requires Ascend(ps, prev, off) && ShortParts(ps)
    decreases |ps|
  {
    if ps == [] then []
    else
      var off' := Bump(ps[0].number, prev, off);
      var id := ps[0].number + off';
      PartImage(ps[0].rows, id, prev) + PartsImage(ps[1..], id, off')
  }

  lemma {:induction false} RowsBytesAre(rows: seq<Line>)
    ensures RowsBytes(rows) == RowsOf(rows)
    decreases |rows|
  {
    hide RowOf;
    if rows != [] { RowsBytesAre(rows[1..]); }
  }

  lemma MarkerOrNot(l: seq<byte>)
    ensures GetMarker(l) >= 0 <==> IsBlockMarker(l)
  {
    hide GetMarker, Reads;
    if GetMarker(l) >= 0 { MarkerGrammar(l, GetMarker(l)); }
    if IsBlockMarker(l) {
      var v: nat :| Reads(l, v);
      MarkerGrammar(l, v);
    }
  }

  /** The row loop takes exactly the rows of the first block. */
  lemma {:induction false} TakesRows(ls: seq<Line>, n: nat, max: nat)
    requires n <= max && n <= |ls|
    requires forall i :: 0 <= i < n ==> !TooLong(ls[i]) && GetMarker(ls[i]) < 0
    requires n == max || n == |ls| || TooLong(ls[n]) || GetMarker(ls[n]) >= 0
    ensures Taken(ls, max) == n
    decreases n
  {
    hide GetMarker, TooLong;
    if n > 0 {
      assert forall i :: 0 <= i < n - 1 ==> ls[1..][i] == ls[i + 1];
      TakesRows(ls[1..], n - 1, max - 1);
    }
  }

  /** What the loop of blkpack finds of the first block. */
  lemma HeadTaken(ls: seq<Line>, ps: seq<Part>) returns (n: nat, rest: seq<Line>)
    requires Parses(ls, ps)
    ensures ps != [] && n == |ps[0].rows| <= 16 && n < |ls| && rest == ls[1 + n..]
    ensures GetMarker(ls[0]) == ps[0].number && Taken(ls[1..], 16) == n
    ensures RowsOf(ls[1..1 + n]) == RowsBytes(ps[0].rows)
    ensures rest == [] ==> ps[1..] == []
    ensures rest != [] ==> Parses(rest, ps[1..]) && (n == 16 || !TooLong(ls[1 + n]))
  {
    hide GetMarker, Reads, IsBlockMarker, RowsOf, RowsBytes, Taken;
    var p := ps[0];
    n := |p.rows|;
    rest := ls[1 + n..];
    MarkerGrammar(ls[0], p.number);
    forall i | 0 <= i < n ensures !TooLong(ls[1..][i]) && GetMarker(ls[1..][i]) < 0 {
      assert ls[1..][i] == p.rows[i] && p.rows[i] in p.rows;
      MarkerOrNot(ls[1..][i]);
    }
    if rest != [] {
      assert ls[1..][n] == rest[0];
      MarkerGrammar(rest[0], ps[1].number);
    }
    TakesRows(ls[1..], n, ROWS);
    RowsBytesAre(p.rows);
  }

  lemma ImageStep(ps: seq<Part>, prev: int, off: int)
    requires ps != [] && Ascend(ps, prev, off) && ShortParts(ps[1..]) && |ps[0].rows| <= 16
    ensures var off' := Bump(ps[0].number, prev, off);
            var id := ps[0].number + off';
            && prev < id && Ascend(ps[1..], id, off') && ShortParts(ps)
            && PartsImage(ps, prev, off) == PartImage(ps[0].rows, id, prev) + PartsImage(ps[1..], id, off')
  {
    hide PartImage, Bump;
    assert forall p :: p in ps ==> p == ps[0] || p in ps[1..];
  }

  lemma BumpIsOffset(number: nat, prev: int, off: int)
    ensures Offset(number, prev, off) == Bump(number, prev, off)
  {
  }

  lemma Sized(x: int)
    ensures BLOCK * x == 1024 * x && ROW * x == 64 * x && ROWS == 16
  {
  }

  lemma PaddedRows(ls: seq<Line>, p: Part, n: nat, id: int, prev: int)
    requires n < |ls| && n == |p.rows| <= 16 && RowsOf(ls[1..1 + n]) == RowsBytes(p.rows) && prev < id
    ensures Spaces(BLOCK * (id - prev - 1)) + RowsOf(ls[1..1 + n]) + Spaces(ROW * (ROWS - n))
         == PartImage(p.rows, id, prev)
  {
    hide RowsBytes, RowsOf, Spaces;
    Sized(id - prev - 1);
    Sized(16 - n);
  }

  /** One turn of the loop of blkpack. */
  lemma PartPacks(ls: seq<Line>, p: Part, n: nat, rest: seq<Line>, prev: int, off: int, id: int, off': int)
    requires ls != [] && n < |ls| && n <= 16 && prev >= -1 && rest == ls[1 + n..]
    requires GetMarker(ls[0]) == p.number && Taken(ls[1..], 16) == n == |p.rows|
    requires RowsOf(ls[1..1 + n]) == RowsBytes(p.rows)
    requires off' == Bump(p.number, prev, off) && id == p.number + off' && prev < id
    requires rest == [] || n == 16 || !TooLong(ls[1 + n])
    ensures rest == [] ==> PackFrom(ls, prev, off) == Result(PartImage(p.rows, id, prev), true)
    ensures rest != [] ==>
            PackFrom(ls, prev, off) == Result(PartImage(p.rows, id, prev) + PackFrom(rest, id, off').out,
                                              PackFrom(rest, id, off').ok)
  {
    hide *;
    Sized(1);
    BumpIsOffset(p.number, prev, off);
    PackStep(ls, prev, off);
    PaddedRows(ls, p, n, id, prev);
  }

  lemma AscendStep(ps: seq<Part>, prev: int, off: int)
    requires Ascend(ps, prev, off) && ps != []
    ensures var off' := Bump(ps[0].number, prev, off);
            var id := ps[0].number + off';
            prev < id && Ascend(ps[1..], id, off')
  {
    hide Bump;
  }

  /** The first block, the image it adds, and what comes behind. */
  lemma FirstPart(ls: seq<Line>, ps: seq<Part>, prev: int, off: int)
    returns (img: seq<byte>, id: int, off': int, rest: seq<Line>)
    requires Parses(ls, ps) && Ascend(ps, prev, off) && prev >= -1
    ensures ps != [] && ls != [] && prev < id && Ascend(ps[1..], id, off')
    ensures off' == Bump(ps[0].number, prev, off) && id == ps[0].number + off'
    ensures |ps[0].rows| <= 16 && img == PartImage(ps[0].rows, id, prev)
    ensures rest == [] ==> ps[1..] == [] && PackFrom(ls, prev, off) == Result(img, true)
    ensures rest != [] ==>
            && Parses(rest, ps[1..])
            && PackFrom(ls, prev, off) == Result(img + PackFrom(rest, id, off').out, PackFrom(rest, id, off').ok)
  {
    hide GetMarker, Taken, PackFrom, PartImage, Bump, RowsOf, RowsBytes, TooLong, Ascend, Parses;
    var n: nat;
    n, rest := HeadTaken(ls, ps);
    AscendStep(ps, prev, off);
    off' := Bump(ps[0].number, prev, off);
    id := ps[0].number + off';
    PartPacks(ls, ps[0], n, rest, prev, off, id, off');
    img := PartImage(ps[0].rows, id, prev);
  }

  /** If a text can be divided like this with ascending numbers, it packs to that image. */
  lemma {:induction false} ParsedPacks(ls: seq<Line>, ps: seq<Part>, prev: int, off: int)
    requires Parses(ls, ps) && Ascend(ps, prev, off) && prev >= -1
    ensures ls != [] && ShortParts(ps) && PackFrom(ls, prev, off) == Result(PartsImage(ps, prev, off), true)
    decreases |ps|
  {
    hide PackFrom, PartsImage, PartImage, ShortParts, Ascend, Parses, Bump;
    var img, id, off', rest := FirstPart(ls, ps, prev, off);
    if rest != [] {
      ParsedPacks(rest, ps[1..], id, off');
    } else {
      NoParts(id, off');
      assert img + [] == img;
    }
    ImageStep(ps, prev, off);
  }

  lemma NoParts(prev: int, off: int)
    ensures ShortParts([]) && PartsImage([], prev, off) == []
  {
  }

  /** What it takes for the loop of blkpack to go on or to end well. */
  lemma HeadPacks(ls: seq<Line>, prev: int, off: int)
    requires ls != [] && prev >= -1 && PackFrom(ls, prev, off).ok
    ensures var id0 := GetMarker(ls[0]);
            var off' := Offset(id0, prev, off);
            var n := Taken(ls[1..], ROWS);
            && id0 >= 0 && prev < id0 + off' && n <= 16 && n < |ls|
            && (ls[1 + n..] != [] ==>
                (n == 16 || !TooLong(ls[1 + n])) && PackFrom(ls[1 + n..], id0 + off', off').ok)
  {
    hide GetMarker, RowsOf, Taken, TooLong, Offset;
    var n := Taken(ls[1..], ROWS);
    if ls[1 + n..] != [] { assert ls[1 + n..][0] == ls[1 + n]; }
  }

  lemma RowsTaken(ls: seq<Line>, n: nat)
    requires Taken(ls, 16) == n <= |ls|
    ensures forall r :: r in ls[..n] ==> |r| <= 65 && !IsBlockMarker(r)
  {
    assert forall i :: 0 <= i < n ==> !TooLong(ls[i]) && GetMarker(ls[i]) < 0;
    hide Taken, GetMarker, IsBlockMarker;
    forall r | r in ls[..n] ensures |r| <= 65 && !IsBlockMarker(r) {
      var i :| 0 <= i < n && r == ls[i];
      MarkerOrNot(r);
    }
  }

  lemma HeadParses(ls: seq<Line>, p: Part, more: seq<Part>, ps: seq<Part>)
    requires ps == [p] + more
    requires ls != [] && GetMarker(ls[0]) == p.number && |p.rows| == Taken(ls[1..], 16) < |ls|
    requires p.rows == ls[1..1 + |p.rows|]
    requires var rest := ls[1 + |p.rows|..];
             if rest == [] then more == [] else (|p.rows| == 16 || !TooLong(rest[0])) && Parses(rest, more)
    ensures Parses(ls, ps)
  {
    hide GetMarker, Reads, Taken, IsBlockMarker;
    MarkerGrammar(ls[0], p.number);
    RowsTaken(ls[1..], |p.rows|);
    assert ls[1..][..|p.rows|] == p.rows;
    assert ps[0] == p && ps[1..] == more;
  }

  /** And only then does it pack. */
  lemma {:induction false} PackedParses(ls: seq<Line>, prev: int, off: int) returns (ps: seq<Part>)
    requires ls != [] && prev >= -1 && PackFrom(ls, prev, off).ok
    ensures Parses(ls, ps) && Ascend(ps, prev, off)
    decreases |ls|
  {
    hide GetMarker, Taken, TooLong, Parses, PackFrom, Offset, Bump;
    HeadPacks(ls, prev, off);
    var id0 := GetMarker(ls[0]);
    var off' := Offset(id0, prev, off);
    var n := Taken(ls[1..], ROWS);
    BumpIsOffset(id0, prev, off);
    var rest := ls[1 + n..];
    var p := Part(id0, ls[1..1 + n]);
    var more: seq<Part> := [];
    if rest != [] {
      more := PackedParses(rest, id0 + off', off');
      assert rest[0] == ls[1 + n];
    }
    ps := [p] + more;
    HeadParses(ls, p, more, ps);
    assert ps[0] == p && ps[1..] == more;
  }

  lemma NothingParses()
    ensures forall ps: seq<Part> :: !Parses(Lines([]), ps)
  {
    assert Lines([]) == [];
  }

  /** blkpack on any input: it packs if and only if its lines are blocks whose numbers ascend,
      and then to the image of those blocks. */
  lemma PackMeans(input: seq<byte>)
    ensures Pack(input).ok <==> exists ps :: Parses(Lines(input), ps) && Ascend(ps, -1, 0)
    ensures forall ps: seq<Part> :: Parses(Lines(input), ps) && Ascend(ps, -1, 0) ==>
              ShortParts(ps) && Pack(input).out == PartsImage(ps, -1, 0)
  {
    hide PackFrom, Parses, Ascend, PartsImage;
    if input == [] { NothingParses(); }
    forall ps: seq<Part> | Parses(Lines(input), ps) && Ascend(ps, -1, 0)
      ensures ShortParts(ps) && Pack(input) == Result(PartsImage(ps, -1, 0), true)
    {
      ParsedPacks(Lines(input), ps, -1, 0);
    }
    if Pack(input).ok {
      var ps := PackedParses(Lines(input), -1, 0);
    }
  }
}
