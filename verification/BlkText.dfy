/** The two forms of a block file: its text, as tools/blkpack.c reads it, and its image
    of 1024-byte blocks, as tools/blkunpack.c reads it. */
module BlkText {
  import opened Words
  import opened Decimals

  const NL: byte := 10
  const SPC: byte := 32
  const ROW: nat := 64
  const ROWS: nat := 16
  const BLOCK: nat := 1024
  const BUMP: int := 10

  // ----- lines -----

  /** What getline returns: at least one byte. */
  type Line = l: seq<byte> | l != [] witness [NL]

  /** What getline returns first: up to and including the newline, if there is one. */
  function FirstLine(s: seq<byte>): (l: Line)
    requires s != []
    ensures |l| <= |s|
  {
    if s[0] == NL || |s| == 1 then [s[0]] else [s[0]] + FirstLine(s[1..])
  }

  function Lines(s: seq<byte>): seq<Line>
    decreases |s|
  {
    if s == [] then [] else [FirstLine(s)] + Lines(s[|FirstLine(s)|..])
  }

  function Join(ls: seq<Line>): seq<byte> {
    if ls == [] then [] else ls[0] + Join(ls[1..])
  }

  function Spaces(n: nat): (s: seq<byte>)
    ensures |s| == n
  {
    seq(n, _ => SPC)
  }

  // ----- sscanf(line, "( ----- %d )\n", &blkid) -----

  predicate IsSpace(c: byte) {
    c == SPC || 9 <= c <= 13
  }

  function SkipSpace(s: seq<byte>): (r: seq<byte>)
    ensures |r| <= |s|
  {
    if s != [] && IsSpace(s[0]) then SkipSpace(s[1..]) else s
  }

  const DASHES: seq<byte> := [45, 45, 45, 45, 45]

  /** %d: an optional sign and at least one digit; -1 when there is no number. */
  function ScanInt(s: seq<byte>): int {
    if s != [] && IsDigit(s[0]) then Scan(s, 0)
    else if |s| > 1 && s[0] == 43 && IsDigit(s[1]) then Scan(s[1..], 0)
    else if |s| > 1 && s[0] == 45 && IsDigit(s[1]) then -(Scan(s[1..], 0) as int)
    else -1
  }

  /** getmarker. A space in the format matches any amount of white space; nothing after
      the number matters. */
  function GetMarker(l: seq<byte>): int {
    if l == [] || l[0] != 40 then -1
    else
      var a := SkipSpace(l[1..]);
      if |a| < 5 || a[..5] != DASHES then -1 else ScanInt(SkipSpace(a[5..]))
  }

  // ----- blkpack -----

  /** What printf("%s") prints of a buffer: everything before the first NUL. */
  function CString(s: seq<byte>): (r: seq<byte>)
    ensures |r| <= |s|
  {
    if s == [] || s[0] == 0 then [] else [s[0]] + CString(s[1..])
  }

  /** One row: the line without its last byte, then spaces up to 64 bytes of line. */
  function RowOf(l: Line): seq<byte> {
    CString(l[..|l| - 1]) + Spaces(Gap(|l| - 1))
  }

  function Gap(len: nat): nat {
    if len < ROW then ROW - len else 0
  }

  predicate TooLong(l: seq<byte>) {
    |l| > ROW + 1
  }

  /** Lines that the row loop takes: at most max, up to a long line or an early marker. */
  function Taken(ls: seq<Line>, max: nat): (n: nat)
    ensures n <= max && n <= |ls|
    ensures forall i :: 0 <= i < n ==> !TooLong(ls[i]) && GetMarker(ls[i]) < 0
    decreases max
  {
    if max == 0 || ls == [] || TooLong(ls[0]) || GetMarker(ls[0]) >= 0 then 0
    else 1 + Taken(ls[1..], max - 1)
  }

  function RowsOf(ls: seq<Line>): seq<byte> {
    if ls == [] then [] else RowOf(ls[0]) + RowsOf(ls[1..])
  }

  /** What the program printed, and whether it returned 0. */
  datatype Result = Result(out: seq<byte>, ok: bool)

  /** Block numbers restart at the next multiple of ten when block 0 comes again. */
  function Offset(id0: int, prev: int, off: int): int {
    if id0 == 0 && prev >= 0 then (prev / BUMP + 1) * BUMP else off
  }

  /** The loop of blkpack, from a line that should be a marker. */
  function PackFrom(ls: seq<Line>, prev: int, off: int): Result
    requires ls != []
    decreases |ls|
  {
    var id0 := GetMarker(ls[0]);
    var off' := Offset(id0, prev, off);
    var id := id0 + off';
    if id0 < 0 || id <= prev then Result([], false)
    else
      var n := Taken(ls[1..], ROWS);
      var here := Spaces(BLOCK * (id - prev - 1)) + RowsOf(ls[1..1 + n]);
      var rest := ls[1 + n..];
      if rest != [] && n < ROWS && TooLong(rest[0]) then Result(here, false)
      else
        var full := here + Spaces(ROW * (ROWS - n));
        if rest == [] then Result(full, true)
        else
          var r := PackFrom(rest, id, off');
          Result(full + r.out, r.ok)
  }

  function Pack(input: seq<byte>): Result {
    if input == [] then Result([], false) else PackFrom(Lines(input), -1, 0)
  }

  // ----- blkunpack -----

  /** `> ' '` on a signed char. */
  predicate Visible(c: byte) {
    SPC < c < 0x80
  }

  /** One past the last visible byte. */
  function TrimmedLen(s: seq<byte>): (n: nat)
    ensures n <= |s|
    ensures n > 0 ==> Visible(s[n - 1])
    ensures forall i :: n <= i < |s| ==> !Visible(s[i])
  {
    if s == [] then 0
    else if Visible(s[|s| - 1]) then |s|
    else TrimmedLen(s[..|s| - 1])
  }

  /** NULs become spaces. */
  function Normal(s: seq<byte>): (r: seq<byte>)
    ensures |r| == |s|
    ensures forall i :: 0 <= i < |s| ==> r[i] == if s[i] == 0 then SPC else s[i]
  {
    seq(|s|, i requires 0 <= i < |s| => if s[i] == 0 then SPC else s[i])
  }

  function LineOf(row: seq<byte>): Line {
    Normal(row[..TrimmedLen(row)]) + [NL]
  }

  /** Zeros in front, up to the width. */
  function Pad(s: seq<byte>, width: nat): seq<byte>
    decreases width - |s|
  {
    if |s| >= width then s else Pad([48] + s, width)
  }

  /** %03d */
  function Fmt03(n: int): seq<byte> {
    if n < 0 then [45] + Pad(Decimal(-n), 2) else Pad(Decimal(n), 3)
  }

  function Marker(id: int): Line {
    [40, SPC] + DASHES + [SPC] + Fmt03(id) + [SPC, 41, NL]
  }

  /** Rows up to the last visible byte of the block. */
  function LineCount(b: seq<byte>): nat {
    if TrimmedLen(b) == 0 then 0 else (TrimmedLen(b) - 1) / ROW + 1
  }

  function RowLines(b: seq<byte>, i: nat, n: nat): seq<Line>
    requires i <= n && n * ROW <= |b|
    decreases n - i
  {
    if i == n then []
    else
      assert (i + 1) * ROW <= n * ROW;
      [LineOf(b[i * ROW..(i + 1) * ROW])] + RowLines(b, i + 1, n)
  }

  lemma LineCountFits(b: seq<byte>)
    requires |b| == BLOCK
    ensures LineCount(b) <= ROWS && LineCount(b) * ROW <= |b|
  {
  }

  function BlockLines(b: seq<byte>, id: int): seq<Line>
    requires |b| == BLOCK
  {
    LineCountFits(b);
    var n := LineCount(b);
    if n == 0 then [] else [Marker(id)] + RowLines(b, 0, n)
  }

  /** The lines printed for an image whose first block has number id; a trailing part of
      a block is dropped. */
  function UnpackLines(image: seq<byte>, id: int): seq<Line>
    decreases |image|
  {
    if |image| < BLOCK then []
    else BlockLines(image[..BLOCK], id) + UnpackLines(image[BLOCK..], id + 1)
  }

  function Unpack(image: seq<byte>, startAt: int): seq<byte> {
    Join(UnpackLines(image, startAt))
  }
}
