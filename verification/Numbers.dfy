/** Number literals: PARSE and FMTD of the kernel in blk.fs. */
module Numbers {
  import opened Bits
  import opened Words
  import opened Decimals

  const QUOTE: byte := 39
  const DOLLAR: byte := 36
  const MINUS: byte := 45

  /** The place of a character in the table of hexadecimal digits. */
  function HexPlace(c: word): Option<nat> {
    if 48 <= c <= 57 then Some(c - 48) else if 97 <= c <= 102 then Some(c - 87) else None
  }

  /** The value of a digit character; $20 OR makes letters lower case. */
  function DigitOf(c: byte, base: nat): (d: Option<nat>) {
    if base == 16 then HexPlace(Or16(c, 0x20))
    else if Sub16(c, 48) > 9 then None
    else Some(Sub16(c, 48))
  }

  /** The digit loop over k characters from a on, with the number r so far. */
  function Loop(m: Mem, a: word, k: nat, r: word, base: word): Option<word>
    decreases k
  {
    if k == 0 then Some(r)
    else
      match DigitOf(m[a], base)
      case None => None
      case Some(d) => Loop(m, Add16(a, 1), k - 1, W(Mul16(r, base) + d), base)
  }

  /** PARSE: a character, a hexadecimal number, a decimal number with an optional sign. */
  function Parse(m: Mem, sa: word, sl: word): Option<word> {
    var c := m[sa];
    if c == QUOTE then
      if sl == 3 && m[W(sa + 2)] == QUOTE then Some(m[W(sa + 1)]) else None
    else if c == DOLLAR then Loop(m, Add16(sa, 1), Times(Sub16(sl, 1)), 0, 16)
    else if sl > 1 && c == MINUS then
      match Loop(m, Add16(sa, 1), Times(Sub16(sl, 1)), 0, 10)
      case None => None
      case Some(n) => Some(Sub16(0, n))
    else Loop(m, sa, Times(sl), 0, 10)
  }

  // ----- strings in memory -----

  predicate At(m: Mem, a: word, s: seq<byte>) {
    forall i :: 0 <= i < |s| ==> s[i] == m[W(a + i)]
  }

  lemma AtTail(m: Mem, a: word, s: seq<byte>)
    requires At(m, a, s) && s != []
    ensures m[a] == s[0] && At(m, Add16(a, 1), s[1..])
  {
    assert s[0] == m[W(a + 0)];
    forall i | 0 <= i < |s| - 1 ensures s[1..][i] == m[W(Add16(a, 1) + i)] {
      assert s[i + 1] == m[W(a + (i + 1))];
      Next(a, i);
    }
  }

  lemma Next(a: word, i: nat)
    ensures W(Add16(a, 1) + i) == W(a + (i + 1))
  {
  }

  // ----- what the digit loop computes -----

  /** The number that all of a string spells, after acc. */
  function Value(s: seq<byte>, acc: nat, base: nat): Option<nat>
    decreases |s|
  {
    if s == [] then Some(acc)
    else
      match DigitOf(s[0], base)
      case None => None
      case Some(d) => Value(s[1..], acc * base + d, base)
  }

  function Low(v: Option<nat>): Option<word> {
    match v
    case None => None
    case Some(n) => Some(W(n))
  }

  lemma Truncated(acc: nat, base: word, d: nat)
    ensures W(Mul16(W(acc), base) + d) == W(acc * base + d)
  {
    var q := acc / 0x1_0000;
    assert acc == q * 0x1_0000 + W(acc);
    assert acc * base == (q * base) * 0x1_0000 + W(acc) * base;
    Multiple(q * base, W(acc) * base);
    Multiple((acc * base) / 0x1_0000, W(acc * base) + d);
  }

  lemma Multiple(k: int, x: int)
    ensures W(k * 0x1_0000 + x) == W(x)
  {
  }

  /** Cells wrap around, but the result is the number modulo 2^16, however long it is. */
  lemma {:induction false} LoopValue(m: Mem, a: word, s: seq<byte>, acc: nat, base: word)
    requires At(m, a, s)
    ensures Loop(m, a, |s|, W(acc), base) == Low(Value(s, acc, base))
    decreases |s|
  {
    hide DigitOf, W, Mul16, Add16, At, Loop, Value;
    if s == [] {
      NothingRead(m, a, W(acc), base);
      NothingRead(m, a, acc, base);
    } else {
      AtTail(m, a, s);
      LoopStep(m, a, s, W(acc), base);
      ValueStep(s, acc, base);
      var d := DigitOf(s[0], base);
      if d.Some? {
        Truncated(acc, base, d.value);
        LoopValue(m, Add16(a, 1), s[1..], acc * base + d.value, base);
      }
    }
  }

  lemma NothingRead(m: Mem, a: word, r: nat, base: word)
    ensures r < 0x1_0000 ==> Loop(m, a, 0, r, base) == Some(r)
    ensures Value([], r, base) == Some(r)
  {
  }

  lemma LoopStep(m: Mem, a: word, s: seq<byte>, r: word, base: word)
    requires s != [] && m[a] == s[0]
    ensures var d := DigitOf(s[0], base);
            Loop(m, a, |s|, r, base) ==
            if d.None? then None else Loop(m, Add16(a, 1), |s[1..]|, W(Mul16(r, base) + d.value), base)
  {
    hide DigitOf, W, Mul16, Add16;
  }

  lemma ValueStep(s: seq<byte>, acc: nat, base: nat)
    requires s != []
    ensures var d := DigitOf(s[0], base);
            Value(s, acc, base) == if d.None? then None else Value(s[1..], acc * base + d.value, base)
  {
    hide DigitOf;
  }

  lemma DecimalDigit(c: byte)
    ensures DigitOf(c, 10) == if IsDigit(c) then Some(c - 48) else None
  {
  }

  lemma {:induction false} DecimalValue(s: seq<byte>, acc: nat)
    ensures Value(s, acc, 10) == if Digits(s) then Some(Scan(s, acc)) else None
    decreases |s|
  {
    hide DigitOf, IsDigit;
    if s != [] {
      DecimalDigit(s[0]);
      if IsDigit(s[0]) {
        DecimalValue(s[1..], acc * 10 + (s[0] - 48));
        assert Digits(s) <==> Digits(s[1..]) by {
          if Digits(s[1..]) {
            forall i | 0 <= i < |s| ensures IsDigit(s[i]) { if i > 0 { assert s[i] == s[1..][i - 1]; } }
          }
        }
      }
    }
  }

  /** The decimal loop accepts digits only, and gives their value modulo 2^16. */
  lemma LoopDecimal(m: Mem, a: word, s: seq<byte>)
    requires At(m, a, s)
    ensures Loop(m, a, |s|, 0, 10) == if Digits(s) then Some(W(Scan(s, 0))) else None
  {
    hide Loop, Value;
    LoopValue(m, a, s, 0, 10);
    DecimalValue(s, 0);
  }

  /** PARSE of a decimal word of any length: accepted exactly when it is digits behind an
      optional minus sign, and then the number modulo 2^16. A minus sign alone is refused. */
  lemma ParseDecimal(m: Mem, sa: word, s: seq<byte>)
    requires 0 < |s| < 0x1_0000 && At(m, sa, s) && s[0] != 39 && s[0] != 36
    ensures Parse(m, sa, |s|) ==
            if Digits(s) then Some(Spell(s) % 0x1_0000)
            else if |s| > 1 && s[0] == 45 && Digits(s[1..]) then Some((0 - Spell(s[1..])) % 0x1_0000)
            else None
  {
    hide Loop, Scan, At, Spell;
    if Digits(s) { ScanSpell(s); }
    if Digits(s[1..]) { ScanSpell(s[1..]); }
    AtTail(m, sa, s);
    LoopDecimal(m, sa, s);
    LoopDecimal(m, Add16(sa, 1), s[1..]);
    if |s| > 1 && s[0] == MINUS {
      assert Sub16(|s|, 1) == |s| - 1 == |s[1..]|;
      assert !Digits(s) by { assert !IsDigit(s[0]); }
      Negated(Scan(s[1..], 0));
    }
  }

  lemma Negated(n: nat)
    ensures Sub16(0, W(n)) == W(0 - n)
  {
  }

  /** A character that is no digit anywhere makes the whole string no number. */
  lemma {:induction false} StrayRefused(s: seq<byte>, i: nat, acc: nat, base: nat)
    requires i < |s| && DigitOf(s[i], base) == None
    ensures Value(s, acc, base) == None
    decreases i
  {
    hide DigitOf;
    if i > 0 {
      match DigitOf(s[0], base) {
        case None =>
        case Some(d) => StrayRefused(s[1..], i - 1, acc * base + d, base);
      }
    }
  }

  // ----- hexadecimal digits -----

  /** The value of a character in a hexadecimal number. Setting bit 5 makes A to F small, and
      also digits of the control characters from 16 to 25. */
  function HexOf(c: byte): Option<nat> {
    if 48 <= c <= 57 then Some(c - 48)
    else if 97 <= c <= 102 then Some(c - 97 + 10)
    else if 65 <= c <= 70 then Some(c - 65 + 10)
    else if 16 <= c <= 25 then Some(c - 16)
    else None
  }

  lemma HexDigits(c: byte)
    ensures DigitOf(c, 16) == HexOf(c)
  {
    Or32(c);
    BitFive(c);
    hide Or16;
  }

  lemma BitFive(c: byte)
    ensures c / 0x20 % 2 == 1 <==> 32 <= c < 64 || 96 <= c < 128 || 160 <= c < 192 || 224 <= c
  {
  }

  /** $20 OR adds $20 to a byte that does not have it. */
  lemma Or32(c: byte)
    ensures Or16(c, 0x20) == if c / 0x20 % 2 == 1 then c else c + 0x20
  {
    SetsBit(c, 5, 16);
    NthBitIs(c, 5);
    assert Pow2(3) == 8;
    assert Pow2(5) == 32;
    Powers();
    hide Bitwise, NthBit;
  }

  lemma {:induction false} SetsBit(a: nat, j: nat, n: nat)
    requires j < n && a < Pow2(n)
    ensures Bitwise((x, y) => x || y, a, Pow2(j), n) == if NthBit(a, j) then a else a + Pow2(j)
    decreases j
  {
    if j == 0 {
      OrNothing(a / 2, n - 1);
    } else {
      SetsBit(a / 2, j - 1, n - 1);
      assert Pow2(j) % 2 == 0 && Pow2(j) / 2 == Pow2(j - 1);
    }
  }

  lemma {:induction false} OrNothing(a: nat, n: nat)
    requires a < Pow2(n)
    ensures Bitwise((x, y) => x || y, a, 0, n) == a
    decreases n
  {
    if n > 0 { OrNothing(a / 2, n - 1); }
  }

  predicate AllHex(s: seq<byte>) {
    forall i :: 0 <= i < |s| ==> HexOf(s[i]).Some?
  }

  /** The number that hexadecimal digits spell, by their places. */
  function HexSpell(s: seq<byte>): nat
    requires AllHex(s)
  {
    if s == [] then 0
    else
      assert HexOf(s[|s| - 1]).Some?;
      16 * HexSpell(s[..|s| - 1]) + HexOf(s[|s| - 1]).value
  }

  lemma {:induction false} HexValue(s: seq<byte>)
    ensures Value(s, 0, 16) == if AllHex(s) then Some(HexSpell(s)) else None
    decreases |s|
  {
    hide DigitOf, HexOf;
    if s != [] {
      var front, last := s[..|s| - 1], s[|s| - 1];
      HexValue(front);
      HexDigits(last);
      ValueSplit(front, last, 0, 16);
      assert s == front + [last];
      assert AllHex(s) <==> AllHex(front) && HexOf(last).Some? by {
        if AllHex(front) && HexOf(last).Some? {
          forall i | 0 <= i < |s| ensures HexOf(s[i]).Some? { if i < |front| { assert s[i] == front[i]; } }
        }
        if AllHex(s) {
          assert HexOf(s[|s| - 1]).Some?;
          forall i | 0 <= i < |front| ensures HexOf(front[i]).Some? { assert front[i] == s[i]; }
        }
      }
    }
  }

  lemma {:induction false} ValueSplit(s: seq<byte>, c: byte, acc: nat, base: nat)
    ensures Value(s + [c], acc, base) ==
            match Value(s, acc, base) {
              case None => None
              case Some(v) => (match DigitOf(c, base) case None => None case Some(d) => Some(v * base + d))
            }
    decreases |s|
  {
    hide DigitOf;
    if s == [] {
      assert s + [c] == [c] && [c][1..] == [];
    } else {
      assert (s + [c])[0] == s[0] && (s + [c])[1..] == s[1..] + [c];
      match DigitOf(s[0], base) {
        case None =>
        case Some(d) => ValueSplit(s[1..], c, acc * base + d, base);
      }
    }
  }

  lemma DollarNoDigit()
    ensures DigitOf(DOLLAR, 16) == None
  {
    HexDigits(DOLLAR);
  }

  /** PARSE of a word behind a dollar sign: accepted exactly when characters follow and all are
      hexadecimal digits, and then their number modulo 2^16. A dollar sign alone starts a loop
      over all of memory, which ends at the dollar sign itself at the latest, and is refused. */
  lemma ParseHex(m: Mem, sa: word, s: seq<byte>)
    requires 0 < |s| < 0x1_0000 && At(m, sa, s) && s[0] == 36
    ensures Parse(m, sa, |s|) ==
            if |s| > 1 && AllHex(s[1..]) then Some(HexSpell(s[1..]) % 0x1_0000) else None
  {
    hide Loop, Value, At, DigitOf, Or16, HexSpell, AllHex;
    AtTail(m, sa, s);
    HexValue(s[1..]);
    if |s| > 1 {
      assert Sub16(|s|, 1) == |s| - 1 == |s[1..]|;
      LoopValue(m, Add16(sa, 1), s[1..], 0, 16);
    } else {
      DollarAlone(m, sa);
    }
  }

  lemma DollarAlone(m: Mem, sa: word)
    requires m[sa] == DOLLAR
    ensures Loop(m, Add16(sa, 1), MEMSIZE, 0, 16) == None
  {
    hide Loop, Value, DigitOf;
    var a := Add16(sa, 1);
    var all := Window(m, a, MEMSIZE);
    assert At(m, a, all);
    AllAround(sa);
    assert all[MEMSIZE - 1] == m[sa];
    DollarNoDigit();
    StrayRefused(all, MEMSIZE - 1, 0, 16);
    LoopValue(m, a, all, 0, 16);
  }

  lemma AllAround(a: word)
    ensures W(Add16(a, 1) + (MEMSIZE - 1)) == a
  {
  }

  /** PARSE of a character between quotes gives its code; anything else that starts with a quote
      is refused. */
  lemma ParseChar(m: Mem, sa: word, s: seq<byte>)
    requires 0 < |s| < 0x1_0000 && At(m, sa, s) && s[0] == 39
    ensures Parse(m, sa, |s|) == if |s| == 3 && s[2] == 39 then Some(s[1]) else None
  {
    assert m[W(sa + 0)] == s[0];
    if |s| == 3 { assert m[W(sa + 1)] == s[1] && m[W(sa + 2)] == s[2]; }
  }

  // ----- FMTX -----

  /** The table of digits. */
  const HEX: seq<byte> := [48, 49, 50, 51, 52, 53, 54, 55, 56, 57, 97, 98, 99, 100, 101, 102]

  /** The k last hexadecimal digits of n, zeros in front. */
  function HexText(n: nat, k: nat): (s: seq<byte>)
    ensures |s| == k
  {
    if k == 0 then [] else HexText(n / 16, k - 1) + [HEX[n % 16]]
  }

  function Pow16(k: nat): nat {
    if k == 0 then 1 else 16 * Pow16(k - 1)
  }

  /** They spell the number modulo 16^k, in small letters. */
  lemma {:induction false} HexTextSpells(n: nat, k: nat)
    ensures AllHex(HexText(n, k)) && forall i :: 0 <= i < k ==> HexText(n, k)[i] in HEX
    ensures Pow16(k) > 0 && HexSpell(HexText(n, k)) == n % Pow16(k)
    decreases k
  {
    if k > 0 {
      var s, front := HexText(n, k), HexText(n / 16, k - 1);
      HexTextSpells(n / 16, k - 1);
      assert s[..k - 1] == front && s[k - 1] == HEX[n % 16];
      TableOf(n % 16);
      forall i | 0 <= i < k ensures HexOf(s[i]).Some? && s[i] in HEX {
        if i < k - 1 { assert s[i] == front[i]; }
      }
      LastPlace(n, Pow16(k - 1));
    }
  }

  lemma TableOf(d: nat)
    requires d < 16
    ensures HexOf(HEX[d]) == Some(d)
  {
  }

  lemma LastPlace(n: nat, p: nat)
    requires p > 0
    ensures n % (16 * p) == 16 * (n / 16 % p) + n % 16
  {
    var q, r := n / 16 / p, n / 16 % p;
    assert n / 16 == p * q + r;
    assert n == (16 * p) * q + (16 * r + n % 16) by {
      assert n == 16 * (n / 16) + n % 16;
    }
    Divided(n, 16 * p, q, 16 * r + n % 16);
  }

  /** PARSE reads back what FMTX wrote, behind a dollar sign; of two digits (FMTx) it reads the
      low byte. */
  lemma ParseHexText(m: Mem, sa: word, n: word, k: nat)
    requires (k == 2 || k == 4) && At(m, sa, [36] + HexText(n, k))
    ensures Parse(m, sa, k + 1) == Some(if k == 2 then n % 0x100 else n)
  {
    hide Parse, HexText, HexSpell, AllHex;
    var s := [36] + HexText(n, k);
    assert s[1..] == HexText(n, k);
    HexTextSpells(n, k);
    assert Pow16(2) == 0x100;
    assert Pow16(4) == 0x1_0000;
    ParseHex(m, sa, s);
  }

  // ----- FMTD -----

  /** A cell as a signed decimal. */
  function Text(n: word): seq<byte> {
    if n >= 0x8000 then [MINUS] + Decimal(0x1_0000 - n) else Decimal(n)
  }

  /** The text of a cell: the decimal digits of the signed number, without a zero in front
      unless it is zero, behind a minus sign if it is negative. */
  lemma TextMeans(n: word)
    ensures var t := Text(n);
            var ds := if n < 0x8000 then t else t[1..];
            && (n >= 0x8000 ==> t[0] == 45)
            && Digits(ds) && Spell(ds) == (if n < 0x8000 then n else 0x1_0000 - n)
            && (ds[0] == 48 ==> n == 0 && |ds| == 1)
  {
    var u := if n >= 0x8000 then 0x1_0000 - n else n;
    DecimalSpells(u);
    assert u == 0 ==> |Decimal(u)| == 1;
    hide Decimal;
    assert n >= 0x8000 ==> Text(n)[1..] == Decimal(u);
  }

  lemma TextShort(n: word)
    ensures 0 < |Text(n)| <= 6 && |Decimal(if n >= 0x8000 then 0x1_0000 - n else n)| <= 5
  {
    assert Pow10(5) == 100000 by {
      assert Pow10(2) == 100;
      assert Pow10(4) == 10000;
    }
    DecimalShort(if n >= 0x8000 then 0x1_0000 - n else n, 5);
  }

  /** PARSE reads back what FMTD wrote, for every cell. */
  lemma ParseText(m: Mem, sa: word, n: word)
    requires At(m, sa, Text(n))
    ensures 0 < |Text(n)| <= 6 && Parse(m, sa, |Text(n)|) == Some(n)
  {
    hide Parse, Decimal, Scan, Spell;
    TextShort(n);
    var s := Text(n);
    var u := if n >= 0x8000 then 0x1_0000 - n else n;
    DecimalSpells(u);
    assert Digits(Decimal(u));
    if n >= 0x8000 {
      assert s[1..] == Decimal(u) && s[0] == MINUS;
      assert !Digits(s) by { assert !IsDigit(s[0]); }
      assert W(0 - u) == n;
    } else {
      assert IsDigit(s[0]);
    }
    ParseDecimal(m, sa, s);
  }
}
