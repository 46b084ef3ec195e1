/** Decimal numbers as ASCII digits. */
module Decimals {
  import opened Words

  predicate IsDigit(c: byte) {
    48 <= c <= 57
  }

  predicate Digits(s: seq<byte>) {
    forall i :: 0 <= i < |s| ==> IsDigit(s[i])
  }

  /** The number that leading digits spell, after acc. */
  function Scan(s: seq<byte>, acc: nat): nat
    decreases |s|
  {
    if s != [] && IsDigit(s[0]) then Scan(s[1..], acc * 10 + (s[0] - 48)) else acc
  }

  /** Decimal digits of n. */
  function Decimal(n: nat): (s: seq<byte>)
    ensures |s| > 0 && forall i :: 0 <= i < |s| ==> IsDigit(s[i])
  {
    if n < 10 then [48 + n] else Decimal(n / 10) + [48 + n % 10]
  }

  lemma {:induction false} ScanSplit(ds: seq<byte>, t: seq<byte>, acc: nat)
    requires Digits(ds)
    ensures Scan(ds + t, acc) == Scan(t, Scan(ds, acc))
    decreases |ds|
  {
    if ds == [] {
      assert ds + t == t;
    } else {
      assert (ds + t)[1..] == ds[1..] + t;
      ScanSplit(ds[1..], t, acc * 10 + (ds[0] - 48));
    }
  }

  lemma {:induction false} ScanDec(n: nat)
    ensures Scan(Decimal(n), 0) == n
    decreases n
  {
    if n < 10 {
      assert Scan([48 + n], 0) == Scan([48 + n][1..], n);
    } else {
      var d: byte := 48 + n % 10;
      ScanDec(n / 10);
      ScanSplit(Decimal(n / 10), [d], 0);
      assert Scan([d], n / 10) == Scan([d][1..], n / 10 * 10 + n % 10);
    }
  }

  function Pow10(k: nat): nat {
    if k == 0 then 1 else 10 * Pow10(k - 1)
  }

  lemma {:induction false} DecimalShort(n: nat, k: nat)
    requires 0 < k && n < Pow10(k)
    ensures |Decimal(n)| <= k
    decreases k
  {
    if n >= 10 {
      assert k > 1 by { assert Pow10(1) == 10 * Pow10(0); }
      DecimalShort(n / 10, k - 1);
    }
  }

  // ----- digits by their places -----

  /** The number that digits spell, by their places. */
  function Spell(ds: seq<byte>): nat
    requires Digits(ds)
  {
    if ds == [] then 0 else 10 * Spell(ds[..|ds| - 1]) + (ds[|ds| - 1] - 48)
  }

  lemma {:induction false} ScanSpell(ds: seq<byte>)
    requires Digits(ds)
    ensures Scan(ds, 0) == Spell(ds)
    decreases |ds|
  {
    if ds != [] {
      var front, last := ds[..|ds| - 1], ds[|ds| - 1];
      assert ds == front + [last];
      ScanSpell(front);
      ScanSplit(front, [last], 0);
      assert [last][1..] == [];
      assert Scan([last], Scan(front, 0)) == Scan([], Scan(front, 0) * 10 + (last - 48));
    }
  }

  /** %d reads as many digits as there are. */
  lemma ScanNumber(ds: seq<byte>, rest: seq<byte>)
    requires Digits(ds) && (rest == [] || !IsDigit(rest[0]))
    ensures Scan(ds + rest, 0) == Spell(ds)
  {
    ScanSplit(ds, rest, 0);
    ScanSpell(ds);
  }

  lemma {:induction false} SpellBounds(ds: seq<byte>)
    requires Digits(ds)
    ensures Spell(ds) < Pow10(|ds|)
    ensures ds != [] && ds[0] != 48 ==> Pow10(|ds| - 1) <= Spell(ds)
    decreases |ds|
  {
    if ds != [] {
      var front := ds[..|ds| - 1];
      SpellBounds(front);
      assert Pow10(|ds|) == 10 * Pow10(|front|);
      if |front| > 0 { assert front[0] == ds[0] && Pow10(|front|) == 10 * Pow10(|front| - 1); }
    }
  }

  lemma {:induction false} SameDigits(x: seq<byte>, y: seq<byte>)
    requires Digits(x) && Digits(y) && |x| == |y| && Spell(x) == Spell(y)
    ensures x == y
    decreases |x|
  {
    if x != [] {
      var a, b := x[|x| - 1] - 48, y[|y| - 1] - 48;
      var p, q := Spell(x[..|x| - 1]), Spell(y[..|y| - 1]);
      assert 10 * p + a == 10 * q + b;
      assert a == b && p == q;
      SameDigits(x[..|x| - 1], y[..|y| - 1]);
      assert x == x[..|x| - 1] + [x[|x| - 1]] && y == y[..|y| - 1] + [y[|y| - 1]];
    }
  }

  lemma {:induction false} Grows(j: nat, k: nat)
    requires j <= k
    ensures Pow10(j) <= Pow10(k)
    decreases k
  {
    if j < k { Grows(j, k - 1); }
  }

  /** The decimal digits of a number: they spell it, with no zero in front. */
  lemma {:induction false} DecimalSpells(n: nat)
    ensures Digits(Decimal(n)) && Spell(Decimal(n)) == n
    ensures n > 0 ==> Decimal(n)[0] != 48
    decreases n
  {
    if n >= 10 {
      DecimalSpells(n / 10);
      var d := Decimal(n);
      assert d[..|d| - 1] == Decimal(n / 10) && d[|d| - 1] == 48 + n % 10;
    }
  }
}
