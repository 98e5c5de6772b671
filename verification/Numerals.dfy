/** Positional numerals: the digits `convert` produces and the commas between them. */
module Numerals {
  import opened CTypes

  /** The bases `convert` is called with. */
  predicate FmtBase(base: int) { base == 8 || base == 10 || base == 16 }

  /** `base * x`, spelled out so that every product is by a constant. */
  function Times(base: int, x: int): int
    requires FmtBase(base)
  {
    if base == 8 then 8 * x else if base == 10 then 10 * x else 16 * x
  }

  function DigitChar(d: int, up: bool): char
    requires 0 <= d < 16
  {
    (if up then "0123456789ABCDEF" else "0123456789abcdef")[d]
  }

  /** The value of a digit character; -1 for any other character. */
  function DigitValue(c: char): int {
    if '0' <= c <= '9' then c as int - '0' as int
    else if 'a' <= c <= 'f' then 10 + c as int - 'a' as int
    else if 'A' <= c <= 'F' then 10 + c as int - 'A' as int
    else -1
  }

  lemma DigitCharValue(d: int, up: bool)
    requires 0 <= d < 16
    ensures DigitValue(DigitChar(d, up)) == d
  {
    if d < 8 {
      assert d == 0 || d == 1 || d == 2 || d == 3 || d == 4 || d == 5 || d == 6 || d == 7;
    } else {
      assert d == 8 || d == 9 || d == 10 || d == 11 || d == 12 || d == 13 || d == 14 || d == 15;
    }
  }

  predicate AllDigits(s: string) { forall i :: 0 <= i < |s| ==> DigitValue(s[i]) >= 0 }

  lemma Quotient(u: nat, base: int)
    requires FmtBase(base)
    ensures u == Times(base, u / base) + u % base && 0 <= u % base < base
    ensures u >= base ==> 0 < u / base < u
    ensures u < base ==> u / base == 0 && u % base == u
    ensures u / base >= 0
  {
    if base == 8 {
    } else if base == 10 {
    } else {
    }
  }

  /** The canonical numeral, most significant digit first. */
  function Numeral(u: nat, base: int, up: bool): (ds: string)
    requires FmtBase(base)
    ensures |ds| >= 1
  {
    Quotient(u, base);
    if u < base then [DigitChar(u, up)]
    else Numeral(u / base, base, up) + [DigitChar(u % base, up)]
  }

  /** The number a digit string denotes, leading zeros allowed. */
  function Value(ds: string, base: int): int
    requires FmtBase(base)
  {
    if ds == [] then 0 else Times(base, Value(ds[..|ds| - 1], base)) + DigitValue(ds[|ds| - 1])
  }

  lemma {:induction false} NumeralDigits(u: nat, base: int, up: bool)
    requires FmtBase(base)
    ensures AllDigits(Numeral(u, base, up))
    ensures u != 0 ==> DigitValue(Numeral(u, base, up)[0]) != 0
    ensures u == 0 ==> Numeral(u, base, up) == "0"
  {
    Quotient(u, base);
    DigitCharValue(u % base, up);
    if u >= base {
      NumeralDigits(u / base, base, up);
    }
  }

  lemma ValueSnoc(ds: string, c: char, base: int)
    requires FmtBase(base)
    ensures Value(ds + [c], base) == Times(base, Value(ds, base)) + DigitValue(c)
  {
    assert (ds + [c])[..|ds|] == ds;
  }

  lemma NumeralUnfolds(u: nat, base: int, up: bool)
    requires FmtBase(base) && u >= base
    ensures 0 <= u % base < 16 && u / base >= 0
    ensures Numeral(u, base, up) == Numeral(u / base, base, up) + [DigitChar(u % base, up)]
  {
    Quotient(u, base);
    hide DigitChar, Times;
  }

  /** Dividing takes the last digit off. */
  lemma LastDigit(u: nat, base: int, up: bool)
    requires FmtBase(base)
    ensures 0 <= u % base < 16 && 0 <= u / base <= u && (u / base == u ==> u == 0)
    ensures var ds := Numeral(u, base, up);
            && ds[|ds| - 1] == DigitChar(u % base, up)
            && (u / base == 0 ==> |ds| == 1)
            && (u / base != 0 ==> ds[..|ds| - 1] == Numeral(u / base, base, up))
  {
    Quotient(u, base);
    if u >= base { NumeralUnfolds(u, base, up); }
    hide DigitChar, Times;
  }

  lemma {:induction false} NumeralDenotes(u: nat, base: int, up: bool)
    requires FmtBase(base)
    ensures Value(Numeral(u, base, up), base) == u
  {
    Quotient(u, base);
    if u < base {
      OneDigit(u, base, up);
    } else {
      hide Numeral, Value, DigitChar, DigitValue;
      var q, d := u / base, u % base;
      DigitCharValue(d, up);
      NumeralUnfolds(u, base, up);
      NumeralDenotes(q, base, up);
      ValueSnoc(Numeral(q, base, up), DigitChar(d, up), base);
    }
  }

  lemma OneDigit(u: nat, base: int, up: bool)
    requires FmtBase(base) && u < base
    ensures Value(Numeral(u, base, up), base) == u
  {
    DigitCharValue(u, up);
    ValueSnoc([], DigitChar(u, up), base);
    assert [] + [DigitChar(u, up)] == Numeral(u, base, up);
    hide DigitChar, DigitValue;
  }

  function Power(base: int, n: nat): int
    requires FmtBase(base)
  {
    if n == 0 then 1 else Times(base, Power(base, n - 1))
  }

  lemma DivBelow(u: nat, base: int, p: int)
    requires FmtBase(base)
    ensures u < Times(base, p) <==> u / base < p
  {
    if base == 8 {
    } else if base == 10 {
    } else {
    }
  }

  /** A numeral has at most n digits exactly when the value is below base^n. */
  lemma {:induction false} NumeralLength(u: nat, base: int, up: bool, n: nat)
    requires FmtBase(base) && n >= 1
    ensures |Numeral(u, base, up)| <= n <==> u < Power(base, n)
  {
    Quotient(u, base);
    if n == 1 {
      assert Power(base, 1) == Times(base, Power(base, 0)) == base;
    } else {
      DivBelow(u, base, Power(base, n - 1));
      if u < base {
        PowerPositive(base, n - 1);
        assert u / base == 0;
      } else {
        NumeralLength(u / base, base, up, n - 1);
      }
    }
  }

  lemma {:induction false} PowerPositive(base: int, n: nat)
    requires FmtBase(base)
    ensures Power(base, n) >= 1
  {
    if n > 0 { PowerPositive(base, n - 1); }
  }

  lemma {:induction false} OctalIsLongest(base: int, n: nat)
    requires FmtBase(base)
    ensures 1 <= Power(8, n) <= Power(base, n)
  {
    if n > 0 { OctalIsLongest(base, n - 1); }
  }

  // ----- digit grouping -----

  /** Separators `getnumsep` announces for a numeral of `digits` digits. */
  function NumSep(digits: int): int {
    (digits - (if digits % 3 == 0 then 1 else 0)) / 3
  }

  /** A comma before every complete group of three digits, counted from the right. */
  function Grouped(ds: string): string {
    if |ds| <= 3 then ds else Grouped(ds[..|ds| - 3]) + "," + ds[|ds| - 3..]
  }

  /** The left-to-right view: a comma follows a digit when a multiple of three digits remain. */
  lemma {:induction false} GroupedFromLeft(ds: string)
    requires |ds| >= 1
    ensures Grouped(ds) == [ds[0]] + CommaAfter(|ds| - 1) + Grouped(ds[1..])
  {
    if |ds| <= 3 {
      assert ds == [ds[0]] + "" + ds[1..];
    } else if |ds| == 4 {
      assert ds[..1] == [ds[0]] && ds[1..] == ds[|ds| - 3..];
      assert Grouped(ds[..1]) == [ds[0]];
    } else {
      GroupedFromLeft(ds[..|ds| - 3]);
      hide Grouped;
      GroupedStep(ds);
    }
  }

  /** The comma, if any, after a digit that `left` digits follow. */
  function CommaAfter(left: int): string { if left > 0 && left % 3 == 0 then "," else "" }

  lemma GroupedStep(ds: string)
    requires |ds| > 4
    requires var front := ds[..|ds| - 3]; Grouped(front) == [front[0]] + CommaAfter(|front| - 1) + Grouped(front[1..])
    ensures Grouped(ds) == [ds[0]] + CommaAfter(|ds| - 1) + Grouped(ds[1..])
  {
    GroupedBack(ds);
    GroupedBack(ds[1..]);
    var front, back, tail := ds[..|ds| - 3], "," + ds[|ds| - 3..], ds[1..];
    assert front[1..] == tail[..|tail| - 3] && tail[|tail| - 3..] == ds[|ds| - 3..];
    assert CommaAfter(|front| - 1) == CommaAfter(|ds| - 1);
    hide Grouped, CommaAfter;
    Distributes([ds[0]], CommaAfter(|ds| - 1), Grouped(front[1..]), back);
  }

  lemma GroupedBack(ds: string)
    requires |ds| > 3
    ensures Grouped(ds) == Grouped(ds[..|ds| - 3]) + ("," + ds[|ds| - 3..])
  {
  }

  lemma Distributes(a: string, b: string, c: string, d: string)
    ensures (a + b + c) + d == a + b + (c + d)
  {
  }

  /** The announced separators are floor((digits - 1) / 3) and are exactly the commas printed. */
  lemma {:induction false} GroupedLength(ds: string)
    requires |ds| >= 1
    ensures NumSep(|ds|) == (|ds| - 1) / 3
    ensures |Grouped(ds)| == |ds| + NumSep(|ds|)
    ensures Grouped(ds)[0] == ds[0]
  {
    if |ds| > 3 { GroupedLength(ds[..|ds| - 3]); }
  }

  /** Commas stand exactly at every fourth place from the right. */
  lemma {:induction false} GroupedShape(ds: string, k: nat)
    requires ',' !in ds && k < |Grouped(ds)|
    ensures var g := Grouped(ds); g[|g| - 1 - k] == ',' <==> k % 4 == 3
  {
    if |ds| > 3 {
      var front, back := ds[..|ds| - 3], ds[|ds| - 3..];
      var gf, g := Grouped(front), Grouped(ds);
      assert g == gf + "," + back && |g| == |gf| + 4;
      if k >= 4 {
        GroupedShape(front, k - 4);
        assert g[|g| - 1 - k] == gf[|gf| - 1 - (k - 4)];
      } else if k == 3 {
        assert g[|g| - 1 - k] == ',';
      } else {
        assert g[|g| - 1 - k] == back[2 - k];
      }
    }
  }

  // ----- reading a field back -----

  predicate IsFill(c: char) { c == ' ' || c == ',' || c == '+' || c == '-' }

  /** The text without blanks, commas and signs. */
  function Strip(s: string): string {
    if s == [] then [] else (if IsFill(s[0]) then [] else [s[0]]) + Strip(s[1..])
  }

  lemma {:induction false} StripConcat(a: string, b: string)
    ensures Strip(a + b) == Strip(a) + Strip(b)
  {
    if a == [] {
      assert a + b == b;
    } else {
      assert (a + b)[1..] == a[1..] + b;
      StripConcat(a[1..], b);
    }
  }

  lemma {:induction false} StripKeeps(s: string)
    requires forall i :: 0 <= i < |s| ==> !IsFill(s[i])
    ensures Strip(s) == s
  {
    if s != [] {
      StripKeeps(s[1..]);
      assert s == [s[0]] + s[1..];
    }
  }

  lemma {:induction false} StripDrops(s: string)
    requires forall i :: 0 <= i < |s| ==> IsFill(s[i])
    ensures Strip(s) == []
  {
    if s != [] { StripDrops(s[1..]); }
  }

  /** Deleting the commas gives the digits back in order. */
  lemma {:induction false} StripGrouped(ds: string)
    requires AllDigits(ds)
    ensures Strip(Grouped(ds)) == ds
  {
    if |ds| <= 3 {
      StripKeeps(ds);
    } else {
      var front, back := ds[..|ds| - 3], ds[|ds| - 3..];
      var gf := Grouped(front);
      StripGrouped(front);
      StripKeeps(back);
      StripDrops(",");
      StripConcat(gf + ",", back);
      StripConcat(gf, ",");
      assert Strip(gf + ",") == front + [];
      assert ds == front + back;
    }
  }

  function Repeat(c: char, n: int): (s: string)
    ensures |s| == Max(n, 0) && forall i :: 0 <= i < |s| ==> s[i] == c
  {
    if n <= 0 then [] else Repeat(c, n - 1) + [c]
  }

  lemma {:induction false} LeadingZeros(n: int, ds: string, base: int)
    requires FmtBase(base)
    ensures Value(Repeat('0', n) + ds, base) == Value(ds, base)
  {
    var zs := Repeat('0', n);
    if ds != [] {
      LeadingZeros(n, ds[..|ds| - 1], base);
      assert (zs + ds)[..|zs + ds| - 1] == zs + ds[..|ds| - 1];
    } else if n > 0 {
      LeadingZeros(n - 1, ds, base);
      assert zs + ds == zs;
      assert zs[..|zs| - 1] == Repeat('0', n - 1) == Repeat('0', n - 1) + ds;
    } else {
      assert zs + ds == [];
    }
  }
}
