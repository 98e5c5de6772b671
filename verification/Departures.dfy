/**
No departure from C99 is made up for by another: a format prints, consumes and stores what C99 says exactly
when none of the directives it performs departs. Departures of three kinds are set apart, for they can cancel.
 */
module Departures {
  import opened CTypes
  import opened Numerals
  import opened IntegerText
  import opened Conformance
  import opened FormatGrammar
  import opened FormatMeaning
  import opened FormatLaws
  import opened FormatConformance

  // ----- texts that no later text makes equal -----

  /** The text without its blanks. */
  function Squeeze(s: string): string {
    if s == "" then "" else (if s[0] == ' ' then "" else [s[0]]) + Squeeze(s[1..])
  }

  lemma {:induction false} SqueezeAppend(s: string, t: string)
    ensures Squeeze(s + t) == Squeeze(s) + Squeeze(t)
  {
    if s == "" {
      assert s + t == t;
    } else {
      assert (s + t)[1..] == s[1..] + t;
      SqueezeAppend(s[1..], t);
    }
  }

  lemma {:induction false} SqueezeKeeps(s: string)
    requires ' ' !in s
    ensures Squeeze(s) == s
  {
    if s != "" {
      assert s == [s[0]] + s[1..];
      SqueezeKeeps(s[1..]);
    }
  }

  lemma {:induction false} SqueezeDrops(n: int)
    ensures Squeeze(Repeat(' ', n)) == ""
  {
    if n > 0 {
      SqueezeDrops(n - 1);
      SqueezeAppend(Repeat(' ', n - 1), " ");
      assert Squeeze(" ") == "";
    }
  }

  lemma {:induction false} StripSqueezed(s: string)
    ensures Strip(Squeeze(s)) == Strip(s)
  {
    if s != "" {
      var rest := Squeeze(s[1..]);
      StripSqueezed(s[1..]);
      assert Squeeze(s) == if s[0] == ' ' then rest else [s[0]] + rest;
      if s[0] != ' ' {
        assert ([s[0]] + rest)[1..] == rest;
      }
    }
  }

  predicate Clash(s: string, t: string) { exists i :: 0 <= i < |s| && i < |t| && s[i] != t[i] }

  lemma ClashAppend(s: string, t: string, x: string, y: string)
    requires Clash(s, t)
    ensures Clash(s + x, t + y)
  {
    var i :| 0 <= i < |s| && i < |t| && s[i] != t[i];
    assert (s + x)[i] != (t + y)[i];
  }

  lemma ClashAfter(p: string, x: string, y: string)
    requires Clash(x, y)
    ensures Clash(p + x, p + y)
  {
    var i :| 0 <= i < |x| && i < |y| && x[i] != y[i];
    assert (p + x)[|p| + i] != (p + y)[|p| + i];
  }

  /** Texts that do not clash: one begins with the other. */
  lemma NoClash(s: string, t: string)
    requires !Clash(s, t)
    ensures |s| >= |t| ==> s == t + s[|t|..]
    ensures |s| <= |t| ==> t == s + t[|s|..]
  {
    assert forall i :: 0 <= i < |s| && i < |t| ==> s[i] == t[i];
  }

  /**
  The texts clash apart from blanks, or the first has more characters apart from blanks, commas and signs, or
  they are the same but for blanks, and the first has fewer.
   */
  predicate Parted(s: string, t: string) {
    || Clash(Squeeze(s), Squeeze(t))
    || |Strip(s)| > |Strip(t)|
    || (Squeeze(s) == Squeeze(t) && |s| < |t|)
  }

  /** Parted texts are not the same. */
  lemma PartedDiffer(s: string, t: string)
    requires Parted(s, t)
    ensures s != t
  {
  }

  /** The text ends in a character that is no blank, comma or sign. */
  predicate EndsShown(s: string) { s != "" && !IsFill(s[|s| - 1]) }

  /**
  What a directive that departs prints, and what it is asked for: the same but for blanks; or, apart from blanks,
  two texts that clash or of which the first has more digits, the first ending in one and no shorter, but for a
  minus sign it is asked for.
   */
  predicate Departed(x: string, y: string) {
    var a, b := Squeeze(x), Squeeze(y);
    || (a == b && |x| < |y|)
    || (&& EndsShown(a) && (Clash(a, b) || |Strip(x)| > |Strip(y)|)
        && (|a| >= |b| || (|a| == |b| - 1 && b[0] == '-')))
  }

  /** The first departure parts the texts. */
  lemma PartedAfter(s: string, x: string, y: string)
    requires Departed(x, y)
    ensures Parted(s + x, s + y)
  {
    SqueezeAppend(s, x);
    SqueezeAppend(s, y);
    StripConcat(s, x);
    StripConcat(s, y);
    hide Squeeze, Strip;
    if Clash(Squeeze(x), Squeeze(y)) {
      ClashAfter(Squeeze(s), Squeeze(x), Squeeze(y));
    }
  }

  lemma {:induction false} ShownStays(s: string)
    requires EndsShown(s)
    ensures Strip(s) != ""
  {
    if |s| > 1 { ShownStays(s[1..]); }
  }

  /** A text ahead by `z` stays ahead, unless the texts clash. */
  lemma Overtakes(z: string, x: string, y: string)
    requires Strip(z) != "" && EndsShown(x) && (|x| >= |y| || (|x| == |y| - 1 && y[0] == '-'))
    ensures Clash(z + x, y) || |Strip(z + x)| > |Strip(y)|
  {
    var all := z + x;
    if !Clash(all, y) {
      NoClash(all, y);
      if |all| > |y| {
        var more := all[|y|..];
        assert more[|more| - 1] == x[|x| - 1];
        ShownStays(more);
        StripConcat(y, more);
      }
    }
  }

  /** A text with more digits that does not clash with another goes on where that one ends. */
  lemma AheadBy(a: string, b: string)
    requires |Strip(a)| > |Strip(b)| && !Clash(a, b)
    ensures |a| > |b| && a == b + a[|b|..]
    ensures Strip(a[|b|..]) != "" && Strip(a) == Strip(b) + Strip(a[|b|..])
  {
    hide Strip;
    NoClash(a, b);
    if |a| <= |b| {
      StripConcat(a, b[|a|..]);
    } else {
      StripConcat(b, a[|b|..]);
    }
  }

  lemma ClashBehind(t: string, z: string, x: string, y: string)
    requires Clash(z + x, y)
    ensures Clash((t + z) + x, t + y)
  {
    ClashAfter(t, z + x, y);
    hide Clash;
    assert (t + z) + x == t + (z + x);
  }

  lemma OvertakesAfter(t: string, z: string, x: string, y: string)
    requires Strip(z) != "" && EndsShown(x) && (|x| >= |y| || (|x| == |y| - 1 && y[0] == '-'))
    ensures Clash((t + z) + x, t + y) || |Strip(z)| + |Strip(x)| > |Strip(y)|
  {
    hide Strip, Clash, EndsShown;
    Overtakes(z, x, y);
    if Clash(z + x, y) {
      ClashBehind(t, z, x, y);
    } else {
      StripConcat(z, x);
    }
  }

  lemma StaysAhead(s: string, t: string, x: string, y: string)
    requires |Strip(s)| > |Strip(t)| && !Clash(s, t)
    requires EndsShown(x) && (|x| >= |y| || (|x| == |y| - 1 && y[0] == '-'))
    ensures Clash(s + x, t + y) || |Strip(s)| + |Strip(x)| > |Strip(t)| + |Strip(y)|
  {
    hide Strip, Clash, EndsShown;
    AheadBy(s, t);
    OvertakesAfter(t, s[|t|..], x, y);
  }

  /** No later text brings parted texts together again, be it the same or that of another departure. */
  lemma PartedAppend(s: string, t: string, x: string, y: string)
    requires Parted(s, t) && (x == y || Departed(x, y))
    ensures Parted(s + x, t + y)
  {
    SqueezeAppend(s, x);
    SqueezeAppend(t, y);
    StripConcat(s, x);
    StripConcat(t, y);
    hide Squeeze, Strip, EndsShown;
    if Clash(Squeeze(s), Squeeze(t)) {
      ClashAppend(Squeeze(s), Squeeze(t), Squeeze(x), Squeeze(y));
    } else if |Strip(s)| > |Strip(t)| {
      if Squeeze(x) == Squeeze(y) {
        StripSqueezed(x);
        StripSqueezed(y);
      } else {
        StripSqueezed(s);
        StripSqueezed(t);
        StripSqueezed(x);
        StripSqueezed(y);
        StaysAhead(Squeeze(s), Squeeze(t), Squeeze(x), Squeeze(y));
      }
    } else if x != y && Clash(Squeeze(x), Squeeze(y)) {
      ClashAfter(Squeeze(s), Squeeze(x), Squeeze(y));
    } else {
      StripSqueezed(s);
      StripSqueezed(t);
    }
  }

  // ----- every departure parts the texts -----

  lemma SqueezedField(body: string, width: int, flags: Flags)
    ensures Squeeze(InBlanks(body, width, flags)) == Squeeze(body)
    ensures |InBlanks(body, width, flags)| == Max(width, |body|)
  {
    var blanks := Repeat(' ', width - |body|);
    SqueezeDrops(width - |body|);
    SqueezeAppend(body, blanks);
    SqueezeAppend(blanks, body);
    assert Squeeze(body) + "" == Squeeze(body) && "" + Squeeze(body) == Squeeze(body);
    hide Squeeze;
  }

  /** A character without its padding. */
  lemma CharacterDeparted(body: string, width: int, flags: Flags)
    requires width > |body|
    ensures Departed(body, InBlanks(body, width, flags))
  {
    SqueezedField(body, width, flags);
    hide Squeeze, InBlanks;
  }

  /** The sign as far as it is not a blank. */
  function Visible(sign: string): string { if sign == " " then "" else sign }

  /** What an integer field consists of. */
  lemma FieldParts(value: int, base: int, width: int, precision: int, flags: Flags)
    requires FmtBase(base)
    ensures var l, r := LayoutOf(value, base, precision, flags), RenderInt(value, base, width, precision, flags);
            var zeros := Repeat('0', PaddingOf(l, width, precision == -1, flags).zeros);
            var shown := l.prefix + (zeros + Body(l.digits, flags));
            && Strip(r) == l.prefix + (zeros + l.digits) && Squeeze(r) == Visible(l.sign) + shown && '-' !in shown
            && ('-' in r <==> '-' in l.sign)
  {
    var u := Magnitude(value, flags.uns);
    var l := LayoutOf(value, base, precision, flags);
    var p := PaddingOf(l, width, precision == -1, flags);
    NumeralDigits(u, base, flags.up);
    PrefixIsNoFill(u, base, flags);
    SignIsShort(value, flags);
    hide Strip, Numeral, Assemble, HexPrefix, Sign, Magnitude, PaddingOf;
    AssembleStrips(l, p, flags);
    assert '-' !in l.prefix;
    MinusOnlyInSign(l, p, flags);
    AssembledSqueezed(l, p, flags);
  }

  lemma SignIsShort(value: int, flags: Flags)
    ensures Sign(value, flags) in {"", "-", "+", " "}
  {
  }

  lemma CoreIsClean(prefix: string, zeros: int, digits: string, flags: Flags)
    requires AllDigits(digits) && forall i :: 0 <= i < |prefix| ==> !IsFill(prefix[i])
    ensures var shown := prefix + (Repeat('0', zeros) + Body(digits, flags)); ' ' !in shown && '-' !in shown
  {
    assert ' ' !in digits && '-' !in digits;
    assert ' ' !in prefix && '-' !in prefix;
    if ' ' in Grouped(digits) { GroupedChars(digits, ' '); }
    if '-' in Grouped(digits) { GroupedChars(digits, '-'); }
    hide Grouped;
  }

  lemma AssembledSqueezed(l: Layout, p: Padding, flags: Flags)
    requires AllDigits(l.digits) && l.sign in {"", "-", "+", " "}
    requires forall i :: 0 <= i < |l.prefix| ==> !IsFill(l.prefix[i])
    ensures var shown := l.prefix + (Repeat('0', p.zeros) + Body(l.digits, flags));
            Squeeze(Assemble(l, p, flags)) == Visible(l.sign) + shown && '-' !in shown
  {
    hide Squeeze, Repeat, Visible, IsFill, AllDigits, Body;
    var left, right := Repeat(' ', p.left), Repeat(' ', p.right);
    var shown := l.prefix + (Repeat('0', p.zeros) + Body(l.digits, flags));
    CoreIsClean(l.prefix, p.zeros, l.digits, flags);
    SqueezeKeeps(shown);
    SqueezeDrops(p.left);
    SqueezeDrops(p.right);
    SignSqueezed(l.sign);
    Regrouped(left, l.sign, l.prefix, Repeat('0', p.zeros), Body(l.digits, flags), right);
    SqueezeAppend((left + l.sign) + shown, right);
    SqueezeAppend(left + l.sign, shown);
    SqueezeAppend(left, l.sign);
    assert "" + Visible(l.sign) + shown + "" == Visible(l.sign) + shown;
  }

  lemma Regrouped(a: string, b: string, c: string, d: string, e: string, f: string)
    ensures a + b + c + d + e + f == ((a + b) + (c + (d + e))) + f
  {
  }

  lemma SignSqueezed(sign: string)
    requires sign in {"", "-", "+", " "}
    ensures Squeeze(sign) == Visible(sign)
  {
    if sign == " " {
      assert sign[1..] == "";
    } else {
      SqueezeKeeps(sign);
    }
  }

  lemma NumeralGrows(u: nat, v: nat, base: int, up: bool)
    requires FmtBase(base) && u <= v
    ensures |Numeral(u, base, up)| <= |Numeral(v, base, up)|
  {
    hide Numeral;
    NumeralLength(v, base, up, |Numeral(v, base, up)|);
    NumeralLength(u, base, up, |Numeral(v, base, up)|);
  }

  /** The size of a field without its blanks, but for a blank that stands for a sign. */
  function ShownSize(l: Layout, width: int, precision: int, flags: Flags): int {
    |l.sign| + |l.prefix| + PaddingOf(l, width, precision == -1, flags).zeros + |l.digits| + l.separators
  }

  /** A value of no smaller magnitude fills no less of the field, but for the other's sign. */
  lemma ShownGrows(v: int, w: int, base: int, width: int, precision: int, flags: Flags)
    requires FmtBase(base) && (flags.quote ==> base == 10)
    requires Magnitude(v, flags.uns) >= Magnitude(w, flags.uns)
    ensures var l, k := LayoutOf(v, base, precision, flags), LayoutOf(w, base, precision, flags);
            var m, n := ShownSize(l, width, precision, flags), ShownSize(k, width, precision, flags);
            && m >= n - Max(0, |k.sign| - |l.sign|)
            && m - |l.sign| >= n - |k.sign| - Max(0, |l.sign| - |k.sign|)
  {
    hide Numeral, Sign, Magnitude;
    NumeralGrows(Magnitude(w, flags.uns), Magnitude(v, flags.uns), base, flags.up);
  }

  lemma SameSign(v: int, w: int, flags: Flags)
    ensures (v < 0) == (w < 0) || flags.uns ==> Sign(v, flags) == Sign(w, flags)
    ensures '-' in Sign(v, flags) <==> v < 0 && !flags.uns
    ensures Sign(v, flags) == "" || (Sign(v, flags) == "-") == ('-' in Sign(v, flags))
  {
  }

  lemma LayoutSign(value: int, base: int, precision: int, flags: Flags)
    requires FmtBase(base)
    ensures LayoutOf(value, base, precision, flags).sign == Sign(value, flags)
  {
  }

  lemma ReadsStripped(x: string, y: string, base: int)
    requires FmtBase(base) && Read(x, base) != Read(y, base) && ('-' in x <==> '-' in y)
    ensures Strip(x) != Strip(y)
  {
    hide Strip, Value;
  }

  lemma SignsClash(v: int, w: int, base: int, width: int, precision: int, flags: Flags)
    requires FmtBase(base) && !flags.uns && (v < 0) != (w < 0)
    ensures Clash(Squeeze(RenderInt(v, base, width, precision, flags)),
                  Squeeze(RenderInt(w, base, width, precision, flags)))
  {
    hide RenderInt, LayoutOf, Strip, Squeeze, Magnitude, Sign, PaddingOf, Visible, Body;
    BodyStarts(LayoutOf(v, base, precision, flags).digits, flags);
    BodyStarts(LayoutOf(w, base, precision, flags).digits, flags);
    var x, y := RenderInt(v, base, width, precision, flags), RenderInt(w, base, width, precision, flags);
    VisibleSigns(v, flags);
    VisibleSigns(w, flags);
    LayoutSign(v, base, precision, flags);
    LayoutSign(w, base, precision, flags);
    FieldParts(v, base, width, precision, flags);
    FieldParts(w, base, width, precision, flags);
    assert Squeeze(x)[0] != Squeeze(y)[0];
  }

  lemma VisibleSigns(v: int, flags: Flags)
    requires !flags.uns
    ensures v < 0 ==> Visible(Sign(v, flags)) == Sign(v, flags) == "-"
    ensures v >= 0 ==> '-' !in Visible(Sign(v, flags)) && |Visible(Sign(v, flags))| <= 1
    ensures |Sign(v, flags)| <= 1
  {
  }

  lemma ReadsDiffer(v: int, w: int, base: int, width: int, precision: int, flags: Flags)
    requires FmtBase(base) && if flags.uns then AsUnsigned(v, W64) != AsUnsigned(w, W64) else v != w
    requires (v < 0) == (w < 0) || flags.uns
    ensures Strip(RenderInt(v, base, width, precision, flags)) != Strip(RenderInt(w, base, width, precision, flags))
  {
    hide RenderInt, LayoutOf, Strip, Squeeze, Sign, Visible, AsUnsigned, Read, Body, PaddingOf;
    SameSign(v, w, flags);
    LayoutSign(v, base, precision, flags);
    LayoutSign(w, base, precision, flags);
    FieldParts(v, base, width, precision, flags);
    FieldParts(w, base, width, precision, flags);
    RoundTrip(v, base, width, precision, flags);
    RoundTrip(w, base, width, precision, flags);
    ReadsStripped(RenderInt(v, base, width, precision, flags), RenderInt(w, base, width, precision, flags), base);
  }

  /** What is shown of a field, and that it ends in a digit. */
  lemma FieldShown(value: int, base: int, width: int, precision: int, flags: Flags)
    requires FmtBase(base)
    ensures var l, r := LayoutOf(value, base, precision, flags), RenderInt(value, base, width, precision, flags);
            && |Squeeze(r)| == ShownSize(l, width, precision, flags) - |l.sign| + |Visible(l.sign)|
            && EndsShown(Squeeze(r))
            && (Visible(l.sign) == "-" ==> Squeeze(r)[0] == '-')
  {
    hide RenderInt, LayoutOf, Strip, Squeeze, Magnitude, Sign, PaddingOf, Body, AllDigits, EndsShown;
    var l := LayoutOf(value, base, precision, flags);
    LayoutDigits(value, base, precision, flags);
    FieldParts(value, base, width, precision, flags);
    BodyLength(value, base, precision, flags);
    ShownEnds(Visible(l.sign) + l.prefix + Repeat('0', PaddingOf(l, width, precision == -1, flags).zeros), l.digits,
              flags, Squeeze(RenderInt(value, base, width, precision, flags)));
  }

  lemma LayoutDigits(value: int, base: int, precision: int, flags: Flags)
    requires FmtBase(base)
    ensures AllDigits(LayoutOf(value, base, precision, flags).digits)
  {
    NumeralDigits(Magnitude(value, flags.uns), base, flags.up);
    hide Numeral;
  }

  lemma ShownEnds(before: string, ds: string, flags: Flags, all: string)
    requires AllDigits(ds) && |ds| >= 1 && all == before + Body(ds, flags)
    ensures EndsShown(all)
  {
    BodyEnds(ds, flags);
    hide Body;
  }

  lemma BodyEnds(ds: string, flags: Flags)
    requires AllDigits(ds) && |ds| >= 1
    ensures EndsShown(Body(ds, flags)) && Body(ds, flags)[|Body(ds, flags)| - 1] == ds[|ds| - 1]
  {
  }

  /** The fields of two values, the printer's of no smaller magnitude. */
  lemma FieldsDeparted(v: int, w: int, base: int, width: int, precision: int, flags: Flags)
    requires FmtBase(base) && (flags.quote ==> base == 10)
    requires Magnitude(v, flags.uns) >= Magnitude(w, flags.uns)
    requires if flags.uns then AsUnsigned(v, W64) != AsUnsigned(w, W64) else v != w
    ensures Departed(RenderInt(v, base, width, precision, flags), RenderInt(w, base, width, precision, flags))
  {
    hide RenderInt, LayoutOf, Strip, Squeeze, Magnitude, Sign, AsUnsigned, Clash, EndsShown, ShownSize;
    var x, y := RenderInt(v, base, width, precision, flags), RenderInt(w, base, width, precision, flags);
    LayoutSign(v, base, precision, flags);
    LayoutSign(w, base, precision, flags);
    FieldShown(v, base, width, precision, flags);
    FieldShown(w, base, width, precision, flags);
    ShownGrows(v, w, base, width, precision, flags);
    if (v < 0) == (w < 0) || flags.uns {
      SameSign(v, w, flags);
      ReadsDiffer(v, w, base, width, precision, flags);
      LongerOrClash(x, y);
    } else {
      Signs(v, w, flags);
      SignsClash(v, w, base, width, precision, flags);
    }
  }

  /** Of two values only one of which is negative. */
  lemma Signs(v: int, w: int, flags: Flags)
    requires !flags.uns && (v < 0) != (w < 0)
    ensures v < 0 ==> Sign(v, flags) == "-" && |Sign(w, flags)| <= 1
    ensures w < 0 ==> Sign(w, flags) == "-" && |Sign(v, flags)| <= 1
  {
  }

  lemma LongerOrClash(x: string, y: string)
    requires EndsShown(Squeeze(x)) && |Squeeze(x)| >= |Squeeze(y)| && Strip(x) != Strip(y)
    ensures Clash(Squeeze(x), Squeeze(y)) || |Strip(x)| > |Strip(y)|
  {
    StripSqueezed(x);
    StripSqueezed(y);
    hide Strip, Squeeze;
    var a, b := Squeeze(x), Squeeze(y);
    if !Clash(a, b) {
      NoClash(a, b);
      var more := a[|b|..];
      assert b + "" == b;
      if more != "" {
        ShownStays(more);
        StripConcat(b, more);
      }
    }
  }

  /** Where only `ptrdiff_t` has 64 bits the `t` conversions cut the number off. */
  predicate CutsOff(abi: Abi, mod: Mod) { mod == PtrdiffMod && !abi.wideLong && abi.widePtrdiff }

  lemma SignedGrows(word: int)
    ensures Magnitude(AsSigned(word, W64), false) >= Magnitude(AsSigned(word, W32), false)
    ensures TopBit(word) ==>
              Magnitude(AsSigned(AsUnsigned(word, W32), W64), false) >= Magnitude(AsSigned(word, W32), false)
  {
    var u, half := AsUnsigned(word, W64), AsUnsigned(word, W32);
    assert u % 0x1_0000_0000 == half;
    assert half <= u;
  }

  lemma UnsignedGrows(word: int)
    ensures Magnitude(AsSigned(word, W64), true) >= Magnitude(AsUnsigned(word, W32), true)
    ensures TopBit(word) ==> Magnitude(AsSigned(word, W32), true) >= Magnitude(AsUnsigned(word, W32), true)
  {
    var u, half := AsUnsigned(word, W64), AsUnsigned(word, W32);
    assert u % 0x1_0000_0000 == half;
    assert half <= u;
    UnsignedThroughSigned64(word);
    SignedOfUnsigned(word);
    Rewidened(word, W32);
  }

  /** Elsewhere a value fetched wrongly is of no smaller magnitude. */
  lemma FetchGrows(abi: Abi, conv: char, mod: Mod, word: int)
    requires FetchedWrongly(abi, conv, mod, word) && !CutsOff(abi, mod)
    ensures Magnitude(FetchedValue(abi, conv, mod, word), !IsSigned(conv))
         >= Magnitude(C99Value(abi, conv, mod, word), !IsSigned(conv))
  {
    hide Magnitude, AsSigned, AsUnsigned, TopBit, NotExtended, HighHalf;
    SignedGrows(word);
    UnsignedGrows(word);
  }

  lemma IntegerDeparted(abi: Abi, conv: char, p: Params, slot: Slot)
    requires IsInteger(conv) && p.precision >= -1 && !p.flags.uns && (p.flags.quote ==> BaseOf(conv) == 10)
    requires IntegerDeparts(abi, conv, p, slot) && SteadyInteger(abi, conv, p, slot)
    ensures Departed(ConversionText(abi, conv, p, slot), C99Integer(abi, conv, p, slot))
  {
    hide RenderInt, C99Int, SignedArg, UnsignedArg, Departed, FetchedWrongly, Magnitude;
    hide DropsEmptyNumber, CommasForZeros;
    var v, w := FetchedValue(abi, conv, p.mod, slot.word), C99Value(abi, conv, p.mod, slot.word);
    var base, flags := BaseOf(conv), ConvFlags(conv, p.flags);
    assert ConversionText(abi, conv, p, slot) == RenderInt(v, base, p.width, p.precision, flags);
    if DropsEmptyNumber(w, base, p.precision, flags) {
      DigitForNone(v, w, base, p.width, p.precision, flags);
    } else {
      IntMeetsC99(w, base, p.width, p.precision, flags);
      FetchIsExact(abi, conv, p.mod, slot.word);
      SeenOfC99(abi, conv, p.mod, slot.word);
      FetchGrows(abi, conv, p.mod, slot.word);
      FieldsDeparted(v, w, base, p.width, p.precision, flags);
    }
  }

  lemma NothingAsked(value: int, base: int, width: int, precision: int, flags: Flags)
    requires FmtBase(base) && DropsEmptyNumber(value, base, precision, flags)
    ensures C99Int(value, base, width, precision, flags) == InBlanks(Sign(value, flags), width, flags)
  {
    hide Sign, Magnitude, Numeral, ForceZero, Repeat;
    assert HexPrefix(0, base, flags) == "";
    assert Sign(value, flags) + "" == Sign(value, flags);
  }

  /** Digits where none is asked for. */
  lemma DigitForNone(v: int, w: int, base: int, width: int, precision: int, flags: Flags)
    requires FmtBase(base) && DropsEmptyNumber(w, base, precision, flags)
    ensures Departed(RenderInt(v, base, width, precision, flags), C99Int(w, base, width, precision, flags))
  {
    hide RenderInt, C99Int, Strip, Squeeze, LayoutOf, ShownSize, Sign, InBlanks, DropsEmptyNumber;
    NoDigits(w, base, width, precision, flags);
    SomeDigits(v, base, width, precision, flags);
    FieldShown(v, base, width, precision, flags);
    NothingAsked(w, base, width, precision, flags);
    SqueezedField(Sign(w, flags), width, flags);
    SignIsShort(w, flags);
    SignSqueezed(Sign(w, flags));
  }

  // ----- directives -----

  /**
  The departures that cannot be made up for: all but those of wide characters, of integers that are cut off, and of
  integers with the `'` flag whose separators take the place of zeros.
   */
  predicate Steady(abi: Abi, conv: char, p: Params, slot: Slot) {
    !IsWide(conv, p.mod) && (IsInteger(conv) ==> SteadyInteger(abi, conv, p, slot))
  }

  predicate SteadyInteger(abi: Abi, conv: char, p: Params, slot: Slot) {
    var value, base, flags := C99Value(abi, conv, p.mod, slot.word), BaseOf(conv), ConvFlags(conv, p.flags);
    || DropsEmptyNumber(value, base, p.precision, flags)
    || (!CutsOff(abi, p.mod) && !CommasForZeros(value, base, p.precision, flags))
  }

  lemma TextDeparted(abi: Abi, lib: Platform, conv: char, p: Params, slot: Slot)
    requires p.precision >= -1 && !p.flags.uns && (IsInteger(conv) && p.flags.quote ==> BaseOf(conv) == 10)
    requires Steady(abi, conv, p, slot) && TextDeparts(abi, lib, conv, p, slot)
    ensures Departed(ConversionText(abi, conv, p, slot), C99Text(abi, lib, conv, p, slot))
  {
    hide IntegerDeparts, SteadyInteger, Departed, C99Integer, InBlanks;
    if IsInteger(conv) {
      IntegerDeparted(abi, conv, p, slot);
    } else {
      CharacterDeparted(OneChar(slot), p.width, p.flags);
    }
  }

  lemma QuotedIsDecimal(spec: Spec, conv: char, p: Params)
    requires Defined(spec, conv, p)
    ensures IsInteger(conv) && p.flags.quote ==> BaseOf(conv) == 10
  {
  }

  /** The two texts of a directive that is not of floating point and departs steadily if at all. */
  lemma SameOrDeparted(env: Env, lib: Platform, spec: Spec, conv: char, p: Params, used: nat)
    requires p.precision >= -1 && !p.flags.uns && Defined(spec, conv, p) && !IsFloating(conv)
    requires Departs(env, lib, spec, conv, p, used) ==> Steady(env.abi, conv, p, env.args(used))
    ensures var x := ConversionText(env.abi, conv, p, env.args(used));
            var y := C99Text(env.abi, lib, conv, p, env.args(used));
            x == y || Departed(x, y)
  {
    hide ConversionText, C99Text, TextDeparts, Departed, Defined, Steady;
    var slot := env.args(used);
    if TextDeparts(env.abi, lib, conv, p, slot) {
      QuotedIsDecimal(spec, conv, p);
      TextDeparted(env.abi, lib, conv, p, slot);
    } else {
      DefinedKinds(spec, conv, p);
      TextMeetsC99(env.abi, lib, conv, p, slot);
    }
  }

  // ----- whole formats -----

  /** The counts stored so far are as many, and not the same. */
  predicate OtherCounts(cs: seq<Count>, ds: seq<Count>) { |cs| == |ds| && cs != ds }

  /** The printer has consumed fewer arguments, or as many with another text or other counts for good. */
  predicate Trails(now: Progress, other: Progress) {
    || now.used < other.used
    || (now.used == other.used && (Parted(now.text, other.text) || OtherCounts(now.counts, other.counts)))
  }

  lemma OtherCountsAppend(cs: seq<Count>, ds: seq<Count>, x: Count, y: Count)
    requires OtherCounts(cs, ds)
    ensures OtherCounts(cs + [x], ds + [y])
  {
    assert (cs + [x])[..|cs|] == cs && (ds + [y])[..|ds|] == ds;
  }

  /** Evaluation consumes as many arguments whatever they are. */
  lemma EvaluationConsumes(spec: Spec, env: Env, used: nat, other: nat)
    ensures var e, o := EvalSpec(spec, env, used), EvalSpec(spec, env, other);
            e.Evaluated? == o.Evaluated? && e.used - used == o.used - other
  {
  }

  lemma PerformConsumes(env: Env, lib: Platform, spec: Spec, conv: char, p: Params, q: Params,
                        now: Progress, other: Progress)
    ensures Perform(env, conv, p, now).used == if TakesArgument(conv) then now.used + 1 else now.used
    ensures C99Perform(env, lib, spec, conv, q, other).used - other.used >= Perform(env, conv, p, now).used - now.used
  {
  }

  /** Once an argument behind, always an argument behind: every later directive is still evaluated. */
  lemma {:induction false} StaysShort(f: Format, env: Env, lib: Platform, now: Progress, other: Progress)
    requires now.used < other.used
    ensures Meaning(f, env, now).progress.used < C99Meaning(f, env, lib, other).progress.used
    decreases f
  {
    hide EvalSpec, Perform, C99Perform, IsLongDouble;
    match f {
      case End =>
      case Cut(spec) => EvaluationConsumes(spec, env, now.used, other.used);
      case Lit(c, rest) =>
        StaysShort(rest, env, lib, now.(text := now.text + [c]), other.(text := other.text + [c]));
      case Dir(spec, conv, rest) =>
        EvaluationConsumes(spec, env, now.used, other.used);
        match (EvalSpec(spec, env, now.used), EvalSpec(spec, env, other.used)) {
          case (Evaluated(p, used), Evaluated(q, used')) =>
            var here, there := now.(used := used), other.(used := used');
            var next := Perform(env, conv, p, here);
            PerformConsumes(env, lib, spec, conv, p, q, here, there);
            if IsLongDouble(f) {
              LongDoubleTakesNone(f);
              StaysShort(rest.rest, env, lib, next.(text := next.text + [rest.c]),
                         C99LongDouble(env, lib, rest.c, q, there));
            } else {
              StaysShort(rest, env, lib, next, C99Perform(env, lib, spec, conv, q, there));
            }
          case _ =>
        }
    }
  }

  lemma LongDoubleTakesNone(f: Format)
    requires IsLongDouble(f)
    ensures f.rest.Lit? && !TakesArgument(f.conv)
  {
  }

  /** A directive of which the printer makes the departure, if it does, that cannot be made up for. */
  lemma StepTrails(env: Env, lib: Platform, spec: Spec, conv: char, p: Params, now: Progress, other: Progress)
    requires p.precision >= -1 && !p.flags.uns && now.used == other.used && Trails(now, other)
    requires Departs(env, lib, spec, conv, p, now.used) ==>
               IsFloating(conv) || Steady(env.abi, conv, p, env.args(now.used))
    ensures Trails(Perform(env, conv, p, now), C99Perform(env, lib, spec, conv, p, other))
  {
    hide ConversionText, C99Text, Parted, Departed, Defined, CountOf, Stored, Steady, OtherCounts, Departs;
    var slot := env.args(now.used);
    var x, y := ConversionText(env.abi, conv, p, slot), C99Text(env.abi, lib, conv, p, slot);
    if Defined(spec, conv, p) {
      DefinedKinds(spec, conv, p);
      if !IsFloating(conv) {
        SameOrDeparted(env, lib, spec, conv, p, now.used);
        if Parted(now.text, other.text) { PartedAppend(now.text, other.text, x, y); }
      }
    } else if Parted(now.text, other.text) {
      PartedAppend(now.text, other.text, x, x);
    }
    if OtherCounts(now.counts, other.counts) && conv == 'n' {
      var a := Address(env.abi, slot);
      OtherCountsAppend(now.counts, other.counts, CountOf(env.abi, p.mod, a, |now.text|),
                        Stored(a, |other.text|, WidthOf(env.abi, p.mod)));
      OtherCountsAppend(now.counts, other.counts, CountOf(env.abi, p.mod, a, |now.text|),
                        CountOf(env.abi, p.mod, a, |other.text|));
    }
  }

  /** A directive of floating point that C99 performs and the printer does not. */
  predicate Skips(env: Env, lib: Platform, f: Format, p: Params, used: nat)
    requires f.Dir?
  {
    IsLongDouble(f) || (IsFloating(f.conv) && Departs(env, lib, f.spec, f.conv, p, used))
  }

  /**
  Every directive that is performed and departs does so steadily; past a directive of floating point nothing is
  asked, for there the arguments part.
   */
  predicate DepartsSteadily(f: Format, env: Env, lib: Platform, used: nat)
    decreases f
  {
    match f
    case End => true
    case Cut(_) => true
    case Lit(_, rest) => DepartsSteadily(rest, env, lib, used)
    case Dir(spec, conv, rest) =>
      match EvalSpec(spec, env, used)
      case Overflowed(_) => true
      case Evaluated(p, used) =>
        || Skips(env, lib, f, p, used)
        || (&& (Departs(env, lib, spec, conv, p, used) ==> Steady(env.abi, conv, p, env.args(used)))
            && DepartsSteadily(rest, env, lib, if TakesArgument(conv) then used + 1 else used))
  }

  /** At a directive of floating point the printer misses an argument, for good. */
  lemma SkippingTrails(f: Format, env: Env, lib: Platform, now: Progress, other: Progress)
    requires f.Dir? && now.used == other.used && EvalSpec(f.spec, env, now.used).Evaluated?
    requires var e := EvalSpec(f.spec, env, now.used); Skips(env, lib, f, e.params, e.used)
    ensures Trails(Meaning(f, env, now).progress, C99Meaning(f, env, lib, other).progress)
  {
    var e := EvalSpec(f.spec, env, now.used);
    var p, here, there := e.params, now.(used := e.used), other.(used := e.used);
    var next := Perform(env, f.conv, p, here);
    PerformConsumes(env, lib, f.spec, f.conv, p, p, here, there);
    if IsLongDouble(f) {
      LongDoubleTakesNone(f);
      hide Perform, IsLongDouble, EvalSpec, Parted, OtherCounts;
      StaysShort(f.rest.rest, env, lib, next.(text := next.text + [f.rest.c]),
                 C99LongDouble(env, lib, f.rest.c, p, there));
    } else {
      DefinedKinds(f.spec, f.conv, p);
      hide Perform, IsLongDouble, EvalSpec, Parted, OtherCounts, Defined;
      StaysShort(f.rest, env, lib, next, C99Perform(env, lib, f.spec, f.conv, p, there));
    }
  }

  /** Once it trails, the printer trails to the end of the format. */
  lemma {:induction false} StaysBehind(f: Format, env: Env, lib: Platform, now: Progress, other: Progress)
    requires Trails(now, other) && (now.used == other.used ==> DepartsSteadily(f, env, lib, now.used))
    ensures Trails(Meaning(f, env, now).progress, C99Meaning(f, env, lib, other).progress)
    decreases f
  {
    hide EvalSpec, Parted, Perform, C99Perform, OtherCounts, IsLongDouble, Steady, Departs;
    if now.used < other.used {
      StaysShort(f, env, lib, now, other);
    } else {
      match f {
        case End =>
        case Cut(_) =>
        case Lit(c, rest) =>
          if Parted(now.text, other.text) { PartedAppend(now.text, other.text, [c], [c]); }
          StaysBehind(rest, env, lib, now.(text := now.text + [c]), other.(text := other.text + [c]));
        case Dir(spec, conv, rest) =>
          match EvalSpec(spec, env, now.used) {
            case Overflowed(_) =>
            case Evaluated(p, used) =>
              var here, there := now.(used := used), other.(used := used);
              EvaluatedParams(spec, env, now.used);
              if Skips(env, lib, f, p, used) {
                SkippingTrails(f, env, lib, now, other);
              } else {
                StepTrails(env, lib, spec, conv, p, here, there);
                PerformConsumes(env, lib, spec, conv, p, p, here, there);
                StaysBehind(rest, env, lib, Perform(env, conv, p, here), C99Perform(env, lib, spec, conv, p, there));
              }
          }
      }
    }
  }

  /** A departure makes the printer trail. */
  lemma DepartureTrails(env: Env, lib: Platform, spec: Spec, conv: char, p: Params, now: Progress)
    requires p.precision >= -1 && !p.flags.uns && Departs(env, lib, spec, conv, p, now.used)
    requires Steady(env.abi, conv, p, env.args(now.used))
    ensures Trails(Perform(env, conv, p, now), C99Perform(env, lib, spec, conv, p, now))
  {
    hide ConversionText, C99Text, TextDeparts, Parted, Departed, Defined, Steady;
    DefinedKinds(spec, conv, p);
    var slot := env.args(now.used);
    if IsFloating(conv) {
    } else if TextDeparts(env.abi, lib, conv, p, slot) {
      QuotedIsDecimal(spec, conv, p);
      TextDeparted(env.abi, lib, conv, p, slot);
      PartedAfter(now.text, ConversionText(env.abi, conv, p, slot), C99Text(env.abi, lib, conv, p, slot));
    } else {
      var a := Address(env.abi, slot);
      CountMeetsC99(env.abi, p.mod, a, |now.text|);
      AppendOne(now.counts, CountOf(env.abi, p.mod, a, |now.text|), Stored(a, |now.text|, WidthOf(env.abi, p.mod)));
    }
  }

  /** From the first departure on the printer trails. */
  lemma {:induction false} FallsBehind(f: Format, env: Env, lib: Platform, now: Progress)
    requires DepartsSteadily(f, env, lib, now.used) && !Conforms(f, env, lib, now.used)
    ensures Trails(Meaning(f, env, now).progress, C99Meaning(f, env, lib, now).progress)
    decreases f
  {
    hide EvalSpec, Trails, Departs, Perform, C99Perform, IsLongDouble, Steady;
    match f {
      case Lit(c, rest) => FallsBehind(rest, env, lib, now.(text := now.text + [c]));
      case Dir(spec, conv, rest) =>
        match EvalSpec(spec, env, now.used) {
          case Evaluated(p, used) =>
            var here := now.(used := used);
            EvaluatedParams(spec, env, now.used);
            PerformConsumes(env, lib, spec, conv, p, p, here, here);
            if Skips(env, lib, f, p, used) {
              SkippingTrails(f, env, lib, now, now);
            } else if Departs(env, lib, spec, conv, p, used) {
              DepartureTrails(env, lib, spec, conv, p, here);
              StaysBehind(rest, env, lib, Perform(env, conv, p, here), C99Perform(env, lib, spec, conv, p, here));
            } else {
              DirectiveMeetsC99(env, lib, spec, conv, p, here);
              FallsBehind(rest, env, lib, Perform(env, conv, p, here));
            }
        }
    }
  }

  // ----- a single departure -----

  /** At most one directive that is performed departs, of whatever kind; a directive of floating point ends the test. */
  predicate DepartsOnce(f: Format, env: Env, lib: Platform, used: nat)
    decreases f
  {
    match f
    case End => true
    case Cut(_) => true
    case Lit(_, rest) => DepartsOnce(rest, env, lib, used)
    case Dir(spec, conv, rest) =>
      match EvalSpec(spec, env, used)
      case Overflowed(_) => true
      case Evaluated(p, used) =>
        var after := if TakesArgument(conv) then used + 1 else used;
        || Skips(env, lib, f, p, used)
        || (if Departs(env, lib, spec, conv, p, used) then Conforms(rest, env, lib, after)
            else DepartsOnce(rest, env, lib, after))
  }

  /** The counts stored so far stay, and as many more are stored. */
  lemma {:induction false} CountsStay(f: Format, env: Env, now: Progress, other: Progress)
    requires now.used == other.used && |now.counts| == |other.counts|
    ensures var o, o' := Meaning(f, env, now).progress, Meaning(f, env, other).progress;
            && |o.counts| == |o'.counts| >= |now.counts|
            && o.counts[..|now.counts|] == now.counts && o'.counts[..|other.counts|] == other.counts
    decreases f
  {
    hide EvalSpec, ConversionText, CountOf;
    match f {
      case End =>
      case Cut(_) =>
      case Lit(c, rest) => CountsStay(rest, env, now.(text := now.text + [c]), other.(text := other.text + [c]));
      case Dir(spec, conv, rest) =>
        match EvalSpec(spec, env, now.used) {
          case Overflowed(_) =>
          case Evaluated(p, used) =>
            var next, next' := Perform(env, conv, p, now.(used := used)), Perform(env, conv, p, other.(used := used));
            CountsStay(rest, env, next, next');
            assert next.counts[..|now.counts|] == now.counts && next'.counts[..|other.counts|] == other.counts;
            hide Perform;
        }
    }
  }

  /** Two outputs that differ are not made the same by the same directives. */
  lemma StayApart(f: Format, env: Env, now: Progress, other: Progress)
    requires now.used == other.used && now != other && |now.counts| == |other.counts|
    ensures Meaning(f, env, now).progress != Meaning(f, env, other).progress
  {
    hide Meaning;
    var bare := Progress("", now.used, []);
    assert now.text + "" == now.text && other.text + "" == other.text;
    EarlierTextIsKept(f, env, bare, now.text, now.counts);
    EarlierTextIsKept(f, env, bare, other.text, other.counts);
    var more := Meaning(f, env, bare).progress.text;
    if now.text != other.text {
      SameTail(now.text, other.text, more);
    } else {
      CountsStay(f, env, now, other);
    }
  }

  lemma SameTail(s: string, t: string, more: string)
    requires s != t
    ensures s + more != t + more
  {
    if |s| == |t| {
      assert (s + more)[..|s|] == s && (t + more)[..|t|] == t;
    }
  }

  lemma SameNumberOfCounts(env: Env, lib: Platform, spec: Spec, conv: char, p: Params, now: Progress)
    requires !(Defined(spec, conv, p) && IsFloating(conv))
    ensures var a, b := Perform(env, conv, p, now), C99Perform(env, lib, spec, conv, p, now);
            a.used == b.used && |a.counts| == |b.counts|
  {
    if Defined(spec, conv, p) { DefinedKinds(spec, conv, p); }
    hide ConversionText, C99Text, CountOf, Defined;
  }

  /** A single departure is not made up for by directives that do not depart. */
  lemma {:induction false} OnceDiffers(f: Format, env: Env, lib: Platform, now: Progress)
    requires DepartsOnce(f, env, lib, now.used) && !Conforms(f, env, lib, now.used)
    ensures Meaning(f, env, now).progress != C99Meaning(f, env, lib, now).progress
    decreases f
  {
    hide EvalSpec, Departs, Perform, C99Perform, IsLongDouble, Parted;
    match f {
      case Lit(c, rest) => OnceDiffers(rest, env, lib, now.(text := now.text + [c]));
      case Dir(spec, conv, rest) =>
        match EvalSpec(spec, env, now.used) {
          case Evaluated(p, used) =>
            var here := now.(used := used);
            EvaluatedParams(spec, env, now.used);
            PerformConsumes(env, lib, spec, conv, p, p, here, here);
            if Skips(env, lib, f, p, used) {
              SkippingDiffers(f, env, lib, now);
            } else {
              DirectiveMeetsC99(env, lib, spec, conv, p, here);
              if Departs(env, lib, spec, conv, p, used) {
                NotSkipped(env, lib, spec, conv, p, used);
                SameNumberOfCounts(env, lib, spec, conv, p, here);
                FormatMeetsC99(rest, env, lib, C99Perform(env, lib, spec, conv, p, here));
                StayApart(rest, env, Perform(env, conv, p, here), C99Perform(env, lib, spec, conv, p, here));
              } else {
                OnceDiffers(rest, env, lib, Perform(env, conv, p, here));
              }
            }
        }
    }
  }

  lemma SkippingDiffers(f: Format, env: Env, lib: Platform, now: Progress)
    requires f.Dir? && EvalSpec(f.spec, env, now.used).Evaluated?
    requires var e := EvalSpec(f.spec, env, now.used); Skips(env, lib, f, e.params, e.used)
    ensures Meaning(f, env, now).progress != C99Meaning(f, env, lib, now).progress
  {
    hide Meaning, C99Meaning, Skips, EvalSpec, Parted;
    SkippingTrails(f, env, lib, now, now);
    TrailingDiffers(Meaning(f, env, now).progress, C99Meaning(f, env, lib, now).progress);
  }

  lemma TrailingDiffers(now: Progress, other: Progress)
    requires Trails(now, other)
    ensures now != other
  {
    hide Parted;
    if Parted(now.text, other.text) { PartedDiffer(now.text, other.text); }
  }

  lemma NotSkipped(env: Env, lib: Platform, spec: Spec, conv: char, p: Params, used: nat)
    requires Departs(env, lib, spec, conv, p, used)
    ensures Defined(spec, conv, p)
  {
  }

  /**
  A format all of whose departures are steady, or that has only one, means what C99 says, in text, arguments and
  counts, exactly when none of the directives it performs departs: such departures never cancel.
   */
  lemma MeetsC99Exactly(f: Format, env: Env, lib: Platform, now: Progress)
    requires DepartsSteadily(f, env, lib, now.used) || DepartsOnce(f, env, lib, now.used)
    ensures Meaning(f, env, now) == C99Meaning(f, env, lib, now) <==> Conforms(f, env, lib, now.used)
  {
    hide DepartsSteadily, DepartsOnce, Conforms, Meaning, C99Meaning, Trails;
    if Conforms(f, env, lib, now.used) {
      FormatMeetsC99(f, env, lib, now);
    } else if DepartsSteadily(f, env, lib, now.used) {
      FallsBehind(f, env, lib, now);
      TrailingDiffers(Meaning(f, env, now).progress, C99Meaning(f, env, lib, now).progress);
    } else {
      OnceDiffers(f, env, lib, now);
    }
  }
}
