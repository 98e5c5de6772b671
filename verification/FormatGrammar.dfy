/**
The syntax of format strings: flags, width, precision, length modifier, conversion. `Parse` reads a format
string and `Show` writes one; they are inverse to each other, so every format string has exactly one reading.
 */
module FormatGrammar {
  import opened Wrappers

  predicate IsFlag(c: char) { c == '-' || c == '+' || c == ' ' || c == '#' || c == '0' || c == '\'' }

  predicate IsDigit(c: char) { '0' <= c <= '9' }

  /** The character classes that decide where a part of a directive ends. */
  datatype Class = Flag | Digit | Modifier

  predicate In(c: char, k: Class) {
    match k
    case Flag => IsFlag(c)
    case Digit => IsDigit(c)
    case Modifier => c == 'h' || c == 'l' || c == 'j' || c == 't' || c == 'z'
  }

  predicate Starts(s: string, k: Class) { s != [] && In(s[0], k) }

  predicate StartsWith(s: string, c: char) { s != [] && s[0] == c }

  /** A width or precision: digits, or a `*`, or digits that a `*` then overrides. */
  datatype Field = Field(digits: string, star: bool)

  /** A conversion specification without the leading `%` and the conversion character. */
  datatype Spec = Spec(flags: string, width: Field, precision: Option<Field>, mod: string)

  const NO_FIELD := Field("", false)

  /** What stands between the `%` and the character of `%d`: nothing. */
  const BARE := Spec("", NO_FIELD, None, "")

  /** A format string: literal characters and directives; it may break off inside a directive. */
  datatype Format =
    | End
    | Cut(spec: Spec)
    | Lit(c: char, rest: Format)
    | Dir(spec: Spec, conv: char, rest: Format)

  // ----- writing -----

  function ShowField(f: Field): string { f.digits + if f.star then "*" else "" }

  function ShowPrecision(p: Option<Field>): string {
    match p
    case None => ""
    case Some(f) => "." + ShowField(f)
  }

  function ShowSpec(spec: Spec): string {
    spec.flags + (ShowField(spec.width) + (ShowPrecision(spec.precision) + spec.mod))
  }

  function Show(f: Format): string {
    match f
    case End => ""
    case Cut(spec) => "%" + ShowSpec(spec)
    case Lit(c, rest) => [c] + Show(rest)
    case Dir(spec, conv, rest) => "%" + (ShowSpec(spec) + ([conv] + Show(rest)))
  }

  // ----- which parts may stand before which text -----

  predicate All(s: string, k: Class) { forall i :: 0 <= i < |s| ==> In(s[i], k) }

  predicate FieldBefore(f: Field, after: string) {
    All(f.digits, Digit) && (f.star || (!Starts(after, Digit) && !StartsWith(after, '*')))
  }

  predicate IsMod(m: string) {
    m == "" || m == "h" || m == "hh" || m == "l" || m == "ll" || m == "j" || m == "t" || m == "z"
  }

  predicate ModBefore(m: string, after: string) {
    && IsMod(m)
    && (m == "" ==> !Starts(after, Modifier))
    && (m == "h" ==> !StartsWith(after, 'h'))
    && (m == "l" ==> !StartsWith(after, 'l'))
  }

  predicate PrecisionBefore(p: Option<Field>, after: string) {
    match p
    case None => !StartsWith(after, '.')
    case Some(f) => FieldBefore(f, after)
  }

  /** Each part is as long as it can be: what follows it does not continue it. */
  predicate SpecBefore(spec: Spec, after: string) {
    var afterPrecision := spec.mod + after;
    var afterWidth := ShowPrecision(spec.precision) + afterPrecision;
    var afterFlags := ShowField(spec.width) + afterWidth;
    && All(spec.flags, Flag) && !Starts(afterFlags, Flag)
    && FieldBefore(spec.width, afterWidth)
    && PrecisionBefore(spec.precision, afterPrecision)
    && ModBefore(spec.mod, after)
  }

  predicate WellFormed(f: Format) {
    match f
    case End => true
    case Cut(spec) => SpecBefore(spec, "")
    case Lit(c, rest) => c != '%' && WellFormed(rest)
    case Dir(spec, conv, rest) => SpecBefore(spec, [conv]) && WellFormed(rest)
  }

  // ----- reading -----

  /** The length of the longest prefix whose characters are all in the class. */
  function Span(s: string, k: Class): (n: nat)
    ensures n <= |s| && All(s[..n], k) && !Starts(s[n..], k)
  {
    if !Starts(s, k) then 0 else
      var n := 1 + Span(s[1..], k);
      assert s[..n] == [s[0]] + s[1..][..n - 1] && s[n..] == s[1..][n - 1..];
      n
  }

  function ReadField(s: string): (r: (Field, string))
    ensures s == ShowField(r.0) + r.1 && FieldBefore(r.0, r.1)
  {
    var n := Span(s, Digit);
    if StartsWith(s[n..], '*') then (Field(s[..n], true), s[n + 1..]) else (Field(s[..n], false), s[n..])
  }

  function ReadPrecision(s: string): (r: (Option<Field>, string))
    ensures |r.1| <= |s|
  {
    if StartsWith(s, '.') then
      var (f, after) := ReadField(s[1..]);
      (Some(f), after)
    else (None, s)
  }

  function ModLength(s: string): (n: nat)
    ensures n <= |s|
  {
    if s == [] then 0
    else if s[0] == 'h' then (if StartsWith(s[1..], 'h') then 2 else 1)
    else if s[0] == 'l' then (if StartsWith(s[1..], 'l') then 2 else 1)
    else if In(s[0], Modifier) then 1
    else 0
  }

  function ReadMod(s: string): (r: (string, string))
    ensures |r.1| <= |s|
  {
    (s[..ModLength(s)], s[ModLength(s)..])
  }

  function ReadSpec(s: string): (r: (Spec, string))
    ensures |r.1| <= |s|
  {
    var n := Span(s, Flag);
    var (width, afterWidth) := ReadField(s[n..]);
    var (precision, afterPrecision) := ReadPrecision(afterWidth);
    var (mod, after) := ReadMod(afterPrecision);
    (Spec(s[..n], width, precision, mod), after)
  }

  /** The reading of a whole format string. */
  function Parse(s: string): Format
    decreases |s|
  {
    if s == [] then End
    else if s[0] != '%' then Lit(s[0], Parse(s[1..]))
    else
      var (spec, after) := ReadSpec(s[1..]);
      if after == [] then Cut(spec) else Dir(spec, after[0], Parse(after[1..]))
  }

  // ----- Show after Parse -----

  lemma ReadPrecisionSound(s: string)
    ensures var (p, after) := ReadPrecision(s); s == ShowPrecision(p) + after && PrecisionBefore(p, after)
  {
    if StartsWith(s, '.') {
      var (f, after) := ReadField(s[1..]);
      assert s == "." + s[1..] == "." + ShowField(f) + after;
    }
  }

  lemma ReadModSound(s: string)
    ensures var (m, after) := ReadMod(s); s == m + after && ModBefore(m, after)
  {
  }

  lemma Nest(a: string, b: string, c: string, d: string, e: string)
    ensures a + (b + (c + d)) + e == a + (b + (c + (d + e)))
  {
  }

  lemma SpecFromParts(spec: Spec, s1: string, s2: string, s3: string, after: string)
    requires All(spec.flags, Flag) && !Starts(s1, Flag)
    requires s1 == ShowField(spec.width) + s2 && FieldBefore(spec.width, s2)
    requires s2 == ShowPrecision(spec.precision) + s3 && PrecisionBefore(spec.precision, s3)
    requires s3 == spec.mod + after && ModBefore(spec.mod, after)
    ensures spec.flags + s1 == ShowSpec(spec) + after && SpecBefore(spec, after)
  {
    hide All, Starts, FieldBefore, PrecisionBefore, ModBefore, ShowField, ShowPrecision;
    Nest(spec.flags, ShowField(spec.width), ShowPrecision(spec.precision), spec.mod, after);
  }

  lemma ReadSpecSound(s: string)
    ensures var (spec, after) := ReadSpec(s); s == ShowSpec(spec) + after && SpecBefore(spec, after)
  {
    hide ShowSpec, SpecBefore, Span, ReadField, ReadPrecision, ReadMod, All, Starts;
    hide FieldBefore, PrecisionBefore, ModBefore, ShowField, ShowPrecision;
    var n := Span(s, Flag);
    var s1 := s[n..];
    var (width, s2) := ReadField(s1);
    var (precision, s3) := ReadPrecision(s2);
    var (mod, after) := ReadMod(s3);
    ReadPrecisionSound(s2);
    ReadModSound(s3);
    SpecFromParts(Spec(s[..n], width, precision, mod), s1, s2, s3, after);
    assert s == s[..n] + s1;
  }

  lemma ShowParseDirective(s: string, spec: Spec, after: string, rest: Format)
    requires s != [] && s[0] == '%' && s[1..] == ShowSpec(spec) + after && SpecBefore(spec, after)
    ensures after == [] ==> Show(Cut(spec)) == s && SpecBefore(spec, "")
    ensures after != [] && Show(rest) == after[1..] ==>
              Show(Dir(spec, after[0], rest)) == s && SpecBefore(spec, [after[0]])
  {
    hide ShowSpec;
    assert s == "%" + s[1..];
    if after == [] {
      assert ShowSpec(spec) + "" == ShowSpec(spec);
    } else {
      SpecBeforeFirst(spec, after, [after[0]]);
      hide SpecBefore;
      assert after == [after[0]] + after[1..];
    }
  }

  /** Writing out the reading of a string gives the string back. */
  lemma {:induction false} ShowParse(s: string)
    ensures Show(Parse(s)) == s && WellFormed(Parse(s))
    decreases |s|
  {
    if s == [] {
    } else if s[0] != '%' {
      ShowParse(s[1..]);
      assert s == [s[0]] + s[1..];
    } else {
      var (spec, after) := ReadSpec(s[1..]);
      ReadSpecSound(s[1..]);
      hide ReadSpec, SpecBefore, ShowSpec;
      if after == [] {
        ShowParseDirective(s, spec, after, End);
      } else {
        ShowParse(after[1..]);
        ShowParseDirective(s, spec, after, Parse(after[1..]));
      }
    }
  }

  /** Only the first character that follows a specification matters to it. */
  lemma SpecBeforeFirst(spec: Spec, a: string, b: string)
    requires a != [] && b != [] && a[0] == b[0]
    ensures SpecBefore(spec, a) == SpecBefore(spec, b)
  {
    hide All, In, ShowField, ShowPrecision, IsMod;
    var a1, b1 := spec.mod + a, spec.mod + b;
    assert a1[0] == b1[0];
    var a2, b2 := ShowPrecision(spec.precision) + a1, ShowPrecision(spec.precision) + b1;
    assert a2[0] == b2[0];
    var a3, b3 := ShowField(spec.width) + a2, ShowField(spec.width) + b2;
    assert a3[0] == b3[0];
  }

  // ----- Parse after Show -----

  lemma {:induction false} SpanIs(k: Class, a: string, b: string)
    requires All(a, k) && !Starts(b, k)
    ensures Span(a + b, k) == |a| && (a + b)[..|a|] == a && (a + b)[|a|..] == b
  {
    if a == [] {
      assert a + b == b;
    } else {
      assert (a + b)[1..] == a[1..] + b;
      SpanIs(k, a[1..], b);
    }
  }

  lemma ReadFieldIs(f: Field, after: string)
    requires FieldBefore(f, after)
    ensures ReadField(ShowField(f) + after) == (f, after)
  {
    var tail := (if f.star then "*" else "") + after;
    assert ShowField(f) + after == f.digits + tail;
    assert f.star ==> tail == "*" + after && tail[1..] == after;
    assert !f.star ==> tail == after;
    SpanIs(Digit, f.digits, tail);
  }

  lemma ReadPrecisionIs(p: Option<Field>, after: string)
    requires PrecisionBefore(p, after)
    ensures ReadPrecision(ShowPrecision(p) + after) == (p, after)
  {
    match p {
      case None => assert "" + after == after;
      case Some(f) =>
        var s := ShowPrecision(p) + after;
        assert s[1..] == ShowField(f) + after;
        ReadFieldIs(f, after);
    }
  }

  lemma ReadModIs(m: string, after: string)
    requires ModBefore(m, after)
    ensures ReadMod(m + after) == (m, after)
  {
    var s := m + after;
    assert m == "" ==> s == after;
    assert s[..|m|] == m && s[|m|..] == after;
    assert ModLength(s) == |m|;
  }

  lemma ReadSpecIs(spec: Spec, after: string)
    requires SpecBefore(spec, after)
    ensures ReadSpec(ShowSpec(spec) + after) == (spec, after)
  {
    var s3 := spec.mod + after;
    var s2 := ShowPrecision(spec.precision) + s3;
    var s1 := ShowField(spec.width) + s2;
    assert ShowSpec(spec) + after == spec.flags + s1;
    SpanIs(Flag, spec.flags, s1);
    ReadFieldIs(spec.width, s2);
    ReadPrecisionIs(spec.precision, s3);
    ReadModIs(spec.mod, after);
  }

  /** Reading a well-formed format back gives that format: there is no other reading. */
  lemma {:induction false} ParseShow(f: Format)
    requires WellFormed(f)
    ensures Parse(Show(f)) == f
  {
    match f {
      case End =>
      case Lit(c, rest) =>
        ParseShow(rest);
        assert Show(f)[1..] == Show(rest);
      case Cut(spec) =>
        ReadSpecIs(spec, "");
        assert Show(f)[1..] == ShowSpec(spec) == ShowSpec(spec) + "";
      case Dir(spec, conv, rest) =>
        ParseShow(rest);
        var after := [conv] + Show(rest);
        SpecBeforeFirst(spec, [conv], after);
        ReadSpecIs(spec, after);
        assert Show(f)[1..] == ShowSpec(spec) + after;
        assert after[1..] == Show(rest);
    }
  }

  /** The reading of a directive and what follows it. */
  lemma DirectiveThen(spec: Spec, conv: char, rest: Format, s: string)
    requires WellFormed(rest) && s == "%" + ShowSpec(spec) + [conv] + Show(rest) && SpecBefore(spec, [conv])
    ensures Parse(s) == Dir(spec, conv, rest) && WellFormed(Dir(spec, conv, rest)) && Show(Dir(spec, conv, rest)) == s
  {
    hide Parse, SpecBefore, ShowSpec;
    var f := Dir(spec, conv, rest);
    assert WellFormed(f) && Show(f) == "%" + (ShowSpec(spec) + ([conv] + Show(rest)));
    hide Show, WellFormed;
    assert "%" + (ShowSpec(spec) + ([conv] + Show(rest))) == s;
    ParseShow(f);
  }
}
