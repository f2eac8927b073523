/**
The printer and the two parsers of internal/decimal, and the grammar of JSON
numbers (section 6 of RFC 8259) that ParseNumber is held to.
*/
module DecimalText {
  import opened Wrappers
  import opened Digits
  import opened Strings
  import opened Decimals

  // ---- The printer --------------------------------------------------------

  /** The digits of a magnitude, with enough leading zeros for its fraction. */
  function Padded(magnitude: nat, scale: nat): (s: string)
    ensures AllDigits(s) && |s| > scale
    ensures NatValue(s) == magnitude
    ensures scale == 0 ==> IsWhole(s)
  {
    var digits := NatText(magnitude);
    TextHasValue(magnitude);
    if |digits| > scale then digits else
      ValueOfConcat(Zeros(scale - |digits| + 1), digits);
      Zeros(scale - |digits| + 1) + digits
  }

  function Whole(magnitude: nat, scale: nat): (s: string)
    ensures IsWhole(s)
  {
    var digits := Padded(magnitude, scale);
    digits[..|digits| - scale]
  }

  function Fraction(magnitude: nat, scale: nat): (s: string)
    ensures AllDigits(s) && |s| == scale
    ensures NatValue(Whole(magnitude, scale) + s) == magnitude
  {
    var digits := Padded(magnitude, scale);
    assert Whole(magnitude, scale) + digits[|digits| - scale..] == digits;
    digits[|digits| - scale..]
  }

  function Unsigned(magnitude: nat, scale: nat): string {
    if scale == 0 then Padded(magnitude, 0) else Whole(magnitude, scale) + "." + Fraction(magnitude, scale)
  }

  function Signed(n: Decimal): string {
    if n.coefficient < 0 then "-" + Unsigned(-n.coefficient, n.scale) else Unsigned(n.coefficient, n.scale)
  }

  /** String: plain notation, no padding. */
  function Text(d: Decimal): string {
    Signed(Normal(d))
  }

  // ---- The parsers --------------------------------------------------------

  /** `0|[1-9][0-9]*`, the whole part of a literal. */
  predicate IsWhole(s: string) {
    AllDigits(s) && s != "" && (s[0] == '0' ==> s == "0")
  }

  /** `^(0|[1-9][0-9]*)(\.[0-9]+)?$`. */
  predicate IsLiteral(text: string) {
    var cut := CutAt(text, '.');
    IsWhole(cut.before) && (cut.found ==> AllDigits(cut.after) && cut.after != "")
  }

  function Parse(text: string): (r: Option<Decimal>)
    ensures r.Some? ==> IsNormal(r.value)
  {
    if !IsLiteral(text) then None else
      var cut := CutAt(text, '.');
      Some(Normal(Decimal(NatValue(cut.before + cut.after), |cut.after|)))
  }

  /** Parse reads no sign, so its values are never negative. */
  lemma ParseIsNonNegative(text: string)
    requires Parse(text).Some?
    ensures Value(Parse(text).value) >= 0.0
  {
    hide CutAt, NatValue;
    var cut := CutAt(text, '.');
    SignOfValue(NatValue(cut.before + cut.after), |cut.after|);
  }

  function LowerChar(c: char): char {
    if 'A' <= c <= 'Z' then (c as int + 32) as char else c
  }

  function ToLower(s: string): string {
    seq(|s|, i requires 0 <= i < |s| => LowerChar(s[i]))
  }

  const MAX_EXPONENT := 64

  /** The value of a mantissa and, after the mark, an exponent. */
  function ParseScientific(cut: Cut): (r: Option<Decimal>)
    ensures r.Some? ==> IsNormal(r.value)
  {
    var mantissa := Parse(cut.before);
    if mantissa.None? || !cut.found then mantissa else
      var shift := ParseInt(cut.after);
      if shift.None? || shift.value > MAX_EXPONENT || shift.value < -MAX_EXPONENT then None else
        Some(Decimals.Shift(mantissa.value, shift.value))
  }

  /** A number after its sign. */
  function ParseUnsigned(digits: string): (r: Option<Decimal>)
    ensures r.Some? ==> IsNormal(r.value)
  {
    ParseScientific(CutAt(ToLower(digits), 'e'))
  }

  function ParseNumber(text: string): (r: Option<Decimal>)
    ensures r.Some? ==> IsNormal(r.value)
  {
    var negative := text != "" && text[0] == '-';
    var value := ParseUnsigned(if negative then text[1..] else text);
    if value.Some? && negative then Some(Sub(ZERO, value.value)) else value
  }

  lemma SignIsCut(digits: string)
    requires digits == "" || digits[0] != '-'
    ensures ParseNumber(digits) == ParseUnsigned(digits)
    ensures ParseNumber("-" + digits) ==
            if ParseUnsigned(digits).Some? then Some(Sub(ZERO, ParseUnsigned(digits).value)) else None
  {
    assert ("-" + digits)[1..] == digits;
  }

  // ---- What a literal means -----------------------------------------------

  lemma LiteralParses(whole: string, fraction: string)
    requires IsWhole(whole) && AllDigits(fraction) && fraction != ""
    ensures Parse(whole + "." + fraction) == Some(Normal(Decimal(NatValue(whole + fraction), |fraction|)))
  {
    CutUnique(whole, '.', fraction);
  }

  lemma WholeParses(whole: string)
    requires IsWhole(whole)
    ensures Parse(whole) == Some(Decimal(NatValue(whole), 0))
  {
    CutAbsent(whole, '.');
    assert whole + "" == whole;
  }

  lemma UnsignedReads(magnitude: nat, scale: nat)
    requires IsNormal(Decimal(magnitude, scale))
    ensures Parse(Unsigned(magnitude, scale)) == Some(Decimal(magnitude, scale))
  {
    if scale == 0 {
      WholeParses(Padded(magnitude, 0));
    } else {
      LiteralParses(Whole(magnitude, scale), Fraction(magnitude, scale));
      NormalIsUnique(Normal(Decimal(magnitude, scale)), Decimal(magnitude, scale));
    }
  }

  /** Parse reads back every printed value of zero or more. */
  lemma ParseReadsText(d: Decimal)
    requires Sign(d) >= 0
    ensures Parse(Text(d)) == Some(Normal(d))
  {
    var n := Normal(d);
    SignOfValue(n.coefficient, n.scale);
    UnsignedReads(n.coefficient, n.scale);
  }

  lemma CutsAtPoint(sign: string, magnitude: nat, scale: nat)
    requires '.' !in sign
    ensures var cut := CutAt(sign + Unsigned(magnitude, scale), '.');
            |cut.after| == scale && (cut.found <==> scale > 0)
  {
    hide CutAt, NatText, Zeros;
    if scale == 0 {
      CutAbsent(sign + Padded(magnitude, 0), '.');
    } else {
      var whole, fraction := Whole(magnitude, scale), Fraction(magnitude, scale);
      CutUnique(sign + whole, '.', fraction);
      assert sign + (whole + "." + fraction) == (sign + whole) + ['.'] + fraction;
    }
  }

  /** No padding: the text shows the fractional digits the value needs, and no point without one. */
  lemma TextShowsScale(d: Decimal)
    ensures var cut := CutAt(Text(d), '.');
            |cut.after| == Scale(d) && (cut.found <==> Scale(d) > 0)
  {
    hide CutAt, Unsigned, Normal;
    var n := Normal(d);
    if n.coefficient < 0 {
      CutsAtPoint("-", -n.coefficient, n.scale);
    } else {
      CutsAtPoint("", n.coefficient, n.scale);
      assert "" + Unsigned(n.coefficient, n.scale) == Unsigned(n.coefficient, n.scale);
    }
  }

  lemma LowerFixes(s: string)
    requires forall c | c in s :: !('A' <= c <= 'Z')
    ensures ToLower(s) == s
  {
    assert forall i | 0 <= i < |s| :: s[i] in s;
  }

  lemma UnsignedLiteral(text: string)
    requires IsLiteral(text)
    ensures ParseUnsigned(text) == Parse(text)
  {
    LiteralHasNoMark(text);
    LowerFixes(text);
    CutAbsent(text, 'e');
  }

  lemma LiteralHasNoMark(text: string)
    requires IsLiteral(text)
    ensures forall c | c in text :: IsDigit(c) || c == '.'
    ensures text != "" && IsDigit(text[0])
  {
    var cut := CutAt(text, '.');
    assert text[0] == cut.before[0];
  }

  lemma UnsignedNumberReads(magnitude: nat, scale: nat)
    requires IsNormal(Decimal(magnitude, scale))
    ensures ParseNumber(Unsigned(magnitude, scale)) == Some(Decimal(magnitude, scale))
    ensures ParseNumber("-" + Unsigned(magnitude, scale)) == Some(Sub(ZERO, Decimal(magnitude, scale)))
  {
    var text := Unsigned(magnitude, scale);
    UnsignedReads(magnitude, scale);
    UnsignedLiteral(text);
    LiteralHasNoMark(text);
    SignIsCut(text);
  }

  lemma ZeroMinus(n: Decimal)
    requires IsNormal(n)
    ensures Sub(ZERO, Decimal(-n.coefficient, n.scale)) == n
  {
    ValueIsLinear(0, n.coefficient, n.scale);
    SignOfValue(0, n.scale);
    NormalIsUnique(Sub(ZERO, Decimal(-n.coefficient, n.scale)), n);
  }

  lemma SignedReads(n: Decimal)
    requires IsNormal(n)
    ensures ParseNumber(Signed(n)) == Some(n)
  {
    if n.coefficient < 0 {
      UnsignedNumberReads(-n.coefficient, n.scale);
      ZeroMinus(n);
    } else {
      UnsignedNumberReads(n.coefficient, n.scale);
    }
  }

  /** ParseNumber reads back every printed value. */
  lemma ParseNumberReadsText(d: Decimal)
    ensures ParseNumber(Text(d)) == Some(Normal(d))
  {
    SignedReads(Normal(d));
  }

  lemma SignedIsInjective(m: Decimal, n: Decimal)
    requires IsNormal(m) && IsNormal(n) && Signed(m) == Signed(n)
    ensures m == n
  {
    SignedReads(m);
    SignedReads(n);
    assert Some(m) == Some(n);
  }

  /** Equal values print equally, and only they do: a printed decimal is a sound map key. */
  lemma TextIsFaithful(a: Decimal, b: Decimal)
    ensures Text(a) == Text(b) <==> Value(a) == Value(b)
  {
    EqualValuesEqualNormals(a, b);
    if Text(a) == Text(b) {
      SignedIsInjective(Normal(a), Normal(b));
    }
  }

  // ---- JSON numbers -------------------------------------------------------

  datatype JsonExponent = JsonExponent(mark: char, sign: string, digits: string) {
    predicate WellFormed() {
      (mark == 'e' || mark == 'E') && (sign == "" || sign == "+" || sign == "-") && AllDigits(digits) && digits != ""
    }

    function Written(): string {
      [mark] + sign + digits
    }

    function Exponent(): int
      requires WellFormed()
    {
      var magnitude: int := NatValue(digits);
      if sign == "-" then -magnitude else magnitude
    }
  }

  /** number = [ minus ] int [ frac ] [ exp ]; the fraction is its digits. */
  datatype JsonNumber = JsonNumber(minus: bool, whole: string, fraction: Option<string>,
                                   exponent: Option<JsonExponent>) {
    predicate WellFormed() {
      && IsWhole(whole)
      && (fraction.Some? ==> AllDigits(fraction.value) && fraction.value != "")
      && (exponent.Some? ==> exponent.value.WellFormed())
    }

    function Mantissa(): string {
      if fraction.None? then whole else whole + "." + fraction.value
    }

    function Unsigned(): string {
      if exponent.None? then Mantissa() else Mantissa() + exponent.value.Written()
    }

    function Written(): string {
      if minus then "-" + Unsigned() else Unsigned()
    }

    function Exponent(): int
      requires WellFormed()
    {
      if exponent.None? then 0 else exponent.value.Exponent()
    }

    ghost function MantissaValue(): real
      requires WellFormed()
    {
      if fraction.None? then ValueAt(NatValue(whole), 0)
      else ValueAt(NatValue(whole + fraction.value), |fraction.value|)
    }

    ghost function Magnitude(): real
      requires WellFormed()
    {
      TimesPow10(MantissaValue(), Exponent())
    }

    ghost function NumberValue(): real
      requires WellFormed()
    {
      if minus then 0.0 - Magnitude() else Magnitude()
    }

    predicate InRange()
      requires WellFormed()
    {
      -64 <= Exponent() <= 64
    }
  }

  lemma MantissaParses(n: JsonNumber)
    requires n.WellFormed()
    ensures IsLiteral(n.Mantissa())
    ensures Parse(n.Mantissa()).Some? && Value(Parse(n.Mantissa()).value) == n.MantissaValue()
  {
    if n.fraction.None? {
      WholeParses(n.whole);
      CutAbsent(n.whole, '.');
    } else {
      LiteralParses(n.whole, n.fraction.value);
      CutUnique(n.whole, '.', n.fraction.value);
    }
  }

  lemma ExponentParses(x: JsonExponent)
    requires x.WellFormed()
    ensures ParseInt(x.sign + x.digits) ==
            if -INT64_MAX - 1 <= x.Exponent() <= INT64_MAX then Some(x.Exponent()) else None
  {
    assert x.sign == "" ==> x.sign + x.digits == x.digits;
    assert x.sign != "" ==> (x.sign + x.digits)[1..] == x.digits;
    assert x.sign == "" ==> IsDigit((x.sign + x.digits)[0]);
  }

  /** The mantissa and exponent the text of a JSON number is cut into. */
  function PartsOf(n: JsonNumber): Cut {
    if n.exponent.None? then Cut(n.Mantissa(), "", false)
    else Cut(n.Mantissa(), n.exponent.value.sign + n.exponent.value.digits, true)
  }

  lemma UnsignedCuts(n: JsonNumber)
    requires n.WellFormed()
    ensures CutAt(ToLower(n.Unsigned()), 'e') == PartsOf(n)
  {
    MantissaParses(n);
    LiteralHasNoMark(n.Mantissa());
    LowerFixes(n.Mantissa());
    if n.exponent.None? {
      CutAbsent(n.Mantissa(), 'e');
    } else {
      ScientificCuts(n.Mantissa(), n.exponent.value);
    }
  }

  lemma ScientificCuts(mantissa: string, x: JsonExponent)
    requires x.WellFormed() && 'e' !in mantissa && ToLower(mantissa) == mantissa
    ensures CutAt(ToLower(mantissa + x.Written()), 'e') == Cut(mantissa, x.sign + x.digits, true)
  {
    hide CutAt, ToLower, NatValue;
    LowerOfScientific(mantissa, x.mark, x.sign + x.digits);
    CutUnique(mantissa, 'e', x.sign + x.digits);
    assert mantissa + x.Written() == mantissa + [x.mark] + (x.sign + x.digits);
  }

  lemma LowerOfScientific(mantissa: string, mark: char, exponent: string)
    requires ToLower(mantissa) == mantissa && (mark == 'e' || mark == 'E')
    requires forall c | c in exponent :: !('A' <= c <= 'Z')
    ensures ToLower(mantissa + [mark] + exponent) == mantissa + ['e'] + exponent
  {
    LowerFixes(exponent);
    var text := mantissa + [mark] + exponent;
    forall i | 0 <= i < |text|
      ensures ToLower(text)[i] == (mantissa + ['e'] + exponent)[i]
    {
      if i < |mantissa| {
        assert ToLower(mantissa)[i] == LowerChar(mantissa[i]);
      } else if i > |mantissa| {
        assert ToLower(exponent)[i - |mantissa| - 1] == LowerChar(exponent[i - |mantissa| - 1]);
      }
    }
  }

  lemma ScientificParses(cut: Cut, mantissa: Decimal, e: int)
    requires cut.found && Parse(cut.before) == Some(mantissa)
    requires ParseInt(cut.after) == if -INT64_MAX - 1 <= e <= INT64_MAX then Some(e) else None
    ensures ParseScientific(cut).Some? <==> -MAX_EXPONENT <= e <= MAX_EXPONENT
    ensures ParseScientific(cut).Some? ==> Value(ParseScientific(cut).value) == TimesPow10(Value(mantissa), e)
  {
  }

  lemma MantissaParts(n: JsonNumber) returns (mantissa: Decimal)
    requires n.WellFormed()
    ensures Parse(PartsOf(n).before) == Some(mantissa) && Value(mantissa) == n.MantissaValue()
  {
    MantissaParses(n);
    mantissa := Parse(n.Mantissa()).value;
  }

  lemma PartsParse(n: JsonNumber)
    requires n.WellFormed()
    ensures ParseScientific(PartsOf(n)).Some? <==> n.InRange()
    ensures n.InRange() ==> Value(ParseScientific(PartsOf(n)).value) == n.Magnitude()
  {
    var mantissa := MantissaParts(n);
    if n.exponent.Some? {
      ExponentParses(n.exponent.value);
      ScientificParses(PartsOf(n), mantissa, n.Exponent());
    }
  }

  lemma UnsignedParses(n: JsonNumber)
    requires n.WellFormed()
    ensures ParseUnsigned(n.Unsigned()).Some? <==> n.InRange()
    ensures n.InRange() ==> Value(ParseUnsigned(n.Unsigned()).value) == n.Magnitude()
  {
    UnsignedCuts(n);
    PartsParse(n);
  }

  /** A JSON number is read at its exact value when its exponent is in range, and refused otherwise. */
  lemma JsonNumberParses(n: JsonNumber)
    requires n.WellFormed()
    ensures ParseNumber(n.Written()).Some? <==> n.InRange()
    ensures n.InRange() ==> Value(ParseNumber(n.Written()).value) == n.NumberValue()
  {
    UnsignedParses(n);
    MantissaParses(n);
    LiteralHasNoMark(n.Mantissa());
    assert n.Unsigned()[0] == n.Mantissa()[0];
    SignIsCut(n.Unsigned());
  }

  /** Lower-casing changes nothing but upper-case letters. */
  lemma LowerKeeps(s: string, k: nat, part: string)
    requires k + |part| <= |s| && ToLower(s)[k..k + |part|] == part
    requires forall c | c in part :: !('a' <= c <= 'z')
    ensures s[k..k + |part|] == part
  {
    forall i | 0 <= i < |part|
      ensures s[k + i] == part[i]
    {
      assert part[i] in part && ToLower(s)[k + i] == ToLower(s)[k..k + |part|][i];
    }
  }

  lemma MantissaOf(text: string) returns (whole: string, fraction: Option<string>)
    requires IsLiteral(text)
    ensures JsonNumber(false, whole, fraction, None).WellFormed()
    ensures JsonNumber(false, whole, fraction, None).Mantissa() == text
  {
    var parts := CutAt(text, '.');
    whole, fraction := parts.before, if parts.found then Some(parts.after) else None;
  }

  lemma ExponentOf(mark: char, text: string) returns (x: JsonExponent)
    requires ParseInt(text).Some? && (mark == 'e' || mark == 'E')
    ensures x.WellFormed() && x.Written() == [mark] + text
    ensures forall c | c in text :: IsDigit(c) || c == '-' || c == '+'
  {
    if text[0] == '-' || text[0] == '+' {
      x := JsonExponent(mark, text[..1], text[1..]);
      assert text == text[..1] + text[1..];
    } else {
      x := JsonExponent(mark, "", text);
    }
  }

  /** The original text behind a lower-cased cut. */
  lemma CutBehindLower(digits: string, cut: Cut)
    requires cut == CutAt(ToLower(digits), 'e')
    requires forall c | c in cut.before :: IsDigit(c) || c == '.'
    requires forall c | c in cut.after :: IsDigit(c) || c == '-' || c == '+'
    ensures cut.found ==> |cut.before| < |digits| && LowerChar(digits[|cut.before|]) == 'e'
    ensures digits == if cut.found then cut.before + ([digits[|cut.before|]] + cut.after) else cut.before
  {
    hide CutAt, NatValue;
    var k := |cut.before|;
    assert ToLower(digits)[0..k] == cut.before;
    LowerKeeps(digits, 0, cut.before);
    if cut.found {
      assert ToLower(digits)[k] == 'e';
      assert ToLower(digits)[k + 1..k + 1 + |cut.after|] == cut.after;
      LowerKeeps(digits, k + 1, cut.after);
      assert digits == digits[0..k] + ([digits[k]] + digits[k + 1..k + 1 + |cut.after|]);
    } else {
      assert digits == digits[0..k];
    }
  }

  lemma UnsignedIsJson(digits: string) returns (n: JsonNumber)
    requires ParseUnsigned(digits).Some?
    ensures n.WellFormed() && !n.minus && n.Unsigned() == digits
  {
    var cut := CutAt(ToLower(digits), 'e');
    LiteralHasNoMark(cut.before);
    var whole, fraction := MantissaOf(cut.before);
    if cut.found {
      var _ := ExponentOf('e', cut.after);
      CutBehindLower(digits, cut);
      var x := ExponentOf(digits[|cut.before|], cut.after);
      n := JsonNumber(false, whole, fraction, Some(x));
    } else {
      CutBehindLower(digits, cut);
      n := JsonNumber(false, whole, fraction, None);
    }
  }

  /** Whatever ParseNumber accepts is the text of a JSON number. */
  lemma ParsedIsJson(text: string) returns (n: JsonNumber)
    requires ParseNumber(text).Some?
    ensures n.WellFormed() && n.Written() == text
  {
    var negative := text != "" && text[0] == '-';
    n := UnsignedIsJson(if negative then text[1..] else text);
    n := n.(minus := negative);
    assert negative ==> text == "-" + text[1..];
  }

  /** ParseNumber accepts exactly the JSON numbers whose exponent is in -64..64. */
  lemma ParseNumberAcceptsJson(text: string)
    ensures ParseNumber(text).Some? <==> exists n: JsonNumber :: n.WellFormed() && n.InRange() && n.Written() == text
  {
    if ParseNumber(text).Some? {
      var n := ParsedIsJson(text);
      JsonNumberParses(n);
    }
    forall n: JsonNumber | n.WellFormed() && n.InRange() && n.Written() == text
      ensures ParseNumber(text).Some?
    {
      JsonNumberParses(n);
    }
  }
}
