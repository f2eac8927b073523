/** Decimal digits: how numbers are printed, and what printed digits are worth. */
module Digits {
  import opened Wrappers

  predicate IsDigit(c: char) {
    '0' <= c <= '9'
  }

  predicate AllDigits(s: string) {
    forall i | 0 <= i < |s| :: IsDigit(s[i])
  }

  function DigitValue(c: char): (d: nat)
    requires IsDigit(c)
  {
    c as int - '0' as int
  }

  function DigitChar(d: nat): (c: char)
    requires d < 10
    ensures IsDigit(c) && DigitValue(c) == d
  {
    ('0' as int + d) as char
  }

  /** The shortest decimal text of n, as strconv and big.Int write it. */
  function NatText(n: nat): (s: string)
    ensures AllDigits(s) && s != ""
    ensures s[0] == '0' ==> n == 0 && s == "0"
  {
    if n < 10 then [DigitChar(n)] else NatText(n / 10) + [DigitChar(n % 10)]
  }

  function IntText(n: int): string {
    if n < 0 then "-" + NatText(-n) else NatText(n)
  }

  /** The number a run of digits denotes, leading zeros allowed. */
  function NatValue(s: string): nat
    requires AllDigits(s)
  {
    if s == "" then 0 else 10 * NatValue(s[..|s| - 1]) + DigitValue(s[|s| - 1])
  }

  function Pow10(e: nat): (p: nat)
    ensures p >= 1
  {
    if e == 0 then 1 else 10 * Pow10(e - 1)
  }

  lemma {:induction false} TextHasValue(n: nat)
    ensures NatValue(NatText(n)) == n
  {
    if n >= 10 {
      TextHasValue(n / 10);
      assert NatText(n)[..|NatText(n)| - 1] == NatText(n / 10);
    } else {
      assert NatText(n)[..0] == "";
    }
  }

  /** Text without a leading zero is the text of its value. */
  lemma {:induction false} ValueHasText(s: string)
    requires AllDigits(s) && s != "" && (s[0] == '0' ==> s == "0")
    ensures NatText(NatValue(s)) == s
    ensures |s| > 1 ==> NatValue(s) >= 10
  {
    var init, last := s[..|s| - 1], s[|s| - 1];
    if |s| > 1 {
      ValueHasText(init);
      NonzeroLead(init);
      assert NatValue(s) / 10 == NatValue(init) && NatValue(s) % 10 == DigitValue(last);
      assert s == init + [last];
    } else {
      assert init == "";
    }
  }

  lemma {:induction false} NonzeroLead(s: string)
    requires AllDigits(s) && s != "" && s[0] != '0'
    ensures NatValue(s) > 0
  {
    if |s| > 1 {
      NonzeroLead(s[..|s| - 1]);
    } else {
      assert s[..0] == "";
    }
  }

  lemma {:induction false} ValueOfConcat(a: string, b: string)
    requires AllDigits(a) && AllDigits(b)
    ensures AllDigits(a + b)
    ensures NatValue(a + b) == NatValue(a) * Pow10(|b|) + NatValue(b)
  {
    if b == "" {
      assert a + b == a;
    } else {
      var init, last := b[..|b| - 1], b[|b| - 1];
      ValueOfConcat(a, init);
      assert (a + b)[..|a + b| - 1] == a + init;
      ValueShifts(NatValue(a), Pow10(|init|), NatValue(init), DigitValue(last));
    }
  }

  lemma ValueShifts(a: int, p: int, b: int, d: int)
    ensures 10 * (a * p + b) + d == a * (10 * p) + (10 * b + d)
  {
  }

  lemma {:induction false} ValueBelowPow10(s: string)
    requires AllDigits(s)
    ensures NatValue(s) < Pow10(|s|)
  {
    if s != "" {
      ValueBelowPow10(s[..|s| - 1]);
    }
  }

  function Zeros(n: nat): (s: string)
    ensures |s| == n && AllDigits(s)
    ensures NatValue(s) == 0
    ensures forall i | 0 <= i < n :: s[i] == '0'
  {
    if n == 0 then "" else
      var s := Zeros(n - 1) + "0";
      assert s[..n - 1] == Zeros(n - 1);
      s
  }

  const INT64_MAX: int := 0x7fff_ffff_ffff_ffff

  /** strconv.Atoi and strconv.ParseInt in base 10: an optional sign, then digits, inside int64. */
  function ParseInt(s: string): (r: Option<int>)
  {
    var negative := s != "" && s[0] == '-';
    var digits := if s != "" && (s[0] == '-' || s[0] == '+') then s[1..] else s;
    if digits == "" || !AllDigits(digits) then None else
      var magnitude: int := NatValue(digits);
      var value := if negative then -magnitude else magnitude;
      if -INT64_MAX - 1 <= value <= INT64_MAX then Some(value) else None
  }

  /** Reading back a printed int64 gives the number. */
  lemma ParseIntOfText(n: int)
    ensures ParseInt(IntText(n)) == if -INT64_MAX - 1 <= n <= INT64_MAX then Some(n) else None
  {
    var text := IntText(n);
    if n < 0 {
      TextHasValue(-n);
      assert text[1..] == NatText(-n);
    } else {
      TextHasValue(n);
      assert IsDigit(text[0]);
    }
  }
}
