/**
Whole numbers read from the bits of a binary64 (integralDouble in
internal/otlp/protobuf.go), held to section 3.4 of IEEE 754-2019. A mask of the low
k bits is a remainder by 2^k, and a shift is a product or quotient by a power of two.
*/
module Doubles {
  import opened Wrappers
  import opened Digits
  import opened Wire
  import OtlpCounts

  type uint64 = x: int | 0 <= x < 0x1_0000_0000_0000_0000

  const FRACTION_BITS := 52
  const EXPONENT_BIAS := 1023
  const EXPONENT_VALUES := 2048
  const MAX_EXPONENT := 62
  const FRACTION_VALUES: int := 0x10_0000_0000_0000

  function Pow2(e: nat): (p: nat)
    ensures p >= 1
  {
    if e == 0 then 1 else 2 * Pow2(e - 1)
  }

  function FractionOf(bits: uint64): (f: nat)
    ensures f < FRACTION_VALUES
  {
    bits % FRACTION_VALUES
  }

  function BiasedOf(bits: uint64): (b: nat)
    ensures b < EXPONENT_VALUES
  {
    bits / FRACTION_VALUES % EXPONENT_VALUES
  }

  predicate IsNegative(bits: uint64) {
    bits / 0x8000_0000_0000_0000 != 0
  }

  function Printed(bits: uint64, whole: nat): string {
    if IsNegative(bits) then "-" + NatText(whole) else NatText(whole)
  }

  function IntegralDouble(bits: uint64): Option<string> {
    var fraction, biased := FractionOf(bits), BiasedOf(bits);
    if biased == 0 && fraction == 0 then Some("0") else
      var exponent := biased - EXPONENT_BIAS;
      if exponent < 0 || exponent > MAX_EXPONENT then None else
        var mantissa := fraction + FRACTION_VALUES;
        if exponent >= FRACTION_BITS then Some(Printed(bits, mantissa * Pow2(exponent - FRACTION_BITS))) else
          var shift := FRACTION_BITS - exponent;
          if mantissa % Pow2(shift) != 0 then None else Some(Printed(bits, mantissa / Pow2(shift)))
  }

  // ---- What the bits mean -------------------------------------------------

  /** v x 2^e, by one factor of two at a time. */
  ghost function TimesPow2(v: real, e: int): real
    decreases if e < 0 then -e else e
  {
    if e == 0 then v else if e > 0 then 2.0 * TimesPow2(v, e - 1) else TimesPow2(v, e + 1) / 2.0
  }

  /** The magnitude of a finite binary64: subnormal without the implicit bit, normal with it. */
  ghost function Magnitude(bits: uint64): real {
    if BiasedOf(bits) == 0 then TimesPow2(FractionOf(bits) as real, -1074)
    else TimesPow2((FRACTION_VALUES + FractionOf(bits)) as real, BiasedOf(bits) - 1075)
  }

  /** The number a binary64 stands for; infinities and NaNs stand for none. */
  ghost function DoubleValue(bits: uint64): Option<real> {
    if BiasedOf(bits) == EXPONENT_VALUES - 1 then None
    else if IsNegative(bits) then Some(0.0 - Magnitude(bits)) else Some(Magnitude(bits))
  }

  ghost predicate IsWhole(v: real) {
    v.Floor as real == v
  }

  const LIMIT: int := 0x8000_0000_0000_0000

  // ---- Powers of two ------------------------------------------------------

  lemma {:induction false} ScaledIsLinear(a: real, b: real, e: int)
    ensures TimesPow2(a + b, e) == TimesPow2(a, e) + TimesPow2(b, e)
    decreases if e < 0 then -e else e
  {
    if e > 0 {
      ScaledIsLinear(a, b, e - 1);
    } else if e < 0 {
      ScaledIsLinear(a, b, e + 1);
    }
  }

  lemma {:induction false} ScaledSign(a: real, e: int)
    ensures a > 0.0 ==> TimesPow2(a, e) > 0.0
    ensures a >= 0.0 ==> TimesPow2(a, e) >= 0.0
    decreases if e < 0 then -e else e
  {
    if e > 0 {
      ScaledSign(a, e - 1);
    } else if e < 0 {
      ScaledSign(a, e + 1);
    }
  }

  lemma ScaledMonotone(a: real, b: real, e: int)
    requires a <= b
    ensures TimesPow2(a, e) <= TimesPow2(b, e)
    ensures a < b ==> TimesPow2(a, e) < TimesPow2(b, e)
  {
    ScaledIsLinear(a, b - a, e);
    ScaledSign(b - a, e);
  }

  lemma DoubledInside(c: int, p: int)
    ensures c * (2 * p) == 2 * (c * p)
  {
  }

  lemma {:induction false} ScaledUp(c: int, e: nat)
    ensures TimesPow2(c as real, e) == (c * Pow2(e)) as real
  {
    if e > 0 {
      ScaledUp(c, e - 1);
      DoubledInside(c, Pow2(e - 1));
    }
  }

  lemma {:induction false} ScaledDoubles(v: real, e: int)
    requires e <= 0
    ensures TimesPow2(2.0 * v, e) == 2.0 * TimesPow2(v, e)
    decreases -e
  {
    if e < 0 {
      ScaledDoubles(v, e + 1);
    }
  }

  lemma {:induction false} ScaledDown(c: int, e: nat)
    ensures TimesPow2((c * Pow2(e)) as real, 0 - e) == c as real
  {
    if e > 0 {
      DoubledInside(c, Pow2(e - 1));
      ScaledDoubles((c * Pow2(e - 1)) as real, 1 - e);
      ScaledDown(c, e - 1);
    }
  }

  lemma {:induction false} Pow2Monotone(a: nat, b: nat)
    requires a <= b
    ensures Pow2(a) <= Pow2(b)
  {
    if a < b {
      Pow2Monotone(a, b - 1);
    }
  }

  lemma {:induction false} Pow2Adds(a: nat, b: nat)
    ensures Pow2(a + b) == Pow2(a) * Pow2(b)
  {
    if a > 0 {
      Pow2Adds(a - 1, b);
      assert Pow2(a - 1 + b) == Pow2(a - 1) * Pow2(b);
    }
  }

  lemma FractionIsPow2()
    ensures Pow2(52) == FRACTION_VALUES && Pow2(53) == 2 * FRACTION_VALUES && Pow2(11) == 2048
  {
    assert Pow2(4) == 16;
    assert Pow2(8) == 256;
    assert Pow2(12) == 4096;
    assert Pow2(13) == 8192;
    Pow2Adds(13, 13);
    Pow2Adds(26, 26);
  }

  // ---- The cases ----------------------------------------------------------

  /** What is shifted out is less than one, and zero only when its digits are. */
  lemma RemainderScaled(r: nat, shift: nat)
    requires r < Pow2(shift)
    ensures 0.0 <= TimesPow2(r as real, 0 - shift) < 1.0
    ensures TimesPow2(r as real, 0 - shift) == 0.0 <==> r == 0
  {
    hide TimesPow2, Pow2;
    ScaledDown(1, shift);
    ScaledSign(r as real, 0 - shift);
    ScaledMonotone(r as real, Pow2(shift) as real, 0 - shift);
    ScaledIsLinear(0.0, 0.0, 0 - shift);
  }

  lemma Quotient(m: nat, p: nat)
    requires p > 0
    ensures m == m / p * p + m % p && 0 <= m % p < p
  {
  }

  lemma WholePart(v: real, q: int, x: real)
    requires v == q as real + x && 0.0 <= x < 1.0
    ensures v.Floor == q && (IsWhole(v) <==> x == 0.0)
  {
  }

  /** A magnitude divided by a power of two is whole exactly when nothing is shifted out. */
  lemma ShiftedOut(mantissa: nat, shift: nat)
    ensures var v := TimesPow2(mantissa as real, 0 - shift);
            && (IsWhole(v) <==> mantissa % Pow2(shift) == 0)
            && v.Floor == mantissa / Pow2(shift)
  {
    hide TimesPow2, Pow2, IsWhole;
    var q, r := mantissa / Pow2(shift), mantissa % Pow2(shift);
    Quotient(mantissa, Pow2(shift));
    ScaledIsLinear((q * Pow2(shift)) as real, r as real, 0 - shift);
    ScaledDown(q, shift);
    RemainderScaled(r, shift);
    WholePart(TimesPow2(mantissa as real, 0 - shift), q, TimesPow2(r as real, 0 - shift));
  }

  /** A binary64 below one in magnitude and not zero is not whole. */
  lemma SmallIsNotWhole(mantissa: nat, shift: nat)
    requires 0 < mantissa < Pow2(shift)
    ensures 0.0 < TimesPow2(mantissa as real, 0 - shift) < 1.0
  {
    ScaledSign(mantissa as real, 0 - shift);
    ScaledDown(1, shift);
    ScaledMonotone(mantissa as real, Pow2(shift) as real, 0 - shift);
  }

  lemma SmallMagnitude(bits: uint64)
    requires BiasedOf(bits) < EXPONENT_BIAS && (BiasedOf(bits) != 0 || FractionOf(bits) != 0)
    ensures 0.0 < Magnitude(bits) < 1.0
  {
    hide TimesPow2, Pow2;
    FractionIsPow2();
    var biased := BiasedOf(bits);
    if biased == 0 {
      Pow2Monotone(52, 1074);
      SmallIsNotWhole(FractionOf(bits), 1074);
    } else {
      Pow2Monotone(53, 1075 - biased);
      SmallIsNotWhole(FRACTION_VALUES + FractionOf(bits), 1075 - biased);
    }
  }

  lemma LargeMagnitude(bits: uint64)
    requires EXPONENT_BIAS + MAX_EXPONENT < BiasedOf(bits)
    ensures Magnitude(bits) >= LIMIT as real
  {
    hide TimesPow2, Pow2;
    var e := BiasedOf(bits) - 1075;
    FractionIsPow2();
    Pow2Monotone(11, e);
    ScaledUp(FRACTION_VALUES + FractionOf(bits), e);
    AtLeast(FRACTION_VALUES + FractionOf(bits), Pow2(e));
  }

  lemma ProductGrows(m: int, p: int, q: int)
    requires m >= 0 && p <= q
    ensures m * p <= m * q
  {
    assert m * q == m * p + m * (q - p);
  }

  lemma AtLeast(m: int, p: int)
    requires m >= FRACTION_VALUES && p >= 2048
    ensures m * p >= LIMIT
  {
    ProductGrows(m, 2048, p);
  }

  lemma BelowLimit(m: int, p: int)
    requires 0 <= m < 2 * FRACTION_VALUES && 0 <= p <= 1024
    ensures m * p < LIMIT
  {
    ProductGrows(m, p, 1024);
  }

  /** In the range of exponents a 63-bit whole number has, the value is read off the mantissa. */
  lemma MiddleMagnitude(bits: uint64)
    requires EXPONENT_BIAS <= BiasedOf(bits) <= EXPONENT_BIAS + MAX_EXPONENT
    ensures 1.0 <= Magnitude(bits) < LIMIT as real
    ensures IntegralDouble(bits) ==
            if IsWhole(Magnitude(bits)) then Some(Printed(bits, Magnitude(bits).Floor)) else None
  {
    hide TimesPow2, Pow2, Printed, IsWhole;
    var mantissa := FRACTION_VALUES + FractionOf(bits);
    var e := BiasedOf(bits) - 1075;
    FractionIsPow2();
    if e >= 0 {
      ScaledUp(mantissa, e);
      Pow2Monotone(e, 10);
      PowerOfTen();
      BelowLimit(mantissa, Pow2(e));
      ProductGrows(mantissa, 1, Pow2(e));
      WholePart((mantissa * Pow2(e)) as real, mantissa * Pow2(e), 0.0);
    } else {
      ShiftedOut(mantissa, -e);
      Pow2Monotone(-e, 52);
      ScaledDown(1, -e);
      ScaledMonotone(Pow2(-e) as real, mantissa as real, e);
      Shrinks(mantissa as real, -e);
    }
  }

  lemma PowerOfTen()
    ensures Pow2(10) == 1024
  {
    assert Pow2(5) == 32;
  }

  lemma {:induction false} Shrinks(v: real, e: nat)
    requires v >= 0.0
    ensures TimesPow2(v, 0 - e) <= v
  {
    if e > 0 {
      Shrinks(v, e - 1);
      ScaledSign(v, 1 - e);
    }
  }

  /**
  For every bit pattern, integralDouble gives text exactly when the binary64 is a
  whole number of magnitude below 2^63, and the text is that number.
  */
  lemma IntegralDoubleReadsWholeNumbers(bits: uint64)
    ensures match DoubleValue(bits)
            case None => IntegralDouble(bits) == None
            case Some(v) =>
              IntegralDouble(bits) ==
              if IsWhole(v) && -LIMIT as real < v < LIMIT as real then Some(IntText(v.Floor)) else None
  {
    hide TimesPow2, Pow2, Magnitude;
    var biased := BiasedOf(bits);
    if biased == 0 && FractionOf(bits) == 0 {
      ZeroMagnitude(bits);
    } else if biased < EXPONENT_BIAS {
      SmallMagnitude(bits);
      NegatedWhole(Magnitude(bits));
    } else if biased <= EXPONENT_BIAS + MAX_EXPONENT {
      MiddleMagnitude(bits);
      NegatedWhole(Magnitude(bits));
    } else {
      LargeMagnitude(bits);
    }
  }

  lemma ZeroMagnitude(bits: uint64)
    requires BiasedOf(bits) == 0 && FractionOf(bits) == 0
    ensures Magnitude(bits) == 0.0
  {
    ScaledIsLinear(0.0, 0.0, -1074);
  }

  lemma NegatedWhole(v: real)
    ensures IsWhole(0.0 - v) <==> IsWhole(v)
    ensures IsWhole(v) ==> (0.0 - v).Floor == -v.Floor
  {
    if IsWhole(v) {
      assert (0.0 - v) == (-v.Floor) as real;
    }
    if IsWhole(0.0 - v) {
      assert v == (-(0.0 - v).Floor) as real;
    }
  }

  // ---- A double as a count ------------------------------------------------

  /** What the ingest edge makes of a double: its text, read as a count. */
  function CountOfDouble(bits: uint64): Option<int> {
    match IntegralDouble(bits)
    case None => None
    case Some(text) => OtlpCounts.ParseCount(text)
  }

  /** A double is a count exactly when it is a whole number in 0..10^12, at its exact value. */
  lemma DoubleIsCount(bits: uint64, n: int)
    ensures CountOfDouble(bits) == Some(n) <==> 0 <= n <= OtlpCounts.MAX_TOKENS && DoubleValue(bits) == Some(n as real)
  {
    hide IntegralDouble, DoubleValue, OtlpCounts.ParseCount;
    IntegralDoubleReadsWholeNumbers(bits);
    match DoubleValue(bits) {
      case None =>
      case Some(v) =>
        OtlpCounts.ParseCountReads(v.Floor, 0);
    }
  }

  // ---- An attribute's value on the wire -----------------------------------

  const ANY_STRING := 1
  const ANY_BOOL := 2
  const ANY_INT := 3
  const ANY_DOUBLE := 4

  datatype Scalar = Scalar(text: string, known: bool)

  /** The bytes of a Go string, one character a byte. */
  function TextOf(data: seq<byte>): string {
    seq(|data|, i requires 0 <= i < |data| => data[i] as char)
  }

  /** A uint64 reread as two's complement. */
  function AsInt64(bits: nat): int {
    if bits < LIMIT then bits else bits - 2 * LIMIT
  }

  /** protoScalar's callback. It refuses no field. */
  function ReadScalar(scalar: Scalar, f: Field): (Scalar, Option<()>) {
    if f.number == ANY_STRING && f.wire == BYTES then (Scalar(TextOf(f.data), true), None)
    else if f.number == ANY_BOOL && f.wire == VARINT then (Scalar(if f.bits != 0 then "true" else "false", true), None)
    else if f.number == ANY_INT && f.wire == VARINT then (Scalar(IntText(AsInt64(f.bits)), true), None)
    else if f.number == ANY_DOUBLE && f.wire == FIXED64 && f.bits < 2 * LIMIT then
      (match IntegralDouble(f.bits) case Some(text) => Scalar(text, true) case None => Scalar("", false), None)
    else (scalar, None)
  }

  /** protoScalar: the text of an AnyValue, or None when the message is malformed. */
  function ProtoScalar(message: seq<byte>): Option<Scalar> {
    var outcome := Walked(message, Scalar("", false), ReadScalar);
    if outcome.stop.None? then Some(outcome.state) else None
  }

  /** The count an attribute's value states: none when it is no scalar, or its text is no count. */
  function CountOfValue(message: seq<byte>): Option<int> {
    var scalar := ProtoScalar(message);
    if scalar.None? || !scalar.value.known then None else OtlpCounts.ParseCount(scalar.value.text)
  }

  lemma {:induction false} BytesAreBelow(bytes: seq<byte>)
    ensures LittleEndian(bytes) < Pow256(|bytes|)
  {
    if bytes != [] {
      BytesAreBelow(bytes[1..]);
    }
  }

  lemma EightBytes()
    ensures Pow256(8) == 2 * LIMIT
  {
    assert Pow256(4) == 0x1_0000_0000;
    assert Pow256(6) == 0x1_0000 * Pow256(4);
  }

  /** Every fixed64 the reader hands on is a 64-bit pattern. */
  lemma {:induction false} Fixed64Fits(message: seq<byte>, i: nat)
    requires i < |Decode(message).fields| && Decode(message).fields[i].wire == FIXED64
    ensures Decode(message).fields[i].bits < 2 * LIMIT
    decreases |message|
  {
    hide LittleEndian, Pow256, Uvarint;
    if i == 0 {
      forall tail: seq<byte> | |tail| >= 8
        ensures LittleEndian(tail[..8]) < 2 * LIMIT
      {
        BytesAreBelow(tail[..8]);
        EightBytes();
      }
    } else {
      Fixed64Fits(message[ReadField(message).value.size..], i - 1);
    }
  }

  /** So a double among a message's fields is always read: the bound in ReadScalar shuts none out. */
  lemma DoublesAreRead(message: seq<byte>, i: nat, scalar: Scalar)
    requires i < |Decode(message).fields|
    requires Decode(message).fields[i].number == ANY_DOUBLE && Decode(message).fields[i].wire == FIXED64
    ensures var bits := Decode(message).fields[i].bits;
            && bits < 2 * LIMIT
            && ReadScalar(scalar, Decode(message).fields[i]).0 ==
               match IntegralDouble(bits) case Some(text) => Scalar(text, true) case None => Scalar("", false)
  {
    hide Decode, IntegralDouble;
    Fixed64Fits(message, i);
  }

  lemma ScalarNeverRefuses(scalar: Scalar, f: Field)
    ensures ReadScalar(scalar, f).1 == None
  {
  }

  lemma OneFieldScalar(f: WireField)
    requires f.Encodable()
    ensures ProtoScalar(f.Encoded()) == Some(ReadScalar(Scalar("", false), f.Delivered()).0)
  {
    hide Decode, ReadScalar, WireField.Encoded, WireField.Delivered;
    var start := Scalar("", false);
    OneField(f);
    var fields := [f.Delivered()];
    assert fields[1..] == [];
    ScalarNeverRefuses(start, f.Delivered());
    assert CallEach(fields[1..], ReadScalar(start, fields[0]).0, ReadScalar) ==
        Outcome(ReadScalar(start, fields[0]).0, None);
    assert CallEach(fields, start, ReadScalar) == Outcome(ReadScalar(start, f.Delivered()).0, None);
  }

  /**
  What an AnyValue of one field reads as: a string as its bytes, a bool as its word, an int64 in
  two's complement as its digits, and a field of any other number or type as nothing.
  */
  lemma ScalarReads(f: WireField)
    requires f.Encodable()
    ensures f.BytesField? && f.number == ANY_STRING ==>
        exists text: string :: ProtoScalar(f.Encoded()) == Some(Scalar(text, true)) && IsText(text, f.content)
    ensures f.VarintField? && f.number == ANY_BOOL ==>
        ProtoScalar(f.Encoded()) == Some(Scalar(if f.value == 0 then "false" else "true", true))
    ensures f.VarintField? && f.number == ANY_INT ==>
        exists n: int :: ProtoScalar(f.Encoded()) == Some(Scalar(IntText(n), true))
                         && -LIMIT <= n < LIMIT && (n - f.value) % (2 * LIMIT) == 0
    ensures !IsScalar(f) ==> ProtoScalar(f.Encoded()) == Some(Scalar("", false))
  {
    hide ProtoScalar, IntegralDouble, WireField.Encoded, IntText;
    OneFieldScalar(f);
    if f.BytesField? {
      assert IsText(TextOf(f.content), f.content);
    }
    if f.VarintField? {
      assert (AsInt64(f.value) - f.value) % (2 * LIMIT) == 0;
    }
  }

  /** The text holds the bytes, one character each. */
  ghost predicate IsText(text: string, data: seq<byte>) {
    |text| == |data| && forall i | 0 <= i < |data| :: text[i] as int == data[i]
  }

  /** A field that carries one of the four scalars, by its number and its type. */
  predicate IsScalar(f: WireField) {
    match f
    case BytesField(number, _) => number == 1
    case VarintField(number, _) => number == 2 || number == 3
    case Fixed64Field(number, _) => number == 4
    case Fixed32Field(_, _) => false
  }

  lemma {:induction false} CallsToLast(fields: seq<Field>, last: Field, scalar: Scalar)
    ensures CallEach(fields, scalar, ReadScalar).stop.None?
    ensures CallEach(fields + [last], scalar, ReadScalar) ==
            Outcome(ReadScalar(CallEach(fields, scalar, ReadScalar).state, last).0, None)
  {
    hide ReadScalar;
    if fields == [] {
      ScalarNeverRefuses(scalar, last);
      assert [last][1..] == [];
      assert [] + [last] == [last];
    } else {
      ScalarNeverRefuses(scalar, fields[0]);
      CallsToLast(fields[1..], last, ReadScalar(scalar, fields[0]).0);
      assert (fields + [last])[1..] == fields[1..] + [last];
    }
  }

  lemma {:induction false} DeliveredAppends(fields: seq<WireField>, last: WireField)
    ensures Delivered(fields + [last]) == Delivered(fields) + [last.Delivered()]
  {
    hide WireField.Delivered;
    if fields == [] {
      assert [last][1..] == [];
      assert [] + [last] == [last];
    } else {
      DeliveredAppends(fields[1..], last);
      assert (fields + [last])[1..] == fields[1..] + [last];
    }
  }

  lemma ScalarReplaces(f: WireField, scalar: Scalar)
    requires f.Encodable()
    ensures ReadScalar(scalar, f.Delivered()).0 ==
            if IsScalar(f) then ReadScalar(Scalar("", false), f.Delivered()).0 else scalar
  {
    hide IntegralDouble, IntText;
  }

  /** Of several fields the last scalar is the value, whatever stands around it. */
  lemma LastScalarWins(fields: seq<WireField>, last: WireField)
    requires last.Encodable() && forall i | 0 <= i < |fields| :: fields[i].Encodable()
    ensures ProtoScalar(Encode(fields + [last])) ==
            if IsScalar(last) then ProtoScalar(last.Encoded()) else ProtoScalar(Encode(fields))
  {
    hide ReadScalar, Decode, Encode, WireField.Encoded, WireField.Delivered, CallEach, Walked, IsScalar;
    var start := Scalar("", false);
    WalkUndoesEncoding(fields, start, ReadScalar);
    WalkUndoesEncoding(fields + [last], start, ReadScalar);
    DeliveredAppends(fields, last);
    CallsToLast(Delivered(fields), last.Delivered(), start);
    ScalarReplaces(last, CallEach(Delivered(fields), start, ReadScalar).state);
    OneFieldScalar(last);
  }

  /** An AnyValue that carries a double states a count exactly when the double is a whole number in 0..10^12. */
  lemma EncodedDoubleIsCount(bits: uint64, n: int)
    ensures CountOfValue(Fixed64Field(ANY_DOUBLE, bits).Encoded()) == Some(n) <==>
            0 <= n <= OtlpCounts.MAX_TOKENS && DoubleValue(bits) == Some(n as real)
  {
    hide ProtoScalar, WireField.Encoded, IntegralDouble, DoubleValue, OtlpCounts.ParseCount;
    OneFieldScalar(Fixed64Field(ANY_DOUBLE, bits));
    DoubleIsCount(bits, n);
  }

  /** An AnyValue that carries an int64, in two's complement, states a count exactly when it is in 0..10^12. */
  lemma EncodedIntIsCount(n: int)
    requires -LIMIT <= n < LIMIT
    ensures CountOfValue(VarintField(ANY_INT, if n < 0 then n + 2 * LIMIT else n).Encoded()) ==
            if 0 <= n <= OtlpCounts.MAX_TOKENS then Some(n) else None
  {
    hide ProtoScalar, WireField.Encoded, OtlpCounts.ParseCount;
    OneFieldScalar(VarintField(ANY_INT, if n < 0 then n + 2 * LIMIT else n));
    OtlpCounts.ParseCountReads(n, 0);
  }
}
