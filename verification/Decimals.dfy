/**
The exact base-10 numbers of internal/decimal: an integer over a power of ten.
Value is the number a Decimal stands for, as an exact rational.
*/
module Decimals {
  import opened Digits
  import opened Order

  datatype Decimal = Decimal(coefficient: int, scale: nat)

  const ZERO := Decimal(0, 0)

  /** The rational coefficient / 10^scale. */
  ghost function ValueAt(coefficient: int, scale: nat): real {
    if scale == 0 then coefficient as real else ValueAt(coefficient, scale - 1) / 10.0
  }

  ghost function Value(d: Decimal): real {
    ValueAt(d.coefficient, d.scale)
  }

  /** v x 10^e, by one factor of ten at a time. */
  ghost function TimesPow10(v: real, e: int): real
    decreases if e < 0 then -e else e
  {
    if e == 0 then v else if e > 0 then 10.0 * TimesPow10(v, e - 1) else TimesPow10(v, e + 1) / 10.0
  }

  /** The normal form: no fractional digit more than the value needs. */
  predicate IsNormal(d: Decimal) {
    d.scale > 0 ==> d.coefficient % 10 != 0
  }

  lemma ZeroIsZero()
    ensures Value(ZERO) == 0.0
  {
  }

  // ---- Rational arithmetic ------------------------------------------------

  lemma {:induction false} ValueIsLinear(a: int, b: int, scale: nat)
    ensures ValueAt(a + b, scale) == ValueAt(a, scale) + ValueAt(b, scale)
    ensures ValueAt(a - b, scale) == ValueAt(a, scale) - ValueAt(b, scale)
  {
    if scale > 0 {
      ValueIsLinear(a, b, scale - 1);
    }
  }

  lemma {:induction false} ValueTimesTen(c: int, scale: nat)
    ensures ValueAt(10 * c, scale) == 10.0 * ValueAt(c, scale)
  {
    if scale > 0 {
      ValueTimesTen(c, scale - 1);
    }
  }

  lemma TimesTen(c: int, p: int)
    ensures c * (10 * p) == 10 * (c * p)
  {
  }

  /** Multiplying a coefficient by 10^k multiplies its value by 10^k. */
  lemma {:induction false} ValueTimesPower(c: int, scale: nat, k: nat)
    ensures ValueAt(c * Pow10(k), scale) == TimesPow10(ValueAt(c, scale), k)
  {
    if k > 0 {
      TimesTen(c, Pow10(k - 1));
      ValueTimesTen(c * Pow10(k - 1), scale);
      ValueTimesPower(c, scale, k - 1);
    }
  }

  /** Multiplying a coefficient by 10^k and adding k to the scale keeps the value. */
  lemma {:induction false} RescaledValue(c: int, scale: nat, k: nat)
    ensures ValueAt(c * Pow10(k), scale + k) == ValueAt(c, scale)
  {
    if k > 0 {
      TimesTen(c, Pow10(k - 1));
      ValueTimesTen(c * Pow10(k - 1), scale + k - 1);
      RescaledValue(c, scale, k - 1);
    }
  }

  lemma {:induction false} ValueOfProduct(a: int, s: nat, b: int, t: nat)
    ensures ValueAt(a * b, s + t) == ValueAt(a, s) * ValueAt(b, t)
  {
    if s > 0 {
      ValueOfProduct(a, s - 1, b, t);
      DivideProduct(ValueAt(a, s - 1), ValueAt(b, t));
    } else if t > 0 {
      ValueOfProduct(a, 0, b, t - 1);
      DivideProduct(ValueAt(b, t - 1), ValueAt(a, 0));
    } else {
      assert (a * b) as real == a as real * b as real;
    }
  }

  lemma DivideProduct(u: real, v: real)
    ensures u * v / 10.0 == u / 10.0 * v
  {
  }

  lemma {:induction false} ValueOverPower(c: int, scale: nat, k: nat)
    ensures ValueAt(c, scale + k) == TimesPow10(ValueAt(c, scale), 0 - k)
  {
    if k > 0 {
      ValueOverPower(c, scale, k - 1);
    }
  }

  function IntSign(n: int): int {
    if n < 0 then -1 else if n == 0 then 0 else 1
  }

  ghost function RealSign(v: real): int {
    if v < 0.0 then -1 else if v == 0.0 then 0 else 1
  }

  lemma {:induction false} SignOfValue(c: int, scale: nat)
    ensures RealSign(ValueAt(c, scale)) == IntSign(c)
  {
    if scale > 0 {
      SignOfValue(c, scale - 1);
    }
  }

  // ---- Normal form --------------------------------------------------------

  function Normal(d: Decimal): (r: Decimal)
    ensures IsNormal(r) && Value(r) == Value(d) && r.scale <= d.scale
    decreases d.scale
  {
    if d.scale > 0 && d.coefficient % 10 == 0 then
      ValueTimesTen(d.coefficient / 10, d.scale);
      Normal(Decimal(d.coefficient / 10, d.scale - 1))
    else d
  }

  /** The loop of normal: strip trailing zeros while fractional digits are left. */
  method Normalise(d: Decimal) returns (r: Decimal)
    ensures r == Normal(d)
  {
    var coefficient, scale := d.coefficient, d.scale;
    while scale > 0
      invariant Normal(Decimal(coefficient, scale)) == Normal(d)
    {
      // The quotient is used only when the division is exact, where truncated
      // and Euclidean division agree.
      var quotient, remainder := coefficient / 10, coefficient % 10;
      if remainder != 0 {
        break;
      }
      coefficient, scale := quotient, scale - 1;
    }
    r := Decimal(coefficient, scale);
  }

  /** One value has one normal form. */
  lemma NormalIsUnique(a: Decimal, b: Decimal)
    requires IsNormal(a) && IsNormal(b) && Value(a) == Value(b)
    ensures a == b
  {
    if a.scale <= b.scale {
      FinerIsEqual(a, b);
    } else {
      FinerIsEqual(b, a);
    }
  }

  lemma FinerIsEqual(a: Decimal, b: Decimal)
    requires IsNormal(b) && Value(a) == Value(b) && a.scale <= b.scale
    ensures a == b
  {
    var k := b.scale - a.scale;
    var c := a.coefficient * Pow10(k);
    RescaledValue(a.coefficient, a.scale, k);
    ValueIsLinear(c, b.coefficient, b.scale);
    SignOfValue(c - b.coefficient, b.scale);
    if k > 0 {
      TimesTen(a.coefficient, Pow10(k - 1));
    }
  }

  lemma EqualValuesEqualNormals(a: Decimal, b: Decimal)
    ensures Value(a) == Value(b) <==> Normal(a) == Normal(b)
  {
    if Value(a) == Value(b) {
      NormalIsUnique(Normal(a), Normal(b));
    }
  }

  // ---- Operations ---------------------------------------------------------

  function FromInt(n: int): (r: Decimal)
    ensures IsNormal(r) && Value(r) == n as real
  {
    Decimal(n, 0)
  }

  /** d's coefficient at a scale no smaller than its own. */
  function Rescale(d: Decimal, scale: nat): (c: int)
    requires scale >= d.scale
    ensures ValueAt(c, scale) == Value(d)
  {
    RescaledValue(d.coefficient, d.scale, scale - d.scale);
    d.coefficient * Pow10(scale - d.scale)
  }

  function Add(d: Decimal, other: Decimal): (r: Decimal)
    ensures IsNormal(r) && Value(r) == Value(d) + Value(other)
  {
    var scale := Max(d.scale, other.scale);
    var a, b := Rescale(d, scale), Rescale(other, scale);
    ValueIsLinear(a, b, scale);
    Normal(Decimal(a + b, scale))
  }

  function Sub(d: Decimal, other: Decimal): (r: Decimal)
    ensures IsNormal(r) && Value(r) == Value(d) - Value(other)
  {
    var scale := Max(d.scale, other.scale);
    var a, b := Rescale(d, scale), Rescale(other, scale);
    ValueIsLinear(a, b, scale);
    Normal(Decimal(a - b, scale))
  }

  function Mul(d: Decimal, other: Decimal): (r: Decimal)
    ensures IsNormal(r) && Value(r) == Value(d) * Value(other)
    ensures r.scale <= d.scale + other.scale
  {
    ValueOfProduct(d.coefficient, d.scale, other.coefficient, other.scale);
    Normal(Decimal(d.coefficient * other.coefficient, d.scale + other.scale))
  }

  function DivPow10(d: Decimal, power: nat): (r: Decimal)
    ensures IsNormal(r) && Value(r) == TimesPow10(Value(d), 0 - power)
    ensures r.scale <= d.scale + power
  {
    ValueOverPower(d.coefficient, d.scale, power);
    Normal(Decimal(d.coefficient, d.scale + power))
  }

  /** d x 10^power. */
  function Shift(d: Decimal, power: int): (r: Decimal)
    ensures IsNormal(r) && Value(r) == TimesPow10(Value(d), power)
  {
    if power < 0 then DivPow10(d, -power) else
      ValueTimesPower(d.coefficient, d.scale, power);
      Normal(Decimal(d.coefficient * Pow10(power), d.scale))
  }

  /** The order of two exact values, as a sign. */
  function Cmp(d: Decimal, other: Decimal): (order: int)
    ensures order == RealSign(Value(d) - Value(other))
  {
    var scale := Max(d.scale, other.scale);
    var a, b := Rescale(d, scale), Rescale(other, scale);
    ValueIsLinear(a, b, scale);
    SignOfValue(a - b, scale);
    IntSign(a - b)
  }

  function Sign(d: Decimal): (sign: int)
    ensures sign == RealSign(Value(d))
  {
    SignOfValue(d.coefficient, d.scale);
    IntSign(d.coefficient)
  }

  /** The scale of the normal form. */
  function Scale(d: Decimal): nat {
    Normal(d).scale
  }

  /** No decimal of the same value has fewer fractional digits. */
  lemma ScaleIsLeast(d: Decimal, other: Decimal)
    requires Value(other) == Value(d)
    ensures Scale(d) <= other.scale
  {
    EqualValuesEqualNormals(d, other);
  }
}
