/** The row writer of internal/focus and the contract's arithmetic check. */
module FocusRow {
  import opened Wrappers
  import opened Decimals
  import opened Focus

  const TOKENS_PER_MILLION := 6

  const MILLION_TOKENS := "1000000 Tokens"
  const INFORMATIONAL_UNIT := "Informational Tokens"

  datatype Price = Price(pricingUnit: string, listUnitPrice: Decimal)

  /** One request's one token class. No price means an informational class. */
  datatype Charge = Charge(class_: TokenClass, tokens: int, price: Option<Price>, basis: CostBasis)

  /** The amounts of a row. */
  datatype Row = Row(
    consumedQuantity: Decimal, pricingQuantity: Decimal, pricingUnit: string, skuMeter: TokenClass,
    listUnitPrice: Decimal, listCost: Decimal, contractedUnitPrice: Decimal, contractedCost: Decimal,
    effectiveCost: Decimal, billedCost: Decimal)

  function NewRow(c: Charge): Row {
    var consumed := FromInt(c.tokens);
    match c.price
    case None => Row(consumed, consumed, INFORMATIONAL_UNIT, c.class_, ZERO, ZERO, ZERO, ZERO, ZERO, ZERO)
    case Some(price) =>
      var quantity := DivPow10(consumed, TOKENS_PER_MILLION);
      var cost := Mul(price.listUnitPrice, quantity);
      Row(consumed, quantity, price.pricingUnit, c.class_, price.listUnitPrice, cost,
          price.listUnitPrice, cost, if c.basis == Measured then cost else ZERO, ZERO)
  }

  predicate Fits(amount: Decimal) {
    Scale(amount) <= MAX_SCALE && Decimals.Sign(amount) >= 0
  }

  /** Row.Check: every amount fits, nothing is billed yet, and each cost is its price times the quantity. */
  predicate Check(r: Row) {
    && Fits(r.consumedQuantity) && Fits(r.contractedCost) && Fits(r.contractedUnitPrice) && Fits(r.effectiveCost)
    && Fits(r.listCost) && Fits(r.listUnitPrice) && Fits(r.pricingQuantity)
    && Decimals.Sign(r.billedCost) == 0
    && Cmp(r.listCost, Mul(r.listUnitPrice, r.pricingQuantity)) == 0
    && Cmp(r.contractedCost, Mul(r.contractedUnitPrice, r.pricingQuantity)) == 0
  }

  /** What the check means of the exact values: nothing negative, nothing billed, and costs that recompute. */
  lemma CheckIsExact(r: Row)
    ensures Check(r) <==>
            && (forall amount | amount in {r.consumedQuantity, r.contractedCost, r.contractedUnitPrice, r.effectiveCost,
                                           r.listCost, r.listUnitPrice, r.pricingQuantity} ::
                  Value(amount) >= 0.0 && Scale(amount) <= MAX_SCALE)
            && Value(r.billedCost) == 0.0
            && Value(r.listCost) == Value(r.listUnitPrice) * Value(r.pricingQuantity)
            && Value(r.contractedCost) == Value(r.contractedUnitPrice) * Value(r.pricingQuantity)
  {
    hide Value, Scale, Mul, Cmp, Decimals.Sign;
    assert forall amount :: Fits(amount) <==> Value(amount) >= 0.0 && Scale(amount) <= MAX_SCALE;
  }

  lemma ZeroFits()
    ensures Fits(ZERO) && Value(ZERO) == 0.0
  {
  }

  /** A whole count of millionths. */
  lemma QuantityOf(tokens: int)
    ensures var quantity := DivPow10(FromInt(tokens), TOKENS_PER_MILLION);
            Value(quantity) * 1000000.0 == tokens as real && quantity.scale <= 6
  {
    var v := tokens as real;
    assert TimesPow10(v, -3) == v / 10.0 / 10.0 / 10.0;
    assert TimesPow10(v, -6) == TimesPow10(v, -5) / 10.0;
    assert TimesPow10(v, -5) == TimesPow10(v, -4) / 10.0;
    assert TimesPow10(v, -4) == TimesPow10(v, -3) / 10.0;
  }

  lemma NormalFits(d: Decimal)
    requires IsNormal(d)
    ensures Normal(d) == d && Scale(d) == d.scale
  {
    NormalIsUnique(Normal(d), d);
  }

  lemma SignOfProduct(a: real, b: real)
    requires a >= 0.0 && b >= 0.0
    ensures a * b >= 0.0
  {
  }

  lemma PricedFits(price: Decimal, tokens: nat)
    requires Decimals.Sign(price) >= 0
    ensures var quantity := DivPow10(FromInt(tokens), TOKENS_PER_MILLION);
            && Fits(FromInt(tokens)) && Fits(quantity)
            && Decimals.Sign(Mul(price, quantity)) >= 0
            && Scale(Mul(price, quantity)) <= price.scale + 6
  {
    hide ValueAt, TimesPow10, Normal, Value;
    var quantity := DivPow10(FromInt(tokens), TOKENS_PER_MILLION);
    QuantityOf(tokens);
    NormalFits(FromInt(tokens));
    NormalFits(quantity);
    NormalFits(Mul(price, quantity));
    SignOfProduct(Value(price), Value(quantity));
  }

  /**
  A charge of a count of zero or more at a price of zero or more makes a valid row
  exactly when the price and the cost keep to the contract's 12 fractional digits.
  */
  lemma NewRowChecksExactly(c: Charge)
    requires c.tokens >= 0 && (c.price.Some? ==> Decimals.Sign(c.price.value.listUnitPrice) >= 0)
    ensures Check(NewRow(c)) <==>
            (c.price.Some? ==>
               Scale(c.price.value.listUnitPrice) <= MAX_SCALE && Scale(NewRow(c).listCost) <= MAX_SCALE)
  {
    hide ValueAt, Normal, Value, Scale;
    ZeroFits();
    match c.price {
      case None =>
        NormalFits(FromInt(c.tokens));
        FitsCount(c.tokens);
        assert Value(Mul(ZERO, FromInt(c.tokens))) == 0.0;
      case Some(price) =>
        PricedFits(price.listUnitPrice, c.tokens);
    }
  }

  lemma MillionsOf(p: real, q: real, tokens: real)
    requires q * 1000000.0 == tokens
    ensures p * q * 1000000.0 == p * tokens
  {
  }

  /**
  A priced row costs its unit price for every million tokens, at list and as contracted;
  it is effective only when the charge was measured, and never billed yet. An
  informational row counts single tokens, of which none has a price.
  */
  lemma NewRowCosts(c: Charge)
    ensures var row := NewRow(c);
            && Value(row.listCost) * 1000000.0 ==
               (if c.price.Some? then Value(c.price.value.listUnitPrice) * c.tokens as real else 0.0)
            && Value(row.contractedCost) == Value(row.listCost)
            && Value(row.effectiveCost) == (if c.basis == Measured then Value(row.listCost) else 0.0)
            && Value(row.billedCost) == 0.0
            && Value(row.consumedQuantity) == c.tokens as real && row.skuMeter == c.class_
            && Value(row.pricingQuantity) * (if c.price.Some? then 1000000.0 else 1.0) == c.tokens as real
            && row.pricingUnit == (if c.price.Some? then c.price.value.pricingUnit else "Informational Tokens")
            && Value(row.contractedUnitPrice) == Value(row.listUnitPrice)
               == (if c.price.Some? then Value(c.price.value.listUnitPrice) else 0.0)
  {
    hide Value, Mul, DivPow10;
    ZeroFits();
    QuantityOf(c.tokens);
    if c.price.Some? {
      MillionsOf(Value(c.price.value.listUnitPrice), Value(DivPow10(FromInt(c.tokens), TOKENS_PER_MILLION)),
                 c.tokens as real);
    }
  }

  lemma FitsCount(tokens: nat)
    ensures Fits(FromInt(tokens))
  {
    NormalFits(FromInt(tokens));
  }

  /** So every price of at most six fractional digits per million tokens makes a valid row. */
  lemma NewRowPassesCheck(c: Charge)
    requires c.tokens >= 0
    requires c.price.Some? ==>
        Decimals.Sign(c.price.value.listUnitPrice) >= 0 && Scale(c.price.value.listUnitPrice) <= 6
    ensures Check(NewRow(c))
  {
    hide ValueAt, Normal, Value;
    NewRowChecksExactly(c);
    match c.price {
      case None =>
      case Some(price) =>
        CostScale(price.listUnitPrice, DivPow10(FromInt(c.tokens), TOKENS_PER_MILLION));
    }
  }

  /** A product needs no more digits than its factors need together. */
  lemma CostScale(price: Decimal, quantity: Decimal)
    ensures Scale(Mul(price, quantity)) <= Scale(price) + quantity.scale
  {
    hide ValueAt;
    var least := Mul(Normal(price), quantity);
    ScaleIsLeast(Mul(price, quantity), least);
  }

  // ---- The charge period --------------------------------------------------

  const SECOND: int := 1_000_000_000

  /** An instant, in nanoseconds after the zero instant, cut to its whole second. */
  function Truncate(at: nat): nat {
    at / SECOND * SECOND
  }

  /** ChargePeriod: a span widened to whole seconds, its end exclusive. */
  function ChargePeriod(start: nat, end: nat): (nat, nat) {
    var first, last := Truncate(start), Truncate(end);
    (first, if last < end || last <= first then last + SECOND else last)
  }

  /**
  The period holds the span, and no whole second more, and it ends after it starts
  exactly when the span does not end before its first whole second.
  */
  lemma ChargePeriodHoldsSpan(start: nat, end: nat)
    ensures var (first, last) := ChargePeriod(start, end);
            && first <= start < first + SECOND && first % SECOND == 0 && last % SECOND == 0
            && (first < last <==> first <= end)
            && end <= last
            && (first < last ==>
                  forall other: nat :: other % SECOND == 0 && end <= other && first < other ==> last <= other)
  {
    Whole(start);
    Whole(end);
    var (first, last) := ChargePeriod(start, end);
    forall other: nat | other % SECOND == 0 && end <= other && first < other && first < last
      ensures last <= other
    {
      Whole(other);
    }
  }

  /** A span that ends a second before it starts is given a period that ends where it starts. */
  lemma PeriodCanBeEmpty()
    ensures ChargePeriod(SECOND, 0) == (SECOND, SECOND)
  {
  }

  lemma Whole(at: nat)
    ensures Truncate(at) <= at < Truncate(at) + SECOND && Truncate(at) % SECOND == 0
    ensures Truncate(at) + SECOND == (at / SECOND + 1) * SECOND
  {
  }
}
