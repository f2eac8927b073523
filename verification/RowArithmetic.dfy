/** The arithmetic of one row as the comment's reader checks it (internal/comment/rows.go). */
module RowArithmetic {
  import opened Wrappers
  import opened Strings
  import opened Digits
  import opened Decimals
  import opened DecimalText
  import opened Focus
  import FocusRow

  const MAX_AMOUNT_LENGTH := 64

  /** How a nullable string column decodes: absent or null, a string, or a value of another type. */
  datatype Column = Absent | StringValue(value: string) | OtherType

  /**
  A decoded row, reduced to what the readers take from it. A tag is None when it
  is missing or no string; skuMeter is None when the column
  names no token class. Only the policy's reader decodes subAccount.
  */
  datatype RowText = RowText(
    billingCurrency: string, chargePeriodStart: string, chargePeriodEnd: string,
    listCost: string, listUnitPrice: string, pricingQuantity: string, consumedQuantity: string,
    pricingUnit: string, skuMeter: Option<TokenClass>, skuPriceId: string, catalog: string,
    basis: Option<string>, attribution: Option<string>, enforcement: Option<string>,
    session: string, model: string, subAccount: Column)

  /** Rows of one catalog, class and price: cost is the price times tokens over the unit's size. */
  datatype Trace = Trace(catalog: string, class_: TokenClass, priceId: string, unitPrice: Decimal, unit: string,
                         tokens: Decimal, cost: Decimal)

  function ParseAmount(text: string): (r: Option<Decimal>)
    ensures r.Some? ==> IsNormal(r.value) && Value(r.value) >= 0.0
  {
    if |text| > MAX_AMOUNT_LENGTH then None else
      var amount := Parse(text);
      if amount.None? || Scale(amount.value) > MAX_SCALE then None else
        ParseIsNonNegative(text);
        amount
  }

  /** A last digit is stripped exactly when it is zero. */
  lemma LastDigit(c: nat, digit: nat, scale: nat)
    requires scale > 0 && digit < 10
    ensures Scale(Decimal(10 * c + digit, scale)) == if digit == 0 then Scale(Decimal(c, scale - 1)) else scale
  {
  }

  lemma ScaleAtMost(d: Decimal)
    ensures Scale(d) <= d.scale
  {
  }

  /** The fractional digits a normal form keeps are those before a tail of zeros. */
  lemma {:induction false} FractionFits(whole: string, fraction: string, k: nat)
    requires AllDigits(whole) && AllDigits(fraction)
    ensures AllDigits(whole + fraction)
    ensures Scale(Decimal(NatValue(whole + fraction), |fraction|)) <= k <==>
            forall i | k <= i < |fraction| :: fraction[i] == '0'
  {
    hide Scale;
    var digits := whole + fraction;
    ScaleAtMost(Decimal(NatValue(digits), |fraction|));
    if |fraction| > k {
      var init, last := fraction[..|fraction| - 1], fraction[|fraction| - 1];
      assert digits[..|digits| - 1] == whole + init;
      assert digits[|digits| - 1] == last;
      FractionFits(whole, init, k);
      LastDigit(NatValue(whole + init), DigitValue(last), |fraction|);
    }
  }

  /**
  An amount is read exactly from a decimal literal of at most 64 characters whose digits
  past the twelfth fractional one are zeros, at the value the literal writes.
  */
  lemma ParseAmountExactly(text: string)
    ensures var cut := CutAt(text, '.');
            && (ParseAmount(text).Some? <==>
                  |text| <= 64 && IsLiteral(text) && forall i | 12 <= i < |cut.after| :: cut.after[i] == '0')
            && (IsLiteral(text) ==> AllDigits(cut.before + cut.after))
            && (ParseAmount(text).Some? ==>
                  Value(ParseAmount(text).value) == ValueAt(NatValue(cut.before + cut.after), |cut.after|))
  {
    hide CutAt, NatValue, Normal, Value, ValueAt, Scale;
    var cut := CutAt(text, '.');
    if IsLiteral(text) {
      FractionFits(cut.before, cut.after, MAX_SCALE);
      var d := Decimal(NatValue(cut.before + cut.after), |cut.after|);
      SameScale(d);
      ValueOfDecimal(d);
    }
  }

  lemma SameScale(d: Decimal)
    ensures Scale(Normal(d)) == Scale(d)
  {
    EqualValuesEqualNormals(Normal(d), d);
  }

  lemma ValueOfDecimal(d: Decimal)
    ensures Value(d) == ValueAt(d.coefficient, d.scale)
  {
  }

  /** `^([1-9][0-9]{0,11}) Tokens$`. */
  predicate IsTokenCount(unit: string) {
    var cut := CutAt(unit, ' ');
    cut.found && cut.after == "Tokens" && AllDigits(cut.before) && 1 <= |cut.before| <= 12 && cut.before[0] != '0'
  }

  /** The number of tokens one PricingUnit holds. */
  function UnitSize(class_: TokenClass, unit: string): (r: Option<Decimal>)
    ensures r.Some? ==> Value(r.value) > 0.0
  {
    if class_.Informational() then
      if unit == FocusRow.INFORMATIONAL_UNIT then Some(FromInt(1)) else None
    else if !IsTokenCount(unit) then None
    else
      SizeIsPositive(CutAt(unit, ' ').before);
      Parse(CutAt(unit, ' ').before)
  }

  /**
  A billed unit is a count of tokens below 10^12, as it prints, and holds that many; an
  informational class's is its own unit, and holds one.
  */
  lemma UnitSizeReads(class_: TokenClass, unit: string, n: int)
    ensures UnitSize(class_, unit) == Some(FromInt(n)) <==>
            if class_.Informational() then n == 1 && unit == "Informational Tokens"
            else 0 < n < 1_000_000_000_000 && unit == NatText(n) + " Tokens"
  {
    hide CutAt, NatText, NatValue;
    if class_.Informational() {
      return;
    }
    var cut := CutAt(unit, ' ');
    TwelveDigits();
    if IsTokenCount(unit) {
      WholeParses(cut.before);
      ValueHasText(cut.before);
      ValueBelowPow10(cut.before);
      NonzeroLead(cut.before);
      Pow10Grows(|cut.before|, 12);
      assert cut.before + [' '] + "Tokens" == cut.before + " Tokens";
    }
    if 0 < n < 1_000_000_000_000 && unit == NatText(n) + " Tokens" {
      TextHasValue(n);
      TextLength(n, 12);
      assert unit == NatText(n) + [' '] + "Tokens";
      CutUnique(NatText(n), ' ', "Tokens");
    }
  }

  lemma TwelveDigits()
    ensures Pow10(12) == 1_000_000_000_000
  {
    assert Pow10(4) == 10_000;
    assert Pow10(8) == 10_000 * Pow10(4);
    assert Pow10(12) == 10_000 * Pow10(8);
  }

  lemma {:induction false} Pow10Grows(a: nat, b: nat)
    requires a <= b
    ensures Pow10(a) <= Pow10(b)
  {
    if a < b {
      Pow10Grows(a, b - 1);
    }
  }

  /** A number below 10^k prints in at most k digits. */
  lemma {:induction false} TextLength(n: nat, k: nat)
    requires k > 0 && n < Pow10(k)
    ensures |NatText(n)| <= k
  {
    if n >= 10 {
      TextLength(n / 10, k - 1);
    }
  }

  lemma SizeIsPositive(digits: string)
    requires AllDigits(digits) && digits != "" && digits[0] != '0'
    ensures Parse(digits).Some? && Value(Parse(digits).value) > 0.0
  {
    hide CutAt;
    WholeParses(digits);
    NonzeroLead(digits);
  }

  function Arithmetic(r: RowText): Option<Trace> {
    var cost, price := ParseAmount(r.listCost), ParseAmount(r.listUnitPrice);
    var quantity, tokens := ParseAmount(r.pricingQuantity), ParseAmount(r.consumedQuantity);
    if cost.None? || price.None? || quantity.None? || tokens.None? || r.skuMeter.None? then None else
      var class_ := r.skuMeter.value;
      var size := UnitSize(class_, r.pricingUnit);
      if size.None? || Cmp(tokens.value, Mul(quantity.value, size.value)) != 0
         || Cmp(cost.value, Mul(price.value, quantity.value)) != 0
         || (class_.Informational() && Decimals.Sign(cost.value) != 0)
      then None
      else Some(Trace(r.catalog, class_, r.skuPriceId, price.value, r.pricingUnit, tokens.value, cost.value))
  }

  /** The trace recomputes: Cost x unit size = UnitPrice x Tokens. */
  ghost predicate Exact(t: Trace) {
    UnitSize(t.class_, t.unit).Some?
    && Value(t.cost) * Value(UnitSize(t.class_, t.unit).value) == Value(t.unitPrice) * Value(t.tokens)
  }

  /** Nothing is negative, an informational class costs nothing, and nothing costs without tokens. */
  ghost predicate Sensible(t: Trace) {
    && Value(t.cost) >= 0.0 && Value(t.tokens) >= 0.0
    && (t.class_.Informational() ==> Value(t.cost) == 0.0)
    && (Value(t.cost) > 0.0 ==> Value(t.tokens) > 0.0)
  }

  lemma ProductsAgree(cost: real, price: real, quantity: real, tokens: real, size: real)
    requires tokens == quantity * size && cost == price * quantity && size > 0.0
    ensures cost * size == price * tokens
    ensures tokens == 0.0 ==> cost == 0.0
  {
    assert cost * size == price * (quantity * size);
    if tokens == 0.0 {
      assert quantity == 0.0;
    }
  }

  /**
  A row's columns are taken exactly when its amounts parse, its meter and unit are known, its
  quantities agree to the last digit, and an informational class costs nothing.
  */
  lemma ArithmeticExactly(r: RowText)
    ensures Arithmetic(r).Some? <==>
            && ParseAmount(r.listCost).Some? && ParseAmount(r.listUnitPrice).Some?
            && ParseAmount(r.pricingQuantity).Some? && ParseAmount(r.consumedQuantity).Some?
            && r.skuMeter.Some? && UnitSize(r.skuMeter.value, r.pricingUnit).Some?
            && Value(ParseAmount(r.consumedQuantity).value) ==
               Value(ParseAmount(r.pricingQuantity).value) * Value(UnitSize(r.skuMeter.value, r.pricingUnit).value)
            && Value(ParseAmount(r.listCost).value) ==
               Value(ParseAmount(r.listUnitPrice).value) * Value(ParseAmount(r.pricingQuantity).value)
            && (r.skuMeter.value.Informational() ==> Value(ParseAmount(r.listCost).value) == 0.0)
    ensures Arithmetic(r).Some? ==>
        var t := Arithmetic(r).value;
        && t.catalog == r.catalog && Some(t.class_) == r.skuMeter && t.priceId == r.skuPriceId
        && t.unit == r.pricingUnit && Some(t.unitPrice) == ParseAmount(r.listUnitPrice)
        && Some(t.tokens) == ParseAmount(r.consumedQuantity) && Some(t.cost) == ParseAmount(r.listCost)
  {
    hide ParseAmount, UnitSize, ValueAt, Value, Cmp, Decimals.Sign, Mul;
  }

  lemma AcceptedIsExact(r: RowText)
    requires Arithmetic(r).Some?
    ensures Exact(Arithmetic(r).value) && Sensible(Arithmetic(r).value)
    ensures ParseAmount(r.listCost) == Some(Arithmetic(r).value.cost)
  {
    hide ParseAmount, UnitSize, ValueAt, Value, Cmp, Decimals.Sign, Mul;
    var t := Arithmetic(r).value;
    var quantity, size := ParseAmount(r.pricingQuantity).value, UnitSize(t.class_, t.unit).value;
    ProductsAgree(Value(t.cost), Value(t.unitPrice), Value(quantity), Value(t.tokens), Value(size));
  }

  // ---- The writer's rows --------------------------------------------------

  /** A row as its JSON carries the amounts: each decimal as its printed text. */
  function Rendered(row: FocusRow.Row, r: RowText): RowText {
    r.(listCost := Text(row.listCost), listUnitPrice := Text(row.listUnitPrice),
       pricingQuantity := Text(row.pricingQuantity), consumedQuantity := Text(row.consumedQuantity),
       pricingUnit := row.pricingUnit, skuMeter := Some(row.skuMeter))
  }

  lemma RenderedAmountParses(d: Decimal)
    requires FocusRow.Fits(d) && |Text(d)| <= MAX_AMOUNT_LENGTH
    ensures ParseAmount(Text(d)) == Some(Normal(d))
  {
    hide Text;
    ParseReadsText(d);
    NormalIsUnique(Normal(Normal(d)), Normal(d));
  }

  lemma MillionText()
    ensures NatText(1000000) == "1000000"
  {
    assert NatText(10) == "10";
    assert NatText(100) == "100";
    assert NatText(1000) == NatText(100) + "0";
    assert NatText(10000) == NatText(1000) + "0";
    assert NatText(100000) == NatText(10000) + "0";
    assert NatText(1000000) == NatText(100000) + "0";
  }

  lemma MillionTokens(class_: TokenClass)
    requires !class_.Informational()
    ensures UnitSize(class_, FocusRow.MILLION_TOKENS).Some?
    ensures Value(UnitSize(class_, FocusRow.MILLION_TOKENS).value) == 1000000.0
  {
    hide CutAt, NatText, NatValue;
    CutUnique("1000000", ' ', "Tokens");
    assert FocusRow.MILLION_TOKENS == "1000000" + [' '] + "Tokens";
    MillionText();
    TextHasValue(1000000);
    WholeParses("1000000");
  }

  /** What makes a row's columns agree. */
  lemma ArithmeticAccepts(r: RowText, cost: Decimal, price: Decimal, quantity: Decimal, tokens: Decimal, size: Decimal)
    requires r.skuMeter.Some? && UnitSize(r.skuMeter.value, r.pricingUnit) == Some(size)
    requires ParseAmount(r.listCost) == Some(cost) && ParseAmount(r.listUnitPrice) == Some(price)
    requires ParseAmount(r.pricingQuantity) == Some(quantity) && ParseAmount(r.consumedQuantity) == Some(tokens)
    requires Value(tokens) == Value(quantity) * Value(size) && Value(cost) == Value(price) * Value(quantity)
    requires r.skuMeter.value.Informational() ==> Value(cost) == 0.0
    ensures Arithmetic(r) == Some(Trace(r.catalog, r.skuMeter.value, r.skuPriceId, price, r.pricingUnit, tokens, cost))
  {
    hide ParseAmount, UnitSize, ValueAt, Value, Cmp, Decimals.Sign, Mul;
  }

  /**
  The comment's reader accepts every valid row the writer makes, at its cost and its
  tokens, when its amounts print within 64 characters.
  */
  lemma WrittenRowIsAccepted(c: FocusRow.Charge, r: RowText)
    requires c.tokens >= 0 && (c.price.None? <==> c.class_.Informational())
    requires c.price.Some? ==>
        && Decimals.Sign(c.price.value.listUnitPrice) >= 0 && Scale(c.price.value.listUnitPrice) <= 6
        && c.price.value.pricingUnit == FocusRow.MILLION_TOKENS
    requires var row := FocusRow.NewRow(c);
             && |Text(row.listCost)| <= MAX_AMOUNT_LENGTH && |Text(row.listUnitPrice)| <= MAX_AMOUNT_LENGTH
             && |Text(row.pricingQuantity)| <= MAX_AMOUNT_LENGTH && |Text(row.consumedQuantity)| <= MAX_AMOUNT_LENGTH
    ensures var row, t := FocusRow.NewRow(c), Arithmetic(Rendered(FocusRow.NewRow(c), r));
            && FocusRow.Check(row) && t.Some?
            && Value(t.value.cost) == Value(row.listCost)
            && Value(t.value.tokens) == c.tokens as real
            && t.value.class_ == c.class_
            && (c.class_.Informational() ==> Value(t.value.cost) == 0.0)
  {
    hide Text, ValueAt, Value, ParseAmount, UnitSize, FocusRow.Fits, Arithmetic, Decimals.Sign, Scale, Normal;
    var row := FocusRow.NewRow(c);
    FocusRow.NewRowPassesCheck(c);
    AmountsParse(row, r);
    var cost, price := Normal(row.listCost), Normal(row.listUnitPrice);
    var quantity, tokens := Normal(row.pricingQuantity), Normal(row.consumedQuantity);
    if c.price.Some? {
      MillionTokens(c.class_);
      FocusRow.QuantityOf(c.tokens);
      ArithmeticAccepts(Rendered(row, r), cost, price, quantity, tokens,
                        UnitSize(c.class_, FocusRow.MILLION_TOKENS).value);
    } else {
      OneToken(c.class_);
      FocusRow.ZeroFits();
      ArithmeticAccepts(Rendered(row, r), cost, price, quantity, tokens, FromInt(1));
    }
  }

  lemma AmountsParse(row: FocusRow.Row, r: RowText)
    requires FocusRow.Check(row)
    requires |Text(row.listCost)| <= MAX_AMOUNT_LENGTH && |Text(row.listUnitPrice)| <= MAX_AMOUNT_LENGTH
    requires |Text(row.pricingQuantity)| <= MAX_AMOUNT_LENGTH && |Text(row.consumedQuantity)| <= MAX_AMOUNT_LENGTH
    ensures var rendered := Rendered(row, r);
            && ParseAmount(rendered.listCost) == Some(Normal(row.listCost))
            && ParseAmount(rendered.listUnitPrice) == Some(Normal(row.listUnitPrice))
            && ParseAmount(rendered.pricingQuantity) == Some(Normal(row.pricingQuantity))
            && ParseAmount(rendered.consumedQuantity) == Some(Normal(row.consumedQuantity))
  {
    hide Text, ParseAmount, FocusRow.Fits, Normal;
    RenderedAmountParses(row.listCost);
    RenderedAmountParses(row.listUnitPrice);
    RenderedAmountParses(row.pricingQuantity);
    RenderedAmountParses(row.consumedQuantity);
  }

  lemma OneToken(class_: TokenClass)
    requires class_.Informational()
    ensures UnitSize(class_, FocusRow.INFORMATIONAL_UNIT) == Some(FromInt(1))
  {
  }
}
