/** The policy's own reader of the same rows (internal/policy/usage.go). */
module PolicyUsage {
  import opened Wrappers
  import opened Decimals
  import opened RowArithmetic
  import opened CommentRows
  import opened CommentTally
  import FigureRows
  import opened DecimalText
  import opened Focus
  import opened Strings
  import FocusRow
  import opened Sums

  /** The rows of one currency: their exact cost, and how many. */
  datatype CurrencyUsage = CurrencyUsage(listCost: Decimal, rows: nat)

  /** The columns this reader takes: the sub-account, the currency and the list cost. */
  predicate UsageAccepts(r: RowText) {
    !r.subAccount.OtherType? && IsCurrency(r.billingCurrency) && ParseAmount(r.listCost).Some?
  }

  function ListCostOf(usage: map<string, CurrencyUsage>, currency: string): Decimal {
    if currency in usage then usage[currency].listCost else ZERO
  }

  function RowsOf(usage: map<string, CurrencyUsage>, currency: string): nat {
    if currency in usage then usage[currency].rows else 0
  }

  /** One row more in its currency's total. */
  function AddUsage(totals: map<string, CurrencyUsage>, currency: string, cost: Decimal): map<string, CurrencyUsage> {
    totals[currency := CurrencyUsage(Add(ListCostOf(totals, currency), cost), RowsOf(totals, currency) + 1)]
  }

  function RowsIn(rows: seq<RowText>, currency: string): nat {
    if rows == [] then 0 else
      RowsIn(rows[..|rows| - 1], currency) + if rows[|rows| - 1].billingCurrency == currency then 1 else 0
  }

  /** Every total is the exact cost and the count of its currency's rows, and there is one where there is a row. */
  ghost predicate UsageHolds(totals: map<string, CurrencyUsage>, read: seq<RowText>) {
    && (forall currency: string :: Value(ListCostOf(totals, currency)) == CostIn(read, currency))
    && (forall currency: string :: RowsOf(totals, currency) == RowsIn(read, currency))
    && (forall currency: string :: currency in totals <==> RowsIn(read, currency) > 0)
  }

  lemma UsageStep(totals: map<string, CurrencyUsage>, read: seq<RowText>, r: RowText)
    requires UsageHolds(totals, read) && UsageAccepts(r)
    ensures UsageHolds(AddUsage(totals, r.billingCurrency, ParseAmount(r.listCost).value), read + [r])
  {
    hide ValueAt, Value, ParseAmount, IsCurrency;
    var cost := ParseAmount(r.listCost).value;
    var next := AddUsage(totals, r.billingCurrency, cost);
    assert (read + [r])[..|read|] == read;
    forall currency: string
      ensures Value(ListCostOf(next, currency)) == CostIn(read + [r], currency)
      ensures RowsOf(next, currency) == RowsIn(read + [r], currency)
    {
      assert Value(ListCostOf(totals, currency)) == CostIn(read, currency);
    }
  }

  /** ReadUsage: each currency's total, or none when a row is refused. */
  method ReadUsage(rows: seq<RowText>) returns (usage: Option<map<string, CurrencyUsage>>)
    ensures usage.Some? <==> forall i | 0 <= i < |rows| :: UsageAccepts(rows[i])
    ensures usage.Some? ==> UsageHolds(usage.value, rows)
  {
    hide UsageHolds, UsageAccepts, AddUsage, ParseAmount, IsCurrency, CostIn, Add, ListCostOf;
    var totals: map<string, CurrencyUsage> := map[];
    NothingUsed();
    for i := 0 to |rows|
      invariant forall j | 0 <= j < i :: UsageAccepts(rows[j])
      invariant UsageHolds(totals, rows[..i])
    {
      var r := rows[i];
      if !UsageAccepts(r) {
        return None;
      }
      UsageStep(totals, rows[..i], r);
      assert rows[..i] + [r] == rows[..i + 1];
      AcceptsParses(r);
      totals := AddUsage(totals, r.billingCurrency, ParseAmount(r.listCost).value);
    }
    assert rows[..|rows|] == rows;
    return Some(totals);
  }

  lemma NothingUsed()
    ensures UsageHolds(map[], [])
  {
    ZeroIsZero();
  }

  lemma AcceptsParses(r: RowText)
    requires UsageAccepts(r)
    ensures ParseAmount(r.listCost).Some?
  {
  }

  /** The policy's reader takes a row whatever its other columns hold. */
  lemma UsageAcceptsExactly(r: RowText)
    ensures UsageAccepts(r) <==>
            && (r.subAccount == Absent || exists text :: r.subAccount == StringValue(text))
            && |r.billingCurrency| == 3 && (forall c | c in r.billingCurrency :: 'A' <= c <= 'Z')
            && |r.listCost| <= 64 && IsLiteral(r.listCost)
            && forall i | 12 <= i < |CutAt(r.listCost, '.').after| :: CutAt(r.listCost, '.').after[i] == '0'
  {
    hide CutAt, IsLiteral, ParseAmount, IsCurrency;
    ParseAmountExactly(r.listCost);
    CurrencyLetters(r.billingCurrency);
    assert r.subAccount.StringValue? ==> r.subAccount == StringValue(r.subAccount.value);
  }

  /** Of the rows the comment accepts, the policy refuses exactly those whose sub-account is no string. */
  lemma PolicyAcceptsExactly(r: RowText)
    requires Accepts(r)
    ensures UsageAccepts(r) <==> !r.subAccount.OtherType?
  {
    hide IsCurrency, ParseAmount;
    AcceptedIsExact(r);
  }

  /** In every currency, the comment's figures add up to the policy's total of the same rows. */
  lemma ReadersAgree(figures: map<FigureKey, Figure>, usage: map<string, CurrencyUsage>, rows: seq<RowText>,
                     currency: string)
    requires FiguresHold(figures, rows)
    requires UsageHolds(usage, rows)
    ensures MapSum(figures, InCurrency(currency)) == Value(ListCostOf(usage, currency))
  {
    assert MapSum(figures, InCurrency(currency)) == CostIn(rows, currency);
  }

  /** Whether every row's sub-account is a string, or not given. */
  predicate SubAccountsDecode(rows: seq<RowText>) {
    forall i | 0 <= i < |rows| :: !rows[i].subAccount.OtherType?
  }

  /**
  Both readers of one file. When the comment's accepts it, the policy's does exactly
  when no row's sub-account is of another type; when both do, the two totals of every
  currency are the same decimal value.
  */
  method ReadTwice(rows: seq<RowText>) returns (total: Option<Tally>, usage: Option<map<string, CurrencyUsage>>)
    ensures total.Some? ==> (usage.Some? <==> SubAccountsDecode(rows))
    ensures total.Some? && usage.Some? ==> forall currency: string ::
        MapSum(total.value.figures, InCurrency(currency)) == Value(ListCostOf(usage.value, currency))
  {
    hide Accepts, UsageAccepts, ValueAt, Value, MapSum, CostIn, FiguresHold, RequestsHold, FigureRows.FiguresState,
      FigureRows.LogsState;
    total := ReadRows(rows);
    usage := ReadUsage(rows);
    if total.Some? {
      forall i | 0 <= i < |rows|
        ensures UsageAccepts(rows[i]) <==> !rows[i].subAccount.OtherType?
      {
        PolicyAcceptsExactly(rows[i]);
      }
      if usage.Some? {
        forall currency: string
          ensures MapSum(total.value.figures, InCurrency(currency)) == Value(ListCostOf(usage.value, currency))
        {
          ReadersAgree(total.value.figures, usage.value, rows, currency);
        }
      }
    }
  }

  /** A row of no tokens at no cost whose sub-account is a number. */
  const NUMBERED := RowText(
    "USD", "2026-01-01T00:00:00Z", "2026-01-01T00:00:01Z", "0", "0", "0", "0",
    FocusRow.MILLION_TOKENS, Some(Output), "price", "catalog",
    Some("measured"), Some("unattributed"), Some("none"), "session", "model", OtherType)

  /** The comment reads that row, and the policy refuses every file that holds it. */
  lemma NumberedSubAccountParts(rows: seq<RowText>)
    requires NUMBERED in rows
    ensures Accepts(NUMBERED)
    ensures !SubAccountsDecode(rows) && exists i | 0 <= i < |rows| :: !UsageAccepts(rows[i])
  {
    hide IsCurrency, UnitSize, ParseAmount, Cmp, Mul, Decimals.Sign;
    var i :| 0 <= i < |rows| && rows[i] == NUMBERED;
    assert !UsageAccepts(rows[i]);
    UsdIsCurrency();
    NothingParses();
    MillionTokens(Output);
    var size := UnitSize(Output, FocusRow.MILLION_TOKENS).value;
    ZeroIsZero();
    NoTimes(Value(size));
    ArithmeticAccepts(NUMBERED, ZERO, ZERO, ZERO, ZERO, size);
  }

  lemma NoTimes(v: real)
    ensures 0.0 * v == 0.0
  {
  }

  lemma UsdIsCurrency()
    ensures IsCurrency("USD")
  {
  }

  lemma NothingParses()
    ensures ParseAmount("0") == Some(ZERO)
  {
    hide CutAt;
    assert Text(ZERO) == "0";
    FocusRow.ZeroFits();
    RenderedAmountParses(ZERO);
  }
}
