/** The dollar comparison of a reconciliation (internal/reconcile/dollars.go, report.go and tolerance.go). */
module Dollars {
  import opened Wrappers
  import opened Decimals
  import opened Digits
  import opened TokenChecks
  import opened Pricing

  const DOLLAR_TOLERANCE_PERCENT := 10
  const ROUNDING_FLOOR := 100

  // ---- The cost report ----------------------------------------------------

  /** One billed line: what was charged, and at list price what it would have been, if known. */
  datatype CostLine = CostLine(credential: string, day: string, amount: Decimal, list: Option<Decimal>, isTokens: bool)

  datatype CostTotal = CostTotal(amount: Decimal, other: Decimal, list: Option<Decimal>)

  predicate OfDay(line: CostLine, credential: string, day: string) {
    line.credential == credential && line.day == day
  }

  ghost function LineSum(lines: seq<CostLine>, part: CostLine -> real): real {
    if lines == [] then 0.0 else LineSum(lines[..|lines| - 1], part) + part(lines[|lines| - 1])
  }

  ghost function TokenAmount(credential: string, day: string): CostLine -> real {
    (l: CostLine) => if OfDay(l, credential, day) && l.isTokens then Value(l.amount) else 0.0
  }

  ghost function OtherAmount(credential: string, day: string): CostLine -> real {
    (l: CostLine) => if OfDay(l, credential, day) && !l.isTokens then Value(l.amount) else 0.0
  }

  ghost function ListAmount(credential: string, day: string): CostLine -> real {
    (l: CostLine) => if OfDay(l, credential, day) && l.isTokens && l.list.Some? then Value(l.list.value) else 0.0
  }

  lemma LineSumAppends(lines: seq<CostLine>, line: CostLine, part: CostLine -> real)
    ensures LineSum(lines + [line], part) == LineSum(lines, part) + part(line)
  {
    assert (lines + [line])[..|lines|] == lines;
  }

  /** costOf: a list total is stated only when every token line of the day states one, and there is a line. */
  method CostOf(lines: seq<CostLine>, credential: string, day: string) returns (total: CostTotal)
    ensures Value(total.amount) == LineSum(lines, TokenAmount(credential, day))
    ensures Value(total.other) == LineSum(lines, OtherAmount(credential, day))
    ensures total.list.Some? <==>
            && (exists i | 0 <= i < |lines| :: OfDay(lines[i], credential, day) && lines[i].isTokens)
            && (forall i | 0 <= i < |lines| :: OfDay(lines[i], credential, day) && lines[i].isTokens
                  ==> lines[i].list.Some?)
    ensures total.list.Some? ==> Value(total.list.value) == LineSum(lines, ListAmount(credential, day))
  {
    hide ValueAt, Value, Add, LineSum;
    var amount, other, list, stated, missing := ZERO, ZERO, ZERO, false, false;
    NoLines(credential, day);
    for i := 0 to |lines|
      invariant Value(amount) == LineSum(lines[..i], TokenAmount(credential, day))
      invariant Value(other) == LineSum(lines[..i], OtherAmount(credential, day))
      invariant Value(list) == LineSum(lines[..i], ListAmount(credential, day))
      invariant stated <==> exists j | 0 <= j < i ::
          OfDay(lines[j], credential, day) && lines[j].isTokens && lines[j].list.Some?
      invariant missing <==> exists j | 0 <= j < i ::
          OfDay(lines[j], credential, day) && lines[j].isTokens && lines[j].list.None?
    {
      var line := lines[i];
      assert lines[..i] + [line] == lines[..i + 1];
      LineSumAppends(lines[..i], line, TokenAmount(credential, day));
      LineSumAppends(lines[..i], line, OtherAmount(credential, day));
      LineSumAppends(lines[..i], line, ListAmount(credential, day));
      if !OfDay(line, credential, day) {
        continue;
      }
      if !line.isTokens {
        other := Add(other, line.amount);
        continue;
      }
      amount := Add(amount, line.amount);
      if line.list.None? {
        missing := true;
        continue;
      }
      stated := true;
      list := Add(list, line.list.value);
    }
    assert lines[..|lines|] == lines;
    return CostTotal(amount, other, if stated && !missing then Some(list) else None);
  }

  lemma NoLines(credential: string, day: string)
    ensures LineSum([], TokenAmount(credential, day)) == LineSum([], OtherAmount(credential, day))
         == LineSum([], ListAmount(credential, day)) == Value(ZERO)
  {
  }

  // ---- FOCUS's rounding variance ------------------------------------------

  datatype RoundingCheck = RoundingCheck(rows: nat, variance: Decimal, within: bool)

  /** The decimal places of each currency's smallest unit, as ISO 4217 has them. */
  const MINOR_UNITS: map<string, nat> := map["USD" := 2, "EUR" := 2, "GBP" := 2, "JPY" := 0]

  const CURRENCY := "USD"

  /** WithinRounding: squares are compared, so no root is taken. None for an unknown currency or a negative count. */
  function WithinRounding(currency: string, rows: int, variance: Decimal): (within: Option<bool>)
    ensures within.Some? <==> currency in MINOR_UNITS && rows >= 0
  {
    if currency !in MINOR_UNITS || rows < 0 then None else
      var units := Mul(Absolute(variance), FromInt(Pow10(MINOR_UNITS[currency])));
      Some(Cmp(units, FromInt(ROUNDING_FLOOR)) <= 0 || Cmp(Mul(Mul(units, units), FromInt(4)), FromInt(rows)) <= 0)
  }

  lemma SquaresGrow(a: real, b: real)
    requires 0.0 <= a < b
    ensures a * a < b * b
  {
    PositiveProduct(b - a, b + a);
    assert (b - a) * (b + a) == b * b - a * a;
  }

  lemma PositiveProduct(x: real, y: real)
    requires x > 0.0 && y > 0.0
    ensures x * y > 0.0
  {
  }

  lemma HalfRoot(units: real, root: real)
    requires units >= 0.0 && root >= 0.0
    ensures units * units * 4.0 <= root * root <==> units <= 0.5 * root
  {
    var twice := 2.0 * units;
    assert units * units * 4.0 == twice * twice;
    if twice < root {
      SquaresGrow(twice, root);
    } else if root < twice {
      SquaresGrow(root, twice);
    }
  }

  /**
  The tolerance of FOCUS 1.4, MAX(100 x Subunit, SQRT(Rows) x 0.5 x Subunit), in every
  currency that has one: root is the exact square root of the rows.
  */
  lemma RoundingIsTheStandards(currency: string, rows: nat, variance: Decimal, root: real)
    requires currency in MINOR_UNITS && root >= 0.0 && root * root == rows as real
    ensures var units := Pow10(MINOR_UNITS[currency]) as real * Distance(Value(variance), 0.0);
            WithinRounding(currency, rows, variance) == Some(units <= 100.0 || units <= 0.5 * root)
  {
    hide Value, Mul, Cmp, FromInt, Absolute, Distance, Pow10;
    var size := Pow10(MINOR_UNITS[currency]);
    var units := Mul(Absolute(variance), FromInt(size));
    DistancePositive(Value(variance));
    NonNegativeProduct(Distance(Value(variance), 0.0), size as real);
    HalfRoot(Value(units), root);
  }

  lemma NonNegativeProduct(x: real, y: real)
    requires x >= 0.0 && y >= 0.0
    ensures x * y >= 0.0
  {
  }

  lemma DistancePositive(v: real)
    ensures Distance(v, 0.0) >= 0.0
  {
  }

  // ---- The walk -----------------------------------------------------------

  datatype CauseName = SharedKey | Tier | Residency | ContractRate

  datatype Cause = Cause(name: CauseName, amount: Decimal)

  datatype Verdict = IsWithin | IsOutside | NoBill

  /** The ledger's side of one credential's day. */
  datatype LedgerGroup = LedgerGroup(list: Decimal, rows: nat, billed: bool, records: seq<Usage>)

  /** providerEffective is what the report bills for tokens after any discount. */
  datatype DollarCheck = DollarCheck(verdict: Verdict, ledger: Decimal, provider: Decimal, providerEffective: Decimal,
                                     providerList: Option<Decimal>, otherCost: Decimal, residual: Decimal,
                                     causes: seq<Cause>, unattributed: Decimal, rounding: Option<RoundingCheck>)

  const NO_BILL_NOTE := "every ledger row is list-equivalent, so no API bill exists to compare"

  ghost function CauseSum(causes: seq<Cause>): real {
    if causes == [] then 0.0 else CauseSum(causes[..|causes| - 1]) + Value(causes[|causes| - 1].amount)
  }

  /** providerHigh: a token miss the provider's side of. */
  predicate ProviderHigh(tokens: seq<TokenCheck>) {
    exists i | 0 <= i < |tokens| :: !tokens[i].within && Sign(tokens[i].delta) > 0
  }

  /** The causes there can be, in the order they are named. */
  function Named(high: bool, stated: bool): seq<CauseName> {
    [Tier, Residency] + (if high then [SharedKey] else []) + (if stated then [ContractRate] else [])
  }

  /** What a cause accounts for: the same tokens priced two ways, or the same charges at two rates. */
  ghost function AmountOf(name: CauseName, mine: Basis -> real, theirs: Basis -> real, amount: real, list: real): real {
    match name
    case Tier => (theirs(Tiered) - theirs(Standard)) - (mine(Tiered) - mine(Standard))
    case Residency => (theirs(Served) - theirs(Tiered)) - (mine(Served) - mine(Tiered))
    case SharedKey => theirs(Standard) - mine(Standard)
    case ContractRate => amount - list
  }

  /** The causes whose amount is not zero, in order. */
  ghost function HeldCauses(names: seq<CauseName>, amount: CauseName -> real): seq<CauseName> {
    if names == [] then [] else
      var last := names[|names| - 1];
      HeldCauses(names[..|names| - 1], amount) + if amount(last) != 0.0 then [last] else []
  }

  ghost function AmountSum(names: seq<CauseName>, amount: CauseName -> real): real {
    if names == [] then 0.0 else AmountSum(names[..|names| - 1], amount) + amount(names[|names| - 1])
  }

  function NamesOf(causes: seq<Cause>): (names: seq<CauseName>)
    ensures |names| == |causes| && forall i | 0 <= i < |names| :: names[i] == causes[i].name
  {
    if causes == [] then [] else NamesOf(causes[..|causes| - 1]) + [causes[|causes| - 1].name]
  }

  /** The causes stated are those of the names that account for anything, each at its amount. */
  ghost predicate Explains(causes: seq<Cause>, names: seq<CauseName>, amount: CauseName -> real) {
    && NamesOf(causes) == HeldCauses(names, amount)
    && (forall i | 0 <= i < |causes| :: Value(causes[i].amount) == amount(causes[i].name))
    && CauseSum(causes) == AmountSum(names, amount)
  }

  lemma ExplainsMore(causes: seq<Cause>, names: seq<CauseName>, amount: CauseName -> real, cause: Cause)
    requires Explains(causes, names, amount) && Value(cause.amount) == amount(cause.name)
    ensures Explains(if amount(cause.name) != 0.0 then causes + [cause] else causes, names + [cause.name], amount)
  {
    hide Value, ValueAt;
    assert (causes + [cause])[..|causes|] == causes;
    assert (names + [cause.name])[..|names|] == names;
  }

  /** The loop over the candidate causes: each that is not zero is named and taken off the residual. */
  method Attribute(amounts: seq<Cause>, residual: Decimal, ghost names: seq<CauseName>, ghost amount: CauseName -> real)
    returns (causes: seq<Cause>, unattributed: Decimal)
    requires |names| == |amounts|
    requires forall i | 0 <= i < |amounts| ::
        amounts[i].name == names[i] && Value(amounts[i].amount) == amount(names[i])
    ensures Explains(causes, names, amount)
    ensures Value(unattributed) == Value(residual) - CauseSum(causes)
    ensures IsNormal(residual) ==> IsNormal(unattributed)
    ensures (forall i | 0 <= i < |amounts| :: IsNormal(amounts[i].amount)) ==>
        forall i | 0 <= i < |causes| :: IsNormal(causes[i].amount)
  {
    hide Value, ValueAt, Explains, Sub, CauseSum, IsNormal;
    causes, unattributed := [], residual;
    NothingExplained(amount);
    for i := 0 to |amounts|
      invariant Explains(causes, names[..i], amount)
      invariant Value(unattributed) == Value(residual) - CauseSum(causes)
      invariant IsNormal(residual) ==> IsNormal(unattributed)
      invariant (forall j | 0 <= j < |amounts| :: IsNormal(amounts[j].amount)) ==>
          forall j | 0 <= j < |causes| :: IsNormal(causes[j].amount)
    {
      ExplainsMore(causes, names[..i], amount, amounts[i]);
      assert names[..i] + [amounts[i].name] == names[..i + 1];
      if Sign(amounts[i].amount) != 0 {
        CauseAppends(causes, amounts[i]);
        causes := causes + [amounts[i]];
        unattributed := Sub(unattributed, amounts[i].amount);
      }
    }
    assert names[..|names|] == names;
  }

  lemma NothingExplained(amount: CauseName -> real)
    ensures Explains([], [], amount) && CauseSum([]) == 0.0
  {
  }

  lemma CauseAppends(causes: seq<Cause>, cause: Cause)
    ensures CauseSum(causes + [cause]) == CauseSum(causes) + Value(cause.amount)
  {
    assert (causes + [cause])[..|causes|] == causes;
  }

  /** What the walk prices a side's tokens at. */
  ghost function PricedAt(w: Walker, records: seq<Usage>): Basis -> real {
    (basis: Basis) => CostAt(w, records, basis)
  }

  ghost function Amounts(w: Walker, group: LedgerGroup, usage: seq<Usage>, cost: CostTotal): CauseName -> real {
    (name: CauseName) => AmountOf(name, PricedAt(w, group.records), PricedAt(w, usage), Value(cost.amount),
                                  if cost.list.Some? then Value(cost.list.value) else 0.0)
  }

  /** The candidate causes, as decimals. */
  function Candidates(mine: Pricing, theirs: Pricing, cost: CostTotal, high: bool): (causes: seq<Cause>)
    ensures |causes| == |Named(high, cost.list.Some?)|
    ensures forall i | 0 <= i < |causes| ::
        causes[i].name == Named(high, cost.list.Some?)[i] && IsNormal(causes[i].amount)
  {
    [Cause(Tier, Sub(Sub(theirs.tiered, theirs.standard), Sub(mine.tiered, mine.standard))),
     Cause(Residency, Sub(Sub(theirs.served, theirs.tiered), Sub(mine.served, mine.tiered)))] +
    (if high then [Cause(SharedKey, Sub(theirs.standard, mine.standard))] else []) +
    (if cost.list.Some? then [Cause(ContractRate, Sub(cost.amount, cost.list.value))] else [])
  }

  lemma CandidatesAmount(mine: Pricing, theirs: Pricing, w: Walker, group: LedgerGroup, usage: seq<Usage>,
                         cost: CostTotal, high: bool)
    requires IsPricing(mine, w, group.records) && IsPricing(theirs, w, usage)
    ensures forall i | 0 <= i < |Candidates(mine, theirs, cost, high)| ::
              Value(Candidates(mine, theirs, cost, high)[i].amount) ==
              Amounts(w, group, usage, cost)(Candidates(mine, theirs, cost, high)[i].name)
  {
    hide Value, ValueAt, Sub, CostAt, NotesOf, NoRepeats, NoteSet;
    assert forall b :: Value(mine.At(b)) == CostAt(w, group.records, b) && Value(theirs.At(b)) == CostAt(w, usage, b);
    assert mine.At(Standard) == mine.standard && mine.At(Tiered) == mine.tiered && mine.At(Served) == mine.served;
    assert theirs.At(Standard) == theirs.standard && theirs.At(Tiered) == theirs.tiered
        && theirs.At(Served) == theirs.served;
  }

  /** What holds of every dollar check: the residual is its named causes and the unattributed part. */
  ghost predicate AddsUp(check: DollarCheck) {
    Value(check.residual) == CauseSum(check.causes) + Value(check.unattributed)
  }

  function RoundingOf(list: Option<Decimal>, group: LedgerGroup): Option<RoundingCheck> {
    if list.None? then None else
      var variance := Sub(list.value, group.list);
      Some(RoundingCheck(group.rows, variance, WithinRounding(CURRENCY, group.rows, variance).value))
  }

  /** Every part of a dollar check, from the two sides' tokens and their prices. */
  ghost predicate IsCheck(check: DollarCheck, w: Walker, group: LedgerGroup, usage: seq<Usage>, cost: CostTotal,
                          high: bool) {
    && check.ledger == group.list && check.provider == check.providerEffective == cost.amount
    && check.providerList == cost.list && check.otherCost == cost.other
    && AddsUp(check)
    && (if !group.billed then
          check.verdict == NoBill && check.causes == [] && check.residual == check.unattributed == ZERO
              && check.rounding == None
        else
          && check.verdict == (if Close(Value(group.list), Value(cost.amount), DOLLAR_TOLERANCE_PERCENT) then IsWithin
                               else IsOutside)
          && check.residual == Sub(cost.amount, group.list)
          && Explains(check.causes, Named(high, cost.list.Some?), Amounts(w, group, usage, cost))
          && (forall i | 0 <= i < |check.causes| :: IsNormal(check.causes[i].amount)) && IsNormal(check.unattributed)
          && check.rounding == RoundingOf(cost.list, group))
  }

  /** A side whose every class with tokens has a catalog price. */
  predicate AllPriced(w: Walker, records: seq<Usage>) {
    forall i | 0 <= i < |records| :: RecordPriced(w, records[i])
  }

  /** The notes beside a check: why there is none to compare, or those of each side, the ledger's first. */
  ghost predicate AreCheckNotes(notes: seq<string>, w: Walker, group: LedgerGroup, usage: seq<Usage>) {
    if !group.billed then notes == [NO_BILL_NOTE] else
      exists k | 0 <= k <= |notes| :: AreNotes(notes[..k], w, group.records) && AreNotes(notes[k..], w, usage)
  }

  lemma NotesJoin(mine: seq<string>, theirs: seq<string>, w: Walker, group: LedgerGroup, usage: seq<Usage>)
    requires group.billed && AreNotes(mine, w, group.records) && AreNotes(theirs, w, usage)
    ensures AreCheckNotes(mine + theirs, w, group, usage)
  {
    hide AreNotes;
    var notes := mine + theirs;
    assert notes[..|mine|] == mine && notes[|mine|..] == theirs;
  }

  /**
  dollars: none when a side's tokens have no catalog price. A ledger with no bill states
  no residual. The residual is split into the causes that account for any of it.
  */
  method DollarsOf(w: Walker, group: LedgerGroup, usage: seq<Usage>, cost: CostTotal, tokens: seq<TokenCheck>)
    returns (check: Option<DollarCheck>, notes: seq<string>)
    ensures check.None? <==> group.billed && !(AllPriced(w, group.records) && AllPriced(w, usage))
    ensures check.Some? ==> IsCheck(check.value, w, group, usage, cost, ProviderHigh(tokens))
    ensures check.Some? ==> AreCheckNotes(notes, w, group, usage)
  {
    hide Value, ValueAt, Sub, Within, Explains, Candidates, Amounts, CauseSum, RecordPriced, IsPricing, Close,
      WithinRounding, ProviderHigh, Named, IsNormal, AreCheckNotes;
    NoBillNotes(w, group, usage);
    NothingExplained((name: CauseName) => 0.0);
    ZeroIsZero();
    var blank := DollarCheck(NoBill, group.list, cost.amount, cost.amount, cost.list, cost.other, ZERO, [], ZERO, None);
    if !group.billed {
      return Some(blank), [NO_BILL_NOTE];
    }
    WithinIsClose(group.list, cost.amount, DOLLAR_TOLERANCE_PERCENT);
    var verdict := if Within(group.list, cost.amount, DOLLAR_TOLERANCE_PERCENT) then IsWithin else IsOutside;
    var residual := Sub(cost.amount, group.list);
    var rounding := RoundingOf(cost.list, group);
    var mine := PriceAll(w, group.records);
    if mine.None? {
      return None, [];
    }
    var theirs := PriceAll(w, usage);
    if theirs.None? {
      return None, [];
    }
    PricingNotes(mine.value, w, group.records);
    PricingNotes(theirs.value, w, usage);
    NotesJoin(mine.value.notes, theirs.value.notes, w, group, usage);
    var high := ProviderHigh(tokens);
    var amounts := Candidates(mine.value, theirs.value, cost, high);
    CandidatesAmount(mine.value, theirs.value, w, group, usage, cost, high);
    var causes, unattributed :=
        Attribute(amounts, residual, Named(high, cost.list.Some?), Amounts(w, group, usage, cost));
    check := Some(blank.(verdict := verdict, residual := residual, causes := causes, unattributed := unattributed,
                         rounding := rounding));
    return check, mine.value.notes + theirs.value.notes;
  }

  lemma PricingNotes(p: Pricing, w: Walker, records: seq<Usage>)
    requires IsPricing(p, w, records)
    ensures AreNotes(p.notes, w, records)
  {
  }

  lemma NoBillNotes(w: Walker, group: LedgerGroup, usage: seq<Usage>)
    ensures !group.billed ==> AreCheckNotes([NO_BILL_NOTE], w, group, usage)
  {
  }

  /** A check states nothing that depends on the order a map is read in: there is one check. */
  lemma CheckIsUnique(a: DollarCheck, b: DollarCheck, w: Walker, group: LedgerGroup, usage: seq<Usage>,
                      cost: CostTotal, high: bool)
    requires IsCheck(a, w, group, usage, cost, high) && IsCheck(b, w, group, usage, cost, high)
    ensures a == b
  {
    hide Value, ValueAt, Sub, AmountSum, HeldCauses, Amounts, CauseSum, Close, WithinRounding, Named, IsNormal,
      RoundingOf;
    if group.billed {
      assert |NamesOf(a.causes)| == |NamesOf(b.causes)|;
      forall i | 0 <= i < |a.causes|
        ensures a.causes[i] == b.causes[i]
      {
        assert NamesOf(a.causes)[i] == NamesOf(b.causes)[i];
        NormalIsUnique(a.causes[i].amount, b.causes[i].amount);
      }
      assert a.causes == b.causes;
      NormalIsUnique(a.unattributed, b.unattributed);
    }
  }

  lemma NamedSum(amount: CauseName -> real, high: bool, stated: bool)
    ensures AmountSum(Named(high, stated), amount) ==
            amount(Tier) + amount(Residency) + (if high then amount(SharedKey) else 0.0)
            + if stated then amount(ContractRate) else 0.0
  {
    var two := [Tier, Residency];
    assert two[..1] == [Tier] && [Tier][..0] == [];
    assert AmountSum(two, amount) == amount(Tier) + amount(Residency);
    var three := two + if high then [SharedKey] else [];
    assert high ==> three[..2] == two;
    assert !high ==> three == two;
    assert stated ==> Named(high, stated)[..|three|] == three;
    assert !stated ==> Named(high, stated) == three;
  }

  lemma {:induction false} HeldExactly(names: seq<CauseName>, amount: CauseName -> real, name: CauseName)
    ensures name in HeldCauses(names, amount) <==> name in names && amount(name) != 0.0
  {
    if names != [] {
      var init, last := names[..|names| - 1], names[|names| - 1];
      assert names == init + [last];
      HeldExactly(init, amount, name);
    }
  }

  /**
  A cause states what the tiers, or the regions, add on the provider's side past the ledger's;
  what the provider's tokens cost past the ledger's; or how far the amount is from the list.
  */
  lemma CausesState(check: DollarCheck, w: Walker, group: LedgerGroup, usage: seq<Usage>, cost: CostTotal, high: bool,
                    i: nat)
    requires group.billed && IsCheck(check, w, group, usage, cost, high) && i < |check.causes|
    ensures var mine, theirs := PricedAt(w, group.records), PricedAt(w, usage);
            Value(check.causes[i].amount) ==
            match check.causes[i].name
            case Tier => (theirs(Tiered) - theirs(Standard)) - (mine(Tiered) - mine(Standard))
            case Residency => (theirs(Served) - theirs(Tiered)) - (mine(Served) - mine(Tiered))
            case SharedKey => theirs(Standard) - mine(Standard)
            case ContractRate => Value(cost.amount) - if cost.list.Some? then Value(cost.list.value) else 0.0
  {
    hide Value, ValueAt, CauseSum, CostAt, Close, Sub, RoundingOf, IsNormal, AmountSum, NamesOf, HeldCauses, Named;
  }

  lemma StatedCauses(check: DollarCheck, w: Walker, group: LedgerGroup, usage: seq<Usage>, cost: CostTotal, high: bool)
    requires group.billed && IsCheck(check, w, group, usage, cost, high)
    ensures NamesOf(check.causes) == HeldCauses(Named(high, cost.list.Some?), Amounts(w, group, usage, cost))
  {
    hide Value, CauseSum, Amounts, Close, Sub, RoundingOf, IsNormal, AmountSum, HeldCauses, NamesOf, Named;
  }

  /**
  A cause is named exactly when it accounts for something: the tiers and the regions always, a
  shared key where the provider counts more, a contract where a list is stated.
  */
  lemma NamedExactly(check: DollarCheck, w: Walker, group: LedgerGroup, usage: seq<Usage>, cost: CostTotal, high: bool,
                     name: CauseName)
    requires group.billed && IsCheck(check, w, group, usage, cost, high)
    ensures (exists i :: 0 <= i < |check.causes| && check.causes[i].name == name) <==>
            && Amounts(w, group, usage, cost)(name) != 0.0
            && (name == SharedKey ==> high) && (name == ContractRate ==> cost.list.Some?)
  {
    hide IsCheck, Amounts;
    StatedCauses(check, w, group, usage, cost, high);
    HeldExactly(Named(high, cost.list.Some?), Amounts(w, group, usage, cost), name);
    if name in NamesOf(check.causes) {
      var i :| 0 <= i < |check.causes| && NamesOf(check.causes)[i] == name;
      assert check.causes[i].name == name;
    }
    if i :| 0 <= i < |check.causes| && check.causes[i].name == name {
      assert NamesOf(check.causes)[i] == name;
    }
  }

  /** Tokens all at the standard tier name no tier, and tokens that no region multiplies no residency. */
  lemma NoTierNoRegionNoCause(check: DollarCheck, w: Walker, group: LedgerGroup, usage: seq<Usage>, cost: CostTotal,
                              high: bool, i: nat)
    requires group.billed && IsCheck(check, w, group, usage, cost, high) && i < |check.causes|
    ensures (forall r | r in group.records + usage :: r.tier == "standard") ==> check.causes[i].name != Tier
    ensures (forall r | r in group.records + usage :: r.region == "" || r.region == "global") ==>
        check.causes[i].name != Residency
  {
    hide IsCheck, CostAt, PricesOf, Value;
    NamedExactly(check, w, group, usage, cost, high, check.causes[i].name);
    if forall r | r in group.records + usage :: r.tier == "standard" {
      StandardTierAddsNothing(w, group.records);
      StandardTierAddsNothing(w, usage);
    }
    if forall r | r in group.records + usage :: r.region == "" || r.region == "global" {
      RegionsWithoutMultiplier(w, group.records);
      RegionsWithoutMultiplier(w, usage);
    }
  }

  /**
  The rounding of a check is the list's distance from the ledger, within FOCUS's tolerance of a
  dollar, or half a cent times the root of the rows.
  */
  lemma RoundingOfCheck(check: DollarCheck, w: Walker, group: LedgerGroup, usage: seq<Usage>, cost: CostTotal,
                        high: bool, root: real)
    requires group.billed && IsCheck(check, w, group, usage, cost, high)
    requires root >= 0.0 && root * root == group.rows as real
    ensures check.rounding.Some? <==> cost.list.Some?
    ensures check.rounding.Some? ==>
        var variance := Value(cost.list.value) - Value(group.list);
        && check.rounding.value.rows == group.rows && Value(check.rounding.value.variance) == variance
        && (check.rounding.value.within <==>
              100.0 * Distance(variance, 0.0) <= 100.0 || 100.0 * Distance(variance, 0.0) <= 0.5 * root)
  {
    hide Value, Sub, Distance, WithinRounding, Explains, Close;
    if cost.list.Some? {
      RoundingIsTheStandards(CURRENCY, group.rows, Sub(cost.list.value, group.list), root);
      assert Pow10(2) == 100;
    }
  }

  /** What stays unattributed, whichever causes there can be. */
  lemma UnattributedIs(check: DollarCheck, w: Walker, group: LedgerGroup, usage: seq<Usage>, cost: CostTotal,
                       high: bool)
    requires group.billed && IsCheck(check, w, group, usage, cost, high)
    ensures var mine, theirs := PricedAt(w, group.records), PricedAt(w, usage);
            Value(check.unattributed) ==
            (if cost.list.Some? then Value(cost.list.value) else Value(cost.amount)) - Value(group.list)
            - (if high then theirs(Served) - mine(Served)
               else (theirs(Served) - theirs(Standard)) - (mine(Served) - mine(Standard)))
  {
    hide Value, ValueAt, CauseSum, HeldCauses, NamesOf, AmountSum, CostAt, Close, Sub, RoundingOf, IsNormal;
    NamedSum(Amounts(w, group, usage, cost), high, cost.list.Some?);
  }

  /**
  Whether the provider counts more is read off the checks: it does when a class compared is past
  the ledger's count by more than the tolerance.
  */
  lemma ProviderHighExactly(tokens: seq<TokenCheck>, ledger: Meter -> real, provider: Meter -> real)
    requires Compares(tokens, ledger, provider)
    ensures ProviderHigh(tokens) <==>
            exists m :: m in COMPARED && provider(m) > ledger(m)
                        && !Close(ledger(m), provider(m), TOKEN_TOLERANCE_PERCENT)
  {
    hide Compares, Close, Value;
    if ProviderHigh(tokens) {
      var i :| 0 <= i < |tokens| && !tokens[i].within && Sign(tokens[i].delta) > 0;
      CheckedExactly(tokens, ledger, provider, tokens[i].meter);
      CheckOfCompared(tokens, ledger, provider, i);
    }
    if m :| m in COMPARED && provider(m) > ledger(m) && !Close(ledger(m), provider(m), TOKEN_TOLERANCE_PERCENT) {
      CheckedExactly(tokens, ledger, provider, m);
      var i :| 0 <= i < |tokens| && tokens[i].meter == m;
      CheckOfCompared(tokens, ledger, provider, i);
    }
  }

  lemma CheckOfCompared(tokens: seq<TokenCheck>, ledger: Meter -> real, provider: Meter -> real, i: nat)
    requires Compares(tokens, ledger, provider) && i < |tokens|
    ensures Value(tokens[i].delta) == provider(tokens[i].meter) - ledger(tokens[i].meter)
    ensures tokens[i].within <==>
            Close(ledger(tokens[i].meter), provider(tokens[i].meter), TOKEN_TOLERANCE_PERCENT)
  {
    hide Close, Value;
  }

  /**
  With a shared key and a stated list the causes telescope: what stays unattributed is
  what either side's list amount holds past its tokens as served.
  */
  lemma UnattributedTelescopes(check: DollarCheck, w: Walker, group: LedgerGroup, usage: seq<Usage>, cost: CostTotal)
    requires group.billed && cost.list.Some? && IsCheck(check, w, group, usage, cost, true)
    ensures Value(check.unattributed) ==
            (Value(cost.list.value) - CostAt(w, usage, Served)) - (Value(group.list) - CostAt(w, group.records, Served))
  {
    hide Value, ValueAt, IsCheck, CostAt;
    UnattributedIs(check, w, group, usage, cost, true);
  }

  /**
  Tokens both sides agree on explain nothing: when they cost the same at every basis,
  the only cause there can be is the contract's rate, and unattributed is what the list
  total, or the amount where there is none, holds past the ledger.
  */
  lemma SameTokensExplainNothing(check: DollarCheck, w: Walker, group: LedgerGroup, usage: seq<Usage>,
                                 cost: CostTotal, high: bool)
    requires group.billed && IsCheck(check, w, group, usage, cost, high)
    requires forall basis :: CostAt(w, group.records, basis) == CostAt(w, usage, basis)
    ensures forall i | 0 <= i < |check.causes| :: check.causes[i].name == ContractRate
    ensures Value(check.unattributed) ==
            (if cost.list.Some? then Value(cost.list.value) else Value(cost.amount)) - Value(group.list)
  {
    hide Value, ValueAt, CostAt, IsCheck;
    UnattributedIs(check, w, group, usage, cost, high);
    forall i | 0 <= i < |check.causes|
      ensures check.causes[i].name == ContractRate
    {
      NamedExactly(check, w, group, usage, cost, high, check.causes[i].name);
    }
  }
}
