/** The run's cap beside its figures, and the tokens spent past it (internal/comment/budget.go and rows.go). */
module Overshoot {
  import opened Wrappers
  import opened Decimals
  import opened CommentRows
  import opened Sorting
  import opened Sums

  const BUDGET_CURRENCY := "USD"

  // ---- The tokens past the cap --------------------------------------------

  function EndOf(r: Request): string {
    r.end
  }

  /** What the first n requests cost. */
  ghost function SpentTo(requests: seq<Request>, n: nat): real
    requires n <= |requests|
  {
    RequestCosts(requests[..n])
  }

  ghost function TokensFrom(requests: seq<Request>, n: nat): real
    requires n <= |requests|
    decreases |requests| - n
  {
    if n == |requests| then 0.0 else Value(requests[n].tokens) + TokensFrom(requests, n + 1)
  }

  /** The first request, from i on, that takes the spend past the cap: the count of requests when none does. */
  ghost function Crossing(requests: seq<Request>, cap: real, i: nat): (c: nat)
    requires i <= |requests|
    ensures i <= c <= |requests|
    ensures forall j | i < j <= c :: SpentTo(requests, j) <= cap
    ensures c < |requests| ==> SpentTo(requests, c + 1) > cap
    decreases |requests| - i
  {
    if i == |requests| || SpentTo(requests, i + 1) > cap then i else Crossing(requests, cap, i + 1)
  }

  lemma SpentNext(requests: seq<Request>, i: nat)
    requires i < |requests|
    ensures SpentTo(requests, i + 1) == SpentTo(requests, i) + Value(requests[i].cost)
  {
    CostsAppend(requests[..i], requests[i]);
    assert requests[..i + 1] == requests[..i] + [requests[i]];
  }

  /**
  overshootTokens: what the requests from the crossing one on were billed for, taken in
  the order they ended. None when no log of the requests was kept.
  */
  method OvershootTokens(log: Option<RequestLog>, cap: Decimal) returns (tokens: Option<Decimal>)
    ensures tokens.Some? <==> log.Some? && !log.value.overflow
    ensures tokens.Some? ==>
        var sorted := SortBy(EndOf, log.value.requests);
        Value(tokens.value) == TokensFrom(sorted, Crossing(sorted, Value(cap), 0))
  {
    hide ValueAt, Value, SpentTo, SortBy;
    if log.None? || log.value.overflow {
      return None;
    }
    var requests := SortBy(EndOf, log.value.requests);
    var spent, sum, over := ZERO, ZERO, false;
    ghost var crossing := Crossing(requests, Value(cap), 0);
    ZeroIsZero();
    NothingSpent(requests);
    for i := 0 to |requests|
      invariant Value(spent) == SpentTo(requests, i)
      invariant over <==> crossing < i
      invariant !over ==> Value(sum) == 0.0 && crossing == Crossing(requests, Value(cap), i)
      invariant over ==> Value(sum) + TokensFrom(requests, i) == TokensFrom(requests, crossing)
    {
      SpentNext(requests, i);
      spent := Add(spent, requests[i].cost);
      over := over || Cmp(spent, cap) > 0;
      if over {
        sum := Add(sum, requests[i].tokens);
      }
    }
    return Some(sum);
  }

  lemma NothingSpent(requests: seq<Request>)
    ensures SpentTo(requests, 0) == 0.0
  {
    assert requests[..0] == [];
  }

  // ---- Sorting changes no total -------------------------------------------

  lemma {:induction false} InsertCosts(s: seq<Request>, x: Request)
    ensures RequestCosts(InsertBy(EndOf, s, x)) == RequestCosts(s) + Value(x.cost)
  {
    hide ValueAt, Value, Leq, RequestCosts;
    if s == [] || Leq(EndOf(s[|s| - 1]), EndOf(x)) {
      CostsAppend(s, x);
    } else {
      var init, last := s[..|s| - 1], s[|s| - 1];
      InsertCosts(init, x);
      CostsAppend(InsertBy(EndOf, init, x), last);
      CostsAppend(init, last);
      assert s == init + [last];
    }
  }

  lemma {:induction false} SortKeepsCosts(s: seq<Request>)
    ensures RequestCosts(SortBy(EndOf, s)) == RequestCosts(s)
  {
    hide ValueAt, Value, InsertBy;
    if s != [] {
      var init, last := s[..|s| - 1], s[|s| - 1];
      SortKeepsCosts(init);
      InsertCosts(SortBy(EndOf, init), last);
      CostsAppend(init, last);
      assert s == init + [last];
    }
  }

  lemma SortKeepsSensible(s: seq<Request>)
    requires forall i | 0 <= i < |s| :: SensibleRequest(s[i])
    ensures forall i | 0 <= i < |SortBy(EndOf, s)| :: SensibleRequest(SortBy(EndOf, s)[i])
  {
    hide SensibleRequest, SortBy;
    SortBySorts(EndOf, s);
    var sorted := SortBy(EndOf, s);
    forall i | 0 <= i < |sorted|
      ensures SensibleRequest(sorted[i])
    {
      assert sorted[i] in multiset(sorted);
      assert sorted[i] in multiset(s);
    }
  }

  lemma {:induction false} SpendGrows(requests: seq<Request>, i: nat, j: nat)
    requires i <= j <= |requests| && forall k | 0 <= k < |requests| :: SensibleRequest(requests[k])
    ensures SpentTo(requests, i) <= SpentTo(requests, j)
    decreases j - i
  {
    hide SpentTo;
    if i < j {
      SpentNext(requests, j - 1);
      SpendGrows(requests, i, j - 1);
    }
  }

  lemma {:induction false} TokensArePositive(requests: seq<Request>, n: nat)
    requires n <= |requests| && forall k | 0 <= k < |requests| :: SensibleRequest(requests[k])
    ensures TokensFrom(requests, n) >= 0.0
    ensures n < |requests| ==> TokensFrom(requests, n) >= Value(requests[n].tokens)
    decreases |requests| - n
  {
    if n < |requests| {
      TokensArePositive(requests, n + 1);
    }
  }

  /** With a cap of zero or more, tokens were spent past it exactly when the requests cost more than it. */
  lemma TokensPastExactlyWhenOver(requests: seq<Request>, cap: real)
    requires forall k | 0 <= k < |requests| :: SensibleRequest(requests[k])
    requires cap >= 0.0
    ensures TokensFrom(requests, Crossing(requests, cap, 0)) > 0.0 <==> RequestCosts(requests) > cap
  {
    hide SpentTo, RequestCosts, Crossing, TokensFrom;
    var c := Crossing(requests, cap, 0);
    SpentAll(requests);
    NothingSpent(requests);
    TokensArePositive(requests, c);
    if c < |requests| {
      SpentNext(requests, c);
      SpendGrows(requests, c + 1, |requests|);
      assert c > 0 ==> SpentTo(requests, c) <= cap;
    } else {
      NoTokensAtEnd(requests);
      assert |requests| > 0 ==> SpentTo(requests, |requests|) <= cap;
    }
  }

  lemma SpentAll(requests: seq<Request>)
    ensures SpentTo(requests, |requests|) == RequestCosts(requests)
  {
    assert requests[..|requests|] == requests;
  }

  lemma NoTokensAtEnd(requests: seq<Request>)
    ensures TokensFrom(requests, |requests|) == 0.0
  {
  }

  // ---- The cap beside the figures -----------------------------------------

  /** What is stated once one figure is compared with the cap. */
  datatype Comparison = Comparison(cost: Decimal, basis: string, remainder: Decimal, overshoot: Decimal,
                                   tokens: Option<Decimal>)

  /** The bases of the figures in the cap's currency. */
  ghost function Bases(keys: set<FigureKey>): set<string> {
    set k | k in keys && k.currency == BUDGET_CURRENCY :: k.basis
  }

  ghost function Members(keys: seq<FigureKey>): set<FigureKey> {
    set k | k in keys
  }

  predicate Distinct(keys: seq<FigureKey>) {
    forall i, j | 0 <= i < j < |keys| :: keys[i] != keys[j]
  }

  lemma {:induction false} DistinctSize(keys: seq<FigureKey>)
    requires Distinct(keys)
    ensures |Members(keys)| == |keys|
  {
    if keys == [] {
      assert Members(keys) == {};
    } else {
      var init, last := keys[..|keys| - 1], keys[|keys| - 1];
      DistinctSize(init);
      assert Members(keys) == Members(init) + {last};
    }
  }

  lemma SameSize(a: set<FigureKey>, b: set<FigureKey>)
    requires a <= b && |a| == |b|
    ensures a == b
  {
    assert |b - a| == |b| - |a|;
  }

  /** Distinct figures that leave none out are all of them. */
  lemma AllShown(figures: map<FigureKey, Figure>, shown: seq<FigureKey>)
    requires Distinct(shown) && (forall k | k in shown :: k in figures) && |shown| == |figures|
    ensures Members(shown) == figures.Keys
  {
    DistinctSize(shown);
    SameSize(Members(shown), figures.Keys);
  }

  ghost function UsdCost(figures: map<FigureKey, Figure>): FigureKey -> real {
    (k: FigureKey) => if k in figures && k.currency == BUDGET_CURRENCY then Value(figures[k].cost) else 0.0
  }

  lemma OneMore(figures: map<FigureKey, Figure>, shown: seq<FigureKey>, i: nat)
    requires Distinct(shown) && i < |shown|
    ensures SetSum(Members(shown[..i + 1]), UsdCost(figures)) ==
            SetSum(Members(shown[..i]), UsdCost(figures)) + UsdCost(figures)(shown[i])
    ensures Bases(Members(shown[..i + 1])) ==
            Bases(Members(shown[..i])) + if shown[i].currency == BUDGET_CURRENCY then {shown[i].basis} else {}
  {
    hide UsdCost;
    var before, after := Members(shown[..i]), Members(shown[..i + 1]);
    TakeAny(after, UsdCost(figures), shown[i]);
    assert shown[..i + 1] == shown[..i] + [shown[i]];
    assert after - {shown[i]} == before;
    assert after == before + {shown[i]};
  }

  lemma OneBasis(figures: map<FigureKey, Figure>, basis: string)
    requires Bases(figures.Keys) == {basis}
    ensures SetSum(figures.Keys, UsdCost(figures)) == MapSum(figures, InSpend(SpendKey(BUDGET_CURRENCY, basis)))
  {
    hide ValueAt, Value;
    var f := InSpend(SpendKey(BUDGET_CURRENCY, basis));
    forall k | k in figures
      ensures UsdCost(figures)(k) == f(k, figures[k])
    {
      assert k.currency == BUDGET_CURRENCY ==> k.basis in Bases(figures.Keys);
    }
    SumOverKeys(figures, f, UsdCost(figures));
  }

  /** Requests that add up to the figure overshoot in tokens exactly when it overshoots in cost. */
  lemma TokensAgreeWithCost(log: RequestLog, cost: real, cap: real)
    requires SensibleLog(log) && RequestCosts(log.requests) == cost && cap >= 0.0
    ensures var sorted := SortBy(EndOf, log.requests);
            TokensFrom(sorted, Crossing(sorted, cap, 0)) > 0.0 <==> cost > cap
  {
    hide SortBy, TokensFrom, Crossing, SensibleRequest, RequestCosts;
    SortKeepsCosts(log.requests);
    SortKeepsSensible(log.requests);
    TokensPastExactlyWhenOver(SortBy(EndOf, log.requests), cap);
  }

  /** The figures shown in the cap's currency: their bases, one of these, and their cost. */
  method UsdFigures(figures: map<FigureKey, Figure>, shown: seq<FigureKey>)
    returns (bases: set<string>, basis: string, cost: Decimal)
    requires Distinct(shown) && forall k | k in shown :: k in figures
    ensures bases == Bases(Members(shown)) && (bases != {} ==> basis in bases)
    ensures Value(cost) == SetSum(Members(shown), UsdCost(figures))
  {
    hide ValueAt, Value, Distinct, Bases, Members;
    bases, basis, cost := {}, "", ZERO;
    NoneShown(figures, shown);
    for i := 0 to |shown|
      invariant bases == Bases(Members(shown[..i]))
      invariant bases != {} ==> basis in bases
      invariant Value(cost) == SetSum(Members(shown[..i]), UsdCost(figures))
    {
      OneMore(figures, shown, i);
      if shown[i].currency == BUDGET_CURRENCY {
        bases := bases + {shown[i].basis};
        cost := Add(cost, figures[shown[i]].cost);
        basis := shown[i].basis;
      }
    }
    assert shown[..|shown|] == shown;
  }

  lemma NoneShown(figures: map<FigureKey, Figure>, shown: seq<FigureKey>)
    ensures Members(shown[..0]) == {} && Bases(Members(shown[..0])) == {}
    ensures SetSum(Members(shown[..0]), UsdCost(figures)) == Value(ZERO)
  {
    assert shown[..0] == [];
    assert Members([]) == {};
  }

  lemma NoMoreShown(figures: map<FigureKey, Figure>, shown: seq<FigureKey>)
    requires Distinct(shown) && forall k | k in shown :: k in figures
    ensures |shown| <= |figures|
  {
    DistinctSize(shown);
    assert Members(shown) <= figures.Keys;
    assert |figures.Keys - Members(shown)| == |figures.Keys| - |Members(shown)|;
  }

  lemma Singleton(bases: set<string>, basis: string)
    requires |bases| == 1 && basis in bases
    ensures bases == {basis}
  {
    assert |bases - {basis}| == 0;
  }

  /** What a comparison of the cap with one figure states. */
  ghost predicate Compares(c: Comparison, cost: real, cap: real) {
    && Value(c.cost) == cost
    && Value(c.remainder) - Value(c.overshoot) == cap - cost
    && Value(c.remainder) >= 0.0 && Value(c.overshoot) >= 0.0
    && (Value(c.remainder) == 0.0 || Value(c.overshoot) == 0.0)
  }

  /** The comparison itself, once the figures are known to be of one basis. */
  method Compare(cost: Decimal, basis: string, requests: map<SpendKey, RequestLog>, cap: Decimal)
    returns (c: Comparison)
    ensures c.basis == basis && Compares(c, Value(cost), Value(cap))
    ensures var spend := SpendKey(BUDGET_CURRENCY, basis);
            && (c.tokens.Some? <==> spend in requests && !requests[spend].overflow)
            && (c.tokens.Some? ==>
                  && var sorted := SortBy(EndOf, requests[spend].requests);
                  && Value(c.tokens.value) == TokensFrom(sorted, Crossing(sorted, Value(cap), 0)))
  {
    hide ValueAt, Value, SortBy, TokensFrom, Crossing;
    var over := Sub(cost, cap);
    var overshoot, remainder := ZERO, ZERO;
    ZeroIsZero();
    if Sign(over) > 0 {
      overshoot := over;
    } else {
      remainder := Sub(cap, cost);
    }
    var spend := SpendKey(BUDGET_CURRENCY, basis);
    var tokens := OvershootTokens(if spend in requests then Some(requests[spend]) else None, cap);
    return Comparison(cost, basis, remainder, overshoot, tokens);
  }

  /**
  capCheck over the figures shown, the rest being omitted: there is a comparison only
  when every figure is shown and those in dollars share one basis.
  */
  method CapCheck(figures: map<FigureKey, Figure>, shown: seq<FigureKey>, requests: map<SpendKey, RequestLog>,
                  cap: Decimal)
    returns (check: Option<Comparison>)
    requires Distinct(shown) && forall k | k in shown :: k in figures
    ensures check.Some? <==> |shown| == |figures| && |Bases(figures.Keys)| == 1
    ensures check.Some? ==>
        var spend := SpendKey(BUDGET_CURRENCY, check.value.basis);
        && Bases(figures.Keys) == {check.value.basis}
        && Compares(check.value, MapSum(figures, InSpend(spend)), Value(cap))
        && (check.value.tokens.Some? <==> spend in requests && !requests[spend].overflow)
        && (check.value.tokens.Some? ==>
              && var sorted := SortBy(EndOf, requests[spend].requests);
              && Value(check.value.tokens.value) == TokensFrom(sorted, Crossing(sorted, Value(cap), 0)))
        && (RequestsHold(figures, requests) && Value(cap) >= 0.0 && check.value.tokens.Some? ==>
              (Value(check.value.tokens.value) > 0.0 <==> Value(check.value.overshoot) > 0.0))
  {
    hide ValueAt, Value, Distinct, Bases, Members, MapSum, RequestCosts, SensibleLog, SortBy, TokensFrom, Crossing;
    NoMoreShown(figures, shown);
    if |shown| == |figures| {
      AllShown(figures, shown);
    }
    var bases, basis, cost := UsdFigures(figures, shown);
    if |bases| != 1 || |figures| - |shown| > 0 {
      return None;
    }
    Singleton(bases, basis);
    OneBasis(figures, basis);
    var c := Compare(cost, basis, requests, cap);
    if RequestsHold(figures, requests) && Value(cap) >= 0.0 && c.tokens.Some? {
      TokensAgreeWithCost(requests[SpendKey(BUDGET_CURRENCY, basis)], Value(cost), Value(cap));
    }
    return Some(c);
  }
}
