/**
The figures, traces and requests the comment adds up from a run's rows
(internal/comment/rows.go). One bad row refuses them all.
*/
module CommentRows {
  import opened Wrappers
  import opened Decimals
  import opened DecimalText
  import opened Focus
  import opened RowArithmetic
  import opened Sums

  const MAX_REQUESTS := 100000

  /** The one attribution a comment states, whatever a row claims. */
  const ARTIFACT_ATTRIBUTION := "unattributed"

  datatype FigureKey = FigureKey(currency: string, basis: string, attribution: string, enforcement: string)
  datatype SpendKey = SpendKey(currency: string, basis: string)
  datatype TraceKey = TraceKey(catalog: string, priceId: string, class_: TokenClass, price: string, unit: string)

  /** `^[A-Z]{3}$`. */
  predicate IsCurrency(text: string) {
    |text| == 3 && forall i | 0 <= i < 3 :: 'A' <= text[i] <= 'Z'
  }

  /** The bases a row's cost may state, which are also those a report's figure may. */
  const BASES := {"measured", "list_equivalent", "estimate", "billed", "derived"}

  const GRADES := {"exact", "windowed", "unattributed"}

  const ENFORCEMENTS := {"none", "provider", "agent-flag", "wrapper-watchdog", "gateway-precheck"}

  predicate InVocabulary(tag: Option<string>, vocabulary: set<string>) {
    tag.Some? && tag.value in vocabulary
  }

  function Key(r: RowText): Option<FigureKey> {
    if !InVocabulary(r.basis, BASES) || !InVocabulary(r.attribution, GRADES)
       || !InVocabulary(r.enforcement, ENFORCEMENTS)
    then None else
      Some(FigureKey(r.billingCurrency, r.basis.value, ARTIFACT_ATTRIBUTION, r.enforcement.value))
  }

  predicate Accepts(r: RowText) {
    IsCurrency(r.billingCurrency) && Arithmetic(r).Some? && Key(r).Some?
  }

  lemma CurrencyLetters(text: string)
    ensures IsCurrency(text) <==> |text| == 3 && forall c | c in text :: 'A' <= c <= 'Z'
  {
    if |text| == 3 && forall c | c in text :: 'A' <= c <= 'Z' {
      assert forall i | 0 <= i < 3 :: text[i] in text;
    }
  }

  /** Whether a column holds one of the words a row may state there. */
  predicate States(tag: Option<string>, words: set<string>) {
    exists word | word in words :: tag == Some(word)
  }

  /** A row is read exactly when its currency, its three tags and its arithmetic are. */
  lemma AcceptsExactly(r: RowText)
    ensures Accepts(r) <==>
            && |r.billingCurrency| == 3 && (forall c | c in r.billingCurrency :: 'A' <= c <= 'Z')
            && States(r.basis, {"measured", "list_equivalent", "estimate", "billed", "derived"})
            && States(r.attribution, {"exact", "windowed", "unattributed"})
            && States(r.enforcement, {"none", "provider", "agent-flag", "wrapper-watchdog", "gateway-precheck"})
            && Arithmetic(r).Some?
  {
    hide Arithmetic, IsCurrency;
    CurrencyLetters(r.billingCurrency);
  }

  // ---- Figures and traces -------------------------------------------------

  datatype Figure = Figure(cost: Decimal, rows: nat, traces: map<TraceKey, Trace>, tokens: map<TokenClass, Decimal>)

  const NO_FIGURE := Figure(ZERO, 0, map[], map[])

  function TokensIn(tokens: map<TokenClass, Decimal>, class_: TokenClass): Decimal {
    if class_ in tokens then tokens[class_] else ZERO
  }

  /** Rows are merged by the printed price. */
  function KeyOf(t: Trace): TraceKey {
    TraceKey(t.catalog, t.priceId, t.class_, Text(t.unitPrice), t.unit)
  }

  /** Rows share a trace line exactly when they share catalog, price id, class and unit, and one exact price. */
  lemma LinesMergeExactly(a: Trace, b: Trace)
    ensures KeyOf(a) == KeyOf(b) <==>
            && a.catalog == b.catalog && a.priceId == b.priceId && a.class_ == b.class_ && a.unit == b.unit
            && Value(a.unitPrice) == Value(b.unitPrice)
  {
    TextIsFaithful(a.unitPrice, b.unitPrice);
  }

  function Merged(f: Figure, priced: Trace): Trace {
    var line := if KeyOf(priced) in f.traces then f.traces[KeyOf(priced)] else priced.(tokens := ZERO, cost := ZERO);
    line.(tokens := Add(line.tokens, priced.tokens), cost := Add(line.cost, priced.cost))
  }

  function AddToFigure(f: Figure, priced: Trace): Figure {
    Figure(Add(f.cost, priced.cost), f.rows + 1,
           f.traces[KeyOf(priced) := Merged(f, priced)],
           f.tokens[priced.class_ := Add(TokensIn(f.tokens, priced.class_), priced.tokens)])
  }

  ghost function CostPart(): (TraceKey, Trace) -> real {
    (_: TraceKey, t: Trace) => Value(t.cost)
  }

  ghost function TokensPart(class_: TokenClass): (TraceKey, Trace) -> real {
    (_: TraceKey, t: Trace) => if t.class_ == class_ then Value(t.tokens) else 0.0
  }

  /** A figure is the sum of its trace lines, each line recomputes, and nothing is owed back. */
  ghost predicate Sound(f: Figure) {
    && Value(f.cost) >= 0.0
    && Value(f.cost) == MapSum(f.traces, CostPart())
    && (forall class_ :: Value(TokensIn(f.tokens, class_)) == MapSum(f.traces, TokensPart(class_)))
    && (forall k | k in f.traces :: KeyOf(f.traces[k]) == k && Exact(f.traces[k]))
  }

  lemma SharesAdd(p: real, q: real, size: real, cost: real, tokens: real, more: real, moreTokens: real)
    requires p == q && cost * size == p * tokens && more * size == q * moreTokens
    ensures (cost + more) * size == p * (tokens + moreTokens)
  {
    assert (cost + more) * size == cost * size + more * size;
  }

  lemma NothingCosts(p: real, size: real)
    ensures 0.0 * size == p * 0.0
  {
  }

  /** Lines that print one price have one price, so their sum still recomputes. */
  lemma MergedIsExact(f: Figure, priced: Trace)
    requires Sound(f) && Exact(priced)
    ensures Exact(Merged(f, priced)) && KeyOf(Merged(f, priced)) == KeyOf(priced)
  {
    hide Text, UnitSize, MapSum, ValueAt, Value, TokensPart, CostPart;
    var k := KeyOf(priced);
    var line := if k in f.traces then f.traces[k] else priced.(tokens := ZERO, cost := ZERO);
    TextIsFaithful(line.unitPrice, priced.unitPrice);
    ZeroIsZero();
    var size := Value(UnitSize(priced.class_, priced.unit).value);
    NothingCosts(Value(priced.unitPrice), size);
    SharesAdd(Value(line.unitPrice), Value(priced.unitPrice), size,
              Value(line.cost), Value(line.tokens), Value(priced.cost), Value(priced.tokens));
  }

  lemma MergedSums(f: Figure, priced: Trace)
    ensures var line, k := Merged(f, priced), KeyOf(priced);
            && Value(line.cost) == (if k in f.traces then Value(f.traces[k].cost) else 0.0) + Value(priced.cost)
            && Value(line.tokens) == (if k in f.traces then Value(f.traces[k].tokens) else 0.0) + Value(priced.tokens)
            && (k !in f.traces ==> line.class_ == priced.class_)
  {
    hide Text, ValueAt, Value, KeyOf;
    ZeroIsZero();
  }

  lemma ClassTokensAdd(f: Figure, priced: Trace, class_: TokenClass)
    requires Sound(f) && KeyOf(Merged(f, priced)) == KeyOf(priced)
    ensures Value(TokensIn(AddToFigure(f, priced).tokens, class_)) ==
            MapSum(AddToFigure(f, priced).traces, TokensPart(class_))
  {
    hide Text, MapSum, ValueAt, Value, Exact, Merged;
    ZeroIsZero();
    MergedSums(f, priced);
    MapSumUpdate(f.traces, KeyOf(priced), Merged(f, priced), TokensPart(class_));
  }

  /** Adding a row that recomputes keeps the figure the sum of its traces. */
  lemma AddKeepsSound(f: Figure, priced: Trace)
    requires Sound(f) && Exact(priced) && Value(priced.cost) >= 0.0
    ensures Sound(AddToFigure(f, priced))
  {
    hide Text, MapSum, ValueAt, Value, Exact, Merged, KeyOf, TokensPart, TokensIn;
    MergedIsExact(f, priced);
    MergedSums(f, priced);
    MapSumUpdate(f.traces, KeyOf(priced), Merged(f, priced), CostPart());
    forall class_
      ensures Value(TokensIn(AddToFigure(f, priced).tokens, class_)) ==
              MapSum(AddToFigure(f, priced).traces, TokensPart(class_))
    {
      ClassTokensAdd(f, priced, class_);
    }
  }

  lemma NoFigureIsSound()
    ensures Sound(NO_FIGURE)
  {
    EmptyMapSum(CostPart());
    forall class_
      ensures Value(TokensIn(NO_FIGURE.tokens, class_)) == MapSum(NO_FIGURE.traces, TokensPart(class_))
    {
      EmptyMapSum(TokensPart(class_));
    }
  }

  // ---- Requests -----------------------------------------------------------

  /** One request's cost and billed tokens, and when it ended. */
  datatype Request = Request(end: string, cost: Decimal, tokens: Decimal)

  /** What the rows of one request share. */
  datatype RequestKey = RequestKey(start: string, end: string, session: string, model: string)

  function RequestOf(r: RowText): RequestKey {
    RequestKey(r.chargePeriodStart, r.chargePeriodEnd, r.session, r.model)
  }

  datatype RequestLog = RequestLog(requests: seq<Request>, current: RequestKey, classes: set<TokenClass>,
                                   overflow: bool)

  const NO_REQUESTS := RequestLog([], RequestKey("", "", "", ""), {}, false)

  function WithRow(last: Request, priced: Trace): Request {
    Request(last.end, Add(last.cost, priced.cost),
            if priced.class_.Informational() then last.tokens else Add(last.tokens, priced.tokens))
  }

  /** The log with one row more: in its last request, or in a new one, until there are too many. */
  function LogRequest(log: RequestLog, request: RequestKey, priced: Trace): RequestLog {
    if log.overflow then log
    else if log.requests == [] || request != log.current || priced.class_ in log.classes then
      if |log.requests| == MAX_REQUESTS then log.(requests := [], overflow := true) else
        RequestLog(log.requests + [WithRow(Request(request.end, ZERO, ZERO), priced)], request, {priced.class_}, false)
    else
      var last := |log.requests| - 1;
      RequestLog(log.requests[last := WithRow(log.requests[last], priced)], log.current,
                 log.classes + {priced.class_}, false)
  }

  ghost function RequestCosts(requests: seq<Request>): real {
    if requests == [] then 0.0 else Value(requests[0].cost) + RequestCosts(requests[1..])
  }

  /** Nothing is negative, and no request costs without billed tokens. */
  ghost predicate SensibleRequest(r: Request) {
    Value(r.cost) >= 0.0 && Value(r.tokens) >= 0.0 && (Value(r.cost) > 0.0 ==> Value(r.tokens) > 0.0)
  }

  ghost predicate SensibleLog(log: RequestLog) {
    forall i | 0 <= i < |log.requests| :: SensibleRequest(log.requests[i])
  }

  lemma {:induction false} CostsAppend(requests: seq<Request>, r: Request)
    ensures RequestCosts(requests + [r]) == RequestCosts(requests) + Value(r.cost)
  {
    hide ValueAt, Value;
    if requests == [] {
      assert [r][1..] == [];
    } else {
      CostsAppend(requests[1..], r);
      assert (requests + [r])[1..] == requests[1..] + [r];
    }
  }

  lemma CostsUpdateLast(requests: seq<Request>, r: Request)
    requires requests != []
    ensures RequestCosts(requests[|requests| - 1 := r]) ==
            RequestCosts(requests) - Value(requests[|requests| - 1].cost) + Value(r.cost)
  {
    hide ValueAt, Value, RequestCosts;
    var init, last := requests[..|requests| - 1], requests[|requests| - 1];
    CostsAppend(init, r);
    CostsAppend(init, last);
    assert requests[|requests| - 1 := r] == init + [r] && requests == init + [last];
  }

  /** A row adds its cost to the log, while the log holds. */
  lemma LogAddsCost(log: RequestLog, request: RequestKey, priced: Trace)
    requires SensibleLog(log) && Sensible(priced)
    ensures var next := LogRequest(log, request, priced);
            && SensibleLog(next)
            && (!next.overflow ==>
                  && !log.overflow && next.requests != []
                  && RequestCosts(next.requests) == RequestCosts(log.requests) + Value(priced.cost))
  {
    hide ValueAt, Value, RequestCosts;
    ZeroIsZero();
    if !log.overflow {
      if log.requests == [] || request != log.current || priced.class_ in log.classes {
        CostsAppend(log.requests, WithRow(Request(request.end, ZERO, ZERO), priced));
      } else {
        CostsUpdateLast(log.requests, WithRow(log.requests[|log.requests| - 1], priced));
      }
    }
  }

  // ---- The tally ----------------------------------------------------------

  ghost function InCurrency(currency: string): (FigureKey, Figure) -> real {
    (k: FigureKey, f: Figure) => if k.currency == currency then Value(f.cost) else 0.0
  }

  ghost function InSpend(spend: SpendKey): (FigureKey, Figure) -> real {
    (k: FigureKey, f: Figure) => if SpendKey(k.currency, k.basis) == spend then Value(f.cost) else 0.0
  }

  /** The row's list cost, where it has one. */
  ghost function ListCost(r: RowText): real {
    var cost := ParseAmount(r.listCost);
    if cost.Some? then Value(cost.value) else 0.0
  }

  /** What the rows of one currency cost. */
  ghost function CostIn(rows: seq<RowText>, currency: string): real {
    if rows == [] then 0.0 else
      var last := rows[|rows| - 1];
      CostIn(rows[..|rows| - 1], currency) + if last.billingCurrency == currency then ListCost(last) else 0.0
  }

  /**
  Every figure is the sum of its traces, in a currency and of a basis there are, and a
  currency's add up to its rows.
  */
  ghost predicate FiguresHold(figures: map<FigureKey, Figure>, read: seq<RowText>) {
    && (forall k | k in figures :: Sound(figures[k]) && IsCurrency(k.currency) && k.basis in BASES)
    && (forall currency: string :: MapSum(figures, InCurrency(currency)) == CostIn(read, currency))
  }

  /** The requests logged for a currency and basis add up to its figures. */
  ghost predicate RequestsHold(figures: map<FigureKey, Figure>, requests: map<SpendKey, RequestLog>) {
    && (forall spend | spend in requests :: SensibleLog(requests[spend])
          && (!requests[spend].overflow ==> RequestCosts(requests[spend].requests) == MapSum(figures, InSpend(spend))))
    && (forall k | k in figures :: SpendKey(k.currency, k.basis) in requests)
    && (forall spend: SpendKey | spend !in requests :: MapSum(figures, InSpend(spend)) == 0.0)
  }

  function FigureAt(figures: map<FigureKey, Figure>, k: FigureKey): Figure {
    if k in figures then figures[k] else NO_FIGURE
  }

  function LogAt(requests: map<SpendKey, RequestLog>, spend: SpendKey): RequestLog {
    if spend in requests then requests[spend] else NO_REQUESTS
  }

  lemma FigureGrows(figures: map<FigureKey, Figure>, k: FigureKey, priced: Trace, f: (FigureKey, Figure) -> real,
                    counts: bool)
    requires forall figure: Figure :: f(k, figure) == if counts then Value(figure.cost) else 0.0
    ensures MapSum(figures[k := AddToFigure(FigureAt(figures, k), priced)], f) ==
            MapSum(figures, f) + if counts then Value(priced.cost) else 0.0
  {
    hide MapSum, ValueAt, Value, Text, Merged, KeyOf;
    ZeroIsZero();
    MapSumUpdate(figures, k, AddToFigure(FigureAt(figures, k), priced), f);
  }

  lemma FiguresStep(figures: map<FigureKey, Figure>, read: seq<RowText>, r: RowText)
    requires FiguresHold(figures, read) && Accepts(r)
    ensures FiguresHold(figures[Key(r).value := AddToFigure(FigureAt(figures, Key(r).value), Arithmetic(r).value)],
                        read + [r])
  {
    hide Sound, Arithmetic, AddToFigure, MapSum, ValueAt, Value, ParseAmount, IsCurrency;
    var k, priced := Key(r).value, Arithmetic(r).value;
    AcceptedIsExact(r);
    NoFigureIsSound();
    AddKeepsSound(FigureAt(figures, k), priced);
    var next := figures[k := AddToFigure(FigureAt(figures, k), priced)];
    forall currency: string
      ensures MapSum(next, InCurrency(currency)) == CostIn(read + [r], currency)
    {
      FigureGrows(figures, k, priced, InCurrency(currency), k.currency == currency);
      assert (read + [r])[..|read|] == read;
    }
  }

  lemma RequestsStep(figures: map<FigureKey, Figure>, requests: map<SpendKey, RequestLog>, r: RowText,
                     request: RequestKey)
    requires RequestsHold(figures, requests) && Accepts(r)
    ensures var k, priced := Key(r).value, Arithmetic(r).value;
            var spend := SpendKey(k.currency, k.basis);
            RequestsHold(figures[k := AddToFigure(FigureAt(figures, k), priced)],
                         requests[spend := LogRequest(LogAt(requests, spend), request, priced)])
  {
    hide Arithmetic, AddToFigure, LogRequest, MapSum, ValueAt, Value, RequestCosts, SensibleLog, IsCurrency;
    var k, priced := Key(r).value, Arithmetic(r).value;
    var spend := SpendKey(k.currency, k.basis);
    AcceptedIsExact(r);
    NoRequestsAreSensible();
    LogAddsCost(LogAt(requests, spend), request, priced);
    forall other: SpendKey
      ensures MapSum(figures[k := AddToFigure(FigureAt(figures, k), priced)], InSpend(other)) ==
              MapSum(figures, InSpend(other)) + if spend == other then Value(priced.cost) else 0.0
    {
      FigureGrows(figures, k, priced, InSpend(other), spend == other);
    }
  }

  lemma NoRequestsAreSensible()
    ensures SensibleLog(NO_REQUESTS) && RequestCosts(NO_REQUESTS.requests) == 0.0
  {
  }
}
