/**
What a figure of the comment states, row by row (figureTally in internal/comment/rows.go):
its cost, rows, tokens and trace lines are the sums over the rows that carry its key.
*/
module FigureRows {
  import opened Wrappers
  import opened Decimals
  import opened Focus
  import opened RowArithmetic
  import opened CommentRows
  import opened RequestRuns

  // ---- The rows of a figure, and of a log ---------------------------------

  /** The row is of the figure: its currency, basis and enforcement, and never an attribution of its own. */
  predicate IsOf(r: RowText, k: FigureKey) {
    && r.billingCurrency == k.currency && r.basis == Some(k.basis) && r.enforcement == Some(k.enforcement)
    && k.attribution == "unattributed"
  }

  /** What the rows of one figure are priced at, in order. */
  ghost function TracesIn(rows: seq<RowText>, k: FigureKey): seq<Trace> {
    if rows == [] then [] else
      var last := rows[|rows| - 1];
      TracesIn(rows[..|rows| - 1], k) +
      if IsOf(last, k) && Arithmetic(last).Some? then [Arithmetic(last).value] else []
  }

  /** The rows of one currency and basis, in order. */
  ghost function RowsIn(rows: seq<RowText>, spend: SpendKey): seq<RowText> {
    if rows == [] then [] else
      var last := rows[|rows| - 1];
      RowsIn(rows[..|rows| - 1], spend) +
      if last.billingCurrency == spend.currency && last.basis == Some(spend.basis) then [last] else []
  }

  /** A row is filed under the figure it is of, and under no other. */
  lemma KeyIsOf(r: RowText, k: FigureKey)
    requires Accepts(r)
    ensures Key(r) == Some(k) <==> IsOf(r, k)
  {
    hide IsCurrency, Arithmetic;
  }

  // ---- What a figure states -----------------------------------------------

  ghost function TraceSum(ts: seq<Trace>, part: Trace -> real): real {
    if ts == [] then 0.0 else TraceSum(ts[..|ts| - 1], part) + part(ts[|ts| - 1])
  }

  ghost function CostOfTrace(): Trace -> real {
    (t: Trace) => Value(t.cost)
  }

  ghost function TokensOfClass(class_: TokenClass): Trace -> real {
    (t: Trace) => if t.class_ == class_ then Value(t.tokens) else 0.0
  }

  ghost function LineCost(k: TraceKey): Trace -> real {
    (t: Trace) => if KeyOf(t) == k then Value(t.cost) else 0.0
  }

  ghost function LineTokens(k: TraceKey): Trace -> real {
    (t: Trace) => if KeyOf(t) == k then Value(t.tokens) else 0.0
  }

  ghost predicate HasLine(ts: seq<Trace>, k: TraceKey) {
    exists i | 0 <= i < |ts| :: KeyOf(ts[i]) == k
  }

  /** The trace line of a key is the sum of the rows that carry it, and there is one when a row does. */
  ghost predicate LineStates(traces: map<TraceKey, Trace>, ts: seq<Trace>, k: TraceKey) {
    && (k in traces <==> HasLine(ts, k))
    && TraceSum(ts, LineCost(k)) == (if k in traces then Value(traces[k].cost) else 0.0)
    && TraceSum(ts, LineTokens(k)) == (if k in traces then Value(traces[k].tokens) else 0.0)
  }

  /** A figure's amounts are those of its rows. */
  ghost predicate States(f: Figure, ts: seq<Trace>) {
    && f.rows == |ts|
    && Value(f.cost) == TraceSum(ts, CostOfTrace())
    && (forall class_ :: Value(TokensIn(f.tokens, class_)) == TraceSum(ts, TokensOfClass(class_)))
    && (forall k :: LineStates(f.traces, ts, k))
  }

  lemma SumAppends(ts: seq<Trace>, t: Trace, part: Trace -> real)
    ensures TraceSum(ts + [t], part) == TraceSum(ts, part) + part(t)
  {
    assert (ts + [t])[..|ts|] == ts;
  }

  lemma LineAppends(ts: seq<Trace>, t: Trace, k: TraceKey)
    ensures HasLine(ts + [t], k) <==> HasLine(ts, k) || KeyOf(t) == k
  {
    hide KeyOf;
    assert (ts + [t])[|ts|] == t && forall i | 0 <= i < |ts| :: (ts + [t])[i] == ts[i];
  }

  lemma LineGrows(f: Figure, ts: seq<Trace>, priced: Trace, k: TraceKey)
    requires LineStates(f.traces, ts, k)
    ensures LineStates(AddToFigure(f, priced).traces, ts + [priced], k)
  {
    hide KeyOf, Value, Merged, TraceSum, HasLine, Add;
    SumAppends(ts, priced, LineCost(k));
    SumAppends(ts, priced, LineTokens(k));
    LineAppends(ts, priced, k);
    MergedSums(f, priced);
  }

  /** With one row more, the figure states that row too. */
  lemma RowStates(f: Figure, ts: seq<Trace>, priced: Trace)
    requires States(f, ts)
    ensures States(AddToFigure(f, priced), ts + [priced])
  {
    hide KeyOf, Value, Merged, TraceSum, LineStates, Add;
    ZeroIsZero();
    var next := AddToFigure(f, priced);
    SumAppends(ts, priced, CostOfTrace());
    forall class_
      ensures Value(TokensIn(next.tokens, class_)) == TraceSum(ts + [priced], TokensOfClass(class_))
    {
      SumAppends(ts, priced, TokensOfClass(class_));
    }
    forall k
      ensures LineStates(next.traces, ts + [priced], k)
    {
      LineGrows(f, ts, priced, k);
    }
  }

  lemma NoRowsState()
    ensures States(NO_FIGURE, [])
  {
    ZeroIsZero();
  }

  // ---- The whole tally ----------------------------------------------------

  /** Every figure states its rows, and there is one exactly for the keys the rows carry. */
  ghost predicate FiguresState(figures: map<FigureKey, Figure>, rows: seq<RowText>) {
    forall k :: States(FigureAt(figures, k), TracesIn(rows, k)) && (k in figures <==> TracesIn(rows, k) != [])
  }

  /** Every log is that of its currency and basis's rows, and there is one exactly where there is a row. */
  ghost predicate LogsState(requests: map<SpendKey, RequestLog>, rows: seq<RowText>) {
    forall spend :: LogAt(requests, spend) == LogOf(RowsIn(rows, spend))
        && (spend in requests <==> RowsIn(rows, spend) != [])
  }

  lemma TracesAppend(rows: seq<RowText>, r: RowText, k: FigureKey)
    requires Accepts(r)
    ensures TracesIn(rows + [r], k) ==
            if Key(r).value == k then TracesIn(rows, k) + [Arithmetic(r).value] else TracesIn(rows, k)
  {
    hide Arithmetic, Key, IsOf;
    KeyIsOf(r, k);
    assert (rows + [r])[..|rows|] == rows;
    assert TracesIn(rows, k) + [] == TracesIn(rows, k);
  }

  lemma RowsAppend(rows: seq<RowText>, r: RowText, spend: SpendKey)
    requires Accepts(r)
    ensures RowsIn(rows + [r], spend) ==
            if SpendKey(Key(r).value.currency, Key(r).value.basis) == spend then RowsIn(rows, spend) + [r]
            else RowsIn(rows, spend)
  {
    hide Arithmetic, Key;
    KeyIsOf(r, Key(r).value);
    assert (rows + [r])[..|rows|] == rows;
    assert RowsIn(rows, spend) + [] == RowsIn(rows, spend);
  }

  lemma LogAppend(rows: seq<RowText>, r: RowText)
    requires Arithmetic(r).Some?
    ensures LogOf(rows + [r]) == LogRequest(LogOf(rows), RequestOf(r), Arithmetic(r).value)
  {
    hide LogRequest, Arithmetic;
    assert (rows + [r])[..|rows|] == rows;
  }

  lemma FiguresStateMore(figures: map<FigureKey, Figure>, rows: seq<RowText>, r: RowText)
    requires FiguresState(figures, rows) && Accepts(r)
    ensures FiguresState(figures[Key(r).value := AddToFigure(FigureAt(figures, Key(r).value), Arithmetic(r).value)],
                         rows + [r])
  {
    hide States, Arithmetic, AddToFigure, IsCurrency, Key, TracesIn;
    var k, priced := Key(r).value, Arithmetic(r).value;
    var next := figures[k := AddToFigure(FigureAt(figures, k), priced)];
    RowStates(FigureAt(figures, k), TracesIn(rows, k), priced);
    forall other: FigureKey
      ensures States(FigureAt(next, other), TracesIn(rows + [r], other))
              && (other in next <==> TracesIn(rows + [r], other) != [])
    {
      TracesAppend(rows, r, other);
      assert States(FigureAt(figures, other), TracesIn(rows, other))
          && (other in figures <==> TracesIn(rows, other) != []);
    }
  }

  lemma LogsStateMore(requests: map<SpendKey, RequestLog>, rows: seq<RowText>, r: RowText)
    requires LogsState(requests, rows) && Accepts(r)
    ensures var spend := SpendKey(Key(r).value.currency, Key(r).value.basis);
            LogsState(requests[spend := LogRequest(LogAt(requests, spend), RequestOf(r), Arithmetic(r).value)],
                      rows + [r])
  {
    hide Arithmetic, LogRequest, IsCurrency, Key, RowsIn, LogOf, RequestOf;
    var spend := SpendKey(Key(r).value.currency, Key(r).value.basis);
    var next := requests[spend := LogRequest(LogAt(requests, spend), RequestOf(r), Arithmetic(r).value)];
    LogAppend(RowsIn(rows, spend), r);
    forall other: SpendKey
      ensures LogAt(next, other) == LogOf(RowsIn(rows + [r], other))
              && (other in next <==> RowsIn(rows + [r], other) != [])
    {
      RowsAppend(rows, r, other);
      assert LogAt(requests, other) == LogOf(RowsIn(rows, other))
          && (other in requests <==> RowsIn(rows, other) != []);
    }
  }

  lemma NothingStated()
    ensures FiguresState(map[], []) && LogsState(map[], [])
  {
    hide States;
    NoRowsState();
  }
}
