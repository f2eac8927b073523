/**
The overshoot told from the rows themselves (internal/comment/rows.go): which requests they
are cut into, in which order those ended, and what the ones from the crossing on were
billed for.
*/
module OvershootRows {
  import opened Wrappers
  import opened Decimals
  import opened RowArithmetic
  import opened CommentRows
  import opened CommentTally
  import opened FigureRows
  import opened RequestRuns
  import opened Overshoot
  import opened Sorting

  /** When the request of a run ended. */
  function EndOfRun(run: seq<RowText>): string {
    if run == [] then "" else run[0].chargePeriodEnd
  }

  ghost function CostOfRuns(runs: seq<seq<RowText>>): real {
    if runs == [] then 0.0 else CostOf(runs[0]) + CostOfRuns(runs[1..])
  }

  ghost function TokensOfRuns(runs: seq<seq<RowText>>): real {
    if runs == [] then 0.0 else BilledTokens(runs[0]) + TokensOfRuns(runs[1..])
  }

  /** Each request states its run. */
  ghost predicate StateRuns(requests: seq<Request>, runs: seq<seq<RowText>>) {
    |requests| == |runs| && forall i | 0 <= i < |runs| :: runs[i] != [] && Spends(requests[i], runs[i])
  }

  lemma {:induction false} InsertStates(requests: seq<Request>, runs: seq<seq<RowText>>, r: Request, run: seq<RowText>)
    requires StateRuns(requests, runs) && run != [] && Spends(r, run)
    ensures StateRuns(InsertBy(EndOf, requests, r), InsertBy(EndOfRun, runs, run))
  {
    hide CostOf, BilledTokens, Value, Leq;
    if requests != [] {
      var n := |requests| - 1;
      assert EndOf(requests[n]) == EndOfRun(runs[n]) && EndOf(r) == EndOfRun(run);
      if !Leq(EndOf(requests[n]), EndOf(r)) {
        InsertStates(requests[..n], runs[..n], r, run);
      }
    }
  }

  /** Sorting requests by their end sorts the runs they state. */
  lemma {:induction false} SortStates(requests: seq<Request>, runs: seq<seq<RowText>>)
    requires StateRuns(requests, runs)
    ensures StateRuns(SortBy(EndOf, requests), SortBy(EndOfRun, runs))
  {
    hide Spends, InsertBy;
    if requests != [] {
      var n := |requests| - 1;
      SortStates(requests[..n], runs[..n]);
      InsertStates(SortBy(EndOf, requests[..n]), SortBy(EndOfRun, runs[..n]), requests[n], runs[n]);
    }
  }

  lemma {:induction false} CostsStated(requests: seq<Request>, runs: seq<seq<RowText>>)
    requires StateRuns(requests, runs)
    ensures RequestCosts(requests) == CostOfRuns(runs)
  {
    hide CostOf, BilledTokens, Value;
    if requests != [] {
      CostsStated(requests[1..], runs[1..]);
    }
  }

  lemma {:induction false} TokensStated(requests: seq<Request>, runs: seq<seq<RowText>>, n: nat)
    requires StateRuns(requests, runs) && n <= |requests|
    ensures TokensFrom(requests, n) == TokensOfRuns(runs[n..])
    decreases |requests| - n
  {
    hide CostOf, BilledTokens, Value;
    if n < |requests| {
      TokensStated(requests, runs, n + 1);
      assert runs[n..] == [runs[n]] + runs[n + 1..];
    }
  }

  lemma {:induction false} RowsInPriced(rows: seq<RowText>, spend: SpendKey)
    requires AllPriced(rows)
    ensures AllPriced(RowsIn(rows, spend))
  {
    hide Arithmetic;
    if rows != [] {
      RowsInPriced(rows[..|rows| - 1], spend);
    }
  }

  /** The run that crosses the cap: each total before it is within the cap, and the one with it is not. */
  ghost predicate Crosses(sorted: seq<seq<RowText>>, cap: real, c: nat) {
    && c <= |sorted|
    && (forall j | 0 < j <= c :: CostOfRuns(sorted[..j]) <= cap)
    && (c < |sorted| ==> CostOfRuns(sorted[..c + 1]) > cap)
  }

  lemma CrossingStated(requests: seq<Request>, runs: seq<seq<RowText>>, cap: real)
    requires StateRuns(requests, runs)
    ensures Crosses(runs, cap, Crossing(requests, cap, 0))
  {
    hide RequestCosts, CostOfRuns, Spends;
    forall j | 0 <= j <= |requests|
      ensures SpentTo(requests, j) == CostOfRuns(runs[..j])
    {
      CostsStated(requests[..j], runs[..j]);
    }
  }

  /**
  The overshoot of a tally's log is what the rows bill from the crossing request on: the rows
  of the currency and basis are cut into requests, those are taken in the order of their
  chargePeriodEnd, and equal ends in the order of the rows.
  */
  lemma OvershootIsOfRows(tally: Tally, spend: SpendKey, cap: real) returns (runs: seq<seq<RowText>>, c: nat)
    requires tally.Valid() && spend in tally.requests && !tally.requests[spend].overflow
    ensures IsRuns(RowsIn(tally.read, spend), runs)
    ensures var sorted, requests := SortBy(EndOfRun, runs), SortBy(EndOf, tally.requests[spend].requests);
            Crosses(sorted, cap, c) && TokensFrom(requests, Crossing(requests, cap, 0)) == TokensOfRuns(sorted[c..])
  {
    hide FiguresHold, RequestsHold, FiguresState, Holds, IsRuns, SortBy, AllPriced, LogOf, Crosses, Crossing,
      TokensFrom;
    RowsInPriced(tally.read, spend);
    runs := LogHoldsRuns(RowsIn(tally.read, spend));
    var log := LogOf(RowsIn(tally.read, spend));
    assert LogAt(tally.requests, spend) == log;
    HeldAreStated(log, runs);
    SortStates(log.requests, runs);
    var requests := SortBy(EndOf, log.requests);
    c := Crossing(requests, cap, 0);
    CrossingStated(requests, SortBy(EndOfRun, runs), cap);
    TokensStated(requests, SortBy(EndOfRun, runs), c);
  }

  lemma HeldAreStated(log: RequestLog, runs: seq<seq<RowText>>)
    requires Holds(log, runs) && !log.overflow
    ensures StateRuns(log.requests, runs)
  {
  }
}
