/**
What the comment's request log holds: its rows cut into requests (logRequest in
internal/comment/rows.go). A request is a longest run of rows that share their period,
session and model and repeat no token class.
*/
module RequestRuns {
  import opened Wrappers
  import opened Decimals
  import opened Focus
  import opened RowArithmetic
  import opened CommentRows

  /** The log of the rows, one after another. */
  ghost function LogOf(rows: seq<RowText>): RequestLog {
    if rows == [] then NO_REQUESTS else
      var init, last := LogOf(rows[..|rows| - 1]), rows[|rows| - 1];
      if Arithmetic(last).Some? then LogRequest(init, RequestOf(last), Arithmetic(last).value) else init
  }

  ghost predicate AllPriced(rows: seq<RowText>) {
    forall i | 0 <= i < |rows| :: Arithmetic(rows[i]).Some?
  }

  /** Rows of one request share their period, session and model. */
  predicate Alike(a: RowText, b: RowText) {
    && a.chargePeriodStart == b.chargePeriodStart && a.chargePeriodEnd == b.chargePeriodEnd
    && a.session == b.session && a.model == b.model
  }

  ghost predicate OneRequest(run: seq<RowText>) {
    && run != []
    && (forall i | 0 <= i < |run| :: Alike(run[i], run[0]))
    && (forall i, j | 0 <= i < j < |run| :: run[i].skuMeter != run[j].skuMeter)
  }

  /** The row belongs to another request, or repeats a class of this one. */
  ghost predicate Breaks(run: seq<RowText>, row: RowText)
    requires run != []
  {
    !Alike(row, run[0]) || exists i | 0 <= i < |run| :: run[i].skuMeter == row.skuMeter
  }

  ghost function Concat(runs: seq<seq<RowText>>): seq<RowText> {
    if runs == [] then [] else runs[0] + Concat(runs[1..])
  }

  /** The rows cut into requests, each as long as it can be. */
  ghost predicate IsRuns(rows: seq<RowText>, runs: seq<seq<RowText>>) {
    && Concat(runs) == rows
    && (forall i | 0 <= i < |runs| :: OneRequest(runs[i]))
    && (forall i, j | 0 <= i && j == i + 1 && j < |runs| :: Breaks(runs[i], runs[j][0]))
  }

  ghost function CostOf(run: seq<RowText>): real {
    if run == [] then 0.0 else CostOf(run[..|run| - 1]) + ListCost(run[|run| - 1])
  }

  /** What the row bills: an informational class's tokens are billed in another's. */
  ghost function Billed(r: RowText): real {
    var tokens := ParseAmount(r.consumedQuantity);
    if tokens.None? || (r.skuMeter.Some? && r.skuMeter.value.Informational()) then 0.0 else Value(tokens.value)
  }

  ghost function BilledTokens(run: seq<RowText>): real {
    if run == [] then 0.0 else BilledTokens(run[..|run| - 1]) + Billed(run[|run| - 1])
  }

  ghost function ClassesOf(run: seq<RowText>): set<TokenClass> {
    set r | r in run && r.skuMeter.Some? :: r.skuMeter.value
  }

  /** A request states its run's end, cost and billed tokens. */
  ghost predicate Spends(r: Request, run: seq<RowText>)
    requires run != []
  {
    && (forall i | 0 <= i < |run| :: r.end == run[i].chargePeriodEnd)
    && Value(r.cost) == CostOf(run) && Value(r.tokens) == BilledTokens(run)
  }

  // ---- Cutting is unique --------------------------------------------------

  lemma RunPart(run: seq<RowText>, k: nat)
    requires OneRequest(run) && 0 < k < |run|
    ensures !Breaks(run[..k], run[k])
  {
  }

  lemma FirstRuns(a: seq<seq<RowText>>, b: seq<seq<RowText>>, rows: seq<RowText>)
    requires a != [] && b != [] && IsRuns(rows, a) && IsRuns(rows, b)
    ensures |a[0]| >= |b[0]|
  {
    var n := |a[0]|;
    if n < |b[0]| {
      assert rows == a[0] + Concat(a[1..]) && rows == b[0] + Concat(b[1..]);
      assert a[0] == rows[..n] == b[0][..n];
      RunPart(b[0], n);
      assert rows[n] == b[0][n];
      assert Concat(a[1..])[0] == rows[n];
      NextRow(a, rows);
    }
  }

  lemma NextRow(runs: seq<seq<RowText>>, rows: seq<RowText>)
    requires runs != [] && IsRuns(rows, runs) && |rows| > |runs[0]|
    ensures Breaks(runs[0], rows[|runs[0]|])
  {
    var rest := runs[1..];
    assert rows == runs[0] + Concat(rest);
    assert rest != [];
    assert runs[1..][0] == runs[1] && runs[1] != [];
    assert Concat(runs[1..]) == runs[1] + Concat(runs[1..][1..]);
  }

  lemma RestRuns(runs: seq<seq<RowText>>, rows: seq<RowText>)
    requires runs != [] && IsRuns(rows, runs)
    ensures IsRuns(rows[|runs[0]|..], runs[1..]) && runs[0] == rows[..|runs[0]|] && runs[0] != []
  {
    var rest := runs[1..];
    assert forall i | 0 <= i < |rest| :: rest[i] == runs[i + 1];
  }

  /** Rows are cut into requests in one way only. */
  lemma {:induction false} RunsAreUnique(rows: seq<RowText>, a: seq<seq<RowText>>, b: seq<seq<RowText>>)
    requires IsRuns(rows, a) && IsRuns(rows, b)
    ensures a == b
    decreases |rows|
  {
    hide OneRequest, Breaks;
    if a == [] || b == [] {
      NoRows(rows, a);
      NoRows(rows, b);
    } else {
      FirstRuns(a, b, rows);
      FirstRuns(b, a, rows);
      RestRuns(a, rows);
      RestRuns(b, rows);
      RunsAreUnique(rows[|a[0]|..], a[1..], b[1..]);
      assert a == [a[0]] + a[1..] && b == [b[0]] + b[1..];
    }
  }

  lemma NoRows(rows: seq<RowText>, runs: seq<seq<RowText>>)
    requires IsRuns(rows, runs)
    ensures runs == [] <==> rows == []
  {
    if runs != [] {
      assert OneRequest(runs[0]);
    }
  }

  // ---- The log holds them -------------------------------------------------

  lemma {:induction false} ConcatAppends(runs: seq<seq<RowText>>, run: seq<RowText>)
    ensures Concat(runs + [run]) == Concat(runs) + run
  {
    if runs == [] {
      assert [run][1..] == [];
    } else {
      ConcatAppends(runs[1..], run);
      assert (runs + [run])[1..] == runs[1..] + [run];
    }
  }

  /** The runs once a row joins the last one, or opens the next. */
  ghost function WithLogged(runs: seq<seq<RowText>>, row: RowText): seq<seq<RowText>> {
    if runs == [] || (runs[|runs| - 1] != [] && Breaks(runs[|runs| - 1], row)) then runs + [[row]]
    else runs[..|runs| - 1] + [runs[|runs| - 1] + [row]]
  }

  lemma RowJoins(rows: seq<RowText>, runs: seq<seq<RowText>>, row: RowText)
    requires IsRuns(rows, runs)
    ensures IsRuns(rows + [row], WithLogged(runs, row))
  {
    hide Breaks, Concat;
    var next := WithLogged(runs, row);
    if runs == [] || (runs[|runs| - 1] != [] && Breaks(runs[|runs| - 1], row)) {
      ConcatAppends(runs, [row]);
    } else {
      var init, last := runs[..|runs| - 1], runs[|runs| - 1];
      assert runs == init + [last];
      ConcatAppends(init, last);
      ConcatAppends(init, last + [row]);
      LongerRun(last, row);
    }
  }

  lemma LongerRun(run: seq<RowText>, row: RowText)
    requires OneRequest(run) && !Breaks(run, row)
    ensures OneRequest(run + [row])
  {
  }

  /** The log after the rows, whose requests are the runs. */
  ghost predicate Holds(log: RequestLog, runs: seq<seq<RowText>>) {
    if log.overflow then |runs| > MAX_REQUESTS else
      && |log.requests| == |runs| <= MAX_REQUESTS
      && (forall i | 0 <= i < |runs| :: runs[i] != [] && Spends(log.requests[i], runs[i]))
      && (runs != [] ==>
            log.current == RequestOf(runs[|runs| - 1][0]) && log.classes == ClassesOf(runs[|runs| - 1]))
  }

  /** What a row adds to its request. */
  lemma RowSpends(row: RowText)
    requires Arithmetic(row).Some?
    ensures var priced := Arithmetic(row).value;
            && row.skuMeter == Some(priced.class_) && Value(priced.cost) == ListCost(row)
            && Billed(row) == if priced.class_.Informational() then 0.0 else Value(priced.tokens)
  {
    hide Arithmetic, ParseAmount, Value;
    ArithmeticExactly(row);
  }

  lemma NewRequest(row: RowText)
    requires Arithmetic(row).Some?
    ensures var priced := Arithmetic(row).value;
            && Spends(WithRow(Request(row.chargePeriodEnd, ZERO, ZERO), priced), [row])
            && ClassesOf([row]) == {priced.class_}
  {
    hide Add, Value, Arithmetic, ListCost, Billed;
    ZeroIsZero();
    RowSpends(row);
    assert [row][..|[row]| - 1] == [];
    assert CostOf([]) == BilledTokens([]) == 0.0;
    assert CostOf([row]) == ListCost(row);
  }

  lemma MoreSpent(r: Request, run: seq<RowText>, row: RowText)
    requires run != [] && Spends(r, run) && Arithmetic(row).Some? && Alike(row, run[0])
    ensures var priced := Arithmetic(row).value;
            && Spends(WithRow(r, priced), run + [row])
            && ClassesOf(run + [row]) == ClassesOf(run) + {priced.class_}
  {
    hide Add, Value, Arithmetic, ListCost, Billed;
    RowSpends(row);
    assert (run + [row])[..|run|] == run;
    assert row in run + [row] && forall r | r in run :: r in run + [row];
  }

  lemma BreaksExactly(run: seq<RowText>, row: RowText)
    requires run != [] && row.skuMeter.Some?
    ensures Breaks(run, row) <==> RequestOf(row) != RequestOf(run[0]) || row.skuMeter.value in ClassesOf(run)
  {
    if row.skuMeter.value in ClassesOf(run) {
      var r :| r in run && r.skuMeter == row.skuMeter;
      var i :| 0 <= i < |run| && run[i] == r;
      assert run[i].skuMeter == row.skuMeter;
    }
  }

  lemma HoldsMore(log: RequestLog, runs: seq<seq<RowText>>, row: RowText)
    requires Holds(log, runs) && Arithmetic(row).Some?
    ensures Holds(LogRequest(log, RequestOf(row), Arithmetic(row).value), WithLogged(runs, row))
  {
    hide Breaks, Spends, ClassesOf, WithRow, Arithmetic;
    if !log.overflow {
      NewRequest(row);
      RowSpends(row);
      if runs != [] {
        var last := runs[|runs| - 1];
        BreaksExactly(last, row);
        LikeRows(last, row);
        if !Breaks(last, row) {
          MoreSpent(log.requests[|runs| - 1], last, row);
        }
      }
    }
  }

  lemma LikeRows(run: seq<RowText>, row: RowText)
    requires run != []
    ensures !Breaks(run, row) ==> Alike(row, run[0])
  {
  }

  /**
  The log's requests are the rows cut into requests, in order, each at its run's end,
  cost and billed tokens; it overflows exactly when there are too many.
  */
  lemma {:induction false} LogHoldsRuns(rows: seq<RowText>) returns (runs: seq<seq<RowText>>)
    requires AllPriced(rows)
    ensures IsRuns(rows, runs) && Holds(LogOf(rows), runs)
  {
    hide Holds, IsRuns, LogRequest, WithLogged, Arithmetic;
    if rows == [] {
      runs := [];
      NothingLogged();
    } else {
      var init, last := rows[..|rows| - 1], rows[|rows| - 1];
      var before := LogHoldsRuns(init);
      runs := WithLogged(before, last);
      RowJoins(init, before, last);
      HoldsMore(LogOf(init), before, last);
      assert rows == init + [last];
    }
  }

  lemma NothingLogged()
    ensures IsRuns([], []) && Holds(NO_REQUESTS, [])
  {
  }
}
