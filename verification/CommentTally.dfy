/** The tally of a rows file and its reader (internal/comment/rows.go). One bad row refuses the file. */
module CommentTally {
  import opened Wrappers
  import opened RowArithmetic
  import opened CommentRows
  import opened FigureRows
  import opened RequestRuns
  import opened Sums

  class Tally {
    var rows: nat
    var figures: map<FigureKey, Figure>
    var requests: map<SpendKey, RequestLog>
    ghost var read: seq<RowText>

    ghost predicate Valid()
      reads this
    {
      && rows == |read| && AllPriced(read)
      && FiguresHold(figures, read) && RequestsHold(figures, requests)
      && FiguresState(figures, read) && LogsState(requests, read)
    }

    constructor ()
      ensures Valid() && read == []
    {
      rows, figures, requests, read := 0, map[], map[], [];
      new;
      NothingStated();
      forall currency: string
        ensures MapSum(figures, InCurrency(currency)) == 0.0
      {
        EmptyMapSum(InCurrency(currency));
      }
      forall spend: SpendKey
        ensures MapSum(figures, InSpend(spend)) == 0.0
      {
        EmptyMapSum(InSpend(spend));
      }
    }

    /** One row: false when it is refused. */
    method Add(r: RowText) returns (ok: bool)
      requires Valid()
      modifies this
      ensures Valid() && ok == Accepts(r)
      ensures read == if ok then old(read) + [r] else old(read)
    {
      hide Arithmetic, LogRequest, AddToFigure, FiguresHold, RequestsHold, FiguresState, LogsState, IsCurrency;
      if !IsCurrency(r.billingCurrency) {
        return false;
      }
      var priced := Arithmetic(r);
      if priced.None? {
        return false;
      }
      var key := Key(r);
      if key.None? {
        return false;
      }
      var k, spend := key.value, SpendKey(key.value.currency, key.value.basis);
      var request := RequestOf(r);
      FiguresStep(figures, read, r);
      RequestsStep(figures, requests, r, request);
      FiguresStateMore(figures, read, r);
      LogsStateMore(requests, read, r);
      figures := figures[k := AddToFigure(FigureAt(figures, k), priced.value)];
      requests := requests[spend := LogRequest(LogAt(requests, spend), request, priced.value)];
      rows := rows + 1;
      read := read + [r];
      return true;
    }
  }

  /** ReadRows: the tally of the rows, or none when a row is refused. */
  method ReadRows(rows: seq<RowText>) returns (total: Option<Tally>)
    ensures total.Some? <==> forall i | 0 <= i < |rows| :: Accepts(rows[i])
    ensures total.Some? ==> fresh(total.value) && total.value.Valid() && total.value.read == rows
  {
    hide Accepts, Tally.Valid;
    var tally := new Tally();
    for i := 0 to |rows|
      invariant fresh(tally) && tally.Valid() && tally.read == rows[..i]
      invariant forall j | 0 <= j < i :: Accepts(rows[j])
    {
      var ok := tally.Add(rows[i]);
      if !ok {
        return None;
      }
    }
    return Some(tally);
  }
}
