/**
A pull request's reports added up twice (internal/history/history.go): per currency and
basis for the comment, and in USD before this run for the policy
(internal/policy/baseline.go).
*/
module History {
  import opened Wrappers
  import opened Decimals
  import opened DecimalText
  import opened CommentRows
  import opened Overshoot
  import opened PolicyUsage
  import opened ReportSums
  import opened RowArithmetic
  import opened Strings
  import opened Sums

  // ---- Reading a result object --------------------------------------------

  /** A decoded result object, reduced to what is added up. */
  datatype Block = Block(schema: string, amounts: string, figuresOmitted: int, digest: Option<string>,
                         figures: seq<BlockFigure>)

  const DIGEST_SCHEMA := "costroid.result/0.6"
  const SCHEMAS := {"costroid.result/0.3", "costroid.result/0.4", "costroid.result/0.5", DIGEST_SCHEMA}

  /**
  ParseObject is history's Parse: an object is taken exactly when its schema is one of four,
  no figure is withheld, left out or without an amount, and its digest, if it has one, is
  well-formed. Only the newest schema's digest is kept.
  */
  function ParseObject(block: Block): (r: Option<Report>)
    ensures r.Some? ==> Costed(r.value) && (r.value.digest == "" || IsSha256(r.value.digest))
    ensures r.Some? <==>
            && block.schema in {"costroid.result/0.3", "costroid.result/0.4", "costroid.result/0.5",
                                "costroid.result/0.6"}
            && block.amounts == "shown" && block.figuresOmitted == 0
            && (block.digest.Some? ==> IsSha256(block.digest.value))
            && forall i | 0 <= i < |block.figures| :: FigureCost(block.figures[i]).Some?
    ensures r.Some? ==> r.value.figures == block.figures
    ensures r.Some? ==>
        r.value.digest ==
        if block.schema == "costroid.result/0.6" && block.digest.Some? then block.digest.value else ""
  {
    if block.schema !in SCHEMAS || block.amounts != "shown" || block.figuresOmitted != 0 then None
    else if block.digest.Some? && !IsSha256(block.digest.value) then None
    else
      var stated := block.schema == DIGEST_SCHEMA && block.digest.Some?;
      var report := Report(if stated then block.digest.value else "", block.figures);
      if Costed(report) then Some(report) else None
  }

  // ---- The comment's lifetime ---------------------------------------------

  datatype LifetimeFigure = LifetimeFigure(cost: Decimal, reports: nat, undigested: bool)

  type Lifetime = map<LifetimeKey, LifetimeFigure>

  const NO_REPORTS := LifetimeFigure(ZERO, 0, false)

  function FigureOf(sums: Lifetime, k: LifetimeKey): LifetimeFigure {
    if k in sums then sums[k] else NO_REPORTS
  }

  ghost function UsdPart(): (LifetimeKey, LifetimeFigure) -> real {
    (k: LifetimeKey, f: LifetimeFigure) => if k.currency == USD then Value(f.cost) else 0.0
  }

  /** Every figure of the lifetime, and its USD over every basis, is the sum over the reports kept. */
  ghost predicate TotalHolds(sums: Lifetime, kept: seq<Report>) {
    && (forall k :: Value(FigureOf(sums, k).cost) == SumOf(kept, Amount(Only(k))))
    && (forall k :: FigureOf(sums, k).reports as real == SumOf(kept, Counting(k)))
    && (forall k :: FigureOf(sums, k).undigested <==> SumOf(kept, Undigested(Counting(k))) > 0.0)
    && (forall k | k in sums :: IsNormal(sums[k].cost) && sums[k].reports > 0)
    && MapSum(sums, UsdPart()) == SumOf(kept, Amount(InUsd()))
  }

  /** One figure of a report added to its sum; first says the report had not counted there yet. */
  function AddFigure(sums: Lifetime, k: LifetimeKey, cost: Decimal, first: bool, undigested: bool): Lifetime {
    var sum := FigureOf(sums, k);
    sums[k := LifetimeFigure(Add(sum.cost, cost), if first then sum.reports + 1 else sum.reports,
                             sum.undigested || (first && undigested))]
  }

  /** The costs part way through a report, whose figures read so far are given. */
  ghost predicate CostsSoFar(sums: Lifetime, before: Lifetime, read: seq<BlockFigure>) {
    && (forall k :: Value(FigureOf(sums, k).cost) == Value(FigureOf(before, k).cost) + FigureSum(read, Only(k)))
    && (forall k | k in sums :: IsNormal(sums[k].cost) || (k in before && sums[k].cost == before[k].cost))
    && MapSum(sums, UsdPart()) == MapSum(before, UsdPart()) + FigureSum(read, InUsd())
  }

  /** The counts part way through a report: one report more for every key counted. */
  ghost predicate CountsSoFar(sums: Lifetime, before: Lifetime, undigested: bool, counted: set<LifetimeKey>) {
    && (forall k :: FigureOf(sums, k).reports == FigureOf(before, k).reports + if k in counted then 1 else 0)
    && (forall k :: FigureOf(sums, k).undigested <==> FigureOf(before, k).undigested || (k in counted && undigested))
    && (forall k | k in sums :: k in before || k in counted)
  }

  ghost predicate Partway(sums: Lifetime, before: Lifetime, read: seq<BlockFigure>, undigested: bool,
                          counted: set<LifetimeKey>) {
    CostsSoFar(sums, before, read) && CountsSoFar(sums, before, undigested, counted)
  }

  ghost function KeysOf(figures: seq<BlockFigure>): set<LifetimeKey> {
    set f | f in figures :: KeyFor(f)
  }

  lemma KeysAppend(read: seq<BlockFigure>, f: BlockFigure)
    ensures KeysOf(read + [f]) == KeysOf(read) + {KeyFor(f)}
  {
    assert f in read + [f] && forall x | x in read :: x in read + [f];
  }

  lemma FigureSumAppends(read: seq<BlockFigure>, f: BlockFigure, pick: LifetimeKey -> bool)
    ensures FigureSum(read + [f], pick) == FigureSum(read, pick) + if pick(KeyFor(f)) then CostOf(f) else 0.0
  {
    hide CostOf;
    assert (read + [f])[..|read|] == read;
  }

  lemma CostsStep(sums: Lifetime, before: Lifetime, read: seq<BlockFigure>, f: BlockFigure, first: bool,
                  undigested: bool)
    requires CostsSoFar(sums, before, read) && FigureCost(f).Some?
    ensures CostsSoFar(AddFigure(sums, KeyFor(f), FigureCost(f).value, first, undigested), before, read + [f])
  {
    hide ValueAt, Value, IsNormal, MapSum, FigureCost, FigureSum, Add;
    ZeroIsZero();
    FigureSumAppends(read, f, InUsd());
    var next := AddFigure(sums, KeyFor(f), FigureCost(f).value, first, undigested);
    MapSumUpdate(sums, KeyFor(f), next[KeyFor(f)], UsdPart());
    forall k
      ensures Value(FigureOf(next, k).cost) == Value(FigureOf(before, k).cost) + FigureSum(read + [f], Only(k))
    {
      FigureSumAppends(read, f, Only(k));
    }
  }

  lemma PartwayStep(sums: Lifetime, before: Lifetime, read: seq<BlockFigure>, undigested: bool, f: BlockFigure,
                    first: bool)
    requires Partway(sums, before, read, undigested, KeysOf(read)) && FigureCost(f).Some?
    requires first <==> KeyFor(f) !in KeysOf(read)
    ensures Partway(AddFigure(sums, KeyFor(f), FigureCost(f).value, first, undigested),
                    before, read + [f], undigested, KeysOf(read + [f]))
  {
    hide CostsSoFar, FigureCost, KeysOf, Add;
    KeysAppend(read, f);
    CostsStep(sums, before, read, f, first, undigested);
  }

  lemma PartwayStarts(before: Lifetime, undigested: bool)
    ensures Partway(before, before, [], undigested, KeysOf([]))
  {
    assert KeysOf([]) == {};
  }

  /** Reads one report into the sums: none when a figure has no amount. */
  method AddReport(before: Lifetime, r: Report) returns (sums: Option<Lifetime>)
    ensures sums.Some? <==> Costed(r)
    ensures sums.Some? ==> Partway(sums.value, before, r.figures, r.digest == "", KeysOf(r.figures))
  {
    hide Partway, FigureCost, KeysOf, AddFigure;
    var total := before;
    var counted: set<LifetimeKey> := {};
    PartwayStarts(before, r.digest == "");
    NoKeys();
    for i := 0 to |r.figures|
      invariant forall j | 0 <= j < i :: FigureCost(r.figures[j]).Some?
      invariant counted == KeysOf(r.figures[..i])
      invariant Partway(total, before, r.figures[..i], r.digest == "", KeysOf(r.figures[..i]))
    {
      var f := r.figures[i];
      var cost := FigureCost(f);
      if cost.None? {
        return None;
      }
      var first := KeyFor(f) !in counted;
      PartwayStep(total, before, r.figures[..i], r.digest == "", f, first);
      KeysAppend(r.figures[..i], f);
      assert r.figures[..i] + [f] == r.figures[..i + 1];
      total := AddFigure(total, KeyFor(f), cost.value, first, r.digest == "");
      counted := counted + {KeyFor(f)};
    }
    assert r.figures[..|r.figures|] == r.figures;
    return Some(total);
  }

  lemma NoKeys()
    ensures KeysOf([]) == {}
  {
  }

  lemma CarriesKeys(r: Report, k: LifetimeKey)
    ensures k in KeysOf(r.figures) <==> Carries(r, k)
  {
    if k in KeysOf(r.figures) {
      var f :| f in r.figures && KeyFor(f) == k;
      var i :| 0 <= i < |r.figures| && r.figures[i] == f;
      assert KeyFor(r.figures[i]) == k;
    }
    if Carries(r, k) {
      var i :| 0 <= i < |r.figures| && r.figures[i].currency == k.currency && r.figures[i].basis == k.basis;
      assert KeyFor(r.figures[i]) == k;
    }
  }

  lemma ReportCounts(sums: Lifetime, before: Lifetime, kept: seq<Report>, r: Report, k: LifetimeKey)
    requires TotalHolds(before, kept)
    requires Partway(sums, before, r.figures, r.digest == "", KeysOf(r.figures))
    ensures FigureOf(sums, k).reports as real == SumOf(kept + [r], Counting(k))
    ensures FigureOf(sums, k).undigested <==> SumOf(kept + [r], Undigested(Counting(k))) > 0.0
  {
    hide ValueAt, Value, MapSum, FigureSum, SumOf, Carries, IsNormal;
    SumAppends(kept, r, Counting(k));
    SumAppends(kept, r, Undigested(Counting(k)));
    CarriesKeys(r, k);
    CountsArePositive(kept, k);
  }

  lemma {:induction false} CountsArePositive(kept: seq<Report>, k: LifetimeKey)
    ensures SumOf(kept, Undigested(Counting(k))) >= 0.0
  {
    if kept != [] {
      CountsArePositive(kept[..|kept| - 1], k);
    }
  }

  lemma ReportCosts(sums: Lifetime, before: Lifetime, kept: seq<Report>, r: Report)
    requires TotalHolds(before, kept) && CostsSoFar(sums, before, r.figures)
    ensures forall k :: Value(FigureOf(sums, k).cost) == SumOf(kept + [r], Amount(Only(k)))
    ensures forall k | k in sums :: IsNormal(sums[k].cost)
    ensures MapSum(sums, UsdPart()) == SumOf(kept + [r], Amount(InUsd()))
  {
    hide ValueAt, Value, MapSum, FigureSum, SumOf, IsNormal, Counting, Undigested;
    SumAppends(kept, r, Amount(InUsd()));
    forall k
      ensures Value(FigureOf(sums, k).cost) == SumOf(kept + [r], Amount(Only(k)))
    {
      SumAppends(kept, r, Amount(Only(k)));
    }
  }

  lemma ReportAdds(sums: Lifetime, before: Lifetime, kept: seq<Report>, r: Report)
    requires TotalHolds(before, kept)
    requires Partway(sums, before, r.figures, r.digest == "", KeysOf(r.figures))
    ensures TotalHolds(sums, kept + [r])
  {
    hide ValueAt, Value, MapSum, FigureSum, SumOf, Carries, IsNormal, KeysOf, CostsSoFar;
    ReportCosts(sums, before, kept, r);
    forall k
      ensures FigureOf(sums, k).reports as real == SumOf(kept + [r], Counting(k))
      ensures FigureOf(sums, k).undigested <==> SumOf(kept + [r], Undigested(Counting(k))) > 0.0
    {
      ReportCounts(sums, before, kept, r, k);
    }
    forall k | k in sums
      ensures sums[k].reports > 0
    {
      assert FigureOf(sums, k).reports == FigureOf(before, k).reports + if k in KeysOf(r.figures) then 1 else 0;
    }
  }

  lemma NothingTotals()
    ensures TotalHolds(map[], [])
  {
    ZeroIsZero();
    EmptyMapSum(UsdPart());
    forall k
      ensures SumOf([], Amount(Only(k))) == SumOf([], Counting(k)) == SumOf([], Undigested(Counting(k))) == 0.0
    {
    }
  }

  predicate AllCosted(reports: seq<Report>) {
    forall i | 0 <= i < |reports| :: Costed(reports[i])
  }

  /** Total: the reports per currency and basis, a repeated digest counting once. */
  method Total(reports: seq<Report>) returns (sums: Option<Lifetime>)
    ensures sums.Some? <==> AllCosted(Kept(reports, {}))
    ensures sums.Some? ==> TotalHolds(sums.value, Kept(reports, {}))
  {
    hide TotalHolds, Partway, Costed, Kept, Digests;
    var total: Lifetime := map[];
    var seen: set<string> := {};
    NothingTotals();
    NoneKept({});
    for i := 0 to |reports|
      invariant seen == Digests(reports[..i])
      invariant AllCosted(Kept(reports[..i], {}))
      invariant TotalHolds(total, Kept(reports[..i], {}))
    {
      var r := reports[i];
      KeptAppends(reports[..i], r, {});
      DigestsAppend(reports[..i], r);
      assert reports[..i] + [r] == reports[..i + 1];
      if r.digest != "" {
        if r.digest in seen {
          assert seen + {r.digest} == seen;
          continue;
        }
        seen := seen + {r.digest};
      }
      var next := AddReport(total, r);
      if next.None? {
        OneBad(reports, i, {});
        return None;
      }
      ReportAdds(next.value, total, Kept(reports[..i], {}), r);
      total := next.value;
    }
    assert reports[..|reports|] == reports;
    return Some(total);
  }

  lemma NoneKept(excluded: set<string>)
    ensures Kept([], excluded) == [] && Digests([]) == {}
  {
  }

  /** A report that is kept and cannot be costed stays among the kept. */
  lemma {:induction false} OneBad(reports: seq<Report>, i: nat, excluded: set<string>)
    requires i < |reports| && !Costed(reports[i])
    requires reports[i].digest == "" || (reports[i].digest !in excluded && reports[i].digest !in Digests(reports[..i]))
    ensures !AllCosted(Kept(reports, excluded))
    decreases |reports|
  {
    hide Costed, Digests;
    var init, last := reports[..|reports| - 1], reports[|reports| - 1];
    assert reports == init + [last];
    KeptAppends(init, last, excluded);
    if i == |reports| - 1 {
      var kept := Kept(reports, excluded);
      assert kept[|kept| - 1] == last;
    } else {
      assert init[..i] == reports[..i];
      OneBad(init, i, excluded);
      var k :| 0 <= k < |Kept(init, excluded)| && !Costed(Kept(init, excluded)[k]);
      assert Kept(reports, excluded)[k] == Kept(init, excluded)[k];
    }
  }

  // ---- The policy's total before this run ---------------------------------

  /** What the policy knows of the pull request's other reports. */
  datatype EarlierTotal = EarlierTotal(usd: Decimal, otherCurrency: bool, mayRepeat: bool)

  ghost function Foreign(): Report -> real {
    (r: Report) => if exists i | 0 <= i < |r.figures| :: r.figures[i].currency != USD then 1.0 else 0.0
  }

  /** 1 for a report with figures that may count the same rows as another. */
  ghost function Repeatable(ownDigest: string): Report -> real {
    (r: Report) => if r.figures != [] && (r.digest == "" || ownDigest == "") then 1.0 else 0.0
  }

  ghost function ExcludedBy(own: Report): set<string> {
    if own.digest != "" then {own.digest} else {}
  }

  ghost predicate EarlierHolds(e: EarlierTotal, kept: seq<Report>, ownDigest: string) {
    && Value(e.usd) == SumOf(kept, Amount(InUsd())) && IsNormal(e.usd)
    && (e.otherCurrency <==> SumOf(kept, Foreign()) > 0.0)
    && (e.mayRepeat <==> SumOf(kept, Repeatable(ownDigest)) > 0.0)
  }

  lemma {:induction false} FlagsArePositive(kept: seq<Report>, ownDigest: string)
    ensures SumOf(kept, Foreign()) >= 0.0 && SumOf(kept, Repeatable(ownDigest)) >= 0.0
  {
    if kept != [] {
      FlagsArePositive(kept[..|kept| - 1], ownDigest);
    }
  }

  /** One report's figures added to the earlier total. */
  method AddEarlier(e: EarlierTotal, r: Report) returns (next: Option<EarlierTotal>)
    ensures next.Some? <==> Costed(r)
    ensures next.Some? && IsNormal(e.usd) ==> IsNormal(next.value.usd)
    ensures next.Some? ==>
        && Value(next.value.usd) == Value(e.usd) + Amount(InUsd())(r)
        && (next.value.otherCurrency <==> e.otherCurrency || Foreign()(r) > 0.0)
        && next.value.mayRepeat == e.mayRepeat
  {
    hide ValueAt, Value, FigureCost, IsNormal, FigureSum, IsCurrency, DecimalText.IsLiteral, Add;
    NothingRead();
    var total := e;
    for i := 0 to |r.figures|
      invariant forall j | 0 <= j < i :: FigureCost(r.figures[j]).Some?
      invariant IsNormal(e.usd) ==> IsNormal(total.usd)
      invariant Value(total.usd) == Value(e.usd) + FigureSum(r.figures[..i], InUsd())
      invariant total.otherCurrency <==> e.otherCurrency || exists j | 0 <= j < i :: r.figures[j].currency != USD
      invariant total.mayRepeat == e.mayRepeat
    {
      var f := r.figures[i];
      var cost := FigureCost(f);
      if cost.None? {
        return None;
      }
      FigureSumAppends(r.figures[..i], f, InUsd());
      assert r.figures[..i] + [f] == r.figures[..i + 1];
      if f.currency != USD {
        total := total.(otherCurrency := true);
        continue;
      }
      total := total.(usd := Add(total.usd, cost.value));
    }
    assert r.figures[..|r.figures|] == r.figures;
    return Some(total);
  }

  lemma NothingRead()
    ensures FigureSum([], InUsd()) == 0.0
  {
  }

  lemma EarlierAdds(e: EarlierTotal, next: EarlierTotal, kept: seq<Report>, r: Report, ownDigest: string)
    requires EarlierHolds(e, kept, ownDigest) && IsNormal(next.usd)
    requires Value(next.usd) == Value(e.usd) + Amount(InUsd())(r)
    requires next.otherCurrency <==> e.otherCurrency || Foreign()(r) > 0.0
    requires next.mayRepeat <==> e.mayRepeat || (r.figures != [] && (r.digest == "" || ownDigest == ""))
    ensures EarlierHolds(next, kept + [r], ownDigest)
  {
    hide ValueAt, Value, SumOf, FigureSum, IsNormal;
    SumAppends(kept, r, Amount(InUsd()));
    SumAppends(kept, r, Foreign());
    SumAppends(kept, r, Repeatable(ownDigest));
    FlagsArePositive(kept, ownDigest);
  }

  lemma NothingEarlier(ownDigest: string)
    ensures EarlierHolds(EarlierTotal(ZERO, false, false), [], ownDigest)
  {
  }

  /** Earlier: the reports before own, own's rows reported again left out. */
  method Earlier(reports: seq<Report>, own: Report) returns (earlier: Option<EarlierTotal>)
    ensures earlier.Some? <==> AllCosted(Kept(reports, ExcludedBy(own)))
    ensures earlier.Some? ==> EarlierHolds(earlier.value, Kept(reports, ExcludedBy(own)), own.digest)
  {
    hide EarlierHolds, Costed, Kept, Digests, Value, Foreign, FigureSum, Amount;
    ghost var excluded := ExcludedBy(own);
    var total := EarlierTotal(ZERO, false, false);
    var seen: set<string> := {};
    if own.digest != "" {
      seen := {own.digest};
    }
    NothingEarlier(own.digest);
    NoneKept(excluded);
    for i := 0 to |reports|
      invariant seen == excluded + Digests(reports[..i])
      invariant AllCosted(Kept(reports[..i], excluded))
      invariant EarlierHolds(total, Kept(reports[..i], excluded), own.digest)
    {
      var r := reports[i];
      KeptAppends(reports[..i], r, excluded);
      DigestsAppend(reports[..i], r);
      assert reports[..i] + [r] == reports[..i + 1];
      if r.digest != "" {
        if r.digest in seen {
          assert excluded + Digests(reports[..i + 1]) == seen;
          continue;
        }
        seen := seen + {r.digest};
      }
      var next := AddEarlier(total, r);
      if next.None? {
        OneBad(reports, i, excluded);
        return None;
      }
      EarlierIsNormal(total, Kept(reports[..i], excluded), own.digest);
      var repeatable := r.figures != [] && (r.digest == "" || own.digest == "");
      var marked := if repeatable then next.value.(mayRepeat := true) else next.value;
      EarlierAdds(total, marked, Kept(reports[..i], excluded), r, own.digest);
      total := marked;
    }
    assert reports[..|reports|] == reports;
    return Some(total);
  }

  lemma EarlierIsNormal(e: EarlierTotal, kept: seq<Report>, ownDigest: string)
    requires EarlierHolds(e, kept, ownDigest)
    ensures IsNormal(e.usd)
  {
  }

  lemma {:induction false} KeptMembers(reports: seq<Report>, excluded: set<string>, r: Report)
    ensures r in Kept(reports, excluded) ==> r in reports && (r.digest == "" || r.digest !in excluded)
    ensures r in reports && r.digest == "" ==> r in Kept(reports, excluded)
    ensures r in reports && r.digest !in excluded ==> exists s :: s in Kept(reports, excluded) && s.digest == r.digest
  {
    if reports != [] {
      var init, last := reports[..|reports| - 1], reports[|reports| - 1];
      assert reports == init + [last];
      KeptAppends(init, last, excluded);
      KeptMembers(init, excluded, r);
      var before, kept := Kept(init, excluded), Kept(reports, excluded);
      assert forall s | s in before :: s in kept;
      if r == last && last.digest != "" && last.digest in Digests(init) {
        var twin :| twin in init && twin.digest == last.digest;
        KeptMembers(init, excluded, twin);
      } else if r == last && kept == before + [last] {
        assert kept[|before|] == last;
      }
    }
  }

  lemma {:induction false} SomeFlagged(reports: seq<Report>, flag: Report -> real)
    requires forall r :: flag(r) >= 0.0
    ensures SumOf(reports, flag) >= 0.0
    ensures SumOf(reports, flag) > 0.0 <==> exists r :: r in reports && flag(r) > 0.0
  {
    if reports != [] {
      var init, last := reports[..|reports| - 1], reports[|reports| - 1];
      assert reports == init + [last];
      SomeFlagged(init, flag);
    }
  }

  /**
  What the policy is told beside the amount, of the reports themselves: rows may be counted twice
  when a report with figures states no digest, or this run states none; and another currency
  is met exactly in a report that is not this run's own.
  */
  lemma EarlierMarks(e: EarlierTotal, reports: seq<Report>, own: Report)
    requires EarlierHolds(e, Kept(reports, ExcludedBy(own)), own.digest) && Consistent(reports)
    ensures e.mayRepeat <==> exists r :: r in reports && r.figures != [] && (r.digest == "" || own.digest == "")
    ensures e.otherCurrency <==>
            exists r :: r in reports && (r.digest == "" || r.digest != own.digest) && HasForeign(r)
  {
    hide SumOf, Kept;
    var kept := Kept(reports, ExcludedBy(own));
    SomeFlagged(kept, Foreign());
    SomeFlagged(kept, Repeatable(own.digest));
    forall r: Report
      ensures r in kept ==> r in reports && (r.digest == "" || r.digest !in ExcludedBy(own))
      ensures r in reports && (r.digest == "" || r.digest != own.digest) ==>
          exists s :: s in kept && s.digest == r.digest && s.figures == r.figures
    {
      KeptMembers(reports, ExcludedBy(own), r);
      if r in reports && r.digest != "" && r.digest != own.digest {
        var s :| s in kept && s.digest == r.digest;
        KeptMembers(reports, ExcludedBy(own), s);
        assert s.figures == r.figures;
      }
    }
  }

  predicate HasForeign(r: Report) {
    exists i | 0 <= i < |r.figures| :: r.figures[i].currency != "USD"
  }

  // ---- Orders and repeats -------------------------------------------------

  /** The sums over the kept reports determine the lifetime, down to its decimals. */
  lemma SameSumsSameTotal(a: Lifetime, b: Lifetime, keptA: seq<Report>, keptB: seq<Report>)
    requires TotalHolds(a, keptA) && TotalHolds(b, keptB)
    requires forall g: Report -> real :: SumOf(keptA, g) == SumOf(keptB, g)
    ensures a == b
  {
    hide ValueAt, Value, SumOf, MapSum, IsNormal, Amount, Counting, Undigested;
    forall k
      ensures FigureOf(a, k).reports == FigureOf(b, k).reports && FigureOf(a, k).undigested == FigureOf(b, k).undigested
      ensures Value(FigureOf(a, k).cost) == Value(FigureOf(b, k).cost)
    {
    }
    assert forall k | k in a :: FigureOf(a, k).reports > 0;
    assert forall k | k in b :: FigureOf(b, k).reports > 0;
    forall k | k in a
      ensures k in b && a[k] == b[k]
    {
      assert FigureOf(b, k).reports > 0;
      NormalIsUnique(a[k].cost, b[k].cost);
    }
    forall k | k in b
      ensures k in a
    {
      assert FigureOf(a, k).reports > 0;
    }
  }

  lemma SameSumsSameEarlier(a: EarlierTotal, b: EarlierTotal, keptA: seq<Report>, keptB: seq<Report>, ownDigest: string)
    requires EarlierHolds(a, keptA, ownDigest) && EarlierHolds(b, keptB, ownDigest)
    requires forall g: Report -> real :: SumOf(keptA, g) == SumOf(keptB, g)
    ensures a == b
  {
    hide ValueAt, Value, SumOf, IsNormal;
    NormalIsUnique(a.usd, b.usd);
  }

  /** When one digest means one set of figures, neither total depends on the order of the reports. */
  lemma TotalsForgetOrder(reports: seq<Report>, permuted: seq<Report>, own: Report,
                          a: Lifetime, b: Lifetime, c: EarlierTotal, d: EarlierTotal)
    requires multiset(reports) == multiset(permuted) && Consistent(reports + [own])
    requires TotalHolds(a, Kept(reports + [own], {})) && TotalHolds(b, Kept(permuted + [own], {}))
    requires EarlierHolds(c, Kept(reports, ExcludedBy(own)), own.digest)
    requires EarlierHolds(d, Kept(permuted, ExcludedBy(own)), own.digest)
    ensures a == b && c == d
  {
    hide TotalHolds, EarlierHolds, SumOf, Kept, Consistent;
    ConsistentPart(reports, own);
    forall g: Report -> real
      ensures SumOf(Kept(reports + [own], {}), g) == SumOf(Kept(permuted + [own], {}), g)
      ensures SumOf(Kept(reports, ExcludedBy(own)), g) == SumOf(Kept(permuted, ExcludedBy(own)), g)
    {
      KeptForgetsOrder(reports + [own], permuted + [own], {}, g);
      KeptForgetsOrder(reports, permuted, ExcludedBy(own), g);
    }
    SameSumsSameTotal(a, b, Kept(reports + [own], {}), Kept(permuted + [own], {}));
    SameSumsSameEarlier(c, d, Kept(reports, ExcludedBy(own)), Kept(permuted, ExcludedBy(own)), own.digest);
  }

  lemma ConsistentPart(reports: seq<Report>, own: Report)
    requires Consistent(reports + [own])
    ensures Consistent(reports)
  {
    assert forall r | r in reports :: r in reports + [own];
  }

  /** When one digest means one set of figures, a digested report posted again changes neither total. */
  lemma TotalsIgnoreRepeats(reports: seq<Report>, repeat: Report, at: nat, own: Report,
                            a: Lifetime, b: Lifetime, c: EarlierTotal, d: EarlierTotal)
    requires Consistent(reports + [own]) && at <= |reports| && repeat in reports && repeat.digest != ""
    requires TotalHolds(a, Kept(reports + [own], {}))
    requires TotalHolds(b, Kept(reports[..at] + [repeat] + reports[at..] + [own], {}))
    requires EarlierHolds(c, Kept(reports, ExcludedBy(own)), own.digest)
    requires EarlierHolds(d, Kept(reports[..at] + [repeat] + reports[at..], ExcludedBy(own)), own.digest)
    ensures a == b && c == d
  {
    hide TotalHolds, EarlierHolds, SumOf, Kept, Consistent;
    ConsistentPart(reports, own);
    var longer := reports[..at] + [repeat] + reports[at..];
    assert (reports + [own])[..at] + [repeat] + (reports + [own])[at..] == longer + [own];
    forall g: Report -> real
      ensures SumOf(Kept(reports + [own], {}), g) == SumOf(Kept(longer + [own], {}), g)
      ensures SumOf(Kept(reports, ExcludedBy(own)), g) == SumOf(Kept(longer, ExcludedBy(own)), g)
    {
      RepeatAddsNothing(reports + [own], {}, repeat, at, g);
      RepeatAddsNothing(reports, ExcludedBy(own), repeat, at, g);
    }
    SameSumsSameTotal(a, b, Kept(reports + [own], {}), Kept(longer + [own], {}));
    SameSumsSameEarlier(c, d, Kept(reports, ExcludedBy(own)), Kept(longer, ExcludedBy(own)), own.digest);
  }

  // ---- The two totals -----------------------------------------------------

  /** Whether this run's rows were never reported before, or first reported with the same USD. */
  ghost predicate FirstReportAgrees(reports: seq<Report>, own: Report) {
    own.digest in Digests(reports) ==> UsdOf(First(reports, own.digest)) == UsdOf(own)
  }

  /**
  The comment's USD over every basis is the policy's earlier total plus this run's USD
  exactly when the first report of this run's rows, if any, stated this run's USD.
  */
  lemma TotalsAgree(reports: seq<Report>, own: Report, lifetime: Lifetime, earlier: EarlierTotal)
    requires TotalHolds(lifetime, Kept(reports + [own], {}))
    requires EarlierHolds(earlier, Kept(reports, ExcludedBy(own)), own.digest)
    ensures MapSum(lifetime, UsdPart()) == Value(earlier.usd) + UsdOf(own) <==> FirstReportAgrees(reports, own)
  {
    hide ValueAt, Value, SumOf, Kept, MapSum, FigureSum;
    KeptAppends(reports, own, {});
    SumAppends(Kept(reports, {}), own, Amount(InUsd()));
    if own.digest != "" {
      ExcludingOne(reports, own.digest, Amount(InUsd()));
    }
  }

  /** One digest, one set of figures: the two totals always agree. */
  lemma ConsistentTotalsAgree(reports: seq<Report>, own: Report, lifetime: Lifetime, earlier: EarlierTotal)
    requires Consistent(reports + [own])
    requires TotalHolds(lifetime, Kept(reports + [own], {}))
    requires EarlierHolds(earlier, Kept(reports, ExcludedBy(own)), own.digest)
    ensures MapSum(lifetime, UsdPart()) == Value(earlier.usd) + UsdOf(own)
  {
    hide TotalHolds, EarlierHolds, Kept, MapSum, Value, FigureSum;
    TotalsAgree(reports, own, lifetime, earlier);
    if own.digest in Digests(reports) {
      var first := First(reports, own.digest);
      assert first in reports + [own] && own in reports + [own];
    }
  }

  // ---- Against the policy's reader ----------------------------------------

  /** lifetime.total: the earlier reports and this run's rows, as the policy's pack reads them. */
  function PolicyTotal(earlier: EarlierTotal, usage: map<string, CurrencyUsage>): Decimal {
    Add(earlier.usd, ListCostOf(usage, USD))
  }

  /** This run's own figures as its result object prints them. */
  function Printed(figures: map<FigureKey, Figure>, shown: seq<FigureKey>): (printed: seq<BlockFigure>)
    requires forall k | k in shown :: k in figures
  {
    if shown == [] then [] else
      var init, last := shown[..|shown| - 1], shown[|shown| - 1];
      Printed(figures, init) + [BlockFigure(last.currency, last.basis, Text(figures[last].cost))]
  }

  lemma PrintedCost(f: Figure, k: FigureKey)
    requires Sound(f)
    requires FigureCost(BlockFigure(k.currency, k.basis, Text(f.cost))).Some?
    ensures CostOf(BlockFigure(k.currency, k.basis, Text(f.cost))) == Value(f.cost)
  {
    hide Text, IsCurrency, MapSum, Parse, Normal, ValueAt;
    ParseReadsText(f.cost);
  }

  /** Every printed figure of accepted rows is one the reader of result objects takes. */
  lemma {:induction false} PrintedIsCosted(figures: map<FigureKey, Figure>, shown: seq<FigureKey>, rows: seq<RowText>)
    requires FiguresHold(figures, rows) && forall k | k in shown :: k in figures
    ensures forall i | 0 <= i < |Printed(figures, shown)| :: FigureCost(Printed(figures, shown)[i]).Some?
  {
    hide Text, FigureCost, MapSum, CostIn, IsCurrency, ValueAt;
    if shown != [] {
      var init, last := shown[..|shown| - 1], shown[|shown| - 1];
      PrintedIsCosted(figures, init, rows);
      assert last in figures && Sound(figures[last]);
      FigureCostReads(last.currency, last.basis, figures[last].cost);
    }
  }

  /** What the figures whose currency and basis are picked cost. */
  ghost function PickedCost(figures: map<FigureKey, Figure>, pick: LifetimeKey -> bool): FigureKey -> real {
    (k: FigureKey) =>
      if k in figures && pick(LifetimeKey(k.currency, k.basis)) then Value(figures[k].cost) else 0.0
  }

  lemma OneMoreMember(shown: seq<FigureKey>, f: FigureKey -> real)
    requires shown != [] && Distinct(shown)
    ensures SetSum(Members(shown), f) ==
            SetSum(Members(shown[..|shown| - 1]), f) + f(shown[|shown| - 1])
  {
    var init, last := shown[..|shown| - 1], shown[|shown| - 1];
    TakeAny(Members(shown), f, last);
    assert shown == init + [last];
    assert Members(shown) - {last} == Members(init);
  }

  /** Whichever currencies and bases are picked, the figures printed cost what the figures do. */
  lemma {:induction false} PrintedSums(figures: map<FigureKey, Figure>, shown: seq<FigureKey>,
                                       pick: LifetimeKey -> bool)
    requires Distinct(shown) && (forall k | k in shown :: k in figures)
    requires forall k | k in figures :: Sound(figures[k])
    requires forall i | 0 <= i < |Printed(figures, shown)| :: FigureCost(Printed(figures, shown)[i]).Some?
    ensures FigureSum(Printed(figures, shown), pick) == SetSum(Members(shown), PickedCost(figures, pick))
  {
    hide Text, FigureCost, ValueAt, Value, MapSum, SetSum, Members, Sound, CostOf;
    if shown == [] {
      NoMembers(PickedCost(figures, pick));
    } else {
      var init, last := shown[..|shown| - 1], shown[|shown| - 1];
      var line := BlockFigure(last.currency, last.basis, Text(figures[last].cost));
      var printed := Printed(figures, shown);
      assert printed[|printed| - 1] == line;
      assert forall i | 0 <= i < |Printed(figures, init)| :: printed[i] == Printed(figures, init)[i];
      PrintedSums(figures, init, pick);
      OneMoreMember(shown, PickedCost(figures, pick));
      FigureSumAppends(Printed(figures, init), line, pick);
      PrintedCost(figures[last], last);
    }
  }

  lemma NoMembers(f: FigureKey -> real)
    ensures SetSum(Members([]), f) == 0.0
  {
    assert Members([]) == {};
  }

  /** A report that prints every figure states, for each currency and basis, what its figures cost. */
  lemma OwnReportStatesFigures(own: Report, figures: map<FigureKey, Figure>, shown: seq<FigureKey>,
                               rows: seq<RowText>, k: LifetimeKey)
    requires FiguresHold(figures, rows)
    requires Distinct(shown) && (forall k | k in shown :: k in figures) && |shown| == |figures|
    requires own.figures == Printed(figures, shown)
    ensures FigureSum(own.figures, Only(k)) == MapSum(figures, InSpend(SpendKey(k.currency, k.basis)))
  {
    hide FigureCost, ValueAt, Value, MapSum, SetSum, Members, Sound, Printed, CostIn, Distinct;
    PrintedIsCosted(figures, shown, rows);
    PrintedSums(figures, shown, Only(k));
    AllShown(figures, shown);
    SumOverKeys(figures, InSpend(SpendKey(k.currency, k.basis)), PickedCost(figures, Only(k)));
  }

  /** A report that prints every figure of the rows states the USD the policy's reader finds in them. */
  lemma OwnReportStatesUsage(own: Report, figures: map<FigureKey, Figure>, shown: seq<FigureKey>,
                             usage: map<string, CurrencyUsage>, rows: seq<RowText>)
    requires FiguresHold(figures, rows) && UsageHolds(usage, rows)
    requires Distinct(shown) && (forall k | k in shown :: k in figures) && |shown| == |figures|
    requires own.figures == Printed(figures, shown)
    ensures Costed(own) && UsdOf(own) == Value(ListCostOf(usage, USD))
  {
    hide FigureCost, ValueAt, Value, MapSum, SetSum, Members, Sound, Printed, CostIn, Distinct;
    PrintedIsCosted(figures, shown, rows);
    PrintedSums(figures, shown, InUsd());
    AllShown(figures, shown);
    SumOverKeys(figures, InCurrency(USD), PickedCost(figures, InUsd()));
    ReadersAgree(figures, usage, rows, USD);
  }

  /**
  From the rows to both totals: the comment's lifetime in USD is what the policy reads
  exactly when the first report of these rows, if any, stated the USD they hold.
  */
  lemma LifetimeIsPolicyTotal(reports: seq<Report>, own: Report, lifetime: Lifetime, earlier: EarlierTotal,
                              figures: map<FigureKey, Figure>, shown: seq<FigureKey>,
                              usage: map<string, CurrencyUsage>, rows: seq<RowText>)
    requires FiguresHold(figures, rows) && UsageHolds(usage, rows)
    requires Distinct(shown) && (forall k | k in shown :: k in figures) && |shown| == |figures|
    requires own.figures == Printed(figures, shown)
    requires TotalHolds(lifetime, Kept(reports + [own], {}))
    requires EarlierHolds(earlier, Kept(reports, ExcludedBy(own)), own.digest)
    ensures MapSum(lifetime, UsdPart()) == Value(PolicyTotal(earlier, usage)) <==> FirstReportAgrees(reports, own)
  {
    hide FiguresHold, UsageHolds, TotalHolds, EarlierHolds, MapSum, Value, FirstReportAgrees, Costed, Printed, Add,
      ListCostOf, FigureSum, Distinct, Kept;
    OwnReportStatesUsage(own, figures, shown, usage, rows);
    TotalsAgree(reports, own, lifetime, earlier);
  }

  const ONE_DOLLAR := BlockFigure("USD", "measured", "1")

  /** A result object of the newest schema that states these figures for a digest. */
  function Stated(digest: string, figures: seq<BlockFigure>): Block {
    Block(DIGEST_SCHEMA, "shown", 0, Some(digest), figures)
  }

  /**
  Whatever this run's digest, an earlier check run that states no figure under it parts
  the totals. Both objects are ones the reader takes.
  */
  lemma ClaimedDigestPartsTotals(digest: string, lifetime: Lifetime, earlier: EarlierTotal)
    requires IsSha256(digest)
    requires var claim, own := Report(digest, []), Report(digest, [ONE_DOLLAR]);
             && TotalHolds(lifetime, Kept([claim, own], {}))
             && EarlierHolds(earlier, Kept([claim], ExcludedBy(own)), digest)
    ensures ParseObject(Stated(digest, [])) == Some(Report(digest, []))
    ensures ParseObject(Stated(digest, [ONE_DOLLAR])) == Some(Report(digest, [ONE_DOLLAR]))
    ensures MapSum(lifetime, UsdPart()) != Value(earlier.usd) + UsdOf(Report(digest, [ONE_DOLLAR]))
  {
    hide TotalHolds, EarlierHolds, MapSum, Value, FigureSum, Kept, FigureCost;
    var claim, own := Report(digest, []), Report(digest, [ONE_DOLLAR]);
    assert [claim] + [own] == [claim, own];
    TotalsAgree([claim], own, lifetime, earlier);
    assert claim in [claim];
    assert First([claim], digest) == claim;
    OneDollar();
    NothingRead();
    FigureSumAppends([], ONE_DOLLAR, InUsd());
    assert [] + [ONE_DOLLAR] == [ONE_DOLLAR];
    assert Costed(claim) && Costed(own);
  }

  lemma OneDollar()
    ensures FigureCost(ONE_DOLLAR).Some? && CostOf(ONE_DOLLAR) == 1.0
  {
    ParseReadsText(FromInt(1));
    assert Text(FromInt(1)) == "1";
  }

  // ---- Reading the pull request -------------------------------------------

  /** The reports among a commit's check runs: None is a text that holds no result object. */
  ghost function Parsed(checks: seq<Option<Block>>): (reports: seq<Report>)
    ensures |reports| <= |checks| && AllCosted(reports)
  {
    if checks == [] then [] else
      var init, last := checks[..|checks| - 1], checks[|checks| - 1];
      Parsed(init) + if last.Some? && ParseObject(last.value).Some? then [ParseObject(last.value).value] else []
  }

  ghost function ParsedAll(commits: seq<seq<Option<Block>>>): (reports: seq<Report>)
    ensures AllCosted(reports)
  {
    if commits == [] then [] else ParsedAll(commits[..|commits| - 1]) + Parsed(commits[|commits| - 1])
  }

  ghost function CheckCount(commits: seq<seq<Option<Block>>>): nat {
    if commits == [] then 0 else CheckCount(commits[..|commits| - 1]) + |commits[|commits| - 1]|
  }

  /** CheckRunBlocks: one commit's reports, and how many of its check runs were refused. */
  method CheckRunBlocks(checks: seq<Option<Block>>) returns (reports: seq<Report>, unread: nat)
    ensures reports == Parsed(checks) && unread == |checks| - |reports|
  {
    hide ParseObject, Costed;
    reports, unread := [], 0;
    for i := 0 to |checks|
      invariant reports == Parsed(checks[..i]) && unread == i - |reports|
    {
      assert checks[..i + 1][..i] == checks[..i];
      var report := if checks[i].Some? then ParseObject(checks[i].value) else None;
      if report.None? {
        unread := unread + 1;
        continue;
      }
      reports := reports + [report.value];
    }
    assert checks[..|checks|] == checks;
  }

  lemma {:induction false} KeptAreCosted(reports: seq<Report>, excluded: set<string>)
    requires AllCosted(reports)
    ensures AllCosted(Kept(reports, excluded))
  {
    hide Costed, Digests;
    if reports != [] {
      var init, last := reports[..|reports| - 1], reports[|reports| - 1];
      assert reports == init + [last];
      KeptAreCosted(init, excluded);
      KeptAppends(init, last, excluded);
    }
  }

  /**
  Read: every commit's reports in order, added up both ways. Because a report is taken
  only when every figure has an amount, neither sum can fail.
  */
  method Read(commits: seq<seq<Option<Block>>>, own: Report)
    returns (lifetime: Lifetime, earlier: EarlierTotal, unread: nat)
    requires Costed(own)
    ensures unread == CheckCount(commits) - |ParsedAll(commits)|
    ensures TotalHolds(lifetime, Kept(ParsedAll(commits) + [own], {}))
    ensures EarlierHolds(earlier, Kept(ParsedAll(commits), ExcludedBy(own)), own.digest)
    ensures MapSum(lifetime, UsdPart()) == Value(earlier.usd) + UsdOf(own) <==>
            FirstReportAgrees(ParsedAll(commits), own)
  {
    hide TotalHolds, EarlierHolds, FirstReportAgrees, Costed, MapSum, Value, FigureSum, Kept, Parsed;
    var reports: seq<Report> := [];
    unread := 0;
    for i := 0 to |commits|
      invariant reports == ParsedAll(commits[..i])
      invariant unread == CheckCount(commits[..i]) - |reports|
    {
      assert commits[..i + 1][..i] == commits[..i];
      var read, refused := CheckRunBlocks(commits[i]);
      reports := reports + read;
      unread := unread + refused;
    }
    assert commits[..|commits|] == commits;
    KeptAreCosted(reports + [own], {});
    KeptAreCosted(reports, ExcludedBy(own));
    var figures := Total(reports + [own]);
    var before := Earlier(reports, own);
    lifetime, earlier := figures.value, before.value;
    TotalsAgree(reports, own, lifetime, earlier);
  }
}
