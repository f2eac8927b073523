/**
What a pull request's reports add up to: sums over the reports that are kept when a
repeated digest counts once (internal/history/history.go).
*/
module ReportSums {
  import opened Wrappers
  import opened Decimals
  import opened DecimalText
  import opened CommentRows
  import opened Sums

  datatype BlockFigure = BlockFigure(currency: string, basis: string, listCost: string)

  /** A report's figures, and the digest of the rows it reports: empty when it states none. */
  datatype Report = Report(digest: string, figures: seq<BlockFigure>)

  datatype LifetimeKey = LifetimeKey(currency: string, basis: string)

  const USD := "USD"

  /** FigureCost: one figure's amount, once its currency and basis are ones this release knows. */
  function FigureCost(f: BlockFigure): (r: Option<Decimal>)
    ensures r.Some? ==> IsNormal(r.value) && Value(r.value) >= 0.0
    ensures r.Some? <==> IsCurrency(f.currency) && f.basis in BASES && IsLiteral(f.listCost)
  {
    if !IsCurrency(f.currency) || f.basis !in BASES || Parse(f.listCost).None? then None else
      ParseIsNonNegative(f.listCost);
      Parse(f.listCost)
  }

  /** A printed amount of zero or more is read back exactly, beside a currency code and a basis that is known. */
  lemma FigureCostReads(currency: string, basis: string, d: Decimal)
    requires Sign(d) >= 0
    ensures FigureCost(BlockFigure(currency, basis, Text(d))) ==
            if IsCurrency(currency) && basis in BASES then Some(Normal(d)) else None
  {
    hide Text, Parse, Normal, IsCurrency;
    ParseReadsText(d);
  }

  predicate Costed(r: Report) {
    forall i | 0 <= i < |r.figures| :: FigureCost(r.figures[i]).Some?
  }

  ghost function CostOf(f: BlockFigure): real {
    if FigureCost(f).Some? then Value(FigureCost(f).value) else 0.0
  }

  /** The sum a figure of a report joins. */
  function KeyFor(f: BlockFigure): LifetimeKey {
    LifetimeKey(f.currency, f.basis)
  }

  /** The cost of the figures whose currency and basis are picked. */
  ghost function FigureSum(figures: seq<BlockFigure>, pick: LifetimeKey -> bool): real {
    if figures == [] then 0.0 else
      var last := figures[|figures| - 1];
      FigureSum(figures[..|figures| - 1], pick) +
      if pick(LifetimeKey(last.currency, last.basis)) then CostOf(last) else 0.0
  }

  ghost function Only(k: LifetimeKey): LifetimeKey -> bool {
    (key: LifetimeKey) => key == k
  }

  ghost function InUsd(): LifetimeKey -> bool {
    (key: LifetimeKey) => key.currency == USD
  }

  /** What a report states for the figures picked. */
  ghost function Amount(pick: LifetimeKey -> bool): Report -> real {
    (r: Report) => FigureSum(r.figures, pick)
  }

  ghost function UsdOf(r: Report): real {
    FigureSum(r.figures, InUsd())
  }

  predicate Carries(r: Report, k: LifetimeKey) {
    exists i | 0 <= i < |r.figures| :: r.figures[i].currency == k.currency && r.figures[i].basis == k.basis
  }

  /** 1 for a report that carries the key. */
  ghost function Counting(k: LifetimeKey): Report -> real {
    (r: Report) => if Carries(r, k) then 1.0 else 0.0
  }

  // ---- Reports kept -------------------------------------------------------

  ghost function Digests(reports: seq<Report>): set<string> {
    set r | r in reports && r.digest != "" :: r.digest
  }

  /** The reports left when a digest excluded or stated before is dropped. */
  ghost function Kept(reports: seq<Report>, excluded: set<string>): seq<Report> {
    if reports == [] then [] else
      var init, last := reports[..|reports| - 1], reports[|reports| - 1];
      if last.digest != "" && (last.digest in excluded || last.digest in Digests(init)) then Kept(init, excluded)
      else Kept(init, excluded) + [last]
  }

  ghost function SumOf(reports: seq<Report>, g: Report -> real): real {
    if reports == [] then 0.0 else SumOf(reports[..|reports| - 1], g) + g(reports[|reports| - 1])
  }

  lemma SumAppends(reports: seq<Report>, r: Report, g: Report -> real)
    ensures SumOf(reports + [r], g) == SumOf(reports, g) + g(r)
  {
    assert (reports + [r])[..|reports|] == reports;
  }

  lemma KeptAppends(reports: seq<Report>, r: Report, excluded: set<string>)
    ensures Kept(reports + [r], excluded) ==
            if r.digest != "" && (r.digest in excluded || r.digest in Digests(reports)) then Kept(reports, excluded)
            else Kept(reports, excluded) + [r]
  {
    assert (reports + [r])[..|reports|] == reports;
  }

  lemma DigestsAppend(reports: seq<Report>, r: Report)
    ensures Digests(reports + [r]) == Digests(reports) + if r.digest != "" then {r.digest} else {}
  {
    assert r in reports + [r];
    assert forall x | x in reports :: x in reports + [r];
  }

  /** The first report that states the digest. */
  ghost function First(reports: seq<Report>, digest: string): (r: Report)
    requires digest in Digests(reports)
    ensures r in reports && r.digest == digest
  {
    var init := reports[..|reports| - 1];
    if digest in Digests(init) then First(init, digest) else
      assert reports == init + [reports[|reports| - 1]];
      reports[|reports| - 1]
  }

  /** Excluding one digest takes away what the first report stating it adds. */
  lemma {:induction false} ExcludingOne(reports: seq<Report>, digest: string, g: Report -> real)
    requires digest != ""
    ensures SumOf(Kept(reports, {}), g) ==
            SumOf(Kept(reports, {digest}), g) + if digest in Digests(reports) then g(First(reports, digest)) else 0.0
  {
    if reports != [] {
      var init, last := reports[..|reports| - 1], reports[|reports| - 1];
      ExcludingOne(init, digest, g);
      assert reports == init + [last];
      DigestsAppend(init, last);
      SumAppends(Kept(init, {}), last, g);
      SumAppends(Kept(init, {digest}), last, g);
    }
  }

  /** Reports that state one digest state the same figures. */
  ghost predicate Consistent(reports: seq<Report>) {
    forall r, s | r in reports && s in reports && r.digest != "" && r.digest == s.digest :: r.figures == s.figures
  }

  /** What a digest stands for. */
  ghost function Meaning(reports: seq<Report>, g: Report -> real): string -> real {
    (digest: string) => if digest in Digests(reports) then g(First(reports, digest)) else 0.0
  }

  ghost function Undigested(g: Report -> real): Report -> real {
    (r: Report) => if r.digest == "" then g(r) else 0.0
  }

  /** Every digested report of the list states what its digest means. */
  ghost predicate Means(reports: seq<Report>, g: Report -> real, meaning: string -> real) {
    forall r | r in reports && r.digest != "" :: g(r) == meaning(r.digest)
  }

  lemma NothingSums(g: Report -> real, meaning: string -> real)
    ensures SumOf([], g) == SumOf([], Undigested(g)) == SetSum({}, meaning) == 0.0
  {
  }

  /** The kept reports are every undigested report, and each digest that is not excluded once. */
  lemma {:induction false} KeptSum(reports: seq<Report>, excluded: set<string>, g: Report -> real,
                                   meaning: string -> real)
    requires Means(reports, g, meaning)
    ensures SumOf(Kept(reports, excluded), g) == SumOf(reports, Undigested(g)) +
            SetSum(Digests(reports) - excluded, meaning)
  {
    hide SumOf, SetSum;
    if reports == [] {
      assert Digests(reports) - excluded == {};
      NothingSums(g, meaning);
    } else {
      var init, last := reports[..|reports| - 1], reports[|reports| - 1];
      assert reports == init + [last];
      SumAppends(init, last, Undigested(g));
      KeptSum(init, excluded, g, meaning);
      DigestsAppend(init, last);
      SumAppends(Kept(init, excluded), last, g);
      if last.digest != "" && last.digest !in excluded && last.digest !in Digests(init) {
        TakeAny(Digests(reports) - excluded, meaning, last.digest);
        assert Digests(reports) - excluded - {last.digest} == Digests(init) - excluded;
      } else {
        assert Digests(reports) - excluded == Digests(init) - excluded;
      }
    }
  }

  lemma {:induction false} SumWithout(reports: seq<Report>, k: nat, g: Report -> real)
    requires k < |reports|
    ensures SumOf(reports, g) == SumOf(reports[..k] + reports[k + 1..], g) + g(reports[k])
  {
    hide SumOf;
    var init, last := reports[..|reports| - 1], reports[|reports| - 1];
    assert reports == init + [last];
    SumAppends(init, last, g);
    if k == |reports| - 1 {
      assert reports[..k] + reports[k + 1..] == init;
    } else {
      SumWithout(init, k, g);
      assert reports[..k] + reports[k + 1..] == (init[..k] + init[k + 1..]) + [last];
      SumAppends(init[..k] + init[k + 1..], last, g);
    }
  }

  lemma RestOf(reports: seq<Report>, k: nat)
    requires k < |reports|
    ensures multiset(reports[..k] + reports[k + 1..]) == multiset(reports) - multiset{reports[k]}
  {
    assert reports == reports[..k] + [reports[k]] + reports[k + 1..];
  }

  lemma {:induction false} SumForgetsOrder(a: seq<Report>, b: seq<Report>, g: Report -> real)
    requires multiset(a) == multiset(b)
    ensures SumOf(a, g) == SumOf(b, g)
  {
    hide SumOf;
    if a == [] {
      assert |multiset(b)| == 0;
    } else {
      var init, last := a[..|a| - 1], a[|a| - 1];
      assert a == init + [last];
      assert last in multiset(b);
      var k :| 0 <= k < |b| && b[k] == last;
      SumWithout(b, k, g);
      RestOf(b, k);
      SumForgetsOrder(init, b[..k] + b[k + 1..], g);
      SumAppends(init, last, g);
    }
  }

  lemma SameMembers(a: seq<Report>, b: seq<Report>)
    requires multiset(a) == multiset(b)
    ensures forall r :: r in a <==> r in b
  {
    assert forall r :: r in a <==> r in multiset(a);
    assert forall r :: r in b <==> r in multiset(b);
  }

  lemma ConsistentMeans(reports: seq<Report>, g: Report -> real)
    requires Consistent(reports)
    ensures Means(reports, g, Meaning(reports, g))
  {
    forall r | r in reports && r.digest != ""
      ensures g(r) == Meaning(reports, g)(r.digest)
    {
      assert r.digest in Digests(reports);
      var first := First(reports, r.digest);
      assert first.figures == r.figures;
    }
  }

  /** What the kept reports add up to does not depend on the order they were read in. */
  lemma KeptForgetsOrder(a: seq<Report>, b: seq<Report>, excluded: set<string>, g: Report -> real)
    requires multiset(a) == multiset(b) && Consistent(a)
    ensures SumOf(Kept(a, excluded), g) == SumOf(Kept(b, excluded), g)
  {
    hide SumOf, Kept;
    SameMembers(a, b);
    ConsistentMeans(a, g);
    KeptSum(a, excluded, g, Meaning(a, g));
    KeptSum(b, excluded, g, Meaning(a, g));
    SumForgetsOrder(a, b, Undigested(g));
    assert Digests(a) == Digests(b);
  }

  lemma StillConsistent(reports: seq<Report>, r: Report)
    requires Consistent(reports) && r in reports
    ensures Consistent(reports + [r])
  {
    assert forall x :: x in reports + [r] ==> x in reports;
  }

  /** Repeating a digested report, anywhere in the list, adds nothing. */
  lemma RepeatAddsNothing(reports: seq<Report>, excluded: set<string>, r: Report, at: nat, g: Report -> real)
    requires at <= |reports| && Consistent(reports)
    requires r in reports && r.digest != ""
    ensures SumOf(Kept(reports[..at] + [r] + reports[at..], excluded), g) == SumOf(Kept(reports, excluded), g)
  {
    hide SumOf, Kept, Consistent;
    StillConsistent(reports, r);
    assert reports == reports[..at] + reports[at..];
    KeptForgetsOrder(reports + [r], reports[..at] + [r] + reports[at..], excluded, g);
    KeptAppends(reports, r, excluded);
    assert r.digest in Digests(reports);
  }
}
