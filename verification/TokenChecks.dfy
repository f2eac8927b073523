/** The token comparison of a reconciliation (internal/reconcile/tokens.go). */
module TokenChecks {
  import opened Decimals
  import opened Focus

  const TOKEN_TOLERANCE_PERCENT := 1
  const OPENAI := "openai"

  /**
  A key of a token map: a class of the rows, the comparison class for writes whose
  lifetime is not known, or any other text a row's meter holds.
  */
  datatype Meter = Of(class_: TokenClass) | CacheWrite | Unlisted(name: string)

  /** The order a row's classes print in. */
  const COMPARED := [Of(InputUncached), Of(CacheRead), CacheWrite, Of(CacheWrite5m), Of(CacheWrite1h),
                     Of(CacheWrite30m), Of(CacheWrite12h), Of(Output)]

  const WRITES := [Of(CacheWrite5m), Of(CacheWrite1h), Of(CacheWrite30m), Of(CacheWrite12h)]

  type Counts = map<Meter, Decimal>

  /** A Go map read: zero for an absent key. */
  function At(tokens: Counts, m: Meter): Decimal {
    if m in tokens then tokens[m] else ZERO
  }

  ghost function InCounts(tokens: Counts): Meter -> real {
    (m: Meter) => Value(At(tokens, m))
  }

  // ---- The tolerance ------------------------------------------------------

  ghost function Distance(a: real, b: real): real {
    if a < b then b - a else a - b
  }

  /** The gap is no more than a percentage of what the provider states. */
  ghost predicate Close(ledger: real, provider: real, percent: int) {
    Distance(ledger, provider) * 100.0 <= provider * percent as real
  }

  function Absolute(d: Decimal): (r: Decimal)
    ensures Value(r) == Distance(Value(d), 0.0)
  {
    if Sign(d) < 0 then
      assert Value(ZERO) == 0.0;
      Sub(ZERO, d)
    else d
  }

  /** Exact arithmetic decides the tolerance, without rounding. */
  function Within(ledger: Decimal, provider: Decimal, percent: int): bool {
    var gap := Absolute(Sub(provider, ledger));
    Cmp(Mul(gap, FromInt(100)), Mul(provider, FromInt(percent))) <= 0
  }

  /** A provider's zero matches only zero. */
  lemma WithinIsClose(ledger: Decimal, provider: Decimal, percent: int)
    ensures Within(ledger, provider, percent) <==> Close(Value(ledger), Value(provider), percent)
    ensures Value(provider) == 0.0 ==> (Within(ledger, provider, percent) <==> Value(ledger) == 0.0)
  {
    hide Value, Sub, Mul, Cmp, FromInt, Absolute;
  }

  // ---- Usage records ------------------------------------------------------

  /** One token record of a credential's day. */
  datatype Usage = Usage(model: string, tier: string, region: string, tokens: Counts)

  ghost function InUsage(usage: seq<Usage>): Meter -> real {
    (m: Meter) => UsageOf(usage, m)
  }

  ghost function UsageOf(usage: seq<Usage>, m: Meter): real {
    if usage == [] then 0.0 else UsageOf(usage[..|usage| - 1], m) + Value(At(usage[|usage| - 1].tokens, m))
  }

  /** One record added to the totals, its classes in any order. */
  method AddRecord(before: Counts, tokens: Counts) returns (total: Counts)
    ensures forall m :: Value(At(total, m)) == Value(At(before, m)) + Value(At(tokens, m))
    ensures (forall m | m in before :: IsNormal(before[m])) ==> forall m | m in total :: IsNormal(total[m])
  {
    hide ValueAt, Value, IsNormal;
    assert Value(ZERO) == 0.0 by {
      ZeroIsZero();
    }
    total := before;
    var left := tokens.Keys;
    while left != {}
      invariant left <= tokens.Keys
      invariant forall m ::
          Value(At(total, m)) == Value(At(before, m)) + if m in left then 0.0 else Value(At(tokens, m))
      invariant (forall m | m in before :: IsNormal(before[m])) ==> forall m | m in total :: IsNormal(total[m])
      decreases |left|
    {
      var m :| m in left;
      total := total[m := Add(At(total, m), tokens[m])];
      left := left - {m};
    }
  }

  /**
  sumTokens: each class's total over the records. The totals are normal, so they are
  the same decimals in whatever order the records' maps are read.
  */
  method SumTokens(usage: seq<Usage>) returns (total: Counts)
    ensures forall m :: Value(At(total, m)) == UsageOf(usage, m)
    ensures forall m | m in total :: IsNormal(total[m])
  {
    hide ValueAt, Value, IsNormal;
    ZeroIsZero();
    total := map[];
    for i := 0 to |usage|
      invariant forall m :: Value(At(total, m)) == UsageOf(usage[..i], m)
      invariant forall m | m in total :: IsNormal(total[m])
    {
      ghost var before := total;
      total := AddRecord(total, usage[i].tokens);
      assert usage[..i + 1][..i] == usage[..i];
      forall m
        ensures Value(At(total, m)) == UsageOf(usage[..i + 1], m)
      {
        assert Value(At(before, m)) == UsageOf(usage[..i], m);
      }
    }
    assert usage[..|usage|] == usage;
  }

  // ---- Joining the write lifetimes ----------------------------------------

  /** The side of a comparison, with the write classes joined or apart. */
  ghost function Side(f: Meter -> real, joined: bool): Meter -> real {
    (m: Meter) =>
      if !joined then f(m)
      else if m == CacheWrite then f(m) + WritesOf(f, |WRITES|)
      else if m in WRITES then 0.0
      else f(m)
  }

  ghost function WritesOf(f: Meter -> real, n: nat): real
    requires n <= |WRITES|
  {
    if n == 0 then 0.0 else WritesOf(f, n - 1) + f(WRITES[n - 1])
  }

  /** joinWrites: one figure for every write, none for a lifetime. */
  method JoinWrites(tokens: Counts) returns (joined: Counts)
    ensures forall m :: Value(At(joined, m)) == Side(InCounts(tokens), true)(m)
  {
    hide ValueAt, Value, Add;
    ZeroIsZero();
    joined := tokens;
    for i := 0 to |WRITES|
      invariant Value(At(joined, CacheWrite)) == Value(At(tokens, CacheWrite)) + WritesOf(InCounts(tokens), i)
      invariant forall m | m != CacheWrite :: At(joined, m) == if m in WRITES[..i] then ZERO else At(tokens, m)
    {
      assert At(joined, WRITES[i]) == At(tokens, WRITES[i]) by {
        WritesDiffer(i);
      }
      joined := joined[CacheWrite := Add(At(joined, CacheWrite), At(joined, WRITES[i]))];
      joined := joined - {WRITES[i]};
      assert WRITES[..i + 1] == WRITES[..i] + [WRITES[i]];
    }
    assert WRITES[..|WRITES|] == WRITES;
  }

  lemma WritesDiffer(i: nat)
    requires i < |WRITES|
    ensures WRITES[i] !in WRITES[..i] && WRITES[i] != CacheWrite
  {
  }

  /** The sum over the first n classes compared. */
  ghost function Total(f: Meter -> real, n: nat): real
    requires n <= |COMPARED|
  {
    if n == 0 then 0.0 else Total(f, n - 1) + f(COMPARED[n - 1])
  }

  lemma WritesUnrolled(f: Meter -> real)
    ensures WritesOf(f, |WRITES|) == f(WRITES[0]) + f(WRITES[1]) + f(WRITES[2]) + f(WRITES[3])
  {
    assert WritesOf(f, 2) == f(WRITES[0]) + f(WRITES[1]);
    assert WritesOf(f, 4) == WritesOf(f, 3) + f(WRITES[3]);
  }

  lemma TotalUnrolled(f: Meter -> real)
    ensures Total(f, |COMPARED|) == f(COMPARED[0]) + f(COMPARED[1]) + f(COMPARED[2]) + f(COMPARED[3])
                                  + f(COMPARED[4]) + f(COMPARED[5]) + f(COMPARED[6]) + f(COMPARED[7])
  {
    assert Total(f, 2) == f(COMPARED[0]) + f(COMPARED[1]);
    assert Total(f, 4) == Total(f, 2) + f(COMPARED[2]) + f(COMPARED[3]);
    assert Total(f, 6) == Total(f, 4) + f(COMPARED[4]) + f(COMPARED[5]);
    assert Total(f, 8) == Total(f, 6) + f(COMPARED[6]) + f(COMPARED[7]);
  }

  /** Joining moves tokens between classes and loses none. */
  lemma JoiningKeepsTotal(f: Meter -> real, joined: bool)
    ensures Total(Side(f, joined), |COMPARED|) == Total(f, |COMPARED|)
  {
    hide Total, WritesOf;
    TotalUnrolled(f);
    TotalUnrolled(Side(f, joined));
    WritesUnrolled(f);
  }

  lemma CloseSums(a: real, b: real, c: real, d: real)
    requires Close(a, b, TOKEN_TOLERANCE_PERCENT) && Close(c, d, TOKEN_TOLERANCE_PERCENT)
    ensures Close(a + c, b + d, TOKEN_TOLERANCE_PERCENT)
  {
  }

  ghost predicate AllClose(ledger: Meter -> real, provider: Meter -> real) {
    forall i | 0 <= i < |COMPARED| :: Close(ledger(COMPARED[i]), provider(COMPARED[i]), TOKEN_TOLERANCE_PERCENT)
  }

  /** Joining never creates a miss: classes that match apart match joined. */
  lemma JoiningCreatesNoMiss(ledger: Meter -> real, provider: Meter -> real)
    requires AllClose(ledger, provider)
    ensures AllClose(Side(ledger, true), Side(provider, true))
  {
    hide Close;
    WritesUnrolled(ledger);
    WritesUnrolled(provider);
    ZeroIsClose();
    var a, b := ledger, provider;
    assert COMPARED[2] == CacheWrite && COMPARED[3..7] == WRITES;
    CloseSums(a(WRITES[0]), b(WRITES[0]), a(WRITES[1]), b(WRITES[1]));
    CloseSums(a(WRITES[0]) + a(WRITES[1]), b(WRITES[0]) + b(WRITES[1]), a(WRITES[2]), b(WRITES[2]));
    CloseSums(a(WRITES[0]) + a(WRITES[1]) + a(WRITES[2]), b(WRITES[0]) + b(WRITES[1]) + b(WRITES[2]),
              a(WRITES[3]), b(WRITES[3]));
    CloseSums(a(CacheWrite), b(CacheWrite), WritesOf(a, |WRITES|), WritesOf(b, |WRITES|));
  }

  lemma ZeroIsClose()
    ensures Close(0.0, 0.0, TOKEN_TOLERANCE_PERCENT)
  {
  }

  /** The writes of every lifetime, and those of none, as one figure. */
  ghost function AllWrites(f: Meter -> real): real {
    f(CacheWrite) + WritesOf(f, |WRITES|)
  }

  predicate IsWrite(m: Meter) {
    m == CacheWrite || m in WRITES
  }

  /** Every class compared that is no write matches. */
  ghost predicate OthersClose(ledger: Meter -> real, provider: Meter -> real) {
    forall i | 0 <= i < |COMPARED| && !IsWrite(COMPARED[i]) ::
      Close(ledger(COMPARED[i]), provider(COMPARED[i]), TOKEN_TOLERANCE_PERCENT)
  }

  /** Joined, the sides match exactly when their writes match as one figure and every other class matches. */
  lemma JoinedMatchesExactly(ledger: Meter -> real, provider: Meter -> real)
    ensures AllClose(Side(ledger, true), Side(provider, true)) <==>
            Close(AllWrites(ledger), AllWrites(provider), TOKEN_TOLERANCE_PERCENT) && OthersClose(ledger, provider)
  {
    hide Close, WritesOf;
    ZeroIsClose();
    var a, b := Side(ledger, true), Side(provider, true);
    assert COMPARED[2] == CacheWrite && COMPARED[3..7] == WRITES;
    assert AllClose(a, b) ==> Close(a(COMPARED[2]), b(COMPARED[2]), TOKEN_TOLERANCE_PERCENT);
    forall i | 0 <= i < |COMPARED| && !IsWrite(COMPARED[i])
      ensures a(COMPARED[i]) == ledger(COMPARED[i]) && b(COMPARED[i]) == provider(COMPARED[i])
    {
    }
  }

  /**
  Joining hides a miss exactly when the joined sides match and some write class, taken
  by itself, does not.
  */
  lemma JoiningHidesExactly(ledger: Meter -> real, provider: Meter -> real)
    ensures AllClose(Side(ledger, true), Side(provider, true)) && !AllClose(ledger, provider) <==>
            && Close(AllWrites(ledger), AllWrites(provider), TOKEN_TOLERANCE_PERCENT)
            && OthersClose(ledger, provider)
            && exists i :: 0 <= i < |COMPARED| && IsWrite(COMPARED[i])
                           && !Close(ledger(COMPARED[i]), provider(COMPARED[i]), TOKEN_TOLERANCE_PERCENT)
  {
    hide Close, AllWrites, Side;
    JoinedMatchesExactly(ledger, provider);
  }

  /** Joining can hide a miss: two lifetimes that are swapped match as one figure. */
  lemma JoiningCanHideAMiss()
    ensures var ledger := (m: Meter) => if m == Of(CacheWrite5m) then 1.0 else 0.0;
            var provider := (m: Meter) => if m == Of(CacheWrite1h) then 1.0 else 0.0;
            !AllClose(ledger, provider) && AllClose(Side(ledger, true), Side(provider, true))
  {
    var ledger := (m: Meter) => if m == Of(CacheWrite5m) then 1.0 else 0.0;
    var provider := (m: Meter) => if m == Of(CacheWrite1h) then 1.0 else 0.0;
    WritesUnrolled(ledger);
    WritesUnrolled(provider);
    assert !Close(ledger(COMPARED[3]), provider(COMPARED[3]), TOKEN_TOLERANCE_PERCENT);
  }

  // ---- The checks ---------------------------------------------------------

  datatype TokenCheck = TokenCheck(meter: Meter, ledger: Decimal, provider: Decimal, delta: Decimal, within: bool)

  /** One class's check states both sides, their difference, and whether they match. */
  ghost predicate States(check: TokenCheck, ledger: Meter -> real, provider: Meter -> real) {
    && Value(check.ledger) == ledger(check.meter)
    && Value(check.provider) == provider(check.meter)
    && Value(check.delta) == provider(check.meter) - ledger(check.meter)
    && (check.within <==> Close(ledger(check.meter), provider(check.meter), TOKEN_TOLERANCE_PERCENT))
  }

  ghost predicate Differs(ledger: Meter -> real, provider: Meter -> real, m: Meter) {
    ledger(m) != 0.0 || provider(m) != 0.0
  }

  /** The classes that either side holds, of the first n compared, in their order. */
  ghost function Held(ledger: Meter -> real, provider: Meter -> real, n: nat): seq<Meter>
    requires n <= |COMPARED|
  {
    if n == 0 then [] else
      Held(ledger, provider, n - 1) + if Differs(ledger, provider, COMPARED[n - 1]) then [COMPARED[n - 1]] else []
  }

  ghost function DeltaSum(checks: seq<TokenCheck>): real {
    if checks == [] then 0.0 else DeltaSum(checks[..|checks| - 1]) + Value(checks[|checks| - 1].delta)
  }

  function Meters(checks: seq<TokenCheck>): (m: seq<Meter>)
    ensures |m| == |checks| && forall i | 0 <= i < |m| :: m[i] == checks[i].meter
  {
    if checks == [] then [] else Meters(checks[..|checks| - 1]) + [checks[|checks| - 1].meter]
  }

  lemma MetersAppend(checks: seq<TokenCheck>, check: TokenCheck)
    ensures Meters(checks + [check]) == Meters(checks) + [check.meter]
    ensures DeltaSum(checks + [check]) == DeltaSum(checks) + Value(check.delta)
  {
    assert (checks + [check])[..|checks|] == checks;
  }

  /** Whether every class of the first n compared matches. */
  ghost predicate CloseTo(ledger: Meter -> real, provider: Meter -> real, n: nat)
    requires n <= |COMPARED|
  {
    forall i | 0 <= i < n :: Close(ledger(COMPARED[i]), provider(COMPARED[i]), TOKEN_TOLERANCE_PERCENT)
  }

  /** The checks of two sides of a comparison. */
  ghost predicate Checks(checks: seq<TokenCheck>, ledger: Meter -> real, provider: Meter -> real, n: nat)
    requires n <= |COMPARED|
  {
    && Meters(checks) == Held(ledger, provider, n)
    && (forall i | 0 <= i < |checks| :: States(checks[i], ledger, provider))
    && DeltaSum(checks) == Total(provider, n) - Total(ledger, n)
    && ((forall i | 0 <= i < |checks| :: checks[i].within) <==> CloseTo(ledger, provider, n))
  }

  function CheckOf(meter: Meter, mine: Decimal, theirs: Decimal): TokenCheck {
    TokenCheck(meter, mine, theirs, Sub(theirs, mine), Within(mine, theirs, TOKEN_TOLERANCE_PERCENT))
  }

  lemma CheckStates(meter: Meter, ledger: Counts, provider: Counts)
    ensures States(CheckOf(meter, At(ledger, meter), At(provider, meter)), InCounts(ledger), InCounts(provider))
    ensures Differs(InCounts(ledger), InCounts(provider), meter) <==>
            !(Sign(At(ledger, meter)) == 0 && Sign(At(provider, meter)) == 0)
  {
    hide Value, ValueAt, Sub, Within, Sign, At;
    WithinIsClose(At(ledger, meter), At(provider, meter), TOKEN_TOLERANCE_PERCENT);
  }

  lemma StatesDelta(check: TokenCheck, ledger: Meter -> real, provider: Meter -> real)
    requires States(check, ledger, provider)
    ensures Value(check.delta) == provider(check.meter) - ledger(check.meter)
    ensures check.within <==> Close(ledger(check.meter), provider(check.meter), TOKEN_TOLERANCE_PERCENT)
  {
  }

  lemma OneMoreCheck(checks: seq<TokenCheck>, ledger: Meter -> real, provider: Meter -> real, n: nat, check: TokenCheck)
    requires n < |COMPARED| && Checks(checks, ledger, provider, n)
    requires check.meter == COMPARED[n] && States(check, ledger, provider)
    ensures Checks(if Differs(ledger, provider, COMPARED[n]) then checks + [check] else checks, ledger, provider, n + 1)
  {
    hide States, ValueAt, Value, Meters, DeltaSum, Close;
    StatesDelta(check, ledger, provider);
    ZeroIsClose();
    MetersAppend(checks, check);
    var next := checks + [check];
    assert next[|checks|] == check && forall i | 0 <= i < |checks| :: next[i] == checks[i];
    assert CloseTo(ledger, provider, n + 1) <==>
           CloseTo(ledger, provider, n) && Close(ledger(COMPARED[n]), provider(COMPARED[n]), TOKEN_TOLERANCE_PERCENT);
  }

  /** The loop over the classes, once the two sides are joined or left apart. */
  method CheckSides(ledger: Counts, provider: Counts) returns (checks: seq<TokenCheck>)
    ensures Checks(checks, InCounts(ledger), InCounts(provider), |COMPARED|)
  {
    hide Checks, ValueAt, Value, Sign, Sub, Within, States, Differs, InCounts;
    checks := [];
    NoChecks(InCounts(ledger), InCounts(provider));
    for i := 0 to |COMPARED|
      invariant Checks(checks, InCounts(ledger), InCounts(provider), i)
    {
      var meter := COMPARED[i];
      var mine, theirs := At(ledger, meter), At(provider, meter);
      var check := TokenCheck(meter, mine, theirs, Sub(theirs, mine), Within(mine, theirs, TOKEN_TOLERANCE_PERCENT));
      CheckStates(meter, ledger, provider);
      OneMoreCheck(checks, InCounts(ledger), InCounts(provider), i, check);
      if Sign(mine) == 0 && Sign(theirs) == 0 {
        continue;
      }
      checks := checks + [check];
    }
  }

  lemma NoChecks(ledger: Meter -> real, provider: Meter -> real)
    ensures Checks([], ledger, provider, 0)
  {
  }

  lemma {:induction false} SameSides(f: Meter -> real, g: Meter -> real, h: Meter -> real, k: Meter -> real, n: nat)
    requires n <= |COMPARED|
    requires forall m :: f(m) == h(m) && g(m) == k(m)
    ensures Total(f, n) == Total(h, n) && Held(f, g, n) == Held(h, k, n)
  {
    if n > 0 {
      SameSides(f, g, h, k, n - 1);
    }
  }

  lemma ChecksOfSame(checks: seq<TokenCheck>, f: Meter -> real, g: Meter -> real, h: Meter -> real, k: Meter -> real)
    requires Checks(checks, f, g, |COMPARED|)
    requires forall m :: f(m) == h(m) && g(m) == k(m)
    ensures Checks(checks, h, k, |COMPARED|)
  {
    hide Close, Total, Held, DeltaSum, Meters, ValueAt, Value;
    SameSides(f, g, h, k, |COMPARED|);
    SameSides(g, f, k, h, |COMPARED|);
  }

  /**
  Every class either side holds is checked, in print order, and stated truly. No check
  misses exactly when every class, zero or not, is within the tolerance.
  */
  ghost predicate Compares(checks: seq<TokenCheck>, ledger: Meter -> real, provider: Meter -> real) {
    && Meters(checks) == Held(ledger, provider, |COMPARED|)
    && (forall i | 0 <= i < |checks| :: States(checks[i], ledger, provider))
    && ((forall i | 0 <= i < |checks| :: checks[i].within) <==> AllClose(ledger, provider))
  }

  /**
  compareTokens: the checks of the two sides, joined where a lifetime is not known. In
  either mode the deltas add up to what the provider counts past the ledger.
  */
  method CompareTokens(source: string, ledger: Counts, assumedLifetime: bool, usage: seq<Usage>)
    returns (checks: seq<TokenCheck>)
    ensures var joined := source == "openai" || assumedLifetime;
            Compares(checks, Side(InCounts(ledger), joined), Side(InUsage(usage), joined))
    ensures DeltaSum(checks) == Total(InUsage(usage), |COMPARED|) - Total(InCounts(ledger), |COMPARED|)
  {
    hide Checks, Compares, ValueAt, Value, Total, Held, Meters, DeltaSum, States, Close, UsageOf, WritesOf;
    var joined := source == OPENAI || assumedLifetime;
    var provider := SumTokens(usage);
    var mine, theirs := ledger, provider;
    if joined {
      mine := JoinWrites(ledger);
      theirs := JoinWrites(provider);
      SideOfSame(InCounts(provider), InUsage(usage));
    }
    checks := CheckSides(mine, theirs);
    ChecksOfSame(checks, InCounts(mine), InCounts(theirs), Side(InCounts(ledger), joined),
                 Side(InUsage(usage), joined));
    JoiningKeepsTotal(InCounts(ledger), joined);
    JoiningKeepsTotal(InUsage(usage), joined);
    ChecksState(checks, Side(InCounts(ledger), joined), Side(InUsage(usage), joined));
  }

  lemma ChecksState(checks: seq<TokenCheck>, mine: Meter -> real, theirs: Meter -> real)
    requires Checks(checks, mine, theirs, |COMPARED|)
    ensures Compares(checks, mine, theirs)
    ensures DeltaSum(checks) == Total(theirs, |COMPARED|) - Total(mine, |COMPARED|)
  {
    hide Total, Held, Meters, DeltaSum, States, Close;
  }

  lemma {:induction false} HeldAre(ledger: Meter -> real, provider: Meter -> real, n: nat, m: Meter)
    requires n <= |COMPARED|
    ensures m in Held(ledger, provider, n) <==>
            Differs(ledger, provider, m) && exists i :: 0 <= i < n && COMPARED[i] == m
  {
    if n > 0 {
      HeldAre(ledger, provider, n - 1, m);
    }
  }

  /** The comparison has a check of a class exactly when it is one compared and a side holds it. */
  lemma CheckedExactly(checks: seq<TokenCheck>, ledger: Meter -> real, provider: Meter -> real, m: Meter)
    requires Compares(checks, ledger, provider)
    ensures (exists i :: 0 <= i < |checks| && checks[i].meter == m) <==>
            m in COMPARED && (ledger(m) != 0.0 || provider(m) != 0.0)
  {
    HeldAre(ledger, provider, |COMPARED|, m);
    if m in Held(ledger, provider, |COMPARED|) {
      var i :| 0 <= i < |checks| && Meters(checks)[i] == m;
      assert checks[i].meter == m;
    }
    if i :| 0 <= i < |checks| && checks[i].meter == m {
      assert Meters(checks)[i] == m;
    }
  }

  lemma SideOfSame(f: Meter -> real, g: Meter -> real)
    requires forall m :: f(m) == g(m)
    ensures forall m :: Side(f, true)(m) == Side(g, true)(m)
  {
    WritesUnrolled(f);
    WritesUnrolled(g);
  }
}
