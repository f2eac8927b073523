/** How one request's raw token figures become disjoint classes (internal/otlp/dialect.go). */
module OtlpCounts {
  import opened Wrappers
  import opened Digits
  import opened Strings
  import opened Focus
  import opened Order

  newtype int64 = x: int | -0x8000_0000_0000_0000 <= x < 0x8000_0000_0000_0000

  const MAX_TOKENS: int := 1_000_000_000_000

  // ---- parseCount ---------------------------------------------------------

  /** A whole number, with any zeros behind a point, in the range a count may have. */
  function ParseCount(text: string): (r: Option<int>)
    ensures r.Some? ==> 0 <= r.value <= MAX_TOKENS
  {
    var cut := CutAt(text, '.');
    if exists i | 0 <= i < |cut.after| :: cut.after[i] != '0' then None else
      var value := ParseInt(cut.before);
      if value.None? || value.value < 0 || value.value > MAX_TOKENS then None else value
  }

  /** A printed whole number is a count exactly when it is in 0..10^12, with any zeros after a point. */
  lemma ParseCountReads(n: int, zeros: nat)
    ensures ParseCount(IntText(n)) == if 0 <= n <= MAX_TOKENS then Some(n) else None
    ensures ParseCount(IntText(n) + "." + Zeros(zeros)) == ParseCount(IntText(n))
  {
    hide CutAt, NatText;
    ParseIntOfText(n);
    assert forall c | c in IntText(n) :: IsDigit(c) || c == '-';
    CutAbsent(IntText(n), '.');
    CutUnique(IntText(n), '.', Zeros(zeros));
  }

  /** A sign or none, digits, and the zeros behind a point, if there is one. */
  datatype CountText = CountText(sign: string, digits: string, zeros: Option<nat>) {
    predicate WellFormed() {
      (sign == "" || sign == "+" || sign == "-") && AllDigits(digits) && digits != ""
    }

    function Whole(): string {
      sign + digits
    }

    function Written(): string {
      if zeros.None? then Whole() else Whole() + "." + Zeros(zeros.value)
    }
  }

  lemma SignedParses(c: CountText)
    requires c.WellFormed()
    ensures var n := NatValue(c.digits);
            ParseInt(c.Whole()) ==
            if c.sign == "-" then (if n <= INT64_MAX + 1 then Some(0 - n) else None)
                else if n <= INT64_MAX then Some(n) else None
    ensures forall x | x in c.Whole() :: IsDigit(x) || x == '-' || x == '+'
  {
    assert c.sign != "" ==> c.Whole()[1..] == c.digits;
    assert c.sign == "" ==> c.Whole() == c.digits && IsDigit(c.digits[0]);
  }

  lemma CountCuts(c: CountText)
    requires c.WellFormed()
    ensures CutAt(c.Written(), '.') == Cut(c.Whole(), if c.zeros.Some? then Zeros(c.zeros.value) else "", c.zeros.Some?)
  {
    hide CutAt, NatValue, ParseInt;
    SignedParses(c);
    if c.zeros.Some? {
      CutUnique(c.Whole(), '.', Zeros(c.zeros.value));
    } else {
      CutAbsent(c.Whole(), '.');
    }
  }

  lemma {:induction false} OnlyZeros(s: string)
    requires forall i | 0 <= i < |s| :: s[i] == '0'
    ensures s == Zeros(|s|)
  {
    assert forall i | 0 <= i < |s| :: s[i] == Zeros(|s|)[i];
  }

  /** The parts of a text parseCount takes. */
  lemma CountParts(text: string) returns (c: CountText)
    requires ParseCount(text).Some?
    ensures c.WellFormed() && c.Written() == text
  {
    hide CutAt, NatValue, Zeros;
    var cut := CutAt(text, '.');
    var whole := cut.before;
    var signed := whole != "" && (whole[0] == '-' || whole[0] == '+');
    OnlyZeros(cut.after);
    c := CountText(if signed then whole[..1] else "", if signed then whole[1..] else whole,
                   if cut.found then Some(|cut.after|) else None);
    assert signed ==> whole[..1] == [whole[0]] && whole == whole[..1] + whole[1..];
  }

  /**
  parseCount takes exactly an optional sign and digits, with any zeros behind a point,
  whose value is in 0..10^12; a minus sign only before zero.
  */
  lemma ParseCountExactly(text: string, n: int)
    ensures ParseCount(text) == Some(n) <==>
            exists c: CountText :: c.WellFormed() && c.Written() == text
                                   && NatValue(c.digits) == n <= MAX_TOKENS && (c.sign == "-" ==> n == 0)
  {
    hide CutAt, NatValue, Zeros;
    if ParseCount(text).Some? {
      var c := CountParts(text);
      SignedParses(c);
      CountCuts(c);
    }
    forall c: CountText | c.WellFormed() && c.Written() == text && NatValue(c.digits) == n <= MAX_TOKENS
        && (c.sign == "-" ==> n == 0)
      ensures ParseCount(text) == Some(n)
    {
      SignedParses(c);
      CountCuts(c);
    }
  }

  // ---- applyCounts --------------------------------------------------------

  datatype Provider = Anthropic | OpenAI
  datatype Dialect = Standard | ClaudeCode | Codex | Copilot | Cursor | OpenCode
  datatype Note = LifetimeAssumed | WritesUnreported

  datatype Count = Count(class_: TokenClass, tokens: int64)

  /** One request's raw figures, as a dialect reports them. */
  datatype Figures = Figures(
    input: int64, output: int64, cacheRead: int64, reasoning: int64,
    cacheWrite: int64, write5m: int64, write1h: int64,
    inclusive: bool, subscriptionTtl: bool)
  {
    /** What the readers hand on: parseCount admits nothing else. */
    predicate InRange() {
      var max := MAX_TOKENS as int64;
      && 0 <= input <= max && 0 <= output <= max && 0 <= cacheRead <= max && 0 <= reasoning <= max
      && 0 <= cacheWrite <= max && 0 <= write5m <= max && 0 <= write1h <= max
    }

    /** Every cache write: the total reported, or the split when it says more. */
    function Written(): (w: int)
      ensures w == Max(cacheWrite as int, write5m as int + write1h as int)
    {
      var split := write5m as int + write1h as int;
      if split > cacheWrite as int then split else cacheWrite as int
    }

    /** Writes the dialect did not assign a lifetime. */
    function Unsplit(): int {
      Written() - write5m as int - write1h as int
    }

    function Uncached(): int {
      if inclusive then input as int - cacheRead as int - Written() else input as int
    }

    /** The figures can be one request. */
    predicate Consistent() {
      Uncached() >= 0 && reasoning <= output
    }
  }

  function TokensOf(counts: seq<Count>, class_: TokenClass): int {
    if counts == [] then 0 else
      (if counts[0].class_ == class_ then counts[0].tokens as int else 0) + TokensOf(counts[1..], class_)
  }

  function Total(counts: seq<Count>, included: set<TokenClass>): int {
    if counts == [] then 0 else
      (if counts[0].class_ in included then counts[0].tokens as int else 0) + Total(counts[1..], included)
  }

  /** Each class at most once, with tokens. */
  ghost predicate Disjoint(counts: seq<Count>) {
    && (forall i, j | 0 <= i < j < |counts| :: counts[i].class_ != counts[j].class_)
    && (forall i | 0 <= i < |counts| :: counts[i].tokens > 0)
  }

  const WRITES: set<TokenClass> := {CacheWrite5m, CacheWrite1h, CacheWrite30m, CacheWrite12h}
  const BILLED: set<TokenClass> := {InputUncached, CacheRead, Output} + WRITES

  lemma {:induction false} TokensAppend(a: seq<Count>, b: seq<Count>, class_: TokenClass)
    ensures TokensOf(a + b, class_) == TokensOf(a, class_) + TokensOf(b, class_)
  {
    if a == [] {
      assert a + b == b;
    } else {
      TokensAppend(a[1..], b, class_);
      assert (a + b)[1..] == a[1..] + b;
    }
  }

  lemma {:induction false} TokensUpdated(counts: seq<Count>, i: nat, tokens: int64, class_: TokenClass)
    requires i < |counts|
    ensures TokensOf(counts[i := Count(counts[i].class_, tokens)], class_) ==
            TokensOf(counts, class_) + if counts[i].class_ == class_ then tokens as int - counts[i].tokens as int else 0
  {
    var updated := counts[i := Count(counts[i].class_, tokens)];
    if i == 0 {
      assert updated[1..] == counts[1..];
    } else {
      TokensUpdated(counts[1..], i - 1, tokens, class_);
      assert updated[1..] == counts[1..][i - 1 := Count(counts[i].class_, tokens)];
    }
  }

  lemma {:induction false} AbsentHasNone(counts: seq<Count>, class_: TokenClass)
    requires forall i | 0 <= i < |counts| :: counts[i].class_ != class_
    ensures TokensOf(counts, class_) == 0
  {
    if counts != [] {
      AbsentHasNone(counts[1..], class_);
    }
  }

  lemma NothingCounted()
    ensures Disjoint([]) && forall class_ :: TokensOf([], class_) == 0
  {
  }

  /** A class present in disjoint counts holds exactly its one entry's tokens. */
  lemma {:induction false} PresentHasItsTokens(counts: seq<Count>, i: nat)
    requires Disjoint(counts) && i < |counts|
    ensures TokensOf(counts, counts[i].class_) == counts[i].tokens as int
  {
    if i == 0 {
      AbsentHasNone(counts[1..], counts[0].class_);
    } else {
      PresentHasItsTokens(counts[1..], i - 1);
    }
  }

  /** Totals over the billed classes and over the writes, class by class. */
  lemma {:induction false} TotalsByClass(counts: seq<Count>)
    ensures Total(counts, WRITES) ==
            TokensOf(counts, CacheWrite5m) + TokensOf(counts, CacheWrite1h)
            + TokensOf(counts, CacheWrite30m) + TokensOf(counts, CacheWrite12h)
    ensures Total(counts, BILLED) ==
            Total(counts, WRITES) + TokensOf(counts, InputUncached) + TokensOf(counts, CacheRead) +
                TokensOf(counts, Output)
  {
    if counts != [] {
      TotalsByClass(counts[1..]);
    }
  }

  class Usage {
    const dialect: Dialect
    const provider: Provider
    const costBasis: CostBasis
    var contextInputTokens: int64
    var counts: seq<Count>
    var assumedWrite: Option<TokenClass>
    var notes: seq<Note>

    constructor (dialect: Dialect, provider: Provider, costBasis: CostBasis)
      ensures this.dialect == dialect && this.provider == provider && this.costBasis == costBasis
      ensures IsShell()
    {
      this.dialect, this.provider, this.costBasis := dialect, provider, costBasis;
      contextInputTokens, counts, assumedWrite, notes := 0, [], None, [];
    }

    /** A usage as usageShell leaves it: nothing counted yet. */
    predicate IsShell()
      reads this
    {
      contextInputTokens == 0 && counts == [] && assumedWrite == None && notes == []
    }

    /** The lifetime an unsplit write takes. */
    function AssumedClass(f: Figures): TokenClass {
      if provider == OpenAI then CacheWrite30m
      else if f.subscriptionTtl && costBasis == ListEquivalent then CacheWrite1h
      else CacheWrite5m
    }

    /**
    Each class holds the raw figure that names it; only what is left of an input that holds
    the cache, and where the writes of no stated lifetime go, are worked out.
    */
    ghost predicate TakenApart(f: Figures)
      reads this
    {
      var rest := f.Written() - f.write5m as int - f.write1h as int;
      var openAi, hour := provider == OpenAI, f.subscriptionTtl && costBasis == ListEquivalent;
      && TokensOf(counts, Output) == f.output as int
      && TokensOf(counts, ReasoningOutput) == f.reasoning as int
      && TokensOf(counts, CacheRead) == TokensOf(counts, CachedInputReported) == f.cacheRead as int
      && TokensOf(counts, InputUncached) ==
         f.input as int - (if f.inclusive then f.cacheRead as int + f.Written() else 0)
      && TokensOf(counts, CacheWrite5m) == f.write5m as int + (if !openAi && !hour then rest else 0)
      && TokensOf(counts, CacheWrite1h) == f.write1h as int + (if !openAi && hour then rest else 0)
      && TokensOf(counts, CacheWrite30m) == (if openAi then rest else 0)
      && TokensOf(counts, CacheWrite12h) == 0
      && contextInputTokens as int == f.input as int + (if f.inclusive then 0 else f.cacheRead as int + f.Written())
      && assumedWrite ==
         (if rest <= 0 then None else if openAi then Some(CacheWrite30m)
          else if hour then Some(CacheWrite1h) else Some(CacheWrite5m))
    }

    lemma AmountsAreRaw(f: Figures)
      requires f.Consistent()
      requires forall class_ :: TokensOf(counts, class_) == Amount(f, class_)
      requires contextInputTokens as int == f.Uncached() + f.cacheRead as int + f.Written()
      requires assumedWrite == if f.Unsplit() > 0 then Some(AssumedClass(f)) else None
      ensures TakenApart(f)
    {
      hide TokensOf;
    }

    /** What each class holds once the figures are taken apart. */
    function Amount(f: Figures, class_: TokenClass): int {
      var assumed := if class_ == AssumedClass(f) then f.Unsplit() else 0;
      match class_
      case InputUncached => f.Uncached()
      case CacheRead => f.cacheRead as int
      case CacheWrite5m => f.write5m as int + assumed
      case CacheWrite1h => f.write1h as int + assumed
      case CacheWrite30m => assumed
      case CacheWrite12h => 0
      case Output => f.output as int
      case ReasoningOutput => f.reasoning as int
      case CachedInputReported => f.cacheRead as int
    }

    /**
    Figures are accepted exactly when an input that holds the cache covers it, and reasoning
    is no more than the output; they are then taken apart, each class at most once.
    */
    method ApplyCounts(f: Figures) returns (ok: bool)
      requires f.InRange() && IsShell()
      modifies this
      ensures ok == f.Consistent()
      ensures !ok ==> IsShell()
      ensures ok <==> f.reasoning <= f.output && (f.inclusive ==> f.cacheRead as int + f.Written() <= f.input as int)
      ensures ok ==> TakenApart(f)
      ensures ok ==> Disjoint(counts) && forall class_ :: TokensOf(counts, class_) == Amount(f, class_)
      ensures ok ==>
          (LifetimeAssumed in notes <==> f.Unsplit() > 0) && (WritesUnreported in notes <==> dialect == OpenCode)
    {
      hide TokensOf, Disjoint, TakenApart;
      NothingCounted();
      var written := f.cacheWrite;
      if f.write5m + f.write1h > written {
        written := f.write5m + f.write1h;
      }
      var uncached := f.input;
      if f.inclusive {
        uncached := f.input - f.cacheRead - written;
        if uncached < 0 {
          return false;
        }
      }
      if f.reasoning > f.output {
        return false;
      }
      contextInputTokens := uncached + f.cacheRead + written;
      Add(InputUncached, uncached);
      Add(CacheRead, f.cacheRead);
      AddWrites(f, written);
      Add(Output, f.output);
      Add(ReasoningOutput, f.reasoning);
      Add(CachedInputReported, f.cacheRead);
      if dialect == OpenCode {
        notes := notes + [WritesUnreported];
      }
      AmountsAreRaw(f);
      return true;
    }

    method Add(class_: TokenClass, tokens: int64)
      requires tokens >= 0 && Disjoint(counts) && TokensOf(counts, class_) == 0
      modifies this`counts
      ensures Disjoint(counts)
      ensures forall other ::
          TokensOf(counts, other) == TokensOf(old(counts), other) + if other == class_ then tokens as int else 0
    {
      if tokens > 0 {
        ghost var was := counts;
        assert forall i | 0 <= i < |was| :: was[i].class_ != class_ by {
          forall i | 0 <= i < |was|
            ensures was[i].class_ != class_
          {
            PresentHasItsTokens(was, i);
          }
        }
        counts := counts + [Count(class_, tokens)];
        forall other
          ensures TokensOf(counts, other) == TokensOf(was, other) + if other == class_ then tokens as int else 0
        {
          TokensAppend(was, [Count(class_, tokens)], other);
          assert [Count(class_, tokens)][1..] == [];
        }
      }
    }

    /** Writes go to the lifetimes they were reported with, and any rest to the assumed one. */
    method AddWrites(f: Figures, written: int64)
      requires f.InRange() && written as int == f.Written() && Disjoint(counts)
      requires assumedWrite == None && LifetimeAssumed !in notes
      requires forall class_: TokenClass | class_.IsWrite() :: TokensOf(counts, class_) == 0
      modifies this`counts, this`notes, this`assumedWrite
      ensures Disjoint(counts)
      ensures forall class_: TokenClass ::
          TokensOf(counts, class_) == TokensOf(old(counts), class_) + if class_.IsWrite() then Amount(f, class_) else 0
      ensures assumedWrite == if f.Unsplit() > 0 then Some(AssumedClass(f)) else None
      ensures notes == old(notes) + if f.Unsplit() > 0 then [LifetimeAssumed] else []
    {
      hide TokensOf, Disjoint;
      Add(CacheWrite5m, f.write5m);
      Add(CacheWrite1h, f.write1h);
      var rest := written - f.write5m - f.write1h;
      if rest <= 0 {
        return;
      }
      notes := notes + [LifetimeAssumed];
      var class_ := CacheWrite5m;
      if provider == OpenAI {
        class_ := CacheWrite30m;
      } else if f.subscriptionTtl && costBasis == ListEquivalent {
        class_ := CacheWrite1h;
      }
      assumedWrite := Some(class_);
      MergeCount(class_, rest);
    }

    method MergeCount(class_: TokenClass, tokens: int64)
      requires 0 < tokens as int <= 2 * MAX_TOKENS && Disjoint(counts) && TokensOf(counts, class_) <= 2 * MAX_TOKENS
      modifies this`counts
      ensures Disjoint(counts)
      ensures forall other ::
          TokensOf(counts, other) == TokensOf(old(counts), other) + if other == class_ then tokens as int else 0
    {
      ghost var was := counts;
      for i := 0 to |counts|
        invariant counts == was
        invariant forall j | 0 <= j < i :: counts[j].class_ != class_
      {
        if counts[i].class_ == class_ {
          PresentHasItsTokens(was, i);
          counts := counts[i := Count(class_, counts[i].tokens + tokens)];
          forall other
            ensures TokensOf(counts, other) == TokensOf(was, other) + if other == class_ then tokens as int else 0
          {
            TokensUpdated(was, i, was[i].tokens + tokens, other);
          }
          return;
        }
      }
      AbsentHasNone(counts, class_);
      Add(class_, tokens);
    }
  }

  /**
  What the classes add up to: cache writes to every write, billed classes to the
  context input and the output, and to input plus output when input holds the cache.
  */
  lemma ClassesAddUp(u: Usage, f: Figures, counts: seq<Count>)
    requires f.InRange() && f.Consistent()
    requires forall class_ :: TokensOf(counts, class_) == u.Amount(f, class_)
    ensures Total(counts, WRITES) == f.Written()
    ensures Total(counts, BILLED) == f.Uncached() + f.cacheRead as int + f.Written() + f.output as int
    ensures f.inclusive ==> Total(counts, BILLED) == f.input as int + f.output as int
    ensures forall class_: TokenClass ::
        (class_ in BILLED <==> !class_.Informational()) && (class_ in WRITES <==> class_.IsWrite())
  {
    TotalsByClass(counts);
    assert Total(counts, WRITES) ==
        u.Amount(f, CacheWrite5m) + u.Amount(f, CacheWrite1h) + u.Amount(f, CacheWrite30m) + u.Amount(f, CacheWrite12h);
  }
}
