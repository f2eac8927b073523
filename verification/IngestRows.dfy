/**
The rows parser of internal/server/rows.go, which runs on Fanout. Reading one row and
trimming a line's spaces are functions the caller supplies; a row's reading says what
it charges, or why it is refused, and which fields it left behind.
*/
module IngestRows {
  import opened Wrappers
  import opened Strings
  import opened Fanout

  datatype BodyLine = BodyLine(number: nat, text: string)

  /** The non-blank lines before what stopped the scan, and the number of the oversized line that did. */
  datatype Scanned = Scanned(lines: seq<BodyLine>, oversized: Option<nat>)

  datatype Reading<C, E> = Reading(charge: Result<C, E>, drops: multiset<string>)

  datatype Refusal<E> = BadRow(error: E) | Oversized(line: nat)

  /** The caller's counts of the fields left behind. */
  class Drops {
    var counts: multiset<string>
    constructor ()
      ensures counts == multiset{}
    {
      counts := multiset{};
    }
  }

  // ---- splitLines ---------------------------------------------------------

  /** The lines of a body whose first number lines are behind: each ends at a newline or at the body's end. */
  function Scan(body: string, number: nat, trim: string -> string, limit: nat): Scanned
    decreases |body|
  {
    var cut := CutAt(body, '\n');
    if body == "" then Scanned([], None)
    else if |cut.before| >= limit then Scanned([], Some(number + 1))
    else
      var rest := Scan(cut.after, number + 1, trim, limit);
      var text := trim(DropReturn(cut.before));
      Scanned((if text != "" then [BodyLine(number + 1, text)] else []) + rest.lines, rest.oversized)
  }

  method SplitLines(body: string, trim: string -> string, limit: nat) returns (scanned: Scanned)
    ensures scanned == Scan(body, 0, trim, limit)
  {
    hide CutAt, DropReturn;
    var rest, number, lines := body, 0, [];
    while rest != ""
      invariant Scan(body, 0, trim, limit) ==
          Scanned(lines + Scan(rest, number, trim, limit).lines, Scan(rest, number, trim, limit).oversized)
      decreases |rest|
    {
      var cut := CutAt(rest, '\n');
      if |cut.before| >= limit {
        return Scanned(lines, Some(number + 1));
      }
      number := number + 1;
      var text := trim(DropReturn(cut.before));
      if text != "" {
        lines := lines + [BodyLine(number, text)];
      }
      rest := cut.after;
    }
    return Scanned(lines, None);
  }

  /** A body's lines, split at once: what follows a final newline is no line. */
  function LinesOf(body: string): seq<string> {
    var split := SplitAtNewlines(body);
    if split[|split| - 1] == "" then split[..|split| - 1] else split
  }

  /** How many lines stand before the first that is over the limit. */
  function WithinLimit(lines: seq<string>, limit: nat): (n: nat)
    ensures n <= |lines| && (forall i | 0 <= i < n :: |lines[i]| < limit)
    ensures n < |lines| ==> |lines[n]| >= limit
  {
    if lines == [] || |lines[0]| >= limit then 0 else 1 + WithinLimit(lines[1..], limit)
  }

  /** The lines that are not blank, numbered from the one after number. */
  function Numbered(lines: seq<string>, number: nat, trim: string -> string): seq<BodyLine> {
    if lines == [] then [] else
      var text := trim(DropReturn(lines[|lines| - 1]));
      Numbered(lines[..|lines| - 1], number, trim) + if text != "" then [BodyLine(number + |lines|, text)] else []
  }

  lemma LinesUnfold(body: string)
    requires body != ""
    ensures var cut := CutAt(body, '\n'); LinesOf(body) == [cut.before] + LinesOf(cut.after)
  {
    hide CutAt;
    var cut := CutAt(body, '\n');
    if !cut.found {
      assert LinesOf("") == [];
    }
  }

  lemma {:induction false} NumberedUnfolds(first: string, lines: seq<string>, number: nat, trim: string -> string)
    ensures var text := trim(DropReturn(first));
            Numbered([first] + lines, number, trim) ==
            (if text != "" then [BodyLine(number + 1, text)] else []) + Numbered(lines, number + 1, trim)
  {
    hide DropReturn;
    if lines == [] {
      assert [first] + lines == [first];
      assert Numbered([], number, trim) == [];
    } else {
      var init, last := lines[..|lines| - 1], lines[|lines| - 1];
      NumberedUnfolds(first, init, number, trim);
      assert ([first] + lines)[..|lines|] == [first] + init;
    }
  }

  /**
  Scanning from newline to newline is splitting the body at once: every line that is
  not blank, under its own number, up to the first that is over the limit.
  */
  lemma {:induction false} ScanIsSplit(body: string, number: nat, trim: string -> string, limit: nat)
    requires limit > 0
    ensures var lines := LinesOf(body);
            var n := WithinLimit(lines, limit);
            Scan(body, number, trim, limit) ==
            Scanned(Numbered(lines[..n], number, trim), if n < |lines| then Some(number + n + 1) else None)
    decreases |body|
  {
    hide CutAt, DropReturn, LinesOf, Numbered, WithinLimit;
    if body == "" {
      EmptyBody(number, trim);
    } else {
      var cut := CutAt(body, '\n');
      LinesUnfold(body);
      var rest := LinesOf(cut.after);
      var lines := [cut.before] + rest;
      if |cut.before| >= limit {
        EmptyBody(number, trim);
        FirstOver(lines, limit);
        assert lines[..0] == [];
      } else {
        var n := WithinLimit(rest, limit);
        OneMoreWithin(cut.before, rest, limit);
        ScanIsSplit(cut.after, number + 1, trim, limit);
        NumberedUnfolds(cut.before, rest[..n], number, trim);
        assert lines[..n + 1] == [cut.before] + rest[..n];
      }
    }
  }

  lemma OneMoreWithin(first: string, rest: seq<string>, limit: nat)
    requires |first| < limit
    ensures WithinLimit([first] + rest, limit) == 1 + WithinLimit(rest, limit)
  {
    assert ([first] + rest)[1..] == rest;
  }

  lemma FirstOver(lines: seq<string>, limit: nat)
    requires lines != [] && |lines[0]| >= limit
    ensures WithinLimit(lines, limit) == 0
  {
  }

  lemma EmptyBody(number: nat, trim: string -> string)
    ensures LinesOf("") == [] && Numbered([], number, trim) == []
  {
  }

  // ---- Line by line -------------------------------------------------------

  /**
  What reading the lines one after another from line i gives: the charges and the fields
  left behind, or the first refusal.
  */
  function OneByOne<C, E>(scanned: Scanned, read: BodyLine -> Reading<C, E>, i: nat)
    : Result<(seq<C>, multiset<string>), Refusal<E>>
    requires i <= |scanned.lines|
    decreases |scanned.lines| - i
  {
    if i == |scanned.lines| then
      if scanned.oversized.Some? then Err(Oversized(scanned.oversized.value)) else Ok(([], multiset{}))
    else
      match read(scanned.lines[i])
      case Reading(Err(error), _) => Err(BadRow(error))
      case Reading(Ok(charge), drops) =>
        match OneByOne(scanned, read, i + 1)
        case Err(refusal) => Err(refusal)
        case Ok((charges, more)) => Ok(([charge] + charges, drops + more))
  }

  function Ends<C, E>(lines: seq<BodyLine>, read: BodyLine -> Reading<C, E>): nat -> Ending<E> {
    (i: nat) => if i < |lines| && read(lines[i]).charge.Err? then Failed(read(lines[i]).charge.error) else Passed
  }

  function Notes<C, E>(lines: seq<BodyLine>, read: BodyLine -> Reading<C, E>)
    : (multiset<string>, nat) -> multiset<string>
  {
    (drops: multiset<string>, i: nat) => if i < |lines| then drops + read(lines[i]).drops else drops
  }

  function Values<C, E>(lines: seq<BodyLine>, read: BodyLine -> Reading<C, E>): nat -> Option<Result<C, E>> {
    (i: nat) => if i < |lines| then Some(read(lines[i]).charge) else None
  }

  /** The fields lines low..high leave behind. */
  function DropsOf<C, E>(lines: seq<BodyLine>, read: BodyLine -> Reading<C, E>, low: nat, high: nat): multiset<string> {
    Noted(Notes(lines, read), multiset{}, low, high)
  }

  lemma {:induction false} DropsJoin<C, E>(lines: seq<BodyLine>, read: BodyLine -> Reading<C, E>,
                                           low: nat, mid: nat, high: nat)
    requires low <= mid <= high
    ensures DropsOf(lines, read, low, high) == DropsOf(lines, read, low, mid) + DropsOf(lines, read, mid, high)
    decreases high - mid
  {
    if mid < high {
      DropsJoin(lines, read, low, mid, high - 1);
    }
  }

  /** The charges of the lines from line i on that have one. */
  function ChargesOf<C, E>(lines: seq<BodyLine>, read: BodyLine -> Reading<C, E>, i: nat): seq<C>
    decreases |lines| - i
  {
    if i >= |lines| then []
    else if read(lines[i]).charge.Ok? then [read(lines[i]).charge.value] + ChargesOf(lines, read, i + 1)
    else ChargesOf(lines, read, i + 1)
  }

  lemma {:induction false} ChargesAt<C, E>(lines: seq<BodyLine>, read: BodyLine -> Reading<C, E>, i: nat)
    requires i <= |lines| && forall j | i <= j < |lines| :: read(lines[j]).charge.Ok?
    ensures |ChargesOf(lines, read, i)| == |lines| - i
    ensures forall j | i <= j < |lines| :: ChargesOf(lines, read, i)[j - i] == read(lines[j]).charge.value
    decreases |lines| - i
  {
    if i < |lines| {
      ChargesAt(lines, read, i + 1);
    }
  }

  /** Line by line is the loop Each stands in for, with every line's charge and drops. */
  lemma {:induction false} OneByOneIsSequential<C, E>(scanned: Scanned, read: BodyLine -> Reading<C, E>, i: nat)
    requires i <= |scanned.lines|
    ensures var n := |scanned.lines|;
            match Sequential(Ends(scanned.lines, read), i, n)
            case Passed => OneByOne(scanned, read, i) ==
                if scanned.oversized.Some? then Err(Oversized(scanned.oversized.value))
                else Ok((ChargesOf(scanned.lines, read, i), DropsOf(scanned.lines, read, i, n)))
            case Failed(error) => OneByOne(scanned, read, i) == Err(BadRow(error))
            case Panicked(_) => false
    decreases |scanned.lines| - i
  {
    var n := |scanned.lines|;
    if i < n && read(scanned.lines[i]).charge.Ok? {
      OneByOneIsSequential(scanned, read, i + 1);
      DropsJoin(scanned.lines, read, i, i + 1, n);
      assert Noted(Notes(scanned.lines, read), multiset{}, i, i) == multiset{};
      assert DropsOf(scanned.lines, read, i, i + 1) == read(scanned.lines[i]).drops;
    }
  }

  // ---- parseRows ----------------------------------------------------------

  /** The workers' counts, added to the caller's. */
  method AddDrops<C, E>(lines: seq<BodyLine>, ghost read: BodyLine -> Reading<C, E>,
                        workerDrops: array<multiset<string>>,
                        drops: Drops)
    requires workerDrops.Length > 0
    requires forall w | 0 <= w < workerDrops.Length ::
        workerDrops[w] == DropsOf(lines, read, Low(|lines|, w, workerDrops.Length),
                                  Low(|lines|, w + 1, workerDrops.Length))
    modifies drops
    ensures drops.counts == old(drops.counts) + DropsOf(lines, read, 0, |lines|)
  {
    hide Low, DropsOf;
    ghost var before := drops.counts;
    var workers := workerDrops.Length;
    LowCovers(|lines|, workers);
    NoDrops(lines, read);
    for worker := 0 to workers
      invariant drops.counts == before + DropsOf(lines, read, 0, Low(|lines|, worker, workers))
    {
      LowSteps(|lines|, worker, workers);
      DropsJoin(lines, read, 0, Low(|lines|, worker, workers), Low(|lines|, worker + 1, workers));
      drops.counts := drops.counts + workerDrops[worker];
    }
  }

  lemma NoDrops<C, E>(lines: seq<BodyLine>, read: BodyLine -> Reading<C, E>)
    ensures DropsOf(lines, read, 0, 0) == multiset{}
  {
  }

  /** The filled slots, as charges. */
  method TakeCharges<C, E>(lines: seq<BodyLine>, ghost read: BodyLine -> Reading<C, E>,
                           charges: array<Option<Result<C, E>>>)
    returns (all: seq<C>)
    requires charges.Length == |lines|
    requires forall i | 0 <= i < |lines| :: charges[i] == Some(read(lines[i]).charge) && read(lines[i]).charge.Ok?
    ensures all == ChargesOf(lines, read, 0)
  {
    ChargesAt(lines, read, 0);
    all := [];
    for i := 0 to |lines|
      invariant all == ChargesOf(lines, read, 0)[..i]
    {
      all := all + [charges[i].value.value];
    }
  }

  /**
  parseRows: however the lines are divided among workers, the caller gets what reading
  them one by one gives. A refusal names the earliest bad line, ahead of a later
  oversized one, and leaves the caller's counts as they were.
  */
  method ParseRows<C, E>(body: string, trim: string -> string, limit: nat, read: BodyLine -> Reading<C, E>, procs: nat,
                         drops: Drops) returns (r: Result<seq<C>, Refusal<E>>)
    modifies drops
    ensures match OneByOne(Scan(body, 0, trim, limit), read, 0)
            case Err(refusal) => r == Err(refusal) && drops.counts == old(drops.counts)
            case Ok((charges, left)) => r == Ok(charges) && drops.counts == old(drops.counts) + left
  {
    hide Scan, OneByOne, Low, ChargesOf, Noted, Sequential, Workers;
    var scanned := SplitLines(body, trim, limit);
    var lines := scanned.lines;
    var charges := new Option<Result<C, E>>[|lines|](_ => None);
    var workerDrops := new multiset<string>[Workers(|lines|, procs)](_ => multiset{});
    var ending := Each(|lines|, procs, Ends(lines, read), Notes(lines, read), Values(lines, read), workerDrops,
                       charges);
    OneByOneIsSequential(scanned, read, 0);
    if ending.Failed? {
      return Err(BadRow(ending.error));
    }
    if scanned.oversized.Some? {
      return Err(Oversized(scanned.oversized.value));
    }
    SequentialPasses(Ends(lines, read), 0, |lines|);
    assert forall i | 0 <= i < |lines| :: Ends(lines, read)(i).Passed? && charges[i] == Values(lines, read)(i);
    var all := TakeCharges(lines, read, charges);
    AddDrops(lines, read, workerDrops, drops);
    return Ok(all);
  }
}
