/**
The egress counters of internal/egress/counters.go. Any number of recorders and
flushes run at once; each locked region, and each write to the sink, is one atomic
step. The sink stores a write whole or not at all.
*/
module Egress {
  datatype Key = Key(day: string, host: string, outcome: string)

  type Counts = map<Key, nat>

  function Get(counts: Counts, key: Key): nat {
    if key in counts then counts[key] else 0
  }

  /** Counts added key by key. */
  function AddAll(a: Counts, b: Counts): (sum: Counts)
    ensures forall key :: Get(sum, key) == Get(a, key) + Get(b, key)
  {
    map key | key in a.Keys + b.Keys :: Get(a, key) + Get(b, key)
  }

  lemma SumIs(a: Counts, b: Counts, sum: Counts)
    requires sum.Keys == a.Keys + b.Keys && forall key | key in sum :: sum[key] == Get(a, key) + Get(b, key)
    ensures sum == AddAll(a, b)
  {
  }

  lemma OneMore(counts: Counts, key: Key)
    ensures counts[key := Get(counts, key) + 1] == AddAll(counts, map[key := 1])
  {
    SumIs(counts, map[key := 1], counts[key := Get(counts, key) + 1]);
  }

  // ---- The protocol -------------------------------------------------------

  /** Every call recorded, and where its count is: pending, taken by a flush that has not ended, or stored. */
  datatype State = State(recorded: Counts, pending: Counts, taken: seq<Counts>, stored: Counts)

  const EMPTY := State(map[], map[], [], map[])

  datatype Step = Record(key: Key) | Take | Store(flush: nat) | PutBack(flush: nat)

  predicate Enabled(s: State, step: Step) {
    step.Store? || step.PutBack? ==> step.flush < |s.taken|
  }

  function Without(taken: seq<Counts>, i: nat): seq<Counts>
    requires i < |taken|
  {
    taken[..i] + taken[i + 1..]
  }

  function Next(s: State, step: Step): State
    requires Enabled(s, step)
  {
    match step
    case Record(key) => State(AddAll(s.recorded, map[key := 1]), AddAll(s.pending, map[key := 1]), s.taken, s.stored)
    case Take => State(s.recorded, map[], s.taken + [s.pending], s.stored)
    case Store(i) => State(s.recorded, s.pending, Without(s.taken, i), AddAll(s.stored, s.taken[i]))
    case PutBack(i) => State(s.recorded, AddAll(s.pending, s.taken[i]), Without(s.taken, i), s.stored)
  }

  function TakenOf(taken: seq<Counts>, key: Key): nat {
    if taken == [] then 0 else Get(taken[0], key) + TakenOf(taken[1..], key)
  }

  /** No count is lost, and none is in two places. */
  ghost predicate Conserved(s: State) {
    forall key :: Get(s.recorded, key) == Get(s.pending, key) + TakenOf(s.taken, key) + Get(s.stored, key)
  }

  lemma {:induction false} TakenAppend(taken: seq<Counts>, more: Counts, key: Key)
    ensures TakenOf(taken + [more], key) == TakenOf(taken, key) + Get(more, key)
  {
    if taken == [] {
      assert [more][1..] == [];
    } else {
      TakenAppend(taken[1..], more, key);
      assert (taken + [more])[1..] == taken[1..] + [more];
    }
  }

  lemma {:induction false} TakenWithout(taken: seq<Counts>, i: nat, key: Key)
    requires i < |taken|
    ensures TakenOf(taken, key) == TakenOf(Without(taken, i), key) + Get(taken[i], key)
  {
    if i == 0 {
      assert Without(taken, 0) == taken[1..];
    } else {
      TakenWithout(taken[1..], i - 1, key);
      assert Without(taken, i)[1..] == Without(taken[1..], i - 1);
    }
  }

  lemma StepConserves(s: State, step: Step)
    requires Conserved(s) && Enabled(s, step)
    ensures Conserved(Next(s, step))
  {
    forall key
      ensures Get(Next(s, step).recorded, key) ==
              Get(Next(s, step).pending, key) + TakenOf(Next(s, step).taken, key) + Get(Next(s, step).stored, key)
    {
      match step {
        case Record(_) =>
        case Take => TakenAppend(s.taken, s.pending, key);
        case Store(i) => TakenWithout(s.taken, i, key);
        case PutBack(i) => TakenWithout(s.taken, i, key);
      }
    }
  }

  ghost predicate Run(s: State, steps: seq<Step>, end: State)
    decreases |steps|
  {
    if steps == [] then end == s else Enabled(s, steps[0]) && Run(Next(s, steps[0]), steps[1..], end)
  }

  /**
  In every run of recorders and flushes, failed writes included, for each day, host
  and outcome what was recorded is what is pending, in flight and stored.
  */
  lemma {:induction false} EveryRunConserves(s: State, steps: seq<Step>, end: State)
    requires Conserved(s) && Run(s, steps, end)
    ensures Conserved(end)
    decreases |steps|
  {
    if steps != [] {
      StepConserves(s, steps[0]);
      EveryRunConserves(Next(s, steps[0]), steps[1..], end);
    }
  }

  /** How often a key was recorded. */
  function RecordCount(steps: seq<Step>, key: Key): nat {
    if steps == [] then 0 else (if steps[0] == Record(key) then 1 else 0) + RecordCount(steps[1..], key)
  }

  lemma {:induction false} RecordedAre(s: State, steps: seq<Step>, end: State, key: Key)
    requires Run(s, steps, end)
    ensures Get(end.recorded, key) == Get(s.recorded, key) + RecordCount(steps, key)
    decreases |steps|
  {
    if steps != [] {
      RecordedAre(Next(s, steps[0]), steps[1..], end, key);
    }
  }

  /** From the start, every call ever recorded is pending, in flight or stored, and counted there once. */
  lemma EveryRecordIsSomewhere(steps: seq<Step>, end: State, key: Key)
    requires Run(EMPTY, steps, end)
    ensures RecordCount(steps, key) == Get(end.pending, key) + TakenOf(end.taken, key) + Get(end.stored, key)
  {
    EveryRunConserves(EMPTY, steps, end);
    RecordedAre(EMPTY, steps, end, key);
  }

  /** A flush that fails leaves every count where it was. */
  lemma FailedFlushChangesNothing(s: State, key: Key)
    ensures var end := Next(Next(s, Take), PutBack(|s.taken|));
            && Get(end.pending, key) == Get(s.pending, key)
            && end.taken == s.taken && end.stored == s.stored && end.recorded == s.recorded
  {
    assert Without(s.taken + [s.pending], |s.taken|) == s.taken;
  }

  /** When no flush is under way, a flush that succeeds leaves every recorded call stored. */
  lemma FlushStoresEverything(s: State, key: Key)
    requires Conserved(s) && s.taken == []
    ensures var end := Next(Next(s, Take), Store(0));
            end.pending == map[] && end.taken == [] && Get(end.stored, key) == Get(end.recorded, key)
  {
    StepConserves(s, Take);
    StepConserves(Next(s, Take), Store(0));
  }

  // ---- The counters -------------------------------------------------------

  class Sink {
    var stored: Counts

    constructor ()
      ensures stored == map[]
    {
      stored := map[];
    }

    /** Stores the counts, or fails and stores nothing. */
    method AddEgress(counts: Counts) returns (ok: bool)
      modifies this
      ensures stored == if ok then AddAll(old(stored), counts) else old(stored)
    {
      ok := *;
      if ok {
        stored := AddAll(stored, counts);
      }
    }
  }

  class Counters {
    const sink: Sink
    var pending: Counts
    ghost var recorded: Counts
    ghost var taken: seq<Counts>

    ghost function View(): State
      reads this, sink
    {
      State(recorded, pending, taken, sink.stored)
    }

    ghost predicate Valid()
      reads this, sink
    {
      Conserved(View())
    }

    constructor (sink: Sink)
      requires sink.stored == map[]
      ensures Valid() && View() == EMPTY && this.sink == sink
    {
      this.sink := sink;
      pending, recorded, taken := map[], map[], [];
    }

    /** Counts one call on a day. */
    method Record(day: string, host: string, outcome: string)
      requires Valid()
      modifies this
      ensures Valid() && View() == Next(old(View()), Step.Record(Key(day, host, outcome)))
    {
      hide Conserved, AddAll;
      var key := Key(day, host, outcome);
      StepConserves(View(), Step.Record(key));
      OneMore(pending, key);
      pending := pending[key := Get(pending, key) + 1];
      recorded := AddAll(recorded, map[key := 1]);
    }

    method TakePending() returns (counts: Counts)
      requires Valid()
      modifies this
      ensures Valid() && View() == Next(old(View()), Take) && counts == old(pending)
    {
      StepConserves(View(), Take);
      counts := pending;
      pending := map[];
      taken := taken + [counts];
    }

    /** The loop over a failed flush's counts, in whatever order the map gives its keys. */
    method AddBack(counts: Counts)
      modifies this`pending
      ensures pending == AddAll(old(pending), counts)
    {
      ghost var was := pending;
      var left := counts.Keys;
      while left != {}
        invariant left <= counts.Keys
        invariant pending.Keys == was.Keys + (counts.Keys - left)
        invariant forall key | key in pending ::
            pending[key] == Get(was, key) + if key in left then 0 else Get(counts, key)
        decreases left
      {
        var key :| key in left;
        pending := pending[key := Get(pending, key) + counts[key]];
        left := left - {key};
      }
      SumIs(was, counts, pending);
    }

    /** Puts a failed flush's counts back. */
    method PutBack(counts: Counts, ghost flush: nat)
      requires Valid() && flush < |taken| && taken[flush] == counts
      modifies this
      ensures Valid() && View() == Next(old(View()), Step.PutBack(flush))
    {
      hide Conserved;
      StepConserves(View(), Step.PutBack(flush));
      AddBack(counts);
      taken := Without(taken, flush);
    }

    /** Writes what one flush took. */
    method Write(counts: Counts, ghost flush: nat) returns (ok: bool)
      requires Valid() && flush < |taken| && taken[flush] == counts
      modifies this`taken, sink
      ensures ok ==> Valid() && View() == Next(old(View()), Store(flush))
      ensures !ok ==> Valid() && View() == old(View())
    {
      StepConserves(View(), Store(flush));
      ok := sink.AddEgress(counts);
      if ok {
        taken := Without(taken, flush);
      }
    }

    /** A flush whose steps nothing comes between: all that was pending is stored, or all of it still is pending. */
    method Flush() returns (ok: bool)
      requires Valid()
      modifies this, sink
      ensures Valid() && recorded == old(recorded)
      ensures ok ==>
          && pending == map[]
          && forall key :: Get(sink.stored, key) == Get(old(sink.stored), key) + Get(old(pending), key)
      ensures !ok ==> sink.stored == old(sink.stored) && pending == old(pending)
      ensures taken == old(taken)
    {
      var counts := TakePending();
      ghost var flush := |taken| - 1;
      assert Without(taken, flush) == old(taken);
      if |counts| == 0 {
        assert counts == map[];
        StepConserves(View(), Store(flush));
        taken := Without(taken, flush);
        assert View() == Next(old(View()), Step.Take).(taken := old(taken));
        assert forall key :: Get(counts, key) == 0;
        assert Conserved(View());
        return true;
      }
      ok := Write(counts, flush);
      if !ok {
        PutBack(counts, flush);
        assert AddAll(map[], counts) == counts;
      }
    }
  }
}
