/**
CPU-bound work over a list, divided among goroutines (internal/fanout). Each call
of fn is one atomic step: fn writes only its own index's slot and its own worker's
state. The scheduler may run any unfinished worker next.
*/
module Fanout {
  import opened Order

  /** How one call of fn, or a whole run, ends. */
  datatype Ending<+E> = Passed | Failed(error: E) | Panicked(value: E)

  const MIN_CHUNK := 256

  /** The chunks of a list of n items: as many as processors, as long as each can have 256 items. */
  function Workers(n: nat, procs: nat): (w: nat)
    ensures w >= 1
    ensures w > 1 ==> w <= procs && w * MIN_CHUNK <= n
    ensures w < procs ==> n < (w + 1) * MIN_CHUNK
  {
    Max(1, Min(procs, n / MIN_CHUNK))
  }

  // ---- Chunks -------------------------------------------------------------

  /** Where a worker's chunk starts, and the one before it ends. */
  function Low(n: nat, worker: nat, workers: nat): nat
    requires workers > 0
  {
    n * worker / workers
  }

  lemma Scales(a: int, b: int, d: nat)
    requires a <= b
    ensures d * a <= d * b
  {
    assert d * b == d * a + d * (b - a);
  }

  lemma Bounds(a: nat, d: nat)
    requires d > 0
    ensures d * (a / d) <= a < d * (a / d + 1)
  {
  }

  lemma QuotientGrows(a: nat, b: nat, d: nat)
    requires d > 0 && a <= b
    ensures a / d <= b / d
  {
    Bounds(a, d);
    Bounds(b, d);
    if b / d < a / d {
      Scales(b / d + 1, a / d, d);
    }
  }

  lemma QuotientOfProduct(q: nat, d: nat)
    requires d > 0
    ensures q * d / d == q
  {
    var r := q * d / d;
    Bounds(q * d, d);
    if r < q {
      Scales(r + 1, q, d);
    } else if q < r {
      Scales(q + 1, r, d);
    }
  }

  lemma ProductSteps(n: nat, worker: nat, workers: nat)
    requires worker < workers
    ensures n * worker <= n * (worker + 1) <= n * workers
  {
    Scales(worker, worker + 1, n);
    Scales(worker + 1, workers, n);
  }

  /** Chunks follow one another. */
  lemma LowSteps(n: nat, worker: nat, workers: nat)
    requires worker < workers
    ensures Low(n, worker, workers) <= Low(n, worker + 1, workers)
  {
    ProductSteps(n, worker, workers);
    QuotientGrows(n * worker, n * (worker + 1), workers);
  }

  lemma {:induction false} LowGrows(n: nat, a: nat, b: nat, workers: nat)
    requires a <= b <= workers && workers > 0
    ensures Low(n, a, workers) <= Low(n, b, workers)
    decreases b - a
  {
    if a < b {
      LowSteps(n, a, workers);
      LowGrows(n, a + 1, b, workers);
    }
  }

  /** The chunks cover the list. */
  lemma LowCovers(n: nat, workers: nat)
    requires workers > 0
    ensures Low(n, 0, workers) == 0 && Low(n, workers, workers) == n
  {
    QuotientOfProduct(n, workers);
  }

  lemma QuotientIs(a: nat, q: nat, d: nat)
    requires d > 0 && d * q <= a < d * (q + 1)
    ensures a / d == q
  {
    Bounds(a, d);
    if a / d < q {
      Scales(a / d + 1, q, d);
    } else if q < a / d {
      Scales(q + 1, a / d, d);
    }
  }

  lemma Distributes(d: int, a: int, b: int)
    ensures d * (a + b) == d * a + d * b
  {
  }

  /** Adding n moves a quotient by n's own, or one more. */
  lemma QuotientMoves(a: nat, n: nat, d: nat)
    requires d > 0
    ensures a / d + n / d <= (a + n) / d <= a / d + n / d + 1
  {
    var q := a / d + n / d;
    Bounds(a, d);
    Bounds(n, d);
    Distributes(d, a / d, n / d);
    Distributes(d, a / d, 1);
    Distributes(d, n / d, 1);
    Distributes(d, q, 1);
    Distributes(d, q, 2);
    if a + n < d * (q + 1) {
      QuotientIs(a + n, q, d);
    } else {
      QuotientIs(a + n, q + 1, d);
    }
  }

  /** No chunk is more than one item longer than another, and where there are several each has 256 items. */
  lemma ChunksAreEven(n: nat, worker: nat, procs: nat)
    requires worker < Workers(n, procs)
    ensures var workers := Workers(n, procs);
            var size := Low(n, worker + 1, workers) - Low(n, worker, workers);
            n / workers <= size <= n / workers + 1 && (workers > 1 ==> size >= 256)
  {
    var workers := Workers(n, procs);
    Distributes(n, worker, 1);
    QuotientMoves(n * worker, n, workers);
    if workers > 1 {
      QuotientGrows(256 * workers, n, workers);
      QuotientOfProduct(256, workers);
    }
  }

  // ---- The sequential loop ------------------------------------------------

  /** What a loop over low..high ends with: the first call that did not pass. */
  function Sequential<E>(ends: nat -> Ending<E>, low: nat, high: nat): Ending<E>
    decreases high - low
  {
    if low >= high then Passed
    else if !ends(low).Passed? then ends(low)
    else Sequential(ends, low + 1, high)
  }

  /** What a loop over low..high leaves in the state its calls write to. */
  function Noted<S>(note: (S, nat) -> S, state: S, low: nat, high: nat): S
    decreases high - low
  {
    if low >= high then state else note(Noted(note, state, low, high - 1), high - 1)
  }

  ghost predicate AllPass<E>(ends: nat -> Ending<E>, low: nat, high: nat) {
    forall i | low <= i < high :: ends(i).Passed?
  }

  lemma {:induction false} SequentialSkips<E>(ends: nat -> Ending<E>, low: nat, mid: nat, high: nat)
    requires low <= mid <= high && AllPass(ends, low, mid)
    ensures Sequential(ends, low, high) == Sequential(ends, mid, high)
    decreases mid - low
  {
    if low < mid {
      SequentialSkips(ends, low + 1, mid, high);
    }
  }

  lemma {:induction false} SequentialPasses<E>(ends: nat -> Ending<E>, low: nat, high: nat)
    ensures Sequential(ends, low, high).Passed? <==> AllPass(ends, low, high)
    decreases high - low
  {
    if low < high && ends(low).Passed? {
      SequentialPasses(ends, low + 1, high);
    }
  }

  // ---- Each ---------------------------------------------------------------

  /** One worker's progress: the index it runs next, and how it ended if it stopped early. */
  datatype Progress<+E> = Progress(at: nat, ending: Ending<E>)

  /** A worker has run its chunk up to at, every call passing, and one more call if that one did not pass. */
  ghost predicate WorkerRan<E, S>(n: nat, worker: nat, workers: nat, ends: nat -> Ending<E>, note: (S, nat) -> S,
                                  p: Progress<E>, start: S, state: S)
    requires worker < workers
  {
    && Low(n, worker, workers) <= p.at <= Low(n, worker + 1, workers)
    && AllPass(ends, Low(n, worker, workers), p.at)
    && (p.ending.Passed? ==> state == Noted(note, start, Low(n, worker, workers), p.at))
    && (!p.ending.Passed? ==> p.at < Low(n, worker + 1, workers) && ends(p.at) == p.ending)
  }

  predicate Running<E>(n: nat, worker: nat, workers: nat, p: Progress<E>)
    requires worker < workers
  {
    p.ending.Passed? && p.at < Low(n, worker + 1, workers)
  }

  /** The indexes no worker has run yet include every one a running worker has ahead of it. */
  ghost predicate Ahead<E>(n: nat, workers: nat, progress: seq<Progress<E>>, left: set<nat>)
    requires |progress| == workers
  {
    forall w, i | 0 <= w < workers && Running(n, w, workers, progress[w])
        && progress[w].at <= i < Low(n, w + 1, workers) ::
      i in left
  }

  /** Every worker is where its chunk's calls have brought it. */
  ghost predicate AllRan<S, E, T>(n: nat, workers: nat, ends: nat -> Ending<E>, note: (S, nat) -> S, value: nat -> T,
                                  progress: seq<Progress<E>>, starts: seq<S>, states: seq<S>, slots: seq<T>)
    requires |progress| == |starts| == |states| == workers && |slots| == n
  {
    && (forall w | 0 <= w < workers :: WorkerRan(n, w, workers, ends, note, progress[w], starts[w], states[w]))
    && (forall w, i | 0 <= w < workers && Low(n, w, workers) <= i < progress[w].at && i < n :: slots[i] == value(i))
  }

  lemma StartsRan<S, E, T>(n: nat, workers: nat, ends: nat -> Ending<E>, note: (S, nat) -> S, value: nat -> T,
                           progress: seq<Progress<E>>, starts: seq<S>, slots: seq<T>)
    requires workers > 0 && |progress| == |starts| == workers && |slots| == n
    requires forall w | 0 <= w < workers :: progress[w] == Progress(Low(n, w, workers), Passed)
    ensures AllRan(n, workers, ends, note, value, progress, starts, starts, slots)
  {
    forall w | 0 <= w < workers
      ensures WorkerRan(n, w, workers, ends, note, progress[w], starts[w], starts[w])
    {
      LowSteps(n, w, workers);
    }
  }

  /** An index a worker has ahead of it is in the list, and in no other worker's chunk. */
  lemma OwnIndex(n: nat, worker: nat, workers: nat, i: nat)
    requires worker < workers && Low(n, worker, workers) <= i < Low(n, worker + 1, workers)
    ensures i < n
    ensures forall w | 0 <= w < workers && w != worker :: i < Low(n, w, workers) || Low(n, w + 1, workers) <= i
  {
    LowCovers(n, workers);
    LowGrows(n, worker + 1, workers, workers);
    forall w | 0 <= w < workers && w != worker
      ensures i < Low(n, w, workers) || Low(n, w + 1, workers) <= i
    {
      if w < worker {
        LowGrows(n, w + 1, worker, workers);
      } else {
        LowGrows(n, worker + 1, w, workers);
      }
    }
  }

  /** One call by one running worker. */
  lemma StepRan<S, E, T>(n: nat, workers: nat, ends: nat -> Ending<E>, note: (S, nat) -> S, value: nat -> T,
                         progress: seq<Progress<E>>, starts: seq<S>, states: seq<S>, slots: seq<T>, w: nat)
    requires |progress| == |starts| == |states| == workers && |slots| == n && w < workers
    requires AllRan(n, workers, ends, note, value, progress, starts, states, slots)
    requires Running(n, w, workers, progress[w])
    ensures progress[w].at < n
    ensures var i := progress[w].at;
            var next := if ends(i).Passed? then Progress(i + 1, Passed) else Progress(i, ends(i));
            AllRan(n, workers, ends, note, value, progress[w := next], starts,
                   states[w := note(states[w], i)], slots[i := value(i)])
  {
    hide Low;
    var i := progress[w].at;
    OwnIndex(n, w, workers, i);
    assert WorkerRan(n, w, workers, ends, note, progress[w], starts[w], states[w]);
  }

  /** The lowest worker that stopped early stopped at the lowest failing index. */
  lemma ChunkDecides<E>(n: nat, worker: nat, workers: nat, ends: nat -> Ending<E>, p: Progress<E>)
    requires worker < workers
    requires Low(n, worker, workers) <= p.at <= Low(n, worker + 1, workers)
    requires AllPass(ends, Low(n, worker, workers), p.at)
    requires if p.ending.Passed? then p.at == Low(n, worker + 1, workers)
             else p.at < Low(n, worker + 1, workers) && ends(p.at) == p.ending
    requires Sequential(ends, 0, n) == Sequential(ends, Low(n, worker, workers), n)
    ensures if p.ending.Passed? then Sequential(ends, 0, n) == Sequential(ends, Low(n, worker + 1, workers), n)
            else Sequential(ends, 0, n) == p.ending
  {
    hide Low;
    LowCovers(n, workers);
    LowGrows(n, worker + 1, workers, workers);
    SequentialSkips(ends, Low(n, worker, workers), p.at, n);
  }

  ghost function Indexes(n: nat): (s: set<nat>)
    ensures forall i :: i in s <==> 0 <= i < n
  {
    if n == 0 then {} else Indexes(n - 1) + {n - 1}
  }

  lemma StartsAhead<E>(n: nat, workers: nat, progress: seq<Progress<E>>)
    requires |progress| == workers
    ensures Ahead(n, workers, progress, Indexes(n))
  {
    hide Low;
    forall w, i | 0 <= w < workers && Running(n, w, workers, progress[w])
        && progress[w].at <= i < Low(n, w + 1, workers)
      ensures i in Indexes(n)
    {
      LowCovers(n, workers);
      LowGrows(n, w + 1, workers, workers);
    }
  }

  /**
  The workers' chunks, run at once: whichever running worker the scheduler lets make
  its next call, and however often, until none is running.
  */
  method RunChunks<S, E, T>(n: nat, workers: nat, ends: nat -> Ending<E>, note: (S, nat) -> S, value: nat -> T,
                            states: array<S>, slots: array<T>) returns (progress: seq<Progress<E>>)
    requires states.Length == workers > 0 && slots.Length == n && states as object != slots
    modifies states, slots
    ensures |progress| == workers
    ensures AllRan(n, workers, ends, note, value, progress, old(states[..]), states[..], slots[..])
    ensures forall w | 0 <= w < workers :: !Running(n, w, workers, progress[w])
  {
    hide Low, AllRan, Ahead, Noted;
    progress := seq(workers, w requires 0 <= w < workers => Progress(Low(n, w, workers), Passed));
    ghost var starts, left := states[..], Indexes(n);
    StartsRan(n, workers, ends, note, value, progress, starts, slots[..]);
    StartsAhead(n, workers, progress);
    while exists w :: 0 <= w < workers && Running(n, w, workers, progress[w])
      invariant |progress| == workers
      invariant AllRan(n, workers, ends, note, value, progress, starts, states[..], slots[..])
      invariant Ahead(n, workers, progress, left)
      decreases left
    {
      var worker: nat :| worker < workers && Running(n, worker, workers, progress[worker]);
      var index := progress[worker].at;
      StepRan(n, workers, ends, note, value, progress, starts, states[..], slots[..], worker);
      AheadSteps(n, workers, ends, note, value, progress, starts, states[..], slots[..], left, worker);
      ghost var was, wasSlots := states[..], slots[..];
      slots[index] := value(index);
      states[worker] := note(states[worker], index);
      assert states[..] == was[worker := note(was[worker], index)];
      assert slots[..] == wasSlots[index := value(index)];
      progress := progress[worker :=
        if ends(index).Passed? then Progress(index + 1, Passed) else Progress(index, ends(index))];
      left := left - {index};
    }
  }

  /**
  Each: however the chunks' calls interleave, the run ends as a loop over the whole
  list would; and when every call passed, each slot is filled and each worker's state
  holds its own chunk's notes in order.
  */
  method Each<S, E, T>(n: nat, procs: nat, ends: nat -> Ending<E>, note: (S, nat) -> S, value: nat -> T,
                       states: array<S>, slots: array<T>) returns (ending: Ending<E>)
    requires states.Length == Workers(n, procs) && slots.Length == n && states as object != slots
    modifies states, slots
    ensures ending == Sequential(ends, 0, n)
    ensures ending.Passed? ==> forall i | 0 <= i < n :: slots[i] == value(i)
    ensures ending.Passed? ==> forall w | 0 <= w < states.Length ::
        states[w] == Noted(note, old(states[w]), Low(n, w, states.Length), Low(n, w + 1, states.Length))
  {
    hide Low, AllRan, Sequential, Noted, Running, Workers;
    var workers := Workers(n, procs);
    ghost var starts := states[..];
    var progress := RunChunks(n, workers, ends, note, value, states, slots);
    ghost var finals, filled := states[..], slots[..];
    AllDone(n, workers, ends, note, value, progress, starts, finals, filled);
    for worker := 0 to workers
      invariant Sequential(ends, 0, n) == Sequential(ends, Low(n, worker, workers), n)
      invariant forall w | 0 <= w < worker :: progress[w].ending.Passed?
      invariant states[..] == finals && slots[..] == filled
    {
      ChunkDecides(n, worker, workers, ends, progress[worker]);
      if !progress[worker].ending.Passed? {
        return progress[worker].ending;
      }
    }
    AllPassed(n, workers, ends, note, value, progress, starts, states[..], slots[..]);
    return Passed;
  }

  lemma AheadSteps<S, E, T>(n: nat, workers: nat, ends: nat -> Ending<E>, note: (S, nat) -> S, value: nat -> T,
                            progress: seq<Progress<E>>, starts: seq<S>, states: seq<S>, slots: seq<T>,
                            left: set<nat>, w: nat)
    requires |progress| == |starts| == |states| == workers && |slots| == n && w < workers
    requires AllRan(n, workers, ends, note, value, progress, starts, states, slots)
    requires Running(n, w, workers, progress[w]) && Ahead(n, workers, progress, left)
    ensures var i := progress[w].at;
            var next := if ends(i).Passed? then Progress(i + 1, Passed) else Progress(i, ends(i));
            i in left && Ahead(n, workers, progress[w := next], left - {i})
  {
    hide Low;
    OwnIndex(n, w, workers, progress[w].at);
    assert forall v | 0 <= v < workers :: WorkerRan(n, v, workers, ends, note, progress[v], starts[v], states[v]);
  }

  /** When no worker is running, each has passed its whole chunk or stopped inside it. */
  lemma AllDone<S, E, T>(n: nat, workers: nat, ends: nat -> Ending<E>, note: (S, nat) -> S, value: nat -> T,
                         progress: seq<Progress<E>>, starts: seq<S>, states: seq<S>, slots: seq<T>)
    requires workers > 0 && |progress| == |starts| == |states| == workers && |slots| == n
    requires AllRan(n, workers, ends, note, value, progress, starts, states, slots)
    requires forall w | 0 <= w < workers :: !Running(n, w, workers, progress[w])
    ensures Low(n, 0, workers) == 0
    ensures forall w | 0 <= w < workers ::
        && Low(n, w, workers) <= progress[w].at <= Low(n, w + 1, workers)
        && AllPass(ends, Low(n, w, workers), progress[w].at)
        && if progress[w].ending.Passed? then progress[w].at == Low(n, w + 1, workers)
           else progress[w].at < Low(n, w + 1, workers) && ends(progress[w].at) == progress[w].ending
  {
    hide Low;
    LowCovers(n, workers);
    assert forall w | 0 <= w < workers :: WorkerRan(n, w, workers, ends, note, progress[w], starts[w], states[w]);
  }

  /** When every worker passed its chunk, the whole list has been run. */
  lemma AllPassed<S, E, T>(n: nat, workers: nat, ends: nat -> Ending<E>, note: (S, nat) -> S, value: nat -> T,
                           progress: seq<Progress<E>>, starts: seq<S>, states: seq<S>, slots: seq<T>)
    requires workers > 0 && |progress| == |starts| == |states| == workers && |slots| == n
    requires AllRan(n, workers, ends, note, value, progress, starts, states, slots)
    requires forall w | 0 <= w < workers :: progress[w].ending.Passed? && progress[w].at == Low(n, w + 1, workers)
    ensures Low(n, workers, workers) == n && Sequential(ends, n, n) == Passed
    ensures forall i | 0 <= i < n :: slots[i] == value(i)
    ensures forall w | 0 <= w < workers ::
        states[w] == Noted(note, starts[w], Low(n, w, workers), Low(n, w + 1, workers))
  {
    hide Low;
    LowCovers(n, workers);
    forall w | 0 <= w < workers
      ensures states[w] == Noted(note, starts[w], Low(n, w, workers), Low(n, w + 1, workers))
    {
      assert WorkerRan(n, w, workers, ends, note, progress[w], starts[w], states[w]);
    }
    forall i | 0 <= i < n
      ensures slots[i] == value(i)
    {
      var w := ChunkOf(n, workers, i);
      assert Low(n, w, workers) <= i < progress[w].at;
    }
  }

  /** Every index lies in a chunk. */
  lemma ChunkOf(n: nat, workers: nat, i: nat) returns (worker: nat)
    requires workers > 0 && i < n
    ensures worker < workers && Low(n, worker, workers) <= i < Low(n, worker + 1, workers)
  {
    hide Low;
    LowCovers(n, workers);
    worker := 0;
    while Low(n, worker + 1, workers) <= i
      invariant worker < workers && Low(n, worker, workers) <= i
      decreases workers - worker
    {
      worker := worker + 1;
    }
  }
}
