/**
The per-installation write limiter of internal/scm/limiter.go: two rings that stand
in for a log of every write, and a ceiling on requests in flight. Times are
nanoseconds after the zero instant, which marks a slot nothing was spent in.
*/
module Limiter {
  import opened Wrappers
  import opened Order

  const MINUTE: int := 60_000_000_000
  const HOUR: int := 3_600_000_000_000
  const SECOND: int := 1_000_000_000

  const WRITES_PER_MINUTE := 80
  const WRITES_PER_HOUR := 500
  const MAX_CONCURRENT := 100
  const CONCURRENT_WAIT: int := SECOND

  // ---- The log a ring stands in for ---------------------------------------

  /** How many entries fall in lo <= t < hi. */
  function CountIn(log: seq<int>, lo: int, hi: int): nat {
    if log == [] then 0 else
      CountIn(log[..|log| - 1], lo, hi) + if lo <= log[|log| - 1] < hi then 1 else 0
  }

  ghost predicate Sorted(log: seq<int>) {
    forall i, j | 0 <= i < j < |log| :: log[i] <= log[j]
  }

  /** Any limit entries and the next one span at least a period. */
  ghost predicate Spaced(log: seq<int>, limit: nat, period: int) {
    forall i | 0 <= i && i + limit < |log| :: log[i + limit] - log[i] >= period
  }

  /** How long until the entry limit writes back leaves the window ending now. */
  function WaitFor(log: seq<int>, limit: nat, period: int, now: int): (wait: int)
    ensures wait >= 0
  {
    if |log| < limit || limit == 0 then 0 else
      var wait := log[|log| - limit] + period - now;
      if wait > 0 then wait else 0
  }

  lemma {:induction false} CountAfter(log: seq<int>, lo: int, hi: int, k: nat)
    requires k <= |log| && forall j | 0 <= j < k :: log[j] < lo
    ensures CountIn(log, lo, hi) <= |log| - k
  {
    if |log| > k {
      CountAfter(log[..|log| - 1], lo, hi, k);
    } else if |log| > 0 {
      CountAfter(log[..|log| - 1], lo, hi, k - 1);
    }
  }

  lemma {:induction false} CountAtLeast(log: seq<int>, lo: int, hi: int, k: nat)
    requires k <= |log| && forall j | k <= j < |log| :: lo <= log[j] < hi
    ensures CountIn(log, lo, hi) >= |log| - k
  {
    if |log| > k {
      CountAtLeast(log[..|log| - 1], lo, hi, k);
    }
  }

  /** In a spaced log no half-open window of a period holds more than limit entries, wherever it lies. */
  lemma {:induction false} NoWindowHoldsMore(log: seq<int>, limit: nat, period: int, lo: int)
    requires Sorted(log) && Spaced(log, limit, period)
    ensures CountIn(log, lo, lo + period) <= limit
  {
    if log != [] {
      var last := log[|log| - 1];
      if lo <= last < lo + period && |log| > limit {
        var k := |log| - limit;
        assert log[k - 1 + limit] - log[k - 1] >= period;
        CountAfter(log, lo, lo + period, k);
      } else if |log| <= limit {
        CountAfter(log, lo, lo + period, 0);
      } else {
        NoWindowHoldsMore(log[..|log| - 1], limit, period, lo);
      }
    }
  }

  /** A write must wait exactly when the window that ends now is full. */
  lemma WaitsExactlyWhenFull(log: seq<int>, limit: nat, period: int, now: int)
    requires limit > 0 && Sorted(log) && (log != [] ==> log[|log| - 1] <= now)
    ensures WaitFor(log, limit, period, now) > 0 <==> CountIn(log, now - period + 1, now + 1) >= limit
  {
    var lo := now - period + 1;
    if |log| < limit {
      CountAfter(log, lo, now + 1, 0);
    } else {
      var k := |log| - limit;
      if log[k] >= lo {
        CountAtLeast(log, lo, now + 1, k);
      } else {
        CountAfter(log, lo, now + 1, k + 1);
      }
    }
  }

  lemma SpacedAppend(log: seq<int>, limit: nat, period: int, now: int)
    requires limit > 0 && Spaced(log, limit, period) && WaitFor(log, limit, period, now) == 0
    ensures Spaced(log + [now], limit, period)
  {
    var next := log + [now];
    forall i | 0 <= i && i + limit < |next|
      ensures next[i + limit] - next[i] >= period
    {
      if i + limit < |log| {
        assert log[i + limit] - log[i] >= period;
      }
    }
  }

  // ---- One installation's account -----------------------------------------

  /** Every admitted write, the count of requests in flight, and how many requests were ever admitted. */
  datatype Account = Account(writes: seq<int>, active: int, admitted: nat)

  const NEW_ACCOUNT := Account([], 0, 0)

  ghost predicate Sound(a: Account, clock: int) {
    && Sorted(a.writes)
    && (forall i | 0 <= i < |a.writes| :: 0 < a.writes[i] <= clock)
    && Spaced(a.writes, WRITES_PER_MINUTE, MINUTE)
    && Spaced(a.writes, WRITES_PER_HOUR, HOUR)
    && a.active <= MAX_CONCURRENT
  }

  function WriteWait(a: Account, now: int): int {
    Max(WaitFor(a.writes, WRITES_PER_MINUTE, MINUTE, now), WaitFor(a.writes, WRITES_PER_HOUR, HOUR, now))
  }

  /** What Admit does to an account: the new account, or the wait it is refused with. */
  function AdmitTo(a: Account, write: bool, now: int): Result<Account, int> {
    if a.active >= MAX_CONCURRENT then Err(CONCURRENT_WAIT)
    else if write && WriteWait(a, now) > 0 then Err(WriteWait(a, now))
    else Ok(Account(if write then a.writes + [now] else a.writes, a.active + 1, a.admitted + 1))
  }

  /** What running a request's release does, as often as it is run. */
  function ReleaseFrom(a: Account): Account {
    a.(active := a.active - 1)
  }

  lemma AdmitKeepsSound(a: Account, write: bool, clock: int, now: int)
    requires Sound(a, clock) && 0 < clock <= now && AdmitTo(a, write, now).Ok?
    ensures Sound(AdmitTo(a, write, now).value, now)
  {
    if write {
      SpacedAppend(a.writes, WRITES_PER_MINUTE, MINUTE, now);
      SpacedAppend(a.writes, WRITES_PER_HOUR, HOUR, now);
    }
  }

  /** A write below the ceiling is refused exactly when the minute or the hour that ends now is full. */
  lemma RefusedExactlyWhenFull(a: Account, clock: int, now: int)
    requires Sound(a, clock) && clock <= now && a.active < MAX_CONCURRENT
    ensures AdmitTo(a, true, now).Err? <==>
            || CountIn(a.writes, now - MINUTE + 1, now + 1) == WRITES_PER_MINUTE
            || CountIn(a.writes, now - HOUR + 1, now + 1) == WRITES_PER_HOUR
  {
    WaitsExactlyWhenFull(a.writes, WRITES_PER_MINUTE, MINUTE, now);
    WaitsExactlyWhenFull(a.writes, WRITES_PER_HOUR, HOUR, now);
    NoWindowHoldsMore(a.writes, WRITES_PER_MINUTE, MINUTE, now - MINUTE + 1);
    NoWindowHoldsMore(a.writes, WRITES_PER_HOUR, HOUR, now - HOUR + 1);
  }

  /** A refused write that is tried again after the wait it was told, and no sooner, is admitted. */
  lemma RetryAfterWait(a: Account, now: int, later: int, inFlight: int)
    requires a.active < MAX_CONCURRENT && AdmitTo(a, true, now).Err?
    requires inFlight < MAX_CONCURRENT
    ensures AdmitTo(a.(active := inFlight), true, later).Ok? <==> later >= now + AdmitTo(a, true, now).error
  {
  }

  // ---- Every run ----------------------------------------------------------

  /** A request asked for, or a run of the release that request, by number, was admitted with. */
  datatype Event = Admit(installation: int, write: bool, now: int) | Release(installation: int, request: nat)

  /** The accounts, and the latest instant the clock showed. */
  datatype State = State(accounts: map<int, Account>, clock: int)

  function AccountOf(accounts: map<int, Account>, installation: int): Account {
    if installation in accounts then accounts[installation] else NEW_ACCOUNT
  }

  /** The clock never runs back, and a release belongs to a request that was admitted. */
  predicate Allowed(s: State, e: Event) {
    match e
    case Admit(_, _, now) => 0 < now && s.clock <= now
    case Release(installation, request) => request < AccountOf(s.accounts, installation).admitted
  }

  function Next(s: State, e: Event): State
    requires Allowed(s, e)
  {
    match e
    case Admit(installation, write, now) =>
      var a := AccountOf(s.accounts, installation);
      var answer := AdmitTo(a, write, now);
      State(s.accounts[installation := if answer.Ok? then answer.value else a], now)
    case Release(installation, _) =>
      State(s.accounts[installation := ReleaseFrom(AccountOf(s.accounts, installation))], s.clock)
  }

  ghost predicate AllSound(s: State) {
    s.clock >= 0 && forall installation | installation in s.accounts :: Sound(s.accounts[installation], s.clock)
  }

  ghost predicate Run(s: State, events: seq<Event>, end: State)
    decreases |events|
  {
    if events == [] then end == s else Allowed(s, events[0]) && Run(Next(s, events[0]), events[1..], end)
  }

  lemma StepKeepsSound(s: State, e: Event)
    requires AllSound(s) && Allowed(s, e)
    ensures AllSound(Next(s, e))
  {
    var next := Next(s, e);
    forall installation | installation in next.accounts
      ensures Sound(next.accounts[installation], next.clock)
    {
      var a := AccountOf(s.accounts, installation);
      assert Sound(a, s.clock);
      if e.Admit? && e.installation == installation && AdmitTo(a, e.write, e.now).Ok? {
        AdmitKeepsSound(a, e.write, Max(s.clock, 1), e.now);
      }
    }
  }

  /**
  In every run, whatever its order of admissions and releases, no rolling minute of
  an installation holds more than 80 admitted writes, no rolling hour more than 500,
  and at most 100 requests are in flight.
  */
  lemma {:induction false} EveryRunKeepsTheLimits(s: State, events: seq<Event>, end: State, installation: int, lo: int)
    requires AllSound(s) && Run(s, events, end)
    ensures AllSound(end)
    ensures var a := AccountOf(end.accounts, installation);
            && CountIn(a.writes, lo, lo + MINUTE) <= WRITES_PER_MINUTE
            && CountIn(a.writes, lo, lo + HOUR) <= WRITES_PER_HOUR
            && a.active <= MAX_CONCURRENT
    decreases |events|
  {
    if events == [] {
      var a := AccountOf(end.accounts, installation);
      assert Sound(a, end.clock);
      NoWindowHoldsMore(a.writes, WRITES_PER_MINUTE, MINUTE, lo);
      NoWindowHoldsMore(a.writes, WRITES_PER_HOUR, HOUR, lo);
    } else {
      StepKeepsSound(s, events[0]);
      EveryRunKeepsTheLimits(Next(s, events[0]), events[1..], end, installation, lo);
    }
  }

  predicate Releases(e: Event, installation: int) {
    e.Release? && e.installation == installation
  }

  /** How often releases of an installation were run. */
  function ReleaseCount(events: seq<Event>, installation: int): nat {
    if events == [] then 0 else
      (if Releases(events[0], installation) then 1 else 0) + ReleaseCount(events[1..], installation)
  }

  /** The requests of an installation that were released, however often. */
  function ReleasedIn(events: seq<Event>, installation: int): set<nat> {
    if events == [] then {} else
      (if Releases(events[0], installation) then {events[0].request} else {}) + ReleasedIn(events[1..], installation)
  }

  /** No release of an installation is run twice. */
  ghost predicate OnceEach(events: seq<Event>, installation: int) {
    forall i, j | 0 <= i < j < |events| && Releases(events[i], installation) && Releases(events[j], installation) ::
      events[i].request != events[j].request
  }

  /** Every run of a release takes one off the count, and nothing else parts it from the admissions. */
  lemma {:induction false} CountFollowsReleases(s: State, events: seq<Event>, end: State, installation: int)
    requires Run(s, events, end)
    ensures var a, b := AccountOf(s.accounts, installation), AccountOf(end.accounts, installation);
            b.active - b.admitted == a.active - a.admitted - ReleaseCount(events, installation)
    decreases |events|
  {
    if events != [] {
      CountFollowsReleases(Next(s, events[0]), events[1..], end, installation);
    }
  }

  /** The count in flight is in 0..100 exactly when releases were run no more often than requests were admitted. */
  lemma InFlightInRangeExactly(events: seq<Event>, end: State, installation: int)
    requires Run(State(map[], 0), events, end)
    ensures var a := AccountOf(end.accounts, installation);
            0 <= a.active <= MAX_CONCURRENT <==> ReleaseCount(events, installation) <= a.admitted
  {
    EveryRunKeepsTheLimits(State(map[], 0), events, end, installation, 0);
    CountFollowsReleases(State(map[], 0), events, end, installation);
  }

  lemma {:induction false} ReleasedWhere(events: seq<Event>, installation: int, request: nat)
    ensures request in ReleasedIn(events, installation) <==>
            exists i :: 0 <= i < |events| && Releases(events[i], installation) && events[i].request == request
  {
    if events != [] {
      var rest := events[1..];
      ReleasedWhere(rest, installation, request);
      if request in ReleasedIn(rest, installation) {
        var i :| 0 <= i < |rest| && Releases(rest[i], installation) && rest[i].request == request;
        assert events[i + 1] == rest[i];
      }
      if i :| 0 < i < |events| && Releases(events[i], installation) && events[i].request == request {
        assert rest[i - 1] == events[i];
      }
    }
  }

  lemma OnceInRest(events: seq<Event>, installation: int)
    requires events != []
    ensures OnceEach(events, installation) <==>
            && OnceEach(events[1..], installation)
            && (Releases(events[0], installation) ==> events[0].request !in ReleasedIn(events[1..], installation))
  {
    hide ReleasedIn;
    var first, rest := events[0], events[1..];
    assert forall i | 0 < i < |events| :: rest[i - 1] == events[i];
    assert forall i | 0 <= i < |rest| :: rest[i] == events[i + 1];
    if first.Release? {
      ReleasedWhere(rest, installation, first.request);
    }
  }

  /** There are as many requests released as runs of a release exactly when none is run twice. */
  lemma {:induction false} ReleasedOnceExactly(events: seq<Event>, installation: int)
    ensures |ReleasedIn(events, installation)| <= ReleaseCount(events, installation)
    ensures |ReleasedIn(events, installation)| == ReleaseCount(events, installation) <==> OnceEach(events, installation)
  {
    hide OnceEach;
    if events == [] {
      NoneReleased(installation);
    } else {
      ReleasedOnceExactly(events[1..], installation);
      OnceInRest(events, installation);
    }
  }

  lemma NoneReleased(installation: int)
    ensures OnceEach([], installation)
  {
  }

  /** The count in flight is the requests admitted less those released exactly when no release is run twice. */
  lemma InFlightAreUnreleasedExactly(events: seq<Event>, end: State, installation: int)
    requires Run(State(map[], 0), events, end)
    ensures var a := AccountOf(end.accounts, installation);
            a.active == a.admitted - |ReleasedIn(events, installation)| <==> OnceEach(events, installation)
  {
    CountFollowsReleases(State(map[], 0), events, end, installation);
    ReleasedOnceExactly(events, installation);
  }

  lemma {:induction false} ReleasedWereAdmitted(s: State, events: seq<Event>, end: State, installation: int)
    requires Run(s, events, end)
    ensures AccountOf(s.accounts, installation).admitted <= AccountOf(end.accounts, installation).admitted
    ensures forall k | k in ReleasedIn(events, installation) :: k < AccountOf(end.accounts, installation).admitted
    decreases |events|
  {
    if events != [] {
      ReleasedWereAdmitted(Next(s, events[0]), events[1..], end, installation);
    }
  }

  lemma {:induction false} BelowSize(numbers: set<nat>, n: nat)
    requires forall k | k in numbers :: k < n
    ensures |numbers| <= n
  {
    if n == 0 {
      assert numbers == {};
    } else {
      BelowSize(numbers - {n - 1}, n - 1);
    }
  }

  /** So the count stays in 0..100 when no release is run twice. */
  lemma InFlightInRange(events: seq<Event>, end: State, installation: int)
    requires Run(State(map[], 0), events, end) && OnceEach(events, installation)
    ensures 0 <= AccountOf(end.accounts, installation).active <= MAX_CONCURRENT
  {
    InFlightInRangeExactly(events, end, installation);
    ReleasedOnceExactly(events, installation);
    ReleasedWereAdmitted(State(map[], 0), events, end, installation);
    BelowSize(ReleasedIn(events, installation), AccountOf(end.accounts, installation).admitted);
  }

  /** A release run twice is counted twice: one request admitted leaves a count of -1. */
  lemma DoubleReleaseMiscounts(installation: int)
    ensures var events := [Event.Admit(installation, false, 1), Event.Release(installation, 0),
                           Event.Release(installation, 0)];
            exists end :: Run(State(map[], 0), events, end) && AccountOf(end.accounts, installation).active == -1
  {
    var start := State(map[], 0);
    var a, b := Event.Admit(installation, false, 1), Event.Release(installation, 0);
    var one := Next(start, a);
    var two := Next(one, b);
    var end := Next(two, b);
    var events := [a, b, b];
    assert events[1..] == [b, b] && [b, b][1..] == [b] && [b][1..] == [];
    assert Run(end, [], end) && Run(two, [b], end) && Run(one, [b, b], end);
    assert Run(start, events, end);
  }

  // ---- The history a run is judged by -------------------------------------

  /** The instants of the writes among the requests, in order. */
  function WriteTimes(requests: seq<Event>): seq<int> {
    if requests == [] then [] else
      var last := requests[|requests| - 1];
      WriteTimes(requests[..|requests| - 1]) + if last.Admit? && last.write then [last.now] else []
  }

  /**
  The requests of an installation that ought to be admitted, told from the history alone: each
  finds fewer than 100 of those before it in flight, and a write finds fewer than 80 writes
  of theirs in the minute that ends with it and fewer than 500 in the hour.
  */
  function Judged(events: seq<Event>, installation: int): seq<Event> {
    if events == [] then [] else
      var init, last := events[..|events| - 1], events[|events| - 1];
      var before := Judged(init, installation);
      var writes := WriteTimes(before);
      if && last.Admit? && last.installation == installation
         && |before| - ReleaseCount(init, installation) < MAX_CONCURRENT
         && (last.write ==>
               && CountIn(writes, last.now - MINUTE + 1, last.now + 1) < WRITES_PER_MINUTE
               && CountIn(writes, last.now - HOUR + 1, last.now + 1) < WRITES_PER_HOUR)
      then before + [last] else before
  }

  /** What an account admits: a request that is no write waits for no window. */
  lemma AdmittedExactly(a: Account, write: bool, clock: int, now: int)
    requires Sound(a, clock) && clock <= now
    ensures AdmitTo(a, write, now).Ok? <==>
            && a.active < MAX_CONCURRENT
            && (write ==>
                  && CountIn(a.writes, now - MINUTE + 1, now + 1) < WRITES_PER_MINUTE
                  && CountIn(a.writes, now - HOUR + 1, now + 1) < WRITES_PER_HOUR)
    ensures a.active >= MAX_CONCURRENT ==> AdmitTo(a, write, now) == Err(1_000_000_000)
    ensures AdmitTo(a, write, now).Ok? ==>
        AdmitTo(a, write, now).value ==
        Account(if write then a.writes + [now] else a.writes, a.active + 1, a.admitted + 1)
  {
    WaitsExactlyWhenFull(a.writes, WRITES_PER_MINUTE, MINUTE, now);
    WaitsExactlyWhenFull(a.writes, WRITES_PER_HOUR, HOUR, now);
  }

  lemma {:induction false} RunOfPrefix(s: State, events: seq<Event>, end: State) returns (before: State)
    requires events != [] && Run(s, events, end)
    ensures var last := events[|events| - 1];
            Run(s, events[..|events| - 1], before) && Allowed(before, last) && end == Next(before, last)
    decreases |events|
  {
    hide Allowed, Next;
    if |events| == 1 {
      before := s;
      assert events[1..] == [] && events[..0] == [];
    } else {
      before := RunOfPrefix(Next(s, events[0]), events[1..], end);
      assert events[1..][..|events| - 2] == events[..|events| - 1][1..];
      assert events[1..][|events| - 2] == events[|events| - 1];
    }
  }

  lemma {:induction false} CountsAppend(events: seq<Event>, e: Event, installation: int)
    ensures ReleaseCount(events + [e], installation) ==
            ReleaseCount(events, installation) + if Releases(e, installation) then 1 else 0
  {
    if events == [] {
      assert [e][1..] == [];
    } else {
      CountsAppend(events[1..], e, installation);
      assert (events + [e])[1..] == events[1..] + [e];
    }
  }

  /** What an installation's account holds once the judged requests are admitted. */
  function AccountFrom(events: seq<Event>, installation: int): Account {
    var judged := Judged(events, installation);
    Account(WriteTimes(judged), |judged| - ReleaseCount(events, installation), |judged|)
  }

  /** The judge of one request more, told from the account of those before it. */
  lemma JudgedAppend(events: seq<Event>, e: Event, installation: int)
    ensures var a, judged := AccountFrom(events, installation), Judged(events, installation);
            Judged(events + [e], installation) ==
            if && e.Admit? && e.installation == installation && a.active < MAX_CONCURRENT
               && (e.write ==>
                     && CountIn(a.writes, e.now - MINUTE + 1, e.now + 1) < WRITES_PER_MINUTE
                     && CountIn(a.writes, e.now - HOUR + 1, e.now + 1) < WRITES_PER_HOUR)
            then judged + [e] else judged
  {
    hide CountIn, WriteTimes;
    assert (events + [e])[..|events|] == events;
  }

  lemma TimesAppend(requests: seq<Event>, e: Event)
    requires e.Admit?
    ensures WriteTimes(requests + [e]) == if e.write then WriteTimes(requests) + [e.now] else WriteTimes(requests)
  {
    assert (requests + [e])[..|requests|] == requests;
    assert WriteTimes(requests) + [] == WriteTimes(requests);
  }

  lemma StepIsJudged(s: State, events: seq<Event>, e: Event, installation: int)
    requires AllSound(s) && Allowed(s, e)
    requires AccountOf(s.accounts, installation) == AccountFrom(events, installation)
    ensures AccountOf(Next(s, e).accounts, installation) == AccountFrom(events + [e], installation)
  {
    hide CountIn, AdmitTo, Sound, Judged, WriteTimes, ReleaseCount, AllSound;
    CountsAppend(events, e, installation);
    JudgedAppend(events, e, installation);
    if e.Admit? && e.installation == installation {
      AccountIsSound(s, installation);
      AdmittedExactly(AccountOf(s.accounts, installation), e.write, s.clock, e.now);
      TimesAppend(Judged(events, installation), e);
    }
  }

  lemma AccountIsSound(s: State, installation: int)
    requires AllSound(s)
    ensures Sound(AccountOf(s.accounts, installation), s.clock)
  {
  }

  /**
  In every run the limiter is its history's judge: the writes an installation is charged for
  are the instants of the requests judged admitted, in order, and its count in flight is
  those requests less every run of a release.
  */
  lemma {:induction false} RunIsJudged(events: seq<Event>, end: State, installation: int)
    requires Run(State(map[], 0), events, end)
    ensures AllSound(end)
    ensures var a, judged := AccountOf(end.accounts, installation), Judged(events, installation);
            && a.writes == WriteTimes(judged)
            && a.active == |judged| - ReleaseCount(events, installation)
            && a.admitted == |judged|
    decreases |events|
  {
    hide AllSound, Judged, ReleaseCount, AdmitTo, Next, Allowed;
    if events == [] {
      NothingJudged(installation);
    } else {
      var init, last := events[..|events| - 1], events[|events| - 1];
      var before := RunOfPrefix(State(map[], 0), events, end);
      RunIsJudged(init, before, installation);
      StepKeepsSound(before, last);
      StepIsJudged(before, init, last, installation);
      assert events == init + [last];
    }
  }

  lemma NothingJudged(installation: int)
    ensures AllSound(State(map[], 0)) && AccountFrom([], installation) == NEW_ACCOUNT
  {
  }

  /** So a request is admitted exactly when the history says it ought to be, and any other is refused. */
  lemma AnswerIsJudged(events: seq<Event>, s: State, installation: int, write: bool, now: int)
    requires Run(State(map[], 0), events, s) && Allowed(s, Event.Admit(installation, write, now))
    ensures var e := Event.Admit(installation, write, now);
            RefusalOf(AdmitTo(AccountOf(s.accounts, installation), write, now)).None? <==>
            Judged(events + [e], installation) == Judged(events, installation) + [e]
  {
    hide AllSound, ReleaseCount, CountIn, AdmitTo, Sound, Judged, WriteTimes;
    RunIsJudged(events, s, installation);
    AccountIsSound(s, installation);
    AdmittedExactly(AccountOf(s.accounts, installation), write, s.clock, now);
    JudgedAppend(events, Event.Admit(installation, write, now), installation);
  }

  // ---- The rings ----------------------------------------------------------

  function NoTimes(n: nat): (s: seq<int>)
    ensures |s| == n && forall i | 0 <= i < n :: s[i] == 0
  {
    seq(n, _ => 0)
  }

  /** A ring's slots from its oldest on. */
  function FromOldest(slots: seq<int>, next: nat): (r: seq<int>)
    requires next < |slots|
    ensures |r| == |slots| && r[0] == slots[next]
  {
    slots[next..] + slots[..next]
  }

  /** The last limit entries of a log, after slots nothing was spent in. */
  function LastOf(log: seq<int>, limit: nat): (r: seq<int>)
    ensures |r| == limit
    ensures limit > 0 ==> r[0] == if |log| < limit then 0 else log[|log| - limit]
  {
    (NoTimes(limit) + log)[|log|..]
  }

  lemma RingTurns(slots: seq<int>, next: nat, now: int)
    requires next < |slots|
    ensures FromOldest(slots[next := now], (next + 1) % |slots|) == FromOldest(slots, next)[1..] + [now]
  {
    if next + 1 < |slots| {
      assert (next + 1) % |slots| == next + 1;
    } else {
      assert (next + 1) % |slots| == 0;
    }
  }

  lemma LogGrows(log: seq<int>, limit: nat, now: int)
    requires limit > 0
    ensures LastOf(log + [now], limit) == LastOf(log, limit)[1..] + [now]
  {
    assert NoTimes(limit) + (log + [now]) == (NoTimes(limit) + log) + [now];
  }

  class Bucket {
    const period: int
    const spent: array<int>
    var next: nat
    ghost var log: seq<int>

    /** The ring holds the tail of the log. */
    ghost predicate Valid()
      reads this, spent
    {
      && spent.Length > 0 && next < spent.Length
      && FromOldest(spent[..], next) == LastOf(log, spent.Length)
      && forall i | 0 <= i < |log| :: log[i] > 0
    }

    constructor (limit: nat, period: int)
      requires limit > 0
      ensures Valid() && fresh(spent) && spent.Length == limit && this.period == period && log == []
    {
      this.period := period;
      spent := new int[limit](_ => 0);
      next := 0;
      log := [];
    }

    /** The wait the whole log gives, read off one slot of the ring. */
    method Wait(now: int) returns (wait: int)
      requires Valid()
      ensures wait == WaitFor(log, spent.Length, period, now)
    {
      var oldest := spent[next];
      assert oldest == FromOldest(spent[..], next)[0] == LastOf(log, spent.Length)[0];
      if oldest == 0 {
        return 0;
      }
      wait := oldest + period - now;
      if wait < 0 {
        wait := 0;
      }
    }

    method Take(now: int)
      requires Valid() && now > 0
      modifies this, spent
      ensures Valid() && log == old(log) + [now]
    {
      ghost var slots, was, place := spent[..], log, next;
      RingTurns(slots, place, now);
      LogGrows(was, spent.Length, now);
      spent[next] := now;
      next := (next + 1) % spent.Length;
      log := log + [now];
      assert spent[..] == slots[place := now];
    }
  }

  function RefusalOf(answer: Result<Account, int>): Option<int> {
    match answer
    case Err(wait) => Some(wait)
    case Ok(_) => None
  }

  /** Opening an account changes nothing an admission sees. */
  lemma NextAfterOpening(s: State, after: State, installation: int, write: bool, now: int)
    requires 0 < now && s.clock <= now
    requires after == State(s.accounts[installation := AccountOf(s.accounts, installation)], s.clock)
    ensures Next(after, Event.Admit(installation, write, now)) == Next(s, Event.Admit(installation, write, now))
    ensures AccountOf(after.accounts, installation) == AccountOf(s.accounts, installation)
  {
    hide AdmitTo;
  }

  class Quota {
    const minute: Bucket
    const hour: Bucket
    var active: int
    ghost var admitted: nat
    ghost const Repr: set<object>

    ghost predicate Valid()
      reads this, Repr
      ensures Valid() ==> this in Repr && minute in Repr
    {
      && Repr == {this, minute, minute.spent, hour, hour.spent}
      && minute != hour && minute.spent != hour.spent
      && minute.Valid() && minute.spent.Length == WRITES_PER_MINUTE && minute.period == MINUTE
      && hour.Valid() && hour.spent.Length == WRITES_PER_HOUR && hour.period == HOUR
      && minute.log == hour.log
    }

    /** The writes both rings stand in for, and the requests in flight and ever admitted. */
    ghost function Holds(): Account
      reads this, minute
    {
      Account(minute.log, active, admitted)
    }

    constructor ()
      ensures Valid() && fresh(Repr) && Holds() == NEW_ACCOUNT
    {
      var perMinute := new Bucket(WRITES_PER_MINUTE, MINUTE);
      var perHour := new Bucket(WRITES_PER_HOUR, HOUR);
      minute, hour, active, admitted := perMinute, perHour, 0, 0;
      Repr := {this, perMinute, perMinute.spent, perHour, perHour.spent};
    }

    /** Admit's steps once it holds the installation's state: the wait of a refusal, or None. */
    method Admit(write: bool, now: int) returns (refused: Option<int>)
      requires Valid() && now > 0
      modifies Repr
      ensures Valid()
      ensures match AdmitTo(old(Holds()), write, now)
              case Err(wait) => refused == Some(wait) && Holds() == old(Holds())
              case Ok(a) => refused == None && Holds() == a
    {
      if active >= MAX_CONCURRENT {
        return Some(CONCURRENT_WAIT);
      }
      if write {
        var minuteWait := minute.Wait(now);
        var hourWait := hour.Wait(now);
        var wait := Max(minuteWait, hourWait);
        if wait > 0 {
          return Some(wait);
        }
        minute.Take(now);
        hour.Take(now);
      }
      active := active + 1;
      admitted := admitted + 1;
      return None;
    }

    method Release()
      requires Valid()
      modifies this`active
      ensures Valid() && Holds() == ReleaseFrom(old(Holds()))
    {
      active := active - 1;
    }
  }

  class Limiter {
    var installations: map<int, Quota>
    ghost var state: State
    ghost var Repr: set<object>

    ghost predicate Owns(id: int)
      requires id in installations
      reads this, Repr
    {
      var quota := installations[id];
      quota in Repr && quota.Repr <= Repr && this !in quota.Repr && quota.Valid()
    }

    ghost predicate Valid()
      reads this, Repr
    {
      && this in Repr
      && (forall id | id in installations :: Owns(id))
      && (forall a, b | a in installations && b in installations && a != b ::
            installations[a].Repr !! installations[b].Repr)
      && state.accounts.Keys == installations.Keys
      && (forall id | id in installations :: Owns(id) && installations[id].Holds() == state.accounts[id])
      && AllSound(state)
    }

    constructor ()
      ensures Valid() && fresh(Repr) && state == State(map[], 0)
    {
      installations := map[];
      state := State(map[], 0);
      Repr := {this};
    }

    /** An installation's state, opened when it has none. */
    method Open(installation: int) returns (quota: Quota)
      requires Valid()
      modifies this
      ensures Valid() && fresh(Repr - old(Repr))
      ensures installation in installations && installations[installation] == quota
      ensures state.clock == old(state).clock
      ensures state.accounts == old(state).accounts[installation := AccountOf(old(state).accounts, installation)]
    {
      hide Quota.Valid, Bucket.Valid;
      if installation !in installations {
        quota := new Quota();
        installations := installations[installation := quota];
        state := State(state.accounts[installation := NEW_ACCOUNT], state.clock);
        Repr := Repr + quota.Repr;
      }
      quota := installations[installation];
    }

    /** Admit's steps on an installation that has a state. */
    method AdmitOpened(installation: int, write: bool, now: int) returns (refused: Option<int>)
      requires Valid() && 0 < now && state.clock <= now && installation in installations
      modifies Repr
      ensures Valid() && Repr == old(Repr)
      ensures state == Next(old(state), Event.Admit(installation, write, now))
      ensures refused == RefusalOf(AdmitTo(old(state).accounts[installation], write, now))
    {
      hide Quota.Valid, Bucket.Valid, AllSound, AdmitTo;
      StepKeepsSound(state, Event.Admit(installation, write, now));
      ghost var next := Next(state, Event.Admit(installation, write, now));
      var quota := installations[installation];
      refused := quota.Admit(write, now);
      state := next;
    }

    /** Claims a place for one request: None, or the wait of a refusal, which takes nothing. */
    method Admit(installation: int, write: bool, now: int) returns (refused: Option<int>)
      requires Valid() && 0 < now && state.clock <= now
      modifies Repr
      ensures Valid() && fresh(Repr - old(Repr))
      ensures state == Next(old(state), Event.Admit(installation, write, now))
      ensures refused == RefusalOf(AdmitTo(AccountOf(old(state).accounts, installation), write, now))
    {
      hide Quota.Valid, Bucket.Valid, AllSound, AdmitTo, Limiter.Valid;
      ghost var before := state;
      OwnRepr();
      var _ := Open(installation);
      NextAfterOpening(before, state, installation, write, now);
      assert AccountOf(state.accounts, installation) == state.accounts[installation];
      refused := AdmitOpened(installation, write, now);
    }

    lemma OwnRepr()
      requires Valid()
      ensures this in Repr
    {
    }

    /** One run of the release that an admitted request, by number, was given. */
    method Release(installation: int, ghost request: nat)
      requires Valid() && request < AccountOf(state.accounts, installation).admitted
      modifies Repr
      ensures Valid() && Repr == old(Repr)
      ensures state == Next(old(state), Event.Release(installation, request))
    {
      hide Quota.Valid, Bucket.Valid, AllSound;
      StepKeepsSound(state, Event.Release(installation, request));
      ghost var next := Next(state, Event.Release(installation, request));
      var quota := installations[installation];
      quota.Release();
      state := next;
    }
  }
}
