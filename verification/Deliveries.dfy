/**
The claims on webhook deliveries (internal/scm/webhook.go): a pruned queue and a set
that stand in for the log of every accepted claim. Times are nanoseconds.
*/
module Deliveries {
  const RETENTION: int := 72 * 3_600_000_000_000
  const HOUR: int := 3_600_000_000_000

  /** An accepted claim, and whether its id was released since. */
  datatype Accepted = Accepted(delivery: string, at: int, released: bool)

  datatype Claimed = Claimed(delivery: string, at: int)

  ghost predicate Ordered(log: seq<Accepted>, clock: int) {
    && (forall i, j | 0 <= i < j < |log| :: log[i].at <= log[j].at)
    && (forall i | 0 <= i < |log| :: log[i].at <= clock)
  }

  /** The claim is not released and lies within the retention. */
  ghost predicate Live(log: seq<Accepted>, k: nat, now: int) {
    k < |log| && !log[k].released && now - log[k].at <= RETENTION
  }

  /** An earlier claim of the id, made within the retention before this one, has expired. */
  ghost predicate Shadowed(log: seq<Accepted>, k: nat, now: int)
    requires k < |log|
  {
    exists j | 0 <= j < k :: log[j].delivery == log[k].delivery
                             && log[k].at - log[j].at <= RETENTION < now - log[j].at
  }

  /** The store holds an id for this claim: its own entry is live, and no earlier entry's expiry took the id away. */
  ghost predicate Held(log: seq<Accepted>, k: nat, now: int) {
    Live(log, k, now) && !Shadowed(log, k, now)
  }

  ghost predicate IsHeld(log: seq<Accepted>, delivery: string, now: int) {
    exists k: nat :: Held(log, k, now) && log[k].delivery == delivery
  }

  /** What a store that kept the whole log would answer. */
  ghost predicate IsLive(log: seq<Accepted>, delivery: string, now: int) {
    exists k: nat :: Live(log, k, now) && log[k].delivery == delivery
  }

  ghost predicate NeverReleased(log: seq<Accepted>, delivery: string) {
    forall k | 0 <= k < |log| && log[k].delivery == delivery :: !log[k].released
  }

  /** An id that was never released has no two accepted claims within the retention. */
  ghost predicate Apart(log: seq<Accepted>) {
    forall j, k | 0 <= j < k < |log| && log[j].delivery == log[k].delivery && NeverReleased(log, log[k].delivery) ::
      log[k].at - log[j].at > RETENTION
  }

  function ReleaseIn(log: seq<Accepted>, delivery: string): (r: seq<Accepted>)
    ensures |r| == |log|
  {
    seq(|log|, i requires 0 <= i < |log| =>
      if log[i].delivery == delivery then Accepted(delivery, log[i].at, true) else log[i])
  }

  /** For an id never released, the store answers as the whole log would. */
  lemma HeldIsLive(log: seq<Accepted>, delivery: string, now: int)
    requires Apart(log) && NeverReleased(log, delivery)
    ensures IsHeld(log, delivery, now) <==> IsLive(log, delivery, now)
  {
    if IsLive(log, delivery, now) {
      var k: nat :| Live(log, k, now) && log[k].delivery == delivery;
      assert Held(log, k, now);
    }
  }

  /**
  The store forgets a live claim exactly when every live claim of the id follows, within
  the retention, one that has expired.
  */
  lemma ForgetsExactlyTheShadowed(log: seq<Accepted>, delivery: string, now: int)
    ensures (IsHeld(log, delivery, now) <==> IsLive(log, delivery, now)) <==>
            !(IsLive(log, delivery, now)
              && forall k: nat :: Live(log, k, now) && log[k].delivery == delivery ==> Shadowed(log, k, now))
  {
    if IsLive(log, delivery, now)
       && !forall k: nat :: Live(log, k, now) && log[k].delivery == delivery ==> Shadowed(log, k, now) {
      var k: nat :| Live(log, k, now) && log[k].delivery == delivery && !Shadowed(log, k, now);
      assert Held(log, k, now);
    }
  }

  // ---- What each operation does to the log --------------------------------

  /** Expiry from one clock to a later one takes away exactly the ids whose claims leave the queue. */
  lemma PruneKeepsHeld(log: seq<Accepted>, clock: int, now: int, base: nat, kept: nat, delivery: string)
    requires clock <= now && base <= kept <= |log| && Ordered(log, clock)
    requires ExpiredBefore(log, base, clock) && ExpiredBefore(log, kept, now)
    ensures IsHeld(log, delivery, now) <==>
            IsHeld(log, delivery, clock) && forall k | base <= k < kept :: log[k].delivery != delivery
  {
    if IsHeld(log, delivery, now) {
      var k: nat :| Held(log, k, now) && log[k].delivery == delivery;
      assert Held(log, k, clock);
      forall j | base <= j < kept
        ensures log[j].delivery != delivery
      {
        assert j < k && log[k].at - log[j].at <= RETENTION < now - log[j].at;
      }
    }
    if IsHeld(log, delivery, clock) && forall k | base <= k < kept :: log[k].delivery != delivery {
      var k: nat :| Held(log, k, clock) && log[k].delivery == delivery;
      assert k >= base;
      assert Held(log, k, now);
    }
  }

  lemma AcceptHolds(log: seq<Accepted>, delivery: string, now: int)
    requires Ordered(log, now) && Apart(log) && !IsHeld(log, delivery, now)
    ensures var next := log + [Accepted(delivery, now, false)];
            && Ordered(next, now) && Apart(next)
            && forall other: string :: IsHeld(next, other, now) <==> other == delivery || IsHeld(log, other, now)
  {
    var next := log + [Accepted(delivery, now, false)];
    assert Held(next, |log|, now);
    forall other: string
      ensures IsHeld(next, other, now) <==> other == delivery || IsHeld(log, other, now)
    {
      if IsHeld(log, other, now) {
        var k: nat :| Held(log, k, now) && log[k].delivery == other;
        assert Held(next, k, now);
      }
      if IsHeld(next, other, now) && other != delivery {
        var k: nat :| Held(next, k, now) && next[k].delivery == other;
        StillShadowed(log, next, k, now);
        assert Held(log, k, now);
      }
    }
    AcceptKeepsApart(log, delivery, now);
  }

  lemma StillShadowed(log: seq<Accepted>, next: seq<Accepted>, k: nat, now: int)
    requires log <= next && k < |log|
    ensures Shadowed(log, k, now) <==> Shadowed(next, k, now)
  {
    if Shadowed(log, k, now) {
      var j :| 0 <= j < k && log[j].delivery == log[k].delivery && log[k].at - log[j].at <= RETENTION < now - log[j].at;
      assert next[j] == log[j];
    }
    if Shadowed(next, k, now) {
      var j :| 0 <= j < k && next[j].delivery == next[k].delivery
          && next[k].at - next[j].at <= RETENTION < now - next[j].at;
      assert next[j] == log[j];
    }
  }

  lemma AcceptKeepsApart(log: seq<Accepted>, delivery: string, now: int)
    requires Ordered(log, now) && Apart(log) && !IsHeld(log, delivery, now)
    ensures Apart(log + [Accepted(delivery, now, false)])
  {
    var next := log + [Accepted(delivery, now, false)];
    forall j, k | 0 <= j < k < |next| && next[j].delivery == next[k].delivery && NeverReleased(next, next[k].delivery)
      ensures next[k].at - next[j].at > RETENTION
    {
      assert NeverReleased(log, next[k].delivery) by {
        assert forall i | 0 <= i < |log| :: next[i] == log[i];
      }
      if k == |log| {
        HeldIsLive(log, delivery, now);
        assert !Live(log, j, now) && !log[j].released;
      }
    }
  }

  lemma ReleaseKeepsApart(log: seq<Accepted>, delivery: string)
    requires Apart(log)
    ensures Apart(ReleaseIn(log, delivery))
  {
    var next := ReleaseIn(log, delivery);
    forall j, k | 0 <= j < k < |next| && next[j].delivery == next[k].delivery && NeverReleased(next, next[k].delivery)
      ensures next[k].at - next[j].at > RETENTION
    {
      assert next[k].delivery != delivery;
      forall i | 0 <= i < |log| && log[i].delivery == log[k].delivery
        ensures !log[i].released
      {
        assert next[i] == log[i];
      }
    }
  }

  lemma ReleaseHolds(log: seq<Accepted>, delivery: string, now: int, other: string)
    ensures IsHeld(ReleaseIn(log, delivery), other, now) <==> other != delivery && IsHeld(log, other, now)
  {
    hide Shadowed;
    var next := ReleaseIn(log, delivery);
    if IsHeld(next, other, now) {
      var k: nat :| Held(next, k, now) && next[k].delivery == other;
      SameShadow(log, next, k, now);
      assert Held(log, k, now);
    }
    if other != delivery && IsHeld(log, other, now) {
      var k: nat :| Held(log, k, now) && log[k].delivery == other;
      SameShadow(log, next, k, now);
      assert Held(next, k, now);
    }
  }

  lemma SameShadow(log: seq<Accepted>, next: seq<Accepted>, k: nat, now: int)
    requires |log| == |next| && k < |log|
    requires forall i | 0 <= i < |log| :: next[i].delivery == log[i].delivery && next[i].at == log[i].at
    ensures Shadowed(log, k, now) <==> Shadowed(next, k, now)
  {
    if Shadowed(log, k, now) {
      var j :| 0 <= j < k && log[j].delivery == log[k].delivery && log[k].at - log[j].at <= RETENTION < now - log[j].at;
      assert next[j].delivery == next[k].delivery;
    }
    if Shadowed(next, k, now) {
      var j :| 0 <= j < k && next[j].delivery == next[k].delivery
          && next[k].at - next[j].at <= RETENTION < now - next[j].at;
      assert log[j].delivery == log[k].delivery;
    }
  }

  /** The queue is the tail of the log. */
  ghost predicate IsTail(claims: seq<Claimed>, log: seq<Accepted>) {
    && |claims| <= |log|
    && forall k | 0 <= k < |claims| ::
         claims[k] == Claimed(log[|log| - |claims| + k].delivery, log[|log| - |claims| + k].at)
  }

  /** Claims before base have expired, and no other has. */
  ghost predicate ExpiredBefore(log: seq<Accepted>, base: int, now: int) {
    forall k | 0 <= k < |log| :: k < base <==> now - log[k].at > RETENTION
  }

  lemma ExpiryStops(claims: seq<Claimed>, log: seq<Accepted>, clock: int, now: int, expired: nat)
    requires IsTail(claims, log) && Ordered(log, clock) && expired <= |claims|
    requires forall k | 0 <= k < |log| - |claims| + expired :: now - log[k].at > RETENTION
    requires expired < |claims| ==> now - claims[expired].at <= RETENTION
    ensures ExpiredBefore(log, |log| - |claims| + expired, now)
    ensures IsTail(claims[expired..], log)
  {
    if expired < |claims| {
      var stop := |log| - |claims| + expired;
      assert claims[expired].at == log[stop].at;
      assert forall k | stop < k < |log| :: log[stop].at <= log[k].at;
    }
  }

  // ---- The store ----------------------------------------------------------

  class MemoryDeliveries {
    var seen: set<string>
    var claims: seq<Claimed>
    ghost var log: seq<Accepted>
    ghost var clock: int

    ghost predicate Valid()
      reads this
    {
      && Ordered(log, clock) && Apart(log) && IsTail(claims, log)
      && ExpiredBefore(log, |log| - |claims|, clock)
      && (forall delivery: string :: delivery in seen <==> IsHeld(log, delivery, clock))
    }

    constructor ()
      ensures Valid() && log == [] && clock == 0
    {
      seen, claims, log, clock := {}, [], [], 0;
    }

    /** The loop over the expired head of the queue. */
    method Expire(now: int) returns (expired: nat)
      requires IsTail(claims, log)
      requires forall k | 0 <= k < |log| - |claims| :: now - log[k].at > RETENTION
      modifies this`seen
      ensures expired <= |claims|
      ensures expired < |claims| ==> now - claims[expired].at <= RETENTION
      ensures forall k | 0 <= k < |log| - |claims| + expired :: now - log[k].at > RETENTION
      ensures forall delivery: string :: delivery in seen <==>
          delivery in old(seen) && forall k | |log| - |claims| <= k < |log| - |claims| + expired ::
              log[k].delivery != delivery
    {
      ghost var base := |log| - |claims|;
      expired := 0;
      while expired < |claims| && now - claims[expired].at > RETENTION
        invariant expired <= |claims|
        invariant forall k | 0 <= k < base + expired :: now - log[k].at > RETENTION
        invariant forall delivery: string :: delivery in seen <==>
            delivery in old(seen) && forall k | base <= k < base + expired :: log[k].delivery != delivery
      {
        assert claims[expired] == Claimed(log[base + expired].delivery, log[base + expired].at);
        seen := seen - {claims[expired].delivery};
        expired := expired + 1;
      }
    }

    /** Drops what has expired, and the ids it named. */
    method Prune(now: int)
      requires Valid() && clock <= now
      modifies this`seen, this`claims, this`clock
      ensures Valid() && clock == now
    {
      hide IsHeld, Apart;
      ghost var base := |log| - |claims|;
      var expired := Expire(now);
      ExpiryStops(claims, log, clock, now, expired);
      forall delivery: string
        ensures delivery in seen <==> IsHeld(log, delivery, now)
      {
        PruneKeepsHeld(log, clock, now, base, base + expired, delivery);
      }
      claims := claims[expired..];
      clock := now;
    }

    /** Claims an id: true when it is not held. */
    method Claim(delivery: string, now: int) returns (first: bool)
      requires Valid() && clock <= now
      modifies this
      ensures Valid() && clock == now
      ensures first <==> !IsHeld(old(log), delivery, now)
      ensures NeverReleased(old(log), delivery) ==> (first <==> !IsLive(old(log), delivery, now))
      ensures log == if first then old(log) + [Accepted(delivery, now, false)] else old(log)
      ensures forall k | 0 <= k < |claims| :: now - claims[k].at <= RETENTION
    {
      hide IsHeld, IsLive, Apart, NeverReleased;
      Prune(now);
      ClaimAgrees(log, delivery, now);
      if delivery in seen {
        return false;
      }
      AcceptHolds(log, delivery, now);
      seen := seen + {delivery};
      claims := claims + [Claimed(delivery, now)];
      log := log + [Accepted(delivery, now, false)];
      return true;
    }

    /** The id is no longer held, though the queue goes on naming it. */
    method Release(delivery: string)
      requires Valid()
      modifies this`seen, this`log
      ensures Valid() && log == ReleaseIn(old(log), delivery)
      ensures delivery !in seen
    {
      hide IsHeld, Apart;
      ReleaseKeepsApart(log, delivery);
      forall other: string
        ensures IsHeld(ReleaseIn(log, delivery), other, clock) <==> other != delivery && IsHeld(log, other, clock)
      {
        ReleaseHolds(log, delivery, clock, other);
      }
      seen := seen - {delivery};
      log := ReleaseIn(log, delivery);
    }
  }

  lemma ClaimAgrees(log: seq<Accepted>, delivery: string, now: int)
    requires Apart(log)
    ensures NeverReleased(log, delivery) ==> (IsHeld(log, delivery, now) <==> IsLive(log, delivery, now))
  {
    if NeverReleased(log, delivery) {
      HeldIsLive(log, delivery, now);
    }
  }

  // ---- A released id ------------------------------------------------------

  /**
  Release leaves the id's queue entry behind, so its expiry takes away a later claim
  of the id as well: claimed, released, and claimed again an hour on, the id is
  forgotten an hour before its second claim's retention ends.
  */
  lemma ReleasedIdIsForgotten()
    ensures var log := [Accepted("d", 1, true), Accepted("d", HOUR + 1, false)];
            IsLive(log, "d", RETENTION + 2) && !IsHeld(log, "d", RETENTION + 2)
  {
    var log := [Accepted("d", 1, true), Accepted("d", HOUR + 1, false)];
    assert Live(log, 1, RETENTION + 2);
    assert log[0].delivery == log[1].delivery;
    assert Shadowed(log, 1, RETENTION + 2);
  }

  /** The same on the store: the third claim is answered as the id's first. */
  method ReclaimAfterRelease() returns (second: bool, third: bool)
    ensures second && third
  {
    hide IsHeld, IsLive, Apart, MemoryDeliveries.Valid;
    var store := new MemoryDeliveries();
    NothingHeld("d", 1);
    var _ := store.Claim("d", 1);
    store.Release("d");
    assert store.log == [Accepted("d", 1, true)];
    NothingHeldReleased("d", 1, HOUR + 1);
    second := store.Claim("d", HOUR + 1);
    assert store.log == [Accepted("d", 1, true), Accepted("d", HOUR + 1, false)];
    ReleasedIdIsForgotten();
    third := store.Claim("d", RETENTION + 2);
  }

  lemma NothingHeld(delivery: string, now: int)
    ensures !IsHeld([], delivery, now)
  {
  }

  lemma NothingHeldReleased(delivery: string, at: int, now: int)
    ensures !IsHeld([Accepted(delivery, at, true)], delivery, now)
  {
  }

  // ---- enqueue ------------------------------------------------------------

  /** A queue that holds size events; an event is named by its delivery here. */
  class Queue {
    const size: nat
    var events: seq<string>

    constructor (size: nat)
      ensures this.size == size && events == []
    {
      this.size, events := size, [];
    }

    /** An event joins the queue exactly when there is room. */
    method Offer(event: string) returns (fit: bool)
      modifies this
      ensures fit <==> |old(events)| < size
      ensures events == if fit then old(events) + [event] else old(events)
    {
      fit := |events| < size;
      if fit {
        events := events + [event];
      }
    }
  }

  datatype Status = Queued | Repeated | Unavailable

  /**
  enqueue: a delivery claimed in the retention is not queued again, and one that does
  not fit gives up its claim, so a redelivery is taken.
  */
  method Enqueue(store: MemoryDeliveries, queue: Queue, delivery: string, now: int) returns (status: Status)
    requires store.Valid() && store.clock <= now
    modifies store, queue
    ensures store.Valid() && store.clock == now
    ensures status == Repeated <==> IsHeld(old(store.log), delivery, now)
    ensures queue.events == if status == Queued then old(queue.events) + [delivery] else old(queue.events)
    ensures status == Queued <==> !IsHeld(old(store.log), delivery, now) && |old(queue.events)| < queue.size
    ensures status == Repeated ==> store.log == old(store.log)
    ensures status == Queued ==> store.log == old(store.log) + [Accepted(delivery, now, false)]
    ensures status == Unavailable ==>
        store.log == ReleaseIn(old(store.log) + [Accepted(delivery, now, false)], delivery)
    ensures status == Unavailable ==>
        |old(queue.events)| >= queue.size && delivery !in store.seen && !IsHeld(store.log, delivery, now)
  {
    var first := store.Claim(delivery, now);
    if !first {
      return Repeated;
    }
    var fit := queue.Offer(delivery);
    if fit {
      return Queued;
    }
    store.Release(delivery);
    return Unavailable;
  }
}
