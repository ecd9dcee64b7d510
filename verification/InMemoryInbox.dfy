/**
 * The process-local inbox (src/shared/events/in-memory-inbox.ts). Its map of maps from consumer to event ID is one map
 * from (event ID, consumer) here; `known` holds the consumers that have an inner map, empty ones included.
 */
module InMemoryInbox {
  import opened Prelude
  import opened Ids
  import opened Events
  import opened Retry
  import B = Book

  datatype State = Pending | Processed | DeadLetter

  datatype Receipt = Receipt(state: State, attempts: int, availableAt: int, leased: bool, sequence: nat)

  /** An envelope by its bytes: unlike PostgreSQL, this inbox compares those. */
  datatype Event = Event(id: ID, bytes: string)

  type Receipts = map<B.Key, Receipt>

  datatype Delivery = Delivery(id: ID, attempt: int, outcome: B.Slot)

  function SlotOf(r: Receipt): B.Slot {
    match r.state
    case Pending => if r.leased then B.Held(r.attempts) else B.Waiting(r.attempts, r.availableAt)
    case Processed => B.Done(r.attempts)
    case DeadLetter => B.Dead(r.attempts)
  }

  /** The receipt book the receipts stand for. */
  function BookOf(receipts: Receipts): B.Slots { map k | k in receipts :: SlotOf(receipts[k]) }

  predicate IsDue(r: Receipt, now: int) { r.state.Pending? && !r.leased && r.availableAt <= now }

  predicate Sooner(a: Receipt, b: Receipt) {
    a.availableAt < b.availableAt || (a.availableAt == b.availableAt && a.sequence < b.sequence)
  }

  /** The consumer's due receipt before all its other due ones, by (availableAt, sequence). */
  ghost predicate First(receipts: Receipts, consumer: string, now: int, k: B.Key) {
    && k in receipts && k.1 == consumer && IsDue(receipts[k], now)
    && forall other | other in receipts && other.1 == consumer && other != k && IsDue(receipts[other], now) ::
         Sooner(receipts[k], receipts[other])
  }

  /** Receipts belong to stored events, carry distinct sequence numbers, and are leased only while pending. */
  ghost predicate Fit(events: map<ID, Event>, receipts: Receipts, sequence: nat) {
    && (forall k | k in receipts ::
          && k.0 in events && receipts[k].sequence < sequence
          && (receipts[k].leased ==> receipts[k].state.Pending?))
    && (forall a, b | a in receipts && b in receipts && a != b :: receipts[a].sequence != receipts[b].sequence)
  }

  /** How many consumers `accept` gets to: all of them, or those before the first invalid name. */
  function Reached(consumers: seq<string>): (n: nat)
    ensures n <= |consumers| && (forall i | 0 <= i < n :: IsConsumer(consumers[i]))
    ensures n < |consumers| ==> !IsConsumer(consumers[n])
  {
    if consumers == [] || !IsConsumer(consumers[0]) then 0 else 1 + Reached(consumers[1..])
  }

  function Fresh(slots: B.Slots, id: ID, consumers: seq<string>): set<B.Key> {
    set c | c in consumers && (id, c) !in slots :: (id, c)
  }

  /** When `clock` is read for each of these receipts. */
  function DueAt(keys: set<B.Key>, clock: B.Key -> int): map<B.Key, int> { map k | k in keys :: clock(k) }

  function Waits(keys: set<B.Key>, clock: B.Key -> int): B.Slots { map k | k in keys :: B.Waiting(0, clock(k)) }

  function OpenedBook(slots: B.Slots, id: ID, consumers: seq<string>, clock: B.Key -> int): B.Slots {
    slots + Waits(Fresh(slots, id, consumers), clock)
  }

  lemma FreshNext(slots: B.Slots, id: ID, consumers: seq<string>, i: nat)
    requires i < |consumers|
    ensures
      var before, key := Fresh(slots, id, consumers[..i]), (id, consumers[i]);
      Fresh(slots, id, consumers[..i + 1]) == if key in slots then before else before + {key}
  {
    assert consumers[..i + 1] == consumers[..i] + [consumers[i]];
  }

  lemma OpenedNext(slots: B.Slots, id: ID, consumers: seq<string>, i: nat, clock: B.Key -> int)
    requires i < |consumers|
    ensures
      var book, key := OpenedBook(slots, id, consumers[..i], clock), (id, consumers[i]);
      OpenedBook(slots, id, consumers[..i + 1], clock) == if key in book then book else book[key := B.Waiting(0, clock(key))]
  {
    FreshNext(slots, id, consumers, i);
    WaitsMore(slots, Fresh(slots, id, consumers[..i]), (id, consumers[i]), clock);
  }

  lemma WaitsMore(slots: B.Slots, keys: set<B.Key>, key: B.Key, clock: B.Key -> int)
    ensures key !in slots ==> slots + Waits(keys + {key}, clock) == (slots + Waits(keys, clock))[key := B.Waiting(0, clock(key))]
    ensures key in keys ==> keys + {key} == keys
    ensures key in slots + Waits(keys, clock) <==> key in slots || key in keys
  {
  }

  lemma OpenedIsStep(slots: B.Slots, id: ID, consumers: seq<string>, clock: B.Key -> int)
    ensures var step := B.Open(DueAt(Fresh(slots, id, consumers), clock));
      B.Enabled(slots, step) && OpenedBook(slots, id, consumers, clock) == B.Next(slots, step)
  {
  }

  lemma BookOfWrite(receipts: Receipts, k: B.Key, r: Receipt)
    ensures BookOf(receipts[k := r]) == BookOf(receipts)[k := SlotOf(r)]
  {
  }

  function Revived(receipts: Receipts, back: set<B.Key>, clock: B.Key -> int): Receipts {
    map k | k in receipts ::
      if k in back then receipts[k].(state := Pending, attempts := 0, availableAt := clock(k)) else receipts[k]
  }

  function DeadSlots(slots: B.Slots, consumer: string, eventId: Option<ID>): set<B.Key> {
    set k | k in slots && k.1 == consumer && slots[k].Dead? && (eventId.None? || k.0 == eventId.value)
  }

  lemma DeadMatch(receipts: Receipts, consumer: string, eventId: Option<ID>)
    ensures DeadSlots(BookOf(receipts), consumer, eventId)
         == set k | k in receipts && k.1 == consumer && receipts[k].state.DeadLetter? && (eventId.None? || k.0 == eventId.value)
  {
  }

  lemma RevivedFits(events: map<ID, Event>, receipts: Receipts, sequence: nat, back: set<B.Key>, clock: B.Key -> int)
    requires Fit(events, receipts, sequence) && forall k | k in back && k in receipts :: !receipts[k].leased
    ensures Fit(events, Revived(receipts, back, clock), sequence)
  {
  }

  lemma RevivedIsStep(receipts: Receipts, back: set<B.Key>, clock: B.Key -> int)
    requires back <= receipts.Keys
    requires forall k | k in back :: receipts[k].state.DeadLetter? && !receipts[k].leased
    ensures B.Enabled(BookOf(receipts), B.Requeue(DueAt(back, clock)))
    ensures BookOf(Revived(receipts, back, clock)) == B.Next(BookOf(receipts), B.Requeue(DueAt(back, clock)))
  {
    var due := DueAt(back, clock);
    assert due.Keys == back;
    var book, next := BookOf(Revived(receipts, back, clock)), B.Next(BookOf(receipts), B.Requeue(due));
    forall k | k in receipts ensures book[k] == next[k] {
      if k in back { assert SlotOf(Revived(receipts, back, clock)[k]) == B.Waiting(0, clock(k)); }
    }
    assert book.Keys == next.Keys;
  }

  /** What requeueing a consumer's dead receipts does to the book. */
  ghost predicate RequeueOutcome(was: Receipts, consumer: string, eventId: Option<ID>, clock: B.Key -> int, count: nat,
                                 receipts: Receipts)
  {
    var slots := BookOf(was);
    var back := DeadSlots(slots, consumer, eventId);
    && B.Enabled(slots, B.Requeue(DueAt(back, clock))) && BookOf(receipts) == B.Next(slots, B.Requeue(DueAt(back, clock)))
    && count == |back|
  }

  lemma RequeueIs(events: map<ID, Event>, receipts: Receipts, sequence: nat, consumer: string, eventId: Option<ID>,
                  back: set<B.Key>, clock: B.Key -> int)
    requires Fit(events, receipts, sequence)
    requires back == set k | k in receipts && k.1 == consumer && receipts[k].state.DeadLetter? && (eventId.None? || k.0 == eventId.value)
    ensures Fit(events, Revived(receipts, back, clock), sequence)
    ensures RequeueOutcome(receipts, consumer, eventId, clock, |back|, Revived(receipts, back, clock))
    ensures KeepsPlaces(receipts, Revived(receipts, back, clock))
  {
    DeadMatch(receipts, consumer, eventId);
    RevivedFits(events, receipts, sequence, back, clock);
    RevivedIsStep(receipts, back, clock);
    RevivedKeepsPlaces(receipts, back, clock);
  }

  function Leased(r: Receipt): Receipt { r.(leased := true, attempts := r.attempts + 1) }

  lemma LeasedIsStep(events: map<ID, Event>, receipts: Receipts, sequence: nat, key: B.Key, now: int)
    requires Fit(events, receipts, sequence) && key in receipts && IsDue(receipts[key], now)
    ensures Fit(events, receipts[key := Leased(receipts[key])], sequence)
    ensures B.Enabled(BookOf(receipts), B.Lease(key, now))
    ensures BookOf(receipts[key := Leased(receipts[key])]) == B.Next(BookOf(receipts), B.Lease(key, now))
  {
    BookOfWrite(receipts, key, Leased(receipts[key]));
  }

  lemma SettledIsStep(events: map<ID, Event>, receipts: Receipts, sequence: nat, key: B.Key, r: Receipt,
                      error: Outcome, policy: Policy, random: real, now: int)
    requires Fit(events, receipts, sequence) && key in receipts && receipts[key].leased
    requires r.sequence == receipts[key].sequence && !r.leased
    requires SlotOf(r) == B.Settled(receipts[key].attempts, error, policy, random, now)
    ensures Fit(events, receipts[key := r], sequence)
    ensures var step := B.Settle(key, error, policy, random, now);
      B.Enabled(BookOf(receipts), step) && BookOf(receipts[key := r]) == B.Next(BookOf(receipts), step)
  {
    BookOfWrite(receipts, key, r);
  }

  /** What the first half of `deliver` does: lease the consumer's first due receipt, if there is one. */
  ghost predicate LeaseOutcome(was: Receipts, consumer: string, now: int, r: Option<(ID, int)>, receipts: Receipts) {
    match r
    case None =>
      receipts == was && forall k | k in was && k.1 == consumer :: !B.Enabled(BookOf(was), B.Lease(k, now))
    case Some((id, attempt)) =>
      var key := (id, consumer);
      && First(was, consumer, now, key)
      && B.Enabled(BookOf(was), B.Lease(key, now)) && BookOf(receipts) == B.Next(BookOf(was), B.Lease(key, now))
      && key in receipts && receipts[key].leased && receipts[key].attempts == attempt
  }

  /** No receipt is lost, and each keeps its place among those due at the same time. */
  ghost predicate KeepsPlaces(was: Receipts, receipts: Receipts) {
    receipts.Keys == was.Keys && forall k | k in was :: receipts[k].sequence == was[k].sequence
  }

  /** The receipts there were are as they were; new ones come after all of them. */
  ghost predicate OpensBehind(was: Receipts, sequence: nat, receipts: Receipts) {
    && (forall k | k in was :: k in receipts && receipts[k] == was[k])
    && (forall k | k in receipts && k !in was :: receipts[k].sequence >= sequence)
  }

  lemma RevivedKeepsPlaces(receipts: Receipts, back: set<B.Key>, clock: B.Key -> int)
    ensures KeepsPlaces(receipts, Revived(receipts, back, clock))
  {
  }

  /** A lease hands out the receipt that has been due longest, and of those due at the same time the one opened first. */
  lemma LeaseTakesFirst(was: Receipts, consumer: string, now: int, r: Option<(ID, int)>, receipts: Receipts)
    requires LeaseOutcome(was, consumer, now, r, receipts)
    ensures r.None? ==> receipts == was && forall k | k in was && k.1 == consumer ::
              !(was[k].state == Pending && !was[k].leased && was[k].availableAt <= now)
    ensures r.Some? ==>
      var key := (r.value.0, consumer);
      && key in was && was[key].state == Pending && !was[key].leased && was[key].availableAt <= now
      && r.value.1 == was[key].attempts + 1
      && (forall k | k in was && k.1 == consumer && k != key && was[k].state == Pending && !was[k].leased && was[k].availableAt <= now ::
            was[key].availableAt < was[k].availableAt
            || (was[key].availableAt == was[k].availableAt && was[key].sequence < was[k].sequence))
  {
    if r.None? {
      forall k | k in was && k.1 == consumer ensures !IsDue(was[k], now) {
        assert !B.Enabled(BookOf(was), B.Lease(k, now));
      }
    } else {
      var key := (r.value.0, consumer);
      assert BookOf(receipts)[key] == SlotOf(receipts[key]) && BookOf(was)[key] == SlotOf(was[key]);
    }
  }

  lemma NothingLeased(was: Receipts, consumer: string, now: int)
    requires forall k | k in was && k.1 == consumer :: !IsDue(was[k], now)
    ensures LeaseOutcome(was, consumer, now, None, was)
  {
  }

  lemma FirstLeased(events: map<ID, Event>, was: Receipts, sequence: nat, consumer: string, now: int, key: B.Key)
    requires Fit(events, was, sequence) && First(was, consumer, now, key)
    ensures
      var receipts := was[key := Leased(was[key])];
      && Fit(events, receipts, sequence)
      && LeaseOutcome(was, consumer, now, Some((key.0, receipts[key].attempts)), receipts)
      && KeepsPlaces(was, receipts)
  {
    assert key == (key.0, consumer);
    LeasedIsStep(events, was, sequence, key, now);
  }

  class Inbox {
    var events: map<ID, Event>
    var receipts: Receipts
    var known: set<string>
    var sequence: nat

    ghost predicate Valid()
      reads this
    {
      && Fit(events, receipts, sequence)
      && (forall k | k in receipts :: k.1 in known)
      && (forall id | id in events :: events[id].id == id)
    }

    constructor ()
      ensures Valid() && events == map[] && BookOf(receipts) == map[]
    {
      events, receipts, known, sequence := map[], map[], {}, 0;
    }

    /** Open a receipt unless there is one. */
    method OpenOne(id: ID, consumer: string, now: int)
      requires Valid() && id in events
      modifies this`receipts, this`known, this`sequence
      ensures Valid()
      ensures
        var slots := BookOf(old(receipts));
        BookOf(receipts) == if (id, consumer) in slots then slots else slots[(id, consumer) := B.Waiting(0, now)]
      ensures OpensBehind(old(receipts), old(sequence), receipts) && sequence >= old(sequence)
    {
      known := known + {consumer};
      if (id, consumer) !in receipts {
        BookOfWrite(receipts, (id, consumer), Receipt(Pending, 0, now, false, sequence));
        receipts := receipts[(id, consumer) := Receipt(Pending, 0, now, false, sequence)];
        sequence := sequence + 1;
      }
    }

    /** Refuse other bytes under a stored ID; else store the event and open a receipt per consumer that has none. An
        invalid consumer name stops the loop, but what came before it stays: the event, and the receipts of the consumers
        named earlier. `clock` is read once for each receipt opened. */
    method Accept(event: Event, consumers: seq<string>, clock: B.Key -> int) returns (r: Result<(), Failure>)
      requires Valid()
      modifies this
      ensures Valid()
      ensures r == Err(IdReused) <==> event.id in old(events) && old(events)[event.id].bytes != event.bytes
      ensures r == Err(IdReused) ==> events == old(events) && receipts == old(receipts)
      ensures r != Err(IdReused) ==>
        var slots := BookOf(old(receipts));
        var step := B.Open(DueAt(Fresh(slots, event.id, consumers[..Reached(consumers)]), clock));
        && events == old(events)[event.id := event]
        && r == (if Reached(consumers) == |consumers| then Ok(()) else Err(InvalidConsumer))
        && B.Enabled(slots, step) && BookOf(receipts) == B.Next(slots, step)
        && OpensBehind(old(receipts), old(sequence), receipts)
    {
      if event.id in events && events[event.id].bytes != event.bytes {
        return Err(IdReused);
      }
      events := events[event.id := event];
      var reached := OpenAll(event.id, consumers, clock);
      r := if reached == |consumers| then Ok(()) else Err(InvalidConsumer);
    }

    /** The loop of `accept`: receipts for the consumers before the first invalid name. */
    method OpenAll(id: ID, consumers: seq<string>, clock: B.Key -> int) returns (n: nat)
      requires Valid() && id in events
      modifies this`receipts, this`known, this`sequence
      ensures Valid() && n == Reached(consumers)
      ensures
        var slots := BookOf(old(receipts));
        var step := B.Open(DueAt(Fresh(slots, id, consumers[..n]), clock));
        B.Enabled(slots, step) && BookOf(receipts) == B.Next(slots, step)
      ensures OpensBehind(old(receipts), old(sequence), receipts)
    {
      ghost var slots := BookOf(receipts);
      n := 0;
      while n < |consumers| && IsConsumer(consumers[n])
        invariant Valid()
        invariant n <= |consumers| && n + Reached(consumers[n..]) == Reached(consumers)
        invariant BookOf(receipts) == OpenedBook(slots, id, consumers[..n], clock)
        invariant OpensBehind(old(receipts), old(sequence), receipts) && sequence >= old(sequence)
      {
        assert consumers[n..][1..] == consumers[n + 1..];
        OpenedNext(slots, id, consumers, n, clock);
        OpenOne(id, consumers[n], clock((id, consumers[n])));
        n := n + 1;
      }
      OpenedIsStep(slots, id, consumers[..n], clock);
    }

    /** The first half of `deliver`: hand the consumer's first due event to its handler. */
    method Lease(consumer: string, now: int) returns (r: Result<Option<(ID, int)>, Failure>)
      requires Valid()
      modifies this`receipts, this`known
      ensures Valid()
      ensures r.Err? <==> !IsConsumer(consumer)
      ensures r.Err? ==> receipts == old(receipts)
      ensures r.Ok? ==> LeaseOutcome(old(receipts), consumer, now, r.value, receipts)
      ensures KeepsPlaces(old(receipts), receipts)
    {
      if !IsConsumer(consumer) {
        return Err(InvalidConsumer);
      }
      known := known + {consumer};
      var next := Pick(consumer, now);
      if next.None? {
        NothingLeased(receipts, consumer, now);
        return Ok(None);
      }
      var key := next.value;
      FirstLeased(events, receipts, sequence, consumer, now, key);
      var leased := Leased(receipts[key]);
      receipts := receipts[key := leased];
      r := Ok(Some((key.0, leased.attempts)));
    }

    method Pick(consumer: string, now: int) returns (next: Option<B.Key>)
      requires Valid()
      ensures next.None? ==> forall k | k in receipts && k.1 == consumer :: !IsDue(receipts[k], now)
      ensures next.Some? ==> First(receipts, consumer, now, next.value)
    {
      var mine := set k | k in receipts && k.1 == consumer;
      var left := mine;
      next := None;
      while left != {}
        invariant left <= mine
        invariant next.None? ==> forall k | k in mine && k !in left :: !IsDue(receipts[k], now)
        invariant next.Some? ==> next.value in mine && IsDue(receipts[next.value], now)
        invariant next.Some? ==> forall k | k in mine && k !in left && k != next.value && IsDue(receipts[k], now) ::
                    Sooner(receipts[next.value], receipts[k])
        decreases |left|
      {
        var k :| k in left;
        left := left - {k};
        if IsDue(receipts[k], now) && (next.None? || Sooner(receipts[k], receipts[next.value])) {
          next := Some(k);
        }
      }
    }

    /** The second half of `deliver`: record what the handler answered. */
    method Settle(consumer: string, id: ID, attempt: int, error: Outcome, policy: Policy, random: real, now: int)
      returns (d: Delivery)
      requires Valid() && (id, consumer) in receipts
      requires receipts[(id, consumer)].leased && receipts[(id, consumer)].attempts == attempt
      modifies this`receipts
      ensures Valid()
      ensures
        var slots, step := BookOf(old(receipts)), B.Settle((id, consumer), error, policy, random, now);
        && B.Enabled(slots, step) && BookOf(receipts) == B.Next(slots, step)
        && d == Delivery(id, attempt, B.Settled(attempt, error, policy, random, now))
      ensures KeepsPlaces(old(receipts), receipts)
    {
      var key := (id, consumer);
      var receipt := receipts[key].(leased := false);
      if error.None? {
        receipt := receipt.(state := Processed);
      } else {
        receipt := receipt.(state := if Retry.Exhausted(policy, attempt) then DeadLetter else Pending,
                            availableAt := now + RetryDelay(policy, attempt, random));
      }
      assert SlotOf(receipt) == B.Settled(attempt, error, policy, random, now);
      SettledIsStep(events, receipts, sequence, key, receipt, error, policy, random, now);
      receipts := receipts[key := receipt];
      d := Delivery(id, attempt, SlotOf(receipt));
    }

    /** Return dead receipts, one event's or all, with a fresh attempt budget; `clock` is read once for each. */
    method Requeue(consumer: string, eventId: Option<ID>, clock: B.Key -> int) returns (r: Result<nat, Failure>)
      requires Valid()
      modifies this`receipts, this`known
      ensures Valid()
      ensures r.Err? <==> !IsConsumer(consumer)
      ensures r.Err? ==> receipts == old(receipts)
      ensures r.Ok? ==> RequeueOutcome(old(receipts), consumer, eventId, clock, r.value, receipts)
      ensures KeepsPlaces(old(receipts), receipts)
    {
      if !IsConsumer(consumer) {
        return Err(InvalidConsumer);
      }
      known := known + {consumer};
      var back := set k | k in receipts && k.1 == consumer && receipts[k].state.DeadLetter?
                          && (eventId.None? || k.0 == eventId.value);
      RequeueIs(events, receipts, sequence, consumer, eventId, back, clock);
      receipts := Revived(receipts, back, clock);
      r := Ok(|back|);
    }
  }
}
