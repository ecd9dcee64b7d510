/** The PostgreSQL inbox (src/shared/events/postgres/store.ts, class Mailbox): one receipt per event and consumer. */
module Mailbox {
  import opened Prelude
  import opened Ids
  import opened Events
  import opened Ledger
  import Retry
  import O = Outbox

  type Key = (ID, string)

  ghost function DueKeys(t: Table<Key>, consumer: string, maxAttempts: int, now: int, locked: set<Key>): set<Key> {
    set k | k in t && k.1 == consumer && k !in locked && Due(t[k], maxAttempts, now)
  }

  /** `ORDER BY available_at, event_id` among one consumer's receipts. */
  predicate Earlier(t: Table<Key>, a: Key, b: Key)
    requires a in t && b in t
  {
    t[a].availableAt < t[b].availableAt || (t[a].availableAt == t[b].availableAt && StringLess(a.0, b.0))
  }

  ghost predicate Candidate(t: Table<Key>, consumer: string, maxAttempts: int, now: int, locked: set<Key>, k: Key) {
    k in DueKeys(t, consumer, maxAttempts, now, locked)
    && forall other | other in DueKeys(t, consumer, maxAttempts, now, locked) && other != k :: Earlier(t, k, other)
  }

  lemma EarliestExists(t: Table<Key>, keys: set<Key>, consumer: string) returns (k: Key)
    requires keys != {} && keys <= t.Keys && forall other | other in keys :: other.1 == consumer
    ensures k in keys && forall other | other in keys && other != k :: Earlier(t, k, other)
  {
    var rows: Table<ID> := map id: ID | id in (set other | other in keys :: other.0) :: t[(id, consumer)];
    var first :| first in keys;
    assert first.0 in rows;
    var id := O.EarliestExists(rows, rows.Keys);
    k := (id, consumer);
    forall other | other in keys && other != k
      ensures Earlier(t, k, other)
    {
      assert other == (other.0, consumer) && other.0 in rows;
    }
  }

  ghost function Scope(t: Table<Key>, consumer: string): set<Key> { set k | k in t && k.1 == consumer }

  /** Receipts `accept` opens: one for each named consumer that has none yet. */
  function Opened(t: Table<Key>, id: ID, consumers: set<string>, now: int): Table<Key> {
    map c | c in consumers && (id, c) !in t :: (id, c) := Fresh(now)
  }

  /** Events whose every receipt was processed before the retention bound. */
  ghost predicate Prunable(t: Table<Key>, id: ID, retentionMs: int, now: int) {
    forall k | k in t && k.0 == id ::
      t[k].state.Settled? && (t[k].finishedAt.Some? ==> t[k].finishedAt.value < now - retentionMs)
  }

  datatype Claimed = Nothing | Quarantined(id: ID, attempt: int) | Leased(event: Envelope, attempt: int)

  /** What a claim answers and leaves in the table. */
  ghost predicate ClaimOutcome(events: map<ID, Envelope>, was: Table<Key>, consumer: string, maxAttempts: int, token: Token,
                               sweptAt: int, now: int, locked: set<Key>, r: Claimed, receipts: Table<Key>)
    requires forall k | k in was :: k.0 in events
  {
    var swept := ReapAll(was, Scope(was, consumer), maxAttempts, sweptAt);
    match r
    case Nothing => receipts == swept && DueKeys(swept, consumer, maxAttempts, now, locked) == {}
    case Quarantined(id, attempt) =>
      && Candidate(swept, consumer, maxAttempts, now, locked, (id, consumer)) && !events[id].decodable
      && receipts == swept[(id, consumer) := Quarantine(swept[(id, consumer)], now)]
      && attempt == receipts[(id, consumer)].attempts
    case Leased(event, attempt) =>
      && Candidate(swept, consumer, maxAttempts, now, locked, (event.id, consumer))
      && event == events[event.id] && event.decodable
      && receipts == swept[(event.id, consumer) := Ledger.Claim(swept[(event.id, consumer)], token, now)]
      && attempt == receipts[(event.id, consumer)].attempts
  }

  /** What recording an outcome answers and leaves: the settled receipt, or nothing changed when the lease is lost. */
  ghost predicate FinishOutcome(was: Table<Key>, key: Key, token: Token, attempt: int, error: Outcome, policy: Retry.Policy,
                                random: real, now: int, r: Result<Delivery, Failure>, receipts: Table<Key>)
  {
    if key in was && Holds(was[key], token, now, false) then
      && r.Ok? && receipts == was[key := Settle(was[key], attempt, error, policy, random, now)]
      && (r.value.Processed? <==> receipts[key].state.Settled?)
      && (r.value.DeadLettered? <==> receipts[key].state.Dead?)
    else r == Err(LeaseLost) && receipts == was
  }

  /** All of an acceptance or nothing: the event stored once, one receipt for each consumer that had none. */
  ghost predicate AcceptOutcome(wasEvents: map<ID, Envelope>, was: Table<Key>, event: Envelope, consumers: set<string>, now: int,
                                r: Result<(), Failure>, events: map<ID, Envelope>, receipts: Table<Key>)
  {
    if exists c :: c in consumers && !IsConsumer(c) then r == Err(InvalidConsumer) && events == wasEvents && receipts == was
    else if event.id in wasEvents && wasEvents[event.id].content != event.content then
      r == Err(IdReused) && events == wasEvents && receipts == was
    else
      && r == Ok(()) && events == (if event.id in wasEvents then wasEvents else wasEvents[event.id := event])
      && receipts == was + Opened(was, event.id, consumers, now)
  }

  /** The consumer's dead receipts, one event's or all, with a fresh attempt budget. */
  ghost predicate RequeueOutcome(was: Table<Key>, consumer: string, eventId: Option<ID>, now: int, r: Result<nat, Failure>,
                                 receipts: Table<Key>)
  {
    if !IsConsumer(consumer) then r == Err(InvalidConsumer) && receipts == was
    else
      var dead := set k | k in was && k.1 == consumer && was[k].state.Dead? && (eventId.None? || k.0 == eventId.value);
      && r == Ok(|dead|) && receipts.Keys == was.Keys
      && (forall k | k in was :: receipts[k] == if k in dead then Ledger.Requeue(was[k], now) else was[k])
  }

  ghost predicate PruneOutcome(wasEvents: map<ID, Envelope>, was: Table<Key>, retentionMs: int, limit: nat, now: int, count: nat,
                               removed: set<ID>, events: map<ID, Envelope>, receipts: Table<Key>)
  {
    && removed <= wasEvents.Keys && count == |removed| <= limit
    && (forall id | id in removed :: Prunable(was, id, retentionMs, now))
    && (count < limit ==> forall id | id in events :: !Prunable(was, id, retentionMs, now))
    && events == wasEvents - removed
    && receipts == was - set k | k in was && k.0 in removed
  }

  datatype Delivery = Processed | Retrying(error: string) | DeadLettered(error: string)

  class Store {
    var events: map<ID, Envelope>
    var receipts: Table<Key>

    /** The foreign key: a receipt's event is stored. */
    ghost predicate Valid()
      reads this
    {
      && (forall k | k in receipts :: k.0 in events)
      && (forall id | id in events :: events[id].id == id)
    }

    constructor ()
      ensures Valid() && events == map[] && receipts == map[]
    {
      events, receipts := map[], map[];
    }

    /** Store the event once and open one receipt per consumer that has none; all of it or nothing. */
    method Accept(event: Envelope, consumers: set<string>, now: int) returns (r: Result<(), Failure>)
      requires Valid()
      modifies this
      ensures Valid()
      ensures AcceptOutcome(old(events), old(receipts), event, consumers, now, r, events, receipts)
    {
      if exists c :: c in consumers && !IsConsumer(c) {
        return Err(InvalidConsumer);
      }
      if event.id in events {
        if events[event.id].content != event.content {
          return Err(IdReused);
        }
      } else {
        events := events[event.id := event];
      }
      receipts := receipts + Opened(receipts, event.id, consumers, now);
      r := Ok(());
    }

    /** The first transaction of `deliver`: sweep, then lease the consumer's earliest due receipt. */
    method Claim(consumer: string, token: Token, policy: Retry.Policy, sweptAt: int, now: int, locked: set<Key>)
      returns (r: Result<Claimed, Failure>)
      requires Valid()
      modifies this`receipts
      ensures Valid()
      ensures r.Err? <==> !IsConsumer(consumer)
      ensures r.Err? ==> receipts == old(receipts)
      ensures r.Ok? ==>
        ClaimOutcome(events, old(receipts), consumer, policy.maxAttempts, token, sweptAt, now, locked, r.value, receipts)
    {
      if !IsConsumer(consumer) {
        return Err(InvalidConsumer);
      }
      var scope := set k | k in receipts && k.1 == consumer;
      var swept := ReapAll(receipts, scope, policy.maxAttempts, sweptAt);
      receipts := swept;
      var due := set k | k in swept && k.1 == consumer && k !in locked && Due(swept[k], policy.maxAttempts, now);
      if due == {} {
        return Ok(Nothing);
      }
      ghost var first := EarliestExists(swept, due, consumer);
      var key :| key in due && forall other | other in due && other != key :: Earlier(swept, key, other);
      assert key == (key.0, consumer);
      var row := Ledger.Claim(swept[key], token, now);
      if !events[key.0].decodable {
        receipts := swept[key := Quarantine(swept[key], now)];
        return Ok(Quarantined(key.0, row.attempts));
      }
      receipts := swept[key := row];
      r := Ok(Leased(events[key.0], row.attempts));
    }

    /** The second transaction: record the handler's outcome if the lease token still matches, expired or not. */
    method Finish(event: Envelope, consumer: string, token: Token, attempt: int, error: Outcome,
                  policy: Retry.Policy, random: real, now: int) returns (r: Result<Delivery, Failure>)
      requires Valid()
      modifies this`receipts
      ensures Valid()
      ensures FinishOutcome(old(receipts), (event.id, consumer), token, attempt, error, policy, random, now, r, receipts)
    {
      var key := (event.id, consumer);
      if key in receipts && Holds(receipts[key], token, now, false) {
        receipts := receipts[key := Settle(receipts[key], attempt, error, policy, random, now)];
        return Ok(if error.None? then Processed
                  else if Retry.Exhausted(policy, attempt) then DeadLettered(error.value)
                  else Retrying(error.value));
      }
      r := Err(LeaseLost);
    }

    method Requeue(consumer: string, eventId: Option<ID>, now: int) returns (r: Result<nat, Failure>)
      requires Valid()
      modifies this`receipts
      ensures Valid()
      ensures RequeueOutcome(old(receipts), consumer, eventId, now, r, receipts)
    {
      if !IsConsumer(consumer) {
        return Err(InvalidConsumer);
      }
      var scope := set k | k in receipts && k.1 == consumer && (eventId.None? || k.0 == eventId.value);
      var dead := set k | k in receipts && k.1 == consumer && receipts[k].state.Dead? && (eventId.None? || k.0 == eventId.value);
      receipts := RequeueAll(receipts, scope, now);
      r := Ok(|dead|);
    }

    /** Delete up to `limit` prunable events; their receipts go with them. */
    method Prune(retentionMs: int, limit: nat, now: int) returns (count: nat, ghost removed: set<ID>)
      requires Valid()
      modifies this
      ensures Valid()
      ensures PruneOutcome(old(events), old(receipts), retentionMs, limit, now, count, removed, events, receipts)
    {
      var eligible := set id | id in events
        && forall k | k in receipts && k.0 == id ::
             receipts[k].state.Settled?
             && (receipts[k].finishedAt.Some? ==> receipts[k].finishedAt.value < now - retentionMs);
      ghost var some := O.SubsetOfSize(eligible, Min(limit, |eligible|));
      var chosen :| chosen <= eligible && |chosen| == Min(limit, |eligible|);
      if |chosen| < limit {
        SubsetFull(chosen, eligible);
      }
      receipts := receipts - set k | k in receipts && k.0 in chosen;
      events := events - chosen;
      count, removed := |chosen|, chosen;
    }
  }

  lemma {:induction false} SubsetFull<T>(a: set<T>, b: set<T>)
    requires a <= b && |a| == |b|
    ensures a == b
    decreases |b|
  {
    if x :| x in b && x !in a {
      assert a <= b - {x};
      SubsetSize(a, b - {x});
    }
  }

  lemma {:induction false} SubsetSize<T>(a: set<T>, b: set<T>)
    requires a <= b
    ensures |a| <= |b|
    decreases |a|
  {
    if x :| x in a {
      SubsetSize(a - {x}, b - {x});
    }
  }
}
