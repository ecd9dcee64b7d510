/**
 * What the queries of the outbox and the mailbox do to their tables, row by row and field by field
 * (src/shared/events/postgres/store.ts).
 */
module StoreContracts {
  import opened Prelude
  import opened Ids
  import opened Events
  import opened Ledger
  import opened Retry
  import O = Outbox
  import M = Mailbox

  // ----- The dead-letter sweep and the claim -----

  /** Which rows can be claimed is the same before and after the sweep that precedes the claim. */
  lemma SweepKeepsDue<K>(was: Table<K>, scope: set<K>, maxAttempts: int, sweptAt: int, now: int)
    ensures
      var swept := ReapAll(was, scope, maxAttempts, sweptAt);
      forall k | k in was :: Due(swept[k], maxAttempts, now) == Due(was[k], maxAttempts, now)
                             && (Due(was[k], maxAttempts, now) ==> swept[k] == was[k])
  {
  }

  /** A claim takes the row that has been due longest, ties by event ID, and finds nothing only if no row is due. */
  lemma ClaimTakesEarliest(envelopes: O.Envelopes, was: Table<ID>, maxAttempts: int, token: Token, sweptAt: int, now: int,
                           locked: set<ID>, r: O.Claimed, entries: Table<ID>)
    requires envelopes.Keys == was.Keys
    requires O.ClaimOutcome(envelopes, was, maxAttempts, token, sweptAt, now, locked, r, entries)
    ensures r.Nothing? ==> forall o | o in was && o !in locked ::
              !(was[o].state.Pending? && was[o].attempts < maxAttempts && was[o].availableAt <= now
                && (was[o].lease.None? || was[o].lease.value.until <= now))
    ensures !r.Nothing? ==>
      var id := if r.Leased? then r.event.id else r.id;
      && id in was && id !in locked && was[id].state.Pending? && was[id].attempts < maxAttempts
      && was[id].availableAt <= now && (was[id].lease.None? || was[id].lease.value.until <= now)
      && forall o | o in was && o !in locked && o != id && was[o].state.Pending? && was[o].attempts < maxAttempts
                    && was[o].availableAt <= now && (was[o].lease.None? || was[o].lease.value.until <= now) ::
           was[id].availableAt < was[o].availableAt
           || (was[id].availableAt == was[o].availableAt && exists k: nat :: SmallerAt(id, o, k))
  {
    SweepKeepsDue(was, was.Keys, maxAttempts, sweptAt, now);
    var swept := ReapAll(was, was.Keys, maxAttempts, sweptAt);
    if r.Nothing? {
      forall o | o in was && o !in locked ensures !Due(was[o], maxAttempts, now) {
        assert o !in O.DueKeys(swept, maxAttempts, now, locked);
      }
    } else {
      var id := if r.Leased? then r.event.id else r.id;
      forall o | o in was && o !in locked && o != id && Due(was[o], maxAttempts, now)
        ensures was[id].availableAt < was[o].availableAt
             || (was[id].availableAt == was[o].availableAt && exists k: nat :: SmallerAt(id, o, k))
      {
        assert o in O.DueKeys(swept, maxAttempts, now, locked) && O.Earlier(swept, id, o);
        StringLessIs(id, o);
      }
    }
  }

  /** What the claim writes: exhausted rows without a live lease are dead, the claimed row is under the lease for thirty
      seconds and one attempt further, or dead if its envelope does not decode; nothing else changes. */
  lemma ClaimWrites(envelopes: O.Envelopes, was: Table<ID>, maxAttempts: int, token: Token, sweptAt: int, now: int,
                    locked: set<ID>, r: O.Claimed, entries: Table<ID>)
    requires envelopes.Keys == was.Keys
    requires O.ClaimOutcome(envelopes, was, maxAttempts, token, sweptAt, now, locked, r, entries)
    ensures entries.Keys == was.Keys
    ensures r.Leased? ==>
      var id := r.event.id;
      && id in was && envelopes[id] == r.event && r.event.decodable && r.token == token && r.attempt == was[id].attempts + 1
      && entries[id] == was[id].(lease := Some(Lease(token, now + 30000)), attempts := was[id].attempts + 1)
    ensures r.Quarantined? ==>
      && r.id in was && !envelopes[r.id].decodable
      && entries[r.id] == Entry(Dead, was[r.id].attempts + 1, was[r.id].availableAt, None, Some("events.undecodable"), Some(now))
    ensures forall o | o in was && !(r.Leased? && r.event.id == o) && !(r.Quarantined? && r.id == o) ::
      entries[o] ==
        if was[o].state.Pending? && was[o].attempts >= maxAttempts && (was[o].lease.None? || was[o].lease.value.until <= sweptAt)
        then Entry(Dead, was[o].attempts, was[o].availableAt, None,
                   if was[o].lastError.Some? then was[o].lastError else Some("events.lease_expired"), Some(sweptAt))
        else was[o]
  {
    SweepKeepsDue(was, was.Keys, maxAttempts, sweptAt, now);
  }

  lemma MailboxClaimTakesEarliest(events: map<ID, Envelope>, was: Table<M.Key>, consumer: string, maxAttempts: int, token: Token,
                                  sweptAt: int, now: int, locked: set<M.Key>, r: M.Claimed, receipts: Table<M.Key>)
    requires forall k | k in was :: k.0 in events
    requires M.ClaimOutcome(events, was, consumer, maxAttempts, token, sweptAt, now, locked, r, receipts)
    ensures r.Nothing? ==> forall o | o in was && o !in locked && o.1 == consumer ::
              !(was[o].state.Pending? && was[o].attempts < maxAttempts && was[o].availableAt <= now
                && (was[o].lease.None? || was[o].lease.value.until <= now))
    ensures !r.Nothing? ==>
      var key := (if r.Leased? then r.event.id else r.id, consumer);
      && key in was && key !in locked && was[key].state.Pending? && was[key].attempts < maxAttempts
      && was[key].availableAt <= now && (was[key].lease.None? || was[key].lease.value.until <= now)
      && forall o | o in was && o !in locked && o.1 == consumer && o != key && was[o].state.Pending?
                    && was[o].attempts < maxAttempts && was[o].availableAt <= now
                    && (was[o].lease.None? || was[o].lease.value.until <= now) ::
           was[key].availableAt < was[o].availableAt
           || (was[key].availableAt == was[o].availableAt && exists k: nat :: SmallerAt(key.0, o.0, k))
  {
    SweepKeepsDue(was, M.Scope(was, consumer), maxAttempts, sweptAt, now);
    var swept := ReapAll(was, M.Scope(was, consumer), maxAttempts, sweptAt);
    if r.Nothing? {
      forall o | o in was && o !in locked && o.1 == consumer ensures !Due(was[o], maxAttempts, now) {
        assert o !in M.DueKeys(swept, consumer, maxAttempts, now, locked);
      }
    } else {
      var key := (if r.Leased? then r.event.id else r.id, consumer);
      forall o | o in was && o !in locked && o.1 == consumer && o != key && Due(was[o], maxAttempts, now)
        ensures was[key].availableAt < was[o].availableAt
             || (was[key].availableAt == was[o].availableAt && exists k: nat :: SmallerAt(key.0, o.0, k))
      {
        assert o in M.DueKeys(swept, consumer, maxAttempts, now, locked) && M.Earlier(swept, key, o);
        StringLessIs(key.0, o.0);
      }
    }
  }

  lemma MailboxClaimWrites(events: map<ID, Envelope>, was: Table<M.Key>, consumer: string, maxAttempts: int, token: Token,
                           sweptAt: int, now: int, locked: set<M.Key>, r: M.Claimed, receipts: Table<M.Key>)
    requires forall k | k in was :: k.0 in events
    requires M.ClaimOutcome(events, was, consumer, maxAttempts, token, sweptAt, now, locked, r, receipts)
    ensures receipts.Keys == was.Keys
    ensures r.Leased? ==>
      var key := (r.event.id, consumer);
      && key in was && events[r.event.id] == r.event && r.event.decodable && r.attempt == was[key].attempts + 1
      && receipts[key] == was[key].(lease := Some(Lease(token, now + 30000)), attempts := was[key].attempts + 1)
    ensures r.Quarantined? ==>
      var key := (r.id, consumer);
      && key in was && !events[r.id].decodable && r.attempt == was[key].attempts + 1
      && receipts[key] == Entry(Dead, was[key].attempts + 1, was[key].availableAt, None, Some("events.undecodable"), Some(now))
    ensures forall o | o in was && !(r.Leased? && (r.event.id, consumer) == o) && !(r.Quarantined? && (r.id, consumer) == o) ::
      receipts[o] ==
        if o.1 == consumer && was[o].state.Pending? && was[o].attempts >= maxAttempts
           && (was[o].lease.None? || was[o].lease.value.until <= sweptAt)
        then Entry(Dead, was[o].attempts, was[o].availableAt, None,
                   if was[o].lastError.Some? then was[o].lastError else Some("events.lease_expired"), Some(sweptAt))
        else was[o]
  {
    SweepKeepsDue(was, M.Scope(was, consumer), maxAttempts, sweptAt, now);
  }

  // ----- Settling -----

  /** Only a durable receipt for this very event counts as sent; any other receipt, and any failure, is the row's error. */
  lemma VerdictIs(event: Envelope, answer: O.Answer)
    ensures O.Verdict(event, answer) ==
      match answer
      case Ok(receipt) => if receipt.durable && receipt.eventId == event.id then None else Some("events.invalid_receipt")
      case Err(kind) => Some(kind)
  {
  }

  /** What a settled row says: sent or processed; dead after the last attempt; or due again after the retry delay. */
  ghost predicate SettledAs(was: Entry, attempt: int, error: Outcome, policy: Policy, random: real, now: int, e: Entry) {
    && e.attempts == was.attempts && e.lease == None
    && (error.None? ==> e == Entry(Settled, was.attempts, now, None, None, Some(now)))
    && (error.Some? ==>
          && e.lastError == Some(if |error.value| <= 200 then error.value else error.value[..200])
          && e.availableAt == now + RetryDelay(policy, attempt, random)
          && if attempt >= policy.maxAttempts then e.state.Dead? && e.finishedAt == Some(now)
             else e.state.Pending? && e.finishedAt == None)
  }

  /** The outbox settles exactly under the row's own token and before its lease runs out. */
  lemma FinishWrites(was: Table<ID>, id: ID, token: Token, attempt: int, error: Outcome, policy: Policy, random: real, now: int,
                     r: Result<(), Failure>, entries: Table<ID>)
    requires O.FinishOutcome(was, id, token, attempt, error, policy, random, now, r, entries)
    ensures r.Ok? <==> id in was && was[id].state.Pending? && was[id].lease.Some?
                       && was[id].lease.value.token == token && now < was[id].lease.value.until
    ensures r.Ok? ==> id in entries && SettledAs(was[id], attempt, error, policy, random, now, entries[id])
                      && entries == was[id := entries[id]]
    ensures r.Err? ==> r.error == LeaseLost && entries == was
  {
  }

  /** The mailbox settles under the receipt's own token, whether or not its lease has run out. */
  lemma MailboxFinishWrites(was: Table<M.Key>, key: M.Key, token: Token, attempt: int, error: Outcome, policy: Policy,
                            random: real, now: int, r: Result<M.Delivery, Failure>, receipts: Table<M.Key>)
    requires M.FinishOutcome(was, key, token, attempt, error, policy, random, now, r, receipts)
    ensures r.Ok? <==> key in was && was[key].state.Pending? && was[key].lease.Some? && was[key].lease.value.token == token
    ensures r.Ok? ==> key in receipts && SettledAs(was[key], attempt, error, policy, random, now, receipts[key])
                      && receipts == was[key := receipts[key]]
    ensures r.Err? ==> r.error == LeaseLost && receipts == was
  {
  }

  // ----- Inserting, requeueing, pruning -----

  /** A new event waits at once, with no attempt made; a repeated one is accepted if its content is the same. */
  lemma EnqueueWrites(wasEnvelopes: O.Envelopes, was: Table<ID>, event: Envelope, now: int, r: Result<(), Failure>,
                      envelopes: O.Envelopes, entries: Table<ID>)
    requires O.EnqueueOutcome(wasEnvelopes, was, event, now, r, envelopes, entries)
    ensures event.id !in wasEnvelopes ==>
      && r.Ok? && envelopes == wasEnvelopes[event.id := event]
      && entries == was[event.id := Entry(Pending, 0, now, None, None, None)]
    ensures event.id in wasEnvelopes ==>
      && envelopes == wasEnvelopes && entries == was
      && (if wasEnvelopes[event.id].content == event.content then r.Ok? else r == Err(IdReused))
  {
  }

  /** Acceptance opens a waiting receipt for every named consumer that has none, and touches no other receipt. */
  lemma AcceptWrites(wasEvents: map<ID, Envelope>, was: Table<M.Key>, event: Envelope, consumers: set<string>, now: int,
                     r: Result<(), Failure>, events: map<ID, Envelope>, receipts: Table<M.Key>)
    requires M.AcceptOutcome(wasEvents, was, event, consumers, now, r, events, receipts)
    ensures r.Err? ==> events == wasEvents && receipts == was
    ensures r.Ok? ==>
      && (forall k :: k in receipts <==> k in was || (k.0 == event.id && k.1 in consumers))
      && (forall k | k in was :: receipts[k] == was[k])
      && (forall k | k in receipts && k !in was :: receipts[k] == Entry(Pending, 0, now, None, None, None))
      && (forall id :: id in events <==> id in wasEvents || id == event.id)
      && (forall id | id in events :: events[id] == if id in wasEvents then wasEvents[id] else event)
  {
  }

  lemma RequeueWrites(was: Table<ID>, eventId: Option<ID>, now: int, count: nat, entries: Table<ID>)
    requires O.RequeueOutcome(was, eventId, now, count, entries)
    ensures entries.Keys == was.Keys
    ensures forall k | k in was ::
      entries[k] == if was[k].state.Dead? && (eventId == None || eventId == Some(k))
                    then Entry(Pending, 0, now, was[k].lease, None, None) else was[k]
  {
  }

  lemma MailboxRequeueWrites(was: Table<M.Key>, consumer: string, eventId: Option<ID>, now: int, r: Result<nat, Failure>,
                             receipts: Table<M.Key>)
    requires M.RequeueOutcome(was, consumer, eventId, now, r, receipts)
    ensures receipts.Keys == was.Keys
    ensures forall k | k in was ::
      receipts[k] == if r.Ok? && k.1 == consumer && was[k].state.Dead? && (eventId == None || eventId == Some(k.0))
                     then Entry(Pending, 0, now, was[k].lease, None, None) else was[k]
  {
  }

  /** Pruning takes sent rows finished before the retention bound, and nothing else; below the limit it leaves none. */
  lemma PruneTakes(wasEnvelopes: O.Envelopes, was: Table<ID>, retentionMs: int, limit: nat, now: int, count: nat,
                   removed: set<ID>, envelopes: O.Envelopes, entries: Table<ID>)
    requires O.PruneOutcome(wasEnvelopes, was, retentionMs, limit, now, count, removed, envelopes, entries)
    ensures count == |removed| <= limit
    ensures forall id | id in removed ::
      id in was && was[id].state.Settled? && was[id].finishedAt.Some? && was[id].finishedAt.value < now - retentionMs
    ensures count < limit ==> forall id | id in was && was[id].state.Settled? && was[id].finishedAt.Some?
                                          && was[id].finishedAt.value < now - retentionMs :: id in removed
  {
    if count < limit { SameSize(removed, O.Expired(was, retentionMs, now)); }
  }

  lemma SameSize<T>(a: set<T>, b: set<T>)
    requires a <= b && |a| == |b|
    ensures a == b
  {
    M.SubsetFull(a, b);
  }

  /** The mailbox forgets an event only once each of its receipts was processed before the retention bound. */
  lemma MailboxPruneTakes(wasEvents: map<ID, Envelope>, was: Table<M.Key>, retentionMs: int, limit: nat, now: int, count: nat,
                          removed: set<ID>, events: map<ID, Envelope>, receipts: Table<M.Key>)
    requires M.PruneOutcome(wasEvents, was, retentionMs, limit, now, count, removed, events, receipts)
    ensures forall k | k in was && k.0 in removed ::
      was[k].state.Settled? && (was[k].finishedAt.Some? ==> was[k].finishedAt.value < now - retentionMs)
    ensures count < limit ==> forall id | id in events ::
      exists k :: k in was && k.0 == id
        && (!was[k].state.Settled? || (was[k].finishedAt.Some? && was[k].finishedAt.value >= now - retentionMs))
    ensures forall k | k in was && k.0 !in removed :: k in receipts && receipts[k] == was[k]
  {
  }
}
