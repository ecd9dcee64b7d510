/** The PostgreSQL outbox (src/shared/events/postgres/store.ts, class Store): one row per event. */
module Outbox {
  import opened Prelude
  import opened Ids
  import opened Events
  import opened Ledger
  import Retry

  type Envelopes = map<ID, Envelope>

  /** `ORDER BY available_at, event_id`. */
  predicate Earlier(t: Table<ID>, a: ID, b: ID)
    requires a in t && b in t
  {
    t[a].availableAt < t[b].availableAt || (t[a].availableAt == t[b].availableAt && StringLess(a, b))
  }

  ghost function DueKeys(t: Table<ID>, maxAttempts: int, now: int, locked: set<ID>): set<ID> {
    set k | k in t && k !in locked && Due(t[k], maxAttempts, now)
  }

  /** The row `FOR UPDATE SKIP LOCKED LIMIT 1` picks: the earliest due row no other transaction holds. */
  ghost predicate Candidate(t: Table<ID>, maxAttempts: int, now: int, locked: set<ID>, k: ID) {
    k in DueKeys(t, maxAttempts, now, locked)
    && forall other | other in DueKeys(t, maxAttempts, now, locked) && other != k :: Earlier(t, k, other)
  }

  lemma {:induction false} EarliestExists(t: Table<ID>, keys: set<ID>) returns (k: ID)
    requires keys != {} && keys <= t.Keys
    ensures k in keys && forall other | other in keys && other != k :: Earlier(t, k, other)
    decreases |keys|
  {
    k :| k in keys;
    var rest := keys - {k};
    if rest != {} {
      var first := EarliestExists(t, rest);
      StringLessTotal(k, first);
      if Earlier(t, first, k) {
        k := first;
      } else {
        forall other | other in rest && other != first
          ensures Earlier(t, k, other)
        {
          if t[k].availableAt == t[first].availableAt == t[other].availableAt {
            StringLessTransitive(k, first, other);
          }
        }
      }
    }
  }

  /** At most one row is the candidate, so a claim is determined by the table, the clock and the locks. */
  lemma CandidateUnique(t: Table<ID>, maxAttempts: int, now: int, locked: set<ID>, a: ID, b: ID)
    requires Candidate(t, maxAttempts, now, locked, a) && Candidate(t, maxAttempts, now, locked, b)
    ensures a == b
  {
    StringLessTotal(a, b);
  }

  datatype Claimed = Nothing | Quarantined(id: ID) | Leased(event: Envelope, token: Token, attempt: int)

  /** What a claim answers and leaves in the table. */
  ghost predicate ClaimOutcome(envelopes: Envelopes, was: Table<ID>, maxAttempts: int, token: Token, sweptAt: int, now: int,
                               locked: set<ID>, r: Claimed, entries: Table<ID>)
    requires envelopes.Keys == was.Keys
  {
    var swept := ReapAll(was, was.Keys, maxAttempts, sweptAt);
    match r
    case Nothing => entries == swept && DueKeys(swept, maxAttempts, now, locked) == {}
    case Quarantined(id) =>
      && Candidate(swept, maxAttempts, now, locked, id) && !envelopes[id].decodable
      && entries == swept[id := Quarantine(swept[id], now)]
    case Leased(event, t, attempt) =>
      && Candidate(swept, maxAttempts, now, locked, event.id) && event.decodable
      && event == envelopes[event.id] && t == token
      && entries == swept[event.id := Ledger.Claim(swept[event.id], token, now)]
      && attempt == entries[event.id].attempts
  }

  /** What `finish` leaves in the table: the settled row, or nothing changed when the lease is lost. */
  ghost predicate FinishOutcome(was: Table<ID>, id: ID, token: Token, attempt: int, error: Outcome, policy: Retry.Policy,
                                random: real, now: int, r: Result<(), Failure>, entries: Table<ID>)
  {
    if id in was && Holds(was[id], token, now, true) then
      r == Ok(()) && entries == was[id := Settle(was[id], attempt, error, policy, random, now)]
    else r == Err(LeaseLost) && entries == was
  }

  ghost predicate EnqueueOutcome(wasEnvelopes: Envelopes, was: Table<ID>, event: Envelope, now: int, r: Result<(), Failure>,
                                 envelopes: Envelopes, entries: Table<ID>)
  {
    if event.id !in wasEnvelopes then
      r == Ok(()) && envelopes == wasEnvelopes[event.id := event] && entries == was[event.id := Fresh(now)]
    else
      && envelopes == wasEnvelopes && entries == was
      && r == if wasEnvelopes[event.id].content == event.content then Ok(()) else Err(IdReused)
  }

  /** Dead rows, one or all, with a fresh attempt budget. */
  ghost predicate RequeueOutcome(was: Table<ID>, eventId: Option<ID>, now: int, count: nat, entries: Table<ID>) {
    var dead := set k | k in was && was[k].state.Dead? && (eventId.None? || k == eventId.value);
    && count == |dead| && entries.Keys == was.Keys
    && (forall k | k in was :: entries[k] == if k in dead then Ledger.Requeue(was[k], now) else was[k])
  }

  ghost predicate PruneOutcome(wasEnvelopes: Envelopes, was: Table<ID>, retentionMs: int, limit: nat, now: int, count: nat,
                               removed: set<ID>, envelopes: Envelopes, entries: Table<ID>)
  {
    && removed <= Expired(was, retentionMs, now)
    && count == |removed| == Min(limit, |Expired(was, retentionMs, now)|)
    && entries == was - removed && envelopes == wasEnvelopes - removed
  }

  class Store {
    var envelopes: Envelopes
    var entries: Table<ID>
    const policy: Retry.Policy

    /** Both maps are columns of one table. */
    ghost predicate Valid()
      reads this
    {
      envelopes.Keys == entries.Keys && forall k | k in envelopes :: envelopes[k].id == k
    }

    constructor (policy: Retry.Policy)
      ensures Valid() && envelopes == map[] && entries == map[] && this.policy == policy
    {
      envelopes, entries := map[], map[];
      this.policy := policy;
    }

    /** Insert once; the same content again is accepted without a change, other content under the id is refused. */
    method Enqueue(event: Envelope, now: int) returns (r: Result<(), Failure>)
      requires Valid()
      modifies this
      ensures Valid()
      ensures EnqueueOutcome(old(envelopes), old(entries), event, now, r, envelopes, entries)
    {
      if event.id in envelopes {
        return if envelopes[event.id].content == event.content then Ok(()) else Err(IdReused);
      }
      envelopes := envelopes[event.id := event];
      entries := entries[event.id := Fresh(now)];
      r := Ok(());
    }

    /** `sweptAt` and `now` are the clock readings of the two statements. */
    method Claim(token: Token, sweptAt: int, now: int, locked: set<ID>) returns (r: Result<Claimed, Failure>)
      requires Valid()
      modifies this`entries
      ensures Valid()
      ensures r.Err? <==> Parse(token).Err?
      ensures r.Err? ==> entries == old(entries)
      ensures r.Ok? ==>
        ClaimOutcome(envelopes, old(entries), policy.maxAttempts, token, sweptAt, now, locked, r.value, entries)
    {
      if Parse(token).Err? {
        return Err(InvalidToken);
      }
      var swept := ReapAll(entries, entries.Keys, policy.maxAttempts, sweptAt);
      entries := swept;
      var due := set k | k in swept && k !in locked && Due(swept[k], policy.maxAttempts, now);
      if due == {} {
        return Ok(Nothing);
      }
      ghost var first := EarliestExists(swept, due);
      var id :| id in due && forall other | other in due && other != id :: Earlier(swept, id, other);
      var row := Ledger.Claim(swept[id], token, now);
      entries := entries[id := row];
      if !envelopes[id].decodable {
        entries := entries[id := Quarantine(swept[id], now)];
        return Ok(Quarantined(id));
      }
      r := Ok(Leased(envelopes[id], token, row.attempts));
    }

    method Finish(event: Envelope, token: Token, attempt: int, error: Outcome, random: real, now: int)
      returns (r: Result<(), Failure>)
      requires Valid()
      modifies this`entries
      ensures Valid()
      ensures FinishOutcome(old(entries), event.id, token, attempt, error, policy, random, now, r, entries)
    {
      if event.id in entries && Holds(entries[event.id], token, now, true) {
        entries := entries[event.id := Settle(entries[event.id], attempt, error, policy, random, now)];
        return Ok(());
      }
      r := Err(LeaseLost);
    }

    /** Return dead rows, one or all, with a fresh attempt budget. */
    method Requeue(eventId: Option<ID>, now: int) returns (count: nat)
      requires Valid()
      modifies this`entries
      ensures Valid()
      ensures RequeueOutcome(old(entries), eventId, now, count, entries)
    {
      var scope := if eventId.Some? then {eventId.value} else entries.Keys;
      var dead := set k | k in entries && entries[k].state.Dead? && (eventId.None? || k == eventId.value);
      count := |dead|;
      entries := RequeueAll(entries, scope, now);
    }

    /** Delete up to `limit` sent rows finished before the retention bound; which ones is the database's choice. */
    method Prune(retentionMs: int, limit: nat, now: int) returns (count: nat, ghost removed: set<ID>)
      requires Valid()
      modifies this
      ensures Valid()
      ensures PruneOutcome(old(envelopes), old(entries), retentionMs, limit, now, count, removed, envelopes, entries)
    {
      var expired := Expired(entries, retentionMs, now);
      ghost var some := SubsetOfSize(expired, Min(limit, |expired|));
      var chosen :| chosen <= expired && |chosen| == Min(limit, |expired|);
      entries := entries - chosen;
      envelopes := envelopes - chosen;
      count, removed := |chosen|, chosen;
    }
  }

  lemma {:induction false} SubsetOfSize<T>(s: set<T>, n: nat) returns (r: set<T>)
    requires n <= |s|
    ensures r <= s && |r| == n
    decreases |s|
  {
    if n == |s| {
      r := s;
    } else {
      var x :| x in s;
      r := SubsetOfSize(s - {x}, n);
    }
  }

  /** A publisher's answer: the receipt it returned, or the type of its failure. */
  datatype Receipt = Receipt(eventId: ID, durable: bool)

  type Answer = Result<Receipt, string>

  /** Only a durable receipt for this very event settles the row as sent. */
  predicate Confirms(event: Envelope, answer: Answer) {
    answer.Ok? && answer.value.durable && answer.value.eventId == event.id
  }

  function Verdict(event: Envelope, answer: Answer): Outcome {
    if Confirms(event, answer) then None
    else if answer.Ok? then Some("events.invalid_receipt")
    else Some(answer.error)
  }

  function Expired(t: Table<ID>, retentionMs: int, now: int): set<ID> {
    set k | k in t && t[k].state.Settled? && t[k].finishedAt.Some? && t[k].finishedAt.value < now - retentionMs
  }
}
