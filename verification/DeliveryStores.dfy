/**
 * The methods of the PostgreSQL outbox and mailbox are the steps of the delivery protocol: what each one's contract says
 * of its table is what the step leaves in the protocol's table.
 */
module DeliveryStores {
  import opened Prelude
  import opened Ids
  import opened Events
  import opened Ledger
  import opened Delivery
  import Retry
  import O = Outbox
  import M = Mailbox

  // ----- The outbox -----

  lemma NewEnqueued(w: World, event: Envelope, now: int, c: Config)
    requires event.id !in w.envelopes && event.id !in w.outbox.entries
    ensures
      var next := Enqueueing(w, event, now, c);
      && next.envelopes == w.envelopes[event.id := event] && next.outbox.entries == w.outbox.entries[event.id := Fresh(now)]
      && event in next.enqueued
  {
  }

  /** Enqueueing is the enqueue step; a refused one stores nothing there either, and counts no event as enqueued. */
  lemma EnqueueFollows(w: World, event: Envelope, now: int, r: Result<(), Failure>, envelopes: map<ID, Envelope>,
                       entries: Table<ID>, c: Config)
    requires w.envelopes.Keys == w.outbox.entries.Keys
    requires O.EnqueueOutcome(w.envelopes, w.outbox.entries, event, now, r, envelopes, entries)
    ensures
      var next := Enqueueing(w, event, now, c);
      && next == Next(w, Enqueue(event, now), c)
      && next.envelopes == envelopes && next.outbox.entries == entries
      && (r.Ok? ==> event.id in envelopes && envelopes[event.id] in next.enqueued)
      && (r.Err? ==> next == w)
  {
    if event.id !in w.envelopes { NewEnqueued(w, event, now, c); }
  }

  /** A claim of the store is a sweep and then, if anything is due, the claim step, which hands its worker exactly the
      claim the store answers. */
  lemma OutboxClaimFollows(w: World, worker: Worker, token: Token, sweptAt: int, now: int, locked: set<ID>,
                           r: O.Claimed, entries: Table<ID>, c: Config)
    requires TablesFit(w, c) && worker !in w.dispatches && !Used(w.outbox, token)
    requires O.ClaimOutcome(w.envelopes, w.outbox.entries, c.outbox.maxAttempts, token, sweptAt, now, locked, r, entries)
    ensures
      var swept := Next(w, SweepOutbox(sweptAt), c);
      match r
      case Nothing =>
        && entries == swept.outbox.entries
        && forall id :: !Enabled(swept, ClaimOutbox(worker, id, token, locked, now), c)
      case Quarantined(id) =>
        var step := ClaimOutbox(worker, id, token, locked, now);
        Enabled(swept, step, c) && Next(swept, step, c).outbox.entries == entries
        && Next(swept, step, c).dispatches == w.dispatches
      case Leased(event, t, attempt) =>
        var step := ClaimOutbox(worker, event.id, token, locked, now);
        Enabled(swept, step, c) && Next(swept, step, c).outbox.entries == entries
        && Next(swept, step, c).dispatches == w.dispatches[worker := Dispatch(Issue(event.id, t, attempt), event, None)]
  {
  }

  /** A dispatcher's `ack` or `release` is the settle step, whichever way the lease stands. */
  lemma OutboxFinishFollows(w: World, worker: Worker, random: real, now: int, r: Result<(), Failure>, entries: Table<ID>,
                            c: Config)
    requires worker in w.dispatches && DispatchFits(w, w.dispatches[worker], c) && w.dispatches[worker].verdict.Some?
    requires
      var d := w.dispatches[worker];
      O.FinishOutcome(w.outbox.entries, d.event.id, d.issue.token, d.issue.attempt, d.verdict.value, c.outbox, random, now, r, entries)
    ensures Next(w, SettleOutbox(worker, random, now), c).outbox.entries == entries
    ensures r.Err? ==> Next(w, SettleOutbox(worker, random, now), c).outbox == w.outbox
  {
  }

  lemma OutboxRequeueFollows(w: World, eventId: Option<ID>, now: int, count: nat, entries: Table<ID>, c: Config)
    requires O.RequeueOutcome(w.outbox.entries, eventId, now, count, entries)
    ensures
      var scope := if eventId.Some? then {eventId.value} else w.outbox.entries.Keys;
      Next(w, RequeueOutbox(scope, now), c).outbox.entries == entries
  {
    var scope := if eventId.Some? then {eventId.value} else w.outbox.entries.Keys;
    var next := Next(w, RequeueOutbox(scope, now), c).outbox.entries;
    assert next.Keys == entries.Keys;
  }

  lemma OutboxPruneFollows(w: World, retentionMs: int, limit: nat, now: int, count: nat, removed: set<ID>,
                           envelopes: map<ID, Envelope>, entries: Table<ID>, c: Config)
    requires O.PruneOutcome(w.envelopes, w.outbox.entries, retentionMs, limit, now, count, removed, envelopes, entries)
    ensures
      var step := PruneOutbox(removed, retentionMs, now);
      Enabled(w, step, c) && Next(w, step, c).outbox.entries == entries && Next(w, step, c).envelopes == envelopes
  {
  }

  // ----- The mailbox -----

  /** `accept` succeeds exactly when the protocol accepts. */
  lemma AcceptedIff(w: World, event: Envelope, consumers: set<string>, now: int, r: Result<(), Failure>,
                    events: map<ID, Envelope>, receipts: Table<Key>)
    requires M.AcceptOutcome(w.events, w.receipts.entries, event, consumers, now, r, events, receipts)
    ensures r.Ok? <==> Acceptable(w, event, consumers)
    ensures r.Err? ==> events == w.events && receipts == w.receipts.entries
    ensures r.Ok? ==> events == (if event.id in w.events then w.events else w.events[event.id := event])
                      && receipts == w.receipts.entries + M.Opened(w.receipts.entries, event.id, consumers, now)
  {
  }

  lemma OpenedIsInsert(entries: Table<Key>, id: ID, consumers: set<string>, now: int)
    ensures M.Opened(entries, id, consumers, now)
         == map k | k in KeysFor(id, consumers) && k !in entries :: Fresh(now)
  {
  }

  /** It leaves the same events and receipts; a refused one leaves the world as it is, as the accepting steps do. */
  lemma AcceptFollows(w: World, event: Envelope, consumers: set<string>, now: int, r: Result<(), Failure>,
                      events: map<ID, Envelope>, receipts: Table<Key>, c: Config)
    requires M.AcceptOutcome(w.events, w.receipts.entries, event, consumers, now, r, events, receipts)
    ensures
      var next := if Acceptable(w, event, consumers) then Accepting(w, event, consumers, now, c) else w;
      next.events == events && next.receipts.entries == receipts
  {
    AcceptedIff(w, event, consumers, now, r, events, receipts);
    OpenedIsInsert(w.receipts.entries, event.id, consumers, now);
  }

  /** So a transfer's accept is the accepting step of its message, which stores what it stores or nothing. */
  lemma TransferAcceptFollows(w: World, worker: Worker, at: Sequence, consumers: set<string>, now: int,
                              r: Result<(), Failure>, events: map<ID, Envelope>, receipts: Table<Key>, c: Config)
    requires Enabled(w, AcceptMessage(worker, at, consumers, now), c)
    requires M.AcceptOutcome(w.events, w.receipts.entries, w.stream[at], consumers, now, r, events, receipts)
    ensures
      var next := Next(w, AcceptMessage(worker, at, consumers, now), c);
      && next.events == events && next.receipts.entries == receipts
      && next.transfers == if r.Ok? then w.transfers[worker := at] else w.transfers
  {
    AcceptedIff(w, w.stream[at], consumers, now, r, events, receipts);
    AcceptFollows(w, w.stream[at], consumers, now, r, events, receipts, c);
  }

  /** A claim that finds nothing leaves the sweep, after which no receipt of the consumer can be claimed. */
  lemma MailboxNothingFollows(w: World, worker: Worker, consumer: string, token: Token, sweptAt: int, now: int,
                              locked: set<Key>, receipts: Table<Key>, c: Config)
    requires TablesFit(w, c)
    requires M.ClaimOutcome(w.events, w.receipts.entries, consumer, c.inbox.maxAttempts, token, sweptAt, now, locked, M.Nothing, receipts)
    ensures
      var swept := Next(w, SweepReceipts(consumer, sweptAt), c);
      && receipts == swept.receipts.entries
      && forall id :: !Enabled(swept, ClaimReceipt(worker, (id, consumer), token, locked, now), c)
  {
  }

  /** Any other claim is the sweep and then the claim step, which hands its worker exactly what the claim answers. */
  lemma MailboxClaimFollows(w: World, worker: Worker, id: ID, consumer: string, token: Token, attempt: int, sweptAt: int,
                            now: int, locked: set<Key>, r: M.Claimed, receipts: Table<Key>, c: Config)
    requires TablesFit(w, c) && worker !in w.handlings && !Used(w.receipts, token)
    requires r == M.Quarantined(id, attempt) || (r.Leased? && r.event.id == id && r.attempt == attempt)
    requires M.ClaimOutcome(w.events, w.receipts.entries, consumer, c.inbox.maxAttempts, token, sweptAt, now, locked, r, receipts)
    ensures
      var swept := Next(w, SweepReceipts(consumer, sweptAt), c);
      var step := ClaimReceipt(worker, (id, consumer), token, locked, now);
      && Enabled(swept, step, c) && Next(swept, step, c).receipts.entries == receipts
      && Next(swept, step, c).handlings
         == if r.Leased? then w.handlings[worker := Handling(Issue((id, consumer), token, attempt), r.event, None)]
            else w.handlings
  {
  }

  lemma MailboxFinishFollows(w: World, worker: Worker, random: real, now: int, r: Result<M.Delivery, Failure>,
                             receipts: Table<Key>, c: Config)
    requires worker in w.handlings && HandlingFits(w, w.handlings[worker]) && w.handlings[worker].result.Some?
    requires
      var h := w.handlings[worker];
      M.FinishOutcome(w.receipts.entries, (h.event.id, h.issue.key.1), h.issue.token, h.issue.attempt, h.result.value,
                      c.inbox, random, now, r, receipts)
    ensures Next(w, SettleReceipt(worker, random, now), c).receipts.entries == receipts
    ensures r.Err? ==> Next(w, SettleReceipt(worker, random, now), c).receipts == w.receipts
  {
  }

  /** A requeue under a valid name is the requeue step; an invalid name changes nothing. */
  lemma MailboxRequeueFollows(w: World, consumer: string, eventId: Option<ID>, now: int, r: Result<nat, Failure>,
                              receipts: Table<Key>, c: Config)
    requires M.RequeueOutcome(w.receipts.entries, consumer, eventId, now, r, receipts)
    ensures r.Err? ==> receipts == w.receipts.entries
    ensures r.Ok? ==>
      var scope := set k | k in w.receipts.entries && k.1 == consumer && (eventId.None? || k.0 == eventId.value);
      Next(w, RequeueReceipts(scope, now), c).receipts.entries == receipts
  {
    var scope := set k | k in w.receipts.entries && k.1 == consumer && (eventId.None? || k.0 == eventId.value);
    assert Next(w, RequeueReceipts(scope, now), c).receipts.entries.Keys == receipts.Keys;
  }

  lemma MailboxPruneFollows(w: World, retentionMs: int, limit: nat, now: int, count: nat, removed: set<ID>,
                            events: map<ID, Envelope>, receipts: Table<Key>, c: Config)
    requires M.PruneOutcome(w.events, w.receipts.entries, retentionMs, limit, now, count, removed, events, receipts)
    ensures
      var step := PruneMailbox(removed, retentionMs, now);
      Enabled(w, step, c) && Next(w, step, c).events == events && Next(w, step, c).receipts.entries == receipts
  {
  }
}
