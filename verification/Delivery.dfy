/**
 * The delivery protocol: outbox, JetStream, mailbox receipts and handlers as one state machine in which any
 * number of dispatchers, transfer workers and deliverers interleave and may crash or time out after any step
 * (src/shared/events/postgres/store.ts, src/shared/events/nats/broker.ts, src/platform/events/event-delivery.ts).
 */
module Delivery {
  import opened Prelude
  import opened Ids
  import opened Events
  import opened Ledger
  import Retry
  import O = Outbox
  import M = Mailbox

  type Key = M.Key
  type Worker = nat
  type Sequence = nat

  /** A dispatcher between its claim and its settle; `verdict` is None until the publisher answered. */
  datatype Dispatch = Dispatch(issue: Issue<ID>, event: Envelope, verdict: Option<Outcome>)

  /** A deliverer between its claim and its settle; `result` is None until the handler returned. */
  datatype Handling = Handling(issue: Issue<Key>, event: Envelope, result: Option<Outcome>)

  datatype World = World(
    envelopes: map<ID, Envelope>,
    outbox: History<ID>,
    stream: map<Sequence, Envelope>,
    unacked: set<Sequence>,
    events: map<ID, Envelope>,
    receipts: History<Key>,
    dispatches: map<Worker, Dispatch>,
    transfers: map<Worker, Sequence>,
    handlings: map<Worker, Handling>,
    enqueued: set<Envelope>,
    handled: set<(Envelope, string)>)

  /** The retry policies, and the consumers subscribed throughout. */
  datatype Config = Config(outbox: Retry.Policy, inbox: Retry.Policy, subscribed: set<string>) {
    predicate Valid() {
      outbox.maxAttempts >= 1 && inbox.maxAttempts >= 1 && forall c | c in subscribed :: IsConsumer(c)
    }
  }

  const EMPTY := World(map[], History(map[], {}, map[], map[]), map[], {}, map[],
                       History(map[], {}, map[], map[]), map[], map[], map[], {}, {})

  datatype Step =
    | Enqueue(event: Envelope, now: int)
    | SweepOutbox(now: int)
    | ClaimOutbox(worker: Worker, id: ID, token: Token, locked: set<ID>, now: int)
    /** JetStream stored the message; whatever the publisher answers then, its receipt or a lost connection. */
    | PublishStored(worker: Worker, at: Sequence, answer: O.Answer)
    /** JetStream recognised the message id; the broker compares the stored copy before answering. */
    | PublishDuplicate(worker: Worker, at: Sequence, answer: O.Answer)
    /** Nothing was handed over: an error, or a receipt that is not durable or names another event. */
    | PublishRefused(worker: Worker, answer: O.Answer)
    /** Without NATS the dispatcher publishes straight into the mailbox. */
    | PublishDirect(worker: Worker, consumers: set<string>, answer: O.Answer, now: int)
    | SettleOutbox(worker: Worker, random: real, now: int)
    | CrashDispatch(worker: Worker)
    | AcceptMessage(worker: Worker, at: Sequence, consumers: set<string>, now: int)
    | AckMessage(worker: Worker)
    | CrashTransfer(worker: Worker)
    /** The broker stops redelivery of a message that does not decode. */
    | TerminateMessage(at: Sequence)
    | SweepReceipts(consumer: string, now: int)
    | ClaimReceipt(worker: Worker, key: Key, token: Token, held: set<Key>, now: int)
    | Handle(worker: Worker, result: Outcome)
    | SettleReceipt(worker: Worker, random: real, now: int)
    | CrashHandling(worker: Worker)
    | RequeueOutbox(ids: set<ID>, now: int)
    | RequeueReceipts(keys: set<Key>, now: int)
    | PruneOutbox(ids: set<ID>, retentionMs: int, now: int)
    | PruneMailbox(ids: set<ID>, retentionMs: int, now: int)

  // ----- accept -----

  predicate Acceptable(w: World, event: Envelope, consumers: set<string>) {
    && (forall c | c in consumers :: IsConsumer(c))
    && (event.id in w.events ==> w.events[event.id].content == event.content)
  }

  function KeysFor(id: ID, consumers: set<string>): set<Key> { set c | c in consumers :: (id, c) }

  function Accepting(w: World, event: Envelope, consumers: set<string>, now: int, c: Config): World {
    w.(events := if event.id in w.events then w.events else w.events[event.id := event],
       receipts := Apply(w.receipts, InsertSome(KeysFor(event.id, consumers), now), c.inbox))
  }

  // ----- The outbox and its dispatchers -----

  function Enqueueing(w: World, event: Envelope, now: int, c: Config): World {
    if event.id !in w.envelopes then
      w.(envelopes := w.envelopes[event.id := event], enqueued := w.enqueued + {event},
         outbox := Apply(w.outbox, InsertSome({event.id}, now), c.outbox))
    else if w.envelopes[event.id].content == event.content then
      w.(enqueued := w.enqueued + {w.envelopes[event.id]})
    else w
  }

  function SweepingOutbox(w: World, now: int, c: Config): World {
    w.(outbox := Apply(w.outbox, Sweep(w.outbox.entries.Keys, now), c.outbox))
  }

  ghost predicate CanClaimOutbox(w: World, worker: Worker, id: ID, token: Token, locked: set<ID>, now: int, c: Config) {
    worker !in w.dispatches && id in w.envelopes && !Used(w.outbox, token)
    && O.Candidate(w.outbox.entries, c.outbox.maxAttempts, now, locked, id)
  }

  function ClaimingOutbox(w: World, worker: Worker, id: ID, token: Token, now: int, c: Config): World
    requires id in w.envelopes && id in w.outbox.entries
  {
    if w.envelopes[id].decodable then
      var next := Apply(w.outbox, ClaimOne(id, token, now), c.outbox);
      var issue := Issue(id, token, next.entries[id].attempts);
      w.(outbox := next, dispatches := w.dispatches[worker := Dispatch(issue, w.envelopes[id], None)])
    else w.(outbox := Apply(w.outbox, QuarantineOne(id, token, now), c.outbox))
  }

  predicate Publishing(w: World, worker: Worker) {
    worker in w.dispatches && w.dispatches[worker].verdict.None?
  }

  /** The dispatcher judges the publisher's answer. */
  function Answered(w: World, worker: Worker, answer: O.Answer): World
    requires worker in w.dispatches
  {
    var d := w.dispatches[worker];
    w.(dispatches := w.dispatches[worker := d.(verdict := Some(O.Verdict(d.event, answer)))])
  }

  const ID_REUSED: O.Answer := Err("events.id_reused")

  function PublishingStored(w: World, worker: Worker, at: Sequence, answer: O.Answer): World
    requires worker in w.dispatches
  {
    Answered(w, worker, answer).(stream := w.stream[at := w.dispatches[worker].event], unacked := w.unacked + {at})
  }

  function PublishingDuplicate(w: World, worker: Worker, at: Sequence, answer: O.Answer): World
    requires worker in w.dispatches && at in w.stream
  {
    var same := w.stream[at].content == w.dispatches[worker].event.content;
    Answered(w, worker, if same then answer else ID_REUSED)
  }

  function PublishingDirect(w: World, worker: Worker, consumers: set<string>, answer: O.Answer, now: int, c: Config): World
    requires worker in w.dispatches
  {
    var event := w.dispatches[worker].event;
    if Acceptable(w, event, consumers) then Answered(Accepting(w, event, consumers, now, c), worker, answer)
    else Answered(w, worker, ID_REUSED)
  }

  function SettlingOutbox(w: World, worker: Worker, random: real, now: int, c: Config): World
    requires worker in w.dispatches && w.dispatches[worker].verdict.Some?
  {
    var d := w.dispatches[worker];
    w.(outbox := Apply(w.outbox, SettleOne(d.issue, d.verdict.value, random, now, true), c.outbox),
       dispatches := w.dispatches - {worker})
  }

  function RequeueingOutbox(w: World, ids: set<ID>, now: int, c: Config): World {
    w.(outbox := Apply(w.outbox, RequeueSome(ids, now), c.outbox))
  }

  function PruningOutbox(w: World, ids: set<ID>, now: int, c: Config): World {
    w.(outbox := Apply(w.outbox, DeleteSome(ids, now), c.outbox), envelopes := w.envelopes - ids)
  }

  // ----- JetStream to mailbox -----

  function AcceptingMessage(w: World, worker: Worker, at: Sequence, consumers: set<string>, now: int, c: Config): World
    requires at in w.stream
  {
    if Acceptable(w, w.stream[at], consumers) then
      Accepting(w, w.stream[at], consumers, now, c).(transfers := w.transfers[worker := at])
    else w
  }

  function AckingMessage(w: World, worker: Worker): World
    requires worker in w.transfers
  {
    w.(unacked := w.unacked - {w.transfers[worker]}, transfers := w.transfers - {worker})
  }

  // ----- The mailbox and its deliverers -----

  ghost function SweepingReceipts(w: World, consumer: string, now: int, c: Config): World {
    w.(receipts := Apply(w.receipts, Sweep(M.Scope(w.receipts.entries, consumer), now), c.inbox))
  }

  ghost predicate CanClaimReceipt(w: World, worker: Worker, key: Key, token: Token, held: set<Key>, now: int, c: Config) {
    worker !in w.handlings && key.0 in w.events && !Used(w.receipts, token)
    && M.Candidate(w.receipts.entries, key.1, c.inbox.maxAttempts, now, held, key)
  }

  function ClaimingReceipt(w: World, worker: Worker, key: Key, token: Token, now: int, c: Config): World
    requires key.0 in w.events && key in w.receipts.entries
  {
    if w.events[key.0].decodable then
      var next := Apply(w.receipts, ClaimOne(key, token, now), c.inbox);
      var issue := Issue(key, token, next.entries[key].attempts);
      w.(receipts := next, handlings := w.handlings[worker := Handling(issue, w.events[key.0], None)])
    else w.(receipts := Apply(w.receipts, QuarantineOne(key, token, now), c.inbox))
  }

  function HandlingDone(w: World, worker: Worker, result: Outcome): World
    requires worker in w.handlings
  {
    var h := w.handlings[worker];
    w.(handlings := w.handlings[worker := h.(result := Some(result))],
       handled := if result.None? then w.handled + {(h.event, h.issue.key.1)} else w.handled)
  }

  function SettlingReceipt(w: World, worker: Worker, random: real, now: int, c: Config): World
    requires worker in w.handlings && w.handlings[worker].result.Some?
  {
    var h := w.handlings[worker];
    w.(receipts := Apply(w.receipts, SettleOne(h.issue, h.result.value, random, now, false), c.inbox),
       handlings := w.handlings - {worker})
  }

  function RequeueingReceipts(w: World, keys: set<Key>, now: int, c: Config): World {
    w.(receipts := Apply(w.receipts, RequeueSome(keys, now), c.inbox))
  }

  function ReceiptsOf(w: World, ids: set<ID>): set<Key> { set k | k in w.receipts.entries && k.0 in ids }

  function PruningMailbox(w: World, ids: set<ID>, now: int, c: Config): World {
    w.(receipts := Apply(w.receipts, DeleteSome(ReceiptsOf(w, ids), now), c.inbox), events := w.events - ids)
  }

  // ----- The step relation -----

  ghost predicate Enabled(w: World, s: Step, c: Config) {
    match s
    case ClaimOutbox(worker, id, token, locked, now) => CanClaimOutbox(w, worker, id, token, locked, now, c)
    case PublishStored(worker, at, _) => Publishing(w, worker) && at !in w.stream
    case PublishDuplicate(worker, at, _) =>
      Publishing(w, worker) && at in w.stream && w.stream[at].id == w.dispatches[worker].event.id
    case PublishRefused(worker, answer) => Publishing(w, worker) && !O.Confirms(w.dispatches[worker].event, answer)
    case PublishDirect(worker, consumers, _, _) => Publishing(w, worker) && c.subscribed <= consumers
    case SettleOutbox(worker, _, _) => worker in w.dispatches && w.dispatches[worker].verdict.Some?
    case AcceptMessage(worker, at, consumers, _) =>
      worker !in w.transfers && at in w.unacked && at in w.stream && w.stream[at].decodable && c.subscribed <= consumers
    case AckMessage(worker) => worker in w.transfers
    case TerminateMessage(at) => at in w.unacked && at in w.stream && !w.stream[at].decodable
    case ClaimReceipt(worker, key, token, held, now) => CanClaimReceipt(w, worker, key, token, held, now, c)
    case Handle(worker, _) => worker in w.handlings && w.handlings[worker].result.None?
    case SettleReceipt(worker, _, _) => worker in w.handlings && w.handlings[worker].result.Some?
    case PruneOutbox(ids, retentionMs, now) => ids <= O.Expired(w.outbox.entries, retentionMs, now)
    case PruneMailbox(ids, retentionMs, now) => forall id | id in ids :: M.Prunable(w.receipts.entries, id, retentionMs, now)
    case _ => true
  }

  ghost function Next(w: World, s: Step, c: Config): World
    requires Enabled(w, s, c)
  {
    match s
    case Enqueue(event, now) => Enqueueing(w, event, now, c)
    case SweepOutbox(now) => SweepingOutbox(w, now, c)
    case ClaimOutbox(worker, id, token, _, now) => ClaimingOutbox(w, worker, id, token, now, c)
    case PublishStored(worker, at, answer) => PublishingStored(w, worker, at, answer)
    case PublishDuplicate(worker, at, answer) => PublishingDuplicate(w, worker, at, answer)
    case PublishRefused(worker, answer) => Answered(w, worker, answer)
    case PublishDirect(worker, consumers, answer, now) => PublishingDirect(w, worker, consumers, answer, now, c)
    case SettleOutbox(worker, random, now) => SettlingOutbox(w, worker, random, now, c)
    case CrashDispatch(worker) => w.(dispatches := w.dispatches - {worker})
    case AcceptMessage(worker, at, consumers, now) => AcceptingMessage(w, worker, at, consumers, now, c)
    case AckMessage(worker) => AckingMessage(w, worker)
    case CrashTransfer(worker) => w.(transfers := w.transfers - {worker})
    case TerminateMessage(at) => w.(unacked := w.unacked - {at})
    case SweepReceipts(consumer, now) => SweepingReceipts(w, consumer, now, c)
    case ClaimReceipt(worker, key, token, _, now) => ClaimingReceipt(w, worker, key, token, now, c)
    case Handle(worker, result) => HandlingDone(w, worker, result)
    case SettleReceipt(worker, random, now) => SettlingReceipt(w, worker, random, now, c)
    case CrashHandling(worker) => w.(handlings := w.handlings - {worker})
    case RequeueOutbox(ids, now) => RequeueingOutbox(w, ids, now, c)
    case RequeueReceipts(keys, now) => RequeueingReceipts(w, keys, now, c)
    case PruneOutbox(ids, _, now) => PruningOutbox(w, ids, now, c)
    case PruneMailbox(ids, _, now) => PruningMailbox(w, ids, now, c)
  }

  // ----- Where an event is -----

  /** Waiting in the outbox, or dead there until an operator requeues it. */
  ghost predicate InOutbox(w: World, event: Envelope) {
    event.id in w.envelopes && w.envelopes[event.id] == event
    && event.id in w.outbox.entries && !w.outbox.entries[event.id].state.Settled?
  }

  ghost predicate Queued(w: World, event: Envelope) {
    exists at :: at in w.unacked && at in w.stream && w.stream[at] == event
  }

  /** Held by a receipt that is pending or dead. */
  ghost predicate Held(w: World, event: Envelope, consumer: string) {
    var key := (event.id, consumer);
    event.id in w.events && w.events[event.id] == event
    && key in w.receipts.entries && !w.receipts.entries[key].state.Settled?
  }

  ghost predicate Accounted(w: World, event: Envelope, consumer: string) {
    Held(w, event, consumer) || (event, consumer) in w.handled
  }

  ghost predicate HandedOver(w: World, event: Envelope, c: Config) {
    Queued(w, event) || forall consumer | consumer in c.subscribed :: Accounted(w, event, consumer)
  }

  /** Nothing is lost: every enqueued event is somewhere, for every subscribed consumer. */
  ghost predicate NoLoss(w: World, c: Config) {
    forall event, consumer | event in w.enqueued && consumer in c.subscribed ::
      InOutbox(w, event) || Queued(w, event) || Held(w, event, consumer) || (event, consumer) in w.handled
  }

  // ----- The inductive invariant -----

  ghost predicate TablesFit(w: World, c: Config) {
    && Consistent(w.outbox, c.outbox.maxAttempts) && Consistent(w.receipts, c.inbox.maxAttempts)
    && w.envelopes.Keys == w.outbox.entries.Keys
    && (forall id | id in w.envelopes :: w.envelopes[id].id == id && w.envelopes[id] in w.enqueued)
    && (forall id | id in w.events :: w.events[id].id == id && w.events[id].decodable)
    && (forall k | k in w.receipts.entries :: k.0 in w.events)
  }

  /** A dispatcher's claim, while it is the row's, is of the row's own envelope; a good verdict means handed over. */
  ghost predicate DispatchFits(w: World, d: Dispatch, c: Config) {
    && d.issue in w.outbox.issued && d.issue.key == d.event.id && d.event.decodable
    && (d.issue.key in w.outbox.entries && w.outbox.entries[d.issue.key].lease.Some?
        && w.outbox.entries[d.issue.key].lease.value.token == d.issue.token
        ==> d.issue.key in w.envelopes && w.envelopes[d.issue.key] == d.event)
    && (d.verdict == Some(None) ==> HandedOver(w, d.event, c))
  }

  ghost predicate HandlingFits(w: World, h: Handling) {
    && h.issue in w.receipts.issued && h.issue.key.0 == h.event.id
    && (h.issue.key in w.receipts.entries && w.receipts.entries[h.issue.key].lease.Some?
        && w.receipts.entries[h.issue.key].lease.value.token == h.issue.token
        ==> h.event.id in w.events && w.events[h.event.id] == h.event)
    && (h.result == Some(None) ==> (h.event, h.issue.key.1) in w.handled)
  }

  ghost predicate AllAccounted(w: World, event: Envelope, c: Config) {
    forall consumer | consumer in c.subscribed :: Accounted(w, event, consumer)
  }

  ghost predicate WorkersFit(w: World, c: Config) {
    && (forall k | k in w.dispatches :: DispatchFits(w, w.dispatches[k], c))
    && (forall k | k in w.handlings :: HandlingFits(w, w.handlings[k]))
    && (forall k | k in w.transfers :: w.transfers[k] in w.stream && AllAccounted(w, w.stream[w.transfers[k]], c))
  }

  ghost predicate EventsFit(w: World, c: Config) {
    && w.unacked <= w.stream.Keys
    && (forall at | at in w.stream :: w.stream[at].decodable && HandedOver(w, w.stream[at], c))
    && (forall k | k in w.receipts.entries && w.receipts.entries[k].state.Settled? ::
          k.0 in w.events && (w.events[k.0], k.1) in w.handled)
    && (forall event | event in w.enqueued :: InOutbox(w, event) || HandedOver(w, event, c))
  }

  ghost predicate Inv(w: World, c: Config) {
    TablesFit(w, c) && WorkersFit(w, c) && EventsFit(w, c)
  }

  lemma InvNoLoss(w: World, c: Config)
    requires Inv(w, c)
    ensures NoLoss(w, c)
  {
  }

  /** Nothing a step does takes an event away from a consumer it is accounted to, or from the queue. */
  ghost predicate Keeps(w: World, w': World, c: Config) {
    && (forall event, consumer | Accounted(w, event, consumer) :: Accounted(w', event, consumer))
    && (forall event | Queued(w, event) :: HandedOver(w', event, c))
  }

  /** The parts a dispatcher works on, untouched everything behind the outbox. */
  ghost predicate SameBehind(w: World, w': World) {
    && w'.stream == w.stream && w'.unacked == w.unacked && w'.events == w.events && w'.receipts == w.receipts
    && w'.handled == w.handled && w'.transfers == w.transfers && w'.handlings == w.handlings
  }

  lemma SameBehindKeeps(w: World, w': World, c: Config)
    requires SameBehind(w, w')
    ensures forall event, consumer :: Accounted(w', event, consumer) == Accounted(w, event, consumer)
    ensures forall event :: Queued(w', event) == Queued(w, event)
    ensures forall event :: HandedOver(w', event, c) == HandedOver(w, event, c)
  {
    forall event
      ensures Queued(w', event) == Queued(w, event)
    {
      if Queued(w, event) {
        var at :| at in w.unacked && at in w.stream && w.stream[at] == event;
        assert at in w'.unacked;
      }
      if Queued(w', event) {
        var at :| at in w'.unacked && at in w'.stream && w'.stream[at] == event;
        assert at in w.unacked;
      }
    }
  }

  // ----- Steps on the outbox -----

  /** The row is under this very claim. */
  ghost predicate Under<K(!new)>(h: History<K>, issue: Issue<K>) {
    issue.key in h.entries && h.entries[issue.key].lease.Some? && h.entries[issue.key].lease.value.token == issue.token
  }

  lemma StillUnder<K(!new)>(h: History<K>, m: Move<K>, policy: Retry.Policy, issue: Issue<K>)
    requires Allowed(h, m, policy) && issue in h.issued && Under(Apply(h, m, policy), issue)
    ensures Under(h, issue)
  {
    OldTokenStays(h, m, policy, issue.key, issue.token);
  }

  /** A ledger move on the outbox, with the envelopes of the surviving rows unchanged. */
  ghost predicate OutboxMove(w: World, w': World, m: Move<ID>, c: Config) {
    && SameBehind(w, w') && Allowed(w.outbox, m, c.outbox) && w'.outbox == Apply(w.outbox, m, c.outbox)
    && w'.envelopes.Keys == w'.outbox.entries.Keys && w.enqueued <= w'.enqueued
    && (forall id | id in w'.envelopes ::
          if id in w.envelopes then w'.envelopes[id] == w.envelopes[id]
          else w'.envelopes[id].id == id && w'.envelopes[id] in w'.enqueued)
  }

  lemma OutboxMoveTables(w: World, w': World, m: Move<ID>, c: Config)
    requires c.Valid() && TablesFit(w, c) && OutboxMove(w, w', m, c)
    ensures TablesFit(w', c)
  {
    ApplyConsistent(w.outbox, m, c.outbox);
  }

  lemma OutboxMoveDispatch(w: World, w': World, m: Move<ID>, c: Config, d: Dispatch)
    requires TablesFit(w, c) && OutboxMove(w, w', m, c) && DispatchFits(w, d, c)
    ensures DispatchFits(w', d, c)
  {
    SameBehindKeeps(w, w', c);
    IssuedGrows(w.outbox, m, c.outbox);
    if Under(w'.outbox, d.issue) {
      StillUnder(w.outbox, m, c.outbox, d.issue);
    }
  }

  /** What is left to show after a step on the outbox: its new dispatch, and the events that left the table. */
  lemma OutboxMoveInv(w: World, w': World, m: Move<ID>, c: Config)
    requires c.Valid() && Inv(w, c) && OutboxMove(w, w', m, c)
    requires forall k | k in w'.dispatches && !(k in w.dispatches && w.dispatches[k] == w'.dispatches[k]) ::
               DispatchFits(w', w'.dispatches[k], c)
    requires forall event | event in w'.enqueued :: InOutbox(w', event) || (event in w.enqueued && HandedOver(w, event, c))
    ensures Inv(w', c)
  {
    OutboxMoveTables(w, w', m, c);
    SameBehindKeeps(w, w', c);
    forall k | k in w'.dispatches
      ensures DispatchFits(w', w'.dispatches[k], c)
    {
      if k in w.dispatches && w.dispatches[k] == w'.dispatches[k] {
        OutboxMoveDispatch(w, w', m, c, w.dispatches[k]);
      }
    }
    forall k | k in w'.handlings
      ensures HandlingFits(w', w'.handlings[k])
    {
      assert HandlingFits(w, w.handlings[k]);
    }
  }

  lemma EnqueueStep(w: World, event: Envelope, now: int, c: Config)
    requires c.Valid() && Inv(w, c)
    ensures Inv(Enqueueing(w, event, now, c), c)
  {
    var w' := Enqueueing(w, event, now, c);
    if event.id !in w.envelopes {
      OutboxMoveInv(w, w', InsertSome({event.id}, now), c);
    } else {
      assert w'.enqueued == w.enqueued;
    }
  }

  /** A move that settles no row leaves every waiting event waiting. */
  lemma UnsettlingMoveInv(w: World, w': World, m: Move<ID>, c: Config)
    requires c.Valid() && Inv(w, c) && OutboxMove(w, w', m, c)
    requires w'.enqueued == w.enqueued && w'.envelopes == w.envelopes
    requires forall k | k in w'.dispatches && !(k in w.dispatches && w.dispatches[k] == w'.dispatches[k]) ::
               DispatchFits(w', w'.dispatches[k], c)
    requires !m.SettleOne? && !m.DeleteSome?
    ensures Inv(w', c)
  {
    forall event | event in w'.enqueued
      ensures InOutbox(w', event) || (event in w.enqueued && HandedOver(w, event, c))
    {
      if InOutbox(w, event) {
        assert event.id in w'.outbox.entries && !w'.outbox.entries[event.id].state.Settled?;
      }
    }
    OutboxMoveInv(w, w', m, c);
  }

  lemma ClaimOutboxStep(w: World, worker: Worker, id: ID, token: Token, now: int, c: Config)
    requires c.Valid() && Inv(w, c) && worker !in w.dispatches && id in w.envelopes && id in w.outbox.entries
    requires Allowed(w.outbox, ClaimOne(id, token, now), c.outbox)
    ensures Inv(ClaimingOutbox(w, worker, id, token, now, c), c)
  {
    if w.envelopes[id].decodable {
      LeaseOutboxStep(w, worker, id, token, now, c);
    } else {
      UnsettlingMoveInv(w, ClaimingOutbox(w, worker, id, token, now, c), QuarantineOne(id, token, now), c);
    }
  }

  lemma LeaseOutboxStep(w: World, worker: Worker, id: ID, token: Token, now: int, c: Config)
    requires c.Valid() && Inv(w, c) && worker !in w.dispatches && id in w.envelopes && id in w.outbox.entries
    requires Allowed(w.outbox, ClaimOne(id, token, now), c.outbox) && w.envelopes[id].decodable
    ensures Inv(ClaimingOutbox(w, worker, id, token, now, c), c)
  {
    var w' := ClaimingOutbox(w, worker, id, token, now, c);
    var m := ClaimOne(id, token, now);
    NewDispatchFits(w, worker, id, token, now, c);
    assert OutboxMove(w, w', m, c);
    UnsettlingMoveInv(w, w', m, c);
  }

  lemma NewDispatchFits(w: World, worker: Worker, id: ID, token: Token, now: int, c: Config)
    requires TablesFit(w, c) && id in w.envelopes && id in w.outbox.entries && w.envelopes[id].decodable
    ensures var w' := ClaimingOutbox(w, worker, id, token, now, c); DispatchFits(w', w'.dispatches[worker], c)
  {
  }

  lemma SettleOutboxStep(w: World, worker: Worker, random: real, now: int, c: Config)
    requires c.Valid() && Inv(w, c) && worker in w.dispatches && w.dispatches[worker].verdict.Some?
    ensures Inv(SettlingOutbox(w, worker, random, now, c), c)
  {
    var w' := SettlingOutbox(w, worker, random, now, c);
    var d := w.dispatches[worker];
    assert DispatchFits(w, d, c);
    var m := SettleOne(d.issue, d.verdict.value, random, now, true);
    forall event | event in w'.enqueued
      ensures InOutbox(w', event) || (event in w.enqueued && HandedOver(w, event, c))
    {
      if InOutbox(w, event) && !InOutbox(w', event) {
        assert Under(w.outbox, d.issue) && event == d.event;
      }
    }
    OutboxMoveInv(w, w', m, c);
  }

  lemma PruneOutboxStep(w: World, ids: set<ID>, retentionMs: int, now: int, c: Config)
    requires c.Valid() && Inv(w, c) && ids <= O.Expired(w.outbox.entries, retentionMs, now)
    ensures Inv(PruningOutbox(w, ids, now, c), c)
  {
    var w' := PruningOutbox(w, ids, now, c);
    forall event | event in w'.enqueued
      ensures InOutbox(w', event) || (event in w.enqueued && HandedOver(w, event, c))
    {
      if InOutbox(w, event) { assert event.id !in ids; }
    }
    OutboxMoveInv(w, w', DeleteSome(ids, now), c);
  }

  // ----- Steps of the publisher -----

  /** An answer may be recorded if a durable receipt for the event means that the event is handed over. */
  lemma AnsweredInv(w: World, worker: Worker, answer: O.Answer, c: Config)
    requires Inv(w, c) && Publishing(w, worker)
    requires O.Confirms(w.dispatches[worker].event, answer) ==> HandedOver(w, w.dispatches[worker].event, c)
    ensures Inv(Answered(w, worker, answer), c)
  {
    var w' := Answered(w, worker, answer);
    SameBehindKeeps(w, w', c);
    forall k | k in w'.dispatches
      ensures DispatchFits(w', w'.dispatches[k], c)
    {
      assert DispatchFits(w, w.dispatches[k], c);
    }
    forall k | k in w'.handlings
      ensures HandlingFits(w', w'.handlings[k])
    {
      assert HandlingFits(w, w.handlings[k]);
    }
  }

  /** A world with more in the stream, or more accepted, keeps everything already handed over. */
  lemma StoredKeeps(w: World, w': World, at: Sequence, event: Envelope, c: Config)
    requires at !in w.stream && w' == w.(stream := w.stream[at := event], unacked := w.unacked + {at})
    requires w.unacked <= w.stream.Keys
    ensures Keeps(w, w', c) && Queued(w', event)
  {
    forall e | Queued(w, e)
      ensures Queued(w', e)
    {
      var i :| i in w.unacked && i in w.stream && w.stream[i] == e;
      assert i in w'.unacked && w'.stream[i] == e;
    }
    assert at in w'.unacked && w'.stream[at] == event;
  }

  lemma StoreMessage(w: World, at: Sequence, event: Envelope, c: Config)
    requires Inv(w, c) && at !in w.stream && event.decodable
    ensures var w' := w.(stream := w.stream[at := event], unacked := w.unacked + {at});
      Inv(w', c) && HandedOver(w', event, c)
  {
    var w' := w.(stream := w.stream[at := event], unacked := w.unacked + {at});
    StoredKeeps(w, w', at, event, c);
    KeepsInv(w, w', c);
  }

  /** Once everything is kept, only what is new in the stream, the mailbox and the workers remains to be shown. */
  lemma KeepsInv(w: World, w': World, c: Config)
    requires Inv(w, c) && Keeps(w, w', c) && w.handled <= w'.handled
    requires w'.outbox == w.outbox && w'.envelopes == w.envelopes && w'.enqueued == w.enqueued && w'.dispatches == w.dispatches
    requires TablesFit(w', c)
    requires w'.unacked <= w'.stream.Keys
    requires forall at | at in w'.stream && !(at in w.stream && w.stream[at] == w'.stream[at]) ::
               w'.stream[at].decodable && HandedOver(w', w'.stream[at], c)
    requires forall at | at in w.stream :: at in w'.stream && w'.stream[at] == w.stream[at]
    requires forall k | k in w'.handlings :: HandlingFits(w', w'.handlings[k])
    requires forall k | k in w'.transfers && !(k in w.transfers && w.transfers[k] == w'.transfers[k]) ::
               w'.transfers[k] in w'.stream && AllAccounted(w', w'.stream[w'.transfers[k]], c)
    requires forall k | k in w'.receipts.entries && w'.receipts.entries[k].state.Settled? ::
               k.0 in w'.events && (w'.events[k.0], k.1) in w'.handled
    ensures Inv(w', c)
  {
    forall k | k in w'.dispatches
      ensures DispatchFits(w', w'.dispatches[k], c)
    {
      assert DispatchFits(w, w.dispatches[k], c);
    }
    forall k | k in w'.transfers
      ensures w'.transfers[k] in w'.stream && AllAccounted(w', w'.stream[w'.transfers[k]], c)
    {
      if k in w.transfers && w.transfers[k] == w'.transfers[k] {
        assert AllAccounted(w, w.stream[w.transfers[k]], c);
      }
    }
  }

  lemma PublishStoredStep(w: World, worker: Worker, at: Sequence, answer: O.Answer, c: Config)
    requires Inv(w, c) && Publishing(w, worker) && at !in w.stream
    ensures Inv(PublishingStored(w, worker, at, answer), c)
  {
    var event := w.dispatches[worker].event;
    assert DispatchFits(w, w.dispatches[worker], c);
    var stored := w.(stream := w.stream[at := event], unacked := w.unacked + {at});
    StoreMessage(w, at, event, c);
    AnsweredInv(stored, worker, answer, c);
  }

  lemma PublishDuplicateStep(w: World, worker: Worker, at: Sequence, answer: O.Answer, c: Config)
    requires Inv(w, c) && Publishing(w, worker) && at in w.stream && w.stream[at].id == w.dispatches[worker].event.id
    ensures Inv(PublishingDuplicate(w, worker, at, answer), c)
  {
    var event := w.dispatches[worker].event;
    assert DispatchFits(w, w.dispatches[worker], c);
    if w.stream[at].content == event.content {
      assert w.stream[at] == event;
      AnsweredInv(w, worker, answer, c);
    } else {
      AnsweredInv(w, worker, ID_REUSED, c);
    }
  }

  // ----- Steps on the mailbox -----

  /** A ledger move on the receipts, with the stored events of the surviving receipts unchanged. */
  ghost predicate ReceiptMove(w: World, w': World, m: Move<Key>, c: Config) {
    && Allowed(w.receipts, m, c.inbox) && w'.receipts == Apply(w.receipts, m, c.inbox)
    && w'.outbox == w.outbox && w'.envelopes == w.envelopes && w'.enqueued == w.enqueued
    && w'.dispatches == w.dispatches && w'.stream == w.stream && w'.unacked == w.unacked
    && w'.handled == w.handled
    && (forall id | id in w'.events && id in w.events :: w'.events[id] == w.events[id])
    && (forall id | id in w'.events && id !in w.events :: w'.events[id].id == id && w'.events[id].decodable)
    && (forall k | k in w'.receipts.entries :: k.0 in w'.events)
  }

  lemma ReceiptMoveHandling(w: World, w': World, m: Move<Key>, c: Config, h: Handling)
    requires TablesFit(w, c) && ReceiptMove(w, w', m, c) && HandlingFits(w, h)
    ensures HandlingFits(w', h)
  {
    IssuedGrows(w.receipts, m, c.inbox);
    if Under(w'.receipts, h.issue) {
      StillUnder(w.receipts, m, c.inbox, h.issue);
    }
  }

  lemma ReceiptMoveTables(w: World, w': World, m: Move<Key>, c: Config)
    requires c.Valid() && TablesFit(w, c) && ReceiptMove(w, w', m, c)
    ensures TablesFit(w', c)
  {
    ApplyConsistent(w.receipts, m, c.inbox);
  }

  /** Every receipt that left the pending and dead states, or the table, belongs to a handled delivery. */
  lemma ReceiptMoveKeeps(w: World, w': World, m: Move<Key>, c: Config)
    requires TablesFit(w, c) && ReceiptMove(w, w', m, c)
    requires forall k | k in w.receipts.entries && !w.receipts.entries[k].state.Settled? ::
               || (k in w'.receipts.entries && !w'.receipts.entries[k].state.Settled?)
               || (w.events[k.0], k.1) in w'.handled
    ensures Keeps(w, w', c)
  {
    forall event, consumer | Accounted(w, event, consumer)
      ensures Accounted(w', event, consumer)
    {
      var key := (event.id, consumer);
      if Held(w, event, consumer) {
        assert key in w.receipts.entries;
      }
    }
    forall event | Queued(w, event)
      ensures Queued(w', event)
    {
      var at :| at in w.unacked && at in w.stream && w.stream[at] == event;
      assert at in w'.unacked && w'.stream[at] == event;
    }
  }

  lemma ReceiptMoveInv(w: World, w': World, m: Move<Key>, c: Config)
    requires c.Valid() && Inv(w, c) && ReceiptMove(w, w', m, c)
    requires forall k | k in w.receipts.entries && !w.receipts.entries[k].state.Settled? ::
               || (k in w'.receipts.entries && !w'.receipts.entries[k].state.Settled?)
               || (w.events[k.0], k.1) in w'.handled
    requires forall k | k in w'.handlings && !(k in w.handlings && w.handlings[k] == w'.handlings[k]) ::
               HandlingFits(w', w'.handlings[k])
    requires forall k | k in w'.transfers && !(k in w.transfers && w.transfers[k] == w'.transfers[k]) ::
               w'.transfers[k] in w'.stream && AllAccounted(w', w'.stream[w'.transfers[k]], c)
    requires forall k | k in w'.receipts.entries && w'.receipts.entries[k].state.Settled? ::
               (w'.events[k.0], k.1) in w'.handled
    ensures Inv(w', c)
  {
    ReceiptMoveTables(w, w', m, c);
    ReceiptMoveKeeps(w, w', m, c);
    forall k | k in w'.handlings
      ensures HandlingFits(w', w'.handlings[k])
    {
      if k in w.handlings && w.handlings[k] == w'.handlings[k] {
        ReceiptMoveHandling(w, w', m, c, w.handlings[k]);
      }
    }
    KeepsInv(w, w', c);
  }

  /** A move that settles no receipt keeps every pending or dead receipt as one of the two. */
  lemma UnsettlingReceiptInv(w: World, w': World, m: Move<Key>, c: Config)
    requires c.Valid() && Inv(w, c) && ReceiptMove(w, w', m, c) && w'.events == w.events && w'.transfers == w.transfers
    requires !m.SettleOne? && !m.DeleteSome?
    requires forall k | k in w'.handlings && !(k in w.handlings && w.handlings[k] == w'.handlings[k]) ::
               HandlingFits(w', w'.handlings[k])
    ensures Inv(w', c)
  {
    ReceiptMoveInv(w, w', m, c);
  }

  lemma ClaimReceiptStep(w: World, worker: Worker, key: Key, token: Token, now: int, c: Config)
    requires c.Valid() && Inv(w, c) && worker !in w.handlings && key.0 in w.events && key in w.receipts.entries
    requires Allowed(w.receipts, ClaimOne(key, token, now), c.inbox)
    ensures Inv(ClaimingReceipt(w, worker, key, token, now, c), c)
  {
    var w' := ClaimingReceipt(w, worker, key, token, now, c);
    if w.events[key.0].decodable {
      NewHandlingFits(w, worker, key, token, now, c);
      UnsettlingReceiptInv(w, w', ClaimOne(key, token, now), c);
    } else {
      UnsettlingReceiptInv(w, w', QuarantineOne(key, token, now), c);
    }
  }

  lemma NewHandlingFits(w: World, worker: Worker, key: Key, token: Token, now: int, c: Config)
    requires TablesFit(w, c) && key.0 in w.events && key in w.receipts.entries && w.events[key.0].decodable
    ensures var w' := ClaimingReceipt(w, worker, key, token, now, c); HandlingFits(w', w'.handlings[worker])
  {
  }

  lemma SettleReceiptStep(w: World, worker: Worker, random: real, now: int, c: Config)
    requires c.Valid() && Inv(w, c) && worker in w.handlings && w.handlings[worker].result.Some?
    ensures Inv(SettlingReceipt(w, worker, random, now, c), c)
  {
    var w' := SettlingReceipt(w, worker, random, now, c);
    var h := w.handlings[worker];
    assert HandlingFits(w, h);
    var m := SettleOne(h.issue, h.result.value, random, now, false);
    forall k | k in w.receipts.entries && !w.receipts.entries[k].state.Settled?
      ensures (k in w'.receipts.entries && !w'.receipts.entries[k].state.Settled?) || (w.events[k.0], k.1) in w'.handled
    {
      if k == h.issue.key && w'.receipts.entries[k].state.Settled? { assert Under(w.receipts, h.issue); }
    }
    ReceiptMoveInv(w, w', m, c);
  }

  lemma PruneMailboxStep(w: World, ids: set<ID>, retentionMs: int, now: int, c: Config)
    requires c.Valid() && Inv(w, c)
    requires forall id | id in ids :: M.Prunable(w.receipts.entries, id, retentionMs, now)
    ensures Inv(PruningMailbox(w, ids, now, c), c)
  {
    var w' := PruningMailbox(w, ids, now, c);
    var m := DeleteSome(ReceiptsOf(w, ids), now);
    forall k | k in ReceiptsOf(w, ids)
      ensures w.receipts.entries[k].state.Settled?
    {
      assert M.Prunable(w.receipts.entries, k.0, retentionMs, now);
    }
    ReceiptMoveInv(w, w', m, c);
  }

  // ----- accept -----

  lemma AcceptTables(w: World, event: Envelope, consumers: set<string>, now: int, c: Config)
    requires c.Valid() && Inv(w, c) && event.decodable && Acceptable(w, event, consumers)
    ensures var w' := Accepting(w, event, consumers, now, c);
      && ReceiptMove(w, w', InsertSome(KeysFor(event.id, consumers), now), c)
      && event.id in w'.events && w'.events[event.id] == event
  {
  }

  /** Accepting an event accounts for it to every named consumer and takes nothing from any other. */
  lemma AcceptInv(w: World, event: Envelope, consumers: set<string>, now: int, c: Config)
    requires c.Valid() && Inv(w, c) && event.decodable && Acceptable(w, event, consumers) && c.subscribed <= consumers
    ensures var w' := Accepting(w, event, consumers, now, c); Inv(w', c) && AllAccounted(w', event, c)
  {
    var w' := Accepting(w, event, consumers, now, c);
    AcceptTables(w, event, consumers, now, c);
    ReceiptMoveInv(w, w', InsertSome(KeysFor(event.id, consumers), now), c);
    forall consumer | consumer in c.subscribed
      ensures Accounted(w', event, consumer)
    {
      assert (event.id, consumer) in KeysFor(event.id, consumers);
      assert (event.id, consumer) in w'.receipts.entries;
    }
  }

  lemma PublishDirectStep(w: World, worker: Worker, consumers: set<string>, answer: O.Answer, now: int, c: Config)
    requires c.Valid() && Inv(w, c) && Publishing(w, worker) && c.subscribed <= consumers
    ensures Inv(PublishingDirect(w, worker, consumers, answer, now, c), c)
  {
    var event := w.dispatches[worker].event;
    assert DispatchFits(w, w.dispatches[worker], c);
    if Acceptable(w, event, consumers) {
      AcceptInv(w, event, consumers, now, c);
      AnsweredInv(Accepting(w, event, consumers, now, c), worker, answer, c);
    } else {
      AnsweredInv(w, worker, ID_REUSED, c);
    }
  }

  lemma TransferRecorded(w: World, worker: Worker, at: Sequence, c: Config)
    requires Inv(w, c) && at in w.stream && AllAccounted(w, w.stream[at], c)
    ensures Inv(w.(transfers := w.transfers[worker := at]), c)
  {
    var w' := w.(transfers := w.transfers[worker := at]);
    SameRecords(w, w', c);
    forall k | k in w'.transfers
      ensures w'.transfers[k] in w'.stream && AllAccounted(w', w'.stream[w'.transfers[k]], c)
    {
      assert AllAccounted(w, w'.stream[w'.transfers[k]], c);
    }
  }

  /** Worlds that differ in their transfers and handlings agree on where every event is. */
  lemma SameRecords(w: World, w': World, c: Config)
    requires w' == w.(transfers := w'.transfers, handlings := w'.handlings)
    requires Inv(w, c)
    ensures Keeps(w, w', c) && TablesFit(w', c) && EventsFit(w', c)
    ensures forall k | k in w'.dispatches :: DispatchFits(w', w'.dispatches[k], c)
    ensures forall h | HandlingFits(w, h) :: HandlingFits(w', h)
  {
    forall event | Queued(w, event)
      ensures Queued(w', event)
    {
      var at :| at in w.unacked && at in w.stream && w.stream[at] == event;
      assert at in w'.unacked;
    }
    forall k | k in w'.dispatches
      ensures DispatchFits(w', w'.dispatches[k], c)
    {
      assert DispatchFits(w, w.dispatches[k], c);
    }
  }

  lemma AcceptMessageStep(w: World, worker: Worker, at: Sequence, consumers: set<string>, now: int, c: Config)
    requires c.Valid() && Inv(w, c) && at in w.stream && c.subscribed <= consumers
    ensures Inv(AcceptingMessage(w, worker, at, consumers, now, c), c)
  {
    if Acceptable(w, w.stream[at], consumers) {
      AcceptInv(w, w.stream[at], consumers, now, c);
      TransferRecorded(Accepting(w, w.stream[at], consumers, now, c), worker, at, c);
    }
  }

  /** An acknowledged message is accounted to every consumer, so the queue may forget it. */
  lemma AckMessageStep(w: World, worker: Worker, c: Config)
    requires Inv(w, c) && worker in w.transfers
    ensures Inv(AckingMessage(w, worker), c)
  {
    var w' := AckingMessage(w, worker);
    var gone := w.transfers[worker];
    forall event | Queued(w, event)
      ensures HandedOver(w', event, c)
    {
      var at :| at in w.unacked && at in w.stream && w.stream[at] == event;
      if at == gone {
        assert AllAccounted(w, event, c);
        assert AllAccounted(w', event, c);
      } else {
        assert at in w'.unacked;
      }
    }
    assert Keeps(w, w', c);
    forall k | k in w'.handlings
      ensures HandlingFits(w', w'.handlings[k])
    {
      assert HandlingFits(w, w.handlings[k]);
    }
    KeepsInv(w, w', c);
  }

  // ----- Steps that only change workers -----

  /** A crash forgets a worker and nothing else. */
  lemma CrashStep(w: World, worker: Worker, c: Config)
    requires Inv(w, c)
    ensures Inv(w.(dispatches := w.dispatches - {worker}), c)
    ensures Inv(w.(transfers := w.transfers - {worker}), c)
    ensures Inv(w.(handlings := w.handlings - {worker}), c)
  {
    CrashDispatchStep(w, worker, c);
    var t := w.(transfers := w.transfers - {worker});
    SameRecords(w, t, c);
    TransfersKept(w, t, c);
    var h := w.(handlings := w.handlings - {worker});
    SameRecords(w, h, c);
    TransfersKept(w, h, c);
  }

  lemma TransfersKept(w: World, w': World, c: Config)
    requires Inv(w, c) && w' == w.(transfers := w'.transfers, handlings := w'.handlings)
    requires w'.transfers.Items <= w.transfers.Items
    ensures forall k | k in w'.transfers :: w'.transfers[k] in w'.stream && AllAccounted(w', w'.stream[w'.transfers[k]], c)
  {
    forall k | k in w'.transfers
      ensures w'.transfers[k] in w'.stream && AllAccounted(w', w'.stream[w'.transfers[k]], c)
    {
      assert (k, w'.transfers[k]) in w.transfers.Items;
      assert AllAccounted(w, w.stream[w.transfers[k]], c);
    }
  }

  lemma CrashDispatchStep(w: World, worker: Worker, c: Config)
    requires Inv(w, c)
    ensures Inv(w.(dispatches := w.dispatches - {worker}), c)
  {
    var w' := w.(dispatches := w.dispatches - {worker});
    SameBehindKeeps(w, w', c);
    forall k | k in w'.dispatches
      ensures DispatchFits(w', w'.dispatches[k], c)
    {
      assert DispatchFits(w, w.dispatches[k], c);
    }
    forall k | k in w'.handlings
      ensures HandlingFits(w', w'.handlings[k])
    {
      assert HandlingFits(w, w.handlings[k]);
    }
  }

  /** A handler that succeeds has handled its event, whatever becomes of the settle after it. */
  lemma HandleStep(w: World, worker: Worker, result: Outcome, c: Config)
    requires Inv(w, c) && worker in w.handlings
    ensures Inv(HandlingDone(w, worker, result), c)
  {
    var w' := HandlingDone(w, worker, result);
    forall event | Queued(w, event)
      ensures Queued(w', event)
    {
      var at :| at in w.unacked && at in w.stream && w.stream[at] == event;
      assert at in w'.unacked;
    }
    assert Keeps(w, w', c);
    forall k | k in w'.handlings
      ensures HandlingFits(w', w'.handlings[k])
    {
      assert HandlingFits(w, w.handlings[k]);
    }
    KeepsInv(w, w', c);
  }

  // ----- Sweeps and requeues -----

  lemma SweepOutboxStep(w: World, now: int, c: Config)
    requires c.Valid() && Inv(w, c)
    ensures Inv(SweepingOutbox(w, now, c), c)
  {
    UnsettlingMoveInv(w, SweepingOutbox(w, now, c), Sweep(w.outbox.entries.Keys, now), c);
  }

  lemma RequeueOutboxStep(w: World, ids: set<ID>, now: int, c: Config)
    requires c.Valid() && Inv(w, c)
    ensures Inv(RequeueingOutbox(w, ids, now, c), c)
  {
    UnsettlingMoveInv(w, RequeueingOutbox(w, ids, now, c), RequeueSome(ids, now), c);
  }

  lemma SweepReceiptsStep(w: World, consumer: string, now: int, c: Config)
    requires c.Valid() && Inv(w, c)
    ensures Inv(SweepingReceipts(w, consumer, now, c), c)
  {
    UnsettlingReceiptInv(w, SweepingReceipts(w, consumer, now, c), Sweep(M.Scope(w.receipts.entries, consumer), now), c);
  }

  lemma RequeueReceiptsStep(w: World, keys: set<Key>, now: int, c: Config)
    requires c.Valid() && Inv(w, c)
    ensures Inv(RequeueingReceipts(w, keys, now, c), c)
  {
    UnsettlingReceiptInv(w, RequeueingReceipts(w, keys, now, c), RequeueSome(keys, now), c);
  }

  /** No message that reached the stream is ever terminated: only decodable envelopes are published. */
  lemma NothingTerminated(w: World, at: Sequence, c: Config)
    requires Inv(w, c)
    ensures !Enabled(w, TerminateMessage(at), c)
  {
  }

  // ----- Every step, every run -----

  /** Steps of the outbox: enqueueing, dispatching and tending its rows. */
  predicate IsOutboxStep(s: Step) {
    s.Enqueue? || s.SweepOutbox? || s.ClaimOutbox? || s.PublishStored? || s.PublishDuplicate? || s.PublishRefused?
    || s.PublishDirect? || s.SettleOutbox? || s.CrashDispatch? || s.RequeueOutbox? || s.PruneOutbox?
  }

  lemma OutboxStepInv(w: World, s: Step, c: Config)
    requires c.Valid() && Inv(w, c) && Enabled(w, s, c) && IsOutboxStep(s)
    ensures Inv(Next(w, s, c), c)
  {
    match s
    case Enqueue(event, now) => EnqueueStep(w, event, now, c);
    case SweepOutbox(now) => SweepOutboxStep(w, now, c);
    case ClaimOutbox(worker, id, token, locked, now) => ClaimOutboxStep(w, worker, id, token, now, c);
    case PublishStored(worker, at, answer) => PublishStoredStep(w, worker, at, answer, c);
    case PublishDuplicate(worker, at, answer) => PublishDuplicateStep(w, worker, at, answer, c);
    case PublishRefused(worker, answer) => AnsweredInv(w, worker, answer, c);
    case PublishDirect(worker, consumers, answer, now) => PublishDirectStep(w, worker, consumers, answer, now, c);
    case SettleOutbox(worker, random, now) => SettleOutboxStep(w, worker, random, now, c);
    case CrashDispatch(worker) => CrashStep(w, worker, c);
    case RequeueOutbox(ids, now) => RequeueOutboxStep(w, ids, now, c);
    case PruneOutbox(ids, retentionMs, now) => PruneOutboxStep(w, ids, retentionMs, now, c);
  }

  lemma InboxStepInv(w: World, s: Step, c: Config)
    requires c.Valid() && Inv(w, c) && Enabled(w, s, c) && !IsOutboxStep(s)
    ensures Inv(Next(w, s, c), c)
  {
    match s
    case AcceptMessage(worker, at, consumers, now) => AcceptMessageStep(w, worker, at, consumers, now, c);
    case AckMessage(worker) => AckMessageStep(w, worker, c);
    case CrashTransfer(worker) => CrashStep(w, worker, c);
    case TerminateMessage(at) => NothingTerminated(w, at, c);
    case SweepReceipts(consumer, now) => SweepReceiptsStep(w, consumer, now, c);
    case ClaimReceipt(worker, key, token, held, now) => ClaimReceiptStep(w, worker, key, token, now, c);
    case Handle(worker, result) => HandleStep(w, worker, result, c);
    case SettleReceipt(worker, random, now) => SettleReceiptStep(w, worker, random, now, c);
    case CrashHandling(worker) => CrashStep(w, worker, c);
    case RequeueReceipts(keys, now) => RequeueReceiptsStep(w, keys, now, c);
    case PruneMailbox(ids, retentionMs, now) => PruneMailboxStep(w, ids, retentionMs, now, c);
  }

  /** Every step of every participant keeps the invariant. */
  lemma StepInv(w: World, s: Step, c: Config)
    requires c.Valid() && Inv(w, c) && Enabled(w, s, c)
    ensures Inv(Next(w, s, c), c)
  {
    if IsOutboxStep(s) {
      OutboxStepInv(w, s, c);
    } else {
      InboxStepInv(w, s, c);
    }
  }

  /** A run of the protocol from empty tables. */
  ghost predicate Run(worlds: seq<World>, steps: seq<Step>, c: Config) {
    && |worlds| == |steps| + 1 && worlds[0] == EMPTY
    && forall i | 0 <= i < |steps| ::
         Enabled(worlds[i], steps[i], c) && worlds[i + 1] == Next(worlds[i], steps[i], c)
  }

  lemma {:induction false} RunInv(worlds: seq<World>, steps: seq<Step>, c: Config, i: nat)
    requires c.Valid() && Run(worlds, steps, c) && i < |worlds|
    ensures Inv(worlds[i], c)
    decreases i
  {
    if i > 0 {
      RunInv(worlds, steps, c, i - 1);
      StepInv(worlds[i - 1], steps[i - 1], c);
    }
  }

  /** In every reachable state no enqueued event is lost for any subscribed consumer. */
  lemma NothingIsEverLost(worlds: seq<World>, steps: seq<Step>, c: Config, i: nat)
    requires c.Valid() && Run(worlds, steps, c) && i < |worlds|
    ensures NoLoss(worlds[i], c)
  {
    RunInv(worlds, steps, c, i);
    InvNoLoss(worlds[i], c);
  }

  /** When both ledgers have drained and the queue is empty, every event was handled by every subscribed consumer. */
  lemma DrainedMeansHandled(worlds: seq<World>, steps: seq<Step>, c: Config, i: nat)
    requires c.Valid() && Run(worlds, steps, c) && i < |worlds| && worlds[i].unacked == {}
    requires forall k | k in worlds[i].outbox.entries :: worlds[i].outbox.entries[k].state.Settled?
    requires forall k | k in worlds[i].receipts.entries :: worlds[i].receipts.entries[k].state.Settled?
    ensures forall event, consumer | event in worlds[i].enqueued && consumer in c.subscribed ::
              (event, consumer) in worlds[i].handled
  {
    NothingIsEverLost(worlds, steps, c, i);
  }

  /** In every reachable state both tables count their claims: attempts are the claims since the last requeue,
      never more than the policy allows, and only a pending row is under a lease, its latest claim's. */
  lemma AttemptsCounted(worlds: seq<World>, steps: seq<Step>, c: Config, i: nat)
    requires c.Valid() && Run(worlds, steps, c) && i < |worlds|
    ensures forall k | k in worlds[i].outbox.entries :: EntryFits(worlds[i].outbox, k, c.outbox.maxAttempts)
    ensures forall k | k in worlds[i].receipts.entries :: EntryFits(worlds[i].receipts, k, c.inbox.maxAttempts)
  {
    RunInv(worlds, steps, c, i);
  }

  /** An event whose row is sent is in the queue, or with every subscribed consumer: no answer of a publisher but a
      durable receipt for that very event settles the row. */
  lemma SentMeansHandedOver(worlds: seq<World>, steps: seq<Step>, c: Config, i: nat, id: ID)
    requires c.Valid() && Run(worlds, steps, c) && i < |worlds|
    requires id in worlds[i].outbox.entries && worlds[i].outbox.entries[id].state.Settled?
    ensures id in worlds[i].envelopes && HandedOver(worlds[i], worlds[i].envelopes[id], c)
  {
    RunInv(worlds, steps, c, i);
    assert id in worlds[i].envelopes;
  }

  /** A dispatcher that settles does so as the row's latest claim and inside its lease; any other changes no row and
      no queue. */
  lemma SupersededDispatchChangesNothing(worlds: seq<World>, steps: seq<Step>, c: Config, i: nat)
    requires c.Valid() && Run(worlds, steps, c) && i < |steps| && steps[i].SettleOutbox?
    ensures var w, w' := worlds[i], worlds[i + 1]; var d := w.dispatches[steps[i].worker];
      && w'.receipts == w.receipts && w'.unacked == w.unacked && w'.stream == w.stream
      && w'.events == w.events && w'.envelopes == w.envelopes
      && (w'.outbox != w.outbox ==>
            && LatestClaim(w.outbox, d.issue) && d.event.id in w.envelopes && w.envelopes[d.event.id] == d.event
            && d.event.id in w.outbox.entries && w.outbox.entries[d.event.id].lease.Some?
            && w.outbox.entries[d.event.id].lease.value.until > steps[i].now)
  {
    RunInv(worlds, steps, c, i);
    var w := worlds[i];
    var d := w.dispatches[steps[i].worker];
    assert DispatchFits(w, d, c);
    OnlyLatestClaimSettles(w.outbox, SettleOne(d.issue, d.verdict.value, steps[i].random, steps[i].now, true), c.outbox);
  }

  /** The same of a deliverer, whose settle needs the token but not an unexpired lease. */
  lemma SupersededHandlingChangesNothing(worlds: seq<World>, steps: seq<Step>, c: Config, i: nat)
    requires c.Valid() && Run(worlds, steps, c) && i < |steps| && steps[i].SettleReceipt?
    ensures var w, w' := worlds[i], worlds[i + 1]; var h := w.handlings[steps[i].worker];
      && w'.outbox == w.outbox && w'.stream == w.stream && w'.unacked == w.unacked && w'.events == w.events
      && w'.handled == w.handled
      && (w'.receipts != w.receipts ==>
            LatestClaim(w.receipts, h.issue) && h.event.id in w.events && w.events[h.event.id] == h.event)
  {
    RunInv(worlds, steps, c, i);
    var w := worlds[i];
    var h := w.handlings[steps[i].worker];
    assert HandlingFits(w, h);
    OnlyLatestClaimSettles(w.receipts, SettleOne(h.issue, h.result.value, steps[i].random, steps[i].now, false), c.inbox);
  }
}
