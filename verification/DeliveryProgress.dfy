/**
 * The protocol can always go on: an event that is first in line is delivered by eight steps, each of them possible
 * (src/shared/events/postgres/store.ts, src/shared/events/nats/broker.ts).
 */
module DeliveryProgress {
  import opened Prelude
  import opened Ids
  import opened Events
  import opened Ledger
  import opened Delivery
  import Retry
  import O = Outbox
  import M = Mailbox

  /** The row is the only one due, a worker and a token are free, and the consumer has no receipt yet. */
  ghost predicate FirstInLine(w: World, event: Envelope, consumer: string, worker: Worker, at: Sequence, tokens: (Token, Token),
                              now: int, c: Config)
  {
    && c.Valid() && Inv(w, c) && event.decodable && event.id in w.envelopes && w.envelopes[event.id] == event
    && Due(w.outbox.entries[event.id], c.outbox.maxAttempts, now)
    && (forall id | id in w.outbox.entries && id != event.id :: !Due(w.outbox.entries[id], c.outbox.maxAttempts, now))
    && worker !in w.dispatches && worker !in w.transfers && worker !in w.handlings && at !in w.stream
    && !Used(w.outbox, tokens.0) && !Used(w.receipts, tokens.1)
    && event.id !in w.events && IsConsumer(consumer) && c.subscribed <= {consumer}
    && (forall k | k in w.receipts.entries :: k.1 != consumer)
  }

  ghost predicate Leads(w: World, step: Step, next: World, c: Config) { Enabled(w, step, c) && next == Next(w, step, c) }

  lemma Claims(w: World, event: Envelope, worker: Worker, token: Token, now: int, c: Config) returns (next: World)
    requires w.envelopes.Keys == w.outbox.entries.Keys && event.decodable && event.id in w.envelopes && w.envelopes[event.id] == event
    requires Due(w.outbox.entries[event.id], c.outbox.maxAttempts, now) && worker !in w.dispatches && !Used(w.outbox, token)
    requires forall id | id in w.outbox.entries && id != event.id :: !Due(w.outbox.entries[id], c.outbox.maxAttempts, now)
    ensures Leads(w, ClaimOutbox(worker, event.id, token, {}, now), next, c)
    ensures next == w.(outbox := next.outbox, dispatches := next.dispatches)
    ensures worker in next.dispatches && next.dispatches[worker].event == event && next.dispatches[worker].verdict.None?
    ensures next.dispatches[worker].issue.key == event.id && next.dispatches[worker].issue.token == token
    ensures event.id in next.outbox.entries && Holds(next.outbox.entries[event.id], token, now, true)
  {
    assert O.Candidate(w.outbox.entries, c.outbox.maxAttempts, now, {}, event.id);
    next := ClaimingOutbox(w, worker, event.id, token, now, c);
  }

  lemma Publishes(w: World, worker: Worker, at: Sequence, c: Config) returns (next: World)
    requires worker in w.dispatches && w.dispatches[worker].verdict.None? && at !in w.stream
    ensures Leads(w, PublishStored(worker, at, Ok(O.Receipt(w.dispatches[worker].event.id, true))), next, c)
    ensures next == w.(stream := w.stream[at := w.dispatches[worker].event], unacked := w.unacked + {at},
                       dispatches := w.dispatches[worker := w.dispatches[worker].(verdict := Some(None))])
  {
    next := PublishingStored(w, worker, at, Ok(O.Receipt(w.dispatches[worker].event.id, true)));
  }

  /** A repeated publication is confirmed if the stream holds the same content, and is an error otherwise. */
  lemma PublishesAgain(w: World, worker: Worker, at: Sequence, c: Config) returns (next: World)
    requires worker in w.dispatches && w.dispatches[worker].verdict.None? && at in w.stream
    requires w.stream[at].id == w.dispatches[worker].event.id
    ensures Leads(w, PublishDuplicate(worker, at, Ok(O.Receipt(w.dispatches[worker].event.id, true))), next, c)
    ensures next.dispatches[worker].verdict
         == Some(if w.stream[at].content == w.dispatches[worker].event.content then None else Some("events.id_reused"))
    ensures next == w.(dispatches := next.dispatches)
  {
    next := PublishingDuplicate(w, worker, at, Ok(O.Receipt(w.dispatches[worker].event.id, true)));
  }

  /** Without a queue the mailbox confirms what it accepts. */
  lemma PublishesDirectly(w: World, worker: Worker, consumers: set<string>, now: int, c: Config) returns (next: World)
    requires worker in w.dispatches && w.dispatches[worker].verdict.None? && c.subscribed <= consumers
    requires forall consumer | consumer in consumers :: IsConsumer(consumer)
    requires var event := w.dispatches[worker].event; event.id in w.events ==> w.events[event.id].content == event.content
    ensures Leads(w, PublishDirect(worker, consumers, Ok(O.Receipt(w.dispatches[worker].event.id, true)), now), next, c)
    ensures next.dispatches[worker].verdict == Some(None) && w.dispatches[worker].event.id in next.events
    ensures forall consumer | consumer in consumers :: (w.dispatches[worker].event.id, consumer) in next.receipts.entries
  {
    var event := w.dispatches[worker].event;
    next := PublishingDirect(w, worker, consumers, Ok(O.Receipt(event.id, true)), now, c);
    forall consumer | consumer in consumers ensures (event.id, consumer) in next.receipts.entries {
      assert (event.id, consumer) in KeysFor(event.id, consumers);
    }
  }

  lemma Settles(w: World, worker: Worker, now: int, c: Config) returns (next: World)
    requires worker in w.dispatches && w.dispatches[worker].verdict == Some(None)
    requires var issue := w.dispatches[worker].issue;
      issue.key in w.outbox.entries && Holds(w.outbox.entries[issue.key], issue.token, now, true)
    ensures Leads(w, SettleOutbox(worker, 0.0, now), next, c)
    ensures next == w.(outbox := next.outbox, dispatches := next.dispatches)
    ensures w.dispatches[worker].issue.key in next.outbox.entries && next.outbox.entries[w.dispatches[worker].issue.key].state.Settled?
  {
    next := SettlingOutbox(w, worker, 0.0, now, c);
  }

  lemma Accepts(w: World, event: Envelope, consumer: string, worker: Worker, at: Sequence, now: int, c: Config) returns (next: World)
    requires event.decodable && worker !in w.transfers && at in w.unacked && at in w.stream && w.stream[at] == event
    requires event.id !in w.events && IsConsumer(consumer) && c.subscribed <= {consumer}
    requires forall k | k in w.receipts.entries :: k.1 != consumer
    ensures Leads(w, AcceptMessage(worker, at, {consumer}, now), next, c)
    ensures next == w.(events := w.events[event.id := event], receipts := next.receipts, transfers := w.transfers[worker := at])
    ensures next.receipts.entries == w.receipts.entries[(event.id, consumer) := Fresh(now)]
    ensures next.receipts.issued == w.receipts.issued
  {
    next := AcceptingMessage(w, worker, at, {consumer}, now, c);
    assert KeysFor(event.id, {consumer}) == {(event.id, consumer)};
    OneInserted(w.receipts, (event.id, consumer), now, c.inbox);
  }

  lemma OneInserted(h: History<Key>, key: Key, now: int, policy: Retry.Policy)
    requires key !in h.entries
    ensures Apply(h, InsertSome({key}, now), policy).entries == h.entries[key := Fresh(now)]
    ensures Apply(h, InsertSome({key}, now), policy).issued == h.issued
  {
  }

  lemma Acknowledges(w: World, worker: Worker, c: Config) returns (next: World)
    requires worker in w.transfers
    ensures Leads(w, AckMessage(worker), next, c)
    ensures next == w.(unacked := w.unacked - {w.transfers[worker]}, transfers := w.transfers - {worker})
  {
    next := AckingMessage(w, worker);
  }

  lemma ClaimsReceipt(w: World, event: Envelope, consumer: string, worker: Worker, token: Token, now: int, c: Config) returns (next: World)
    requires c.inbox.maxAttempts >= 1 && event.decodable && worker !in w.handlings && event.id in w.events && w.events[event.id] == event
    requires !Used(w.receipts, token) && (event.id, consumer) in w.receipts.entries
    requires w.receipts.entries[(event.id, consumer)] == Fresh(now)
    requires forall k | k in w.receipts.entries && k != (event.id, consumer) :: k.1 != consumer
    ensures Leads(w, ClaimReceipt(worker, (event.id, consumer), token, {}, now), next, c)
    ensures next == w.(receipts := next.receipts, handlings := next.handlings)
    ensures worker in next.handlings && next.handlings[worker].event == event && next.handlings[worker].result.None?
    ensures next.handlings[worker].issue.key == (event.id, consumer) && next.handlings[worker].issue.token == token
    ensures (event.id, consumer) in next.receipts.entries && Holds(next.receipts.entries[(event.id, consumer)], token, now, false)
  {
    assert M.Candidate(w.receipts.entries, consumer, c.inbox.maxAttempts, now, {}, (event.id, consumer));
    next := ClaimingReceipt(w, worker, (event.id, consumer), token, now, c);
  }

  lemma Handles(w: World, worker: Worker, c: Config) returns (next: World)
    requires worker in w.handlings && w.handlings[worker].result.None?
    ensures Leads(w, Handle(worker, None), next, c)
    ensures var h := w.handlings[worker];
      next == w.(handlings := w.handlings[worker := h.(result := Some(None))], handled := w.handled + {(h.event, h.issue.key.1)})
  {
    next := HandlingDone(w, worker, None);
  }

  lemma SettlesReceipt(w: World, worker: Worker, now: int, c: Config) returns (next: World)
    requires worker in w.handlings && w.handlings[worker].result == Some(None)
    requires var issue := w.handlings[worker].issue;
      issue.key in w.receipts.entries && Holds(w.receipts.entries[issue.key], issue.token, now, false)
    ensures Leads(w, SettleReceipt(worker, 0.0, now), next, c)
    ensures next == w.(receipts := next.receipts, handlings := next.handlings)
    ensures w.handlings[worker].issue.key in next.receipts.entries
            && next.receipts.entries[w.handlings[worker].issue.key].state.Settled?
  {
    next := SettlingReceipt(w, worker, 0.0, now, c);
  }

  ghost predicate Chain(worlds: seq<World>, steps: seq<Step>, c: Config) {
    |worlds| == |steps| + 1 && forall i | 0 <= i < |steps| :: Leads(worlds[i], steps[i], worlds[i + 1], c)
  }

  /** The first half: the row is sent, the message in the stream. */
  lemma CanBeSent(w: World, event: Envelope, consumer: string, worker: Worker, at: Sequence, tokens: (Token, Token), now: int,
                  c: Config) returns (worlds: seq<World>, steps: seq<Step>)
    requires FirstInLine(w, event, consumer, worker, at, tokens, now, c)
    ensures Chain(worlds, steps, c) && |steps| == 3 && worlds[0] == w
    ensures worlds[3] == w.(outbox := worlds[3].outbox, dispatches := worlds[3].dispatches, stream := w.stream[at := event],
                            unacked := w.unacked + {at})
    ensures event.id in worlds[3].outbox.entries && worlds[3].outbox.entries[event.id].state.Settled?
  {
    var w1 := Claims(w, event, worker, tokens.0, now, c);
    var w2 := Publishes(w1, worker, at, c);
    var w3 := Settles(w2, worker, now, c);
    worlds := [w, w1, w2, w3];
    steps := [ClaimOutbox(worker, event.id, tokens.0, {}, now), PublishStored(worker, at, Ok(O.Receipt(event.id, true))),
              SettleOutbox(worker, 0.0, now)];
  }

  /** The second half: the message is acknowledged, the event handled, its receipt processed. */
  lemma CanBeHandled(w: World, event: Envelope, consumer: string, worker: Worker, at: Sequence, token: Token, now: int, c: Config)
    returns (worlds: seq<World>, steps: seq<Step>)
    requires c.Valid() && event.decodable && worker !in w.transfers && worker !in w.handlings
    requires at in w.unacked && at in w.stream && w.stream[at] == event && !Used(w.receipts, token)
    requires event.id !in w.events && IsConsumer(consumer) && c.subscribed <= {consumer}
    requires forall k | k in w.receipts.entries :: k.1 != consumer
    ensures Chain(worlds, steps, c) && |steps| == 5 && worlds[0] == w
    ensures (event, consumer) in worlds[5].handled && at !in worlds[5].unacked && worlds[5].outbox == w.outbox
    ensures (event.id, consumer) in worlds[5].receipts.entries && worlds[5].receipts.entries[(event.id, consumer)].state.Settled?
  {
    var w1 := Accepts(w, event, consumer, worker, at, now, c);
    var w2 := Acknowledges(w1, worker, c);
    var w3 := ClaimsReceipt(w2, event, consumer, worker, token, now, c);
    var w4 := Handles(w3, worker, c);
    var w5 := SettlesReceipt(w4, worker, now, c);
    worlds := [w, w1, w2, w3, w4, w5];
    steps := [AcceptMessage(worker, at, {consumer}, now), AckMessage(worker),
              ClaimReceipt(worker, (event.id, consumer), token, {}, now), Handle(worker, None), SettleReceipt(worker, 0.0, now)];
  }

  lemma ChainsJoin(a: seq<World>, s: seq<Step>, b: seq<World>, t: seq<Step>, c: Config)
    requires Chain(a, s, c) && Chain(b, t, c) && a[|a| - 1] == b[0]
    ensures Chain(a + b[1..], s + t, c)
  {
    var worlds, steps := a + b[1..], s + t;
    forall i | 0 <= i < |steps| ensures Leads(worlds[i], steps[i], worlds[i + 1], c) {
      if i < |s| {
        assert Leads(a[i], s[i], a[i + 1], c);
      } else {
        assert Leads(b[i - |s|], t[i - |s|], b[i - |s| + 1], c);
      }
    }
  }

  /** An event first in line can be driven to its handler, with its row sent, its message acknowledged and its receipt
      processed, by steps that are all enabled. */
  lemma CanBeDelivered(w: World, event: Envelope, consumer: string, worker: Worker, at: Sequence, tokens: (Token, Token), now: int,
                       c: Config) returns (worlds: seq<World>, steps: seq<Step>)
    requires FirstInLine(w, event, consumer, worker, at, tokens, now, c)
    ensures Chain(worlds, steps, c) && |steps| == 8 && worlds[0] == w
    ensures (event, consumer) in worlds[8].handled && at !in worlds[8].unacked
    ensures event.id in worlds[8].outbox.entries && worlds[8].outbox.entries[event.id].state.Settled?
    ensures (event.id, consumer) in worlds[8].receipts.entries && worlds[8].receipts.entries[(event.id, consumer)].state.Settled?
  {
    var a, s := CanBeSent(w, event, consumer, worker, at, tokens, now, c);
    var b, t := CanBeHandled(a[3], event, consumer, worker, at, tokens.1, now, c);
    ChainsJoin(a, s, b, t, c);
    worlds, steps := a + b[1..], s + t;
  }
}
