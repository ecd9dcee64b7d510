/**
 * The audit projection: one entry per recorded event, fed by at-least-once delivery
 * (src/modules/audit/infra/in-memory/store.ts, adapters.ts, subscription.ts; src/modules/audit/app/commands/record-audit-event.ts).
 */
module Audit {
  import opened Prelude
  import opened Ids
  import opened Events
  import opened Retry
  import B = Book
  import I = InMemoryInbox

  const CONSUMER := "audit"

  /** `content` stands for the event data an entry copies. */
  datatype Entry = Entry(id: ID, eventId: ID, recordedAt: int, content: string)

  predicate Recorded(entries: seq<Entry>, eventId: ID) {
    exists i | 0 <= i < |entries| :: entries[i].eventId == eventId
  }

  /** The first attempt of each event, in order. */
  function FirstPerEvent(attempts: seq<Entry>): seq<Entry> {
    if attempts == [] then []
    else
      var n := |attempts| - 1;
      var earlier := FirstPerEvent(attempts[..n]);
      if Recorded(earlier, attempts[n].eventId) then earlier else earlier + [attempts[n]]
  }

  ghost predicate IsFirst(attempts: seq<Entry>, i: nat) {
    i < |attempts| && forall j | 0 <= j < i :: attempts[j].eventId != attempts[i].eventId
  }

  ghost predicate OnePerEvent(entries: seq<Entry>) {
    forall i, j | 0 <= i < j < |entries| :: entries[i].eventId != entries[j].eventId
  }

  lemma RecordedAppends(entries: seq<Entry>, last: Entry, id: ID)
    ensures Recorded(entries + [last], id) <==> Recorded(entries, id) || last.eventId == id
  {
    if Recorded(entries, id) {
      var i :| 0 <= i < |entries| && entries[i].eventId == id;
      assert (entries + [last])[i].eventId == id;
    }
    assert (entries + [last])[|entries|] == last;
  }

  lemma FirstOfMore(attempts: seq<Entry>, entry: Entry)
    ensures FirstPerEvent(attempts + [entry])
         == if Recorded(FirstPerEvent(attempts), entry.eventId) then FirstPerEvent(attempts) else FirstPerEvent(attempts) + [entry]
  {
    assert (attempts + [entry])[..|attempts|] == attempts;
  }

  lemma {:induction false} EveryEventKept(attempts: seq<Entry>, id: ID)
    ensures Recorded(FirstPerEvent(attempts), id) <==> Recorded(attempts, id)
    decreases |attempts|
  {
    if attempts != [] {
      var before, last := attempts[..|attempts| - 1], attempts[|attempts| - 1];
      assert attempts == before + [last];
      EveryEventKept(before, id);
      RecordedAppends(before, last, id);
      RecordedAppends(FirstPerEvent(before), last, id);
    }
  }

  lemma {:induction false} EntriesArePerEvent(attempts: seq<Entry>)
    ensures OnePerEvent(FirstPerEvent(attempts))
    decreases |attempts|
  {
    if attempts != [] {
      EntriesArePerEvent(attempts[..|attempts| - 1]);
    }
  }

  lemma {:induction false} FirstIsKept(attempts: seq<Entry>, i: nat)
    requires IsFirst(attempts, i)
    ensures attempts[i] in FirstPerEvent(attempts)
    decreases |attempts|
  {
    var n := |attempts| - 1;
    var before := attempts[..n];
    if i < n {
      FirstIsKept(before, i);
    } else {
      EveryEventKept(before, attempts[n].eventId);
      assert FirstPerEvent(attempts) == FirstPerEvent(before) + [attempts[n]];
    }
  }

  lemma {:induction false} KeptIsFirst(attempts: seq<Entry>, e: Entry) returns (i: nat)
    requires e in FirstPerEvent(attempts)
    ensures IsFirst(attempts, i) && attempts[i] == e
    decreases |attempts|
  {
    var n := |attempts| - 1;
    var before := attempts[..n];
    if e in FirstPerEvent(before) {
      i := KeptIsFirst(before, e);
    } else {
      EveryEventKept(before, attempts[n].eventId);
      i := n;
      forall j | 0 <= j < n ensures attempts[j].eventId != attempts[n].eventId {
        assert before[j] == attempts[j];
      }
    }
  }

  /** Exactly the first attempt of every attempted event remains, and no event has two entries. */
  lemma FirstPerEventIs(attempts: seq<Entry>, e: Entry)
    ensures OnePerEvent(FirstPerEvent(attempts))
    ensures e in FirstPerEvent(attempts) <==> exists i: nat :: IsFirst(attempts, i) && attempts[i] == e
  {
    EntriesArePerEvent(attempts);
    if e in FirstPerEvent(attempts) {
      var i := KeptIsFirst(attempts, e);
    }
    if i: nat :| IsFirst(attempts, i) && attempts[i] == e {
      FirstIsKept(attempts, i);
    }
  }

  class Store {
    var byEventId: map<ID, Entry>
    var entries: seq<Entry>
    /** Every entry ever handed to the writer. */
    ghost var attempts: seq<Entry>

    /** The index and the list agree, and both hold the first attempt of each event. */
    ghost predicate Valid()
      reads this
    {
      && entries == FirstPerEvent(attempts)
      && (forall id :: id in byEventId <==> Recorded(entries, id))
      && (forall i | 0 <= i < |entries| :: entries[i].eventId in byEventId && byEventId[entries[i].eventId] == entries[i])
    }

    constructor ()
      ensures Valid() && attempts == []
    {
      byEventId, entries, attempts := map[], [], [];
    }

    /** Record an entry unless its event has one; the answer is the entry that stands. */
    method Record(entry: Entry) returns (standing: Entry, created: bool)
      requires Valid()
      modifies this
      ensures Valid() && attempts == old(attempts) + [entry]
      ensures created <==> !Recorded(old(entries), entry.eventId)
      ensures entries == if created then old(entries) + [entry] else old(entries)
      ensures standing in entries && standing.eventId == entry.eventId
      ensures forall e | e in entries && e.eventId == entry.eventId :: e == standing
    {
      FirstOfMore(attempts, entry);
      attempts := attempts + [entry];
      if entry.eventId in byEventId {
        standing, created := byEventId[entry.eventId], false;
        var i :| 0 <= i < |entries| && entries[i].eventId == entry.eventId;
      } else {
        forall id ensures Recorded(entries + [entry], id) <==> Recorded(entries, id) || entry.eventId == id {
          RecordedAppends(entries, entry, id);
        }
        byEventId, entries := byEventId[entry.eventId := entry], entries + [entry];
        standing, created := entry, true;
        assert entries[|entries| - 1] == entry;
      }
    }
  }

  // ----- Composed with the inbox -----

  /** Whatever the audit consumer has finished is recorded. */
  ghost predicate Covered(book: B.Slots, entries: seq<Entry>) {
    forall k | k in book && k.1 == CONSUMER && book[k].Done? :: Recorded(entries, k.0)
  }

  /** No step of the inbox but a successful audit settle can break the cover. */
  lemma OtherStepsKeepCover(book: B.Slots, step: B.Step, entries: seq<Entry>)
    requires B.Enabled(book, step) && Covered(book, entries)
    requires step.Settle? && step.key.1 == CONSUMER && step.error.None? ==> Recorded(entries, step.key.0)
    ensures Covered(B.Next(book, step), entries)
  {
  }

  lemma MoreEntriesKeepCover(book: B.Slots, entries: seq<Entry>, more: seq<Entry>)
    requires Covered(book, entries) && entries <= more
    ensures Covered(book, more)
  {
    forall k | k in book && k.1 == CONSUMER && book[k].Done? ensures Recorded(more, k.0) {
      var i :| 0 <= i < |entries| && entries[i].eventId == k.0;
      assert more[i].eventId == k.0;
    }
  }

  /** What the subscriber's handler answers. */
  function AnswerOf(newId: Option<ID>, answerLost: bool): Outcome {
    if newId.None? then Some("audit.id_generation")
    else if answerLost then Some("events.handler_threw")
    else None
  }

  class Subscription {
    const inbox: I.Inbox
    const store: Store

    ghost predicate Valid()
      reads this, inbox, store
    {
      inbox.Valid() && store.Valid() && Covered(I.BookOf(inbox.receipts), store.entries)
    }

    constructor ()
      ensures Valid() && fresh(inbox) && fresh(store)
    {
      inbox := new I.Inbox();
      store := new Store();
    }

    /** One delivery to the audit consumer. Without an ID nothing is recorded; when the answer is lost after recording,
        the event comes back and is recorded again, to no effect. */
    method DeliverOne(newId: Option<ID>, recordedAt: int, answerLost: bool, policy: Policy, random: real, now: int, later: int)
      returns (delivered: Option<I.Delivery>)
      requires Valid()
      modifies inbox`receipts, inbox`known, store
      ensures Valid() && inbox.events == old(inbox.events)
      ensures OnePerEvent(store.entries) && old(store.entries) <= store.entries
      ensures delivered.Some? && delivered.value.outcome.Done? ==> Recorded(store.entries, delivered.value.id)
      ensures delivered.Some? && !answerLost && newId.Some? ==> delivered.value.outcome.Done?
      ensures delivered.Some? ==>
                delivered.value.outcome == B.Settled(delivered.value.attempt, AnswerOf(newId, answerLost), policy, random, later)
      ensures delivered.Some? ==>
                && B.Enabled(I.BookOf(old(inbox.receipts)), B.Lease((delivered.value.id, "audit"), now))
                && delivered.value.id in inbox.events
                && store.attempts == old(store.attempts)
                     + if newId.Some? then [Entry(newId.value, delivered.value.id, recordedAt, inbox.events[delivered.value.id].bytes)]
                       else []
      ensures delivered.None? ==> store.attempts == old(store.attempts)
      ensures delivered.None? <==> forall k | k in old(inbox.receipts) && k.1 == CONSUMER ::
                !B.Enabled(I.BookOf(old(inbox.receipts)), B.Lease(k, now))
    {
      ghost var slots := I.BookOf(inbox.receipts);
      EntriesArePerEvent(store.attempts);
      assert IsConsumer(CONSUMER);
      var leased := inbox.Lease(CONSUMER, now);
      if leased.value.None? {
        return None;
      }
      var (id, attempt) := leased.value.value;
      OtherStepsKeepCover(slots, B.Lease((id, CONSUMER), now), store.entries);
      assert inbox.events == old(inbox.events);
      slots := I.BookOf(inbox.receipts);
      var error := Handle(inbox.events[id], newId, recordedAt, answerLost, slots);
      OtherStepsKeepCover(slots, B.Settle((id, CONSUMER), error, policy, random, later), store.entries);
      var d := inbox.Settle(CONSUMER, id, attempt, error, policy, random, later);
      assert inbox.events == old(inbox.events);
      delivered := Some(d);
    }

    /** The handler: record the event under a new ID. */
    method Handle(event: I.Event, newId: Option<ID>, recordedAt: int, answerLost: bool, ghost slots: B.Slots)
      returns (error: Outcome)
      requires store.Valid() && Covered(slots, store.entries)
      modifies store
      ensures store.Valid() && Covered(slots, store.entries)
      ensures OnePerEvent(store.entries) && old(store.entries) <= store.entries
      ensures error == AnswerOf(newId, answerLost)
      ensures store.attempts == old(store.attempts)
        + if newId.Some? then [Entry(newId.value, event.id, recordedAt, event.bytes)] else []
      ensures error.None? ==> Recorded(store.entries, event.id)
    {
      EntriesArePerEvent(store.attempts);
      error := AnswerOf(newId, answerLost);
      if newId.None? {
        return;
      }
      ghost var before := store.entries;
      var standing, created := store.Record(Entry(newId.value, event.id, recordedAt, event.bytes));
      EntriesArePerEvent(store.attempts);
      MoreEntriesKeepCover(slots, before, store.entries);
      assert Recorded(store.entries, event.id) by {
        var i :| 0 <= i < |store.entries| && store.entries[i] == standing;
      }
    }
  }
}
