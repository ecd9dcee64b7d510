/** A mailbox whose leases never expire follows the receipt book (src/shared/events/postgres/store.ts, class Mailbox). */
module MailboxBook {
  import opened Prelude
  import opened Ids
  import opened Events
  import opened Retry
  import L = Ledger
  import M = Mailbox
  import B = Book

  function SlotOf(e: L.Entry): B.Slot {
    match e.state
    case Pending => if e.lease.Some? then B.Held(e.attempts) else B.Waiting(e.attempts, e.availableAt)
    case Settled => B.Done(e.attempts)
    case Dead => B.Dead(e.attempts)
  }

  function BookOf(t: L.Table<M.Key>): B.Slots { map k | k in t :: SlotOf(t[k]) }

  /** No handler outlives its lease, and receipts waiting have attempts left under the policy. */
  ghost predicate CrashFree(t: L.Table<M.Key>, maxAttempts: int, now: int) {
    forall k | k in t && t[k].state.Pending? ::
      if t[k].lease.Some? then t[k].lease.value.until > now else t[k].attempts < maxAttempts
  }

  lemma AcceptFollows(t: L.Table<M.Key>, id: ID, consumers: set<string>, now: int)
    ensures
      var step := B.Open(map c | c in consumers && (id, c) !in t :: (id, c) := now);
      B.Enabled(BookOf(t), step) && BookOf(t + M.Opened(t, id, consumers, now)) == B.Next(BookOf(t), step)
  {
  }

  /** The sweep changes nothing, and the candidate is the earliest receipt the book has waiting. */
  lemma ClaimFollows(t: L.Table<M.Key>, consumer: string, maxAttempts: int, sweptAt: int, now: int, k: M.Key, token: L.Token)
    requires sweptAt <= now && CrashFree(t, maxAttempts, now)
    requires M.Candidate(L.ReapAll(t, M.Scope(t, consumer), maxAttempts, sweptAt), consumer, maxAttempts, now, {}, k)
    ensures L.ReapAll(t, M.Scope(t, consumer), maxAttempts, sweptAt) == t
    ensures B.Enabled(BookOf(t), B.Lease(k, now))
    ensures BookOf(t[k := L.Claim(t[k], token, now)]) == B.Next(BookOf(t), B.Lease(k, now))
    ensures forall other | other in t && other.1 == consumer && other != k && B.Enabled(BookOf(t), B.Lease(other, now)) ::
              M.Earlier(t, k, other)
  {
    var swept := L.ReapAll(t, M.Scope(t, consumer), maxAttempts, sweptAt);
    forall other | other in t ensures swept[other] == t[other] {
    }
    assert swept == t;
    assert BookOf(t[k := L.Claim(t[k], token, now)]) == BookOf(t)[k := SlotOf(L.Claim(t[k], token, now))];
    forall other | other in t && other.1 == consumer && other != k && B.Enabled(BookOf(t), B.Lease(other, now))
      ensures M.Earlier(t, k, other)
    {
      assert L.Due(t[other], maxAttempts, now);
      assert other in M.DueKeys(t, consumer, maxAttempts, now, {});
    }
  }

  /** The claim finds something exactly when the book has a receipt due. */
  lemma ClaimFindsWhatIsDue(t: L.Table<M.Key>, consumer: string, maxAttempts: int, now: int)
    requires CrashFree(t, maxAttempts, now)
    ensures M.DueKeys(t, consumer, maxAttempts, now, {}) == set k | k in t && k.1 == consumer && B.Enabled(BookOf(t), B.Lease(k, now))
  {
  }

  lemma FinishFollows(t: L.Table<M.Key>, k: M.Key, token: L.Token, error: Outcome, policy: Policy, random: real, now: int)
    requires k in t && L.Holds(t[k], token, now, false)
    ensures
      var step := B.Settle(k, error, policy, random, now);
      && B.Enabled(BookOf(t), step)
      && BookOf(t[k := L.Settle(t[k], t[k].attempts, error, policy, random, now)]) == B.Next(BookOf(t), step)
  {
    var settled := L.Settle(t[k], t[k].attempts, error, policy, random, now);
    assert BookOf(t[k := settled]) == BookOf(t)[k := SlotOf(settled)];
  }

  lemma RequeueFollows(t: L.Table<M.Key>, scope: set<M.Key>, now: int)
    requires scope <= t.Keys && forall k | k in t && t[k].state.Dead? :: t[k].lease.None?
    ensures
      var step := B.Requeue(map k | k in scope && t[k].state.Dead? :: now);
      B.Enabled(BookOf(t), step) && BookOf(L.RequeueAll(t, scope, now)) == B.Next(BookOf(t), step)
  {
  }
}
