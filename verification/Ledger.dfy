/**
 * The delivery ledger shared by the outbox and the mailbox receipts: entries claimed under a lease,
 * settled, retried or dead-lettered (the row predicates of src/shared/events/postgres/store.ts).
 */
module Ledger {
  import opened Prelude
  import opened Retry

  type Token = string

  /** What a claim puts on a row. */
  datatype Lease = Lease(token: Token, until: int)

  /** `Settled` is 'sent' in the outbox and 'processed' in the mailbox. */
  datatype State = Pending | Settled | Dead

  datatype Entry = Entry(
    state: State,
    attempts: int,
    availableAt: int,
    lease: Option<Lease>,
    lastError: Option<string>,
    finishedAt: Option<int>)

  const LEASE_MS: int := 30000
  const LEASE_EXPIRED: string := "events.lease_expired"
  const UNDECODABLE: string := "events.undecodable"
  const MAX_ERROR: nat := 200

  function Fresh(now: int): Entry { Entry(Pending, 0, now, None, None, None) }

  predicate Unleased(e: Entry, now: int) { e.lease.None? || e.lease.value.until <= now }

  /** The dead-letter sweep that precedes every claim. */
  function Reap(e: Entry, maxAttempts: int, now: int): Entry {
    if e.state.Pending? && e.attempts >= maxAttempts && Unleased(e, now) then
      e.(state := Dead, lease := None, finishedAt := Some(now),
         lastError := if e.lastError.Some? then e.lastError else Some(LEASE_EXPIRED))
    else e
  }

  predicate Due(e: Entry, maxAttempts: int, now: int) {
    e.state.Pending? && e.attempts < maxAttempts && e.availableAt <= now && Unleased(e, now)
  }

  function Claim(e: Entry, token: Token, now: int): Entry {
    e.(lease := Some(Lease(token, now + LEASE_MS)), attempts := e.attempts + 1)
  }

  /** A claimed row whose envelope does not decode is dead before its transaction commits. */
  function Quarantine(e: Entry, now: int): Entry {
    e.(state := Dead, lease := None, attempts := e.attempts + 1, finishedAt := Some(now),
       lastError := Some(UNDECODABLE))
  }

  function Cut(error: string): string { if |error| <= MAX_ERROR then error else error[..MAX_ERROR] }

  /** What settling attempt number `attempt` with this outcome writes to the row. */
  function Settle(e: Entry, attempt: int, error: Option<string>, policy: Policy, random: real, now: int): Entry {
    var state := if error.None? then Settled else if Exhausted(policy, attempt) then Dead else Pending;
    var delay := if error.None? then 0 else RetryDelay(policy, attempt, random);
    e.(state := state, lease := None, availableAt := now + delay,
       lastError := if error.None? then None else Some(Cut(error.value)),
       finishedAt := if state.Pending? then None else Some(now))
  }

  /** Whether a settle under `token` still matches the row. Only the outbox also demands an unexpired lease. */
  predicate Holds(e: Entry, token: Token, now: int, untilExpiry: bool) {
    e.state.Pending? && e.lease.Some? && e.lease.value.token == token && (untilExpiry ==> e.lease.value.until > now)
  }

  function Requeue(e: Entry, now: int): Entry {
    e.(state := Pending, attempts := 0, availableAt := now, lastError := None, finishedAt := None)
  }

  // ----- Tables -----

  type Table<!K> = map<K, Entry>

  function ReapAll<K>(t: Table<K>, scope: set<K>, maxAttempts: int, now: int): Table<K> {
    map k | k in t :: if k in scope then Reap(t[k], maxAttempts, now) else t[k]
  }

  /** Dead entries in scope, back in the queue. */
  function RequeueAll<K>(t: Table<K>, scope: set<K>, now: int): Table<K> {
    map k | k in t :: if k in scope && t[k].state.Dead? then Requeue(t[k], now) else t[k]
  }

  // ----- A table with its claim history -----

  /** One claim handed out: which row, under which token, as which attempt. */
  datatype Issue<!K> = Issue(key: K, token: Token, attempt: int)

  /** A table, every claim ever issued on it, the latest claim of each row and the claims since its last requeue. */
  datatype History<!K> = History(entries: Table<K>, issued: set<Issue<K>>, latest: map<K, Token>, claims: map<K, int>)

  ghost predicate Used<K>(h: History<K>, token: Token) {
    exists i :: i in h.issued && i.token == token
  }

  /** What a row and the claims issued on it say about each other. */
  ghost predicate EntryFits<K>(h: History<K>, k: K, maxAttempts: int)
    requires k in h.entries
  {
    var e := h.entries[k];
    && k in h.claims && e.attempts == h.claims[k] && 0 <= e.attempts <= maxAttempts
    && (!e.state.Pending? ==> e.lease.None?)
    && (e.state.Pending? && e.lease.None? ==> e.attempts < maxAttempts)
    && (e.lease.Some? ==> k in h.latest && h.latest[k] == e.lease.value.token
                          && Issue(k, e.lease.value.token, e.attempts) in h.issued)
  }

  ghost predicate Consistent<K(!new)>(h: History<K>, maxAttempts: int) {
    && (forall k | k in h.entries :: EntryFits(h, k, maxAttempts))
    && (forall i, j | i in h.issued && j in h.issued && i.token == j.token :: i == j)
  }

  datatype Move<!K> =
    | InsertSome(keys: set<K>, now: int)
    | Sweep(scope: set<K>, now: int)
    | ClaimOne(key: K, token: Token, now: int)
    | QuarantineOne(key: K, token: Token, now: int)
    | SettleOne(issue: Issue<K>, error: Option<string>, random: real, now: int, untilExpiry: bool)
    | RequeueSome(scope: set<K>, now: int)
    | DeleteSome(scope: set<K>, now: int)

  /** The moves the statements of the store can make. */
  ghost predicate Allowed<K>(h: History<K>, m: Move<K>, policy: Policy) {
    match m
    case InsertSome(_, _) => true
    case Sweep(_, _) => true
    case ClaimOne(k, token, now) => k in h.entries && Due(h.entries[k], policy.maxAttempts, now) && !Used(h, token)
    case QuarantineOne(k, token, now) => k in h.entries && Due(h.entries[k], policy.maxAttempts, now) && !Used(h, token)
    case SettleOne(issue, _, _, _, _) => issue in h.issued
    case RequeueSome(_, _) => true
    case DeleteSome(scope, _) => forall k | k in scope && k in h.entries :: h.entries[k].state.Settled?
  }

  function ClaimsOf<K>(h: History<K>, k: K): int { if k in h.claims then h.claims[k] else 0 }

  function Apply<K>(h: History<K>, m: Move<K>, policy: Policy): History<K> {
    match m
    case InsertSome(keys, now) =>
      h.(entries := h.entries + map k | k in keys && k !in h.entries :: Fresh(now),
         claims := h.claims + map k | k in keys && k !in h.entries :: 0)
    case Sweep(scope, now) => h.(entries := ReapAll(h.entries, scope, policy.maxAttempts, now))
    case ClaimOne(k, token, now) =>
      if k !in h.entries then h
      else
        var e := Claim(h.entries[k], token, now);
        h.(entries := h.entries[k := e], issued := h.issued + {Issue(k, token, e.attempts)},
           latest := h.latest[k := token], claims := h.claims[k := ClaimsOf(h, k) + 1])
    case QuarantineOne(k, token, now) =>
      if k !in h.entries then h
      else
        var e := Quarantine(h.entries[k], now);
        h.(entries := h.entries[k := e], issued := h.issued + {Issue(k, token, e.attempts)},
           latest := h.latest[k := token], claims := h.claims[k := ClaimsOf(h, k) + 1])
    case SettleOne(i, error, random, now, untilExpiry) =>
      if i.key in h.entries && Holds(h.entries[i.key], i.token, now, untilExpiry) then
        h.(entries := h.entries[i.key := Settle(h.entries[i.key], i.attempt, error, policy, random, now)])
      else h
    case RequeueSome(scope, now) =>
      h.(entries := RequeueAll(h.entries, scope, now),
         claims := h.claims + map k | k in h.entries && k in scope && h.entries[k].state.Dead? :: 0)
    case DeleteSome(scope, _) => h.(entries := h.entries - scope)
  }

  // ----- Fencing -----

  lemma SettleFits<K(!new)>(h: History<K>, m: Move<K>, policy: Policy)
    requires Consistent(h, policy.maxAttempts) && policy.maxAttempts >= 1 && Allowed(h, m, policy) && m.SettleOne?
    ensures Consistent(Apply(h, m, policy), policy.maxAttempts)
  {
    var h' := Apply(h, m, policy);
    forall k | k in h'.entries
      ensures EntryFits(h', k, policy.maxAttempts)
    {
      assert EntryFits(h, k, policy.maxAttempts);
    }
  }

  lemma ClaimFits<K(!new)>(h: History<K>, m: Move<K>, policy: Policy)
    requires Consistent(h, policy.maxAttempts) && policy.maxAttempts >= 1 && Allowed(h, m, policy)
    requires m.ClaimOne? || m.QuarantineOne?
    ensures Consistent(Apply(h, m, policy), policy.maxAttempts)
  {
    var h' := Apply(h, m, policy);
    forall k | k in h'.entries
      ensures EntryFits(h', k, policy.maxAttempts)
    {
      assert EntryFits(h, k, policy.maxAttempts);
    }
  }

  /** Every move keeps the table and its claim history consistent. */
  lemma ApplyConsistent<K(!new)>(h: History<K>, m: Move<K>, policy: Policy)
    requires Consistent(h, policy.maxAttempts) && policy.maxAttempts >= 1 && Allowed(h, m, policy)
    ensures Consistent(Apply(h, m, policy), policy.maxAttempts)
  {
    if m.SettleOne? {
      SettleFits(h, m, policy);
    } else if m.ClaimOne? || m.QuarantineOne? {
      ClaimFits(h, m, policy);
    } else {
      var h' := Apply(h, m, policy);
      forall k | k in h'.entries
        ensures EntryFits(h', k, policy.maxAttempts)
      {
        if k in h.entries { assert EntryFits(h, k, policy.maxAttempts); }
      }
    }
  }

  /** The claim last handed out for its row, and the number of claims since the row was last requeued. */
  ghost predicate LatestClaim<K>(h: History<K>, i: Issue<K>) {
    i.key in h.latest && h.latest[i.key] == i.token && i.key in h.claims && h.claims[i.key] == i.attempt
  }

  /** A settle takes effect only for the latest claim of its row, and only for the attempt the row counts;
      any other settle is refused and changes nothing. */
  lemma OnlyLatestClaimSettles<K(!new)>(h: History<K>, m: Move<K>, policy: Policy)
    requires Consistent(h, policy.maxAttempts) && Allowed(h, m, policy) && m.SettleOne?
    ensures var i := m.issue;
      && (Apply(h, m, policy) != h ==>
            && i.key in h.entries && LatestClaim(h, i) && h.entries[i.key].attempts == i.attempt
            && (m.untilExpiry ==> h.entries[i.key].lease.value.until > m.now))
      && (i.key in h.entries && i.key in h.latest && h.latest[i.key] != i.token ==> Apply(h, m, policy) == h)
  {
    if m.issue.key in h.entries { assert EntryFits(h, m.issue.key, policy.maxAttempts); }
  }

  /** The converse: the holder of the lease on the row does settle it. */
  lemma HolderSettles<K(!new)>(h: History<K>, m: Move<K>, policy: Policy)
    requires Consistent(h, policy.maxAttempts) && Allowed(h, m, policy) && m.SettleOne?
    requires m.issue.key in h.entries && h.entries[m.issue.key].lease.Some?
    requires h.entries[m.issue.key].lease.value.token == m.issue.token
    requires m.untilExpiry ==> h.entries[m.issue.key].lease.value.until > m.now
    ensures var e := Apply(h, m, policy).entries[m.issue.key];
      && e.lease.None?
      && (e.state == if m.error.None? then Settled
                     else if h.claims[m.issue.key] >= policy.maxAttempts then Dead else Pending)
  {
    assert EntryFits(h, m.issue.key, policy.maxAttempts);
  }

  /** A token once issued never turns up on a row it was not on: leases are only ever taken under fresh tokens. */
  lemma OldTokenStays<K(!new)>(h: History<K>, m: Move<K>, policy: Policy, k: K, token: Token)
    requires Allowed(h, m, policy) && Used(h, token)
    requires k in Apply(h, m, policy).entries
    requires Apply(h, m, policy).entries[k].lease.Some? && Apply(h, m, policy).entries[k].lease.value.token == token
    ensures k in h.entries && h.entries[k].lease.Some? && h.entries[k].lease.value.token == token
  {
  }

  lemma IssuedGrows<K(!new)>(h: History<K>, m: Move<K>, policy: Policy)
    ensures h.issued <= Apply(h, m, policy).issued
  {
  }

  // ----- Runs -----

  datatype Run<!K> = Run(states: seq<History<K>>, moves: seq<Move<K>>)

  ghost predicate ValidRun<K(!new)>(r: Run<K>, policy: Policy) {
    && policy.maxAttempts >= 1
    && |r.states| == |r.moves| + 1
    && r.states[0] == History(map[], {}, map[], map[])
    && (forall i | 0 <= i < |r.moves| :: Allowed(r.states[i], r.moves[i], policy)
                                         && r.states[i + 1] == Apply(r.states[i], r.moves[i], policy))
    && (forall i, j | 0 <= i < j < |r.moves| :: r.moves[i].now <= r.moves[j].now)
  }

  lemma {:induction false} RunConsistent<K(!new)>(r: Run<K>, policy: Policy, i: nat)
    requires ValidRun(r, policy) && i < |r.states|
    ensures Consistent(r.states[i], policy.maxAttempts)
    decreases i
  {
    if i > 0 {
      RunConsistent(r, policy, i - 1);
      ApplyConsistent(r.states[i - 1], r.moves[i - 1], policy);
    }
  }

  /** Whether move k settled the claim with this token. */
  ghost predicate SettledBy<K(!new)>(r: Run<K>, k: nat, token: Token)
    requires k < |r.moves| && |r.states| == |r.moves| + 1
  {
    r.moves[k].SettleOne? && r.moves[k].issue.token == token && r.states[k + 1] != r.states[k]
  }

  /** Until its holder settles it, a claimed row stays under that very lease for the whole lease time. */
  lemma {:induction false} LeaseKept<K(!new)>(r: Run<K>, policy: Policy, i: nat, j: nat)
    requires ValidRun(r, policy) && i < j < |r.states| && r.moves[i].ClaimOne?
    requires forall k | i < k < j :: !SettledBy(r, k, r.moves[i].token)
    requires forall k | i < k < j :: r.moves[k].now < r.moves[i].now + LEASE_MS
    ensures var c := r.moves[i];
      && c.key in r.states[j].entries && r.states[j].entries[c.key].state.Pending?
      && r.states[j].entries[c.key].lease == Some(Lease(c.token, c.now + LEASE_MS))
    decreases j
  {
    if i + 1 < j {
      LeaseKept(r, policy, i, j - 1);
      RunConsistent(r, policy, j - 1);
      var c := r.moves[i];
      var h, m := r.states[j - 1], r.moves[j - 1];
      assert !SettledBy(r, j - 1, c.token);
      assert EntryFits(h, c.key, policy.maxAttempts);
    }
  }

  /** No second claim of a row lands inside a live lease: it waits until the first is settled or has expired. */
  lemma NoClaimInsideLease<K(!new)>(r: Run<K>, policy: Policy, i: nat, j: nat)
    requires ValidRun(r, policy) && i < j < |r.moves|
    requires r.moves[i].ClaimOne? && (r.moves[j].ClaimOne? || r.moves[j].QuarantineOne?)
    requires r.moves[i].key == r.moves[j].key
    requires forall k | i < k < j :: !SettledBy(r, k, r.moves[i].token)
    ensures r.moves[j].now >= r.moves[i].now + LEASE_MS
  {
    assert Allowed(r.states[j], r.moves[j], policy);
    if r.moves[j].now < r.moves[i].now + LEASE_MS {
      forall k | i < k < j
        ensures r.moves[k].now < r.moves[i].now + LEASE_MS
      {
      }
      LeaseKept(r, policy, i, j);
    }
  }
}
