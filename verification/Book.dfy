/**
 * One consumer's view of delivery: per event and consumer a receipt that waits, is held by a handler, is done, or is
 * dead. The process-local inbox and a PostgreSQL mailbox whose leases never expire both follow it
 * (src/shared/events/in-memory-inbox.ts, src/shared/events/postgres/store.ts).
 */
module Book {
  import opened Prelude
  import opened Ids
  import opened Events
  import opened Retry

  type Key = (ID, string)

  datatype Slot =
    | Waiting(attempts: int, availableAt: int)
    | Held(attempts: int)
    | Done(attempts: int)
    | Dead(attempts: int)

  type Slots = map<Key, Slot>

  datatype Step =
    /** The named receipts and when each falls due; the clock may be read anew for each. */
    | Open(due: map<Key, int>)
    | Lease(key: Key, now: int)
    | Settle(key: Key, error: Outcome, policy: Policy, random: real, now: int)
    | Requeue(due: map<Key, int>)

  predicate Enabled(slots: Slots, step: Step) {
    match step
    case Open(due) => due.Keys !! slots.Keys
    case Lease(key, now) => key in slots && slots[key].Waiting? && slots[key].availableAt <= now
    case Settle(key, _, _, _, _) => key in slots && slots[key].Held?
    case Requeue(due) => due.Keys <= slots.Keys && forall k | k in due :: slots[k].Dead?
  }

  /** The outcome of a held attempt: done, dead after the last attempt, or waiting for its retry. */
  function Settled(attempts: int, error: Outcome, policy: Policy, random: real, now: int): Slot {
    if error.None? then Done(attempts)
    else if Retry.Exhausted(policy, attempts) then Dead(attempts)
    else Waiting(attempts, now + RetryDelay(policy, attempts, random))
  }

  function Next(slots: Slots, step: Step): Slots
    requires Enabled(slots, step)
  {
    match step
    case Open(due) => slots + map k | k in due :: Waiting(0, due[k])
    case Lease(key, _) => slots[key := Held(slots[key].attempts + 1)]
    case Settle(key, error, policy, random, now) => slots[key := Settled(slots[key].attempts, error, policy, random, now)]
    case Requeue(due) => map k | k in slots :: if k in due then Waiting(0, due[k]) else slots[k]
  }

  /** What a step may touch: leases and settles one receipt, opening and requeueing the named ones. */
  function Touched(step: Step): set<Key> {
    match step
    case Open(due) => due.Keys
    case Lease(key, _) => {key}
    case Settle(key, _, _, _, _) => {key}
    case Requeue(due) => due.Keys
  }

  lemma OthersUntouched(slots: Slots, step: Step, k: Key)
    requires Enabled(slots, step) && k in slots && k !in Touched(step)
    ensures k in Next(slots, step) && Next(slots, step)[k] == slots[k]
  {
  }

  /** Within the policy: a receipt that waits has attempts left. */
  ghost predicate WithinPolicy(slots: Slots, maxAttempts: int) {
    forall k | k in slots && slots[k].Waiting? :: 0 <= slots[k].attempts < maxAttempts
  }

  lemma StepWithinPolicy(slots: Slots, step: Step, maxAttempts: int)
    requires Enabled(slots, step) && WithinPolicy(slots, maxAttempts) && maxAttempts >= 1
    requires step.Settle? ==> step.policy.maxAttempts == maxAttempts && slots[step.key].attempts >= 0
    ensures WithinPolicy(Next(slots, step), maxAttempts)
  {
  }

  // ----- Progress -----

  /** Attempts a receipt still has before it is dead. */
  function Left(slot: Slot, maxAttempts: int): int {
    if slot.Waiting? || slot.Held? then maxAttempts - slot.attempts else 0
  }

  ghost function Sum(slots: Slots, keys: set<Key>, maxAttempts: int): int
    requires keys <= slots.Keys
    decreases |keys|
  {
    if keys == {} then 0
    else
      var k :| k in keys;
      Left(slots[k], maxAttempts) + Sum(slots, keys - {k}, maxAttempts)
  }

  ghost function KeysOf(slots: Slots, consumer: string): set<Key> { set k | k in slots && k.1 == consumer }

  /** The attempts all pending receipts of a consumer still have. */
  ghost function Budget(slots: Slots, consumer: string, maxAttempts: int): int {
    Sum(slots, KeysOf(slots, consumer), maxAttempts)
  }

  lemma {:induction false} SumTakes(slots: Slots, keys: set<Key>, maxAttempts: int, k: Key)
    requires keys <= slots.Keys && k in keys
    ensures Sum(slots, keys, maxAttempts) == Left(slots[k], maxAttempts) + Sum(slots, keys - {k}, maxAttempts)
    decreases |keys|
  {
    var first :| first in keys && Sum(slots, keys, maxAttempts) == Left(slots[first], maxAttempts) + Sum(slots, keys - {first}, maxAttempts);
    if first != k {
      SumTakes(slots, keys - {first}, maxAttempts, k);
      SumTakes(slots, keys - {k}, maxAttempts, first);
      assert keys - {first} - {k} == keys - {k} - {first};
    }
  }

  lemma {:induction false} SumSame(a: Slots, b: Slots, keys: set<Key>, maxAttempts: int)
    requires keys <= a.Keys && keys <= b.Keys
    requires forall k | k in keys :: Left(a[k], maxAttempts) == Left(b[k], maxAttempts)
    ensures Sum(a, keys, maxAttempts) == Sum(b, keys, maxAttempts)
    decreases |keys|
  {
    if k :| k in keys {
      SumTakes(a, keys, maxAttempts, k);
      SumTakes(b, keys, maxAttempts, k);
      SumSame(a, b, keys - {k}, maxAttempts);
    }
  }

  lemma BudgetChange(slots: Slots, key: Key, slot: Slot, consumer: string, maxAttempts: int)
    requires key in slots
    ensures Budget(slots[key := slot], consumer, maxAttempts)
         == Budget(slots, consumer, maxAttempts)
            + (if key.1 == consumer then Left(slot, maxAttempts) - Left(slots[key], maxAttempts) else 0)
  {
    var keys, next := KeysOf(slots, consumer), slots[key := slot];
    assert KeysOf(next, consumer) == keys;
    if key.1 == consumer {
      SumTakes(slots, keys, maxAttempts, key);
      SumTakes(next, keys, maxAttempts, key);
      SumSame(slots, next, keys - {key}, maxAttempts);
    } else {
      SumSame(slots, next, keys, maxAttempts);
    }
  }

  /** One delivery, lease and settle, strictly lowers the budget exactly when the receipt had attempts left; other
      consumers keep theirs. */
  lemma DeliveryLowersBudget(slots: Slots, key: Key, error: Outcome, policy: Policy, random: real, now: int, later: int,
                             consumer: string)
    requires Enabled(slots, Lease(key, now))
    ensures
      var leased := Next(slots, Lease(key, now));
      && Enabled(leased, Settle(key, error, policy, random, later))
      && var settled := Next(leased, Settle(key, error, policy, random, later));
      var before, after := Budget(slots, consumer, policy.maxAttempts), Budget(settled, consumer, policy.maxAttempts);
      if key.1 == consumer then after < before <==> slots[key].attempts < policy.maxAttempts
      else after == before
  {
    var leased := Next(slots, Lease(key, now));
    var settled := Next(leased, Settle(key, error, policy, random, later));
    BudgetChange(slots, key, leased[key], consumer, policy.maxAttempts);
    BudgetChange(leased, key, settled[key], consumer, policy.maxAttempts);
  }

  /** A run of a book from no receipts at all. */
  ghost predicate Run(books: seq<Slots>, steps: seq<Step>) {
    && |books| == |steps| + 1 && books[0] == map[]
    && forall i | 0 <= i < |steps| :: Enabled(books[i], steps[i]) && books[i + 1] == Next(books[i], steps[i])
  }

  /** Every settle of the run is decided with these many attempts. */
  ghost predicate UnderPolicy(steps: seq<Step>, maxAttempts: int) {
    forall i | 0 <= i < |steps| && steps[i].Settle? :: steps[i].policy.maxAttempts == maxAttempts
  }

  ghost predicate Counted(slots: Slots) { forall k | k in slots :: slots[k].attempts >= 0 }

  lemma {:induction false} RunWithinPolicy(books: seq<Slots>, steps: seq<Step>, maxAttempts: int, i: nat)
    requires Run(books, steps) && UnderPolicy(steps, maxAttempts) && maxAttempts >= 1 && i < |books|
    ensures WithinPolicy(books[i], maxAttempts) && Counted(books[i])
    decreases i
  {
    if i > 0 {
      RunWithinPolicy(books, steps, maxAttempts, i - 1);
      StepWithinPolicy(books[i - 1], steps[i - 1], maxAttempts);
    }
  }

  /** Under one policy a delivery that follows any run strictly lowers its consumer's budget and no other's. */
  lemma OnePolicyLowersBudget(books: seq<Slots>, steps: seq<Step>, i: nat, key: Key, error: Outcome, policy: Policy,
                              random: real, now: int, later: int, consumer: string)
    requires Run(books, steps) && UnderPolicy(steps, policy.maxAttempts) && policy.maxAttempts >= 1 && i < |books|
    requires Enabled(books[i], Lease(key, now))
    ensures
      var leased := Next(books[i], Lease(key, now));
      && Enabled(leased, Settle(key, error, policy, random, later))
      && var settled := Next(leased, Settle(key, error, policy, random, later));
      var before, after := Budget(books[i], consumer, policy.maxAttempts), Budget(settled, consumer, policy.maxAttempts);
      if key.1 == consumer then after < before else after == before
  {
    RunWithinPolicy(books, steps, policy.maxAttempts, i);
    DeliveryLowersBudget(books[i], key, error, policy, random, now, later, consumer);
  }

  /** A receipt opened, then failed once while two attempts were allowed. */
  function LoweredRun(key: Key): (seq<Slots>, seq<Step>) {
    var two := Policy(2, 1000, 1000);
    ([map[], map[key := Waiting(0, 0)], map[key := Held(1)], map[key := Waiting(1, 500)]],
     [Open(map[key := 0]), Lease(key, 0), Settle(key, Some("down"), two, 0.0, 0)])
  }

  /** With the policy lowered to one attempt after it, the next delivery is still made and lowers nothing. */
  lemma LoweredPolicyKeepsBudget(key: Key)
    ensures
      var (books, steps) := LoweredRun(key);
      var one := Policy(1, 1000, 1000);
      && Run(books, steps) && Enabled(books[3], Lease(key, 1000))
      && var leased := Next(books[3], Lease(key, 1000));
      && Enabled(leased, Settle(key, None, one, 0.0, 1000))
      && var settled := Next(leased, Settle(key, None, one, 0.0, 1000));
      Budget(settled, key.1, 1) == Budget(books[3], key.1, 1)
  {
    var (books, steps) := LoweredRun(key);
    var half := Ceiling(Policy(2, 1000, 1000), 1) as real / 2.0;
    assert RetryDelay(Policy(2, 1000, 1000), 1, 0.0) == (half + 0.0 * half).Floor == 500;
    var leased := Next(books[3], Lease(key, 1000));
    var settled := Next(leased, Settle(key, None, Policy(1, 1000, 1000), 0.0, 1000));
    BudgetChange(books[3], key, leased[key], key.1, 1);
    BudgetChange(leased, key, settled[key], key.1, 1);
  }

  // ----- A consumer drains -----

  datatype Turn = Turn(id: ID, now: int, error: Outcome, random: real, later: int)

  function Deliver(slots: Slots, consumer: string, turn: Turn, policy: Policy): Slots
    requires Enabled(slots, Lease((turn.id, consumer), turn.now))
  {
    var leased := Next(slots, Lease((turn.id, consumer), turn.now));
    Next(leased, Settle((turn.id, consumer), turn.error, policy, turn.random, turn.later))
  }

  ghost predicate Deliveries(slots: Slots, consumer: string, turns: seq<Turn>, policy: Policy)
    decreases |turns|
  {
    turns == [] ||
    (Enabled(slots, Lease((turns[0].id, consumer), turns[0].now)) &&
     Deliveries(Deliver(slots, consumer, turns[0], policy), consumer, turns[1..], policy))
  }

  lemma {:induction false} SumNonNegative(slots: Slots, keys: set<Key>, maxAttempts: int)
    requires keys <= slots.Keys
    requires forall k | k in keys :: Left(slots[k], maxAttempts) >= 0
    ensures Sum(slots, keys, maxAttempts) >= 0
    decreases |keys|
  {
    if k :| k in keys {
      SumTakes(slots, keys, maxAttempts, k);
      SumNonNegative(slots, keys - {k}, maxAttempts);
    }
  }

  /** However handlers answer, a consumer makes at most as many deliveries as its receipts have attempts left. */
  lemma {:induction false} DeliveriesEnd(slots: Slots, consumer: string, turns: seq<Turn>, policy: Policy)
    requires policy.maxAttempts >= 1 && WithinPolicy(slots, policy.maxAttempts)
    requires forall k | k in slots && k.1 == consumer :: !slots[k].Held?
    requires Deliveries(slots, consumer, turns, policy)
    ensures |turns| <= Budget(slots, consumer, policy.maxAttempts)
    decreases |turns|
  {
    if turns == [] {
      SumNonNegative(slots, KeysOf(slots, consumer), policy.maxAttempts);
    } else {
      var t := turns[0];
      var key := (t.id, consumer);
      var leased := Next(slots, Lease(key, t.now));
      DeliveryLowersBudget(slots, key, t.error, policy, t.random, t.now, t.later, consumer);
      StepWithinPolicy(slots, Lease(key, t.now), policy.maxAttempts);
      StepWithinPolicy(leased, Settle(key, t.error, policy, t.random, t.later), policy.maxAttempts);
      DeliveriesEnd(Deliver(slots, consumer, t, policy), consumer, turns[1..], policy);
    }
  }
}
