/**
 * The audit projection in runs of the whole delivery: record attempts interleave with every other step, handlers crash
 * after recording, and deliveries repeat (src/modules/audit/infra/in-memory/adapters.ts,
 * src/shared/events/in-memory-inbox.ts, src/shared/events/postgres/store.ts).
 */
module AuditRuns {
  import opened Prelude
  import opened Ids
  import opened Events
  import opened Audit
  import B = Book
  import D = Delivery

  /** Entries of the store only ever grow, and the first attempt of an event stays its entry. */
  lemma {:induction false} EntriesGrow(attempts: seq<Entry>, more: seq<Entry>)
    ensures FirstPerEvent(attempts) <= FirstPerEvent(attempts + more)
    decreases |more|
  {
    if more == [] {
      assert attempts + more == attempts;
    } else {
      var n := |more| - 1;
      EntriesGrow(attempts, more[..n]);
      FirstOfMore(attempts + more[..n], more[n]);
      assert attempts + more == attempts + more[..n] + [more[n]];
    }
  }

  lemma StillRecorded(attempts: seq<Entry>, entry: Entry)
    ensures forall id | Recorded(attempts, id) :: Recorded(attempts + [entry], id)
    ensures Recorded(attempts + [entry], entry.eventId)
  {
    forall id | Recorded(attempts, id) ensures Recorded(attempts + [entry], id) {
      RecordedAppends(attempts, entry, id);
    }
    RecordedAppends(attempts, entry, entry.eventId);
  }

  // ----- On the in-process inbox -----

  /** `answered` holds the events whose current handler has recorded them. */
  datatype World = World(book: B.Slots, attempts: seq<Entry>, answered: set<ID>)

  datatype Step =
    | Inbox(step: B.Step)
    /** An attempt to record an event, by its handler or by one that was given up long ago. */
    | Record(entry: Entry)

  predicate Succeeds(step: B.Step) { step.Settle? && step.key.1 == CONSUMER && step.error.None? }

  predicate Starts(step: B.Step, id: ID) { step.Lease? && step.key == (id, CONSUMER) }

  /** A handler succeeds only after its own attempt to record; all else may happen at any time. */
  predicate Enabled(w: World, s: Step) {
    match s
    case Inbox(step) => B.Enabled(w.book, step) && (Succeeds(step) ==> step.key.0 in w.answered)
    case Record(_) => true
  }

  function Next(w: World, s: Step): World
    requires Enabled(w, s)
  {
    match s
    case Inbox(step) => w.(book := B.Next(w.book, step), answered := set id | id in w.answered && !Starts(step, id))
    case Record(entry) =>
      var key := (entry.eventId, CONSUMER);
      w.(attempts := w.attempts + [entry],
         answered := if key in w.book && w.book[key].Held? then w.answered + {entry.eventId} else w.answered)
  }

  ghost predicate Run(worlds: seq<World>, steps: seq<Step>) {
    && |worlds| == |steps| + 1 && worlds[0] == World(map[], [], {})
    && forall i | 0 <= i < |steps| :: Enabled(worlds[i], steps[i]) && worlds[i + 1] == Next(worlds[i], steps[i])
  }

  ghost predicate Fits(w: World) {
    Covered(w.book, w.attempts) && forall id | id in w.answered :: Recorded(w.attempts, id)
  }

  lemma StepFits(w: World, s: Step)
    requires Fits(w) && Enabled(w, s)
    ensures Fits(Next(w, s))
  {
    match s
    case Inbox(step) => OtherStepsKeepCover(w.book, step, w.attempts);
    case Record(entry) => StillRecorded(w.attempts, entry);
  }

  lemma {:induction false} RunFits(worlds: seq<World>, steps: seq<Step>, i: nat)
    requires Run(worlds, steps) && i < |worlds|
    ensures Fits(worlds[i])
    decreases i
  {
    if i > 0 {
      RunFits(worlds, steps, i - 1);
      StepFits(worlds[i - 1], steps[i - 1]);
    }
  }

  lemma {:induction false} AttemptsGrow(worlds: seq<World>, steps: seq<Step>, i: nat, k: nat)
    requires Run(worlds, steps) && i <= k < |worlds|
    ensures worlds[i].attempts <= worlds[k].attempts
    decreases k
  {
    if i < k {
      AttemptsGrow(worlds, steps, i, k - 1);
      assert worlds[k] == Next(worlds[k - 1], steps[k - 1]);
    }
  }

  /** In every state of every run each event has at most one entry, every finished audit delivery has one, and an entry
      once written stands. */
  lemma AuditedOnce(worlds: seq<World>, steps: seq<Step>, i: nat, k: nat)
    requires Run(worlds, steps) && i <= k < |worlds|
    ensures OnePerEvent(FirstPerEvent(worlds[i].attempts))
    ensures Covered(worlds[i].book, FirstPerEvent(worlds[i].attempts))
    ensures FirstPerEvent(worlds[i].attempts) <= FirstPerEvent(worlds[k].attempts)
  {
    RunFits(worlds, steps, i);
    EntriesArePerEvent(worlds[i].attempts);
    forall key | key in worlds[i].book && key.1 == CONSUMER && worlds[i].book[key].Done?
      ensures Recorded(FirstPerEvent(worlds[i].attempts), key.0)
    {
      EveryEventKept(worlds[i].attempts, key.0);
    }
    AttemptsGrow(worlds, steps, i, k);
    var n := |worlds[i].attempts|;
    assert worlds[k].attempts == worlds[i].attempts + worlds[k].attempts[n..];
    EntriesGrow(worlds[i].attempts, worlds[k].attempts[n..]);
  }

  // ----- On outbox, queue and mailbox -----

  /** `answered` holds the workers that recorded the event they handle. */
  datatype System = System(world: D.World, attempts: seq<Entry>, answered: set<D.Worker>)

  datatype Move =
    | Protocol(step: D.Step)
    | RecordBy(worker: D.Worker, entry: Entry)
    /** A write still under way when its worker crashed or lost its lease. */
    | RecordLate(entry: Entry)

  predicate Audits(w: D.World, worker: D.Worker) {
    worker in w.handlings && w.handlings[worker].issue.key.1 == CONSUMER
  }

  ghost predicate CanMove(s: System, m: Move, c: D.Config) {
    match m
    case Protocol(step) =>
      && D.Enabled(s.world, step, c)
      && (step.Handle? && step.result.None? && Audits(s.world, step.worker) ==> step.worker in s.answered)
    case RecordBy(worker, entry) => Audits(s.world, worker) && entry.eventId == s.world.handlings[worker].event.id
    case RecordLate(_) => true
  }

  ghost function Moved(s: System, m: Move, c: D.Config): System
    requires CanMove(s, m, c)
  {
    match m
    case Protocol(step) =>
      var next := D.Next(s.world, step, c);
      System(next, s.attempts, set k | k in s.answered && k in next.handlings)
    case RecordBy(worker, entry) => s.(attempts := s.attempts + [entry], answered := s.answered + {worker})
    case RecordLate(entry) => s.(attempts := s.attempts + [entry])
  }

  ghost predicate SystemRun(systems: seq<System>, moves: seq<Move>, c: D.Config) {
    && |systems| == |moves| + 1 && systems[0] == System(D.EMPTY, [], {})
    && forall i | 0 <= i < |moves| :: CanMove(systems[i], moves[i], c) && systems[i + 1] == Moved(systems[i], moves[i], c)
  }

  ghost predicate HandledRecorded(s: System) {
    && (forall event: Envelope | (event, CONSUMER) in s.world.handled :: Recorded(s.attempts, event.id))
    && (forall k | k in s.answered :: Audits(s.world, k) && Recorded(s.attempts, s.world.handlings[k].event.id))
  }

  predicate Publishes(step: D.Step) {
    step.PublishStored? || step.PublishDuplicate? || step.PublishRefused? || step.PublishDirect?
  }

  lemma PublishKeepsHandlings(w: D.World, step: D.Step, c: D.Config)
    requires D.Enabled(w, step, c) && Publishes(step)
    ensures D.Next(w, step, c).handled == w.handled && D.Next(w, step, c).handlings == w.handlings
  {
  }

  predicate Dispatches(step: D.Step) { step.ClaimOutbox? || step.SettleOutbox? || step.CrashDispatch? }

  lemma DispatchKeepsHandlings(w: D.World, step: D.Step, c: D.Config)
    requires D.Enabled(w, step, c) && Dispatches(step)
    ensures D.Next(w, step, c).handled == w.handled && D.Next(w, step, c).handlings == w.handlings
  {
  }

  lemma OutboxKeepsHandlings(w: D.World, step: D.Step, c: D.Config)
    requires D.Enabled(w, step, c) && D.IsOutboxStep(step) && !Publishes(step) && !Dispatches(step)
    ensures D.Next(w, step, c).handled == w.handled && D.Next(w, step, c).handlings == w.handlings
  {
  }

  lemma InboxKeepsHandlings(w: D.World, step: D.Step, c: D.Config)
    requires D.Enabled(w, step, c) && !D.IsOutboxStep(step) && !step.Handle?
    ensures
      var next := D.Next(w, step, c);
      && next.handled == w.handled
      && forall k | k in w.handlings && k in next.handlings :: next.handlings[k] == w.handlings[k]
  {
  }

  /** A worker's handling is its own until it ends, and only a handler's success counts as handled. */
  lemma HandlingsKept(w: D.World, step: D.Step, c: D.Config)
    requires D.Enabled(w, step, c) && !step.Handle?
    ensures
      var next := D.Next(w, step, c);
      && next.handled == w.handled
      && forall k | k in w.handlings && k in next.handlings :: next.handlings[k] == w.handlings[k]
  {
    if Publishes(step) {
      PublishKeepsHandlings(w, step, c);
    } else if Dispatches(step) {
      DispatchKeepsHandlings(w, step, c);
    } else if D.IsOutboxStep(step) {
      OutboxKeepsHandlings(w, step, c);
    } else {
      InboxKeepsHandlings(w, step, c);
    }
  }

  lemma HandleKept(w: D.World, worker: D.Worker, result: Outcome, c: D.Config)
    requires D.Enabled(w, D.Handle(worker, result), c)
    ensures
      var next := D.Next(w, D.Handle(worker, result), c);
      var h := w.handlings[worker];
      && next.handled == (if result.None? then w.handled + {(h.event, h.issue.key.1)} else w.handled)
      && next.handlings.Keys == w.handlings.Keys
      && forall k | k in w.handlings ::
           next.handlings[k].issue == w.handlings[k].issue && next.handlings[k].event == w.handlings[k].event
  {
  }

  lemma ProtocolRecorded(s: System, step: D.Step, c: D.Config)
    requires HandledRecorded(s) && CanMove(s, Protocol(step), c)
    ensures HandledRecorded(Moved(s, Protocol(step), c))
  {
    if step.Handle? {
      HandleKept(s.world, step.worker, step.result, c);
    } else {
      HandlingsKept(s.world, step, c);
    }
  }

  lemma MoveRecorded(s: System, m: Move, c: D.Config)
    requires HandledRecorded(s) && CanMove(s, m, c)
    ensures HandledRecorded(Moved(s, m, c))
  {
    match m
    case Protocol(step) => ProtocolRecorded(s, step, c);
    case RecordBy(_, entry) => StillRecorded(s.attempts, entry);
    case RecordLate(entry) => StillRecorded(s.attempts, entry);
  }

  lemma {:induction false} SystemFits(systems: seq<System>, moves: seq<Move>, c: D.Config, i: nat)
    requires c.Valid() && SystemRun(systems, moves, c) && i < |systems|
    ensures D.Inv(systems[i].world, c) && HandledRecorded(systems[i])
    decreases i
  {
    if i > 0 {
      SystemFits(systems, moves, c, i - 1);
      var s, m := systems[i - 1], moves[i - 1];
      MoveRecorded(s, m, c);
      if m.Protocol? { D.StepInv(s.world, m.step, c); }
    }
  }

  /** Whatever crashes, expires, repeats or comes late: in every reachable state each event has at most one audit entry,
      and one of its audit entry, its audit receipt, its message or its outbox row is there. */
  lemma AuditLosesNothing(systems: seq<System>, moves: seq<Move>, c: D.Config, i: nat, event: Envelope)
    requires c.Valid() && CONSUMER in c.subscribed && SystemRun(systems, moves, c) && i < |systems|
    requires event in systems[i].world.enqueued
    ensures OnePerEvent(FirstPerEvent(systems[i].attempts))
    ensures var w := systems[i].world;
      || D.InOutbox(w, event) || D.Queued(w, event) || D.Held(w, event, CONSUMER)
      || Recorded(FirstPerEvent(systems[i].attempts), event.id)
  {
    SystemFits(systems, moves, c, i);
    D.InvNoLoss(systems[i].world, c);
    EntriesArePerEvent(systems[i].attempts);
    EveryEventKept(systems[i].attempts, event.id);
  }

  /** Once everything has drained, every enqueued event has exactly one audit entry. */
  lemma DrainedMeansAuditedOnce(systems: seq<System>, moves: seq<Move>, c: D.Config, i: nat, event: Envelope)
    requires c.Valid() && CONSUMER in c.subscribed && SystemRun(systems, moves, c) && i < |systems|
    requires event in systems[i].world.enqueued && systems[i].world.unacked == {}
    requires var t := systems[i].world.outbox.entries; forall k | k in t :: t[k].state.Settled?
    requires var t := systems[i].world.receipts.entries; forall k | k in t :: t[k].state.Settled?
    ensures
      var entries := FirstPerEvent(systems[i].attempts);
      exists j :: 0 <= j < |entries| && entries[j].eventId == event.id
                  && forall k | 0 <= k < |entries| && entries[k].eventId == event.id :: k == j
  {
    AuditLosesNothing(systems, moves, c, i, event);
    var entries := FirstPerEvent(systems[i].attempts);
    var j :| 0 <= j < |entries| && entries[j].eventId == event.id;
    forall k | 0 <= k < |entries| && entries[k].eventId == event.id ensures k == j {
    }
  }
}
