/**
 * Job events handled concurrently for one document: each handler reads the document, applies the outcome, and commits
 * against the version it read (src/modules/document/app/commands/process-document.ts,
 * src/modules/document/infra/in-memory/writer.ts, src/workflows/document-processing/infra/job-event-subscription.ts).
 */
module DocumentRuns {
  import opened Prelude
  import opened Ids
  import J = Jobs
  import D = Documents
  import W = Workflow

  datatype Failure = Undecodable | NotFound | Domain(reason: D.Failure) | StaleWrite | PublishFailed

  /** What a handler makes of an event for the document it read: nothing to write, or a changed document. */
  function Handle(d: D.Document, e: W.Event, at: Date): Result<D.Change, Failure> {
    match W.Decode(e)
    case Err(_) => Err(Undecodable)
    case Ok(None) => Ok(D.Same)
    case Ok(Some(o)) =>
      if o.documentId != d.id || o.organizationId != d.organizationId then Err(NotFound)
      else
        match D.ApplyOutcome(d, at, W.OutcomeOf(o))
        case Err(reason) => Err(Domain(reason))
        case Ok(change) => Ok(change)
  }

  lemma HandleDelivers(d: D.Document, e: W.Event, at: Date)
    requires Handle(d, e, at).Ok?
    ensures W.Deliver(d, e, at) == D.Applied(d, Handle(d, e, at).value)
  {
  }

  /** The stored version plays no part in what an event does. */
  lemma VersionIgnored(d: D.Document, version: int, e: W.Event, at: Date)
    ensures W.Deliver(d.(version := version), e, at) == W.Deliver(d, e, at).(version := version)
  {
  }

  // ----- Runs -----

  /**
   * The states the document went through, the delivery whose commit led from each to the next, and the deliveries
   * that read each state and found nothing to do.
   */
  datatype Run = Run(states: seq<D.Document>, commits: seq<W.Delivery>, noops: seq<seq<W.Delivery>>)
  {
    function Now(): D.Document
      requires states != []
    {
      states[|states| - 1]
    }
  }

  predicate Changes(seen: D.Document, x: W.Delivery, next: D.Document) {
    Handle(seen, x.event, x.at).Ok? && Handle(seen, x.event, x.at).value.Moved?
    && next == Handle(seen, x.event, x.at).value.document.Saved()
  }

  predicate Idle(seen: D.Document, x: W.Delivery) { Handle(seen, x.event, x.at) == Ok(D.Same) }

  ghost predicate AllIdle(seen: D.Document, xs: seq<W.Delivery>) { forall x | x in xs :: Idle(seen, x) }

  ghost predicate CommitAt(run: Run, k: nat) {
    k < |run.commits| && k + 1 < |run.states| && Changes(run.states[k], run.commits[k], run.states[k + 1])
  }

  ghost predicate NoopsAt(run: Run, k: nat) {
    k < |run.noops| && k < |run.states| && AllIdle(run.states[k], run.noops[k])
  }

  ghost predicate Fits(run: Run, d: D.Document) {
    && |run.states| == |run.noops| == |run.commits| + 1 && run.states[0] == d
    && (forall k: nat | k < |run.commits| :: CommitAt(run, k))
    && (forall k | 0 <= k < |run.states| :: run.states[k].version == d.version + k)
    && (forall k: nat | k < |run.noops| :: NoopsAt(run, k))
  }

  /** One acknowledged delivery more that read state `readAt` and found nothing to do. */
  function Noted(run: Run, readAt: nat, x: W.Delivery): Run
    requires readAt < |run.noops|
  {
    run.(noops := run.noops[readAt := run.noops[readAt] + [x]])
  }

  lemma VersionKept(seen: D.Document, x: W.Delivery)
    requires Handle(seen, x.event, x.at).Ok? && Handle(seen, x.event, x.at).value.Moved?
    ensures Handle(seen, x.event, x.at).value.document.version == seen.version
  {
  }

  lemma CommittedFits(run: Run, d: D.Document, x: W.Delivery, next: D.Document)
    requires Fits(run, d) && Changes(run.Now(), x, next) && next.version == run.Now().version + 1
    ensures Fits(Run(run.states + [next], run.commits + [x], run.noops + [[]]), d)
  {
    var more := Run(run.states + [next], run.commits + [x], run.noops + [[]]);
    forall k: nat | k < |more.commits| ensures CommitAt(more, k) {
      if k < |run.commits| { assert CommitAt(run, k); }
    }
    forall k: nat | k < |more.noops| ensures NoopsAt(more, k) {
      if k < |run.noops| { assert NoopsAt(run, k); }
    }
  }

  lemma NotedFits(run: Run, d: D.Document, readAt: nat, x: W.Delivery)
    requires Fits(run, d) && readAt < |run.states| && Idle(run.states[readAt], x)
    ensures Fits(Noted(run, readAt, x), d)
  {
    var more := Noted(run, readAt, x);
    forall k: nat | k < |more.commits| ensures CommitAt(more, k) {
      assert CommitAt(run, k);
    }
    forall k: nat | k < |more.noops| ensures NoopsAt(more, k) {
      assert NoopsAt(run, k);
    }
  }

  // ----- Acknowledged deliveries act one after the other -----

  /** The deliveries in the order they act: each commit at its commit, each no-op at its read. */
  function Order(commits: seq<W.Delivery>, noops: seq<seq<W.Delivery>>): seq<W.Delivery>
    requires |noops| == |commits| + 1
    decreases |commits|
  {
    var n := |commits|;
    if n == 0 then noops[0] else Order(commits[..n - 1], noops[..n]) + [commits[n - 1]] + noops[n]
  }

  function Bare(d: D.Document): D.Document { d.(version := 0) }

  lemma {:induction false} NoopsDoNothing(d: D.Document, ds: seq<W.Delivery>, more: seq<W.Delivery>, seen: D.Document)
    requires W.DeliverAll(Bare(d), ds) == Bare(seen)
    requires AllIdle(seen, more)
    ensures W.DeliverAll(Bare(d), ds + more) == Bare(seen)
    decreases |more|
  {
    if more == [] {
      assert ds + more == ds;
    } else {
      var n := |more| - 1;
      assert Idle(seen, more[n]);
      NoopsDoNothing(d, ds, more[..n], seen);
      assert (ds + more)[..|ds + more| - 1] == ds + more[..n];
      HandleDelivers(seen, more[n].event, more[n].at);
      VersionIgnored(seen, 0, more[n].event, more[n].at);
    }
  }

  lemma CommitActs(d: D.Document, ds: seq<W.Delivery>, x: W.Delivery, seen: D.Document, next: D.Document)
    requires W.DeliverAll(Bare(d), ds) == Bare(seen) && Changes(seen, x, next)
    ensures W.DeliverAll(Bare(d), ds + [x]) == Bare(next)
  {
    assert (ds + [x])[..|ds|] == ds;
    HandleDelivers(seen, x.event, x.at);
    VersionIgnored(seen, 0, x.event, x.at);
  }

  function Shorter(run: Run): Run
    requires |run.states| == |run.noops| == |run.commits| + 1 && run.commits != []
  {
    var n := |run.commits|;
    Run(run.states[..n], run.commits[..n - 1], run.noops[..n])
  }

  lemma ShorterFits(run: Run, d: D.Document)
    requires Fits(run, d) && run.commits != []
    ensures Fits(Shorter(run), d)
  {
    var less := Shorter(run);
    forall k: nat | k < |less.commits| ensures CommitAt(less, k) {
      assert CommitAt(run, k);
    }
    forall k: nat | k < |less.noops| ensures NoopsAt(less, k) {
      assert NoopsAt(run, k);
    }
  }

  /** Concurrent handling is serializable: what is stored is what the acknowledged deliveries leave one by one. */
  lemma {:induction false} HandlingSerializable(run: Run, d: D.Document)
    requires Fits(run, d)
    ensures W.DeliverAll(Bare(d), Order(run.commits, run.noops)) == Bare(run.Now())
    decreases |run.commits|
  {
    var n := |run.commits|;
    if n == 0 {
      assert NoopsAt(run, 0);
      assert [] + run.noops[0] == run.noops[0];
      assert W.DeliverAll(Bare(d), []) == Bare(run.states[0]);
      NoopsDoNothing(d, [], run.noops[0], run.states[0]);
    } else {
      var before := Order(run.commits[..n - 1], run.noops[..n]);
      assert CommitAt(run, n - 1) && NoopsAt(run, n);
      ShorterFits(run, d);
      HandlingSerializable(Shorter(run), d);
      CommitActs(d, before, run.commits[n - 1], run.states[n - 1], run.states[n]);
      NoopsDoNothing(d, before + [run.commits[n - 1]], run.noops[n], run.states[n]);
    }
  }

  predicate Acknowledged(run: Run, x: W.Delivery) {
    x in run.commits || exists k | 0 <= k < |run.noops| :: x in run.noops[k]
  }

  lemma {:induction false} OrderHolds(commits: seq<W.Delivery>, noops: seq<seq<W.Delivery>>, x: W.Delivery)
    requires |noops| == |commits| + 1
    ensures x in Order(commits, noops) <==> x in commits || exists k | 0 <= k < |noops| :: x in noops[k]
    decreases |commits|
  {
    var n := |commits|;
    if n > 0 {
      OrderHolds(commits[..n - 1], noops[..n], x);
      assert commits == commits[..n - 1] + [commits[n - 1]];
      if k :| 0 <= k < |noops| && x in noops[k] {
        assert k < n ==> noops[..n][k] == noops[k];
      }
      if k :| 0 <= k < n && x in noops[..n][k] {
        assert x in noops[k];
      }
    } else if k :| 0 <= k < |noops| && x in noops[k] {
      assert k == 0;
    }
  }

  lemma DeliverAllBare(d: D.Document, version: int, ds: seq<W.Delivery>)
    ensures W.DeliverAll(d.(version := version), ds) == W.DeliverAll(d, ds).(version := version)
    decreases |ds|
  {
    if ds != [] {
      var n := |ds| - 1;
      DeliverAllBare(d, version, ds[..n]);
      VersionIgnored(W.DeliverAll(d, ds[..n]), version, ds[n].event, ds[n].at);
    }
  }

  ghost predicate FromLog(run: Run, log: seq<W.Event>) {
    forall x | Acknowledged(run, x) :: x.event in log && x.at.At?
  }

  lemma OrderFromLog(run: Run, d: D.Document, log: seq<W.Event>)
    requires Fits(run, d) && FromLog(run, log)
    ensures W.DrawnFrom(Order(run.commits, run.noops), log)
  {
    var ds := Order(run.commits, run.noops);
    forall i | 0 <= i < |ds| ensures ds[i].event in log && ds[i].at.At? {
      OrderHolds(run.commits, run.noops, ds[i]);
      assert Acknowledged(run, ds[i]);
    }
  }

  lemma OrderDelivers(run: Run, d: D.Document, x: W.Delivery)
    requires Fits(run, d) && Acknowledged(run, x)
    ensures W.Delivered(Order(run.commits, run.noops), x.event)
  {
    OrderHolds(run.commits, run.noops, x);
    var ds := Order(run.commits, run.noops);
    var i :| 0 <= i < |ds| && ds[i] == x;
    assert ds[i].event == x.event;
  }

  /** Convergence under concurrency: once the handling of the job's completion is acknowledged, whatever else was
      handled at the same time, the stored document is processed. */
  lemma ConcurrentCompletion(created: J.Job, d: D.Document, steps: seq<W.Step>, run: Run, x: W.Delivery)
    requires W.ProcessingJob(created, d) && W.Begun(d, created)
    requires Fits(run, d) && FromLog(run, W.Run(created, steps).1)
    requires Acknowledged(run, x) && x.event.eventType.JobCompleted?
    ensures run.Now().status == D.Processed
  {
    var ds := Order(run.commits, run.noops);
    OrderFromLog(run, d, W.Run(created, steps).1);
    OrderDelivers(run, d, x);
    W.CompletionConverges(created, d, steps, ds, x.event);
    HandlingSerializable(run, d);
    DeliverAllBare(d, 0, ds);
  }

  /** And once the failure of the last allowed attempt is acknowledged, it is processing_failed. */
  lemma ConcurrentExhaustion(created: J.Job, d: D.Document, steps: seq<W.Step>, run: Run, x: W.Delivery)
    requires W.ProcessingJob(created, d) && W.Begun(d, created)
    requires Fits(run, d) && FromLog(run, W.Run(created, steps).1)
    requires Acknowledged(run, x) && x.event.eventType.JobFailed? && x.event.attempts == created.maxAttempts
    ensures run.Now().status == D.ProcessingFailed
  {
    var ds := Order(run.commits, run.noops);
    OrderFromLog(run, d, W.Run(created, steps).1);
    OrderDelivers(run, d, x);
    W.ExhaustionConverges(created, d, steps, ds, x.event);
    HandlingSerializable(run, d);
    DeliverAllBare(d, 0, ds);
  }

  // ----- The command -----

  /** A handler of another process: which state it read, and what it delivers. */
  datatype Attempt = Attempt(readAt: nat, delivery: W.Delivery)

  class Board {
    var stored: D.Document
    var run: Run
    ghost const begun: D.Document

    ghost predicate Valid()
      reads this
    {
      Fits(run, begun) && stored == run.Now()
    }

    constructor (d: D.Document)
      ensures Valid() && begun == d && run == Run([d], [], [[]])
    {
      stored, begun, run := d, d, Run([d], [], [[]]);
    }

    /** The version-checked update of the writer; a refused publication puts the document back. */
    method Commit(ghost readAt: nat, x: W.Delivery, changed: D.Document, published: bool) returns (r: Result<(), Failure>)
      requires Valid() && readAt < |run.states|
      requires Changes(run.states[readAt], x, changed.Saved()) && run.states[readAt].version == changed.version
      modifies this
      ensures Valid()
      ensures r.Err? ==> run == old(run) && r.error in {StaleWrite, PublishFailed}
      ensures r == Err(StaleWrite) <==> readAt != |old(run.states)| - 1
      ensures r.Ok? <==> readAt == |old(run.states)| - 1 && published
      ensures r.Ok? ==> run == old(Run(run.states + [changed.Saved()], run.commits + [x], run.noops + [[]]))
    {
      if stored.version != changed.version {
        return Err(StaleWrite);
      }
      var previous := stored;
      stored := changed.Saved();
      if !published {
        stored := previous;
        return Err(PublishFailed);
      }
      CommittedFits(run, begun, x, changed.Saved());
      run := Run(run.states + [changed.Saved()], run.commits + [x], run.noops + [[]]);
      r := Ok(());
    }

    /** Apply the outcome to what was read at an earlier moment and commit it; a no-op needs no commit. An acknowledged
        delivery is in the run where it acts: at its read if it changed nothing, else as the newest commit. */
    method Finish(readAt: nat, x: W.Delivery, published: bool) returns (r: Result<(), Failure>)
      requires Valid() && readAt < |run.states|
      modifies this
      ensures Valid() && |old(run.states)| <= |run.states|
      ensures r.Err? ==> run == old(run)
      ensures r.Ok? ==>
                if Idle(old(run.states[readAt]), x) then run == Noted(old(run), readAt, x)
                else readAt == |old(run.states)| - 1 && run.commits == old(run.commits) + [x]
      ensures r.Ok? ==> Acknowledged(run, x)
      ensures r.Ok? <==> Handle(old(run.states[readAt]), x.event, x.at).Ok?
                         && (Idle(old(run.states[readAt]), x) || (readAt == |old(run.states)| - 1 && published))
    {
      var seen := run.states[readAt];
      var handled := Handle(seen, x.event, x.at);
      if handled.Err? {
        return Err(handled.error);
      }
      if handled.value.Same? {
        NotedFits(run, begun, readAt, x);
        run := Noted(run, readAt, x);
        assert x in run.noops[readAt];
        return Ok(());
      }
      VersionKept(seen, x);
      r := Commit(readAt, x, handled.value.document, published);
      if r.Ok? {
        assert run.commits[|run.commits| - 1] == x;
      }
    }

    /** A whole delivery with other handlers finishing between its read and its write. */
    method Deliver(x: W.Delivery, others: seq<Attempt>, published: bool) returns (r: Result<(), Failure>)
      requires Valid()
      modifies this
      ensures Valid()
      ensures r.Ok? ==> Acknowledged(run, x)
      ensures others == [] && published && Handle(old(run.Now()), x.event, x.at).Ok? ==> r.Ok?
    {
      var readAt := |run.states| - 1;
      for i := 0 to |others|
        invariant Valid() && readAt < |run.states| && (i == 0 ==> run == old(run))
      {
        var length := |run.states|;
        var other := Finish(Min(others[i].readAt, length - 1), others[i].delivery, true);
      }
      r := Finish(readAt, x, published);
    }
  }
}
