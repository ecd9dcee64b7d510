/**
 * The failure code a document ends with, from the action that failed the job to the stored document
 * (src/modules/jobs/domain/job.ts, src/workflows/document-processing/infra/job-events.ts,
 * src/modules/document/domain/document.ts).
 */
module FailureCodes {
  import opened Prelude
  import opened Ids
  import opened Workflow
  import J = Jobs
  import D = Documents

  /** Step k of the run failed this attempt of the job with this code. */
  ghost predicate Gave(created: J.Job, steps: seq<Step>, k: nat, attempt: int, code: string) {
    && k < |steps| && steps[k].action == J.DoFail(code)
    && J.Transition(Run(created, steps[..k]).0, steps[k].action, steps[k].at).Ok?
    && Run(created, steps[..k]).0.attempts == attempt
  }

  /** A failed event carries the code its step gave; a canceled one carries none. */
  ghost predicate CodeFits(created: J.Job, steps: seq<Step>, e: Event) {
    && (e.eventType.JobFailed? ==> e.failureCode.Some? && exists k: nat :: Gave(created, steps, k, e.attempts, e.failureCode.value))
    && (e.eventType.JobCanceled? ==> e.failureCode == None)
  }

  lemma GaveBefore(created: J.Job, steps: seq<Step>, n: nat)
    requires n <= |steps|
    ensures forall k: nat, attempt, code | Gave(created, steps[..n], k, attempt, code) :: Gave(created, steps, k, attempt, code)
  {
    forall k: nat, attempt, code | Gave(created, steps[..n], k, attempt, code) ensures Gave(created, steps, k, attempt, code) {
      assert steps[..n][..k] == steps[..k];
    }
  }

  lemma {:induction false} LogCodes(created: J.Job, steps: seq<Step>, e: Event)
    requires e in Run(created, steps).1
    ensures CodeFits(created, steps, e)
    decreases |steps|
  {
    if steps != [] {
      var n := |steps| - 1;
      var before, last := steps[..n], steps[n];
      var (job, log) := Run(created, before);
      if e in log {
        LogCodes(created, before, e);
        GaveBefore(created, steps, n);
      } else {
        var next := J.Transition(job, last.action, last.at).value;
        assert e == EventOf(EventTypeOf(last.action), next);
        if e.eventType.JobFailed? { assert Gave(created, steps, n, e.attempts, next.failureCode.value); }
      }
    }
  }

  /** After a failure the job runs again only as a later attempt. */
  lemma {:induction false} LaterAttempt(created: J.Job, steps: seq<Step>, k: nat, n: nat, attempt: int, code: string)
    requires Gave(created, steps, k, attempt, code) && k < n <= |steps|
    ensures var job := Run(created, steps[..n]).0; job.attempts >= attempt && (job.status.Running? ==> job.attempts > attempt)
    decreases n
  {
    var last := steps[n - 1];
    assert steps[..n][..n - 1] == steps[..n - 1];
    if n > k + 1 { LaterAttempt(created, steps, k, n - 1, attempt, code); }
  }

  /** Each attempt is failed at most once, so it has one code. */
  lemma OneCode(created: J.Job, steps: seq<Step>, k: nat, l: nat, attempt: int, a: string, b: string)
    requires Gave(created, steps, k, attempt, a) && Gave(created, steps, l, attempt, b)
    ensures k == l && a == b
  {
    if k < l {
      LaterAttempt(created, steps, k, l, attempt, a);
    } else if l < k {
      LaterAttempt(created, steps, l, k, attempt, b);
    }
  }

  /** The failure a document shows: the first delivered since it was last processing, or since it showed that of an
      earlier attempt. */
  ghost function Cause(d: D.Document, ds: seq<Delivery>): Option<Event> {
    if ds == [] || DeliverAll(d, ds).status != D.ProcessingFailed then None
    else
      var n := |ds| - 1;
      var before, e := DeliverAll(d, ds[..n]), ds[n].event;
      if Fails(e) && (before.status == D.Processing || before.attempt < e.attempts) then Some(e) else Cause(d, ds[..n])
  }

  /** The code of a failure: what its step gave the attempt; a cancellation's is job.canceled. */
  ghost predicate IsCodeOf(created: J.Job, steps: seq<Step>, e: Event, code: Option<string>) {
    if e.eventType.JobCanceled? then code == Some("job.canceled")
    else exists k: nat, given :: Gave(created, steps, k, e.attempts, given) && code == Some(given)
  }

  /** Whatever the order and repetition of deliveries: a failed document shows the code of the failure it shows, down from
      the action that failed the job; any other document shows none. */
  lemma {:induction false} FailureCodeIs(created: J.Job, d: D.Document, steps: seq<Step>, ds: seq<Delivery>)
    requires ProcessingJob(created, d) && Begun(d, created) && d.failureCode == None
    requires DrawnFrom(ds, Run(created, steps).1)
    ensures var end := DeliverAll(d, ds);
      if end.status != D.ProcessingFailed then end.failureCode == None
      else
        && Cause(d, ds).Some? && Delivered(ds, Cause(d, ds).value) && Fails(Cause(d, ds).value)
        && Cause(d, ds).value.attempts == end.attempt
        && IsCodeOf(created, steps, Cause(d, ds).value, end.failureCode)
    decreases |ds|
  {
    if ds != [] {
      var n := |ds| - 1;
      var before, last := ds[..n], ds[n];
      assert forall i | 0 <= i < n :: before[i] == ds[i];
      FailureCodeIs(created, d, steps, before);
      RunFits(created, d, steps);
      StatusDetermined(created, d, steps, before);
      var (job, log) := Run(created, steps);
      DeliverEffect(created, d, DeliverAll(d, before), job, log, last.event, last.at);
      if DeliverAll(d, ds).status == D.ProcessingFailed { ShownCode(created, d, steps, ds); }
    }
  }

  lemma ShownCode(created: J.Job, d: D.Document, steps: seq<Step>, ds: seq<Delivery>)
    requires ds != [] && ds[|ds| - 1].event in Run(created, steps).1 && DeliverAll(d, ds).status == D.ProcessingFailed
    requires
      var cur, e, end := DeliverAll(d, ds[..|ds| - 1]), ds[|ds| - 1].event, DeliverAll(d, ds);
      && cur.status in {D.Processing, D.ProcessingFailed, D.Processed}
      && (if Ignored(cur, e) then end == cur
          else Fails(e) && end.attempt == e.attempts
               && end.failureCode == if e.failureCode.Some? then e.failureCode else Some("job.canceled"))
    requires
      var before := ds[..|ds| - 1];
      DeliverAll(d, before).status == D.ProcessingFailed ==>
        && Cause(d, before).Some? && Delivered(before, Cause(d, before).value) && Fails(Cause(d, before).value)
        && Cause(d, before).value.attempts == DeliverAll(d, before).attempt
        && IsCodeOf(created, steps, Cause(d, before).value, DeliverAll(d, before).failureCode)
    ensures
      && Cause(d, ds).Some? && Delivered(ds, Cause(d, ds).value) && Fails(Cause(d, ds).value)
      && Cause(d, ds).value.attempts == DeliverAll(d, ds).attempt
      && IsCodeOf(created, steps, Cause(d, ds).value, DeliverAll(d, ds).failureCode)
  {
    var n := |ds| - 1;
    var before, e := ds[..n], ds[n].event;
    LogCodes(created, steps, e);
    if Ignored(DeliverAll(d, before), e) {
      var i :| 0 <= i < |before| && before[i].event == Cause(d, before).value;
      assert ds[i].event == Cause(d, ds).value;
    } else {
      assert ds[n].event == Cause(d, ds).value;
    }
  }

  /** Once the failure of the last allowed attempt is delivered, and no cancellation, the document ends with that
      attempt's own code. */
  lemma ExhaustionCode(created: J.Job, d: D.Document, steps: seq<Step>, ds: seq<Delivery>, e: Event, k: nat, code: string)
    requires ProcessingJob(created, d) && Begun(d, created) && d.failureCode == None
    requires DrawnFrom(ds, Run(created, steps).1)
    requires Delivered(ds, e) && e.eventType.JobFailed? && e.attempts == created.maxAttempts
    requires forall i | 0 <= i < |ds| :: !ds[i].event.eventType.JobCanceled?
    requires Gave(created, steps, k, created.maxAttempts, code)
    ensures DeliverAll(d, ds).status == D.ProcessingFailed && DeliverAll(d, ds).failureCode == Some(code)
  {
    ExhaustionConverges(created, d, steps, ds, e);
    FailureCodeIs(created, d, steps, ds);
    TopIsLast(created, d, steps, ds, e);
    var shown := Cause(d, ds).value;
    var i :| 0 <= i < |ds| && ds[i].event == shown;
    var l: nat, given :| Gave(created, steps, l, shown.attempts, given) && DeliverAll(d, ds).failureCode == Some(given);
    OneCode(created, steps, k, l, created.maxAttempts, code, given);
  }

  lemma TopIsLast(created: J.Job, d: D.Document, steps: seq<Step>, ds: seq<Delivery>, e: Event)
    requires ProcessingJob(created, d) && Begun(d, created) && DrawnFrom(ds, Run(created, steps).1)
    requires Delivered(ds, e) && Acts(e) && e.attempts == created.maxAttempts
    requires DeliverAll(d, ds).status == D.ProcessingFailed
    ensures DeliverAll(d, ds).attempt == created.maxAttempts
  {
    StatusDetermined(created, d, steps, ds);
    RunFits(created, d, steps);
    TopReached(ds, e);
    TopAttemptBounded(created, Run(created, steps).0, Run(created, steps).1, ds);
  }

  lemma {:induction false} TopReached(ds: seq<Delivery>, e: Event)
    requires Delivered(ds, e) && Acts(e)
    ensures TopAttempt(ds) >= e.attempts
    decreases |ds|
  {
    var n := |ds| - 1;
    if ds[n].event != e {
      var i :| 0 <= i < |ds| && ds[i].event == e;
      assert ds[..n][i].event == e;
      TopReached(ds[..n], e);
    }
  }
}
