/**
 * The document-processing workflow: the events a job emits, and what a document makes of them when
 * they arrive late, repeatedly and out of order (src/workflows/document-processing/infra/job-events.ts,
 * src/modules/jobs/app/commands/transition-job.ts, src/modules/document/app/commands/process-document.ts).
 */
module Workflow {
  import opened Prelude
  import opened Ids
  import J = Jobs
  import D = Documents

  const PROCESSING_KIND: string := "document.process"
  const CANCELED_CODE: string := "job.canceled"

  datatype EventType = JobSubmitted | JobStarted | JobCompleted | JobFailed | JobRetried | JobCanceled

  /** The payload fields the workflow reads. */
  datatype Event = Event(
    eventType: EventType,
    organizationId: string,
    jobId: string,
    kind: string,
    subject: Option<J.Subject>,
    attempts: int,
    failureCode: Option<string>)

  function EventTypeOf(action: J.Action): EventType {
    match action
    case DoStart => JobStarted
    case DoComplete => JobCompleted
    case DoFail(_) => JobFailed
    case DoRetry => JobRetried
    case DoCancel => JobCanceled
  }

  /** The event a committed change emits: its payload is taken from the job after the change. */
  function EventOf(t: EventType, job: J.Job): Event {
    Event(t, job.organizationId, job.id, job.kind, job.subject, job.attempts, job.failureCode)
  }

  // ----- decodeJobEvent -----

  datatype JobAction = RetryIt | CompleteIt | FailIt(failureCode: string)

  datatype JobOutcome = JobOutcome(organizationId: ID, documentId: ID, jobId: ID, attempt: int, action: JobAction)

  datatype DecodeFailure = InvalidEventId | InvalidAttempts

  function ActionOf(e: Event): Option<JobAction> {
    match e.eventType
    case JobRetried => Some(RetryIt)
    case JobCompleted => Some(CompleteIt)
    case JobFailed => Some(FailIt(if e.failureCode.Some? then e.failureCode.value else CANCELED_CODE))
    case JobCanceled => Some(FailIt(if e.failureCode.Some? then e.failureCode.value else CANCELED_CODE))
    case _ => None
  }

  /** None for events this workflow does not act on. */
  function Decode(e: Event): Result<Option<JobOutcome>, DecodeFailure> {
    var action := ActionOf(e);
    if action.None? then Ok(None)
    else if e.kind != PROCESSING_KIND then Ok(None)
    else if e.subject.None? || e.subject.value.kind != "document" then Ok(None)
    else if Parse(e.subject.value.id).Err? || Parse(e.organizationId).Err? || Parse(e.jobId).Err? then Err(InvalidEventId)
    else if e.attempts < 0 || e.attempts > MAX_SAFE_INTEGER then Err(InvalidAttempts)
    else Ok(Some(JobOutcome(Parse(e.organizationId).value, Parse(e.subject.value.id).value,
                            Parse(e.jobId).value, e.attempts, action.value)))
  }

  function OutcomeOf(o: JobOutcome): D.Outcome {
    match o.action
    case RetryIt => D.Outcome(o.jobId, o.attempt, D.Retrying, None)
    case CompleteIt => D.Outcome(o.jobId, o.attempt, D.Succeeding, None)
    case FailIt(code) => D.Outcome(o.jobId, o.attempt, D.Failing, Some(code))
  }

  /** One delivery to the subscription: the stored document before and after it. */
  function Deliver(d: D.Document, e: Event, at: Date): D.Document {
    match Decode(e)
    case Err(_) => d
    case Ok(None) => d
    case Ok(Some(o)) =>
      if o.documentId == d.id && o.organizationId == d.organizationId then D.After(d, at, OutcomeOf(o)) else d
  }

  datatype Delivery = Delivery(event: Event, at: Date)

  function DeliverAll(d: D.Document, ds: seq<Delivery>): D.Document {
    if |ds| == 0 then d
    else Deliver(DeliverAll(d, ds[..|ds| - 1]), ds[|ds| - 1].event, ds[|ds| - 1].at)
  }

  // ----- Runs of one job -----

  datatype Step = Step(action: J.Action, at: Date)

  /** A job and everything it has emitted after a run of attempted transitions; refused ones emit nothing. */
  function Run(created: J.Job, steps: seq<Step>): (J.Job, seq<Event>) {
    if |steps| == 0 then (created, [EventOf(JobSubmitted, created)])
    else
      var (job, log) := Run(created, steps[..|steps| - 1]);
      var last := steps[|steps| - 1];
      match J.Transition(job, last.action, last.at)
      case Err(_) => (job, log)
      case Ok(next) => (next, log + [EventOf(EventTypeOf(last.action), next)])
  }

  /** A freshly created processing job for document `d`. */
  ghost predicate ProcessingJob(job: J.Job, d: D.Document) {
    && J.WellFormed(job) && job.status.Queued? && job.attempts == 0
    && job.kind == PROCESSING_KIND && job.subject == Some(J.Subject("document", d.id))
    && IsId(job.id) && IsId(job.organizationId) && IsId(d.id)
    && job.organizationId == d.organizationId
  }

  ghost predicate Acts(e: Event) { e.eventType in {JobRetried, JobCompleted, JobFailed, JobCanceled} }

  ghost predicate Fails(e: Event) { e.eventType in {JobFailed, JobCanceled} }

  /** What an emitted event says about the job as it is now. */
  ghost predicate EventFits(created: J.Job, job: J.Job, e: Event) {
    && EventOf(e.eventType, created) == e.(attempts := created.attempts, failureCode := created.failureCode)
    && 0 <= e.attempts <= job.attempts
    && (e.failureCode.Some? ==> IsCode(e.failureCode.value, 128))
    && (e.eventType.JobRetried? ==> e.attempts < job.maxAttempts)
    && (e.eventType.JobCompleted? ==> job.status.Succeeded? && e.attempts == job.attempts)
    && (e.eventType.JobCanceled? ==> job.status.Canceled?)
    && (Acts(e) && job.status.Running? ==> e.attempts < job.attempts)
    && (Acts(e) && job.status.Succeeded? && e.attempts == job.attempts ==> e.eventType.JobCompleted?)
  }

  ghost predicate LogFits(created: J.Job, job: J.Job, log: seq<Event>) {
    && J.WellFormed(job) && job.Identity() == created.Identity()
    && (forall e | e in log :: EventFits(created, job, e))
  }

  lemma TransitionKeepsFit(created: J.Job, job: J.Job, step: Step, e: Event)
    requires J.WellFormed(job) && job.Identity() == created.Identity()
    requires J.Transition(job, step.action, step.at).Ok?
    ensures var next := J.Transition(job, step.action, step.at).value;
      && (EventFits(created, job, e) ==> EventFits(created, next, e))
      && EventFits(created, next, EventOf(EventTypeOf(step.action), next))
  {
    J.TransitionLegal(job, step.action, step.at);
  }

  lemma {:induction false} RunFits(created: J.Job, d: D.Document, steps: seq<Step>)
    requires ProcessingJob(created, d)
    ensures var (job, log) := Run(created, steps); LogFits(created, job, log)
    decreases |steps|
  {
    if |steps| > 0 {
      var before := steps[..|steps| - 1];
      RunFits(created, d, before);
      var (job, log) := Run(created, before);
      var last := steps[|steps| - 1];
      if J.Transition(job, last.action, last.at).Ok? {
        J.TransitionLegal(job, last.action, last.at);
        forall e | e in Run(created, steps).1
          ensures EventFits(created, Run(created, steps).0, e)
        {
          TransitionKeepsFit(created, job, last, e);
        }
      }
    }
  }

  /** An acting event of a processing job decodes to an outcome of that job's run on that document. */
  lemma ActingEventDecodes(created: J.Job, d: D.Document, job: J.Job, log: seq<Event>, e: Event)
    requires ProcessingJob(created, d) && LogFits(created, job, log) && e in log
    ensures !Acts(e) ==> Decode(e) == Ok(None)
    ensures Acts(e) ==>
      && Decode(e).Ok? && Decode(e).value.Some?
      && var o := Decode(e).value.value;
         && o.organizationId == d.organizationId && o.documentId == d.id
         && o.jobId == created.id && o.attempt == e.attempts
         && (o.action.RetryIt? <==> e.eventType.JobRetried?)
         && (o.action.CompleteIt? <==> e.eventType.JobCompleted?)
         && (o.action.FailIt? ==> IsCode(o.action.failureCode, 128))
  {
    assert IsCode(CANCELED_CODE, 128);
  }

  // ----- Convergence -----

  /** Every delivery carries an event of the log: any order, any repetition, any clock. */
  ghost predicate DrawnFrom(ds: seq<Delivery>, log: seq<Event>) {
    forall i | 0 <= i < |ds| :: ds[i].event in log && ds[i].at.At?
  }

  /** A document that has just begun waiting on the job. */
  ghost predicate Begun(d: D.Document, created: J.Job) {
    d.status.Processing? && d.run == Some(created.id) && d.attempt == 0
  }

  ghost predicate Delivered(ds: seq<Delivery>, e: Event) {
    exists i :: 0 <= i < |ds| && ds[i].event == e
  }

  ghost predicate DeliveredCompletion(ds: seq<Delivery>) {
    exists i :: 0 <= i < |ds| && ds[i].event.eventType.JobCompleted?
  }

  /** The acting event with the greatest attempt delivered so far, and its attempt; 0 before any. */
  ghost function TopAttempt(ds: seq<Delivery>): int {
    if |ds| == 0 then 0
    else
      var before := TopAttempt(ds[..|ds| - 1]);
      var e := ds[|ds| - 1].event;
      if Acts(e) then Max(before, e.attempts) else before
  }

  /** Of the acting events at the top attempt, whether the last one delivered was a failure. */
  ghost function TopFailed(ds: seq<Delivery>): bool {
    if |ds| == 0 then false
    else
      var e := ds[|ds| - 1].event;
      if Acts(e) && e.attempts >= TopAttempt(ds[..|ds| - 1]) then Fails(e) else TopFailed(ds[..|ds| - 1])
  }

  /** A document whose current run is the job. */
  ghost predicate Waiting(d: D.Document, cur: D.Document, created: J.Job) {
    && cur.id == d.id && cur.organizationId == d.organizationId && cur.run == Some(created.id)
    && cur.status in {D.Processing, D.ProcessingFailed, D.Processed}
  }

  /** What one delivery does to a waiting document. */
  lemma DeliverStep(created: J.Job, d: D.Document, cur: D.Document, job: J.Job, log: seq<Event>, e: Event, at: Date)
    requires ProcessingJob(created, d) && LogFits(created, job, log) && e in log && at.At?
    requires Waiting(d, cur, created)
    ensures var next := Deliver(cur, e, at);
      && Waiting(d, next, created)
      && (if !Acts(e) || cur.status.Processed? || e.attempts < cur.attempt then next == cur
          else next.attempt == e.attempts
               && next.status == if e.eventType.JobCompleted? then D.Processed
                                 else if Fails(e) then D.ProcessingFailed else D.Processing)
  {
    ActingEventDecodes(created, d, job, log, e);
    assert EventFits(created, job, e);
    assert job.attempts <= 10;
  }

  /** A delivery a waiting document ignores: what is over or older, and what it already shows. */
  ghost predicate Ignored(cur: D.Document, e: Event) {
    || !Acts(e) || cur.status.Processed? || e.attempts < cur.attempt
    || (e.eventType.JobRetried? && cur.status.Processing? && e.attempts == cur.attempt)
    || (Fails(e) && cur.status.ProcessingFailed? && e.attempts == cur.attempt)
  }

  /** Any other one it takes over: status, attempt, time, and of a failure its code; a cancellation has no code of its own. */
  lemma DeliverEffect(created: J.Job, d: D.Document, cur: D.Document, job: J.Job, log: seq<Event>, e: Event, at: Date)
    requires ProcessingJob(created, d) && LogFits(created, job, log) && e in log && at.At?
    requires Waiting(d, cur, created) && (cur.status.Processing? ==> cur.failureCode == None)
    ensures Deliver(cur, e, at) ==
      if Ignored(cur, e) then cur
      else
        cur.(status := if e.eventType.JobCompleted? then D.Processed else if Fails(e) then D.ProcessingFailed else D.Processing,
             attempt := e.attempts,
             failureCode := if !Fails(e) then None
                            else if e.failureCode.Some? then e.failureCode else Some("job.canceled"),
             updatedAt := if at.ms < cur.updatedAt then cur.updatedAt else at.ms)
  {
    ActingEventDecodes(created, d, job, log, e);
    assert EventFits(created, job, e);
    assert job.attempts <= 10;
  }

  /** The status a document reaches is a function of the completion, the top attempt and its last verdict. */
  lemma {:induction false} StatusDetermined(created: J.Job, d: D.Document, steps: seq<Step>, ds: seq<Delivery>)
    requires ProcessingJob(created, d) && Begun(d, created)
    requires DrawnFrom(ds, Run(created, steps).1)
    ensures var end := DeliverAll(d, ds);
      && Waiting(d, end, created)
      && (if DeliveredCompletion(ds) then end.status == D.Processed
          else end.attempt == TopAttempt(ds)
               && end.status == if TopFailed(ds) then D.ProcessingFailed else D.Processing)
    decreases |ds|
  {
    if |ds| > 0 {
      var before, last := ds[..|ds| - 1], ds[|ds| - 1];
      assert forall i | 0 <= i < |before| :: before[i] == ds[i];
      StatusDetermined(created, d, steps, before);
      RunFits(created, d, steps);
      var (job, log) := Run(created, steps);
      DeliverStep(created, d, DeliverAll(d, before), job, log, last.event, last.at);
      CompletionSplit(ds);
      TopAttemptBounded(created, job, log, before);
      assert EventFits(created, job, last.event);
    }
  }

  lemma CompletionSplit(ds: seq<Delivery>)
    requires |ds| > 0
    ensures DeliveredCompletion(ds)
       <==> DeliveredCompletion(ds[..|ds| - 1]) || ds[|ds| - 1].event.eventType.JobCompleted?
  {
    var before := ds[..|ds| - 1];
    if DeliveredCompletion(before) {
      var i :| 0 <= i < |before| && before[i].event.eventType.JobCompleted?;
      assert ds[i].event.eventType.JobCompleted?;
    }
    if DeliveredCompletion(ds) && !ds[|ds| - 1].event.eventType.JobCompleted? {
      var i :| 0 <= i < |ds| && ds[i].event.eventType.JobCompleted?;
      assert before[i].event.eventType.JobCompleted?;
    }
  }

  lemma {:induction false} TopAttemptBounded(created: J.Job, job: J.Job, log: seq<Event>, ds: seq<Delivery>)
    requires LogFits(created, job, log) && DrawnFrom(ds, log)
    ensures 0 <= TopAttempt(ds) <= job.attempts
    decreases |ds|
  {
    if |ds| > 0 {
      assert forall i | 0 <= i < |ds| - 1 :: ds[..|ds| - 1][i] == ds[i];
      TopAttemptBounded(created, job, log, ds[..|ds| - 1]);
    }
  }

  /** Once the job's completed event is among the deliveries, the document ends processed. */
  lemma CompletionConverges(created: J.Job, d: D.Document, steps: seq<Step>, ds: seq<Delivery>, e: Event)
    requires ProcessingJob(created, d) && Begun(d, created)
    requires DrawnFrom(ds, Run(created, steps).1)
    requires Delivered(ds, e) && e.eventType.JobCompleted?
    ensures DeliverAll(d, ds).status == D.Processed
  {
    StatusDetermined(created, d, steps, ds);
  }

  /** Once the failed event of the last allowed attempt is among them, it ends processing_failed. */
  lemma ExhaustionConverges(created: J.Job, d: D.Document, steps: seq<Step>, ds: seq<Delivery>, e: Event)
    requires ProcessingJob(created, d) && Begun(d, created)
    requires DrawnFrom(ds, Run(created, steps).1)
    requires Delivered(ds, e) && e.eventType.JobFailed? && e.attempts == created.maxAttempts
    ensures DeliverAll(d, ds).status == D.ProcessingFailed
  {
    var (job, log) := Run(created, steps);
    RunFits(created, d, steps);
    StatusDetermined(created, d, steps, ds);
    forall i | 0 <= i < |ds|
      ensures EventFits(created, job, ds[i].event)
    {
    }
    assert EventFits(created, job, e);
    LastVerdict(ds, e.attempts, true);
  }

  /** When all acting events at the greatest attempt agree, they decide the last verdict in any order. */
  lemma {:induction false} LastVerdict(ds: seq<Delivery>, top: int, failed: bool)
    requires forall i | 0 <= i < |ds| && Acts(ds[i].event) ::
               ds[i].event.attempts < top || (ds[i].event.attempts == top && Fails(ds[i].event) == failed)
    requires exists i :: 0 <= i < |ds| && Acts(ds[i].event) && ds[i].event.attempts == top
    requires top >= 0
    ensures TopAttempt(ds) == top && TopFailed(ds) == failed
    decreases |ds|
  {
    var before, last := ds[..|ds| - 1], ds[|ds| - 1].event;
    assert forall i | 0 <= i < |before| :: before[i] == ds[i];
    TopBelow(before, top);
    if !(Acts(last) && last.attempts == top) {
      var i :| 0 <= i < |ds| && Acts(ds[i].event) && ds[i].event.attempts == top;
      assert before[i] == ds[i];
      LastVerdict(before, top, failed);
    }
  }

  lemma {:induction false} TopBelow(ds: seq<Delivery>, most: int)
    requires most >= 0
    requires forall i | 0 <= i < |ds| && Acts(ds[i].event) :: ds[i].event.attempts <= most
    ensures TopAttempt(ds) <= most
    decreases |ds|
  {
    if |ds| > 0 {
      assert forall i | 0 <= i < |ds| - 1 :: ds[..|ds| - 1][i] == ds[i];
      TopBelow(ds[..|ds| - 1], most);
    }
  }

  // ----- Exactly when the order of delivery does not matter -----

  ghost function Events(ds: seq<Delivery>): set<Event> {
    set i | 0 <= i < |ds| :: ds[i].event
  }

  /** Deliveries that hand over exactly the events of E, each at least once. */
  ghost predicate Covers(ds: seq<Delivery>, E: set<Event>) {
    Events(ds) == E && forall i | 0 <= i < |ds| :: ds[i].at.At?
  }

  /** Every way of delivering the events of E ends in the same status. */
  ghost predicate OrderIndependent(d: D.Document, E: set<Event>) {
    forall a, b :: Covers(a, E) && Covers(b, E) ==> DeliverAll(d, a).status == DeliverAll(d, b).status
  }

  /** A failure and the retry of that very attempt, with nothing above them and no completion. */
  ghost predicate ConflictPair(E: set<Event>, f: Event, g: Event) {
    && f in E && g in E && Fails(f) && g.eventType.JobRetried? && f.attempts == g.attempts
    && forall e | e in E :: !e.eventType.JobCompleted? && (Acts(e) ==> e.attempts <= f.attempts)
  }

  ghost predicate Conflict(E: set<Event>) {
    exists f, g :: ConflictPair(E, f, g)
  }

  /** The order of delivery is irrelevant if and only if the top attempt delivered is not both failed and retried. */
  lemma OrderIndependentIffNoConflict(created: J.Job, d: D.Document, steps: seq<Step>, E: set<Event>)
    requires ProcessingJob(created, d) && Begun(d, created)
    requires forall e | e in E :: e in Run(created, steps).1
    ensures OrderIndependent(d, E) <==> !Conflict(E)
  {
    if Conflict(E) {
      var f, g :| ConflictPair(E, f, g);
      var a, b := ConflictDiverges(created, d, steps, E, f, g);
      assert Covers(a, E) && Covers(b, E);
    } else {
      forall a, b | Covers(a, E) && Covers(b, E)
        ensures DeliverAll(d, a).status == DeliverAll(d, b).status
      {
        AgreementDecides(created, d, steps, E, a);
        AgreementDecides(created, d, steps, E, b);
      }
    }
  }

  /** The status a conflict-free set of events leads to. */
  ghost function Verdict(E: set<Event>): D.Status {
    if exists e :: e in E && e.eventType.JobCompleted? then D.Processed
    else if exists e :: e in E && Fails(e) && forall f | f in E && Acts(f) :: f.attempts <= e.attempts then D.ProcessingFailed
    else D.Processing
  }

  lemma AgreementDecides(created: J.Job, d: D.Document, steps: seq<Step>, E: set<Event>, ds: seq<Delivery>)
    requires ProcessingJob(created, d) && Begun(d, created)
    requires forall e | e in E :: e in Run(created, steps).1
    requires !Conflict(E) && Covers(ds, E)
    ensures DeliverAll(d, ds).status == Verdict(E)
  {
    var (job, log) := Run(created, steps);
    RunFits(created, d, steps);
    forall i | 0 <= i < |ds|
      ensures ds[i].event in E && EventFits(created, job, ds[i].event)
    {
      assert ds[i].event in Events(ds);
    }
    StatusDetermined(created, d, steps, ds);
    if e :| e in E && e.eventType.JobCompleted? {
      assert e in Events(ds);
    } else if exists e :: e in E && Acts(e) {
      var e := Highest(E);
      assert e in Events(ds);
      forall i | 0 <= i < |ds| && Acts(ds[i].event)
        ensures ds[i].event.attempts < e.attempts
             || (ds[i].event.attempts == e.attempts && Fails(ds[i].event) == Fails(e))
      {
        var f := ds[i].event;
        if f.attempts == e.attempts && Fails(f) != Fails(e) {
          assert ConflictPair(E, if Fails(f) then f else e, if Fails(f) then e else f);
        }
      }
      var i :| 0 <= i < |ds| && ds[i].event == e;
      LastVerdict(ds, e.attempts, Fails(e));
    } else {
      NothingActs(ds);
    }
  }

  lemma {:induction false} NothingActs(ds: seq<Delivery>)
    requires forall i | 0 <= i < |ds| :: !Acts(ds[i].event)
    ensures !TopFailed(ds)
    decreases |ds|
  {
    if |ds| > 0 {
      assert forall i | 0 <= i < |ds| - 1 :: ds[..|ds| - 1][i] == ds[i];
      NothingActs(ds[..|ds| - 1]);
    }
  }

  lemma {:induction false} Highest(E: set<Event>) returns (top: Event)
    requires exists e :: e in E && Acts(e)
    ensures top in E && Acts(top) && forall f | f in E && Acts(f) :: f.attempts <= top.attempts
    decreases |E|
  {
    top :| top in E && Acts(top);
    var rest := E - {top};
    if exists e :: e in rest && Acts(e) {
      var other := Highest(rest);
      if top.attempts < other.attempts { top := other; }
    }
  }

  /** A conflict is observable even when every event is delivered exactly once: two orders disagree. */
  lemma ConflictDiverges(created: J.Job, d: D.Document, steps: seq<Step>, E: set<Event>, f: Event, g: Event)
    returns (a: seq<Delivery>, b: seq<Delivery>)
    requires ProcessingJob(created, d) && Begun(d, created)
    requires forall e | e in E :: e in Run(created, steps).1
    requires ConflictPair(E, f, g)
    ensures Covers(a, E) && Covers(b, E) && |a| == |b| == |E|
    ensures DeliverAll(d, a).status == D.ProcessingFailed && DeliverAll(d, b).status == D.Processing
  {
    var base := Enumerate(E - {f, g});
    var df, dg := Delivery(f, At(0)), Delivery(g, At(0));
    a, b := base + [dg, df], base + [df, dg];
    assert E - {f, g} == E - {g, f};
    TailOf(E, base, df, dg);
    TailOf(E, base, dg, df);
    ConflictEnds(created, d, steps, E, base, dg, df, f.attempts);
    ConflictEnds(created, d, steps, E, base, df, dg, f.attempts);
  }

  lemma ConflictEnds(created: J.Job, d: D.Document, steps: seq<Step>, E: set<Event>, base: seq<Delivery>,
                     x: Delivery, y: Delivery, top: int)
    requires ProcessingJob(created, d) && Begun(d, created)
    requires forall e | e in E :: e in Run(created, steps).1
    requires forall e | e in E :: !e.eventType.JobCompleted? && (Acts(e) ==> e.attempts <= top)
    requires Covers(base + [x, y], E)
    requires Acts(x.event) && Acts(y.event) && x.event.attempts == y.event.attempts == top
    ensures DeliverAll(d, base + [x, y]).status == if Fails(y.event) then D.ProcessingFailed else D.Processing
  {
    var ds := base + [x, y];
    RunFits(created, d, steps);
    forall i | 0 <= i < |ds|
      ensures ds[i].event in E
    {
      assert ds[i].event in Events(ds);
    }
    assert forall i | 0 <= i < |base| :: base[i] == ds[i];
    assert ds[|base|] == x;
    assert EventFits(created, Run(created, steps).0, x.event);
    StatusDetermined(created, d, steps, ds);
    LastTwo(base, x, y, top);
  }

  lemma TailOf(E: set<Event>, base: seq<Delivery>, x: Delivery, y: Delivery)
    requires Covers(base, E - {x.event, y.event}) && x.event in E && y.event in E && x.at.At? && y.at.At?
    ensures Covers(base + [x, y], E)
  {
    EventsAppend(base, x);
    EventsAppend(base + [x], y);
    assert base + [x] + [y] == base + [x, y];
  }

  lemma EventsAppend(base: seq<Delivery>, x: Delivery)
    ensures Events(base + [x]) == Events(base) + {x.event}
  {
    var ds := base + [x];
    assert ds[|base|] == x;
    forall e | e in Events(base)
      ensures e in Events(ds)
    {
      var i :| 0 <= i < |base| && base[i].event == e;
      assert ds[i].event == e;
    }
  }

  lemma LastTwo(base: seq<Delivery>, x: Delivery, y: Delivery, top: int)
    requires top >= 0 && Acts(x.event) && Acts(y.event) && x.event.attempts == y.event.attempts == top
    requires forall i | 0 <= i < |base| && Acts(base[i].event) :: base[i].event.attempts <= top
    ensures TopFailed(base + [x, y]) == Fails(y.event)
  {
    var ds := base + [x, y];
    assert ds[..|ds| - 1] == base + [x];
    TopBelow(base + [x], top);
  }

  lemma {:induction false} Enumerate(E: set<Event>) returns (ds: seq<Delivery>)
    ensures Covers(ds, E) && |ds| == |E|
    decreases |E|
  {
    if E == {} {
      ds := [];
    } else {
      var e :| e in E;
      var rest := Enumerate(E - {e});
      ds := rest + [Delivery(e, At(0))];
      EventsAppend(rest, Delivery(e, At(0)));
    }
  }

  // ----- Delivery in emission order -----

  /** The document status a job status stands for. */
  ghost function Projection(s: J.Status): D.Status {
    match s
    case Queued => D.Processing
    case Running => D.Processing
    case Succeeded => D.Processed
    case Failed => D.ProcessingFailed
    case Canceled => D.ProcessingFailed
  }

  ghost predicate InOrder(ds: seq<Delivery>, log: seq<Event>) {
    |ds| == |log| && forall i | 0 <= i < |ds| :: ds[i].event == log[i] && ds[i].at.At?
  }

  /** Delivered once each in emission order, a job's events keep the document equal to the job's projection. */
  lemma {:induction false} InOrderSimulation(created: J.Job, d: D.Document, steps: seq<Step>, ds: seq<Delivery>)
    requires ProcessingJob(created, d) && Begun(d, created)
    requires InOrder(ds, Run(created, steps).1)
    ensures var end := DeliverAll(d, ds); var job := Run(created, steps).0;
      Waiting(d, end, created) && end.status == Projection(job.status) && end.attempt <= job.attempts
    decreases |steps|
  {
    var (job, log) := Run(created, steps);
    RunFits(created, d, steps);
    if |steps| == 0 {
      assert ds[..|ds| - 1] == [];
      DeliverStep(created, d, d, job, log, ds[0].event, ds[0].at);
    } else {
      var before, last := steps[..|steps| - 1], steps[|steps| - 1];
      var (job0, log0) := Run(created, before);
      RunFits(created, d, before);
      match J.Transition(job0, last.action, last.at)
      case Err(_) =>
        InOrderSimulation(created, d, before, ds);
      case Ok(next) =>
        assert forall i | 0 <= i < |log0| :: log[i] == log0[i];
        InOrderSimulation(created, d, before, ds[..|ds| - 1]);
        J.TransitionLegal(job0, last.action, last.at);
        var d0 := ds[|ds| - 1];
        assert d0.event == EventOf(EventTypeOf(last.action), next);
        DeliverStep(created, d, DeliverAll(d, ds[..|ds| - 1]), job, log, d0.event, d0.at);
    }
  }

  lemma RunAppend(created: J.Job, steps: seq<Step>, step: Step)
    requires J.Transition(Run(created, steps).0, step.action, step.at).Ok?
    ensures var (job, log) := Run(created, steps);
      var next := J.Transition(job, step.action, step.at).value;
      Run(created, steps + [step]) == (next, log + [EventOf(EventTypeOf(step.action), next)])
  {
    assert (steps + [step])[..|steps|] == steps;
  }

  /** A late copy of a failure already retried flips the document back: the job is queued, the document failed. */
  lemma LateFailureExample(created: J.Job, d: D.Document)
    requires ProcessingJob(created, d) && Begun(d, created) && created.maxAttempts >= 2
    ensures var t := At(created.updatedAt);
      var steps := [Step(J.DoStart, t), Step(J.DoFail("x"), t), Step(J.DoRetry, t)];
      var (job, log) := Run(created, steps);
      && |log| == 4 && job.status.Queued?
      && DeliverAll(d, [Delivery(log[2], t), Delivery(log[3], t)]).status == D.Processing
      && DeliverAll(d, [Delivery(log[3], t), Delivery(log[2], t)]).status == D.ProcessingFailed
  {
    var t := At(created.updatedAt);
    var s1, s2, s3 := Step(J.DoStart, t), Step(J.DoFail("x"), t), Step(J.DoRetry, t);
    var (job, log) := Run(created, [s1, s2, s3]);
    assert IsCode("x", 128);
    RunAppend(created, [], s1);
    RunAppend(created, [s1], s2);
    RunAppend(created, [s1, s2], s3);
    assert [] + [s1] == [s1] && [s1] + [s2] == [s1, s2] && [s1, s2] + [s3] == [s1, s2, s3];
    assert log[3].eventType.JobRetried? && log[2].eventType.JobFailed? && log[2].attempts == log[3].attempts == 1;
    var f, g := Delivery(log[2], t), Delivery(log[3], t);
    RunFits(created, d, [s1, s2, s3]);
    StatusDetermined(created, d, [s1, s2, s3], [f, g]);
    StatusDetermined(created, d, [s1, s2, s3], [g, f]);
    LastTwo([], f, g, 1);
    LastTwo([], g, f, 1);
    assert [] + [f, g] == [f, g] && [] + [g, f] == [g, f];
  }
}
