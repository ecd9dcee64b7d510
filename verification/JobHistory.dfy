/**
 * What a job says about the actions taken on it: every field is told by the history of accepted actions, and which
 * action is accepted next (src/modules/jobs/domain/job.ts); and what the store makes of a submission
 * (src/modules/jobs/infra/in-memory/writer.ts, src/modules/jobs/infra/in-memory/store.ts).
 */
module JobHistory {
  import opened Prelude
  import opened Ids
  import opened J = Jobs
  import W = Workflow
  import S = JobStore
  import R = JobRuns

  // ----- Creation -----

  /** A job is created exactly from a kind of at most 120 characters, one to ten attempts, a subject of at most 64 characters
      with a valid ID, and a valid time; it is queued, with three attempts unless told otherwise. */
  lemma CreatedIff(id: ID, organizationId: ID, kind: string, subject: Option<Subject>, maxAttempts: Option<int>, at: Date)
    ensures
      var r := Create(id, organizationId, kind, subject, maxAttempts, at);
      && (r.Ok? <==> && IsWord(kind, 120) && at.At? && (maxAttempts.Some? ==> 1 <= maxAttempts.value <= 10)
                     && (subject.Some? ==> IsWord(subject.value.kind, 64) && Parse(subject.value.id).Ok?))
      && (r.Ok? ==>
            r.value == Job(id, organizationId, kind,
                           if subject.Some? then Some(Subject(subject.value.kind, Parse(subject.value.id).value)) else None,
                           Queued, 0, if maxAttempts.Some? then maxAttempts.value else 3, at.ms, at.ms, None, None, None, 0))
  {
    WordIs(kind, 120);
    if subject.Some? { WordIs(subject.value.kind, 64); }
  }

  /** Which stored rows are jobs: no lifecycle writes any other. */
  lemma RestoredIff(row: Job)
    ensures Restore(row).Ok? <==>
      && IsWord(row.kind, 120) && (row.subject.Some? ==> IsWord(row.subject.value.kind, 64) && Parse(row.subject.value.id).Ok?)
      && 0 <= row.attempts <= row.maxAttempts && 1 <= row.maxAttempts <= 10 && 1 <= row.version <= 9007199254740991
      && row.createdAt <= row.updatedAt && (row.failureCode.Some? ==> IsWord(row.failureCode.value, 128))
      && (row.status == Queued ==> row.startedAt == None && row.finishedAt == None && row.failureCode == None)
      && (row.status == Running ==>
            row.startedAt.Some? && row.finishedAt == None && row.failureCode == None && row.attempts >= 1)
      && (row.status == Succeeded ==> row.startedAt.Some? && row.finishedAt.Some? && row.failureCode == None)
      && (row.status == Failed ==> row.startedAt.Some? && row.finishedAt.Some? && row.failureCode.Some?)
      && (row.status == Canceled ==> row.finishedAt.Some?)
  {
    WordIs(row.kind, 120);
    if row.subject.Some? { WordIs(row.subject.value.kind, 64); }
    if row.failureCode.Some? { WordIs(row.failureCode.value, 128); }
  }

  // ----- The next action -----

  /** Which actions a job accepts: never before its last change, and each only in its own states. */
  lemma AcceptedIff(job: Job, action: Action, at: Date)
    ensures Transition(job, action, at).Ok? <==>
      && at.At? && job.updatedAt <= at.ms
      && match action
         case DoStart => job.status == Queued && job.attempts < job.maxAttempts
         case DoComplete => job.status == Running
         case DoFail(code) => job.status == Running && IsWord(code, 128)
         case DoRetry => job.status == Failed && job.attempts < job.maxAttempts
         case DoCancel => job.status in {Queued, Running, Failed}
  {
    if action.DoFail? { WordIs(action.code, 128); }
  }

  // ----- What the history tells -----

  /** The steps of a run that were accepted, in order. */
  ghost function Taken(created: Job, steps: seq<W.Step>): seq<W.Step> {
    if steps == [] then []
    else
      var n := |steps| - 1;
      var before := Taken(created, steps[..n]);
      if Transition(W.Run(created, steps[..n]).0, steps[n].action, steps[n].at).Ok? then before + [steps[n]] else before
  }

  ghost function Starts(taken: seq<W.Step>): nat {
    if taken == [] then 0
    else Starts(taken[..|taken| - 1]) + (if taken[|taken| - 1].action == DoStart then 1 else 0)
  }

  /** When the attempt under way or last made was started; None once the job is queued again. */
  ghost function StartTime(taken: seq<W.Step>): Option<int> {
    if taken == [] then None
    else
      var last := taken[|taken| - 1];
      match last.action
      case DoStart => if last.at.At? then Some(last.at.ms) else None
      case DoRetry => None
      case _ => StartTime(taken[..|taken| - 1])
  }

  /** Attempts count the starts; status, times and failure code are those of the last action; the rest never changes. */
  ghost predicate Tells(created: Job, taken: seq<W.Step>, job: Job) {
    && job.attempts == Starts(taken) && job.startedAt == StartTime(taken)
    && (forall i | 0 <= i < |taken| :: taken[i].at.At?)
    && (if taken == [] then job == created
        else
          var last := taken[|taken| - 1];
          && job.status == (match last.action
                            case DoStart => Running
                            case DoComplete => Succeeded
                            case DoFail(_) => Failed
                            case DoRetry => Queued
                            case DoCancel => Canceled)
          && job.updatedAt == last.at.ms
          && job.finishedAt == (if last.action in {DoStart, DoRetry} then None else Some(last.at.ms))
          && job.failureCode == (if last.action.DoFail? then Some(last.action.code) else None))
    && job.id == created.id && job.organizationId == created.organizationId && job.kind == created.kind
    && job.subject == created.subject && job.maxAttempts == created.maxAttempts && job.createdAt == created.createdAt
    && job.version == created.version
  }

  lemma TellsNext(created: Job, taken: seq<W.Step>, job: Job, step: W.Step)
    requires Tells(created, taken, job) && Transition(job, step.action, step.at).Ok?
    requires created.status == Queued && created.failureCode == None && created.finishedAt == None
    ensures Tells(created, taken + [step], Transition(job, step.action, step.at).value)
  {
    assert (taken + [step])[..|taken|] == taken;
  }

  /** Over every run of attempted actions the job says exactly what was done. */
  lemma {:induction false} HistoryTells(created: Job, steps: seq<W.Step>)
    requires created.status == Queued && created.attempts == 0 && created.startedAt == None && created.finishedAt == None
    requires created.failureCode == None
    ensures Tells(created, Taken(created, steps), W.Run(created, steps).0)
    decreases |steps|
  {
    if steps != [] {
      var n := |steps| - 1;
      HistoryTells(created, steps[..n]);
      var job := W.Run(created, steps[..n]).0;
      if Transition(job, steps[n].action, steps[n].at).Ok? {
        TellsNext(created, Taken(created, steps[..n]), job, steps[n]);
      }
    }
  }

  /** Which event an action emits. */
  ghost predicate IsEventOf(action: Action, t: W.EventType) {
    match action
    case DoStart => t == W.JobStarted
    case DoComplete => t == W.JobCompleted
    case DoFail(_) => t == W.JobFailed
    case DoRetry => t == W.JobRetried
    case DoCancel => t == W.JobCanceled
  }

  /** What the event of the `i`-th accepted action says: the attempts made by then, of a failure its code, and whose job it
      was. */
  ghost predicate Says(created: Job, taken: seq<W.Step>, log: seq<W.Event>, i: nat)
    requires i < |taken| && |log| == |taken| + 1
  {
    var e := log[i + 1];
    && IsEventOf(taken[i].action, e.eventType)
    && e.attempts == Starts(taken[..i + 1])
    && e.failureCode == (if taken[i].action.DoFail? then Some(taken[i].action.code) else None)
    && e.jobId == created.id && e.organizationId == created.organizationId
    && e.kind == created.kind && e.subject == created.subject
  }

  /** The log: the submission, then one event for each accepted action. */
  lemma {:induction false} LogTells(created: Job, steps: seq<W.Step>)
    requires created.status == Queued && created.attempts == 0 && created.startedAt == None && created.finishedAt == None
    requires created.failureCode == None
    ensures
      var log, taken := W.Run(created, steps).1, Taken(created, steps);
      && |log| == |taken| + 1 && log[0].eventType == W.JobSubmitted
      && forall i | 0 <= i < |taken| :: Says(created, taken, log, i)
    decreases |steps|
  {
    if steps != [] {
      var n := |steps| - 1;
      LogTells(created, steps[..n]);
      var (job, log) := W.Run(created, steps[..n]);
      var before := Taken(created, steps[..n]);
      if Transition(job, steps[n].action, steps[n].at).Ok? {
        HistoryTells(created, steps[..n]);
        TellsNext(created, before, job, steps[n]);
        var taken := before + [steps[n]];
        assert taken[..|before| + 1] == taken;
        forall i | 0 <= i < |taken| ensures Says(created, taken, W.Run(created, steps).1, i) {
          if i < |before| {
            assert Says(created, before, log, i);
            assert taken[..i + 1] == before[..i + 1];
          }
        }
      }
    }
  }

  // ----- The store -----

  /** A job of this organization, kind and subject that still has work ahead: queued, running, or failed with attempts
      left. */
  ghost predicate Ahead(job: Job, organizationId: ID, kind: string, subject: Subject) {
    && job.organizationId == organizationId && job.kind == kind && job.subject == Some(subject)
    && (job.status == Queued || job.status == Running || (job.status == Failed && job.attempts < job.maxAttempts))
  }

  /** A submission is accepted exactly for a new ID, and only if no job of its subject still has work ahead. */
  lemma SubmissionAcceptedIff(past: seq<S.State>, a: R.Attempt)
    requires past != [] && a.Submitted? && Create(a.id, a.organizationId, a.kind, a.subject, a.maxAttempts, a.at).Ok?
    ensures
      var now := past[|past| - 1];
      var job := Create(a.id, a.organizationId, a.kind, a.subject, a.maxAttempts, a.at).value;
      if a.id !in now && (job.subject.Some? ==> forall id | id in now :: !Ahead(now[id], a.organizationId, a.kind, job.subject.value))
      then R.After(past, a) == now[a.id := job.(version := 1)]
      else R.After(past, a) == now
  {
    var now := past[|past| - 1];
    var job := Create(a.id, a.organizationId, a.kind, a.subject, a.maxAttempts, a.at).value;
    CreatedIff(a.id, a.organizationId, a.kind, a.subject, a.maxAttempts, a.at);
    if job.subject.Some? {
      forall id | id in now
        ensures S.Matches(now[id], a.organizationId, a.kind, job.subject.value)
           <==> Ahead(now[id], a.organizationId, a.kind, job.subject.value)
      {
      }
    }
  }

  /** The jobs listed for expiry: running ones started before the bound; the earliest first, of those started at the same
      time the one stored first; as many as the limit allows, and none left out that should come before one listed. */
  lemma ListedAreEarliest(jobs: S.State, order: seq<ID>, startedBefore: int, limit: nat, r: seq<Job>)
    requires S.Lists(order, jobs) && S.Selected(jobs, order, startedBefore, limit, r)
    ensures |r| <= limit
    ensures forall i | 0 <= i < |r| ::
      r[i].id in jobs && jobs[r[i].id] == r[i] && r[i].status == Running && r[i].startedAt.Some? && r[i].startedAt.value < startedBefore
    ensures forall i, j | 0 <= i < j < |r| ::
      r[i].startedAt.value < r[j].startedAt.value
      || (r[i].startedAt.value == r[j].startedAt.value
          && exists a, b :: 0 <= a < b < |order| && order[a] == r[i].id && order[b] == r[j].id)
    ensures forall id | id in jobs && jobs[id].status == Running && jobs[id].startedAt.Some? && jobs[id].startedAt.value < startedBefore ::
      jobs[id] in r || (|r| == limit && forall i | 0 <= i < |r| :: r[i].startedAt.value <= jobs[id].startedAt.value)
  {
    forall i, j | 0 <= i < j < |r|
      ensures r[i].startedAt.value < r[j].startedAt.value
           || (r[i].startedAt.value == r[j].startedAt.value
               && exists a, b :: 0 <= a < b < |order| && order[a] == r[i].id && order[b] == r[j].id)
    {
      assert S.Precedes(jobs, order, r[i].id, r[j].id);
      var a, b := S.PlaceOf(order, r[i].id), S.PlaceOf(order, r[j].id);
      assert order[a] == r[i].id && order[b] == r[j].id;
    }
    forall id | id in jobs && jobs[id].status == Running && jobs[id].startedAt.Some? && jobs[id].startedAt.value < startedBefore
      ensures jobs[id] in r || (|r| == limit && forall i | 0 <= i < |r| :: r[i].startedAt.value <= jobs[id].startedAt.value)
    {
      assert id in S.RunningIds(jobs, startedBefore);
      if jobs[id] !in r {
        forall i | 0 <= i < |r| ensures r[i].startedAt.value <= jobs[id].startedAt.value {
          assert S.Precedes(jobs, order, r[i].id, id);
        }
      }
    }
  }
}
