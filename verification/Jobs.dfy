/** The Job aggregate: a queued, running, finished lifecycle with bounded attempts (src/modules/jobs/domain/job.ts). */
module Jobs {
  import opened Prelude
  import opened Ids

  datatype Status = Queued | Running | Succeeded | Failed | Canceled

  datatype Subject = Subject(kind: string, id: ID)

  datatype Job = Job(
    id: ID,
    organizationId: ID,
    kind: string,
    subject: Option<Subject>,
    status: Status,
    attempts: int,
    maxAttempts: int,
    createdAt: int,
    updatedAt: int,
    startedAt: Option<int>,
    finishedAt: Option<int>,
    failureCode: Option<string>,
    version: int)
  {
    /** Work is still ahead: queued, running, or failed with attempts left. */
    predicate Open() {
      status.Queued? || status.Running? || (status.Failed? && attempts < maxAttempts)
    }

    /** The state storage holds after a successful write. */
    function Saved(): Job { this.(version := version + 1) }

    /** The fields no transition may touch. */
    function Identity(): (ID, ID, string, Option<Subject>, int, int, int) {
      (id, organizationId, kind, subject, maxAttempts, createdAt, version)
    }
  }

  datatype Failure =
    | InvalidKind | InvalidSubject | InvalidAttempts | InvalidFailureCode | InvalidCreatedAt
    | InvalidState | NonMonotonicTime | InvalidTime
    | NotQueued | AttemptsExhausted | NotRunning | NotFailed | NotCancelable

  const UNSAVED: int := 0

  function ParseSubject(subject: Option<Subject>): Result<Option<Subject>, Failure> {
    if subject.None? then Ok(None)
    else if !IsCode(subject.value.kind, 64) then Err(InvalidSubject)
    else
      match Parse(subject.value.id)
      case Err(_) => Err(InvalidSubject)
      case Ok(id) => Ok(Some(Subject(subject.value.kind, id)))
  }

  function Create(id: ID, organizationId: ID, kind: string, subject: Option<Subject>,
                  maxAttempts: Option<int>, createdAt: Date): Result<Job, Failure>
  {
    if !IsCode(kind, 120) then Err(InvalidKind)
    else if maxAttempts.Some? && !(1 <= maxAttempts.value <= 10) then Err(InvalidAttempts)
    else if ParseSubject(subject).Err? then Err(InvalidSubject)
    else if createdAt.InvalidDate? then Err(InvalidCreatedAt)
    else
      Ok(Job(id, organizationId, kind, ParseSubject(subject).value, Queued, 0,
             if maxAttempts.Some? then maxAttempts.value else 3,
             createdAt.ms, createdAt.ms, None, None, None, UNSAVED))
  }

  /** Rebuild a job from a stored row, refusing rows no lifecycle could have written. */
  function Restore(row: Job): Result<Job, Failure> {
    if !IsCode(row.kind, 120) then Err(InvalidKind)
    else if ParseSubject(row.subject).Err? then Err(InvalidSubject)
    else if
      || row.attempts < 0 || row.attempts > MAX_SAFE_INTEGER
      || row.maxAttempts < 1 || row.maxAttempts > 10
      || row.attempts > row.maxAttempts
      || (row.failureCode.Some? && !IsCode(row.failureCode.value, 128))
      || row.version < 1 || row.version > MAX_SAFE_INTEGER
    then Err(InvalidState)
    else if row.updatedAt < row.createdAt then Err(NonMonotonicTime)
    else if
      || (row.status.Queued? && (row.startedAt.Some? || row.finishedAt.Some? || row.failureCode.Some?))
      || (row.status.Running?
          && (row.startedAt.None? || row.finishedAt.Some? || row.failureCode.Some? || row.attempts < 1))
      || (row.status.Succeeded? && (row.startedAt.None? || row.finishedAt.None? || row.failureCode.Some?))
      || (row.status.Failed? && (row.startedAt.None? || row.finishedAt.None? || row.failureCode.None?))
      || (row.status.Canceled? && row.finishedAt.None?)
    then Err(InvalidState)
    else Ok(row.(subject := ParseSubject(row.subject).value))
  }

  // ----- Transitions -----

  function TransitionTime(job: Job, at: Date): Result<int, Failure> {
    if at.InvalidDate? then Err(InvalidTime)
    else if at.ms < job.updatedAt then Err(NonMonotonicTime)
    else Ok(at.ms)
  }

  function Start(job: Job, at: Date): Result<Job, Failure> {
    var time := TransitionTime(job, at);
    if time.Err? then Err(time.error)
    else if !job.status.Queued? then Err(NotQueued)
    else if job.attempts >= job.maxAttempts then Err(AttemptsExhausted)
    else Ok(job.(status := Running, attempts := job.attempts + 1, updatedAt := time.value,
                 startedAt := Some(time.value), finishedAt := None, failureCode := None))
  }

  function Complete(job: Job, at: Date): Result<Job, Failure> {
    var time := TransitionTime(job, at);
    if time.Err? then Err(time.error)
    else if !job.status.Running? then Err(NotRunning)
    else Ok(job.(status := Succeeded, updatedAt := time.value, finishedAt := Some(time.value)))
  }

  function Fail(job: Job, at: Date, code: string): Result<Job, Failure> {
    var time := TransitionTime(job, at);
    if time.Err? then Err(time.error)
    else if !job.status.Running? then Err(NotRunning)
    else if !IsCode(code, 128) then Err(InvalidFailureCode)
    else Ok(job.(status := Failed, updatedAt := time.value, finishedAt := Some(time.value),
                 failureCode := Some(code)))
  }

  function Retry(job: Job, at: Date): Result<Job, Failure> {
    var time := TransitionTime(job, at);
    if time.Err? then Err(time.error)
    else if !job.status.Failed? then Err(NotFailed)
    else if job.attempts >= job.maxAttempts then Err(AttemptsExhausted)
    else Ok(job.(status := Queued, updatedAt := time.value, startedAt := None, finishedAt := None,
                 failureCode := None))
  }

  function Cancel(job: Job, at: Date): Result<Job, Failure> {
    var time := TransitionTime(job, at);
    if time.Err? then Err(time.error)
    else if job.status.Succeeded? || job.status.Canceled? then Err(NotCancelable)
    else Ok(job.(status := Canceled, updatedAt := time.value, finishedAt := Some(time.value),
                 failureCode := None))
  }

  datatype Action = DoStart | DoComplete | DoFail(code: string) | DoRetry | DoCancel

  /** The dispatch of TransitionJob. */
  function Transition(job: Job, action: Action, at: Date): Result<Job, Failure> {
    match action
    case DoStart => Start(job, at)
    case DoComplete => Complete(job, at)
    case DoFail(code) => Fail(job, at, code)
    case DoRetry => Retry(job, at)
    case DoCancel => Cancel(job, at)
  }

  // ----- What every transition keeps -----

  /** The lifecycle invariant of a job in memory; `Restore` demands the same of a stored row. */
  ghost predicate WellFormed(job: Job) {
    job.version >= 0 && Restore(job.(version := 1)) == Ok(job.(version := 1))
  }

  lemma CreateWellFormed(id: ID, organizationId: ID, kind: string, subject: Option<Subject>,
                         maxAttempts: Option<int>, createdAt: Date)
    ensures var r := Create(id, organizationId, kind, subject, maxAttempts, createdAt);
      r.Ok? ==> WellFormed(r.value) && r.value.Open() && r.value.version == UNSAVED
  {
    if subject.Some? && Parse(subject.value.id).Ok? {
      ParseIdempotent(subject.value.id);
    }
  }

  /** The legal edges of the lifecycle, with what each one does to the attempt count. */
  ghost predicate Edge(a: Job, b: Job) {
    match (a.status, b.status)
    case (Queued, Running) => b.attempts == a.attempts + 1
    case (Running, Succeeded) => b.attempts == a.attempts
    case (Running, Failed) => b.attempts == a.attempts
    case (Failed, Queued) => b.attempts == a.attempts < a.maxAttempts
    case (Queued, Canceled) => b.attempts == a.attempts
    case (Running, Canceled) => b.attempts == a.attempts
    case (Failed, Canceled) => b.attempts == a.attempts
    case _ => false
  }

  /** A transition follows an edge of the lifecycle, keeps the job storable and its identity, never rewinds
      time, never starts more than maxAttempts attempts, and never reopens a closed job. */
  lemma TransitionLegal(job: Job, action: Action, at: Date)
    requires WellFormed(job) && Transition(job, action, at).Ok?
    ensures var next := Transition(job, action, at).value;
      && WellFormed(next)
      && next.Identity() == job.Identity()
      && Edge(job, next)
      && job.updatedAt <= next.updatedAt == at.ms
      && (next.Open() ==> job.Open())
  {
  }

  /** Every edge of the lifecycle is reachable: some action takes it whenever time does not rewind. */
  lemma EdgeComplete(job: Job, target: Status, at: int)
    requires WellFormed(job) && at >= job.updatedAt
    requires exists next: Job :: Edge(job, next) && next.status == target
    requires job.status.Queued? && target.Running? ==> job.attempts < job.maxAttempts
    ensures exists action :: Transition(job, action, At(at)).Ok?
              && Transition(job, action, At(at)).value.status == target
  {
    var action := match target
      case Running => DoStart
      case Succeeded => DoComplete
      case Failed => DoFail("x")
      case Queued => DoRetry
      case Canceled => DoCancel;
    assert Transition(job, action, At(at)).Ok?;
  }

  /** What is written comes back: a well-formed job, once saved, restores to itself. */
  lemma SavedRestores(job: Job)
    requires WellFormed(job) && job.version < MAX_SAFE_INTEGER
    ensures Restore(job.Saved()) == Ok(job.Saved())
  {
  }
}
